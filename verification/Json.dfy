/** Decoded JSON, and what can be seen of it from its root. */
module Json {
  import opened Options

  datatype Json =
    | Null
    | Bool(b: bool)
    | Number(text: string)
    | Str(s: string)
    | Array(elems: seq<Json>)
    | Object(members: map<string, Json>)

  datatype Step = Key(key: string) | Index(index: nat)

  type Path = seq<Step>

  function At(j: Json, p: Path): Option<Json> {
    if p == [] then Some(j)
    else match (j, p[0])
      case (Object(m), Key(k)) => if k in m then At(m[k], p[1..]) else None
      case (Array(xs), Index(i)) => if i < |xs| then At(xs[i], p[1..]) else None
      case _ => None
  }

  /** What a node is, without what is inside it. */
  datatype Shape = Leaf(value: Json) | AnObject | AnArray(length: nat)

  function ShapeOf(j: Json): Shape {
    match j
    case Object(_) => AnObject
    case Array(xs) => AnArray(|xs|)
    case _ => Leaf(j)
  }

  function See(j: Json, p: Path): Option<Shape> {
    match At(j, p)
    case None => None
    case Some(v) => Some(ShapeOf(v))
  }

  lemma HasMember(j: Json, k: string)
    requires j.Object?
    ensures At(j, [Key(k)]) == if k in j.members then Some(j.members[k]) else None
  {
    assert [Key(k)][1..] == [];
  }

  /** What is seen at every path determines the document. */
  lemma {:induction false} SeeDetermines(a: Json, b: Json)
    requires forall p :: See(a, p) == See(b, p)
    ensures a == b
  {
    assert See(a, []) == See(b, []);
    match a
    case Array(xs) =>
      forall i | 0 <= i < |xs| ensures xs[i] == b.elems[i] {
        forall p ensures See(xs[i], p) == See(b.elems[i], p) {
          assert ([Index(i)] + p)[1..] == p;
          assert See(a, [Index(i)] + p) == See(b, [Index(i)] + p);
        }
        SeeDetermines(xs[i], b.elems[i]);
      }
    case Object(m) =>
      forall k ensures k in m <==> k in b.members {
        HasMember(a, k);
        HasMember(b, k);
        assert See(a, [Key(k)]) == See(b, [Key(k)]);
      }
      forall k | k in m ensures m[k] == b.members[k] {
        forall p ensures See(m[k], p) == See(b.members[k], p) {
          assert ([Key(k)] + p)[1..] == p;
          assert See(a, [Key(k)] + p) == See(b, [Key(k)] + p);
        }
        SeeDetermines(m[k], b.members[k]);
      }
    case _ =>
  }

  /** The document with the node at a path replaced. */
  function Replace(j: Json, p: Path, v: Json): Json
    requires At(j, p).Some?
    decreases p
  {
    if p == [] then v
    else match p[0]
      case Key(k) => Object(j.members[k := Replace(j.members[k], p[1..], v)])
      case Index(i) => Array(j.elems[i := Replace(j.elems[i], p[1..], v)])
  }

  function Child(j: Json, p: Path): Json
    requires p != [] && At(j, p).Some?
  {
    match p[0] case Key(k) => j.members[k] case Index(i) => j.elems[i]
  }

  lemma ReplaceDown(j: Json, p: Path, v: Json, q: Path)
    requires p != [] && q != [] && p[0] == q[0] && At(j, p).Some?
    ensures At(Child(j, p), p[1..]).Some?
    ensures At(Replace(j, p, v), q) == At(Replace(Child(j, p), p[1..], v), q[1..])
    ensures At(j, q) == At(Child(j, p), q[1..])
  {
  }

  lemma ReplaceAside(j: Json, p: Path, v: Json, q: Path)
    requires p != [] && At(j, p).Some? && (q == [] || p[0] != q[0])
    ensures See(Replace(j, p, v), q) == See(j, q)
  {
  }

  lemma BelowStep(p: Path, q: Path)
    requires p != [] && q != [] && p[0] == q[0]
    ensures p <= q <==> p[1..] <= q[1..]
    ensures |p| <= |q| ==> q[1..][|p| - 1..] == q[|p|..]
  {
    assert p == [p[0]] + p[1..] && q == [q[0]] + q[1..];
  }

  /** Replacing a node is seen at and below it and nowhere else. */
  lemma {:induction false} ReplaceIsLocal(j: Json, p: Path, v: Json, q: Path)
    requires At(j, p).Some?
    ensures p <= q ==> At(Replace(j, p, v), q) == At(v, q[|p|..])
    ensures !(p <= q) ==> See(Replace(j, p, v), q) == See(j, q)
    decreases p
  {
    if p == [] {
      assert q[0..] == q;
    } else if q != [] && p[0] == q[0] {
      ReplaceDown(j, p, v, q);
      ReplaceIsLocal(Child(j, p), p[1..], v, q[1..]);
      BelowStep(p, q);
    } else {
      ReplaceAside(j, p, v, q);
    }
  }
}
