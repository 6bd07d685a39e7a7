/** The audit log's view of a payload: fields masked by name or by path, and in selective
    mode everything not selected dropped, in one walk over the tree. */
module AuditWalk {
  import opened Options
  import opened Json
  import opened Strings

  // ----------------------------------------------------------------- masking

  datatype Pattern = Pattern(maskType: string, mask: string)

  const DEFAULT_MASK := "[MASKED]"

  function Stars(n: nat): string {
    seq(n, _ => '*')
  }

  function MaskLast4(s: string): string {
    if |s| <= 4 then Stars(|s|) else Stars(|s| - 4) + s[|s| - 4..]
  }

  /** A masked value keeps its length and shows at most its last four characters, and
      none of a value of four or fewer. */
  lemma MaskLast4Hides(s: string, i: nat)
    requires i < |s|
    ensures |MaskLast4(s)| == |s|
    ensures MaskLast4(s)[i] == if |s| > 4 && i >= |s| - 4 then s[i] else '*'
  {
  }

  /** `show` is how a value that is not a string prints. */
  function ApplyMask(v: Json, p: Pattern, show: Json -> string): string {
    var text := if v.Str? then v.s else show(v);
    if p.maskType == "last4" then MaskLast4(text)
    else if p.mask != "" then p.mask
    else DEFAULT_MASK
  }

  // ---------------------------------------------------------------- the walk

  /** Patterns by key name and by full path; the keep set, where fields are selected. */
  datatype Rules = Rules(byKey: map<string, Pattern>, byPath: map<string, Pattern>,
                         keep: Option<set<string>>, show: Json -> string)

  function PatternFor(r: Rules, key: string, full: string): Option<Pattern> {
    if key in r.byKey then Some(r.byKey[key])
    else if full in r.byPath then Some(r.byPath[full])
    else None
  }

  predicate Drops(r: Rules, key: string, full: string) {
    PatternFor(r, key, full).None? && r.keep.Some? && full !in r.keep.value
  }

  /** A pattern by key name goes before one by path, and a field with neither is dropped exactly
      if fields are selected and it is not among them. */
  lemma RuleTells(r: Rules, key: string, full: string)
    ensures key in r.byKey ==> PatternFor(r, key, full) == Some(r.byKey[key])
    ensures key !in r.byKey && full in r.byPath ==> PatternFor(r, key, full) == Some(r.byPath[full])
    ensures key !in r.byKey && full !in r.byPath ==> PatternFor(r, key, full) == None
    ensures Drops(r, key, full) <==> key !in r.byKey && full !in r.byPath && r.keep.Some? && full !in r.keep.value
  {
  }

  /** The mask of kind "last4" shows the end of the value; any other is a text that does not
      depend on the value, its own or "[MASKED]". */
  lemma MaskTells(v: Json, p: Pattern, show: Json -> string)
    ensures p.maskType == "last4" && v.Str? ==> ApplyMask(v, p, show) == MaskLast4(v.s)
    ensures p.maskType == "last4" && !v.Str? ==> ApplyMask(v, p, show) == MaskLast4(show(v))
    ensures p.maskType != "last4" ==> ApplyMask(v, p, show) == (if p.mask == "" then "[MASKED]" else p.mask)
  {
  }

  function Walked(j: Json, prefix: string, r: Rules): Json
    decreases j, 1
  {
    match j
    case Object(m) =>
      Object(map k | k in m && !Drops(r, k, prefix + k) :: WalkedMember(k, m[k], prefix, r))
    case Array(xs) => Array(seq(|xs|, i requires 0 <= i < |xs| => Walked(xs[i], prefix, r)))
    case _ => j
  }

  function WalkedMember(key: string, v: Json, prefix: string, r: Rules): Json
    decreases v, 2
  {
    match PatternFor(r, key, prefix + key)
    case Some(p) => Str(ApplyMask(v, p, r.show))
    case None => Walked(v, prefix + key + ".", r)
  }

  /** The walk over an object, visiting its keys in whatever order the map gives them. */
  method WalkMap(j: Json, prefix: string, r: Rules) returns (node: map<string, Json>)
    requires j.Object?
    ensures Object(node) == Walked(j, prefix, r)
    decreases j, 0
  {
    node := j.members;
    var todo := node.Keys;
    while todo != {}
      invariant todo <= j.members.Keys && node.Keys <= j.members.Keys
      invariant forall k :: k in todo ==> k in node && node[k] == j.members[k]
      invariant forall k :: k in j.members && k !in todo ==> (k in node <==> !Drops(r, k, prefix + k))
      invariant forall k :: k in node && k !in todo ==> node[k] == WalkedMember(k, j.members[k], prefix, r)
      decreases todo
    {
      var key :| key in todo;
      todo := todo - {key};
      var v := WalkMember(key, node[key], prefix, r);
      node := if v.Some? then node[key := v.value] else node - {key};
    }
  }

  /** One member: masked, dropped, walked into, or left alone. */
  method WalkMember(key: string, v: Json, prefix: string, r: Rules) returns (out: Option<Json>)
    ensures out == if Drops(r, key, prefix + key) then None else Some(WalkedMember(key, v, prefix, r))
    decreases v, 1
  {
    var full := prefix + key;
    if key in r.byKey {
      return Some(Str(ApplyMask(v, r.byKey[key], r.show)));
    }
    if full in r.byPath {
      return Some(Str(ApplyMask(v, r.byPath[full], r.show)));
    }
    if r.keep.Some? && full !in r.keep.value {
      return None;
    }
    match v {
      case Object(_) =>
        var child := WalkMap(v, full + ".", r);
        return Some(Object(child));
      case Array(_) =>
        var child := WalkSlice(v, full + ".", r);
        return Some(Array(child));
      case _ =>
        return Some(v);
    }
  }

  /** The walk over an array forwards the same prefix to every element. */
  method WalkSlice(j: Json, prefix: string, r: Rules) returns (elems: seq<Json>)
    requires j.Array?
    ensures Array(elems) == Walked(j, prefix, r)
    decreases j, 0
  {
    elems := j.elems;
    for i := 0 to |j.elems|
      invariant |elems| == |j.elems|
      invariant forall k :: 0 <= k < i ==> elems[k] == Walked(j.elems[k], prefix, r)
      invariant forall k :: i <= k < |elems| ==> elems[k] == j.elems[k]
    {
      match j.elems[i] {
        case Object(_) =>
          var child := WalkMap(j.elems[i], prefix, r);
          elems := elems[i := Object(child)];
        case Array(_) =>
          var child := WalkSlice(j.elems[i], prefix, r);
          elems := elems[i := Array(child)];
        case _ =>
      }
    }
  }

  // ------------------------------------------------------ path by path

  /** The dotted prefix in force below a path; positions in arrays do not show. */
  function PrefixAt(prefix: string, p: Path): string
    decreases p
  {
    if p == [] then prefix
    else PrefixAt(if p[0].Key? then prefix + p[0].key + "." else prefix, p[1..])
  }

  function FullAt(prefix: string, p: Path, i: nat): string
    requires i < |p| && p[i].Key?
  {
    PrefixAt(prefix, p[..i]) + p[i].key
  }

  function MaskAt(r: Rules, prefix: string, p: Path, i: nat): Option<Pattern>
    requires i < |p|
  {
    if p[i].Key? then PatternFor(r, p[i].key, FullAt(prefix, p, i)) else None
  }

  predicate DroppedAt(r: Rules, prefix: string, p: Path, i: nat)
    requires i < |p|
  {
    p[i].Key? && Drops(r, p[i].key, FullAt(prefix, p, i))
  }

  /** No key on the path is masked or dropped before position n. */
  predicate ClearTo(r: Rules, prefix: string, p: Path, n: nat)
    requires n <= |p|
  {
    forall i :: 0 <= i < n ==> MaskAt(r, prefix, p, i).None? && !DroppedAt(r, prefix, p, i)
  }

  lemma ShiftPath(r: Rules, prefix: string, p: Path, i: nat)
    requires 0 < i < |p|
    ensures var next := PrefixAt(prefix, p[..1]);
            && MaskAt(r, prefix, p, i) == MaskAt(r, next, p[1..], i - 1)
            && DroppedAt(r, prefix, p, i) == DroppedAt(r, next, p[1..], i - 1)
  {
    assert p[..i][1..] == p[1..][..i - 1];
    assert p[..1] == [p[0]];
    assert [p[0]][1..] == [];
  }

  /** What the walk does at one step of a path. */
  lemma WalkStep(j: Json, p: Path, prefix: string, r: Rules)
    requires p != []
    ensures At(Walked(j, prefix, r), p) ==
              if At(j, [p[0]]).None? || DroppedAt(r, prefix, p, 0) then None
              else if MaskAt(r, prefix, p, 0).Some? then
                At(Str(ApplyMask(At(j, [p[0]]).value, MaskAt(r, prefix, p, 0).value, r.show)), p[1..])
              else At(Walked(At(j, [p[0]]).value, PrefixAt(prefix, p[..1]), r), p[1..])
  {
    assert [p[0]][1..] == [] && p[..1] == [p[0]] && p[..0] == [];
    assert PrefixAt(prefix, p[..1]) == if p[0].Key? then prefix + p[0].key + "." else prefix;
  }

  /** What a walked tree shows at one path, without reference to how the walk goes about it: a
      path no key of which is masked or dropped shows what it showed; a path whose last key
      is the first masked one shows the mask; below a masked key, and from a dropped key on,
      there is nothing. */
  ghost predicate PerPath(j: Json, p: Path, prefix: string, r: Rules, out: Json) {
    && (ClearTo(r, prefix, p, |p|) ==> See(out, p) == See(j, p))
    && (forall n :: 0 <= n < |p| && ClearTo(r, prefix, p, n) && MaskAt(r, prefix, p, n).Some? ==>
          At(out, p) ==
            if n == |p| - 1 && At(j, p).Some? then Some(Str(ApplyMask(At(j, p).value, MaskAt(r, prefix, p, n).value, r.show)))
            else None)
    && (forall n :: 0 <= n < |p| && ClearTo(r, prefix, p, n) && DroppedAt(r, prefix, p, n) ==> At(out, p) == None)
  }

  lemma {:induction false} FirstBlock(r: Rules, prefix: string, p: Path, m: nat) returns (n: nat)
    requires m <= |p| && !ClearTo(r, prefix, p, m)
    ensures n < m && ClearTo(r, prefix, p, n) && (MaskAt(r, prefix, p, n).Some? || DroppedAt(r, prefix, p, n))
  {
    if ClearTo(r, prefix, p, m - 1) {
      n := m - 1;
    } else {
      n := FirstBlock(r, prefix, p, m - 1);
    }
  }

  /** Two trees that both show that at a path show the same there. */
  lemma PerPathAgrees(j: Json, p: Path, prefix: string, r: Rules, a: Json, b: Json)
    requires PerPath(j, p, prefix, r, a) && PerPath(j, p, prefix, r, b)
    ensures See(a, p) == See(b, p)
  {
    if !ClearTo(r, prefix, p, |p|) {
      var n := FirstBlock(r, prefix, p, |p|);
    }
  }

  /** The description path by path is complete: the walked tree is the only one it fits. */
  lemma WalkIsDetermined(j: Json, prefix: string, r: Rules, out: Json)
    ensures out == Walked(j, prefix, r) <==> forall p :: PerPath(j, p, prefix, r, out)
  {
    forall p ensures PerPath(j, p, prefix, r, Walked(j, prefix, r)) {
      WalkPerPath(j, p, prefix, r);
    }
    if forall p :: PerPath(j, p, prefix, r, out) {
      forall p ensures See(out, p) == See(Walked(j, prefix, r), p) {
        PerPathAgrees(j, p, prefix, r, out, Walked(j, prefix, r));
      }
      SeeDetermines(out, Walked(j, prefix, r));
    }
  }

  lemma {:induction false} WalkPerPath(j: Json, p: Path, prefix: string, r: Rules)
    ensures PerPath(j, p, prefix, r, Walked(j, prefix, r))
  {
    if p != [] {
      WalkStep(j, p, prefix, r);
      AtStep(j, p);
      if MaskAt(r, prefix, p, 0).None? && !DroppedAt(r, prefix, p, 0) && At(j, [p[0]]).Some? {
        var next := PrefixAt(prefix, p[..1]);
        forall i | 0 < i < |p|
          ensures MaskAt(r, prefix, p, i) == MaskAt(r, next, p[1..], i - 1)
          ensures DroppedAt(r, prefix, p, i) == DroppedAt(r, next, p[1..], i - 1)
        {
          ShiftPath(r, prefix, p, i);
        }
        ShiftClear(r, prefix, p);
        WalkPerPath(At(j, [p[0]]).value, p[1..], next, r);
      }
    }
  }

  lemma AtStep(j: Json, p: Path)
    requires p != []
    ensures At(j, p) == match At(j, [p[0]]) case None => None case Some(v) => At(v, p[1..])
  {
    assert [p[0]][1..] == [];
  }

  lemma ShiftClear(r: Rules, prefix: string, p: Path)
    requires p != [] && MaskAt(r, prefix, p, 0).None? && !DroppedAt(r, prefix, p, 0)
    ensures forall n :: 1 <= n <= |p| ==>
              (ClearTo(r, prefix, p, n) <==> ClearTo(r, PrefixAt(prefix, p[..1]), p[1..], n - 1))
  {
    var next := PrefixAt(prefix, p[..1]);
    forall i | 0 < i < |p|
      ensures MaskAt(r, prefix, p, i) == MaskAt(r, next, p[1..], i - 1)
      ensures DroppedAt(r, prefix, p, i) == DroppedAt(r, next, p[1..], i - 1)
    {
      ShiftPath(r, prefix, p, i);
    }
    forall n | 1 <= n <= |p| ensures ClearTo(r, prefix, p, n) <==> ClearTo(r, next, p[1..], n - 1) {
      if ClearTo(r, next, p[1..], n - 1) {
        forall i | 0 <= i < n ensures MaskAt(r, prefix, p, i).None? && !DroppedAt(r, prefix, p, i) {
          if i > 0 {
            assert MaskAt(r, next, p[1..], i - 1).None?;
          }
        }
      }
      if ClearTo(r, prefix, p, n) {
        forall i | 0 <= i < n - 1 ensures MaskAt(r, next, p[1..], i).None? && !DroppedAt(r, next, p[1..], i) {
          assert MaskAt(r, prefix, p, i + 1).None?;
        }
      }
    }
  }

  // ------------------------------------------------------------ the keep set

  /** A field, or one of its ancestors: the field cut off before one of its dots. */
  predicate Covers(f: string, x: string) {
    x == f || (|x| < |f| && f[..|x|] == x && f[|x|] == '.')
  }

  /** Expands dot-paths into the set of themselves and all their ancestors. */
  method BuildKeepSet(fields: seq<string>) returns (keep: set<string>)
    ensures forall x :: x in keep <==> exists n :: 0 <= n < |fields| && Covers(fields[n], x)
  {
    keep := {};
    for n := 0 to |fields|
      invariant forall x :: x in keep <==> exists m :: 0 <= m < n && Covers(fields[m], x)
    {
      var before := keep;
      keep := AddField(fields[n], before);
      forall x ensures x in keep <==> exists m :: 0 <= m < n + 1 && Covers(fields[m], x) {
        if x in keep && !Covers(fields[n], x) {
          assert x in before;
        }
      }
    }
  }

  ghost predicate CutOff(parts: seq<string>, i: nat, x: string) {
    exists k :: 1 <= k < i && k <= |parts| && x == Join(parts[..k], ".")
  }

  method AddField(f: string, before: set<string>) returns (keep: set<string>)
    ensures forall x :: x in keep <==> x in before || Covers(f, x)
  {
    keep := before + {f};
    var parts := Split(f, '.');
    for i := 1 to |parts|
      invariant forall x :: x in keep <==> x in before || x == f || CutOff(parts, i, x)
    {
      var cut := Join(parts[..i], ".");
      forall x ensures CutOff(parts, i + 1, x) <==> CutOff(parts, i, x) || x == cut {
        if x == cut {
          assert 1 <= i < i + 1 && x == Join(parts[..i], ".");
        }
      }
      keep := keep + {cut};
    }
    forall x ensures Covers(f, x) <==> x == f || CutOff(parts, |parts|, x) {
      AncestorsOf(f, x);
    }
  }

  /** Joining the first parts of a split path cuts it before a dot, and every cut before a
      dot is one of them. */
  lemma AncestorsOf(f: string, x: string)
    ensures Covers(f, x) <==> x == f || CutOff(Split(f, '.'), |Split(f, '.')|, x)
  {
    var parts := Split(f, '.');
    if x != f && Covers(f, x) {
      var rest := f[|x| + 1..];
      assert f == x + "." + rest;
      SplitConcat(x, rest, '.');
      JoinSplit(x, '.');
      var k := |Split(x, '.')|;
      assert parts[..k] == Split(x, '.');
      assert x == Join(parts[..k], ".");
    }
    if k :| 1 <= k < |parts| && x == Join(parts[..k], ".") {
      assert parts == parts[..k] + parts[k..];
      JoinAppend(parts[..k], parts[k..], ".");
      JoinSplit(f, '.');
      assert f == x + "." + Join(parts[k..], ".");
    }
  }

  lemma {:induction false} PrefixesGrow(prefix: string, p: Path, i: nat)
    requires i <= |p|
    ensures |PrefixAt(prefix, p[..i])| <= |PrefixAt(prefix, p)|
    ensures PrefixAt(prefix, p)[..|PrefixAt(prefix, p[..i])|] == PrefixAt(prefix, p[..i])
    ensures |prefix| <= |PrefixAt(prefix, p)| && PrefixAt(prefix, p)[..|prefix|] == prefix
    decreases p
  {
    if p != [] {
      var next := if p[0].Key? then prefix + p[0].key + "." else prefix;
      PrefixesGrow(next, p[1..], if i == 0 then 0 else i - 1);
      if i > 0 {
        assert p[..i][1..] == p[1..][..i - 1];
      }
    }
  }

  lemma {:induction false} PrefixStep(prefix: string, p: Path, i: nat)
    requires i < |p| && p[i].Key?
    ensures PrefixAt(prefix, p[..i + 1]) == FullAt(prefix, p, i) + "."
    decreases p
  {
    if i == 0 {
      assert p[..1] == [p[0]] && [p[0]][1..] == [] && p[..0] == [];
    } else {
      var next := if p[0].Key? then prefix + p[0].key + "." else prefix;
      PrefixStep(next, p[1..], i - 1);
      assert p[..i + 1][1..] == p[1..][..i];
      assert p[..i][1..] == p[1..][..i - 1];
    }
  }

  /** Every key on the way to a selected field is in its keep set. */
  lemma SelectedIsKept(f: string, p: Path, i: nat)
    requires PrefixAt("", p) == f + "." && i < |p| && p[i].Key?
    ensures Covers(f, FullAt("", p, i))
  {
    PrefixStep("", p, i);
    PrefixesGrow("", p, i + 1);
    var full := FullAt("", p, i);
    assert (f + ".")[..|full| + 1] == full + ".";
    assert (f + ".")[|full|] == (full + ".")[|full|];
    assert (f + ".")[..|full|] == (full + ".")[..|full|];
  }

  /** A selected field that is a value, and no key on the way to which is masked, survives
      the walk unchanged: the keep set is closed under ancestors. */
  lemma SelectedSurvives(j: Json, p: Path, r: Rules, fields: seq<string>, n: nat)
    requires r.keep.Some? && forall x :: x in r.keep.value <==> exists m :: 0 <= m < |fields| && Covers(fields[m], x)
    requires n < |fields| && PrefixAt("", p) == fields[n] + "."
    requires forall i :: 0 <= i < |p| ==> MaskAt(r, "", p, i).None?
    requires See(j, p).Some? && See(j, p).value.Leaf?
    ensures At(Walked(j, "", r), p) == At(j, p)
  {
    forall i | 0 <= i < |p| ensures !DroppedAt(r, "", p, i) {
      if p[i].Key? {
        SelectedIsKept(fields[n], p, i);
      }
    }
    WalkPerPath(j, p, "", r);
  }

  // ------------------------------------------------------------- the payload

  function Action(root: Json): string
    requires root.Object?
  {
    match At(root, [Key("context"), Key("action")])
    case Some(Str(s)) => TrimSpace(s)
    case _ => ""
  }

  /** Selective mode with no entry for the action and no default drops nothing at all. */
  function KeepFor(selective: bool, keepPaths: map<string, set<string>>, action: string): Option<set<string>> {
    if !selective then None
    else if action in keepPaths then Some(keepPaths[action])
    else if "default" in keepPaths then Some(keepPaths["default"])
    else None
  }

  /** An object is walked under the keep set of its own action; anything else, a null
      included, comes back as it was. */
  method ProcessPayload(root: Json, r: Rules, selective: bool, keepPaths: map<string, set<string>>) returns (out: Json)
    ensures out == if root.Object? then Walked(root, "", r.(keep := KeepFor(selective, keepPaths, Action(root)))) else root
  {
    if !root.Object? {
      return root;
    }
    var node := WalkMap(root, "", r.(keep := KeepFor(selective, keepPaths, Action(root))));
    out := Object(node);
  }

  /** Which members of a payload are logged: in selective mode those the entry for its action
      selects, or where there is none the entry "default", or where there is neither all; and
      masked ones in any case. */
  lemma TopLevelTells(root: Json, r: Rules, selective: bool, keepPaths: map<string, set<string>>, k: string)
    requires root.Object?
    ensures var kept := At(Walked(root, "", r.(keep := KeepFor(selective, keepPaths, Action(root)))), [Key(k)]).Some?;
            var chosen := if Action(root) in keepPaths then Action(root) else "default";
            kept <==> k in root.members
                      && (k in r.byKey || k in r.byPath || !selective || chosen !in keepPaths || k in keepPaths[chosen])
  {
    var rules := r.(keep := KeepFor(selective, keepPaths, Action(root)));
    assert "" + k == k;
    RuleTells(rules, k, k);
    HasMember(root, k);
    HasMember(Walked(root, "", rules), k);
  }
}
