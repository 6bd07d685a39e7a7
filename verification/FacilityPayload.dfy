/** Reading the facility types out of a payload and narrowing a copy of it to one of
    them, both through the one configured path. */
module FacilityPayload {
  import opened Options
  import opened Json
  import opened Strings
  import opened Sequences

  const EACH := "[]"

  predicate IsEach(segment: string) { HasSuffix(segment, EACH) }

  function Name(segment: string): string { TrimSuffix(segment, EACH) }

  // ----------------------------------------------------------------- reading

  /** Every value the path reaches. */
  function Walk(j: Json, segments: seq<string>): seq<Json>
    decreases |segments|, 0
  {
    if segments == [] then [j]
    else if !j.Object? || Name(segments[0]) !in j.members then []
    else
      var child := j.members[Name(segments[0])];
      if !IsEach(segments[0]) then Walk(child, segments[1..])
      else if child.Array? then WalkEach(child.elems, segments[1..])
      else []
  }

  function WalkEach(elems: seq<Json>, segments: seq<string>): seq<Json>
    decreases |segments|, 1 + |elems|
  {
    if elems == [] then [] else Walk(elems[0], segments) + WalkEach(elems[1..], segments)
  }

  function LeavesAt(j: Json, path: string): seq<Json> {
    Walk(j, Split(path, '.'))
  }

  datatype Types = Types(types: seq<string>) | NoType | NotAType | Repeated

  /** The values a payload names, the scalar form included. */
  function NamedAt(j: Json, path: string): seq<Json> {
    var leaves := LeavesAt(j, path);
    if leaves != [] then leaves
    else MapCat(LeavesAt(j, TrimSuffix(path, EACH)), UnlessList())
  }

  function UnlessList(): Json -> seq<Json> {
    (v: Json) => if v.Array? then [] else [v]
  }

  /** The payload names exactly these types, in this order: at least one, none twice. */
  ghost predicate Accepts(j: Json, path: string, types: seq<string>) {
    var named := NamedAt(j, path);
    && |types| == |named| > 0
    && (forall i :: 0 <= i < |named| ==> named[i] == Str(types[i]))
    && (forall i, k :: 0 <= i < k < |named| ==> types[i] != types[k])
  }

  /** The facility types a payload asks for, in the order written: accepted exactly if
      there is one, all are strings, and none is repeated. */
  method FacilityTypesFrom(j: Json, path: string) returns (r: Types)
    ensures r.Types? ==> Accepts(j, path, r.types)
    ensures r == NoType <==> NamedAt(j, path) == []
    ensures r == NotAType <==> exists i :: 0 <= i < |NamedAt(j, path)| && !NamedAt(j, path)[i].Str?
    ensures r == Repeated ==> exists i, k :: 0 <= i < k < |NamedAt(j, path)| && NamedAt(j, path)[i] == NamedAt(j, path)[k]
  {
    var leaves := NamedAt(j, path);
    if |leaves| == 0 {
      return NoType;
    }
    var values: seq<string> := [];
    for i := 0 to |leaves|
      invariant |values| == i
      invariant forall k :: 0 <= k < i ==> leaves[k] == Str(values[k])
    {
      if !leaves[i].Str? {
        return NotAType;
      }
      values := values + [leaves[i].s];
    }
    for i := 0 to |values|
      invariant forall a, b :: 0 <= a < b < i ==> values[a] != values[b]
    {
      if values[i] in values[..i] {
        var a :| 0 <= a < i && values[..i][a] == values[i];
        assert leaves[a] == leaves[i];
        return Repeated;
      }
      assert forall a :: 0 <= a < i ==> values[a] == values[..i][a];
    }
    return Types(values);
  }

  // ----------------------------------------------------------------- writing

  /** Where the objects the path reaches are. */
  function Containers(j: Json, segments: seq<string>): seq<Path>
    decreases |segments|, 0
  {
    if !j.Object? then []
    else if segments == [] then [[]]
    else if Name(segments[0]) !in j.members then []
    else
      var child, key := j.members[Name(segments[0])], Key(Name(segments[0]));
      if !IsEach(segments[0]) then MapCat(Containers(child, segments[1..]), Under([key]))
      else if child.Array? then ContainersEach(child.elems, 0, segments[1..], key)
      else []
  }

  function ContainersEach(elems: seq<Json>, i: nat, segments: seq<string>, key: Step): seq<Path>
    requires i <= |elems|
    decreases |segments|, 1 + |elems| - i
  {
    if i == |elems| then []
    else MapCat(Containers(elems[i], segments), Under([key, Index(i)])) + ContainersEach(elems, i + 1, segments, key)
  }

  function Under(at: Path): Path -> seq<Path> {
    (p: Path) => [at + p]
  }

  /** Writes the value under the leaf's name in every object the path reaches, adding the
      name where it is missing. */
  function SetIn(j: Json, segments: seq<string>, leaf: string, v: Json): Json
    decreases |segments|, 0
  {
    if !j.Object? then j
    else if segments == [] then Object(j.members[leaf := v])
    else if Name(segments[0]) !in j.members then j
    else
      var name, child := Name(segments[0]), j.members[Name(segments[0])];
      if !IsEach(segments[0]) then Object(j.members[name := SetIn(child, segments[1..], leaf, v)])
      else if child.Array? then Object(j.members[name := Array(SetInEach(child.elems, segments[1..], leaf, v))])
      else j
  }

  function SetInEach(elems: seq<Json>, segments: seq<string>, leaf: string, v: Json): (out: seq<Json>)
    ensures |out| == |elems|
    decreases |segments|, 1 + |elems|
  {
    if elems == [] then [] else [SetIn(elems[0], segments, leaf, v)] + SetInEach(elems[1..], segments, leaf, v)
  }

  lemma {:induction false} SetInEachAt(elems: seq<Json>, segments: seq<string>, leaf: string, v: Json, i: nat)
    requires i < |elems|
    ensures SetInEach(elems, segments, leaf, v)[i] == SetIn(elems[i], segments, leaf, v)
  {
    if i > 0 {
      SetInEachAt(elems[1..], segments, leaf, v, i - 1);
    }
  }

  /** A concrete path that follows the configured one. */
  predicate Matches(segments: seq<string>, p: Path) {
    if segments == [] then p == []
    else if IsEach(segments[0]) then
      |p| >= 2 && p[0] == Key(Name(segments[0])) && p[1].Index? && Matches(segments[1..], p[2..])
    else |p| >= 1 && p[0] == Key(Name(segments[0])) && Matches(segments[1..], p[1..])
  }

  function Depth(segments: seq<string>): nat {
    if segments == [] then 0 else (if IsEach(segments[0]) then 2 else 1) + Depth(segments[1..])
  }

  /** The path goes through the leaf of one of the objects the configured path reaches. */
  predicate Addressed(j: Json, segments: seq<string>, leaf: string, p: Path) {
    var d := Depth(segments);
    |p| > d && Matches(segments, p[..d]) && p[d] == Key(leaf)
    && At(j, p[..d]).Some? && At(j, p[..d]).value.Object?
  }

  lemma AddressedStep(j: Json, segments: seq<string>, leaf: string, p: Path)
    requires segments != [] && p != []
    ensures var n := if IsEach(segments[0]) then 2 else 1;
            Addressed(j, segments, leaf, p) <==>
              |p| > n && p[0] == Key(Name(segments[0])) && (n == 2 ==> p[1].Index?)
              && At(j, p[..n]).Some? && Addressed(At(j, p[..n]).value, segments[1..], leaf, p[n..])
  {
    var n, d := if IsEach(segments[0]) then 2 else 1, Depth(segments);
    if |p| > d {
      assert p[..d][n..] == p[n..][..d - n];
      assert p[..d][..n] == p[..n];
      AtSplit(j, p[..d], n);
    }
  }

  lemma {:induction false} AtSplit(j: Json, p: Path, n: nat)
    requires n <= |p|
    ensures At(j, p) == match At(j, p[..n]) case None => None case Some(v) => At(v, p[n..])
  {
    if n == 0 {
      assert p[..0] == [] && p[0..] == p;
    } else {
      assert p[..n][1..] == p[1..][..n - 1] && p[1..][n - 1..] == p[n..];
      if At(j, p[..n]).Some? || At(j, p).Some? {
        var child := match p[0] case Key(k) => j.members[k] case Index(i) => j.elems[i];
        AtSplit(child, p[1..], n - 1);
      } else {
        match (j, p[0])
        case (Object(m), Key(k)) => if k in m { AtSplit(m[k], p[1..], n - 1); }
        case (Array(xs), Index(i)) => if i < |xs| { AtSplit(xs[i], p[1..], n - 1); }
        case _ =>
      }
    }
  }

  /** At this path the document with the value written shows the value if the path is
      addressed, and otherwise what it showed. */
  predicate WroteOnly(j: Json, segments: seq<string>, leaf: string, v: Json, p: Path) {
    if Addressed(j, segments, leaf, p) then At(SetIn(j, segments, leaf, v), p) == At(v, p[Depth(segments) + 1..])
    else See(SetIn(j, segments, leaf, v), p) == See(j, p)
  }

  lemma DropTwice(p: Path, n: nat, segments: seq<string>)
    requires segments != [] && n == (if IsEach(segments[0]) then 2 else 1)
    ensures |p| > Depth(segments) ==> p[n..][Depth(segments[1..]) + 1..] == p[Depth(segments) + 1..]
  {
  }

  lemma AtElement(j: Json, p: Path)
    requires j.Object? && |p| >= 2 && p[0].Key? && p[0].key in j.members && p[1].Index?
    requires j.members[p[0].key].Array?
    ensures var elems := j.members[p[0].key].elems;
            At(j, p) == if p[1].index < |elems| then At(elems[p[1].index], p[2..]) else None
  {
    assert p[1..][1..] == p[2..] && p[1..][0] == p[1];
  }

  lemma FieldCase(j: Json, segments: seq<string>, leaf: string, v: Json, p: Path)
    requires j.Object? && segments != [] && !IsEach(segments[0]) && Name(segments[0]) in j.members
    requires p != [] && p[0] == Key(Name(segments[0]))
    requires WroteOnly(j.members[Name(segments[0])], segments[1..], leaf, v, p[1..])
    ensures WroteOnly(j, segments, leaf, v, p)
  {
    AddressedStep(j, segments, leaf, p);
    assert p[..1] == [p[0]];
    HasMember(j, Name(segments[0]));
    DropTwice(p, 1, segments);
  }

  lemma ElementCase(j: Json, segments: seq<string>, leaf: string, v: Json, p: Path)
    requires j.Object? && segments != [] && IsEach(segments[0]) && Name(segments[0]) in j.members
    requires j.members[Name(segments[0])].Array?
    requires |p| >= 2 && p[0] == Key(Name(segments[0])) && p[1].Index?
    requires p[1].index < |j.members[Name(segments[0])].elems|
    requires WroteOnly(j.members[Name(segments[0])].elems[p[1].index], segments[1..], leaf, v, p[2..])
    ensures WroteOnly(j, segments, leaf, v, p)
  {
    AddressedStep(j, segments, leaf, p);
    AtElement(j, p);
    AtElement(j, p[..2]);
    assert p[..2][2..] == [];
    AtElement(SetIn(j, segments, leaf, v), p);
    SetInEachAt(j.members[Name(segments[0])].elems, segments[1..], leaf, v, p[1].index);
    DropTwice(p, 2, segments);
  }

  /** An array segment that the path does not follow into an element. */
  lemma MissCase(j: Json, segments: seq<string>, leaf: string, v: Json, p: Path)
    requires j.Object? && segments != [] && IsEach(segments[0]) && Name(segments[0]) in j.members
    requires p != [] && p[0] == Key(Name(segments[0]))
    requires var child := j.members[Name(segments[0])];
             !(child.Array? && |p| >= 2 && p[1].Index? && p[1].index < |child.elems|)
    ensures WroteOnly(j, segments, leaf, v, p)
  {
    AddressedStep(j, segments, leaf, p);
    var out := SetIn(j, segments, leaf, v);
    if j.members[Name(segments[0])].Array? {
      if |p| == 1 {
        assert p == [Key(Name(segments[0]))];
        HasMember(j, Name(segments[0]));
        HasMember(out, Name(segments[0]));
      } else if p[1].Index? {
        AtElement(j, p);
        AtElement(j, p[..2]);
        AtElement(out, p);
      } else {
        assert p[1..][0] == p[1];
        assert At(j.members[Name(segments[0])], p[1..]) == None && At(out.members[Name(segments[0])], p[1..]) == None;
      }
    } else if |p| >= 2 && p[1].Index? {
      assert p[..2][1..] == [p[1]];
    }
  }

  lemma ElsewhereCase(j: Json, segments: seq<string>, leaf: string, v: Json, p: Path)
    requires !j.Object? || p == [] || (segments != [] && (Name(segments[0]) !in j.members || p[0] != Key(Name(segments[0]))))
    ensures WroteOnly(j, segments, leaf, v, p)
  {
    if j.Object? && p != [] {
      AddressedStep(j, segments, leaf, p);
    }
  }

  /** A part differs from the payload only at and below the addressed leaves, where it
      holds the value written. */
  lemma {:induction false} SetInPerPath(j: Json, segments: seq<string>, leaf: string, v: Json, p: Path)
    ensures WroteOnly(j, segments, leaf, v, p)
    decreases segments
  {
    if !j.Object? || p == [] {
      ElsewhereCase(j, segments, leaf, v, p);
    } else if segments == [] {
      assert p[..0] == [] && At(j, []) == Some(j);
    } else if Name(segments[0]) !in j.members || p[0] != Key(Name(segments[0])) {
      ElsewhereCase(j, segments, leaf, v, p);
    } else {
      var child := j.members[Name(segments[0])];
      if !IsEach(segments[0]) {
        SetInPerPath(child, segments[1..], leaf, v, p[1..]);
        FieldCase(j, segments, leaf, v, p);
      } else if child.Array? && |p| >= 2 && p[1].Index? && p[1].index < |child.elems| {
        SetInPerPath(child.elems[p[1].index], segments[1..], leaf, v, p[2..]);
        ElementCase(j, segments, leaf, v, p);
      } else {
        MissCase(j, segments, leaf, v, p);
      }
    }
  }

  // ------------------------------------------------------------- read after write

  lemma {:induction false} MapCatUnder(ps: seq<Path>, at: Path)
    ensures |MapCat(ps, Under(at))| == |ps|
    ensures forall i :: 0 <= i < |ps| ==> MapCat(ps, Under(at))[i] == at + ps[i]
  {
    if ps != [] {
      MapCatUnder(ps[1..], at);
    }
  }

  /** What is collected is an object, and its path follows the configured one. */
  lemma {:induction false} ContainersAreObjects(j: Json, segments: seq<string>, c: Path)
    requires c in Containers(j, segments)
    ensures Matches(segments, c) && At(j, c).Some? && At(j, c).value.Object?
    decreases |segments|, 0
  {
    if segments != [] {
      var child, key := j.members[Name(segments[0])], Key(Name(segments[0]));
      if !IsEach(segments[0]) {
        MapCatHas(Containers(child, segments[1..]), Under([key]), c);
        var i :| 0 <= i < |Containers(child, segments[1..])| && c in Under([key])(Containers(child, segments[1..])[i]);
        ContainersAreObjects(child, segments[1..], Containers(child, segments[1..])[i]);
        assert c[1..] == Containers(child, segments[1..])[i];
      } else {
        ElementsAreObjects(j, segments, 0, c);
      }
    }
  }

  lemma {:induction false} ElementsAreObjects(j: Json, segments: seq<string>, i: nat, c: Path)
    requires j.Object? && segments != [] && IsEach(segments[0]) && Name(segments[0]) in j.members
    requires j.members[Name(segments[0])].Array? && i <= |j.members[Name(segments[0])].elems|
    requires c in ContainersEach(j.members[Name(segments[0])].elems, i, segments[1..], Key(Name(segments[0])))
    ensures Matches(segments, c) && At(j, c).Some? && At(j, c).value.Object?
    decreases |segments[1..]|, 1 + |j.members[Name(segments[0])].elems| - i
  {
    var elems, key := j.members[Name(segments[0])].elems, Key(Name(segments[0]));
    var here := Containers(elems[i], segments[1..]);
    if c in MapCat(here, Under([key, Index(i)])) {
      MapCatHas(here, Under([key, Index(i)]), c);
      var k :| 0 <= k < |here| && c in Under([key, Index(i)])(here[k]);
      ContainersAreObjects(elems[i], segments[1..], here[k]);
      assert c[2..] == here[k] && c[0] == key && c[1] == Index(i);
      AtElement(j, c);
    } else {
      ElementsAreObjects(j, segments, i + 1, c);
    }
  }

  /** No object the path reaches is missed. */
  lemma {:induction false} ObjectsAreContainers(j: Json, segments: seq<string>, c: Path)
    requires Matches(segments, c) && At(j, c).Some? && At(j, c).value.Object?
    ensures c in Containers(j, segments)
    decreases |segments|, 0
  {
    if segments != [] {
      var child, key := j.members[Name(segments[0])], Key(Name(segments[0]));
      if !IsEach(segments[0]) {
        ObjectsAreContainers(child, segments[1..], c[1..]);
        assert c == [key] + c[1..];
        MapCatHas(Containers(child, segments[1..]), Under([key]), c);
        var i :| 0 <= i < |Containers(child, segments[1..])| && Containers(child, segments[1..])[i] == c[1..];
        assert c in Under([key])(Containers(child, segments[1..])[i]);
      } else {
        assert c[1..][0] == c[1] && At(child, c[1..]).Some?;
        AtElement(j, c);
        ObjectsAreContainers(child.elems[c[1].index], segments[1..], c[2..]);
        ElementsCollected(child.elems, 0, c[1].index, segments[1..], key, c[2..]);
        assert c == [key, Index(c[1].index)] + c[2..];
      }
    }
  }

  lemma {:induction false} ElementsCollected(elems: seq<Json>, i: nat, k: nat, segments: seq<string>, key: Step, c: Path)
    requires i <= k < |elems| && c in Containers(elems[k], segments)
    ensures [key, Index(k)] + c in ContainersEach(elems, i, segments, key)
    decreases k - i
  {
    if i == k {
      var here := Containers(elems[k], segments);
      MapCatHas(here, Under([key, Index(k)]), [key, Index(k)] + c);
      var n :| 0 <= n < |here| && here[n] == c;
      assert [key, Index(k)] + c in Under([key, Index(k)])(here[n]);
    } else {
      ElementsCollected(elems, i + 1, k, segments, key, c);
    }
  }

  predicate AllAre(leaves: seq<Json>, v: Json, n: nat) {
    |leaves| == n && forall i :: 0 <= i < n ==> leaves[i] == v
  }

  /** What the last segment finds under its name when a list of one is written there. */
  function ReadBack(last: string, t: Json): Json {
    if IsEach(last) then t else Array([t])
  }

  /** Reading the path back out of a part finds the one type, once for each object the
      payload's path reaches: nothing of the other types is left. A path that does not end in
      "[]" finds the list itself. */
  lemma {:induction false} ReadAfterWrite(j: Json, segments: seq<string>, last: string, t: Json)
    ensures AllAre(Walk(SetIn(j, segments, Name(last), Array([t])), segments + [last]), ReadBack(last, t), |Containers(j, segments)|)
    decreases |segments|, 0
  {
    var path := segments + [last];
    if j.Object? {
      assert path[0] == (if segments == [] then last else segments[0]);
      if segments == [] {
        assert path[1..] == [] && WalkEach([t], []) == [t] + WalkEach([], []);
      } else {
        assert path[1..] == segments[1..] + [last];
        if Name(segments[0]) in j.members {
          var child := j.members[Name(segments[0])];
          if !IsEach(segments[0]) {
            ReadAfterWrite(child, segments[1..], last, t);
            MapCatUnder(Containers(child, segments[1..]), [Key(Name(segments[0]))]);
          } else if child.Array? {
            ReadAfterWriteEach(child.elems, 0, segments[1..], last, t, Key(Name(segments[0])));
            assert child.elems[0..] == child.elems;
          }
        }
      }
    }
  }

  lemma {:induction false} ReadAfterWriteEach(elems: seq<Json>, i: nat, segments: seq<string>, last: string, t: Json, key: Step)
    requires i <= |elems|
    ensures AllAre(WalkEach(SetInEach(elems[i..], segments, Name(last), Array([t])), segments + [last]), ReadBack(last, t),
                   |ContainersEach(elems, i, segments, key)|)
    decreases |segments|, 1 + |elems| - i
  {
    if i < |elems| {
      ReadAfterWrite(elems[i], segments, last, t);
      ReadAfterWriteEach(elems, i + 1, segments, last, t, key);
      MapCatUnder(Containers(elems[i], segments), [key, Index(i)]);
      assert elems[i..][1..] == elems[i + 1..];
      var out := SetInEach(elems[i..], segments, Name(last), Array([t]));
      assert out[1..] == SetInEach(elems[i + 1..], segments, Name(last), Array([t]));
    }
  }

  // ------------------------------------------------------------ what is created

  /** Writing creates no object and no list on the way, and adds the leaf's name exactly to
      the objects reached that lack it. */
  lemma AddsNameExactly(j: Json, segments: seq<string>, leaf: string, v: Json, p: Path)
    ensures |p| <= Depth(segments) ==> (At(SetIn(j, segments, leaf, v), p).Some? <==> At(j, p).Some?)
    ensures |p| == Depth(segments) + 1 ==>
              (At(SetIn(j, segments, leaf, v), p).Some? <==> At(j, p).Some? || Addressed(j, segments, leaf, p))
  {
    SetInPerPath(j, segments, leaf, v, p);
    if Addressed(j, segments, leaf, p) && |p| == Depth(segments) + 1 {
      assert p[Depth(segments) + 1..] == [];
    }
  }

  // ----------------------------------------------------- what is read can be split

  function Segments(path: string): seq<string> {
    var parts := Split(path, '.');
    parts[..|parts| - 1]
  }

  function LastSegment(path: string): string {
    var parts := Split(path, '.');
    parts[|parts| - 1]
  }

  /** What a path reads lies in an object that its beginning reaches. */
  lemma {:induction false} ReadIsReached(j: Json, segments: seq<string>, last: string)
    requires Walk(j, segments + [last]) != []
    ensures Containers(j, segments) != []
    decreases |segments|, 0
  {
    var path := segments + [last];
    if segments != [] {
      assert path[0] == segments[0] && path[1..] == segments[1..] + [last];
      var child := j.members[Name(segments[0])];
      if !IsEach(segments[0]) {
        ReadIsReached(child, segments[1..], last);
        MapCatUnder(Containers(child, segments[1..]), [Key(Name(segments[0]))]);
      } else {
        EachIsReached(child.elems, 0, segments[1..], last, Key(Name(segments[0])));
        assert child.elems[0..] == child.elems;
      }
    }
  }

  lemma {:induction false} EachIsReached(elems: seq<Json>, i: nat, segments: seq<string>, last: string, key: Step)
    requires i <= |elems| && WalkEach(elems[i..], segments + [last]) != []
    ensures ContainersEach(elems, i, segments, key) != []
    decreases |segments|, 1 + |elems| - i
  {
    assert elems[i..][1..] == elems[i + 1..];
    if Walk(elems[i], segments + [last]) != [] {
      ReadIsReached(elems[i], segments, last);
      MapCatUnder(Containers(elems[i], segments), [key, Index(i)]);
    } else {
      EachIsReached(elems, i + 1, segments, last, key);
    }
  }

  lemma PathParts(path: string)
    ensures Split(path, '.') == Segments(path) + [LastSegment(path)]
    ensures Split(TrimSuffix(path, EACH), '.') == Segments(path) + [LastSegment(TrimSuffix(path, EACH))]
  {
    if HasSuffix(path, EACH) {
      var trimmed := path[..|path| - 2];
      assert path == trimmed + EACH;
      SplitEnd(trimmed, EACH, '.');
      assert Split(trimmed, '.')[..|Split(path, '.')| - 1] == Segments(path);
    }
  }

  lemma {:induction false} UnlessListOf(leaves: seq<Json>)
    ensures MapCat(leaves, UnlessList()) != [] ==> leaves != []
  {
  }

  /** A payload that names a type always has somewhere to write one: what is accepted can be
      split. */
  lemma NamedCanBeSplit(j: Json, path: string)
    requires NamedAt(j, path) != []
    ensures j.Object? && Containers(j, Segments(path)) != []
  {
    PathParts(path);
    if LeavesAt(j, path) != [] {
      ReadIsReached(j, Segments(path), LastSegment(path));
    } else {
      UnlessListOf(LeavesAt(j, TrimSuffix(path, EACH)));
      ReadIsReached(j, Segments(path), LastSegment(TrimSuffix(path, EACH)));
    }
  }

  // ------------------------------------------------- where what is read stands

  /** The paths of what a configured path reads. */
  function PathsRead(j: Json, segments: seq<string>): seq<Path>
    decreases |segments|, 0
  {
    if segments == [] then [[]]
    else if !j.Object? || Name(segments[0]) !in j.members then []
    else
      var child, key := j.members[Name(segments[0])], Key(Name(segments[0]));
      if !IsEach(segments[0]) then MapCat(PathsRead(child, segments[1..]), Under([key]))
      else if child.Array? then PathsReadEach(child.elems, 0, segments[1..], key)
      else []
  }

  function PathsReadEach(elems: seq<Json>, i: nat, segments: seq<string>, key: Step): seq<Path>
    requires i <= |elems|
    decreases |segments|, 1 + |elems| - i
  {
    if i == |elems| then []
    else MapCat(PathsRead(elems[i], segments), Under([key, Index(i)])) + PathsReadEach(elems, i + 1, segments, key)
  }

  /** Each value read is what the document holds at its path, and its path follows the
      configured one. */
  ghost predicate ReadsAt(j: Json, segments: seq<string>, values: seq<Json>, paths: seq<Path>) {
    |values| == |paths| && forall i :: 0 <= i < |paths| ==> At(j, paths[i]) == Some(values[i]) && Matches(segments, paths[i])
  }

  /** The document order of two paths that follow the same configured one: at the first
      element where they part, the one has the smaller index. */
  ghost predicate Before(p: Path, q: Path) {
    exists n :: 0 <= n < |p| && n < |q| && p[..n] == q[..n] && p[n].Index? && q[n].Index? && p[n].index < q[n].index
  }

  ghost predicate InOrder(paths: seq<Path>) {
    forall i, k :: 0 <= i < k < |paths| ==> Before(paths[i], paths[k])
  }

  lemma BeforeUnder(at: Path, p: Path, q: Path)
    requires Before(p, q)
    ensures Before(at + p, at + q)
  {
    var n :| 0 <= n < |p| && n < |q| && p[..n] == q[..n] && p[n].Index? && q[n].Index? && p[n].index < q[n].index;
    assert (at + p)[..|at| + n] == at + p[..n] && (at + q)[..|at| + n] == at + q[..n];
    assert (at + p)[|at| + n] == p[n] && (at + q)[|at| + n] == q[n];
  }

  lemma OrderUnder(at: Path, paths: seq<Path>)
    requires InOrder(paths)
    ensures InOrder(MapCat(paths, Under(at)))
  {
    MapCatUnder(paths, at);
    var out := MapCat(paths, Under(at));
    forall i, k | 0 <= i < k < |out| ensures Before(out[i], out[k]) {
      BeforeUnder(at, paths[i], paths[k]);
    }
  }

  /** All the paths go through element i of this list, or a later one. */
  ghost predicate FromElement(paths: seq<Path>, key: Step, i: nat) {
    forall k :: 0 <= k < |paths| ==> |paths[k]| >= 2 && paths[k][0] == key && paths[k][1].Index? && paths[k][1].index >= i
  }

  lemma {:induction false} EachFrom(elems: seq<Json>, i: nat, segments: seq<string>, key: Step)
    requires i <= |elems|
    ensures FromElement(PathsReadEach(elems, i, segments, key), key, i)
    decreases |elems| - i
  {
    if i < |elems| {
      EachFrom(elems, i + 1, segments, key);
      MapCatUnder(PathsRead(elems[i], segments), [key, Index(i)]);
    }
  }

  lemma OrderConcat(here: seq<Path>, later: seq<Path>, key: Step, i: nat)
    requires InOrder(here) && InOrder(later) && FromElement(later, key, i + 1)
    requires forall k :: 0 <= k < |here| ==> |here[k]| >= 2 && here[k][0] == key && here[k][1] == Index(i)
    ensures InOrder(here + later)
  {
    forall a, b | 0 <= a < b < |here + later| ensures Before((here + later)[a], (here + later)[b]) {
      if a < |here| <= b {
        var p, q := here[a], later[b - |here|];
        assert p[..1] == [key] && q[..1] == [key];
      }
    }
  }

  /** What is read is read in document order, each at its own place. */
  lemma {:induction false} ReadInOrder(j: Json, segments: seq<string>)
    ensures ReadsAt(j, segments, Walk(j, segments), PathsRead(j, segments)) && InOrder(PathsRead(j, segments))
    decreases |segments|, 0
  {
    if segments != [] && j.Object? && Name(segments[0]) in j.members {
      var child, key := j.members[Name(segments[0])], Key(Name(segments[0]));
      if !IsEach(segments[0]) {
        ReadInOrder(child, segments[1..]);
        FieldReads(j, segments);
        OrderUnder([key], PathsRead(child, segments[1..]));
      } else if child.Array? {
        EachInOrder(j, segments, 0);
        assert child.elems[0..] == child.elems;
      }
    }
  }

  lemma FieldReads(j: Json, segments: seq<string>)
    requires j.Object? && segments != [] && !IsEach(segments[0]) && Name(segments[0]) in j.members
    requires ReadsAt(j.members[Name(segments[0])], segments[1..], Walk(j.members[Name(segments[0])], segments[1..]),
                     PathsRead(j.members[Name(segments[0])], segments[1..]))
    ensures ReadsAt(j, segments, Walk(j, segments), PathsRead(j, segments))
  {
    var child, key := j.members[Name(segments[0])], Key(Name(segments[0]));
    var paths := PathsRead(child, segments[1..]);
    MapCatUnder(paths, [key]);
    forall i | 0 <= i < |paths| ensures At(j, [key] + paths[i]) == At(child, paths[i]) && ([key] + paths[i])[1..] == paths[i] {
    }
  }

  lemma ElementReads(j: Json, segments: seq<string>, i: nat, p: Path)
    requires j.Object? && segments != [] && IsEach(segments[0]) && Name(segments[0]) in j.members
    requires j.members[Name(segments[0])].Array? && i < |j.members[Name(segments[0])].elems|
    ensures var q := [Key(Name(segments[0])), Index(i)] + p;
            && At(j, q) == At(j.members[Name(segments[0])].elems[i], p)
            && (Matches(segments, q) <==> Matches(segments[1..], p))
  {
    var q := [Key(Name(segments[0])), Index(i)] + p;
    assert q[2..] == p;
    AtElement(j, q);
  }

  lemma {:induction false} EachInOrder(j: Json, segments: seq<string>, i: nat)
    requires j.Object? && segments != [] && IsEach(segments[0]) && Name(segments[0]) in j.members
    requires j.members[Name(segments[0])].Array? && i <= |j.members[Name(segments[0])].elems|
    ensures var elems, key := j.members[Name(segments[0])].elems, Key(Name(segments[0]));
            && ReadsAt(j, segments, WalkEach(elems[i..], segments[1..]), PathsReadEach(elems, i, segments[1..], key))
            && InOrder(PathsReadEach(elems, i, segments[1..], key))
    decreases |segments[1..]|, 1 + |j.members[Name(segments[0])].elems| - i
  {
    var elems, key := j.members[Name(segments[0])].elems, Key(Name(segments[0]));
    if i < |elems| {
      ReadInOrder(elems[i], segments[1..]);
      EachInOrder(j, segments, i + 1);
      assert elems[i..][1..] == elems[i + 1..] && elems[i..][0] == elems[i];
      ThisElement(j, segments, i);
      ReadsConcat(j, segments, Walk(elems[i], segments[1..]), MapCat(PathsRead(elems[i], segments[1..]), Under([key, Index(i)])),
                  WalkEach(elems[i + 1..], segments[1..]), PathsReadEach(elems, i + 1, segments[1..], key));
      EachFrom(elems, i + 1, segments[1..], key);
      OrderConcat(MapCat(PathsRead(elems[i], segments[1..]), Under([key, Index(i)])),
                  PathsReadEach(elems, i + 1, segments[1..], key), key, i);
    }
  }

  lemma ThisElement(j: Json, segments: seq<string>, i: nat)
    requires j.Object? && segments != [] && IsEach(segments[0]) && Name(segments[0]) in j.members
    requires j.members[Name(segments[0])].Array? && i < |j.members[Name(segments[0])].elems|
    requires var e := j.members[Name(segments[0])].elems[i];
             ReadsAt(e, segments[1..], Walk(e, segments[1..]), PathsRead(e, segments[1..])) && InOrder(PathsRead(e, segments[1..]))
    ensures var e, key := j.members[Name(segments[0])].elems[i], Key(Name(segments[0]));
            var here := MapCat(PathsRead(e, segments[1..]), Under([key, Index(i)]));
            && ReadsAt(j, segments, Walk(e, segments[1..]), here) && InOrder(here)
            && forall k :: 0 <= k < |here| ==> |here[k]| >= 2 && here[k][0] == key && here[k][1] == Index(i)
  {
    var e, key := j.members[Name(segments[0])].elems[i], Key(Name(segments[0]));
    var paths := PathsRead(e, segments[1..]);
    OrderUnder([key, Index(i)], paths);
    MapCatUnder(paths, [key, Index(i)]);
    forall k | 0 <= k < |paths|
      ensures At(j, [key, Index(i)] + paths[k]) == At(e, paths[k]) && Matches(segments, [key, Index(i)] + paths[k])
    {
      ElementReads(j, segments, i, paths[k]);
    }
  }

  lemma ReadsConcat(j: Json, segments: seq<string>, vs: seq<Json>, ps: seq<Path>, ws: seq<Json>, qs: seq<Path>)
    requires ReadsAt(j, segments, vs, ps) && ReadsAt(j, segments, ws, qs)
    ensures ReadsAt(j, segments, vs + ws, ps + qs)
  {
  }

  /** Nothing that follows the configured path is missed. */
  lemma {:induction false} ReadMissesNothing(j: Json, segments: seq<string>, p: Path)
    requires Matches(segments, p) && At(j, p).Some?
    ensures p in PathsRead(j, segments)
    decreases |segments|, 0
  {
    if segments != [] {
      var child, key := j.members[Name(segments[0])], Key(Name(segments[0]));
      if !IsEach(segments[0]) {
        ReadMissesNothing(child, segments[1..], p[1..]);
        UnderHas(PathsRead(child, segments[1..]), [key], p[1..]);
        assert p == [key] + p[1..];
      } else {
        assert p[1..][0] == p[1] && At(child, p[1..]).Some?;
        AtElement(j, p);
        ReadMissesNothing(child.elems[p[1].index], segments[1..], p[2..]);
        EachMissesNothing(child.elems, 0, p[1].index, segments[1..], key, p[2..]);
        assert p == [key, Index(p[1].index)] + p[2..];
      }
    }
  }

  lemma UnderHas(ps: seq<Path>, at: Path, p: Path)
    requires p in ps
    ensures at + p in MapCat(ps, Under(at))
  {
    var i :| 0 <= i < |ps| && ps[i] == p;
    MapCatUnder(ps, at);
    assert MapCat(ps, Under(at))[i] == at + p;
  }

  lemma {:induction false} EachMissesNothing(elems: seq<Json>, i: nat, k: nat, segments: seq<string>, key: Step, p: Path)
    requires i <= k < |elems| && p in PathsRead(elems[k], segments)
    ensures [key, Index(k)] + p in PathsReadEach(elems, i, segments, key)
    decreases k - i
  {
    if i == k {
      UnderHas(PathsRead(elems[k], segments), [key, Index(k)], p);
    } else {
      EachMissesNothing(elems, i + 1, k, segments, key, p);
    }
  }

  /** A payload that holds one bare string where a list is looked for names that one type. */
  lemma BareStringIsNamed(j: Json, path: string, t: string)
    requires LeavesAt(j, path) == [] && LeavesAt(j, TrimSuffix(path, EACH)) == [Str(t)]
    ensures Accepts(j, path, [t])
  {
    MapCatOne(Str(t), UnlessList());
  }

  /** Containers are collected in document order as well. */
  lemma {:induction false} ContainersInOrder(j: Json, segments: seq<string>)
    ensures InOrder(Containers(j, segments))
    decreases |segments|, 0
  {
    if j.Object? && segments != [] && Name(segments[0]) in j.members {
      var child, key := j.members[Name(segments[0])], Key(Name(segments[0]));
      if !IsEach(segments[0]) {
        ContainersInOrder(child, segments[1..]);
        OrderUnder([key], Containers(child, segments[1..]));
      } else if child.Array? {
        ContainersEachInOrder(child.elems, 0, segments[1..], key);
      }
    }
  }

  lemma {:induction false} ContainersEachInOrder(elems: seq<Json>, i: nat, segments: seq<string>, key: Step)
    requires i <= |elems|
    ensures InOrder(ContainersEach(elems, i, segments, key)) && FromElement(ContainersEach(elems, i, segments, key), key, i)
    decreases |segments|, 1 + |elems| - i
  {
    if i < |elems| {
      var here := Containers(elems[i], segments);
      ContainersInOrder(elems[i], segments);
      ContainersEachInOrder(elems, i + 1, segments, key);
      OrderUnder([key, Index(i)], here);
      MapCatUnder(here, [key, Index(i)]);
      OrderConcat(MapCat(here, Under([key, Index(i)])), ContainersEach(elems, i + 1, segments, key), key, i);
    }
  }
}
