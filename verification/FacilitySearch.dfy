/** A search for several facility types: one part of the payload per type, one bounded
    concurrent call per part, and the answers merged back into one. */
module FacilitySearch {
  import opened Options
  import opened Json
  import opened Sequences
  import opened FacilityPayload

  const MAX_TYPES := 8

  /** The configured concurrency, clamped: never unbounded and never stuck. */
  function Concurrency(configured: int): (n: nat)
    ensures 1 <= n <= 8
    ensures configured < 1 ==> n == 1
    ensures 1 <= configured <= 8 ==> n == configured
    ensures configured > 8 ==> n == 8
  {
    if configured <= 0 then 1 else if configured > MAX_TYPES then MAX_TYPES else configured
  }

  datatype Outcome<T> = Done(value: T) | Refused

  /** The payload narrowed to one type, at the path the types were read from. */
  function Part(body: Json, path: string, t: string): Json {
    SetIn(body, Segments(path), Name(LastSegment(path)), Array([Str(t)]))
  }

  /** One payload per facility type, in the order of the types. */
  method SplitByType(body: Json, types: seq<string>, path: string) returns (r: Outcome<seq<Json>>)
    requires body.Object?
    ensures r.Refused? <==> types != [] && Containers(body, Segments(path)) == []
    ensures r.Done? ==> |r.value| == |types| && forall i :: 0 <= i < |types| ==> r.value[i] == Part(body, path, types[i])
    ensures Accepts(body, path, types) ==> r.Done?
  {
    if Accepts(body, path, types) {
      NamedCanBeSplit(body, path);
    }
    var parts: seq<Json> := [];
    for i := 0 to |types|
      invariant |parts| == i
      invariant i > 0 ==> Containers(body, Segments(path)) != []
      invariant forall k :: 0 <= k < i ==> parts[k] == Part(body, path, types[k])
    {
      if |Containers(body, Segments(path))| == 0 {
        return Refused;
      }
      parts := parts + [Part(body, path, types[i])];
    }
    return Done(parts);
  }

  predicate AtType(body: Json, path: string, p: Path) {
    Addressed(body, Segments(path), Name(LastSegment(path)), p)
  }

  /** Each part shows exactly what the payload showed except at the addressed type leaves,
      and read back through the same path it names its own type and no other. */
  lemma PartsDifferOnlyInType(body: Json, path: string, t: string, p: Path)
    ensures !AtType(body, path, p) ==> See(Part(body, path, t), p) == See(body, p)
    ensures AllAre(LeavesAt(Part(body, path, t), path), ReadBack(LastSegment(path), Str(t)), |Containers(body, Segments(path))|)
  {
    SetInPerPath(body, Segments(path), Name(LastSegment(path)), Array([Str(t)]), p);
    ReadAfterWrite(body, Segments(path), LastSegment(path), Str(t));
    PathParts(path);
  }

  const MESSAGE_ID := [Key("context"), Key("messageId")]

  /** No part is given a message id of its own: it shows the payload's. */
  lemma PartsKeepTheMessageId(body: Json, path: string, t: string)
    requires !AtType(body, path, MESSAGE_ID)
    ensures See(Part(body, path, t), MESSAGE_ID) == See(body, MESSAGE_ID)
  {
    PartsDifferOnlyInType(body, path, t, MESSAGE_ID);
  }

  // -------------------------------------------------------- the concurrent calls

  /** `calls(i)` is what the call for part i comes to, whenever it runs. */
  type Calls = nat -> Option<Json>

  /** Parts are launched in order, while there is room; they finish in any order. */
  datatype Group = Group(launched: nat, running: set<nat>, answers: map<nat, Json>, failed: bool)

  ghost predicate GroupStep(calls: Calls, n: nat, limit: nat, g: Group, h: Group) {
    || (g.launched < n && |g.running| < limit
        && h == g.(launched := g.launched + 1, running := g.running + {g.launched}))
    || (exists i :: i in g.running &&
          match calls(i)
          case Some(answer) => h == g.(running := g.running - {i}, answers := g.answers[i := answer])
          case None => h == g.(running := g.running - {i}, failed := true))
  }

  ghost predicate GroupRun(calls: Calls, n: nat, limit: nat, tr: seq<Group>) {
    && |tr| > 0
    && tr[0] == Group(0, {}, map[], false)
    && forall k :: 0 <= k < |tr| - 1 ==> GroupStep(calls, n, limit, tr[k], tr[k + 1])
  }

  ghost predicate GroupInv(calls: Calls, n: nat, limit: nat, g: Group) {
    && g.launched <= n && |g.running| <= limit
    && (forall i :: i in g.running ==> i < g.launched)
    && (forall i: nat :: i in g.answers <==> i < g.launched && i !in g.running && calls(i).Some?)
    && (forall i :: i in g.answers ==> calls(i) == Some(g.answers[i]))
    && (g.failed <==> exists i: nat :: i < g.launched && i !in g.running && calls(i).None?)
  }

  lemma GroupStepKeeps(calls: Calls, n: nat, limit: nat, g: Group, h: Group)
    requires GroupInv(calls, n, limit, g) && GroupStep(calls, n, limit, g, h)
    ensures GroupInv(calls, n, limit, h)
  {
    if h.launched == g.launched {
      var i :| i in g.running && h.running == g.running - {i}
        && match calls(i)
           case Some(answer) => h == g.(running := g.running - {i}, answers := g.answers[i := answer])
           case None => h == g.(running := g.running - {i}, failed := true);
      FinishKeeps(calls, n, limit, g, h, i);
    } else {
      LaunchKeeps(calls, n, limit, g, h);
    }
  }

  lemma LaunchKeeps(calls: Calls, n: nat, limit: nat, g: Group, h: Group)
    requires GroupInv(calls, n, limit, g) && g.launched < n && |g.running| < limit
    requires h == g.(launched := g.launched + 1, running := g.running + {g.launched})
    ensures GroupInv(calls, n, limit, h)
  {
    assert g.launched !in g.running;
  }

  lemma FinishKeeps(calls: Calls, n: nat, limit: nat, g: Group, h: Group, i: nat)
    requires GroupInv(calls, n, limit, g) && i in g.running
    requires match calls(i)
             case Some(answer) => h == g.(running := g.running - {i}, answers := g.answers[i := answer])
             case None => h == g.(running := g.running - {i}, failed := true)
    ensures GroupInv(calls, n, limit, h)
  {
    if calls(i).None? {
      assert i < h.launched && i !in h.running;
    } else if j: nat :| j < h.launched && j !in h.running && calls(j).None? {
      assert j != i;
    }
  }

  lemma {:induction false} GroupRunKeeps(calls: Calls, n: nat, limit: nat, tr: seq<Group>, k: nat)
    requires GroupRun(calls, n, limit, tr) && k < |tr|
    ensures GroupInv(calls, n, limit, tr[k])
  {
    if k > 0 {
      GroupRunKeeps(calls, n, limit, tr, k - 1);
      GroupStepKeeps(calls, n, limit, tr[k - 1], tr[k]);
    }
  }

  /** What the group hands back once all calls are over. */
  ghost function Collected(n: nat, g: Group): Option<seq<Json>>
    requires !g.failed ==> forall i: nat :: i < n ==> i in g.answers
  {
    if g.failed then None else Some(seq(n, i requires 0 <= i < n => g.answers[i]))
  }

  /** In every completion order: never more calls at once than the limit, and when all are
      over either every part answered and the answers are in the parts' order, or some part
      failed and there is no answer at all. */
  lemma CallsKeepOrder(calls: Calls, n: nat, limit: nat, tr: seq<Group>, k: nat)
    requires GroupRun(calls, n, limit, tr) && k < |tr|
    ensures |tr[k].running| <= limit
    ensures tr[k].launched == n && tr[k].running == {} ==>
              && (tr[k].failed <==> exists i: nat :: i < n && calls(i).None?)
              && (!tr[k].failed ==> forall i: nat :: i < n ==> i in tr[k].answers)
              && (Collected(n, tr[k]).Some? ==> forall i: nat :: i < n ==> calls(i) == Some(Collected(n, tr[k]).value[i]))
  {
    GroupRunKeeps(calls, n, limit, tr, k);
  }

  /** With the clamped limit the group is never stuck before it is over. */
  lemma GroupMoves(calls: Calls, n: nat, configured: int, g: Group)
    requires GroupInv(calls, n, Concurrency(configured), g) && !(g.launched == n && g.running == {})
    ensures exists h :: GroupStep(calls, n, Concurrency(configured), g, h)
  {
    var limit := Concurrency(configured);
    if g.running != {} {
      var i :| i in g.running;
      match calls(i)
      case Some(answer) =>
        assert GroupStep(calls, n, limit, g, g.(running := g.running - {i}, answers := g.answers[i := answer]));
      case None =>
        assert GroupStep(calls, n, limit, g, g.(running := g.running - {i}, failed := true));
    } else {
      assert GroupStep(calls, n, limit, g, g.(launched := g.launched + 1, running := g.running + {g.launched}));
    }
  }

  // -------------------------------------------------------------------- merging

  // `at` is the path to the commitments, split. The adapter always merges at
  // "message.contract.commitments[]" (payload.go:50); nothing below depends on that choice.

  function CommitmentAt(doc: Json, at: seq<string>): Option<Path> {
    var found := Containers(doc, at);
    if found == [] then None else Some(found[0])
  }

  function IsObject(): Json -> seq<Json> {
    (v: Json) => if v.Object? then [v] else []
  }

  function Member(j: Json, key: string): Json {
    if j.Object? && key in j.members then j.members[key] else Null
  }

  /** The resource objects of an answer's first commitment. */
  function ResourcesOf(doc: Json, at: seq<string>): seq<Json> {
    match CommitmentAt(doc, at)
    case None => []
    case Some(c) =>
      match At(doc, c)
      case None => []
      case Some(commitment) =>
        if Member(commitment, "resources").Array? then MapCat(Member(commitment, "resources").elems, IsObject()) else []
  }

  function AllResources(answers: seq<Json>, at: seq<string>): seq<Json> {
    if answers == [] then [] else AllResources(answers[..|answers| - 1], at) + ResourcesOf(answers[|answers| - 1], at)
  }

  lemma AllResourcesNext(answers: seq<Json>, n: nat, at: seq<string>)
    requires n < |answers|
    ensures AllResources(answers[..n + 1], at) == AllResources(answers[..n], at) + ResourcesOf(answers[n], at)
  {
    assert answers[..n + 1][..n] == answers[..n];
  }

  /** The answers' resources, one answer after the other. */
  lemma {:induction false} ResourcesInOrder(a: seq<Json>, b: seq<Json>, at: seq<string>)
    ensures AllResources(a + b, at) == AllResources(a, at) + AllResources(b, at)
  {
    if b == [] {
      assert a + b == a;
    } else {
      ResourcesInOrder(a, b[..|b| - 1], at);
      assert (a + b)[..|a + b| - 1] == a + b[..|b| - 1];
      Regroup(AllResources(a, at), AllResources(b[..|b| - 1], at), ResourcesOf(b[|b| - 1], at));
    }
  }

  function IsAnObject(): Json -> bool {
    (v: Json) => v.Object?
  }

  lemma {:induction false} ObjectsOf(values: seq<Json>)
    ensures MapCat(values, IsObject()) == Filter(values, IsAnObject())
  {
    if values != [] {
      ObjectsOf(values[1..]);
    }
  }

  /** An answer's resources are the objects in the list under "resources" of its first
      commitment, in order: the first object, in document order, that the path reaches. */
  lemma ResourcesTell(doc: Json, at: seq<string>)
    ensures CommitmentAt(doc, at).None? ==> Containers(doc, at) == [] && ResourcesOf(doc, at) == []
    ensures CommitmentAt(doc, at).Some? ==>
              var c := CommitmentAt(doc, at).value;
              && c in Containers(doc, at) && (forall d :: d in Containers(doc, at) && d != c ==> Before(c, d))
              && match At(doc, c + [Key("resources")])
                 case Some(Array(values)) => ResourcesOf(doc, at) == Filter(values, IsAnObject())
                 case _ => ResourcesOf(doc, at) == []
  {
    if CommitmentAt(doc, at).Some? {
      var found := Containers(doc, at);
      var c := found[0];
      ContainersAreObjects(doc, at, c);
      ContainersInOrder(doc, at);
      forall d | d in found && d != c ensures Before(c, d) {
        var k :| 0 <= k < |found| && found[k] == d;
      }
      AtBelow(doc, c, [Key("resources")]);
      HasMember(At(doc, c).value, "resources");
      var v := Member(At(doc, c).value, "resources");
      if v.Array? {
        ObjectsOf(v.elems);
      }
    }
  }

  function IdOf(resource: Json): string {
    if Member(resource, "id").Str? then Member(resource, "id").s else ""
  }

  /** A resource is the first with its id, or has none. */
  predicate IsFirst(all: seq<Json>, n: nat)
    requires n < |all|
  {
    IdOf(all[n]) == "" || forall m :: 0 <= m < n ==> IdOf(all[m]) != IdOf(all[n])
  }

  /** The first resource with each id, and every one without, in order. */
  function Firsts(all: seq<Json>): seq<Json> {
    if all == [] then []
    else Firsts(all[..|all| - 1]) + (if IsFirst(all, |all| - 1) then [all[|all| - 1]] else [])
  }

  lemma {:induction false} FirstsExtend(all: seq<Json>, r: Json)
    ensures Firsts(all + [r]) == Firsts(all) + (if IdOf(r) == "" || IdOf(r) !in Ids(all) then [r] else [])
  {
    var more := all + [r];
    assert more[..|more| - 1] == all;
    assert forall m :: 0 <= m < |all| ==> more[m] == all[m];
  }

  function Ids(all: seq<Json>): set<string> {
    set m | 0 <= m < |all| :: IdOf(all[m])
  }

  lemma IdsExtend(all: seq<Json>, r: Json)
    ensures Ids(all + [r]) == Ids(all) + {IdOf(r)}
  {
    var more := all + [r];
    assert more[|all|] == r;
    assert forall m :: 0 <= m < |all| ==> more[m] == all[m];
  }

  /** None of the ids is lost. */
  lemma {:induction false} FirstsKeepIds(all: seq<Json>)
    ensures Ids(Firsts(all)) == Ids(all)
  {
    if all != [] {
      var before, r := all[..|all| - 1], all[|all| - 1];
      FirstsKeepIds(before);
      assert all == before + [r];
      FirstsExtend(before, r);
      IdsExtend(before, r);
      IdsExtend(Firsts(before), r);
      assert Firsts(before) + [] == Firsts(before);
    }
  }

  /** No id is kept twice. */
  lemma {:induction false} FirstsAreDistinct(all: seq<Json>, i: nat, k: nat)
    requires i < k < |Firsts(all)| && IdOf(Firsts(all)[k]) != ""
    ensures IdOf(Firsts(all)[i]) != IdOf(Firsts(all)[k])
  {
    var before, r := all[..|all| - 1], all[|all| - 1];
    assert all == before + [r];
    FirstsExtend(before, r);
    if k < |Firsts(before)| {
      FirstsAreDistinct(before, i, k);
    } else {
      FirstsKeepIds(before);
      assert IdOf(Firsts(before)[i]) in Ids(Firsts(before));
    }
  }

  function RawId(): Json -> seq<Json> {
    (r: Json) => [Member(r, "id")]
  }

  /** The commitment with the merged resources, its offer pointing at them. */
  function Recommit(commitment: Json, kept: seq<Json>): Json
    requires commitment.Object?
  {
    var m := commitment.members["resources" := Array(kept)];
    if Member(commitment, "offer").Object? then
      Object(m["offer" := Object(Member(commitment, "offer").members["resourceIds" := Array(MapCat(kept, RawId()))])])
    else Object(m)
  }

  ghost function Merged(answers: seq<Json>, at: seq<string>): Json
    requires answers != [] && CommitmentAt(answers[0], at).Some?
  {
    var c := CommitmentAt(answers[0], at).value;
    ContainersAreObjects(answers[0], at, c);
    Replace(answers[0], c, Recommit(At(answers[0], c).value, Firsts(AllResources(answers, at))))
  }

  /** Adds one answer's resources to those already kept from `all`. */
  method AddResources(found: seq<Json>, resources: seq<Json>, seen: set<string>, ghost all: seq<Json>)
    returns (kept: seq<Json>, ids: set<string>)
    requires resources == Firsts(all) && seen == Ids(all)
    ensures kept == Firsts(all + found) && ids == Ids(all + found)
  {
    kept, ids := resources, seen;
    ghost var sofar := all;
    for k := 0 to |found|
      invariant sofar == all + found[..k]
      invariant kept == Firsts(sofar) && ids == Ids(sofar)
    {
      var id := IdOf(found[k]);
      FirstsExtend(sofar, found[k]);
      IdsExtend(sofar, found[k]);
      TakeNext(all, found, k);
      sofar := sofar + [found[k]];
      if id == "" || id !in ids {
        kept := kept + [found[k]];
      }
      ids := ids + {id};
    }
    assert sofar == all + found;
  }

  predicate Committed(doc: Json, at: seq<string>) { CommitmentAt(doc, at).Some? }

  /** What is kept after the first n answers. */
  ghost predicate KeptFrom(answers: seq<Json>, n: nat, kept: seq<Json>, ids: set<string>, at: seq<string>)
    requires n <= |answers|
  {
    kept == Firsts(AllResources(answers[..n], at)) && ids == Ids(AllResources(answers[..n], at))
  }

  method AddAnswer(answers: seq<Json>, n: nat, resources: seq<Json>, seen: set<string>, at: seq<string>) returns (kept: seq<Json>, ids: set<string>)
    requires n < |answers| && KeptFrom(answers, n, resources, seen, at)
    ensures KeptFrom(answers, n + 1, kept, ids, at)
  {
    kept, ids := AddResources(ResourcesOf(answers[n], at), resources, seen, AllResources(answers[..n], at));
    AllResourcesNext(answers, n, at);
  }

  lemma NoneKept(answers: seq<Json>, at: seq<string>)
    ensures KeptFrom(answers, 0, [], {}, at)
  {
    assert answers[..0] == [];
  }

  lemma KeptFromAll(answers: seq<Json>, kept: seq<Json>, ids: set<string>, at: seq<string>)
    requires KeptFrom(answers, |answers|, kept, ids, at)
    ensures kept == Firsts(AllResources(answers, at))
  {
    assert answers[..|answers|] == answers;
  }

  /** The first n answers all carry a commitment. */
  ghost predicate CommittedTo(answers: seq<Json>, n: nat, at: seq<string>)
    requires n <= |answers|
  {
    n == 0 || (CommittedTo(answers, n - 1, at) && Committed(answers[n - 1], at))
  }

  lemma {:induction false} CommittedToAll(answers: seq<Json>, n: nat, at: seq<string>)
    requires n <= |answers|
    ensures CommittedTo(answers, n, at) <==> forall i :: 0 <= i < n ==> Committed(answers[i], at)
  {
    if n > 0 {
      CommittedToAll(answers, n - 1, at);
    }
  }

  method TakeAnswer(answers: seq<Json>, n: nat, resources: seq<Json>, seen: set<string>, at: seq<string>)
    returns (ok: bool, kept: seq<Json>, ids: set<string>)
    requires n < |answers| && KeptFrom(answers, n, resources, seen, at) && CommittedTo(answers, n, at)
    ensures ok <==> CommittedTo(answers, n + 1, at)
    ensures ok ==> KeptFrom(answers, n + 1, kept, ids, at)
  {
    if CommitmentAt(answers[n], at).None? {
      return false, resources, seen;
    }
    kept, ids := AddAnswer(answers, n, resources, seen, at);
    return true, kept, ids;
  }

  lemma {:induction false} NotCommitted(answers: seq<Json>, n: nat, at: seq<string>)
    requires n <= |answers| && !CommittedTo(answers, n, at)
    ensures !CommittedTo(answers, |answers|, at)
    decreases |answers| - n
  {
    if n < |answers| {
      NotCommitted(answers, n + 1, at);
    }
  }

  /** The loop over the answers: all the resources kept, or none if one carries no
      commitment. */
  method CollectResources(answers: seq<Json>, at: seq<string>) returns (r: Outcome<seq<Json>>)
    ensures r.Done? <==> CommittedTo(answers, |answers|, at)
    ensures r.Done? ==> r.value == Firsts(AllResources(answers, at))
  {
    var resources: seq<Json>, seen: set<string> := [], {};
    NoneKept(answers, at);
    for n := 0 to |answers|
      invariant CommittedTo(answers, n, at) && KeptFrom(answers, n, resources, seen, at)
    {
      var ok;
      ok, resources, seen := TakeAnswer(answers, n, resources, seen, at);
      if !ok {
        NotCommitted(answers, n + 1, at);
        return Refused;
      }
    }
    KeptFromAll(answers, resources, seen, at);
    return Done(resources);
  }

  method MergeAnswers(answers: seq<Json>, at: seq<string>) returns (r: Outcome<Json>)
    ensures r.Done? <==> answers != [] && forall i :: 0 <= i < |answers| ==> Committed(answers[i], at)
    ensures r.Done? ==> r.value == Merged(answers, at)
  {
    if |answers| == 0 || !Committed(answers[0], at) {
      return Refused;
    }
    var c := CommitmentAt(answers[0], at).value;
    ContainersAreObjects(answers[0], at, c);
    CommittedToAll(answers, |answers|, at);
    var resources := CollectResources(answers, at);
    if resources.Refused? {
      return Refused;
    }
    return Done(Replace(answers[0], c, Recommit(At(answers[0], c).value, resources.value)));
  }

  lemma {:induction false} RawIdsAre(kept: seq<Json>)
    ensures |MapCat(kept, RawId())| == |kept|
    ensures forall i :: 0 <= i < |kept| ==> MapCat(kept, RawId())[i] == Member(kept[i], "id")
  {
    if kept != [] {
      RawIdsAre(kept[1..]);
    }
  }

  lemma AtMember(j: Json, q: Path)
    requires j.Object? && q != []
    ensures At(j, q) == if q[0].Key? && q[0].key in j.members then At(j.members[q[0].key], q[1..]) else None
  {
  }

  lemma RecommitIsLocal(commitment: Json, kept: seq<Json>, q: Path)
    requires commitment.Object? && q != []
    requires q[0] != Key("resources") && !(|q| >= 2 && q[0] == Key("offer") && q[1] == Key("resourceIds"))
    ensures See(Recommit(commitment, kept), q) == See(commitment, q)
  {
    var out := Recommit(commitment, kept);
    AtMember(commitment, q);
    AtMember(out, q);
    if q[0] == Key("offer") && Member(commitment, "offer").Object? {
      if |q| >= 2 {
        assert q[1..][0] == q[1];
        AtMember(commitment.members["offer"], q[1..]);
        AtMember(out.members["offer"], q[1..]);
      } else {
        assert q[1..] == [];
      }
    }
  }

  lemma BelowPath(c: Path, rest: Path, more: Path)
    ensures c + more <= c + rest <==> more <= rest
    ensures (c + rest)[|c|..] == rest
  {
    if c + more <= c + rest {
      assert forall i :: 0 <= i < |more| ==> more[i] == (c + more)[|c| + i] == (c + rest)[|c| + i] == rest[i];
    }
  }

  lemma AtBelow(j: Json, c: Path, rest: Path)
    requires At(j, c).Some?
    ensures At(j, c + rest) == At(At(j, c).value, rest)
  {
    assert (c + rest)[..|c|] == c && (c + rest)[|c|..] == rest;
    AtSplit(j, c + rest, |c|);
  }

  const RESOURCES := [Key("resources")]
  const RESOURCE_IDS := [Key("offer"), Key("resourceIds")]

  /** At and below the commitment, the same shows except in what the merge writes. */
  lemma RecommitShows(doc: Json, c: Path, kept: seq<Json>, rest: Path)
    requires At(doc, c).Some? && At(doc, c).value.Object?
    requires !(c + RESOURCES <= c + rest) && !(c + RESOURCE_IDS <= c + rest)
    ensures See(Recommit(At(doc, c).value, kept), rest) == See(doc, c + rest)
  {
    AtBelow(doc, c, rest);
    BelowPath(c, rest, RESOURCES);
    BelowPath(c, rest, RESOURCE_IDS);
    if rest != [] {
      NotBelow(rest);
      RecommitIsLocal(At(doc, c).value, kept, rest);
    }
  }

  lemma NotBelow(rest: Path)
    requires rest != [] && !(RESOURCES <= rest) && !(RESOURCE_IDS <= rest)
    ensures rest[0] != Key("resources") && !(|rest| >= 2 && rest[0] == Key("offer") && rest[1] == Key("resourceIds"))
  {
  }

  /** Nothing else of the first answer is touched. */
  lemma MergeIsLocal(answers: seq<Json>, q: Path, at: seq<string>)
    requires answers != [] && CommitmentAt(answers[0], at).Some?
    requires var c := CommitmentAt(answers[0], at).value;
             !(c + RESOURCES <= q) && !(c + RESOURCE_IDS <= q)
    ensures See(Merged(answers, at), q) == See(answers[0], q)
  {
    var c := CommitmentAt(answers[0], at).value;
    ContainersAreObjects(answers[0], at, c);
    var kept := Firsts(AllResources(answers, at));
    ReplaceIsLocal(answers[0], c, Recommit(At(answers[0], c).value, kept), q);
    if c <= q {
      assert q == c + q[|c|..];
      RecommitShows(answers[0], c, kept, q[|c|..]);
    }
  }

  /** The merged answer keeps the first answer's message id, whoever's that is: nothing in the
      merge restores the caller's. */
  lemma MergeKeepsTheMessageId(answers: seq<Json>, at: seq<string>)
    requires answers != [] && CommitmentAt(answers[0], at).Some? && at != [] && Name(at[0]) != "context"
    ensures See(Merged(answers, at), MESSAGE_ID) == See(answers[0], MESSAGE_ID)
  {
    var c := CommitmentAt(answers[0], at).value;
    ContainersAreObjects(answers[0], at, c);
    assert c[0] == Key(Name(at[0]));
    assert (c + RESOURCES)[0] == c[0] && (c + RESOURCE_IDS)[0] == c[0] && MESSAGE_ID[0] == Key("context");
    MergeIsLocal(answers, MESSAGE_ID, at);
  }

  /** The merged answer is the first one everywhere except in the resources of its first
      commitment and the ids its offer lists: those are the answers' first-commitment
      resource objects in the order of the parts, each non-empty id once at its first
      occurrence, and exactly their ids in that order. */
  lemma MergeIsFaithful(answers: seq<Json>, at: seq<string>)
    requires answers != [] && CommitmentAt(answers[0], at).Some?
    ensures var c := CommitmentAt(answers[0], at).value;
            At(Merged(answers, at), c + RESOURCES) == Some(Array(Firsts(AllResources(answers, at))))
    ensures var c := CommitmentAt(answers[0], at).value;
            At(answers[0], c + [Key("offer")]).Some? && At(answers[0], c + [Key("offer")]).value.Object? ==>
              At(Merged(answers, at), c + RESOURCE_IDS) == Some(Array(MapCat(Firsts(AllResources(answers, at)), RawId())))
  {
    var c := CommitmentAt(answers[0], at).value;
    ContainersAreObjects(answers[0], at, c);
    var commitment, kept := At(answers[0], c).value, Firsts(AllResources(answers, at));
    var out := Recommit(commitment, kept);
    ReplaceIsLocal(answers[0], c, out, c + RESOURCES);
    ReplaceIsLocal(answers[0], c, out, c + RESOURCE_IDS);
    BelowPath(c, RESOURCES, []);
    BelowPath(c, RESOURCE_IDS, []);
    assert c + [] == c;
    HasMember(out, "resources");
    AtBelow(answers[0], c, [Key("offer")]);
    HasMember(commitment, "offer");
    if Member(commitment, "offer").Object? {
      AtMember(out, RESOURCE_IDS);
      assert RESOURCE_IDS[1..] == [Key("resourceIds")];
      HasMember(out.members["offer"], "resourceIds");
    }
  }

  // ------------------------------------------------------------ a whole search

  /** The call for each type: its own part of the payload, served or not. */
  function CallsFor(body: Json, path: string, types: seq<string>, serve: Json -> Option<Json>): Calls {
    (i: nat) => if i < |types| then serve(Part(body, path, types[i])) else None
  }

  /** A part was served, and with an answer that can be merged. */
  predicate Serves(answer: Option<Json>, at: seq<string>) {
    answer.Some? && Committed(answer.value, at)
  }

  /** What the search answers once its calls are over. */
  ghost function FinalAnswer(n: nat, g: Group, at: seq<string>): Option<Json>
    requires !g.failed ==> forall i: nat :: i < n ==> i in g.answers
  {
    match Collected(n, g)
    case None => None
    case Some(answers) =>
      if answers != [] && forall i :: 0 <= i < |answers| ==> Committed(answers[i], at) then Some(Merged(answers, at)) else None
  }

  /** Whatever the calls, in every completion order: a finished group has no answer exactly if
      some call was not served or its answer has no commitment, and otherwise merges the
      answers in the order of the parts. */
  lemma GroupIsWhole(calls: Calls, n: nat, limit: nat, tr: seq<Group>, end: Group, at: seq<string>)
    requires n > 0 && GroupRun(calls, n, limit, tr) && end == tr[|tr| - 1] && end.launched == n && end.running == {}
    ensures !end.failed ==> forall i: nat :: i < n ==> i in end.answers
    ensures FinalAnswer(n, end, at).None? <==> exists i: nat :: i < n && !Serves(calls(i), at)
    ensures forall served :: Answered(calls, n, served) && FinalAnswer(n, end, at).Some? ==> FinalAnswer(n, end, at).value == Merged(served, at)
  {
    CallsKeepOrder(calls, n, limit, tr, |tr| - 1);
    if !end.failed {
      var answers := Collected(n, end).value;
      forall served | Answered(calls, n, served) ensures served == answers {
        assert forall i: nat :: i < n ==> served[i] == answers[i];
      }
      if j :| 0 <= j < |answers| && !Committed(answers[j], at) {
        assert !Serves(calls(j), at);
      }
    }
  }

  ghost predicate Answered(calls: Calls, n: nat, served: seq<Json>) {
    |served| == n && forall i: nat :: i < n ==> calls(i) == Some(served[i])
  }

  /** For every payload that names its types and every completion order: the search has no
      answer exactly if some named type's own part was not served with a commitment. Otherwise
      its resources are the first occurrences among all that those parts were answered with,
      in the order the types were named. */
  lemma SearchIsWhole(body: Json, path: string, types: seq<string>, serve: Json -> Option<Json>, configured: int,
                      tr: seq<Group>, end: Group, served: seq<Json>, at: seq<string>)
    requires Accepts(body, path, types)
    requires GroupRun(CallsFor(body, path, types, serve), |types|, Concurrency(configured), tr)
    requires end == tr[|tr| - 1] && end.launched == |types| && end.running == {}
    ensures !end.failed ==> forall i: nat :: i < |types| ==> i in end.answers
    ensures FinalAnswer(|types|, end, at).None? <==> exists i: nat :: i < |types| && !Serves(CallsFor(body, path, types, serve)(i), at)
    ensures Answered(CallsFor(body, path, types, serve), |types|, served) && FinalAnswer(|types|, end, at).Some? ==>
              && CommitmentAt(served[0], at).Some?
              && At(FinalAnswer(|types|, end, at).value, CommitmentAt(served[0], at).value + RESOURCES)
                 == Some(Array(Firsts(AllResources(served, at))))
  {
    var calls := CallsFor(body, path, types, serve);
    GroupIsWhole(calls, |types|, Concurrency(configured), tr, end, at);
    if Answered(calls, |types|, served) && FinalAnswer(|types|, end, at).Some? {
      assert Serves(calls(0), at);
      MergeIsFaithful(served, at);
    }
  }
}
