/** From a failed validation to the causes reported on the wire. The validator answers
    with a tree of errors; the walk keeps the branches the payload was meant for. */
module SchemaErrors {
  import opened Sequences
  import opened Strings

  /** What a schema error says of itself: the keyword, where, and why. */
  datatype Leaf = Leaf(field: string, pointer: seq<string>, reason: string)

  /** An error tree: a schema error without or with an origin, one of the slices of
      errors, an error wrapping another, or an error with nothing underneath. */
  datatype Failure =
    | Assertion(leaf: Leaf)
    | Caused(leaf: Leaf, origin: Failure)
    | Branches(errs: seq<Failure>)
    | Wrapper(inner: Failure)
    | Opaque

  predicate IsDiscriminator(field: string) { field == "enum" || field == "const" }
  predicate IsGuard(field: string) { field == "const" }
  predicate IsForeignField(field: string) { field == "properties" }
  predicate IsComposite(field: string) { field == "allOf" || field == "anyOf" || field == "oneOf" }
  predicate IsDisjunctive(field: string) { field == "oneOf" || field == "anyOf" }

  // --------------------------------------------------------------- the walks

  /** The leaves under one branch, and whether the branch was ruled out. */
  datatype Arm = Arm(leaves: seq<Leaf>, out: bool)

  function LeavesUnder(e: Failure, alternatives: bool): seq<Leaf>
    decreases e, 1
  {
    match e
    case Assertion(l) => Own(l)
    case Caused(l, origin) =>
      var below := LeavesUnder(origin, IsDisjunctive(l.field));
      if below != [] then below else Own(l)
    case Wrapper(inner) => LeavesUnder(inner, alternatives)
    case Branches(errs) => Survivors(Arms(errs, alternatives), alternatives)
    case Opaque => []
  }

  /** A composite without a reachable cause names nothing, nor does a bare "not". */
  function Own(l: Leaf): seq<Leaf> {
    if IsComposite(l.field) || (l.field == "not" && l.pointer == []) then [] else [l]
  }

  lemma OwnTells(l: Leaf)
    ensures Own(l) == [] <==> l.field in ["allOf", "anyOf", "oneOf"] || (l.field == "not" && l.pointer == [])
    ensures Own(l) == [] || Own(l) == [l]
  {
  }

  function Arms(errs: seq<Failure>, alternatives: bool): seq<Arm>
    decreases errs, 0
  {
    if errs == [] then []
    else [Arm(LeavesUnder(errs[0], false), alternatives && RuledOut(errs[0]))] + Arms(errs[1..], alternatives)
  }

  /** A const fails somewhere in the tree, with no oneOf or anyOf above it. */
  predicate RuledOut(e: Failure)
    decreases e, 1
  {
    match e
    case Assertion(l) => IsGuard(l.field)
    case Caused(l, origin) => !IsDisjunctive(l.field) && (IsGuard(l.field) || RuledOutBelow(origin))
    case _ => RuledOutBelow(e)
  }

  /** An origin that is itself a schema error is stepped past with Unwrap. */
  predicate RuledOutBelow(e: Failure)
    decreases e, 0
  {
    match e
    case Branches(errs) => exists i :: 0 <= i < |errs| && RuledOut(errs[i])
    case Wrapper(inner) => RuledOut(inner)
    case Caused(_, origin) => RuledOut(origin)
    case _ => false
  }

  function Pinned(leaves: seq<Leaf>): seq<Leaf> {
    if leaves == [] then []
    else if IsDiscriminator(leaves[0].field) then [leaves[0]] + Pinned(leaves[1..])
    else Pinned(leaves[1..])
  }

  predicate OnlyPinned(leaves: seq<Leaf>) {
    |leaves| > 0 && |Pinned(leaves)| == |leaves|
  }

  predicate AllOut(arms: seq<Arm>) {
    forall i :: 0 <= i < |arms| ==> arms[i].out
  }

  function Standing(all: bool): Arm -> seq<seq<Leaf>> {
    (a: Arm) => if !a.out || (all && OnlyPinned(a.leaves)) then [a.leaves] else []
  }

  function WhyOut(): Arm -> seq<seq<Leaf>> {
    (a: Arm) => if Pinned(a.leaves) != [] then [Pinned(a.leaves)] else []
  }

  function Whole(): Arm -> seq<seq<Leaf>> {
    (a: Arm) => [a.leaves]
  }

  /** The arms that are not out, or, with `all`, those with pinned leaves only. If there are
      none: the pinned leaves of each arm that has some. If there are none either: all. */
  function Kept(arms: seq<Arm>, all: bool): seq<seq<Leaf>> {
    var standing := MapCat(arms, Standing(all));
    if standing != [] then standing
    else
      var why := MapCat(arms, WhyOut());
      if why != [] then why else MapCat(arms, Whole())
  }

  function Survivors(arms: seq<Arm>, alternatives: bool): seq<Leaf> {
    var kept := Kept(arms, alternatives && AllOut(arms));
    Concat(if alternatives then Nearest(kept) else kept)
  }

  function Itself(): seq<Leaf> -> seq<Leaf> {
    (arm: seq<Leaf>) => arm
  }

  function Concat(arms: seq<seq<Leaf>>): seq<Leaf> {
    MapCat(arms, Itself())
  }

  // -------------------------------------------------------------- the nearest

  /** Two leaves with the same key say the same thing. */
  function Key(l: Leaf): string {
    l.field + "\0" + Join(l.pointer, "/") + "\0" + l.reason
  }

  /** Where no part holds the separator, leaves with the same key agree in keyword, place and
      reason. */
  lemma KeyTells(a: Leaf, b: Leaf)
    requires Key(a) == Key(b) && NoZero(a) && NoZero(b)
    ensures a.field == b.field && Join(a.pointer, "/") == Join(b.pointer, "/") && a.reason == b.reason
  {
    KeyParts(a);
    KeyParts(b);
  }

  predicate NoZero(l: Leaf) {
    '\0' !in l.field && '\0' !in Join(l.pointer, "/") && '\0' !in l.reason
  }

  lemma KeyParts(l: Leaf)
    requires NoZero(l)
    ensures var parts := Split(Key(l), '\0');
            |parts| == 3 && parts[0] == l.field && parts[1] == Join(l.pointer, "/") && parts[2] == l.reason
  {
    var rest := Join(l.pointer, "/") + ['\0'] + l.reason;
    assert Key(l) == l.field + ['\0'] + rest;
    SplitAt(l.field, rest, '\0');
    SplitAt(Join(l.pointer, "/"), l.reason, '\0');
    SplitPlain(l.reason, '\0');
  }

  function Reasons(arm: seq<Leaf>): set<string> {
    set l | l in arm :: Key(l)
  }

  predicate StrictSubset(a: set<string>, b: set<string>) {
    |a| != 0 && |a| < |b| && forall r :: r in a ==> r in b
  }

  predicate Outdone(arm: seq<Leaf>, pool: seq<seq<Leaf>>) {
    exists i :: 0 <= i < |pool| && StrictSubset(Reasons(pool[i]), Reasons(arm))
  }

  function Undone(pool: seq<seq<Leaf>>): seq<Leaf> -> seq<seq<Leaf>> {
    (arm: seq<Leaf>) => if Outdone(arm, pool) then [] else [arm]
  }

  function Nearest(arms: seq<seq<Leaf>>): seq<seq<Leaf>> {
    MapCat(arms, Undone(arms))
  }

  method BeatenBy(reasons: seq<set<string>>, own: set<string>) returns (beaten: bool)
    ensures beaten <==> exists j :: 0 <= j < |reasons| && StrictSubset(reasons[j], own)
  {
    for k := 0 to |reasons|
      invariant forall j :: 0 <= j < k ==> !StrictSubset(reasons[j], own)
    {
      if StrictSubset(reasons[k], own) {
        return true;
      }
    }
    return false;
  }

  /** The filter as the code runs it: the reason sets first, then each alternative
      against every set, itself included. */
  method KeepNearest(arms: seq<seq<Leaf>>) returns (kept: seq<seq<Leaf>>)
    ensures kept == Nearest(arms)
  {
    var reasons: seq<set<string>> := [];
    for i := 0 to |arms|
      invariant |reasons| == i
      invariant forall k :: 0 <= k < i ==> reasons[k] == Reasons(arms[k])
    {
      reasons := reasons + [Reasons(arms[i])];
    }
    kept := [];
    assert arms[..0] == [];
    for i := 0 to |arms|
      invariant kept == MapCat(arms[..i], Undone(arms))
    {
      var outdone := BeatenBy(reasons, reasons[i]);
      assert outdone <==> Outdone(arms[i], arms);
      MapCatAppend(arms[..i], [arms[i]], Undone(arms));
      MapCatOne(arms[i], Undone(arms));
      assert arms[..i + 1] == arms[..i] + [arms[i]];
      if !outdone {
        kept := kept + [arms[i]];
      }
    }
    assert arms[..|arms|] == arms;
  }

  lemma StrictSubsetIsProper(a: set<string>, b: set<string>)
    ensures StrictSubset(a, b) <==> a != {} && a < b
  {
    if StrictSubset(a, b) {
      assert a <= b && a != b;
    }
    if a != {} && a < b {
      var x :| x in b && x !in a;
      assert b == a + (b - a) && x in b - a;
      assert |b| == |a| + |b - a|;
    }
  }

  ghost predicate HasCloser(arm: seq<Leaf>, pool: seq<seq<Leaf>>) {
    exists i :: 0 <= i < |pool| && Reasons(pool[i]) != {} && Reasons(pool[i]) < Reasons(arm)
  }

  lemma OutdoneIsCloser(arm: seq<Leaf>, pool: seq<seq<Leaf>>)
    ensures Outdone(arm, pool) <==> HasCloser(arm, pool)
  {
    if i :| 0 <= i < |pool| && StrictSubset(Reasons(pool[i]), Reasons(arm)) {
      StrictSubsetIsProper(Reasons(pool[i]), Reasons(arm));
    }
    if i :| 0 <= i < |pool| && Reasons(pool[i]) != {} && Reasons(pool[i]) < Reasons(arm) {
      StrictSubsetIsProper(Reasons(pool[i]), Reasons(arm));
    }
  }

  lemma InNearest(arms: seq<seq<Leaf>>, arm: seq<Leaf>)
    ensures arm in Nearest(arms) <==> arm in arms && !Outdone(arm, arms)
  {
    MapCatHas(arms, Undone(arms), arm);
    if i :| 0 <= i < |arms| && arms[i] == arm {
      assert arm in Undone(arms)(arms[i]) <==> !Outdone(arm, arms);
    }
  }

  /** Who outdoes a dropped alternative: some alternative that is itself kept and has
      a reason to give. */
  lemma {:induction false} OutdoneByKept(arm: seq<Leaf>, pool: seq<seq<Leaf>>) returns (better: nat)
    requires Outdone(arm, pool)
    ensures better < |pool| && !Outdone(pool[better], pool)
    ensures Reasons(pool[better]) != {} && Reasons(pool[better]) < Reasons(arm)
    decreases |Reasons(arm)|
  {
    var i :| 0 <= i < |pool| && StrictSubset(Reasons(pool[i]), Reasons(arm));
    StrictSubsetIsProper(Reasons(pool[i]), Reasons(arm));
    if Outdone(pool[i], pool) {
      better := OutdoneByKept(pool[i], pool);
    } else {
      better := i;
    }
  }

  /** The filter keeps exactly the alternatives no other one's non-empty reasons are a
      proper subset of, and each it drops is outdone by one it keeps. */
  lemma NearestKeepsMinimal(arms: seq<seq<Leaf>>, arm: seq<Leaf>)
    ensures arm in Nearest(arms) <==> arm in arms && !HasCloser(arm, arms)
    ensures arm in arms && arm !in Nearest(arms) ==>
              exists i :: 0 <= i < |arms| && arms[i] in Nearest(arms) && Reasons(arms[i]) != {} && Reasons(arms[i]) < Reasons(arm)
  {
    InNearest(arms, arm);
    OutdoneIsCloser(arm, arms);
    if Outdone(arm, arms) {
      var better := OutdoneByKept(arm, arms);
      InNearest(arms, arms[better]);
    }
  }

  // ---------------------------------------------------- ruled-out alternatives

  lemma {:induction false} PinnedFacts(leaves: seq<Leaf>)
    ensures |Pinned(leaves)| <= |leaves|
    ensures forall l :: l in Pinned(leaves) <==> l in leaves && IsDiscriminator(l.field)
    ensures |Pinned(leaves)| == |leaves| <==> forall l :: l in leaves ==> IsDiscriminator(l.field)
    ensures forall l :: multiset(Pinned(leaves))[l] == if IsDiscriminator(l.field) then multiset(leaves)[l] else 0
  {
    if leaves != [] {
      PinnedFacts(leaves[1..]);
      assert leaves == [leaves[0]] + leaves[1..];
      assert forall l :: l in leaves <==> l == leaves[0] || l in leaves[1..];
      assert multiset(leaves) == multiset{leaves[0]} + multiset(leaves[1..]);
    }
  }

  lemma {:induction false} ArmsAre(errs: seq<Failure>, alternatives: bool)
    ensures |Arms(errs, alternatives)| == |errs|
    ensures forall i :: 0 <= i < |errs| ==>
              Arms(errs, alternatives)[i] == Arm(LeavesUnder(errs[i], false), alternatives && RuledOut(errs[i]))
  {
    if errs != [] {
      ArmsAre(errs[1..], alternatives);
    }
  }

  lemma ConcatHas(arms: seq<seq<Leaf>>, l: Leaf)
    ensures l in Concat(arms) <==> exists i :: 0 <= i < |arms| && l in arms[i]
  {
    MapCatHas(arms, Itself(), l);
  }

  /** The conjuncts of a list all count. */
  lemma ConjunctsAllCount(errs: seq<Failure>, i: nat, l: Leaf)
    requires i < |errs| && l in LeavesUnder(errs[i], false)
    ensures l in LeavesUnder(Branches(errs), false)
  {
    var arms := Arms(errs, false);
    ArmsAre(errs, false);
    MapCatHas(arms, Standing(false), arms[i].leaves);
    assert arms[i].leaves in Standing(false)(arms[i]);
    ConcatHas(Kept(arms, false), l);
  }

  /** What the validator builds: an origin is a list or a wrapper, never directly another
      schema error, and a failed const has none. */
  predicate WellFormed(e: Failure) {
    match e
    case Caused(l, origin) => !IsGuard(l.field) && !origin.Assertion? && !origin.Caused? && WellFormed(origin)
    case Branches(errs) => forall i :: 0 <= i < |errs| ==> WellFormed(errs[i])
    case Wrapper(inner) => WellFormed(inner)
    case _ => true
  }

  predicate HasPinned(leaves: seq<Leaf>) {
    exists l :: l in leaves && IsDiscriminator(l.field)
  }

  /** In such a tree the two walks agree: a branch ruled out shows a pinned value. */
  lemma {:induction false} RuledOutShowsWhy(e: Failure)
    requires WellFormed(e) && RuledOut(e)
    ensures HasPinned(LeavesUnder(e, false))
  {
    match e
    case Assertion(l) =>
      assert l in LeavesUnder(e, false);
    case Caused(l, origin) =>
      RuledOutShowsWhy(origin);
    case Wrapper(inner) =>
      RuledOutShowsWhy(inner);
    case Branches(errs) =>
      var i :| 0 <= i < |errs| && RuledOut(errs[i]);
      RuledOutShowsWhy(errs[i]);
      var l :| l in LeavesUnder(errs[i], false) && IsDiscriminator(l.field);
      ConjunctsAllCount(errs, i, l);
  }

  /** The path leads to a const failure and past no oneOf or anyOf. */
  predicate ConstAt(e: Failure, p: seq<nat>) {
    match e
    case Assertion(l) => p == [] && l.field == "const"
    case Caused(l, origin) => l.field != "oneOf" && l.field != "anyOf" && p != [] && ConstAt(origin, p[1..])
    case Branches(errs) => p != [] && p[0] < |errs| && ConstAt(errs[p[0]], p[1..])
    case Wrapper(inner) => p != [] && ConstAt(inner, p[1..])
    case Opaque => false
  }

  lemma {:induction false} ConstRulesOut(e: Failure, p: seq<nat>)
    requires WellFormed(e) && ConstAt(e, p)
    ensures RuledOut(e)
  {
    match e
    case Assertion(l) =>
    case Caused(l, origin) => ConstRulesOut(origin, p[1..]);
    case Wrapper(inner) => ConstRulesOut(inner, p[1..]);
    case Branches(errs) => ConstRulesOut(errs[p[0]], p[1..]);
  }

  lemma {:induction false} RuledOutByConst(e: Failure) returns (p: seq<nat>)
    requires WellFormed(e) && RuledOut(e)
    ensures ConstAt(e, p)
  {
    match e
    case Assertion(l) =>
      p := [];
    case Caused(l, origin) =>
      var q := RuledOutByConst(origin);
      assert ([0] + q)[1..] == q;
      p := [0] + q;
    case Wrapper(inner) =>
      var q := RuledOutByConst(inner);
      assert ([0] + q)[1..] == q;
      p := [0] + q;
    case Branches(errs) =>
      var i: nat :| i < |errs| && RuledOut(errs[i]);
      var q := RuledOutByConst(errs[i]);
      assert ([i] + q)[1..] == q;
      p := [i] + q;
  }

  /** In such a tree an alternative is ruled out exactly by a const failure that is not behind
      alternatives of its own; an enum failure rules nothing out. */
  lemma RuledOutExactly(e: Failure)
    requires WellFormed(e)
    ensures RuledOut(e) <==> FailsOnConst(e)
  {
    if RuledOut(e) {
      var p := RuledOutByConst(e);
    }
    if FailsOnConst(e) {
      var p: seq<nat> :| ConstAt(e, p);
      ConstRulesOut(e, p);
    }
  }

  ghost predicate FailsOnConst(e: Failure) {
    exists p: seq<nat> :: ConstAt(e, p)
  }

  predicate OnlyDiscriminators(leaves: seq<Leaf>) {
    forall l :: l in leaves ==> IsDiscriminator(l.field)
  }

  /** Every arm has something to say and says only pinned values. */
  predicate PinnedArms(arms: seq<seq<Leaf>>) {
    |arms| > 0 && forall i :: 0 <= i < |arms| ==> arms[i] != [] && OnlyDiscriminators(arms[i])
  }

  lemma StandingArePinned(arms: seq<Arm>, a: seq<Leaf>)
    requires AllOut(arms) && a in MapCat(arms, Standing(true))
    ensures a != [] && OnlyDiscriminators(a)
  {
    MapCatHas(arms, Standing(true), a);
    PinnedFacts(a);
  }

  lemma WhyOutArePinned(arms: seq<Arm>, a: seq<Leaf>)
    requires a in MapCat(arms, WhyOut())
    ensures a != [] && OnlyDiscriminators(a)
  {
    MapCatHas(arms, WhyOut(), a);
    var i :| 0 <= i < |arms| && a in WhyOut()(arms[i]);
    PinnedFacts(arms[i].leaves);
  }

  lemma WhyOutIsSaid(arms: seq<Arm>, i: nat)
    requires i < |arms| && HasPinned(arms[i].leaves)
    ensures Pinned(arms[i].leaves) in MapCat(arms, WhyOut())
  {
    PinnedFacts(arms[i].leaves);
    assert Pinned(arms[i].leaves) in WhyOut()(arms[i]);
    MapCatHas(arms, WhyOut(), Pinned(arms[i].leaves));
  }

  lemma KeptWhenAllOut(arms: seq<Arm>)
    requires AllOut(arms) && exists i :: 0 <= i < |arms| && HasPinned(arms[i].leaves)
    ensures PinnedArms(Kept(arms, true))
  {
    var i :| 0 <= i < |arms| && HasPinned(arms[i].leaves);
    WhyOutIsSaid(arms, i);
    var kept := Kept(arms, true);
    forall k | 0 <= k < |kept| ensures kept[k] != [] && OnlyDiscriminators(kept[k]) {
      if MapCat(arms, Standing(true)) != [] {
        StandingArePinned(arms, kept[k]);
      } else {
        WhyOutArePinned(arms, kept[k]);
      }
    }
  }

  lemma NearestOfPinned(kept: seq<seq<Leaf>>)
    requires PinnedArms(kept)
    ensures Concat(Nearest(kept)) != [] && OnlyDiscriminators(Concat(Nearest(kept)))
  {
    forall l | l in Concat(Nearest(kept)) ensures IsDiscriminator(l.field) {
      ConcatHas(Nearest(kept), l);
      var i :| 0 <= i < |Nearest(kept)| && l in Nearest(kept)[i];
      InNearest(kept, Nearest(kept)[i]);
    }
    var best := 0;
    if Outdone(kept[0], kept) {
      best := OutdoneByKept(kept[0], kept);
    }
    InNearest(kept, kept[best]);
    ConcatHas(Nearest(kept), kept[best][0]);
  }

  lemma KeptWithoutPinned(arms: seq<Arm>, l: Leaf)
    requires AllOut(arms) && forall i :: 0 <= i < |arms| ==> !HasPinned(arms[i].leaves)
    requires l in Concat(Nearest(Kept(arms, true)))
    ensures !IsDiscriminator(l.field)
  {
    var kept := Kept(arms, true);
    ConcatHas(Nearest(kept), l);
    var k :| 0 <= k < |Nearest(kept)| && l in Nearest(kept)[k];
    InNearest(kept, Nearest(kept)[k]);
    KeptAreArms(arms, Nearest(kept)[k]);
  }

  lemma KeptAreArms(arms: seq<Arm>, a: seq<Leaf>)
    requires forall i :: 0 <= i < |arms| ==> !HasPinned(arms[i].leaves)
    requires a in Kept(arms, true)
    ensures !HasPinned(a)
  {
    if MapCat(arms, Standing(true)) != [] {
      MapCatHas(arms, Standing(true), a);
    } else if MapCat(arms, WhyOut()) != [] {
      MapCatHas(arms, WhyOut(), a);
      var i :| 0 <= i < |arms| && a in WhyOut()(arms[i]);
      PinnedFacts(arms[i].leaves);
    } else {
      MapCatHas(arms, Whole(), a);
    }
  }

  /** When every alternative is ruled out, the report is non-empty and all enum or const
      exactly if some alternative shows such a leaf at all. */
  lemma AllRuledOutReport(errs: seq<Failure>)
    requires forall i :: 0 <= i < |errs| ==> RuledOut(errs[i])
    ensures var report := LeavesUnder(Branches(errs), true);
            (report != [] && OnlyDiscriminators(report))
              <==> exists i :: 0 <= i < |errs| && HasPinned(LeavesUnder(errs[i], false))
  {
    var arms := Arms(errs, true);
    ArmsAre(errs, true);
    if i :| 0 <= i < |errs| && HasPinned(LeavesUnder(errs[i], false)) {
      assert HasPinned(arms[i].leaves);
      KeptWhenAllOut(arms);
      NearestOfPinned(Kept(arms, true));
    } else {
      var report := LeavesUnder(Branches(errs), true);
      if report != [] {
        KeptWithoutPinned(arms, report[0]);
      }
    }
  }

  // What a list of errors reports, in full: which leaves, how often and in what order.

  function InARow(lists: seq<seq<Leaf>>): seq<Leaf> {
    if lists == [] then [] else lists[0] + InARow(lists[1..])
  }

  function LeafLists(errs: seq<Failure>): seq<seq<Leaf>> {
    if errs == [] then [] else [LeavesUnder(errs[0], false)] + LeafLists(errs[1..])
  }

  /** The leaves of each alternative that stands. */
  function StandingLists(errs: seq<Failure>): seq<seq<Leaf>> {
    if errs == [] then []
    else if RuledOut(errs[0]) then StandingLists(errs[1..])
    else [LeavesUnder(errs[0], false)] + StandingLists(errs[1..])
  }

  /** The enum and const leaves of each list that has some. */
  function PinLists(lists: seq<seq<Leaf>>): seq<seq<Leaf>> {
    if lists == [] then []
    else
      var pins := Filter(lists[0], IsPin());
      if pins == [] then PinLists(lists[1..]) else [pins] + PinLists(lists[1..])
  }

  function IsPin(): Leaf -> bool {
    (l: Leaf) => l.field == "enum" || l.field == "const"
  }

  ghost function AllPins(): seq<Leaf> -> bool {
    (a: seq<Leaf>) => a != [] && forall l :: l in a ==> l.field == "enum" || l.field == "const"
  }

  /** No list of the pool has reasons that are a proper, non-empty part of these. */
  ghost function Closest(pool: seq<seq<Leaf>>): seq<Leaf> -> bool {
    (a: seq<Leaf>) => !HasCloser(a, pool)
  }

  /** The lists of a pool that no other list of it comes closer than. */
  ghost function ClosestOf(pool: seq<seq<Leaf>>): seq<seq<Leaf>> {
    Filter(pool, Closest(pool))
  }

  /** The lists a oneOf or anyOf chooses among. */
  ghost function Candidates(errs: seq<Failure>): seq<seq<Leaf>> {
    var all := LeafLists(errs);
    if StandingLists(errs) != [] then StandingLists(errs)
    else if Filter(all, AllPins()) != [] then Filter(all, AllPins())
    else if PinLists(all) != [] then PinLists(all)
    else all
  }

  lemma {:induction false} ConcatIsInARow(lists: seq<seq<Leaf>>)
    ensures Concat(lists) == InARow(lists)
  {
    if lists != [] {
      ConcatIsInARow(lists[1..]);
    }
  }

  lemma {:induction false} NearestOfPool(arms: seq<seq<Leaf>>, pool: seq<seq<Leaf>>)
    ensures MapCat(arms, Undone(pool)) == Filter(arms, Closest(pool))
  {
    if arms != [] {
      NearestOfPool(arms[1..], pool);
      OutdoneIsCloser(arms[0], pool);
    }
  }

  lemma {:induction false} PinnedIsFilter(leaves: seq<Leaf>)
    ensures Pinned(leaves) == Filter(leaves, IsPin())
  {
    if leaves != [] {
      PinnedIsFilter(leaves[1..]);
    }
  }

  lemma OnlyPinnedIsAllPins(leaves: seq<Leaf>)
    ensures OnlyPinned(leaves) <==> AllPins()(leaves)
  {
    PinnedFacts(leaves);
  }

  lemma {:induction false} WholeLists(errs: seq<Failure>, alternatives: bool)
    ensures MapCat(Arms(errs, alternatives), Whole()) == LeafLists(errs)
  {
    if errs != [] {
      WholeLists(errs[1..], alternatives);
      assert Arms(errs, alternatives)[1..] == Arms(errs[1..], alternatives);
    }
  }

  lemma {:induction false} WhyLists(errs: seq<Failure>, alternatives: bool)
    ensures MapCat(Arms(errs, alternatives), WhyOut()) == PinLists(LeafLists(errs))
  {
    if errs != [] {
      WhyLists(errs[1..], alternatives);
      assert Arms(errs, alternatives)[1..] == Arms(errs[1..], alternatives);
      assert LeafLists(errs)[1..] == LeafLists(errs[1..]);
      PinnedIsFilter(LeavesUnder(errs[0], false));
    }
  }

  lemma {:induction false} StandLists(errs: seq<Failure>)
    ensures MapCat(Arms(errs, true), Standing(false)) == StandingLists(errs)
    ensures MapCat(Arms(errs, false), Standing(false)) == LeafLists(errs)
  {
    if errs != [] {
      StandLists(errs[1..]);
      assert Arms(errs, true)[1..] == Arms(errs[1..], true) && Arms(errs, false)[1..] == Arms(errs[1..], false);
    }
  }

  lemma {:induction false} OutLists(errs: seq<Failure>)
    requires forall i :: 0 <= i < |errs| ==> RuledOut(errs[i])
    ensures MapCat(Arms(errs, true), Standing(true)) == Filter(LeafLists(errs), AllPins())
    ensures StandingLists(errs) == []
  {
    if errs != [] {
      OutLists(errs[1..]);
      assert Arms(errs, true)[1..] == Arms(errs[1..], true) && LeafLists(errs)[1..] == LeafLists(errs[1..]);
      OnlyPinnedIsAllPins(LeavesUnder(errs[0], false));
    }
  }

  lemma {:induction false} SomeStand(errs: seq<Failure>, i: nat)
    requires i < |errs| && !RuledOut(errs[i])
    ensures StandingLists(errs) != []
  {
    if RuledOut(errs[0]) {
      SomeStand(errs[1..], i - 1);
    }
  }

  lemma KeptAreCandidates(errs: seq<Failure>)
    ensures Kept(Arms(errs, true), AllOut(Arms(errs, true))) == Candidates(errs)
  {
    ArmsAre(errs, true);
    StandLists(errs);
    WhyLists(errs, true);
    WholeLists(errs, true);
    if AllOut(Arms(errs, true)) {
      assert forall i :: 0 <= i < |errs| ==> Arms(errs, true)[i].out ==> RuledOut(errs[i]);
      OutLists(errs);
    } else {
      var i :| 0 <= i < |errs| && !Arms(errs, true)[i].out;
      SomeStand(errs, i);
    }
  }

  /** Under a conjunction every leaf of every part is reported, in order; under a oneOf or
      anyOf, the leaves of the closest candidates, in order: of the alternatives that stand if
      any does, and otherwise of those that fail on enum and const alone, of what each fails on
      by enum or const, or of all. */
  lemma ReportExactly(errs: seq<Failure>)
    ensures LeavesUnder(Branches(errs), false) == InARow(LeafLists(errs))
    ensures LeavesUnder(Branches(errs), true) == InARow(ClosestOf(Candidates(errs)))
  {
    StandLists(errs);
    WhyLists(errs, false);
    WholeLists(errs, false);
    ConcatIsInARow(Kept(Arms(errs, false), false));
    assert LeafLists(errs) == [] ==> errs == [];
    KeptAreCandidates(errs);
    NearestOfPool(Candidates(errs), Candidates(errs));
    ConcatIsInARow(Nearest(Candidates(errs)));
  }

  ghost predicate Stands(errs: seq<Failure>, a: seq<Leaf>) {
    exists i :: 0 <= i < |errs| && !RuledOut(errs[i]) && LeavesUnder(errs[i], false) == a
  }

  lemma {:induction false} StandingListsHave(errs: seq<Failure>, a: seq<Leaf>)
    ensures a in StandingLists(errs) <==> Stands(errs, a)
  {
    if errs != [] {
      StandingListsHave(errs[1..], a);
      if i :| 0 <= i < |errs| && !RuledOut(errs[i]) && LeavesUnder(errs[i], false) == a {
        assert i == 0 || errs[i] == errs[1..][i - 1];
      }
      if i :| 0 <= i < |errs[1..]| && !RuledOut(errs[1..][i]) && LeavesUnder(errs[1..][i], false) == a {
        assert errs[i + 1] == errs[1..][i];
      }
    }
  }

  lemma {:induction false} InARowHas(lists: seq<seq<Leaf>>, l: Leaf)
    ensures l in InARow(lists) <==> exists a :: a in lists && l in a
  {
    if lists != [] {
      InARowHas(lists[1..], l);
      assert forall a :: a in lists <==> a == lists[0] || a in lists[1..];
    }
  }

  /** While an alternative stands, a leaf is reported if and only if it is a leaf of one that
      stands and that no other one that stands comes closer than. */
  lemma StandingIsReported(errs: seq<Failure>, l: Leaf)
    requires exists i :: 0 <= i < |errs| && !RuledOut(errs[i])
    ensures l in LeavesUnder(Branches(errs), true) <==>
              exists a :: Stands(errs, a) && l in a && forall b :: Stands(errs, b) ==> !(Reasons(b) != {} && Reasons(b) < Reasons(a))
  {
    var i :| 0 <= i < |errs| && !RuledOut(errs[i]);
    SomeStand(errs, i);
    ReportExactly(errs);
    var pool := StandingLists(errs);
    InARowHas(ClosestOf(pool), l);
    forall a ensures a in ClosestOf(pool) <==> Stands(errs, a) && !HasCloser(a, pool) {
      FilterHas(pool, Closest(pool), a);
      StandingListsHave(errs, a);
    }
    forall a ensures HasCloser(a, pool) <==> exists b :: Stands(errs, b) && Reasons(b) != {} && Reasons(b) < Reasons(a) {
      CloserStands(errs, a);
    }
  }

  lemma CloserStands(errs: seq<Failure>, a: seq<Leaf>)
    ensures HasCloser(a, StandingLists(errs)) <==> exists b :: Stands(errs, b) && Reasons(b) != {} && Reasons(b) < Reasons(a)
  {
    var pool := StandingLists(errs);
    if i :| 0 <= i < |pool| && Reasons(pool[i]) != {} && Reasons(pool[i]) < Reasons(a) {
      StandingListsHave(errs, pool[i]);
    }
    if b :| Stands(errs, b) && Reasons(b) != {} && Reasons(b) < Reasons(a) {
      StandingListsHave(errs, b);
    }
  }

  // Without a oneOf or anyOf inside, what a tree shows can be read off its shape.

  predicate Conjunctive(e: Failure) {
    match e
    case Caused(l, origin) => !IsDisjunctive(l.field) && Conjunctive(origin)
    case Branches(errs) => forall i :: 0 <= i < |errs| ==> Conjunctive(errs[i])
    case Wrapper(inner) => Conjunctive(inner)
    case _ => true
  }

  /** Nothing in the tree names a cause. */
  predicate Silent(e: Failure) {
    match e
    case Assertion(l) => Own(l) == []
    case Caused(l, origin) => Silent(origin) && Own(l) == []
    case Branches(errs) => forall i :: 0 <= i < |errs| ==> Silent(errs[i])
    case Wrapper(inner) => Silent(inner)
    case Opaque => true
  }

  /** An enum or const failure with nothing more telling below it. */
  predicate ShowsPin(e: Failure) {
    match e
    case Assertion(l) => IsDiscriminator(l.field)
    case Caused(l, origin) => if Silent(origin) then IsDiscriminator(l.field) else ShowsPin(origin)
    case Branches(errs) => exists i :: 0 <= i < |errs| && ShowsPin(errs[i])
    case Wrapper(inner) => ShowsPin(inner)
    case Opaque => false
  }

  lemma ConjunctsHave(errs: seq<Failure>, l: Leaf)
    ensures l in LeavesUnder(Branches(errs), false) <==> exists i :: 0 <= i < |errs| && l in LeavesUnder(errs[i], false)
  {
    if i :| 0 <= i < |errs| && l in LeavesUnder(errs[i], false) {
      ConjunctsAllCount(errs, i, l);
    }
    if l in LeavesUnder(Branches(errs), false) {
      OnlyConjuncts(errs, l);
    }
  }

  lemma OnlyConjuncts(errs: seq<Failure>, l: Leaf)
    requires l in LeavesUnder(Branches(errs), false)
    ensures exists i :: 0 <= i < |errs| && l in LeavesUnder(errs[i], false)
  {
    var arms := Arms(errs, false);
    ArmsAre(errs, false);
    ConcatHas(Kept(arms, false), l);
    var k :| 0 <= k < |Kept(arms, false)| && l in Kept(arms, false)[k];
    KeptIsOfArm(arms, Kept(arms, false)[k], l);
  }

  /** Whatever is kept of the arms, its leaves are leaves of one of them. */
  lemma KeptIsOfArm(arms: seq<Arm>, a: seq<Leaf>, l: Leaf)
    requires a in Kept(arms, false) && l in a
    ensures exists i :: 0 <= i < |arms| && l in arms[i].leaves
  {
    if MapCat(arms, Standing(false)) != [] {
      MapCatHas(arms, Standing(false), a);
    } else if MapCat(arms, WhyOut()) != [] {
      MapCatHas(arms, WhyOut(), a);
      var i :| 0 <= i < |arms| && a in WhyOut()(arms[i]);
      PinnedFacts(arms[i].leaves);
    } else {
      MapCatHas(arms, Whole(), a);
    }
  }

  predicate Reads(e: Failure) {
    && (LeavesUnder(e, false) == [] <==> Silent(e))
    && (HasPinned(LeavesUnder(e, false)) <==> ShowsPin(e))
  }

  lemma ListReads(errs: seq<Failure>)
    requires forall i :: 0 <= i < |errs| ==> Reads(errs[i])
    ensures Reads(Branches(errs))
  {
    var leaves := LeavesUnder(Branches(errs), false);
    forall l ensures l in leaves <==> exists i :: 0 <= i < |errs| && l in LeavesUnder(errs[i], false) {
      ConjunctsHave(errs, l);
    }
    if leaves != [] {
      assert leaves[0] in leaves;
    }
    if i :| 0 <= i < |errs| && !Silent(errs[i]) {
      assert LeavesUnder(errs[i], false)[0] in leaves;
    }
  }

  /** In such a tree the walk shows an enum or const leaf exactly if its shape says so. */
  lemma {:induction false} ShapeTells(e: Failure)
    requires Conjunctive(e)
    ensures Reads(e)
  {
    match e
    case Assertion(l) =>
      assert Own(l) != [] ==> Own(l)[0] == l;
    case Caused(l, origin) =>
      ShapeTells(origin);
      assert Own(l) != [] ==> Own(l)[0] == l;
    case Wrapper(inner) =>
      ShapeTells(inner);
    case Branches(errs) =>
      forall i | 0 <= i < |errs| ensures Reads(errs[i]) {
        ShapeTells(errs[i]);
      }
      ListReads(errs);
    case Opaque =>
  }

  /** When every alternative is ruled out and none has alternatives of its own, the report is
      non-empty and all enum or const exactly if the shape of one of them shows such a leaf. */
  lemma AllRuledOutShape(errs: seq<Failure>)
    requires forall i :: 0 <= i < |errs| ==> RuledOut(errs[i]) && Conjunctive(errs[i])
    ensures var report := LeavesUnder(Branches(errs), true);
            report != [] && OnlyDiscriminators(report) <==> exists i :: 0 <= i < |errs| && ShowsPin(errs[i])
  {
    AllRuledOutReport(errs);
    forall i | 0 <= i < |errs| ensures Reads(errs[i]) {
      ShapeTells(errs[i]);
    }
  }

  /** In a well-formed tree whose alternatives (at least one) are all ruled out, the
      causes reported are non-empty and all of them pinned values. */
  lemma AllRuledOutBlamesPins(errs: seq<Failure>)
    requires |errs| > 0 && forall i :: 0 <= i < |errs| ==> WellFormed(errs[i]) && RuledOut(errs[i])
    ensures LeavesUnder(Branches(errs), true) != []
    ensures OnlyDiscriminators(LeavesUnder(Branches(errs), true))
  {
    RuledOutShowsWhy(errs[0]);
    AllRuledOutReport(errs);
  }

  /** The leaves of the alternatives that still stand. */
  function StandingLeaves(errs: seq<Failure>): seq<Leaf> {
    if errs == [] then []
    else (if RuledOut(errs[0]) then [] else LeavesUnder(errs[0], false)) + StandingLeaves(errs[1..])
  }

  lemma {:induction false} StandingConcat(errs: seq<Failure>)
    ensures Concat(MapCat(Arms(errs, true), Standing(false))) == StandingLeaves(errs)
  {
    if errs != [] {
      StandingConcat(errs[1..]);
      var arms := Arms(errs, true);
      assert arms[1..] == Arms(errs[1..], true);
      MapCatAppend(Standing(false)(arms[0]), MapCat(arms[1..], Standing(false)), Itself());
      if !arms[0].out {
        MapCatOne(arms[0].leaves, Itself());
      }
    }
  }

  lemma {:induction false} FilteredIsPart(kept: seq<seq<Leaf>>, pool: seq<seq<Leaf>>)
    ensures multiset(Concat(MapCat(kept, Undone(pool)))) <= multiset(Concat(kept))
  {
    if kept != [] {
      FilteredIsPart(kept[1..], pool);
      MapCatAppend(Undone(pool)(kept[0]), MapCat(kept[1..], Undone(pool)), Itself());
      if !Outdone(kept[0], pool) {
        MapCatOne(kept[0], Itself());
      }
    }
  }

  /** If any alternative still stands, every cause reported, counted with repetition, is
      one of the standing alternatives': none comes from an alternative ruled out. */
  lemma StandingAloneIsReported(errs: seq<Failure>)
    requires exists i :: 0 <= i < |errs| && !RuledOut(errs[i])
    ensures multiset(LeavesUnder(Branches(errs), true)) <= multiset(StandingLeaves(errs))
  {
    var arms := Arms(errs, true);
    ArmsAre(errs, true);
    var i :| 0 <= i < |errs| && !RuledOut(errs[i]);
    assert !arms[i].out;
    var kept := Kept(arms, false);
    MapCatHas(arms, Standing(false), arms[i].leaves);
    assert arms[i].leaves in Standing(false)(arms[i]);
    assert kept == MapCat(arms, Standing(false));
    StandingConcat(errs);
    FilteredIsPart(kept, kept);
  }

  /** Without well-formedness the blame goes astray: a const failure with an origin rules
      its alternative out, yet the walk reports the origin's ordinary leaf. */
  lemma GuardWithOriginMisleads()
    ensures var e := Caused(Leaf("const", ["kind"], "not this one"),
                            Branches([Assertion(Leaf("required", ["name"], "missing"))]));
            RuledOut(e) && !OnlyDiscriminators(LeavesUnder(Branches([e]), true))
  {
    var needed := Leaf("required", ["name"], "missing");
    var origin := Branches([Assertion(needed)]);
    var e := Caused(Leaf("const", ["kind"], "not this one"), origin);
    assert LeavesUnder(Assertion(needed), false) == [needed];
    ConjunctsAllCount([Assertion(needed)], 0, needed);
    ArmsAre([Assertion(needed)], false);
    assert Arms([Assertion(needed)], false) == [Arm([needed], false)];
    MapCatOne(Arm([needed], false), Standing(false));
    MapCatOne([needed], Itself());
    assert LeavesUnder(origin, false) == [needed];
    assert !HasPinned(LeavesUnder(e, false));
    forall i | 0 <= i < |[e]| ensures !HasPinned(LeavesUnder([e][i], false)) {
    }
    AllRuledOutReport([e]);
    ArmsAre([e], true);
    assert Arms([e], true) == [Arm([needed], true)];
    MapCatOne(Arm([needed], true), Standing(true));
    MapCatOne(Arm([needed], true), WhyOut());
    MapCatOne(Arm([needed], true), Whole());
    assert !Outdone([needed], [[needed]]) by {
      StrictSubsetIsProper(Reasons([needed]), Reasons([needed]));
    }
    MapCatOne([needed], Undone([[needed]]));
  }

  // ------------------------------------------------ the order of alternatives

  /** The same tree with the branches of any of its lists, at any depth, reordered. */
  ghost predicate Shuffled(e: Failure, f: Failure) {
    match e
    case Assertion(l) => f == e
    case Caused(l, origin) => f.Caused? && f.leaf == l && Shuffled(origin, f.origin)
    case Wrapper(inner) => f.Wrapper? && Shuffled(inner, f.inner)
    case Branches(errs) =>
      f.Branches? && exists mid: seq<Failure> ::
        && |mid| == |errs| && multiset(mid) == multiset(f.errs)
        && forall i :: 0 <= i < |errs| ==> Shuffled(errs[i], mid[i])
    case Opaque => f == e
  }

  /** The same alternatives, each with its leaves in some other order. */
  ghost predicate Alike(xs: seq<seq<Leaf>>, ys: seq<seq<Leaf>>) {
    |xs| == |ys| && forall i :: 0 <= i < |xs| ==> multiset(xs[i]) == multiset(ys[i])
  }

  lemma {:induction false} MapCatAlike<A>(xs: seq<A>, ys: seq<A>, g: A -> seq<seq<Leaf>>, h: A -> seq<seq<Leaf>>)
    requires |xs| == |ys| && forall i :: 0 <= i < |xs| ==> Alike(g(xs[i]), h(ys[i]))
    ensures Alike(MapCat(xs, g), MapCat(ys, h))
  {
    if xs != [] {
      MapCatAlike(xs[1..], ys[1..], g, h);
      assert Alike(g(xs[0]), h(ys[0]));
    }
  }

  lemma {:induction false} ConcatAlike(xs: seq<seq<Leaf>>, ys: seq<seq<Leaf>>)
    requires Alike(xs, ys)
    ensures multiset(Concat(xs)) == multiset(Concat(ys))
  {
    if xs != [] {
      ConcatAlike(xs[1..], ys[1..]);
    }
  }

  lemma SameSize<T>(xs: seq<T>, ys: seq<T>)
    requires multiset(xs) == multiset(ys)
    ensures |xs| == |ys|
  {
    assert |xs| == |multiset(xs)| && |ys| == |multiset(ys)|;
  }

  lemma SameReasons(a: seq<Leaf>, b: seq<Leaf>)
    requires multiset(a) == multiset(b)
    ensures Reasons(a) == Reasons(b)
  {
    assert forall l :: l in a <==> l in multiset(a);
    assert forall l :: l in b <==> l in multiset(b);
  }

  lemma SamePins(a: seq<Leaf>, b: seq<Leaf>)
    requires multiset(a) == multiset(b)
    ensures multiset(Pinned(a)) == multiset(Pinned(b)) && OnlyPinned(a) == OnlyPinned(b)
    ensures Pinned(a) == [] <==> Pinned(b) == []
  {
    assert multiset(Pinned(a)) == multiset(Pinned(b)) by {
      PinnedFacts(a);
      PinnedFacts(b);
    }
    SameSize(a, b);
    SameSize(Pinned(a), Pinned(b));
  }

  lemma NearestAlike(xs: seq<seq<Leaf>>, ys: seq<seq<Leaf>>)
    requires Alike(xs, ys)
    ensures Alike(Nearest(xs), Nearest(ys))
  {
    forall i | 0 <= i < |xs| ensures Reasons(xs[i]) == Reasons(ys[i]) {
      SameReasons(xs[i], ys[i]);
    }
    forall i | 0 <= i < |xs| ensures Alike(Undone(xs)(xs[i]), Undone(ys)(ys[i])) {
      assert Outdone(xs[i], xs) == Outdone(ys[i], ys);
    }
    MapCatAlike(xs, ys, Undone(xs), Undone(ys));
  }

  ghost predicate ArmsAlike(xs: seq<Arm>, ys: seq<Arm>) {
    |xs| == |ys| && forall i :: 0 <= i < |xs| ==> xs[i].out == ys[i].out && multiset(xs[i].leaves) == multiset(ys[i].leaves)
  }

  lemma SurvivorsAlike(xs: seq<Arm>, ys: seq<Arm>, alternatives: bool)
    requires ArmsAlike(xs, ys)
    ensures multiset(Survivors(xs, alternatives)) == multiset(Survivors(ys, alternatives))
  {
    var all := alternatives && AllOut(xs);
    forall i | 0 <= i < |xs|
      ensures Alike(Standing(all)(xs[i]), Standing(all)(ys[i]))
      ensures Alike(WhyOut()(xs[i]), WhyOut()(ys[i])) && Alike(Whole()(xs[i]), Whole()(ys[i]))
    {
      SamePins(xs[i].leaves, ys[i].leaves);
    }
    MapCatAlike(xs, ys, Standing(all), Standing(all));
    MapCatAlike(xs, ys, WhyOut(), WhyOut());
    MapCatAlike(xs, ys, Whole(), Whole());
    var kept, kept' := Kept(xs, all), Kept(ys, all);
    assert Alike(kept, kept');
    NearestAlike(kept, kept');
    ConcatAlike(kept, kept');
    ConcatAlike(Nearest(kept), Nearest(kept'));
  }

  lemma NearestPermutes(xs: seq<seq<Leaf>>, ys: seq<seq<Leaf>>)
    requires multiset(xs) == multiset(ys)
    ensures multiset(Nearest(xs)) == multiset(Nearest(ys))
  {
    forall arm ensures Undone(xs)(arm) == Undone(ys)(arm) {
      if i :| 0 <= i < |xs| && StrictSubset(Reasons(xs[i]), Reasons(arm)) {
        assert xs[i] in multiset(ys);
      }
      if i :| 0 <= i < |ys| && StrictSubset(Reasons(ys[i]), Reasons(arm)) {
        assert ys[i] in multiset(xs);
      }
    }
    MapCatSame(ys, Undone(xs), Undone(ys));
    MapCatPermutes(xs, ys, Undone(xs));
  }

  lemma SurvivorsPermute(xs: seq<Arm>, ys: seq<Arm>, alternatives: bool)
    requires multiset(xs) == multiset(ys)
    ensures multiset(Survivors(xs, alternatives)) == multiset(Survivors(ys, alternatives))
  {
    assert AllOut(xs) == AllOut(ys) by {
      assert forall i :: 0 <= i < |xs| ==> xs[i] in multiset(ys);
      assert forall i :: 0 <= i < |ys| ==> ys[i] in multiset(xs);
    }
    var all := alternatives && AllOut(xs);
    MapCatPermutes(xs, ys, Standing(all));
    MapCatPermutes(xs, ys, WhyOut());
    MapCatPermutes(xs, ys, Whole());
    var kept, kept' := Kept(xs, all), Kept(ys, all);
    SameSize(MapCat(xs, Standing(all)), MapCat(ys, Standing(all)));
    SameSize(MapCat(xs, WhyOut()), MapCat(ys, WhyOut()));
    assert multiset(kept) == multiset(kept');
    NearestPermutes(kept, kept');
    MapCatPermutes(kept, kept', Itself());
    MapCatPermutes(Nearest(kept), Nearest(kept'), Itself());
  }

  lemma {:induction false} ArmsPermute(xs: seq<Failure>, ys: seq<Failure>, alternatives: bool)
    requires multiset(xs) == multiset(ys)
    ensures multiset(Arms(xs, alternatives)) == multiset(Arms(ys, alternatives))
  {
    ArmsAsMap(xs, alternatives);
    ArmsAsMap(ys, alternatives);
    MapCatPermutes(xs, ys, ArmOf(alternatives));
  }

  function ArmOf(alternatives: bool): Failure -> seq<Arm> {
    (e: Failure) => [Arm(LeavesUnder(e, false), alternatives && RuledOut(e))]
  }

  lemma {:induction false} ArmsAsMap(errs: seq<Failure>, alternatives: bool)
    ensures Arms(errs, alternatives) == MapCat(errs, ArmOf(alternatives))
  {
    if errs != [] {
      ArmsAsMap(errs[1..], alternatives);
    }
  }

  lemma {:induction false} ShuffledRuledOut(e: Failure, f: Failure)
    requires Shuffled(e, f)
    ensures RuledOut(e) == RuledOut(f) && RuledOutBelow(e) == RuledOutBelow(f)
  {
    match e
    case Caused(l, origin) => ShuffledRuledOut(origin, f.origin);
    case Wrapper(inner) => ShuffledRuledOut(inner, f.inner);
    case Branches(errs) =>
      var mid: seq<Failure> :| |mid| == |errs| && multiset(mid) == multiset(f.errs)
        && forall i :: 0 <= i < |errs| ==> Shuffled(errs[i], mid[i]);
      forall i | 0 <= i < |errs| ensures RuledOut(errs[i]) == RuledOut(mid[i]) {
        ShuffledRuledOut(errs[i], mid[i]);
      }
      SomeRuledOut(errs, mid, f.errs);
    case _ =>
  }

  lemma SomeRuledOut(errs: seq<Failure>, mid: seq<Failure>, other: seq<Failure>)
    requires |errs| == |mid| && multiset(mid) == multiset(other)
    requires forall i :: 0 <= i < |errs| ==> RuledOut(errs[i]) == RuledOut(mid[i])
    ensures (exists i :: 0 <= i < |errs| && RuledOut(errs[i])) <==> exists i :: 0 <= i < |other| && RuledOut(other[i])
  {
    if i :| 0 <= i < |errs| && RuledOut(errs[i]) {
      assert mid[i] in multiset(other);
    }
    if i :| 0 <= i < |other| && RuledOut(other[i]) {
      assert other[i] in multiset(mid);
    }
  }

  /** Reordering the alternatives at any depth changes no reported cause and no count. */
  lemma {:induction false} OrderDoesNotMatter(e: Failure, f: Failure, alternatives: bool)
    requires Shuffled(e, f)
    ensures multiset(LeavesUnder(e, alternatives)) == multiset(LeavesUnder(f, alternatives))
  {
    match e
    case Caused(l, origin) =>
      OrderDoesNotMatter(origin, f.origin, IsDisjunctive(l.field));
      SameSize(LeavesUnder(origin, IsDisjunctive(l.field)), LeavesUnder(f.origin, IsDisjunctive(l.field)));
    case Wrapper(inner) =>
      OrderDoesNotMatter(inner, f.inner, alternatives);
    case Branches(errs) =>
      var mid: seq<Failure> :| |mid| == |errs| && multiset(mid) == multiset(f.errs)
        && forall i :: 0 <= i < |errs| ==> Shuffled(errs[i], mid[i]);
      forall i | 0 <= i < |errs| ensures SameReport(errs[i], mid[i]) {
        ShuffledRuledOut(errs[i], mid[i]);
        OrderDoesNotMatter(errs[i], mid[i], false);
      }
      ListsMatch(errs, mid, f.errs, alternatives);
    case _ =>
  }

  ghost predicate SameReport(a: Failure, b: Failure) {
    RuledOut(a) == RuledOut(b) && multiset(LeavesUnder(a, false)) == multiset(LeavesUnder(b, false))
  }

  lemma ListsMatch(errs: seq<Failure>, mid: seq<Failure>, other: seq<Failure>, alternatives: bool)
    requires |errs| == |mid| && multiset(mid) == multiset(other) && forall i :: 0 <= i < |errs| ==> SameReport(errs[i], mid[i])
    ensures multiset(LeavesUnder(Branches(errs), alternatives)) == multiset(LeavesUnder(Branches(other), alternatives))
  {
    ArmsMatch(errs, mid, alternatives);
    SurvivorsAlike(Arms(errs, alternatives), Arms(mid, alternatives), alternatives);
    ArmsPermute(mid, other, alternatives);
    SurvivorsPermute(Arms(mid, alternatives), Arms(other, alternatives), alternatives);
  }

  lemma ArmsMatch(errs: seq<Failure>, mid: seq<Failure>, alternatives: bool)
    requires |errs| == |mid| && forall i :: 0 <= i < |errs| ==> SameReport(errs[i], mid[i])
    ensures ArmsAlike(Arms(errs, alternatives), Arms(mid, alternatives))
  {
    ArmsAre(errs, alternatives);
    ArmsAre(mid, alternatives);
  }
}
