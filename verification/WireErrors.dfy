/** What one failed schema error becomes on the wire: its causes once each, ordered so
    that the most telling one sets the code. */
module WireErrors {
  import opened Sequences
  import opened Strings
  import opened SchemaErrors

  /** One cause as reported; an empty path is an error without details. */
  datatype WireError = WireError(code: string, path: string, message: string)

  const FIELD_NOT_ALLOWED := "SCH_FIELD_NOT_ALLOWED"
  const INVALID_ENUM := "SCH_INVALID_ENUM"
  const DEFAULT_CODE := "SCH_INVALID_FORMAT"

  function FieldCode(field: string): string {
    if field == "required" then "SCH_REQUIRED_FIELD_MISSING"
    else if field == "properties" then FIELD_NOT_ALLOWED
    else if field == "enum" || field == "const" then INVALID_ENUM
    else if field == "format" then "SCH_INVALID_FORMAT"
    else if field == "type" then "SCH_TYPE_NOT_SUPPORTED"
    else "SCH_SCHEMA_VALIDATION_FAILED"
  }

  function CodedError(l: Leaf): WireError {
    var path := Join(l.pointer, "/");
    var message :=
      if l.reason != "" then l.reason
      else if l.field == "not" then "value is not allowed here"
      else "value does not satisfy \"" + l.field + "\"";
    WireError(FieldCode(l.field), if path == "" then l.field else path, message)
  }

  // ------------------------------------------------------------------ dedupe

  function Dedupe(leaves: seq<Leaf>, seen: set<string>): seq<Leaf> {
    if leaves == [] then []
    else if Key(leaves[0]) in seen then Dedupe(leaves[1..], seen)
    else [leaves[0]] + Dedupe(leaves[1..], seen + {Key(leaves[0])})
  }

  method DedupeLeaves(leaves: seq<Leaf>) returns (out: seq<Leaf>)
    ensures out == Dedupe(leaves, {})
  {
    out := [];
    var seen: set<string> := {};
    for i := 0 to |leaves|
      invariant out + Dedupe(leaves[i..], seen) == Dedupe(leaves, {})
    {
      var key := Key(leaves[i]);
      assert leaves[i..][1..] == leaves[i + 1..];
      if key in seen {
        continue;
      }
      seen := seen + {key};
      out := out + [leaves[i]];
    }
  }

  lemma ReasonsOfCons(leaves: seq<Leaf>)
    requires leaves != []
    ensures Reasons(leaves) == {Key(leaves[0])} + Reasons(leaves[1..])
  {
    assert leaves == [leaves[0]] + leaves[1..];
  }

  /** Each distinct complaint is kept exactly once. */
  lemma {:induction false} DedupeOnce(leaves: seq<Leaf>, seen: set<string>)
    ensures forall i, j :: 0 <= i < j < |Dedupe(leaves, seen)| ==> Key(Dedupe(leaves, seen)[i]) != Key(Dedupe(leaves, seen)[j])
    ensures Reasons(Dedupe(leaves, seen)) == Reasons(leaves) - seen
  {
    if leaves != [] {
      ReasonsOfCons(leaves);
      if Key(leaves[0]) in seen {
        DedupeOnce(leaves[1..], seen);
      } else {
        var rest := Dedupe(leaves[1..], seen + {Key(leaves[0])});
        DedupeOnce(leaves[1..], seen + {Key(leaves[0])});
        ReasonsOfCons([leaves[0]] + rest);
        assert ([leaves[0]] + rest)[1..] == rest;
        assert forall i :: 0 <= i < |rest| ==> Key(rest[i]) in Reasons(rest);
      }
    }
  }

  /** This leaf is the first of the list to make its complaint. */
  ghost predicate FirstToSay(l: Leaf, leaves: seq<Leaf>) {
    exists k :: 0 <= k < |leaves| && leaves[k] == l && forall m :: 0 <= m < k ==> Key(leaves[m]) != Key(l)
  }

  /** What is kept of each complaint is the first leaf to make it. */
  lemma {:induction false} DedupeKeepsFirst(leaves: seq<Leaf>, seen: set<string>, l: Leaf)
    requires l in Dedupe(leaves, seen)
    ensures FirstToSay(l, leaves) && Key(l) !in seen
  {
    var key := Key(leaves[0]);
    if key in seen || l != leaves[0] {
      var below := if key in seen then seen else seen + {key};
      assert l in Dedupe(leaves[1..], below);
      DedupeKeepsFirst(leaves[1..], below, l);
      var k :| 0 <= k < |leaves[1..]| && leaves[1..][k] == l && forall m :: 0 <= m < k ==> Key(leaves[1..][m]) != Key(l);
      assert leaves[k + 1] == l;
      assert forall m :: 1 <= m < k + 1 ==> leaves[m] == leaves[1..][m - 1];
    }
  }

  // -------------------------------------------------------------------- rank

  function Rank(l: Leaf): nat {
    if IsForeignField(l.field) then 2 else if IsDiscriminator(l.field) then 1 else 0
  }

  function OfRank(leaves: seq<Leaf>, r: nat): seq<Leaf> {
    if leaves == [] then []
    else if Rank(leaves[0]) == r then [leaves[0]] + OfRank(leaves[1..], r)
    else OfRank(leaves[1..], r)
  }

  /** The stable sort by rank. */
  function Ranked(leaves: seq<Leaf>): seq<Leaf> {
    OfRank(leaves, 0) + OfRank(leaves, 1) + OfRank(leaves, 2)
  }

  lemma {:induction false} OfRankFacts(leaves: seq<Leaf>, r: nat)
    ensures forall l :: l in OfRank(leaves, r) ==> Rank(l) == r
    ensures forall l :: multiset(OfRank(leaves, r))[l] == if Rank(l) == r then multiset(leaves)[l] else 0
  {
    if leaves != [] {
      OfRankFacts(leaves[1..], r);
      assert leaves == [leaves[0]] + leaves[1..];
    }
  }

  lemma {:induction false} OfRankAppend(a: seq<Leaf>, b: seq<Leaf>, r: nat)
    ensures OfRank(a + b, r) == OfRank(a, r) + OfRank(b, r)
  {
    if a == [] {
      assert a + b == b;
    } else {
      OfRankAppend(a[1..], b, r);
      assert (a + b)[0] == a[0] && (a + b)[1..] == a[1..] + b;
      Regroup([a[0]], OfRank(a[1..], r), OfRank(b, r));
    }
  }

  lemma {:induction false} OfRankTwice(leaves: seq<Leaf>, q: nat, r: nat)
    ensures OfRank(OfRank(leaves, q), r) == if q == r then OfRank(leaves, r) else []
  {
    if leaves != [] {
      OfRankTwice(leaves[1..], q, r);
    }
  }

  lemma RankedPermutes(leaves: seq<Leaf>)
    ensures multiset(Ranked(leaves)) == multiset(leaves)
  {
    OfRankFacts(leaves, 0);
    OfRankFacts(leaves, 1);
    OfRankFacts(leaves, 2);
    forall l ensures multiset(Ranked(leaves))[l] == multiset(leaves)[l] {
      assert Rank(l) <= 2;
    }
  }

  lemma RankedAt(leaves: seq<Leaf>, i: nat)
    requires i < |Ranked(leaves)|
    ensures var n, m := |OfRank(leaves, 0)|, |OfRank(leaves, 1)|;
            Rank(Ranked(leaves)[i]) == if i < n then 0 else if i < n + m then 1 else 2
  {
    var r0, r1, r2 := OfRank(leaves, 0), OfRank(leaves, 1), OfRank(leaves, 2);
    if i < |r0| {
      OfRankFacts(leaves, 0);
      assert r0[i] in r0;
    } else if i < |r0| + |r1| {
      OfRankFacts(leaves, 1);
      assert r1[i - |r0|] in r1;
    } else {
      OfRankFacts(leaves, 2);
      assert r2[i - |r0| - |r1|] in r2;
    }
  }

  lemma RankedSorts(leaves: seq<Leaf>, i: nat, j: nat)
    requires i < j < |Ranked(leaves)|
    ensures Rank(Ranked(leaves)[i]) <= Rank(Ranked(leaves)[j])
  {
    RankedAt(leaves, i);
    RankedAt(leaves, j);
  }

  /** Leaves of one rank stay in the order they came. */
  lemma RankedIsStable(leaves: seq<Leaf>, r: nat)
    requires r <= 2
    ensures OfRank(Ranked(leaves), r) == OfRank(leaves, r)
  {
    OfRankAppend(OfRank(leaves, 0) + OfRank(leaves, 1), OfRank(leaves, 2), r);
    OfRankAppend(OfRank(leaves, 0), OfRank(leaves, 1), r);
    OfRankTwice(leaves, 0, r);
    OfRankTwice(leaves, 1, r);
    OfRankTwice(leaves, 2, r);
  }

  /** Ranking loses no cause, orders them by rank, and is stable. */
  lemma RankedIsStableSort(leaves: seq<Leaf>)
    ensures multiset(Ranked(leaves)) == multiset(leaves)
    ensures forall i, j :: 0 <= i < j < |Ranked(leaves)| ==> Rank(Ranked(leaves)[i]) <= Rank(Ranked(leaves)[j])
    ensures forall r: nat :: r <= 2 ==> OfRank(Ranked(leaves), r) == OfRank(leaves, r)
  {
    RankedPermutes(leaves);
    forall i, j | 0 <= i < j < |Ranked(leaves)| ensures Rank(Ranked(leaves)[i]) <= Rank(Ranked(leaves)[j]) {
      RankedSorts(leaves, i, j);
    }
    forall r: nat | r <= 2 ensures OfRank(Ranked(leaves), r) == OfRank(leaves, r) {
      RankedIsStable(leaves, r);
    }
  }

  // ------------------------------------------------------------------ report

  /** The causes below a schema error, once each. */
  function CausesOf(e: Failure): seq<Leaf> {
    if e.Caused? then Dedupe(LeavesUnder(e.origin, IsDisjunctive(e.leaf.field)), {}) else []
  }

  function CodedAll(leaves: seq<Leaf>): seq<WireError> {
    if leaves == [] then [] else [CodedError(leaves[0])] + CodedAll(leaves[1..])
  }

  /** A schema error's causes if it has any, else the error itself. */
  function Extract(e: Failure): seq<WireError>
    requires e.Assertion? || e.Caused?
  {
    var causes := CausesOf(e);
    if causes != [] then CodedAll(Ranked(causes)) else [CodedError(e.leaf)]
  }

  method FirstNonEmptyCode(errs: seq<WireError>, fallback: string) returns (code: string)
    ensures (exists i :: 0 <= i < |errs| && errs[i].code != "") ==>
              exists i :: 0 <= i < |errs| && errs[i].code == code != "" && forall k :: 0 <= k < i ==> errs[k].code == ""
    ensures (forall i :: 0 <= i < |errs| ==> errs[i].code == "") ==> code == fallback
    ensures code == WireCode(errs, fallback)
  {
    for i := 0 to |errs|
      invariant forall k :: 0 <= k < i ==> errs[k].code == ""
      invariant WireCode(errs, fallback) == WireCode(errs[i..], fallback)
    {
      if errs[i].code != "" {
        return errs[i].code;
      }
      assert errs[i..][1..] == errs[i + 1..];
    }
    return fallback;
  }

  function WireCode(errs: seq<WireError>, fallback: string): string {
    if errs == [] then fallback
    else if errs[0].code != "" then errs[0].code
    else WireCode(errs[1..], fallback)
  }

  function Paths(errs: seq<WireError>): seq<string> {
    if errs == [] then [] else [errs[0].path] + Paths(errs[1..])
  }

  function Messages(errs: seq<WireError>): seq<string> {
    if errs == [] then [] else [errs[0].message] + Messages(errs[1..])
  }

  predicate AnyPath(paths: seq<string>) {
    exists i :: 0 <= i < |paths| && paths[i] != ""
  }

  /** The single error sent for a list of causes. */
  function BecknError(errs: seq<WireError>): WireError {
    if errs == [] then WireError(DEFAULT_CODE, "", "Schema validation error.")
    else WireError(WireCode(errs, DEFAULT_CODE),
                   if AnyPath(Paths(errs)) then Join(Paths(errs), ";") else "",
                   Join(Messages(errs), "; "))
  }

  lemma {:induction false} PathsAre(errs: seq<WireError>)
    ensures |Paths(errs)| == |errs| && forall i :: 0 <= i < |errs| ==> Paths(errs)[i] == errs[i].path
  {
    if errs != [] {
      PathsAre(errs[1..]);
    }
  }

  lemma JoinedPath(errs: seq<WireError>, i: nat)
    requires i < |errs| && errs[i].path != ""
    ensures BecknError(errs).path == Join(Paths(errs), ";")
  {
    PathsAre(errs);
    assert Paths(errs)[i] != "";
  }

  /** The path sent keeps one entry per cause: splitting it gives every cause's path back. */
  lemma PathsSurvive(errs: seq<WireError>, i: nat)
    requires i < |errs| && errs[i].path != ""
    ensures Split(BecknError(errs).path, ';') == Paths(errs) <==> forall k :: 0 <= k < |Paths(errs)| ==> ';' !in Paths(errs)[k]
  {
    JoinedPath(errs, i);
    var paths := Paths(errs);
    assert |paths| > 0;
    assert Join(paths, ";") == Join(paths, [';']);
    SplitParts(BecknError(errs).path, ';');
    if forall k :: 0 <= k < |paths| ==> ';' !in paths[k] {
      SplitJoin(paths, ';');
    }
  }

  lemma {:induction false} CodedAllAre(leaves: seq<Leaf>)
    ensures |CodedAll(leaves)| == |leaves|
    ensures forall i :: 0 <= i < |leaves| ==> CodedAll(leaves)[i] == CodedError(leaves[i])
  {
    if leaves != [] {
      CodedAllAre(leaves[1..]);
    }
  }

  lemma CodesTellRanks(field: string)
    ensures FieldCode(field) != ""
    ensures FieldCode(field) == FIELD_NOT_ALLOWED <==> IsForeignField(field)
    ensures FieldCode(field) == INVALID_ENUM <==> IsDiscriminator(field)
  {
    assert FieldCode(field)[4..] != "" && |FIELD_NOT_ALLOWED| == 21 && |INVALID_ENUM| == 16;
  }

  /** The first cause sent has the lowest rank of all. */
  lemma FirstIsLowest(causes: seq<Leaf>) returns (first: Leaf)
    requires causes != []
    ensures first in causes && forall l :: l in causes ==> Rank(first) <= Rank(l)
    ensures BecknError(CodedAll(Ranked(causes))).code == FieldCode(first.field)
  {
    RankedIsStableSort(causes);
    SameSize(Ranked(causes), causes);
    CodedAllAre(Ranked(causes));
    first := Ranked(causes)[0];
    assert first in multiset(causes);
    forall l | l in causes ensures Rank(first) <= Rank(l) {
      assert l in multiset(Ranked(causes));
    }
    CodesTellRanks(first.field);
  }

  /** Each distinct complaint below a schema error is reported exactly once. */
  lemma ComplaintsOnce(e: Failure)
    requires e.Caused?
    ensures Reasons(CausesOf(e)) == Reasons(LeavesUnder(e.origin, IsDisjunctive(e.leaf.field)))
    ensures forall i, j :: 0 <= i < j < |CausesOf(e)| ==> Key(CausesOf(e)[i]) != Key(CausesOf(e)[j])
    ensures CausesOf(e) != [] ==> |Extract(e)| == |CausesOf(e)| && multiset(Ranked(CausesOf(e))) == multiset(CausesOf(e))
  {
    DedupeOnce(LeavesUnder(e.origin, IsDisjunctive(e.leaf.field)), {});
    RankedIsStableSort(CausesOf(e));
    SameSize(Ranked(CausesOf(e)), CausesOf(e));
    CodedAllAre(Ranked(CausesOf(e)));
  }

  /** The code sent is that of a cause of the lowest rank: it says the field is not
      allowed exactly if every cause is a foreign field, and that the value is not one of
      those allowed exactly if some cause is a pinned value and none is ordinary. */
  lemma CodeIsLowestRank(e: Failure)
    requires e.Caused? && CausesOf(e) != []
    ensures exists l :: l in CausesOf(e) && FieldCode(l.field) == BecknError(Extract(e)).code
              && forall m :: m in CausesOf(e) ==> Rank(l) <= Rank(m)
    ensures BecknError(Extract(e)).code == FIELD_NOT_ALLOWED <==> forall l :: l in CausesOf(e) ==> IsForeignField(l.field)
    ensures BecknError(Extract(e)).code == INVALID_ENUM <==>
              (exists l :: l in CausesOf(e) && IsDiscriminator(l.field)) && forall l :: l in CausesOf(e) ==> Rank(l) != 0
  {
    var first := FirstIsLowest(CausesOf(e));
    CodesTellRanks(first.field);
    assert forall l: Leaf :: Rank(l) <= 2;
  }

  // ------------------------------------------------------------ what is said

  /** The code of each keyword. */
  lemma CodesExactly(field: string)
    ensures field == "required" ==> FieldCode(field) == "SCH_REQUIRED_FIELD_MISSING"
    ensures field == "properties" ==> FieldCode(field) == "SCH_FIELD_NOT_ALLOWED"
    ensures field == "enum" || field == "const" ==> FieldCode(field) == "SCH_INVALID_ENUM"
    ensures field == "format" ==> FieldCode(field) == "SCH_INVALID_FORMAT"
    ensures field == "type" ==> FieldCode(field) == "SCH_TYPE_NOT_SUPPORTED"
    ensures field !in ["required", "properties", "enum", "const", "format", "type"] ==> FieldCode(field) == "SCH_SCHEMA_VALIDATION_FAILED"
  {
  }

  /** An error says where the leaf is, or failing that its keyword, and the leaf's reason, or
      failing that the keyword again. */
  predicate SaysLeaf(x: WireError, l: Leaf) {
    && x.code == FieldCode(l.field)
    && x.path == (if Join(l.pointer, "/") != "" then Join(l.pointer, "/") else l.field)
    && (l.reason != "" ==> x.message == l.reason)
    && (l.reason == "" && l.field == "not" ==> x.message == "value is not allowed here")
    && (l.reason == "" && l.field != "not" ==> x.message == "value does not satisfy \"" + l.field + "\"")
  }

  /** A failed schema error is reported as its causes, ranked, one error each; or as itself if
      it has none. */
  lemma ErrorsSayLeaves(e: Failure)
    requires e.Assertion? || e.Caused?
    ensures var said := if CausesOf(e) != [] then Ranked(CausesOf(e)) else [e.leaf];
            |Extract(e)| == |said| && forall i :: 0 <= i < |said| ==> SaysLeaf(Extract(e)[i], said[i])
  {
    CodedAllAre(Ranked(CausesOf(e)));
    if CausesOf(e) != [] {
      RankedPermutes(CausesOf(e));
      assert multiset(Ranked(CausesOf(e))) != multiset{};
    }
  }

  /** The messages are all sent, in order, set apart by "; ". */
  lemma MessagesJoin(errs: seq<WireError>, x: WireError)
    ensures BecknError([x]).message == x.message
    ensures errs != [] ==> BecknError(errs + [x]).message == BecknError(errs).message + "; " + x.message
  {
    OneMessage(x);
    MessagesAppend(errs, [x]);
    if errs != [] {
      assert |Messages(errs)| > 0;
      JoinAppend(Messages(errs), [x.message], "; ");
      assert Join([x.message], "; ") == x.message;
    }
  }

  lemma OneMessage(x: WireError)
    ensures Messages([x]) == [x.message]
  {
    assert [x][1..] == [];
  }

  lemma {:induction false} MessagesAppend(a: seq<WireError>, b: seq<WireError>)
    ensures Messages(a + b) == Messages(a) + Messages(b)
  {
    if a == [] {
      assert a + b == b;
    } else {
      MessagesAppend(a[1..], b);
      assert (a + b)[0] == a[0] && (a + b)[1..] == a[1..] + b;
      Regroup([a[0].message], Messages(a[1..]), Messages(b));
    }
  }
}
