/** The cache of compiled mappings: bounded, timed, remembering failures for a shorter
    while, and filled by one fetch per reference however many callers miss at once. */
module MappingCache {

  type Ref = string
  type Time = int

  datatype Result = Compiled(mapping: string) | Fault(error: string)

  datatype Entry = Entry(result: Result, expiresAt: Time)

  /** Settings after defaults: both lifetimes and the bound are positive. */
  datatype Config = Config(cacheTTL: Time, negativeTTL: Time, maxEntries: nat)

  predicate Usable(cfg: Config) {
    cfg.cacheTTL > 0 && cfg.negativeTTL > 0 && cfg.maxEntries > 0
  }

  function TTL(cfg: Config, r: Result): Time {
    if r.Fault? then cfg.negativeTTL else cfg.cacheTTL
  }

  type Entries = map<Ref, Entry>

  predicate Live(entries: Entries, ref: Ref, now: Time) {
    ref in entries && now <= entries[ref].expiresAt
  }

  function Purged(entries: Entries, now: Time): Entries {
    map r | r in entries && now <= entries[r].expiresAt :: entries[r]
  }

  function Stored(cfg: Config, entries: Entries, ref: Ref, e: Entry, now: Time): Entries {
    var left := Purged(entries, now);
    if |left| >= cfg.maxEntries && ref !in left then left else left[ref := e]
  }

  /** The references a lookup would find at this time. */
  function LiveRefs(entries: Entries, now: Time): set<Ref> {
    set r | r in entries && now <= entries[r].expiresAt
  }

  /** A full cache turns a new reference away: one that is not found, while as many as it may
      hold are. */
  predicate HasRoom(cfg: Config, entries: Entries, ref: Ref, now: Time) {
    Live(entries, ref, now) || |LiveRefs(entries, now)| < cfg.maxEntries
  }

  /** What the cache holds afterwards: the new entry if there was room, and of the others
      exactly those that were still found. */
  ghost predicate Remembers(cfg: Config, was: Entries, entries: Entries, ref: Ref, e: Entry, now: Time) {
    && (if HasRoom(cfg, was, ref, now) then ref in entries && entries[ref] == e else ref !in entries)
    && forall r :: r != ref ==> (r in entries <==> Live(was, r, now)) && (r in entries ==> entries[r] == was[r])
  }

  lemma StoredRemembers(cfg: Config, entries: Entries, ref: Ref, e: Entry, now: Time)
    ensures Remembers(cfg, entries, Stored(cfg, entries, ref, e, now), ref, e, now)
  {
    var left := Purged(entries, now);
    assert left.Keys == LiveRefs(entries, now);
    assert |left| == |left.Keys|;
  }

  class Mapper {
    const cfg: Config
    var entries: Entries

    ghost predicate Valid()
      reads this
    {
      Usable(cfg) && |entries| <= cfg.maxEntries
    }

    constructor (cfg: Config)
      requires Usable(cfg)
      ensures Valid() && entries == map[] && this.cfg == cfg
    {
      this.cfg := cfg;
      entries := map[];
    }

    method Cached(ref: Ref, now: Time) returns (found: bool, e: Entry)
      ensures found <==> Live(entries, ref, now)
      ensures found ==> e == entries[ref] && now <= e.expiresAt
    {
      if ref !in entries || now > entries[ref].expiresAt {
        return false, Entry(Fault(""), 0);
      }
      return true, entries[ref];
    }

    /** Drops exactly the entries that would be misses, in whatever order the map is
        walked. */
    method PurgeExpired(now: Time)
      modifies this`entries
      ensures entries == Purged(old(entries), now)
      ensures forall r :: r in old(entries) && r !in entries ==> !Live(old(entries), r, now)
      ensures forall r :: Live(old(entries), r, now) ==> r in entries && entries[r] == old(entries)[r]
    {
      var todo := entries.Keys;
      while todo != {}
        invariant todo <= old(entries).Keys
        invariant entries.Keys <= old(entries).Keys
        invariant forall r :: r in entries ==> entries[r] == old(entries)[r]
        invariant forall r :: r in old(entries) ==>
                    (r in entries <==> r in todo || now <= old(entries)[r].expiresAt)
        decreases todo
      {
        var r :| r in todo;
        if now > entries[r].expiresAt {
          entries := entries - {r};
        }
        todo := todo - {r};
      }
    }

    /** `stamped` is the clock when the entry is built, `now` the clock under the lock. */
    method Remember(ref: Ref, result: Result, stamped: Time, now: Time) returns (e: Entry)
      requires Valid()
      modifies this`entries
      ensures Valid()
      ensures e == Entry(result, stamped + if result.Fault? then cfg.negativeTTL else cfg.cacheTTL)
      ensures Remembers(cfg, old(entries), entries, ref, e, now)
      ensures entries == Stored(cfg, old(entries), ref, e, now)
    {
      StoredRemembers(cfg, entries, ref, Entry(result, stamped + TTL(cfg, result)), now);
      var ttl := cfg.cacheTTL;
      if result.Fault? {
        ttl := cfg.negativeTTL;
      }
      e := Entry(result, stamped + ttl);
      PurgeExpired(now);
      StoredIsBounded(cfg, old(entries), ref, e, now);
      if |entries| >= cfg.maxEntries {
        if ref !in entries {
          return;
        }
      }
      entries := entries[ref := e];
    }
  }

  lemma StoredIsBounded(cfg: Config, entries: Entries, ref: Ref, e: Entry, now: Time)
    requires |entries| <= cfg.maxEntries
    ensures |Stored(cfg, entries, ref, e, now)| <= cfg.maxEntries
  {
    var left := Purged(entries, now);
    assert left.Keys <= entries.Keys;
    SubsetIsSmaller(left.Keys, entries.Keys);
    assert |left| == |left.Keys| && |entries| == |entries.Keys|;
    if ref in left {
      assert left[ref := e].Keys == left.Keys;
    } else {
      assert left[ref := e].Keys == left.Keys + {ref};
    }
  }

  lemma {:induction false} SubsetIsSmaller(a: set<Ref>, b: set<Ref>)
    requires a <= b
    ensures |a| <= |b|
  {
    if a != {} {
      var x :| x in a;
      SubsetIsSmaller(a - {x}, b - {x});
    }
  }

  // ------------------------------------------------- any number of callers at once

  /** Where one call of `compiled` stands. A caller that finds no flight for its reference
      leads one; the others join the leader's. */
  datatype Caller =
    | Called(ref: Ref)
    | Missed(ref: Ref)
    | Joined(ref: Ref, leader: nat)
    | Leading(ref: Ref)
    | Rechecked(ref: Ref)
    | Fetching(ref: Ref)
    | Fetched(ref: Ref, result: Result)
    | Timed(ref: Ref, entry: Entry)
    | Landing(ref: Ref, entry: Entry)
    | Answered(ref: Ref, entry: Entry)

  /** One finished fetch-and-compile, and when its entry was stamped. */
  datatype Fetch = Fetch(ref: Ref, result: Result, at: Time)

  datatype World = World(now: Time, entries: Entries, inflight: map<Ref, nat>, callers: seq<Caller>, log: seq<Fetch>)

  datatype Effect = Effect(next: Caller, entries: Entries, inflight: map<Ref, nat>, log: seq<Fetch>)

  function Only(w: World, next: Caller): Effect {
    Effect(next, w.entries, w.inflight, w.log)
  }

  ghost predicate Does(cfg: Config, w: World, i: nat, c: Caller, e: Effect) {
    match c
    case Called(r) =>
      e == Only(w, if Live(w.entries, r, w.now) then Answered(r, w.entries[r]) else Missed(r))
    case Missed(r) =>
      if r in w.inflight then e == Only(w, Joined(r, w.inflight[r]))
      else e == Only(w, Leading(r)).(inflight := w.inflight[r := i])
    case Joined(r, l) =>
      l < |w.callers| && w.callers[l].Answered? && e == Only(w, Answered(r, w.callers[l].entry))
    case Leading(r) =>
      e == Only(w, if Live(w.entries, r, w.now) then Landing(r, w.entries[r]) else Rechecked(r))
    case Rechecked(r) => e == Only(w, Fetching(r))
    case Fetching(r) => e.next.Fetched? && e == Only(w, Fetched(r, e.next.result))
    case Fetched(r, result) =>
      e == Only(w, Timed(r, Entry(result, w.now + TTL(cfg, result)))).(log := w.log + [Fetch(r, result, w.now)])
    case Timed(r, entry) => e == Only(w, Landing(r, entry)).(entries := Stored(cfg, w.entries, r, entry, w.now))
    case Landing(r, entry) => e == Only(w, Answered(r, entry)).(inflight := w.inflight - {r})
    case Answered(_, _) => false
  }

  function After(w: World, i: nat, e: Effect): World
    requires i < |w.callers|
  {
    World(w.now, e.entries, e.inflight, w.callers[i := e.next], e.log)
  }

  ghost predicate StepOf(cfg: Config, w: World, v: World, i: nat, e: Effect) {
    i < |w.callers| && Does(cfg, w, i, w.callers[i], e) && v == After(w, i, e)
  }

  /** Time passes, a caller arrives, or a caller moves. */
  ghost predicate Next(cfg: Config, w: World, v: World) {
    || (exists t :: t >= w.now && v == w.(now := t))
    || (exists r :: v == w.(callers := w.callers + [Called(r)]))
    || (exists i, e :: StepOf(cfg, w, v, i, e))
  }

  ghost predicate Run(cfg: Config, tr: seq<World>) {
    && Usable(cfg) && |tr| > 0
    && tr[0] == World(tr[0].now, map[], map[], [], [])
    && forall k :: 0 <= k < |tr| - 1 ==> Next(cfg, tr[k], tr[k + 1])
  }

  // --------------------------------------------------------------- invariant

  predicate Leads(c: Caller) {
    c.Leading? || c.Rechecked? || c.Fetching? || c.Fetched? || c.Timed? || c.Landing?
  }

  /** The flights in progress are exactly those of the callers that lead. */
  ghost predicate Flights(w: World) {
    && (forall i :: 0 <= i < |w.callers| && Leads(w.callers[i]) ==>
          w.callers[i].ref in w.inflight && w.inflight[w.callers[i].ref] == i)
    && (forall r :: r in w.inflight ==>
          w.inflight[r] < |w.callers| && Leads(w.callers[w.inflight[r]]) && w.callers[w.inflight[r]].ref == r)
    && (forall i :: 0 <= i < |w.callers| && w.callers[i].Joined? ==>
          w.callers[i].leader < |w.callers| && w.callers[w.callers[i].leader].ref == w.callers[i].ref)
  }

  predicate PastRecheck(c: Caller) {
    c.Rechecked? || c.Fetching? || c.Fetched? || c.Timed?
  }

  /** From the re-check until it stores, a leader's reference has no live entry. */
  ghost predicate NothingLive(w: World) {
    forall i :: 0 <= i < |w.callers| && PastRecheck(w.callers[i]) ==> !Live(w.entries, w.callers[i].ref, w.now)
  }

  /** One fetch of this reference produced this entry. */
  ghost predicate From(cfg: Config, w: World, ref: Ref, e: Entry) {
    exists k :: 0 <= k < |w.log| && w.log[k].ref == ref && w.log[k].result == e.result
      && w.log[k].at <= w.now && e.expiresAt == w.log[k].at + TTL(cfg, e.result)
  }

  predicate Holds(c: Caller) {
    c.Timed? || c.Landing? || c.Answered?
  }

  ghost predicate Sourced(cfg: Config, w: World) {
    && (forall r :: r in w.entries ==> From(cfg, w, r, w.entries[r]))
    && (forall i :: 0 <= i < |w.callers| && Holds(w.callers[i]) ==> From(cfg, w, w.callers[i].ref, w.callers[i].entry))
  }

  ghost predicate Inv(cfg: Config, w: World) {
    Flights(w) && NothingLive(w) && Sourced(cfg, w) && |w.entries| <= cfg.maxEntries
  }

  lemma DoesKeepsRef(cfg: Config, w: World, i: nat, c: Caller, e: Effect)
    requires Does(cfg, w, i, c, e)
    ensures e.next.ref == c.ref
  {
  }

  lemma LeadKeepsFlights(w: World, v: World, i: nat, r: Ref)
    requires Flights(w) && i < |w.callers| && w.callers[i] == Missed(r) && r !in w.inflight
    requires v.inflight == w.inflight[r := i] && v.callers == w.callers[i := Leading(r)]
    ensures Flights(v)
  {
  }

  lemma LandKeepsFlights(w: World, v: World, i: nat, next: Caller)
    requires Flights(w) && i < |w.callers| && w.callers[i].Landing? && next.Answered? && next.ref == w.callers[i].ref
    requires v.inflight == w.inflight - {next.ref} && v.callers == w.callers[i := next]
    ensures Flights(v)
  {
  }

  lemma OtherKeepsFlights(w: World, v: World, i: nat, next: Caller)
    requires Flights(w) && i < |w.callers| && next.ref == w.callers[i].ref && (Leads(next) <==> Leads(w.callers[i]))
    requires next.Joined? ==> next.ref in w.inflight && next.leader == w.inflight[next.ref]
    requires v.inflight == w.inflight && v.callers == w.callers[i := next]
    ensures Flights(v)
  {
  }

  lemma StepKeepsFlights(cfg: Config, w: World, v: World, i: nat, e: Effect)
    requires Flights(w) && StepOf(cfg, w, v, i, e)
    ensures Flights(v)
  {
    var c := w.callers[i];
    DoesKeepsRef(cfg, w, i, c, e);
    if c.Missed? && c.ref !in w.inflight {
      LeadKeepsFlights(w, v, i, c.ref);
    } else if c.Landing? {
      LandKeepsFlights(w, v, i, e.next);
    } else {
      OtherKeepsFlights(w, v, i, e.next);
    }
  }

  lemma StepKeepsNothingLive(cfg: Config, w: World, v: World, i: nat, e: Effect)
    requires Flights(w) && NothingLive(w) && StepOf(cfg, w, v, i, e)
    ensures NothingLive(v)
  {
    var c := w.callers[i];
    DoesKeepsRef(cfg, w, i, c, e);
    forall j | 0 <= j < |v.callers| && PastRecheck(v.callers[j])
      ensures !Live(v.entries, v.callers[j].ref, v.now)
    {
      if j == i {
        assert e.entries == w.entries;
      } else {
        assert c.Timed? ==> c.ref != w.callers[j].ref;
      }
    }
  }

  lemma FromLasts(cfg: Config, w: World, v: World, ref: Ref, e: Entry)
    requires From(cfg, w, ref, e) && v.now >= w.now && |v.log| >= |w.log| && v.log[..|w.log|] == w.log
    ensures From(cfg, v, ref, e)
  {
    var k :| 0 <= k < |w.log| && w.log[k].ref == ref && w.log[k].result == e.result
      && w.log[k].at <= w.now && e.expiresAt == w.log[k].at + TTL(cfg, e.result);
    assert v.log[k] == v.log[..|w.log|][k];
  }

  lemma LogGrows(cfg: Config, w: World, v: World, i: nat, e: Effect)
    requires StepOf(cfg, w, v, i, e)
    ensures v.now == w.now && |v.log| >= |w.log| && v.log[..|w.log|] == w.log
  {
  }

  lemma EffectIsSourced(cfg: Config, w: World, v: World, i: nat, e: Effect)
    requires Flights(w) && Sourced(cfg, w) && StepOf(cfg, w, v, i, e)
    ensures Holds(e.next) ==> From(cfg, v, e.next.ref, e.next.entry)
    ensures forall r :: r in v.entries ==> From(cfg, v, r, v.entries[r])
  {
    var c := w.callers[i];
    DoesKeepsRef(cfg, w, i, c, e);
    LogGrows(cfg, w, v, i, e);
    forall r, x | From(cfg, w, r, x) ensures From(cfg, v, r, x) {
      FromLasts(cfg, w, v, r, x);
    }
    if c.Fetched? {
      assert v.log[|w.log|] == Fetch(c.ref, c.result, w.now);
    } else if c.Joined? {
      assert Holds(w.callers[c.leader]);
    }
  }

  lemma StepKeepsSourced(cfg: Config, w: World, v: World, i: nat, e: Effect)
    requires Flights(w) && Sourced(cfg, w) && StepOf(cfg, w, v, i, e)
    ensures Sourced(cfg, v)
  {
    LogGrows(cfg, w, v, i, e);
    EffectIsSourced(cfg, w, v, i, e);
    forall j | 0 <= j < |v.callers| && Holds(v.callers[j])
      ensures From(cfg, v, v.callers[j].ref, v.callers[j].entry)
    {
      if j != i {
        FromLasts(cfg, w, v, w.callers[j].ref, w.callers[j].entry);
      }
    }
  }

  lemma StepKeepsBound(cfg: Config, w: World, v: World, i: nat, e: Effect)
    requires |w.entries| <= cfg.maxEntries && StepOf(cfg, w, v, i, e)
    ensures |v.entries| <= cfg.maxEntries
  {
    var c := w.callers[i];
    if c.Timed? {
      StoredIsBounded(cfg, w.entries, c.ref, c.entry, w.now);
    }
  }

  lemma TimeKeeps(cfg: Config, w: World, v: World)
    requires Inv(cfg, w) && v.now >= w.now && v == w.(now := v.now)
    ensures Inv(cfg, v)
  {
    assert v.log[..|w.log|] == w.log;
    forall r, x | From(cfg, w, r, x) ensures From(cfg, v, r, x) {
      FromLasts(cfg, w, v, r, x);
    }
  }

  lemma CallKeeps(cfg: Config, w: World, r: Ref)
    requires Inv(cfg, w)
    ensures Inv(cfg, w.(callers := w.callers + [Called(r)]))
  {
    CallKeepsFlights(w, r);
    CallKeepsSourced(cfg, w, r);
  }

  lemma CallKeepsFlights(w: World, r: Ref)
    requires Flights(w)
    ensures Flights(w.(callers := w.callers + [Called(r)]))
  {
  }

  lemma CallKeepsSourced(cfg: Config, w: World, r: Ref)
    requires Sourced(cfg, w)
    ensures Sourced(cfg, w.(callers := w.callers + [Called(r)]))
  {
    var v := w.(callers := w.callers + [Called(r)]);
    assert v.log[..|w.log|] == w.log;
    forall r, x | From(cfg, w, r, x) ensures From(cfg, v, r, x) {
      FromLasts(cfg, w, v, r, x);
    }
  }

  lemma NextKeeps(cfg: Config, w: World, v: World)
    requires Inv(cfg, w) && Next(cfg, w, v)
    ensures Inv(cfg, v)
  {
    if i: nat, e :| StepOf(cfg, w, v, i, e) {
      StepKeepsFlights(cfg, w, v, i, e);
      StepKeepsNothingLive(cfg, w, v, i, e);
      StepKeepsSourced(cfg, w, v, i, e);
      StepKeepsBound(cfg, w, v, i, e);
    } else if r :| v == w.(callers := w.callers + [Called(r)]) {
      CallKeeps(cfg, w, r);
    } else {
      TimeKeeps(cfg, w, v);
    }
  }

  lemma {:induction false} RunKeeps(cfg: Config, tr: seq<World>, k: nat)
    requires Run(cfg, tr) && k < |tr|
    ensures Inv(cfg, tr[k])
  {
    if k > 0 {
      RunKeeps(cfg, tr, k - 1);
      NextKeeps(cfg, tr[k - 1], tr[k]);
    }
  }

  // ---------------------------------------------------------------- theorems

  ghost predicate Fetches(w: World, i: int) {
    0 <= i < |w.callers| && w.callers[i].Fetching?
  }

  /** In every interleaving, at most one fetch per reference is in flight, no live entry
      for a reference is stored while it is being fetched, and the cache is bounded. */
  lemma OneFetchAtATime(cfg: Config, tr: seq<World>, k: nat)
    requires Run(cfg, tr) && k < |tr|
    ensures forall i, j :: Fetches(tr[k], i) && Fetches(tr[k], j) && tr[k].callers[i].ref == tr[k].callers[j].ref ==> i == j
    ensures forall i :: Fetches(tr[k], i) ==> !Live(tr[k].entries, tr[k].callers[i].ref, tr[k].now)
    ensures |tr[k].entries| <= cfg.maxEntries
  {
    RunKeeps(cfg, tr, k);
  }

  /** No fetch for a reference ever begins while a live entry for it is stored, although
      the re-check and the fetch are two steps with other callers' steps between them. */
  lemma FetchBeginsOnMiss(cfg: Config, tr: seq<World>, k: nat, i: nat, e: Effect)
    requires Run(cfg, tr) && k < |tr| - 1
    requires StepOf(cfg, tr[k], tr[k + 1], i, e) && e.next.Fetching?
    ensures !Live(tr[k].entries, e.next.ref, tr[k].now)
  {
    RunKeeps(cfg, tr, k);
    assert tr[k].callers[i].Rechecked?;
  }

  /** A hit is what one fetch-and-compile of that reference produced, stamped no longer
      ago than the lifetime its kind of result has. */
  lemma HitsAreFresh(cfg: Config, tr: seq<World>, k: nat, ref: Ref)
    requires Run(cfg, tr) && k < |tr|
    requires Live(tr[k].entries, ref, tr[k].now)
    ensures exists f :: 0 <= f < |tr[k].log| && tr[k].log[f].ref == ref
              && tr[k].log[f].result == tr[k].entries[ref].result
              && 0 <= tr[k].now - tr[k].log[f].at <= if tr[k].log[f].result.Fault? then cfg.negativeTTL else cfg.cacheTTL
  {
    RunKeeps(cfg, tr, k);
    assert From(cfg, tr[k], ref, tr[k].entries[ref]);
  }

  /** Every answer, joined flights included, came from a fetch of the reference asked for. */
  lemma AnswersAreTheirOwn(cfg: Config, tr: seq<World>, k: nat, i: nat)
    requires Run(cfg, tr) && k < |tr| && i < |tr[k].callers| && tr[k].callers[i].Answered?
    ensures exists f :: 0 <= f < |tr[k].log| && tr[k].log[f].ref == tr[k].callers[i].ref
              && tr[k].log[f].result == tr[k].callers[i].entry.result
  {
    RunKeeps(cfg, tr, k);
    assert From(cfg, tr[k], tr[k].callers[i].ref, tr[k].callers[i].entry);
  }

  // -------------------------------------------------------- what caching saves

  /** Storing for another reference, or with nothing found for this one, does not disturb an
      entry that is still found. */
  lemma StepKeepsLive(cfg: Config, w: World, v: World, i: nat, e: Effect, ref: Ref)
    requires NothingLive(w) && StepOf(cfg, w, v, i, e) && Live(w.entries, ref, w.now)
    ensures ref in v.entries && v.entries[ref] == w.entries[ref]
  {
    var c := w.callers[i];
    if c.Timed? {
      StoredRemembers(cfg, w.entries, c.ref, c.entry, w.now);
      assert PastRecheck(c);
    }
  }

  lemma NextKeepsLive(cfg: Config, w: World, v: World, ref: Ref)
    requires NothingLive(w) && Next(cfg, w, v) && Live(w.entries, ref, w.now)
    ensures ref in v.entries && v.entries[ref] == w.entries[ref]
  {
    if i: nat, e :| StepOf(cfg, w, v, i, e) {
      StepKeepsLive(cfg, w, v, i, e, ref);
    }
  }

  lemma NothingLiveAt(cfg: Config, tr: seq<World>, k: nat)
    requires Run(cfg, tr) && k < |tr|
    ensures NothingLive(tr[k])
  {
    RunKeeps(cfg, tr, k);
  }

  lemma {:induction false} TimeRises(cfg: Config, tr: seq<World>, from: nat, k: nat)
    requires Run(cfg, tr) && from <= k < |tr|
    ensures tr[from].now <= tr[k].now
  {
    if from < k {
      TimeRises(cfg, tr, from, k - 1);
      assert Next(cfg, tr[k - 1], tr[k - 1 + 1]);
    }
  }

  /** An entry that is found stays in the cache, unchanged, until it expires, whatever else is
      fetched, stored or purged meanwhile. */
  lemma {:induction false} FoundUntilItExpires(cfg: Config, tr: seq<World>, from: nat, k: nat, ref: Ref)
    requires Run(cfg, tr) && from <= k < |tr| && Live(tr[from].entries, ref, tr[from].now)
    requires tr[k].now <= tr[from].entries[ref].expiresAt
    ensures Live(tr[k].entries, ref, tr[k].now) && tr[k].entries[ref] == tr[from].entries[ref]
  {
    if from < k {
      TimeRises(cfg, tr, k - 1, k);
      FoundUntilItExpires(cfg, tr, from, k - 1, ref);
      NothingLiveAt(cfg, tr, k - 1);
      assert Next(cfg, tr[k - 1], tr[k - 1 + 1]);
      NextKeepsLive(cfg, tr[k - 1], tr[k], ref);
    }
  }

  /** The entry of a flight that found room is found from then until it expires. */
  lemma LandedIsFound(cfg: Config, tr: seq<World>, from: nat, k: nat, i: nat, e: Effect)
    requires Run(cfg, tr) && from + 1 <= k < |tr| && StepOf(cfg, tr[from], tr[from + 1], i, e) && tr[from].callers[i].Timed?
    requires var c := tr[from].callers[i]; HasRoom(cfg, tr[from].entries, c.ref, tr[from].now) && tr[k].now <= c.entry.expiresAt
    ensures var c := tr[from].callers[i]; Live(tr[k].entries, c.ref, tr[k].now) && tr[k].entries[c.ref] == c.entry
  {
    var c := tr[from].callers[i];
    StoredRemembers(cfg, tr[from].entries, c.ref, c.entry, tr[from].now);
    TimeRises(cfg, tr, from + 1, k);
    FoundUntilItExpires(cfg, tr, from + 1, k, c.ref);
  }

  /** A caller whose reference is found is answered with that entry in one step, and no fetch is
      made for it. */
  lemma FoundIsAnswered(cfg: Config, w: World, v: World, i: nat, e: Effect)
    requires StepOf(cfg, w, v, i, e) && w.callers[i].Called? && Live(w.entries, w.callers[i].ref, w.now)
    ensures v == w.(callers := w.callers[i := Answered(w.callers[i].ref, w.entries[w.callers[i].ref])])
  {
  }

  // ---------------------------------------------------------------- progress

  /** Whoever joined a flight waits for a caller that leads it or has its answer. */
  ghost predicate Followed(w: World) {
    forall i :: 0 <= i < |w.callers| && w.callers[i].Joined? ==>
      var l := w.callers[i].leader;
      l < |w.callers| && (Leads(w.callers[l]) || w.callers[l].Answered?)
  }

  lemma StepKeepsFollowed(cfg: Config, w: World, v: World, i: nat, e: Effect)
    requires Flights(w) && Followed(w) && StepOf(cfg, w, v, i, e)
    ensures Followed(v)
  {
    assert Leads(w.callers[i]) || w.callers[i].Answered? ==> Leads(e.next) || e.next.Answered?;
    assert e.next.Joined? ==> e.next.leader < |w.callers| && Leads(w.callers[e.next.leader]);
  }

  lemma NextKeepsFollowed(cfg: Config, w: World, v: World)
    requires Flights(w) && Followed(w) && Next(cfg, w, v)
    ensures Followed(v)
  {
    if i: nat, e :| StepOf(cfg, w, v, i, e) {
      StepKeepsFollowed(cfg, w, v, i, e);
    } else if r :| v == w.(callers := w.callers + [Called(r)]) {
      assert forall i :: 0 <= i < |w.callers| ==> v.callers[i] == w.callers[i];
    }
  }

  lemma FlightsAt(cfg: Config, tr: seq<World>, k: nat)
    requires Run(cfg, tr) && k < |tr|
    ensures Flights(tr[k])
  {
    RunKeeps(cfg, tr, k);
  }

  lemma {:induction false} RunKeepsFollowed(cfg: Config, tr: seq<World>, k: nat)
    requires Run(cfg, tr) && k < |tr|
    ensures Followed(tr[k])
  {
    if k > 0 {
      RunKeepsFollowed(cfg, tr, k - 1);
      FlightsAt(cfg, tr, k - 1);
      NextKeepsFollowed(cfg, tr[k - 1], tr[k]);
    }
  }

  /** How far a caller that waits for nobody is from its answer. */
  function Distance(c: Caller): nat {
    match c
    case Called(_) => 8
    case Missed(_) => 7
    case Leading(_) => 6
    case Rechecked(_) => 5
    case Fetching(_) => 4
    case Fetched(_, _) => 3
    case Timed(_, _) => 2
    case Landing(_, _) => 1
    case Joined(_, _) => 0
    case Answered(_, _) => 0
  }

  /** The step such a caller takes; a fetch that is given nothing better ends in a fault. */
  function Onward(cfg: Config, w: World, i: nat, c: Caller): Effect
    requires Distance(c) > 0
  {
    match c
    case Called(r) => Only(w, if Live(w.entries, r, w.now) then Answered(r, w.entries[r]) else Missed(r))
    case Missed(r) =>
      if r in w.inflight then Only(w, Joined(r, w.inflight[r])) else Only(w, Leading(r)).(inflight := w.inflight[r := i])
    case Leading(r) => Only(w, if Live(w.entries, r, w.now) then Landing(r, w.entries[r]) else Rechecked(r))
    case Rechecked(r) => Only(w, Fetching(r))
    case Fetching(r) => Only(w, Fetched(r, Fault("")))
    case Fetched(r, result) =>
      Only(w, Timed(r, Entry(result, w.now + TTL(cfg, result)))).(log := w.log + [Fetch(r, result, w.now)])
    case Timed(r, entry) => Only(w, Landing(r, entry)).(entries := Stored(cfg, w.entries, r, entry, w.now))
    case Landing(r, entry) => Only(w, Answered(r, entry)).(inflight := w.inflight - {r})
  }

  lemma OnwardDoes(cfg: Config, w: World, i: nat, c: Caller)
    requires Distance(c) > 0
    ensures Does(cfg, w, i, c, Onward(cfg, w, i, c)) && Distance(Onward(cfg, w, i, c).next) < Distance(c)
    ensures Leads(c) ==> Leads(Onward(cfg, w, i, c).next) || Onward(cfg, w, i, c).next.Answered?
    ensures Onward(cfg, w, i, c).next.ref == c.ref
  {
  }

  lemma GoOn(cfg: Config, tr: seq<World>, i: nat, e: Effect)
    requires Run(cfg, tr) && i < |tr[|tr| - 1].callers| && Does(cfg, tr[|tr| - 1], i, tr[|tr| - 1].callers[i], e)
    ensures Run(cfg, tr + [After(tr[|tr| - 1], i, e)])
  {
    assert StepOf(cfg, tr[|tr| - 1], After(tr[|tr| - 1], i, e), i, e);
    RunMore(cfg, tr, After(tr[|tr| - 1], i, e));
  }

  lemma RunMore(cfg: Config, tr: seq<World>, v: World)
    requires Run(cfg, tr) && Next(cfg, tr[|tr| - 1], v)
    ensures Run(cfg, tr + [v])
  {
    var more := tr + [v];
    forall k | 0 <= k < |more| - 1 ensures Next(cfg, more[k], more[k + 1]) {
      if k < |tr| - 1 {
        assert more[k] == tr[k] && more[k + 1] == tr[k + 1];
      }
    }
  }

  /** Time may pass and callers may arrive at any moment, and a fetch may end in any result. */
  lemma MayHappen(cfg: Config, tr: seq<World>, t: Time, ref: Ref, i: nat, result: Result)
    requires Run(cfg, tr) && t >= tr[|tr| - 1].now
    ensures Run(cfg, tr + [tr[|tr| - 1].(now := t)])
    ensures Run(cfg, tr + [tr[|tr| - 1].(callers := tr[|tr| - 1].callers + [Called(ref)])])
    ensures i < |tr[|tr| - 1].callers| && tr[|tr| - 1].callers[i] == Fetching(ref) ==>
              Run(cfg, tr + [tr[|tr| - 1].(callers := tr[|tr| - 1].callers[i := Fetched(ref, result)])])
  {
    var w := tr[|tr| - 1];
    RunMore(cfg, tr, w.(now := t));
    RunMore(cfg, tr, w.(callers := w.callers + [Called(ref)]));
    if i < |w.callers| && w.callers[i] == Fetching(ref) {
      GoOn(cfg, tr, i, Only(w, Fetched(ref, result)));
    }
  }

  /** Only the one caller has moved. */
  ghost predicate OnlyMoved(w: World, v: World, i: nat) {
    |v.callers| == |w.callers| && forall k :: 0 <= k < |w.callers| && k != i ==> v.callers[k] == w.callers[k]
  }

  /** By its own steps alone a caller gets its answer, or joins a flight; one that leads does
      not join. */
  lemma {:induction false} RunsAlone(cfg: Config, tr: seq<World>, i: nat) returns (run: seq<World>)
    requires Run(cfg, tr) && i < |tr[|tr| - 1].callers|
    ensures Run(cfg, run) && tr <= run && OnlyMoved(tr[|tr| - 1], run[|run| - 1], i)
    ensures var c, d := tr[|tr| - 1].callers[i], run[|run| - 1].callers[i];
            (d.Answered? || d.Joined?) && (Leads(c) || c.Answered? ==> d.Answered?) && d.ref == c.ref
    decreases Distance(tr[|tr| - 1].callers[i])
  {
    var w := tr[|tr| - 1];
    var c := w.callers[i];
    if Distance(c) == 0 {
      run := tr;
    } else {
      var e := Onward(cfg, w, i, c);
      OnwardDoes(cfg, w, i, c);
      GoOn(cfg, tr, i, e);
      run := RunsAlone(cfg, tr + [After(w, i, e)], i);
    }
  }

  /** Wherever a run stands, it can go on until a given caller has its answer, without any
      other caller than the leader it joined having to move. */
  lemma CallerCanFinish(cfg: Config, tr: seq<World>, i: nat) returns (run: seq<World>)
    requires Run(cfg, tr) && i < |tr[|tr| - 1].callers|
    ensures Run(cfg, run) && tr <= run && i < |run[|run| - 1].callers| && run[|run| - 1].callers[i].Answered?
  {
    run := RunsAlone(cfg, tr, i);
    if run[|run| - 1].callers[i].Joined? {
      var l := run[|run| - 1].callers[i].leader;
      RunKeepsFollowed(cfg, run, |run| - 1);
      run := RunsAlone(cfg, run, l);
      var w := run[|run| - 1];
      var e := Only(w, Answered(w.callers[i].ref, w.callers[l].entry));
      GoOn(cfg, run, i, e);
      run := run + [After(w, i, e)];
    }
  }
}
