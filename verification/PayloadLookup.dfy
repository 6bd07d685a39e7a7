/** What the lookup by transaction returns, for every log of stores: repeated message ids
    included, and exactly when that is what it ought to return. */
module PayloadLookup {
  import opened Options
  import opened Sequences
  import opened PayloadStore

  // ------------------------------------- what a lookup returns, repeats included

  /** A transaction's index as the log has made it: the ids in the order they were first
      stored since the record that began it, and when it lapses. */
  datatype Listing = Listing(ids: seq<string>, expires: int, since: nat)

  predicate Runs(l: Option<Listing>, now: int) {
    l.Some? && now < l.value.expires
  }

  function ListingOf(cfg: Config, log: seq<Record>, t: string): Option<Listing> {
    if log == [] then None
    else
      Relisted(cfg, ListingOf(cfg, log[..|log| - 1], t), log[|log| - 1], |log| - 1, t)
  }

  function Relisted(cfg: Config, before: Option<Listing>, r: Record, n: nat, t: string): Option<Listing> {
    if !OfTxn(r, t) then before
    else if !Runs(before, r.at) then Some(Listing([r.entry.messageId], r.at + cfg.indexTtl, n))
    else if r.entry.messageId in before.value.ids then before
    else Some(before.value.(ids := before.value.ids + [r.entry.messageId], expires := r.at + cfg.indexTtl))
  }

  /** The ids of a transaction, each at its first occurrence. */
  function FirstIds(log: seq<Record>, t: string): seq<string> {
    if log == [] then []
    else
      var before, r := FirstIds(log[..|log| - 1], t), log[|log| - 1];
      if OfTxn(r, t) && r.entry.messageId !in before then before + [r.entry.messageId] else before
  }

  lemma FirstIdsNext(log: seq<Record>, r: Record, t: string)
    ensures FirstIds(log + [r], t)
         == if OfTxn(r, t) && r.entry.messageId !in FirstIds(log, t) then FirstIds(log, t) + [r.entry.messageId] else FirstIds(log, t)
  {
    assert (log + [r])[..|log|] == log;
  }

  /** The listing is what its description says. */
  lemma {:induction false} ListingIsFirstIds(cfg: Config, log: seq<Record>, t: string)
    ensures var l := ListingOf(cfg, log, t);
            l.Some? ==> l.value.since < |log| && l.value.ids == FirstIds(log[l.value.since..], t)
  {
    if log != [] {
      var before, r := log[..|log| - 1], log[|log| - 1];
      ListingIsFirstIds(cfg, before, t);
      var l := ListingOf(cfg, log, t);
      if l.Some? {
        assert log[l.value.since..] == before[l.value.since..] + [r];
        FirstIdsNext(before[l.value.since..], r, t);
      }
    }
  }

  /** The index in the cache is the listing. */
  lemma {:induction false} IndexIsListing(cfg: Config, log: seq<Record>, t: string)
    requires t != ""
    ensures var c, l := After(cfg, log), ListingOf(cfg, log, t);
            if l.Some? then Txn(t) in c && c[Txn(t)] == Item(Index(l.value.ids), l.value.expires) else Txn(t) !in c
  {
    if log != [] {
      var r := log[|log| - 1];
      IndexIsListing(cfg, log[..|log| - 1], t);
      assert [] + [r.entry.messageId] == [r.entry.messageId];
    }
  }

  /** The last payload stored under an id, while it is unexpired. */
  function LastPayload(cfg: Config, log: seq<Record>, now: int): string -> seq<Entry> {
    (id: string) =>
      match LastOf(log, id)
      case Some(r) => if id != "" && now < r.at + cfg.ttl then [Kept(cfg, r.at, r.entry)] else []
      case None => []
  }

  lemma {:induction false} NothingUnnamed(cfg: Config, log: seq<Record>)
    ensures Msg("") !in After(cfg, log)
  {
    if log != [] {
      NothingUnnamed(cfg, log[..|log| - 1]);
    }
  }

  /** For every log, repeated ids included: the lookup returns the last payload of each id the
      running listing holds, whichever transaction that payload belongs to, in the order of
      the listing. */
  lemma LookupIsTheListing(cfg: Config, log: seq<Record>, now: int, t: string)
    requires t != ""
    ensures var l := ListingOf(cfg, log, t);
            ByTransaction(After(cfg, log), now, t) == if Runs(l, now) then MapCat(l.value.ids, LastPayload(cfg, log, now)) else []
  {
    IndexIsListing(cfg, log, t);
    var c, ids := After(cfg, log), IdsAt(After(cfg, log), now, t);
    forall i | 0 <= i < |ids| ensures EntryAt(c, now)(ids[i]) == LastPayload(cfg, log, now)(ids[i]) {
      if ids[i] == "" {
        NothingUnnamed(cfg, log);
      } else {
        MessageItem(cfg, log, ids[i]);
      }
    }
    MapCatSame(ids, EntryAt(c, now), LastPayload(cfg, log, now));
  }

  /** Messages without a transaction are listed nowhere, and the empty transaction finds
      nothing. */
  lemma {:induction false} NothingUntitled(cfg: Config, log: seq<Record>, now: int)
    ensures Txn("") !in After(cfg, log) && ByTransaction(After(cfg, log), now, "") == []
  {
    if log != [] {
      NothingUntitled(cfg, log[..|log| - 1], now);
    }
  }

  // ------------------------------------------------ when the lookup is the log

  /** No later record has this one's message id. */
  ghost predicate Stands(log: seq<Record>, i: nat)
    requires i < |log|
  {
    forall j :: i < j < |log| ==> log[j].entry.messageId != log[i].entry.messageId
  }

  ghost function StandingTo(cfg: Config, log: seq<Record>, t: string, n: nat): seq<Entry>
    requires n <= |log|
  {
    if n == 0 then []
    else
      StandingTo(cfg, log, t, n - 1)
      + (if OfTxn(log[n - 1], t) && Stands(log, n - 1) then [Kept(cfg, log[n - 1].at, log[n - 1].entry)] else [])
  }

  /** The last-stored entries of a transaction, in the order they were stored. */
  ghost function Standing(cfg: Config, log: seq<Record>, t: string): seq<Entry> {
    StandingTo(cfg, log, t, |log|)
  }

  function StillLive(now: int): Entry -> bool {
    (e: Entry) => now < e.expiresAt
  }

  /** What a lookup ought to return. */
  ghost function CurrentOf(cfg: Config, log: seq<Record>, now: int, t: string): seq<Entry> {
    Filter(Standing(cfg, log, t), StillLive(now))
  }

  /** From this time on, if nothing more is stored, every lookup returns what it ought to. */
  ghost predicate ExactFrom(cfg: Config, c: Cache, log: seq<Record>, from: int, t: string) {
    forall now :: from <= now ==> ByTransaction(c, now, t) == CurrentOf(cfg, log, now, t)
  }

  /** What a caller can look up before a store: of another transaction, the message is not
      listed under this one; of this one, it is not listed, or it is listed behind every
      unexpired message in an index that will outlive it. */
  predicate Safe(cfg: Config, c: Cache, now: int, e: Entry, t: string) {
    var ids := IdsAt(c, now, t);
    e.messageId in ids ==>
      e.transactionId == t && c[Txn(t)].expires >= now + cfg.ttl && LastLive(c, now, ids, e.messageId)
  }

  predicate LastLive(c: Cache, now: int, ids: seq<string>, id: string) {
    forall i, j :: 0 <= i < j < |ids| && ids[i] == id ==> !Live(c, now, Msg(ids[j]))
  }

  function OtherThan(id: string): Entry -> bool {
    (e: Entry) => e.messageId != id
  }

  lemma {:induction false} StandingToNext(cfg: Config, log: seq<Record>, r: Record, t: string, n: nat)
    requires n <= |log|
    ensures StandingTo(cfg, log + [r], t, n) == Filter(StandingTo(cfg, log, t, n), OtherThan(r.entry.messageId))
  {
    if n > 0 {
      StandingToNext(cfg, log, r, t, n - 1);
      var all := log + [r];
      assert all[n - 1] == log[n - 1] && all[|log|] == r;
      assert Stands(all, n - 1) <==> Stands(log, n - 1) && log[n - 1].entry.messageId != r.entry.messageId by {
        assert forall j :: n - 1 < j < |log| ==> all[j] == log[j];
      }
      var k := if OfTxn(log[n - 1], t) && Stands(log, n - 1) then [Kept(cfg, log[n - 1].at, log[n - 1].entry)] else [];
      FilterAppend(StandingTo(cfg, log, t, n - 1), k, OtherThan(r.entry.messageId));
    }
  }

  lemma StandingNext(cfg: Config, log: seq<Record>, r: Record, t: string)
    ensures Standing(cfg, log + [r], t)
         == Filter(Standing(cfg, log, t), OtherThan(r.entry.messageId)) + (if OfTxn(r, t) then [Kept(cfg, r.at, r.entry)] else [])
  {
    StandingToNext(cfg, log, r, t, |log|);
    assert (log + [r])[|log|] == r && Stands(log + [r], |log|);
  }

  lemma CurrentNext(cfg: Config, log: seq<Record>, r: Record, t: string)
    requires cfg.ttl > 0
    ensures CurrentOf(cfg, log + [r], r.at, t)
         == Filter(CurrentOf(cfg, log, r.at, t), OtherThan(r.entry.messageId)) + (if OfTxn(r, t) then [Kept(cfg, r.at, r.entry)] else [])
  {
    StandingNext(cfg, log, r, t);
    var k := if OfTxn(r, t) then [Kept(cfg, r.at, r.entry)] else [];
    FilterAppend(Filter(Standing(cfg, log, t), OtherThan(r.entry.messageId)), k, StillLive(r.at));
    FilterSwap(Standing(cfg, log, t), OtherThan(r.entry.messageId), StillLive(r.at));
    FilterAll(k, StillLive(r.at));
  }

  lemma {:induction false} StandingBound(cfg: Config, log: seq<Record>, last: int, t: string, n: nat)
    requires n <= |log| && Timed(log, last)
    ensures forall x :: x in StandingTo(cfg, log, t, n) ==>
              x.transactionId == t && x.messageId != "" && x.expiresAt <= last + cfg.ttl
  {
    if n > 0 {
      StandingBound(cfg, log, last, t, n - 1);
    }
  }

  /** What every log leaves in the cache: entries under their own ids that say when they
      expire, and indexes that list each id once. */
  ghost predicate WellKept(c: Cache, t: string) {
    && (forall id :: Msg(id) in c ==> id != "" && KeptAs(c[Msg(id)], id))
    && (Txn(t) in c ==> c[Txn(t)].value.Index? && NoRepeats(c[Txn(t)].value.ids) && "" !in c[Txn(t)].value.ids)
  }

  predicate KeptAs(item: Item, id: string) {
    item.value.Payload? && item.value.entry.messageId == id && item.value.entry.expiresAt == item.expires
  }

  predicate NoRepeats(ids: seq<string>) {
    forall i, j :: 0 <= i < j < |ids| ==> ids[i] != ids[j]
  }

  lemma StoreKeepsWell(cfg: Config, c: Cache, now: int, e: Entry, t: string)
    requires WellKept(c, t) && t != ""
    ensures WellKept(StoredIn(cfg, c, now, e), t)
  {
  }

  lemma {:induction false} AlwaysWellKept(cfg: Config, log: seq<Record>, t: string)
    requires t != ""
    ensures WellKept(After(cfg, log), t)
  {
    if log != [] {
      AlwaysWellKept(cfg, log[..|log| - 1], t);
      StoreKeepsWell(cfg, After(cfg, log[..|log| - 1]), log[|log| - 1].at, log[|log| - 1].entry, t);
    }
  }

  /** What a list of ids reaches, all under their own ids and unexpired. */
  lemma {:induction false} ReachedAre(c: Cache, ids: seq<string>, a: int, t: string)
    requires WellKept(c, t)
    ensures forall x :: x in MapCat(ids, EntryAt(c, a)) ==> x.messageId in ids && a < x.expiresAt
  {
    if ids != [] {
      ReachedAre(c, ids[1..], a, t);
    }
  }

  /** Later, a list of ids reaches what is left of what it reached. */
  lemma {:induction false} ReachedLater(c: Cache, ids: seq<string>, a: int, now: int, t: string)
    requires WellKept(c, t) && a <= now
    ensures MapCat(ids, EntryAt(c, now)) == Filter(MapCat(ids, EntryAt(c, a)), StillLive(now))
  {
    if ids != [] {
      ReachedLater(c, ids[1..], a, now, t);
      FilterAppend(EntryAt(c, a)(ids[0]), MapCat(ids[1..], EntryAt(c, a)), StillLive(now));
      OneLater(c, ids[0], a, now, t);
    }
  }

  lemma OneLater(c: Cache, id: string, a: int, now: int, t: string)
    requires WellKept(c, t) && a <= now
    ensures EntryAt(c, now)(id) == Filter(EntryAt(c, a)(id), StillLive(now))
  {
  }

  /** The lookup is right for ever, decided at one moment. */
  ghost predicate ExactAt(cfg: Config, c: Cache, log: seq<Record>, a: int, t: string) {
    var current := CurrentOf(cfg, log, a, t);
    current == ByTransaction(c, a, t)
    && (Live(c, a, Txn(t)) ==> forall x :: x in current ==> x.expiresAt <= c[Txn(t)].expires)
  }

  lemma CurrentLater(cfg: Config, log: seq<Record>, a: int, now: int, t: string)
    requires a <= now
    ensures CurrentOf(cfg, log, now, t) == Filter(CurrentOf(cfg, log, a, t), StillLive(now))
  {
    FilterWeaker(Standing(cfg, log, t), StillLive(a), StillLive(now));
  }

  lemma {:induction false} FilterNone(es: seq<Entry>, now: int)
    ensures Filter(es, StillLive(now)) == [] <==> forall x :: x in es ==> x.expiresAt <= now
  {
    if es != [] {
      FilterNone(es[1..], now);
    }
  }

  lemma ExactStays(cfg: Config, c: Cache, log: seq<Record>, a: int, now: int, t: string)
    requires WellKept(c, t) && a <= now && ExactAt(cfg, c, log, a, t)
    ensures ByTransaction(c, now, t) == CurrentOf(cfg, log, now, t)
  {
    CurrentLater(cfg, log, a, now, t);
    if Live(c, now, Txn(t)) {
      ReachedLater(c, IdsAt(c, a, t), a, now, t);
    } else {
      FilterNone(CurrentOf(cfg, log, a, t), now);
    }
  }

  lemma ExactFromIsAt(cfg: Config, c: Cache, log: seq<Record>, a: int, t: string)
    requires WellKept(c, t)
    ensures ExactFrom(cfg, c, log, a, t) <==> ExactAt(cfg, c, log, a, t)
  {
    if ExactAt(cfg, c, log, a, t) {
      forall now | a <= now ensures ByTransaction(c, now, t) == CurrentOf(cfg, log, now, t) {
        ExactStays(cfg, c, log, a, now, t);
      }
    }
    if ExactFrom(cfg, c, log, a, t) && Live(c, a, Txn(t)) {
      var gone := c[Txn(t)].expires;
      assert ByTransaction(c, gone, t) == CurrentOf(cfg, log, gone, t);
      CurrentLater(cfg, log, a, gone, t);
      FilterNone(CurrentOf(cfg, log, a, t), gone);
    }
  }

  // One store, case by case: `c` is right about the log before it.

  lemma OthersUntouched(cfg: Config, c: Cache, r: Record, ids: seq<string>, now: int)
    requires r.entry.messageId !in ids
    ensures MapCat(ids, EntryAt(StoredIn(cfg, c, r.at, r.entry), now)) == MapCat(ids, EntryAt(c, now))
  {
    MapCatSame(ids, EntryAt(StoredIn(cfg, c, r.at, r.entry), now), EntryAt(c, now));
  }

  lemma CurrentIsListed(cfg: Config, c: Cache, log: seq<Record>, a: int, t: string, id: string)
    requires WellKept(c, t) && ExactAt(cfg, c, log, a, t) && id !in IdsAt(c, a, t)
    ensures Filter(CurrentOf(cfg, log, a, t), OtherThan(id)) == CurrentOf(cfg, log, a, t)
  {
    ReachedAre(c, IdsAt(c, a, t), a, t);
    FilterAll(CurrentOf(cfg, log, a, t), OtherThan(id));
  }

  lemma OtherTxnExact(cfg: Config, c: Cache, log: seq<Record>, r: Record, t: string)
    requires Accepted(cfg) && t != "" && Timed(log, r.at) && WellKept(c, t) && ExactAt(cfg, c, log, r.at, t) && !OfTxn(r, t)
    ensures ExactAt(cfg, StoredIn(cfg, c, r.at, r.entry), log + [r], r.at, t) <==> Safe(cfg, c, r.at, r.entry, t)
  {
    var d, ids, id := StoredIn(cfg, c, r.at, r.entry), IdsAt(c, r.at, t), r.entry.messageId;
    CurrentNext(cfg, log, r, t);
    assert IdsAt(d, r.at, t) == ids;
    if id !in ids {
      OthersUntouched(cfg, c, r, ids, r.at);
      CurrentIsListed(cfg, c, log, r.at, t, id);
    } else {
      ForeignShows(cfg, c, log, r, t);
    }
  }

  /** A listed message stored for another transaction shows up in this one's lookup. */
  lemma ForeignShows(cfg: Config, c: Cache, log: seq<Record>, r: Record, t: string)
    requires Accepted(cfg) && t != "" && Timed(log, r.at) && WellKept(c, t) && !OfTxn(r, t)
    requires r.entry.messageId in IdsAt(c, r.at, t)
    ensures !ExactAt(cfg, StoredIn(cfg, c, r.at, r.entry), log + [r], r.at, t)
    ensures !Safe(cfg, c, r.at, r.entry, t)
  {
    var k := Kept(cfg, r.at, r.entry);
    ForeignFound(cfg, c, r, t);
    if k in CurrentOf(cfg, log + [r], r.at, t) {
      CurrentIsOwn(cfg, log + [r], r.at, t, k);
    }
  }

  lemma ForeignFound(cfg: Config, c: Cache, r: Record, t: string)
    requires cfg.ttl > 0 && t != "" && WellKept(c, t) && !OfTxn(r, t) && r.entry.messageId in IdsAt(c, r.at, t)
    ensures Kept(cfg, r.at, r.entry) in ByTransaction(StoredIn(cfg, c, r.at, r.entry), r.at, t)
    ensures r.entry.transactionId != t
  {
    var d, ids := StoredIn(cfg, c, r.at, r.entry), IdsAt(c, r.at, t);
    MapCatHas(ids, EntryAt(d, r.at), Kept(cfg, r.at, r.entry));
    var i :| 0 <= i < |ids| && ids[i] == r.entry.messageId;
    assert Kept(cfg, r.at, r.entry) in EntryAt(d, r.at)(ids[i]);
  }

  lemma CurrentIsOwn(cfg: Config, log: seq<Record>, a: int, t: string, x: Entry)
    requires Timed(log, a) && x in CurrentOf(cfg, log, a, t)
    ensures x.transactionId == t
  {
    StandingBound(cfg, log, a, t, |log|);
    FilterHas(Standing(cfg, log, t), StillLive(a), x);
  }

  lemma NewlyListedExact(cfg: Config, c: Cache, log: seq<Record>, r: Record, t: string)
    requires Accepted(cfg) && t != "" && Timed(log, r.at) && WellKept(c, t) && ExactAt(cfg, c, log, r.at, t)
    requires OfTxn(r, t) && r.entry.messageId !in IdsAt(c, r.at, t)
    ensures ExactAt(cfg, StoredIn(cfg, c, r.at, r.entry), log + [r], r.at, t)
  {
    var d, ids, id := StoredIn(cfg, c, r.at, r.entry), IdsAt(c, r.at, t), r.entry.messageId;
    CurrentNext(cfg, log, r, t);
    CurrentIsListed(cfg, c, log, r.at, t, id);
    OthersUntouched(cfg, c, r, ids, r.at);
    MapCatAppend(ids, [id], EntryAt(d, r.at));
    MapCatOne(id, EntryAt(d, r.at));
    assert IdsAt(d, r.at, t) == ids + [id];
    CurrentBound(cfg, log, r.at, t);
  }

  lemma CurrentBound(cfg: Config, log: seq<Record>, a: int, t: string)
    requires Timed(log, a)
    ensures forall x :: x in CurrentOf(cfg, log, a, t) ==> x.expiresAt <= a + cfg.ttl
  {
    StandingBound(cfg, log, a, t, |log|);
    forall x | x in CurrentOf(cfg, log, a, t) ensures x in Standing(cfg, log, t) {
      FilterHas(Standing(cfg, log, t), StillLive(a), x);
    }
  }

  /** A list cut at one of its ids. */
  lemma CutReach(c: Cache, before: seq<string>, id: string, behind: seq<string>, now: int)
    ensures MapCat(before + [id] + behind, EntryAt(c, now))
         == MapCat(before, EntryAt(c, now)) + EntryAt(c, now)(id) + MapCat(behind, EntryAt(c, now))
  {
    MapCatAppend(before + [id], behind, EntryAt(c, now));
    MapCatAppend(before, [id], EntryAt(c, now));
    MapCatOne(id, EntryAt(c, now));
  }

  lemma {:induction false} ReachesNothing(c: Cache, ids: seq<string>, now: int, t: string)
    requires WellKept(c, t)
    ensures MapCat(ids, EntryAt(c, now)) == [] <==> forall id :: id in ids ==> !Live(c, now, Msg(id))
  {
    if ids != [] {
      ReachesNothing(c, ids[1..], now, t);
      assert forall id :: id in ids <==> id == ids[0] || id in ids[1..];
    }
  }

  lemma FilterAround(pre: seq<Entry>, own: seq<Entry>, post: seq<Entry>, id: string)
    requires (forall x :: x in pre || x in post ==> x.messageId != id) && (own == [] || (|own| == 1 && own[0].messageId == id))
    ensures Filter(pre + own + post, OtherThan(id)) == pre + post
  {
    FilterAppend(pre + own, post, OtherThan(id));
    FilterAppend(pre, own, OtherThan(id));
    FilterAll(pre, OtherThan(id));
    FilterAll(post, OtherThan(id));
    assert Filter(own, OtherThan(id)) == [] && pre + [] == pre;
  }

  /** Taking a message out of a lookup leaves what is listed around it. */
  lemma AroundIt(c: Cache, before: seq<string>, id: string, behind: seq<string>, now: int, t: string)
    requires WellKept(c, t) && id !in before && id !in behind
    ensures Filter(MapCat(before + [id] + behind, EntryAt(c, now)), OtherThan(id))
         == MapCat(before, EntryAt(c, now)) + MapCat(behind, EntryAt(c, now))
  {
    CutReach(c, before, id, behind, now);
    ReachedAre(c, before, now, t);
    ReachedAre(c, behind, now, t);
    FilterAround(MapCat(before, EntryAt(c, now)), EntryAt(c, now)(id), MapCat(behind, EntryAt(c, now)), id);
  }

  lemma InOrder(pre: seq<Entry>, k: Entry, post: seq<Entry>)
    requires k !in post
    ensures pre + [k] + post == pre + post + [k] <==> post == []
  {
    if post != [] {
      assert (pre + [k] + post)[|pre| + |post|] == post[|post| - 1];
      assert (pre + post + [k])[|pre| + |post|] == k;
    }
  }

  /** The lookup with the new payload in the message's old place. */
  lemma ReachAgain(cfg: Config, c: Cache, r: Record, before: seq<string>, behind: seq<string>)
    requires cfg.ttl > 0 && r.entry.messageId != "" && r.entry.messageId !in before && r.entry.messageId !in behind
    ensures MapCat(before + [r.entry.messageId] + behind, EntryAt(StoredIn(cfg, c, r.at, r.entry), r.at))
         == MapCat(before, EntryAt(c, r.at)) + [Kept(cfg, r.at, r.entry)] + MapCat(behind, EntryAt(c, r.at))
  {
    CutReach(StoredIn(cfg, c, r.at, r.entry), before, r.entry.messageId, behind, r.at);
    OthersUntouched(cfg, c, r, before, r.at);
    OthersUntouched(cfg, c, r, behind, r.at);
  }

  lemma ListedAgainReach(cfg: Config, c: Cache, log: seq<Record>, r: Record, t: string, before: seq<string>, behind: seq<string>)
    requires Accepted(cfg) && t != "" && WellKept(c, t) && OfTxn(r, t)
    requires r.entry.messageId !in before && r.entry.messageId !in behind
    requires CurrentOf(cfg, log, r.at, t) == MapCat(before + [r.entry.messageId] + behind, EntryAt(c, r.at))
    ensures CurrentOf(cfg, log + [r], r.at, t)
         == MapCat(before + [r.entry.messageId] + behind, EntryAt(StoredIn(cfg, c, r.at, r.entry), r.at))
       <==> MapCat(behind, EntryAt(c, r.at)) == []
  {
    CurrentNext(cfg, log, r, t);
    AroundIt(c, before, r.entry.messageId, behind, r.at, t);
    ReachAgain(cfg, c, r, before, behind);
    ReachedAre(c, behind, r.at, t);
    InOrder(MapCat(before, EntryAt(c, r.at)), Kept(cfg, r.at, r.entry), MapCat(behind, EntryAt(c, r.at)));
  }

  lemma BehindIt(c: Cache, now: int, before: seq<string>, id: string, behind: seq<string>)
    requires id !in before && id !in behind
    ensures LastLive(c, now, before + [id] + behind, id) <==> forall x :: x in behind ==> !Live(c, now, Msg(x))
  {
    var ids := before + [id] + behind;
    if LastLive(c, now, ids, id) {
      forall x | x in behind ensures !Live(c, now, Msg(x)) {
        var j :| 0 <= j < |behind| && behind[j] == x;
        assert ids[|before|] == id && ids[|before| + 1 + j] == x;
      }
    } else {
      var i, j :| 0 <= i < j < |ids| && ids[i] == id && Live(c, now, Msg(ids[j]));
      assert i == |before| && ids[j] == behind[j - |before| - 1];
    }
  }

  /** Where in a list without repeats an id stands. */
  lemma CutAt(ids: seq<string>, id: string) returns (before: seq<string>, behind: seq<string>)
    requires NoRepeats(ids) && id in ids
    ensures ids == before + [id] + behind && id !in before && id !in behind
  {
    var p :| 0 <= p < |ids| && ids[p] == id;
    before, behind := ids[..p], ids[p + 1..];
  }

  lemma NoneOutlives(cfg: Config, c: Cache, log: seq<Record>, r: Record, t: string)
    requires cfg.ttl > 0 && ExactAt(cfg, c, log, r.at, t) && OfTxn(r, t) && Live(c, r.at, Txn(t))
    ensures (forall x :: x in CurrentOf(cfg, log + [r], r.at, t) ==> x.expiresAt <= c[Txn(t)].expires)
       <==> r.at + cfg.ttl <= c[Txn(t)].expires
  {
    CurrentNext(cfg, log, r, t);
    var current := CurrentOf(cfg, log, r.at, t);
    forall x | x in Filter(current, OtherThan(r.entry.messageId)) ensures x in current {
      FilterHas(current, OtherThan(r.entry.messageId), x);
    }
    assert Kept(cfg, r.at, r.entry) in CurrentOf(cfg, log + [r], r.at, t);
  }

  lemma ListedAgainExact(cfg: Config, c: Cache, log: seq<Record>, r: Record, t: string)
    requires Accepted(cfg) && t != "" && WellKept(c, t) && ExactAt(cfg, c, log, r.at, t)
    requires OfTxn(r, t) && r.entry.messageId in IdsAt(c, r.at, t)
    ensures ExactAt(cfg, StoredIn(cfg, c, r.at, r.entry), log + [r], r.at, t) <==> Safe(cfg, c, r.at, r.entry, t)
  {
    var before, behind := CutAt(IdsAt(c, r.at, t), r.entry.messageId);
    ListedAgainReach(cfg, c, log, r, t, before, behind);
    SafeToRepeat(cfg, c, r, t, before, behind);
    NoneOutlives(cfg, c, log, r, t);
    IndexUntouched(cfg, c, r, t);
  }

  lemma SafeToRepeat(cfg: Config, c: Cache, r: Record, t: string, before: seq<string>, behind: seq<string>)
    requires WellKept(c, t) && OfTxn(r, t) && IdsAt(c, r.at, t) == before + [r.entry.messageId] + behind
    requires r.entry.messageId !in before && r.entry.messageId !in behind
    ensures Safe(cfg, c, r.at, r.entry, t) <==> c[Txn(t)].expires >= r.at + cfg.ttl && MapCat(behind, EntryAt(c, r.at)) == []
  {
    ReachesNothing(c, behind, r.at, t);
    BehindIt(c, r.at, before, r.entry.messageId, behind);
    assert (before + [r.entry.messageId] + behind)[|before|] == r.entry.messageId;
  }

  lemma IndexUntouched(cfg: Config, c: Cache, r: Record, t: string)
    requires OfTxn(r, t) && t != "" && r.entry.messageId in IdsAt(c, r.at, t)
    ensures var d := StoredIn(cfg, c, r.at, r.entry);
            Txn(t) in c && Txn(t) in d && d[Txn(t)] == c[Txn(t)] && IdsAt(d, r.at, t) == IdsAt(c, r.at, t)
  {
  }

  /** Storing keeps every later lookup of a transaction what it ought to be if and only if
      the store was safe for it. */
  lemma StoreIsExact(cfg: Config, log: seq<Record>, r: Record, t: string)
    requires Accepted(cfg) && t != "" && Timed(log, r.at)
    requires ExactFrom(cfg, After(cfg, log), log, r.at, t)
    ensures ExactFrom(cfg, After(cfg, log + [r]), log + [r], r.at, t) <==> Safe(cfg, After(cfg, log), r.at, r.entry, t)
  {
    var c := After(cfg, log);
    AfterNext(cfg, log, r);
    AlwaysWellKept(cfg, log, t);
    AlwaysWellKept(cfg, log + [r], t);
    ExactFromIsAt(cfg, c, log, r.at, t);
    ExactFromIsAt(cfg, After(cfg, log + [r]), log + [r], r.at, t);
    if !OfTxn(r, t) {
      OtherTxnExact(cfg, c, log, r, t);
    } else if r.entry.messageId in IdsAt(c, r.at, t) {
      ListedAgainExact(cfg, c, log, r, t);
    } else {
      NewlyListedExact(cfg, c, log, r, t);
    }
  }

  /** At every moment of the log, every later lookup is what it ought to be. */
  ghost predicate AlwaysExact(cfg: Config, log: seq<Record>, t: string) {
    log == [] || (AlwaysExact(cfg, log[..|log| - 1], t) && ExactFrom(cfg, After(cfg, log), log, log[|log| - 1].at, t))
  }

  predicate AlwaysSafe(cfg: Config, log: seq<Record>, t: string) {
    log == []
    || var before, r := log[..|log| - 1], log[|log| - 1];
       AlwaysSafe(cfg, before, t) && Safe(cfg, After(cfg, before), r.at, r.entry, t)
  }

  /** For every timed log, repeated ids included: the transaction's lookups are always its
      unexpired last-stored entries in the order they were stored if and only if every store
      was safe for it. */
  lemma {:induction false} ExactIffSafe(cfg: Config, log: seq<Record>, last: int, t: string)
    requires Accepted(cfg) && t != "" && Timed(log, last)
    ensures AlwaysExact(cfg, log, t) <==> AlwaysSafe(cfg, log, t)
  {
    if log != [] {
      var before, r := log[..|log| - 1], log[|log| - 1];
      assert log == before + [r];
      ExactIffSafe(cfg, before, r.at, t);
      if AlwaysExact(cfg, before, t) {
        StillExact(cfg, before, r.at, t);
        StoreIsExact(cfg, before, r, t);
      }
    }
  }

  lemma StillExact(cfg: Config, log: seq<Record>, at: int, t: string)
    requires AlwaysExact(cfg, log, t) && Timed(log, at)
    ensures ExactFrom(cfg, After(cfg, log), log, at, t)
  {
  }

  // ------------------------------------------------------------ distinct ids

  predicate Distinct(log: seq<Record>) {
    forall i, j :: 0 <= i < j < |log| ==> log[i].entry.messageId != log[j].entry.messageId
  }

  /** The unexpired entries of a transaction, in the order they were stored. */
  function LiveOf(cfg: Config, log: seq<Record>, now: int, t: string): seq<Entry> {
    if log == [] then []
    else
      var r := log[|log| - 1];
      LiveOf(cfg, log[..|log| - 1], now, t)
      + (if OfTxn(r, t) && now < r.at + cfg.ttl then [Kept(cfg, r.at, r.entry)] else [])
  }

  lemma {:induction false} AllStand(cfg: Config, log: seq<Record>, now: int, t: string, n: nat)
    requires Distinct(log) && n <= |log|
    ensures Filter(StandingTo(cfg, log, t, n), StillLive(now)) == LiveOf(cfg, log[..n], now, t)
  {
    if n > 0 {
      AllStand(cfg, log, now, t, n - 1);
      assert log[..n][..n - 1] == log[..n - 1] && Stands(log, n - 1);
      var k := if OfTxn(log[n - 1], t) then [Kept(cfg, log[n - 1].at, log[n - 1].entry)] else [];
      FilterAppend(StandingTo(cfg, log, t, n - 1), k, StillLive(now));
    }
  }

  lemma {:induction false} ListedAreStored(cfg: Config, log: seq<Record>, t: string, id: string)
    requires ListingOf(cfg, log, t).Some? && id in ListingOf(cfg, log, t).value.ids
    ensures exists i :: 0 <= i < |log| && log[i].entry.messageId == id
  {
    var before, r := log[..|log| - 1], log[|log| - 1];
    if r.entry.messageId != id {
      ListedAreStored(cfg, before, t, id);
      var i :| 0 <= i < |before| && before[i].entry.messageId == id;
      assert log[i] == before[i];
    }
  }

  lemma {:induction false} DistinctIsSafe(cfg: Config, log: seq<Record>, t: string)
    requires t != "" && Distinct(log)
    ensures AlwaysSafe(cfg, log, t)
  {
    if log != [] {
      var before, r := log[..|log| - 1], log[|log| - 1];
      DistinctIsSafe(cfg, before, t);
      IndexIsListing(cfg, before, t);
      if r.entry.messageId in IdsAt(After(cfg, before), r.at, t) {
        ListedAreStored(cfg, before, t, r.entry.messageId);
      }
    }
  }

  /** For every timed log of distinct messages, at every later time, the lookup returns
      exactly the transaction's unexpired entries, in the order they were stored. */
  lemma LookupIsTheLog(cfg: Config, log: seq<Record>, now: int, t: string)
    requires Accepted(cfg) && t != "" && Timed(log, now) && Distinct(log)
    ensures ByTransaction(After(cfg, log), now, t) == LiveOf(cfg, log, now, t)
  {
    DistinctIsSafe(cfg, log, t);
    ExactIffSafe(cfg, log, now, t);
    StillExact(cfg, log, now, t);
    AllStand(cfg, log, now, t, |log|);
    assert log[..|log|] == log;
  }

  // ------------------------------------------------- the three ways it goes wrong

  lemma ListingNext(cfg: Config, log: seq<Record>, r: Record, t: string)
    ensures ListingOf(cfg, log + [r], t) == Relisted(cfg, ListingOf(cfg, log, t), r, |log|, t)
  {
    assert (log + [r])[..|log|] == log;
  }

  lemma LastOfNext(log: seq<Record>, r: Record, id: string)
    ensures LastOf(log + [r], id) == if r.entry.messageId == id then Some(r) else LastOf(log, id)
  {
    assert (log + [r])[..|log|] == log;
  }

  predicate Stored(e: Entry) { e.messageId != "" && e.transactionId != "" }

  lemma ListedFirst(cfg: Config, e: Entry, at: int, t: string)
    requires Stored(e)
    ensures ListingOf(cfg, [Record(at, e)], t)
         == if e.transactionId == t then Some(Listing([e.messageId], at + cfg.indexTtl, 0)) else None
  {
    assert [] + [Record(at, e)] == [Record(at, e)];
    ListingNext(cfg, [], Record(at, e), t);
  }

  /** It is lost: a message stored again before its index lapses is not found by transaction
      from then until it expires, although it is found by message. With lifetimes of 10 and
      11 and stores at 0 and 9, that is from 11 to 19. */
  lemma RestoredIsLost(cfg: Config, e: Entry, first: int, again: int, now: int)
    requires Accepted(cfg) && Stored(e) && first <= again < first + cfg.indexTtl <= now < again + cfg.ttl
    ensures var log := [Record(first, e)] + [Record(again, e)];
            && ByTransaction(After(cfg, log), now, e.transactionId) == []
            && ByMessage(After(cfg, log), now, e.messageId, "") == Some(Kept(cfg, again, e))
  {
    var one, log := [Record(first, e)], [Record(first, e)] + [Record(again, e)];
    ListedFirst(cfg, e, first, e.transactionId);
    ListingNext(cfg, one, Record(again, e), e.transactionId);
    LookupIsTheListing(cfg, log, now, e.transactionId);
    LastOfNext(one, Record(again, e), e.messageId);
    MessageLookup(cfg, log, now, e.messageId, "");
  }

  /** It is someone else's: a message stored again for another transaction is found under the
      first one for as long as the index and the message both last. */
  lemma RestoredElsewhere(cfg: Config, e: Entry, f: Entry, first: int, again: int, now: int)
    requires Accepted(cfg) && Stored(e) && Stored(f) && f.messageId == e.messageId && f.transactionId != e.transactionId
    requires first <= again <= now < again + cfg.ttl && now < first + cfg.indexTtl
    ensures var log := [Record(first, e)] + [Record(again, f)];
            ByTransaction(After(cfg, log), now, e.transactionId) == [Kept(cfg, again, f)]
  {
    var one, log := [Record(first, e)], [Record(first, e)] + [Record(again, f)];
    ListedFirst(cfg, e, first, e.transactionId);
    ListingNext(cfg, one, Record(again, f), e.transactionId);
    LookupIsTheListing(cfg, log, now, e.transactionId);
    LastOfNext(one, Record(again, f), e.messageId);
    MapCatOne(e.messageId, LastPayload(cfg, log, now));
  }

  /** It is out of order: a message stored again keeps its first place, before messages that
      were stored before it. */
  lemma RestoredKeepsItsPlace(cfg: Config, e: Entry, f: Entry, first: int, other: int, again: int)
    requires Accepted(cfg) && Stored(e) && Stored(f) && f.messageId != e.messageId && f.transactionId == e.transactionId
    requires first <= other < first + cfg.indexTtl && other <= again < other + cfg.ttl
    ensures var log := [Record(first, e)] + [Record(other, f)] + [Record(again, e)];
            ByTransaction(After(cfg, log), again, e.transactionId) == [Kept(cfg, again, e), Kept(cfg, other, f)]
  {
    var one := [Record(first, e)];
    var two := one + [Record(other, f)];
    ListedTwice(cfg, e, f, first, other);
    ListingNext(cfg, two, Record(again, e), e.transactionId);
    LookupIsTheListing(cfg, two + [Record(again, e)], again, e.transactionId);
    BothPayloads(e.messageId, f.messageId, LastPayload(cfg, two + [Record(again, e)], again));
    LastOfNext(two, Record(again, e), e.messageId);
    LastOfNext(two, Record(again, e), f.messageId);
    LastOfNext(one, Record(other, f), f.messageId);
  }

  lemma ListedTwice(cfg: Config, e: Entry, f: Entry, first: int, other: int)
    requires Stored(e) && Stored(f) && f.messageId != e.messageId && f.transactionId == e.transactionId
    requires first <= other < first + cfg.indexTtl
    ensures ListingOf(cfg, [Record(first, e)] + [Record(other, f)], e.transactionId)
         == Some(Listing([e.messageId] + [f.messageId], other + cfg.indexTtl, 0))
  {
    ListedFirst(cfg, e, first, e.transactionId);
    ListingNext(cfg, [Record(first, e)], Record(other, f), e.transactionId);
  }

  lemma BothPayloads(a: string, b: string, g: string -> seq<Entry>)
    ensures MapCat([a] + [b], g) == g(a) + g(b)
  {
    MapCatAppend([a], [b], g);
    MapCatOne(a, g);
    MapCatOne(b, g);
  }
}
