/** A store of payloads over a cache whose items expire: one item per message, and per
    transaction an index of its messages. */
module PayloadStore {
  import opened Options
  import opened Sequences

  // ------------------------------------------------------------ configuration

  const DEFAULT_TTL := 86400
  const HOUR := 3600

  /** Durations are in seconds; a body limit of zero means none. */
  datatype Config = Config(ttl: int, indexTtl: int, maxBodyBytes: nat, storeBody: bool, storeSignature: bool)

  /** The two lifetimes, defaulted and checked. */
  function Lifetimes(ttl: Option<int>, indexTtl: Option<int>): (r: Option<(int, int)>)
    ensures r.Some? ==> 0 < r.value.0 <= r.value.1
    ensures r.Some? ==> r.value.0 == (if ttl.Some? then ttl.value else 24 * 60 * 60)
    ensures r.Some? ==> r.value.1 == (if indexTtl.Some? then indexTtl.value else r.value.0 + 60 * 60)
    ensures r.None? <==> (ttl.Some? && ttl.value <= 0) || (indexTtl.Some? && indexTtl.value < (if ttl.Some? then ttl.value else DEFAULT_TTL))
  {
    var life := if ttl.Some? then ttl.value else DEFAULT_TTL;
    if life <= 0 then None
    else
      var index := if indexTtl.Some? then indexTtl.value else life + HOUR;
      if index < life then None else Some((life, index))
  }

  predicate Accepted(cfg: Config) { 0 < cfg.ttl <= cfg.indexTtl }

  // --------------------------------------------------------------------- keys

  /** What a key stands for, and the text the cache knows it by. */
  datatype Key = Msg(id: string) | Txn(id: string)

  function Text(namespace: string, k: Key): string {
    match k
    case Msg(id) => "payload:" + namespace + ":msg:" + id
    case Txn(id) => "payload:" + namespace + ":txn:" + id + ":index"
  }

  lemma SamePrefix(p: string, a: string, b: string)
    requires p + a == p + b
    ensures a == b
  {
    assert (p + a)[|p|..] == a && (p + b)[|p|..] == b;
  }

  /** No two keys of one namespace share their text, whatever the ids hold: neither two
      messages, nor two transactions, nor one of each. */
  lemma TextTellsKeys(namespace: string, j: Key, k: Key)
    requires Text(namespace, j) == Text(namespace, k)
    ensures j == k
  {
    var p := "payload:" + namespace;
    assert Text(namespace, j)[|p| + 1] == if j.Msg? then 'm' else 't';
    assert Text(namespace, k)[|p| + 1] == if k.Msg? then 'm' else 't';
    if j.Msg? {
      SamePrefix(p + ":msg:", j.id, k.id);
    } else {
      assert Text(namespace, j) == p + ":txn:" + (j.id + ":index");
      assert Text(namespace, k) == p + ":txn:" + (k.id + ":index");
      SamePrefix(p + ":txn:", j.id + ":index", k.id + ":index");
      assert (j.id + ":index")[..|j.id|] == j.id && (k.id + ":index")[..|k.id|] == k.id;
    }
  }

  // --------------------------------------------------------------- the entries

  datatype Entry = Entry(
    messageId: string,
    transactionId: string,
    networkId: string,
    action: string,
    subscriberId: string,
    role: string,
    body: seq<int>,
    signature: string,
    storedAt: int,
    expiresAt: int)

  /** What the policies leave of an entry stored at this time. */
  function Kept(cfg: Config, now: int, e: Entry): Entry {
    var body := if cfg.storeBody then e.body else [];
    e.(body := if 0 < cfg.maxBodyBytes < |body| then body[..cfg.maxBodyBytes] else body,
       signature := if cfg.storeSignature then e.signature else "",
       storedAt := now,
       expiresAt := now + cfg.ttl)
  }

  // ----------------------------------------------------------------- the cache

  datatype Value = Payload(entry: Entry) | Index(ids: seq<string>)

  datatype Item = Item(value: Value, expires: int)

  /** The cache: an item is there until its time. */
  type Cache = map<Key, Item>

  predicate Live(c: Cache, now: int, k: Key) {
    k in c && now < c[k].expires
  }

  /** The ids a transaction's index lists: none if it is gone or is no index. */
  function IdsAt(c: Cache, now: int, t: string): seq<string> {
    if Live(c, now, Txn(t)) && c[Txn(t)].value.Index? then c[Txn(t)].value.ids else []
  }

  function EntryAt(c: Cache, now: int): string -> seq<Entry> {
    (id: string) => if Live(c, now, Msg(id)) && c[Msg(id)].value.Payload? then [c[Msg(id)].value.entry] else []
  }

  /** Writes the message, and lists it under its transaction unless it is listed. */
  function Persist(cfg: Config, c: Cache, now: int, e: Entry): Cache {
    var d := c[Msg(e.messageId) := Item(Payload(Kept(cfg, now, e)), now + cfg.ttl)];
    var ids := IdsAt(d, now, e.transactionId);
    if e.transactionId == "" || e.messageId in ids then d
    else d[Txn(e.transactionId) := Item(Index(ids + [e.messageId]), now + cfg.indexTtl)]
  }

  /** A message without an id is not stored. */
  function StoredIn(cfg: Config, c: Cache, now: int, e: Entry): Cache {
    if e.messageId == "" then c else Persist(cfg, c, now, e)
  }

  function ByTransaction(c: Cache, now: int, t: string): seq<Entry> {
    MapCat(IdsAt(c, now, t), EntryAt(c, now))
  }

  // ----------------------------------------------------------------- the store

  class Store {
    const cfg: Config
    var cache: Cache

    constructor (cfg: Config)
      ensures this.cfg == cfg && cache == map[]
    {
      this.cfg, cache := cfg, map[];
    }

    method SetItem(now: int, k: Key, v: Value, ttl: int)
      modifies this
      ensures cache == old(cache)[k := Item(v, now + ttl)]
    {
      cache := cache[k := Item(v, now + ttl)];
    }

    method StorePayload(now: int, e: Entry)
      modifies this
      ensures cache == StoredIn(cfg, old(cache), now, e)
    {
      if e.messageId == "" {
        return;
      }
      SetItem(now, Msg(e.messageId), Payload(Kept(cfg, now, e)), cfg.ttl);
      if e.transactionId != "" {
        AppendToIndex(now, e.transactionId, e.messageId);
      }
    }

    method AppendToIndex(now: int, t: string, id: string)
      modifies this
      ensures cache == var ids := IdsAt(old(cache), now, t);
                       if id in ids then old(cache) else old(cache)[Txn(t) := Item(Index(ids + [id]), now + cfg.indexTtl)]
    {
      var ids := IdsAt(cache, now, t);
      for i := 0 to |ids|
        invariant id !in ids[..i]
        invariant cache == old(cache)
      {
        if ids[i] == id {
          return;
        }
      }
      assert ids[..|ids|] == ids;
      SetItem(now, Txn(t), Index(ids + [id]), cfg.indexTtl);
    }

    method GetByTransactionId(now: int, t: string) returns (entries: seq<Entry>)
      ensures entries == ByTransaction(cache, now, t)
    {
      var ids := IdsAt(cache, now, t);
      entries := [];
      for i := 0 to |ids|
        invariant entries + MapCat(ids[i..], EntryAt(cache, now)) == ByTransaction(cache, now, t)
      {
        assert ids[i..][1..] == ids[i + 1..];
        entries := entries + EntryAt(cache, now)(ids[i]);
      }
    }

    /** An empty action asks for any. */
    method GetByMessageId(now: int, id: string, action: string) returns (r: Option<Entry>)
      ensures r == ByMessage(cache, now, id, action)
    {
      var found := EntryAt(cache, now)(id);
      if |found| == 0 || (action != "" && found[0].action != action) {
        return None;
      }
      return Some(found[0]);
    }
  }

  function ByMessage(c: Cache, now: int, id: string, action: string): Option<Entry> {
    var found := EntryAt(c, now)(id);
    if found != [] && (action == "" || found[0].action == action) then Some(found[0]) else None
  }

  // ------------------------------------------------------------- the store's log

  datatype Record = Record(at: int, entry: Entry)

  function After(cfg: Config, log: seq<Record>): Cache {
    if log == [] then map[]
    else StoredIn(cfg, After(cfg, log[..|log| - 1]), log[|log| - 1].at, log[|log| - 1].entry)
  }

  lemma AfterNext(cfg: Config, log: seq<Record>, r: Record)
    ensures After(cfg, log + [r]) == StoredIn(cfg, After(cfg, log), r.at, r.entry)
  {
    assert (log + [r])[..|log|] == log;
  }

  predicate Timed(log: seq<Record>, now: int) {
    && (forall i, j :: 0 <= i < j < |log| ==> log[i].at <= log[j].at)
    && forall i :: 0 <= i < |log| ==> log[i].at <= now
  }

  /** The records of a transaction. */
  predicate OfTxn(r: Record, t: string) {
    r.entry.messageId != "" && r.entry.transactionId == t
  }

  // ----------------------------------------------------------- lookup by message

  function LastOf(log: seq<Record>, id: string): Option<Record> {
    if log == [] then None
    else if log[|log| - 1].entry.messageId == id then Some(log[|log| - 1])
    else LastOf(log[..|log| - 1], id)
  }

  lemma {:induction false} MessageItem(cfg: Config, log: seq<Record>, id: string)
    requires id != ""
    ensures var c, last := After(cfg, log), LastOf(log, id);
            if last.None? then Msg(id) !in c
            else Msg(id) in c && c[Msg(id)] == Item(Payload(Kept(cfg, last.value.at, last.value.entry)), last.value.at + cfg.ttl)
  {
    if log != [] {
      MessageItem(cfg, log[..|log| - 1], id);
    }
  }

  /** By message the store always answers with the last payload stored under the id, if it
      is unexpired and of the action asked for, however often the id was stored. */
  lemma MessageLookup(cfg: Config, log: seq<Record>, now: int, id: string, action: string)
    requires id != ""
    ensures var found, last := ByMessage(After(cfg, log), now, id, action), LastOf(log, id);
            if last.Some? && now < last.value.at + cfg.ttl && (action == "" || last.value.entry.action == action)
            then found == Some(Kept(cfg, last.value.at, last.value.entry)) else found == None
  {
    MessageItem(cfg, log, id);
  }

  // ------------------------------------------------------------- the policies

  /** Nothing the configuration forbids: no body or no signature where they are not to be
      stored, and no body over the limit. */
  predicate Obeys(cfg: Config, x: Entry) {
    && (!cfg.storeBody ==> x.body == [])
    && (!cfg.storeSignature ==> x.signature == "")
    && (cfg.maxBodyBytes > 0 ==> |x.body| <= cfg.maxBodyBytes)
    && x.expiresAt == x.storedAt + cfg.ttl
  }

  /** And everything else: the policies cut a body at the limit and drop what is forbidden, and
      change nothing more. */
  lemma KeptObeys(cfg: Config, now: int, e: Entry)
    ensures var x := Kept(cfg, now, e);
            && Obeys(cfg, x) && x.storedAt == now
            && x.body <= e.body
            && (cfg.storeBody && (cfg.maxBodyBytes == 0 || |e.body| <= cfg.maxBodyBytes) ==> x.body == e.body)
            && (cfg.storeBody && 0 < cfg.maxBodyBytes <= |e.body| ==> |x.body| == cfg.maxBodyBytes)
            && (cfg.storeSignature ==> x.signature == e.signature)
            && x.messageId == e.messageId && x.transactionId == e.transactionId && x.networkId == e.networkId
            && x.action == e.action && x.subscriberId == e.subscriberId && x.role == e.role
  {
  }

  ghost predicate AllObey(cfg: Config, c: Cache) {
    forall k :: k in c && c[k].value.Payload? ==> Obeys(cfg, c[k].value.entry)
  }

  lemma {:induction false} StoredObey(cfg: Config, log: seq<Record>)
    ensures AllObey(cfg, After(cfg, log))
  {
    if log != [] {
      StoredObey(cfg, log[..|log| - 1]);
      KeptObeys(cfg, log[|log| - 1].at, log[|log| - 1].entry);
    }
  }

  /** For every log, no lookup ever returns what the configuration forbids. */
  lemma LookupsObey(cfg: Config, log: seq<Record>, now: int, t: string, id: string, action: string)
    ensures forall x :: x in ByTransaction(After(cfg, log), now, t) ==> Obeys(cfg, x)
    ensures ByMessage(After(cfg, log), now, id, action).Some? ==> Obeys(cfg, ByMessage(After(cfg, log), now, id, action).value)
  {
    StoredObey(cfg, log);
    var c := After(cfg, log);
    forall x | x in ByTransaction(c, now, t) ensures Obeys(cfg, x) {
      MapCatHas(IdsAt(c, now, t), EntryAt(c, now), x);
    }
  }

  // ------------------------------------------------------- storing an id again

  /** From this time on, no unexpired entry of the transaction is missing from its index. */
  ghost predicate Complete(c: Cache, from: int, t: string) {
    forall now, id :: from <= now && Unexpired(c, now, id, t) ==> id in IdsAt(c, now, t)
  }

  predicate Unexpired(c: Cache, now: int, id: string, t: string) {
    Live(c, now, Msg(id)) && c[Msg(id)].value.Payload? && c[Msg(id)].value.entry.transactionId == t
  }

  /** The message is already listed, in an index that will lapse before it does. */
  predicate Lapses(cfg: Config, c: Cache, now: int, e: Entry) {
    e.messageId in IdsAt(c, now, e.transactionId) && c[Txn(e.transactionId)].expires < now + cfg.ttl
  }

  lemma RestoreCovers(cfg: Config, c: Cache, at: int, e: Entry, now: int, id: string)
    requires Accepted(cfg) && e.messageId != "" && e.transactionId != "" && at <= now
    requires Complete(c, at, e.transactionId) && !Lapses(cfg, c, at, e)
    requires Txn(e.transactionId) in c ==> c[Txn(e.transactionId)].expires <= at + cfg.indexTtl
    requires Unexpired(StoredIn(cfg, c, at, e), now, id, e.transactionId)
    ensures id in IdsAt(StoredIn(cfg, c, at, e), now, e.transactionId)
  {
    if id != e.messageId {
      assert Unexpired(c, now, id, e.transactionId);
    }
  }

  /** Storing a message keeps its transaction's index complete exactly if it does not hit
      the early return on an index that is due to lapse first. */
  lemma RestoreIsExact(cfg: Config, c: Cache, at: int, e: Entry)
    requires Accepted(cfg) && e.messageId != "" && e.transactionId != ""
    requires Complete(c, at, e.transactionId)
    requires Txn(e.transactionId) in c ==> c[Txn(e.transactionId)].expires <= at + cfg.indexTtl
    ensures Complete(StoredIn(cfg, c, at, e), at, e.transactionId) <==> !Lapses(cfg, c, at, e)
  {
    var d, t := StoredIn(cfg, c, at, e), e.transactionId;
    if Lapses(cfg, c, at, e) {
      var gone := c[Txn(t)].expires;
      assert Unexpired(d, gone, e.messageId, t);
      assert IdsAt(d, gone, t) == [];
    } else {
      forall now, id | at <= now && Unexpired(d, now, id, t) ensures id in IdsAt(d, now, t) {
        RestoreCovers(cfg, c, at, e, now, id);
      }
    }
  }

  lemma OtherKeepsComplete(cfg: Config, c: Cache, last: int, r: Record, t: string)
    requires Complete(c, last, t) && last <= r.at && t != "" && !OfTxn(r, t)
    ensures Complete(StoredIn(cfg, c, r.at, r.entry), r.at, t)
  {
    var d := StoredIn(cfg, c, r.at, r.entry);
    forall now, id | r.at <= now && Unexpired(d, now, id, t) ensures id in IdsAt(d, now, t) {
      assert Unexpired(c, now, id, t);
    }
  }

  ghost predicate AlwaysComplete(cfg: Config, log: seq<Record>, t: string) {
    log != [] ==> AlwaysComplete(cfg, log[..|log| - 1], t) && Complete(After(cfg, log), log[|log| - 1].at, t)
  }

  predicate NeverLapses(cfg: Config, log: seq<Record>, t: string) {
    log == []
    || var before, r := log[..|log| - 1], log[|log| - 1];
       NeverLapses(cfg, before, t) && !(OfTxn(r, t) && Lapses(cfg, After(cfg, before), r.at, r.entry))
  }

  lemma {:induction false} IndexWrittenBefore(cfg: Config, log: seq<Record>, last: int, t: string)
    requires Timed(log, last)
    ensures Txn(t) in After(cfg, log) ==> After(cfg, log)[Txn(t)].expires <= last + cfg.indexTtl
  {
    if log != [] {
      IndexWrittenBefore(cfg, log[..|log| - 1], log[|log| - 1].at, t);
    }
  }

  /** For every timed log, repeated ids included: a transaction's index misses no unexpired
      entry at any time of the log exactly if no store lapses. */
  lemma {:induction false} CompleteIffNeverLapses(cfg: Config, log: seq<Record>, last: int, t: string)
    requires Accepted(cfg) && t != "" && Timed(log, last)
    ensures AlwaysComplete(cfg, log, t) <==> NeverLapses(cfg, log, t)
  {
    if log != [] {
      var before, r := log[..|log| - 1], log[|log| - 1];
      CompleteIffNeverLapses(cfg, before, r.at, t);
      IndexWrittenBefore(cfg, before, r.at, t);
      if AlwaysComplete(cfg, before, t) {
        StillComplete(cfg, before, r.at, t);
        if OfTxn(r, t) {
          RestoreIsExact(cfg, After(cfg, before), r.at, r.entry);
        } else {
          OtherKeepsComplete(cfg, After(cfg, before), r.at, r, t);
        }
      }
    }
  }

  lemma StillComplete(cfg: Config, log: seq<Record>, at: int, t: string)
    requires AlwaysComplete(cfg, log, t) && Timed(log, at)
    ensures Complete(After(cfg, log), at, t)
  {
  }
}
