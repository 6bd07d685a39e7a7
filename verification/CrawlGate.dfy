/** One crawl at a time, not before it is due, and no copy served for longer than its
    owner permits. Ticks may overlap freely; the clock never runs backwards. The publish
    sweep's guard is the same gate without a schedule. */
module CrawlGate {
  import opened Options

  /** Nanoseconds. */
  type Time = int

  const SECOND := 1_000_000_000

  /** Formatting an instant keeps whole seconds. */
  function WholeSeconds(t: Time): (s: Time)
    ensures t - 1000000000 < s <= t && s % 1000000000 == 0
  {
    t - t % SECOND
  }

  // ------------------------------------------------------------ documents

  datatype Value = Null | Text(text: string) | Instant(at: Time) | Other
                 | Object(members: map<string, Value>)

  datatype Stamped = Stamp(doc: Value) | Refused | Crashed

  /** Stamps when our copy stops being served. A null decodes to a nil map without an error,
      and writing into a nil map crashes: so does a null document, and a null `validity`. */
  function WithExpiry(doc: Value, until: Time): Stamped {
    if doc.Null? then Crashed
    else if !doc.Object? then Refused
    else
      var end := Instant(WholeSeconds(until));
      if "validity" !in doc.members then
        Stamp(Object(doc.members["validity" := Object(map["endDate" := end])]))
      else match doc.members["validity"]
        case Object(v) => Stamp(Object(doc.members["validity" := Object(v["endDate" := end])]))
        case Null => Crashed
        case _ => Refused
  }

  function CatalogId(doc: Value): string {
    if doc.Object? && "id" in doc.members && doc.members["id"].Text? then doc.members["id"].text else ""
  }

  function Field(v: Value, key: string): Value {
    if v.Object? && key in v.members then v.members[key] else Null
  }

  predicate NullValidity(doc: Value) {
    doc.Object? && "validity" in doc.members && doc.members["validity"].Null?
  }

  /** Stamping succeeds exactly on objects whose validity is absent or an object, crashes
      exactly on a null document or a null validity, and moves nothing but validity.endDate. */
  lemma ExpiryTouchesOnlyTheEnd(doc: Value, until: Time)
    ensures WithExpiry(doc, until).Crashed? <==> doc.Null? || NullValidity(doc)
    ensures WithExpiry(doc, until).Stamp? <==>
              doc.Object? && ("validity" in doc.members ==> Field(doc, "validity").Object?)
    ensures WithExpiry(doc, until).Stamp? ==>
              var out := WithExpiry(doc, until).doc;
              && out.Object? && CatalogId(out) == CatalogId(doc)
              && out.members.Keys == doc.members.Keys + {"validity"}
              && (forall k :: k in doc.members && k != "validity" ==> out.members[k] == doc.members[k])
              && Field(Field(out, "validity"), "endDate") == Instant(WholeSeconds(until))
              && (forall k :: k != "endDate" ==> Field(Field(out, "validity"), k) == Field(Field(doc, "validity"), k))
  {
    assert "id" != "validity";
    if doc.Object? && "id" in doc.members {
      assert CatalogId(doc) == if doc.members["id"].Text? then doc.members["id"].text else "";
    }
  }

  // ------------------------------------------------------------ the gate

  /** `every` is the refresh interval, absent where the pass rides no schedule. */
  datatype Gate = Gate(running: bool, every: Option<Time>, last: Option<Time>)

  datatype Claim = Mine | Busy | NotDue

  /** claim, one critical section; `now` is the reading the schedule takes in it. */
  function Claiming(g: Gate, now: Time): (Claim, Gate) {
    if g.running then (Busy, g)
    else if g.every.Some? && g.last.Some? && now - g.last.value < g.every.value then (NotDue, g)
    else (Mine, g.(running := true, last := if g.every.Some? then Some(now) else g.last))
  }

  /** The schedule and the flag, as the crawl updates them. */
  class Crawl {
    const every: Option<Time>
    var last: Option<Time>
    var running: bool

    ghost function View(): Gate
      reads this
    {
      Gate(running, every, last)
    }

    constructor (every: Option<Time>)
      ensures View() == Gate(false, every, None)
    {
      this.every := every;
      last := None;
      running := false;
    }

    method Due(at: Time) returns (due: bool)
      requires every.Some?
      modifies this`last
      ensures due <==> old(last).None? || at - old(last).value >= every.value
      ensures last == if due then Some(at) else old(last)
    {
      if last.Some? && at - last.value < every.value {
        return false;
      }
      last := Some(at);
      return true;
    }

    method Claim(now: Time) returns (mine: bool, busy: bool)
      modifies this
      ensures (if mine then Mine else if busy then Busy else NotDue, View()) == Claiming(old(View()), now)
      ensures mine ==> !old(running) && running
    {
      if running {
        return false, true;
      }
      if every.Some? {
        var due := Due(now);
        if !due {
          return false, false;
        }
      }
      running := true;
      return true, false;
    }

    method Release()
      modifies this`running
      ensures View() == old(View()).(running := false)
    {
      running := false;
    }
  }

  // ------------------------------------------------------ overlapping ticks

  datatype Network = Network(id: string, ttl: Time, hasContexts: bool)

  datatype Tick =
    | Arrived
    | Claimed(left: seq<Network>)                                     // between networks
    | Reading(network: Network, fetchedAt: Time, left: seq<Network>)  // inside one walk
    | Released
    | TurnedAway

  /** What was sent to discovery, and when the page it came from was read. */
  datatype Copy = Copy(doc: Value, network: Network, readAt: Time)

  datatype World = World(now: Time, gate: Gate, ticks: seq<Tick>, starts: seq<Time>, copies: seq<Copy>, crashed: bool)

  /** publishPage: what one page sends on, and whether a document crashes the pass. */
  function Publish(n: Network, fetchedAt: Time, readAt: Time, page: seq<Value>): (seq<Copy>, bool) {
    if page == [] then ([], false)
    else
      var rest := Publish(n, fetchedAt, readAt, page[1..]);
      if CatalogId(page[0]) == "" then rest
      else match WithExpiry(page[0], fetchedAt + n.ttl)
        case Stamp(doc) => ([Copy(doc, n, readAt)] + rest.0, rest.1)
        case Refused => rest
        case Crashed => ([], true)
  }

  ghost predicate TickStep(w: World, v: World, i: nat, networks: seq<Network>, page: seq<Value>) {
    i < |w.ticks| &&
    match w.ticks[i]
    case Arrived =>
      var (claim, gate) := Claiming(w.gate, w.now);
      if claim == Mine then
        v == w.(gate := gate, ticks := w.ticks[i := Claimed(networks)], starts := w.starts + [w.now])
      else v == w.(ticks := w.ticks[i := TurnedAway])
    case Claimed(left) =>
      if left == [] then v == w.(gate := w.gate.(running := false), ticks := w.ticks[i := Released])
      else if left[0].ttl <= 0 || !left[0].hasContexts then v == w.(ticks := w.ticks[i := Claimed(left[1..])])
      else v == w.(ticks := w.ticks[i := Reading(left[0], w.now, left[1..])])
    case Reading(n, at, left) =>
      || v == w.(ticks := w.ticks[i := Claimed(left)])          // the walk is over, or it failed
      || (var (sent, crashed) := Publish(n, at, w.now, page);
          v == w.(copies := w.copies + sent, crashed := crashed))
    case _ => false
  }

  /** Time passes, a tick arrives, or a tick moves. `networks` and `page` are whatever
      the registry and the network answer. */
  ghost predicate Next(w: World, v: World) {
    !w.crashed &&
    (|| (exists t :: t >= w.now && v == w.(now := t))
     || v == w.(ticks := w.ticks + [Arrived])
     || exists i, networks, page :: TickStep(w, v, i, networks, page))
  }

  ghost predicate Run(tr: seq<World>) {
    && |tr| > 0
    && tr[0].ticks == [] && tr[0].starts == [] && tr[0].copies == []
    && !tr[0].gate.running && tr[0].gate.last == None
    && forall k :: 0 <= k < |tr| - 1 ==> Next(tr[k], tr[k + 1])
  }

  predicate InPass(t: Tick) {
    t.Claimed? || t.Reading?
  }

  ghost predicate OnePass(w: World) {
    && (forall i, j :: 0 <= i < |w.ticks| && 0 <= j < |w.ticks| && InPass(w.ticks[i]) && InPass(w.ticks[j]) ==> i == j)
    && (w.gate.running <==> exists i :: 0 <= i < |w.ticks| && InPass(w.ticks[i]))
  }

  ghost predicate Spaced(w: World) {
    w.gate.every.Some? ==>
      && (w.starts == [] <==> w.gate.last == None)
      && (w.starts != [] ==> w.gate.last == Some(w.starts[|w.starts| - 1]) && w.starts[|w.starts| - 1] <= w.now)
      && (forall i :: 0 <= i < |w.starts| - 1 ==> w.starts[i + 1] - w.starts[i] >= w.gate.every.value)
  }

  ghost predicate Fresh(c: Copy) {
    && c.network.ttl > 0
    && Field(Field(c.doc, "validity"), "endDate").Instant?
    && Field(Field(c.doc, "validity"), "endDate").at <= c.readAt + c.network.ttl
  }

  ghost predicate Permitted(w: World) {
    && (forall i :: 0 <= i < |w.copies| ==> Fresh(w.copies[i]))
    && (forall i :: 0 <= i < |w.ticks| && w.ticks[i].Reading? ==>
          w.ticks[i].fetchedAt <= w.now && w.ticks[i].network.ttl > 0)
  }

  /** A page crashes the pass exactly if it holds a catalog with an id and a null validity: a
      null document would crash the stamping too, but it has no id and is never stamped. */
  lemma {:induction false} PageCrashes(n: Network, fetchedAt: Time, readAt: Time, page: seq<Value>)
    ensures Publish(n, fetchedAt, readAt, page).1 <==> exists i :: 0 <= i < |page| && CatalogId(page[i]) != "" && NullValidity(page[i])
  {
    if page != [] {
      PageCrashes(n, fetchedAt, readAt, page[1..]);
      ExpiryTouchesOnlyTheEnd(page[0], fetchedAt + n.ttl);
      if i :| 0 <= i < |page| && CatalogId(page[i]) != "" && NullValidity(page[i]) {
        assert i == 0 || page[i] == page[1..][i - 1];
      }
    }
  }

  predicate Publishable(doc: Value) {
    CatalogId(doc) != "" && ("validity" in doc.members ==> doc.members["validity"].Object?)
  }

  lemma StampKeepsId(doc: Value, until: Time)
    requires CatalogId(doc) != ""
    ensures WithExpiry(doc, until).Stamp? <==> Publishable(doc)
    ensures WithExpiry(doc, until).Stamp? ==> CatalogId(WithExpiry(doc, until).doc) == CatalogId(doc)
  {
    ExpiryTouchesOnlyTheEnd(doc, until);
  }

  function PublishableOf(page: seq<Value>): seq<Value> {
    if page == [] then [] else (if Publishable(page[0]) then [page[0]] else []) + PublishableOf(page[1..])
  }

  predicate CopyOf(c: Copy, doc: Value, until: Time) {
    WithExpiry(doc, until) == Stamp(c.doc) && CatalogId(c.doc) == CatalogId(doc)
  }

  ghost predicate Copies(sent: seq<Copy>, from: seq<Value>, until: Time) {
    |sent| == |from| && forall i :: 0 <= i < |sent| ==> CopyOf(sent[i], from[i], until)
  }

  lemma OneMoreCopy(c: Copy, doc: Value, sent: seq<Copy>, from: seq<Value>, until: Time)
    requires CopyOf(c, doc, until) && Copies(sent, from, until)
    ensures Copies([c] + sent, [doc] + from, until)
  {
  }

  /** What a page that does not crash sends on: one copy of each catalog that has an id and
      can be stamped, in order, under its own id. */
  lemma {:induction false} PageSends(n: Network, fetchedAt: Time, readAt: Time, page: seq<Value>)
    requires !Publish(n, fetchedAt, readAt, page).1
    ensures Copies(Publish(n, fetchedAt, readAt, page).0, PublishableOf(page), fetchedAt + n.ttl)
  {
    if page != [] {
      PageSends(n, fetchedAt, readAt, page[1..]);
      var rest, from := Publish(n, fetchedAt, readAt, page[1..]).0, PublishableOf(page[1..]);
      if CatalogId(page[0]) != "" {
        StampKeepsId(page[0], fetchedAt + n.ttl);
        if Publishable(page[0]) {
          OneMoreCopy(Copy(WithExpiry(page[0], fetchedAt + n.ttl).doc, n, readAt), page[0], rest, from, fetchedAt + n.ttl);
        }
      }
      assert !Publishable(page[0]) ==> [] + from == from;
    }
  }

  lemma {:induction false} PublishIsFresh(n: Network, fetchedAt: Time, readAt: Time, page: seq<Value>)
    requires n.ttl > 0 && fetchedAt <= readAt
    ensures forall i :: 0 <= i < |Publish(n, fetchedAt, readAt, page).0| ==> Fresh(Publish(n, fetchedAt, readAt, page).0[i])
  {
    if page != [] {
      PublishIsFresh(n, fetchedAt, readAt, page[1..]);
      ExpiryTouchesOnlyTheEnd(page[0], fetchedAt + n.ttl);
    }
  }

  lemma StepKeepsOnePass(w: World, v: World, i: nat, networks: seq<Network>, page: seq<Value>)
    requires OnePass(w) && TickStep(w, v, i, networks, page)
    ensures OnePass(v)
  {
    if w.gate.running {
      var j :| 0 <= j < |w.ticks| && InPass(w.ticks[j]);
      assert w.ticks[i].Arrived? ==> i != j;
      if v.gate.running {
        assert InPass(v.ticks[j]);
      } else {
        assert i == j;
      }
    } else if v.gate.running {
      assert InPass(v.ticks[i]);
    }
  }

  lemma NextKeepsOnePass(w: World, v: World)
    requires OnePass(w) && Next(w, v)
    ensures OnePass(v)
  {
    if v == w.(ticks := w.ticks + [Arrived]) {
      assert forall j :: 0 <= j < |w.ticks| ==> v.ticks[j] == w.ticks[j];
    } else if v.ticks != w.ticks {
      var i: nat, networks, page :| TickStep(w, v, i, networks, page);
      StepKeepsOnePass(w, v, i, networks, page);
    }
  }

  lemma NextKeepsSpaced(w: World, v: World)
    requires Spaced(w) && Next(w, v)
    ensures Spaced(v) && v.gate.every == w.gate.every
  {
  }

  lemma StepKeepsPermitted(w: World, v: World, i: nat, networks: seq<Network>, page: seq<Value>)
    requires Permitted(w) && TickStep(w, v, i, networks, page)
    ensures Permitted(v)
  {
    if w.ticks[i].Reading? {
      PublishIsFresh(w.ticks[i].network, w.ticks[i].fetchedAt, w.now, page);
    }
  }

  lemma NextKeepsPermitted(w: World, v: World)
    requires Permitted(w) && Next(w, v)
    ensures Permitted(v)
  {
    if i: nat, networks, page :| TickStep(w, v, i, networks, page) {
      StepKeepsPermitted(w, v, i, networks, page);
    }
  }

  lemma NextKeeps(w: World, v: World)
    requires OnePass(w) && Spaced(w) && Permitted(w) && Next(w, v)
    ensures OnePass(v) && Spaced(v) && Permitted(v) && v.gate.every == w.gate.every
  {
    NextKeepsOnePass(w, v);
    NextKeepsSpaced(w, v);
    NextKeepsPermitted(w, v);
  }

  lemma {:induction false} RunKeeps(tr: seq<World>, k: nat)
    requires Run(tr) && k < |tr|
    ensures OnePass(tr[k]) && Spaced(tr[k]) && Permitted(tr[k]) && tr[k].gate.every == tr[0].gate.every
  {
    if k > 0 {
      RunKeeps(tr, k - 1);
      NextKeeps(tr[k - 1], tr[k]);
    }
  }

  lemma {:induction false} ApartByInterval(starts: seq<Time>, every: Time, i: nat, j: nat)
    requires forall k :: 0 <= k < |starts| - 1 ==> starts[k + 1] - starts[k] >= every
    requires every >= 0 && i < j < |starts|
    ensures starts[j] - starts[i] >= every
  {
    if i + 1 < j {
      ApartByInterval(starts, every, i, j - 1);
      assert starts[j - 1 + 1] - starts[j - 1] >= every;
    }
  }

  /** In every interleaving of overlapping ticks: at most one crawl is in progress, any
      two crawls were started at least the refresh interval apart, and every copy sent on
      stops being served no later than its owner permits, counted from when it was read. */
  lemma CrawlsAreSafe(tr: seq<World>, k: nat)
    requires Run(tr) && k < |tr|
    ensures OnePass(tr[k])
    ensures tr[0].gate.every.Some? && tr[0].gate.every.value >= 0 ==>
              forall i, j :: 0 <= i < j < |tr[k].starts| ==> tr[k].starts[j] - tr[k].starts[i] >= tr[0].gate.every.value
    ensures forall i :: 0 <= i < |tr[k].copies| ==> Fresh(tr[k].copies[i])
  {
    RunKeeps(tr, k);
    if tr[0].gate.every.Some? && tr[0].gate.every.value >= 0 {
      forall i, j | 0 <= i < j < |tr[k].starts|
        ensures tr[k].starts[j] - tr[k].starts[i] >= tr[0].gate.every.value
      {
        ApartByInterval(tr[k].starts, tr[0].gate.every.value, i, j);
      }
    }
  }

  // ---------------------------------------------------------------- progress

  /** The gate is the caller's exactly if nobody has it and it is due, or there is no schedule;
      nothing else is said of one that is taken. */
  lemma ClaimedExactly(g: Gate, now: Time)
    ensures Claiming(g, now).0 == Mine <==> !g.running && (g.every.None? || g.last.None? || now - g.last.value >= g.every.value)
    ensures Claiming(g, now).0 == Busy <==> g.running
    ensures Claiming(g, now).0 == Mine ==> Claiming(g, now).1 == g.(running := true, last := if g.every.Some? then Some(now) else g.last)
    ensures Claiming(g, now).0 != Mine ==> Claiming(g, now).1 == g
  {
  }

  /** A tick that finds the gate free and due begins a pass over all the networks. */
  lemma TickBeginsAPass(w: World, v: World, i: nat, networks: seq<Network>, page: seq<Value>)
    requires TickStep(w, v, i, networks, page) && w.ticks[i] == Arrived
    requires !w.gate.running && (w.gate.every.None? || w.gate.last.None? || w.now - w.gate.last.value >= w.gate.every.value)
    ensures v.ticks == w.ticks[i := Claimed(networks)] && v.starts == w.starts + [w.now] && v.gate.running
  {
    ClaimedExactly(w.gate, w.now);
  }

  /** A pass passes over a network exactly if it permits no copies or gives no contexts. */
  lemma NetworkIsRead(w: World, v: World, i: nat, networks: seq<Network>, page: seq<Value>)
    requires TickStep(w, v, i, networks, page) && w.ticks[i].Claimed? && w.ticks[i].left != []
    ensures var n, rest := w.ticks[i].left[0], w.ticks[i].left[1..];
            v.ticks == w.ticks[i := if n.ttl > 0 && n.hasContexts then Reading(n, w.now, rest) else Claimed(rest)]
  {
  }

  function StepsLeft(t: Tick): nat {
    match t
    case Claimed(left) => 1 + 2 * |left|
    case Reading(_, _, left) => 2 + 2 * |left|
    case _ => 0
  }

  lemma GoOn(tr: seq<World>, v: World, i: nat)
    requires Run(tr) && !tr[|tr| - 1].crashed && TickStep(tr[|tr| - 1], v, i, [], [])
    ensures Run(tr + [v])
  {
    RunMore(tr, v);
  }

  /** The next step of a pass that finds nothing more to send. */
  function Onward(w: World, i: nat): World
    requires i < |w.ticks| && InPass(w.ticks[i])
  {
    match w.ticks[i]
    case Reading(_, _, left) => w.(ticks := w.ticks[i := Claimed(left)])
    case Claimed(left) =>
      if left == [] then w.(gate := w.gate.(running := false), ticks := w.ticks[i := Released])
      else if left[0].ttl <= 0 || !left[0].hasContexts then w.(ticks := w.ticks[i := Claimed(left[1..])])
      else w.(ticks := w.ticks[i := Reading(left[0], w.now, left[1..])])
  }

  lemma OnwardSteps(w: World, i: nat)
    requires i < |w.ticks| && InPass(w.ticks[i])
    ensures TickStep(w, Onward(w, i), i, [], []) && Onward(w, i).crashed == w.crashed
    ensures var t := Onward(w, i).ticks[i];
            StepsLeft(t) < StepsLeft(w.ticks[i]) && (InPass(t) || (t == Released && !Onward(w, i).gate.running))
  {
  }

  /** Wherever a pass stands, the run can go on until it has let the gate go. */
  lemma {:induction false} PassCanFinish(tr: seq<World>, i: nat) returns (run: seq<World>)
    requires Run(tr) && !tr[|tr| - 1].crashed && i < |tr[|tr| - 1].ticks| && InPass(tr[|tr| - 1].ticks[i])
    ensures Run(run) && tr <= run
    ensures var w := run[|run| - 1]; !w.crashed && !w.gate.running && i < |w.ticks| && w.ticks[i] == Released
    decreases StepsLeft(tr[|tr| - 1].ticks[i])
  {
    var v := Onward(tr[|tr| - 1], i);
    OnwardSteps(tr[|tr| - 1], i);
    GoOn(tr, v, i);
    if InPass(v.ticks[i]) {
      run := PassCanFinish(tr + [v], i);
    } else {
      run := tr + [v];
    }
  }

  lemma RunMore(tr: seq<World>, v: World)
    requires Run(tr) && Next(tr[|tr| - 1], v)
    ensures Run(tr + [v])
  {
    var more := tr + [v];
    forall k | 0 <= k < |more| - 1 ensures Next(more[k], more[k + 1]) {
      if k < |tr| - 1 {
        assert more[k] == tr[k] && more[k + 1] == tr[k + 1];
      }
    }
  }

  /** Whatever page a network answers while it is read, the copies made of it are sent on, and a
      page that crashes the pass ends it. */
  lemma PageIsSent(tr: seq<World>, i: nat, page: seq<Value>)
    requires Run(tr) && !tr[|tr| - 1].crashed && i < |tr[|tr| - 1].ticks| && tr[|tr| - 1].ticks[i].Reading?
    ensures var w := tr[|tr| - 1];
            var published := Publish(w.ticks[i].network, w.ticks[i].fetchedAt, w.now, page);
            Run(tr + [w.(copies := w.copies + published.0, crashed := published.1)])
  {
    var w := tr[|tr| - 1];
    var published := Publish(w.ticks[i].network, w.ticks[i].fetchedAt, w.now, page);
    var v := w.(copies := w.copies + published.0, crashed := published.1);
    assert TickStep(w, v, i, [], page);
    RunMore(tr, v);
  }

  /** Time may pass, and ticks may arrive, at any moment. */
  lemma MayHappen(tr: seq<World>, t: Time)
    requires Run(tr) && !tr[|tr| - 1].crashed && t >= tr[|tr| - 1].now
    ensures Run(tr + [tr[|tr| - 1].(now := t)])
    ensures Run(tr + [tr[|tr| - 1].(ticks := tr[|tr| - 1].ticks + [Arrived])])
  {
    RunMore(tr, tr[|tr| - 1].(now := t));
    RunMore(tr, tr[|tr| - 1].(ticks := tr[|tr| - 1].ticks + [Arrived]));
  }
}
