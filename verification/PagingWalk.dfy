/** Asking one network for everything it shares, a page at a time.

    The network is arbitrary: it answers call number `k` for offset `o` with
    `net(k, o)`. Offsets are Go's int, so additions wrap around at 64 bits. */
module PagingWalk {
  import opened Sequences

  const MAX_INT := 0x7FFF_FFFF_FFFF_FFFF

  newtype int64 = x: int | -0x8000_0000_0000_0000 <= x <= 0x7FFF_FFFF_FFFF_FFFF

  /** Addition of two Go ints, which wraps around. */
  function Add(x: int64, y: int64): int64 {
    var sum := x as int + y as int;
    if sum > MAX_INT then (sum - 2 * MAX_INT - 2) as int64
    else if sum < -MAX_INT - 1 then (sum + 2 * MAX_INT + 2) as int64
    else sum as int64
  }

  /** A catalog, as the resources it holds. */
  type Resource = string
  type Catalog = seq<Resource>

  /** What an answer claims about itself: where it begins, how long it may be, and how many
      there are in all. */
  datatype AppliedPage = AppliedPage(limit: int64, offset: int64, total: int64)

  datatype Answer = Failed | Answered(catalogs: seq<Catalog>, applied: AppliedPage)

  type Network = (nat, int64) -> Answer

  datatype End = Everything | NotMoving | NetworkFailed | SinkFailed

  /** One walk: the offsets asked for, the catalogs handed on, and how it ended. */
  datatype Walk = Walk(asked: seq<int64>, handed: seq<Catalog>, end: End)

  datatype Move = Move(next: int64, done: bool)

  function After(p: AppliedPage, offset: int64, asked: int64, returned: nat): Move {
    if p.limit <= 0 then
      Move(Add(offset, asked), returned < asked as int)
    else
      var next := Add(p.offset, p.limit);
      Move(next, next >= p.total)
  }

  /** The walk from the k-th call on. `takes(k)` is whether the sink takes that page. */
  ghost function WalkFrom(net: Network, takes: nat -> bool, size: int64, k: nat, offset: int64): Walk
    decreases MAX_INT - offset as int
  {
    match net(k, offset)
    case Failed => Walk([offset], [], NetworkFailed)
    case Answered(catalogs, applied) =>
      if catalogs != [] && !takes(k) then Walk([offset], [], SinkFailed)
      else
        var m := After(applied, offset, size, |catalogs|);
        if m.done then Walk([offset], catalogs, Everything)
        else if m.next <= offset then Walk([offset], catalogs, NotMoving)
        else
          var rest := WalkFrom(net, takes, size, k + 1, m.next);
          Walk([offset] + rest.asked, catalogs + rest.handed, rest.end)
  }

  /** The loop, which ends against every network: each turn raises a bounded offset. */
  method Discover(net: Network, takes: nat -> bool, size: int64) returns (walk: Walk)
    ensures walk == WalkFrom(net, takes, size, 0, 0)
  {
    var offset: int64 := 0;
    var k: nat := 0;
    var asked: seq<int64> := [];
    var handed: seq<Catalog> := [];
    ghost var whole := WalkFrom(net, takes, size, 0, 0);
    while true
      invariant whole == Prepend(asked, handed, WalkFrom(net, takes, size, k, offset))
      decreases MAX_INT - offset as int
    {
      ghost var beforeAsked, beforeHanded := asked, handed;
      asked := asked + [offset];
      var answer := net(k, offset);
      if answer.Failed? {
        return Walk(asked, handed, NetworkFailed);
      }
      if |answer.catalogs| > 0 {
        if !takes(k) {
          return Walk(asked, handed, SinkFailed);
        }
      }
      handed := handed + answer.catalogs;
      var m := After(answer.applied, offset, size, |answer.catalogs|);
      if m.done {
        return Walk(asked, handed, Everything);
      }
      if m.next <= offset {
        return Walk(asked, handed, NotMoving);
      }
      PrependTwice(beforeAsked, beforeHanded, offset, answer.catalogs,
                   WalkFrom(net, takes, size, k + 1, m.next));
      offset, k := m.next, k + 1;
    }
  }

  ghost function Prepend(asked: seq<int64>, handed: seq<Catalog>, rest: Walk): Walk {
    Walk(asked + rest.asked, handed + rest.handed, rest.end)
  }

  lemma PrependTwice(asked: seq<int64>, handed: seq<Catalog>, offset: int64, catalogs: seq<Catalog>, rest: Walk)
    ensures Prepend(asked + [offset], handed + catalogs, rest)
         == Prepend(asked, handed, Prepend([offset], catalogs, rest))
  {
    assert asked + [offset] + rest.asked == asked + ([offset] + rest.asked);
    assert handed + catalogs + rest.handed == handed + (catalogs + rest.handed);
  }

  // ------------------------------------------------------- against any network

  /** No offset is ever asked for twice: the offsets strictly increase. */
  lemma {:induction false} NeverAsksTwice(net: Network, takes: nat -> bool, size: int64, k: nat, offset: int64)
    ensures var asked := WalkFrom(net, takes, size, k, offset).asked;
            |asked| > 0 && asked[0] == offset
            && forall i, j :: 0 <= i < j < |asked| ==> asked[i] < asked[j]
    decreases MAX_INT - offset as int
  {
    var answer := net(k, offset);
    if answer.Answered? && (answer.catalogs == [] || takes(k)) {
      var m := After(answer.applied, offset, size, |answer.catalogs|);
      if !m.done && m.next > offset {
        NeverAsksTwice(net, takes, size, k + 1, m.next);
        var rest := WalkFrom(net, takes, size, k + 1, m.next).asked;
        assert forall j :: 0 <= j < |rest| ==> offset < rest[j];
      }
    }
  }

  /** Call number k asks for this offset, and its page is taken. */
  ghost predicate Taken(net: Network, takes: nat -> bool, k: nat, offset: int64) {
    net(k, offset).Answered? && (net(k, offset).catalogs != [] ==> takes(k))
  }

  /** Everything before the last call was answered and taken, the last call tells how the walk
      ends, and what was handed on are the pages taken, in order. */
  ghost predicate Told(net: Network, takes: nat -> bool, size: int64, k: nat, w: Walk) {
    && |w.asked| > 0
    && (forall i :: 0 <= i < |w.asked| - 1 ==> Taken(net, takes, k + i, w.asked[i]))
    && EndsAs(net, takes, size, k + |w.asked| - 1, w.asked[|w.asked| - 1], w.end)
    && w.handed == Pages(net, takes, k, w.asked)
  }

  lemma ToldFromBefore(net: Network, takes: nat -> bool, size: int64, k: nat, offset: int64, rest: Walk)
    requires Taken(net, takes, k, offset) && Told(net, takes, size, k + 1, rest)
    ensures Told(net, takes, size, k, Walk([offset] + rest.asked, net(k, offset).catalogs + rest.handed, rest.end))
  {
    var asked := [offset] + rest.asked;
    assert asked[1..] == rest.asked;
    forall i | 0 <= i < |asked| - 1 ensures Taken(net, takes, k + i, asked[i]) {
      if i > 0 {
        assert Taken(net, takes, k + 1 + (i - 1), rest.asked[i - 1]);
      }
    }
  }

  lemma ToldAtOnce(net: Network, takes: nat -> bool, size: int64, k: nat, offset: int64, end: End)
    requires EndsAs(net, takes, size, k, offset, end)
    ensures Told(net, takes, size, k, Walk([offset], if Taken(net, takes, k, offset) then net(k, offset).catalogs else [], end))
  {
    assert [offset][1..] == [] && Pages(net, takes, k + 1, []) == [];
    assert Pages(net, takes, k, [offset]) == if Taken(net, takes, k, offset) then net(k, offset).catalogs else [];
  }

  /** Every walk is told by its calls. */
  lemma {:induction false} WalkTells(net: Network, takes: nat -> bool, size: int64, k: nat, offset: int64)
    ensures Told(net, takes, size, k, WalkFrom(net, takes, size, k, offset))
    decreases MAX_INT - offset as int
  {
    if Taken(net, takes, k, offset) {
      var m := After(net(k, offset).applied, offset, size, |net(k, offset).catalogs|);
      if !m.done && m.next > offset {
        WalkTells(net, takes, size, k + 1, m.next);
        ToldFromBefore(net, takes, size, k, offset, WalkFrom(net, takes, size, k + 1, m.next));
      } else {
        ToldAtOnce(net, takes, size, k, offset, if m.done then Everything else NotMoving);
      }
    } else {
      ToldAtOnce(net, takes, size, k, offset, if net(k, offset).Failed? then NetworkFailed else SinkFailed);
    }
  }

  /** What a last call makes of the walk. */
  ghost predicate EndsAs(net: Network, takes: nat -> bool, size: int64, k: nat, offset: int64, end: End) {
    var answer := net(k, offset);
    if answer.Failed? then end == NetworkFailed
    else if !Taken(net, takes, k, offset) then end == SinkFailed
    else
      var m := After(answer.applied, offset, size, |answer.catalogs|);
      if m.done then end == Everything else m.next <= offset && end == NotMoving
  }

  /** The pages of these calls that were taken. */
  ghost function Pages(net: Network, takes: nat -> bool, k: nat, asked: seq<int64>): seq<Catalog>
    decreases |asked|
  {
    if asked == [] then []
    else (if Taken(net, takes, k, asked[0]) then net(k, asked[0]).catalogs else []) + Pages(net, takes, k + 1, asked[1..])
  }

  // ------------------------------------------------ against a well-behaved network

  function Flatten(catalogs: seq<Catalog>): seq<Resource> {
    if catalogs == [] then [] else catalogs[0] + Flatten(catalogs[1..])
  }

  lemma {:induction false} FlattenConcat(a: seq<Catalog>, b: seq<Catalog>)
    ensures Flatten(a + b) == Flatten(a) + Flatten(b)
  {
    if a == [] {
      assert a + b == b;
    } else {
      FlattenConcat(a[1..], b);
      assert (a + b)[0] == a[0] && (a + b)[1..] == a[1..] + b;
      Regroup(a[0], Flatten(a[1..]), Flatten(b));
    }
  }

  ghost predicate Reliable(net: Network, takes: nat -> bool) {
    (forall k: nat, o: int64 :: net(k, o).Answered?) && (forall k: nat :: takes(k))
  }

  function Min(a: int, b: int): int {
    if a < b then a else b
  }

  /** A network sharing a fixed list of resources that says which page it applied: the
      offset it was asked for, any positive limit (changing from call to call if it
      likes) and the true total. Catalogs group the page's resources in any way, and
      any call may fail. */
  ghost predicate Echoes(net: Network, resources: seq<Resource>) {
    && |resources| <= MAX_INT
    && forall k: nat, o: int64 :: 0 <= o as int <= |resources| && net(k, o).Answered? ==>
         var p := net(k, o).applied;
         && p.limit > 0 && p.offset == o && p.total as int == |resources|
         && Flatten(net(k, o).catalogs) == resources[o .. Min(o as int + p.limit as int, |resources|)]
  }

  /** This starts the list at `o`, and is all of it from there if the walk came to its end. */
  ghost predicate Covers<T>(handed: seq<T>, list: seq<T>, o: nat, end: End)
    requires o <= |list|
  {
    handed <= list[o..] && (end == Everything || end == NotMoving ==> handed == list[o..])
  }

  lemma CoversMore<T>(page: seq<T>, rest: seq<T>, list: seq<T>, o: nat, stop: nat, end: End)
    requires o <= stop <= |list| && page == list[o..stop] && Covers(rest, list, stop, end)
    ensures Covers(page + rest, list, o, end)
  {
    PartsJoin(list, o, stop, rest);
  }

  lemma CoversLast<T>(page: seq<T>, list: seq<T>, o: nat, end: End)
    requires o <= |list| && page == list[o..|list|]
    ensures Covers(page, list, o, end)
  {
    assert list[o..|list|] == list[o..];
  }

  /** One turn of the walk. */
  lemma OneTurn(net: Network, takes: nat -> bool, size: int64, k: nat, o: int64)
    ensures var w, answer := WalkFrom(net, takes, size, k, o), net(k, o);
            if !Taken(net, takes, k, o) then w.handed == [] && w.end in {NetworkFailed, SinkFailed}
            else
              var m := After(answer.applied, o, size, |answer.catalogs|);
              if m.done then w.handed == answer.catalogs && w.end == Everything
              else if m.next <= o then w.handed == answer.catalogs && w.end == NotMoving
              else
                var rest := WalkFrom(net, takes, size, k + 1, m.next);
                w.handed == answer.catalogs + rest.handed && w.end == rest.end
  {
  }

  lemma {:induction false} EchoFrom(net: Network, takes: nat -> bool, size: int64, resources: seq<Resource>, k: nat, o: int64)
    requires Echoes(net, resources) && 0 <= o as int <= |resources|
    ensures var w := WalkFrom(net, takes, size, k, o); Covers(Flatten(w.handed), resources, o as int, w.end)
    decreases MAX_INT - o as int
  {
    var answer := net(k, o);
    OneTurn(net, takes, size, k, o);
    if Taken(net, takes, k, o) {
      var stop := Min(o as int + answer.applied.limit as int, |resources|);
      var m := After(answer.applied, o, size, |answer.catalogs|);
      EchoMoves(answer.applied, o, size, |answer.catalogs|, |resources|);
      if !m.done && m.next > o {
        EchoFrom(net, takes, size, resources, k + 1, m.next);
        var rest := WalkFrom(net, takes, size, k + 1, m.next);
        FlattenConcat(answer.catalogs, rest.handed);
        CoversMore(Flatten(answer.catalogs), Flatten(rest.handed), resources, o as int, stop, rest.end);
      } else {
        CoversLast(Flatten(answer.catalogs), resources, o as int, WalkFrom(net, takes, size, k, o).end);
      }
    }
  }

  /** An echoed page either reaches the end or moves exactly past what it held. */
  lemma EchoMoves(p: AppliedPage, o: int64, size: int64, returned: nat, total: nat)
    requires 0 <= o as int <= total <= MAX_INT && p.limit > 0 && p.offset == o && p.total as int == total
    ensures var m, stop := After(p, o, size, returned), Min(o as int + p.limit as int, total);
            if !m.done && m.next > o then m.next as int == stop else stop == total
  {
  }

  lemma PartsJoin<T>(resources: seq<T>, o: nat, stop: nat, rest: seq<T>)
    requires o <= stop <= |resources| && rest <= resources[stop..]
    ensures resources[o..stop] + rest <= resources[o..]
    ensures rest == resources[stop..] ==> resources[o..stop] + rest == resources[o..]
  {
    assert resources[o..] == resources[o..stop] + resources[stop..];
  }

  /** Against such a network the pages cover the resources exactly once and in order;
      if a call fails, what was handed on is the beginning of them. */
  lemma EchoCoversOnce(net: Network, takes: nat -> bool, size: int64, resources: seq<Resource>)
    requires Echoes(net, resources)
    ensures var w := WalkFrom(net, takes, size, 0, 0);
            && Flatten(w.handed) <= resources
            && (w.end == Everything || w.end == NotMoving ==> Flatten(w.handed) == resources)
            && (Reliable(net, takes) ==> Flatten(w.handed) == resources)
  {
    EchoFrom(net, takes, size, resources, 0, 0);
    if Reliable(net, takes) {
      NeverFails(net, takes, size, 0, 0);
    }
    assert resources[0..] == resources;
  }

  lemma {:induction false} NeverFails(net: Network, takes: nat -> bool, size: int64, k: nat, o: int64)
    requires Reliable(net, takes)
    ensures var end := WalkFrom(net, takes, size, k, o).end; end == Everything || end == NotMoving
    decreases MAX_INT - o as int
  {
    var answer := net(k, o);
    var m := After(answer.applied, o, size, |answer.catalogs|);
    if !m.done && m.next > o {
      NeverFails(net, takes, size, k + 1, m.next);
    }
  }

  /** A network sharing a fixed list of catalogs that reports no page and returns as
      many as were asked for, or as many as are left. */
  ghost predicate Unpaged(net: Network, catalogs: seq<Catalog>, size: int64) {
    && size > 0 && |catalogs| <= MAX_INT
    && forall k: nat, o: int64 :: 0 <= o as int <= |catalogs| && net(k, o).Answered? ==>
         && net(k, o).applied.limit <= 0
         && net(k, o).catalogs == catalogs[o .. Min(o as int + size as int, |catalogs|)]
  }

  lemma {:induction false} UnpagedFrom(net: Network, takes: nat -> bool, size: int64, catalogs: seq<Catalog>, k: nat, o: int64)
    requires Unpaged(net, catalogs, size) && 0 <= o as int <= |catalogs|
    ensures var w := WalkFrom(net, takes, size, k, o); Covers(w.handed, catalogs, o as int, w.end) && w.end != NotMoving
    decreases MAX_INT - o as int
  {
    var answer := net(k, o);
    OneTurn(net, takes, size, k, o);
    if Taken(net, takes, k, o) {
      var stop := Min(o as int + size as int, |catalogs|);
      var m := After(answer.applied, o, size, |answer.catalogs|);
      UnpagedMoves(answer.applied, o, size, |catalogs|);
      if !m.done {
        UnpagedFrom(net, takes, size, catalogs, k + 1, m.next);
        var rest := WalkFrom(net, takes, size, k + 1, m.next);
        CoversMore(answer.catalogs, rest.handed, catalogs, o as int, stop, rest.end);
      } else {
        CoversLast(answer.catalogs, catalogs, o as int, Everything);
      }
    }
  }

  /** A short page is the last; a full one moves exactly past what it held. */
  lemma UnpagedMoves(p: AppliedPage, o: int64, size: int64, total: nat)
    requires 0 <= o as int <= total <= MAX_INT && p.limit <= 0 && size > 0
    ensures var stop := Min(o as int + size as int, total);
            var m := After(p, o, size, stop - o as int);
            if m.done then stop == total else m.next as int == stop && m.next > o
  {
  }

  /** Against such a network the walk hands on every catalog exactly once and in order too,
      and never gives up. */
  lemma UnpagedCoversOnce(net: Network, takes: nat -> bool, size: int64, catalogs: seq<Catalog>)
    requires Unpaged(net, catalogs, size)
    ensures var w := WalkFrom(net, takes, size, 0, 0);
            && w.handed <= catalogs
            && w.end != NotMoving
            && (w.end == Everything ==> w.handed == catalogs)
            && (Reliable(net, takes) ==> w.handed == catalogs)
  {
    UnpagedFrom(net, takes, size, catalogs, 0, 0);
    if Reliable(net, takes) {
      NeverFails(net, takes, size, 0, 0);
    }
    assert catalogs[0..] == catalogs;
  }
}
