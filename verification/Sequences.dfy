/** Sequences built element by element, and what does not depend on the elements' order. */
module Sequences {

  /** The pieces `g` makes of each element, one after the other. */
  function MapCat<A, B>(xs: seq<A>, g: A -> seq<B>): seq<B> {
    if xs == [] then [] else g(xs[0]) + MapCat(xs[1..], g)
  }

  lemma Regroup<A>(a: seq<A>, b: seq<A>, c: seq<A>)
    ensures a + (b + c) == a + b + c
  {
  }

  function Filter<A>(xs: seq<A>, p: A -> bool): seq<A> {
    if xs == [] then [] else if p(xs[0]) then [xs[0]] + Filter(xs[1..], p) else Filter(xs[1..], p)
  }

  lemma {:induction false} FilterAppend<A>(xs: seq<A>, ys: seq<A>, p: A -> bool)
    ensures Filter(xs + ys, p) == Filter(xs, p) + Filter(ys, p)
  {
    if xs == [] {
      assert xs + ys == ys;
    } else {
      FilterAppend(xs[1..], ys, p);
      assert (xs + ys)[0] == xs[0] && (xs + ys)[1..] == xs[1..] + ys;
      Regroup([xs[0]], Filter(xs[1..], p), Filter(ys, p));
    }
  }

  lemma FilterFirst<A>(x: A, xs: seq<A>, p: A -> bool)
    ensures Filter([x] + xs, p) == if p(x) then [x] + Filter(xs, p) else Filter(xs, p)
  {
    assert ([x] + xs)[1..] == xs;
  }

  /** Filtering by two tests comes to the same in either order. */
  lemma {:induction false} FilterSwap<A>(xs: seq<A>, p: A -> bool, q: A -> bool)
    ensures Filter(Filter(xs, p), q) == Filter(Filter(xs, q), p)
  {
    if xs != [] {
      FilterSwap(xs[1..], p, q);
      FilterFirst(xs[0], Filter(xs[1..], p), q);
      FilterFirst(xs[0], Filter(xs[1..], q), p);
    }
  }

  /** Filtering first by a weaker test makes no difference. */
  lemma {:induction false} FilterWeaker<A>(xs: seq<A>, p: A -> bool, q: A -> bool)
    requires forall i :: 0 <= i < |xs| && q(xs[i]) ==> p(xs[i])
    ensures Filter(Filter(xs, p), q) == Filter(xs, q)
  {
    if xs != [] {
      FilterWeaker(xs[1..], p, q);
      FilterFirst(xs[0], Filter(xs[1..], p), q);
    }
  }

  lemma {:induction false} FilterHas<A>(xs: seq<A>, p: A -> bool, x: A)
    ensures x in Filter(xs, p) <==> x in xs && p(x)
  {
    if xs != [] {
      FilterHas(xs[1..], p, x);
      assert x in xs <==> x == xs[0] || x in xs[1..];
    }
  }

  lemma {:induction false} FilterAll<A>(xs: seq<A>, p: A -> bool)
    requires forall i :: 0 <= i < |xs| ==> p(xs[i])
    ensures Filter(xs, p) == xs
  {
    if xs != [] {
      FilterAll(xs[1..], p);
    }
  }

  lemma TakeNext<A>(before: seq<A>, xs: seq<A>, k: nat)
    requires k < |xs|
    ensures before + xs[..k + 1] == before + xs[..k] + [xs[k]]
  {
    assert xs[..k + 1] == xs[..k] + [xs[k]];
  }

  lemma {:induction false} MapCatAppend<A, B>(xs: seq<A>, ys: seq<A>, g: A -> seq<B>)
    ensures MapCat(xs + ys, g) == MapCat(xs, g) + MapCat(ys, g)
  {
    if xs == [] {
      assert xs + ys == ys;
    } else {
      MapCatAppend(xs[1..], ys, g);
      assert (xs + ys)[0] == xs[0] && (xs + ys)[1..] == xs[1..] + ys;
      Regroup(g(xs[0]), MapCat(xs[1..], g), MapCat(ys, g));
    }
  }

  lemma {:induction false} MapCatSame<A, B>(xs: seq<A>, g: A -> seq<B>, h: A -> seq<B>)
    requires forall i :: 0 <= i < |xs| ==> g(xs[i]) == h(xs[i])
    ensures MapCat(xs, g) == MapCat(xs, h)
  {
    if xs != [] {
      MapCatSame(xs[1..], g, h);
    }
  }

  lemma MapCatOne<A, B>(x: A, g: A -> seq<B>)
    ensures MapCat([x], g) == g(x)
  {
    assert [x][1..] == [];
  }

  lemma {:induction false} MapCatHas<A, B>(xs: seq<A>, g: A -> seq<B>, b: B)
    ensures b in MapCat(xs, g) <==> exists i :: 0 <= i < |xs| && b in g(xs[i])
  {
    if xs != [] {
      MapCatHas(xs[1..], g, b);
      if i :| 0 <= i < |xs| && b in g(xs[i]) {
        assert i == 0 || xs[i] == xs[1..][i - 1];
      }
    }
  }

  lemma MapCatMiddle<A, B>(pre: seq<A>, x: A, post: seq<A>, g: A -> seq<B>)
    ensures multiset(MapCat(pre + [x] + post, g)) == multiset(g(x)) + multiset(MapCat(pre + post, g))
  {
    MapCatAppend(pre + [x], post, g);
    MapCatAppend(pre, [x], g);
    MapCatAppend(pre, post, g);
    MapCatOne(x, g);
  }

  lemma RemoveOne<A>(pre: seq<A>, x: A, post: seq<A>, xs: seq<A>)
    requires xs != [] && xs[0] == x && multiset(xs) == multiset(pre + [x] + post)
    ensures multiset(xs[1..]) == multiset(pre + post)
  {
    assert xs == [x] + xs[1..];
    assert multiset(xs[1..]) == multiset(xs) - multiset{x};
    assert multiset(pre + post) == multiset(pre + [x] + post) - multiset{x};
  }

  /** Reordering the elements only reorders the pieces. */
  lemma {:induction false} MapCatPermutes<A, B>(xs: seq<A>, ys: seq<A>, g: A -> seq<B>)
    requires multiset(xs) == multiset(ys)
    ensures multiset(MapCat(xs, g)) == multiset(MapCat(ys, g))
  {
    if xs == [] {
      assert |multiset(ys)| == |ys|;
    } else {
      assert xs[0] in multiset(ys);
      var j :| 0 <= j < |ys| && ys[j] == xs[0];
      var pre, post := ys[..j], ys[j + 1..];
      assert ys == pre + [xs[0]] + post;
      RemoveOne(pre, xs[0], post, xs);
      MapCatPermutes(xs[1..], pre + post, g);
      MapCatMiddle(pre, xs[0], post, g);
    }
  }
}
