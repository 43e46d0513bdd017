/** Element-wise maps, concatenating maps and counts over sequences, and the
    fact that each of them depends only on the multiset of its input, up to
    the order of the output. */
module Lists {

  /** f applied to each element, in order. */
  function Each<A, B>(f: A -> B, xs: seq<A>): (r: seq<B>)
    ensures |r| == |xs|
    ensures forall i | 0 <= i < |xs| :: r[i] == f(xs[i])
  {
    seq(|xs|, i requires 0 <= i < |xs| => f(xs[i]))
  }

  /** The concatenation of f(x) over the elements x of xs, in order. */
  function FlatMap<A, B>(f: A -> seq<B>, xs: seq<A>): seq<B>
    decreases |xs|
  {
    if |xs| == 0 then [] else f(xs[0]) + FlatMap(f, xs[1..])
  }

  /** The number of elements satisfying p. */
  function Count<A>(p: A -> bool, xs: seq<A>): nat
    decreases |xs|
  {
    if |xs| == 0 then 0 else (if p(xs[0]) then 1 else 0) + Count(p, xs[1..])
  }

  /** The rows of several tables one after the other. */
  function Flatten<A>(xss: seq<seq<A>>): (r: seq<A>)
    ensures multiset(r) == FlatMultiset(xss)
    decreases |xss|
  {
    if |xss| == 0 then [] else xss[0] + Flatten(xss[1..])
  }

  function FlatMultiset<A>(xss: seq<seq<A>>): multiset<A>
    decreases |xss|
  {
    if |xss| == 0 then multiset{} else multiset(xss[0]) + FlatMultiset(xss[1..])
  }

  lemma {:induction false} FlatMapMembers<A, B>(f: A -> seq<B>, xs: seq<A>, y: B)
    ensures y in FlatMap(f, xs) <==> exists x | x in xs :: y in f(x)
    decreases |xs|
  {
    if |xs| > 0 {
      FlatMapMembers(f, xs[1..], y);
      assert xs == [xs[0]] + xs[1..];
      if y in FlatMap(f, xs[1..]) {
        var x :| x in xs[1..] && y in f(x);
        assert x in xs;
      }
    }
  }

  lemma {:induction false} FlatMapAppend<A, B>(f: A -> seq<B>, xs: seq<A>, ys: seq<A>)
    ensures FlatMap(f, xs + ys) == FlatMap(f, xs) + FlatMap(f, ys)
    decreases |xs|
  {
    if |xs| == 0 {
      assert xs + ys == ys;
    } else {
      assert (xs + ys)[1..] == xs[1..] + ys;
      FlatMapAppend(f, xs[1..], ys);
    }
  }

  lemma {:induction false} CountAppend<A>(p: A -> bool, xs: seq<A>, ys: seq<A>)
    ensures Count(p, xs + ys) == Count(p, xs) + Count(p, ys)
    decreases |xs|
  {
    if |xs| == 0 {
      assert xs + ys == ys;
    } else {
      assert (xs + ys)[1..] == xs[1..] + ys;
      CountAppend(p, xs[1..], ys);
    }
  }

  /** The first element of xs sits somewhere in any rearrangement ys, and the
      rest of xs is a rearrangement of what is left of ys. */
  lemma Pick<A>(xs: seq<A>, ys: seq<A>) returns (k: nat)
    requires |xs| > 0 && multiset(xs) == multiset(ys)
    ensures k < |ys| && ys[k] == xs[0]
    ensures ys == ys[..k] + [xs[0]] + ys[k + 1..]
    ensures multiset(xs[1..]) == multiset(ys[..k] + ys[k + 1..])
  {
    assert xs[0] in multiset(ys);
    k :| 0 <= k < |ys| && ys[k] == xs[0];
    assert ys == ys[..k] + [xs[0]] + ys[k + 1..];
    assert xs == [xs[0]] + xs[1..];
    assert multiset(xs) == multiset{xs[0]} + multiset(xs[1..]);
    assert multiset(ys) == multiset(ys[..k]) + multiset{xs[0]} + multiset(ys[k + 1..]);
    assert multiset(ys[..k] + ys[k + 1..]) == multiset(ys[..k]) + multiset(ys[k + 1..]);
    assert multiset(xs[1..]) == multiset(xs) - multiset{xs[0]};
    assert multiset(ys[..k] + ys[k + 1..]) == multiset(ys) - multiset{xs[0]};
  }

  lemma EachAppend<A, B>(f: A -> B, xs: seq<A>, ys: seq<A>)
    ensures Each(f, xs + ys) == Each(f, xs) + Each(f, ys)
  {
  }

  lemma {:induction false} EachOrderFree<A, B>(f: A -> B, xs: seq<A>, ys: seq<A>)
    requires multiset(xs) == multiset(ys)
    ensures multiset(Each(f, xs)) == multiset(Each(f, ys))
    decreases |xs|
  {
    if |xs| == 0 {
      assert |ys| == |multiset(ys)| == 0;
    } else {
      var k := Pick(xs, ys);
      var rest := ys[..k] + ys[k + 1..];
      EachOrderFree(f, xs[1..], rest);
      EachAppend(f, [xs[0]], xs[1..]);
      EachAppend(f, ys[..k] + [xs[0]], ys[k + 1..]);
      EachAppend(f, ys[..k], [xs[0]]);
      EachAppend(f, ys[..k], ys[k + 1..]);
      assert [xs[0]] + xs[1..] == xs;
    }
  }

  lemma {:induction false} FlatMapOrderFree<A, B>(f: A -> seq<B>, xs: seq<A>, ys: seq<A>)
    requires multiset(xs) == multiset(ys)
    ensures multiset(FlatMap(f, xs)) == multiset(FlatMap(f, ys))
    decreases |xs|
  {
    if |xs| == 0 {
      assert |ys| == |multiset(ys)| == 0;
    } else {
      var k := Pick(xs, ys);
      var rest := ys[..k] + ys[k + 1..];
      FlatMapOrderFree(f, xs[1..], rest);
      FlatMapAppend(f, ys[..k] + [xs[0]], ys[k + 1..]);
      FlatMapAppend(f, ys[..k], [xs[0]]);
      FlatMapAppend(f, ys[..k], ys[k + 1..]);
      assert FlatMap(f, [xs[0]]) == f(xs[0]);
    }
  }

  lemma {:induction false} CountOrderFree<A>(p: A -> bool, xs: seq<A>, ys: seq<A>)
    requires multiset(xs) == multiset(ys)
    ensures Count(p, xs) == Count(p, ys)
    decreases |xs|
  {
    if |xs| == 0 {
      assert |ys| == |multiset(ys)| == 0;
    } else {
      var k := Pick(xs, ys);
      var rest := ys[..k] + ys[k + 1..];
      CountOrderFree(p, xs[1..], rest);
      CountAppend(p, ys[..k] + [xs[0]], ys[k + 1..]);
      CountAppend(p, ys[..k], [xs[0]]);
      CountAppend(p, ys[..k], ys[k + 1..]);
    }
  }

  /** Tables loaded in any order hold the same rows. */
  lemma {:induction false} FlattenOrderFree<A>(xss: seq<seq<A>>, yss: seq<seq<A>>)
    requires multiset(xss) == multiset(yss)
    ensures multiset(Flatten(xss)) == multiset(Flatten(yss))
    decreases |xss|
  {
    if |xss| == 0 {
      assert |yss| == |multiset(yss)| == 0;
    } else {
      var k := Pick(xss, yss);
      var rest := yss[..k] + yss[k + 1..];
      FlattenOrderFree(xss[1..], rest);
      FlatMultisetAppend(yss[..k] + [xss[0]], yss[k + 1..]);
      FlatMultisetAppend(yss[..k], [xss[0]]);
      FlatMultisetAppend(yss[..k], yss[k + 1..]);
      assert FlatMultiset([xss[0]]) == multiset(xss[0]);
    }
  }

  lemma {:induction false} FlattenAppend<A>(xss: seq<seq<A>>, yss: seq<seq<A>>)
    ensures Flatten(xss + yss) == Flatten(xss) + Flatten(yss)
    decreases |xss|
  {
    if |xss| == 0 {
      assert xss + yss == yss;
    } else {
      assert (xss + yss)[1..] == xss[1..] + yss;
      FlattenAppend(xss[1..], yss);
    }
  }

  /** Loading one more table appends its rows. */
  lemma FlattenSnoc<A>(xss: seq<seq<A>>, i: nat)
    requires i < |xss|
    ensures Flatten(xss[..i + 1]) == Flatten(xss[..i]) + xss[i]
  {
    assert xss[..i + 1] == xss[..i] + [xss[i]];
    FlattenAppend(xss[..i], [xss[i]]);
    assert Flatten([xss[i]]) == xss[i] + Flatten([]);
  }

  lemma {:induction false} FlatMultisetAppend<A>(xss: seq<seq<A>>, yss: seq<seq<A>>)
    ensures FlatMultiset(xss + yss) == FlatMultiset(xss) + FlatMultiset(yss)
    decreases |xss|
  {
    if |xss| == 0 {
      assert xss + yss == yss;
    } else {
      assert (xss + yss)[1..] == xss[1..] + yss;
      FlatMultisetAppend(xss[1..], yss);
    }
  }

  /** Concatenation regrouped, for long texts where the solver does not
      regroup by itself. */
  lemma Reassociate<A>(a: seq<A>, b: seq<A>, c: seq<A>)
    ensures a + b + c == a + (b + c)
  {
  }
}
