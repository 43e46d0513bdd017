/** Strictly increasing sequences of strings: the key order in which a
    std::map<std::string, _> (and an nlohmann::json object) is iterated, and
    the order of SELECT DISTINCT ... ORDER BY on a text column. */
module Ordered {
  import opened Strings

  predicate Increasing(xs: seq<string>) {
    forall i, j | 0 <= i < j < |xs| :: Less(xs[i], xs[j])
  }

  /** Below the head of an increasing sequence is below all of it. */
  lemma BelowAll(x: string, ys: seq<string>)
    requires Increasing(ys) && |ys| > 0 && Less(x, ys[0])
    ensures forall j | 0 <= j < |ys| :: Less(x, ys[j])
    ensures x !in ys
  {
    forall j | 0 < j < |ys| ensures Less(x, ys[j]) {
      LessTransitive(x, ys[0], ys[j]);
    }
    LessIrreflexive(x);
  }

  /** Put x into its place; nothing changes when it is already there. */
  function Insert(x: string, ys: seq<string>): (r: seq<string>)
    requires Increasing(ys)
    ensures Increasing(r)
    ensures forall z :: z in r <==> z == x || z in ys
    ensures x in ys ==> r == ys
    ensures x !in ys ==> |r| == |ys| + 1
    decreases |ys|
  {
    if |ys| == 0 then [x]
    else if x == ys[0] then ys
    else if Less(x, ys[0]) then
      BelowAll(x, ys);
      [x] + ys
    else
      var rest := Insert(x, ys[1..]);
      HeadBelowInsert(x, ys, rest);
      [ys[0]] + rest
  }

  lemma HeadBelowInsert(x: string, ys: seq<string>, rest: seq<string>)
    requires Increasing(ys) && |ys| > 0 && x != ys[0] && !Less(x, ys[0])
    requires forall z :: z in rest <==> z == x || z in ys[1..]
    requires Increasing(rest)
    ensures Increasing([ys[0]] + rest)
  {
    LessTotal(x, ys[0]);
    forall j | 0 <= j < |rest| ensures Less(ys[0], rest[j]) {
      if rest[j] != x {
        assert rest[j] in ys[1..];
        var k :| 0 <= k < |ys[1..]| && ys[1..][k] == rest[j];
        assert ys[k + 1] == rest[j];
      }
    }
  }

  /** The distinct elements of xs in increasing order. */
  function SortedDistinct(xs: seq<string>): (r: seq<string>)
    ensures Increasing(r)
    ensures forall z :: z in r <==> z in xs
    decreases |xs|
  {
    if |xs| == 0 then []
    else Insert(xs[|xs| - 1], SortedDistinct(xs[..|xs| - 1]))
  }

  /** An increasing sequence is determined by its elements. */
  lemma {:induction false} IncreasingUnique(a: seq<string>, b: seq<string>)
    requires Increasing(a) && Increasing(b)
    requires forall z :: z in a <==> z in b
    ensures a == b
    decreases |a|
  {
    SameEmpty(a, b);
    if |a| > 0 {
      HeadIsLeast(a, b);
      HeadIsLeast(b, a);
      if a[0] != b[0] {
        LessAsymmetric(a[0], b[0]);
      }
      forall z ensures z in a[1..] <==> z in b[1..] {
        TailElements(a, z);
        TailElements(b, z);
      }
      IncreasingUnique(a[1..], b[1..]);
      assert a == [a[0]] + a[1..] && b == [b[0]] + b[1..];
    }
  }

  lemma SameEmpty(a: seq<string>, b: seq<string>)
    requires forall z :: z in a <==> z in b
    ensures |a| == 0 <==> |b| == 0
  {
    if |b| > 0 {
      assert b[0] in a;
    }
    if |a| > 0 {
      assert a[0] in b;
    }
  }

  lemma HeadIsLeast(a: seq<string>, b: seq<string>)
    requires Increasing(b) && |a| > 0 && |b| > 0 && a[0] in b
    ensures a[0] == b[0] || Less(b[0], a[0])
  {
  }

  lemma TailElements(a: seq<string>, z: string)
    requires Increasing(a) && |a| > 0
    ensures z in a[1..] <==> z in a && z != a[0]
  {
    if z in a[1..] {
      var k :| 0 <= k < |a[1..]| && a[1..][k] == z;
      assert Less(a[0], a[k + 1]);
      LessIrreflexive(a[0]);
    }
    if z in a && z != a[0] {
      var k :| 0 <= k < |a| && a[k] == z;
      assert a[1..][k - 1] == z;
    }
  }

  /** So the distinct sorted list does not depend on the input order. */
  lemma SortedDistinctOrderFree(xs: seq<string>, ys: seq<string>)
    requires forall z :: z in xs <==> z in ys
    ensures SortedDistinct(xs) == SortedDistinct(ys)
  {
    IncreasingUnique(SortedDistinct(xs), SortedDistinct(ys));
  }

  /** Every element appears exactly once. */
  lemma IncreasingNoRepeat(xs: seq<string>, i: nat, j: nat)
    requires Increasing(xs) && i < |xs| && j < |xs| && xs[i] == xs[j]
    ensures i == j
  {
    if i < j || j < i {
      LessIrreflexive(xs[i]);
    }
  }
}
