/** ORDER BY over several columns: rows are compared by a key, a sequence of
    column values, lexicographically, with integers ordered numerically and
    text by SQLite's BINARY collation (the byte order of Strings.Less). */
module Sorting {
  import opened Strings

  /** One column value of an ORDER BY key. */
  datatype Atom = Num(n: int) | Text(s: string)

  predicate AtomLess(a: Atom, b: Atom) {
    match (a, b)
    case (Num(m), Num(n)) => m < n
    case (Num(_), Text(_)) => true
    case (Text(_), Num(_)) => false
    case (Text(s), Text(t)) => Less(s, t)
  }

  /** Column by column: the first column that differs decides. */
  predicate KeyLess(a: seq<Atom>, b: seq<Atom>)
    decreases |a|
  {
    if |a| == 0 then |b| > 0
    else if |b| == 0 then false
    else if a[0] != b[0] then AtomLess(a[0], b[0])
    else KeyLess(a[1..], b[1..])
  }

  predicate KeyLessEq(a: seq<Atom>, b: seq<Atom>) {
    a == b || KeyLess(a, b)
  }

  lemma AtomLessIrreflexive(a: Atom)
    ensures !AtomLess(a, a)
  {
    if a.Text? {
      LessIrreflexive(a.s);
    }
  }

  lemma AtomLessTransitive(a: Atom, b: Atom, c: Atom)
    requires AtomLess(a, b) && AtomLess(b, c)
    ensures AtomLess(a, c)
  {
    if a.Text? && b.Text? && c.Text? {
      LessTransitive(a.s, b.s, c.s);
    }
  }

  lemma AtomLessTotal(a: Atom, b: Atom)
    requires a != b
    ensures AtomLess(a, b) || AtomLess(b, a)
  {
    if a.Text? && b.Text? {
      LessTotal(a.s, b.s);
    }
  }

  lemma {:induction false} KeyLessIrreflexive(a: seq<Atom>)
    ensures !KeyLess(a, a)
    decreases |a|
  {
    if |a| > 0 {
      KeyLessIrreflexive(a[1..]);
    }
  }

  lemma {:induction false} KeyLessTransitive(a: seq<Atom>, b: seq<Atom>, c: seq<Atom>)
    requires KeyLess(a, b) && KeyLess(b, c)
    ensures KeyLess(a, c)
    decreases |a|
  {
    if |a| > 0 {
      if a[0] == b[0] && b[0] == c[0] {
        KeyLessTransitive(a[1..], b[1..], c[1..]);
      } else if a[0] != b[0] && b[0] != c[0] {
        AtomLessTransitive(a[0], b[0], c[0]);
        if a[0] == c[0] {
          AtomLessTransitive(b[0], a[0], b[0]);
          AtomLessIrreflexive(b[0]);
        }
      }
    }
  }

  lemma {:induction false} KeyLessTotal(a: seq<Atom>, b: seq<Atom>)
    requires a != b
    ensures KeyLess(a, b) || KeyLess(b, a)
    decreases |a|
  {
    if |a| > 0 && |b| > 0 {
      if a[0] == b[0] {
        assert a == [a[0]] + a[1..] && b == [b[0]] + b[1..];
        KeyLessTotal(a[1..], b[1..]);
      } else {
        AtomLessTotal(a[0], b[0]);
      }
    }
  }

  lemma KeyLessEqTransitive(a: seq<Atom>, b: seq<Atom>, c: seq<Atom>)
    requires KeyLessEq(a, b) && KeyLessEq(b, c)
    ensures KeyLessEq(a, c)
  {
    if a != b && b != c {
      KeyLessTransitive(a, b, c);
    }
  }

  lemma KeyLessEqAntisymmetric(a: seq<Atom>, b: seq<Atom>)
    requires KeyLessEq(a, b) && KeyLessEq(b, a)
    ensures a == b
  {
    if a != b {
      KeyLessTransitive(a, b, a);
      KeyLessIrreflexive(a);
    }
  }

  /** A key that tells rows apart: the ORDER BY lists every column. */
  ghost predicate Injective<T(!new)>(key: T -> seq<Atom>) {
    forall x, y :: key(x) == key(y) ==> x == y
  }

  predicate SortedBy<T>(key: T -> seq<Atom>, xs: seq<T>) {
    forall i, j | 0 <= i < j < |xs| :: KeyLessEq(key(xs[i]), key(xs[j]))
  }

  /** Put x before the first element whose key is not below x's. */
  function InsertBy<T>(key: T -> seq<Atom>, x: T, ys: seq<T>): (r: seq<T>)
    requires SortedBy(key, ys)
    ensures SortedBy(key, r)
    ensures multiset(r) == multiset(ys) + multiset{x}
    decreases |ys|
  {
    if |ys| == 0 then [x]
    else if KeyLessEq(key(x), key(ys[0])) then
      InsertFront(key, x, ys);
      [x] + ys
    else
      var rest := InsertBy(key, x, ys[1..]);
      InsertBehind(key, x, ys, rest);
      [ys[0]] + rest
  }

  lemma InsertFront<T>(key: T -> seq<Atom>, x: T, ys: seq<T>)
    requires SortedBy(key, ys) && |ys| > 0 && KeyLessEq(key(x), key(ys[0]))
    ensures SortedBy(key, [x] + ys)
  {
    forall j | 0 <= j < |ys| ensures KeyLessEq(key(x), key(ys[j])) {
      if j > 0 {
        KeyLessEqTransitive(key(x), key(ys[0]), key(ys[j]));
      }
    }
  }

  lemma InsertBehind<T>(key: T -> seq<Atom>, x: T, ys: seq<T>, rest: seq<T>)
    requires SortedBy(key, ys) && |ys| > 0 && !KeyLessEq(key(x), key(ys[0]))
    requires SortedBy(key, rest)
    requires multiset(rest) == multiset(ys[1..]) + multiset{x}
    ensures SortedBy(key, [ys[0]] + rest)
    ensures multiset([ys[0]] + rest) == multiset(ys) + multiset{x}
  {
    KeyLessTotal(key(x), key(ys[0]));
    forall j | 0 <= j < |rest| ensures KeyLessEq(key(ys[0]), key(rest[j])) {
      assert rest[j] in multiset(rest);
      if rest[j] != x {
        assert rest[j] in multiset(ys[1..]);
        var k :| 0 <= k < |ys[1..]| && ys[1..][k] == rest[j];
        assert ys[k + 1] == rest[j];
      }
    }
    assert ys == [ys[0]] + ys[1..];
  }

  /** Insertion sort: a stable sort, though with an injective key every
      order that sorts the rows is the same one (SortedUnique). */
  function SortBy<T>(key: T -> seq<Atom>, xs: seq<T>): (r: seq<T>)
    ensures SortedBy(key, r)
    ensures multiset(r) == multiset(xs)
    decreases |xs|
  {
    if |xs| == 0 then []
    else
      var r := InsertBy(key, xs[|xs| - 1], SortBy(key, xs[..|xs| - 1]));
      assert xs == xs[..|xs| - 1] + [xs[|xs| - 1]];
      r
  }

  /** Two sorted arrangements of the same rows are equal when the key tells
      rows apart. */
  lemma {:induction false} SortedUnique<T(!new)>(key: T -> seq<Atom>, a: seq<T>, b: seq<T>)
    requires Injective(key)
    requires SortedBy(key, a) && SortedBy(key, b)
    requires multiset(a) == multiset(b)
    ensures a == b
    decreases |a|
  {
    assert |b| == |multiset(b)| == |multiset(a)| == |a|;
    if |a| > 0 {
      SortedHeads(key, a, b);
      DropHead(a, b);
      SortedUnique(key, a[1..], b[1..]);
      assert a == [a[0]] + a[1..] && b == [b[0]] + b[1..];
    }
  }

  /** Both heads are a least element of the same rows, so they agree. */
  lemma SortedHeads<T(!new)>(key: T -> seq<Atom>, a: seq<T>, b: seq<T>)
    requires Injective(key)
    requires SortedBy(key, a) && SortedBy(key, b)
    requires multiset(a) == multiset(b) && |a| > 0 && |b| > 0
    ensures a[0] == b[0]
  {
    assert a[0] in multiset(b) && b[0] in multiset(a);
    var k :| 0 <= k < |b| && b[k] == a[0];
    var m :| 0 <= m < |a| && a[m] == b[0];
    assert KeyLessEq(key(a[0]), key(a[m]));
    assert KeyLessEq(key(b[0]), key(b[k]));
    KeyLessEqAntisymmetric(key(a[0]), key(b[0]));
  }

  lemma DropHead<T>(a: seq<T>, b: seq<T>)
    requires multiset(a) == multiset(b) && |a| > 0 && |b| > 0 && a[0] == b[0]
    ensures multiset(a[1..]) == multiset(b[1..])
  {
    assert a == [a[0]] + a[1..] && b == [b[0]] + b[1..];
    assert multiset(a[1..]) == multiset(a) - multiset{a[0]};
    assert multiset(b[1..]) == multiset(b) - multiset{b[0]};
  }

  /** So the sorted rows depend only on which rows there are, with their
      multiplicities, and not on the order they were inserted in. */
  lemma SortOrderFree<T(!new)>(key: T -> seq<Atom>, xs: seq<T>, ys: seq<T>)
    requires Injective(key)
    requires multiset(xs) == multiset(ys)
    ensures SortBy(key, xs) == SortBy(key, ys)
  {
    SortedUnique(key, SortBy(key, xs), SortBy(key, ys));
  }
}
