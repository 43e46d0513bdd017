/** The 16-bit fault code shared by include/via.hpp and include/ibox.hpp:
    eight 2-bit slots, slot i at bits 2i and 2i+1. Slots 0..6 hold the
    severity of one defect category and slot 7 is padding. Which category
    owns which slot is a naming question, settled in module Vocabulary;
    everything here works on slot indices and is common to both copies. */
module FaultCode {

  type Fault = bv16

  /** Severity level held by a slot: 0 none, 1 fair, 2 poor, 3 verypoor. */
  type Level = bv2

  const NONE: Fault := 0

  /** kNFaultType, kNFaultLevel and kNFault. */
  const NumTypes: nat := 7
  const NumLevels: nat := 3
  const NumCells: nat := 21

  /** The bit offset `i * 2` of slot i. */
  function Shift(i: nat): (k: bv4)
    requires i < 8
    ensures k % 2 == 0 && k <= 14
  {
    if i == 0 then 0 else if i == 1 then 2 else if i == 2 then 4 else if i == 3 then 6
    else if i == 4 then 8 else if i == 5 then 10 else if i == 6 then 12 else 14
  }

  lemma ShiftInjective(i: nat, j: nat)
    requires i < 8 && j < 8 && i != j
    ensures Shift(i) != Shift(j)
  {
  }

  /** The two bits of f at offset k, `(f >> k) & 0b11`. */
  function Field(f: Fault, k: bv4): Level {
    ((f >> k) & 3) as bv2
  }

  /** The level held by slot i. */
  function Slot(f: Fault, i: nat): Level
    requires i < 8
  {
    Field(f, Shift(i))
  }

  /** `level << k`. */
  function Shifted(k: bv4, l: Level): Fault {
    (l as bv16) << k
  }

  lemma FieldShifted(k: bv4, l: Level, m: bv4)
    requires k % 2 == 0 && m % 2 == 0
    ensures Field(Shifted(k, l), m) == if k == m then l else 0
  {
  }

  /** `level << (2 * slot)`: the enum constant that holds l in slot s. */
  function Mask(s: nat, l: Level): (r: Fault)
    requires s < 8
    ensures Slot(r, s) == l
    ensures forall j | 0 <= j < 8 && j != s :: Slot(r, j) == 0
  {
    forall j | 0 <= j < 8 ensures Slot(Shifted(Shift(s), l), j) == if j == s then l else 0 {
      FieldShifted(Shift(s), l, Shift(j));
      if j != s {
        ShiftInjective(s, j);
      }
    }
    Shifted(Shift(s), l)
  }

  /** Two codes are equal exactly when all eight slots agree. */
  lemma SlotsDetermine(f: Fault, g: Fault)
    requires forall i | 0 <= i < 8 :: Slot(f, i) == Slot(g, i)
    ensures f == g
  {
    assert Slot(f, 0) == Slot(g, 0);
    assert Slot(f, 1) == Slot(g, 1);
    assert Slot(f, 2) == Slot(g, 2);
    assert Slot(f, 3) == Slot(g, 3);
    assert Slot(f, 4) == Slot(g, 4);
    assert Slot(f, 5) == Slot(g, 5);
    assert Slot(f, 6) == Slot(g, 6);
    assert Slot(f, 7) == Slot(g, 7);
  }

  /** True iff the code is Fault::NONE. */
  predicate IsEmpty(f: Fault) {
    f == NONE
  }

  lemma NoneIsEmpty()
    ensures forall i | 0 <= i < 8 :: Slot(NONE, i) == 0
  {
    forall i | 0 <= i < 8 ensures Slot(NONE, i) == 0 {
      FieldZero(Shift(i));
    }
  }

  lemma FieldZero(k: bv4)
    ensures Field(NONE, k) == 0
  {
  }

  lemma IsEmptyMeansNoSlot(f: Fault)
    ensures IsEmpty(f) <==> forall i | 0 <= i < 8 :: Slot(f, i) == 0
  {
    if forall i | 0 <= i < 8 :: Slot(f, i) == 0 {
      SlotsDetermine(f, NONE);
    }
  }

  lemma FieldOr(a: Fault, b: Fault, k: bv4)
    ensures Field(a | b, k) == Field(a, k) | Field(b, k)
  {
  }

  lemma FieldAnd(a: Fault, b: Fault, k: bv4)
    ensures Field(a & b, k) == Field(a, k) & Field(b, k)
  {
  }

  lemma FieldNot(a: Fault, k: bv4)
    requires k <= 14
    ensures Field(!a, k) == !Field(a, k)
  {
  }

  lemma SlotOr(a: Fault, b: Fault, i: nat)
    requires i < 8
    ensures Slot(a | b, i) == Slot(a, i) | Slot(b, i)
  {
    FieldOr(a, b, Shift(i));
  }

  lemma SlotAnd(a: Fault, b: Fault, i: nat)
    requires i < 8
    ensures Slot(a & b, i) == Slot(a, i) & Slot(b, i)
  {
    FieldAnd(a, b, Shift(i));
  }

  lemma SlotNot(a: Fault, i: nat)
    requires i < 8
    ensures Slot(!a, i) == !Slot(a, i)
  {
    FieldNot(a, Shift(i));
  }

  /** operator|: bitwise OR of the two 16-bit values, so each slot gets the
      bitwise OR of the two levels. */
  function Or(a: Fault, b: Fault): (r: Fault)
    ensures forall i | 0 <= i < 8 :: Slot(r, i) == Slot(a, i) | Slot(b, i)
  {
    forall i | 0 <= i < 8 ensures Slot(a | b, i) == Slot(a, i) | Slot(b, i) {
      SlotOr(a, b, i);
    }
    a | b
  }

  /** operator&: bitwise AND of the two 16-bit values. */
  function And(a: Fault, b: Fault): (r: Fault)
    ensures forall i | 0 <= i < 8 :: Slot(r, i) == Slot(a, i) & Slot(b, i)
  {
    forall i | 0 <= i < 8 ensures Slot(a & b, i) == Slot(a, i) & Slot(b, i) {
      SlotAnd(a, b, i);
    }
    a & b
  }

  /** operator|=: lhs becomes lhs | rhs, and the new lhs is returned. */
  method OrAssign(lhs: Fault, rhs: Fault) returns (newLhs: Fault, result: Fault)
    ensures forall i | 0 <= i < 8 :: Slot(newLhs, i) == Slot(lhs, i) | Slot(rhs, i)
    ensures result == newLhs
  {
    newLhs := Or(lhs, rhs);
    result := newLhs;
  }

  /** operator| is commutative, associative and idempotent, with NONE as identity. */
  lemma OrLaws(a: Fault, b: Fault, c: Fault)
    ensures Or(a, b) == Or(b, a)
    ensures Or(Or(a, b), c) == Or(a, Or(b, c))
    ensures Or(a, a) == a
    ensures Or(a, NONE) == a && Or(NONE, a) == a
  {
  }

  /** The enum constants of one category never overlap those of another:
      OR-ing constants of different slots keeps both levels intact. */
  lemma MasksDisjoint(s: nat, l: Level, t: nat, m: Level)
    requires s < 8 && t < 8 && s != t
    ensures And(Mask(s, l), Mask(t, m)) == NONE
    ensures Slot(Or(Mask(s, l), Mask(t, m)), s) == l
    ensures Slot(Or(Mask(s, l), Mask(t, m)), t) == m
  {
    var r := And(Mask(s, l), Mask(t, m));
    assert forall i | 0 <= i < 8 :: Slot(r, i) == Slot(NONE, i);
    SlotsDetermine(r, NONE);
  }

  /** set_fault: ORs `level << 2 * (type - 1)` into the code, for a FaultType
      value 1..7 (FaultType::NONE would make the shift amount negative). */
  function SetFault(f: Fault, t: nat, l: Level): (r: Fault)
    requires 1 <= t <= 7
    ensures Slot(r, t - 1) == Slot(f, t - 1) | l
    ensures forall j | 0 <= j < 8 && j != t - 1 :: Slot(r, j) == Slot(f, j)
  {
    var m := Mask(t - 1, l);
    assert Slot(Or(f, m), t - 1) == Slot(f, t - 1) | Slot(m, t - 1);
    Or(f, m)
  }

  /** set_fault never lowers a slot: the new level is at least the old one
      and at least the level set. */
  lemma SetFaultRaises(f: Fault, t: nat, l: Level)
    requires 1 <= t <= 7
    ensures Slot(SetFault(f, t, l), t - 1) >= Slot(f, t - 1)
    ensures Slot(SetFault(f, t, l), t - 1) >= l
  {
    var a, r := Slot(f, t - 1), Slot(SetFault(f, t, l), t - 1);
    assert r == a | l;
  }

  /** MAX2 of two levels. */
  function MaxLevel(a: Level, b: Level): (m: Level)
    ensures m >= a && m >= b
    ensures m == a || m == b
  {
    if a > b then a else b
  }

  /** One step of max_fault: `(lhs & ~(0b11 << 2i)) | (l << 2i)`. */
  function WithSlot(f: Fault, i: nat, l: Level): (r: Fault)
    requires i < 8
    ensures Slot(r, i) == l
    ensures forall j | 0 <= j < 8 && j != i :: Slot(r, j) == Slot(f, j)
  {
    var clear, put := Mask(i, 3), Mask(i, l);
    forall j | 0 <= j < 8 ensures Slot(Or(And(f, !clear), put), j) == if j == i then l else Slot(f, j) {
      SlotNot(clear, j);
    }
    Or(And(f, !clear), put)
  }

  /** The code whose slot i holds ls[i] for i < n and 0 above. */
  function Pack(ls: seq<Level>, n: nat): Fault
    requires n <= |ls| && n <= 8
    decreases n
  {
    if n == 0 then NONE else Or(Pack(ls, n - 1), Mask(n - 1, ls[n - 1]))
  }

  lemma {:induction false} SlotPack(ls: seq<Level>, n: nat, j: nat)
    requires n <= |ls| && n <= 8 && j < 8
    ensures Slot(Pack(ls, n), j) == if j < n then ls[j] else 0
    decreases n
  {
    if n > 0 {
      SlotPack(ls, n - 1, j);
    }
  }

  /** The eight slots of a code. */
  function Unpack(f: Fault): (ls: seq<Level>)
    ensures |ls| == 8
  {
    seq(8, i requires 0 <= i < 8 => Slot(f, i))
  }

  /** Packing and unpacking are inverse. */
  lemma PackUnpack(f: Fault, ls: seq<Level>)
    requires |ls| == 8
    ensures Pack(Unpack(f), 8) == f
    ensures Unpack(Pack(ls, 8)) == ls
  {
    forall j | 0 <= j < 8 ensures Slot(Pack(Unpack(f), 8), j) == Slot(f, j) {
      SlotPack(Unpack(f), 8, j);
    }
    SlotsDetermine(Pack(Unpack(f), 8), f);
    forall j | 0 <= j < 8 ensures Unpack(Pack(ls, 8))[j] == ls[j] {
      SlotPack(ls, 8, j);
    }
  }

  /** The code max_fault leaves in lhs: the larger level in each of the seven
      category slots and the padding bits of lhs. */
  function Combine(a: Fault, b: Fault): (r: Fault)
    ensures forall i | 0 <= i < 7 :: Slot(r, i) == MaxLevel(Slot(a, i), Slot(b, i))
    ensures Slot(r, 7) == Slot(a, 7)
  {
    var ls := seq(8, i requires 0 <= i < 8 => if i < 7 then MaxLevel(Slot(a, i), Slot(b, i)) else Slot(a, 7));
    forall j | 0 <= j < 8 ensures Slot(Pack(ls, 8), j) == ls[j] {
      SlotPack(ls, 8, j);
    }
    Pack(ls, 8)
  }

  /** max_fault(lhs, rhs): rewrites lhs slot by slot for slots 0..6. */
  method MaxFault(lhs: Fault, rhs: Fault) returns (r: Fault)
    ensures forall i | 0 <= i < 7 :: Slot(r, i) == MaxLevel(Slot(lhs, i), Slot(rhs, i))
    ensures Slot(r, 7) == Slot(lhs, 7)
    ensures r == Combine(lhs, rhs)
  {
    r := lhs;
    for i := 0 to NumTypes
      invariant forall j | 0 <= j < i :: Slot(r, j) == MaxLevel(Slot(lhs, j), Slot(rhs, j))
      invariant forall j | i <= j < 8 :: Slot(r, j) == Slot(lhs, j)
    {
      var condLhs := Slot(r, i);
      var condRhs := Slot(rhs, i);
      r := WithSlot(r, i, MaxLevel(condLhs, condRhs));
    }
    CombineIs(lhs, rhs);
    CombinationUnique(r, Combine(lhs, rhs), lhs, rhs);
  }

  /** What the slots of a Combine result are, stated on plain values. */
  predicate IsCombination(r: Fault, a: Fault, b: Fault) {
    (forall i | 0 <= i < 7 :: Slot(r, i) == MaxLevel(Slot(a, i), Slot(b, i))) && Slot(r, 7) == Slot(a, 7)
  }

  lemma CombineIs(a: Fault, b: Fault)
    ensures IsCombination(Combine(a, b), a, b)
  {
  }

  /** Combine is commutative when the padding bits agree (they come from lhs). */
  lemma CombineCommutative(a: Fault, b: Fault)
    requires Slot(a, 7) == Slot(b, 7)
    ensures Combine(a, b) == Combine(b, a)
  {
    CombineIs(a, b);
    CombineIs(b, a);
    CommuteCombinations(Combine(a, b), Combine(b, a), a, b);
  }

  lemma CommuteCombinations(x: Fault, y: Fault, a: Fault, b: Fault)
    requires IsCombination(x, a, b) && IsCombination(y, b, a) && Slot(a, 7) == Slot(b, 7)
    ensures x == y
  {
    SlotsDetermine(x, y);
  }

  /** With different padding the order matters. */
  lemma CombineKeepsLhsPadding()
    ensures Combine(Mask(7, 1), NONE) != Combine(NONE, Mask(7, 1))
  {
    assert Slot(Combine(Mask(7, 1), NONE), 7) == 1;
    assert Slot(Combine(NONE, Mask(7, 1)), 7) == 0;
  }

  lemma CombineAssociative(a: Fault, b: Fault, c: Fault)
    ensures Combine(Combine(a, b), c) == Combine(a, Combine(b, c))
  {
    var ab, bc := Combine(a, b), Combine(b, c);
    CombineIs(a, b);
    CombineIs(b, c);
    CombineIs(ab, c);
    CombineIs(a, bc);
    AssociateCombinations(Combine(ab, c), Combine(a, bc), ab, bc, a, b, c);
  }

  lemma AssociateCombinations(x: Fault, y: Fault, ab: Fault, bc: Fault, a: Fault, b: Fault, c: Fault)
    requires IsCombination(ab, a, b) && IsCombination(bc, b, c)
    requires IsCombination(x, ab, c) && IsCombination(y, a, bc)
    ensures x == y
  {
    SlotsDetermine(x, y);
  }

  /** A code is determined by being the combination of a and b. */
  lemma CombinationUnique(x: Fault, y: Fault, a: Fault, b: Fault)
    requires IsCombination(x, a, b) && IsCombination(y, a, b)
    ensures x == y
  {
    SlotsDetermine(x, y);
  }

  lemma CombineIdempotent(a: Fault)
    ensures Combine(a, a) == a
  {
    CombineIs(a, a);
    CombinationUnique(Combine(a, a), a, a, a);
  }

  lemma CombineIdentity(a: Fault)
    ensures Combine(a, NONE) == a
    ensures Slot(a, 7) == 0 ==> Combine(NONE, a) == a
  {
    CombineIs(a, NONE);
    NoneIsEmpty();
    CombinationUnique(Combine(a, NONE), a, a, NONE);
    if Slot(a, 7) == 0 {
      CombineIs(NONE, a);
      CombinationUnique(Combine(NONE, a), a, NONE, a);
    }
  }

  /** OR is not the per-slot maximum: fair | poor is verypoor, max is poor. */
  lemma OrIsNotMax()
    ensures Or(Mask(0, 1), Mask(0, 2)) == Mask(0, 3)
    ensures Combine(Mask(0, 1), Mask(0, 2)) == Mask(0, 2)
  {
    SlotsDetermine(Combine(Mask(0, 1), Mask(0, 2)), Mask(0, 2));
  }

  /** Box::MaxSeverity: the largest level among the seven category slots. */
  function MaxSeverity(f: Fault): (r: Level)
    ensures forall i | 0 <= i < 7 :: Slot(f, i) <= r
    ensures exists i | 0 <= i < 7 :: Slot(f, i) == r
  {
    MaxLevel(Slot(f, 0), MaxLevel(Slot(f, 1), MaxLevel(Slot(f, 2),
      MaxLevel(Slot(f, 3), MaxLevel(Slot(f, 4), MaxLevel(Slot(f, 5), Slot(f, 6)))))))
  }

  /** Counter cell of slot t at level l != 0: `t * kNFaultLevel + (l - 1)`. */
  function Cell(t: nat, l: nat): (k: nat)
    requires t < 7 && 1 <= l <= 3
    ensures k < NumCells
    ensures k / NumLevels == t && k % NumLevels == l - 1
  {
    t * NumLevels + (l - 1)
  }

  /** The value fault2count puts in cell k: 1 when slot k / 3 holds level
      k % 3 + 1, else 0. */
  function CountCell(f: Fault, k: nat): (c: nat)
    requires k < NumCells
    ensures c <= 1
  {
    if Slot(f, k / NumLevels) as int == k % NumLevels + 1 then 1 else 0
  }

  /** Cell (t, l) is set exactly when slot t holds level l. */
  lemma CountCellAt(f: Fault, t: nat, l: nat)
    requires t < 7 && 1 <= l <= 3
    ensures CountCell(f, Cell(t, l)) == if Slot(f, t) as int == l then 1 else 0
  {
  }

  /** At most one of the three cells of a category is set, and one is set
      exactly when its slot is non-zero. */
  lemma OneHotPerCategory(f: Fault, t: nat)
    requires t < 7
    ensures CountCell(f, Cell(t, 1)) + CountCell(f, Cell(t, 2)) + CountCell(f, Cell(t, 3))
            == if Slot(f, t) == 0 then 0 else 1
  {
    CountCellAt(f, t, 1);
    CountCellAt(f, t, 2);
    CountCellAt(f, t, 3);
  }

  /** fault2count: the 21 one-hot cells of a code. */
  method Fault2Count(f: Fault) returns (arr: seq<nat>)
    ensures |arr| == NumCells
    ensures forall k | 0 <= k < NumCells :: arr[k] == CountCell(f, k)
  {
    arr := seq(NumCells, _ => 0);
    for t := 0 to NumTypes
      invariant |arr| == NumCells
      invariant forall k | 0 <= k < NumCells :: arr[k] == if k / NumLevels < t then CountCell(f, k) else 0
    {
      var l := Slot(f, t);
      if l != 0 {
        var idx := Cell(t, l as nat);
        arr := arr[idx := 1];
      }
    }
  }

  /** The number of codes in fs whose cell k is set, i.e. whose slot k / 3
      holds level k % 3 + 1. */
  function Tally(fs: seq<Fault>, k: nat): (n: nat)
    requires k < NumCells
    ensures n <= |fs|
    decreases |fs|
  {
    if |fs| == 0 then 0 else Tally(fs[..|fs| - 1], k) + CountCell(fs[|fs| - 1], k)
  }

  lemma {:induction false} TallyAppend(xs: seq<Fault>, ys: seq<Fault>, k: nat)
    requires k < NumCells
    ensures Tally(xs + ys, k) == Tally(xs, k) + Tally(ys, k)
    decreases |ys|
  {
    if |ys| == 0 {
      assert xs + ys == xs;
    } else {
      assert (xs + ys)[..|xs + ys| - 1] == xs + ys[..|ys| - 1];
      TallyAppend(xs, ys[..|ys| - 1], k);
    }
  }
}
