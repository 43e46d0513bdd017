/** The exporters: Box::ToTsv, ImgBox::ToTsv and toTsv, the per-image
    counters ImgFaultCount with ToStr, and the running totals FaultStats of
    src/via.cpp, src/ibox.cpp and include/via.hpp. */
module Export {
  import opened Strings
  import opened FaultCode
  import opened Vocabulary
  import opened Boxes
  import opened Render
  import opened Lists
  import opened Grouper

  /** The column names of kTsvHeader. */
  const TsvColumns: seq<string> := ["prefix", "image", "cate", "level", "x", "y", "w", "h"]

  /** kTsvHeader: the column names separated by tabs. */
  const TsvHeader: string := Join(TsvColumns, "\t")

  /** The texts of xs written by w, one after the other. */
  function Texts<T>(w: T -> string, xs: seq<T>): string
    decreases |xs|
  {
    if |xs| == 0 then "" else Texts(w, xs[..|xs| - 1]) + w(xs[|xs| - 1])
  }

  lemma TextsSnoc<T>(w: T -> string, xs: seq<T>, x: T)
    ensures Texts(w, xs + [x]) == Texts(w, xs) + w(x)
  {
    assert (xs + [x])[..|xs|] == xs;
  }

  /** One more element of xs appends its text. */
  lemma TextsAt<T>(w: T -> string, xs: seq<T>, i: nat)
    requires i < |xs|
    ensures Texts(w, xs[..i + 1]) == Texts(w, xs[..i]) + w(xs[i])
  {
    assert xs[..i + 1][..i] == xs[..i];
  }

  /** The text is empty exactly when there is nothing to write, if every
      element writes something. */
  lemma TextsEmptyIff<T>(w: T -> string, xs: seq<T>)
    requires forall i | 0 <= i < |xs| :: |w(xs[i])| > 0
    ensures Texts(w, xs) == "" <==> |xs| == 0
  {
    if |xs| > 0 {
      assert |Texts(w, xs)| >= |w(xs[|xs| - 1])|;
    }
  }

  /** The text of a concatenation is the concatenation of the texts. */
  lemma {:induction false} TextsAppend<T>(w: T -> string, xs: seq<T>, ys: seq<T>)
    ensures Texts(w, xs + ys) == Texts(w, xs) + Texts(w, ys)
    decreases |ys|
  {
    if |ys| == 0 {
      assert xs + ys == xs;
    } else {
      assert (xs + ys)[..|xs + ys| - 1] == xs + ys[..|ys| - 1];
      TextsAppend(w, xs, ys[..|ys| - 1]);
    }
  }

  lemma {:induction false} TextsConcat<T>(w: T -> string, xs: seq<T>)
    ensures Texts(w, xs) == Concat(Each(w, xs))
    decreases |xs|
  {
    if |xs| > 0 {
      var init := xs[..|xs| - 1];
      TextsConcat(w, init);
      assert Each(w, xs) == Each(w, init) + [w(xs[|xs| - 1])];
      ConcatSnoc(Each(w, init), w(xs[|xs| - 1]));
    }
  }

  /** Texts of a faultless sequence are empty when w writes nothing for each. */
  lemma {:induction false} TextsSilent<T>(w: T -> string, xs: seq<T>)
    requires forall i | 0 <= i < |xs| :: w(xs[i]) == ""
    ensures Texts(w, xs) == ""
    decreases |xs|
  {
    if |xs| > 0 {
      TextsSilent(w, xs[..|xs| - 1]);
    }
  }

  /** The columns of the line of a box for one non-empty slot. */
  function Fields(group: string, b: Box, p: (nat, Level)): (fs: seq<string>)
    ensures |fs| == 8
  {
    [group, b.image, TypeToStr(p.0), LevelToStr(p.1 as int),
     IntToString(b.x), IntToString(b.y), IntToString(b.w), IntToString(b.h)]
  }

  /** The line Box::ToTsv appends for one non-empty slot: the columns
      separated by tabs, then a newline. */
  function TsvLine(group: string, b: Box, p: (nat, Level)): string {
    Join(Fields(group, b, p), "\t") + "\n"
  }

  function LineWriter(group: string, b: Box): ((nat, Level)) -> string {
    p => TsvLine(group, b, p)
  }

  /** The lines of a box: one per non-empty slot, in slot order. */
  function BoxLines(group: string, b: Box): seq<string> {
    Each(LineWriter(group, b), Present(Levels(b.fault), NumTypes))
  }

  function BoxTsv(group: string, b: Box): string {
    Texts(LineWriter(group, b), Present(Levels(b.fault), NumTypes))
  }

  /** The lines Box::ToTsv has written after the slots below n. */
  function WrittenUpto(group: string, b: Box, n: nat): string
    requires n <= NumTypes
  {
    Texts(LineWriter(group, b), Present(Levels(b.fault), n))
  }

  /** Box::ToTsv. */
  method BoxToTsv(group: string, b: Box) returns (res: string)
    ensures res == BoxTsv(group, b)
  {
    res := "";
    for t := 0 to NumTypes
      invariant res == WrittenUpto(group, b, t)
    {
      var l := Slot(b.fault, t);
      if l != 0 {
        var line := TsvLine(group, b, (t, l));
        BoxStepLine(group, b, t, l);
        res := res + line;
      } else {
        BoxStepSkip(group, b, t);
      }
    }
    WrittenAll(group, b);
  }

  lemma WrittenAll(group: string, b: Box)
    ensures WrittenUpto(group, b, NumTypes) == BoxTsv(group, b)
  {
  }

  /** A non-empty slot adds its line. */
  lemma BoxStepLine(group: string, b: Box, t: nat, l: Level)
    requires t < NumTypes && l == Slot(b.fault, t) && l != 0
    ensures WrittenUpto(group, b, t + 1) == WrittenUpto(group, b, t) + TsvLine(group, b, (t, l))
  {
    LineStep(group, b, Levels(b.fault), t);
  }

  /** An empty slot adds nothing. */
  lemma BoxStepSkip(group: string, b: Box, t: nat)
    requires t < NumTypes && Slot(b.fault, t) == 0
    ensures WrittenUpto(group, b, t + 1) == WrittenUpto(group, b, t)
  {
    var ls := Levels(b.fault);
    assert Present(ls, t + 1) == Present(ls, t);
  }

  /** One loop step of Box::ToTsv on a non-empty slot. */
  lemma LineStep(group: string, b: Box, ls: seq<Level>, t: nat)
    requires t < |ls| == NumTypes && ls[t] != 0
    ensures Texts(LineWriter(group, b), Present(ls, t + 1)) ==
            Texts(LineWriter(group, b), Present(ls, t)) + TsvLine(group, b, (t, ls[t]))
  {
    PresentStep(ls, t);
    TextsSnoc(LineWriter(group, b), Present(ls, t), (t, ls[t]));
  }

  lemma PresentStep(ls: seq<Level>, t: nat)
    requires t < |ls| == NumTypes && ls[t] != 0
    ensures Present(ls, t + 1) == Present(ls, t) + [(t, ls[t])]
  {
  }

  /** The text of a box is its lines. */
  lemma BoxTsvLines(group: string, b: Box)
    ensures BoxTsv(group, b) == Concat(BoxLines(group, b))
  {
    TextsConcat(LineWriter(group, b), Present(Levels(b.fault), NumTypes));
  }

  /** A box without faults writes nothing, any other at least one line. */
  lemma BoxTsvEmpty(group: string, b: Box)
    ensures BoxTsv(group, b) == "" <==> forall t | 0 <= t < NumTypes :: Slot(b.fault, t) == 0
  {
    var ps := Present(Levels(b.fault), NumTypes);
    PresentEmpty(Levels(b.fault), NumTypes);
    LinesNonEmpty(group, b, ps);
    TextsEmptyIff(LineWriter(group, b), ps);
  }

  lemma LinesNonEmpty(group: string, b: Box, ps: seq<(nat, Level)>)
    ensures forall i | 0 <= i < |ps| :: |LineWriter(group, b)(ps[i])| > 0
  {
  }

  /** A text free of tabs and newlines can be a TSV column. */
  predicate Cellable(s: string) {
    '\t' !in s && '\n' !in s
  }

  lemma DecimalCellable(i: int)
    ensures Cellable(IntToString(i))
  {
    var s := IntToString(i);
    if i >= 0 {
      assert forall k | 0 <= k < |s| :: '0' <= s[k] <= '9';
    } else {
      var d := NatToString(-i);
      assert s == "-" + d;
      assert forall k | 0 <= k < |d| :: '0' <= d[k] <= '9';
    }
  }

  lemma NamesCellable(t: nat, l: nat)
    requires t < NumTypes && 1 <= l <= 3
    ensures Cellable(TypeToStr(t)) && Cellable(LevelToStr(l))
  {
  }

  /** Each line splits at its tabs into the eight columns of the header:
      the group, the image, the category name, the level name and the four
      coordinates in decimal. */
  lemma LineColumns(group: string, b: Box, p: (nat, Level))
    requires Cellable(group) && Cellable(b.image)
    requires p.0 < NumTypes && p.1 != 0
    ensures var line := TsvLine(group, b, p);
      && |line| > 0 && line[|line| - 1] == '\n' && '\n' !in line[..|line| - 1]
      && Split(line[..|line| - 1], '\t') == Fields(group, b, p)
      && |Split(TsvHeader, '\t')| == |Fields(group, b, p)|
  {
    var fs := Fields(group, b, p);
    DecimalCellable(b.x);
    DecimalCellable(b.y);
    DecimalCellable(b.w);
    DecimalCellable(b.h);
    NamesCellable(p.0, p.1 as nat);
    assert forall i | 0 <= i < |fs| :: Cellable(fs[i]);
    SplitJoin(fs, '\t');
    JoinNoNewline(fs, "\t");
    var line := TsvLine(group, b, p);
    assert line[..|line| - 1] == Join(fs, "\t");
    HeaderColumns();
  }

  lemma HeaderColumns()
    ensures Split(TsvHeader, '\t') == TsvColumns
  {
    assert forall i | 0 <= i < |TsvColumns| :: '\t' !in TsvColumns[i];
    SplitJoin(TsvColumns, '\t');
  }

  lemma {:induction false} JoinNoNewline(xs: seq<string>, sep: string)
    requires '\n' !in sep && forall i | 0 <= i < |xs| :: '\n' !in xs[i]
    ensures '\n' !in Join(xs, sep)
    decreases |xs|
  {
    if |xs| > 1 {
      JoinNoNewline(xs[1..], sep);
    }
  }

  /** The category and level columns of a line. */
  function NameColumn(line: string): (string, string) {
    var cols := Split(line[..if |line| > 0 then |line| - 1 else 0], '\t');
    if |cols| == 8 then (cols[2], cols[3]) else ("", "")
  }

  function NameColumns(xs: seq<string>): (ns: seq<(string, string)>)
    ensures |ns| == |xs|
    ensures forall i | 0 <= i < |xs| :: ns[i] == NameColumn(xs[i])
  {
    seq(|xs|, i requires 0 <= i < |xs| => NameColumn(xs[i]))
  }

  /** The names read back from one line. */
  lemma LineNames(group: string, b: Box, p: (nat, Level))
    requires Cellable(group) && Cellable(b.image) && p.0 < NumTypes && p.1 != 0
    ensures NameColumn(TsvLine(group, b, p)) == Names(Shipped, p)
  {
    LineColumns(group, b, p);
  }

  /** Reading back the category and level columns of the lines of a box
      recovers its seven slots. */
  lemma BoxTsvRecovers(group: string, b: Box)
    requires Cellable(group) && Cellable(b.image)
    ensures NoteAll(Shipped, NameColumns(BoxLines(group, b))) == Levels(b.fault)
  {
    var ls := Levels(b.fault);
    ShippedReadable();
    ColumnsOfLines(group, b, Present(ls, NumTypes));
    NoteAllPresent(Shipped, ls, NumTypes);
    assert Upto(ls, NumTypes) == ls;
  }

  /** The category and level columns of the lines of slots ps are the names
      of ps. */
  lemma ColumnsOfLines(group: string, b: Box, ps: seq<(nat, Level)>)
    requires Cellable(group) && Cellable(b.image) && Proper(ps)
    ensures NameColumns(Each(LineWriter(group, b), ps)) == AllNames(Shipped, ps)
  {
    var xs := Each(LineWriter(group, b), ps);
    forall i | 0 <= i < |ps| ensures NameColumns(xs)[i] == Names(Shipped, ps[i]) {
      LineNames(group, b, ps[i]);
    }
  }

  // ---- ImgBox::ToTsv and toTsv ----

  function BoxWriter(group: string): Box -> string {
    b => BoxTsv(group, b)
  }

  function ImgTsv(group: string, ib: ImgBox): string {
    Texts(BoxWriter(group), ib.boxes)
  }

  /** ImgBox::ToTsv: the boxes in order. */
  method ImgBoxToTsv(group: string, ib: ImgBox) returns (res: string)
    ensures res == ImgTsv(group, ib)
  {
    ghost var w := BoxWriter(group);
    res := "";
    for i := 0 to |ib.boxes|
      invariant res == Texts(w, ib.boxes[..i])
    {
      var s := BoxToTsv(group, ib.boxes[i]);
      TextsAt(w, ib.boxes, i);
      res := res + s;
    }
    assert ib.boxes[..|ib.boxes|] == ib.boxes;
  }

  /** The text of a group splits at its boxes. */
  lemma ImgTsvSplits(group: string, image: string, xs: seq<Box>, ys: seq<Box>)
    ensures ImgTsv(group, ImgBox(image, xs + ys)) == ImgTsv(group, ImgBox(image, xs)) + ImgTsv(group, ImgBox(image, ys))
  {
    TextsAppend(BoxWriter(group), xs, ys);
  }

  /** Boxes without faults add nothing to the text of their group. */
  lemma FaultlessBoxesSilent(group: string, ib: ImgBox)
    requires forall i | 0 <= i < |ib.boxes| :: ib.boxes[i].fault == NONE
    ensures ImgTsv(group, ib) == ""
  {
    NoneIsEmpty();
    forall i | 0 <= i < |ib.boxes| ensures BoxWriter(group)(ib.boxes[i]) == "" {
      BoxTsvEmpty(group, ib.boxes[i]);
    }
    TextsSilent(BoxWriter(group), ib.boxes);
  }

  function GroupWriter(group: string): ImgBox -> string {
    ib => ImgTsv(group, ib)
  }

  /** What toTsv writes: the header line, then every group in order. */
  function Document(ibs: seq<ImgBox>, group: string): string {
    TsvHeader + "\n" + Texts(GroupWriter(group), ibs)
  }

  /** toTsv, with the stream modelled as the text written to it. */
  method ToTsv(ibs: seq<ImgBox>, group: string) returns (written: string)
    ensures written == Document(ibs, group)
  {
    ghost var w := GroupWriter(group);
    written := TsvHeader + "\n";
    for i := 0 to |ibs|
      invariant written == TsvHeader + "\n" + Texts(w, ibs[..i])
    {
      var s := ImgBoxToTsv(group, ibs[i]);
      TextsAt(w, ibs, i);
      Reassociate(TsvHeader + "\n", Texts(w, ibs[..i]), s);
      written := written + s;
    }
    assert ibs[..|ibs|] == ibs;
  }

  /** The document's first line is the header, and without groups it is the
      only line. */
  lemma DocumentHeader(ibs: seq<ImgBox>, group: string)
    ensures var d := Document(ibs, group);
      && d[..|TsvHeader| + 1] == TsvHeader + "\n"
      && '\n' !in TsvHeader
      && (|ibs| == 0 ==> d == TsvHeader + "\n")
  {
    assert forall i | 0 <= i < |TsvColumns| :: '\n' !in TsvColumns[i];
    JoinNoNewline(TsvColumns, "\t");
  }

  // ---- ImgFaultCount ----

  /** An ImgFaultCount: the image and its 21 uint8_t counters in field order
      (bump_fair, bump_poor, ..., pothole_verypoor). */
  datatype ImgFaultCount = ImgFaultCount(image: string, counts: seq<nat>)

  const U8: nat := 256

  /** The number of faults of bs whose counter cell is k. */
  function FaultsOf(bs: seq<Box>): (fs: seq<Fault>)
    ensures |fs| == |bs|
  {
    seq(|bs|, i requires 0 <= i < |bs| => bs[i].fault)
  }

  /** The default constructor: no image, all counters zero. */
  function EmptyCount(): (c: ImgFaultCount)
    ensures c.image == "" && |c.counts| == NumCells
    ensures forall k | 0 <= k < NumCells :: c.counts[k] == 0
  {
    ImgFaultCount("", seq(NumCells, _ => 0))
  }

  /** ImgFaultCount(ibox): counter k is the number of boxes whose cell k is
      set, wrapped to uint8_t. */
  method CountImage(ib: ImgBox) returns (c: ImgFaultCount)
    ensures c.image == ib.image && |c.counts| == NumCells
    ensures forall k | 0 <= k < NumCells :: c.counts[k] == Tally(FaultsOf(ib.boxes), k) % U8
  {
    var counts: seq<nat> := seq(NumCells, _ => 0);
    for i := 0 to |ib.boxes|
      invariant |counts| == NumCells
      invariant forall k | 0 <= k < NumCells :: counts[k] == Tally(FaultsOf(ib.boxes[..i]), k) % U8
    {
      var arr := Fault2Count(ib.boxes[i].fault);
      var old_counts := counts;
      counts := seq(NumCells, k requires 0 <= k < NumCells => (old_counts[k] + arr[k]) % U8);
      CountStep(ib.boxes, i, old_counts, arr, counts);
    }
    assert ib.boxes[..|ib.boxes|] == ib.boxes;
    c := ImgFaultCount(ib.image, counts);
  }

  /** Adding one box's cells to the running counts, modulo 256, gives the
      counts of one more box. */
  lemma CountStep(bs: seq<Box>, i: nat, before: seq<nat>, arr: seq<nat>, after: seq<nat>)
    requires i < |bs| && |before| == NumCells && |after| == NumCells
    requires |arr| == NumCells && forall k | 0 <= k < NumCells :: arr[k] == CountCell(bs[i].fault, k)
    requires forall k | 0 <= k < NumCells :: before[k] == Tally(FaultsOf(bs[..i]), k) % U8
    requires forall k | 0 <= k < NumCells :: after[k] == (before[k] + arr[k]) % U8
    ensures forall k | 0 <= k < NumCells :: after[k] == Tally(FaultsOf(bs[..i + 1]), k) % U8
  {
    FaultsStep(bs, i);
    forall k | 0 <= k < NumCells
      ensures after[k] == Tally(FaultsOf(bs[..i + 1]), k) % U8
    {
      ModStep(Tally(FaultsOf(bs[..i]), k), arr[k], U8);
    }
  }

  lemma FaultsStep(bs: seq<Box>, i: nat)
    requires i < |bs|
    ensures forall k | 0 <= k < NumCells ::
      Tally(FaultsOf(bs[..i + 1]), k) == Tally(FaultsOf(bs[..i]), k) + CountCell(bs[i].fault, k)
  {
    var fs := FaultsOf(bs[..i + 1]);
    assert fs[..|fs| - 1] == FaultsOf(bs[..i]);
  }

  /** Adding to a wrapped counter wraps the sum. */
  lemma ModStep(a: nat, c: nat, m: nat)
    requires m == U8 || m == U32
    ensures (a % m + c) % m == (a + c) % m
  {
    if m == U8 {
      assert (a % U8 + c) % U8 == (a + c) % U8;
    } else {
      assert (a % U32 + c) % U32 == (a + c) % U32;
    }
  }

  /** Counter (t, l) counts the boxes whose slot t holds level l; at most
      one of the three counters of a category moves per box. */
  lemma {:induction false} TallyCounts(fs: seq<Fault>, t: nat, l: nat)
    requires t < NumTypes && 1 <= l <= 3
    ensures Tally(fs, Cell(t, l)) == |Matching(fs, t, l)|
    ensures Tally(fs, Cell(t, 1)) + Tally(fs, Cell(t, 2)) + Tally(fs, Cell(t, 3)) <= |fs|
    decreases |fs|
  {
    if |fs| > 0 {
      var f := fs[|fs| - 1];
      TallyCounts(fs[..|fs| - 1], t, l);
      CountCellAt(f, t, l);
      OneHotPerCategory(f, t);
    }
  }

  /** The positions of the codes whose slot t holds level l. */
  function Matching(fs: seq<Fault>, t: nat, l: nat): (ix: seq<nat>)
    requires t < NumTypes
    ensures forall j | 0 <= j < |ix| :: ix[j] < |fs| && Slot(fs[ix[j]], t) as int == l
    decreases |fs|
  {
    if |fs| == 0 then []
    else Matching(fs[..|fs| - 1], t, l) + (if Slot(fs[|fs| - 1], t) as int == l then [|fs| - 1] else [])
  }

  /** The boxes whose counter cell k is set. */
  function HasCell(k: nat): Box -> bool {
    (b: Box) => k < NumCells && CountCell(b.fault, k) == 1
  }

  /** A tally over boxes counts the boxes whose cell k is set. */
  lemma {:induction false} TallyIsCount(bs: seq<Box>, k: nat)
    requires k < NumCells
    ensures Tally(FaultsOf(bs), k) == Count(HasCell(k), bs)
    decreases |bs|
  {
    if |bs| > 0 {
      var init := bs[..|bs| - 1];
      TallyIsCount(init, k);
      assert FaultsOf(bs)[..|bs| - 1] == FaultsOf(init);
      assert bs == init + [bs[|bs| - 1]];
      CountAppend(HasCell(k), init, [bs[|bs| - 1]]);
    }
  }

  /** The counters do not depend on the order of the boxes. */
  lemma TallyOrderFree(xs: seq<Box>, ys: seq<Box>, k: nat)
    requires k < NumCells && multiset(xs) == multiset(ys)
    ensures Tally(FaultsOf(xs), k) == Tally(FaultsOf(ys), k)
  {
    TallyIsCount(xs, k);
    TallyIsCount(ys, k);
    CountOrderFree(HasCell(k), xs, ys);
  }

  /** Boxes without a fault count nowhere. */
  lemma {:induction false} TallyOfFaulty(bs: seq<Box>, k: nat)
    requires k < NumCells
    ensures Tally(FaultsOf(Faulty(bs)), k) == Tally(FaultsOf(bs), k)
    decreases |bs|
  {
    if |bs| > 0 {
      var init := bs[..|bs| - 1];
      var b := bs[|bs| - 1];
      TallyOfFaulty(init, k);
      assert FaultsOf(bs)[..|bs| - 1] == FaultsOf(init);
      if b.fault != NONE {
        assert FaultsOf(Faulty(bs))[..|Faulty(bs)| - 1] == FaultsOf(Faulty(init));
      } else {
        NoneIsEmpty();
        assert Faulty(bs) == Faulty(init);
      }
    }
  }

  /** Grouping by image keeps every counter: counting the boxes of all
      groups gives the counters of the input boxes. */
  lemma GroupedTally(bs: seq<Box>, k: nat)
    requires k < NumCells
    ensures Tally(FaultsOf(AllBoxes(Grouped(bs))), k) == Tally(FaultsOf(bs), k)
  {
    GroupedBoxes(bs);
    TallyOrderFree(AllBoxes(Grouped(bs)), Faulty(bs), k);
    TallyOfFaulty(bs, k);
  }

  /** ImgFaultCount::ToStr: the image and the counters in decimal, separated
      by commas. */
  function ToStr(c: ImgFaultCount): string {
    c.image + "," + Join(Decimals(c.counts), ",")
  }

  function Decimals(ns: seq<nat>): (xs: seq<string>)
    ensures |xs| == |ns|
  {
    seq(|ns|, i requires 0 <= i < |ns| => NatToString(ns[i]))
  }

  /** Reading a ToStr line back: split at commas, the first piece is the
      image, the others parse to the counters. */
  function ReadCount(s: string): ImgFaultCount {
    var pieces := Split(s, ',');
    ImgFaultCount(pieces[0], seq(|pieces| - 1, i requires 0 <= i < |pieces| - 1 =>
      if Decimal(pieces[i + 1]) then DigitsValue(pieces[i + 1]) else 0))
  }

  predicate Decimal(s: string) {
    forall k | 0 <= k < |s| :: '0' <= s[k] <= '9'
  }

  /** ToStr loses nothing when the image name has no comma. */
  lemma ToStrRoundTrip(c: ImgFaultCount)
    requires ',' !in c.image && |c.counts| > 0
    ensures ReadCount(ToStr(c)) == c
  {
    var xs := Decimals(c.counts);
    var all := [c.image] + xs;
    forall i | 0 <= i < |xs| ensures ',' !in xs[i] {
      assert forall k | 0 <= k < |xs[i]| :: '0' <= xs[i][k] <= '9';
    }
    assert all[1..] == xs;
    assert Join(all, [',']) == ToStr(c);
    SplitJoin(all, ',');
    var pieces := Split(ToStr(c), ',');
    assert pieces == all;
    forall i | 0 <= i < |c.counts| ensures ReadCount(ToStr(c)).counts[i] == c.counts[i] {
      assert pieces[i + 1] == NatToString(c.counts[i]);
      assert Decimal(pieces[i + 1]);
      NatToStringRoundTrip(c.counts[i]);
    }
  }

  // ---- FaultStats ----

  const U32: nat := 0x1_0000_0000

  /** FaultStats: 21 unsigned int counters in field order, and the faults
      added so far. */
  class FaultStats {
    var counts: seq<nat>
    ghost var added: seq<Fault>

    /** Counter k is the number of added faults with cell k set, wrapped to
        unsigned int. */
    ghost predicate Valid()
      reads this
    {
      |counts| == NumCells && forall k | 0 <= k < NumCells :: counts[k] == Tally(added, k) % U32
    }

    /** The constructor zeroes every counter. */
    constructor ()
      ensures Valid() && added == []
      ensures |counts| == NumCells && forall k | 0 <= k < NumCells :: counts[k] == 0
    {
      counts := seq(NumCells, _ => 0);
      added := [];
    }

    /** AddFault: each counter grows by the fault's cell. */
    method AddFault(f: Fault)
      requires Valid()
      modifies this
      ensures Valid() && added == old(added) + [f]
      ensures |counts| == NumCells
      ensures forall k | 0 <= k < NumCells :: counts[k] == (old(counts[k]) + CountCell(f, k)) % U32
    {
      var arr := Fault2Count(f);
      ghost var before := added;
      added := added + [f];
      assert added[..|added| - 1] == before;
      var old_counts := counts;
      counts := seq(NumCells, k requires 0 <= k < NumCells => (old_counts[k] + arr[k]) % U32);
      forall k | 0 <= k < NumCells ensures counts[k] == Tally(added, k) % U32 {
        ModStep(Tally(before, k), arr[k], U32);
      }
    }
  }
}
