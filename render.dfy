/** fault2str of src/via.cpp and src/ibox.cpp: one "<type><sep><level>" piece
    per non-zero category slot, in slot order, joined by "_". The via copy
    uses "_" inside a piece as well, the ibox copy "-". Decoding the text
    recovers the seven category slots, so the rendering loses nothing.
    The proofs are about any pair of name tables that is readable (names
    non-empty, distinct and free of both separators); the shipped tables
    are shown to be readable once. */
module Render {
  import opened Strings
  import opened FaultCode
  import opened Vocabulary

  /** The type names by slot and the level names by level. */
  datatype Tables = Tables(types: seq<string>, levels: seq<string>)

  /** kArrTypeStr and kArrLevelStr. */
  const Shipped: Tables := Tables(TypeNames, LevelNames)

  predicate Shaped(tb: Tables) {
    |tb.types| == NumTypes && |tb.levels| == 4
  }

  /** Non-empty and free of both separators. */
  predicate Clean(s: string) {
    |s| > 0 && '_' !in s && '-' !in s
  }

  predicate Distinct(xs: seq<string>) {
    forall i, j | 0 <= i < j < |xs| :: xs[i] != xs[j]
  }

  /** What the decoder needs of the tables. */
  predicate Readable(tb: Tables) {
    && Shaped(tb)
    && (forall t | 0 <= t < NumTypes :: Clean(tb.types[t]))
    && (forall l | 1 <= l < 4 :: Clean(tb.levels[l]))
    && Distinct(tb.types)
    && Distinct(tb.levels)
  }

  lemma ShippedReadable()
    ensures Readable(Shipped)
  {
    TypeNamesClean();
    LevelNamesClean();
    TypeNamesDistinct();
    LevelNamesDistinct();
  }

  lemma TypeNamesClean()
    ensures forall t | 0 <= t < NumTypes :: Clean(TypeNames[t])
  {
    var ts := TypeNames;
    assert Clean(ts[0]) && Clean(ts[1]) && Clean(ts[2]) && Clean(ts[3]);
    assert Clean(ts[4]) && Clean(ts[5]) && Clean(ts[6]);
  }

  lemma LevelNamesClean()
    ensures forall l | 1 <= l < 4 :: Clean(LevelNames[l])
  {
    assert Clean(LevelNames[1]) && Clean(LevelNames[2]) && Clean(LevelNames[3]);
  }

  /** The first two letters already tell the type names apart. */
  lemma TypeNamesDistinct()
    ensures Distinct(TypeNames)
  {
    var ts := TypeNames;
    var tags := seq(NumTypes, i requires 0 <= i < NumTypes => (ts[i][0], ts[i][1]));
    assert tags == [('b', 'u'), ('c', 'r'), ('d', 'e'), ('d', 'i'), ('v', 'e'), ('u', 'n'), ('p', 'o')];
    forall i, j | 0 <= i < j < NumTypes ensures ts[i] != ts[j] {
      assert tags[i] != tags[j];
    }
  }

  lemma LevelNamesDistinct()
    ensures Distinct(LevelNames)
  {
    var ls := LevelNames;
    assert |ls[0]| == 0 && ls[1][0] == 'f' && ls[2][0] == 'p' && ls[3][0] == 'v';
  }

  /** The separator between type and level inside one piece. */
  function PairSep(v: Variant): string {
    if v == Via then "_" else "-"
  }

  /** The seven category levels of a code. */
  function Levels(f: Fault): (ls: seq<Level>)
    ensures |ls| == NumTypes
    ensures forall t | 0 <= t < NumTypes :: ls[t] == Slot(f, t)
  {
    seq(NumTypes, t requires 0 <= t < NumTypes => Slot(f, t))
  }

  /** (slot, level) for every non-zero level below n, in slot order. */
  function Present(ls: seq<Level>, n: nat): (ps: seq<(nat, Level)>)
    requires n <= |ls| == NumTypes
    ensures |ps| <= n
    ensures forall i | 0 <= i < |ps| :: ps[i].0 < n && ps[i].1 != 0 && ls[ps[i].0] == ps[i].1
    decreases n
  {
    if n == 0 then []
    else Present(ls, n - 1) + (if ls[n - 1] != 0 then [(n - 1, ls[n - 1])] else [])
  }

  /** Pairs of an in-range slot and a non-zero level. */
  predicate Proper(ps: seq<(nat, Level)>) {
    forall i | 0 <= i < |ps| :: ps[i].0 < NumTypes && ps[i].1 != 0
  }

  /** The names a (slot, level) pair renders with. */
  function Names(tb: Tables, p: (nat, Level)): (string, string)
    requires Shaped(tb) && p.0 < NumTypes
  {
    (tb.types[p.0], tb.levels[p.1])
  }

  function Piece(tb: Tables, v: Variant, p: (nat, Level)): string
    requires Shaped(tb) && p.0 < NumTypes
  {
    tb.types[p.0] + PairSep(v) + tb.levels[p.1]
  }

  function Pieces(tb: Tables, v: Variant, ps: seq<(nat, Level)>): (xs: seq<string>)
    requires Shaped(tb) && Proper(ps)
    ensures |xs| == |ps|
    ensures forall i | 0 <= i < |ps| :: xs[i] == Piece(tb, v, ps[i])
  {
    seq(|ps|, i requires 0 <= i < |ps| => Piece(tb, v, ps[i]))
  }

  function RenderWith(tb: Tables, v: Variant, ls: seq<Level>): string
    requires Shaped(tb) && |ls| == NumTypes
  {
    Join(Pieces(tb, v, Present(ls, NumTypes)), "_")
  }

  /** The text fault2str returns. */
  function Rendered(v: Variant, f: Fault): string {
    RenderWith(Shipped, v, Levels(f))
  }

  /** fault2str: the loop over the seven category slots. */
  method Fault2Str(v: Variant, f: Fault) returns (res: string)
    ensures res == Rendered(v, f)
  {
    ghost var ls := Levels(f);
    res := "";
    for t := 0 to NumTypes
      invariant res == Join(Pieces(Shipped, v, Present(ls, t)), "_")
    {
      var l := Slot(f, t);
      assert l == ls[t];
      if l != 0 {
        var piece := TypeToStr(t) + PairSep(v) + LevelToStr(l as int);
        ShippedStep(v, ls, t, res, piece);
        if res != "" {
          res := res + "_";
        }
        res := res + piece;
      } else {
        PresentSkip(ls, t);
      }
    }
  }

  /** A zero level adds no pair. */
  lemma PresentSkip(ls: seq<Level>, t: nat)
    requires t < |ls| == NumTypes && ls[t] == 0
    ensures Present(ls, t + 1) == Present(ls, t)
  {
  }

  /** One loop step of fault2str with the shipped tables. */
  lemma ShippedStep(v: Variant, ls: seq<Level>, t: nat, res: string, piece: string)
    requires t < |ls| == NumTypes && ls[t] != 0
    requires res == Join(Pieces(Shipped, v, Present(ls, t)), "_")
    requires piece == TypeToStr(t) + PairSep(v) + LevelToStr(ls[t] as int)
    ensures Join(Pieces(Shipped, v, Present(ls, t + 1)), "_") == (if res != "" then res + "_" else res) + piece
  {
    ShippedReadable();
    AppendPiece(Shipped, v, ls, t, res);
    assert Piece(Shipped, v, (t, ls[t])) == piece;
  }

  /** One loop step of fault2str on a non-zero slot. */
  lemma AppendPiece(tb: Tables, v: Variant, ls: seq<Level>, t: nat, res: string)
    requires Readable(tb)
    requires t < |ls| == NumTypes && ls[t] != 0
    requires res == Join(Pieces(tb, v, Present(ls, t)), "_")
    ensures Join(Pieces(tb, v, Present(ls, t + 1)), "_") ==
      (if res != "" then res + "_" else res) + Piece(tb, v, (t, ls[t]))
  {
    var ps := Present(ls, t);
    var p := (t, ls[t]);
    assert Present(ls, t + 1) == ps + [p];
    assert Pieces(tb, v, ps + [p]) == Pieces(tb, v, ps) + [Piece(tb, v, p)];
    if |ps| > 0 {
      JoinHead(Pieces(tb, v, ps), "_");
      JoinSnoc(Pieces(tb, v, ps), Piece(tb, v, p), "_");
    }
  }

  /** The first element is a prefix of the joined text. */
  lemma JoinHead(xs: seq<string>, sep: string)
    requires |xs| > 0
    ensures |Join(xs, sep)| >= |xs[0]|
  {
  }

  /** A code renders as "" exactly when its seven category slots are 0. */
  lemma RenderedEmpty(v: Variant, f: Fault)
    ensures Rendered(v, f) == "" <==> forall t | 0 <= t < NumTypes :: Slot(f, t) == 0
  {
    ShippedReadable();
    EmptyWith(Shipped, v, Levels(f));
  }

  lemma EmptyWith(tb: Tables, v: Variant, ls: seq<Level>)
    requires Readable(tb) && |ls| == NumTypes
    ensures RenderWith(tb, v, ls) == "" <==> ls == Zeros
  {
    var ps := Present(ls, NumTypes);
    PresentEmpty(ls, NumTypes);
    if |ps| > 0 {
      JoinHead(Pieces(tb, v, ps), "_");
    } else {
      assert ls == Zeros;
    }
  }

  lemma {:induction false} PresentEmpty(ls: seq<Level>, n: nat)
    requires n <= |ls| == NumTypes
    ensures |Present(ls, n)| == 0 <==> forall t | 0 <= t < n :: ls[t] == 0
    decreases n
  {
    if n > 0 {
      PresentEmpty(ls, n - 1);
    }
  }

  // ---- Decoding ----

  /** First position of s in a table, -1 when absent. */
  function Lookup(xs: seq<string>, s: string): (r: int)
    ensures -1 <= r < |xs|
    ensures r >= 0 ==> xs[r] == s
    ensures r < 0 ==> s !in xs
    decreases |xs|
  {
    if |xs| == 0 then -1
    else if xs[0] == s then 0
    else
      var r := Lookup(xs[1..], s);
      if r < 0 then -1 else r + 1
  }

  /** In a table without repeats the lookup inverts indexing. */
  lemma {:induction false} LookupDistinct(xs: seq<string>, i: nat)
    requires Distinct(xs) && i < |xs|
    ensures Lookup(xs, xs[i]) == i
    decreases |xs|
  {
    if i > 0 {
      assert xs[1..][i - 1] == xs[i];
      LookupDistinct(xs[1..], i - 1);
    }
  }

  /** Record one (type, level) pair in a level vector; unknown names are ignored. */
  function Note(tb: Tables, ls: seq<Level>, n: (string, string)): (r: seq<Level>)
    requires Shaped(tb) && |ls| == NumTypes
    ensures |r| == NumTypes
  {
    var t := Lookup(tb.types, n.0);
    var l := Lookup(tb.levels, n.1);
    if t >= 0 && l >= 1 then ls[t := l as bv2] else ls
  }

  const Zeros: seq<Level> := [0, 0, 0, 0, 0, 0, 0]

  /** Record a sequence of pairs, left to right. */
  function NoteAll(tb: Tables, ns: seq<(string, string)>): (r: seq<Level>)
    requires Shaped(tb)
    ensures |r| == NumTypes
    decreases |ns|
  {
    if |ns| == 0 then Zeros
    else Note(tb, NoteAll(tb, ns[..|ns| - 1]), ns[|ns| - 1])
  }

  /** Read ibox pieces "<type>-<level>". */
  function PairsOfPieces(xs: seq<string>): seq<(string, string)>
    decreases |xs|
  {
    if |xs| == 0 then []
    else
      var q := Split(xs[|xs| - 1], '-');
      PairsOfPieces(xs[..|xs| - 1]) + (if |q| == 2 then [(q[0], q[1])] else [])
  }

  /** Read via tokens "<type>", "<level>", "<type>", ... two at a time. */
  function PairsOfTokens(xs: seq<string>): seq<(string, string)>
    decreases |xs|
  {
    if |xs| < 2 then []
    else PairsOfTokens(xs[..|xs| - 2]) + [(xs[|xs| - 2], xs[|xs| - 1])]
  }

  function DecodeWith(tb: Tables, v: Variant, s: string): (ls: seq<Level>)
    requires Shaped(tb)
    ensures |ls| == NumTypes
  {
    if s == "" then Zeros
    else if v == Via then NoteAll(tb, PairsOfTokens(Split(s, '_')))
    else NoteAll(tb, PairsOfPieces(Split(s, '_')))
  }

  /** Parse the text of fault2str back into the seven category levels. */
  function Decode(v: Variant, s: string): (ls: seq<Level>)
    ensures |ls| == NumTypes
  {
    DecodeWith(Shipped, v, s)
  }

  /** fault2str loses nothing: decoding its text gives back slots 0..6. */
  lemma DecodeRendered(v: Variant, f: Fault)
    ensures Decode(v, Rendered(v, f)) == Levels(f)
  {
    ShippedReadable();
    DecodeWithRender(Shipped, v, Levels(f));
  }

  lemma DecodeWithRender(tb: Tables, v: Variant, ls: seq<Level>)
    requires Readable(tb) && |ls| == NumTypes
    ensures DecodeWith(tb, v, RenderWith(tb, v, ls)) == ls
  {
    var ps := Present(ls, NumTypes);
    NoteAllPresent(tb, ls, NumTypes);
    EmptyWith(tb, v, ls);
    assert Upto(ls, NumTypes) == ls;
    if |ps| > 0 {
      if v == Via {
        ViaReads(tb, ps);
      } else {
        IboxReads(tb, ps);
      }
    }
  }

  /** The via text splits back into the names of the present slots. */
  lemma ViaReads(tb: Tables, ps: seq<(nat, Level)>)
    requires Readable(tb) && Proper(ps) && |ps| > 0
    ensures PairsOfTokens(Split(Join(Pieces(tb, Via, ps), "_"), '_')) == AllNames(tb, ps)
  {
    JoinFlat(tb, ps);
    FlatClean(tb, ps);
    SplitJoin(Flat(tb, ps), '_');
    TokensOfFlat(tb, ps);
  }

  /** The ibox text splits back into the names of the present slots. */
  lemma IboxReads(tb: Tables, ps: seq<(nat, Level)>)
    requires Readable(tb) && Proper(ps) && |ps| > 0
    ensures PairsOfPieces(Split(Join(Pieces(tb, Ibox, ps), "_"), '_')) == AllNames(tb, ps)
  {
    var xs := Pieces(tb, Ibox, ps);
    forall i | 0 <= i < |xs| ensures '_' !in xs[i] {
      assert xs[i] == tb.types[ps[i].0] + "-" + tb.levels[ps[i].1];
    }
    SplitJoin(xs, '_');
    PiecesRead(tb, ps);
  }

  /** Two codes with the same text agree on every category slot. */
  lemma RenderedInjective(v: Variant, f: Fault, g: Fault)
    requires Rendered(v, f) == Rendered(v, g)
    ensures forall t | 0 <= t < NumTypes :: Slot(f, t) == Slot(g, t)
  {
    DecodeRendered(v, f);
    DecodeRendered(v, g);
    forall t | 0 <= t < NumTypes ensures Slot(f, t) == Slot(g, t) {
      assert Levels(f)[t] == Levels(g)[t];
    }
  }

  function AllNames(tb: Tables, ps: seq<(nat, Level)>): (ns: seq<(string, string)>)
    requires Shaped(tb) && Proper(ps)
    ensures |ns| == |ps|
    ensures forall i | 0 <= i < |ps| :: ns[i] == Names(tb, ps[i])
  {
    seq(|ps|, i requires 0 <= i < |ps| => Names(tb, ps[i]))
  }

  /** Recording the names of the levels below n gives those levels and 0 above. */
  lemma {:induction false} NoteAllPresent(tb: Tables, ls: seq<Level>, n: nat)
    requires Readable(tb) && n <= |ls| == NumTypes
    ensures NoteAll(tb, AllNames(tb, Present(ls, n))) == Upto(ls, n)
    decreases n
  {
    if n > 0 {
      NoteAllPresent(tb, ls, n - 1);
      NoteAllStep(tb, ls, n - 1);
    } else {
      assert Upto(ls, 0) == Zeros;
    }
  }

  lemma NoteAllStep(tb: Tables, ls: seq<Level>, t: nat)
    requires Readable(tb) && t < |ls| == NumTypes
    requires NoteAll(tb, AllNames(tb, Present(ls, t))) == Upto(ls, t)
    ensures NoteAll(tb, AllNames(tb, Present(ls, t + 1))) == Upto(ls, t + 1)
  {
    UptoStep(ls, t);
    if ls[t] != 0 {
      NoteStep(tb, ls, t);
    } else {
      assert Present(ls, t + 1) == Present(ls, t);
    }
  }

  lemma UptoStep(ls: seq<Level>, t: nat)
    requires t < |ls| == NumTypes
    ensures Upto(ls, t)[t := ls[t]] == Upto(ls, t + 1)
    ensures ls[t] == 0 ==> Upto(ls, t) == Upto(ls, t + 1)
  {
    assert Upto(ls, t)[t := ls[t]] == Upto(ls, t + 1);
  }

  /** The levels below n, then zeros. */
  function Upto(ls: seq<Level>, n: nat): (r: seq<Level>)
    requires |ls| == NumTypes
    ensures |r| == NumTypes
    ensures forall t | 0 <= t < NumTypes :: r[t] == if t < n then ls[t] else 0
  {
    seq(NumTypes, t requires 0 <= t < NumTypes => if t < n then ls[t] else 0)
  }

  /** A non-zero level t adds one pair, which the decoder records at t. */
  lemma NoteStep(tb: Tables, ls: seq<Level>, t: nat)
    requires Readable(tb) && t < |ls| == NumTypes && ls[t] != 0
    ensures NoteAll(tb, AllNames(tb, Present(ls, t + 1))) ==
      NoteAll(tb, AllNames(tb, Present(ls, t)))[t := ls[t]]
  {
    var p := (t, ls[t]);
    var prev := AllNames(tb, Present(ls, t));
    var ns := AllNames(tb, Present(ls, t + 1));
    assert Present(ls, t + 1) == Present(ls, t) + [p];
    assert ns == prev + [Names(tb, p)];
    assert ns[..|ns| - 1] == prev;
    LookupDistinct(tb.types, t);
    LookupDistinct(tb.levels, ls[t] as nat);
    assert Note(tb, NoteAll(tb, prev), Names(tb, p)) == NoteAll(tb, prev)[t := ls[t]];
  }

  /** The via tokens: each pair contributes its two names. */
  function Flat(tb: Tables, ps: seq<(nat, Level)>): (xs: seq<string>)
    requires Shaped(tb) && Proper(ps)
    ensures |xs| == 2 * |ps|
    decreases |ps|
  {
    if |ps| == 0 then []
    else Flat(tb, ps[..|ps| - 1]) + [tb.types[ps[|ps| - 1].0], tb.levels[ps[|ps| - 1].1]]
  }

  /** Joining "<type>_<level>" pieces by "_" is joining all the names by "_". */
  lemma {:induction false} JoinFlat(tb: Tables, ps: seq<(nat, Level)>)
    requires Shaped(tb) && Proper(ps)
    ensures Join(Pieces(tb, Via, ps), "_") == Join(Flat(tb, ps), "_")
    decreases |ps|
  {
    if |ps| == 1 {
      assert Flat(tb, ps) == [tb.types[ps[0].0], tb.levels[ps[0].1]];
      assert Pieces(tb, Via, ps) == [Piece(tb, Via, ps[0])];
    } else if |ps| > 1 {
      var init, p := ps[..|ps| - 1], ps[|ps| - 1];
      var a, b := tb.types[p.0], tb.levels[p.1];
      JoinFlat(tb, init);
      assert Pieces(tb, Via, ps) == Pieces(tb, Via, init) + [a + "_" + b];
      assert Flat(tb, ps) == (Flat(tb, init) + [a]) + [b];
      JoinPairSnoc(Pieces(tb, Via, init), Flat(tb, init), a, b, "_");
    }
  }

  /** Appending "a sep b" to one side and a, b to the other keeps the joins equal. */
  lemma JoinPairSnoc(xs: seq<string>, ys: seq<string>, a: string, b: string, sep: string)
    requires |xs| > 0 && |ys| > 0 && Join(xs, sep) == Join(ys, sep)
    ensures Join(xs + [a + sep + b], sep) == Join(ys + [a] + [b], sep)
  {
    var j := Join(ys, sep);
    JoinSnoc(xs, a + sep + b, sep);
    JoinSnoc(ys + [a], b, sep);
    JoinSnoc(ys, a, sep);
    Regroup(j, sep, a, b);
  }

  lemma Regroup(j: string, sep: string, a: string, b: string)
    ensures j + sep + (a + sep + b) == j + sep + a + sep + b
  {
  }

  lemma {:induction false} FlatClean(tb: Tables, ps: seq<(nat, Level)>)
    requires Readable(tb) && Proper(ps)
    ensures forall i | 0 <= i < |Flat(tb, ps)| :: '_' !in Flat(tb, ps)[i]
    decreases |ps|
  {
    if |ps| > 0 {
      FlatClean(tb, ps[..|ps| - 1]);
    }
  }

  lemma {:induction false} TokensOfFlat(tb: Tables, ps: seq<(nat, Level)>)
    requires Shaped(tb) && Proper(ps)
    ensures PairsOfTokens(Flat(tb, ps)) == AllNames(tb, ps)
    decreases |ps|
  {
    if |ps| > 0 {
      var xs := Flat(tb, ps);
      assert xs[..|xs| - 2] == Flat(tb, ps[..|ps| - 1]);
      TokensOfFlat(tb, ps[..|ps| - 1]);
      AllNamesSnoc(tb, ps);
    }
  }

  /** Splitting each ibox piece at "-" gives back its names. */
  lemma {:induction false} PiecesRead(tb: Tables, ps: seq<(nat, Level)>)
    requires Readable(tb) && Proper(ps)
    ensures PairsOfPieces(Pieces(tb, Ibox, ps)) == AllNames(tb, ps)
    decreases |ps|
  {
    if |ps| > 0 {
      var xs := Pieces(tb, Ibox, ps);
      var p := ps[|ps| - 1];
      PiecesSnoc(tb, ps);
      PiecesRead(tb, ps[..|ps| - 1]);
      ReadPiece(tb.types[p.0], tb.levels[p.1]);
      AllNamesSnoc(tb, ps);
    }
  }

  lemma PiecesSnoc(tb: Tables, ps: seq<(nat, Level)>)
    requires Shaped(tb) && Proper(ps) && |ps| > 0
    ensures var xs := Pieces(tb, Ibox, ps);
      xs[..|xs| - 1] == Pieces(tb, Ibox, ps[..|ps| - 1]) &&
      xs[|xs| - 1] == tb.types[ps[|ps| - 1].0] + "-" + tb.levels[ps[|ps| - 1].1]
  {
  }

  lemma AllNamesSnoc(tb: Tables, ps: seq<(nat, Level)>)
    requires Shaped(tb) && Proper(ps) && |ps| > 0
    ensures AllNames(tb, ps) == AllNames(tb, ps[..|ps| - 1]) + [Names(tb, ps[|ps| - 1])]
  {
  }

  /** An ibox piece splits back into its two names. */
  lemma ReadPiece(a: string, b: string)
    requires '-' !in a && '-' !in b
    ensures Split(a + "-" + b, '-') == [a, b]
  {
    SplitJoin([a, b], '-');
    assert Join([a, b], "-") == a + "-" + b;
  }
}
