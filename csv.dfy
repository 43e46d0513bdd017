/** parse_csv_line of src/via.cpp (copied as src/ibox_via.cpp): split one
    line of a VIA CSV export into cells. A comma separates cells only at
    curly-brace depth 0; a doubled double-quote stands for one double-quote
    and a single double-quote is dropped. The brace counter is a uint8_t. */
module CsvLine {
  import opened Strings

  /** The scanner state: brace depth, pending quote, current cell, cells so far. */
  datatype Scan = Scan(braces: nat, quote: bool, cell: string, result: seq<string>)

  const Start: Scan := Scan(0, false, "", [])

  /** The new brace depth after ch; the uint8_t counter wraps modulo 256. */
  function Depth(braces: nat, ch: char): (b: nat)
    requires braces < 256
    ensures b < 256
  {
    if ch == '{' then (braces + 1) % 256
    else if ch == '}' then (braces + 255) % 256
    else braces
  }

  /** One iteration of the loop over the characters of the line. */
  function Step(st: Scan, ch: char): (r: Scan)
    requires st.braces < 256
    ensures r.braces < 256
  {
    var b := Depth(st.braces, ch);
    if ch == ',' && b == 0 then Scan(b, false, "", st.result + [st.cell])
    else if ch == ',' then Scan(b, false, st.cell + [ch], st.result)
    else if ch == '"' && !st.quote then Scan(b, true, st.cell, st.result)
    else if ch != '"' && st.quote then Scan(b, false, st.cell + [ch], st.result)
    else if ch == '"' && st.quote then Scan(b, false, st.cell + [ch], st.result)
    else Scan(b, st.quote, st.cell + [ch], st.result)
  }

  /** The state after scanning s from st. */
  function Run(st: Scan, s: string): (r: Scan)
    requires st.braces < 256
    ensures r.braces < 256
    decreases |s|
  {
    if |s| == 0 then st else Step(Run(st, s[..|s| - 1]), s[|s| - 1])
  }

  /** The last cell is kept only when it is not empty. */
  function Finish(st: Scan): seq<string> {
    if st.cell != "" then st.result + [st.cell] else st.result
  }

  function Parse(line: string): seq<string> {
    Finish(Run(Start, line))
  }

  /** parse_csv_line. */
  method ParseCsvLine(line: string) returns (result: seq<string>)
    ensures result == Parse(line)
  {
    result := [];
    var cell := "";
    var braces: nat := 0;
    var quote := false;
    for i := 0 to |line|
      invariant braces < 256
      invariant Scan(braces, quote, cell, result) == Run(Start, line[..i])
    {
      assert line[..i + 1][..i] == line[..i];
      var ch := line[i];
      if ch == ',' && braces == 0 {
        result := result + [cell];
        cell := "";
      } else if ch == '{' {
        braces := (braces + 1) % 256;
      } else if ch == '}' {
        braces := (braces + 255) % 256;
      }
      if ch == ',' && braces == 0 {
        quote := false;
        continue;
      } else if ch == ',' && braces != 0 {
        quote := false;
        cell := cell + [ch];
      } else if ch == '"' && !quote {
        quote := true;
      } else if ch != '"' && quote {
        quote := false;
        cell := cell + [ch];
      } else if ch == '"' && quote {
        quote := false;
        cell := cell + [ch];
      } else {
        cell := cell + [ch];
      }
    }
    assert line[..|line|] == line;
    if cell != "" {
      result := result + [cell];
    }
  }

  /** Scanning a concatenation scans the parts one after the other. */
  lemma {:induction false} RunAppend(st: Scan, a: string, b: string)
    requires st.braces < 256
    ensures Run(st, a + b) == Run(Run(st, a), b)
    decreases |b|
  {
    if |b| == 0 {
      assert a + b == a;
    } else {
      assert (a + b)[..|a + b| - 1] == a + b[..|b| - 1];
      RunAppend(st, a, b[..|b| - 1]);
    }
  }

  // ---- Which texts a cell can carry ----

  /** The depth after scanning s from depth d. */
  function EndDepth(s: string, d: nat): (e: nat)
    requires d < 256
    ensures e < 256
    decreases |s|
  {
    if |s| == 0 then d else EndDepth(s[1..], Depth(d, s[0]))
  }

  /** Every comma of s, read from depth d, is inside braces. */
  predicate Guarded(s: string, d: nat)
    requires d < 256
    decreases |s|
  {
    |s| == 0 || ((s[0] == ',' ==> Depth(d, s[0]) != 0) && Guarded(s[1..], Depth(d, s[0])))
  }

  /** s with every double-quote doubled. */
  function Double(s: string): string
    decreases |s|
  {
    if |s| == 0 then ""
    else (if s[0] == '"' then "\"\"" else [s[0]]) + Double(s[1..])
  }

  /** A cell as the exporter writes it. */
  datatype Field = Plain(text: string) | Quoted(text: string)
  {
    /** A quoted cell ends with its closing quote still pending. */
    predicate quoted() { this.Quoted? }
  }

  /** Plain cells hold none of the four special characters; quoted cells
      are non-empty, do not start with a double-quote, keep their commas
      inside braces and close every brace they open. */
  predicate FieldOk(f: Field) {
    match f
    case Plain(s) => ',' !in s && '"' !in s && '{' !in s && '}' !in s
    case Quoted(s) => |s| > 0 && s[0] != '"' && Guarded(s, 0) && EndDepth(s, 0) == 0
  }

  function Encode(f: Field): string {
    match f
    case Plain(s) => s
    case Quoted(s) => "\"" + Double(s) + "\"" 
  }

  function EncodeAll(fs: seq<Field>): (xs: seq<string>)
    ensures |xs| == |fs|
    ensures forall i | 0 <= i < |fs| :: xs[i] == Encode(fs[i])
  {
    seq(|fs|, i requires 0 <= i < |fs| => Encode(fs[i]))
  }

  function Texts(fs: seq<Field>): (xs: seq<string>)
    ensures |xs| == |fs|
    ensures forall i | 0 <= i < |fs| :: xs[i] == fs[i].text
  {
    seq(|fs|, i requires 0 <= i < |fs| => fs[i].text)
  }

  /** Reading a doubled text with no quote pending appends the text itself. */
  lemma {:induction false} RunDouble(st: Scan, s: string)
    requires st.braces < 256 && !st.quote && Guarded(s, st.braces)
    ensures Run(st, Double(s)) == Scan(EndDepth(s, st.braces), false, st.cell + s, st.result)
    decreases |s|
  {
    if |s| > 0 {
      var c := s[0];
      var unit := if c == '"' then "\"\"" else [c];
      assert Double(s) == unit + Double(s[1..]);
      RunAppend(st, unit, Double(s[1..]));
      var mid := Scan(Depth(st.braces, c), false, st.cell + [c], st.result);
      if c == '"' {
        assert unit[..1] == "\"";
        assert Run(st, unit[..1]) == Scan(st.braces, true, st.cell, st.result);
      }
      assert Run(st, unit) == mid;
      RunDouble(mid, s[1..]);
      assert st.cell + [c] + s[1..] == st.cell + s;
    }
  }

  /** Reading one encoded field at depth 0 leaves its text as the current cell. */
  lemma RunField(res: seq<string>, f: Field)
    requires FieldOk(f)
    ensures Run(Scan(0, false, "", res), Encode(f)) == Scan(0, f.quoted(), f.text, res)
  {
    match f
    case Plain(s) => RunPlain(res, s);
    case Quoted(s) => RunQuoted(res, s);
  }

  lemma RunPlain(res: seq<string>, s: string)
    requires FieldOk(Plain(s))
    ensures Run(Scan(0, false, "", res), s) == Scan(0, false, s, res)
  {
    PlainIsDoubled(s);
    PlainDepth(s, 0);
    RunDouble(Scan(0, false, "", res), s);
  }

  lemma RunQuoted(res: seq<string>, s: string)
    requires FieldOk(Quoted(s))
    ensures Run(Scan(0, false, "", res), Encode(Quoted(s))) == Scan(0, true, s, res)
  {
    var st := Scan(0, false, "", res);
    var c := s[0];
    assert Double(s) == [c] + Double(s[1..]);
    assert Encode(Quoted(s)) == "\"" + ([c] + (Double(s[1..]) + "\""));
    RunCons(st, '"', [c] + (Double(s[1..]) + "\""));
    var open := Scan(0, true, "", res);
    assert Step(st, '"') == open;
    RunCons(open, c, Double(s[1..]) + "\"");
    var mid := Scan(Depth(0, c), false, [c], res);
    assert Step(open, c) == mid;
    RunAppend(mid, Double(s[1..]), "\"");
    RunDouble(mid, s[1..]);
    assert [c] + s[1..] == s;
    RunOne(Run(mid, Double(s[1..])), '"');
  }

  /** Scanning one character is one step. */
  lemma RunOne(st: Scan, c: char)
    requires st.braces < 256
    ensures Run(st, [c]) == Step(st, c)
  {
    assert [c][..0] == "";
  }

  lemma RunCons(st: Scan, c: char, s: string)
    requires st.braces < 256
    ensures Run(st, [c] + s) == Run(Step(st, c), s)
  {
    RunAppend(st, [c], s);
    RunOne(st, c);
  }

  lemma {:induction false} PlainIsDoubled(s: string)
    requires '"' !in s
    ensures Double(s) == s
    decreases |s|
  {
    if |s| > 0 {
      PlainIsDoubled(s[1..]);
    }
  }

  lemma {:induction false} PlainDepth(s: string, d: nat)
    requires d < 256 && ',' !in s && '{' !in s && '}' !in s
    ensures Guarded(s, d) && EndDepth(s, d) == d
    decreases |s|
  {
    if |s| > 0 {
      PlainDepth(s[1..], d);
    }
  }

  /** Reading fields separated by commas collects all of them but the last,
      which is left as the current cell. */
  lemma {:induction false} RunFields(fs: seq<Field>)
    requires |fs| > 0 && forall i | 0 <= i < |fs| :: FieldOk(fs[i])
    ensures Run(Start, Join(EncodeAll(fs), ",")) == Scan(0, Last(fs).quoted(), Last(fs).text, Texts(fs)[..|fs| - 1])
    decreases |fs|
  {
    if |fs| == 1 {
      RunField([], fs[0]);
      assert EncodeAll(fs) == [Encode(fs[0])];
    } else {
      var init := fs[..|fs| - 1];
      RunFields(init);
      FieldsSnoc(fs);
      CommaThenField(Join(EncodeAll(init), ","), Texts(init)[..|init| - 1], Last(init), Last(fs));
    }
  }

  /** The line of all fields is the line of all but the last, a comma and the last. */
  lemma FieldsSnoc(fs: seq<Field>)
    requires |fs| > 1
    ensures Join(EncodeAll(fs), ",") ==
      Join(EncodeAll(fs[..|fs| - 1]), ",") + "," + Encode(Last(fs))
    ensures Texts(fs[..|fs| - 1])[..|fs| - 2] + [Last(fs[..|fs| - 1]).text] == Texts(fs)[..|fs| - 1]
  {
    var init := fs[..|fs| - 1];
    assert EncodeAll(fs) == EncodeAll(init) + [Encode(Last(fs))];
    JoinSnoc(EncodeAll(init), Encode(Last(fs)), ",");
  }

  function Last(fs: seq<Field>): Field
    requires |fs| > 0
  {
    fs[|fs| - 1]
  }

  /** After a field, a comma pushes its text and the next field starts afresh. */
  lemma CommaThenField(prefix: string, res: seq<string>, g: Field, f: Field)
    requires FieldOk(f)
    requires Run(Start, prefix) == Scan(0, g.quoted(), g.text, res)
    ensures Run(Start, prefix + "," + Encode(f)) == Scan(0, f.quoted(), f.text, res + [g.text])
  {
    RunAppend(Start, prefix + ",", Encode(f));
    RunAppend(Start, prefix, ",");
    RunOne(Run(Start, prefix), ',');
    RunField(res + [g.text], f);
  }

  /** The exporter's cells come back: parse_csv_line inverts joining encoded
      fields with commas, except that an empty last cell is not reported. */
  lemma ParseEncoded(fs: seq<Field>)
    requires |fs| > 0 && forall i | 0 <= i < |fs| :: FieldOk(fs[i])
    ensures fs[|fs| - 1].text != "" ==> Parse(Join(EncodeAll(fs), ",")) == Texts(fs)
    ensures fs[|fs| - 1].text == "" ==> Parse(Join(EncodeAll(fs), ",")) == Texts(fs)[..|fs| - 1]
  {
    RunFields(fs);
    assert Texts(fs) == Texts(fs)[..|fs| - 1] + [Last(fs).text];
  }

  /** A line without braces or double-quotes is split at every comma, and a
      trailing empty piece is dropped. */
  lemma PlainLine(line: string)
    requires '"' !in line && '{' !in line && '}' !in line
    ensures var ps := Split(line, ',');
      Parse(line) == if ps[|ps| - 1] == "" then ps[..|ps| - 1] else ps
  {
    var ps := Split(line, ',');
    var fs := seq(|ps|, i requires 0 <= i < |ps| => Plain(ps[i]));
    SplitNoDelim(line, ',');
    forall i | 0 <= i < |ps| ensures FieldOk(fs[i]) {
      PiecesOfPlain(line, i);
    }
    assert EncodeAll(fs) == ps;
    assert Texts(fs) == ps;
    JoinSplit(line, ',');
    ParseEncoded(fs);
  }

  /** The pieces of a line keep none of the characters the line lacks. */
  lemma PiecesOfPlain(line: string, i: nat)
    requires '"' !in line && '{' !in line && '}' !in line
    requires i < |Split(line, ',')|
    ensures '"' !in Split(line, ',')[i] && '{' !in Split(line, ',')[i] && '}' !in Split(line, ',')[i]
  {
    PiecesWithin(line, ',', i);
  }

  /** Every character of a piece occurs in the text. */
  lemma {:induction false} PiecesWithin(s: string, d: char, i: nat)
    requires i < |Split(s, d)|
    ensures forall c | c in Split(s, d)[i] :: c in s
    decreases |s|
  {
    if |s| > 0 {
      var rest := Split(s[1..], d);
      if s[0] == d {
        if i > 0 {
          PiecesWithin(s[1..], d, i - 1);
        }
      } else if i == 0 {
        PiecesWithin(s[1..], d, 0);
      } else {
        PiecesWithin(s[1..], d, i);
      }
    }
  }

  /** An empty quoted cell is read as one double-quote. */
  lemma EmptyQuotedCell()
    ensures Parse("a,\"\",b") == ["a", "\"", "b"]
  {
    var st2 := Scan(0, false, "", ["a"]);
    var st4 := Scan(0, false, "\"", ["a"]);
    RunTwo(Start, 'a', ',');
    assert "a," == ['a', ','];
    assert Step(Start, 'a') == Scan(0, false, "a", []);
    assert Run(Start, "a,") == st2;
    RunTwo(st2, '"', '"');
    assert "\"\"" == ['"', '"'];
    assert Step(st2, '"') == Scan(0, true, "", ["a"]);
    assert Run(st2, "\"\"") == st4;
    RunTwo(st4, ',', 'b');
    assert ",b" == [',', 'b'];
    assert Step(st4, ',') == Scan(0, false, "", ["a", "\""]);
    assert Run(st4, ",b") == Scan(0, false, "b", ["a", "\""]);
    assert "a,\"\",b" == "a," + "\"\"" + ",b";
    RunAppend(Start, "a," + "\"\"", ",b");
    RunAppend(Start, "a,", "\"\"");
  }

  /** Scanning two characters is two steps. */
  lemma RunTwo(st: Scan, c: char, d: char)
    requires st.braces < 256
    ensures Run(st, [c, d]) == Step(Step(st, c), d)
  {
    RunCons(st, c, [d]);
    RunOne(Step(st, c), d);
    assert [c, d] == [c] + [d];
  }

  /** An unmatched closing brace wraps the counter to 255, after which
      commas no longer separate cells. */
  lemma StrayBrace()
    ensures Parse("a},b") == ["a},b"]
  {
    var st0 := Start;
    RunCons(st0, 'a', "},b");
    var st1 := Step(st0, 'a');
    RunCons(st1, '}', ",b");
    var st2 := Step(st1, '}');
    assert st2.braces == 255;
    RunCons(st2, ',', "b");
    var st3 := Step(st2, ',');
    RunOne(st3, 'b');
    assert "a},b" == ['a'] + "},b";
    assert "},b" == ['}'] + ",b";
    assert ",b" == [','] + "b";
    assert Step(st3, 'b') == Scan(255, false, "a},b", []);
  }
}
