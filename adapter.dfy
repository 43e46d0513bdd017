/** The readers that turn VIA annotations into boxes: filecsv2json and
    filejson2json of src/via.cpp, viacsv2json and viajson2json of
    src/ibox_via.cpp, json2boxarr of both, and from_csv_reader of
    src/ibox_via.cpp. JSON values are modelled by the few members these
    functions read; nlohmann::json objects iterate their keys in increasing
    order, so key collections are increasing sequences. */
module Adapter {
  import opened Strings
  import opened Ordered
  import opened FaultCode
  import opened Vocabulary
  import opened Boxes
  import opened Grouper
  import CsvLine

  /** The keys of a JSON object in iteration order. */
  type Keys = ks: seq<string> | Increasing(ks) witness []

  /** region_attributes: the keys of its condition and fault members. */
  datatype Attributes = Attributes(condition: Option<Keys>, fault: Option<Keys>)

  /** A coordinate member as get<int> sees it: an integer, a floating-point
      number, a boolean, or anything else (string, null, array, object). */
  datatype Coord = Integer(i: int) | Floating(r: real) | Flag(b: bool) | IllTyped

  /** region_shape_attributes, when it is an object: the members json2boxarr
      reads, None where the member is missing. */
  datatype Shape = Shape(x: Option<Coord>, y: Option<Coord>, width: Option<Coord>, height: Option<Coord>)

  /** The value of the region_shape_attributes member: an object, or any
      other JSON value (null, a number, a string, an array). */
  datatype ShapeMember = Obj(shape: Shape) | NotObject

  /** A filename member: missing, a value that is not a string (JSON null
      among others), or a string. */
  datatype Name = Absent | NotString | Text(s: string)

  /** One flat record, the input of json2boxarr. */
  datatype Record = Record(filename: Name, attributes: Option<Attributes>, shape: Option<ShapeMember>)

  /** static_cast<int> of a double: the integer part, rounded toward zero. */
  function Truncate(r: real): (i: int)
    ensures r >= 0.0 ==> i as real <= r < i as real + 1.0
    ensures r < 0.0 ==> i as real - 1.0 < r <= i as real
  {
    if r >= 0.0 then r.Floor else -((-r).Floor)
  }

  /** json.value(key, -1) read as an int: -1 for a missing member, the
      number or boolean converted, and a type_error for any other value. */
  function ReadCoord(o: Option<Coord>): (r: Outcome<int>)
    ensures r.Thrown? <==> o == Some(IllTyped)
    ensures o.None? ==> r == Done(-1)
    ensures o.Some? && o.value.Integer? ==> r == Done(o.value.i)
  {
    match o
    case None => Done(-1)
    case Some(Integer(i)) => Done(i)
    case Some(Floating(r)) => Done(Truncate(r))
    case Some(Flag(b)) => Done(if b then 1 else 0)
    case Some(IllTyped) => Thrown
  }

  /** Every coordinate of the shape member can be read as an int. */
  predicate Readable(m: ShapeMember) {
    && m.Obj?
    && ReadCoord(m.shape.x).Done? && ReadCoord(m.shape.y).Done?
    && ReadCoord(m.shape.width).Done? && ReadCoord(m.shape.height).Done?
  }

  // ---- json2boxarr ----

  /** Every known fault key at one level, ORed in key order. */
  function FaultOfKeys(v: Variant, ks: seq<string>, l: Level): Fault
    decreases |ks|
  {
    if |ks| == 0 then NONE
    else
      var f := FaultOfKeys(v, ks[..|ks| - 1], l);
      var t := StrToType(v, ks[|ks| - 1]);
      if t == 0 then f else SetFault(f, t, l)
  }

  /** Some key names the category in slot s. */
  predicate Names(v: Variant, ks: seq<string>, s: nat) {
    exists i | 0 <= i < |ks| :: StrToType(v, ks[i]) == s + 1
  }

  /** The fault sets exactly the slots of the known keys, all at level l;
      unknown keys are ignored. */
  lemma {:induction false} FaultOfKeysSlots(v: Variant, ks: seq<string>, l: Level, s: nat)
    requires s < 8
    ensures Slot(FaultOfKeys(v, ks, l), s) == if Names(v, ks, s) then l else 0
    decreases |ks|
  {
    if |ks| == 0 {
      NoneIsEmpty();
    } else {
      var init := ks[..|ks| - 1];
      FaultOfKeysSlots(v, init, l, s);
      NamesSnoc(v, ks, s);
    }
  }

  /** Keys that name no category, such as the "" or "0", "1", ... that
      items() yields for a primitive or an array, set nothing. */
  lemma UnknownFaultKeys(v: Variant, ks: seq<string>, l: Level)
    requires forall i | 0 <= i < |ks| :: StrToType(v, ks[i]) == 0
    ensures FaultOfKeys(v, ks, l) == NONE
  {
  }

  /** The keys name slot s when the earlier keys do or the last key does. */
  lemma NamesSnoc(v: Variant, ks: seq<string>, s: nat)
    requires |ks| > 0
    ensures Names(v, ks, s) <==> Names(v, ks[..|ks| - 1], s) || StrToType(v, ks[|ks| - 1]) == s + 1
  {
    var init := ks[..|ks| - 1];
    if Names(v, init, s) {
      var i :| 0 <= i < |init| && StrToType(v, init[i]) == s + 1;
      assert ks[i] == init[i];
    }
    if Names(v, ks, s) && StrToType(v, ks[|ks| - 1]) != s + 1 {
      var i :| 0 <= i < |ks| && StrToType(v, ks[i]) == s + 1;
      assert init[i] == ks[i];
    }
  }

  /** What json2boxarr makes of one record: nothing, a box, or an exception
      (a filename that is not a string cannot be assigned to the image, and
      value() throws on a shape member that is not an object and on a
      coordinate that is not a number or a boolean). */
  function BoxOf(v: Variant, r: Record): Outcome<Option<Box>> {
    if r.filename == Absent || r.attributes.None? || r.shape.None? then Done(None)
    else
      var a := r.attributes.value;
      if a.condition.None? || a.fault.None? then Done(None)
      else if |a.condition.value| == 0 || |a.fault.value| == 0 then Done(None)
      else
        var level := StrToLevel(a.condition.value[0]);
        if level == 0 then Done(None)
        else if r.filename == NotString || !Readable(r.shape.value) then Thrown
        else
          var sh := r.shape.value.shape;
          Done(Some(Box(r.filename.s, ReadCoord(sh.x).value, ReadCoord(sh.y).value,
                        ReadCoord(sh.width).value, ReadCoord(sh.height).value,
                        FaultOfKeys(v, a.fault.value, level as Level))))
  }

  /** The skip rules: a record yields a box exactly when all required members
      are present, condition and fault are non-empty and the smallest
      condition key is a level name. */
  predicate Usable(r: Record) {
    && r.filename != Absent && r.attributes.Some? && r.shape.Some?
    && r.attributes.value.condition.Some? && r.attributes.value.fault.Some?
    && |r.attributes.value.condition.value| > 0 && |r.attributes.value.fault.value| > 0
    && r.attributes.value.condition.value[0] in LevelNames[1..]
  }

  lemma BoxOfSpec(v: Variant, r: Record)
    ensures BoxOf(v, r) == Thrown <==> Usable(r) && (r.filename == NotString || !Readable(r.shape.value))
    ensures BoxOf(v, r) == Done(None) <==> !Usable(r)
    ensures BoxOf(v, r).Done? && BoxOf(v, r).value.Some? ==>
      var b := BoxOf(v, r).value.value;
      var level := StrToLevel(r.attributes.value.condition.value[0]) as Level;
      var sh := r.shape.value;
      && r.filename == Text(b.image) && Readable(sh)
      && ReadCoord(sh.shape.x) == Done(b.x) && ReadCoord(sh.shape.y) == Done(b.y)
      && ReadCoord(sh.shape.width) == Done(b.w) && ReadCoord(sh.shape.height) == Done(b.h)
      && level != 0
      && forall s | 0 <= s < 8 :: Slot(b.fault, s) == if Names(v, r.attributes.value.fault.value, s) then level else 0
  {
    if r.attributes.Some? && r.attributes.value.condition.Some? && |r.attributes.value.condition.value| > 0 {
      LevelLookup(r.attributes.value.condition.value[0], 0);
    }
    if BoxOf(v, r).Done? && BoxOf(v, r).value.Some? {
      var level := StrToLevel(r.attributes.value.condition.value[0]) as Level;
      forall s | 0 <= s < 8 ensures Slot(BoxOf(v, r).value.value.fault, s) == if Names(v, r.attributes.value.fault.value, s) then level else 0 {
        FaultOfKeysSlots(v, r.attributes.value.fault.value, level, s);
      }
    }
  }

  /** Only the smallest condition key matters. */
  lemma FirstConditionOnly(v: Variant, r: Record, more: Keys)
    requires r.attributes.Some? && r.attributes.value.condition.Some?
    requires |r.attributes.value.condition.value| > 0 && |more| > 0
    requires more[0] == r.attributes.value.condition.value[0]
    ensures BoxOf(v, r.(attributes := Some(r.attributes.value.(condition := Some(more))))) == BoxOf(v, r)
  {
  }

  /** The boxes of a sequence of records, or the exception of the first
      record that throws. */
  function BoxesOf(v: Variant, rs: seq<Record>): Outcome<seq<Box>>
    decreases |rs|
  {
    if |rs| == 0 then Done([])
    else
      match BoxesOf(v, rs[..|rs| - 1])
      case Thrown => Thrown
      case Done(bs) =>
        match BoxOf(v, rs[|rs| - 1])
        case Thrown => Thrown
        case Done(None) => Done(bs)
        case Done(Some(b)) => Done(bs + [b])
  }

  /** The inner loop of json2boxarr over the fault keys. */
  method FaultFromKeys(v: Variant, ks: Keys, level: Level) returns (fault: Fault)
    ensures fault == FaultOfKeys(v, ks, level)
  {
    fault := NONE;
    for i := 0 to |ks|
      invariant fault == FaultOfKeys(v, ks[..i], level)
    {
      assert ks[..i + 1][..i] == ks[..i];
      var t := StrToType(v, ks[i]);
      if t != 0 {
        fault := SetFault(fault, t, level);
      }
    }
    assert ks[..|ks|] == ks;
  }

  /** json2boxarr. */
  method Json2BoxArr(v: Variant, rs: seq<Record>) returns (out: Outcome<seq<Box>>)
    ensures out == BoxesOf(v, rs)
  {
    var boxes: seq<Box> := [];
    for i := 0 to |rs|
      invariant BoxesOf(v, rs[..i]) == Done(boxes)
    {
      assert rs[..i + 1][..i] == rs[..i];
      var j := rs[i];
      if j.filename == Absent || j.attributes.None? || j.shape.None? {
        continue;
      } else if j.attributes.value.condition.None? || j.attributes.value.fault.None? {
        continue;
      } else if |j.attributes.value.condition.value| == 0 || |j.attributes.value.fault.value| == 0 {
        continue;
      }
      var level := StrToLevel(j.attributes.value.condition.value[0]);
      if level == 0 {
        continue;
      }
      var fault := FaultFromKeys(v, j.attributes.value.fault.value, level as Level);
      if j.filename == NotString || j.shape.value.NotObject? {
        ThrownSticks(v, rs, i + 1);
        assert rs[..|rs|] == rs;
        return Thrown;
      }
      var sh := j.shape.value.shape;
      var x, y, w, h := ReadCoord(sh.x), ReadCoord(sh.y), ReadCoord(sh.width), ReadCoord(sh.height);
      if x.Thrown? || y.Thrown? || w.Thrown? || h.Thrown? {
        ThrownSticks(v, rs, i + 1);
        assert rs[..|rs|] == rs;
        return Thrown;
      }
      var bx := Box(j.filename.s, x.value, y.value, w.value, h.value, fault);
      boxes := boxes + [bx];
    }
    assert rs[..|rs|] == rs;
    out := Done(boxes);
  }

  /** Once a record throws, so does the whole sequence. */
  lemma {:induction false} ThrownSticks(v: Variant, rs: seq<Record>, n: nat)
    requires n <= |rs| && BoxesOf(v, rs[..n]) == Thrown
    ensures BoxesOf(v, rs) == Thrown
    decreases |rs| - n
  {
    if n < |rs| {
      assert rs[..n + 1][..n] == rs[..n];
      ThrownSticks(v, rs, n + 1);
    } else {
      assert rs[..n] == rs;
    }
  }

  /** Every box comes from a usable record, in record order, and every usable
      record gives one box when no record throws. */
  lemma {:induction false} BoxesCount(v: Variant, rs: seq<Record>)
    requires BoxesOf(v, rs).Done?
    ensures |BoxesOf(v, rs).value| == Usables(rs)
    decreases |rs|
  {
    if |rs| > 0 {
      BoxesCount(v, rs[..|rs| - 1]);
      BoxOfSpec(v, rs[|rs| - 1]);
    }
  }

  /** The number of usable records. */
  function Usables(rs: seq<Record>): (n: nat)
    ensures n <= |rs|
    decreases |rs|
  {
    if |rs| == 0 then 0
    else Usables(rs[..|rs| - 1]) + (if Usable(rs[|rs| - 1]) then 1 else 0)
  }

  // ---- filejson2json / viajson2json ----

  /** One region of a _via_img_metadata entry. */
  datatype Region = Region(attributes: Option<Attributes>, shape: Option<ShapeMember>)

  /** One _via_img_metadata entry. */
  datatype Entry = Entry(filename: Name, regions: seq<Region>)

  /** The result: the flat records, or the number 2 when the text does not
      parse. */
  datatype Flat = Sentinel | Records(records: seq<Record>)

  /** value["filename"] on a non-const object yields null for a missing member. */
  function Copied(n: Name): Name {
    if n == Absent then NotString else n
  }

  function RecordsOfEntry(e: Entry): (rs: seq<Record>)
    ensures |rs| == |e.regions|
    ensures forall i | 0 <= i < |rs| ::
      rs[i] == Record(Copied(e.filename), e.regions[i].attributes, e.regions[i].shape)
  {
    seq(|e.regions|, i requires 0 <= i < |e.regions| =>
      Record(Copied(e.filename), e.regions[i].attributes, e.regions[i].shape))
  }

  function RecordsOf(es: seq<Entry>): seq<Record>
    decreases |es|
  {
    if |es| == 0 then [] else RecordsOf(es[..|es| - 1]) + RecordsOfEntry(es[|es| - 1])
  }

  function RegionCount(es: seq<Entry>): nat
    decreases |es|
  {
    if |es| == 0 then 0 else RegionCount(es[..|es| - 1]) + |es[|es| - 1].regions|
  }

  /** filejson2json: doc is the parsed document's metadata entries in key
      order, or None when parsing fails. */
  method FileJson2Json(doc: Option<seq<Entry>>) returns (out: Flat)
    ensures doc.None? ==> out == Sentinel
    ensures doc.Some? ==> out == Records(RecordsOf(doc.value))
  {
    if doc.None? {
      return Sentinel;
    }
    var es := doc.value;
    var arr: seq<Record> := [];
    for k := 0 to |es|
      invariant arr == RecordsOf(es[..k])
    {
      assert es[..k + 1][..k] == es[..k];
      var value := es[k];
      if |value.regions| != 0 {
        for r := 0 to |value.regions|
          invariant arr == RecordsOf(es[..k]) + RecordsOfEntry(value)[..r]
        {
          var region := value.regions[r];
          var j := Record(Copied(value.filename), region.attributes, region.shape);
          assert RecordsOfEntry(value)[..r + 1] == RecordsOfEntry(value)[..r] + [j];
          arr := arr + [j];
        }
        assert RecordsOfEntry(value)[..|value.regions|] == RecordsOfEntry(value);
      }
    }
    assert es[..|es|] == es;
    return Records(arr);
  }

  /** One record per region, regions of empty entries contributing nothing. */
  lemma {:induction false} RecordsPerRegion(es: seq<Entry>)
    ensures |RecordsOf(es)| == RegionCount(es)
    decreases |es|
  {
    if |es| > 0 {
      RecordsPerRegion(es[..|es| - 1]);
    }
  }

  /** Every flat record of a JSON document names its file, possibly as null. */
  lemma {:induction false} RecordsNamed(es: seq<Entry>)
    ensures forall i | 0 <= i < |RecordsOf(es)| :: RecordsOf(es)[i].filename != Absent
    decreases |es|
  {
    if |es| > 0 {
      RecordsNamed(es[..|es| - 1]);
    }
  }

  /** json2boxarr on the sentinel iterates the number 2 once, which has no
      members, so an unparsable document gives no boxes. */
  function BoxesOfFlat(v: Variant, fl: Flat): Outcome<seq<Box>> {
    match fl
    case Sentinel => Done([])
    case Records(rs) => BoxesOf(v, rs)
  }

  // ---- filecsv2json / viacsv2json ----

  /** A cell of a flat CSV record: a string, or the parsed JSON of one of the
      two region columns, read as the members json2boxarr uses. */
  datatype Cell = Str(s: string) | AttrCell(a: Attributes) | ShapeCell(sh: ShapeMember)

  /** The JSON parsers of the two region columns; None when the text is not
      JSON (nlohmann::json::parse then throws). A region_attributes text that
      parses to something other than an object reads as
      Attributes(None, None), since contains() is false on it. */
  datatype Parsers = Parsers(attributes: string -> Option<Attributes>, shape: string -> Option<ShapeMember>)

  /** The record of one data line: header and cells are zipped up to the
      shorter of the two and a later column with the same name wins. */
  function RowOf(header: seq<string>, values: seq<string>, p: Parsers, n: nat): Outcome<map<string, Cell>>
    requires n <= |header| && n <= |values|
    decreases n
  {
    if n == 0 then Done(map[])
    else
      match RowOf(header, values, p, n - 1)
      case Thrown => Thrown
      case Done(m) =>
        var h, s := header[n - 1], values[n - 1];
        if h == "region_shape_attributes" then
          (match p.shape(s) case None => Thrown case Some(sh) => Done(m[h := ShapeCell(sh)]))
        else if h == "region_attributes" then
          (match p.attributes(s) case None => Thrown case Some(a) => Done(m[h := AttrCell(a)]))
        else Done(m[h := Str(s)])
  }

  function Min(a: nat, b: nat): nat {
    if a < b then a else b
  }

  /** The zip loop of filecsv2json for one data line. */
  method ZipRow(header: seq<string>, values: seq<string>, p: Parsers) returns (out: Outcome<map<string, Cell>>)
    ensures out == RowOf(header, values, p, Min(|header|, |values|))
  {
    var j: map<string, Cell> := map[];
    var i := 0;
    while i < |header| && i < |values|
      invariant i <= |header| && i <= |values|
      invariant RowOf(header, values, p, i) == Done(j)
    {
      var h := header[i];
      if h == "region_shape_attributes" {
        var parsed := p.shape(values[i]);
        if parsed.None? {
          ZipThrownSticks(header, values, p, i + 1);
          return Thrown;
        }
        j := j[h := ShapeCell(parsed.value)];
      } else if h == "region_attributes" {
        var parsed := p.attributes(values[i]);
        if parsed.None? {
          ZipThrownSticks(header, values, p, i + 1);
          return Thrown;
        }
        j := j[h := AttrCell(parsed.value)];
      } else {
        j := j[h := Str(values[i])];
      }
      i := i + 1;
    }
    return Done(j);
  }

  lemma {:induction false} ZipThrownSticks(header: seq<string>, values: seq<string>, p: Parsers, n: nat)
    requires n <= |header| && n <= |values| && RowOf(header, values, p, n) == Thrown
    ensures RowOf(header, values, p, Min(|header|, |values|)) == Thrown
    decreases Min(|header|, |values|) - n
  {
    if n < Min(|header|, |values|) {
      ZipThrownSticks(header, values, p, n + 1);
    }
  }

  /** The last column among the first n with name h. */
  predicate LastWith(header: seq<string>, h: string, n: nat, i: int)
    requires n <= |header|
  {
    0 <= i < n && header[i] == h && forall k | i < k < n :: header[k] != h
  }

  /** The record has exactly the zipped columns, each holding the cell of
      the last column with that name. */
  lemma {:induction false} RowOfColumns(header: seq<string>, values: seq<string>, p: Parsers, n: nat)
    requires n <= |header| && n <= |values| && RowOf(header, values, p, n).Done?
    ensures forall h :: h in RowOf(header, values, p, n).value <==> h in header[..n]
    ensures forall h, i | LastWith(header, h, n, i) && h != "region_shape_attributes" && h != "region_attributes" ::
      RowOf(header, values, p, n).value[h] == Str(values[i])
    decreases n
  {
    if n > 0 {
      RowOfColumns(header, values, p, n - 1);
      assert header[..n] == header[..n - 1] + [header[n - 1]];
      forall h, i | LastWith(header, h, n, i) && h != "region_shape_attributes" && h != "region_attributes"
        ensures RowOf(header, values, p, n).value[h] == Str(values[i])
      {
        if i < n - 1 {
          assert LastWith(header, h, n - 1, i);
        }
      }
    }
  }

  /** Reading a flat CSV record as the members json2boxarr uses. */
  function RecordOfRow(m: map<string, Cell>): Record {
    Record(
      if "filename" in m && m["filename"].Str? then Text(m["filename"].s) else Absent,
      if "region_attributes" in m && m["region_attributes"].AttrCell? then Some(m["region_attributes"].a) else None,
      if "region_shape_attributes" in m && m["region_shape_attributes"].ShapeCell? then Some(m["region_shape_attributes"].sh) else None)
  }

  /** The records of the data lines after the header line. */
  function CsvRecords(lines: seq<string>, p: Parsers): Outcome<seq<Record>>
    decreases |lines|
  {
    if |lines| <= 1 then Done([])
    else
      var header := CsvLine.Parse(lines[0]);
      match CsvRecords(lines[..|lines| - 1], p)
      case Thrown => Thrown
      case Done(rs) =>
        var values := CsvLine.Parse(lines[|lines| - 1]);
        match RowOf(header, values, p, Min(|header|, |values|))
        case Thrown => Thrown
        case Done(m) => Done(rs + [RecordOfRow(m)])
  }

  /** filecsv2json: the first line is the header, every further line one record. */
  method FileCsv2Json(lines: seq<string>, p: Parsers) returns (out: Outcome<seq<Record>>)
    ensures out == CsvRecords(lines, p)
  {
    if |lines| == 0 {
      return Done([]);
    }
    var header := CsvLine.ParseCsvLine(lines[0]);
    var arr: seq<Record> := [];
    for k := 1 to |lines|
      invariant CsvRecords(lines[..k], p) == Done(arr)
    {
      assert lines[..k + 1][..k] == lines[..k];
      assert lines[..k + 1][0] == lines[0];
      var values := CsvLine.ParseCsvLine(lines[k]);
      var row := ZipRow(header, values, p);
      if row.Thrown? {
        CsvThrownSticks(lines, p, k + 1);
        return Thrown;
      }
      arr := arr + [RecordOfRow(row.value)];
    }
    assert lines[..|lines|] == lines;
    return Done(arr);
  }

  lemma {:induction false} CsvThrownSticks(lines: seq<string>, p: Parsers, n: nat)
    requires 1 <= n <= |lines| && CsvRecords(lines[..n], p) == Thrown
    ensures CsvRecords(lines, p) == Thrown
    decreases |lines| - n
  {
    if n < |lines| {
      assert lines[..n + 1][..n] == lines[..n];
      assert lines[..n + 1][0] == lines[0];
      CsvThrownSticks(lines, p, n + 1);
    } else {
      assert lines[..n] == lines;
    }
  }

  /** One record per data line. */
  lemma {:induction false} CsvRecordCount(lines: seq<string>, p: Parsers)
    requires CsvRecords(lines, p).Done?
    ensures |CsvRecords(lines, p).value| == if |lines| == 0 then 0 else |lines| - 1
    decreases |lines|
  {
    if |lines| > 1 {
      CsvRecordCount(lines[..|lines| - 1], p);
    }
  }

  // ---- from_csv_reader ----

  /** One row of the TSV file, with its columns already read. */
  datatype TsvRow = TsvRow(image: string, level: string, category: string, x: int, y: int, w: int, h: int)

  /** The category must be known: an unknown one is a negative shift. */
  predicate KnownCategory(v: Variant, r: TsvRow) {
    StrToType(v, r.category) != 0
  }

  function BoxOfRow(v: Variant, r: TsvRow): Box
    requires KnownCategory(v, r)
  {
    Box(r.image, r.x, r.y, r.w, r.h, SetFault(NONE, StrToType(v, r.category), StrToLevel(r.level) as Level))
  }

  /** The box of a row carries exactly its category at its level; an unknown
      level leaves the fault empty. */
  lemma BoxOfRowFault(v: Variant, r: TsvRow)
    requires KnownCategory(v, r)
    ensures var t := StrToType(v, r.category) - 1;
      && Slot(BoxOfRow(v, r).fault, t) == StrToLevel(r.level) as Level
      && forall s | 0 <= s < 8 && s != t :: Slot(BoxOfRow(v, r).fault, s) == 0
    ensures StrToLevel(r.level) == 0 ==> BoxOfRow(v, r).fault == NONE
  {
    NoneIsEmpty();
    var f := BoxOfRow(v, r).fault;
    if StrToLevel(r.level) == 0 {
      forall s | 0 <= s < 8 ensures Slot(f, s) == Slot(NONE, s) {
      }
      SlotsDetermine(f, NONE);
    }
  }

  /** The loop of from_csv_reader: one box per row, reusing one Box value. */
  method FromCsvRows(v: Variant, rows: seq<TsvRow>) returns (boxes: seq<Box>)
    requires forall i | 0 <= i < |rows| :: KnownCategory(v, rows[i])
    ensures |boxes| == |rows|
    ensures forall i | 0 <= i < |rows| :: boxes[i] == BoxOfRow(v, rows[i])
  {
    boxes := [];
    var bx := Box("", 0, 0, 0, 0, NONE);
    for i := 0 to |rows|
      invariant |boxes| == i
      invariant forall k | 0 <= k < i :: boxes[k] == BoxOfRow(v, rows[k])
    {
      var row := rows[i];
      bx := bx.(image := row.image, fault := NONE);
      bx := bx.(x := row.x, y := row.y, w := row.w, h := row.h);
      var t := StrToType(v, row.category);
      var l := StrToLevel(row.level);
      bx := bx.(fault := SetFault(bx.fault, t, l as Level));
      boxes := boxes + [bx];
    }
  }

  /** The boxes of the rows, one per row in row order. */
  function RowBoxes(v: Variant, rows: seq<TsvRow>): (bs: seq<Box>)
    requires forall i | 0 <= i < |rows| :: KnownCategory(v, rows[i])
    ensures |bs| == |rows|
  {
    seq(|rows|, i requires 0 <= i < |rows| => BoxOfRow(v, rows[i]))
  }

  /** from_csv_reader: the boxes of the rows, grouped by image. */
  method FromCsvReader(v: Variant, rows: seq<TsvRow>) returns (ibx_arr: seq<ImgBox>)
    requires forall i | 0 <= i < |rows| :: KnownCategory(v, rows[i])
    ensures ibx_arr == Grouped(RowBoxes(v, rows))
  {
    var bx_arr := FromCsvRows(v, rows);
    assert bx_arr == RowBoxes(v, rows);
    ibx_arr := BoxArr2ImgBoxArr(bx_arr);
  }
}
