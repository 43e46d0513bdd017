/** The GIS converter: GeoJSON features to Well-known Text geometries
    (OGC Simple Feature Access, Part 1, clause 7) and to TSV rows.
    Coordinates nest as section 3.1 of RFC 7946 lays them out: a position is
    an array of numbers, a line string or ring an array of positions, a
    polygon an array of rings and a multipolygon an array of polygons. */
module Gis {
  import opened Strings
  import opened Lists
  import opened Boxes
  import Export

  /** A parsed JSON document as nlohmann::json holds it; integer and
      floating-point numbers are both numbers. An object's members are a
      list: the lemmas hold for any list, and where one needs what a
      std::map guarantees, that no key repeats, it says so (DistinctKeys). */
  datatype Json =
    | Null
    | Boolean(b: bool)
    | Number(n: real)
    | Str(s: string)
    | Array(items: seq<Json>)
    | Object(members: seq<Member>)

  datatype Member = Member(key: string, value: Json)

  /** No key occurs twice among the members, as in a std::map. */
  predicate DistinctKeys(ms: seq<Member>) {
    forall i, j | 0 <= i < j < |ms| :: ms[i].key != ms[j].key
  }

  function Lookup(ms: seq<Member>, key: string): (r: Option<Json>)
    ensures r.Some? <==> exists i | 0 <= i < |ms| :: ms[i].key == key
    ensures r.Some? ==> exists i | 0 <= i < |ms| :: ms[i].key == key && ms[i].value == r.value
    decreases |ms|
  {
    if |ms| == 0 then None
    else if ms[0].key == key then Some(ms[0].value)
    else Lookup(ms[1..], key)
  }

  /** json::contains: only an object has members. */
  predicate Contains(js: Json, key: string) {
    js.Object? && Lookup(js.members, key).Some?
  }

  /** const json::operator[] with a key. On a value that is not an object it
      throws a type error; on a missing key its behaviour is undefined, which
      the model treats as a failure too. */
  function At(js: Json, key: string): Outcome<Json> {
    if Contains(js, key) then Done(Lookup(js.members, key).value) else Thrown
  }

  /** What js.size() and js[i] walk through in an index loop: null and an
      empty object have size 0, and indexing anything but an array throws. */
  function Elements(js: Json): Outcome<seq<Json>> {
    match js
    case Array(items) => Done(items)
    case Null => Done([])
    case Object(ms) => if |ms| == 0 then Done([]) else Thrown
    case _ => Thrown
  }

  /** What a range-for visits: an array's elements, an object's member
      values in key order, nothing for null, and a primitive value itself. */
  function Values(js: Json): seq<Json> {
    match js
    case Array(items) => items
    case Object(ms) => seq(|ms|, i requires 0 <= i < |ms| => ms[i].value)
    case Null => []
    case _ => [js]
  }

  // ---------------------------------------------------------------------
  // Well-known Text

  /** enclose: the text in parentheses, after the prefix and a space when
      there is a prefix. */
  function Enclose(s: string, prefix: string): string {
    if prefix == "" then "(" + s + ")" else prefix + " (" + s + ")"
  }

  function Parenthesised(o: Outcome<string>, prefix: string): Outcome<string> {
    match o
    case Thrown => Thrown
    case Done(s) => Done(Enclose(s, prefix))
  }

  /** wkt_point: the first two coordinates of a position, rendered by the
      uninterpreted num (std::to_string(double)) and separated by a space.
      get<double>() throws on a non-number; a position with fewer than two
      members is out of range, which the model treats as a failure. */
  function Point(num: real -> string, js: Json): Outcome<string> {
    if js.Array? && |js.items| >= 2 && js.items[0].Number? && js.items[1].Number? then
      Done(num(js.items[0].n) + " " + num(js.items[1].n))
    else Thrown
  }

  /** Every piece converted, or a failure as soon as one piece fails. */
  function Collect<A>(w: A -> Outcome<string>, xs: seq<A>): (r: Outcome<seq<string>>)
    ensures r.Done? ==> |r.value| == |xs|
    decreases |xs|
  {
    if |xs| == 0 then Done([])
    else
      match Collect(w, xs[..|xs| - 1])
      case Thrown => Thrown
      case Done(vs) =>
        match w(xs[|xs| - 1])
        case Thrown => Thrown
        case Done(v) => Done(vs + [v])
  }

  /** The elements of js converted by w and joined with ", ". */
  function JoinAll(w: Json -> Outcome<string>, js: Json): Outcome<string> {
    match Elements(js)
    case Thrown => Thrown
    case Done(items) =>
      match Collect(w, items)
      case Thrown => Thrown
      case Done(vs) => Done(Join(vs, ", "))
  }

  function PointWriter(num: real -> string): Json -> Outcome<string> {
    js => Point(num, js)
  }

  /** wkt_coords: the positions of a line string or ring. */
  function Coords(num: real -> string, js: Json): Outcome<string> {
    JoinAll(PointWriter(num), js)
  }

  function RingWriter(num: real -> string): Json -> Outcome<string> {
    js => Parenthesised(Coords(num, js), "")
  }

  /** wkt_polygon: each ring in parentheses. */
  function Polygon(num: real -> string, js: Json): Outcome<string> {
    JoinAll(RingWriter(num), js)
  }

  function PolygonWriter(num: real -> string): Json -> Outcome<string> {
    js => Parenthesised(Polygon(num, js), "")
  }

  /** wkt_mpolygon: each polygon in parentheses. */
  function MultiPolygon(num: real -> string, js: Json): Outcome<string> {
    JoinAll(PolygonWriter(num), js)
  }

  /** The text built so far by a join loop: the pieces joined, and a
      separator after them while more pieces follow. */
  ghost function Separated(vs: seq<string>, more: bool): string {
    if |vs| == 0 then "" else Join(vs, ", ") + (if more then ", " else "")
  }

  /** The loop shared by wkt_coords, wkt_polygon and wkt_mpolygon: append
      each converted element and a ", " after every element but the last. */
  method JoinLoop(w: Json -> Outcome<string>, js: Json) returns (r: Outcome<string>)
    ensures r == JoinAll(w, js)
  {
    var elements := Elements(js);
    if elements.Thrown? {
      return Thrown;
    }
    var items := elements.value;
    var n := |items|;
    var wkt := "";
    ghost var vs: seq<string> := [];
    for i := 0 to n
      invariant Collect(w, items[..i]) == Done(vs)
      invariant wkt == Separated(vs, i < n)
    {
      var p := w(items[i]);
      if p.Thrown? {
        JoinThrown(w, items, i);
        return Thrown;
      }
      JoinDone(w, items, i, vs, p.value);
      wkt := wkt + p.value;
      if i < n - 1 {
        wkt := wkt + ", ";
      }
      vs := vs + [p.value];
    }
    assert items[..n] == items;
    assert wkt == Join(vs, ", ");
    r := Done(wkt);
  }

  /** One element that fails to convert makes the whole conversion fail. */
  lemma JoinThrown(w: Json -> Outcome<string>, items: seq<Json>, i: nat)
    requires i < |items| && w(items[i]).Thrown?
    ensures Collect(w, items).Thrown?
  {
    CollectDone(w, items);
    assert !w(items[i]).Done?;
  }

  /** One more converted element extends the pieces and the text. */
  lemma JoinDone(w: Json -> Outcome<string>, items: seq<Json>, i: nat, vs: seq<string>, v: string)
    requires i < |items| && Collect(w, items[..i]) == Done(vs) && w(items[i]) == Done(v)
    ensures Collect(w, items[..i + 1]) == Done(vs + [v])
    ensures Separated(vs, true) + v == Join(vs + [v], ", ")
  {
    if |vs| > 0 {
      JoinSnoc(vs, v, ", ");
    }
    assert items[..i + 1][..i] == items[..i];
  }

  method WktCoords(num: real -> string, js: Json) returns (r: Outcome<string>)
    ensures r == Coords(num, js)
  {
    r := JoinLoop(PointWriter(num), js);
  }

  method WktPolygon(num: real -> string, js: Json) returns (r: Outcome<string>)
    ensures r == Polygon(num, js)
  {
    r := JoinLoop(RingWriter(num), js);
  }

  method WktMultiPolygon(num: real -> string, js: Json) returns (r: Outcome<string>)
    ensures r == MultiPolygon(num, js)
  {
    r := JoinLoop(PolygonWriter(num), js);
  }

  /** The geometry types json2wkt converts. */
  datatype Shape = PointShape | LineStringShape | PolygonShape | MultiPolygonShape

  /** The GeoJSON type name of each shape. */
  function Name(shape: Shape): string {
    match shape
    case PointShape => "Point"
    case LineStringShape => "LineString"
    case PolygonShape => "Polygon"
    case MultiPolygonShape => "MultiPolygon"
  }

  /** The comparisons of json2wkt: the shape a type name selects, if any. */
  function ShapeOf(shapeType: string): (r: Option<Shape>)
    ensures r.Some? ==> Name(r.value) == shapeType
  {
    if shapeType == "Point" then Some(PointShape)
    else if shapeType == "LineString" then Some(LineStringShape)
    else if shapeType == "Polygon" then Some(PolygonShape)
    else if shapeType == "MultiPolygon" then Some(MultiPolygonShape)
    else None
  }

  /** Exactly the four names select a shape, each its own. */
  lemma ShapeNames(shapeType: string, shape: Shape)
    ensures ShapeOf(shapeType) == Some(shape) <==> shapeType == Name(shape)
  {
  }

  /** The WKT keyword of each shape. */
  function Keyword(shape: Shape): string {
    match shape
    case PointShape => "POINT"
    case LineStringShape => "LINESTRING"
    case PolygonShape => "POLYGON"
    case MultiPolygonShape => "MULTIPOLYGON"
  }

  /** The coordinate text of each shape, before it is enclosed. */
  function Inner(num: real -> string, shape: Shape, coords: Json): Outcome<string> {
    match shape
    case PointShape => Point(num, coords)
    case LineStringShape => Coords(num, coords)
    case PolygonShape => Polygon(num, coords)
    case MultiPolygonShape => MultiPolygon(num, coords)
  }

  function Geometry(num: real -> string, shape: Shape, coords: Json): Outcome<string> {
    Parenthesised(Inner(num, shape, coords), Keyword(shape))
  }

  /** json2wkt: the feature's geometry.shapeType, which must be a string,
      selects the conversion of geometry.coordinates; other types throw. */
  function Json2Wkt(num: real -> string, js: Json): Outcome<string> {
    match At(js, "geometry")
    case Thrown => Thrown
    case Done(g) =>
      match (At(g, "shapeType"), At(g, "coordinates"))
      case (Done(Str(t)), Done(c)) =>
        (match ShapeOf(t)
         case None => Thrown
         case Some(shape) => Geometry(num, shape, c))
      case _ => Thrown
  }

  /** The geometry member of a feature, its type name and its coordinates,
      when all three are there and the name is a string. */
  predicate Typed(js: Json, t: string, c: Json) {
    && At(js, "geometry").Done?
    && At(At(js, "geometry").value, "shapeType") == Done(Str(t))
    && At(At(js, "geometry").value, "coordinates") == Done(c)
  }

  /** A supported type converts the coordinates by its own writer and puts
      its keyword in front; any other type name throws, and so does a
      feature without a geometry, a type name or coordinates, or whose type
      name is not a string. */
  lemma Json2WktCases(num: real -> string, js: Json, t: string, c: Json)
    ensures Typed(js, t, c) && ShapeOf(t).Some? ==>
      Json2Wkt(num, js) == Parenthesised(Inner(num, ShapeOf(t).value, c), Keyword(ShapeOf(t).value))
    ensures Typed(js, t, c) && ShapeOf(t).None? ==> Json2Wkt(num, js) == Thrown
    ensures Json2Wkt(num, js).Done? ==> exists t, c :: Typed(js, t, c) && ShapeOf(t).Some?
  {
    if Json2Wkt(num, js).Done? {
      var g := At(js, "geometry").value;
      assert Typed(js, At(g, "shapeType").value.s, At(g, "coordinates").value);
    }
  }

  /** The smallest feature with a geometry of type t at coordinates c. */
  function Feature(t: string, c: Json): Json {
    Object([Member("geometry", Object([Member("coordinates", c), Member("shapeType", Str(t))]))])
  }

  lemma FeatureTyped(t: string, c: Json)
    ensures Typed(Feature(t, c), t, c)
  {
    var g := Object([Member("coordinates", c), Member("shapeType", Str(t))]);
    assert At(Feature(t, c), "geometry") == Done(g);
    assert At(g, "coordinates") == Done(c);
    SecondMember(Member("coordinates", c), Member("shapeType", Str(t)), "shapeType");
  }

  /** A point feature: the keyword and the two numbers in parentheses. */
  lemma PointExample(num: real -> string)
    ensures Json2Wkt(num, Feature("Point", Array([Number(1.0), Number(2.0)]))) ==
      Done("POINT (" + num(1.0) + " " + num(2.0) + ")")
  {
    var c := Array([Number(1.0), Number(2.0)]);
    FeatureTyped("Point", c);
    Json2WktCases(num, Feature("Point", c), "Point", c);
    assert ShapeOf("Point") == Some(PointShape);
    var pt := num(1.0) + " " + num(2.0);
    assert Inner(num, PointShape, c) == Done(pt);
    assert "POINT" + " (" + pt + ")" == "POINT (" + num(1.0) + " " + num(2.0) + ")";
  }

  /** A polygon of one ring: the ring's positions in a second pair of
      parentheses, separated by ", ". */
  lemma PolygonExample(num: real -> string)
    ensures var p := Array([Number(0.0), Number(1.0)]);
      Json2Wkt(num, Feature("Polygon", Array([Array([p, p])]))) ==
        Done("POLYGON ((" + num(0.0) + " " + num(1.0) + ", " + num(0.0) + " " + num(1.0) + "))")
  {
    var p := Array([Number(0.0), Number(1.0)]);
    var c := Array([Array([p, p])]);
    FeatureTyped("Polygon", c);
    Json2WktCases(num, Feature("Polygon", c), "Polygon", c);
    assert ShapeOf("Polygon") == Some(PolygonShape);
    var pt := num(0.0) + " " + num(1.0);
    var ring := TwoPointRing(num, p, pt);
    OneRing(num, Array([p, p]), ring);
    PolygonText(pt, num(0.0), num(1.0));
  }

  lemma PolygonText(pt: string, x: string, y: string)
    requires pt == x + " " + y
    ensures "POLYGON" + " (" + ("(" + pt + ", " + pt + ")") + ")" == "POLYGON ((" + x + " " + y + ", " + x + " " + y + "))"
  {
  }

  /** A ring of the same position twice. */
  lemma TwoPointRing(num: real -> string, p: Json, pt: string) returns (ring: string)
    requires Point(num, p) == Done(pt)
    ensures ring == "(" + pt + ", " + pt + ")"
    ensures RingWriter(num)(Array([p, p])) == Done(ring)
  {
    ring := "(" + pt + ", " + pt + ")";
    CollectTwo(PointWriter(num), p, p, pt, pt);
    JoinSnoc([pt], pt, ", ");
    assert Coords(num, Array([p, p])) == Done(pt + ", " + pt);
    assert "(" + (pt + ", " + pt) + ")" == ring;
  }

  /** The second member of a two-member object is found by its key. */
  lemma SecondMember(a: Member, b: Member, key: string)
    requires a.key != key && b.key == key
    ensures At(Object([a, b]), key) == Done(b.value)
  {
    assert [a, b][1..] == [b];
    assert Lookup([b], key) == Some(b.value);
  }

  /** A polygon of one ring is that ring. */
  lemma OneRing(num: real -> string, r: Json, ring: string)
    requires RingWriter(num)(r) == Done(ring)
    ensures Polygon(num, Array([r])) == Done(ring)
  {
    CollectOne(RingWriter(num), r, ring);
  }

  lemma CollectOne<A>(w: A -> Outcome<string>, a: A, u: string)
    requires w(a) == Done(u)
    ensures Collect(w, [a]) == Done([u])
  {
    assert [a][..0] == [];
    assert Collect(w, []) == Done([]);
    assert [] + [u] == [u];
  }

  lemma CollectTwo<A>(w: A -> Outcome<string>, a: A, b: A, u: string, v: string)
    requires w(a) == Done(u) && w(b) == Done(v)
    ensures Collect(w, [a, b]) == Done([u, v])
  {
    CollectOne(w, a, u);
    assert [a, b][..1] == [a];
    assert [u] + [v] == [u, v];
  }

  // ---------------------------------------------------------------------
  // Conversion of the pieces

  lemma {:induction false} CollectDone<A>(w: A -> Outcome<string>, xs: seq<A>)
    ensures Collect(w, xs).Done? <==> forall i | 0 <= i < |xs| :: w(xs[i]).Done?
    ensures Collect(w, xs).Done? ==>
      forall i | 0 <= i < |xs| :: Collect(w, xs).value[i] == w(xs[i]).value
    decreases |xs|
  {
    if |xs| > 0 {
      var init := xs[..|xs| - 1];
      CollectDone(w, init);
      assert forall i | 0 <= i < |init| :: init[i] == xs[i];
    }
  }

  lemma {:induction false} JoinAvoids(xs: seq<string>, sep: string, c: char)
    requires c !in sep
    requires forall i | 0 <= i < |xs| :: c !in xs[i]
    ensures c !in Join(xs, sep)
    decreases |xs|
  {
    if |xs| > 1 {
      JoinAvoids(xs[1..], sep, c);
    }
  }

  /** A character no piece contains, other than ',' and ' ', is not in the
      joined text. */
  lemma JoinAllAvoids(w: Json -> Outcome<string>, js: Json, c: char)
    requires c != ',' && c != ' '
    requires forall x :: w(x).Done? ==> c !in w(x).value
    ensures JoinAll(w, js).Done? ==> c !in JoinAll(w, js).value
  {
    var elements := Elements(js);
    if elements.Done? {
      var items := elements.value;
      CollectDone(w, items);
      var vs := Collect(w, items);
      if vs.Done? {
        JoinAvoids(vs.value, ", ", c);
      }
    }
  }

  /** The coordinate text of a line string or ring holds only what num
      renders, spaces and commas. */
  lemma CoordsAvoid(num: real -> string, js: Json, c: char)
    requires c != ',' && c != ' '
    requires forall x :: c !in num(x)
    ensures Coords(num, js).Done? ==> c !in Coords(num, js).value
  {
    JoinAllAvoids(PointWriter(num), js, c);
  }

  lemma RingsAvoid(num: real -> string, c: char)
    requires c != ',' && c != ' ' && c != '(' && c != ')'
    requires forall x :: c !in num(x)
    ensures forall x :: RingWriter(num)(x).Done? ==> c !in RingWriter(num)(x).value
  {
    forall x ensures RingWriter(num)(x).Done? ==> c !in RingWriter(num)(x).value {
      CoordsAvoid(num, x, c);
    }
  }

  lemma PolygonsAvoid(num: real -> string, c: char)
    requires c != ',' && c != ' ' && c != '(' && c != ')'
    requires forall x :: c !in num(x)
    ensures forall x :: PolygonWriter(num)(x).Done? ==> c !in PolygonWriter(num)(x).value
  {
    RingsAvoid(num, c);
    forall x ensures PolygonWriter(num)(x).Done? ==> c !in PolygonWriter(num)(x).value {
      JoinAllAvoids(RingWriter(num), x, c);
    }
  }

  lemma InnerAvoids(num: real -> string, shape: Shape, coords: Json, c: char)
    requires c != ',' && c != ' ' && c != '(' && c != ')'
    requires forall x :: c !in num(x)
    ensures Inner(num, shape, coords).Done? ==> c !in Inner(num, shape, coords).value
  {
    match shape
    case PointShape =>
    case LineStringShape =>
      CoordsAvoid(num, coords, c);
    case PolygonShape =>
      RingsAvoid(num, c);
      JoinAllAvoids(RingWriter(num), coords, c);
    case MultiPolygonShape =>
      PolygonsAvoid(num, c);
      JoinAllAvoids(PolygonWriter(num), coords, c);
  }

  /** The same for any geometry when c is a tab or a newline. */
  lemma GeometryAvoids(num: real -> string, shape: Shape, coords: Json, c: char)
    requires c == '\t' || c == '\n'
    requires forall x :: c !in num(x)
    ensures Geometry(num, shape, coords).Done? ==> c !in Geometry(num, shape, coords).value
  {
    InnerAvoids(num, shape, coords, c);
    var k := Keyword(shape);
    assert c !in k;
  }

  // ---------------------------------------------------------------------
  // Parenthesis structure

  function Delta(c: char): int {
    if c == '(' then 1 else if c == ')' then -1 else 0
  }

  /** Opening minus closing parentheses. */
  function Net(s: string): int
    decreases |s|
  {
    if |s| == 0 then 0 else Delta(s[0]) + Net(s[1..])
  }

  /** The deepest nesting reached in some prefix of s. */
  function Peak(s: string): (r: int)
    ensures r >= 0
    decreases |s|
  {
    if |s| == 0 then 0 else Max(0, Delta(s[0]) + Peak(s[1..]))
  }

  /** The lowest level reached in some prefix of s (negative when a
      parenthesis is closed that was not opened). */
  function Floor(s: string): (r: int)
    ensures r <= 0
    decreases |s|
  {
    if |s| == 0 then 0 else Min(0, Delta(s[0]) + Floor(s[1..]))
  }

  function Max(a: int, b: int): int {
    if a < b then b else a
  }

  function Min(a: int, b: int): int {
    if a < b then a else b
  }

  /** Every parenthesis closed, none closed before it was opened. */
  predicate Balanced(s: string) {
    Net(s) == 0 && Floor(s) == 0
  }

  predicate ParenFree(s: string) {
    '(' !in s && ')' !in s
  }

  /** num never renders a parenthesis. */
  ghost predicate Plain(num: real -> string) {
    forall x :: ParenFree(num(x))
  }

  lemma {:induction false} ProfileAppend(a: string, b: string)
    ensures Net(a + b) == Net(a) + Net(b)
    ensures Peak(a + b) == Max(Peak(a), Net(a) + Peak(b))
    ensures Floor(a + b) == Min(Floor(a), Net(a) + Floor(b))
    decreases |a|
  {
    if |a| == 0 {
      assert a + b == b;
    } else {
      assert (a + b)[1..] == a[1..] + b;
      ProfileAppend(a[1..], b);
    }
  }

  lemma {:induction false} ParenFreeProfile(s: string)
    requires ParenFree(s)
    ensures Net(s) == 0 && Peak(s) == 0 && Floor(s) == 0
    decreases |s|
  {
    if |s| > 0 {
      assert s == [s[0]] + s[1..];
      ParenFreeProfile(s[1..]);
    }
  }

  /** Closing after a balanced text dips to -1 at the end only. */
  lemma CloseProfile(s: string)
    requires Balanced(s)
    ensures Net(s + ")") == -1 && Peak(s + ")") == Peak(s) && Floor(s + ")") == -1
  {
    ProfileAppend(s, ")");
    assert ")"[1..] == "";
  }

  /** Enclosing a balanced text adds one level of nesting. */
  lemma EncloseProfile(s: string, prefix: string)
    requires Balanced(s) && ParenFree(prefix)
    ensures Balanced(Enclose(s, prefix))
    ensures Peak(Enclose(s, prefix)) == Peak(s) + 1
  {
    var lead := if prefix == "" then "" else prefix + " ";
    var closed := s + ")";
    CloseProfile(s);
    var enclosed := "(" + closed;
    assert enclosed[0] == '(' && enclosed[1..] == closed;
    assert Balanced(enclosed) && Peak(enclosed) == Peak(s) + 1;
    ParenFreeProfile(lead);
    ProfileAppend(lead, enclosed);
    assert Enclose(s, prefix) == lead + enclosed;
  }

  /** The greatest Peak among the texts, 0 for none. */
  function MaxPeak(xs: seq<string>): (m: int)
    ensures forall i | 0 <= i < |xs| :: Peak(xs[i]) <= m
    ensures |xs| == 0 ==> m == 0
    ensures |xs| > 0 ==> exists i | 0 <= i < |xs| :: Peak(xs[i]) == m
    decreases |xs|
  {
    if |xs| == 0 then 0
    else
      var rest := MaxPeak(xs[1..]);
      assert forall i | 1 <= i < |xs| :: xs[i] == xs[1..][i - 1];
      Max(Peak(xs[0]), rest)
  }

  /** Joining balanced texts with a separator free of parentheses keeps the
      result balanced and as deep as the deepest text. */
  lemma {:induction false} JoinProfile(xs: seq<string>, sep: string)
    requires ParenFree(sep)
    requires forall i | 0 <= i < |xs| :: Balanced(xs[i])
    ensures Balanced(Join(xs, sep)) && Peak(Join(xs, sep)) == MaxPeak(xs)
    decreases |xs|
  {
    if |xs| == 1 {
      assert MaxPeak(xs) == Max(Peak(xs[0]), MaxPeak(xs[1..]));
    } else if |xs| > 1 {
      JoinProfile(xs[1..], sep);
      ParenFreeProfile(sep);
      ProfileAppend(xs[0], sep);
      ProfileAppend(xs[0] + sep, Join(xs[1..], sep));
    }
  }

  /** How many parentheses Json2Wkt nests for a shape: one around the
      geometry, one more when a polygon has a ring, and for a multipolygon
      one more when it has a polygon and another when some polygon has a
      ring. */
  function Levels(shape: Shape, coords: Json): nat {
    match shape
    case PolygonShape => 1 + (if Size(coords) > 0 then 1 else 0)
    case MultiPolygonShape =>
      var parts := if Elements(coords).Done? then Elements(coords).value else [];
      1 + (if |parts| == 0 then 0 else 1 + (if HasRing(parts) then 1 else 0))
    case _ => 1
  }

  /** Some polygon among the parts has a ring. */
  predicate HasRing(parts: seq<Json>) {
    exists i | 0 <= i < |parts| :: Size(parts[i]) > 0
  }

  lemma DeepestPolygon(ps: seq<string>, parts: seq<Json>)
    requires |ps| == |parts|
    requires forall i | 0 <= i < |ps| :: Peak(ps[i]) == 1 + (if Size(parts[i]) > 0 then 1 else 0)
    ensures MaxPeak(ps) == (if |ps| == 0 then 0 else 1 + (if HasRing(parts) then 1 else 0))
  {
    if |ps| > 0 {
      var k :| 0 <= k < |ps| && Peak(ps[k]) == MaxPeak(ps);
      if HasRing(parts) {
        var i :| 0 <= i < |parts| && Size(parts[i]) > 0;
        assert Peak(ps[i]) == 2;
      }
    }
  }

  function Size(js: Json): nat {
    if Elements(js).Done? then |Elements(js).value| else 0
  }

  lemma CoordsFlat(num: real -> string, js: Json)
    requires Plain(num)
    ensures Coords(num, js).Done? ==> ParenFree(Coords(num, js).value)
  {
    assert forall x :: ParenFree(num(x));
    CoordsAvoid(num, js, '(');
    CoordsAvoid(num, js, ')');
  }

  /** A ring is one balanced level deep. */
  lemma RingProfile(num: real -> string, js: Json)
    requires Plain(num)
    ensures RingWriter(num)(js).Done? ==>
      Balanced(RingWriter(num)(js).value) && Peak(RingWriter(num)(js).value) == 1
  {
    var c := Coords(num, js);
    if c.Done? {
      CoordsFlat(num, js);
      ParenFreeProfile(c.value);
      EncloseProfile(c.value, "");
    }
  }

  /** A polygon's text nests one level when it has a ring. */
  lemma PolygonProfile(num: real -> string, js: Json)
    requires Plain(num)
    ensures Polygon(num, js).Done? ==>
      Balanced(Polygon(num, js).value) && Peak(Polygon(num, js).value) == (if Size(js) > 0 then 1 else 0)
  {
    var w := RingWriter(num);
    var elements := Elements(js);
    if elements.Done? {
      var items := elements.value;
      CollectDone(w, items);
      var vs := Collect(w, items);
      if vs.Done? {
        forall i | 0 <= i < |items| ensures Balanced(vs.value[i]) && Peak(vs.value[i]) == 1 {
          RingProfile(num, items[i]);
        }
        JoinProfile(vs.value, ", ");
      }
    }
  }

  lemma PolygonPieceProfile(num: real -> string, js: Json)
    requires Plain(num)
    ensures PolygonWriter(num)(js).Done? ==>
      Balanced(PolygonWriter(num)(js).value) &&
      Peak(PolygonWriter(num)(js).value) == 1 + (if Size(js) > 0 then 1 else 0)
  {
    var p := Polygon(num, js);
    if p.Done? {
      PolygonProfile(num, js);
      EncloseProfile(p.value, "");
    }
  }

  lemma MultiPolygonProfile(num: real -> string, js: Json)
    requires Plain(num)
    ensures MultiPolygon(num, js).Done? ==>
      Balanced(MultiPolygon(num, js).value) &&
      Peak(MultiPolygon(num, js).value) == Levels(MultiPolygonShape, js) - 1
  {
    var w := PolygonWriter(num);
    var elements := Elements(js);
    if elements.Done? {
      var items := elements.value;
      CollectDone(w, items);
      var vs := Collect(w, items);
      if vs.Done? {
        var ps := vs.value;
        forall i | 0 <= i < |items|
          ensures Balanced(ps[i]) && Peak(ps[i]) == 1 + (if Size(items[i]) > 0 then 1 else 0)
        {
          PolygonPieceProfile(num, items[i]);
        }
        JoinProfile(ps, ", ");
        DeepestPolygon(ps, items);
      }
    }
  }

  lemma InnerNesting(num: real -> string, shape: Shape, coords: Json)
    requires Plain(num)
    ensures Inner(num, shape, coords).Done? ==>
      Balanced(Inner(num, shape, coords).value) &&
      Peak(Inner(num, shape, coords).value) == Levels(shape, coords) - 1
  {
    var inner := Inner(num, shape, coords);
    if inner.Done? {
      match shape
      case PointShape =>
        assert ParenFree(num(coords.items[0].n)) && ParenFree(num(coords.items[1].n));
        ParenFreeProfile(inner.value);
      case LineStringShape =>
        CoordsFlat(num, coords);
        ParenFreeProfile(inner.value);
      case PolygonShape =>
        PolygonProfile(num, coords);
      case MultiPolygonShape =>
        MultiPolygonProfile(num, coords);
    }
  }

  /** The WKT text of a geometry is balanced and nests exactly as deep as
      its coordinates: the parentheses of the text mirror the arrays. */
  lemma GeometryNesting(num: real -> string, shape: Shape, coords: Json)
    requires Plain(num)
    ensures Geometry(num, shape, coords).Done? ==>
      Balanced(Geometry(num, shape, coords).value) &&
      Peak(Geometry(num, shape, coords).value) == Levels(shape, coords)
  {
    var inner := Inner(num, shape, coords);
    if inner.Done? {
      InnerNesting(num, shape, coords);
      var k := Keyword(shape);
      assert ParenFree(k);
      EncloseProfile(inner.value, k);
    }
  }

  // ---------------------------------------------------------------------
  // GeoJSON to TSV

  /** get_str: a member's text, or "" when it is missing or not a string. */
  function GetStr(js: Json, key: string): string {
    match At(js, key)
    case Done(Str(s)) => s
    case _ => ""
  }

  /** get_num: a member's number, or 0 when it is missing or not a number. */
  function GetNum(js: Json, key: string): real {
    match At(js, key)
    case Done(Number(n)) => n
    case _ => 0.0
  }

  /** No member named key holds a string. */
  predicate NoStringAt(js: Json, key: string) {
    js.Object? ==> forall i | 0 <= i < |js.members| && js.members[i].key == key :: !js.members[i].value.Str?
  }

  /** No member named key holds a number. */
  predicate NoNumberAt(js: Json, key: string) {
    js.Object? ==> forall i | 0 <= i < |js.members| && js.members[i].key == key :: !js.members[i].value.Number?
  }

  /** get_str against the document: a non-empty result is the string of a
      member named key; in an object without repeated keys, a string member
      named key is the result; without a string member the result is "". */
  lemma GetStrMeaning(js: Json, key: string, s: string)
    ensures GetStr(js, key) != "" ==> js.Object? && Member(key, Str(GetStr(js, key))) in js.members
    ensures js.Object? && DistinctKeys(js.members) && Member(key, Str(s)) in js.members ==> GetStr(js, key) == s
    ensures NoStringAt(js, key) ==> GetStr(js, key) == ""
  {
  }

  /** get_num against the document, as GetStrMeaning: a non-zero result is
      the number of a member named key; in an object without repeated keys,
      a number member named key is the result; without one the result is 0. */
  lemma GetNumMeaning(js: Json, key: string, n: real)
    ensures GetNum(js, key) != 0.0 ==> js.Object? && Member(key, Number(GetNum(js, key))) in js.members
    ensures js.Object? && DistinctKeys(js.members) && Member(key, Number(n)) in js.members ==> GetNum(js, key) == n
    ensures NoNumberAt(js, key) ==> GetNum(js, key) == 0.0
  {
  }

  /** The two number renderings, left uninterpreted: std::to_string(double)
      inside the WKT text and ostream << double in the other columns. */
  datatype Formats = Formats(fixed: real -> string, stream: real -> string)

  /** The columns of the header line, in the order of the row fields. */
  const TsvColumns: seq<string> :=
    ["entity_id", "asset_id", "road", "side", "start", "close", "length", "width",
     "area", "age", "material", "wkt"]

  const TsvHeader: string := Join(TsvColumns, "\t")

  /** The checks Geojson2Tsv makes before converting a feature. */
  predicate WellFormed(j: Json) {
    && Contains(j, "geometry") && Contains(j, "properties")
    && Contains(At(j, "geometry").value, "shapeType")
    && Contains(At(j, "geometry").value, "coordinates")
    && Contains(At(j, "properties").value, "id")
  }

  /** identifier.<key> assigned to a std::string: anything but a string
      member throws. */
  function Identifier(j: Json, key: string): Outcome<string> {
    match At(j, "identifier")
    case Thrown => Thrown
    case Done(ident) =>
      match At(ident, key)
      case Done(Str(s)) => Done(s)
      case _ => Thrown
  }

  /** The twelve values of a feature's row, or a failure. */
  function Fields(fm: Formats, j: Json): (r: Outcome<seq<string>>)
    ensures r.Done? ==> |r.value| == |TsvColumns|
  {
    if !WellFormed(j) then Thrown
    else
      match (Json2Wkt(fm.fixed, j), Identifier(j, "AssetId"), Identifier(j, "EntityId"))
      case (Done(wkt), Done(id), Done(uuid)) =>
        Done(Columns(uuid, id, At(j, "properties").value, wkt, fm.stream))
      case _ => Thrown
  }

  /** The numeric properties, in the order of their columns. */
  const NumberKeys: seq<string> := ["start_m", "end_m", "length_m", "width_m", "area", "age"]

  function NumberOf(p: Json): string -> real {
    key => GetNum(p, key)
  }

  /** The row of a feature whose identifiers and WKT text are known: the
      properties road_id and side, then the numbers, then footpath_surf_mat
      between them. */
  function Columns(uuid: string, id: string, p: Json, wkt: string, show: real -> string): (fs: seq<string>)
    ensures |fs| == |TsvColumns|
    ensures fs[0] == uuid && fs[1] == id && fs[11] == wkt
  {
    [uuid, id, GetStr(p, "road_id"), GetStr(p, "side")]
    + Each(show, Each(NumberOf(p), NumberKeys))
    + [GetStr(p, "footpath_surf_mat"), wkt]
  }

  /** A feature's line: its fields separated by tabs, then a newline. */
  function Row(fm: Formats, j: Json): Outcome<string> {
    match Fields(fm, j)
    case Thrown => Thrown
    case Done(fs) => Done(Join(fs, "\t") + "\n")
  }

  /** The stream's contents and whether an exception ended the conversion. */
  datatype Written = Written(text: string, thrown: bool)

  function RowWriter(fm: Formats): Json -> Outcome<string> {
    j => Row(fm, j)
  }

  /** The lines written for the items, up to the first that throws. */
  function Emit<A>(row: A -> Outcome<string>, fs: seq<A>): Written
    decreases |fs|
  {
    if |fs| == 0 then Written("", false)
    else
      var w := Emit(row, fs[..|fs| - 1]);
      if w.thrown then w
      else
        match row(fs[|fs| - 1])
        case Thrown => Written(w.text, true)
        case Done(line) => Written(w.text + line, false)
  }

  /** Geojson2Tsv on a parsed document: nothing is written when there is no
      features member, else the header line and the rows. */
  function Tsv(fm: Formats, js: Json): Written {
    if !Contains(js, "features") then Written("", true)
    else
      var w := Emit(RowWriter(fm), Values(At(js, "features").value));
      Written(TsvHeader + "\n" + w.text, w.thrown)
  }

  method Geojson2Tsv(fm: Formats, js: Json) returns (out: string, thrown: bool)
    ensures Written(out, thrown) == Tsv(fm, js)
  {
    if !Contains(js, "features") {
      return "", true;
    }
    out, thrown := WriteLines(TsvHeader + "\n", RowWriter(fm), Values(At(js, "features").value));
  }

  /** The loop of Geojson2Tsv: after the header, each item's line, until an
      item throws. */
  method WriteLines<A>(header: string, row: A -> Outcome<string>, fs: seq<A>)
    returns (out: string, thrown: bool)
    ensures out == header + Emit(row, fs).text && thrown == Emit(row, fs).thrown
  {
    out := header;
    for i := 0 to |fs|
      invariant !Emit(row, fs[..i]).thrown
      invariant out == header + Emit(row, fs[..i]).text
    {
      var line := row(fs[i]);
      assert fs[..i + 1][..i] == fs[..i];
      if line.Thrown? {
        EmitSticks(row, fs, i + 1);
        return out, true;
      }
      out := out + line.value;
    }
    assert fs[..|fs|] == fs;
    thrown := false;
  }

  /** Once an item has thrown, the later ones change nothing. */
  lemma {:induction false} EmitSticks<A>(row: A -> Outcome<string>, fs: seq<A>, i: nat)
    requires i <= |fs| && Emit(row, fs[..i]).thrown
    ensures Emit(row, fs) == Emit(row, fs[..i])
    decreases |fs|
  {
    if i == |fs| {
      assert fs[..i] == fs;
    } else {
      var init := fs[..|fs| - 1];
      assert init[..i] == fs[..i];
      EmitSticks(row, init, i);
    }
  }

  /** The line of an item that converts, "" for one that throws. */
  function TextOf<A>(row: A -> Outcome<string>): A -> string {
    j => if row(j).Done? then row(j).value else ""
  }

  /** When every item converts, the text is all their lines in order. */
  lemma {:induction false} EmitAllRows<A>(row: A -> Outcome<string>, fs: seq<A>)
    requires forall i | 0 <= i < |fs| :: row(fs[i]).Done?
    ensures Emit(row, fs) == Written(Concat(Each(TextOf(row), fs)), false)
    decreases |fs|
  {
    if |fs| > 0 {
      var init := fs[..|fs| - 1];
      EmitAllRows(row, init);
      var last := fs[|fs| - 1];
      assert fs == init + [last];
      EachAppend(TextOf(row), init, [last]);
      assert Each(TextOf(row), [last]) == [TextOf(row)(last)];
      assert TextOf(row)(last) == row(last).value;
      ConcatSnoc(Each(TextOf(row), init), TextOf(row)(last));
    }
  }

  /** When item k is the first that throws, the text is the lines of the
      items before it and the conversion ends with the exception. */
  lemma EmitStopsAt<A>(row: A -> Outcome<string>, fs: seq<A>, k: nat)
    requires k < |fs|
    requires forall i | 0 <= i < k :: row(fs[i]).Done?
    requires row(fs[k]).Thrown?
    ensures Emit(row, fs) == Written(Concat(Each(TextOf(row), fs[..k])), true)
  {
    EmitAllRows(row, fs[..k]);
    assert fs[..k + 1][..k] == fs[..k];
    EmitSticks(row, fs, k + 1);
  }

  lemma FirstThrown<A>(row: A -> Outcome<string>, fs: seq<A>) returns (k: nat)
    requires exists i | 0 <= i < |fs| :: row(fs[i]).Thrown?
    ensures k < |fs| && row(fs[k]).Thrown?
    ensures forall i | 0 <= i < k :: row(fs[i]).Done?
  {
    k := 0;
    while row(fs[k]).Done?
      invariant k < |fs|
      invariant forall i | 0 <= i < k :: row(fs[i]).Done?
      invariant exists i | k <= i < |fs| :: row(fs[i]).Thrown?
      decreases |fs| - k
    {
      k := k + 1;
    }
  }

  /** The conversion throws exactly when some item does not convert. */
  lemma EmitThrows<A>(row: A -> Outcome<string>, fs: seq<A>)
    ensures Emit(row, fs).thrown <==> exists i | 0 <= i < |fs| :: row(fs[i]).Thrown?
  {
    if exists i | 0 <= i < |fs| :: row(fs[i]).Thrown? {
      var k := FirstThrown(row, fs);
      EmitStopsAt(row, fs, k);
    } else {
      EmitAllRows(row, fs);
    }
  }

  /** Geojson2Tsv throws exactly when features is missing or some feature
      does not convert. */
  lemma TsvThrows(fm: Formats, js: Json)
    ensures Tsv(fm, js).thrown <==>
      !Contains(js, "features") ||
      exists i | 0 <= i < |Values(At(js, "features").value)| ::
        Row(fm, Values(At(js, "features").value)[i]).Thrown?
  {
    if Contains(js, "features") {
      var fs := Values(At(js, "features").value);
      EmitThrows(RowWriter(fm), fs);
      assert forall i | 0 <= i < |fs| :: RowWriter(fm)(fs[i]) == Row(fm, fs[i]);
    }
  }

  /** A feature missing one of the members the converter checks throws. */
  lemma MissingMemberThrows(fm: Formats, j: Json)
    requires !Contains(j, "geometry") || !Contains(j, "properties") ||
      !Contains(At(j, "geometry").value, "shapeType") ||
      !Contains(At(j, "geometry").value, "coordinates") ||
      !Contains(At(j, "properties").value, "id")
    ensures Row(fm, j).Thrown?
  {
  }

  // ---------------------------------------------------------------------
  // Lines and columns

  /** Every string in the document can stand in a TSV column. */
  ghost predicate CellableJson(js: Json)
    decreases js
  {
    match js
    case Str(s) => Export.Cellable(s)
    case Array(items) => forall i | 0 <= i < |items| :: CellableJson(items[i])
    case Object(ms) => forall i | 0 <= i < |ms| :: CellableJson(ms[i].value)
    case _ => true
  }

  /** Neither rendering of a number writes a tab or a newline. */
  ghost predicate CellableFormats(fm: Formats) {
    forall x :: Export.Cellable(fm.fixed(x)) && Export.Cellable(fm.stream(x))
  }

  lemma AtCellable(js: Json, key: string)
    requires CellableJson(js) && At(js, key).Done?
    ensures CellableJson(At(js, key).value)
  {
    var i :| 0 <= i < |js.members| && js.members[i].key == key && js.members[i].value == At(js, key).value;
  }

  lemma Json2WktAvoids(num: real -> string, js: Json, c: char)
    requires c == '\t' || c == '\n'
    requires forall x :: c !in num(x)
    ensures Json2Wkt(num, js).Done? ==> c !in Json2Wkt(num, js).value
  {
    if Json2Wkt(num, js).Done? {
      var g := At(js, "geometry").value;
      var t := At(g, "shapeType").value.s;
      GeometryAvoids(num, ShapeOf(t).value, At(g, "coordinates").value, c);
    }
  }

  lemma GetStrCellable(p: Json, key: string)
    requires CellableJson(p)
    ensures Export.Cellable(GetStr(p, key))
  {
    if At(p, key).Done? {
      AtCellable(p, key);
    }
  }

  lemma ColumnsCellable(uuid: string, id: string, p: Json, wkt: string, show: real -> string)
    requires Export.Cellable(uuid) && Export.Cellable(id) && Export.Cellable(wkt)
    requires CellableJson(p)
    requires forall x :: Export.Cellable(show(x))
    ensures forall k | 0 <= k < |TsvColumns| :: Export.Cellable(Columns(uuid, id, p, wkt, show)[k])
  {
    GetStrCellable(p, "road_id");
    GetStrCellable(p, "side");
    GetStrCellable(p, "footpath_surf_mat");
    var lead := [uuid, id, GetStr(p, "road_id"), GetStr(p, "side")];
    var numbers := Each(show, Each(NumberOf(p), NumberKeys));
    var tail := [GetStr(p, "footpath_surf_mat"), wkt];
    assert forall k | 0 <= k < |lead| :: Export.Cellable(lead[k]);
    assert forall k | 0 <= k < |numbers| :: Export.Cellable(numbers[k]);
    assert forall k | 0 <= k < |tail| :: Export.Cellable(tail[k]);
    assert Columns(uuid, id, p, wkt, show) == lead + numbers + tail;
  }

  lemma IdentifierCellable(j: Json, key: string)
    requires CellableJson(j) && Identifier(j, key).Done?
    ensures Export.Cellable(Identifier(j, key).value)
  {
    AtCellable(j, "identifier");
    AtCellable(At(j, "identifier").value, key);
  }

  lemma FieldsCellable(fm: Formats, j: Json)
    requires CellableFormats(fm) && CellableJson(j)
    requires Fields(fm, j).Done?
    ensures forall k | 0 <= k < |Fields(fm, j).value| :: Export.Cellable(Fields(fm, j).value[k])
  {
    AtCellable(j, "properties");
    IdentifierCellable(j, "AssetId");
    IdentifierCellable(j, "EntityId");
    assert forall x :: '\t' !in fm.fixed(x) && '\n' !in fm.fixed(x);
    Json2WktAvoids(fm.fixed, j, '\t');
    Json2WktAvoids(fm.fixed, j, '\n');
    assert forall x :: Export.Cellable(fm.stream(x));
    ColumnsCellable(Identifier(j, "EntityId").value, Identifier(j, "AssetId").value,
      At(j, "properties").value, Json2Wkt(fm.fixed, j).value, fm.stream);
  }

  /** A feature's line is one line whose tab-separated columns are its
      fields, as many as the header has, with the entity id first, the asset
      id second and the WKT text last. */
  lemma RowColumns(fm: Formats, j: Json)
    requires CellableFormats(fm) && CellableJson(j)
    requires Fields(fm, j).Done?
    ensures var fs := Fields(fm, j).value;
      && Row(fm, j) == Done(Join(fs, "\t") + "\n")
      && '\n' !in Join(fs, "\t")
      && Split(Join(fs, "\t"), '\t') == fs
      && Split(TsvHeader, '\t') == TsvColumns && |fs| == |TsvColumns|
      && fs[0] == Identifier(j, "EntityId").value
      && fs[1] == Identifier(j, "AssetId").value
      && fs[11] == Json2Wkt(fm.fixed, j).value
  {
    var fs := Fields(fm, j).value;
    FieldsCellable(fm, j);
    TabJoined(fs);
    FieldsParts(fm, j);
    HeaderColumns();
  }

  /** Cells joined by tabs split back into the cells and hold no newline. */
  lemma TabJoined(fs: seq<string>)
    requires |fs| > 0 && forall k | 0 <= k < |fs| :: Export.Cellable(fs[k])
    ensures '\n' !in Join(fs, "\t") && Split(Join(fs, "\t"), '\t') == fs
  {
    SplitJoin(fs, '\t');
    Export.JoinNoNewline(fs, "\t");
  }

  /** Where the identifiers and the WKT text stand among the fields. */
  lemma FieldsParts(fm: Formats, j: Json)
    requires Fields(fm, j).Done?
    ensures var fs := Fields(fm, j).value;
      && fs[0] == Identifier(j, "EntityId").value
      && fs[1] == Identifier(j, "AssetId").value
      && fs[11] == Json2Wkt(fm.fixed, j).value
  {
  }

  lemma HeaderColumns()
    ensures Split(TsvHeader, '\t') == TsvColumns
    ensures '\n' !in TsvHeader
  {
    assert forall i | 0 <= i < |TsvColumns| :: '\t' !in TsvColumns[i] && '\n' !in TsvColumns[i];
    SplitJoin(TsvColumns, '\t');
    Export.JoinNoNewline(TsvColumns, "\t");
  }

  /** A feature's tab-separated fields, "" for one that throws. */
  function Body(fm: Formats): Json -> string {
    j => if Fields(fm, j).Done? then Join(Fields(fm, j).value, "\t") else ""
  }

  lemma {:induction false} SplitLines(bodies: seq<string>, lines: seq<string>)
    requires |lines| == |bodies|
    requires forall i | 0 <= i < |lines| :: lines[i] == bodies[i] + "\n" && '\n' !in bodies[i]
    ensures Split(Concat(lines), '\n') == bodies + [""]
    decreases |lines|
  {
    if |lines| > 0 {
      SplitLines(bodies[1..], lines[1..]);
      SplitPiece(bodies[0], '\n', Concat(lines[1..]), true);
      assert Concat(lines) == bodies[0] + ['\n'] + Concat(lines[1..]);
      assert bodies == [bodies[0]] + bodies[1..];
    }
  }

  /** The lines of features that all convert, split at the newlines. */
  lemma RowLines(fm: Formats, fs: seq<Json>)
    requires CellableFormats(fm)
    requires forall i | 0 <= i < |fs| :: CellableJson(fs[i]) && Row(fm, fs[i]).Done?
    ensures Split(Concat(Each(TextOf(RowWriter(fm)), fs)), '\n') == Each(Body(fm), fs) + [""]
  {
    var lines := Each(TextOf(RowWriter(fm)), fs);
    var bodies := Each(Body(fm), fs);
    forall i | 0 <= i < |fs| ensures lines[i] == bodies[i] + "\n" && '\n' !in bodies[i] {
      RowColumns(fm, fs[i]);
    }
    SplitLines(bodies, lines);
  }

  lemma HeadLine(head: string, rest: string)
    requires '\n' !in head
    ensures Split(head + "\n" + rest, '\n') == [head] + Split(rest, '\n')
  {
    SplitPiece(head, '\n', rest, true);
    assert head + "\n" + rest == head + ['\n'] + rest;
  }

  /** When every feature converts, the output is the header line and then
      one line per feature, in order, each splitting into the columns of
      RowColumns. */
  lemma TsvLines(fm: Formats, js: Json)
    requires Contains(js, "features")
    requires CellableFormats(fm)
    requires forall i | 0 <= i < |Values(At(js, "features").value)| ::
      CellableJson(Values(At(js, "features").value)[i]) &&
      Row(fm, Values(At(js, "features").value)[i]).Done?
    ensures !Tsv(fm, js).thrown
    ensures Split(Tsv(fm, js).text, '\n') ==
      [TsvHeader] + Each(Body(fm), Values(At(js, "features").value)) + [""]
  {
    var fs := Values(At(js, "features").value);
    var rows := RowWriter(fm);
    assert forall i | 0 <= i < |fs| :: rows(fs[i]) == Row(fm, fs[i]);
    EmitAllRows(rows, fs);
    RowLines(fm, fs);
    HeaderColumns();
    var rest := Concat(Each(TextOf(rows), fs));
    HeadLine(TsvHeader, rest);
    var text := Tsv(fm, js).text;
    assert text == TsvHeader + "\n" + rest;
    var bodies := Each(Body(fm), fs);
    assert Split(text, '\n') == [TsvHeader] + (bodies + [""]);
    Reassociate([TsvHeader], bodies, [""]);
  }
}
