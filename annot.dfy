/** The normalisation in src/annot.cpp: annotation rows and EXIF rows are
    loaded into raw tables, and three INSERT ... SELECT statements derive the
    categories, images and annotations tables. Each table is a sequence of
    rows; each statement is a function of the raw tables. */
module Annot {
  import opened Strings
  import opened Ordered
  import opened Sorting
  import opened Lists

  /** A row of raw_annot: one line of an annotation TSV. */
  datatype RawAnnot = RawAnnot(prefix: string, image: string, cate: string, level: string,
                               x: int, y: int, w: int, h: int)

  /** A row of raw_exif: one line of an EXIF TSV. */
  datatype RawExif = RawExif(prefix: string, image: string, height: int, width: int, timestamp: string)

  /** The columns of `images` after its id. */
  datatype ImageRow = ImageRow(prefix: string, image: string, height: int, width: int,
                               date: string, time: string)

  /** The columns of `annotations` after its id. */
  datatype AnnotRow = AnnotRow(imgId: int, cateId: int, x: int, y: int, w: int, h: int)

  /** A row with its INTEGER PRIMARY KEY AUTOINCREMENT id. */
  datatype Numbered<T> = Numbered(id: int, row: T)

  type Category = Numbered<string>
  type Image = Numbered<ImageRow>
  type Annotation = Numbered<AnnotRow>

  /** The three tables left once raw_annot and raw_exif are dropped. */
  datatype Database = Database(categories: seq<Category>, images: seq<Image>, annotations: seq<Annotation>)

  function Rows<T>(xs: seq<Numbered<T>>): (r: seq<T>)
    ensures |r| == |xs|
    ensures forall i | 0 <= i < |xs| :: r[i] == xs[i].row
  {
    seq(|xs|, i requires 0 <= i < |xs| => xs[i].row)
  }

  /** Rows inserted into a fresh AUTOINCREMENT table get the ids 1, 2, ...
      in the order of the SELECT's ORDER BY. */
  function Number<T>(xs: seq<T>): (r: seq<Numbered<T>>)
    ensures |r| == |xs| && Rows(r) == xs
    ensures forall i | 0 <= i < |r| :: r[i].id == i + 1
  {
    seq(|xs|, i requires 0 <= i < |xs| => Numbered(i + 1, xs[i]))
  }

  function Min(a: int, b: int): int {
    if a < b then a else b
  }

  /** SQLite's substr(s, start, len) for a start of 1 or more: the len
      characters from the start-th on, cut short at the end of s. */
  function Substr(s: string, start: int, len: nat): (r: string)
    requires start >= 1
    ensures |r| == if start - 1 >= |s| then 0 else Min(len, |s| - (start - 1))
    ensures forall k | 0 <= k < |r| :: r[k] == s[start - 1 + k]
  {
    var lo := Min(start - 1, |s|);
    s[lo..Min(lo + len, |s|)]
  }

  /** substr(timestamp, 1, 10) AS date */
  function Date(ts: string): string {
    Substr(ts, 1, 10)
  }

  /** substr(timestamp, 12, 8) AS time */
  function Time(ts: string): string {
    Substr(ts, 12, 8)
  }

  /** A stamp of the form %Y-%m-%dT%H:%M:%S, as the EXIF export writes it,
      is cut into its date and its time with the separator left out; shorter
      stamps give shorter, possibly empty, pieces. */
  lemma StampSplits(ts: string)
    ensures |ts| == 19 ==> Date(ts) + [ts[10]] + Time(ts) == ts
    ensures |Date(ts)| == Min(10, |ts|) && Date(ts) == ts[..Min(10, |ts|)]
    ensures |ts| <= 11 ==> Time(ts) == ""
  {
    if |ts| == 19 {
      assert ts == ts[..10] + [ts[10]] + ts[11..];
    }
  }

  // ---- categories: kSqlFillCategories ----

  function Cates(anns: seq<RawAnnot>): (r: seq<string>)
    ensures |r| == |anns|
    ensures forall i | 0 <= i < |anns| :: r[i] == anns[i].cate
  {
    seq(|anns|, i requires 0 <= i < |anns| => anns[i].cate)
  }

  /** SELECT DISTINCT cate FROM raw_annot ORDER BY cate ASC, numbered. */
  function CategoryTable(anns: seq<RawAnnot>): seq<Category> {
    Number(SortedDistinct(Cates(anns)))
  }

  /** Each cate of a raw annotation row is named by exactly one category,
      no other name occurs, names ascend, and ids run 1..N in name order;
      rows that will not join an image still contribute their cate. */
  lemma CategoriesSpec(anns: seq<RawAnnot>)
    ensures forall i | 0 <= i < |CategoryTable(anns)| :: CategoryTable(anns)[i].id == i + 1
    ensures Increasing(Rows(CategoryTable(anns)))
    ensures forall s :: s in Rows(CategoryTable(anns)) <==> s in Cates(anns)
    ensures forall i, j | 0 <= i < |CategoryTable(anns)| && 0 <= j < |CategoryTable(anns)| ::
              CategoryTable(anns)[i].row == CategoryTable(anns)[j].row ==> i == j
  {
    var cats := CategoryTable(anns);
    forall i, j | 0 <= i < |cats| && 0 <= j < |cats| && cats[i].row == cats[j].row
      ensures i == j
    {
      IncreasingNoRepeat(Rows(cats), i, j);
    }
  }

  /** The categories depend only on which cate values occur. */
  lemma CategoriesOrderFree(anns1: seq<RawAnnot>, anns2: seq<RawAnnot>)
    requires forall s :: s in Cates(anns1) <==> s in Cates(anns2)
    ensures CategoryTable(anns1) == CategoryTable(anns2)
  {
    SortedDistinctOrderFree(Cates(anns1), Cates(anns2));
  }

  // ---- images: kSqlFillImages ----

  function ImageRowOf(e: RawExif): ImageRow {
    ImageRow(e.prefix, e.image, e.height, e.width, Date(e.timestamp), Time(e.timestamp))
  }

  /** ORDER BY prefix, image, height, width, date, time: every column. */
  function ImageKey(r: ImageRow): seq<Atom> {
    [Text(r.prefix), Text(r.image), Num(r.height), Num(r.width), Text(r.date), Text(r.time)]
  }

  lemma ImageKeyInjective()
    ensures Injective(ImageKey)
  {
    forall r: ImageRow, q: ImageRow | ImageKey(r) == ImageKey(q) ensures r == q {
      assert ImageKey(r)[0] == ImageKey(q)[0] && ImageKey(r)[1] == ImageKey(q)[1];
      assert ImageKey(r)[2] == ImageKey(q)[2] && ImageKey(r)[3] == ImageKey(q)[3];
      assert ImageKey(r)[4] == ImageKey(q)[4] && ImageKey(r)[5] == ImageKey(q)[5];
    }
  }

  function ImageRows(exifs: seq<RawExif>): seq<ImageRow> {
    Each(ImageRowOf, exifs)
  }

  /** SELECT ... FROM raw_exif ORDER BY prefix, image, height, width, date,
      time, numbered. */
  function ImageTable(exifs: seq<RawExif>): seq<Image> {
    Number(SortBy(ImageKey, ImageRows(exifs)))
  }

  /** One image row per EXIF row, none merged and none lost, in key order,
      with ids 1..M in that order. */
  lemma ImagesSpec(exifs: seq<RawExif>)
    ensures |ImageTable(exifs)| == |exifs|
    ensures multiset(Rows(ImageTable(exifs))) == multiset(ImageRows(exifs))
    ensures SortedBy(ImageKey, Rows(ImageTable(exifs)))
    ensures forall i | 0 <= i < |exifs| :: ImageTable(exifs)[i].id == i + 1
  {
    assert |multiset(ImageRows(exifs))| == |ImageRows(exifs)|;
  }

  /** The images depend only on the multiset of EXIF rows. */
  lemma ImagesOrderFree(exifs1: seq<RawExif>, exifs2: seq<RawExif>)
    requires multiset(exifs1) == multiset(exifs2)
    ensures ImageTable(exifs1) == ImageTable(exifs2)
  {
    EachOrderFree(ImageRowOf, exifs1, exifs2);
    ImageKeyInjective();
    SortOrderFree(ImageKey, ImageRows(exifs1), ImageRows(exifs2));
  }

  // ---- annotations: kSqlFillAnnot ----

  /** ON ann.prefix = img.prefix AND ann.image = img.image */
  predicate SameImage(a: RawAnnot, img: ImageRow) {
    a.prefix == img.prefix && a.image == img.image
  }

  /** The joined row of a raw annotation, an image and a category it matches:
      the ids of both, the box, and no level. */
  predicate Joins(a: RawAnnot, img: Image, cat: Category, r: AnnotRow) {
    SameImage(a, img.row) && cat.row == a.cate && r == AnnotRow(img.id, cat.id, a.x, a.y, a.w, a.h)
  }

  /** JOIN categories AS cat ON ann.cate = cat.cate, for one image. */
  function CateMatches(a: RawAnnot, img: Image, cats: seq<Category>): seq<AnnotRow>
    decreases |cats|
  {
    if |cats| == 0 then []
    else
      (if cats[0].row == a.cate then [AnnotRow(img.id, cats[0].id, a.x, a.y, a.w, a.h)] else [])
      + CateMatches(a, img, cats[1..])
  }

  /** The rows one raw annotation contributes to the join. */
  function Matches(a: RawAnnot, imgs: seq<Image>, cats: seq<Category>): seq<AnnotRow>
    decreases |imgs|
  {
    if |imgs| == 0 then []
    else
      (if SameImage(a, imgs[0].row) then CateMatches(a, imgs[0], cats) else [])
      + Matches(a, imgs[1..], cats)
  }

  function Matcher(imgs: seq<Image>, cats: seq<Category>): RawAnnot -> seq<AnnotRow> {
    a => Matches(a, imgs, cats)
  }

  /** raw_annot INNER JOIN images ... JOIN categories ..., before sorting. */
  function Joined(anns: seq<RawAnnot>, imgs: seq<Image>, cats: seq<Category>): seq<AnnotRow> {
    FlatMap(Matcher(imgs, cats), anns)
  }

  /** ORDER BY img_id, cate_id, x, y, w, h: every column. */
  function AnnotKey(r: AnnotRow): seq<Atom> {
    [Num(r.imgId), Num(r.cateId), Num(r.x), Num(r.y), Num(r.w), Num(r.h)]
  }

  lemma AnnotKeyInjective()
    ensures Injective(AnnotKey)
  {
    forall r: AnnotRow, q: AnnotRow | AnnotKey(r) == AnnotKey(q) ensures r == q {
      assert AnnotKey(r)[0] == AnnotKey(q)[0] && AnnotKey(r)[1] == AnnotKey(q)[1];
      assert AnnotKey(r)[2] == AnnotKey(q)[2] && AnnotKey(r)[3] == AnnotKey(q)[3];
      assert AnnotKey(r)[4] == AnnotKey(q)[4] && AnnotKey(r)[5] == AnnotKey(q)[5];
    }
  }

  function AnnotationTable(anns: seq<RawAnnot>, imgs: seq<Image>, cats: seq<Category>): seq<Annotation> {
    Number(SortBy(AnnotKey, Joined(anns, imgs, cats)))
  }

  /** load_db after the raw tables are filled: categories, then images, then
      the annotations that join both. */
  function Normalise(anns: seq<RawAnnot>, exifs: seq<RawExif>): (db: Database) {
    var cats := CategoryTable(anns);
    var imgs := ImageTable(exifs);
    Database(cats, imgs, AnnotationTable(anns, imgs, cats))
  }

  lemma {:induction false} CateMatchesMembers(a: RawAnnot, img: Image, cats: seq<Category>, r: AnnotRow)
    requires SameImage(a, img.row)
    ensures r in CateMatches(a, img, cats) <==> exists cat | cat in cats :: Joins(a, img, cat, r)
    decreases |cats|
  {
    if |cats| > 0 {
      CateMatchesMembers(a, img, cats[1..], r);
      assert cats == [cats[0]] + cats[1..];
      if r in CateMatches(a, img, cats[1..]) {
        var cat :| cat in cats[1..] && Joins(a, img, cat, r);
        assert cat in cats;
      }
      if r in CateMatches(a, img, cats) && r !in CateMatches(a, img, cats[1..]) {
        assert Joins(a, img, cats[0], r);
      }
    }
  }

  lemma {:induction false} MatchesMembers(a: RawAnnot, imgs: seq<Image>, cats: seq<Category>, r: AnnotRow)
    ensures r in Matches(a, imgs, cats) <==>
            exists img, cat | img in imgs && cat in cats :: Joins(a, img, cat, r)
    decreases |imgs|
  {
    if |imgs| > 0 {
      MatchesMembers(a, imgs[1..], cats, r);
      assert imgs == [imgs[0]] + imgs[1..];
      if SameImage(a, imgs[0].row) {
        CateMatchesMembers(a, imgs[0], cats, r);
      }
      if r in Matches(a, imgs[1..], cats) {
        var img, cat :| img in imgs[1..] && cat in cats && Joins(a, img, cat, r);
        assert img in imgs;
      }
      if exists img, cat | img in imgs && cat in cats :: Joins(a, img, cat, r) {
        var img, cat :| img in imgs && cat in cats && Joins(a, img, cat, r);
        if img == imgs[0] {
          CateMatchesMembers(a, imgs[0], cats, r);
        } else {
          assert img in imgs[1..];
        }
      }
    }
  }

  /** A joined row is exactly the combination of a raw annotation with an
      image of the same prefix and name and the category of its cate. */
  lemma JoinedMembers(anns: seq<RawAnnot>, imgs: seq<Image>, cats: seq<Category>, r: AnnotRow)
    ensures r in Joined(anns, imgs, cats) <==>
            exists a, img, cat | a in anns && img in imgs && cat in cats :: Joins(a, img, cat, r)
  {
    FlatMapMembers(Matcher(imgs, cats), anns, r);
    if r in Joined(anns, imgs, cats) {
      var a :| a in anns && r in Matcher(imgs, cats)(a);
      MatchesMembers(a, imgs, cats, r);
    }
    if exists a, img, cat | a in anns && img in imgs && cat in cats :: Joins(a, img, cat, r) {
      var a, img, cat :| a in anns && img in imgs && cat in cats && Joins(a, img, cat, r);
      MatchesMembers(a, imgs, cats, r);
    }
  }

  /** Elements of a numbered table sit at the index one below their id. */
  lemma NumberedAt<T>(xs: seq<T>, n: Numbered<T>)
    requires n in Number(xs)
    ensures 1 <= n.id <= |xs| && Number(xs)[n.id - 1] == n
  {
  }

  /** The k-th annotation has id k + 1, names an image and a category by
      their ids, and is the join of the raw annotation row a with them. */
  predicate JoinedAt(db: Database, a: RawAnnot, k: int) {
    0 <= k < |db.annotations| &&
    var r := db.annotations[k].row;
    db.annotations[k].id == k + 1 &&
    1 <= r.imgId <= |db.images| && 1 <= r.cateId <= |db.categories| &&
    db.images[r.imgId - 1].id == r.imgId && db.categories[r.cateId - 1].id == r.cateId &&
    Joins(a, db.images[r.imgId - 1], db.categories[r.cateId - 1], r)
  }

  /** Every annotation refers to an existing image and an existing category,
      and comes from a raw annotation row that matches that image's prefix
      and name and that category's name, and carries that row's box. */
  lemma AnnotationsJoin(anns: seq<RawAnnot>, exifs: seq<RawExif>, k: nat) returns (a: RawAnnot)
    requires k < |Normalise(anns, exifs).annotations|
    ensures a in anns && JoinedAt(Normalise(anns, exifs), a, k)
  {
    var cats := CategoryTable(anns);
    var imgs := ImageTable(exifs);
    var r := AnnotationTable(anns, imgs, cats)[k].row;
    TableRowJoins(anns, imgs, cats, k);
    var img, cat;
    a, img, cat :| a in anns && img in imgs && cat in cats && Joins(a, img, cat, r);
    JoinedAtIds(Normalise(anns, exifs), a, k, img, cat);
  }

  /** In tables numbered from 1, a row that joins table members is joined
      with the rows its ids name. */
  lemma JoinedAtIds(db: Database, a: RawAnnot, k: nat, img: Image, cat: Category)
    requires k < |db.annotations| && db.annotations[k].id == k + 1
    requires forall i | 0 <= i < |db.images| :: db.images[i].id == i + 1
    requires forall c | 0 <= c < |db.categories| :: db.categories[c].id == c + 1
    requires img in db.images && cat in db.categories
    requires Joins(a, img, cat, db.annotations[k].row)
    ensures JoinedAt(db, a, k)
  {
  }

  lemma TableRowJoins(anns: seq<RawAnnot>, imgs: seq<Image>, cats: seq<Category>, k: nat)
    requires k < |AnnotationTable(anns, imgs, cats)|
    ensures AnnotationTable(anns, imgs, cats)[k].id == k + 1
    ensures exists a, img, cat | a in anns && img in imgs && cat in cats ::
              Joins(a, img, cat, AnnotationTable(anns, imgs, cats)[k].row)
  {
    var sorted := SortBy(AnnotKey, Joined(anns, imgs, cats));
    var r := sorted[k];
    assert AnnotationTable(anns, imgs, cats)[k].row == r;
    assert r in multiset(sorted);
    JoinedMembers(anns, imgs, cats, r);
  }

  /** Every raw annotation row and every image of the same prefix and name
      give an annotation: an annotation row is dropped only when no image
      matches it. */
  lemma AnnotationsComplete(anns: seq<RawAnnot>, exifs: seq<RawExif>, a: RawAnnot, i: nat) returns (k: nat)
    requires a in anns && i < |Normalise(anns, exifs).images|
    requires SameImage(a, Normalise(anns, exifs).images[i].row)
    ensures JoinedAt(Normalise(anns, exifs), a, k)
    ensures Normalise(anns, exifs).annotations[k].row.imgId == i + 1
  {
    var cats := CategoryTable(anns);
    var imgs := ImageTable(exifs);
    var c := CategoryOfCate(anns, a);
    var r := AnnotRow(imgs[i].id, cats[c].id, a.x, a.y, a.w, a.h);
    assert Joins(a, imgs[i], cats[c], r);
    JoinedMembers(anns, imgs, cats, r);
    k := TableRowFor(anns, imgs, cats, r);
  }

  /** The category named by the cate of a raw annotation row. */
  lemma CategoryOfCate(anns: seq<RawAnnot>, a: RawAnnot) returns (c: nat)
    requires a in anns
    ensures c < |CategoryTable(anns)| && CategoryTable(anns)[c].row == a.cate
    ensures CategoryTable(anns)[c].id == c + 1
  {
    CategoriesSpec(anns);
    var j :| 0 <= j < |anns| && anns[j] == a;
    assert a.cate == Cates(anns)[j];
    assert a.cate in Rows(CategoryTable(anns));
    c :| 0 <= c < |CategoryTable(anns)| && Rows(CategoryTable(anns))[c] == a.cate;
  }

  lemma TableRowFor(anns: seq<RawAnnot>, imgs: seq<Image>, cats: seq<Category>, r: AnnotRow) returns (k: nat)
    requires r in Joined(anns, imgs, cats)
    ensures k < |AnnotationTable(anns, imgs, cats)| && AnnotationTable(anns, imgs, cats)[k].row == r
    ensures AnnotationTable(anns, imgs, cats)[k].id == k + 1
  {
    var sorted := SortBy(AnnotKey, Joined(anns, imgs, cats));
    assert r in multiset(sorted);
    k :| 0 <= k < |sorted| && sorted[k] == r;
  }

  // ---- how many annotations ----

  /** The number of images an annotation row joins. */
  function Hits(a: RawAnnot, rows: seq<ImageRow>): nat
    decreases |rows|
  {
    if |rows| == 0 then 0 else (if SameImage(a, rows[0]) then 1 else 0) + Hits(a, rows[1..])
  }

  function TotalHits(anns: seq<RawAnnot>, rows: seq<ImageRow>): nat
    decreases |anns|
  {
    if |anns| == 0 then 0 else Hits(anns[0], rows) + TotalHits(anns[1..], rows)
  }

  lemma {:induction false} CateMatchesCount(a: RawAnnot, img: Image, cats: seq<Category>)
    requires Increasing(Rows(cats)) && a.cate in Rows(cats)
    ensures |CateMatches(a, img, cats)| == 1
    decreases |cats|
  {
    if cats[0].row != a.cate {
      assert Rows(cats[1..]) == Rows(cats)[1..];
      CateMatchesCount(a, img, cats[1..]);
    } else {
      TailElements(Rows(cats), a.cate);
      assert Rows(cats[1..]) == Rows(cats)[1..];
      CateMatchesNone(a, img, cats[1..]);
    }
  }

  lemma {:induction false} CateMatchesNone(a: RawAnnot, img: Image, cats: seq<Category>)
    requires a.cate !in Rows(cats)
    ensures CateMatches(a, img, cats) == []
    decreases |cats|
  {
    if |cats| > 0 {
      assert Rows(cats[1..]) == Rows(cats)[1..];
      assert Rows(cats)[0] == cats[0].row;
      CateMatchesNone(a, img, cats[1..]);
    }
  }

  lemma {:induction false} MatchesCount(a: RawAnnot, imgs: seq<Image>, cats: seq<Category>)
    requires Increasing(Rows(cats)) && a.cate in Rows(cats)
    ensures |Matches(a, imgs, cats)| == Hits(a, Rows(imgs))
    decreases |imgs|
  {
    if |imgs| > 0 {
      assert Rows(imgs[1..]) == Rows(imgs)[1..];
      MatchesCount(a, imgs[1..], cats);
      CateMatchesCount(a, imgs[0], cats);
    }
  }

  lemma {:induction false} JoinedCount(anns: seq<RawAnnot>, all: seq<RawAnnot>, imgs: seq<Image>, cats: seq<Category>)
    requires Increasing(Rows(cats)) && forall s :: s in Rows(cats) <==> s in Cates(all)
    requires forall i | 0 <= i < |anns| :: anns[i] in all
    ensures |Joined(anns, imgs, cats)| == TotalHits(anns, Rows(imgs))
    decreases |anns|
  {
    if |anns| > 0 {
      var i :| 0 <= i < |all| && all[i] == anns[0];
      assert anns[0].cate == Cates(all)[i];
      MatchesCount(anns[0], imgs, cats);
      JoinedCount(anns[1..], all, imgs, cats);
    }
  }

  lemma {:induction false} HitsOrderFree(a: RawAnnot, rows1: seq<ImageRow>, rows2: seq<ImageRow>)
    requires multiset(rows1) == multiset(rows2)
    ensures Hits(a, rows1) == Hits(a, rows2)
    decreases |rows1|
  {
    HitsCount(a, rows1);
    HitsCount(a, rows2);
    CountOrderFree(SameImageAs(a), rows1, rows2);
  }

  function SameImageAs(a: RawAnnot): ImageRow -> bool {
    r => SameImage(a, r)
  }

  lemma {:induction false} HitsCount(a: RawAnnot, rows: seq<ImageRow>)
    ensures Hits(a, rows) == Count(SameImageAs(a), rows)
    decreases |rows|
  {
    if |rows| > 0 {
      HitsCount(a, rows[1..]);
    }
  }

  lemma {:induction false} TotalHitsOrderFree(anns: seq<RawAnnot>, rows1: seq<ImageRow>, rows2: seq<ImageRow>)
    requires multiset(rows1) == multiset(rows2)
    ensures TotalHits(anns, rows1) == TotalHits(anns, rows2)
    decreases |anns|
  {
    if |anns| > 0 {
      HitsOrderFree(anns[0], rows1, rows2);
      TotalHitsOrderFree(anns[1..], rows1, rows2);
    }
  }

  /** The inner join keeps duplicates: each raw annotation row yields one
      annotation per EXIF row of the same prefix and name, and none when
      there is no such row. */
  lemma AnnotationCount(anns: seq<RawAnnot>, exifs: seq<RawExif>)
    ensures |Normalise(anns, exifs).annotations| == TotalHits(anns, ImageRows(exifs))
  {
    var db := Normalise(anns, exifs);
    CategoriesSpec(anns);
    JoinedCount(anns, anns, db.images, db.categories);
    var sorted := SortBy(AnnotKey, Joined(anns, db.images, db.categories));
    assert |multiset(sorted)| == |sorted|;
    assert |multiset(Joined(anns, db.images, db.categories))| == |Joined(anns, db.images, db.categories)|;
    ImagesSpec(exifs);
    TotalHitsOrderFree(anns, Rows(db.images), ImageRows(exifs));
  }

  /** The whole database depends only on the multisets of raw rows, so the
      order in which the TSV files are listed and read does not matter. */
  lemma NormaliseOrderFree(anns1: seq<RawAnnot>, anns2: seq<RawAnnot>,
                           exifs1: seq<RawExif>, exifs2: seq<RawExif>)
    requires multiset(anns1) == multiset(anns2) && multiset(exifs1) == multiset(exifs2)
    ensures Normalise(anns1, exifs1) == Normalise(anns2, exifs2)
  {
    forall s ensures s in Cates(anns1) <==> s in Cates(anns2) {
      if s in Cates(anns1) {
        CatesOrderFree(anns1, anns2, s);
      }
      if s in Cates(anns2) {
        CatesOrderFree(anns2, anns1, s);
      }
    }
    CategoriesOrderFree(anns1, anns2);
    ImagesOrderFree(exifs1, exifs2);
    var cats := CategoryTable(anns1);
    var imgs := ImageTable(exifs1);
    FlatMapOrderFree(Matcher(imgs, cats), anns1, anns2);
    AnnotKeyInjective();
    SortOrderFree(AnnotKey, Joined(anns1, imgs, cats), Joined(anns2, imgs, cats));
  }

  lemma CatesOrderFree(anns1: seq<RawAnnot>, anns2: seq<RawAnnot>, s: string)
    requires multiset(anns1) == multiset(anns2) && s in Cates(anns1)
    ensures s in Cates(anns2)
  {
    var i :| 0 <= i < |anns1| && Cates(anns1)[i] == s;
    assert anns1[i] in multiset(anns2);
    var j :| 0 <= j < |anns2| && anns2[j] == anns1[i];
    assert Cates(anns2)[j] == s;
  }

  // ---- loading: bulk_insert_annot, bulk_insert_exif, load_db ----

  /** The insertion loop of one TSV file: each row goes to the end of the
      raw table. */
  method BulkInsert<T>(table: seq<T>, rows: seq<T>) returns (r: seq<T>)
    ensures r == table + rows
  {
    r := table;
    for i := 0 to |rows|
      invariant r == table + rows[..i]
    {
      r := r + [rows[i]];
      assert rows[..i + 1] == rows[..i] + [rows[i]];
    }
    assert rows[..|rows|] == rows;
  }

  /** load_db: every annotation file, then every EXIF file, into the raw
      tables, then the three fill statements. */
  method LoadDb(annotFiles: seq<seq<RawAnnot>>, exifFiles: seq<seq<RawExif>>) returns (db: Database)
    ensures db == Normalise(Flatten(annotFiles), Flatten(exifFiles))
  {
    var rawAnnot: seq<RawAnnot> := [];
    for i := 0 to |annotFiles|
      invariant rawAnnot == Flatten(annotFiles[..i])
    {
      rawAnnot := BulkInsert(rawAnnot, annotFiles[i]);
      FlattenSnoc(annotFiles, i);
    }
    var rawExif: seq<RawExif> := [];
    for i := 0 to |exifFiles|
      invariant rawExif == Flatten(exifFiles[..i])
    {
      rawExif := BulkInsert(rawExif, exifFiles[i]);
      FlattenSnoc(exifFiles, i);
    }
    assert annotFiles[..|annotFiles|] == annotFiles;
    assert exifFiles[..|exifFiles|] == exifFiles;
    db := Normalise(rawAnnot, rawExif);
  }

  /** The files of a directory may be listed in any order: the database is
      the same. */
  lemma LoadOrderFree(annotFiles1: seq<seq<RawAnnot>>, annotFiles2: seq<seq<RawAnnot>>,
                      exifFiles1: seq<seq<RawExif>>, exifFiles2: seq<seq<RawExif>>)
    requires multiset(annotFiles1) == multiset(annotFiles2)
    requires multiset(exifFiles1) == multiset(exifFiles2)
    ensures Normalise(Flatten(annotFiles1), Flatten(exifFiles1)) ==
            Normalise(Flatten(annotFiles2), Flatten(exifFiles2))
  {
    FlattenOrderFree(annotFiles1, annotFiles2);
    FlattenOrderFree(exifFiles1, exifFiles2);
    NormaliseOrderFree(Flatten(annotFiles1), Flatten(annotFiles2), Flatten(exifFiles1), Flatten(exifFiles2));
  }
}
