/** The COCO document that db2coco builds from the normalised tables in
    src/annot.cpp: the queries kSqlSelCate, kSqlSelImg and kSqlSelAnnot, and
    the loops of cate2coco, img2coco and annot2coco that turn each result
    row into a JSON object and append it to an array. */
module Coco {
  import opened Lists
  import opened Annot

  datatype CocoCategory = CocoCategory(id: int, name: string)

  datatype CocoImage = CocoImage(id: int, width: int, height: int, fileName: string, dateCaptured: string)

  datatype CocoAnnotation = CocoAnnotation(id: int, categoryId: int, isCrowd: int, imageId: int, bbox: seq<int>)

  /** The "categories", "images" and "annotations" arrays of the document. */
  datatype Document = Document(categories: seq<CocoCategory>, images: seq<CocoImage>,
                               annotations: seq<CocoAnnotation>)

  function CategoryObject(c: Category): CocoCategory {
    CocoCategory(c.id, c.row)
  }

  function ImageObject(img: Image): CocoImage {
    CocoImage(img.id, img.row.width, img.row.height,
              img.row.prefix + "/" + img.row.image, img.row.date + " " + img.row.time)
  }

  function AnnotationObject(a: Annotation): CocoAnnotation {
    CocoAnnotation(a.id, a.row.cateId, 0, a.row.imgId, [a.row.x, a.row.y, a.row.w, a.row.h])
  }

  /** Some annotation refers to the image id. */
  predicate Referenced(annots: seq<Annotation>, id: int) {
    exists k | 0 <= k < |annots| :: annots[k].row.imgId == id
  }

  /** kSqlSelImg: the images joined with the distinct img_id values of the
      annotations, in the order of the images table. */
  function SelectImages(imgs: seq<Image>, annots: seq<Annotation>): seq<Image>
    decreases |imgs|
  {
    if |imgs| == 0 then []
    else (if Referenced(annots, imgs[0].id) then [imgs[0]] else []) + SelectImages(imgs[1..], annots)
  }

  /** The image rows that go out are exactly those some annotation refers to,
      each once, and their ids ascend as in the table. */
  lemma {:induction false} SelectImagesSpec(imgs: seq<Image>, annots: seq<Annotation>)
    requires forall i, j | 0 <= i < j < |imgs| :: imgs[i].id < imgs[j].id
    ensures forall img :: img in SelectImages(imgs, annots) <==> img in imgs && Referenced(annots, img.id)
    ensures forall i, j | 0 <= i < j < |SelectImages(imgs, annots)| ::
              SelectImages(imgs, annots)[i].id < SelectImages(imgs, annots)[j].id
    decreases |imgs|
  {
    forall img ensures img in SelectImages(imgs, annots) <==> img in imgs && Referenced(annots, img.id) {
      SelectImagesMembers(imgs, annots, img);
    }
    if |imgs| > 0 {
      SelectImagesSpec(imgs[1..], annots);
      var rest := SelectImages(imgs[1..], annots);
      forall j | 0 <= j < |rest| ensures imgs[0].id < rest[j].id {
        assert rest[j] in imgs[1..];
      }
    }
  }

  /** The document built from the three tables. */
  function CocoOf(db: Database): Document {
    Document(Each(CategoryObject, db.categories),
             Each(ImageObject, SelectImages(db.images, db.annotations)),
             Each(AnnotationObject, db.annotations))
  }

  /** cate2coco: one {id, name} object per row of kSqlSelCate. */
  method Cate2Coco(cats: seq<Category>) returns (js: seq<CocoCategory>)
    ensures js == Each(CategoryObject, cats)
  {
    js := [];
    for i := 0 to |cats|
      invariant |js| == i
      invariant forall t | 0 <= t < i :: js[t] == CategoryObject(cats[t])
    {
      js := js + [CategoryObject(cats[i])];
    }
  }

  /** img2coco: one object per row of kSqlSelImg. */
  method Img2Coco(db: Database) returns (js: seq<CocoImage>)
    ensures js == Each(ImageObject, SelectImages(db.images, db.annotations))
  {
    var rows := SelectImages(db.images, db.annotations);
    js := [];
    for i := 0 to |rows|
      invariant |js| == i
      invariant forall t | 0 <= t < i :: js[t] == ImageObject(rows[t])
    {
      var img := rows[i];
      var fileName := img.row.prefix + "/" + img.row.image;
      var dateCaptured := img.row.date + " " + img.row.time;
      js := js + [CocoImage(img.id, img.row.width, img.row.height, fileName, dateCaptured)];
    }
  }

  /** annot2coco: one object per row of kSqlSelAnnot. */
  method Annot2Coco(annots: seq<Annotation>) returns (js: seq<CocoAnnotation>)
    ensures js == Each(AnnotationObject, annots)
  {
    js := [];
    for i := 0 to |annots|
      invariant |js| == i
      invariant forall t | 0 <= t < i :: js[t] == AnnotationObject(annots[t])
    {
      var r := annots[i].row;
      js := js + [CocoAnnotation(annots[i].id, r.cateId, 0, r.imgId, [r.x, r.y, r.w, r.h])];
    }
  }

  method Db2Coco(db: Database) returns (doc: Document)
    ensures doc == CocoOf(db)
  {
    var categories := Cate2Coco(db.categories);
    var images := Img2Coco(db);
    var annotations := Annot2Coco(db.annotations);
    doc := Document(categories, images, annotations);
  }

  /** annot::toCoco without the streams: load, normalise, assemble. */
  method ToCoco(annotFiles: seq<seq<RawAnnot>>, exifFiles: seq<seq<RawExif>>) returns (doc: Document)
    ensures doc == CocoOf(Normalise(Flatten(annotFiles), Flatten(exifFiles)))
  {
    var db := LoadDb(annotFiles, exifFiles);
    doc := Db2Coco(db);
  }

  /** An exported annotation comes from the raw annotation a and the EXIF
      row e of the same image: it names the image object of e and the
      category of a's cate, and carries a's box. */
  predicate Traces(a: RawAnnot, e: RawExif, img: CocoImage, cat: CocoCategory, ann: CocoAnnotation) {
    e.prefix == a.prefix && e.image == a.image &&
    ann.imageId == img.id && ann.categoryId == cat.id && ann.isCrowd == 0 &&
    ann.bbox == [a.x, a.y, a.w, a.h] && cat.name == a.cate &&
    img.fileName == a.prefix + "/" + a.image && img.width == e.width && img.height == e.height &&
    img.dateCaptured == Date(e.timestamp) + " " + Time(e.timestamp)
  }

  lemma ImageRowSource(exifs: seq<RawExif>, row: ImageRow) returns (e: RawExif)
    requires row in Rows(ImageTable(exifs))
    ensures e in exifs && ImageRowOf(e) == row
  {
    ImagesSpec(exifs);
    assert row in multiset(ImageRows(exifs));
    var j :| 0 <= j < |exifs| && ImageRows(exifs)[j] == row;
    e := exifs[j];
  }

  /** The image of an annotation is exported, at some index of the array. */
  lemma ExportedAt(db: Database, k: nat)
    requires k < |db.annotations|
    requires var id := db.annotations[k].row.imgId; 1 <= id <= |db.images| && db.images[id - 1].id == id
    ensures var img := db.images[db.annotations[k].row.imgId - 1];
            exists i | 0 <= i < |CocoOf(db).images| :: CocoOf(db).images[i] == ImageObject(img)
  {
    var img := db.images[db.annotations[k].row.imgId - 1];
    assert Referenced(db.annotations, img.id);
    SelectImagesMembers(db.images, db.annotations, img);
    var rows := SelectImages(db.images, db.annotations);
    var i :| 0 <= i < |rows| && rows[i] == img;
    assert CocoOf(db).images[i] == ImageObject(img);
  }

  lemma {:induction false} SelectImagesMembers(imgs: seq<Image>, annots: seq<Annotation>, img: Image)
    ensures img in SelectImages(imgs, annots) <==> img in imgs && Referenced(annots, img.id)
    decreases |imgs|
  {
    if |imgs| > 0 {
      SelectImagesMembers(imgs[1..], annots, img);
      assert imgs == [imgs[0]] + imgs[1..];
    }
  }

  /** Every annotation of the document refers to an image object and a
      category object of the document, and comes from a raw annotation and
      an EXIF row of the same prefix and name: the file name joins the two
      with "/", the capture date joins the date and time cut from the EXIF
      stamp with a space, and the box, the size and the category name are
      the raw ones. */
  lemma CocoTraced(anns: seq<RawAnnot>, exifs: seq<RawExif>, k: nat)
    requires k < |CocoOf(Normalise(anns, exifs)).annotations|
    ensures var doc := CocoOf(Normalise(anns, exifs));
            doc.annotations[k].id == k + 1 &&
            exists a, e, i, c | a in anns && e in exifs && 0 <= i < |doc.images| && 0 <= c < |doc.categories| ::
              Traces(a, e, doc.images[i], doc.categories[c], doc.annotations[k])
  {
    var db := Normalise(anns, exifs);
    var a := AnnotationsJoin(anns, exifs, k);
    var e := ImageRowSource(exifs, db.images[db.annotations[k].row.imgId - 1].row);
    TraceFromJoin(db, a, e, k);
  }

  /** A joined annotation row is traced in the document to its raw
      annotation, its EXIF row, its image object and its category object. */
  lemma TraceFromJoin(db: Database, a: RawAnnot, e: RawExif, k: nat)
    requires JoinedAt(db, a, k)
    requires ImageRowOf(e) == db.images[db.annotations[k].row.imgId - 1].row
    ensures CocoOf(db).annotations[k].id == k + 1
    ensures exists i, c | 0 <= i < |CocoOf(db).images| && 0 <= c < |CocoOf(db).categories| ::
              Traces(a, e, CocoOf(db).images[i], CocoOf(db).categories[c], CocoOf(db).annotations[k])
  {
    var doc := CocoOf(db);
    var t, c := db.annotations[k].row.imgId - 1, db.annotations[k].row.cateId - 1;
    ExportedAt(db, k);
    var i :| 0 <= i < |doc.images| && doc.images[i] == ImageObject(db.images[t]);
    assert doc.categories[c] == CategoryObject(db.categories[c]);
    assert doc.annotations[k] == AnnotationObject(db.annotations[k]);
    assert Traces(a, e, doc.images[i], doc.categories[c], doc.annotations[k]);
  }

  /** Conversely every raw annotation row and every EXIF row of the same
      prefix and name give an annotation of the document. */
  lemma CocoComplete(anns: seq<RawAnnot>, exifs: seq<RawExif>, a: RawAnnot, e: RawExif)
    requires a in anns && e in exifs && e.prefix == a.prefix && e.image == a.image
    ensures var doc := CocoOf(Normalise(anns, exifs));
            exists i, c, k | 0 <= i < |doc.images| && 0 <= c < |doc.categories| && 0 <= k < |doc.annotations| ::
              Traces(a, e, doc.images[i], doc.categories[c], doc.annotations[k])
  {
    var db := Normalise(anns, exifs);
    var t := ImageOfExif(exifs, e);
    var k := AnnotationsComplete(anns, exifs, a, t);
    TraceFromJoin(db, a, e, k);
  }

  /** Every EXIF row has its image row. */
  lemma ImageOfExif(exifs: seq<RawExif>, e: RawExif) returns (t: nat)
    requires e in exifs
    ensures t < |ImageTable(exifs)| && ImageTable(exifs)[t].row == ImageRowOf(e)
    ensures ImageTable(exifs)[t].id == t + 1
  {
    ImagesSpec(exifs);
    var j :| 0 <= j < |exifs| && exifs[j] == e;
    assert ImageRowOf(e) == ImageRows(exifs)[j];
    assert ImageRowOf(e) in multiset(Rows(ImageTable(exifs)));
    t :| 0 <= t < |ImageTable(exifs)| && Rows(ImageTable(exifs))[t] == ImageRowOf(e);
  }

  /** Some exported annotation refers to the image id. */
  predicate ReferredTo(doc: Document, id: int) {
    exists k | 0 <= k < |doc.annotations| :: doc.annotations[k].imageId == id
  }

  /** Ids: categories and annotations are numbered 1..N and 1..K, exported
      image ids ascend, and no image goes out without an annotation that
      refers to it. */
  lemma CocoIds(anns: seq<RawAnnot>, exifs: seq<RawExif>)
    ensures var doc := CocoOf(Normalise(anns, exifs));
            (forall c | 0 <= c < |doc.categories| :: doc.categories[c].id == c + 1) &&
            (forall k | 0 <= k < |doc.annotations| :: doc.annotations[k].id == k + 1) &&
            (forall i, j | 0 <= i < j < |doc.images| :: doc.images[i].id < doc.images[j].id) &&
            (forall i | 0 <= i < |doc.images| :: ReferredTo(doc, doc.images[i].id))
  {
    var db := Normalise(anns, exifs);
    var doc := CocoOf(db);
    ImagesSpec(exifs);
    SelectImagesSpec(db.images, db.annotations);
    var rows := SelectImages(db.images, db.annotations);
    forall i | 0 <= i < |doc.images| ensures ReferredTo(doc, doc.images[i].id) {
      assert rows[i] in rows;
      var k :| 0 <= k < |db.annotations| && db.annotations[k].row.imgId == rows[i].id;
      assert doc.annotations[k].imageId == doc.images[i].id;
    }
  }
}
