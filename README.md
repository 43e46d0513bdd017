# fussweg-datentools: annotation normalisation, in Dafny

fussweg-datentools is a set of tools for footpath survey data. This
project models the part that turns defect annotations into tables, and
proves properties of that model. It covers the following parts:

- **Fault code** (`FaultCode`, `Vocabulary`). A 16-bit value split into
  seven 2-bit severity slots (the categories bump, crack, depression,
  displacement, vegetation or pothole, uneven, pothole or vegetation) and
  one padding slot. The model covers:
  - the operators `|`, `|=` and `&`;
  - `set_fault` and `max_fault`;
  - the name lookups;
  - `fault2count`.

  There are two copies of this code, `via` and `ibox`. They differ in the
  slot of pothole and vegetation, and in the name-to-type table. Both are
  modelled from one definition that takes a `Variant`.
- **Rendering** (`Render`). `fault2str` renders a code as text. The via
  copy writes `"<type>_<level>"` and the ibox copy `"<type>-<level>"`. A
  decoder shows that the text loses nothing.
- **CSV tokenizer** (`CsvLine`). `parse_csv_line` scans one character at a
  time, with a brace counter that wraps as a `uint8_t` and a quote flag.
- **Readers** (`Adapter`). The readers turn VIA annotations into boxes:
  - `filecsv2json` and `viacsv2json` zip each CSV line with the header;
  - `filejson2json` and `viajson2json` flatten the regions of each entry;
  - `json2boxarr` applies the skip rules and does the one-level fault
    assignment;
  - `from_csv_reader` reads TSV rows.

  The JSON and CSV libraries are replaced by datatypes of records.
- **Grouper** (`Grouper`). `boxarr2imgboxarr` drops boxes without a fault
  and makes one group per image, in ascending image order.
- **Exporters** (`Export`). These are:
  - `Box::ToTsv`, `ImgBox::ToTsv` and `toTsv`;
  - the per-image counters `ImgFaultCount`, which are `uint8_t`;
  - `ImgFaultCount::ToStr`;
  - the `FaultStats` class, with its constructor and `AddFault`. Its
    counters are `unsigned int`.
- **Normaliser** (`Annot`, `Coco`). `src/annot.cpp` loads annotation and
  EXIF TSV rows into SQLite, then builds three tables:
  - categories, by distinct-sort-number;
  - images, by sort-number with timestamp cuts;
  - annotations, by inner join then sort-number.

  SQLite is not modelled; these are modelled as pure functions on
  sequences. The COCO document is then assembled from the tables. The
  sorting and set helpers are in `Sorting`, `Ordered` and `Lists`.
- **GIS converter** (`Gis`). `json2wkt` writes GeoJSON geometries as
  Well-known Text, following OGC Simple Feature Access, Part 1, clause 7.
  Coordinates nest as section 3.1 of RFC 7946 lays them out. The model
  covers:
  - the `enclose` helper;
  - the index loops of `wkt_coords`, `wkt_polygon` and `wkt_mpolygon`;
  - `get_str` and `get_num`;
  - the feature loop of `Geojson2Tsv`.

  Number formatting (`std::to_string(double)`, `ostream <<` of a double)
  is an uninterpreted function parameter.

The source updates state step by step in these places, and the Dafny
follows it there:
- loops become methods with loop invariants: `MaxFault`, `Fault2Count`,
  `Fault2Str`, `ParseCsvLine`, `Json2BoxArr`, `FileJson2Json`, `ZipRow`,
  `FileCsv2Json`, `FromCsvRows`, `GroupByImage`, `BoxToTsv`, `ToTsv`,
  `CountImage`, `BulkInsert`, `LoadDb`, the `*2Coco` methods, `JoinLoop`
  and `WriteLines`;
- `FaultStats` is a class whose `AddFault` updates its counters.

Each loop method is proved equal to a function. The properties are
proved as lemmas about those functions.

## Model

| member | source | states |
|---|---|---|
| FaultCode.Mask | include/via.hpp:10-36 | the enum constant `level << 2*slot` holds the level in its slot and 0 in every other slot |
| FaultCode.MasksDisjoint | include/via.hpp:10-36 | constants of two different slots share no bit (their AND is NONE), and their OR keeps both levels |
| FaultCode.SlotsDetermine | include/via.hpp:10 | a 16-bit code is determined by its eight 2-bit slots |
| FaultCode.IsEmptyMeansNoSlot | include/via.hpp:11 | a code is NONE exactly when all eight slots are 0 |
| FaultCode.Or | include/via.hpp:39-42 | every slot of `a | b` is the bitwise OR of the two slots |
| FaultCode.And | include/via.hpp:51-54 | every slot of `a & b` is the bitwise AND of the two slots |
| FaultCode.OrAssign | include/via.hpp:45-48 | `|=` leaves lhs holding the per-slot OR and returns that new lhs |
| FaultCode.OrLaws | include/via.hpp:39-42 | `|` is commutative, associative and idempotent, with NONE as identity on both sides |
| FaultCode.OrIsNotMax | include/via.hpp:12-14 | BUMP_FAIR OR BUMP_POOR is BUMP_VPOOR, while the per-slot maximum of the two is BUMP_POOR |
| FaultCode.SlotOr | include/via.hpp:39-42 | slot i of `a | b` is the OR of slot i of a and of b |
| FaultCode.SlotAnd | include/via.hpp:51-54 | slot i of `a & b` is the AND of slot i of a and of b |
| FaultCode.SlotNot | include/via.hpp:10 | slot i of the complement is the complement of slot i |
| FaultCode.SetFault | src/via.cpp:74-79 | set_fault ORs the level into slot type-1 and leaves every other slot unchanged |
| FaultCode.SetFaultRaises | src/via.cpp:74-79 | set_fault never lowers a slot: the new level is at least the old one and at least the level set |
| FaultCode.MaxLevel | src/via.cpp:83-92 | MAX2 is at least both levels and is one of them |
| FaultCode.WithSlot | src/via.cpp:83-92 | one clear-and-set step of max_fault writes the level into slot i and keeps all other slots |
| FaultCode.Combine | src/via.cpp:83-92 | slots 0..6 of the result are the maximum of the two inputs' slots; slot 7 (bits 14-15) is lhs's |
| FaultCode.MaxFault | src/via.cpp:83-92 | the loop of max_fault leaves every slot 0..6 at the maximum of the two slots and slot 7 untouched |
| FaultCode.CombineCommutative | src/ibox.cpp:39-48 | max_fault is commutative when the padding slots agree |
| FaultCode.CombineKeepsLhsPadding | src/ibox.cpp:39-48 | with different padding slots, the order of the arguments matters |
| FaultCode.CombineAssociative | src/ibox.cpp:39-48 | max_fault is associative |
| FaultCode.CombineIdempotent | src/ibox.cpp:39-48 | max_fault of a code with itself is the code |
| FaultCode.CombineIdentity | src/ibox.cpp:39-48 | NONE is a right identity, and a left identity when the other code's padding slot is 0 |
| FaultCode.PackUnpack | include/via.hpp:10 | packing the eight slots and unpacking a code are inverse |
| FaultCode.MaxSeverity | include/ibox.hpp:66 | the result is at least every category slot and equals one of them |
| FaultCode.Cell | src/via.cpp:142-153 | the counter cell `t*3 + (l-1)` is below 21 and gives back t and l by division and remainder |
| FaultCode.CountCellAt | src/via.cpp:142-153 | cell (t, l) is 1 exactly when slot t holds level l, and 0 otherwise |
| FaultCode.OneHotPerCategory | src/via.cpp:142-153 | among the three cells of one category exactly one is set when the slot is non-zero, and none when it is zero |
| FaultCode.Fault2Count | src/via.cpp:142-153 | fault2count's loop fills the 21 cells with the one-hot value of each (type, level) |
| FaultCode.TallyAppend | src/via.cpp:166-198 | tallies over two sequences add up |
| Vocabulary.TypeToStr | src/via.cpp:110-116 | faulttype2str gives kArrTypeStr's entry for an in-range slot, and "" otherwise |
| Vocabulary.LevelToStr | src/via.cpp:119-125 | faultlevel2str gives kArrLevelStr's entry for levels 0..3, and "" otherwise |
| Vocabulary.LevelLookup | src/via.cpp:94-100 | the lookup finds exactly "fair", "poor" and "verypoor", and inverts faultlevel2str on levels 1..3 |
| Vocabulary.TypeLookup | src/ibox_via.cpp:72-78 | the type lookup finds exactly the seven names of its table, and maps the t-th name to t+1 |
| Vocabulary.ViaNamesRoundTrip | src/via.cpp:23-56 | in the via copy, rendering the slot that a name was stored in gives back that name |
| Vocabulary.IboxNamesSwapped | src/ibox.cpp:23-25 | in the ibox copy "pothole" is stored in slot 4 and renders as "vegetation", and the reverse; the other five names are unaffected |
| Vocabulary.EnumSlot | include/ibox.hpp:11-37 | every enumerator prefix has a slot below 8, and only PADDING uses slot 7 |
| Vocabulary.Enum | include/ibox.hpp:11-37 | `CATEGORY_LEVEL` holds the level in the category's slot and 0 elsewhere |
| Vocabulary.EnumSlotInjective | include/via.hpp:10-36 | different categories have different slots |
| Vocabulary.EnumsDisjoint | include/via.hpp:10-36 | constants of different categories share no bit |
| Vocabulary.LayoutsDiffer | include/ibox.hpp:25-33 | the ibox layout puts pothole at bits 8-9 and vegetation at bits 12-13, the reverse of via; all other slots agree |
| Vocabulary.CategoryOf | src/via.cpp:23-25 | a rendered type name is the name of an enumerator other than PADDING |
| Vocabulary.SetFaultIsEnum | src/ibox_via.cpp:57-62 | set_fault of a named category on NONE is exactly that category's enum constant, in either layout |
| Vocabulary.ViaOperatorExample | tests/test_annot.cpp:7-13 | CRACK_FAIR, BUMP_POOR and DEPRESSION_VPOOR give 0b110110, then `|=` CRACK_VPOOR and UNEVEN_POOR gives 0x083E |
| Vocabulary.IboxOperatorExample | tests/test_ibox.cpp:7-13 | the same in the ibox layout gives 0b110110, then 0x203E with VEGETATION_POOR |
| Vocabulary.MaxSeverityExample | tests/test_ibox.cpp:15-25 | MaxSeverity is 0, 1, 2 and 3 along the test's sequence of `|=` |
| Render.ShippedReadable | src/via.cpp:20-25 | the shipped type and level tables have non-empty, distinct names free of both separators |
| Render.Levels | src/via.cpp:128-140 | the seven category levels of a code, slot by slot |
| Render.Present | src/via.cpp:128-140 | the (slot, level) pairs that render: in-range slots with non-zero levels, in slot order |
| Render.Pieces | src/via.cpp:128-140 | one `"<type><sep><level>"` piece per present pair |
| Render.Fault2Str | src/via.cpp:128-140 | fault2str's loop builds the pieces of the non-zero slots joined by "_" |
| Render.RenderedEmpty | src/via.cpp:128-140 | the text is "" exactly when all seven category slots are 0 |
| Render.DecodeRendered | src/ibox.cpp:68-80 | decoding fault2str's text gives back slots 0..6 of the code, for both copies |
| Render.DecodeWithRender | src/via.cpp:128-140 | for any readable tables, decoding the rendering gives back the levels |
| Render.RenderedInjective | src/via.cpp:128-140 | two codes with the same text agree on every category slot |
| Render.LookupDistinct | src/via.cpp:23-25 | in a table without repeats, looking a name up inverts indexing |
| Render.JoinFlat | src/via.cpp:128-140 | via's `"<type>_<level>"` pieces joined by "_" are all the names joined by "_" |
| Render.PiecesRead | src/ibox.cpp:68-80 | splitting each ibox piece at "-" gives back its type and level names |
| CsvLine.Depth | src/via.cpp:270-276 | the brace counter stays below 256 (uint8_t) |
| CsvLine.Step | src/via.cpp:262-301 | one loop iteration keeps the brace counter below 256 |
| CsvLine.ParseCsvLine | src/via.cpp:254-304 | the character loop of parse_csv_line computes the scan the model defines |
| CsvLine.RunAppend | src/via.cpp:254-304 | scanning a concatenation is scanning its parts one after the other |
| CsvLine.RunDouble | src/via.cpp:262-301 | reading a text with every quote doubled appends the text itself to the cell |
| CsvLine.RunField | src/via.cpp:262-301 | one field as the exporters write it, read at depth 0, leaves exactly its text as the current cell |
| CsvLine.RunFields | src/via.cpp:254-304 | reading comma-separated fields collects every field but the last, which stays as the current cell |
| CsvLine.ParseEncoded | src/via.cpp:254-304 | parse_csv_line gives back the cells of a line of encoded fields; the last cell only when non-empty |
| CsvLine.PlainLine | src/via.cpp:254-304 | a line without braces or quotes is split at every comma, keeping all pieces but an empty last one |
| CsvLine.PiecesOfPlain | src/via.cpp:254-304 | the pieces of such a line have no quote and no brace |
| CsvLine.EmptyQuotedCell | src/via.cpp:278-290 | `a,"",b` reads as `a`, a single double-quote, `b` |
| CsvLine.StrayBrace | src/via.cpp:270-276 | an unmatched `}` wraps the counter to 255, so a later comma no longer splits: `a},b` is one cell |
| Adapter.FaultOfKeysSlots | src/via.cpp:410-417 | the fault has the level in exactly the slots named by a known key, and 0 in all other slots |
| Adapter.UnknownFaultKeys | src/via.cpp:411-419 | fault keys none of which names a category leave the fault NONE, whatever the level and their order |
| Adapter.FaultFromKeys | src/via.cpp:410-417 | the inner key loop ORs set_fault over all keys in key order |
| Adapter.Truncate | src/via.cpp:423-426 | the int conversion of a double coordinate rounds toward zero: the result is within 1 of the value, on the side of 0 |
| Adapter.ReadCoord | src/via.cpp:423-426 | `value(key, -1)` as an int gives -1 for a missing member, the integer itself for an integer, and throws exactly for a value that is neither a number nor a boolean |
| Adapter.BoxOfSpec | src/via.cpp:382-432 | a record yields a box exactly when it is usable; a usable record throws exactly when its filename is not a string, its shape member is not an object, or a coordinate is neither a number nor a boolean; a box has the record's file name, coordinates read as `value(key, -1)` reads them (missing gives -1, a double is truncated toward zero, a boolean gives 0 or 1), a non-zero level from the first condition key, and that level in exactly the named slots |
| Adapter.FirstConditionOnly | src/via.cpp:398-403 | only the smallest condition key matters; the other keys and all values are ignored |
| Adapter.Json2BoxArr | src/via.cpp:382-432 | the loop of json2boxarr gives the boxes of the records, or throws as soon as a record throws |
| Adapter.ThrownSticks | src/via.cpp:382-432 | once a record throws, the whole conversion throws |
| Adapter.BoxesCount | src/via.cpp:382-432 | without an exception there is one box per usable record |
| Adapter.FileJson2Json | src/via.cpp:334-359 | a document that does not parse gives the sentinel 2; otherwise the flat records of all entries in key order |
| Adapter.RecordsPerRegion | src/ibox_via.cpp:169-194 | the flat records number the regions; entries with empty regions contribute nothing |
| Adapter.RecordsNamed | src/ibox_via.cpp:169-194 | every flat record of a JSON document has a filename member, null when its entry has none |
| Adapter.ZipRow | src/via.cpp:306-332 | the zip loop of one CSV line builds the record of the first min(header, cells) columns, or throws on unparsable region JSON |
| Adapter.ZipThrownSticks | src/via.cpp:306-332 | once a column throws, the whole line throws |
| Adapter.RowOfColumns | src/via.cpp:306-332 | the record has exactly the zipped columns, and each plain column holds the cell of its last occurrence in the header |
| Adapter.FileCsv2Json | src/via.cpp:306-332 | the first line is the header and each further line one record, or the first line that throws |
| Adapter.CsvThrownSticks | src/via.cpp:306-332 | once a data line throws, the whole file throws |
| Adapter.CsvRecordCount | src/via.cpp:306-332 | there is one record per data line after the header |
| Adapter.BoxOfRowFault | src/ibox_via.cpp:372-396 | a TSV row's box holds its level in its category's slot and 0 elsewhere; an unknown level gives NONE |
| Adapter.FromCsvRows | src/ibox_via.cpp:372-396 | from_csv_reader's loop, reusing one box, makes one box per row |
| Adapter.FromCsvReader | src/ibox_via.cpp:370-396 | from_csv_reader returns the grouping of the boxes of its rows, one box per row |
| Grouper.OnImage | src/via.cpp:434-457 | a group holds only boxes of its image that carry a fault |
| Grouper.GroupByImage | src/via.cpp:438-447 | the first loop's ordered keys and map give exactly the groups of the grouping |
| Grouper.BoxArr2ImgBoxArr | src/via.cpp:434-457 | boxarr2imgboxarr returns exactly the grouping |
| Grouper.OnImageMembers | src/via.cpp:434-457 | a box is in the group of image k exactly when it is an input box of image k with a fault |
| Grouper.ImagesOfMembers | src/via.cpp:434-457 | an image is listed exactly when some box of it has a fault |
| Grouper.GroupedSpec | src/via.cpp:434-457 | the images strictly increase; an image is listed exactly when it has a faulty box; no group is empty; each group holds exactly the faulty boxes of its image |
| Grouper.GroupSizes | src/ibox_via.cpp:269-294 | the group sizes add up to the number of faulty boxes: nothing is lost or duplicated |
| Grouper.OnImageSnoc | src/via.cpp:438-447 | one more box extends the group of its image when it has a fault, and no other group |
| Export.BoxToTsv | src/via.cpp:462-475 | Box::ToTsv's loop writes one line per non-zero slot, in slot order |
| Export.BoxTsvLines | src/via.cpp:462-475 | a box's text is the concatenation of its lines |
| Export.BoxTsvEmpty | src/via.cpp:462-475 | a box writes nothing exactly when all its category slots are 0 |
| Export.LineColumns | src/via.cpp:462-475 | each line ends with its only newline and splits at tabs into the eight columns, as many as the header has |
| Export.HeaderColumns | src/ibox.cpp:15-16 | kTsvHeader splits at tabs into prefix, image, cate, level, x, y, w, h |
| Export.LineNames | src/via.cpp:462-475 | the category and level columns of a line are the names of its slot and level |
| Export.BoxTsvRecovers | src/via.cpp:462-475 | reading the category and level columns back from a box's lines gives its seven levels |
| Export.ImgBoxToTsv | src/via.cpp:477-483 | ImgBox::ToTsv's loop writes its boxes' texts in order |
| Export.ImgTsvSplits | src/via.cpp:477-483 | the text of a group splits at its boxes |
| Export.FaultlessBoxesSilent | src/via.cpp:477-483 | boxes without faults add nothing to their group's text |
| Export.ToTsv | src/ibox.cpp:291-299 | toTsv writes the header line and then every group's text, in order |
| Export.DocumentHeader | src/ibox.cpp:291-299 | the document's first line is the header, and without groups it is the only line |
| Export.TextsEmptyIff | src/ibox.cpp:291-299 | when every element writes something, the text is empty exactly when there is nothing to write |
| Export.EmptyCount | src/via.cpp:156-164 | the default ImgFaultCount has no image and all 21 counters 0 |
| Export.CountImage | src/via.cpp:166-198 | counter k is the number of boxes whose cell k is set, modulo 256 |
| Export.TallyCounts | src/ibox.cpp:106-138 | counter (t, l) counts the boxes whose slot t holds level l; a category's three counters add up to at most the number of boxes |
| Export.GroupedTally | src/via.cpp:434-457 | grouping by image keeps every counter: the boxes of all groups tally as the input boxes do, since the dropped boxes set no cell |
| Export.ToStrRoundTrip | src/via.cpp:200-218 | splitting ToStr's text at commas gives back the image and the 21 counters, when the image has no comma |
| Export.FaultStats.constructor | include/via.hpp:133-141 | all 21 counters start at 0 and no fault is added |
| Export.FaultStats.AddFault | src/via.cpp:220-243 | each counter grows by the fault's cell, modulo 2^32, and stays the tally of all added faults |
| Ordered.SortedDistinct | src/via.cpp:438-452 | the distinct elements in strictly increasing order, as a std::map's keys iterate |
| Ordered.SortedDistinctOrderFree | src/via.cpp:438-452 | the distinct sorted keys do not depend on the input order |
| Sorting.SortBy | src/annot.cpp:105-106 | ORDER BY: sorted by the key and a permutation of the rows |
| Sorting.SortedUnique | src/annot.cpp:130 | two orders sorted by a key that tells rows apart are the same |
| Sorting.SortOrderFree | src/annot.cpp:130 | the sorted rows depend only on the multiset of rows |
| Lists.FlattenOrderFree | src/annot.cpp:332-346 | tables loaded in any order hold the same rows |
| Annot.Number | src/annot.cpp:37-79 | AUTOINCREMENT gives the rows of a fresh table the ids 1, 2, ... in insertion order |
| Annot.Substr | src/annot.cpp:103-104 | SQLite substr from a start of 1 or more: at most len characters from position start, fewer near the end |
| Annot.StampSplits | src/annot.cpp:103-104 | a 19-character stamp is date, a separator and time; date is the first 10 characters; a stamp of 11 or fewer gives an empty time |
| Annot.CategoriesSpec | src/annot.cpp:92-97 | categories have ids 1..N, strictly increasing names, exactly the cate values of the raw rows, and each name once |
| Annot.CategoriesOrderFree | src/annot.cpp:92-97 | the categories depend only on which cate values occur |
| Annot.ImageKeyInjective | src/annot.cpp:105-106 | the image ORDER BY lists every column, so it tells rows apart |
| Annot.ImagesSpec | src/annot.cpp:100-108 | one image row per EXIF row, none merged or lost, in key order, with ids 1..M |
| Annot.ImagesOrderFree | src/annot.cpp:100-108 | the images depend only on the multiset of EXIF rows |
| Annot.AnnotKeyInjective | src/annot.cpp:130 | the annotation ORDER BY lists every column, so it tells rows apart |
| Annot.JoinedMembers | src/annot.cpp:119-125 | a joined row is exactly a raw row combined with an image of the same prefix and name and the category of its cate |
| Annot.AnnotationsJoin | src/annot.cpp:111-131 | every annotation has id k+1, refers to an existing image and category, and is the join of some raw row with them |
| Annot.AnnotationsComplete | src/annot.cpp:119-125 | every raw row and every image of the same prefix and name give an annotation of that image |
| Annot.CategoryOfCate | src/annot.cpp:124-125 | the cate of a raw row names a category |
| Annot.AnnotationCount | src/annot.cpp:119-125 | duplicates are kept: each raw row yields one annotation per EXIF row of the same image, and none without one |
| Annot.NormaliseOrderFree | src/annot.cpp:92-131 | the three tables depend only on the multisets of raw rows |
| Annot.BulkInsert | src/annot.cpp:186-234 | the insertion loop appends the file's rows to the table |
| Annot.LoadDb | src/annot.cpp:332-346 | load_db fills the raw tables with all files in order and normalises them |
| Annot.LoadOrderFree | src/annot.cpp:332-346 | the database does not depend on the order the files are listed in |
| Coco.SelectImagesSpec | src/annot.cpp:142-159 | the exported images are exactly those some annotation refers to, each once, with ids ascending |
| Coco.Cate2Coco | src/annot.cpp:444-481 | one `{id, name}` object per category row |
| Coco.Img2Coco | src/annot.cpp:394-442 | one image object per row of the image selection |
| Coco.Annot2Coco | src/annot.cpp:348-392 | one annotation object per annotation row |
| Coco.Db2Coco | src/annot.cpp:483-492 | the document of the three arrays |
| Coco.ToCoco | src/annot.cpp:494-511 | loading, normalising and assembling compose |
| Coco.CocoTraced | src/annot.cpp:348-481 | every exported annotation names an exported image and category and traces to a raw row and an EXIF row of the same image: file_name is prefix/image, date_captured is date and time, bbox is the raw box, iscrowd is 0 |
| Coco.CocoComplete | src/annot.cpp:111-159 | every raw row and EXIF row of the same image give an exported annotation traced to them |
| Coco.CocoIds | src/annot.cpp:348-481 | category and annotation ids are 1..N and 1..K, image ids ascend, and every exported image is referred to by an annotation |
| Gis.Lookup | src/gis.cpp:78-82 | a member is found exactly when some member has the key, and the value is that member's |
| Gis.JoinLoop | src/gis.cpp:21-30 | the shared index loop appends each converted element with ", " between them; it throws as soon as an element does |
| Gis.WktCoords | src/gis.cpp:21-30 | wkt_coords' loop gives the positions joined with ", " |
| Gis.WktPolygon | src/gis.cpp:33-43 | wkt_polygon's loop gives the enclosed rings joined with ", " |
| Gis.WktMultiPolygon | src/gis.cpp:47-57 | wkt_mpolygon's loop gives the enclosed polygons joined with ", " |
| Gis.CollectDone | src/gis.cpp:21-57 | the conversion succeeds exactly when every element converts, and then gives each element's text |
| Gis.ShapeOf | src/gis.cpp:63-73 | a selected shape has the compared type name |
| Gis.ShapeNames | src/gis.cpp:63-73 | exactly the four type names select a shape, each its own |
| Gis.Json2WktCases | src/gis.cpp:59-74 | a supported type gives its writer's text enclosed after its keyword; another type name throws; a result implies a geometry with a string type name and coordinates |
| Gis.PointExample | src/gis.cpp:63-64 | a Point feature gives `POINT (x y)` |
| Gis.PolygonExample | src/gis.cpp:67-68 | a one-ring Polygon gives `POLYGON ((x y, x y))` |
| Gis.EncloseProfile | src/gis.cpp:6-11 | enclosing balanced text keeps it balanced and deepens its parenthesis nesting by one |
| Gis.JoinProfile | src/gis.cpp:21-30 | joining balanced pieces is balanced, as deep as the deepest piece |
| Gis.CoordsFlat | src/gis.cpp:21-30 | the coordinate text of a line string has no parentheses |
| Gis.PolygonProfile | src/gis.cpp:33-43 | polygon text is balanced and nested one deep, or not at all without rings |
| Gis.MultiPolygonProfile | src/gis.cpp:47-57 | multipolygon text is balanced and nested to the polygons' depth |
| Gis.InnerNesting | src/gis.cpp:14-57 | each shape's coordinate text is balanced and nested one level less than its WKT |
| Gis.GeometryNesting | src/gis.cpp:59-74 | the WKT of a geometry is balanced, with nesting 1 for a point or line string, 2 for a polygon with rings and 3 for a multipolygon with a ring |
| Gis.GeometryAvoids | src/gis.cpp:14-57 | when the numbers have no tab or newline, neither has the text of any shape |
| Gis.Json2WktAvoids | src/gis.cpp:59-74 | when the numbers have no tab or newline, the WKT of a feature has neither, so it fits in one TSV column |
| Gis.GetStrMeaning | src/gis.cpp:76-83 | a non-empty get_str result is the string of a member named key; in an object without repeated keys a string member named key is the result; with no string member named key the result is "" |
| Gis.GetNumMeaning | src/gis.cpp:85-91 | a non-zero get_num result is the number of a member named key; in an object without repeated keys a number member named key is the result; with no number member named key the result is 0 |
| Gis.Fields | src/gis.cpp:107-127 | a converted feature has the twelve columns of the header |
| Gis.Columns | src/gis.cpp:116-131 | the columns have entity id first, asset id second and the WKT last, twelve in all |
| Gis.Geojson2Tsv | src/gis.cpp:93-133 | the text written and whether an exception ended it are those of the conversion that TsvThrows and TsvLines describe |
| Gis.WriteLines | src/gis.cpp:106-132 | the feature loop writes the header and each feature's line until one throws |
| Gis.EmitAllRows | src/gis.cpp:106-132 | when every feature converts, the text is all their lines in order and nothing throws |
| Gis.EmitStopsAt | src/gis.cpp:106-132 | when feature k is the first to throw, the lines of the features before it are written and the conversion throws |
| Gis.EmitThrows | src/gis.cpp:106-132 | the loop throws exactly when some feature throws |
| Gis.TsvThrows | src/gis.cpp:96-115 | Geojson2Tsv throws exactly when features is missing or some feature does not convert |
| Gis.MissingMemberThrows | src/gis.cpp:107-115 | a feature without geometry, properties, shapeType, coordinates or properties.id throws |
| Gis.RowColumns | src/gis.cpp:116-131 | a feature's line is its columns joined by tabs with one final newline, splits back into them, and has entity id, asset id and WKT in the header's places |
| Gis.HeaderColumns | src/gis.cpp:101-104 | the header splits at tabs into the twelve column names |
| Gis.TsvLines | src/gis.cpp:101-132 | when every feature converts, splitting the text at newlines gives the header, one line per feature, and an empty rest |
| Samples.FromTsvTally | tests/test_ibox.cpp:391-472 | on the ten-row sample TSV, the boxes of all groups from from_csv_reader tally to 1, 2, 1, 1, 1, 1, 1 and 2 in cells 0, 3, 4, 5, 7, 12, 14 and 18, and to 0 elsewhere |

## Left out

- Pixel work and concurrency are not modelled: OpenCV drawing and
  cropping, and the `std::async` code in the image and optical-flow
  sources.
- EXIF reading, file listing and the stream and file wrappers are
  replaced by sequences of rows or text. These are `exportTsv`,
  `exportStats`, `printStats`, `fromVia`, `fromTsv`, `toCoco`'s streams,
  and `annot::print`.
- The JSON, CSV and SQLite libraries are not modelled; their data is
  given as datatypes.
  - Parse errors are inputs: an `Option` document, and parser functions
    that return `None`.
  - SQLite statement failures are not modelled.
  - CSV `get<int>` errors are not modelled.
  - The JSON text that `dump` writes is not modelled.
- The two SELECTs without ORDER BY (kSqlSelAnnot, kSqlSelCate) are
  modelled as returning rows in id order, i.e. insertion order. kSqlSelImg
  returns the referenced images in id order. SQLite does not promise these
  orders.
- Integers are unbounded; wrap-around is written out only where it
  matters: the `uint8_t` brace counter and ImgFaultCount counters (mod 256),
  and the FaultStats counters (mod 2^32). Coordinates are not wrapped: an
  integer or a double outside the range of `int` keeps its unbounded
  (truncated) value, where the source narrows it or has undefined
  behaviour.
- Floating point is not modelled beyond truncating a coordinate to an
  integer (`Adapter.Truncate`, on exact reals). `std::to_string(double)` and
  `ostream <<` of a double are uninterpreted function parameters, and
  `Gis.GeometryAvoids` and `Gis.TsvLines` assume that these functions never
  write a tab, a newline or a parenthesis.
- `*(uint32_t*)&b.fault` reads 4 bytes of a 2-byte field
  (src/via.cpp:441), which is undefined behaviour. It is modelled as
  `fault == NONE`.
- Adapter.FromCsvRows: requires known categories. For an unknown category,
  `set_fault` would shift by a negative amount, which is undefined
  behaviour.
- Unlike via, the ibox copy stores pothole in slot 4 and vegetation in
  slot 6, but it renders slot names with the via table. Both files'
  tables are modelled as written, and `Vocabulary.IboxNamesSwapped`
  states the swap that results. It is not corrected.
- Where the prose description and the code differ, the code is modelled.
  For example, the categories table is built from the `cate` of every
  raw annotation row, whatever its level.
- Box::MaxSeverity is only declared in the headers; its body is not part
  of this model. FaultCode.MaxSeverity states the largest category level,
  as its name and its test say.
- Gis: const `operator[]` on a missing key, and a position index out of
  range, are undefined behaviour. Both are modelled as a failure
  (`Thrown`).
- Gis: the text of an exception message is not modelled. `std::endl`
  flushing is not modelled.
- Gis: parsing the GeoJSON text (`geojson >> js`) is not modelled; the
  document is the input.
- Gis: `properties.id` is checked but never written. The asset id is
  `identifier.AssetId`, as in the code.
- The TSV expectation in tests/test_gis.cpp:460-465 disagrees with the
  header and columns that Geojson2Tsv writes. It is not used.
- The tallies of the two VIA samples of tests/test_ibox.cpp (the CSV at
  :27-108 and the JSON at :109-390) are not stated, because they need the
  JSON text parser, which is not modelled. The TSV sample tally is
  stated, as `Samples.FromTsvTally`.
- Adapter: the source throws `type_error` when the JSON document is not
  an object (`json_raw["_via_img_metadata"]`), when an image entry of
  `_via_img_metadata` is neither an object nor null (`value["regions"]`),
  when `_via_img_metadata` itself is a primitive (its one item is then
  indexed by `value["regions"]`), and when a region is not an object. The
  model cannot express such a document: a parsed document, its entries and
  its regions are given as records, so `FileJson2Json` has no thrown
  outcome.
- Adapter: a region without `region_attributes` or `shape_attributes` is
  read through const `operator[]`, which is undefined behaviour. The model
  gives such a record the member `None`, so `json2boxarr` skips it.
- Adapter.BoxOf: a `condition` or `fault` member that is not an object
  is given by the keys that `items()` yields for it: `[""]` for a
  non-null primitive and `["0", "1", ...]` for an array. Neither key is a
  level name, so such a `condition` skips the record, and such a `fault`
  gives a box with fault NONE, which grouping drops. A null member is
  `empty()` and skips the record, like an empty key list. `Keys` lists
  array indices in string order rather than index order; since no index
  names a level or a category, the outcome is the same
  (`Adapter.UnknownFaultKeys`).
