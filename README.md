# Spreadsheet FAQ extractor — a Dafny model

`function_app.py` reads one SpreadsheetML workbook (an Office Open XML
`.xlsx` zip package) laid out as an FAQ table with the columns 分類
(category), 項目 (item), No., 質問 (question) and 回答 (answer). It writes
one JSON record per question. Each record gathers the question's and the
answer's lines, which are spread over vertically merged cells. It also lists
the images pasted onto the rows of that question.

This project models the script's logic on already-parsed inputs and proves
what it computes. The model has four parts, one Dafny module each:

- **`ColumnCodec`.** `colnum_to_excel_col` turns a zero-based column index
  into spreadsheet letters (bijective base 26). It is a loop method proved
  equal to an encoder, and the encoder is proved invertible.
- **`Resolver` and `ImageScan`.** These are the four relationship tables:
  - workbook r:id → sheet name;
  - workbook relationship → worksheet file;
  - worksheet file → drawing file;
  - drawing file → (embed id → media file).

  Then comes the anchor scan that fills `image_map`. Every table-building
  loop and the scan are methods. Each is proved equal to a specification
  function, and the properties are lemmas about those functions: which
  relationships are kept, the last assignment wins, embed ids are scoped to
  their drawing, which sheet a drawing belongs to, and when an anchor yields
  an image.
- **`RowMelter`.** `melt_merged_rows` is written with pandas column
  expressions. It is specified as forward fill, then the running count of
  non-blank 分類 cells, then `groupby`, then `agg`, then the No. conversion.
  It is implemented as the equivalent single pass that carries the last
  values seen and the count, followed by a loop over the groups. Lemmas
  show:
  - the groups partition the table into contiguous runs in table order;
  - each group's first row is where a 分類 value starts;
  - no question or answer line is lost or repeated;
  - the conversion fails exactly on a missing or non-integer No., or one
    outside the 64-bit range of `astype(int)`.
- **`RecordAssembler`.** The sheets are concatenated, each record's
  `image_urls` is collected, and the JSON file names are built. `Run` chains
  every phase in the script's order.

Two helper modules support them. `PyDict` models Python's insertion-ordered
`dict`: assigning to a key already present keeps its position. `Text` models
the string operations the script uses.

The archive is given as a `Package`:
- the part listing;
- the `<sheet>` entries of `xl/workbook.xml`;
- for each relationship part, its `(Id, Type, Target)` relationships;
- for each drawing part, its two-cell anchors `(col, row, embed id)`.

The sheets read by pandas are given as rows of optional text cells.

Where the code and its own description differ, the model follows the code:

- pandas `first` skips blank cells. So a group's No. is its first
  *non-blank* No. after the forward fill, and not simply the first row's
  value.
- The rows before the first non-blank 分類 cell form a group of their own,
  with id 0.
- The forward fill runs over the concatenated table, so it carries values
  across a sheet boundary.
- `original_row` is the position in the concatenated table plus 2, not a
  row number within the sheet (`ConcatPosition`). As a result, an image
  pasted on sheet *k* > 0 is matched against row numbers shifted by the rows
  of the sheets before it.
- `.replace(".rels", "")` removes every occurrence of ".rels" anywhere in
  the file name, not only the suffix (`RelsOwner`).
- A workbook relationship whose r:id no `<sheet>` declares aborts the run
  (`sheet_id_to_name[rId]` raises) when it is the first match for a drawing.
  So does a missing `xl/workbook.xml` or `xl/_rels/workbook.xml.rels`.
- Later assignments overwrite earlier ones in every table. Two records with
  the same sheet and No. write the same file, and the later one wins
  (`WrittenFiles`).

## Model

| member | source | states |
|---|---|---|
| ColumnCodec.ColumnLetters | function_app.py:32-37 | the loop yields the bijective base-26 letters of a column, and "" for a negative index |
| ColumnCodec.Encode | function_app.py:32-37 | the letters of a column are a non-empty run of 'A'..'Z' |
| ColumnCodec.DecodeEncode | function_app.py:32-37 | decoding the letters of column n gives back n |
| ColumnCodec.EncodeDecode | function_app.py:32-37 | every non-empty run of capital letters is the encoding of exactly one column |
| ColumnCodec.EncodeInjective | function_app.py:32-37 | distinct columns get distinct letters |
| ColumnCodec.EncodeExamples | function_app.py:32-37 | 0→A, 25→Z, 26→AA, 701→ZZ, 702→AAA |
| PyDict.Put | function_app.py:58 | after `d[k] = v`, `d[k]` is v and every other key looks up as before |
| PyDict.AppendAt | function_app.py:183-185 | `setdefault(k, []).append(v)` extends the list under k by v and changes no other key |
| PyDict.PutKeys | function_app.py:58 | assignment keeps key order, puts a new key last, and never duplicates a key |
| PyDict.GetFromPairs | function_app.py:53-58 | a dict built by a loop of assignments holds the last value given to each key |
| PyDict.LastValueFound | function_app.py:53-58 | the last value for a key is found exactly when some assignment used that key |
| PyDict.FromPairsDistinct | function_app.py:53-58 | a dict built by assignments has no repeated key |
| PyDict.PutAt | function_app.py:95-97 | assigning a key already present replaces its pair in place and leaves every other pair where it was |
| PyDict.PutNew | function_app.py:183 | assigning a key not present appends one pair at the end |
| PyDict.LastValueSource | function_app.py:53-58 | the value a built dict holds for a key was given by an assignment to that key, and no later assignment used the key |
| Text.LastComponentIsTail | function_app.py:73-75 | `split("/")[-1]` is a '/'-free tail of the path that is all of it or follows a '/' |
| Text.LastComponent | function_app.py:73-75 | `split("/")[-1]` holds no '/' |
| Text.LastComponentOfJoin | function_app.py:125 | the last component of `dir/name` is `name` when `name` holds no '/' |
| Text.RemoveRelsSuffix | function_app.py:93 | removing ".rels" from `t + ".rels"` gives t back when t holds no ".rels" |
| Text.RemoveAll | function_app.py:93 | `replace(pat, "")` never lengthens the string, adds no character, and leaves a string without `pat` unchanged |
| Text.ParseDecimalString | function_app.py:233 | the integer conversion reads the decimal form of every integer back to it |
| Text.DecimalStringInjective | function_app.py:250 | `str` is one-to-one on the integers |
| Text.ParseIntMeaning | function_app.py:233 | the integer conversion succeeds exactly on an optional sign followed by decimal digits; a negative result needs a leading '-', and a leading '-' never gives a positive result |
| Text.ParseDigitsMeaning | function_app.py:233 | reading digits one at a time succeeds exactly on a non-empty run of decimal digits and gives the number they denote |
| Text.DecimalString | function_app.py:250 | `str` of an integer is a non-empty run of digits, after a '-' when the integer is negative |
| Text.SplitJoinLines | function_app.py:227-228 | `"\n".join` of one or more lines without a newline splits back into exactly those lines |
| Xlsx.RelsOwnerOfUsualName | function_app.py:93 | the key of `dir/sheetN.xml.rels` is `sheetN.xml` |
| Xlsx.RelsOwner | function_app.py:93 | the key of a relationship part holds no '/', and is the last path component itself when that component holds no ".rels" |
| Resolver.ReadSheetNames | function_app.py:49-58 | the loop builds the r:id → name table of the `<sheet>` entries |
| Resolver.SheetNameLookup | function_app.py:53-58 | an r:id names the sheet of a `<sheet>` entry with that r:id, and only declared r:ids have a name |
| Resolver.ReadKindTable | function_app.py:70-75 | the loop builds the Id → file table of the relationships of one type |
| Resolver.KindTableLookup | function_app.py:70-75 | a table keeps only relationships whose Type ends with the kind, stores each target's last path component, and has an entry for exactly the ids some such relationship declares |
| Resolver.KindEdgeMember | function_app.py:72-75 | an edge is recorded exactly for a relationship of the kind |
| Resolver.ReadOwnerDrawings | function_app.py:89-97 | the inner loop assigns the drawing of every drawing relationship of one worksheet relationship part |
| Resolver.ReadSheetDrawings | function_app.py:78-97 | the nested loops build the worksheet file → drawing table |
| Resolver.SheetDrawingLookup | function_app.py:80-97 | a worksheet file maps to a drawing only through a drawing relationship in a worksheet relationship part that the file owns, and has an entry exactly when it owns one |
| Resolver.SheetDrawingEdgeMember | function_app.py:80-97 | the recorded worksheet → drawing edges are exactly the drawing relationships of worksheet relationship parts |
| Resolver.ReadDrawingImages | function_app.py:100-117 | the loop builds one embed-id table per drawing relationship part |
| Resolver.DrawingImagesLookup | function_app.py:102-117 | a drawing's embed-id table comes from the last listed relationship part the drawing owns, and a drawing that owns none has no table |
| Resolver.DrawingImagesSource | function_app.py:102-117 | the position of the part a drawing's table was read from, with no later part of that drawing |
| Resolver.EmbedIdsScoped | function_app.py:100-117 | a drawing's table depends only on the relationship parts it owns |
| Resolver.ReadTables | function_app.py:49-117 | the table phase builds the four tables, and fails exactly when the workbook part or its relationship part is missing |
| ImageScan.FirstFeedingFrom | function_app.py:128-135 | finds the first position in table order whose worksheet records the drawing, or None when there is none |
| ImageScan.SheetForDrawing | function_app.py:128-137 | a drawing gets the name of the first workbook relationship, in table order, whose worksheet records it; it gets None exactly when no worksheet records it; an undeclared r:id there aborts |
| ImageScan.CellName | function_app.py:154 | the cell name is the column's letters followed by the decimal form of row + 1, and both parts read back to the column and row + 1 |
| ImageScan.SavePath | function_app.py:172-173 | the save path is in the image directory and ends with "_" and the media file name; its last component is `{sheet}_{cell}_{file}` when sheet and file hold no '/' |
| ImageScan.AnchorImage | function_app.py:157-185 | an anchor yields an image exactly when it has an embed id that its drawing's table maps to a non-empty file present under xl/media/; the image is keyed by (sheet, row + 1) and saved at the save path of that file |
| ImageScan.RecordAnchor | function_app.py:152-185 | one anchor appends its save path under (sheet, row + 1) exactly when it has an embed id that resolves in its drawing's table to a non-empty file present under xl/media/; otherwise the map is unchanged |
| ImageScan.RecordAnchors | function_app.py:149-185 | the anchor loop records the images of a drawing's anchors in anchor order |
| ImageScan.ScanPart | function_app.py:120-148 | a part adds images only when it is a drawing part that belongs to a sheet with a non-empty name |
| ImageScan.ScanDrawings | function_app.py:120-185 | the scan over every drawing part yields `image_map`, or the error that aborted it |
| ImageScan.RegistryContents | function_app.py:183-185 | `image_map` lists under each key exactly the paths registered with that key, in scan order, and has no entry for an unused key |
| ImageScan.AnchorImageResolves | function_app.py:157-185 | an anchor adds an image only through an image relationship with its embed id, in a relationship part owned by its own drawing, whose target is present under xl/media/; it is saved as `ImageDir/{sheet}_{letters}{row+1}_{file}` under (sheet, row + 1) |
| ImageScan.DrawingTableSource | function_app.py:100-117 | a drawing's embed-id table was read from a relationship part that the drawing owns |
| ImageScan.AnchorImageScoped | function_app.py:166 | an anchor resolves the same way whatever the relationship parts of other drawings declare |
| ImageScan.NoRelsNoImages | function_app.py:166 | a drawing that owns no relationship part resolves none of its anchors |
| ImageScan.AnchorRegsMember | function_app.py:149-185 | an image is among a drawing's images exactly when one of its anchors resolves to it |
| ImageScan.ScanRegsMember | function_app.py:120-185 | after a successful scan, an image is recorded exactly when it comes from an anchor of a listed drawing part that belongs to a sheet with a non-empty name |
| ImageScan.ScanErrorSticks | function_app.py:128-133 | once a drawing's lookup has raised, the whole scan fails with that error |
| RowMelter.MeltMergedRows | function_app.py:199-234 | the grouping pass followed by the aggregation loop computes `melt_merged_rows` |
| RowMelter.GroupRows | function_app.py:212-220 | one pass that carries the last 分類, 項目 and No. seen and the running group id builds the groups of the filled table |
| RowMelter.AggregateGroups | function_app.py:219-233 | the loop over the groups gives one record per group in group order, or the error of the first group whose No. does not convert |
| RowMelter.LastSeenMeaning | function_app.py:213 | a forward-filled cell is blank exactly when no row so far has a value, and otherwise holds the most recent value |
| RowMelter.LastSeenBlank | function_app.py:213 | a forward-filled cell is blank exactly when every cell so far is blank |
| RowMelter.LastSeenSource | function_app.py:213 | a filled value comes from the last row so far that has one |
| RowMelter.GroupIdRuns | function_app.py:217 | the group id never decreases, and two rows share it exactly when no row after the first, up to the second, has a 分類 cell |
| RowMelter.Filled | function_app.py:212-213 | the fill keeps every row in place, and row i is filled from the rows up to and including it |
| RowMelter.GroupsShape | function_app.py:217-220 | group ids increase in order of appearance, the last one is the running count, and the groups laid end to end give back the filled table |
| RowMelter.Groups | function_app.py:217-220 | groupby never forms an empty group, and forms none exactly for an empty table |
| RowMelter.GroupsHeads | function_app.py:217-220 | each group starts at row 0 or at a row with a 分類 cell, and its first member is that row as filled |
| RowMelter.LeadingGroup | function_app.py:217 | the first group has id 0 exactly when the first row's 分類 cell is blank |
| RowMelter.AggregateAllMeaning | function_app.py:219-233 | the melt gives one record per group in group order, or the error of the first group whose No. does not convert |
| RowMelter.ConvertNoMeaning | function_app.py:233 | `astype({"No.": int})` succeeds exactly on a present cell that parses as an integer within the 64-bit range, gives that integer, and otherwise reports the cell |
| RowMelter.AggregateMeaning | function_app.py:221-233 | a group aggregates exactly when its first non-blank No. converts; the record takes that No., the first row's sheet, one `original_row` per member starting at the first row's position + 2; a failure reports that No. cell |
| RowMelter.Melt | function_app.py:219-233 | a successful melt has one record per group, and record a is the aggregation of group a |
| RowMelter.MeltNoAt | function_app.py:226-233 | each record's No. is its group's first non-blank No. read as an integer, and fits in 64 bits |
| RowMelter.AggregateAllOk | function_app.py:219-233 | a successful aggregation holds, at each position, the record of the group there |
| RowMelter.AggregateAllErr | function_app.py:233 | a failed aggregation reports the first failing group |
| RowMelter.MeltRecordAt | function_app.py:219-233 | record a of the melt is the aggregation of group a |
| RowMelter.MeltPartitionsRows | function_app.py:218-229 | the records' `original_row` lists, laid end to end, are 2, 3, …, one per row, so the groups are contiguous ascending runs covering every row once |
| RowMelter.MeltHeaders | function_app.py:213-226 | each record starts on a row of the table; its 分類 and シート名 are those of that row; when the value filled down to that row is non-blank, its 項目 is that value and its No. is that value read as an integer; only the first record can start without a 分類 cell |
| RowMelter.MeltHeaderAt | function_app.py:213-226 | the same facts for one record |
| RowMelter.HeadRecord | function_app.py:223-229 | the record of a group with a known first row takes its sheet, 分類 and first `original_row` from that row, and its 項目 and No. from the values filled down to it when those are non-blank |
| RowMelter.MeltFailsOnNo | function_app.py:226-233 | the melt succeeds exactly when every group's first non-blank No. is present, is an integer and fits in 64 bits |
| RowMelter.AggregateAllFailsOnNo | function_app.py:226-233 | the same condition for any list of groups |
| RowMelter.AggregateErrorSticks | function_app.py:233 | once a group fails, the whole conversion fails with its error |
| RowMelter.MeltKeepsEveryLine | function_app.py:227-228 | each record's 質問 and 回答 join their group's non-blank cells with "\n", and the groups' cells laid end to end are the column's non-blank cells in table order |
| RowMelter.FilledKeepsText | function_app.py:213 | the fill leaves 質問 and 回答 as read |
| RowMelter.GroupLinesFlatten | function_app.py:227-228 | the groups' non-blank cells laid end to end are those of the groups' rows in order |
| RowMelter.AllOriginalRowsOfGroups | function_app.py:218-229 | the records' `original_row` lists, laid end to end, are those of the groups' rows |
| RowMelter.OriginalRowsOfFilled | function_app.py:218 | the rows of the filled table carry positions 2, 3, … |
| RecordAssembler.ConcatPosition | function_app.py:189-195 | row j of sheet k is at position (rows of the earlier sheets) + j of the concatenated table, tagged with its sheet's name |
| RecordAssembler.Tag | function_app.py:193 | tagging keeps every row in place and sets its sheet name |
| RecordAssembler.ConcatSheets | function_app.py:195 | the concatenated table has as many rows as the sheets together |
| RecordAssembler.CollectImages | function_app.py:244-248 | the loop gathers, in `image_map` order, the path lists of the keys with the record's sheet and a row among its `original_row` |
| RecordAssembler.ImagesFor | function_app.py:244-248 | every path among a record's images is listed in `image_map` under a key with the record's sheet and one of its rows |
| RecordAssembler.ImagesOfRegistry | function_app.py:244-248 | a record's images are, counted with multiplicity, exactly the paths the scan saved for its sheet at one of its rows |
| RecordAssembler.RecordImages | function_app.py:244-248 | a path is among a record's images exactly when some saved image of the record's sheet and rows has it, so an image whose key matches no record is in none |
| RecordAssembler.AppendAtImages | function_app.py:183-185 | one more append adds the path to a record's images exactly when its key matches the record |
| RecordAssembler.JsonNameInjective | function_app.py:250 | within a workbook and a sheet, different No. values give different file names |
| RecordAssembler.JsonNameReadsBack | function_app.py:250 | the No. can be read back from the JSON file name built for it |
| RecordAssembler.AssembleRecords | function_app.py:240-252 | the loop writes one record per melted row, replacing any earlier file of the same name |
| RecordAssembler.OutputsMeaning | function_app.py:240-250 | the i-th write goes to the file named after row i's sheet and No., with row i's fields and images |
| RecordAssembler.WrittenFiles | function_app.py:250-252 | a file exists exactly when some row produces its name; it holds the record of the last row with that name; when no row produces a name, no file is written under it |
| RecordAssembler.Run | function_app.py:41-252 | the tables, the scan, the melt and the records chained in the script's order, stopping at the first error |

## Left out

- Zip access and XML parsing (`zipfile`, `ElementTree`, namespaces). The listing, the `<sheet>` entries, the relationships and the anchors are inputs. A part that fails to parse, or an element without an expected attribute, is not modelled.
- `int(...)` of the anchor's `from/col` and `from/row` text: they are given as naturals.
- File-system effects: creating the output directories, copying the images out of the archive, and `json.dump`. They are modelled as the computed save paths and the map from file names to records. `print` diagnostics are left out.
- `pd.read_excel` and `pd.concat` are given as sheets of rows with optional text cells. Number cells, NaN, float dtypes and the header row are not modelled.
- Text.ParseInt: accepts an optional sign followed by ASCII digits only; the 64-bit range check of `astype(int)` is made separately, in `RowMelter.ConvertNo`. Python's `int()` also strips whitespace and accepts underscores and non-ASCII digits. pandas converts a numeric cell directly, and that path is not modelled.
- The column set is fixed to シート名, 分類, 項目, No., 質問 and 回答. A sheet missing one of them (a pandas KeyError) is not modelled.
- `sharepoint_uploader.py` is not part of this model. It is an authenticated HTTP client with nothing to verify here.
- The commented-out Excel export at the end of the script is not part of this model.
