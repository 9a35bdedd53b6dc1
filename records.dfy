/**
 * The end of the script (lines 187-252): every sheet of the workbook is
 * tagged with its name and the sheets are concatenated into one table; the
 * table is melted; each melted row becomes one JSON record whose
 * `image_urls` gathers the images saved for its sheet at any of its rows,
 * written under a name built from the workbook's stem, the sheet and No.
 */
module RecordAssembler {
  import opened Wrappers
  import opened PyDict
  import opened Text
  import opened Xlsx
  import opened Resolver
  import opened ImageScan
  import opened RowMelter

  // ---------------------------------------------------------------------
  // One table from all sheets (lines 189-195)

  /** A sheet as `read_excel(..., sheet_name=None)` yields it: its name and its rows. */
  datatype Sheet = Sheet(name: string, rows: seq<Row>)

  /**
   * Line 193: every row gets the sheet's name in its sheet-name column; the
   * rows keep their order and every other cell.
   */
  function Tag(name: string, rows: seq<Row>): (r: seq<Row>)
    ensures |r| == |rows|
    ensures forall j :: 0 <= j < |rows| ==> r[j] == rows[j].(sheet := name)
  {
    if rows == [] then [] else Tag(name, rows[..|rows| - 1]) + [rows[|rows| - 1].(sheet := name)]
  }

  /**
   * `pd.concat(df_list, ignore_index=True)` over the tagged sheets, in
   * workbook order: the table holds every row of every sheet.
   */
  function ConcatSheets(sheets: seq<Sheet>): (r: seq<Row>)
    ensures |r| == TotalRows(sheets)
  {
    if sheets == [] then []
    else ConcatSheets(sheets[..|sheets| - 1]) + Tag(sheets[|sheets| - 1].name, sheets[|sheets| - 1].rows)
  }

  /** How many rows the sheets hold together. */
  function TotalRows(sheets: seq<Sheet>): nat {
    if sheets == [] then 0 else TotalRows(sheets[..|sheets| - 1]) + |sheets[|sheets| - 1].rows|
  }

  /**
   * Row `j` of sheet `k` sits at position (rows of the earlier sheets) + `j`
   * of the concatenated table, tagged with its sheet's name; so the
   * `original_row` of a record counts rows across all sheets, not within
   * its own.
   */
  lemma {:induction false} ConcatPosition(sheets: seq<Sheet>, k: nat, j: nat)
    requires k < |sheets| && j < |sheets[k].rows|
    ensures |ConcatSheets(sheets)| == TotalRows(sheets)
    ensures TotalRows(sheets[..k]) + j < TotalRows(sheets)
    ensures ConcatSheets(sheets)[TotalRows(sheets[..k]) + j] == sheets[k].rows[j].(sheet := sheets[k].name)
  {
    var n := |sheets| - 1;
    var init := sheets[..n];
    if k == n {
      assert sheets[..k] == init;
    } else {
      assert init[..k] == sheets[..k];
      ConcatPosition(init, k, j);
    }
  }

  // ---------------------------------------------------------------------
  // A record's images (lines 244-248)

  /** `img_sheet == sheet and img_row in original_rows` */
  predicate Matches(k: Key, sheet: string, rows: seq<int>) {
    k.0 == sheet && k.1 in rows
  }

  /**
   * The path lists of every matching key, laid end to end in `image_map`
   * order: every path comes from an entry whose key matches.
   */
  function ImagesFor(m: ImageMap, sheet: string, rows: seq<int>): (r: seq<string>)
    ensures forall p :: p in r ==> exists i :: 0 <= i < |m| && Matches(m[i].0, sheet, rows) && p in m[i].1
  {
    if m == [] then []
    else ImagesFor(m[..|m| - 1], sheet, rows) + (if Matches(m[|m| - 1].0, sheet, rows) then m[|m| - 1].1 else [])
  }

  /** The paths of the registrations that match, in scan order. */
  function MatchingPaths(rs: seq<Registration>, sheet: string, rows: seq<int>): seq<string> {
    if rs == [] then []
    else
      MatchingPaths(rs[..|rs| - 1], sheet, rows)
        + (if Matches(rs[|rs| - 1].key, sheet, rows) then [rs[|rs| - 1].path] else [])
  }

  /** The loop of lines 244-248: `images.extend(paths)` for every matching entry. */
  method CollectImages(m: ImageMap, sheet: string, originalRows: seq<int>) returns (images: seq<string>)
    ensures images == ImagesFor(m, sheet, originalRows)
  {
    images := [];
    var i := 0;
    while i < |m|
      invariant i <= |m|
      invariant images == ImagesFor(m[..i], sheet, originalRows)
    {
      var (key, paths) := m[i];
      assert m[..i + 1][..i] == m[..i];
      if key.0 == sheet && key.1 in originalRows {
        images := images + paths;
      }
      i := i + 1;
    }
    assert m[..i] == m;
  }

  lemma {:induction false} ImagesForConcat(a: ImageMap, b: ImageMap, sheet: string, rows: seq<int>)
    ensures ImagesFor(a + b, sheet, rows) == ImagesFor(a, sheet, rows) + ImagesFor(b, sheet, rows)
    decreases |b|
  {
    if b == [] {
      assert a + b == a;
    } else {
      var n := |b| - 1;
      ImagesForConcat(a, b[..n], sheet, rows);
      assert (a + b)[..|a + b| - 1] == a + b[..n];
      ConcatAssoc(ImagesFor(a, sheet, rows), ImagesFor(b[..n], sheet, rows),
                  if Matches(b[n].0, sheet, rows) then b[n].1 else []);
    }
  }

  /** One more `setdefault(...).append(path)` adds `path` to a record's images exactly when its key matches. */
  lemma AppendAtImages(d: ImageMap, k: Key, path: string, sheet: string, rows: seq<int>)
    ensures multiset(ImagesFor(AppendAt(d, k, path), sheet, rows))
            == multiset(ImagesFor(d, sheet, rows)) + (if Matches(k, sheet, rows) then multiset{path} else multiset{})
  {
    var v := Get(d, k).GetOr([]) + [path];
    if Get(d, k).None? {
      GetMissing(d, k);
      PutNew(d, k, v);
      assert v == [path];
      assert (d + [(k, v)])[..|d|] == d;
    } else {
      var i := FirstHolder(d, k);
      PutAt(d, i, k, v);
      var a, b := d[..i], d[i + 1..];
      assert d == a + [d[i]] + b;
      ImagesForConcat(a + [d[i]], b, sheet, rows);
      ImagesForConcat(a, [d[i]], sheet, rows);
      ImagesForConcat(a + [(k, v)], b, sheet, rows);
      ImagesForConcat(a, [(k, v)], sheet, rows);
      assert ImagesFor([d[i]], sheet, rows) == if Matches(k, sheet, rows) then d[i].1 else [];
      assert ImagesFor([(k, v)], sheet, rows) == if Matches(k, sheet, rows) then v else [];
    }
  }

  /**
   * A record collects, counted with multiplicity, exactly the paths the
   * scan registered for its sheet at one of its rows; only their order
   * (`image_map` order rather than scan order) may differ.
   */
  lemma {:induction false} ImagesOfRegistry(rs: seq<Registration>, sheet: string, rows: seq<int>)
    ensures multiset(ImagesFor(Registry(rs), sheet, rows)) == multiset(MatchingPaths(rs, sheet, rows))
  {
    if rs != [] {
      var n := |rs| - 1;
      ImagesOfRegistry(rs[..n], sheet, rows);
      AppendAtImages(Registry(rs[..n]), rs[n].key, rs[n].path, sheet, rows);
    }
  }

  lemma {:induction false} MatchingPathsMember(rs: seq<Registration>, sheet: string, rows: seq<int>, p: string)
    ensures p in MatchingPaths(rs, sheet, rows) <==> exists reg :: reg in rs && reg.path == p && Matches(reg.key, sheet, rows)
  {
    if rs != [] {
      var n := |rs| - 1;
      MatchingPathsMember(rs[..n], sheet, rows, p);
      assert rs == rs[..n] + [rs[n]];
      if exists reg :: reg in rs && reg.path == p && Matches(reg.key, sheet, rows) {
        var reg :| reg in rs && reg.path == p && Matches(reg.key, sheet, rows);
        if reg != rs[n] {
          assert reg in rs[..n];
        }
      }
    }
  }

  /**
   * A path is among a record's images exactly when some registration of
   * the scan saved it for the record's sheet at one of the record's rows;
   * an image registered only under keys no record matches is in no record.
   */
  lemma RecordImages(rs: seq<Registration>, sheet: string, rows: seq<int>, p: string)
    ensures p in ImagesFor(Registry(rs), sheet, rows) <==>
              exists reg :: reg in rs && reg.path == p && Matches(reg.key, sheet, rows)
  {
    ImagesOfRegistry(rs, sheet, rows);
    MatchingPathsMember(rs, sheet, rows, p);
    assert p in ImagesFor(Registry(rs), sheet, rows) <==> p in multiset(ImagesFor(Registry(rs), sheet, rows));
    assert p in MatchingPaths(rs, sheet, rows) <==> p in multiset(MatchingPaths(rs, sheet, rows));
  }

  // ---------------------------------------------------------------------
  // Records and their files (lines 238-252)

  /** One JSON record: the melted row without `original_row`, plus `image_urls`. */
  datatype QaRecord = QaRecord(sheet: string, category: Cell, item: Cell, no: int,
                               question: string, answer: string, imageUrls: seq<string>)

  /** The part of a file name that precedes the No. */
  function JsonPrefix(stem: string, sheet: string): string {
    stem + "_" + sheet + "_QA_"
  }

  /** The No. read back from a file name of this workbook and sheet, if it has that shape. */
  function NoOfJsonName(stem: string, sheet: string, name: string): Option<int> {
    var prefix := JsonPrefix(stem, sheet);
    if StartsWith(name, prefix) && EndsWith(name, ".json") && |prefix| <= |name| - 5
    then ParseInt(name[|prefix|..|name| - 5])
    else None
  }

  /** `f"{excel_path.stem}_{sheet}_QA_{no}.json"` */
  function JsonName(stem: string, sheet: string, no: int): string {
    JsonPrefix(stem, sheet) + DecimalString(no) + ".json"
  }

  /** The No. can be read back from a file name, between the prefix and the ".json" extension. */
  lemma JsonNameReadsBack(stem: string, sheet: string, no: int)
    ensures NoOfJsonName(stem, sheet, JsonName(stem, sheet, no)) == Some(no)
  {
    var prefix := JsonPrefix(stem, sheet);
    var digits := DecimalString(no);
    var name := JsonName(stem, sheet, no);
    ParseDecimalString(no);
    assert name[..|prefix|] == prefix;
    assert name[|name| - 5..] == ".json";
    assert name[|prefix|..|name| - 5] == digits;
  }

  /** Within one workbook and sheet, records with different No. get different files. */
  lemma JsonNameInjective(stem: string, sheet: string, a: int, b: int)
    requires JsonName(stem, sheet, a) == JsonName(stem, sheet, b)
    ensures a == b
  {
    JsonNameReadsBack(stem, sheet, a);
    JsonNameReadsBack(stem, sheet, b);
  }

  /** The record written for a melted row. */
  function RecordOf(m: ImageMap, q: QaRow): QaRecord {
    QaRecord(q.sheet, q.category, q.item, q.no, q.question, q.answer, ImagesFor(m, q.sheet, q.originalRows))
  }

  /** The files written, in order: each melted row's name and record. */
  function Outputs(stem: string, m: ImageMap, recs: seq<QaRow>): seq<(string, QaRecord)> {
    if recs == [] then []
    else
      var q := recs[|recs| - 1];
      Outputs(stem, m, recs[..|recs| - 1]) + [(JsonName(stem, q.sheet, q.no), RecordOf(m, q))]
  }

  /**
   * The loop of lines 239-252: one record per melted row, in order, each
   * written to its file; the result is the directory's files by name.
   */
  method AssembleRecords(stem: string, m: ImageMap, recs: seq<QaRow>) returns (files: Dict<string, QaRecord>)
    ensures files == FromPairs(Outputs(stem, m, recs))
  {
    files := [];
    var i := 0;
    while i < |recs|
      invariant i <= |recs|
      invariant files == FromPairs(Outputs(stem, m, recs[..i]))
    {
      var q := recs[i];
      assert recs[..i + 1][..i] == recs[..i];
      var images := CollectImages(m, q.sheet, q.originalRows);
      var record := QaRecord(q.sheet, q.category, q.item, q.no, q.question, q.answer, images);
      var jsonName := stem + "_" + q.sheet + "_QA_" + DecimalString(q.no) + ".json";
      FromPairsSnoc(Outputs(stem, m, recs[..i]), (jsonName, record));
      files := Put(files, jsonName, record);
      i := i + 1;
    }
    assert recs[..i] == recs;
  }

  /** Record `i` goes to the file named after its own sheet and No. and carries its own row's fields. */
  lemma {:induction false} OutputsMeaning(stem: string, m: ImageMap, recs: seq<QaRow>)
    ensures |Outputs(stem, m, recs)| == |recs|
    ensures forall i :: 0 <= i < |recs| ==>
              Outputs(stem, m, recs)[i] == (JsonName(stem, recs[i].sheet, recs[i].no), RecordOf(m, recs[i]))
  {
    if recs != [] {
      var n := |recs| - 1;
      var q := recs[n];
      var prev := Outputs(stem, m, recs[..n]);
      OutputsMeaning(stem, m, recs[..n]);
      assert Outputs(stem, m, recs) == prev + [(JsonName(stem, q.sheet, q.no), RecordOf(m, q))];
      forall i | 0 <= i < |recs|
        ensures Outputs(stem, m, recs)[i] == (JsonName(stem, recs[i].sheet, recs[i].no), RecordOf(m, recs[i]))
      {
        if i < n {
          assert recs[..n][i] == recs[i];
        }
      }
    }
  }

  /**
   * The directory after the loop: writing a file replaces any earlier file of
   * the same name, so a name holds the record of the last melted row written
   * under it, and no file is written for a name no row produces.
   */
  lemma WrittenFiles(stem: string, m: ImageMap, recs: seq<QaRow>, name: string)
    ensures Get(FromPairs(Outputs(stem, m, recs)), name).None? <==>
              forall i :: 0 <= i < |recs| ==> JsonName(stem, recs[i].sheet, recs[i].no) != name
    ensures Get(FromPairs(Outputs(stem, m, recs)), name).Some? ==>
              exists i :: 0 <= i < |recs| && JsonName(stem, recs[i].sheet, recs[i].no) == name
                && Get(FromPairs(Outputs(stem, m, recs)), name).value == RecordOf(m, recs[i])
                && forall j :: i < j < |recs| ==> JsonName(stem, recs[j].sheet, recs[j].no) != name
  {
    var out := Outputs(stem, m, recs);
    OutputsMeaning(stem, m, recs);
    GetFromPairs(out, name);
    LastValueFound(out, name);
    if Get(FromPairs(out), name).None? {
      forall i | 0 <= i < |recs|
        ensures JsonName(stem, recs[i].sheet, recs[i].no) != name
      {
        assert out[i] in out;
      }
    } else {
      var i := LastValueSource(out, name);
    }
  }

  // ---------------------------------------------------------------------
  // The whole script

  datatype RunError = ScanFailed(resolve: ResolveError) | MeltFailed(melt: MeltError)

  /** The script from the package and the sheets to the JSON files it leaves, by name. */
  function Pipeline(pkg: Package, stem: string, sheets: seq<Sheet>): Result<Dict<string, QaRecord>, RunError> {
    match BuildTables(pkg)
    case Err(e) => Err(ScanFailed(e))
    case Ok(t) =>
      match ImageMapOf(pkg, t)
      case Err(e) => Err(ScanFailed(e))
      case Ok(m) =>
        match Melt(ConcatSheets(sheets))
        case Err(e) => Err(MeltFailed(e))
        case Ok(recs) => Ok(FromPairs(Outputs(stem, m, recs)))
  }

  /** Lines 41-252 in order: relationship tables, anchor scan, melt, records. */
  method Run(pkg: Package, stem: string, sheets: seq<Sheet>) returns (r: Result<Dict<string, QaRecord>, RunError>)
    ensures r == Pipeline(pkg, stem, sheets)
  {
    var tables := ReadTables(pkg);
    if tables.Err? {
      return Err(ScanFailed(tables.error));
    }
    var imageMap := ScanDrawings(pkg, tables.value);
    if imageMap.Err? {
      return Err(ScanFailed(imageMap.error));
    }
    var organized := MeltMergedRows(ConcatSheets(sheets));
    if organized.Err? {
      return Err(MeltFailed(organized.error));
    }
    var files := AssembleRecords(stem, imageMap.value, organized.value);
    r := Ok(files);
  }
}
