/**
 * The anchor scan (lines 120-185): for every drawing part that belongs to a
 * sheet, every two-cell anchor whose picture resolves through the drawing's
 * own relationship part to a media part present in the archive is saved
 * under a name derived from its sheet and cell, and the saved path is
 * appended to `image_map[(sheet, row + 1)]`. Every broken link is skipped.
 */
module ImageScan {
  import opened Wrappers
  import opened PyDict
  import opened Text
  import opened ColumnCodec
  import opened Xlsx
  import opened Resolver

  /** An `image_map` key: a sheet name and a one-based row. */
  type Key = (string, int)

  /** One saved image: the key it is recorded under and the path it was saved to. */
  datatype Registration = Registration(key: Key, path: string)

  type ImageMap = Dict<Key, seq<string>>

  /** The directory images are written to, relative to the working directory. */
  const ImageDir := "json_output/image"

  /** The length of the run of capital letters that starts `s`. */
  function LetterRun(s: string): (k: nat)
    ensures k <= |s| && IsLetters(s[..k])
    ensures k < |s| ==> !('A' <= s[k] <= 'Z')
  {
    if s == [] || !('A' <= s[0] <= 'Z') then 0
    else
      var k := LetterRun(s[1..]);
      assert s[..k + 1] == [s[0]] + s[1..][..k];
      k + 1
  }

  /** Letters followed by a digit: the letter run is the letters. */
  lemma {:induction false} LetterRunOfCell(letters: string, digits: string)
    requires IsLetters(letters)
    requires digits != [] && AllDigits(digits)
    ensures LetterRun(letters + digits) == |letters|
  {
    if letters != [] {
      assert (letters + digits)[1..] == letters[1..] + digits;
      LetterRunOfCell(letters[1..], digits);
    }
  }

  /**
   * A cell reference such as "B7": column letters, then the one-based row.
   * It reads back: the leading letters decode to the column and the digits
   * after them to the row plus one.
   */
  function CellName(col: nat, row: nat): (r: string)
    ensures 0 < LetterRun(r) < |r|
    ensures Decode(r[..LetterRun(r)]) == col
    ensures AllDigits(r[LetterRun(r)..]) && DigitsValue(r[LetterRun(r)..]) == row + 1
    ensures '/' !in r
  {
    var letters := Encode(col);
    var digits := DecimalString(row + 1);
    LetterRunOfCell(letters, digits);
    DecodeEncode(col);
    assert digits == Digits(row + 1);
    DigitsValueOfDigits(row + 1);
    assert (letters + digits)[..|letters|] == letters;
    assert (letters + digits)[|letters|..] == digits;
    assert '/' !in letters && '/' !in digits;
    letters + digits
  }

  /** `f"{sheet_name}_{cell_name}_{image_file}"` */
  function SaveName(sheet: string, col: nat, row: nat, file: string): string {
    sheet + "_" + CellName(col, row) + "_" + file
  }

  /**
   * `str(image_output_dir / save_name)`: a path under the image directory
   * that ends in "_" and the media file name, and whose file name is the
   * save name when neither the sheet name nor the media file name holds a '/'.
   */
  function SavePath(sheet: string, col: nat, row: nat, file: string): (p: string)
    ensures StartsWith(p, ImageDir + "/")
    ensures EndsWith(p, "_" + file)
    ensures '/' !in sheet && '/' !in file ==> LastComponent(p) == SaveName(sheet, col, row, file)
  {
    var cell := CellName(col, row);
    var name := SaveName(sheet, col, row, file);
    assert name == (sheet + "_" + cell) + "_" + file;
    assert '/' !in sheet ==> '/' !in sheet + "_" + cell;
    JoinPathShape(ImageDir, name, sheet + "_" + cell, file);
    ImageDir + "/" + name
  }

  /** `dir/head_file` starts with `dir/`, ends with `_file`, and has file name `head_file` when that holds no '/'. */
  lemma JoinPathShape(dir: string, name: string, head: string, file: string)
    requires name == head + "_" + file
    ensures StartsWith(dir + "/" + name, dir + "/")
    ensures EndsWith(dir + "/" + name, "_" + file)
    ensures '/' !in head && '/' !in file ==> LastComponent(dir + "/" + name) == name
  {
    var p := dir + "/" + name;
    assert p[..|dir| + 1] == dir + "/";
    assert p[|p| - |file| - 1..] == "_" + file;
    if '/' !in head && '/' !in file {
      LastComponentOfJoin(dir, name);
    }
  }

  // ---------------------------------------------------------------------
  // From a drawing to its sheet (lines 125-137)

  /** The worksheet at position `j` of the workbook table records `drawing` as its drawing. */
  predicate Feeds(t: Tables, j: int, drawing: string)
    requires 0 <= j < |t.sheetFiles|
  {
    Get(t.sheetDrawings, t.sheetFiles[j].1) == Some(drawing)
  }

  predicate FirstFeeding(t: Tables, i: int, drawing: string) {
    0 <= i < |t.sheetFiles| && Feeds(t, i, drawing) && forall j :: 0 <= j < i ==> !Feeds(t, j, drawing)
  }

  /** The first position at or after `from`, in table order, whose worksheet records `drawing`. */
  function FirstFeedingFrom(t: Tables, drawing: string, from: nat): (i: Option<nat>)
    requires from <= |t.sheetFiles|
    ensures i.Some? ==>
              from <= i.value < |t.sheetFiles| && Feeds(t, i.value, drawing)
              && forall j :: from <= j < i.value ==> !Feeds(t, j, drawing)
    ensures i.None? ==> forall j :: from <= j < |t.sheetFiles| ==> !Feeds(t, j, drawing)
    decreases |t.sheetFiles| - from
  {
    if from == |t.sheetFiles| then None
    else if Feeds(t, from, drawing) then Some(from)
    else FirstFeedingFrom(t, drawing, from + 1)
  }

  /**
   * `next(sheet_id_to_name[rId] for rId, sheet_file in rId_to_sheet_file.items()
   * if sheet_to_drawing.get(sheet_file) == drawing_name)`, with None as the
   * default: the first worksheet in table order that records the drawing
   * names the sheet; an r:id that no `<sheet>` declares raises.
   */
  function SheetForDrawing(t: Tables, drawing: string): (r: Result<Option<string>, ResolveError>)
    ensures r == Ok(None) <==> forall j :: 0 <= j < |t.sheetFiles| ==> !Feeds(t, j, drawing)
    ensures r.Ok? && r.value.Some? ==>
      exists i :: FirstFeeding(t, i, drawing) && Get(t.sheetNames, t.sheetFiles[i].0) == r.value
    ensures r.Err? ==>
      exists i :: FirstFeeding(t, i, drawing) && Get(t.sheetNames, t.sheetFiles[i].0) == None
        && r.error == UnknownSheetId(t.sheetFiles[i].0)
  {
    match FirstFeedingFrom(t, drawing, 0)
    case None => Ok(None)
    case Some(i) =>
      assert FirstFeeding(t, i, drawing);
      match Get(t.sheetNames, t.sheetFiles[i].0)
      case None => Err(UnknownSheetId(t.sheetFiles[i].0))
      case Some(name) => Ok(Some(name))
  }

  // ---------------------------------------------------------------------
  // From an anchor to its image (lines 149-185)

  /** `drawing_to_rId_image.get(drawing_name, {}).get(rId)`: looked up in the drawing's own table only. */
  function ImageFile(t: Tables, drawing: string, embed: string): Option<string> {
    Get(Get(t.drawingImages, drawing).GetOr([]), embed)
  }

  /**
   * What one anchor of `drawing` on `sheet` adds to the image map: an image
   * exactly when the anchor embeds an r:id that the drawing's own table maps
   * to a non-empty media file present in the archive; it is keyed by the
   * sheet and the anchor's one-based row, and saved under the image
   * directory with the media file name at the end.
   */
  function AnchorImage(pkg: Package, t: Tables, sheet: string, drawing: string, a: Anchor): (r: Option<Registration>)
    ensures r.Some? <==>
              a.embed.Some? && ImageFile(t, drawing, a.embed.value).Some?
              && ImageFile(t, drawing, a.embed.value).value != ""
              && MediaDir + ImageFile(t, drawing, a.embed.value).value in pkg.names
    ensures r.Some? ==>
              r.value.key == (sheet, a.row + 1)
              && r.value.path == SavePath(sheet, a.col, a.row, ImageFile(t, drawing, a.embed.value).value)
  {
    if a.embed.None? then None
    else
      match ImageFile(t, drawing, a.embed.value)
      case None => None
      case Some(file) =>
        if file != "" && MediaDir + file in pkg.names
        then Some(Registration((sheet, a.row + 1), SavePath(sheet, a.col, a.row, file)))
        else None
  }

  /** The images of a run of anchors, in anchor order. */
  function AnchorRegs(pkg: Package, t: Tables, sheet: string, drawing: string, anchors: seq<Anchor>): seq<Registration> {
    if anchors == [] then []
    else
      var a := anchors[|anchors| - 1];
      AnchorRegs(pkg, t, sheet, drawing, anchors[..|anchors| - 1])
        + match AnchorImage(pkg, t, sheet, drawing, a) case Some(reg) => [reg] case None => []
  }

  /** The images of one part: none unless it is a drawing part that belongs to a named sheet. */
  function DrawingRegs(pkg: Package, t: Tables, part: string): Result<seq<Registration>, ResolveError> {
    if !IsDrawingPart(part) then Ok([])
    else
      var drawing := LastComponent(part);
      match SheetForDrawing(t, drawing)
      case Err(e) => Err(e)
      case Ok(None) => Ok([])
      case Ok(Some(sheet)) =>
        if sheet == "" then Ok([]) else Ok(AnchorRegs(pkg, t, sheet, drawing, pkg.anchors(part)))
  }

  /** The images of all `parts`, in scan order; the first failing part ends the scan. */
  function ScanRegs(pkg: Package, t: Tables, parts: seq<string>): Result<seq<Registration>, ResolveError> {
    if parts == [] then Ok([])
    else
      match ScanRegs(pkg, t, parts[..|parts| - 1])
      case Err(e) => Err(e)
      case Ok(prev) =>
        match DrawingRegs(pkg, t, parts[|parts| - 1])
        case Err(e) => Err(e)
        case Ok(rs) => Ok(prev + rs)
  }

  /** `image_map` after recording the registrations `rs` one by one. */
  function Registry(rs: seq<Registration>): ImageMap {
    if rs == [] then []
    else AppendAt(Registry(rs[..|rs| - 1]), rs[|rs| - 1].key, rs[|rs| - 1].path)
  }

  /** The scan's result: `image_map`, or the error that aborted the scan. */
  function ImageMapOf(pkg: Package, t: Tables): Result<ImageMap, ResolveError> {
    match ScanRegs(pkg, t, pkg.names)
    case Err(e) => Err(e)
    case Ok(rs) => Ok(Registry(rs))
  }

  /** The paths registered under `k`, in registration order. */
  function PathsAt(rs: seq<Registration>, k: Key): seq<string> {
    if rs == [] then []
    else PathsAt(rs[..|rs| - 1], k) + (if rs[|rs| - 1].key == k then [rs[|rs| - 1].path] else [])
  }

  // ---------------------------------------------------------------------
  // Properties

  /**
   * `image_map` lists, under each key, exactly the paths registered with
   * that key, in scan order, and has no entry for a key nothing was
   * registered under.
   */
  lemma {:induction false} RegistryContents(rs: seq<Registration>, k: Key)
    ensures Get(Registry(rs), k) == (if PathsAt(rs, k) == [] then None else Some(PathsAt(rs, k)))
  {
    if rs != [] {
      var init, last := rs[..|rs| - 1], rs[|rs| - 1];
      RegistryContents(init, k);
      assert Registry(rs) == AppendAt(Registry(init), last.key, last.path);
      if last.key == k {
        assert PathsAt(rs, k) == PathsAt(init, k) + [last.path];
      } else {
        assert PathsAt(rs, k) == PathsAt(init, k);
      }
    }
  }

  /**
   * An anchor adds an image only through a relationship of type image, with
   * the anchor's embed id, declared in a relationship part that the anchor's
   * own drawing owns, whose target file is present under xl/media/; it is
   * recorded under its sheet and one-based row.
   */
  lemma AnchorImageResolves(pkg: Package, t: Tables, sheet: string, drawing: string, a: Anchor)
    requires t.drawingImages == DrawingImages(pkg)
    requires AnchorImage(pkg, t, sheet, drawing, a).Some?
    ensures a.embed.Some?
    ensures exists f, r ::
              && f in pkg.names && IsDrawingRels(f) && RelsOwner(f) == drawing
              && r in pkg.rels(f) && OfKind(r, ImageKind) && r.id == a.embed.value
              && LastComponent(r.target) != "" && MediaDir + LastComponent(r.target) in pkg.names
              && AnchorImage(pkg, t, sheet, drawing, a).value
                 == Registration((sheet, a.row + 1), SavePath(sheet, a.col, a.row, LastComponent(r.target)))
  {
    var e := a.embed.value;
    var file := ImageFile(t, drawing, e).value;
    var reg := AnchorImage(pkg, t, sheet, drawing, a).value;
    assert reg == Registration((sheet, a.row + 1), SavePath(sheet, a.col, a.row, file));
    var table := Get(t.drawingImages, drawing);
    assert table.Some?;
    var f := DrawingTableSource(pkg, drawing);
    KindTableLookup(pkg.rels(f), ImageKind, e);
    assert Get(KindTable(pkg.rels(f), ImageKind), e) == Some(file);
    var r :| r in pkg.rels(f) && OfKind(r, ImageKind) && r.id == e && LastComponent(r.target) == file;
    assert file != "" && MediaDir + file in pkg.names;
  }

  /** The relationship part a drawing's embed-id table was read from. */
  lemma DrawingTableSource(pkg: Package, drawing: string) returns (f: string)
    requires Get(DrawingImages(pkg), drawing).Some?
    ensures f in pkg.names && IsDrawingRels(f) && RelsOwner(f) == drawing
    ensures Get(DrawingImages(pkg), drawing).value == KindTable(pkg.rels(f), ImageKind)
  {
    DrawingImagesLookup(pkg, pkg.names, drawing);
    var i :| 0 <= i < |pkg.names| && DrawingRelsOf(pkg.names, i, drawing)
      && Get(DrawingImages(pkg), drawing).value == KindTable(pkg.rels(pkg.names[i]), ImageKind);
    f := pkg.names[i];
  }

  /**
   * Relationship ids are scoped to their drawing: what an anchor of
   * `drawing` resolves to is the same in two packages that list the same
   * parts and agree on the relationship parts `drawing` owns, however the
   * other drawings' relationship parts reuse its ids.
   */
  lemma AnchorImageScoped(p: Package, q: Package, tp: Tables, tq: Tables, sheet: string, drawing: string, a: Anchor)
    requires p.names == q.names
    requires forall f :: f in p.names && IsDrawingRels(f) && RelsOwner(f) == drawing ==> p.rels(f) == q.rels(f)
    requires tp.drawingImages == DrawingImages(p) && tq.drawingImages == DrawingImages(q)
    ensures AnchorImage(p, tp, sheet, drawing, a) == AnchorImage(q, tq, sheet, drawing, a)
  {
    EmbedIdsScoped(p, q, p.names, drawing);
  }

  /** A drawing that owns no relationship part resolves none of its anchors. */
  lemma NoRelsNoImages(pkg: Package, t: Tables, sheet: string, drawing: string, a: Anchor)
    requires t.drawingImages == DrawingImages(pkg)
    requires forall f :: f in pkg.names && IsDrawingRels(f) ==> RelsOwner(f) != drawing
    ensures AnchorImage(pkg, t, sheet, drawing, a) == None
  {
    DrawingImagesLookup(pkg, pkg.names, drawing);
    assert forall i :: 0 <= i < |pkg.names| ==> !DrawingRelsOf(pkg.names, i, drawing) by {
      forall i | 0 <= i < |pkg.names| ensures !DrawingRelsOf(pkg.names, i, drawing) {
        assert pkg.names[i] in pkg.names;
      }
    }
  }

  /** A drawing's anchors record an image exactly when one of them resolves to it. */
  lemma {:induction false} AnchorRegsMember(pkg: Package, t: Tables, sheet: string, drawing: string, anchors: seq<Anchor>, reg: Registration)
    ensures reg in AnchorRegs(pkg, t, sheet, drawing, anchors)
            <==> exists a :: a in anchors && AnchorImage(pkg, t, sheet, drawing, a) == Some(reg)
  {
    if reg in AnchorRegs(pkg, t, sheet, drawing, anchors) {
      AnchorRegsSource(pkg, t, sheet, drawing, anchors, reg);
    }
    if exists a :: a in anchors && AnchorImage(pkg, t, sheet, drawing, a) == Some(reg) {
      var a :| a in anchors && AnchorImage(pkg, t, sheet, drawing, a) == Some(reg);
      var i :| 0 <= i < |anchors| && anchors[i] == a;
      AnchorRegsComplete(pkg, t, sheet, drawing, anchors, i, reg);
    }
  }

  lemma {:induction false} AnchorRegsSource(pkg: Package, t: Tables, sheet: string, drawing: string, anchors: seq<Anchor>, reg: Registration)
    requires reg in AnchorRegs(pkg, t, sheet, drawing, anchors)
    ensures exists a :: a in anchors && AnchorImage(pkg, t, sheet, drawing, a) == Some(reg)
  {
    var n := |anchors| - 1;
    if reg !in AnchorRegs(pkg, t, sheet, drawing, anchors[..n]) {
      assert AnchorImage(pkg, t, sheet, drawing, anchors[n]) == Some(reg);
    } else {
      AnchorRegsSource(pkg, t, sheet, drawing, anchors[..n], reg);
      var a :| a in anchors[..n] && AnchorImage(pkg, t, sheet, drawing, a) == Some(reg);
      assert a in anchors;
    }
  }

  lemma {:induction false} AnchorRegsComplete(pkg: Package, t: Tables, sheet: string, drawing: string, anchors: seq<Anchor>, i: nat, reg: Registration)
    requires i < |anchors| && AnchorImage(pkg, t, sheet, drawing, anchors[i]) == Some(reg)
    ensures reg in AnchorRegs(pkg, t, sheet, drawing, anchors)
  {
    var n := |anchors| - 1;
    var prev := AnchorRegs(pkg, t, sheet, drawing, anchors[..n]);
    if i == n {
      assert AnchorRegs(pkg, t, sheet, drawing, anchors) == prev + [reg];
    } else {
      assert anchors[..n][i] == anchors[i];
      AnchorRegsComplete(pkg, t, sheet, drawing, anchors[..n], i, reg);
      assert reg in prev;
    }
  }


  /**
   * A scan that succeeds records an image exactly when some anchor of a
   * drawing part that the archive lists, and that belongs to a sheet with a
   * non-empty name, resolves to it.
   */
  lemma {:induction false} ScanRegsMember(pkg: Package, t: Tables, parts: seq<string>, reg: Registration)
    requires ScanRegs(pkg, t, parts).Ok?
    ensures reg in ScanRegs(pkg, t, parts).value <==>
            exists part, sheet, a ::
              && part in parts && IsDrawingPart(part)
              && SheetForDrawing(t, LastComponent(part)) == Ok(Some(sheet)) && sheet != ""
              && a in pkg.anchors(part) && AnchorImage(pkg, t, sheet, LastComponent(part), a) == Some(reg)
  {
    if reg in ScanRegs(pkg, t, parts).value {
      ScanRegsSource(pkg, t, parts, reg);
    }
    if exists part, sheet, a ::
         && part in parts && IsDrawingPart(part)
         && SheetForDrawing(t, LastComponent(part)) == Ok(Some(sheet)) && sheet != ""
         && a in pkg.anchors(part) && AnchorImage(pkg, t, sheet, LastComponent(part), a) == Some(reg)
    {
      var part, sheet, a :| part in parts && IsDrawingPart(part)
        && SheetForDrawing(t, LastComponent(part)) == Ok(Some(sheet)) && sheet != ""
        && a in pkg.anchors(part) && AnchorImage(pkg, t, sheet, LastComponent(part), a) == Some(reg);
      var i :| 0 <= i < |pkg.anchors(part)| && pkg.anchors(part)[i] == a;
      AnchorRegsComplete(pkg, t, sheet, LastComponent(part), pkg.anchors(part), i, reg);
      assert DrawingRegs(pkg, t, part) == Ok(AnchorRegs(pkg, t, sheet, LastComponent(part), pkg.anchors(part)));
      ScanRegsComplete(pkg, t, parts, part, reg);
    }
  }

  lemma {:induction false} ScanRegsSource(pkg: Package, t: Tables, parts: seq<string>, reg: Registration)
    requires ScanRegs(pkg, t, parts).Ok? && reg in ScanRegs(pkg, t, parts).value
    ensures exists part, sheet, a ::
              && part in parts && IsDrawingPart(part)
              && SheetForDrawing(t, LastComponent(part)) == Ok(Some(sheet)) && sheet != ""
              && a in pkg.anchors(part) && AnchorImage(pkg, t, sheet, LastComponent(part), a) == Some(reg)
  {
    var n := |parts| - 1;
    var prev := ScanRegs(pkg, t, parts[..n]).value;
    var part := parts[n];
    if reg in prev {
      ScanRegsSource(pkg, t, parts[..n], reg);
      var part', sheet, a :| part' in parts[..n] && IsDrawingPart(part')
        && SheetForDrawing(t, LastComponent(part')) == Ok(Some(sheet)) && sheet != ""
        && a in pkg.anchors(part') && AnchorImage(pkg, t, sheet, LastComponent(part'), a) == Some(reg);
      assert part' in parts;
    } else {
      var sheet := SheetForDrawing(t, LastComponent(part)).value.value;
      AnchorRegsSource(pkg, t, sheet, LastComponent(part), pkg.anchors(part), reg);
    }
  }

  /** What a listed part registers is in the scan's result. */
  lemma {:induction false} ScanRegsComplete(pkg: Package, t: Tables, parts: seq<string>, part: string, reg: Registration)
    requires ScanRegs(pkg, t, parts).Ok? && part in parts
    requires DrawingRegs(pkg, t, part).Ok? && reg in DrawingRegs(pkg, t, part).value
    ensures reg in ScanRegs(pkg, t, parts).value
  {
    var n := |parts| - 1;
    if part != parts[n] {
      assert parts == parts[..n] + [parts[n]];
      assert part in parts[..n];
      ScanRegsComplete(pkg, t, parts[..n], part, reg);
    }
  }

  /** Once a part has failed, the scan of any longer listing fails the same way. */
  lemma {:induction false} ScanErrorSticks(pkg: Package, t: Tables, parts: seq<string>, n: nat)
    requires n <= |parts| && ScanRegs(pkg, t, parts[..n]).Err?
    ensures ScanRegs(pkg, t, parts) == ScanRegs(pkg, t, parts[..n])
    decreases |parts| - n
  {
    if n < |parts| {
      assert parts[..n + 1][..n] == parts[..n];
      ScanErrorSticks(pkg, t, parts, n + 1);
    } else {
      assert parts[..n] == parts;
    }
  }

  lemma AnchorRegsSnoc(pkg: Package, t: Tables, sheet: string, drawing: string, anchors: seq<Anchor>, j: nat)
    requires j < |anchors|
    ensures AnchorRegs(pkg, t, sheet, drawing, anchors[..j + 1]) == AnchorRegs(pkg, t, sheet, drawing, anchors[..j])
      + (match AnchorImage(pkg, t, sheet, drawing, anchors[j]) case Some(reg) => [reg] case None => [])
  {
    assert anchors[..j + 1][..j] == anchors[..j];
  }

  lemma ScanRegsSnoc(pkg: Package, t: Tables, parts: seq<string>, i: nat)
    requires i < |parts|
    ensures ScanRegs(pkg, t, parts[..i + 1]) ==
      (match ScanRegs(pkg, t, parts[..i])
       case Err(e) => Err(e)
       case Ok(prev) =>
         match DrawingRegs(pkg, t, parts[i])
         case Err(e) => Err(e)
         case Ok(rs) => Ok(prev + rs))
  {
    assert parts[..i + 1][..i] == parts[..i];
  }

  /** What one more anchor does to the image map. */
  lemma RecordStep(pkg: Package, t: Tables, sheet: string, drawing: string, anchors: seq<Anchor>, j: nat, regs: seq<Registration>)
    requires j < |anchors|
    ensures Registry(regs + AnchorRegs(pkg, t, sheet, drawing, anchors[..j + 1])) ==
      (var m := Registry(regs + AnchorRegs(pkg, t, sheet, drawing, anchors[..j]));
       match AnchorImage(pkg, t, sheet, drawing, anchors[j])
       case None => m
       case Some(reg) => AppendAt(m, reg.key, reg.path))
  {
    var before := regs + AnchorRegs(pkg, t, sheet, drawing, anchors[..j]);
    AnchorRegsSnoc(pkg, t, sheet, drawing, anchors, j);
    match AnchorImage(pkg, t, sheet, drawing, anchors[j])
    case None =>
      assert regs + AnchorRegs(pkg, t, sheet, drawing, anchors[..j + 1]) == before;
    case Some(reg) =>
      assert regs + AnchorRegs(pkg, t, sheet, drawing, anchors[..j + 1]) == before + [reg];
      RegistrySnoc(before, reg);
  }

  lemma RegistrySnoc(rs: seq<Registration>, reg: Registration)
    ensures Registry(rs + [reg]) == AppendAt(Registry(rs), reg.key, reg.path)
  {
    assert (rs + [reg])[..|rs|] == rs;
  }

  // ---------------------------------------------------------------------
  // The scan itself

  /** Lines 152-185: one anchor, recorded when its picture resolves and is present. */
  method RecordAnchor(pkg: Package, t: Tables, sheet: string, drawing: string, a: Anchor, imageMap: ImageMap)
    returns (out: ImageMap)
    ensures out == (match AnchorImage(pkg, t, sheet, drawing, a)
                    case None => imageMap
                    case Some(reg) => AppendAt(imageMap, reg.key, reg.path))
  {
    out := imageMap;
    var letters := ColumnLetters(a.col);
    var cellName := letters + DecimalString(a.row + 1);
    if a.embed.Some? {
      var file := ImageFile(t, drawing, a.embed.value);
      if file.Some? && file.value != "" && MediaDir + file.value in pkg.names {
        var saveName := sheet + "_" + cellName + "_" + file.value;
        var savePath := ImageDir + "/" + saveName;
        assert savePath == SavePath(sheet, a.col, a.row, file.value);
        out := AppendAt(out, (sheet, a.row + 1), savePath);
      }
    }
  }

  /** Lines 149-185: the anchors of one drawing part that belongs to `sheet`. */
  method RecordAnchors(pkg: Package, t: Tables, sheet: string, drawing: string, anchors: seq<Anchor>,
                       imageMap: ImageMap, ghost regs: seq<Registration>)
    returns (out: ImageMap)
    requires imageMap == Registry(regs)
    ensures out == Registry(regs + AnchorRegs(pkg, t, sheet, drawing, anchors))
  {
    out := imageMap;
    var j := 0;
    assert anchors[..0] == [] && regs + [] == regs;
    while j < |anchors|
      invariant 0 <= j <= |anchors|
      invariant out == Registry(regs + AnchorRegs(pkg, t, sheet, drawing, anchors[..j]))
    {
      RecordStep(pkg, t, sheet, drawing, anchors, j, regs);
      out := RecordAnchor(pkg, t, sheet, drawing, anchors[j], out);
      j := j + 1;
    }
    assert anchors[..j] == anchors;
  }

  /**
   * Lines 120-148 for one part of the listing: a drawing part that belongs
   * to a named sheet has its anchors recorded; any other part adds nothing.
   */
  method ScanPart(pkg: Package, t: Tables, part: string, imageMap: ImageMap, ghost regs: seq<Registration>)
    returns (r: Result<ImageMap, ResolveError>)
    requires imageMap == Registry(regs)
    ensures DrawingRegs(pkg, t, part).Err? ==> r == Err(DrawingRegs(pkg, t, part).error)
    ensures DrawingRegs(pkg, t, part).Ok? ==> r == Ok(Registry(regs + DrawingRegs(pkg, t, part).value))
  {
    assert regs + [] == regs;
    if StartsWith(part, DrawingPartPrefix) && EndsWith(part, XmlSuffix) {
      var drawing := LastComponent(part);
      var found := SheetForDrawing(t, drawing);
      if found.Err? {
        return Err(found.error);
      }
      if found.value.Some? && found.value.value != "" {
        var m := RecordAnchors(pkg, t, found.value.value, drawing, pkg.anchors(part), imageMap, regs);
        return Ok(m);
      }
    }
    return Ok(imageMap);
  }

  /** Lines 120-185: every drawing part in listing order. */
  method ScanDrawings(pkg: Package, t: Tables) returns (r: Result<ImageMap, ResolveError>)
    ensures r == ImageMapOf(pkg, t)
  {
    var imageMap: ImageMap := [];
    ghost var regs: seq<Registration> := [];
    var i := 0;
    assert pkg.names[..0] == [];
    while i < |pkg.names|
      invariant 0 <= i <= |pkg.names|
      invariant ScanRegs(pkg, t, pkg.names[..i]) == Ok(regs)
      invariant imageMap == Registry(regs)
    {
      ScanRegsSnoc(pkg, t, pkg.names, i);
      var step := ScanPart(pkg, t, pkg.names[i], imageMap, regs);
      if step.Err? {
        ScanErrorSticks(pkg, t, pkg.names, i + 1);
        return Err(step.error);
      }
      imageMap := step.value;
      regs := regs + DrawingRegs(pkg, t, pkg.names[i]).value;
      i := i + 1;
    }
    assert pkg.names[..i] == pkg.names;
    r := Ok(imageMap);
  }
}
