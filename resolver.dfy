/**
 * The four lookup tables the script builds from the package before it looks
 * at any drawing, each as a Python dict:
 *   sheet_id_to_name      workbook r:id          -> sheet name
 *   rId_to_sheet_file     workbook relationship  -> worksheet file name
 *   sheet_to_drawing      worksheet file name    -> drawing file name
 *   drawing_to_rId_image  drawing file name      -> (embed id -> media file name)
 * Relationship ids are local to the relationship part that declares them,
 * so the image table keeps one inner table per drawing.
 */
module Resolver {
  import opened Wrappers
  import opened PyDict
  import opened Text
  import opened Xlsx

  // ---------------------------------------------------------------------
  // Specification functions

  /** (r:id, name) for each `<sheet>`, in document order. */
  function SheetNamePairs(decls: seq<SheetDecl>): (ps: seq<(string, string)>)
    ensures |ps| == |decls|
    ensures forall i :: 0 <= i < |decls| ==> ps[i] == (decls[i].rid, decls[i].name)
  {
    if decls == [] then []
    else SheetNamePairs(decls[..|decls| - 1]) + [(decls[|decls| - 1].rid, decls[|decls| - 1].name)]
  }

  function SheetNames(decls: seq<SheetDecl>): Dict<string, string> {
    FromPairs(SheetNamePairs(decls))
  }

  predicate OfKind(r: Relationship, kind: string) {
    EndsWith(r.relType, kind)
  }

  /** (Id, last component of Target) for each relationship of the given kind, in document order. */
  function KindEdges(rels: seq<Relationship>, kind: string): seq<(string, string)> {
    if rels == [] then []
    else
      var r := rels[|rels| - 1];
      KindEdges(rels[..|rels| - 1], kind) + (if OfKind(r, kind) then [(r.id, LastComponent(r.target))] else [])
  }

  /** The id -> file table of one relationship part, keeping relationships of one kind. */
  function KindTable(rels: seq<Relationship>, kind: string): Dict<string, string> {
    FromPairs(KindEdges(rels, kind))
  }

  function SheetFiles(workbookRels: seq<Relationship>): Dict<string, string> {
    KindTable(workbookRels, WorksheetKind)
  }

  /** (owner, last component of Target) for each drawing relationship of one worksheet's part. */
  function OwnerEdges(owner: string, rels: seq<Relationship>): seq<(string, string)> {
    if rels == [] then []
    else
      var r := rels[|rels| - 1];
      OwnerEdges(owner, rels[..|rels| - 1]) + (if OfKind(r, DrawingKind) then [(owner, LastComponent(r.target))] else [])
  }

  /** The drawing edges of every worksheet relationship part among `files`, in listing order. */
  function SheetDrawingEdges(pkg: Package, files: seq<string>): seq<(string, string)> {
    if files == [] then []
    else
      var f := files[|files| - 1];
      SheetDrawingEdges(pkg, files[..|files| - 1]) + (if IsSheetRels(f) then OwnerEdges(RelsOwner(f), pkg.rels(f)) else [])
  }

  function SheetDrawings(pkg: Package): Dict<string, string> {
    FromPairs(SheetDrawingEdges(pkg, pkg.names))
  }

  /** One inner embed-id table per drawing relationship part among `files`, keyed by its owner. */
  function DrawingImagesOf(pkg: Package, files: seq<string>): Dict<string, Dict<string, string>> {
    if files == [] then []
    else
      var f := files[|files| - 1];
      var prev := DrawingImagesOf(pkg, files[..|files| - 1]);
      if IsDrawingRels(f) then Put(prev, RelsOwner(f), KindTable(pkg.rels(f), ImageKind)) else prev
  }

  function DrawingImages(pkg: Package): Dict<string, Dict<string, string>> {
    DrawingImagesOf(pkg, pkg.names)
  }

  /** The four tables, once the workbook and its relationship part are known to be there. */
  datatype Tables = Tables(
    sheetNames: Dict<string, string>,
    sheetFiles: Dict<string, string>,
    sheetDrawings: Dict<string, string>,
    drawingImages: Dict<string, Dict<string, string>>)

  function BuildTables(pkg: Package): Result<Tables, ResolveError> {
    if WorkbookPart !in pkg.names then Err(MissingPart(WorkbookPart))
    else if WorkbookRelsPart !in pkg.names then Err(MissingPart(WorkbookRelsPart))
    else Ok(Tables(SheetNames(pkg.sheets), SheetFiles(pkg.rels(WorkbookRelsPart)), SheetDrawings(pkg), DrawingImages(pkg)))
  }

  // ---------------------------------------------------------------------
  // What the tables hold

  lemma {:induction false} KindEdgeMember(rels: seq<Relationship>, kind: string, p: (string, string))
    ensures p in KindEdges(rels, kind) <==> exists r :: r in rels && OfKind(r, kind) && p == (r.id, LastComponent(r.target))
  {
    if rels != [] {
      var n := |rels| - 1;
      KindEdgeMember(rels[..n], kind, p);
      assert rels == rels[..n] + [rels[n]];
    }
  }

  lemma {:induction false} OwnerEdgeMember(owner: string, rels: seq<Relationship>, p: (string, string))
    ensures p in OwnerEdges(owner, rels) <==> exists r :: r in rels && OfKind(r, DrawingKind) && p == (owner, LastComponent(r.target))
  {
    if rels != [] {
      var n := |rels| - 1;
      OwnerEdgeMember(owner, rels[..n], p);
      assert rels == rels[..n] + [rels[n]];
    }
  }

  lemma {:induction false} SheetDrawingEdgeMember(pkg: Package, files: seq<string>, p: (string, string))
    ensures p in SheetDrawingEdges(pkg, files) <==>
      exists f, r :: f in files && IsSheetRels(f) && r in pkg.rels(f) && OfKind(r, DrawingKind)
        && p == (RelsOwner(f), LastComponent(r.target))
  {
    if files != [] {
      var n := |files| - 1;
      var f := files[n];
      SheetDrawingEdgeMember(pkg, files[..n], p);
      assert files == files[..n] + [f];
      if IsSheetRels(f) {
        OwnerEdgeMember(RelsOwner(f), pkg.rels(f), p);
      }
    }
  }

  /** A sheet's name is the one its last `<sheet>` with that r:id gives, and only declared ids have one. */
  lemma SheetNameLookup(decls: seq<SheetDecl>, rid: string)
    ensures Get(SheetNames(decls), rid).Some? ==> SheetDecl(rid, Get(SheetNames(decls), rid).value) in decls
    ensures Get(SheetNames(decls), rid).None? <==> forall d :: d in decls ==> d.rid != rid
  {
    var ps := SheetNamePairs(decls);
    GetFromPairs(ps, rid);
    LastValueFound(ps, rid);
    if Get(SheetNames(decls), rid).Some? {
      var i :| 0 <= i < |ps| && ps[i] == (rid, Get(SheetNames(decls), rid).value);
      assert decls[i] == SheetDecl(rid, Get(SheetNames(decls), rid).value);
    }
    forall d | d in decls && d.rid == rid ensures Get(SheetNames(decls), rid).Some? {
      var i :| 0 <= i < |decls| && decls[i] == d;
      assert ps[i] in ps;
    }
  }

  /**
   * A table keeps only relationships of its kind, stores each target by its
   * last path component, and has an entry for exactly the ids that some
   * relationship of that kind declares.
   */
  lemma KindTableLookup(rels: seq<Relationship>, kind: string, id: string)
    ensures Get(KindTable(rels, kind), id).Some? ==>
      exists r :: r in rels && OfKind(r, kind) && r.id == id && LastComponent(r.target) == Get(KindTable(rels, kind), id).value
    ensures Get(KindTable(rels, kind), id).None? <==> forall r :: r in rels && OfKind(r, kind) ==> r.id != id
  {
    var ps := KindEdges(rels, kind);
    GetFromPairs(ps, id);
    LastValueFound(ps, id);
    var v := Get(KindTable(rels, kind), id);
    if v.Some? {
      KindEdgeMember(rels, kind, (id, v.value));
    }
    forall r | r in rels && OfKind(r, kind) && r.id == id ensures v.Some? {
      KindEdgeMember(rels, kind, (r.id, LastComponent(r.target)));
    }
  }

  /**
   * A worksheet file is mapped to a drawing only by a drawing relationship in
   * a worksheet relationship part that the file owns; a worksheet without one
   * has no entry.
   */
  lemma SheetDrawingLookup(pkg: Package, sheetFile: string)
    ensures Get(SheetDrawings(pkg), sheetFile).Some? ==>
      exists f, r :: f in pkg.names && IsSheetRels(f) && RelsOwner(f) == sheetFile && r in pkg.rels(f)
        && OfKind(r, DrawingKind) && LastComponent(r.target) == Get(SheetDrawings(pkg), sheetFile).value
    ensures Get(SheetDrawings(pkg), sheetFile).None? <==>
      forall f, r :: f in pkg.names && IsSheetRels(f) && r in pkg.rels(f) && OfKind(r, DrawingKind) ==> RelsOwner(f) != sheetFile
  {
    var ps := SheetDrawingEdges(pkg, pkg.names);
    GetFromPairs(ps, sheetFile);
    LastValueFound(ps, sheetFile);
    var v := Get(SheetDrawings(pkg), sheetFile);
    if v.Some? {
      SheetDrawingEdgeMember(pkg, pkg.names, (sheetFile, v.value));
    }
    forall f, r | f in pkg.names && IsSheetRels(f) && r in pkg.rels(f) && OfKind(r, DrawingKind) && RelsOwner(f) == sheetFile
      ensures v.Some?
    {
      SheetDrawingEdgeMember(pkg, pkg.names, (RelsOwner(f), LastComponent(r.target)));
    }
  }

  predicate DrawingRelsOf(files: seq<string>, i: int, drawing: string)
    requires 0 <= i < |files|
  {
    IsDrawingRels(files[i]) && RelsOwner(files[i]) == drawing
  }

  /**
   * A drawing's embed-id table is built from the last listed drawing
   * relationship part that the drawing owns, and from no other part; a
   * drawing that owns none has no table.
   */
  lemma {:induction false} DrawingImagesLookup(pkg: Package, files: seq<string>, drawing: string)
    ensures Get(DrawingImagesOf(pkg, files), drawing).None? <==> forall i :: 0 <= i < |files| ==> !DrawingRelsOf(files, i, drawing)
    ensures Get(DrawingImagesOf(pkg, files), drawing).Some? ==>
      exists i :: 0 <= i < |files| && DrawingRelsOf(files, i, drawing)
        && Get(DrawingImagesOf(pkg, files), drawing).value == KindTable(pkg.rels(files[i]), ImageKind)
        && forall j :: i < j < |files| ==> !DrawingRelsOf(files, j, drawing)
  {
    DrawingImagesAbsent(pkg, files, drawing);
    if Get(DrawingImagesOf(pkg, files), drawing).Some? {
      var i := DrawingImagesSource(pkg, files, drawing);
    }
  }

  /** What the last listed part does to the table of `drawing`. */
  lemma DrawingImagesSnoc(pkg: Package, files: seq<string>, drawing: string)
    requires files != []
    ensures (var n := |files| - 1;
             Get(DrawingImagesOf(pkg, files), drawing) ==
               (if DrawingRelsOf(files, n, drawing) then Some(KindTable(pkg.rels(files[n]), ImageKind))
                else Get(DrawingImagesOf(pkg, files[..n]), drawing)))
    ensures forall i :: 0 <= i < |files| - 1 ==> files[..|files| - 1][i] == files[i]
  {
  }

  lemma {:induction false} DrawingImagesAbsent(pkg: Package, files: seq<string>, drawing: string)
    ensures Get(DrawingImagesOf(pkg, files), drawing).None? <==> forall i :: 0 <= i < |files| ==> !DrawingRelsOf(files, i, drawing)
  {
    if files != [] {
      var n := |files| - 1;
      DrawingImagesAbsent(pkg, files[..n], drawing);
      DrawingImagesSnoc(pkg, files, drawing);
      assert forall i :: 0 <= i < n ==> DrawingRelsOf(files, i, drawing) == DrawingRelsOf(files[..n], i, drawing);
    }
  }

  /** The position of the part a drawing's table was read from. */
  lemma {:induction false} DrawingImagesSource(pkg: Package, files: seq<string>, drawing: string) returns (i: nat)
    requires Get(DrawingImagesOf(pkg, files), drawing).Some?
    ensures i < |files| && DrawingRelsOf(files, i, drawing)
    ensures Get(DrawingImagesOf(pkg, files), drawing).value == KindTable(pkg.rels(files[i]), ImageKind)
    ensures forall j :: i < j < |files| ==> !DrawingRelsOf(files, j, drawing)
  {
    var n := |files| - 1;
    var init := files[..n];
    DrawingImagesSnoc(pkg, files, drawing);
    if DrawingRelsOf(files, n, drawing) {
      i := n;
    } else {
      i := DrawingImagesSource(pkg, init, drawing);
      assert DrawingRelsOf(files, i, drawing);
      forall j | i < j < |files| ensures !DrawingRelsOf(files, j, drawing) {
        if j < n {
          assert !DrawingRelsOf(init, j, drawing);
        }
      }
    }
  }

  /**
   * Embed ids are scoped to their drawing: two packages whose drawing
   * relationship parts owned by `drawing` say the same give `drawing` the
   * same table, whatever every other relationship part says.
   */
  lemma {:induction false} EmbedIdsScoped(p: Package, q: Package, files: seq<string>, drawing: string)
    requires forall f :: f in files && IsDrawingRels(f) && RelsOwner(f) == drawing ==> p.rels(f) == q.rels(f)
    ensures Get(DrawingImagesOf(p, files), drawing) == Get(DrawingImagesOf(q, files), drawing)
  {
    if files != [] {
      var n := |files| - 1;
      assert forall f :: f in files[..n] ==> f in files;
      EmbedIdsScoped(p, q, files[..n], drawing);
    }
  }

  // ---------------------------------------------------------------------
  // The loops that build the tables

  lemma KindEdgesSnoc(rels: seq<Relationship>, i: nat, kind: string)
    requires i < |rels|
    ensures KindEdges(rels[..i + 1], kind) == KindEdges(rels[..i], kind)
      + (if OfKind(rels[i], kind) then [(rels[i].id, LastComponent(rels[i].target))] else [])
  {
    assert rels[..i + 1][..i] == rels[..i];
  }

  lemma SheetDrawingEdgesSnoc(pkg: Package, files: seq<string>, i: nat)
    requires i < |files|
    ensures SheetDrawingEdges(pkg, files[..i + 1]) == SheetDrawingEdges(pkg, files[..i])
      + (if IsSheetRels(files[i]) then OwnerEdges(RelsOwner(files[i]), pkg.rels(files[i])) else [])
  {
    assert files[..i + 1][..i] == files[..i];
  }

  lemma OwnerEdgesSnoc(owner: string, rels: seq<Relationship>, j: nat)
    requires j < |rels|
    ensures OwnerEdges(owner, rels[..j + 1]) == OwnerEdges(owner, rels[..j])
      + (if OfKind(rels[j], DrawingKind) then [(owner, LastComponent(rels[j].target))] else [])
  {
    assert rels[..j + 1][..j] == rels[..j];
  }

  /** One relationship's effect on the dictionary built from `done` and the drawing edges read so far. */
  lemma OwnerDictStep(done: seq<(string, string)>, owner: string, rels: seq<Relationship>, j: nat)
    requires j < |rels|
    ensures FromPairs(done + OwnerEdges(owner, rels[..j + 1]))
      == if OfKind(rels[j], DrawingKind)
         then Put(FromPairs(done + OwnerEdges(owner, rels[..j])), owner, LastComponent(rels[j].target))
         else FromPairs(done + OwnerEdges(owner, rels[..j]))
  {
    OwnerEdgesSnoc(owner, rels, j);
    var before := done + OwnerEdges(owner, rels[..j]);
    if OfKind(rels[j], DrawingKind) {
      assert done + OwnerEdges(owner, rels[..j + 1]) == before + [(owner, LastComponent(rels[j].target))];
      FromPairsSnoc(before, (owner, LastComponent(rels[j].target)));
    } else {
      assert done + OwnerEdges(owner, rels[..j + 1]) == before;
    }
  }

  /** Lines 49-58: one assignment per `<sheet>`. */
  method ReadSheetNames(decls: seq<SheetDecl>) returns (m: Dict<string, string>)
    ensures m == SheetNames(decls)
  {
    m := [];
    var i := 0;
    while i < |decls|
      invariant 0 <= i <= |decls|
      invariant m == FromPairs(SheetNamePairs(decls[..i]))
    {
      assert SheetNamePairs(decls[..i + 1]) == SheetNamePairs(decls[..i]) + [(decls[i].rid, decls[i].name)] by {
        assert decls[..i + 1][..i] == decls[..i];
      }
      FromPairsSnoc(SheetNamePairs(decls[..i]), (decls[i].rid, decls[i].name));
      m := Put(m, decls[i].rid, decls[i].name);
      i := i + 1;
    }
    assert decls[..i] == decls;
  }

  /** Lines 70-75 and 111-117: one assignment per relationship of the kind. */
  method ReadKindTable(rels: seq<Relationship>, kind: string) returns (m: Dict<string, string>)
    ensures m == KindTable(rels, kind)
  {
    m := [];
    var i := 0;
    while i < |rels|
      invariant 0 <= i <= |rels|
      invariant m == FromPairs(KindEdges(rels[..i], kind))
    {
      var r := rels[i];
      KindEdgesSnoc(rels, i, kind);
      if EndsWith(r.relType, kind) {
        FromPairsSnoc(KindEdges(rels[..i], kind), (r.id, LastComponent(r.target)));
        m := Put(m, r.id, LastComponent(r.target));
      } else {
        assert KindEdges(rels[..i + 1], kind) == KindEdges(rels[..i], kind);
      }
      i := i + 1;
    }
    assert rels[..i] == rels;
  }

  /** Lines 86-97: the drawing relationships of one worksheet's relationship part. */
  method ReadOwnerDrawings(sheetFile: string, rels: seq<Relationship>, m: Dict<string, string>, ghost done: seq<(string, string)>)
    returns (out: Dict<string, string>)
    requires m == FromPairs(done)
    ensures out == FromPairs(done + OwnerEdges(sheetFile, rels))
  {
    out := m;
    var j := 0;
    assert rels[..j] == [] && done + [] == done;
    while j < |rels|
      invariant 0 <= j <= |rels|
      invariant out == FromPairs(done + OwnerEdges(sheetFile, rels[..j]))
    {
      var r := rels[j];
      OwnerDictStep(done, sheetFile, rels, j);
      if EndsWith(r.relType, DrawingKind) {
        out := Put(out, sheetFile, LastComponent(r.target));
      }
      j := j + 1;
    }
    assert rels[..j] == rels;
  }

  /** Lines 78-97: every worksheet relationship part, every drawing relationship in it. */
  method ReadSheetDrawings(pkg: Package) returns (m: Dict<string, string>)
    ensures m == SheetDrawings(pkg)
  {
    m := [];
    var i := 0;
    while i < |pkg.names|
      invariant 0 <= i <= |pkg.names|
      invariant m == FromPairs(SheetDrawingEdges(pkg, pkg.names[..i]))
    {
      var f := pkg.names[i];
      ghost var done := SheetDrawingEdges(pkg, pkg.names[..i]);
      SheetDrawingEdgesSnoc(pkg, pkg.names, i);
      if StartsWith(f, SheetRelsDir) && EndsWith(f, RelsPartSuffix) {
        m := ReadOwnerDrawings(RelsOwner(f), pkg.rels(f), m, done);
        assert SheetDrawingEdges(pkg, pkg.names[..i + 1]) == done + OwnerEdges(RelsOwner(f), pkg.rels(f));
      } else {
        assert done + [] == done;
      }
      i := i + 1;
    }
    assert pkg.names[..i] == pkg.names;
  }

  /** Lines 100-117: one inner table per drawing relationship part. */
  method ReadDrawingImages(pkg: Package) returns (m: Dict<string, Dict<string, string>>)
    ensures m == DrawingImages(pkg)
  {
    m := [];
    var i := 0;
    while i < |pkg.names|
      invariant 0 <= i <= |pkg.names|
      invariant m == DrawingImagesOf(pkg, pkg.names[..i])
    {
      var f := pkg.names[i];
      assert pkg.names[..i + 1][..i] == pkg.names[..i];
      if StartsWith(f, DrawingRelsDir) && EndsWith(f, RelsPartSuffix) {
        var drawingFile := RelsOwner(f);
        var images := ReadKindTable(pkg.rels(f), ImageKind);
        m := Put(m, drawingFile, images);
      }
      i := i + 1;
    }
    assert pkg.names[..i] == pkg.names;
  }

  /** Lines 49-117: the whole table-building phase; the workbook parts are required. */
  method ReadTables(pkg: Package) returns (r: Result<Tables, ResolveError>)
    ensures r == BuildTables(pkg)
    ensures r.Err? <==> WorkbookPart !in pkg.names || WorkbookRelsPart !in pkg.names
  {
    if WorkbookPart !in pkg.names {
      return Err(MissingPart(WorkbookPart));
    }
    var sheetNames := ReadSheetNames(pkg.sheets);
    if WorkbookRelsPart !in pkg.names {
      return Err(MissingPart(WorkbookRelsPart));
    }
    var sheetFiles := ReadKindTable(pkg.rels(WorkbookRelsPart), WorksheetKind);
    var sheetDrawings := ReadSheetDrawings(pkg);
    var drawingImages := ReadDrawingImages(pkg);
    r := Ok(Tables(sheetNames, sheetFiles, sheetDrawings, drawingImages));
  }
}
