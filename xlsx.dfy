/**
 * The spreadsheet package (an Office Open XML SpreadsheetML zip archive) as
 * the resolver sees it once the archive has been listed and its XML parts
 * parsed: part names in archive order, the `<sheet>` entries of the
 * workbook, the `<Relationship>` entries of every relationship part and the
 * two-cell anchors of every drawing part.
 */
module Xlsx {
  import opened Wrappers
  import opened Text

  /** One `<Relationship Id Type Target>` of a relationship part. */
  datatype Relationship = Relationship(id: string, relType: string, target: string)

  /** One `<sheet>` of xl/workbook.xml: its workbook relationship id (r:id) and its name. */
  datatype SheetDecl = SheetDecl(rid: string, name: string)

  /**
   * One `<xdr:twoCellAnchor>`: the zero-based column and row of its `from`
   * cell, and the `r:embed` id of its `<a:blip>` (None when the anchor has
   * no blip, or its blip no embed id).
   */
  datatype Anchor = Anchor(col: nat, row: nat, embed: Option<string>)

  /**
   * `names` is `namelist()`; `sheets` is what xl/workbook.xml parses to;
   * `rels(p)` and `anchors(p)` are what part `p` parses to, when `p` is a
   * relationship part or a drawing part.
   */
  datatype Package = Package(
    names: seq<string>,
    sheets: seq<SheetDecl>,
    rels: string -> seq<Relationship>,
    anchors: string -> seq<Anchor>)

  /** Failures that abort the run before any record is written. */
  datatype ResolveError =
    | MissingPart(part: string)      // a required part is not in the archive
    | UnknownSheetId(rid: string)    // a worksheet relationship id no `<sheet>` declares

  const WorkbookPart := "xl/workbook.xml"
  const WorkbookRelsPart := "xl/_rels/workbook.xml.rels"
  const SheetRelsDir := "xl/worksheets/_rels/"
  const DrawingRelsDir := "xl/drawings/_rels/"
  const RelsPartSuffix := ".xml.rels"
  const DrawingPartPrefix := "xl/drawings/drawing"
  const XmlSuffix := ".xml"
  const MediaDir := "xl/media/"

  /** Relationship types are told apart by the end of their Type URI. */
  const WorksheetKind := "/worksheet"
  const DrawingKind := "/drawing"
  const ImageKind := "/image"

  predicate IsSheetRels(part: string) {
    StartsWith(part, SheetRelsDir) && EndsWith(part, RelsPartSuffix)
  }

  predicate IsDrawingRels(part: string) {
    StartsWith(part, DrawingRelsDir) && EndsWith(part, RelsPartSuffix)
  }

  predicate IsDrawingPart(part: string) {
    StartsWith(part, DrawingPartPrefix) && EndsWith(part, XmlSuffix)
  }

  /**
   * The file name of the part a relationship part belongs to:
   * `f.split("/")[-1].replace(".rels", "")`.
   */
  function RelsOwner(relsPart: string): (owner: string)
    ensures '/' !in owner
    ensures !Contains(LastComponent(relsPart), RelsExtension) ==> owner == LastComponent(relsPart)
  {
    RemoveAll(LastComponent(relsPart), RelsExtension)
  }

  /** For the usual names the owner is the relationship part's file name without ".rels". */
  lemma RelsOwnerOfUsualName(dir: string, owner: string)
    requires '/' !in owner && !Contains(owner, RelsExtension)
    ensures RelsOwner(dir + "/" + owner + RelsExtension) == owner
  {
    assert dir + "/" + owner + RelsExtension == dir + "/" + (owner + RelsExtension);
    assert '/' !in owner + RelsExtension;
    LastComponentOfJoin(dir, owner + RelsExtension);
    RemoveRelsSuffix(owner);
  }
}
