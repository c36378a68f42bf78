/** The section walker of `parse_sections_to_blocks`: a pre-order walk of a
    section that emits a paragraph block for every `hp:p` with visible text
    and a table block for every `hp:tbl` it reaches, without descending into
    tables. */
module Sections {
  import opened Wrappers
  import opened Text
  import opened Xml
  import opened HeaderStyles
  import opened Segments
  import opened Cells
  import opened Seqs

  /** One cell of a top-level table. The source keeps these five parts in
      five parallel lists (`data`, `cell_styles`, `cell_segments`,
      `cell_merges`, `cell_nested`); here they are one record. */
  datatype SectionCell = SectionCell(text: string, style: Option<Style>, segments: seq<Segment>, merge: Merge, nested: seq<Grid>)

  datatype Block =
    | Paragraph(content: string, segments: seq<Segment>)
    | Table(rows: seq<seq<SectionCell>>)

  /** The header registries the walk reads. */
  datatype Registries = Registries(paraShapes: map<int, ParaShape>, charShapes: map<int, CharShape>, fills: map<int, BorderFill>)

  function SectionCellOf(tc: Element, reg: Registries): SectionCell {
    var c := TcContentsOf(tc, reg.fills, reg.paraShapes, reg.charShapes);
    SectionCell(c.text, c.style, c.segments, TcProps(tc, reg.fills), c.nested)
  }

  function SectionRowOf(tcs: seq<Element>, reg: Registries): (r: seq<SectionCell>)
    ensures |r| == |tcs|
  {
    if tcs == [] then []
    else SectionRowOf(tcs[..|tcs| - 1], reg) + [SectionCellOf(tcs[|tcs| - 1], reg)]
  }

  /** The rows of a top-level table; a row without cells is dropped. */
  function TableRowsOf(trs: seq<Element>, reg: Registries): seq<seq<SectionCell>> {
    if trs == [] then []
    else
      var row := SectionRowOf(FindAll(trs[|trs| - 1], Hp("tc")), reg);
      TableRowsOf(trs[..|trs| - 1], reg) + (if row != [] then [row] else [])
  }

  /** What a table element contributes: one block, unless it has no rows. */
  function TableBlocks(tbl: Element, reg: Registries): seq<Block> {
    var rows := TableRowsOf(FindAll(tbl, Hp("tr")), reg);
    if rows == [] then [] else [Table(rows)]
  }

  /** What a paragraph element contributes on its own: one block when its
      stripped text is not empty. */
  function ParagraphBlocks(p: Element, reg: Registries): seq<Block> {
    var segs := SegmentsOf(p, reg.paraShapes, reg.charShapes);
    var fullText := Strip(TextOf(segs));
    if fullText != "" then [Paragraph(fullText, segs)] else []
  }

  /** `walk(node, in_table)`. */
  function WalkOf(node: Element, inTable: bool, reg: Registries): seq<Block>
    decreases node, 1, 0
  {
    if node.tag == Hp("tbl") then TableBlocks(node, reg)
    else
      (if node.tag == Hp("p") && !inTable then ParagraphBlocks(node, reg) else [])
        + WalkChildren(node, 0, inTable || node.tag == Hp("tbl"), reg)
  }

  /** The walks of the children from the `i`-th on. */
  function WalkChildren(node: Element, i: nat, inTable: bool, reg: Registries): seq<Block>
    decreases node, 0, |node.children| - i
  {
    if i >= |node.children| then []
    else WalkOf(node.children[i], inTable, reg) + WalkChildren(node, i + 1, inTable, reg)
  }

  // ---------------------------------------------------------------------------
  // Which elements the walk visits.

  /** The elements the walk visits, in the order it visits them: every
      element except those strictly inside a table. */
  function Visited(e: Element): seq<Node>
    decreases e, 1, 0
  {
    if e.tag == Hp("tbl") then [Node([], e)] else [Node([], e)] + VisitedFrom(e, 0)
  }

  function VisitedFrom(e: Element, i: nat): seq<Node>
    decreases e, 0, |e.children| - i
  {
    if i >= |e.children| then [] else Under(i, Visited(e.children[i])) + VisitedFrom(e, i + 1)
  }

  /** The blocks one visited element contributes by itself. */
  function NodeBlocks(e: Element, reg: Registries): seq<Block> {
    if e.tag == Hp("tbl") then TableBlocks(e, reg)
    else if e.tag == Hp("p") then ParagraphBlocks(e, reg)
    else []
  }

  function BlocksOf(ns: seq<Node>, reg: Registries): seq<Block> {
    if ns == [] then [] else NodeBlocks(ns[0].elem, reg) + BlocksOf(ns[1..], reg)
  }

  lemma {:induction false} BlocksOfAppend(a: seq<Node>, b: seq<Node>, reg: Registries)
    ensures BlocksOf(a + b, reg) == BlocksOf(a, reg) + BlocksOf(b, reg)
  {
    if a != [] {
      assert (a + b)[1..] == a[1..] + b;
      BlocksOfAppend(a[1..], b, reg);
    } else {
      assert a + b == b;
    }
  }

  lemma {:induction false} BlocksOfUnder(i: nat, ns: seq<Node>, reg: Registries)
    ensures BlocksOf(Under(i, ns), reg) == BlocksOf(ns, reg)
  {
    if ns != [] {
      assert Under(i, ns)[1..] == Under(i, ns[1..]);
      BlocksOfUnder(i, ns[1..], reg);
    }
  }

  /** The walk emits, in order, the blocks of the elements it visits. */
  lemma {:induction false} WalkIsVisit(e: Element, reg: Registries)
    ensures WalkOf(e, false, reg) == BlocksOf(Visited(e), reg)
    decreases e, 1, 0
  {
    if e.tag != Hp("tbl") {
      WalkChildrenIsVisit(e, 0, reg);
      assert ([Node([], e)] + VisitedFrom(e, 0))[1..] == VisitedFrom(e, 0);
    }
  }

  lemma {:induction false} WalkChildrenIsVisit(e: Element, i: nat, reg: Registries)
    requires e.tag != Hp("tbl")
    ensures WalkChildren(e, i, false, reg) == BlocksOf(VisitedFrom(e, i), reg)
    decreases e, 0, |e.children| - i
  {
    if i < |e.children| {
      WalkChildrenStep(e, i, false, reg);
      assert VisitedFrom(e, i) == Under(i, Visited(e.children[i])) + VisitedFrom(e, i + 1);
      WalkIsVisit(e.children[i], reg);
      WalkChildrenIsVisit(e, i + 1, reg);
      BlocksOfUnder(i, Visited(e.children[i]), reg);
      BlocksOfAppend(Under(i, Visited(e.children[i])), VisitedFrom(e, i + 1), reg);
    }
  }

  /** A table lies on the path above its end: at the start, or strictly
      between the start and the end. */
  predicate TableAbove(e: Element, path: Path) {
    path != [] && (e.tag == Hp("tbl") || TaggedBetween(e, path, Hp("tbl")))
  }

  lemma {:induction false} VisitedSound(e: Element, n: Node)
    requires n in Visited(e)
    ensures At(e, n.path) == Some(n.elem) && !TableAbove(e, n.path)
    decreases e, 1, 0
  {
    if n != Node([], e) {
      VisitedFromSound(e, 0, n);
    }
  }

  lemma {:induction false} VisitedFromSound(e: Element, i: nat, n: Node)
    requires e.tag != Hp("tbl") && n in VisitedFrom(e, i)
    ensures At(e, n.path) == Some(n.elem) && !TableAbove(e, n.path)
    decreases e, 0, |e.children| - i
  {
    var c := e.children[i];
    var u := Under(i, Visited(c));
    if n in u {
      var k :| 0 <= k < |u| && u[k] == n;
      var m := Visited(c)[k];
      assert n.path == [i] + m.path && n.path[0] == i && n.path[1..] == m.path;
      VisitedSound(c, m);
      assert At(e, n.path) == At(c, m.path);
      if c.tag == Hp("tbl") {
        assert m.path == [] && n.path == [i];
      }
      assert !TaggedBetween(c, m.path, Hp("tbl"));
      assert TaggedBetween(e, n.path, Hp("tbl")) <==>
        (|n.path| > 1 && c.tag == Hp("tbl")) || TaggedBetween(c, m.path, Hp("tbl"));
    } else {
      VisitedFromSound(e, i + 1, n);
    }
  }

  lemma {:induction false} VisitedFromContains(e: Element, i: nat, j: nat, n: Node)
    requires i <= j < |e.children| && n in Under(j, Visited(e.children[j]))
    ensures n in VisitedFrom(e, i)
    decreases j - i
  {
    if i < j {
      VisitedFromContains(e, i + 1, j, n);
    }
  }

  lemma {:induction false} VisitedComplete(e: Element, path: Path, x: Element)
    requires At(e, path) == Some(x) && !TableAbove(e, path)
    ensures Node(path, x) in Visited(e)
    decreases |path|
  {
    if path != [] {
      var j := path[0];
      var c := e.children[j];
      VisitedComplete(c, path[1..], x);
      var ns := Visited(c);
      var k :| 0 <= k < |ns| && ns[k] == Node(path[1..], x);
      assert Under(j, ns)[k] == Node(path, x);
      VisitedFromContains(e, 0, j, Node(path, x));
    }
  }

  /** The walk visits exactly the elements with no table above them. */
  lemma VisitedExact(e: Element, n: Node)
    ensures n in Visited(e) <==> At(e, n.path) == Some(n.elem) && !TableAbove(e, n.path)
  {
    if n in Visited(e) {
      VisitedSound(e, n);
    }
    if At(e, n.path) == Some(n.elem) && !TableAbove(e, n.path) {
      VisitedComplete(e, n.path, n.elem);
    }
  }

  // ---------------------------------------------------------------------------
  // What the blocks look like.

  /** A paragraph block carries its stripped, non-empty text and well-formed
      segments; a table block has rows and no row is empty. */
  predicate BlockOk(b: Block) {
    match b
    case Paragraph(content, segs) => content != "" && content == Strip(TextOf(segs)) && WellFormed(segs) && segs != []
    case Table(rows) => rows != [] && forall k | 0 <= k < |rows| :: rows[k] != []
  }

  predicate AllOk(bs: seq<Block>) {
    forall k | 0 <= k < |bs| :: BlockOk(bs[k])
  }

  lemma AllOkAppend(a: seq<Block>, b: seq<Block>)
    requires AllOk(a) && AllOk(b)
    ensures AllOk(a + b)
  {
    forall k | 0 <= k < |a + b|
      ensures BlockOk((a + b)[k])
    {
      if k >= |a| {
        assert (a + b)[k] == b[k - |a|];
      }
    }
  }

  lemma {:induction false} TableRowsNonEmpty(trs: seq<Element>, reg: Registries)
    ensures forall k | 0 <= k < |TableRowsOf(trs, reg)| :: TableRowsOf(trs, reg)[k] != []
  {
    if trs != [] {
      TableRowsNonEmpty(trs[..|trs| - 1], reg);
    }
  }

  lemma NodeBlocksOk(e: Element, reg: Registries)
    ensures AllOk(NodeBlocks(e, reg))
  {
    if e.tag == Hp("tbl") {
      TableRowsNonEmpty(FindAll(e, Hp("tr")), reg);
    } else if e.tag == Hp("p") {
      SegmentsOfProperties(e, reg.paraShapes, reg.charShapes);
    }
  }

  lemma {:induction false} BlocksOfOk(ns: seq<Node>, reg: Registries)
    ensures AllOk(BlocksOf(ns, reg))
  {
    if ns != [] {
      NodeBlocksOk(ns[0].elem, reg);
      BlocksOfOk(ns[1..], reg);
      AllOkAppend(NodeBlocks(ns[0].elem, reg), BlocksOf(ns[1..], reg));
    }
  }

  /** Every block of a walk is well formed: no empty paragraph, no table
      without rows, no row without cells. */
  lemma WalkOk(e: Element, reg: Registries)
    ensures AllOk(WalkOf(e, false, reg))
  {
    WalkIsVisit(e, reg);
    BlocksOfOk(Visited(e), reg);
  }

  /** No element inside a table contributes blocks of its own: the walk
      below a table element is just that table's block. */
  lemma WalkStopsAtTable(tbl: Element, reg: Registries)
    requires tbl.tag == Hp("tbl")
    ensures WalkOf(tbl, false, reg) == TableBlocks(tbl, reg)
    ensures |WalkOf(tbl, false, reg)| <= 1
  {
  }

  // ---------------------------------------------------------------------------
  // The walk, as the source runs it.

  method ParseSectionRow(tcs: seq<Element>, reg: Registries) returns (row: seq<SectionCell>)
    ensures row == SectionRowOf(tcs, reg)
  {
    row := [];
    var j := 0;
    while j < |tcs|
      invariant 0 <= j <= |tcs|
      invariant row == SectionRowOf(tcs[..j], reg)
    {
      PrefixStep(tcs, j);
      var merge := TcProps(tcs[j], reg.fills);
      var c := ParseTcContents(tcs[j], reg.fills, reg.paraShapes, reg.charShapes);
      row := row + [SectionCell(c.text, c.style, c.segments, merge, c.nested)];
      j := j + 1;
    }
    PrefixWhole(tcs);
  }

  method ParseTableRows(tbl: Element, reg: Registries) returns (rows: seq<seq<SectionCell>>)
    ensures rows == TableRowsOf(FindAll(tbl, Hp("tr")), reg)
  {
    var trs := FindAll(tbl, Hp("tr"));
    rows := [];
    var i := 0;
    while i < |trs|
      invariant 0 <= i <= |trs|
      invariant rows == TableRowsOf(trs[..i], reg)
    {
      PrefixStep(trs, i);
      var row := ParseSectionRow(FindAll(trs[i], Hp("tc")), reg);
      if row != [] {
        rows := rows + [row];
      }
      i := i + 1;
    }
    PrefixWhole(trs);
  }

  /** The table branch of `walk`: the rows, and a block when there are any. */
  method WalkTable(tbl: Element, reg: Registries, blocks: seq<Block>) returns (out: seq<Block>)
    ensures out == blocks + TableBlocks(tbl, reg)
  {
    var rows := ParseTableRows(tbl, reg);
    if rows != [] {
      out := blocks + [Table(rows)];
    } else {
      out := blocks;
    }
  }

  lemma ParagraphBlocksOf(p: Element, reg: Registries, segs: seq<Segment>, fullText: string)
    requires segs == SegmentsOf(p, reg.paraShapes, reg.charShapes) && fullText == Strip(TextOf(segs))
    ensures ParagraphBlocks(p, reg) == if fullText != "" then [Paragraph(fullText, segs)] else []
  {
  }

  /** The paragraph branch of `walk`. */
  method WalkParagraph(p: Element, reg: Registries, blocks: seq<Block>) returns (out: seq<Block>)
    ensures out == blocks + ParagraphBlocks(p, reg)
  {
    var segs := ParagraphToSegments(p, reg.paraShapes, reg.charShapes);
    var fullText := Strip(TextOf(segs));
    ParagraphBlocksOf(p, reg, segs, fullText);
    if fullText != "" {
      out := blocks + [Paragraph(fullText, segs)];
    } else {
      out := blocks;
      assert out == blocks + [];
    }
  }

  /** `walk(node, in_table)`, appending to the shared block list. */
  method Walk(node: Element, inTable: bool, reg: Registries, blocks: seq<Block>) returns (out: seq<Block>)
    ensures out == blocks + WalkOf(node, inTable, reg)
    decreases node, 2
  {
    if node.tag == Hp("tbl") {
      out := WalkTable(node, reg, blocks);
      return;
    }
    out := blocks;
    if node.tag == Hp("p") && !inTable {
      out := WalkParagraph(node, reg, out);
    }
    ghost var own := out[|blocks|..];
    assert out == blocks + own;
    out := WalkChildrenFrom(node, inTable || node.tag == Hp("tbl"), reg, out);
    AppendAssoc(blocks, own, WalkChildren(node, 0, inTable, reg));
  }

  /** The loop of `walk` over the children of a node. */
  method WalkChildrenFrom(node: Element, childFlag: bool, reg: Registries, blocks: seq<Block>) returns (out: seq<Block>)
    ensures out == blocks + WalkChildren(node, 0, childFlag, reg)
    decreases node, 1
  {
    out := blocks;
    var i := 0;
    while i < |node.children|
      invariant 0 <= i <= |node.children|
      invariant out + WalkChildren(node, i, childFlag, reg) == blocks + WalkChildren(node, 0, childFlag, reg)
    {
      WalkChildrenStep(node, i, childFlag, reg);
      AppendAssoc(out, WalkOf(node.children[i], childFlag, reg), WalkChildren(node, i + 1, childFlag, reg));
      out := Walk(node.children[i], childFlag, reg, out);
      i := i + 1;
    }
  }

  lemma WalkChildrenStep(node: Element, i: nat, inTable: bool, reg: Registries)
    requires i < |node.children|
    ensures WalkChildren(node, i, inTable, reg) == WalkOf(node.children[i], inTable, reg) + WalkChildren(node, i + 1, inTable, reg)
  {
  }

  /** The element the walk starts from: `hp:section` if the root has one. */
  function SectionElement(root: Element): (r: Element)
    ensures Find(root, Hp("section")).Some? ==> r.tag == Hp("section") && r in root.children
    ensures Find(root, Hp("section")).None? ==> r == root
  {
    Find(root, Hp("section")).GetOr(root)
  }

  function SectionsBlocks(roots: seq<Element>, reg: Registries): seq<Block> {
    if roots == [] then []
    else SectionsBlocks(roots[..|roots| - 1], reg) + WalkOf(SectionElement(roots[|roots| - 1]), false, reg)
  }

  /** Every block of a document is well formed. */
  lemma {:induction false} SectionsOk(roots: seq<Element>, reg: Registries)
    ensures AllOk(SectionsBlocks(roots, reg))
  {
    if roots != [] {
      SectionsOk(roots[..|roots| - 1], reg);
      WalkOk(SectionElement(roots[|roots| - 1]), reg);
      AllOkAppend(SectionsBlocks(roots[..|roots| - 1], reg), WalkOf(SectionElement(roots[|roots| - 1]), false, reg));
    }
  }

  /** `parse_sections_to_blocks` over the parsed roots of the section parts,
      in the order given. */
  method ParseSectionsToBlocks(roots: seq<Element>, reg: Registries) returns (blocks: seq<Block>)
    ensures blocks == SectionsBlocks(roots, reg)
  {
    blocks := [];
    var i := 0;
    while i < |roots|
      invariant 0 <= i <= |roots|
      invariant blocks == SectionsBlocks(roots[..i], reg)
    {
      PrefixStep(roots, i);
      blocks := Walk(SectionElement(roots[i]), false, reg, blocks);
      i := i + 1;
    }
    PrefixWhole(roots);
  }
}
