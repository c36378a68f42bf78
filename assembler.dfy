/** The spec assembler `blocks_to_document_spec`: it turns the block list into
    the `document` dictionary, keying paragraphs `문단1`, `문단2`, … and tables
    `표1`, `표2`, … with two independent counters, in block order. */
module Assembler {
  import opened Wrappers
  import opened Text
  import opened HeaderStyles
  import opened Segments
  import opened Sections
  import opened Seqs

  const DefaultFace: string := "바탕체"
  /** 11 pt, in hundredths of a point like every height of the model. */
  const DefaultHeight: nat := 1100

  datatype ParaStyle = ParaStyle(faceName: string, height: nat, bold: bool, align: Align)
  datatype TableStyle = TableStyle(cellFont: string, cellSize: nat, cellAlign: seq<Align>)

  datatype Entry =
    | ParagraphEntry(content: string, paraStyle: ParaStyle, segments: seq<Segment>)
    | TableEntry(rows: seq<seq<SectionCell>>, tableStyle: TableStyle)

  /** The `document` dictionary in insertion order. */
  type Document = seq<(string, Entry)>

  /** The style of a paragraph entry: its first segment's, with the missing
      parts filled in. */
  function ParaStyleOf(segs: seq<Segment>): (s: ParaStyle)
    ensures segs == [] ==> s == ParaStyle(DefaultFace, DefaultHeight, false, Left)
    ensures segs != [] ==>
      && s.align == segs[0].style.align
      && s.faceName == (if segs[0].style.faceName.Some? then segs[0].style.faceName.value else DefaultFace)
      && s.height == (if segs[0].style.height.Some? then segs[0].style.height.value else DefaultHeight)
      && (s.bold <==> segs[0].style.bold == Some(true))
  {
    if segs == [] then ParaStyle(DefaultFace, DefaultHeight, false, Left)
    else
      var base := segs[0].style;
      ParaStyle(base.faceName.GetOr(DefaultFace), base.height.GetOr(DefaultHeight), base.bold.GetOr(false), base.align)
  }

  /** `["left"] * n`. */
  function Lefts(n: nat): (r: seq<Align>)
    ensures |r| == n && forall k | 0 <= k < n :: r[k] == Left
  {
    seq(n, k => Left)
  }

  /** What `blocks_to_document_spec` demands of a table block: `data[0]`
      exists. */
  predicate HasFirstRow(b: Block) {
    b.Table? ==> b.rows != []
  }

  predicate AllHaveFirstRow(bs: seq<Block>) {
    forall k | 0 <= k < |bs| :: HasFirstRow(bs[k])
  }

  function EntryOf(b: Block): (e: Entry)
    requires HasFirstRow(b)
    ensures b.Paragraph? <==> e.ParagraphEntry?
    ensures b.Paragraph? ==> e.content == b.content && e.segments == b.segments && e.paraStyle == ParaStyleOf(b.segments)
    ensures b.Table? ==> e.rows == b.rows && e.tableStyle == TableStyle(DefaultFace, DefaultHeight, Lefts(|b.rows[0]|))
  {
    match b
    case Paragraph(content, segs) => ParagraphEntry(content, ParaStyleOf(segs), segs)
    case Table(rows) => TableEntry(rows, TableStyle(DefaultFace, DefaultHeight, Lefts(|rows[0]|)))
  }

  function ParagraphKey(n: nat): string {
    "문단" + NatToString(n)
  }

  function TableKey(n: nat): string {
    "표" + NatToString(n)
  }

  function CountParagraphs(bs: seq<Block>): (n: nat)
    ensures n <= |bs|
  {
    if bs == [] then 0 else CountParagraphs(bs[..|bs| - 1]) + (if bs[|bs| - 1].Paragraph? then 1 else 0)
  }

  function CountTables(bs: seq<Block>): (n: nat)
    ensures n + CountParagraphs(bs) == |bs|
  {
    if bs == [] then 0 else CountTables(bs[..|bs| - 1]) + (if bs[|bs| - 1].Table? then 1 else 0)
  }

  /** The key of the `k`-th block: one more than the number of blocks of its
      kind before it. */
  function KeyOf(bs: seq<Block>, k: nat): string
    requires k < |bs|
  {
    if bs[k].Paragraph? then ParagraphKey(CountParagraphs(bs[..k]) + 1) else TableKey(CountTables(bs[..k]) + 1)
  }

  lemma FirstRowPrefix(bs: seq<Block>, i: nat)
    requires AllHaveFirstRow(bs) && i <= |bs|
    ensures AllHaveFirstRow(bs[..i])
  {
    forall k | 0 <= k < i ensures HasFirstRow(bs[..i][k]) {
      assert bs[..i][k] == bs[k];
    }
  }

  function DocumentOf(bs: seq<Block>): Document
    requires AllHaveFirstRow(bs)
  {
    if bs == [] then []
    else DocumentOf(bs[..|bs| - 1]) + [(KeyOf(bs, |bs| - 1), EntryOf(bs[|bs| - 1]))]
  }

  lemma {:induction false} KeyOfPrefix(bs: seq<Block>, j: nat, k: nat)
    requires k < j <= |bs|
    ensures KeyOf(bs[..j], k) == KeyOf(bs, k)
  {
    assert bs[..j][..k] == bs[..k];
  }

  lemma {:induction false} DocumentLength(bs: seq<Block>)
    requires AllHaveFirstRow(bs)
    ensures |DocumentOf(bs)| == |bs|
  {
    if bs != [] {
      FirstRowPrefix(bs, |bs| - 1);
      DocumentLength(bs[..|bs| - 1]);
    }
  }

  /** The document of a prefix is the prefix of the document. */
  lemma {:induction false} DocumentPrefix(bs: seq<Block>, j: nat)
    requires AllHaveFirstRow(bs) && j <= |bs|
    ensures AllHaveFirstRow(bs[..j]) && |DocumentOf(bs)| == |bs|
    ensures DocumentOf(bs[..j]) == DocumentOf(bs)[..j]
  {
    FirstRowPrefix(bs, j);
    DocumentLength(bs);
    if j == |bs| {
      assert bs[..j] == bs;
    } else {
      var init := bs[..|bs| - 1];
      FirstRowPrefix(bs, |bs| - 1);
      DocumentPrefix(init, j);
      assert init[..j] == bs[..j];
      var d := DocumentOf(init);
      assert DocumentOf(bs) == d + [(KeyOf(bs, |bs| - 1), EntryOf(bs[|bs| - 1]))];
      assert (d + [(KeyOf(bs, |bs| - 1), EntryOf(bs[|bs| - 1]))])[..j] == d[..j];
    }
  }

  lemma DocumentAt(bs: seq<Block>, k: nat)
    requires AllHaveFirstRow(bs) && k < |bs|
    ensures |DocumentOf(bs)| == |bs|
    ensures DocumentOf(bs)[k].0 == KeyOf(bs, k) && DocumentOf(bs)[k].1 == EntryOf(bs[k])
  {
    DocumentPrefix(bs, k + 1);
    var p := bs[..k + 1];
    assert p[..k] == bs[..k] && p[k] == bs[k];
    FirstRowPrefix(bs, k);
    DocumentLength(bs[..k]);
    assert DocumentOf(p) == DocumentOf(bs[..k]) + [(KeyOf(p, k), EntryOf(bs[k]))];
    assert DocumentOf(bs)[k] == DocumentOf(p)[k];
    KeyOfPrefix(bs, k + 1, k);
  }

  /** The document has one entry per block, in block order, keyed by
      `KeyOf`. */
  lemma DocumentOrder(bs: seq<Block>)
    requires AllHaveFirstRow(bs)
    ensures |DocumentOf(bs)| == |bs|
    ensures forall k | 0 <= k < |bs| :: DocumentOf(bs)[k].0 == KeyOf(bs, k) && DocumentOf(bs)[k].1 == EntryOf(bs[k])
  {
    DocumentLength(bs);
    forall k | 0 <= k < |bs|
      ensures DocumentOf(bs)[k].0 == KeyOf(bs, k) && DocumentOf(bs)[k].1 == EntryOf(bs[k])
    {
      DocumentAt(bs, k);
    }
  }

  lemma {:induction false} CountParagraphsGrows(bs: seq<Block>, j: nat, k: nat)
    requires j < k <= |bs| && bs[j].Paragraph?
    ensures CountParagraphs(bs[..j]) < CountParagraphs(bs[..k])
    decreases k - j
  {
    assert bs[..k][..k - 1] == bs[..k - 1];
    if k - 1 > j {
      CountParagraphsGrows(bs, j, k - 1);
    } else {
      assert bs[..k - 1] == bs[..j];
    }
  }

  lemma {:induction false} CountTablesGrows(bs: seq<Block>, j: nat, k: nat)
    requires j < k <= |bs| && bs[j].Table?
    ensures CountTables(bs[..j]) < CountTables(bs[..k])
    decreases k - j
  {
    assert bs[..k][..k - 1] == bs[..k - 1];
    if k - 1 > j {
      CountTablesGrows(bs, j, k - 1);
    } else {
      assert bs[..k - 1] == bs[..j];
    }
  }

  lemma SuffixInjective(p: string, a: string, b: string)
    requires p + a == p + b
    ensures a == b
  {
    assert a == (p + a)[|p|..];
  }

  /** No two blocks get the same key, so no entry of the dictionary is
      overwritten. */
  lemma KeysDistinct(bs: seq<Block>, j: nat, k: nat)
    requires j < k < |bs|
    ensures KeyOf(bs, j) != KeyOf(bs, k)
  {
    if bs[j].Paragraph? && bs[k].Paragraph? {
      CountParagraphsGrows(bs, j, k);
      if KeyOf(bs, j) == KeyOf(bs, k) {
        SuffixInjective("문단", NatToString(CountParagraphs(bs[..j]) + 1), NatToString(CountParagraphs(bs[..k]) + 1));
      }
    } else if bs[j].Table? && bs[k].Table? {
      CountTablesGrows(bs, j, k);
      if KeyOf(bs, j) == KeyOf(bs, k) {
        SuffixInjective("표", NatToString(CountTables(bs[..j]) + 1), NatToString(CountTables(bs[..k]) + 1));
      }
    } else {
      assert KeyOf(bs, j)[0] != KeyOf(bs, k)[0];
    }
  }

  /** The `n`-th paragraph key, for `n` from 1 on, belongs to the block that
      has exactly `n - 1` paragraphs before it. */
  lemma ParagraphKeyNumber(bs: seq<Block>, k: nat, n: nat)
    requires k < |bs| && bs[k].Paragraph? && KeyOf(bs, k) == ParagraphKey(n)
    ensures n == CountParagraphs(bs[..k]) + 1 && n >= 1
  {
    SuffixInjective("문단", NatToString(CountParagraphs(bs[..k]) + 1), NatToString(n));
    NatToStringInjective(CountParagraphs(bs[..k]) + 1, n);
  }

  /** The `n`-th table key, for `n` from 1 on, belongs to the block that has
      exactly `n - 1` tables before it. */
  lemma TableKeyNumber(bs: seq<Block>, k: nat, n: nat)
    requires k < |bs| && bs[k].Table? && KeyOf(bs, k) == TableKey(n)
    ensures n == CountTables(bs[..k]) + 1 && n >= 1
  {
    SuffixInjective("표", NatToString(CountTables(bs[..k]) + 1), NatToString(n));
    NatToStringInjective(CountTables(bs[..k]) + 1, n);
  }

  /** The walk only produces blocks the assembler accepts. */
  lemma SectionsHaveFirstRows(roots: seq<Xml.Element>, reg: Registries)
    ensures AllHaveFirstRow(SectionsBlocks(roots, reg))
  {
    SectionsOk(roots, reg);
    var bs := SectionsBlocks(roots, reg);
    forall k | 0 <= k < |bs| ensures HasFirstRow(bs[k]) {
      assert BlockOk(bs[k]);
    }
  }

  /** One more block: each counter grows by one for a block of its kind. */
  lemma CountStep(bs: seq<Block>, i: nat)
    requires i < |bs|
    ensures CountParagraphs(bs[..i + 1]) == CountParagraphs(bs[..i]) + (if bs[i].Paragraph? then 1 else 0)
    ensures CountTables(bs[..i + 1]) == CountTables(bs[..i]) + (if bs[i].Table? then 1 else 0)
  {
    PrefixStep(bs, i);
  }

  /** The key of the last block of a prefix, from the counts before it. */
  lemma KeyStep(bs: seq<Block>, i: nat)
    requires i < |bs|
    ensures KeyOf(bs[..i + 1], i) == if bs[i].Paragraph? then ParagraphKey(CountParagraphs(bs[..i]) + 1)
      else TableKey(CountTables(bs[..i]) + 1)
  {
    PrefixStep(bs, i);
  }

  /** One more block: the document grows by that block's entry. */
  lemma DocumentStep(bs: seq<Block>, i: nat)
    requires AllHaveFirstRow(bs) && i < |bs|
    ensures AllHaveFirstRow(bs[..i + 1]) && HasFirstRow(bs[i])
    ensures DocumentOf(bs[..i + 1]) == DocumentOf(bs[..i]) + [(KeyOf(bs[..i + 1], i), EntryOf(bs[i]))]
  {
    PrefixStep(bs, i);
    FirstRowPrefix(bs, i + 1);
  }

  /** The key the loop writes for one block, from the two counters. */
  method BlockKey(b: Block, pIdx: nat, tIdx: nat) returns (key: string)
    ensures key == if b.Paragraph? then ParagraphKey(pIdx) else TableKey(tIdx)
  {
    if b.Paragraph? {
      key := "문단" + NatToString(pIdx);
    } else {
      key := "표" + NatToString(tIdx);
    }
  }

  /** The entry the loop writes for one block. */
  method BlockEntry(b: Block) returns (e: Entry)
    requires HasFirstRow(b)
    ensures e == EntryOf(b)
  {
    if b.Paragraph? {
      e := ParagraphEntry(b.content, ParaStyleOf(b.segments), b.segments);
    } else {
      var cols := |b.rows[0]|;
      e := TableEntry(b.rows, TableStyle(DefaultFace, DefaultHeight, Lefts(cols)));
    }
  }

  method BlocksToDocumentSpec(blocks: seq<Block>) returns (doc: Document)
    requires AllHaveFirstRow(blocks)
    ensures doc == DocumentOf(blocks)
  {
    doc := [];
    var pIdx, tIdx := 1, 1;
    var i := 0;
    while i < |blocks|
      invariant 0 <= i <= |blocks|
      invariant doc == DocumentOf(blocks[..i])
      invariant pIdx == CountParagraphs(blocks[..i]) + 1 && tIdx == CountTables(blocks[..i]) + 1
    {
      DocumentStep(blocks, i);
      CountStep(blocks, i);
      KeyStep(blocks, i);
      var b := blocks[i];
      var key := BlockKey(b, pIdx, tIdx);
      var entry := BlockEntry(b);
      doc := doc + [(key, entry)];
      if b.Paragraph? {
        pIdx := pIdx + 1;
      } else {
        tIdx := tIdx + 1;
      }
      i := i + 1;
    }
    PrefixWhole(blocks);
  }
}
