/** The cell resolver: the merge properties of a table cell (`hp:tc`), the
    text, style and segments of its own paragraphs, and the tables nested in
    it. A cell's own paragraphs are its descendant `hp:p` elements that do
    not lie inside a descendant `hp:tbl`. */
module Cells {
  import opened Wrappers
  import opened Text
  import opened Xml
  import opened HeaderStyles
  import opened Segments
  import opened Seqs

  /** Spans, background colour and size of a cell. */
  datatype Merge = Merge(colSpan: nat, rowSpan: nat, bgColor: Option<string>, width: Option<nat>, height: Option<nat>)

  /** A resolved cell: `None` for the style is the source's `{}`. */
  datatype TableCell = TableCell(text: string, style: Option<Style>, segments: seq<Segment>, merge: Merge)

  /** The rows of a table, each a non-empty list of cells. */
  type Grid = seq<seq<TableCell>>

  // ---------------------------------------------------------------------------
  // parse_tc_props

  /** An attribute of an optional element, as a number when it is a digit string. */
  function DigitAttr(el: Option<Element>, name: string): (r: Option<nat>)
    ensures r.Some? <==> el.Some? && name in el.value.attrs && IsDigits(el.value.attrs[name])
    ensures r.Some? ==> r.value == DigitsValue(el.value.attrs[name])
  {
    if el.None? then None
    else
      var v := Get(el.value, name);
      if v.Some? && IsDigits(v.value) then Some(DigitsValue(v.value)) else None
  }

  /** `border_fills.get(int(ref), {}).get("fillColor")` for a digit reference. */
  function CellFill(tc: Element, fills: map<int, BorderFill>): (r: Option<string>)
    ensures r.Some? ==>
      && "borderFillIDRef" in tc.attrs && IsDigits(tc.attrs["borderFillIDRef"])
      && DigitsValue(tc.attrs["borderFillIDRef"]) in fills
      && fills[DigitsValue(tc.attrs["borderFillIDRef"])].fillColor == r
    ensures ("borderFillIDRef" in tc.attrs && IsDigits(tc.attrs["borderFillIDRef"])
             && DigitsValue(tc.attrs["borderFillIDRef"]) in fills)
      ==> r == fills[DigitsValue(tc.attrs["borderFillIDRef"])].fillColor
  {
    var k := DigitAttr(Some(tc), "borderFillIDRef");
    if k.Some? && k.value in fills then fills[k.value].fillColor else None
  }

  /** `parse_tc_props`: the spans default to 1 and the sizes to `None`; each
      changes only when its attribute is a digit string. */
  function TcProps(tc: Element, fills: map<int, BorderFill>): (m: Merge)
    ensures var span := Find(tc, Hp("cellSpan"));
      && (DigitAttr(span, "colSpan").Some? ==> m.colSpan == DigitAttr(span, "colSpan").value)
      && (DigitAttr(span, "colSpan").None? ==> m.colSpan == 1)
      && (DigitAttr(span, "rowSpan").Some? ==> m.rowSpan == DigitAttr(span, "rowSpan").value)
      && (DigitAttr(span, "rowSpan").None? ==> m.rowSpan == 1)
    ensures var size := Find(tc, Hp("cellSz"));
      m.width == DigitAttr(size, "width") && m.height == DigitAttr(size, "height")
    ensures m.bgColor == CellFill(tc, fills)
  {
    var span := Find(tc, Hp("cellSpan"));
    var size := Find(tc, Hp("cellSz"));
    Merge(DigitAttr(span, "colSpan").GetOr(1), DigitAttr(span, "rowSpan").GetOr(1), CellFill(tc, fills),
          DigitAttr(size, "width"), DigitAttr(size, "height"))
  }

  /** With a normalised border-fill table every background colour is `#RRGGBB`. */
  lemma TcPropsColor(tc: Element, fills: map<int, BorderFill>)
    requires FillsNormalized(fills)
    ensures TcProps(tc, fills).bgColor.Some? ==> IsNormalizedColor(TcProps(tc, fills).bgColor.value)
  {
  }

  // ---------------------------------------------------------------------------
  // Gathering the paragraphs of a cell.

  /** What the paragraph loop has gathered: one text chunk per paragraph
      that has segments, the style of the first such paragraph's first
      segment, and all the segments. */
  datatype Gathered = Gathered(chunks: seq<string>, style: Option<Style>, segs: seq<Segment>)

  /** One paragraph: ignored when it has no segments. */
  function GatherStep(g: Gathered, segs: seq<Segment>): Gathered {
    if segs == [] then g
    else Gathered(g.chunks + [TextOf(segs)], if g.style.None? then Some(segs[0].style) else g.style, g.segs + segs)
  }

  function Gather(paras: seq<Element>, paraShapes: map<int, ParaShape>, charShapes: map<int, CharShape>): Gathered {
    if paras == [] then Gathered([], None, [])
    else GatherStep(Gather(paras[..|paras| - 1], paraShapes, charShapes), SegmentsOf(paras[|paras| - 1], paraShapes, charShapes))
  }

  /** The invariant of the paragraph loop. */
  predicate GatherInv(g: Gathered) {
    && (g.style.Some? <==> g.segs != [])
    && (g.style.Some? ==> g.style.value == g.segs[0].style)
    && (forall k | 0 <= k < |g.chunks| :: g.chunks[k] != "")
    && Concat(g.chunks) == TextOf(g.segs)
    && (forall k | 0 <= k < |g.segs| :: g.segs[k].text != "")
  }

  lemma {:induction false} TextOfAppend(a: seq<Segment>, b: seq<Segment>)
    ensures TextOf(a + b) == TextOf(a) + TextOf(b)
  {
    if b == [] {
      assert a + b == a;
    } else {
      assert (a + b)[..|a + b| - 1] == a + b[..|b| - 1];
      TextOfAppend(a, b[..|b| - 1]);
    }
  }

  lemma GatherStepInv(g: Gathered, segs: seq<Segment>)
    requires GatherInv(g) && WellFormed(segs)
    ensures GatherInv(GatherStep(g, segs))
  {
    if segs != [] {
      NonEmptyText(segs);
      TextOfAppend(g.segs, segs);
      ConcatAppend(g.chunks, [TextOf(segs)]);
      assert [TextOf(segs)][..0] == [];
    }
  }

  lemma {:induction false} GatherFacts(paras: seq<Element>, paraShapes: map<int, ParaShape>, charShapes: map<int, CharShape>)
    ensures GatherInv(Gather(paras, paraShapes, charShapes))
  {
    if paras != [] {
      GatherFacts(paras[..|paras| - 1], paraShapes, charShapes);
      SegmentsOfProperties(paras[|paras| - 1], paraShapes, charShapes);
      GatherStepInv(Gather(paras[..|paras| - 1], paraShapes, charShapes), SegmentsOf(paras[|paras| - 1], paraShapes, charShapes));
    }
  }

  /** The segment lists of the paragraphs that have any, in order. */
  function ParagraphParts(paras: seq<Element>, paraShapes: map<int, ParaShape>, charShapes: map<int, CharShape>): seq<seq<Segment>> {
    if paras == [] then []
    else
      var segs := SegmentsOf(paras[|paras| - 1], paraShapes, charShapes);
      ParagraphParts(paras[..|paras| - 1], paraShapes, charShapes) + (if segs != [] then [segs] else [])
  }

  function Flatten(parts: seq<seq<Segment>>): seq<Segment> {
    if parts == [] then [] else Flatten(parts[..|parts| - 1]) + parts[|parts| - 1]
  }

  predicate AllWellFormed(parts: seq<seq<Segment>>) {
    forall k | 0 <= k < |parts| :: parts[k] != [] && WellFormed(parts[k])
  }

  lemma AllWellFormedSnoc(parts: seq<seq<Segment>>, segs: seq<Segment>)
    requires AllWellFormed(parts) && segs != [] && WellFormed(segs)
    ensures AllWellFormed(parts + [segs])
  {
    var ps := parts + [segs];
    forall k | 0 <= k < |ps| ensures ps[k] != [] && WellFormed(ps[k]) {
      if k < |parts| { assert ps[k] == parts[k]; } else { assert ps[k] == segs; }
    }
  }

  /** Each segment list kept is non-empty and well formed. */
  lemma {:induction false} PartsWellFormed(paras: seq<Element>, paraShapes: map<int, ParaShape>, charShapes: map<int, CharShape>)
    ensures AllWellFormed(ParagraphParts(paras, paraShapes, charShapes))
  {
    if paras != [] {
      var init := paras[..|paras| - 1];
      var segs := SegmentsOf(paras[|paras| - 1], paraShapes, charShapes);
      PartsWellFormed(init, paraShapes, charShapes);
      var p0 := ParagraphParts(init, paraShapes, charShapes);
      var parts := ParagraphParts(paras, paraShapes, charShapes);
      if segs == [] {
        AppendNothing(p0);
        assert parts == p0;
      } else {
        SegmentsOfProperties(paras[|paras| - 1], paraShapes, charShapes);
        assert parts == p0 + [segs];
        AllWellFormedSnoc(p0, segs);
      }
    }
  }

  /** The gathered segments are the non-empty segment lists laid end to
      end, with one chunk per list holding that list's text. */
  lemma {:induction false} GatherFlatten(paras: seq<Element>, paraShapes: map<int, ParaShape>, charShapes: map<int, CharShape>)
    ensures var g := Gather(paras, paraShapes, charShapes);
      var parts := ParagraphParts(paras, paraShapes, charShapes);
      && g.segs == Flatten(parts)
      && |g.chunks| == |parts|
      && forall k | 0 <= k < |parts| :: g.chunks[k] == TextOf(parts[k])
  {
    if paras != [] {
      var init := paras[..|paras| - 1];
      var segs := SegmentsOf(paras[|paras| - 1], paraShapes, charShapes);
      GatherFlatten(init, paraShapes, charShapes);
      var g0 := Gather(init, paraShapes, charShapes);
      var p0 := ParagraphParts(init, paraShapes, charShapes);
      var parts := ParagraphParts(paras, paraShapes, charShapes);
      var g := Gather(paras, paraShapes, charShapes);
      assert g == GatherStep(g0, segs);
      if segs == [] {
        AppendNothing(p0);
        assert parts == p0;
      } else {
        assert parts == p0 + [segs];
        AppendParts(p0, [segs]);
        assert parts[..|parts| - 1] == p0 && parts[|parts| - 1] == segs;
        assert Flatten(parts) == Flatten(p0) + segs;
        assert g.segs == g0.segs + segs;
        assert g.chunks == g0.chunks + [TextOf(segs)];
        forall k | 0 <= k < |parts| ensures g.chunks[k] == TextOf(parts[k]) {
          if k < |p0| { assert parts[k] == p0[k] && g.chunks[k] == g0.chunks[k]; }
        }
      }
    }
  }

  /** Merging never crosses a paragraph: the gathered segments are the
      paragraphs' own well-formed segment lists laid end to end, with one
      chunk per non-empty list holding that list's text. */
  lemma GatherParts(paras: seq<Element>, paraShapes: map<int, ParaShape>, charShapes: map<int, CharShape>)
    ensures var g := Gather(paras, paraShapes, charShapes);
      var parts := ParagraphParts(paras, paraShapes, charShapes);
      && g.segs == Flatten(parts)
      && |g.chunks| == |parts|
      && forall k | 0 <= k < |parts| ::
           parts[k] != [] && WellFormed(parts[k]) && g.chunks[k] == TextOf(parts[k])
  {
    PartsWellFormed(paras, paraShapes, charShapes);
    GatherFlatten(paras, paraShapes, charShapes);
  }

  /** `[t for t in chunks if t]`. */
  function NonEmpty(ss: seq<string>): (r: seq<string>)
    ensures (forall k | 0 <= k < |ss| :: ss[k] != "") ==> r == ss
  {
    if ss == [] then []
    else NonEmpty(ss[..|ss| - 1]) + (if ss[|ss| - 1] != "" then [ss[|ss| - 1]] else [])
  }

  /** A cell built from its paragraphs and its merge properties. */
  function CellOf(paras: seq<Element>, merge: Merge, paraShapes: map<int, ParaShape>, charShapes: map<int, CharShape>): TableCell {
    var g := Gather(paras, paraShapes, charShapes);
    TableCell(Join(" ", NonEmpty(g.chunks)), g.style, g.segs, merge)
  }

  lemma {:induction false} JoinEmpty(sep: string, ss: seq<string>)
    requires forall k | 0 <= k < |ss| :: ss[k] != ""
    ensures Join(sep, ss) == "" <==> ss == []
  {
    if |ss| > 1 {
      assert |Join(sep, ss)| >= |ss[|ss| - 1]| > 0;
    }
  }

  /** The cell's style is its first segment's, and it has text exactly when
      it has segments. */
  lemma CellFacts(paras: seq<Element>, merge: Merge, paraShapes: map<int, ParaShape>, charShapes: map<int, CharShape>)
    ensures var c := CellOf(paras, merge, paraShapes, charShapes);
      && (c.style.Some? <==> c.segments != [])
      && (c.style.Some? ==> c.style.value == c.segments[0].style)
      && (c.text == "" <==> c.segments == [])
      && Join(" ", Gather(paras, paraShapes, charShapes).chunks) == c.text
      && forall k | 0 <= k < |c.segments| :: c.segments[k].text != ""
  {
    var g := Gather(paras, paraShapes, charShapes);
    GatherFacts(paras, paraShapes, charShapes);
    JoinEmpty(" ", g.chunks);
    if g.chunks != [] {
      assert TextOf(g.segs) != "" by {
        assert |Concat(g.chunks)| >= |g.chunks[|g.chunks| - 1]|;
      }
    }
  }

  /** The paragraph loop of `parse_single_table` over the given paragraphs. */
  method GatherParagraphs(paras: seq<Element>, paraShapes: map<int, ParaShape>, charShapes: map<int, CharShape>)
    returns (chunks: seq<string>, style: Option<Style>, segsMerged: seq<Segment>)
    ensures Gathered(chunks, style, segsMerged) == Gather(paras, paraShapes, charShapes)
  {
    chunks, style, segsMerged := [], None, [];
    var i := 0;
    while i < |paras|
      invariant 0 <= i <= |paras|
      invariant Gathered(chunks, style, segsMerged) == Gather(paras[..i], paraShapes, charShapes)
    {
      PrefixStep(paras, i);
      var segs := ParagraphToSegments(paras[i], paraShapes, charShapes);
      if segs != [] {
        chunks := chunks + [TextOf(segs)];
        if style.None? {
          style := Some(segs[0].style);
        }
        segsMerged := segsMerged + segs;
      }
      i := i + 1;
    }
    PrefixWhole(paras);
  }

  // ---------------------------------------------------------------------------
  // parse_single_table

  /** The cells of a row, each from all its descendant paragraphs. */
  function RowOf(tcs: seq<Element>, fills: map<int, BorderFill>, paraShapes: map<int, ParaShape>, charShapes: map<int, CharShape>): (r: seq<TableCell>)
    ensures |r| == |tcs|
  {
    if tcs == [] then []
    else
      var tc := tcs[|tcs| - 1];
      RowOf(tcs[..|tcs| - 1], fills, paraShapes, charShapes) + [CellAt(tc, fills, paraShapes, charShapes)]
  }

  /** A cell of `parse_single_table`: all its descendant paragraphs count. */
  function CellAt(tc: Element, fills: map<int, BorderFill>, paraShapes: map<int, ParaShape>, charShapes: map<int, CharShape>): TableCell {
    CellOf(Elems(FindAllDeep(tc, Hp("p"))), TcProps(tc, fills), paraShapes, charShapes)
  }

  method ParseCell(tc: Element, fills: map<int, BorderFill>, paraShapes: map<int, ParaShape>, charShapes: map<int, CharShape>)
    returns (cell: TableCell)
    ensures cell == CellAt(tc, fills, paraShapes, charShapes)
  {
    var merge := TcProps(tc, fills);
    var chunks, style, segs := GatherParagraphs(Elems(FindAllDeep(tc, Hp("p"))), paraShapes, charShapes);
    cell := TableCell(Join(" ", NonEmpty(chunks)), style, segs, merge);
  }

  /** The rows of `parse_single_table`; rows without cells are dropped. */
  function GridOf(trs: seq<Element>, fills: map<int, BorderFill>, paraShapes: map<int, ParaShape>, charShapes: map<int, CharShape>): (g: Grid)
    ensures forall k | 0 <= k < |g| :: g[k] != []
  {
    if trs == [] then []
    else
      var row := RowOf(FindAll(trs[|trs| - 1], Hp("tc")), fills, paraShapes, charShapes);
      GridOf(trs[..|trs| - 1], fills, paraShapes, charShapes) + (if row != [] then [row] else [])
  }

  function SingleTableOf(tbl: Element, fills: map<int, BorderFill>, paraShapes: map<int, ParaShape>, charShapes: map<int, CharShape>): Grid {
    GridOf(FindAll(tbl, Hp("tr")), fills, paraShapes, charShapes)
  }

  /** A row of `parse_single_table`. */
  method ParseRow(tcs: seq<Element>, fills: map<int, BorderFill>, paraShapes: map<int, ParaShape>, charShapes: map<int, CharShape>)
    returns (row: seq<TableCell>)
    ensures row == RowOf(tcs, fills, paraShapes, charShapes)
  {
    row := [];
    var j := 0;
    while j < |tcs|
      invariant 0 <= j <= |tcs|
      invariant row == RowOf(tcs[..j], fills, paraShapes, charShapes)
    {
      PrefixStep(tcs, j);
      var cell := ParseCell(tcs[j], fills, paraShapes, charShapes);
      row := row + [cell];
      j := j + 1;
    }
    PrefixWhole(tcs);
  }

  /** `parse_single_table`, row by row. */
  method ParseSingleTable(tbl: Element, fills: map<int, BorderFill>, paraShapes: map<int, ParaShape>, charShapes: map<int, CharShape>)
    returns (grid: Grid)
    ensures grid == SingleTableOf(tbl, fills, paraShapes, charShapes)
  {
    var trs := FindAll(tbl, Hp("tr"));
    grid := [];
    var i := 0;
    while i < |trs|
      invariant 0 <= i <= |trs|
      invariant grid == GridOf(trs[..i], fills, paraShapes, charShapes)
    {
      PrefixStep(trs, i);
      var row := ParseRow(FindAll(trs[i], Hp("tc")), fills, paraShapes, charShapes);
      if row != [] {
        grid := grid + [row];
      }
      i := i + 1;
    }
    PrefixWhole(trs);
  }

  // ---------------------------------------------------------------------------
  // parse_tc_contents

  /** The paths of the paragraphs found under the given tables, each table
      given with its path from the cell. */
  function PathsUnder(base: Path, ms: seq<Node>): set<Path> {
    set m | m in ms :: base + m.path
  }

  function NestedPathsOf(tbls: seq<Node>): set<Path> {
    if tbls == [] then {}
    else
      var t := tbls[|tbls| - 1];
      NestedPathsOf(tbls[..|tbls| - 1]) + PathsUnder(t.path, FindAllDeep(t.elem, Hp("p")))
  }

  /** `p_in_nested`: the paragraphs inside some descendant table, by path. */
  function NestedPaths(tc: Element): set<Path> {
    NestedPathsOf(FindAllDeep(tc, Hp("tbl")))
  }

  /** The nodes whose path is not in the set, in order. */
  function Without(ns: seq<Node>, paths: set<Path>): seq<Node> {
    if ns == [] then []
    else Without(ns[..|ns| - 1], paths) + (if ns[|ns| - 1].path !in paths then [ns[|ns| - 1]] else [])
  }

  /** `Without` keeps exactly the nodes whose path is not in the set. */
  lemma {:induction false} WithoutMember(ns: seq<Node>, paths: set<Path>, n: Node)
    ensures n in Without(ns, paths) <==> n in ns && n.path !in paths
  {
    if ns != [] {
      var init := ns[..|ns| - 1];
      WithoutMember(init, paths, n);
      assert ns == init + [ns[|ns| - 1]];
    }
  }

  /** The cell's own paragraphs, in document order. */
  function OwnParagraphs(tc: Element): seq<Node> {
    Without(FindAllDeep(tc, Hp("p")), NestedPaths(tc))
  }

  /** What `parse_tc_contents` returns, without the merge properties. */
  datatype Contents = Contents(text: string, style: Option<Style>, segments: seq<Segment>, nested: seq<Grid>)

  /** One nested table per table found, in the same order. */
  function NestedTablesOf(tbls: seq<Node>, fills: map<int, BorderFill>, paraShapes: map<int, ParaShape>, charShapes: map<int, CharShape>): (r: seq<Grid>)
    ensures |r| == |tbls|
  {
    if tbls == [] then []
    else NestedTablesOf(tbls[..|tbls| - 1], fills, paraShapes, charShapes) + [SingleTableOf(tbls[|tbls| - 1].elem, fills, paraShapes, charShapes)]
  }

  lemma {:induction false} NestedTablesAt(tbls: seq<Node>, fills: map<int, BorderFill>, paraShapes: map<int, ParaShape>, charShapes: map<int, CharShape>, k: nat)
    requires k < |tbls|
    ensures NestedTablesOf(tbls, fills, paraShapes, charShapes)[k] == SingleTableOf(tbls[k].elem, fills, paraShapes, charShapes)
  {
    if k < |tbls| - 1 {
      NestedTablesAt(tbls[..|tbls| - 1], fills, paraShapes, charShapes, k);
    }
  }

  function TcContentsOf(tc: Element, fills: map<int, BorderFill>, paraShapes: map<int, ParaShape>, charShapes: map<int, CharShape>): Contents {
    var g := Gather(Elems(OwnParagraphs(tc)), paraShapes, charShapes);
    Contents(Join(" ", NonEmpty(g.chunks)), g.style, g.segs,
             NestedTablesOf(FindAllDeep(tc, Hp("tbl")), fills, paraShapes, charShapes))
  }

  /** A table met on a path, and then a non-empty path below it: some
      element strictly between the ends of the whole path is a table. */
  lemma {:induction false} TaggedBetweenAppend(e: Element, pi: Path, tau: Path, tag: string)
    requires pi != [] && tau != [] && At(e, pi).Some? && At(e, pi).value.tag == tag
    ensures TaggedBetween(e, pi + tau, tag)
    decreases |pi|
  {
    var c := e.children[pi[0]];
    assert (pi + tau)[0] == pi[0] && (pi + tau)[1..] == pi[1..] + tau;
    if |pi| > 1 {
      TaggedBetweenAppend(c, pi[1..], tau, tag);
    }
  }

  /** Conversely, a path with a table strictly inside splits at that table. */
  lemma {:induction false} TaggedBetweenSplit(e: Element, path: Path, tag: string) returns (pi: Path, tau: Path)
    requires TaggedBetween(e, path, tag)
    ensures path == pi + tau && pi != [] && tau != [] && At(e, pi).Some? && At(e, pi).value.tag == tag
    decreases |path|
  {
    var c := e.children[path[0]];
    if |path| > 1 && c.tag == tag {
      pi, tau := [path[0]], path[1..];
      assert pi[1..] == [];
    } else {
      var p2, t2 := TaggedBetweenSplit(c, path[1..], tag);
      pi, tau := [path[0]] + p2, t2;
      assert pi[1..] == p2;
    }
  }

  lemma {:induction false} NestedPathsOfMember(tbls: seq<Node>, q: Path)
    ensures q in NestedPathsOf(tbls) <==>
      exists t, m | t in tbls && m in FindAllDeep(t.elem, Hp("p")) :: q == t.path + m.path
  {
    if tbls != [] {
      var init := tbls[..|tbls| - 1];
      NestedPathsOfMember(init, q);
      if t, m :| t in tbls && m in FindAllDeep(t.elem, Hp("p")) && q == t.path + m.path {
        if t != tbls[|tbls| - 1] {
          assert t in init;
        }
      }
    }
  }

  /** A paragraph of the cell is in `p_in_nested` exactly when some table
      lies strictly between the cell and the paragraph. */
  lemma NestedPathsExact(tc: Element, q: Path)
    ensures q in NestedPaths(tc) <==>
      At(tc, q).Some? && At(tc, q).value.tag == Hp("p") && TaggedBetween(tc, q, Hp("tbl"))
  {
    var tbls := FindAllDeep(tc, Hp("tbl"));
    NestedPathsOfMember(tbls, q);
    if q in NestedPaths(tc) {
      var t, m :| t in tbls && m in FindAllDeep(t.elem, Hp("p")) && q == t.path + m.path;
      FindAllDeepSound(tc, Hp("tbl"), t);
      FindAllDeepSound(t.elem, Hp("p"), m);
      AtAppend(tc, t.path, m.path);
      TaggedBetweenAppend(tc, t.path, m.path, Hp("tbl"));
    }
    if At(tc, q).Some? && At(tc, q).value.tag == Hp("p") && TaggedBetween(tc, q, Hp("tbl")) {
      var pi, tau := TaggedBetweenSplit(tc, q, Hp("tbl"));
      var tbl := At(tc, pi).value;
      AtAppend(tc, pi, tau);
      FindAllDeepComplete(tc, Hp("tbl"), pi, tbl);
      FindAllDeepComplete(tbl, Hp("p"), tau, At(tc, q).value);
      assert Node(pi, tbl) in tbls;
    }
  }

  /** The cell's own paragraphs are exactly its descendant paragraphs with
      no table between them and the cell. */
  lemma OwnParagraphsExact(tc: Element, n: Node)
    ensures n in OwnParagraphs(tc) <==>
      n in FindAllDeep(tc, Hp("p")) && !TaggedBetween(tc, n.path, Hp("tbl"))
  {
    NestedPathsExact(tc, n.path);
    WithoutMember(FindAllDeep(tc, Hp("p")), NestedPaths(tc), n);
    if n in FindAllDeep(tc, Hp("p")) {
      FindAllDeepSound(tc, Hp("p"), n);
    }
  }

  /** The contents of a cell: its style is its first segment's, it has text
      exactly when it has segments, and there is one nested table per
      descendant `hp:tbl`, in document order. */
  lemma TcContentsFacts(tc: Element, fills: map<int, BorderFill>, paraShapes: map<int, ParaShape>, charShapes: map<int, CharShape>)
    ensures var c := TcContentsOf(tc, fills, paraShapes, charShapes);
      && (c.style.Some? <==> c.segments != [])
      && (c.style.Some? ==> c.style.value == c.segments[0].style)
      && (c.text == "" <==> c.segments == [])
      && |c.nested| == |FindAllDeep(tc, Hp("tbl"))|
      && forall k | 0 <= k < |c.nested| :: c.nested[k] == SingleTableOf(FindAllDeep(tc, Hp("tbl"))[k].elem, fills, paraShapes, charShapes)
  {
    forall k | 0 <= k < |FindAllDeep(tc, Hp("tbl"))| {
      NestedTablesAt(FindAllDeep(tc, Hp("tbl")), fills, paraShapes, charShapes, k);
    }
    CellFacts(Elems(OwnParagraphs(tc)), Merge(1, 1, None, None, None), paraShapes, charShapes);
  }

  /** The set-building loops of `parse_tc_contents`. */
  method CollectNestedPaths(tbls: seq<Node>) returns (pInNested: set<Path>)
    ensures pInNested == NestedPathsOf(tbls)
  {
    pInNested := {};
    var i := 0;
    while i < |tbls|
      invariant 0 <= i <= |tbls|
      invariant pInNested == NestedPathsOf(tbls[..i])
    {
      PrefixStep(tbls, i);
      var ps := FindAllDeep(tbls[i].elem, Hp("p"));
      ghost var before := pInNested;
      var j := 0;
      while j < |ps|
        invariant 0 <= j <= |ps|
        invariant pInNested == before + PathsUnder(tbls[i].path, ps[..j])
      {
        assert ps[..j + 1] == ps[..j] + [ps[j]];
        pInNested := pInNested + {tbls[i].path + ps[j].path};
        j := j + 1;
      }
      PrefixWhole(ps);
      i := i + 1;
    }
    PrefixWhole(tbls);
  }

  method ParseNestedTables(tbls: seq<Node>, fills: map<int, BorderFill>, paraShapes: map<int, ParaShape>, charShapes: map<int, CharShape>)
    returns (nested: seq<Grid>)
    ensures nested == NestedTablesOf(tbls, fills, paraShapes, charShapes)
  {
    nested := [];
    var i := 0;
    while i < |tbls|
      invariant 0 <= i <= |tbls|
      invariant nested == NestedTablesOf(tbls[..i], fills, paraShapes, charShapes)
    {
      PrefixStep(tbls, i);
      var grid := ParseSingleTable(tbls[i].elem, fills, paraShapes, charShapes);
      nested := nested + [grid];
      i := i + 1;
    }
    PrefixWhole(tbls);
  }

  lemma ElemsSnoc(ns: seq<Node>, n: Node)
    ensures Elems(ns + [n]) == Elems(ns) + [n.elem]
  {
  }

  lemma GatherSnoc(paras: seq<Element>, p: Element, paraShapes: map<int, ParaShape>, charShapes: map<int, CharShape>)
    ensures Gather(paras + [p], paraShapes, charShapes)
      == GatherStep(Gather(paras, paraShapes, charShapes), SegmentsOf(p, paraShapes, charShapes))
  {
    assert (paras + [p])[..|paras|] == paras;
  }

  lemma WithoutStep(ps: seq<Node>, i: nat, paths: set<Path>)
    requires i < |ps|
    ensures Without(ps[..i + 1], paths) == Without(ps[..i], paths) + (if ps[i].path !in paths then [ps[i]] else [])
  {
    PrefixStep(ps, i);
  }

  lemma GatherOwnStep(ps: seq<Node>, i: nat, paths: set<Path>, paraShapes: map<int, ParaShape>, charShapes: map<int, CharShape>)
    requires i < |ps|
    ensures var before := Gather(Elems(Without(ps[..i], paths)), paraShapes, charShapes);
      Gather(Elems(Without(ps[..i + 1], paths)), paraShapes, charShapes)
        == if ps[i].path in paths then before else GatherStep(before, SegmentsOf(ps[i].elem, paraShapes, charShapes))
  {
    WithoutStep(ps, i, paths);
    var w := Without(ps[..i], paths);
    if ps[i].path !in paths {
      ElemsSnoc(w, ps[i]);
      GatherSnoc(Elems(w), ps[i].elem, paraShapes, charShapes);
    } else {
      assert w + [] == w;
    }
  }

  /** The paragraph loop of `parse_tc_contents`: paragraphs in the set are skipped. */
  method GatherOwnParagraphs(ps: seq<Node>, pInNested: set<Path>, paraShapes: map<int, ParaShape>, charShapes: map<int, CharShape>)
    returns (chunks: seq<string>, style: Option<Style>, segsMerged: seq<Segment>)
    ensures Gathered(chunks, style, segsMerged) == Gather(Elems(Without(ps, pInNested)), paraShapes, charShapes)
  {
    chunks, style, segsMerged := [], None, [];
    var i := 0;
    while i < |ps|
      invariant 0 <= i <= |ps|
      invariant Gathered(chunks, style, segsMerged) == Gather(Elems(Without(ps[..i], pInNested)), paraShapes, charShapes)
    {
      PrefixStep(ps, i);
      GatherOwnStep(ps, i, pInNested, paraShapes, charShapes);
      if ps[i].path in pInNested {
        i := i + 1;
        continue;
      }
      var segs := ParagraphToSegments(ps[i].elem, paraShapes, charShapes);
      if segs != [] {
        chunks := chunks + [TextOf(segs)];
        if style.None? {
          style := Some(segs[0].style);
        }
        segsMerged := segsMerged + segs;
      }
      i := i + 1;
    }
    PrefixWhole(ps);
  }

  /** `parse_tc_contents`. */
  method ParseTcContents(tc: Element, fills: map<int, BorderFill>, paraShapes: map<int, ParaShape>, charShapes: map<int, CharShape>)
    returns (c: Contents)
    ensures c == TcContentsOf(tc, fills, paraShapes, charShapes)
  {
    var tbls := FindAllDeep(tc, Hp("tbl"));
    var pInNested := CollectNestedPaths(tbls);
    var nested := ParseNestedTables(tbls, fills, paraShapes, charShapes);
    var chunks, style, segsMerged := GatherOwnParagraphs(FindAllDeep(tc, Hp("p")), pInNested, paraShapes, charShapes);
    c := Contents(Join(" ", NonEmpty(chunks)), style, segsMerged, nested);
  }
}
