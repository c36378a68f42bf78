/** The segment resolver: a paragraph (`hp:p`) becomes a list of segments,
    each a piece of text with the resolved style of the runs (`hp:run`) it
    came from; adjacent runs with equal styles share one segment. Also the
    plain-text and Markdown renderings of a paragraph. */
module Segments {
  import opened Wrappers
  import opened Text
  import opened Xml
  import opened HeaderStyles

  /** A run's style: the paragraph's alignment, and the face name, height
      and boldness of its character shape where the source sets those keys. */
  datatype Style = Style(align: Align, faceName: Option<string>, height: Option<nat>, bold: Option<bool>)

  datatype Segment = Segment(text: string, style: Style)

  // ---------------------------------------------------------------------------
  // Texts and styles of runs.

  /** The non-empty texts of a sequence of `hp:t` elements, in order. */
  function TextParts(ts: seq<Element>): (r: seq<string>)
    ensures forall k | 0 <= k < |r| :: r[k] != ""
  {
    if ts == [] then []
    else
      var t := ts[|ts| - 1];
      TextParts(ts[..|ts| - 1]) + (if t.text.Some? && t.text.value != "" then [t.text.value] else [])
  }

  /** `"".join(t.text for t in run.findall("hp:t") if t.text)`. */
  function RunText(run: Element): string {
    Concat(TextParts(FindAll(run, Hp("t"))))
  }

  /** The paragraph alignment: that of the paragraph shape `paraPrIDRef`
      names, `Left` when the reference is missing, not a digit string or not
      in the table. */
  function ParagraphAlign(p: Element, paraShapes: map<int, ParaShape>): (a: Align)
    ensures a != Left ==>
      && "paraPrIDRef" in p.attrs && IsDigits(p.attrs["paraPrIDRef"])
      && DigitsValue(p.attrs["paraPrIDRef"]) in paraShapes
      && paraShapes[DigitsValue(p.attrs["paraPrIDRef"])].align == a
    ensures "paraPrIDRef" in p.attrs && IsDigits(p.attrs["paraPrIDRef"])
      && DigitsValue(p.attrs["paraPrIDRef"]) in paraShapes
      ==> a == paraShapes[DigitsValue(p.attrs["paraPrIDRef"])].align
  {
    var ref := Get(p, "paraPrIDRef");
    if ref.Some? && IsDigits(ref.value) && DigitsValue(ref.value) in paraShapes
    then paraShapes[DigitsValue(ref.value)].align
    else Left
  }

  /** The character shape a run's `charPrIDRef` resolves to, if any. */
  function RunShape(run: Element, charShapes: map<int, CharShape>): Option<CharShape> {
    var ref := Get(run, "charPrIDRef");
    if ref.Some? && IsDigits(ref.value) && DigitsValue(ref.value) in charShapes
    then Some(charShapes[DigitsValue(ref.value)])
    else None
  }

  /** The style of a run: the face name only when non-empty, the height
      only when non-zero, the boldness whenever the shape resolves. */
  function RunStyle(run: Element, align: Align, charShapes: map<int, CharShape>): (s: Style)
    ensures s.align == align
    ensures s.bold.Some? <==> RunShape(run, charShapes).Some?
    ensures s.faceName.Some? ==>
      && s.faceName.value != "" && RunShape(run, charShapes).Some?
      && RunShape(run, charShapes).value.faceName == s.faceName
    ensures s.height.Some? ==>
      && s.height.value != 0 && RunShape(run, charShapes).Some?
      && RunShape(run, charShapes).value.height == s.height
    ensures RunShape(run, charShapes).Some? && RunShape(run, charShapes).value.faceName.Some?
      && RunShape(run, charShapes).value.faceName.value != ""
      ==> s.faceName == RunShape(run, charShapes).value.faceName
    ensures RunShape(run, charShapes).Some? && RunShape(run, charShapes).value.height.Some?
      && RunShape(run, charShapes).value.height.value != 0
      ==> s.height == RunShape(run, charShapes).value.height
    ensures RunShape(run, charShapes).Some? ==> s.bold == Some(RunShape(run, charShapes).value.bold)
  {
    match RunShape(run, charShapes)
    case None => Style(align, None, None, None)
    case Some(cs) =>
      Style(align,
            if cs.faceName.Some? && cs.faceName.value != "" then cs.faceName else None,
            if cs.height.Some? && cs.height.value != 0 then cs.height else None,
            Some(cs.bold))
  }

  /** One candidate segment per run, empty texts included. */
  function RunPieces(runs: seq<Element>, align: Align, charShapes: map<int, CharShape>): (r: seq<Segment>)
    ensures |r| == |runs|
  {
    seq(|runs|, k requires 0 <= k < |runs| => Segment(RunText(runs[k]), RunStyle(runs[k], align, charShapes)))
  }

  // ---------------------------------------------------------------------------
  // Coalescing.

  /** One step of the resolver: an empty piece is skipped, a piece whose
      style equals the last segment's is appended to that segment, any other
      starts a new one. */
  function Push(segs: seq<Segment>, x: Segment): seq<Segment> {
    if x.text == "" then segs
    else if segs != [] && segs[|segs| - 1].style == x.style
    then segs[..|segs| - 1] + [Segment(segs[|segs| - 1].text + x.text, x.style)]
    else segs + [x]
  }

  function Coalesce(ps: seq<Segment>): seq<Segment> {
    if ps == [] then [] else Push(Coalesce(ps[..|ps| - 1]), ps[|ps| - 1])
  }

  /** `paragraph_to_segments`. */
  function SegmentsOf(p: Element, paraShapes: map<int, ParaShape>, charShapes: map<int, CharShape>): seq<Segment> {
    Coalesce(RunPieces(FindAll(p, Hp("run")), ParagraphAlign(p, paraShapes), charShapes))
  }

  /** `"".join(s["text"] for s in segs)`. */
  function TextOf(segs: seq<Segment>): (r: string)
    ensures segs == [] ==> r == ""
  {
    if segs == [] then "" else TextOf(segs[..|segs| - 1]) + segs[|segs| - 1].text
  }

  /** The style of every character, in order. */
  function CharStyles(segs: seq<Segment>): (r: seq<Style>)
    ensures |r| == |TextOf(segs)|
  {
    if segs == [] then []
    else
      var last := segs[|segs| - 1];
      CharStyles(segs[..|segs| - 1]) + seq(|last.text|, k => last.style)
  }

  /** Every segment has text, and no two neighbours share a style. */
  predicate WellFormed(segs: seq<Segment>) {
    && (forall k | 0 <= k < |segs| :: segs[k].text != "")
    && (forall k | 0 < k < |segs| :: segs[k - 1].style != segs[k].style)
  }

  lemma TextOfLast(segs: seq<Segment>, x: Segment)
    ensures TextOf(segs + [x]) == TextOf(segs) + x.text
    ensures CharStyles(segs + [x]) == CharStyles(segs) + seq(|x.text|, k => x.style)
  {
    assert (segs + [x])[..|segs|] == segs;
  }

  lemma PushText(segs: seq<Segment>, x: Segment)
    ensures TextOf(Push(segs, x)) == TextOf(segs) + x.text
    ensures CharStyles(Push(segs, x)) == CharStyles(segs) + seq(|x.text|, k => x.style)
  {
    if x.text == "" {
      assert TextOf(segs) + x.text == TextOf(segs);
      assert seq(|x.text|, k => x.style) == [];
    } else if segs != [] && segs[|segs| - 1].style == x.style {
      var front := segs[..|segs| - 1];
      var l := segs[|segs| - 1];
      assert segs == front + [l];
      TextOfLast(front, l);
      TextOfLast(front, Segment(l.text + x.text, x.style));
      assert seq(|l.text + x.text|, k => x.style) == seq(|l.text|, k => l.style) + seq(|x.text|, k => x.style);
    } else {
      TextOfLast(segs, x);
    }
  }

  lemma PushWellFormed(segs: seq<Segment>, x: Segment)
    requires WellFormed(segs)
    ensures WellFormed(Push(segs, x))
  {
  }

  /** Every style in the result of a step was already there or is the new piece's. */
  lemma PushStyles(segs: seq<Segment>, x: Segment, j: nat)
    requires j < |Push(segs, x)|
    ensures (j < |segs| && Push(segs, x)[j] == segs[j]) || (x.text != "" && Push(segs, x)[j].style == x.style)
  {
  }

  lemma CoalesceSnoc(ps: seq<Segment>, i: nat)
    requires i < |ps|
    ensures Coalesce(ps[..i + 1]) == Push(Coalesce(ps[..i]), ps[i])
  {
    assert ps[..i + 1][..i] == ps[..i];
  }

  /** Coalescing keeps the text. */
  lemma {:induction false} CoalesceText(ps: seq<Segment>)
    ensures TextOf(Coalesce(ps)) == TextOf(ps)
  {
    if ps != [] {
      var init := ps[..|ps| - 1];
      CoalesceText(init);
      PushText(Coalesce(init), ps[|ps| - 1]);
      TextOfLast(init, ps[|ps| - 1]);
      assert init + [ps[|ps| - 1]] == ps;
    }
  }

  /** Coalescing keeps the style of every character. */
  lemma {:induction false} CoalesceCharStyles(ps: seq<Segment>)
    ensures CharStyles(Coalesce(ps)) == CharStyles(ps)
  {
    if ps != [] {
      var init := ps[..|ps| - 1];
      CoalesceCharStyles(init);
      PushText(Coalesce(init), ps[|ps| - 1]);
      TextOfLast(init, ps[|ps| - 1]);
      assert init + [ps[|ps| - 1]] == ps;
    }
  }

  /** Coalescing yields non-empty segments with distinct neighbouring styles. */
  lemma {:induction false} CoalesceWellFormed(ps: seq<Segment>)
    ensures WellFormed(Coalesce(ps))
  {
    if ps != [] {
      CoalesceWellFormed(ps[..|ps| - 1]);
      PushWellFormed(Coalesce(ps[..|ps| - 1]), ps[|ps| - 1]);
    }
  }

  /** Every style of the result is the style of some non-empty piece. */
  lemma {:induction false} CoalesceStyles(ps: seq<Segment>, j: nat)
    requires j < |Coalesce(ps)|
    ensures exists k | 0 <= k < |ps| :: ps[k].text != "" && ps[k].style == Coalesce(ps)[j].style
  {
    var init := ps[..|ps| - 1];
    var prev := Coalesce(init);
    var x := ps[|ps| - 1];
    PushStyles(prev, x, j);
    if j < |prev| && Coalesce(ps)[j] == prev[j] {
      CoalesceStyles(init, j);
      var k :| 0 <= k < |init| && init[k].text != "" && init[k].style == prev[j].style;
      assert ps[k] == init[k];
    } else {
      assert ps[|ps| - 1] == x;
    }
  }

  lemma {:induction false} CharStylesAt(segs: seq<Segment>, i: nat)
    requires segs != [] && i < |segs[|segs| - 1].text|
    ensures CharStyles(segs)[|CharStyles(segs)| - 1 - i] == segs[|segs| - 1].style
  {
  }

  /** A well-formed segmentation is determined by its text and the style of
      each character. */
  lemma {:induction false} SegmentationUnique(a: seq<Segment>, b: seq<Segment>)
    requires WellFormed(a) && WellFormed(b)
    requires TextOf(a) == TextOf(b) && CharStyles(a) == CharStyles(b)
    ensures a == b
    decreases |a| + |b|
  {
    if a == [] || b == [] {
      if a != [] { NonEmptyText(a); }
      if b != [] { NonEmptyText(b); }
    } else {
      var la, lb := a[|a| - 1], b[|b| - 1];
      var a0, b0 := a[..|a| - 1], b[..|b| - 1];
      LastNotShorter(a, b);
      LastNotShorter(b, a);
      CharStylesAt(a, 0);
      CharStylesAt(b, 0);
      var n := |TextOf(a)|;
      assert TextOf(a) == TextOf(a0) + la.text && TextOf(b) == TextOf(b0) + lb.text;
      assert la.text == TextOf(a)[n - |la.text|..] == lb.text;
      assert TextOf(a0) == TextOf(a)[..n - |la.text|] == TextOf(b0);
      assert CharStyles(a0) == CharStyles(a)[..n - |la.text|] == CharStyles(b0);
      SegmentationUnique(a0, b0);
      assert a == a0 + [la] && b == b0 + [lb];
    }
  }

  lemma {:induction false} NonEmptyText(segs: seq<Segment>)
    requires WellFormed(segs) && segs != []
    ensures TextOf(segs) != ""
  {
    assert |TextOf(segs)| >= |segs[|segs| - 1].text|;
  }

  /** Of two well-formed segmentations with the same text and character
      styles, neither ends in a shorter segment: otherwise the segment before
      the shorter one would share its style. */
  lemma {:induction false} LastNotShorter(a: seq<Segment>, b: seq<Segment>)
    requires WellFormed(a) && WellFormed(b) && a != [] && b != []
    requires TextOf(a) == TextOf(b) && CharStyles(a) == CharStyles(b)
    ensures |a[|a| - 1].text| >= |b[|b| - 1].text|
  {
    var la, lb := a[|a| - 1], b[|b| - 1];
    if |la.text| < |lb.text| {
      var a0 := a[..|a| - 1];
      var n := |CharStyles(a)|;
      assert |TextOf(b)| >= |lb.text|;
      assert |TextOf(a0)| == n - |la.text| > 0;
      var l0 := a0[|a0| - 1];
      assert CharStyles(a) == CharStyles(a0) + seq(|la.text|, k => la.style);
      CharStylesAt(a0, 0);
      assert CharStyles(a)[n - |la.text| - 1] == l0.style;
      CharStylesAt(b, |la.text|);
      CharStylesAt(b, 0);
      CharStylesAt(a, 0);
      assert false;
    }
  }

  /** A well-formed list of segments is left as it is. */
  lemma CoalesceIdempotent(segs: seq<Segment>)
    requires WellFormed(segs)
    ensures Coalesce(segs) == segs
  {
    CoalesceWellFormed(segs);
    CoalesceText(segs);
    CoalesceCharStyles(segs);
    SegmentationUnique(Coalesce(segs), segs);
  }

  /** The segments of a paragraph: non-empty, with distinct neighbouring
      styles, every one aligned as the paragraph, and together holding
      exactly the text of the runs. */
  lemma SegmentsOfProperties(p: Element, paraShapes: map<int, ParaShape>, charShapes: map<int, CharShape>)
    ensures var segs := SegmentsOf(p, paraShapes, charShapes);
      && WellFormed(segs)
      && TextOf(segs) == Concat(RunTexts(FindAll(p, Hp("run"))))
      && forall k | 0 <= k < |segs| :: segs[k].style.align == ParagraphAlign(p, paraShapes)
  {
    var runs := FindAll(p, Hp("run"));
    var align := ParagraphAlign(p, paraShapes);
    var ps := RunPieces(runs, align, charShapes);
    CoalesceWellFormed(ps);
    CoalesceText(ps);
    PiecesText(runs, align, charShapes);
    forall k | 0 <= k < |Coalesce(ps)| ensures Coalesce(ps)[k].style.align == align {
      CoalesceStyles(ps, k);
    }
  }

  function RunTexts(runs: seq<Element>): (r: seq<string>)
    ensures |r| == |runs| && forall k | 0 <= k < |runs| :: r[k] == RunText(runs[k])
  {
    seq(|runs|, k requires 0 <= k < |runs| => RunText(runs[k]))
  }

  lemma {:induction false} PiecesText(runs: seq<Element>, align: Align, charShapes: map<int, CharShape>)
    ensures TextOf(RunPieces(runs, align, charShapes)) == Concat(RunTexts(runs))
  {
    if runs != [] {
      var init := runs[..|runs| - 1];
      PiecesText(init, align, charShapes);
      assert RunPieces(runs, align, charShapes)[..|runs| - 1] == RunPieces(init, align, charShapes);
      assert RunTexts(runs)[..|runs| - 1] == RunTexts(init);
    }
  }

  /** `paragraph_to_segments`, run by run. */
  method ParagraphToSegments(p: Element, paraShapes: map<int, ParaShape>, charShapes: map<int, CharShape>)
    returns (segs: seq<Segment>)
    ensures segs == SegmentsOf(p, paraShapes, charShapes)
  {
    segs := [];
    var align := ReadParagraphAlign(p, paraShapes);
    var runs := FindAll(p, Hp("run"));
    ghost var pieces := RunPieces(runs, align, charShapes);
    var i := 0;
    while i < |runs|
      invariant 0 <= i <= |runs|
      invariant segs == Coalesce(pieces[..i])
    {
      var text := ReadRunText(runs[i]);
      CoalesceSnoc(pieces, i);
      if text == "" {
        i := i + 1;
        continue;
      }
      var style := ReadRunStyle(runs[i], align, charShapes);
      segs := AppendOrExtend(segs, text, style);
      i := i + 1;
    }
    assert pieces[..i] == pieces;
  }

  /** The paragraph-level alignment lookup. */
  method ReadParagraphAlign(p: Element, paraShapes: map<int, ParaShape>) returns (align: Align)
    ensures align == ParagraphAlign(p, paraShapes)
  {
    align := Left;
    var paraRef := Get(p, "paraPrIDRef");
    if paraRef.Some? && IsDigits(paraRef.value) {
      var pid := DigitsValue(paraRef.value);
      if pid in paraShapes {
        align := paraShapes[pid].align;
      }
    }
  }

  /** `segments[-1]["text"] += text` when the style equals the last
      segment's, else `segments.append(...)`; the text is non-empty here. */
  method AppendOrExtend(segs: seq<Segment>, text: string, style: Style) returns (r: seq<Segment>)
    requires text != ""
    ensures r == Push(segs, Segment(text, style))
  {
    if segs != [] && segs[|segs| - 1].style == style {
      r := segs[..|segs| - 1] + [Segment(segs[|segs| - 1].text + text, style)];
    } else {
      r := segs + [Segment(text, style)];
    }
  }

  /** The style of one run, key by key. */
  method ReadRunStyle(run: Element, align: Align, charShapes: map<int, CharShape>) returns (style: Style)
    ensures style == RunStyle(run, align, charShapes)
  {
    style := Style(align, None, None, None);
    var charRef := Get(run, "charPrIDRef");
    if charRef.Some? && IsDigits(charRef.value) && DigitsValue(charRef.value) in charShapes {
      var cs := charShapes[DigitsValue(charRef.value)];
      if cs.faceName.Some? && cs.faceName.value != "" {
        style := style.(faceName := cs.faceName);
      }
      if cs.height.Some? && cs.height.value != 0 {
        style := style.(height := cs.height);
      }
      style := style.(bold := Some(cs.bold));
    }
  }

  /** The `hp:t` loop: the non-empty texts of the elements, in order. */
  method ReadTextParts(ts: seq<Element>) returns (parts: seq<string>)
    ensures parts == TextParts(ts)
  {
    parts := [];
    var j := 0;
    while j < |ts|
      invariant 0 <= j <= |ts|
      invariant parts == TextParts(ts[..j])
    {
      assert ts[..j + 1][..j] == ts[..j];
      if ts[j].text.Some? && ts[j].text.value != "" {
        parts := parts + [ts[j].text.value];
      }
      j := j + 1;
    }
    assert ts[..j] == ts;
  }

  /** The text of a run: its non-empty `hp:t` texts, joined. */
  method ReadRunText(run: Element) returns (text: string)
    ensures text == RunText(run)
  {
    var parts := ReadTextParts(FindAll(run, Hp("t")));
    text := Concat(parts);
  }

  // ---------------------------------------------------------------------------
  // Plain text.

  /** The `hp:t` texts of all runs, run by run. */
  function AllRunParts(runs: seq<Element>): seq<string> {
    if runs == [] then []
    else AllRunParts(runs[..|runs| - 1]) + TextParts(FindAll(runs[|runs| - 1], Hp("t")))
  }

  /** `extract_text_runs`: the texts of the runs, then those of the `hp:t`
      children of the paragraph itself, joined and stripped. */
  function ExtractTextOf(p: Element): string {
    Strip(Concat(AllRunParts(FindAll(p, Hp("run"))) + TextParts(FindAll(p, Hp("t")))))
  }

  lemma {:induction false} AllRunPartsText(runs: seq<Element>)
    ensures Concat(AllRunParts(runs)) == Concat(RunTexts(runs))
  {
    if runs != [] {
      var init := runs[..|runs| - 1];
      AllRunPartsText(init);
      ConcatAppend(AllRunParts(init), TextParts(FindAll(runs[|runs| - 1], Hp("t"))));
      RunTextsSnoc(runs);
    }
  }

  /** The plain text of a paragraph is the text of its segments followed by
      the paragraph's own `hp:t` texts, stripped. */
  lemma ExtractTextMatchesSegments(p: Element, paraShapes: map<int, ParaShape>, charShapes: map<int, CharShape>)
    ensures ExtractTextOf(p) == Strip(TextOf(SegmentsOf(p, paraShapes, charShapes)) + Concat(TextParts(FindAll(p, Hp("t")))))
  {
    var runs := FindAll(p, Hp("run"));
    SegmentsOfProperties(p, paraShapes, charShapes);
    AllRunPartsText(runs);
    ConcatAppend(AllRunParts(runs), TextParts(FindAll(p, Hp("t"))));
  }

  /** `extract_text_runs`, loop by loop. */
  method ExtractTextRuns(p: Element) returns (r: string)
    ensures r == ExtractTextOf(p)
  {
    var parts: seq<string> := [];
    var runs := FindAll(p, Hp("run"));
    var i := 0;
    while i < |runs|
      invariant 0 <= i <= |runs|
      invariant parts == AllRunParts(runs[..i])
    {
      var more := ReadTextParts(FindAll(runs[i], Hp("t")));
      assert runs[..i + 1][..i] == runs[..i];
      parts := parts + more;
      i := i + 1;
    }
    assert runs[..i] == runs;
    var own := ReadTextParts(FindAll(p, Hp("t")));
    parts := parts + own;
    r := Strip(Concat(parts));
  }

  // ---------------------------------------------------------------------------
  // Markdown.

  /** A piece of the Markdown rendering: a `**` marker or a run's text. */
  datatype MdPart = Marker | Chunk(text: string)

  /** Whether a run's character shape is bold (`False` when it does not resolve). */
  function RunBold(run: Element, charShapes: map<int, CharShape>): bool {
    var cs := RunShape(run, charShapes);
    cs.Some? && cs.value.bold
  }

  /** The pieces and the final bold state after the given runs: a marker
      wherever boldness changes from the previous run, then the run's text. */
  function MdFold(runs: seq<Element>, charShapes: map<int, CharShape>): (seq<MdPart>, bool) {
    if runs == [] then ([], false)
    else
      var prev := MdFold(runs[..|runs| - 1], charShapes);
      MdStepPart(prev.0, prev.1, RunBold(runs[|runs| - 1], charShapes), RunText(runs[|runs| - 1]))
  }

  /** One run: a marker when boldness changes, then the text. */
  function MdStepPart(parts: seq<MdPart>, prevBold: bool, bold: bool, text: string): (seq<MdPart>, bool) {
    (parts + (if bold != prevBold then [Marker] else []) + [Chunk(text)], bold)
  }

  /** One more part at the end. */
  lemma SnocPart(a: seq<MdPart>, x: MdPart)
    ensures Open(a + [x]) == (Open(a) != (x == Marker))
    ensures Chunks(a + [x]) == Chunks(a) + (if x.Chunk? then x.text else "")
  {
    assert (a + [x])[..|a|] == a;
  }

  lemma MdStepPartFacts(parts: seq<MdPart>, prevBold: bool, bold: bool, text: string)
    ensures var next := MdStepPart(parts, prevBold, bold, text);
      && Open(next.0) == (Open(parts) != (bold != prevBold))
      && Chunks(next.0) == Chunks(parts) + text
  {
    if bold != prevBold {
      SnocPart(parts, Marker);
      SnocPart(parts + [Marker], Chunk(text));
    } else {
      assert parts + [] == parts;
      SnocPart(parts, Chunk(text));
    }
  }

  function PartString(part: MdPart): string {
    match part
    case Marker => "**"
    case Chunk(t) => t
  }

  function PartStrings(parts: seq<MdPart>): seq<string> {
    if parts == [] then [] else PartStrings(parts[..|parts| - 1]) + [PartString(parts[|parts| - 1])]
  }

  lemma PartStringsSnoc(parts: seq<MdPart>, x: MdPart)
    ensures PartStrings(parts + [x]) == PartStrings(parts) + [PartString(x)]
  {
    assert (parts + [x])[..|parts|] == parts;
  }

  /** The pieces of the whole paragraph: a closing marker when the last run
      is bold. */
  function MdParts(runs: seq<Element>, charShapes: map<int, CharShape>): seq<MdPart> {
    var fold := MdFold(runs, charShapes);
    fold.0 + (if fold.1 then [Marker] else [])
  }

  /** `paragraph_to_markdown`: bold stretches wrapped in `**`; without runs
      the plain text of `extract_text_runs`. */
  function MarkdownOf(p: Element, charShapes: map<int, CharShape>): string {
    var runs := FindAll(p, Hp("run"));
    if runs == [] then ExtractTextOf(p)
    else Strip(Concat(PartStrings(MdParts(runs, charShapes))))
  }

  /** An odd number of markers: a `**` is left open. */
  predicate Open(parts: seq<MdPart>) {
    if parts == [] then false else Open(parts[..|parts| - 1]) != (parts[|parts| - 1] == Marker)
  }

  /** The texts of the chunks, markers left out. */
  function Chunks(parts: seq<MdPart>): string {
    if parts == [] then ""
    else Chunks(parts[..|parts| - 1]) + (if parts[|parts| - 1].Chunk? then parts[|parts| - 1].text else "")
  }

  lemma {:induction false} MdStep(a: seq<MdPart>, b: seq<MdPart>)
    ensures Open(a + b) == (Open(a) != Open(b))
    ensures Chunks(a + b) == Chunks(a) + Chunks(b)
  {
    if b != [] {
      assert (a + b)[..|a + b| - 1] == a + b[..|b| - 1];
      MdStep(a, b[..|b| - 1]);
    } else {
      assert a + b == a;
    }
  }

  lemma MdSingle(x: MdPart)
    ensures Open([x]) == (x == Marker)
    ensures Chunks([x]) == (if x.Chunk? then x.text else "")
  {
    assert [x][..0] == [];
  }

  /** After each run a `**` is open exactly when that run is bold, and the
      chunks are the run texts in order. */
  lemma {:induction false} MdFoldFacts(runs: seq<Element>, charShapes: map<int, CharShape>)
    ensures var fold := MdFold(runs, charShapes);
      && fold.1 == (runs != [] && RunBold(runs[|runs| - 1], charShapes))
      && Open(fold.0) == fold.1
      && Chunks(fold.0) == Concat(RunTexts(runs))
  {
    if runs != [] {
      var init := runs[..|runs| - 1];
      var last := runs[|runs| - 1];
      var prev := MdFold(init, charShapes);
      MdFoldFacts(init, charShapes);
      MdStepPartFacts(prev.0, prev.1, RunBold(last, charShapes), RunText(last));
      RunTextsSnoc(runs);
    }
  }

  lemma RunTextsSnoc(runs: seq<Element>)
    requires runs != []
    ensures Concat(RunTexts(runs)) == Concat(RunTexts(runs[..|runs| - 1])) + RunText(runs[|runs| - 1])
  {
    var init := runs[..|runs| - 1];
    assert RunTexts(runs) == RunTexts(init) + [RunText(runs[|runs| - 1])];
    ConcatAppend(RunTexts(init), [RunText(runs[|runs| - 1])]);
    assert [RunText(runs[|runs| - 1])][..0] == [];
  }

  /** The markers of a paragraph pair up, and leaving them out gives the
      run texts in order. */
  lemma MdPartsBalanced(runs: seq<Element>, charShapes: map<int, CharShape>)
    ensures !Open(MdParts(runs, charShapes))
    ensures Chunks(MdParts(runs, charShapes)) == Concat(RunTexts(runs))
  {
    var fold := MdFold(runs, charShapes);
    MdFoldFacts(runs, charShapes);
    if fold.1 {
      assert MdParts(runs, charShapes) == fold.0 + [Marker];
      MdStep(fold.0, [Marker]);
      MdSingle(Marker);
    } else {
      assert MdParts(runs, charShapes) == fold.0;
    }
  }

  lemma {:induction false} NoMarkersPlain(parts: seq<MdPart>)
    requires Marker !in parts
    ensures Concat(PartStrings(parts)) == Chunks(parts)
  {
    if parts != [] {
      var init := parts[..|parts| - 1];
      assert Marker !in init by {
        forall k | 0 <= k < |init| ensures init[k] != Marker {
          assert init[k] == parts[k];
        }
      }
      NoMarkersPlain(init);
      assert PartStrings(parts) == PartStrings(init) + [PartString(parts[|parts| - 1])];
      ConcatAppend(PartStrings(init), [PartString(parts[|parts| - 1])]);
      assert [PartString(parts[|parts| - 1])][..0] == [];
    }
  }

  lemma {:induction false} NoBoldNoMarkers(runs: seq<Element>, charShapes: map<int, CharShape>)
    requires forall k | 0 <= k < |runs| :: !RunBold(runs[k], charShapes)
    ensures MdFold(runs, charShapes).1 == false && Marker !in MdFold(runs, charShapes).0
  {
    if runs != [] {
      var init := runs[..|runs| - 1];
      NoBoldNoMarkers(init, charShapes);
      var prev := MdFold(init, charShapes);
      assert !RunBold(runs[|runs| - 1], charShapes);
      assert MdFold(runs, charShapes).0 == prev.0 + [] + [Chunk(RunText(runs[|runs| - 1]))];
    }
  }

  /** Without bold runs the Markdown is the stripped run text. */
  lemma MarkdownWithoutBold(p: Element, charShapes: map<int, CharShape>)
    requires FindAll(p, Hp("run")) != []
    requires forall k | 0 <= k < |FindAll(p, Hp("run"))| :: !RunBold(FindAll(p, Hp("run"))[k], charShapes)
    ensures MarkdownOf(p, charShapes) == Strip(Concat(RunTexts(FindAll(p, Hp("run")))))
  {
    var runs := FindAll(p, Hp("run"));
    NoBoldNoMarkers(runs, charShapes);
    assert MdParts(runs, charShapes) == MdFold(runs, charShapes).0;
    NoMarkersPlain(MdParts(runs, charShapes));
    MdPartsBalanced(runs, charShapes);
  }

  lemma MdFoldSnoc(runs: seq<Element>, i: nat, charShapes: map<int, CharShape>)
    requires i < |runs|
    ensures MdFold(runs[..i + 1], charShapes)
      == MdStepPart(MdFold(runs[..i], charShapes).0, MdFold(runs[..i], charShapes).1, RunBold(runs[i], charShapes), RunText(runs[i]))
  {
    assert runs[..i + 1][..i] == runs[..i];
  }

  lemma MdStepStrings(parts: seq<MdPart>, prevBold: bool, bold: bool, text: string)
    ensures PartStrings(MdStepPart(parts, prevBold, bold, text).0)
      == PartStrings(parts) + (if bold != prevBold then ["**"] else []) + [text]
  {
    if bold != prevBold {
      PartStringsSnoc(parts, Marker);
      PartStringsSnoc(parts + [Marker], Chunk(text));
    } else {
      assert parts + [] == parts;
      PartStringsSnoc(parts, Chunk(text));
    }
  }

  lemma MdFoldStep(runs: seq<Element>, i: nat, charShapes: map<int, CharShape>, parts: seq<MdPart>, prevBold: bool)
    requires i < |runs| && parts == MdFold(runs[..i], charShapes).0 && prevBold == MdFold(runs[..i], charShapes).1
    ensures var next := MdStepPart(parts, prevBold, RunBold(runs[i], charShapes), RunText(runs[i]));
      next.0 == MdFold(runs[..i + 1], charShapes).0 && RunBold(runs[i], charShapes) == MdFold(runs[..i + 1], charShapes).1
  {
    MdFoldSnoc(runs, i, charShapes);
  }

  /** `cs.get("Bold", False)` for the run's character shape. */
  method ReadRunBold(run: Element, charShapes: map<int, CharShape>) returns (bold: bool)
    ensures bold == RunBold(run, charShapes)
  {
    bold := false;
    var charRef := Get(run, "charPrIDRef");
    if charRef.Some? && IsDigits(charRef.value) && DigitsValue(charRef.value) in charShapes {
      bold := charShapes[DigitsValue(charRef.value)].bold;
    }
  }

  /** `paragraph_to_markdown`, run by run. */
  method ParagraphToMarkdown(p: Element, charShapes: map<int, CharShape>) returns (r: string)
    ensures r == MarkdownOf(p, charShapes)
  {
    var runs := FindAll(p, Hp("run"));
    if runs == [] {
      r := ExtractTextRuns(p);
      return;
    }
    var result := MarkdownPieces(runs, charShapes);
    r := Strip(Concat(result));
  }

  /** The loop of `paragraph_to_markdown`: the list of strings it joins. */
  method MarkdownPieces(runs: seq<Element>, charShapes: map<int, CharShape>) returns (result: seq<string>)
    ensures result == PartStrings(MdParts(runs, charShapes))
  {
    result := [];
    var prevBold := false;
    ghost var parts: seq<MdPart> := [];
    var i := 0;
    while i < |runs|
      invariant 0 <= i <= |runs|
      invariant parts == MdFold(runs[..i], charShapes).0 && prevBold == MdFold(runs[..i], charShapes).1
      invariant result == PartStrings(parts)
    {
      var runBold := ReadRunBold(runs[i], charShapes);
      ghost var upTo := result;
      if runBold && !prevBold {
        result := result + ["**"];
      } else if !runBold && prevBold {
        result := result + ["**"];
      }
      assert result == upTo + (if runBold != prevBold then ["**"] else []);
      var text := ReadRunText(runs[i]);
      result := result + [text];
      MdStepStrings(parts, prevBold, runBold, text);
      MdFoldStep(runs, i, charShapes, parts, prevBold);
      parts := MdStepPart(parts, prevBold, runBold, text).0;
      prevBold := runBold;
      i := i + 1;
      assert parts == MdFold(runs[..i], charShapes).0;
      assert prevBold == MdFold(runs[..i], charShapes).1;
    }
    assert runs[..i] == runs;
    if prevBold {
      result := result + ["**"];
      assert MdParts(runs, charShapes) == parts + [Marker];
      PartStringsSnoc(parts, Marker);
    } else {
      assert MdParts(runs, charShapes) == parts;
    }
  }
}
