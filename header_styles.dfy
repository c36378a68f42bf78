/** The style registries read from the header part (`Contents/header.xml`):
    the font table per writing system, the character shapes, the paragraph
    shapes and the border fills, each keyed by the record's integer id. */
module HeaderStyles {
  import opened Wrappers
  import opened Text
  import opened Xml

  datatype Align = Left | Right | Center | Justify

  /** A character shape; `height` is in hundredths of a point (the stored
      attribute), where the source divides it by 100 into a float. */
  datatype CharShape = CharShape(height: Option<nat>, faceName: Option<string>, bold: bool)

  datatype ParaShape = ParaShape(align: Align)

  datatype BorderFill = BorderFill(fillColor: Option<string>)

  /** font id -> face name (the `face` attribute, which may be missing). */
  type FontGroup = map<int, Option<string>>

  /** writing system (the `lang` attribute, which may be missing) -> fonts. */
  type FontTable = map<Option<string>, FontGroup>

  /** `MissingHeader` is the `KeyError` of opening an absent header part;
      `InvalidInteger` the error `int()` raises on an id attribute. */
  datatype HeaderError = MissingHeader | InvalidInteger(raw: Option<string>)

  datatype Styles = Styles(paraShapes: map<int, ParaShape>, charShapes: map<int, CharShape>)

  // ---------------------------------------------------------------------------
  // Dictionaries filled in order: a later entry for a key overwrites an earlier.

  function Assign<K, V>(entries: seq<(K, V)>): map<K, V> {
    if entries == [] then map[]
    else Assign(entries[..|entries| - 1])[entries[|entries| - 1].0 := entries[|entries| - 1].1]
  }

  lemma {:induction false} AssignDomain<K, V>(entries: seq<(K, V)>, k: K)
    ensures k in Assign(entries) <==> exists j | 0 <= j < |entries| :: entries[j].0 == k
  {
    if entries != [] {
      var init := entries[..|entries| - 1];
      AssignDomain(init, k);
      if k in Assign(init) {
        var j :| 0 <= j < |init| && init[j].0 == k;
        assert entries[j].0 == k;
      }
      if j :| 0 <= j < |entries| - 1 && entries[j].0 == k {
        assert init[j].0 == k;
      }
    }
  }

  /** The value a key ends with is the one of its last entry. */
  lemma {:induction false} AssignLastWins<K, V>(entries: seq<(K, V)>, j: nat)
    requires j < |entries|
    requires forall i | j < i < |entries| :: entries[i].0 != entries[j].0
    ensures entries[j].0 in Assign(entries) && Assign(entries)[entries[j].0] == entries[j].1
  {
    if j < |entries| - 1 {
      var init := entries[..|entries| - 1];
      AssignLastWins(init, j);
    }
  }

  /** Every key/value pair of the dictionary comes from some entry. */
  lemma {:induction false} AssignFrom<K, V>(entries: seq<(K, V)>, k: K)
    requires k in Assign(entries)
    ensures exists j | 0 <= j < |entries| :: entries[j] == (k, Assign(entries)[k])
  {
    var last := entries[|entries| - 1];
    if last.0 != k {
      var init := entries[..|entries| - 1];
      AssignFrom(init, k);
      var j :| 0 <= j < |init| && init[j] == (k, Assign(init)[k]);
      assert entries[j] == init[j];
    } else {
      assert entries[|entries| - 1] == (k, Assign(entries)[k]);
    }
  }

  /** A loop that stops at the first record whose id `int()` rejects: all
      the values, or the first error. */
  function CollectAll<T>(rs: seq<Result<T, HeaderError>>): (r: Result<seq<T>, HeaderError>)
    ensures r.Ok? ==> |r.value| == |rs| && forall k | 0 <= k < |rs| :: rs[k] == Ok(r.value[k])
  {
    if rs == [] then Ok([])
    else
      var prev :- CollectAll(rs[..|rs| - 1]);
      var x :- rs[|rs| - 1];
      Ok(prev + [x])
  }

  lemma {:induction false} CollectFirstError<T>(rs: seq<Result<T, HeaderError>>, k: nat)
    requires k < |rs| && rs[k].Err? && CollectAll(rs[..k]).Ok?
    ensures CollectAll(rs) == Err(rs[k].error)
    decreases |rs|
  {
    if k < |rs| - 1 {
      var init := rs[..|rs| - 1];
      assert init[..k] == rs[..k];
      CollectFirstError(init, k);
    } else {
      assert rs[..|rs| - 1] == rs[..k];
    }
  }

  lemma CollectStep<T>(rs: seq<Result<T, HeaderError>>, k: nat)
    requires k < |rs| && rs[k].Ok? && CollectAll(rs[..k]).Ok?
    ensures CollectAll(rs[..k + 1]) == Ok(CollectAll(rs[..k]).value + [rs[k].value])
  {
    assert rs[..k + 1][..k] == rs[..k];
  }

  lemma AssignStep<K, V>(entries: seq<(K, V)>, e: (K, V))
    ensures Assign(entries + [e]) == Assign(entries)[e.0 := e.1]
  {
    assert (entries + [e])[..|entries|] == entries;
  }

  // ---------------------------------------------------------------------------
  // One record of each kind.

  /** `align_map.get(horizontal.upper(), "left")`. */
  function AlignOf(horizontal: string): (a: Align)
    ensures a == Right <==> Upper(horizontal) == "RIGHT"
    ensures a == Center <==> Upper(horizontal) == "CENTER"
    ensures a == Justify <==> Upper(horizontal) == "JUSTIFY" || Upper(horizontal) == "BOTH"
    ensures a == Left <==> Upper(horizontal) !in {"RIGHT", "CENTER", "JUSTIFY", "BOTH"}
  {
    var h := Upper(horizontal);
    if h == "LEFT" then Left
    else if h == "RIGHT" then Right
    else if h == "CENTER" then Center
    else if h == "JUSTIFY" || h == "BOTH" then Justify
    else Left
  }

  /** The alignment of a `hh:paraPr`: its `hh:align`'s `horizontal`
      attribute, `LEFT` when the attribute is missing, `Left` when the
      element is. */
  function ParaAlign(paraPr: Element): Align {
    match Find(paraPr, Hh("align"))
    case None => Left
    case Some(a) => AlignOf(Get(a, "horizontal").GetOr("LEFT"))
  }

  /** The height attribute, kept only when it is a digit string. */
  function HeightOf(raw: Option<string>): (h: Option<nat>)
    ensures h.Some? <==> raw.Some? && IsDigits(raw.value)
    ensures h.Some? ==> h.value == DigitsValue(raw.value)
    ensures h.Some? ==> NatToString(h.value) == raw.value || raw.value[0] == '0'
  {
    if raw.Some? && IsDigits(raw.value) then
      var v := DigitsValue(raw.value);
      assert NatToString(v) == raw.value || raw.value[0] == '0' by {
        if raw.value[0] != '0' { DigitsCanonical(raw.value); }
      }
      Some(v)
    else None
  }

  /** A digit string without a leading zero is the decimal spelling of its value. */
  lemma {:induction false} DigitsCanonical(s: string)
    requires IsDigits(s) && s[0] != '0'
    ensures NatToString(DigitsValue(s)) == s
    decreases |s|
  {
    var init := s[..|s| - 1];
    var d := DigitValue(s[|s| - 1]);
    if init == [] {
      assert s == [s[0]];
    } else {
      assert init[0] == s[0];
      DigitsCanonical(init);
      var v := DigitsValue(init);
      assert v > 0;
      assert DigitsValue(s) / 10 == v && DigitsValue(s) % 10 == d;
      assert s == init + [s[|s| - 1]];
      assert DigitChar(d) == s[|s| - 1];
    }
  }

  /** The face name of the HANGUL font the `hh:fontRef` names, if it names
      one by a digit id and the font table has it. */
  function HangulFace(charPr: Element, fonts: FontTable): Option<string> {
    match Find(charPr, Hh("fontRef"))
    case None => None
    case Some(ref) =>
      var hid := Get(ref, "hangul");
      if hid.Some? && IsDigits(hid.value) then
        var group := if Some("HANGUL") in fonts then fonts[Some("HANGUL")] else map[];
        var k := DigitsValue(hid.value);
        if k in group then group[k] else None
      else None
  }

  function CharShapeOf(charPr: Element, fonts: FontTable): CharShape {
    CharShape(HeightOf(Get(charPr, "height")), HangulFace(charPr, fonts), HasChild(charPr, Hh("bold")))
  }

  /** The character-shape rules, stated on the record's XML. */
  lemma CharShapeRules(charPr: Element, fonts: FontTable)
    ensures var cs := CharShapeOf(charPr, fonts);
      && (cs.height.Some? <==> "height" in charPr.attrs && IsDigits(charPr.attrs["height"]))
      && (cs.height.Some? ==> cs.height.value == DigitsValue(charPr.attrs["height"]))
      && (cs.bold <==> exists c | c in charPr.children :: c.tag == Hh("bold"))
      && (cs.faceName.Some? ==>
            && Some("HANGUL") in fonts
            && var ref := Find(charPr, Hh("fontRef")).value;
            && "hangul" in ref.attrs && IsDigits(ref.attrs["hangul"])
            && DigitsValue(ref.attrs["hangul"]) in fonts[Some("HANGUL")]
            && cs.faceName == fonts[Some("HANGUL")][DigitsValue(ref.attrs["hangul"])])
      && (Find(charPr, Hh("fontRef")).Some? ==>
            var ref := Find(charPr, Hh("fontRef")).value;
            "hangul" in ref.attrs && IsDigits(ref.attrs["hangul"]) && Some("HANGUL") in fonts
              && DigitsValue(ref.attrs["hangul"]) in fonts[Some("HANGUL")]
            ==> cs.faceName == fonts[Some("HANGUL")][DigitsValue(ref.attrs["hangul"])])
  {
  }

  function FontResult(font: Element): Result<(int, Option<string>), HeaderError> {
    var id := PyIntOf(Get(font, "id"));
    if id.None? then Err(InvalidInteger(Get(font, "id"))) else Ok((id.value, Get(font, "face")))
  }

  function FontResults(fonts: seq<Element>): seq<Result<(int, Option<string>), HeaderError>> {
    seq(|fonts|, k requires 0 <= k < |fonts| => FontResult(fonts[k]))
  }

  function FontGroupOf(fontface: Element): Result<FontGroup, HeaderError> {
    var es :- CollectAll(FontResults(FindAll(fontface, Hh("font"))));
    Ok(Assign(es))
  }

  function FaceResult(fontface: Element): Result<(Option<string>, FontGroup), HeaderError> {
    var group :- FontGroupOf(fontface);
    Ok((Get(fontface, "lang"), group))
  }

  function FaceResults(fontfaces: seq<Element>): seq<Result<(Option<string>, FontGroup), HeaderError>> {
    seq(|fontfaces|, k requires 0 <= k < |fontfaces| => FaceResult(fontfaces[k]))
  }

  function CharResult(charPr: Element, fonts: FontTable): Result<(int, CharShape), HeaderError> {
    var id := PyIntOf(Get(charPr, "id"));
    if id.None? then Err(InvalidInteger(Get(charPr, "id"))) else Ok((id.value, CharShapeOf(charPr, fonts)))
  }

  function CharResults(charPrs: seq<Element>, fonts: FontTable): seq<Result<(int, CharShape), HeaderError>> {
    seq(|charPrs|, k requires 0 <= k < |charPrs| => CharResult(charPrs[k], fonts))
  }

  function ParaResult(paraPr: Element): Result<(int, ParaShape), HeaderError> {
    var id := PyIntOf(Get(paraPr, "id"));
    if id.None? then Err(InvalidInteger(Get(paraPr, "id"))) else Ok((id.value, ParaShape(ParaAlign(paraPr))))
  }

  function ParaResults(paraPrs: seq<Element>): seq<Result<(int, ParaShape), HeaderError>> {
    seq(|paraPrs|, k requires 0 <= k < |paraPrs| => ParaResult(paraPrs[k]))
  }

  // ---------------------------------------------------------------------------
  // The whole registry.

  function Children(parent: Option<Element>, tag: string): seq<Element> {
    if parent.None? then [] else FindAll(parent.value, tag)
  }

  function FontTableOf(refList: Element): Result<FontTable, HeaderError> {
    var es :- CollectAll(FaceResults(Children(Find(refList, Hh("fontfaces")), Hh("fontface"))));
    Ok(Assign(es))
  }

  function CharShapesOf(refList: Element, fonts: FontTable): Result<map<int, CharShape>, HeaderError> {
    var es :- CollectAll(CharResults(Children(Find(refList, Hh("charProperties")), Hh("charPr")), fonts));
    Ok(Assign(es))
  }

  function ParaShapesOf(refList: Element): Result<map<int, ParaShape>, HeaderError> {
    var es :- CollectAll(ParaResults(Children(Find(refList, Hh("paraProperties")), Hh("paraPr"))));
    Ok(Assign(es))
  }

  /** What `parse_styles_from_header` returns for the header part's root
      element (`None` when the part is absent). */
  function StylesOf(header: Option<Element>): Result<Styles, HeaderError> {
    if header.None? then Ok(Styles(map[], map[]))
    else match Find(header.value, Hh("refList"))
      case None => Ok(Styles(map[], map[]))
      case Some(refList) =>
        var fonts :- FontTableOf(refList);
        var chars :- CharShapesOf(refList, fonts);
        var paras :- ParaShapesOf(refList);
        Ok(Styles(paras, chars))
  }

  /** A character-shape id is in the table exactly when some `hh:charPr`
      has an id `int()` reads as it, and the last such record defines it. */
  lemma CharShapeLookup(charPrs: seq<Element>, fonts: FontTable, j: nat)
    requires CollectAll(CharResults(charPrs, fonts)).Ok?
    requires j < |charPrs|
    requires forall i | j < i < |charPrs| :: PyIntOf(Get(charPrs[i], "id")) != PyIntOf(Get(charPrs[j], "id"))
    ensures PyIntOf(Get(charPrs[j], "id")).Some?
    ensures var m := Assign(CollectAll(CharResults(charPrs, fonts)).value);
      PyIntOf(Get(charPrs[j], "id")).value in m
      && m[PyIntOf(Get(charPrs[j], "id")).value] == CharShapeOf(charPrs[j], fonts)
  {
    var rs := CharResults(charPrs, fonts);
    var es := CollectAll(rs).value;
    assert rs[j] == CharResult(charPrs[j], fonts) == Ok(es[j]);
    forall i | j < i < |es| ensures es[i].0 != es[j].0 {
      assert rs[i] == CharResult(charPrs[i], fonts) == Ok(es[i]);
    }
    AssignLastWins(es, j);
  }

  /** The fonts of one `hh:fontface` (the inner loop over `hh:font`). */
  method ReadFontGroup(fontface: Element) returns (r: Result<FontGroup, HeaderError>)
    ensures r == FontGroupOf(fontface)
  {
    var fontEls := FindAll(fontface, Hh("font"));
    ghost var fontRs := FontResults(fontEls);
    var group: FontGroup := map[];
    var j := 0;
    while j < |fontEls|
      invariant 0 <= j <= |fontEls|
      invariant CollectAll(fontRs[..j]).Ok? && group == Assign(CollectAll(fontRs[..j]).value)
    {
      var raw := Get(fontEls[j], "id");
      var fid := PyIntOf(raw);
      if fid.None? {
        assert fontRs[j] == Err(InvalidInteger(raw));
        CollectFirstError(fontRs, j);
        return Err(InvalidInteger(raw));
      }
      var face := Get(fontEls[j], "face");
      assert fontRs[j] == Ok((fid.value, face));
      CollectStep(fontRs, j);
      AssignStep(CollectAll(fontRs[..j]).value, (fid.value, face));
      group := group[fid.value := face];
      j := j + 1;
    }
    assert fontRs[..j] == fontRs;
    r := Ok(group);
  }

  /** Step 1 of `parse_styles_from_header`: the font table. */
  method ReadFontTable(refList: Element) returns (r: Result<FontTable, HeaderError>)
    ensures r == FontTableOf(refList)
  {
    var fonts: FontTable := map[];
    var fontfaces := Children(Find(refList, Hh("fontfaces")), Hh("fontface"));
    ghost var faceRs := FaceResults(fontfaces);
    var i := 0;
    while i < |fontfaces|
      invariant 0 <= i <= |fontfaces|
      invariant CollectAll(faceRs[..i]).Ok? && fonts == Assign(CollectAll(faceRs[..i]).value)
    {
      var lang := Get(fontfaces[i], "lang");
      var group := ReadFontGroup(fontfaces[i]);
      if group.Err? {
        assert faceRs[i] == Err(group.error);
        CollectFirstError(faceRs, i);
        return Err(group.error);
      }
      assert faceRs[i] == Ok((lang, group.value));
      CollectStep(faceRs, i);
      AssignStep(CollectAll(faceRs[..i]).value, (lang, group.value));
      fonts := fonts[lang := group.value];
      i := i + 1;
    }
    assert faceRs[..i] == faceRs;
    r := Ok(fonts);
  }

  /** `for child in char_pr: if child.tag == bold: ... break`. */
  method ReadBold(charPr: Element) returns (isBold: bool)
    ensures isBold == HasChild(charPr, Hh("bold"))
  {
    isBold := false;
    var k := 0;
    while k < |charPr.children|
      invariant 0 <= k <= |charPr.children|
      invariant !isBold ==> forall m | 0 <= m < k :: charPr.children[m].tag != Hh("bold")
      invariant isBold ==> HasChild(charPr, Hh("bold"))
    {
      if charPr.children[k].tag == Hh("bold") {
        isBold := true;
        break;
      }
      k := k + 1;
    }
  }

  /** One `charPr` with a valid id extends the table by its shape. */
  lemma CharShapesStep(charPrs: seq<Element>, fonts: FontTable, i: nat, acc: map<int, CharShape>)
    requires i < |charPrs| && PyIntOf(Get(charPrs[i], "id")).Some?
    requires CollectAll(CharResults(charPrs, fonts)[..i]).Ok?
    requires acc == Assign(CollectAll(CharResults(charPrs, fonts)[..i]).value)
    ensures CollectAll(CharResults(charPrs, fonts)[..i + 1]).Ok?
    ensures acc[PyIntOf(Get(charPrs[i], "id")).value := CharShapeOf(charPrs[i], fonts)]
      == Assign(CollectAll(CharResults(charPrs, fonts)[..i + 1]).value)
  {
    var rs := CharResults(charPrs, fonts);
    var e := (PyIntOf(Get(charPrs[i], "id")).value, CharShapeOf(charPrs[i], fonts));
    assert rs[i] == Ok(e);
    CollectStep(rs, i);
    AssignStep(CollectAll(rs[..i]).value, e);
  }

  /** Step 2 of `parse_styles_from_header`: the character shapes. */
  method ReadCharShapes(refList: Element, fonts: FontTable) returns (r: Result<map<int, CharShape>, HeaderError>)
    ensures r == CharShapesOf(refList, fonts)
  {
    var charShapes: map<int, CharShape> := map[];
    var charPrs := Children(Find(refList, Hh("charProperties")), Hh("charPr"));
    ghost var charRs := CharResults(charPrs, fonts);
    var i := 0;
    while i < |charPrs|
      invariant 0 <= i <= |charPrs|
      invariant CollectAll(charRs[..i]).Ok? && charShapes == Assign(CollectAll(charRs[..i]).value)
    {
      var charPr := charPrs[i];
      var raw := Get(charPr, "id");
      var cid := PyIntOf(raw);
      if cid.None? {
        assert charRs[i] == Err(InvalidInteger(raw));
        CollectFirstError(charRs, i);
        return Err(InvalidInteger(raw));
      }
      var height := HeightOf(Get(charPr, "height"));
      var isBold := ReadBold(charPr);
      var shape := CharShape(height, HangulFace(charPr, fonts), isBold);
      CharShapesStep(charPrs, fonts, i, charShapes);
      charShapes := charShapes[cid.value := shape];
      i := i + 1;
    }
    assert charRs[..i] == charRs;
    r := Ok(charShapes);
  }

  /** The `hh:align` lookup of one `hh:paraPr`. */
  method ReadAlign(paraPr: Element) returns (align: Align)
    ensures align == ParaAlign(paraPr)
  {
    var alignEl := Find(paraPr, Hh("align"));
    align := Left;
    if alignEl.Some? {
      align := AlignOf(Get(alignEl.value, "horizontal").GetOr("LEFT"));
    }
  }

  /** Step 3 of `parse_styles_from_header`: the paragraph shapes. */
  method ReadParaShapes(refList: Element) returns (r: Result<map<int, ParaShape>, HeaderError>)
    ensures r == ParaShapesOf(refList)
  {
    var paraShapes: map<int, ParaShape> := map[];
    var paraPrs := Children(Find(refList, Hh("paraProperties")), Hh("paraPr"));
    ghost var paraRs := ParaResults(paraPrs);
    var i := 0;
    while i < |paraPrs|
      invariant 0 <= i <= |paraPrs|
      invariant CollectAll(paraRs[..i]).Ok? && paraShapes == Assign(CollectAll(paraRs[..i]).value)
    {
      var raw := Get(paraPrs[i], "id");
      var pid := PyIntOf(raw);
      if pid.None? {
        assert paraRs[i] == Err(InvalidInteger(raw));
        CollectFirstError(paraRs, i);
        return Err(InvalidInteger(raw));
      }
      var align := ReadAlign(paraPrs[i]);
      assert paraRs[i] == Ok((pid.value, ParaShape(align)));
      CollectStep(paraRs, i);
      AssignStep(CollectAll(paraRs[..i]).value, (pid.value, ParaShape(align)));
      paraShapes := paraShapes[pid.value := ParaShape(align)];
      i := i + 1;
    }
    assert paraRs[..i] == paraRs;
    r := Ok(paraShapes);
  }

  /** Reads the header registries the way `parse_styles_from_header` does. */
  method ParseStylesFromHeader(header: Option<Element>) returns (r: Result<Styles, HeaderError>)
    ensures r == StylesOf(header)
  {
    if header.None? {
      return Ok(Styles(map[], map[]));
    }
    var refListOpt := Find(header.value, Hh("refList"));
    if refListOpt.None? {
      return Ok(Styles(map[], map[]));
    }
    var fonts := ReadFontTable(refListOpt.value);
    if fonts.Err? {
      return Err(fonts.error);
    }
    var chars := ReadCharShapes(refListOpt.value, fonts.value);
    if chars.Err? {
      return Err(chars.error);
    }
    var paras := ReadParaShapes(refListOpt.value);
    if paras.Err? {
      return Err(paras.error);
    }
    r := Ok(Styles(paras.value, chars.value));
  }

  // ---------------------------------------------------------------------------
  // Colours and border fills.

  /** `#` followed by six characters. */
  predicate IsNormalizedColor(c: string) {
    |c| == 7 && c[0] == '#'
  }

  /** `normalize_color`: `#RRGGBB` is kept, `#AARRGGBB` loses its alpha
      pair, anything else is dropped. */
  function NormalizeColor(val: string): (r: Option<string>)
    ensures r.Some? <==> |val| > 0 && val[0] == '#' && (|val| == 7 || |val| == 9)
    ensures r.Some? ==> IsNormalizedColor(r.value) && r.value[1..] == val[|val| - 6..]
  {
    if |val| == 0 || val[0] != '#' then None
    else if |val| == 7 then Some(val)
    else if |val| == 9 then Some("#" + val[3..])
    else None
  }

  /** Normalising twice changes nothing. */
  lemma NormalizeIdempotent(val: string)
    requires NormalizeColor(val).Some?
    ensures NormalizeColor(NormalizeColor(val).value) == NormalizeColor(val)
  {
  }

  /** The three places a border fill may keep its background colour. */
  datatype FillSource = FaceColor | GradationColor | HatchColor

  /** What an element offers as a candidate of the given kind: a non-empty
      `faceColor` other than "none" (in any case) on a `winBrush`, a
      non-empty `value` on a `color`, a non-empty `hatchColor` on a `winBrush`. */
  function Candidate(src: FillSource, el: Element): Option<string> {
    var attr := match src
      case FaceColor => Get(el, "faceColor")
      case GradationColor => Get(el, "value")
      case HatchColor => Get(el, "hatchColor");
    var local := if src == GradationColor then "color" else "winBrush";
    if LocalName(el.tag) == local && attr.Some? && attr.value != ""
       && (src == FaceColor ==> Lower(attr.value) != "none")
    then attr
    else None
  }

  /** The first candidate of a kind in a sequence of elements. */
  function FirstCandidate(src: FillSource, els: seq<Element>): Option<string> {
    if els == [] then None
    else if Candidate(src, els[0]).Some? then Candidate(src, els[0])
    else FirstCandidate(src, els[1..])
  }

  lemma {:induction false} FirstCandidateAt(src: FillSource, els: seq<Element>, i: nat)
    requires i < |els| && Candidate(src, els[i]).Some?
    requires forall j | 0 <= j < i :: Candidate(src, els[j]).None?
    ensures FirstCandidate(src, els) == Candidate(src, els[i])
  {
    if i > 0 {
      assert Candidate(src, els[0]).None?;
      forall j | 0 <= j < i - 1 ensures Candidate(src, els[1..][j]).None? {
        assert els[1..][j] == els[j + 1];
      }
      FirstCandidateAt(src, els[1..], i - 1);
    }
  }

  lemma {:induction false} FirstCandidateNone(src: FillSource, els: seq<Element>)
    ensures FirstCandidate(src, els).None? <==> forall j | 0 <= j < |els| :: Candidate(src, els[j]).None?
  {
    if els != [] {
      FirstCandidateNone(src, els[1..]);
      assert forall j | 1 <= j < |els| :: els[j] == els[1..][j - 1];
    }
  }

  /** `pick_fill_color_from_borderfill`: the first face colour met in
      `iter()` order, else the first gradation colour, else the first hatch
      colour, normalised; the first candidate found is final even when it does
      not normalise. */
  function PickFillColor(bf: Element): (r: Option<string>)
    ensures r.Some? ==> IsNormalizedColor(r.value)
  {
    var els := Elems(Iter(bf));
    var face := FirstCandidate(FaceColor, els);
    if face.Some? then NormalizeColor(face.value)
    else
      var grad := FirstCandidate(GradationColor, els);
      if grad.Some? then NormalizeColor(grad.value)
      else
        var hatch := FirstCandidate(HatchColor, els);
        if hatch.Some? then NormalizeColor(hatch.value) else None
  }

  /** The strict priority order, stated on positions in `iter()` order. */
  lemma PickFillPriority(bf: Element, src: FillSource, i: nat)
    requires var els := Elems(Iter(bf));
      && i < |els| && Candidate(src, els[i]).Some?
      && (forall j | 0 <= j < i :: Candidate(src, els[j]).None?)
      && (src != FaceColor ==> forall j | 0 <= j < |els| :: Candidate(FaceColor, els[j]).None?)
      && (src == HatchColor ==> forall j | 0 <= j < |els| :: Candidate(GradationColor, els[j]).None?)
    ensures PickFillColor(bf) == NormalizeColor(Candidate(src, Elems(Iter(bf))[i]).value)
  {
    var els := Elems(Iter(bf));
    FirstCandidateAt(src, els, i);
    FirstCandidateNone(FaceColor, els);
    FirstCandidateNone(GradationColor, els);
  }

  /** No candidate of any kind: no colour. */
  lemma PickFillAbsent(bf: Element)
    requires forall src: FillSource, j | 0 <= j < |Elems(Iter(bf))| :: Candidate(src, Elems(Iter(bf))[j]).None?
    ensures PickFillColor(bf).None?
  {
    var els := Elems(Iter(bf));
    FirstCandidateNone(FaceColor, els);
    FirstCandidateNone(GradationColor, els);
    FirstCandidateNone(HatchColor, els);
  }

  /** The `hh:borderFill` records with a digit id, in order. */
  function FillEntries(bfs: seq<Element>): seq<(int, BorderFill)> {
    if bfs == [] then []
    else
      var prev := FillEntries(bfs[..|bfs| - 1]);
      var bf := bfs[|bfs| - 1];
      var bid := Get(bf, "id");
      if bid.Some? && IsDigits(bid.value) then prev + [(DigitsValue(bid.value), BorderFill(PickFillColor(bf)))]
      else prev
  }

  /** What `parse_table_styles_from_header` returns. Unlike
      `parse_styles_from_header` it does not guard the opening of the header
      part, so an absent header is an error here. */
  function BorderFillsOf(header: Option<Element>): Result<map<int, BorderFill>, HeaderError> {
    if header.None? then Err(MissingHeader)
    else match Find(header.value, Hh("refList"))
      case None => Ok(map[])
      case Some(refList) => Ok(Assign(FillEntries(Children(Find(refList, Hh("borderFills")), Hh("borderFill")))))
  }

  predicate FillsNormalized(fills: map<int, BorderFill>) {
    forall k | k in fills && fills[k].fillColor.Some? :: IsNormalizedColor(fills[k].fillColor.value)
  }

  lemma {:induction false} FillEntriesNormalized(bfs: seq<Element>)
    ensures forall j | 0 <= j < |FillEntries(bfs)| ::
      FillEntries(bfs)[j].1.fillColor.Some? ==> IsNormalizedColor(FillEntries(bfs)[j].1.fillColor.value)
  {
    if bfs != [] {
      FillEntriesNormalized(bfs[..|bfs| - 1]);
    }
  }

  /** Every colour in the border-fill table has the `#RRGGBB` shape. */
  lemma BorderFillsNormalized(header: Option<Element>)
    requires BorderFillsOf(header).Ok?
    ensures FillsNormalized(BorderFillsOf(header).value)
  {
    var fills := BorderFillsOf(header).value;
    if header.Some? && Find(header.value, Hh("refList")).Some? {
      var es := FillEntries(Children(Find(Find(header.value, Hh("refList")).value, Hh("borderFills")), Hh("borderFill")));
      FillEntriesNormalized(Children(Find(Find(header.value, Hh("refList")).value, Hh("borderFills")), Hh("borderFill")));
      forall k | k in fills && fills[k].fillColor.Some? ensures IsNormalizedColor(fills[k].fillColor.value) {
        AssignFrom(es, k);
      }
    }
  }

  /** The border-fill records the table is built from: those whose id is a
      digit string, each with its picked colour. */
  lemma {:induction false} FillEntriesFrom(bfs: seq<Element>, j: nat)
    requires j < |FillEntries(bfs)|
    ensures exists i | 0 <= i < |bfs| ::
      && Get(bfs[i], "id").Some? && IsDigits(Get(bfs[i], "id").value)
      && FillEntries(bfs)[j] == (DigitsValue(Get(bfs[i], "id").value), BorderFill(PickFillColor(bfs[i])))
  {
    var init := bfs[..|bfs| - 1];
    var prev := FillEntries(init);
    if j < |prev| {
      FillEntriesFrom(init, j);
      var i :| 0 <= i < |init| && Get(init[i], "id").Some? && IsDigits(Get(init[i], "id").value)
        && prev[j] == (DigitsValue(Get(init[i], "id").value), BorderFill(PickFillColor(init[i])));
      assert bfs[i] == init[i];
    } else {
      assert bfs[|bfs| - 1] == bfs[|bfs| - 1];
    }
  }

  lemma {:induction false} FillEntriesInclude(bfs: seq<Element>, i: nat)
    requires i < |bfs| && Get(bfs[i], "id").Some? && IsDigits(Get(bfs[i], "id").value)
    ensures exists j | 0 <= j < |FillEntries(bfs)| :: FillEntries(bfs)[j].0 == DigitsValue(Get(bfs[i], "id").value)
  {
    var init := bfs[..|bfs| - 1];
    var prev := FillEntries(init);
    if i < |bfs| - 1 {
      assert init[i] == bfs[i];
      FillEntriesInclude(init, i);
      var j :| 0 <= j < |prev| && prev[j].0 == DigitsValue(Get(init[i], "id").value);
      assert FillEntries(bfs)[j] == prev[j];
    } else {
      assert FillEntries(bfs)[|prev|].0 == DigitsValue(Get(bfs[i], "id").value);
    }
  }

  lemma FillEntriesStep(bfs: seq<Element>, i: nat)
    requires i < |bfs|
    ensures var bid := Get(bfs[i], "id");
      FillEntries(bfs[..i + 1]) ==
        if bid.Some? && IsDigits(bid.value) then FillEntries(bfs[..i]) + [(DigitsValue(bid.value), BorderFill(PickFillColor(bfs[i])))]
        else FillEntries(bfs[..i])
  {
    assert bfs[..i + 1][..i] == bfs[..i];
  }

  /** Reads the border-fill table the way `parse_table_styles_from_header` does. */
  method ParseTableStylesFromHeader(header: Option<Element>) returns (r: Result<map<int, BorderFill>, HeaderError>)
    ensures r == BorderFillsOf(header)
  {
    if header.None? {
      return Err(MissingHeader);
    }
    var refListOpt := Find(header.value, Hh("refList"));
    if refListOpt.None? {
      return Ok(map[]);
    }
    var bfs := Children(Find(refListOpt.value, Hh("borderFills")), Hh("borderFill"));
    var fills: map<int, BorderFill> := map[];
    var i := 0;
    while i < |bfs|
      invariant 0 <= i <= |bfs|
      invariant fills == Assign(FillEntries(bfs[..i]))
    {
      FillEntriesStep(bfs, i);
      var bid := Get(bfs[i], "id");
      if bid.None? || !IsDigits(bid.value) {
        i := i + 1;
        continue;
      }
      var color := PickFillColor(bfs[i]);
      var entry := (DigitsValue(bid.value), BorderFill(color));
      AssignStep(FillEntries(bfs[..i]), entry);
      fills := fills[entry.0 := entry.1];
      i := i + 1;
    }
    assert bfs[..i] == bfs;
    r := Ok(fills);
  }
}
