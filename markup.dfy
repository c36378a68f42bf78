/** The inline-markup scanner `parse_segments` of the document generator: it
    splits a text into plain runs and runs marked `**bold**`, `_italic_`,
    `*italic*` or `<u>underline</u>`. The regular expressions are modelled
    by hand: each is an opener, a lazy `(.+?)` and a closer. */
module Markup {
  import opened Wrappers
  import opened Seqs

  /** The four patterns, in the order they are tried. */
  datatype Kind = Bold | UnderscoreItalic | StarItalic | Underline

  const Kinds: seq<Kind> := [Bold, UnderscoreItalic, StarItalic, Underline]

  function Opener(k: Kind): string {
    match k
    case Bold => "**"
    case UnderscoreItalic => "_"
    case StarItalic => "*"
    case Underline => "<u>"
  }

  function Closer(k: Kind): string {
    match k
    case Bold => "**"
    case UnderscoreItalic => "_"
    case StarItalic => "*"
    case Underline => "</u>"
  }

  /** The position of a pattern in the order of trial. */
  function Rank(k: Kind): (r: nat)
    ensures r < |Kinds| && Kinds[r] == k
  {
    match k
    case Bold => 0
    case UnderscoreItalic => 1
    case StarItalic => 2
    case Underline => 3
  }

  predicate StartsWith(t: string, p: string) {
    |p| <= |t| && t[..|p|] == p
  }

  /** The `n` characters after the opener of pattern `k` at the start of
      `t`: `m.group(1)` when the match has a group of `n` characters. */
  function Group(t: string, k: Kind, n: nat): (g: string)
    requires |Opener(k)| + n <= |t|
    ensures |g| == n
  {
    t[|Opener(k)|..|Opener(k)| + n]
  }

  /** What follows a group of `n` characters, where the closer must be. */
  function After(t: string, k: Kind, n: nat): string
    requires |Opener(k)| + n <= |t|
  {
    t[|Opener(k)| + n..]
  }

  lemma GroupSnoc(t: string, k: Kind, n: nat)
    requires |Opener(k)| + n + 1 <= |t|
    ensures Group(t, k, n + 1) == Group(t, k, n) + [t[|Opener(k)| + n]]
  {
  }

  /** `n` characters would do for the group `(.+?)` of pattern `k` at the
      start of `t`: the opener is there, the `n` characters after it are not
      line breaks (`.` does not match one) and the closer follows them. */
  predicate IsInner(t: string, k: Kind, n: nat) {
    && StartsWith(t, Opener(k))
    && 1 <= n && |Opener(k)| + n <= |t|
    && '\n' !in Group(t, k, n)
    && StartsWith(After(t, k, n), Closer(k))
  }

  /** The lazy search: try a group of `n` characters, then `n + 1`, … */
  function InnerFrom(t: string, k: Kind, n: nat): (r: Option<nat>)
    requires 1 <= n
    decreases |t| - n
  {
    if |Opener(k)| + n > |t| then None
    else if t[|Opener(k)| + n - 1] == '\n' then None
    else if StartsWith(After(t, k, n), Closer(k)) then Some(n)
    else InnerFrom(t, k, n + 1)
  }

  /** `re.match(pattern_k, t)`: the length of group 1 when the pattern matches. */
  function Match(t: string, k: Kind): (r: Option<nat>)
    ensures r.Some? ==> 1 <= r.value && MatchLen(k, r.value) <= |t|
  {
    if StartsWith(t, Opener(k)) then
      var r := InnerFrom(t, k, 1);
      InnerFromSound(t, k, 1);
      r
    else None
  }

  lemma MatchSound(t: string, k: Kind)
    ensures Match(t, k).Some? ==> IsInner(t, k, Match(t, k).value)
  {
    if StartsWith(t, Opener(k)) {
      InnerFromSound(t, k, 1);
    }
  }

  /** The search from `n` on, with no line break in the first `n - 1`
      characters, finds the shortest group from `n` on. */
  lemma {:induction false} InnerFromSound(t: string, k: Kind, n: nat)
    requires 1 <= n && StartsWith(t, Opener(k))
    requires |Opener(k)| + n - 1 <= |t| && '\n' !in Group(t, k, n - 1)
    ensures InnerFrom(t, k, n).Some? ==>
      var m := InnerFrom(t, k, n).value;
      n <= m && IsInner(t, k, m) && forall m' | n <= m' < m :: !IsInner(t, k, m')
    decreases |t| - n
  {
    if |Opener(k)| + n <= |t| && t[|Opener(k)| + n - 1] != '\n' {
      GroupSnoc(t, k, n - 1);
      if !StartsWith(After(t, k, n), Closer(k)) {
        InnerFromSound(t, k, n + 1);
      }
    }
  }

  /** A group of `m` characters that would do is found from any `n <= m`. */
  lemma {:induction false} InnerFromFinds(t: string, k: Kind, n: nat, m: nat)
    requires 1 <= n <= m && IsInner(t, k, m)
    ensures InnerFrom(t, k, n).Some?
    decreases m - n
  {
    var g := Group(t, k, m);
    assert g[n - 1] == t[|Opener(k)| + n - 1];
    assert t[|Opener(k)| + n - 1] != '\n';
    if n < m && !StartsWith(After(t, k, n), Closer(k)) {
      InnerFromFinds(t, k, n + 1, m);
    }
  }

  /** The lazy group is the SHORTEST that completes the pattern, and the
      pattern fails only when no group length completes it. */
  lemma MatchExact(t: string, k: Kind)
    ensures Match(t, k).Some? ==> forall m | 1 <= m < Match(t, k).value :: !IsInner(t, k, m)
    ensures Match(t, k).None? <==> forall m :: !IsInner(t, k, m)
  {
    if StartsWith(t, Opener(k)) {
      InnerFromSound(t, k, 1);
    }
    if m :| IsInner(t, k, m) {
      InnerFromFinds(t, k, 1, m);
    }
  }

  function FirstMatchIn(t: string, ks: seq<Kind>): (r: Option<(Kind, nat)>)
    ensures r.Some? ==> Match(t, r.value.0) == Some(r.value.1)
    ensures r.Some? ==> 1 <= r.value.1 && MatchLen(r.value.0, r.value.1) <= |t|
  {
    if ks == [] then None
    else if Match(t, ks[0]).Some? then Some((ks[0], Match(t, ks[0]).value))
    else FirstMatchIn(t, ks[1..])
  }

  /** The `for pat, typ in patterns` loop: the first pattern that matches. */
  function FirstMatch(t: string): (r: Option<(Kind, nat)>)
    ensures r.Some? ==> Match(t, r.value.0) == Some(r.value.1)
    ensures r.Some? ==> 1 <= r.value.1 && MatchLen(r.value.0, r.value.1) <= |t|
  {
    FirstMatchIn(t, Kinds)
  }

  /** Where in `ks` the first match was found, with every pattern before it
      failing; or every pattern failing. */
  lemma {:induction false} FirstMatchInAt(t: string, ks: seq<Kind>) returns (i: nat)
    ensures FirstMatchIn(t, ks).Some? ==>
      && i < |ks| && ks[i] == FirstMatchIn(t, ks).value.0
      && forall j | 0 <= j < i :: Match(t, ks[j]).None?
    ensures FirstMatchIn(t, ks).None? ==> forall j | 0 <= j < |ks| :: Match(t, ks[j]).None?
  {
    if ks == [] {
      i := 0;
    } else if Match(t, ks[0]).Some? {
      i := 0;
    } else {
      var i' := FirstMatchInAt(t, ks[1..]);
      i := i' + 1;
      assert forall j | 1 <= j < |ks| :: ks[j] == ks[1..][j - 1];
    }
  }

  /** The patterns are tried in their fixed order and the first that matches
      wins: every pattern before the winner fails, and nothing is found only
      when all four fail. */
  lemma FirstMatchPriority(t: string)
    ensures FirstMatch(t).None? <==> forall k :: Match(t, k).None?
    ensures FirstMatch(t).Some? ==>
      && Match(t, FirstMatch(t).value.0) == Some(FirstMatch(t).value.1)
      && forall k | Rank(k) < Rank(FirstMatch(t).value.0) :: Match(t, k).None?
  {
    var i := FirstMatchInAt(t, Kinds);
    if FirstMatch(t).None? {
      forall k ensures Match(t, k).None? {
        assert Kinds[Rank(k)] == k;
      }
    } else {
      var w := FirstMatch(t).value.0;
      assert Rank(Kinds[i]) == i;
      forall k | Rank(k) < Rank(w) ensures Match(t, k).None? {
        assert Kinds[Rank(k)] == k;
      }
    }
  }

  /** The first match is a match: `IsInner` holds for its group length. */
  lemma FirstMatchSound(t: string)
    ensures FirstMatch(t).Some? ==> IsInner(t, FirstMatch(t).value.0, FirstMatch(t).value.1)
  {
    if FirstMatch(t).Some? {
      MatchSound(t, FirstMatch(t).value.0);
    }
  }

  /** The length of the whole match, `len(m.group(0))`. */
  function MatchLen(k: Kind, n: nat): nat {
    |Opener(k)| + n + |Closer(k)|
  }

  // ---------------------------------------------------------------------------
  // Tokens: what the scanner recognises, before the flags are attached.

  datatype Token = Plain(text: string) | Marked(kind: Kind, inner: string)

  /** What the scanner asks of the pattern loop at one position: the pattern
      that matches there, if any, with a non-empty group and a whole match
      that fits in the text. The pattern loop is one; the scanner and its
      reading are stated for any. */
  type Matcher = fm: string -> Option<(Kind, nat)>
    | forall s :: fm(s).Some? ==> 1 <= fm(s).value.1 && MatchLen(fm(s).value.0, fm(s).value.1) <= |s|
    witness s => None

  /** The pattern loop of `parse_segments` as a matcher. */
  const PatternLoop: Matcher := FirstMatch

  lemma PatternLoopIs(t: string)
    ensures PatternLoop(t) == FirstMatch(t)
  {
  }

  /** The text a token was read from. */
  function Source(tok: Token): string {
    match tok
    case Plain(s) => s
    case Marked(k, s) => Opener(k) + s + Closer(k)
  }

  function Render(toks: seq<Token>): string {
    if toks == [] then "" else Source(toks[0]) + Render(toks[1..])
  }

  /** The plain run before a match, `pre`, when it is not empty. */
  function Flush(pre: string): (r: seq<Token>)
    ensures pre == [] ==> r == []
    ensures pre != [] ==> r == [Plain(pre)]
  {
    if pre == [] then [] else [Plain(pre)]
  }

  /** The scan of the text `pre + t`, where `pre` is `text[:i]`, passed
      without a match, and `t` is `text[i:]`: on a match the run before it
      and the marked token are emitted and the scan restarts after the
      match; at the end what is left is one plain run. */
  function Scan(fm: Matcher, pre: string, t: string): seq<Token>
    decreases |t|
  {
    if t == [] then Flush(pre)
    else
      var r := fm(t);
      if r.None? then Scan(fm, pre + [t[0]], t[1..])
      else
        var k := r.value.0;
        var n := r.value.1;
        Flush(pre) + ([Marked(k, Group(t, k, n))] + Scan(fm, [], t[MatchLen(k, n)..]))
  }

  /** How much of the text a token takes up. */
  function Width(tok: Token): nat {
    match tok
    case Plain(s) => |s|
    case Marked(k, s) => MatchLen(k, |s|)
  }

  /** The token is right at the start of `t`: a plain token is a non-empty
      prefix at none of whose positions the matcher finds anything; a marked
      token is what the matcher finds there, with its group. */
  predicate Heads(fm: Matcher, t: string, tok: Token) {
    match tok
    case Plain(s) => s != [] && |s| <= |t| && s == t[..|s|] && forall j | 0 <= j < |s| :: fm(t[j..]).None?
    case Marked(k, s) => fm(t) == Some((k, |s|)) && s == Group(t, k, |s|)
  }

  /** The leftmost-first reading of `t`: each token heads what is left, and
      a plain token is followed by a marked one or by the end. */
  predicate Valid(fm: Matcher, t: string, toks: seq<Token>)
    decreases |toks|
  {
    if toks == [] then t == []
    else
      && Heads(fm, t, toks[0]) && Width(toks[0]) <= |t|
      && (toks[0].Plain? && |toks| > 1 ==> toks[1].Marked?)
      && Valid(fm, t[Width(toks[0])..], toks[1..])
  }

  lemma ValidCons(fm: Matcher, t: string, tok: Token, rest: seq<Token>)
    requires Heads(fm, t, tok) && Width(tok) <= |t|
    requires tok.Plain? && rest != [] ==> rest[0].Marked?
    requires Valid(fm, t[Width(tok)..], rest)
    ensures Valid(fm, t, [tok] + rest)
  {
    ConsTail(tok, rest);
  }

  /** The run `pre`, at none of whose positions anything matched, heads the
      text `pre + t`. */
  lemma ValidFlush(fm: Matcher, pre: string, t: string, tail: seq<Token>)
    requires forall j | 0 <= j < |pre| :: fm((pre + t)[j..]).None?
    requires tail != [] ==> tail[0].Marked?
    requires Valid(fm, t, tail)
    ensures Valid(fm, pre + t, Flush(pre) + tail)
  {
    AppendParts(pre, t);
    if pre == [] {
      assert [] + tail == tail;
    } else {
      ValidCons(fm, pre + t, Plain(pre), tail);
    }
  }

  lemma HeadsMarked(fm: Matcher, t: string, k: Kind, n: nat)
    requires fm(t) == Some((k, n))
    ensures Heads(fm, t, Marked(k, Group(t, k, n)))
    ensures Width(Marked(k, Group(t, k, n))) == MatchLen(k, n) <= |t|
  {
  }

  /** The scan reads the text leftmost-first. */
  lemma {:induction false} ScanValid(fm: Matcher, pre: string, t: string)
    requires forall j | 0 <= j < |pre| :: fm((pre + t)[j..]).None?
    ensures Valid(fm, pre + t, Scan(fm, pre, t))
    decreases |t|
  {
    if t == [] {
      ValidFlush(fm, pre, t, []);
      assert Flush(pre) + [] == Flush(pre);
    } else if fm(t).None? {
      var pre' := pre + [t[0]];
      ConsTail(t[0], t[1..]);
      AppendAssoc(pre, [t[0]], t[1..]);
      assert [t[0]] + t[1..] == t;
      AppendParts(pre, t);
      ScanValid(fm, pre', t[1..]);
    } else {
      var k, n := fm(t).value.0, fm(t).value.1;
      var rest := t[MatchLen(k, n)..];
      var m := Marked(k, Group(t, k, n));
      ScanValid(fm, [], rest);
      assert [] + rest == rest;
      HeadsMarked(fm, t, k, n);
      ValidCons(fm, t, m, Scan(fm, [], rest));
      ValidFlush(fm, pre, t, [m] + Scan(fm, [], rest));
    }
  }

  /** Two readings of the same text start with the same token. */
  lemma HeadUnique(fm: Matcher, t: string, a: seq<Token>, b: seq<Token>)
    requires Valid(fm, t, a) && Valid(fm, t, b) && a != [] && b != []
    ensures a[0] == b[0]
  {
    assert t[0..] == t;
    if a[0].Plain? && b[0].Plain? {
      var s, s' := a[0].text, b[0].text;
      if |s| < |s'| {
        assert false;
      } else if |s'| < |s| {
        assert false;
      }
    } else if a[0].Plain? || b[0].Plain? {
      assert false;
    }
  }

  /** Two readings of the same text agree: the leftmost-first reading is
      unique. */
  lemma {:induction false} ValidUnique(fm: Matcher, t: string, a: seq<Token>, b: seq<Token>)
    requires Valid(fm, t, a) && Valid(fm, t, b)
    ensures a == b
    decreases |a|
  {
    if a != [] && b != [] {
      HeadUnique(fm, t, a, b);
      ValidUnique(fm, t[Width(a[0])..], a[1..], b[1..]);
      assert a == [a[0]] + a[1..] && b == [b[0]] + b[1..];
    }
  }

  /** A match is its opener, its group and its closer. */
  lemma MatchSource(t: string, k: Kind, n: nat)
    requires IsInner(t, k, n)
    ensures t[..MatchLen(k, n)] == Opener(k) + Group(t, k, n) + Closer(k)
  {
    assert After(t, k, n) == t[|Opener(k)| + n..];
    var o, c := |Opener(k)|, |Closer(k)|;
    Split(t, 0, o, o + n);
    Split(t, 0, o + n, o + n + c);
    TakeOfDrop(t, o + n, c);
  }

  lemma HeadSource(t: string, tok: Token)
    requires Heads(PatternLoop, t, tok) && Width(tok) <= |t|
    ensures t[..Width(tok)] == Source(tok)
  {
    if tok.Marked? {
      PatternLoopIs(t);
      FirstMatchSound(t);
      MatchSource(t, tok.kind, |tok.inner|);
    }
  }

  lemma JoinAt(t: string, w: nat, a: string, b: string)
    requires w <= |t| && a == t[..w] && b == t[w..]
    ensures a + b == t
  {
  }

  /** A reading by the pattern loop puts the text back together, delimiters
      included: nothing is lost or reordered. */
  lemma {:induction false} ValidRender(t: string, toks: seq<Token>)
    requires Valid(PatternLoop, t, toks)
    ensures Render(toks) == t
    decreases |toks|
  {
    if toks != [] {
      var w := Width(toks[0]);
      ValidRender(t[w..], toks[1..]);
      HeadSource(t, toks[0]);
      JoinAt(t, w, Source(toks[0]), Render(toks[1..]));
    }
  }

  /** Every token of a reading has text: no empty segment comes out. */
  lemma {:induction false} ValidNonEmpty(fm: Matcher, t: string, toks: seq<Token>)
    requires Valid(fm, t, toks)
    ensures forall i | 0 <= i < |toks| :: TokenText(toks[i]) != ""
    decreases |toks|
  {
    if toks != [] {
      ValidNonEmpty(fm, t[Width(toks[0])..], toks[1..]);
      assert forall i | 1 <= i < |toks| :: toks[i] == toks[1..][i - 1];
    }
  }

  // ---------------------------------------------------------------------------
  // Segments.

  /** A segment: `{"text": …}` with `"bold": True` or `"italic": True` when
      present; a flag that is absent is false. */
  datatype Seg = Seg(text: string, bold: bool, italic: bool)

  function TokenText(tok: Token): string {
    match tok
    case Plain(s) => s
    case Marked(_, s) => s
  }

  /** Bold tokens set `bold`, both italic patterns set `italic`, and plain
      and underline tokens set neither. */
  function SegOf(tok: Token): (r: Seg)
    ensures r.text == TokenText(tok)
    ensures r.bold <==> tok.Marked? && tok.kind == Bold
    ensures r.italic <==> tok.Marked? && (tok.kind == UnderscoreItalic || tok.kind == StarItalic)
    ensures !(r.bold && r.italic)
  {
    match tok
    case Plain(s) => Seg(s, false, false)
    case Marked(Bold, s) => Seg(s, true, false)
    case Marked(UnderscoreItalic, s) => Seg(s, false, true)
    case Marked(StarItalic, s) => Seg(s, false, true)
    case Marked(Underline, s) => Seg(s, false, false)
  }

  function SegsOf(toks: seq<Token>): (r: seq<Seg>)
    ensures |r| == |toks|
  {
    if toks == [] then [] else [SegOf(toks[0])] + SegsOf(toks[1..])
  }

  lemma {:induction false} SegsOfAppend(a: seq<Token>, b: seq<Token>)
    ensures SegsOf(a + b) == SegsOf(a) + SegsOf(b)
  {
    if a != [] {
      assert (a + b)[1..] == a[1..] + b;
      SegsOfAppend(a[1..], b);
    } else {
      assert a + b == b;
    }
  }

  lemma {:induction false} SegsOfAt(toks: seq<Token>, i: nat)
    requires i < |toks|
    ensures SegsOf(toks)[i] == SegOf(toks[i])
  {
    if i > 0 {
      SegsOfAt(toks[1..], i - 1);
    }
  }

  function ParseSegmentsOf(text: string): seq<Seg> {
    SegsOf(Scan(PatternLoop, [], text))
  }

  /** The text with every matched delimiter pair removed. */
  function Payload(toks: seq<Token>): string {
    if toks == [] then "" else TokenText(toks[0]) + Payload(toks[1..])
  }

  function SegsText(segs: seq<Seg>): string {
    if segs == [] then "" else segs[0].text + SegsText(segs[1..])
  }

  lemma {:induction false} SegsTextPayload(toks: seq<Token>)
    ensures SegsText(SegsOf(toks)) == Payload(toks)
  {
    if toks != [] {
      SegsTextPayload(toks[1..]);
    }
  }

  /** What `parse_segments` promises: its tokens are the unique
      leftmost-first reading of the text, they spell the text back with the
      delimiters, the segments spell it without them, and no segment is
      empty or both bold and italic. */
  lemma ParseSegmentsFacts(text: string)
    ensures Valid(PatternLoop, text, Scan(PatternLoop, [], text))
    ensures forall toks | Valid(PatternLoop, text, toks) :: toks == Scan(PatternLoop, [], text)
    ensures Render(Scan(PatternLoop, [], text)) == text
    ensures SegsText(ParseSegmentsOf(text)) == Payload(Scan(PatternLoop, [], text))
    ensures forall i | 0 <= i < |ParseSegmentsOf(text)| :: ParseSegmentsOf(text)[i].text != ""
    ensures forall i | 0 <= i < |ParseSegmentsOf(text)| :: !(ParseSegmentsOf(text)[i].bold && ParseSegmentsOf(text)[i].italic)
  {
    var toks := Scan(PatternLoop, [], text);
    ScanValid(PatternLoop, [], text);
    assert [] + text == text;
    forall other | Valid(PatternLoop, text, other) ensures other == toks {
      ValidUnique(PatternLoop, text, other, toks);
    }
    ValidRender(text, toks);
    SegsTextPayload(toks);
    ValidNonEmpty(PatternLoop, text, toks);
    forall i | 0 <= i < |ParseSegmentsOf(text)| ensures ParseSegmentsOf(text)[i] == SegOf(toks[i]) {
      SegsOfAt(toks, i);
    }
  }

  /** A text in which no pattern matches anywhere is one plain segment, and
      the empty text gives none. */
  lemma {:induction false} ScanNoMarkup(fm: Matcher, pre: string, t: string)
    requires forall j | 0 <= j < |t| :: fm(t[j..]).None?
    ensures Scan(fm, pre, t) == Flush(pre + t)
    decreases |t|
  {
    if t == [] {
      assert pre + t == pre;
    } else {
      assert t[0..] == t;
      forall j | 0 <= j < |t[1..]| ensures fm(t[1..][j..]).None? {
        DropDrop(t, 1, j);
      }
      ScanNoMarkup(fm, pre + [t[0]], t[1..]);
      AppendAssoc(pre, [t[0]], t[1..]);
      ConsTail(t[0], t[1..]);
      assert [t[0]] + t[1..] == t;
    }
  }

  lemma NoMarkupOneSegment(text: string)
    requires forall j | 0 <= j < |text| :: PatternLoop(text[j..]).None?
    ensures ParseSegmentsOf(text) == if text == [] then [] else [Seg(text, false, false)]
  {
    ScanNoMarkup(PatternLoop, [], text);
    assert [] + text == text;
  }

  /** The segments one match step emits, after those already emitted. */
  lemma SegsOfStep(before: seq<Seg>, pre: string, m: Token, rest: seq<Token>)
    ensures before + SegsOf(Flush(pre) + ([m] + rest)) == before + SegsOf(Flush(pre)) + [SegOf(m)] + SegsOf(rest)
  {
    SegsOfAppend(Flush(pre), [m] + rest);
    ConsTail(m, rest);
    AppendAssoc(SegsOf(Flush(pre)), [SegOf(m)], SegsOf(rest));
    AppendAssoc(before, SegsOf(Flush(pre)) + [SegOf(m)], SegsOf(rest));
    AppendAssoc(before, SegsOf(Flush(pre)), [SegOf(m)]);
  }

  lemma SegsOfFlush(pre: string)
    ensures SegsOf(Flush(pre)) == if pre == [] then [] else [Seg(pre, false, false)]
  {
    if pre != [] {
      assert [Plain(pre)][1..] == [];
    }
  }

  /** The `i += 1` step: a position where nothing matches joins the plain
      run. */
  lemma PlainStep(text: string, i: nat)
    requires i < |text| && PatternLoop(text[i..]).None?
    ensures Scan(PatternLoop, text[..i], text[i..]) == Scan(PatternLoop, text[..i + 1], text[i + 1..])
  {
    PrefixStep(text, i);
    assert text[..i + 1] == text[..i] + [text[i]];
    assert text[i + 1..] == text[i..][1..];
  }

  /** The match step: the run before the match and the marked token with
      the group `text[i + o:i + o + n]` are emitted, and the scan goes on
      with the text after the match. */
  lemma MarkedStep(text: string, i: nat, k: Kind, n: nat)
    requires i < |text| && PatternLoop(text[i..]) == Some((k, n))
    ensures MatchLen(k, n) <= |text| - i
    ensures Scan(PatternLoop, text[..i], text[i..]) ==
      Flush(text[..i]) + ([Marked(k, Group(text[i..], k, n))] + Scan(PatternLoop, [], text[i + MatchLen(k, n)..]))
  {
    DropDrop(text, i, MatchLen(k, n));
  }

  // ---------------------------------------------------------------------------
  // The scanner, as the source runs it.

  /** The pattern loop at one position: `re.match` with each pattern in turn,
      stopping at the first match. */
  method MatchPatterns(t: string) returns (r: Option<(Kind, nat)>)
    ensures r == FirstMatch(t) && r == PatternLoop(t)
  {
    PatternLoopIs(t);
    var j := 0;
    while j < |Kinds|
      invariant 0 <= j <= |Kinds|
      invariant FirstMatchIn(t, Kinds[j..]) == FirstMatch(t)
    {
      var m := Match(t, Kinds[j]);
      if m.Some? {
        return Some((Kinds[j], m.value));
      }
      assert Kinds[j..][1..] == Kinds[j + 1..];
      j := j + 1;
    }
    return None;
  }

  /** The segments of one match: the run before it, when not empty, and
      the group with the flag of its pattern. */
  method EmitMatch(segments: seq<Seg>, pre: string, k: Kind, val: string) returns (out: seq<Seg>)
    ensures out == segments + SegsOf(Flush(pre)) + [SegOf(Marked(k, val))]
  {
    SegsOfFlush(pre);
    out := segments;
    if pre != [] {
      out := out + [Seg(pre, false, false)];
    } else {
      assert out == out + [];
    }
    var segment := Seg(val, false, false);
    if k == Bold {
      segment := segment.(bold := true);
    } else if k == UnderscoreItalic || k == StarItalic {
      segment := segment.(italic := true);
    }
    out := out + [segment];
  }

  /** `parse_segments`. */
  method ParseSegments(text0: string) returns (segments: seq<Seg>)
    ensures segments == ParseSegmentsOf(text0)
  {
    segments := [];
    var text := text0;
    var i := 0;
    assert text[..0] == [] && text[0..] == text;
    while i < |text|
      invariant i <= |text|
      invariant segments + SegsOf(Scan(PatternLoop, text[..i], text[i..])) == ParseSegmentsOf(text0)
      decreases |text|, |text| - i
    {
      var found := MatchPatterns(text[i..]);
      if found.Some? {
        var k, n := found.value.0, found.value.1;
        MarkedStep(text, i, k, n);
        var val := Group(text[i..], k, n);
        var pre := text[..i];
        SegsOfStep(segments, pre, Marked(k, val), Scan(PatternLoop, [], text[i + MatchLen(k, n)..]));
        segments := EmitMatch(segments, pre, k, val);
        text := text[i + MatchLen(k, n)..];
        i := 0;
        assert text[..0] == [] && text[0..] == text;
      } else {
        PlainStep(text, i);
        i := i + 1;
      }
    }
    assert text[..i] == text && text[i..] == [];
    assert Scan(PatternLoop, text[..i], text[i..]) == Flush(text);
    SegsOfFlush(text);
    if text != [] {
      segments := segments + [Seg(text, false, false)];
    } else {
      assert segments == segments + [];
    }
  }
}
