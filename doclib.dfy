/** The two pure helpers of the document generator: `hex_to_rgb`, which reads
    a `#RRGGBB` color into its three channels with Python's `int(…, 16)`, and
    `heuristic_style_for_key`, the fixed style table for a few well-known
    keys. */
module Doclib {
  import opened Wrappers
  import opened Text
  import opened HeaderStyles

  predicate IsHexDigit(c: char) {
    IsAsciiDigit(c) || 'a' <= c <= 'f' || 'A' <= c <= 'F'
  }

  function HexValue(c: char): (d: nat)
    requires IsHexDigit(c)
    ensures d < 16
  {
    if IsAsciiDigit(c) then DigitValue(c)
    else if 'a' <= c <= 'f' then (c as int - 'a' as int + 10) as nat
    else (c as int - 'A' as int + 10) as nat
  }

  /** The lower-case spelling of a hex digit. */
  function HexChar(d: nat): (c: char)
    requires d < 16
    ensures IsHexDigit(c) && HexValue(c) == d
  {
    if d < 10 then DigitChar(d) else (d - 10 + 'a' as int) as char
  }

  /** The byte two hex digits spell, high digit first. */
  function PairValue(hi: char, lo: char): (v: nat)
    requires IsHexDigit(hi) && IsHexDigit(lo)
    ensures v < 256
  {
    HexValue(hi) * 16 + HexValue(lo)
  }

  predicate AllHex(s: string) {
    forall i | 0 <= i < |s| :: IsHexDigit(s[i])
  }

  /** The number a hex digit string denotes. */
  function HexDigitsValue(s: string): nat
    requires AllHex(s)
  {
    if s == [] then 0 else HexDigitsValue(s[..|s| - 1]) * 16 + HexValue(s[|s| - 1])
  }

  /** The digits of a literal accepted by `int(s, 16)`: runs of hex digits
      separated by single underscores. */
  predicate IsHexBody(s: string)
    decreases |s|
  {
    && |s| > 0 && IsHexDigit(s[0])
    && (|s| == 1 || if s[1] == '_' then IsHexBody(s[2..]) else IsHexBody(s[1..]))
  }

  lemma {:induction false} HexBodyChars(s: string)
    requires IsHexBody(s)
    ensures forall i | 0 <= i < |s| :: IsHexDigit(s[i]) || s[i] == '_'
    decreases |s|
  {
    if |s| > 1 {
      var d := if s[1] == '_' then 2 else 1;
      HexBodyChars(s[d..]);
      forall i | d <= i < |s| ensures IsHexDigit(s[i]) || s[i] == '_' {
        assert s[i] == s[d..][i - d];
      }
    }
  }

  lemma {:induction false} DropUnderscoresHex(s: string)
    requires forall i | 0 <= i < |s| :: IsHexDigit(s[i]) || s[i] == '_'
    ensures AllHex(DropUnderscores(s))
    decreases |s|
  {
    if s != [] {
      assert forall i | 0 <= i < |s[1..]| :: s[1..][i] == s[i + 1];
      DropUnderscoresHex(s[1..]);
      if s[0] != '_' {
        var r := DropUnderscores(s[1..]);
        assert DropUnderscores(s) == [s[0]] + r;
        assert forall i | 1 <= i < |[s[0]] + r| :: ([s[0]] + r)[i] == r[i - 1];
      }
    }
  }

  function HexBodyValue(s: string): nat
    requires IsHexBody(s)
  {
    HexBodyChars(s);
    DropUnderscoresHex(s);
    HexDigitsValue(DropUnderscores(s))
  }

  /** What is left of a stripped literal once its sign is taken off. */
  function Unsigned(t: string): string {
    if |t| > 0 && (t[0] == '+' || t[0] == '-') then t[1..] else t
  }

  /** What is left of an unsigned literal once an optional `0x` or `0X`
      prefix, with the one underscore allowed after it, is taken off. */
  function Unprefixed(u: string): string {
    if |u| >= 2 && u[0] == '0' && (u[1] == 'x' || u[1] == 'X') then
      if |u| >= 3 && u[2] == '_' then u[3..] else u[2..]
    else u
  }

  /** `int(s, 16)`; `None` where Python raises `ValueError`.  It strips
      white space, then reads an optional sign, an optional `0x` prefix and
      the digits. */
  function PyIntHex(s: string): Option<int> {
    HexLiteral(Strip(s))
  }

  function HexLiteral(t: string): Option<int> {
    var body := Unprefixed(Unsigned(t));
    if IsHexBody(body) then Some(WithSign(t, HexBodyValue(body))) else None
  }

  function WithSign(t: string, v: nat): int {
    if |t| > 0 && t[0] == '-' then -(v as int) else v
  }

  /** `s[a:b]` with Python's clamping of indices past the end. */
  function Slice(s: string, a: nat, b: nat): (r: string)
    requires a <= b
    ensures |r| <= b - a
  {
    var lo := if a <= |s| then a else |s|;
    var hi := if b <= |s| then b else |s|;
    seq(hi - lo, i requires 0 <= i < hi - lo => s[lo + i])
  }

  /** `Slice` is the clamped slice of `s`. */
  lemma SliceClamps(s: string, a: nat, b: nat)
    requires a <= b
    ensures b <= |s| ==> Slice(s, a, b) == s[a..b]
    ensures a <= |s| < b ==> Slice(s, a, b) == s[a..]
    ensures |s| < a ==> Slice(s, a, b) == []
  {
  }

  /** `s.lstrip('#')`: every leading `#` goes. */
  function LStripHash(s: string): (r: string)
    ensures r == [] || r[0] != '#'
    decreases |s|
  {
    if |s| > 0 && s[0] == '#' then LStripHash(s[1..]) else s
  }

  /** `hex_to_rgb(color)`: the values of characters 0-1, 2-3 and 4-5 of the
      color without its leading `#`s; `None` where one of the `int` calls
      raises. */
  function HexToRgb(color: string): Option<(int, int, int)> {
    Channels(LStripHash(color))
  }

  /** The three `int(…, 16)` calls on the stripped color `h`. */
  function Channels(h: string): Option<(int, int, int)> {
    var red := PyIntHex(Slice(h, 0, 2));
    var green := PyIntHex(Slice(h, 2, 4));
    var blue := PyIntHex(Slice(h, 4, 6));
    if red.Some? && green.Some? && blue.Some? then Some((red.value, green.value, blue.value))
    else None
  }

  lemma ChannelsOf(h: string, r: int, g: int, b: int)
    requires PyIntHex(Slice(h, 0, 2)) == Some(r)
    requires PyIntHex(Slice(h, 2, 4)) == Some(g)
    requires PyIntHex(Slice(h, 4, 6)) == Some(b)
    ensures Channels(h) == Some((r, g, b))
  {
  }

  lemma StripHex(s: string)
    requires AllHex(s)
    ensures Strip(s) == s
  {
    if s != [] {
      assert !IsPySpace(s[0]) && !IsPySpace(s[|s| - 1]);
    }
  }

  lemma {:induction false} DropNoUnderscores(s: string)
    requires AllHex(s)
    ensures DropUnderscores(s) == s
    decreases |s|
  {
    if s != [] {
      assert AllHex(s[1..]) by {
        assert forall i | 0 <= i < |s[1..]| :: s[1..][i] == s[i + 1];
      }
      DropNoUnderscores(s[1..]);
      assert s[0] != '_';
      assert [s[0]] + s[1..] == s;
    }
  }

  lemma HexPairValue(s: string)
    requires |s| == 2 && AllHex(s)
    ensures IsHexBody(s) && HexBodyValue(s) == HexValue(s[0]) * 16 + HexValue(s[1])
  {
    assert IsHexBody(s[1..]);
    DropNoUnderscores(s);
    assert HexDigitsValue(s) == HexDigitsValue(s[..1]) * 16 + HexValue(s[1]);
    assert s[..1][..0] == [] && s[..1][0] == s[0];
    assert HexDigitsValue(s[..1]) == HexValue(s[0]);
  }

  /** `int` of two hex digits with nothing around them. */
  lemma HexLiteralPair(s: string)
    requires |s| == 2 && AllHex(s)
    ensures HexLiteral(s) == Some(HexValue(s[0]) * 16 + HexValue(s[1]))
  {
    HexPairValue(s);
    assert Unsigned(s) == s && Unprefixed(s) == s;
  }

  /** Two hex digits are read as the byte they spell. */
  lemma PyIntHexPair(s: string)
    requires |s| == 2 && AllHex(s)
    ensures PyIntHex(s) == Some(HexValue(s[0]) * 16 + HexValue(s[1]))
  {
    StripHex(s);
    HexLiteralPair(s);
  }

  /** A body of one or two characters is one or two hex digits. */
  lemma ShortBodyValue(body: string)
    requires 1 <= |body| <= 2 && IsHexBody(body)
    ensures HexBodyValue(body) < (if |body| == 1 then 16 else 256)
  {
    assert |body| == 2 ==> body[1] != '_';
    HexBodyChars(body);
    assert AllHex(body);
    DropNoUnderscores(body);
    if |body| == 1 {
      assert body[..0] == [];
      assert HexDigitsValue(body) == HexValue(body[0]);
    } else {
      assert body[..1][..0] == [] && body[..1][0] == body[0];
      assert HexDigitsValue(body[..1]) == HexValue(body[0]);
      assert HexDigitsValue(body) == HexDigitsValue(body[..1]) * 16 + HexValue(body[1]);
    }
  }

  /** A literal of at most two characters is worth -15 to 255: two digits
      at most, and only one when a sign takes a place. */
  lemma PyIntHexShort(s: string)
    requires |s| <= 2 && PyIntHex(s).Some?
    ensures -15 <= PyIntHex(s).value <= 255
  {
    var t := Strip(s);
    var body := Unprefixed(Unsigned(t));
    assert |body| <= |Unsigned(t)| <= |t| <= 2;
    ShortBodyValue(body);
    assert |t| > 0 && t[0] == '-' ==> |body| <= 1;
  }

  lemma SliceHex(h: string, a: nat)
    requires a + 2 <= |h| && IsHexDigit(h[a]) && IsHexDigit(h[a + 1])
    ensures |Slice(h, a, a + 2)| == 2 && AllHex(Slice(h, a, a + 2))
    ensures Slice(h, a, a + 2)[0] == h[a] && Slice(h, a, a + 2)[1] == h[a + 1]
  {
  }

  /** One channel of hex digits is read as the byte they spell. */
  lemma ChannelAt(h: string, a: nat, a1: nat, a2: nat)
    requires a1 == a + 1 && a2 == a + 2
    requires a2 <= |h| && IsHexDigit(h[a]) && IsHexDigit(h[a1])
    ensures PyIntHex(Slice(h, a, a2)) == Some(PairValue(h[a], h[a1]))
  {
    StripChannel(h, a);
    LiteralChannel(h, a);
  }

  lemma StripChannel(h: string, a: nat)
    requires a + 2 <= |h| && IsHexDigit(h[a]) && IsHexDigit(h[a + 1])
    ensures Strip(Slice(h, a, a + 2)) == Slice(h, a, a + 2)
  {
    SliceHex(h, a);
    StripHex(Slice(h, a, a + 2));
  }

  lemma LiteralChannel(h: string, a: nat)
    requires a + 2 <= |h| && IsHexDigit(h[a]) && IsHexDigit(h[a + 1])
    ensures HexLiteral(Slice(h, a, a + 2)) == Some(PairValue(h[a], h[a + 1]))
  {
    SliceHex(h, a);
    HexLiteralPair(Slice(h, a, a + 2));
  }

  /** Six hex digits are read as the three bytes they spell. */
  lemma ChannelsDigits(h: string)
    requires |h| >= 6 && forall i | 0 <= i < 6 :: IsHexDigit(h[i])
    ensures Channels(h) == Some((PairValue(h[0], h[1]), PairValue(h[2], h[3]), PairValue(h[4], h[5])))
  {
    var r, g, b := PairValue(h[0], h[1]), PairValue(h[2], h[3]), PairValue(h[4], h[5]);
    ChannelAt(h, 0, 1, 2);
    ChannelAt(h, 2, 3, 4);
    ChannelAt(h, 4, 5, 6);
    ChannelsOf(h, r, g, b);
  }

  /** A color whose first six characters after the `#`s are hex digits gives
      the three bytes they spell, each in 0..255. */
  lemma HexToRgbDigits(color: string)
    requires var h := LStripHash(color); |h| >= 6 && forall i | 0 <= i < 6 :: IsHexDigit(h[i])
    ensures var h := LStripHash(color);
      HexToRgb(color) == Some((PairValue(h[0], h[1]), PairValue(h[2], h[3]), PairValue(h[4], h[5])))
    ensures var c := HexToRgb(color).value;
      0 <= c.0 < 256 && 0 <= c.1 < 256 && 0 <= c.2 < 256
  {
    ChannelsDigits(LStripHash(color));
  }

  /** Whatever the color, a channel `hex_to_rgb` returns lies in -15..255:
      a sign counts as one of a channel's two characters. */
  lemma HexToRgbRange(color: string)
    requires HexToRgb(color).Some?
    ensures var c := HexToRgb(color).value;
      -15 <= c.0 <= 255 && -15 <= c.1 <= 255 && -15 <= c.2 <= 255
  {
    var h := LStripHash(color);
    PyIntHexShort(Slice(h, 0, 2));
    PyIntHexShort(Slice(h, 2, 4));
    PyIntHexShort(Slice(h, 4, 6));
  }

  /** `int('-f', 16)` is -15. */
  lemma PyIntHexMinusF()
    ensures PyIntHex("-f") == Some(-15)
  {
    var p := "-f";
    assert !IsPySpace(p[0]) && !IsPySpace(p[1]);
    assert Strip(p) == p;
    var u := p[1..];
    assert u == "f" && Unsigned(p) == u && Unprefixed(u) == u;
    assert IsHexBody(u);
    assert DropUnderscores(u) == u;
    assert u[..0] == [];
    assert HexDigitsValue(u) == HexValue(u[0]) == 15;
  }

  lemma MinusFAt(h: string, a: nat)
    requires a + 2 <= |h| && h[a] == '-' && h[a + 1] == 'f'
    ensures PyIntHex(Slice(h, a, a + 2)) == Some(-15)
  {
    assert Slice(h, a, a + 2) == "-f";
    PyIntHexMinusF();
  }

  lemma MinusFChannels(h: string)
    requires |h| >= 6 && h[0] == h[2] == h[4] == '-' && h[1] == h[3] == h[5] == 'f'
    ensures Channels(h) == Some((-15, -15, -15))
  {
    MinusFAt(h, 0);
    MinusFAt(h, 2);
    MinusFAt(h, 4);
    ChannelsOf(h, -15, -15, -15);
  }

  lemma LStripOneHash(c: string)
    requires |c| >= 2 && c[0] == '#' && c[1] != '#'
    ensures LStripHash(c) == c[1..]
  {
    assert c[1..][0] == c[1];
  }

  /** The promise "each channel in 0..255" does not hold of every color:
      a sign is read as part of the number. */
  lemma HexToRgbNegative(c: string)
    requires c == "#-f-f-f"
    ensures HexToRgb(c) == Some((-15, -15, -15))
  {
    LStripOneHash(c);
    MinusFChannels(c[1..]);
  }

  /** A color with fewer than five characters after its `#`s leaves the
      blue slice empty, and `int('', 16)` raises. */
  lemma HexToRgbShort(color: string)
    requires |LStripHash(color)| <= 4
    ensures HexToRgb(color).None?
  {
    var h := LStripHash(color);
    assert Slice(h, 4, 6) == [];
    assert Strip([]) == [];
  }

  /** `'#%02x%02x%02x' % (r, g, b)`: the spelling `hex_to_rgb` reads back. */
  function RgbToHex(r: nat, g: nat, b: nat): (s: string)
    requires r < 256 && g < 256 && b < 256
    ensures |s| == 7 && s[0] == '#' && AllHex(s[1..])
  {
    "#" + [HexChar(r / 16), HexChar(r % 16), HexChar(g / 16), HexChar(g % 16), HexChar(b / 16), HexChar(b % 16)]
  }

  /** The two hex digits of a byte spell the byte. */
  lemma ByteDigits(d: nat)
    requires d < 256
    ensures PairValue(HexChar(d / 16), HexChar(d % 16)) == d
  {
  }

  /** Writing three bytes as a color and reading it back gives them again. */
  lemma HexRoundTrip(r: nat, g: nat, b: nat)
    requires r < 256 && g < 256 && b < 256
    ensures HexToRgb(RgbToHex(r, g, b)) == Some((r as int, g as int, b as int))
  {
    var s := RgbToHex(r, g, b);
    assert s[1] == HexChar(r / 16) && s[2] == HexChar(r % 16);
    assert s[3] == HexChar(g / 16) && s[4] == HexChar(g % 16);
    assert s[5] == HexChar(b / 16) && s[6] == HexChar(b % 16);
    LStripOneHash(s);
    HexToRgbDigits(s);
    ByteDigits(r);
    ByteDigits(g);
    ByteDigits(b);
  }

  /** One entry of the style table; heights are in points, as the document
      generator writes them. */
  datatype KeyStyle = KeyStyle(faceName: string, height: nat, bold: bool, align: Align)

  const StyleMap: map<string, KeyStyle> := map[
    "title" := KeyStyle("돋움", 20, true, Center),
    "footer" := KeyStyle("바탕체", 10, false, Center),
    "body" := KeyStyle("바탕체", 11, false, Left)]

  const FallbackStyle: KeyStyle := KeyStyle("바탕체", 11, false, Left)

  /** `heuristic_style_for_key(key)`: a one-entry map from the key to its
      style. Only a title is bold, set in 돋움 and 20 points high; titles and
      footers are centred; a footer is 10 points high; anything else,
      the body included, is left-aligned 11-point 바탕체. */
  function HeuristicStyleForKey(key: string): (m: map<string, KeyStyle>)
    ensures m.Keys == {key}
    ensures m[key].bold <==> key == "title"
    ensures m[key].faceName == (if key == "title" then "돋움" else "바탕체")
    ensures m[key].height == (if key == "title" then 20 else if key == "footer" then 10 else 11)
    ensures m[key].align == (if key == "title" || key == "footer" then Center else Left)
  {
    map[key := if key in StyleMap then StyleMap[key] else FallbackStyle]
  }
}
