/**
 * The colour conversions that the palette and the grid both define (the same two
 * functions appear in each component): `rgbToHex` turns "rgb(r, g, b)" text into the
 * "#rrggbb" value of a colour input, and `hexToRgb` turns a colour input value back into
 * "rgb(r, g, b)" text, which is how every colour is stored and sent.
 */
module Color {
  import opened JsText
  import Paint

  /**
   * A match of /^rgb\((\d+),\s*(\d+),\s*(\d+)\)$/: the three captured digit groups and the
   * two runs of white space that `\s*` skips.
   */
  datatype RgbMatch = RgbMatch(red: string, space1: string, green: string, space2: string, blue: string) {
    predicate WellFormed() {
      && |red| > 0 && AllDigits(red, 10)
      && AllWhitespace(space1)
      && |green| > 0 && AllDigits(green, 10)
      && AllWhitespace(space2)
      && |blue| > 0 && AllDigits(blue, 10)
    }

    /** The text the pattern matches. */
    function Text(): string {
      "rgb(" + Groups()
    }

    /** The text after "rgb(". */
    function Groups(): string {
      red + ("," + (space1 + GreenOn()))
    }

    /** The text from the green group on. */
    function GreenOn(): string {
      GreenOnText(green, space2, blue)
    }

    /** The channel values `parseInt` reads from the three groups. */
    function Channels(): Rgb {
      Rgb(DigitsValue(red, 10), DigitsValue(green, 10), DigitsValue(blue, 10))
    }
  }

  function GreenOnText(green: string, space2: string, blue: string): string {
    green + ("," + (space2 + (blue + ")")))
  }

  datatype Rgb = Rgb(r: int, g: int, b: int) {
    predicate InByteRange() {
      0 <= r < 256 && 0 <= g < 256 && 0 <= b < 256
    }
  }

  /** A colour input value: "#" and six lower-case hexadecimal digits. */
  predicate IsHexColor(h: string) {
    |h| == 7 && h[0] == '#' && forall i :: 1 <= i < 7 ==> IsLowerHexDigit(h[i])
  }

  /** The byte that two hexadecimal digits spell. */
  function HexByte(hi: char, lo: char): int {
    16 * DigitValue(hi) + DigitValue(lo)
  }

  /** Matches /^rgb\((\d+),\s*(\d+),\s*(\d+)\)$/ against the whole of `s`. */
  function MatchRgb(s: string): (m: Option<RgbMatch>)
    ensures m.Some? ==> m.value.WellFormed() && m.value.Text() == s
  {
    if |s| < 4 || s[..4] != "rgb(" then None
    else
      assert s == s[..4] + s[4..];
      MatchGroups(s[4..])
  }

  /** The pattern after "rgb(". */
  function MatchGroups(t: string): (m: Option<RgbMatch>)
    ensures m.Some? ==> m.value.WellFormed() && m.value.Groups() == t
  {
    match DigitsThen(t, ',')
    case None => None
    case Some(p) =>
      var (space1, rest) := SkipWhitespace(p.1);
      match MatchGreenOn(rest)
      case None => None
      case Some(g) => Some(RgbMatch(p.0, space1, g.0, g.1, g.2))
  }

  /** The pattern from the green group on: the green group, the second white space, the blue group. */
  function MatchGreenOn(t: string): (g: Option<(string, string, string)>)
    ensures g.Some? ==> |g.value.0| > 0 && AllDigits(g.value.0, 10) && AllWhitespace(g.value.1)
    ensures g.Some? ==> |g.value.2| > 0 && AllDigits(g.value.2, 10)
    ensures g.Some? ==> GreenOnText(g.value.0, g.value.1, g.value.2) == t
  {
    match DigitsThen(t, ',')
    case None => None
    case Some(p) =>
      var (space2, rest) := SkipWhitespace(p.1);
      match DigitsThen(rest, ')')
      case None => None
      case Some(q) =>
        if q.1 != [] then None
        else
          assert rest == q.0 + ")";
          Some((p.0, space2, q.0))
  }

  /** Reads `\d+` followed by `stop` at the start of `s`: the digits and what follows `stop`. */
  function DigitsThen(s: string, stop: char): (r: Option<(string, string)>)
    ensures r.Some? ==> |r.value.0| > 0 && AllDigits(r.value.0, 10) && s == r.value.0 + ([stop] + r.value.1)
  {
    var n := DigitRun(s, 10);
    if n == 0 || n == |s| || s[n] != stop then None
    else
      assert s == s[..n] + ([stop] + s[n + 1..]);
      Some((s[..n], s[n + 1..]))
  }

  /** Reads `\s*` at the start of `s`: the white space and what follows it. */
  function SkipWhitespace(s: string): (r: (string, string))
    ensures AllWhitespace(r.0) && s == r.0 + r.1
    ensures r.1 != [] ==> !IsWhitespace(r.1[0])
  {
    var n := WhitespaceRun(s);
    assert s == s[..n] + s[n..];
    (s[..n], s[n..])
  }

  /** `parseInt(group).toString(16).padStart(2, "0")`. */
  function HexPart(v: Option<int>): string {
    PadStart2(NumberToString(v, 16))
  }

  /** `rgbToHex`: "#000000" for text the pattern does not match. */
  function RgbToHex(rgb: string): (hex: string)
    ensures MatchRgb(rgb).None? ==> hex == "#000000"
    ensures |hex| >= 7 && hex[0] == '#'
  {
    match MatchRgb(rgb)
    case None => "#000000"
    case Some(m) =>
      "#" + HexPart(ParseInt(m.red, 0)) + HexPart(ParseInt(m.green, 0)) + HexPart(ParseInt(m.blue, 0))
  }

  /** `ToInt32` of section 7.1.6 of ECMA-262; NaN becomes 0. */
  function ToInt32(v: Option<int>): (i: int)
    ensures -0x8000_0000 <= i < 0x8000_0000
  {
    match v
    case None => 0
    case Some(n) =>
      var u := n % 0x1_0000_0000;
      if u >= 0x8000_0000 then u - 0x1_0000_0000 else u
  }

  function Pow2(k: nat): (p: nat)
    ensures p > 0
  {
    if k == 0 then 1 else 2 * Pow2(k - 1)
  }

  /**
   * `(n >> shift) & 255` for a 32-bit signed `n`: the arithmetic shift is floor division
   * by 2^shift (Dafny's division by a positive number rounds down), and `& 255` keeps the
   * low eight bits of the two's complement value, that is, the remainder modulo 256.
   */
  function ByteAt(n: int, shift: nat): (b: int)
    ensures 0 <= b < 256
  {
    (n / Pow2(shift)) % 256
  }

  /** The text `rgb(${r}, ${g}, ${b})`. */
  function RgbText(c: Rgb): string {
    "rgb(" + IntToString(c.r, 10) + ", " + IntToString(c.g, 10) + ", " + IntToString(c.b, 10) + ")"
  }

  /** The three bytes `hexToRgb` reads from a colour input value. */
  function HexChannels(hex: string): (c: Rgb)
    ensures c.InByteRange()
  {
    var n := ToInt32(ParseInt(ReplaceFirst(hex, '#'), 16));
    Rgb(ByteAt(n, 16), ByteAt(n, 8), ByteAt(n, 0))
  }

  /** `hexToRgb`. */
  function HexToRgb(hex: string): (rgb: string)
    ensures exists c: Rgb :: c.InByteRange() && rgb == RgbText(c)
  {
    RgbText(HexChannels(hex))
  }

  /** `hexToRgb` always writes "rgb(r, g, b)" text with byte channels, which `rgbToHex` matches. */
  lemma HexToRgbMatches(hex: string)
    ensures var s := HexToRgb(hex);
      && MatchRgb(s).Some?
      && MatchRgb(s).value.Channels() == HexChannels(hex)
      && s == RgbText(MatchRgb(s).value.Channels())
  {
    RgbTextMatches(HexChannels(hex));
  }

  // ---------------------------------------------------------------------------------------
  // Properties
  // ---------------------------------------------------------------------------------------

  /** Every text of the pattern's shape is matched, with exactly its own groups. */
  lemma MatchRgbComplete(m: RgbMatch)
    requires m.WellFormed()
    ensures MatchRgb(m.Text()) == Some(m)
  {
    var s := m.Text();
    assert s[..4] == "rgb(" && s[4..] == m.Groups();
    MatchGroupsComplete(m);
  }

  lemma MatchGroupsComplete(m: RgbMatch)
    requires m.WellFormed()
    ensures MatchGroups(m.Groups()) == Some(m)
  {
    DigitsThenComplete(m.red, ',', m.space1 + m.GreenOn());
    SkipWhitespaceComplete(m.space1, m.GreenOn());
    MatchGreenOnComplete(m.green, m.space2, m.blue);
  }

  lemma MatchGreenOnComplete(green: string, space2: string, blue: string)
    requires |green| > 0 && AllDigits(green, 10) && AllWhitespace(space2)
    requires |blue| > 0 && AllDigits(blue, 10)
    ensures MatchGreenOn(GreenOnText(green, space2, blue)) == Some((green, space2, blue))
  {
    var rest := blue + ")";
    DigitsThenComplete(green, ',', space2 + rest);
    SkipWhitespaceComplete(space2, rest);
    assert rest == blue + ([')'] + []);
    DigitsThenComplete(blue, ')', []);
  }

  lemma DigitsThenComplete(digits: string, stop: char, rest: string)
    requires |digits| > 0 && AllDigits(digits, 10) && !IsDecimalDigit(stop)
    ensures DigitsThen(digits + ([stop] + rest), stop) == Some((digits, rest))
  {
    var s := digits + ([stop] + rest);
    var n := DigitRun(s, 10);
    assert s[..|digits|] == digits;
    DigitRunIs(s, 10, |digits|);
    assert s[n + 1..] == rest;
  }

  lemma SkipWhitespaceComplete(space: string, rest: string)
    requires AllWhitespace(space) && (rest != [] ==> !IsWhitespace(rest[0]))
    ensures SkipWhitespace(space + rest) == (space, rest)
  {
    var s := space + rest;
    var n := WhitespaceRun(s);
    assert s[..|space|] == space;
    WhitespaceRunIs(s, |space|);
  }

  /** The text `hexToRgb` writes is matched by the pattern, and reads back as the same channels. */
  lemma RgbTextMatches(c: Rgb)
    requires 0 <= c.r && 0 <= c.g && 0 <= c.b
    ensures MatchRgb(RgbText(c)).Some?
    ensures MatchRgb(RgbText(c)).value.Channels() == c
    ensures MatchRgb(RgbText(c)).value.red == IntToString(c.r, 10)
    ensures MatchRgb(RgbText(c)).value.green == IntToString(c.g, 10)
    ensures MatchRgb(RgbText(c)).value.blue == IntToString(c.b, 10)
  {
    var red, green, blue := NatToString(c.r, 10), NatToString(c.g, 10), NatToString(c.b, 10);
    NatToStringDigits(c.r, 10);
    NatToStringDigits(c.g, 10);
    NatToStringDigits(c.b, 10);
    var m := RgbMatch(red, " ", green, " ", blue);
    assert AllWhitespace(" ");
    assert m.WellFormed();
    RgbTextSpelling(c);
    MatchRgbComplete(m);
  }

  /** `rgb(${r}, ${g}, ${b})` is the text of the match whose groups are the three numbers. */
  lemma RgbTextSpelling(c: Rgb)
    requires 0 <= c.r && 0 <= c.g && 0 <= c.b
    ensures RgbText(c) == RgbMatch(NatToString(c.r, 10), " ", NatToString(c.g, 10), " ", NatToString(c.b, 10)).Text()
  {
    var red, green, blue := NatToString(c.r, 10), NatToString(c.g, 10), NatToString(c.b, 10);
    assert RgbText(c) == "rgb(" + red + ", " + green + ", " + blue + ")";
  }

  /** A byte is written as exactly two lower-case hexadecimal digits that spell it. */
  lemma HexPartOfByte(v: int)
    requires 0 <= v < 256
    ensures var p := HexPart(Some(v));
      |p| == 2 && IsLowerHexDigit(p[0]) && IsLowerHexDigit(p[1]) && HexByte(p[0], p[1]) == v
  {
    var p := HexPart(Some(v));
    if v < 16 {
      assert NatToString(v, 16) == [DigitChar(v)];
      assert p == ['0', DigitChar(v)];
    } else {
      assert NatToString(v / 16, 16) == [DigitChar(v / 16)];
      assert p == [DigitChar(v / 16), DigitChar(v % 16)];
    }
  }

  /** Two lower-case hexadecimal digits are written back as themselves. */
  lemma HexPartOfDigits(hi: char, lo: char)
    requires IsLowerHexDigit(hi) && IsLowerHexDigit(lo)
    ensures HexPart(Some(HexByte(hi, lo))) == [hi, lo]
  {
    DigitCharOfValue(hi);
    DigitCharOfValue(lo);
    var v := HexByte(hi, lo);
    if DigitValue(hi) == 0 {
      assert hi == '0';
      assert NatToString(v, 16) == [lo];
    } else {
      assert v / 16 == DigitValue(hi) && v % 16 == DigitValue(lo);
      assert NatToString(v / 16, 16) == [hi];
      assert NatToString(v, 16) == [hi, lo];
    }
  }

  lemma DigitsValueOfSix(d: string)
    requires |d| == 6
    ensures DigitsValue(d, 16) == Packed(Rgb(HexByte(d[0], d[1]), HexByte(d[2], d[3]), HexByte(d[4], d[5])))
  {
    DigitsValueAppend([], d[0], 16);
    assert [] + [d[0]] == d[..1];
    DigitsValueAppend(d[..1], d[1], 16);
    assert d[..1] + [d[1]] == d[..2];
    DigitsValueAppend(d[..2], d[2], 16);
    assert d[..2] + [d[2]] == d[..3];
    DigitsValueAppend(d[..3], d[3], 16);
    assert d[..3] + [d[3]] == d[..4];
    DigitsValueAppend(d[..4], d[4], 16);
    assert d[..4] + [d[4]] == d[..5];
    DigitsValueAppend(d[..5], d[5], 16);
    assert d[..5] + [d[5]] == d;
  }

  /** The channels a colour input value spells, two hexadecimal digits each. */
  function HexColorChannels(h: string): (c: Rgb)
    requires IsHexColor(h)
    ensures c.InByteRange()
  {
    Rgb(HexByte(h[1], h[2]), HexByte(h[3], h[4]), HexByte(h[5], h[6]))
  }

  /** Three bytes packed into one number, red highest. */
  function Packed(c: Rgb): int {
    c.r * 65536 + c.g * 256 + c.b
  }

  lemma PowersOfTwo()
    ensures Pow2(0) == 1 && Pow2(8) == 256 && Pow2(16) == 65536
  {
    assert Pow2(4) == 16;
    assert Pow2(8) == 256;
    assert Pow2(12) == 4096;
  }

  /** Shifting and masking a packed number gives back its three bytes. */
  lemma BytesOfPacked(c: Rgb)
    requires c.InByteRange()
    ensures var n := ToInt32(Some(Packed(c)));
      Rgb(ByteAt(n, 16), ByteAt(n, 8), ByteAt(n, 0)) == c
  {
    assert ToInt32(Some(Packed(c))) == Packed(c);
    HighByte(c);
    MiddleByte(c);
    LowByte(c);
  }

  lemma HighByte(c: Rgb)
    requires c.InByteRange()
    ensures ByteAt(Packed(c), 16) == c.r
  {
    PowersOfTwo();
    assert Packed(c) / 65536 == c.r;
  }

  lemma MiddleByte(c: Rgb)
    requires c.InByteRange()
    ensures ByteAt(Packed(c), 8) == c.g
  {
    PowersOfTwo();
    assert Packed(c) / 256 == c.r * 256 + c.g;
  }

  lemma LowByte(c: Rgb)
    requires c.InByteRange()
    ensures ByteAt(Packed(c), 0) == c.b
  {
    PowersOfTwo();
    assert Packed(c) / 1 == Packed(c);
  }


  /** `parseInt` with radix 16 reads a colour input value without its "#" as the packed channels. */
  lemma HexColorValue(h: string)
    requires IsHexColor(h)
    ensures ParseInt(ReplaceFirst(h, '#'), 16) == Some(Packed(HexColorChannels(h)))
  {
    var d := h[1..];
    HexColorDigits(h);
    ParseIntOfDigits(d, 16);
    DigitsValueOfSix(d);
    assert d[0] == h[1] && d[1] == h[2] && d[2] == h[3] && d[3] == h[4] && d[4] == h[5] && d[5] == h[6];
  }

  /** Removing the "#" of a colour input value leaves six hexadecimal digits. */
  lemma HexColorDigits(h: string)
    requires IsHexColor(h)
    ensures ReplaceFirst(h, '#') == h[1..] && AllDigits(h[1..], 16)
  {
    var d := h[1..];
    forall i | 0 <= i < |d| ensures DigitValue(d[i]) < 16 {
      assert d[i] == h[i + 1];
    }
  }

  /** `hexToRgb` on a colour input value reads its three byte pairs. */
  lemma HexToRgbOfHexColor(h: string)
    requires IsHexColor(h)
    ensures HexChannels(h) == HexColorChannels(h)
  {
    HexColorValue(h);
    BytesOfPacked(HexColorChannels(h));
  }

  /** `rgbToHex` on matched text with byte channels gives a colour input value spelling them. */
  lemma RgbToHexOfBytes(s: string)
    requires MatchRgb(s).Some? && MatchRgb(s).value.Channels().InByteRange()
    ensures IsHexColor(RgbToHex(s)) && HexColorChannels(RgbToHex(s)) == MatchRgb(s).value.Channels()
  {
    var m := MatchRgb(s).value;
    var c := m.Channels();
    ParseIntOfDigits(m.red, 10);
    ParseIntOfDigits(m.green, 10);
    ParseIntOfDigits(m.blue, 10);
    assert RgbToHex(s) == "#" + HexPart(Some(c.r)) + HexPart(Some(c.g)) + HexPart(Some(c.b));
    HexPartOfByte(c.r);
    HexPartOfByte(c.g);
    HexPartOfByte(c.b);
    HexOfPartsIsColor(HexPart(Some(c.r)), HexPart(Some(c.g)), HexPart(Some(c.b)));
  }

  /** "#" and three pairs of lower-case hexadecimal digits form a colour input value spelling them. */
  lemma HexOfPartsIsColor(a: string, b: string, c: string)
    requires |a| == 2 && IsLowerHexDigit(a[0]) && IsLowerHexDigit(a[1])
    requires |b| == 2 && IsLowerHexDigit(b[0]) && IsLowerHexDigit(b[1])
    requires |c| == 2 && IsLowerHexDigit(c[0]) && IsLowerHexDigit(c[1])
    ensures IsHexColor("#" + a + b + c)
    ensures HexColorChannels("#" + a + b + c) == Rgb(HexByte(a[0], a[1]), HexByte(b[0], b[1]), HexByte(c[0], c[1]))
  {
    HexOfParts(a, b, c);
  }

  /** "#" followed by three two-character parts, character by character. */
  lemma HexOfParts(a: string, b: string, c: string)
    requires |a| == 2 && |b| == 2 && |c| == 2
    ensures var h := "#" + a + b + c;
      && |h| == 7 && h[0] == '#'
      && h[1] == a[0] && h[2] == a[1] && h[3] == b[0] && h[4] == b[1] && h[5] == c[0] && h[6] == c[1]
  {
  }

  /** A colour input value survives `hexToRgb` followed by `rgbToHex`. */
  lemma HexRoundTrip(h: string)
    requires IsHexColor(h)
    ensures RgbToHex(HexToRgb(h)) == h
  {
    var s := HexToRgb(h);
    HexToRgbMatches(h);
    HexToRgbOfHexColor(h);
    RgbToHexOfBytes(s);
    HexColorInjective(RgbToHex(s), h);
  }

  /** Two colour input values that spell the same channels are the same text. */
  lemma HexColorInjective(h1: string, h2: string)
    requires IsHexColor(h1) && IsHexColor(h2)
    requires HexColorChannels(h1) == HexColorChannels(h2)
    ensures h1 == h2
  {
    HexByteInjective(h1[1], h1[2], h2[1], h2[2]);
    HexByteInjective(h1[3], h1[4], h2[3], h2[4]);
    HexByteInjective(h1[5], h1[6], h2[5], h2[6]);
    assert forall i :: 0 <= i < 7 ==> h1[i] == h2[i];
  }

  lemma HexByteInjective(hi1: char, lo1: char, hi2: char, lo2: char)
    requires IsLowerHexDigit(hi1) && IsLowerHexDigit(lo1) && IsLowerHexDigit(hi2) && IsLowerHexDigit(lo2)
    requires HexByte(hi1, lo1) == HexByte(hi2, lo2)
    ensures hi1 == hi2 && lo1 == lo2
  {
    DigitCharOfValue(hi1);
    DigitCharOfValue(lo1);
    DigitCharOfValue(hi2);
    DigitCharOfValue(lo2);
  }

  /**
   * `rgbToHex` followed by `hexToRgb` keeps the channels of any matched text with byte
   * channels, and writes them in the canonical form "rgb(r, g, b)".
   */
  lemma RgbNormalises(s: string)
    requires MatchRgb(s).Some? && MatchRgb(s).value.Channels().InByteRange()
    ensures HexToRgb(RgbToHex(s)) == RgbText(MatchRgb(s).value.Channels())
  {
    RgbToHexOfBytes(s);
    HexToRgbOfHexColor(RgbToHex(s));
  }

  /** Canonical "rgb(r, g, b)" text with byte channels survives `rgbToHex` followed by `hexToRgb`. */
  lemma RgbRoundTrip(c: Rgb)
    requires c.InByteRange()
    ensures HexToRgb(RgbToHex(RgbText(c))) == RgbText(c)
  {
    RgbTextMatches(c);
    RgbNormalises(RgbText(c));
  }

  /** Picking pure white in a colour input yields exactly the tombstone colour. */
  lemma WhitePickIsTombstone()
    ensures HexToRgb("#ffffff") == Paint.White
  {
    WhiteHexColor();
    HexToRgbOfHexColor("#ffffff");
    WhiteText();
  }

  lemma WhiteHexColor()
    ensures IsHexColor("#ffffff") && HexColorChannels("#ffffff") == Rgb(255, 255, 255)
  {
    var h := "#ffffff";
    assert h[1] == 'f' && h[2] == 'f' && h[3] == 'f' && h[4] == 'f' && h[5] == 'f' && h[6] == 'f';
  }

  lemma WhiteText()
    ensures RgbText(Rgb(255, 255, 255)) == Paint.White
  {
    assert IntToString(255, 10) == "255" by {
      assert DigitChar(2) == '2' && DigitChar(5) == '5';
      assert NatToString(2, 10) == "2";
      assert NatToString(25, 10) == "25";
    }
  }
}
