/**
 * The pieces of JavaScript's built-in string and number behaviour that the hub and the
 * client components rely on: `parseInt`, `Number.prototype.toString`, `padStart`,
 * `Array.prototype.join`, `String.prototype.replace` with a one-character pattern, and
 * template-literal formatting of integers. Numbers are integers here; NaN is `None`.
 */
module JsText {

  datatype Option<T> = None | Some(value: T) {
    /** The `??` operator: the value when present, otherwise the fallback. */
    function GetOr(fallback: T): T {
      match this
      case Some(v) => v
      case None => fallback
    }
  }

  /**
   * The WhiteSpace and LineTerminator code points of ECMAScript (section 12.2 and 12.3 of
   * ECMA-262). They are both what `parseInt` skips and the class `\s` of a regular expression.
   */
  predicate IsWhitespace(c: char) {
    || c == '\t' || c == '\n' || c == '\U{000B}' || c == '\U{000C}' || c == '\r' || c == ' '
    || c == '\U{00A0}' || c == '\U{1680}' || ('\U{2000}' <= c <= '\U{200A}')
    || c == '\U{2028}' || c == '\U{2029}' || c == '\U{202F}' || c == '\U{205F}'
    || c == '\U{3000}' || c == '\U{FEFF}'
  }

  /** The class `\d` of a regular expression. */
  predicate IsDecimalDigit(c: char) {
    '0' <= c <= '9'
  }

  predicate IsLowerHexDigit(c: char) {
    IsDecimalDigit(c) || 'a' <= c <= 'f'
  }

  /** The value of `c` as a digit of a radix up to 36 (letters in either case), or 36 when it is none. */
  function DigitValue(c: char): (v: nat)
    ensures v <= 36
    ensures v < 10 <==> IsDecimalDigit(c)
    ensures v < 16 <==> IsDecimalDigit(c) || 'a' <= c <= 'f' || 'A' <= c <= 'F'
  {
    if '0' <= c <= '9' then c as int - '0' as int
    else if 'a' <= c <= 'z' then c as int - 'a' as int + 10
    else if 'A' <= c <= 'Z' then c as int - 'A' as int + 10
    else 36
  }

  /** The lower-case digit that `toString` writes for the value `d`. */
  function DigitChar(d: nat): (c: char)
    requires d < 36
    ensures DigitValue(c) == d
    ensures d < 16 ==> IsLowerHexDigit(c)
  {
    if d < 10 then ('0' as int + d) as char else ('a' as int + d - 10) as char
  }

  lemma DigitCharOfValue(c: char)
    requires IsLowerHexDigit(c)
    ensures DigitValue(c) < 16 && DigitChar(DigitValue(c)) == c
  {
  }

  predicate AllDigits(s: string, radix: nat) {
    forall i :: 0 <= i < |s| ==> DigitValue(s[i]) < radix
  }

  predicate AllWhitespace(s: string) {
    forall i :: 0 <= i < |s| ==> IsWhitespace(s[i])
  }

  /** The value of a digit string, most significant digit first. */
  function DigitsValue(ds: string, radix: nat): nat
    decreases |ds|
  {
    if ds == [] then 0 else DigitsValue(ds[..|ds| - 1], radix) * radix + DigitValue(ds[|ds| - 1])
  }

  /** The length of the longest prefix of `s` made of digits of `radix`. */
  function DigitRun(s: string, radix: nat): (n: nat)
    ensures n <= |s|
    ensures AllDigits(s[..n], radix)
    ensures n < |s| ==> DigitValue(s[n]) >= radix
    decreases |s|
  {
    if |s| > 0 && DigitValue(s[0]) < radix then
      var rest := DigitRun(s[1..], radix);
      assert s[..rest + 1] == [s[0]] + s[1..][..rest];
      1 + rest
    else 0
  }

  /** The length of the longest prefix of `s` made of white space. */
  function WhitespaceRun(s: string): (n: nat)
    ensures n <= |s|
    ensures AllWhitespace(s[..n])
    ensures n < |s| ==> !IsWhitespace(s[n])
    decreases |s|
  {
    if |s| > 0 && IsWhitespace(s[0]) then
      var rest := WhitespaceRun(s[1..]);
      assert s[..rest + 1] == [s[0]] + s[1..][..rest];
      1 + rest
    else 0
  }

  /** A digit prefix that stops at a non-digit is the longest one. */
  lemma {:induction false} DigitRunIs(s: string, radix: nat, k: nat)
    requires k <= |s| && AllDigits(s[..k], radix)
    requires k < |s| ==> DigitValue(s[k]) >= radix
    ensures DigitRun(s, radix) == k
    decreases k
  {
    if k > 0 {
      assert s[..k][0] == s[0];
      assert s[1..][..k - 1] == s[..k][1..];
      DigitRunIs(s[1..], radix, k - 1);
    }
  }

  /** A white-space prefix that stops at a non-white-space character is the longest one. */
  lemma {:induction false} WhitespaceRunIs(s: string, k: nat)
    requires k <= |s| && AllWhitespace(s[..k])
    requires k < |s| ==> !IsWhitespace(s[k])
    ensures WhitespaceRun(s) == k
    decreases k
  {
    if k > 0 {
      assert s[..k][0] == s[0];
      assert s[1..][..k - 1] == s[..k][1..];
      WhitespaceRunIs(s[1..], k - 1);
    }
  }

  /**
   * The global function `parseInt(s, radix)` of section 19.2.5 of ECMA-262: leading white
   * space is skipped, one sign is read, a radix of 0 means 10, a radix of 0 or 16 accepts a
   * `0x`/`0X` prefix (which makes the radix 16), and the longest prefix of digits is read.
   * `None` stands for NaN: a radix outside 2..36 or no digit at all.
   */
  function ParseInt(s: string, radix: int): (r: Option<int>)
    ensures radix != 0 && (radix < 2 || 36 < radix) ==> r.None?
    ensures r.Some? ==> WhitespaceRun(s) < |s|
    ensures r.Some? && s[WhitespaceRun(s)] == '-' ==> r.value <= 0
    ensures r.Some? && s[WhitespaceRun(s)] != '-' ==> r.value >= 0
  {
    if radix != 0 && (radix < 2 || 36 < radix) then None
    else ParseSigned(s[WhitespaceRun(s)..], radix)
  }

  /** `parseInt` after the white space: an optional sign, then the magnitude. */
  function ParseSigned(t: string, radix: int): (r: Option<int>)
    requires radix == 0 || 2 <= radix <= 36
    ensures r.Some? ==> |t| > 0
    ensures r.Some? && t[0] == '-' ==> r.value <= 0
    ensures r.Some? && t[0] != '-' ==> r.value >= 0
  {
    var negative := |t| > 0 && t[0] == '-';
    var unsigned := if |t| > 0 && (t[0] == '-' || t[0] == '+') then t[1..] else t;
    match ParseMagnitude(unsigned, radix)
    case None => None
    case Some(magnitude) => Some(if negative then -(magnitude as int) else magnitude)
  }

  /** `parseInt` after the sign: an optional `0x` prefix, then the longest run of digits. */
  function ParseMagnitude(u: string, radix: int): (r: Option<nat>)
    requires radix == 0 || 2 <= radix <= 36
    ensures r.Some? ==> |u| > 0
  {
    var hexPrefix := (radix == 0 || radix == 16) && |u| >= 2
                     && u[0] == '0' && (u[1] == 'x' || u[1] == 'X');
    var body := if hexPrefix then u[2..] else u;
    var base := if hexPrefix then 16 else if radix == 0 then 10 else radix;
    var n := DigitRun(body, base);
    if n == 0 then None else Some(DigitsValue(body[..n], base))
  }

  /** `n.toString(radix)` for a non-negative integer: lower-case digits, no leading zero. */
  function NatToString(n: nat, radix: nat): (s: string)
    requires 2 <= radix <= 36
    ensures |s| > 0 && AllDigits(s, radix)
    decreases n
  {
    if n < radix then [DigitChar(n)]
    else
      QuotientSmaller(n, radix);
      var prefix := NatToString(n / radix, radix);
      var last := DigitChar(n % radix);
      assert forall i :: 0 <= i < |prefix| ==> (prefix + [last])[i] == prefix[i];
      prefix + [last]
  }

  /** `i.toString(radix)`, and with radix 10 also `${i}` in a template literal. */
  function IntToString(i: int, radix: nat): (s: string)
    requires 2 <= radix <= 36
  {
    if i < 0 then "-" + NatToString(-i, radix) else NatToString(i, radix)
  }

  /** `Number.prototype.toString(radix)` on an integer or on NaN. */
  function NumberToString(v: Option<int>, radix: nat): string
    requires 2 <= radix <= 36
  {
    match v
    case None => "NaN"
    case Some(i) => IntToString(i, radix)
  }

  /** `s.padStart(2, "0")`. */
  function PadStart2(s: string): (r: string)
    ensures |r| == if |s| >= 2 then |s| else 2
    ensures r[|r| - |s|..] == s
    ensures forall i :: 0 <= i < |r| - |s| ==> r[i] == '0'
  {
    if |s| >= 2 then s else if |s| == 1 then "0" + s else "00"
  }

  /** Where `c` first occurs in `s`. */
  function FirstIndex(s: string, c: char): (i: nat)
    requires c in s
    ensures i < |s| && s[i] == c && c !in s[..i]
    decreases |s|
  {
    if s[0] == c then 0
    else
      assert c in s[1..] by { assert s == [s[0]] + s[1..]; }
      var j := FirstIndex(s[1..], c);
      assert s[..j + 1] == [s[0]] + s[1..][..j];
      j + 1
  }

  /** `s.replace(c, "")` for a one-character pattern: only the first occurrence is removed. */
  function ReplaceFirst(s: string, c: char): (r: string)
    ensures c !in s ==> r == s
    ensures c in s ==> |r| == |s| - 1
    ensures c in s ==> var i := FirstIndex(s, c); r == s[..i] + s[i + 1..]
    decreases |s|
  {
    if s == [] then s
    else if s[0] == c then s[1..]
    else
      var rest := ReplaceFirst(s[1..], c);
      ReplacedPastHead(s, c, rest);
      [s[0]] + rest
  }

  /** Removing the first `c` after a head that is not `c` keeps the head in front. */
  lemma ReplacedPastHead(s: string, c: char, rest: string)
    requires |s| > 0 && s[0] != c
    requires c !in s[1..] ==> rest == s[1..]
    requires c in s[1..] ==> var i := FirstIndex(s[1..], c); rest == s[1..][..i] + s[1..][i + 1..]
    ensures c !in s ==> [s[0]] + rest == s
    ensures c in s ==> var i := FirstIndex(s, c); [s[0]] + rest == s[..i] + s[i + 1..]
  {
    assert s == [s[0]] + s[1..];
    if c in s {
      var j := FirstIndex(s[1..], c);
      assert FirstIndex(s, c) == j + 1;
      assert s[..j + 1] == [s[0]] + s[1..][..j];
      assert s[j + 2..] == s[1..][j + 1..];
    }
  }

  /** `parts.join(sep)`. */
  function Join(parts: seq<string>, sep: string): (r: string)
    ensures |parts| == 0 ==> r == ""
    ensures |parts| > 0 ==> |r| == SumOfLengths(parts) + (|parts| - 1) * |sep|
    ensures |parts| > 0 ==> |r| >= |parts[0]| && r[..|parts[0]|] == parts[0]
    ensures |parts| == 1 ==> r == parts[0]
    decreases |parts|
  {
    if |parts| == 0 then ""
    else if |parts| == 1 then parts[0]
    else parts[0] + sep + Join(parts[1..], sep)
  }

  function SumOfLengths(parts: seq<string>): nat
    decreases |parts|
  {
    if parts == [] then 0 else |parts[0]| + SumOfLengths(parts[1..])
  }

  /**
   * Joining one more part appends the separator and that part: the parts appear in order,
   * each pair separated by exactly one `sep`.
   */
  lemma {:induction false} JoinSnoc(parts: seq<string>, p: string, sep: string)
    requires |parts| > 0
    ensures Join(parts + [p], sep) == Join(parts, sep) + sep + p
    decreases |parts|
  {
    var all := parts + [p];
    assert all[0] == parts[0];
    if |parts| == 1 {
      assert all[1..] == [p];
    } else {
      assert all[1..] == parts[1..] + [p];
      JoinSnoc(parts[1..], p, sep);
    }
  }

  /** JavaScript truthiness of an optional string: present and not empty. */
  predicate Truthy(s: Option<string>) {
    s.Some? && s.value != ""
  }

  /**
   * The tile key `${x},${y}` that the grid and the hub both build. Its one comma sits right
   * after the text of `x`, so the key splits back into its two numbers.
   */
  function PosKey(x: int, y: int): (key: string)
    ensures |IntToString(x, 10)| < |key|
    ensures key[|IntToString(x, 10)|] == ','
    ensures forall i :: 0 <= i < |key| && key[i] == ',' ==> i == |IntToString(x, 10)|
  {
    var a, b := IntToString(x, 10), IntToString(y, 10);
    IntToStringHasNoComma(x);
    IntToStringHasNoComma(y);
    var key := a + "," + b;
    assert forall i :: 0 <= i < |a| ==> key[i] == a[i];
    assert forall i :: |a| < i < |key| ==> key[i] == b[i - |a| - 1];
    key
  }

  // ---------------------------------------------------------------------------------------
  // Properties
  // ---------------------------------------------------------------------------------------

  /** `toString` writes a non-empty string of digits of the radix that reads back as `n`. */
  lemma {:induction false} NatToStringDigits(n: nat, radix: nat)
    requires 2 <= radix <= 36
    ensures DigitsValue(NatToString(n, radix), radix) == n
    decreases n
  {
    var s := NatToString(n, radix);
    if n >= radix {
      var q, r := n / radix, n % radix;
      QuotientSmaller(n, radix);
      NatToStringDigits(q, radix);
      var prefix := NatToString(q, radix);
      assert s == prefix + [DigitChar(r)];
      DigitsValueAppend(prefix, DigitChar(r), radix);
      assert DigitsValue(s, radix) == q * radix + r;
    } else {
      assert s == [DigitChar(n)];
      assert s[..0] == [];
    }
  }

  /** Division by a radix of a number at least that radix gives a smaller, positive quotient. */
  lemma QuotientSmaller(n: nat, radix: nat)
    requires 2 <= radix <= n
    ensures 0 < n / radix < n && n == (n / radix) * radix + n % radix
  {
    var q := n / radix;
    assert q * radix <= n;
    assert q * 2 <= q * radix;
  }

  lemma DigitsValueAppend(prefix: string, c: char, radix: nat)
    ensures DigitsValue(prefix + [c], radix) == DigitsValue(prefix, radix) * radix + DigitValue(c)
    ensures AllDigits(prefix, radix) && DigitValue(c) < radix ==> AllDigits(prefix + [c], radix)
  {
    var s := prefix + [c];
    assert s[..|s| - 1] == prefix;
  }

  /** A non-empty digit string with no sign is read back by `parseInt` in its own radix. */
  lemma ParseIntOfDigits(s: string, radix: int)
    requires radix == 10 || radix == 16
    requires |s| > 0 && AllDigits(s, radix)
    ensures ParseInt(s, if radix == 10 then 0 else 16) == Some(DigitsValue(s, radix))
  {
    assert !IsWhitespace(s[0]);
    WhitespaceRunIs(s, 0);
    assert s[0..] == s;
    assert s[0] != '-' && s[0] != '+';
    MagnitudeOfDigits(s, radix);
  }

  /** After the sign, a run of digits of the radix is read whole. */
  lemma MagnitudeOfDigits(s: string, radix: int)
    requires radix == 10 || radix == 16
    requires |s| > 0 && AllDigits(s, radix)
    ensures radix == 10 ==> ParseMagnitude(s, 0) == Some(DigitsValue(s, 10))
    ensures radix == 16 ==> ParseMagnitude(s, 16) == Some(DigitsValue(s, 16))
  {
    assert |s| >= 2 ==> DigitValue(s[1]) < radix;
    assert |s| >= 2 ==> s[1] != 'x' && s[1] != 'X';
    DigitRunIs(s, radix, |s|);
    assert s[..|s|] == s;
  }

  /** `parseInt` (radix 0) reads a minus sign followed by decimal digits as a negative number. */
  lemma ParseIntOfNegativeDigits(digits: string)
    requires |digits| > 0 && AllDigits(digits, 10)
    ensures ParseInt("-" + digits, 0).Some?
    ensures ParseInt("-" + digits, 0).value == -(DigitsValue(digits, 10) as int)
  {
    MagnitudeOfDigits(digits, 10);
    LeadingMinus("-" + digits, digits, DigitsValue(digits, 10));
  }

  /** A minus sign followed by a magnitude `v` reads as `-v`. */
  lemma LeadingMinus(s: string, rest: string, v: nat)
    requires s == "-" + rest && ParseMagnitude(rest, 0) == Some(v)
    ensures ParseInt(s, 0).Some? && ParseInt(s, 0).value == -(v as int)
  {
    assert !IsWhitespace(s[0]);
    WhitespaceRunIs(s, 0);
    assert s[0..] == s;
    assert s[1..] == rest;
  }

  /** `parseInt` (radix 10) reads back every integer that `${i}` writes. */
  lemma ParseIntOfIntToString(i: int)
    ensures ParseInt(IntToString(i, 10), 0).Some?
    ensures ParseInt(IntToString(i, 10), 0).value == i
  {
    var m: nat := if i < 0 then -i else i;
    NatToStringDigits(m, 10);
    if i < 0 {
      ParseIntOfNegativeDigits(NatToString(m, 10));
    } else {
      ParseIntOfDigits(NatToString(m, 10), 10);
    }
  }

  /** Distinct integers are written differently. */
  lemma IntToStringInjective(a: int, b: int)
    requires IntToString(a, 10) == IntToString(b, 10)
    ensures a == b
  {
    ParseIntOfIntToString(a);
    ParseIntOfIntToString(b);
  }

  lemma IntToStringHasNoComma(i: int)
    ensures ',' !in IntToString(i, 10)
  {
    var m: nat := if i < 0 then -i else i;
    NatToStringDigits(m, 10);
    var s := IntToString(i, 10);
    forall k | 0 <= k < |s| ensures s[k] != ',' {
      if i < 0 && k > 0 {
        assert s[k] == NatToString(m, 10)[k - 1];
      }
    }
  }

  /** Distinct coordinates give distinct tile keys, so painting one tile never touches another. */
  lemma PosKeyInjective(x1: int, y1: int, x2: int, y2: int)
    requires PosKey(x1, y1) == PosKey(x2, y2)
    ensures x1 == x2 && y1 == y2
  {
    var a1, a2 := IntToString(x1, 10), IntToString(x2, 10);
    var b1, b2 := IntToString(y1, 10), IntToString(y2, 10);
    IntToStringHasNoComma(x1);
    IntToStringHasNoComma(x2);
    var k := PosKey(x1, y1);
    assert k == a1 + "," + b1 && k == a2 + "," + b2;
    assert k[|a1|] == ',' && k[|a2|] == ',';
    assert |a1| == |a2|;
    assert a1 == k[..|a1|] == a2;
    assert b1 == k[|a1| + 1..] == b2;
    IntToStringInjective(x1, x2);
    IntToStringInjective(y1, y2);
  }
}
