/** The caption colour parse of the PDF export (script.js:849-852): the colour, or
    `#000000` when it is empty, is cut into three two-character slices and each slice
    is read by `parseInt(slice, 16)`.  The integer read is modelled, not the division
    by 255 that follows it.  `parseInt` is modelled as the ECMAScript standard defines
    it (ECMAScript 2024, section 19.2.5): leading white space is skipped, one sign is
    allowed, then an optional `0x` / `0X`, then the longest run of hexadecimal digits;
    no digit at all gives `NaN`, here `None`. */
module HexColor {
  import opened Wrappers

  // ---------------------------------------------------------------- characters

  /** The characters `parseInt` skips at the start: the ECMAScript WhiteSpace and
      LineTerminator code points. */
  predicate IsJsWhitespace(c: char) {
    var n := c as int;
    || 0x09 <= n <= 0x0D || n == 0x20 || n == 0xA0 || n == 0x1680
    || 0x2000 <= n <= 0x200A || n == 0x2028 || n == 0x2029 || n == 0x202F || n == 0x205F
    || n == 0x3000 || n == 0xFEFF
  }

  predicate IsHexDigit(c: char) {
    ('0' <= c <= '9') || ('a' <= c <= 'f') || ('A' <= c <= 'F')
  }

  function HexDigitValue(c: char): (v: nat)
    requires IsHexDigit(c)
    ensures v < 16
  {
    if '0' <= c <= '9' then (c as int - '0' as int) as nat
    else if 'a' <= c <= 'f' then (c as int - 'a' as int + 10) as nat
    else (c as int - 'A' as int + 10) as nat
  }

  /** The lower-case digit a colour input writes for 0 .. 15. */
  function HexDigitChar(v: nat): (c: char)
    requires v < 16
    ensures IsHexDigit(c) && HexDigitValue(c) == v
  {
    if v < 10 then ('0' as int + v) as char else ('a' as int + v - 10) as char
  }

  predicate AllHexDigits(s: string) {
    forall k :: 0 <= k < |s| ==> IsHexDigit(s[k])
  }

  function Pow16(n: nat): (p: nat)
    ensures p >= 1
  {
    if n == 0 then 1 else 16 * Pow16(n - 1)
  }

  /** The number a run of hexadecimal digits denotes, most significant first. */
  function HexValue(digits: string): (v: nat)
    requires AllHexDigits(digits)
    ensures v < Pow16(|digits|)
  {
    if |digits| == 0 then 0
    else HexValue(digits[..|digits| - 1]) * 16 + HexDigitValue(digits[|digits| - 1])
  }

  // ---------------------------------------------------------------- parseInt(s, 16)

  /** `s` without its leading white space. */
  function TrimStart(s: string): (r: string)
    ensures |r| <= |s|
  {
    if |s| > 0 && IsJsWhitespace(s[0]) then TrimStart(s[1..]) else s
  }

  /** TrimStart drops exactly the white space at the front: what it drops is white
      space, and what it keeps is the rest of `s`, starting with something else. */
  lemma {:induction false} TrimStartDropsWhitespace(s: string)
    ensures var r := TrimStart(s);
      && r == s[|s| - |r|..]
      && (|r| == 0 || !IsJsWhitespace(r[0]))
      && forall k :: 0 <= k < |s| - |r| ==> IsJsWhitespace(s[k])
  {
    if |s| > 0 && IsJsWhitespace(s[0]) {
      TrimStartDropsWhitespace(s[1..]);
      assert forall k :: 1 <= k < |s| ==> s[k] == s[1..][k - 1];
    }
  }

  /** The longest prefix of `s` made of hexadecimal digits. */
  function HexPrefix(s: string): (r: string)
    ensures |r| <= |s| && AllHexDigits(r)
  {
    if |s| == 0 || !IsHexDigit(s[0]) then [] else [s[0]] + HexPrefix(s[1..])
  }

  /** HexPrefix is a prefix of `s`, and the longest one of digits only: the next
      character, if any, is not a digit. */
  lemma {:induction false} HexPrefixIsLongest(s: string)
    ensures var r := HexPrefix(s);
      && r == s[..|r|]
      && (|r| == |s| || !IsHexDigit(s[|r|]))
  {
    if |s| > 0 && IsHexDigit(s[0]) {
      HexPrefixIsLongest(s[1..]);
    }
  }

  /** Pow16 grows with its exponent. */
  lemma {:induction false} Pow16Grows(m: nat, n: nat)
    requires m <= n
    ensures Pow16(m) <= Pow16(n)
  {
    if m < n {
      Pow16Grows(m, n - 1);
    }
  }

  /** `parseInt(s, 16)`; `None` stands for `NaN`. A negative zero is read as 0.  An
      empty string is `NaN`, and a number read from `n` characters has fewer than `n`
      hexadecimal digits' worth of magnitude. */
  function ParseIntHex(s: string): (r: Option<int>)
    ensures |s| == 0 ==> r == None
    ensures r.Some? ==> -(Pow16(|s|) as int) < r.value < Pow16(|s|)
  {
    var t := TrimStart(s);
    var negative := |t| > 0 && t[0] == '-';
    var unsigned := if |t| > 0 && (t[0] == '-' || t[0] == '+') then t[1..] else t;
    var body := if |unsigned| >= 2 && unsigned[0] == '0' && (unsigned[1] == 'x' || unsigned[1] == 'X')
                then unsigned[2..] else unsigned;
    var digits := HexPrefix(body);
    if |digits| == 0 then None
    else
      var value: int := HexValue(digits);
      Pow16Grows(|digits|, |s|);
      Some(if negative then -value else value)
  }

  /** The byte two hexadecimal digits denote, most significant first. */
  function PairValue(high: char, low: char): (v: nat)
    requires IsHexDigit(high) && IsHexDigit(low)
    ensures v < 256
  {
    16 * HexDigitValue(high) + HexDigitValue(low)
  }

  /** Two hexadecimal digits read as the byte they denote. */
  lemma ParseHexPair(s: string)
    requires |s| == 2 && IsHexDigit(s[0]) && IsHexDigit(s[1])
    ensures ParseIntHex(s) == Some(PairValue(s[0], s[1]))
  {
    assert !IsJsWhitespace(s[0]);
    assert TrimStart(s) == s;
    assert s[1..] == [s[1]] && [s[1]][1..] == [];
    assert HexPrefix(s) == s;
    assert s[..1] == [s[0]] && [s[0]][..0] == [];
    assert HexValue([s[0]]) == HexDigitValue(s[0]);
    assert HexValue(s) == 16 * HexDigitValue(s[0]) + HexDigitValue(s[1]);
  }

  /** Whatever two characters a slice holds, a number read from it lies in -15 .. 255:
      a sign leaves room for one digit only. */
  lemma ParseShortRange(s: string)
    requires |s| <= 2
    ensures ParseIntHex(s).Some? ==> -15 <= ParseIntHex(s).value <= 255
  {
    var t := TrimStart(s);
    var unsigned := if |t| > 0 && (t[0] == '-' || t[0] == '+') then t[1..] else t;
    var body := if |unsigned| >= 2 && unsigned[0] == '0' && (unsigned[1] == 'x' || unsigned[1] == 'X')
                then unsigned[2..] else unsigned;
    var digits := HexPrefix(body);
    assert |digits| <= 2;
    if |t| > 0 && (t[0] == '-' || t[0] == '+') {
      assert |digits| <= 1;
      assert Pow16(1) == 16;
    } else {
      assert Pow16(2) == 256 by {
        assert Pow16(1) == 16;
      }
      assert Pow16(|digits|) <= 256 by {
        assert Pow16(0) == 1 && Pow16(1) == 16;
      }
    }
  }

  /** A slice that starts with something that is neither a digit, a sign nor white
      space reads as `NaN`. */
  lemma ParseNonDigitIsNaN(s: string)
    requires |s| > 0 && !IsHexDigit(s[0]) && !IsJsWhitespace(s[0]) && s[0] != '+' && s[0] != '-'
    ensures ParseIntHex(s) == None
  {
    assert TrimStart(s) == s;
  }

  // ---------------------------------------------------------------- colours

  /** `s.slice(start, end)` for non-negative bounds: both are clamped to the length,
      and an empty range gives the empty string. */
  function Slice(s: string, start: nat, end: nat): (r: string)
    ensures start <= end <= |s| ==> r == s[start..end]
    ensures |s| <= start ==> r == []
    ensures |r| <= if start <= end then end - start else 0
  {
    var from := if start < |s| then start else |s|;
    var to := if end < |s| then end else |s|;
    if from >= to then [] else s[from..to]
  }

  datatype Channels = Channels(red: Option<int>, green: Option<int>, blue: Option<int>)

  const Black: string := "#000000"

  /** `captionFontColor || '#000000'`, then the three `parseInt` calls (script.js:849-852).
      Whatever the string, a channel that is a number lies in -15 .. 255. */
  function ColorChannels(captionFontColor: string): (r: Channels)
    ensures r.red.Some? ==> -15 <= r.red.value <= 255
    ensures r.green.Some? ==> -15 <= r.green.value <= 255
    ensures r.blue.Some? ==> -15 <= r.blue.value <= 255
  {
    var hexColor := if captionFontColor == "" then Black else captionFontColor;
    var red, green, blue := Slice(hexColor, 1, 3), Slice(hexColor, 3, 5), Slice(hexColor, 5, 7);
    ParseShortRange(red);
    ParseShortRange(green);
    ParseShortRange(blue);
    Channels(ParseIntHex(red), ParseIntHex(green), ParseIntHex(blue))
  }

  /** What a colour input yields: `#` and six hexadecimal digits. */
  predicate IsHexColor(c: string) {
    && |c| == 7 && c[0] == '#'
    && IsHexDigit(c[1]) && IsHexDigit(c[2]) && IsHexDigit(c[3])
    && IsHexDigit(c[4]) && IsHexDigit(c[5]) && IsHexDigit(c[6])
  }

  /** One channel: the two digits at `first` and `second` read as their byte. */
  lemma ParseChannel(c: string, first: nat, second: nat, end: nat)
    requires second == first + 1 && end == first + 2 && end <= |c|
    requires IsHexDigit(c[first]) && IsHexDigit(c[second])
    ensures ParseIntHex(Slice(c, first, end)) == Some(PairValue(c[first], c[second]))
  {
    var pair := Slice(c, first, end);
    assert pair[0] == c[first] && pair[1] == c[second];
    ParseHexPair(pair);
  }

  /** The red pair, digits 1 and 2. */
  lemma RedChannel(c: string)
    requires |c| >= 3 && IsHexDigit(c[1]) && IsHexDigit(c[2])
    ensures ParseIntHex(Slice(c, 1, 3)) == Some(PairValue(c[1], c[2]))
  {
    ParseChannel(c, 1, 2, 3);
  }

  /** The green pair, digits 3 and 4. */
  lemma GreenChannel(c: string)
    requires |c| >= 5 && IsHexDigit(c[3]) && IsHexDigit(c[4])
    ensures ParseIntHex(Slice(c, 3, 5)) == Some(PairValue(c[3], c[4]))
  {
    ParseChannel(c, 3, 4, 5);
  }

  /** The blue pair, digits 5 and 6. */
  lemma BlueChannel(c: string)
    requires |c| >= 7 && IsHexDigit(c[5]) && IsHexDigit(c[6])
    ensures ParseIntHex(Slice(c, 5, 7)) == Some(PairValue(c[5], c[6]))
  {
    ParseChannel(c, 5, 6, 7);
  }

  /** A well-formed colour gives three channels, each the byte its pair of digits
      denotes, so each in 0 .. 255. */
  lemma WellFormedColorChannels(c: string)
    requires IsHexColor(c)
    ensures ColorChannels(c) == Channels(Some(PairValue(c[1], c[2])),
                                         Some(PairValue(c[3], c[4])),
                                         Some(PairValue(c[5], c[6])))
    ensures && 0 <= ColorChannels(c).red.value <= 255
            && 0 <= ColorChannels(c).green.value <= 255
            && 0 <= ColorChannels(c).blue.value <= 255
  {
    assert c != "" by {
      assert |c| != 0;
    }
    RedChannel(c);
    GreenChannel(c);
    BlueChannel(c);
  }

  /** The same, with the three bytes named. */
  lemma ColorChannelsAre(c: string, red: nat, green: nat, blue: nat)
    requires IsHexColor(c)
    requires PairValue(c[1], c[2]) == red
    requires PairValue(c[3], c[4]) == green
    requires PairValue(c[5], c[6]) == blue
    ensures ColorChannels(c) == Channels(Some(red), Some(green), Some(blue))
  {
    WellFormedColorChannels(c);
  }

  /** The empty colour stands for black. */
  lemma EmptyColorIsBlack()
    ensures ColorChannels("") == Channels(Some(0), Some(0), Some(0))
  {
    assert ColorChannels("") == ColorChannels(Black);
    ColorChannelsAre(Black, 0, 0, 0);
  }

  /** The two lower-case digits of a byte. */
  function ByteHex(v: nat): (s: string)
    requires v < 256
    ensures |s| == 2 && AllHexDigits(s)
  {
    [HexDigitChar(v / 16), HexDigitChar(v % 16)]
  }

  /** The `#rrggbb` string a colour input produces for three bytes, which the caption
      editor stores as `captionFontColor` (script.js:186-197); the parse above is its
      inverse. */
  function FormatColor(red: nat, green: nat, blue: nat): (c: string)
    requires red < 256 && green < 256 && blue < 256
    ensures IsHexColor(c)
  {
    "#" + ByteHex(red) + ByteHex(green) + ByteHex(blue)
  }

  /** The two digits of a byte read back as the byte. */
  lemma ByteHexDigits(v: nat)
    requires v < 256
    ensures PairValue(ByteHex(v)[0], ByteHex(v)[1]) == v
  {
  }

  /** Reading back a formatted colour gives the three bytes it was made of. */
  lemma FormatColorRoundTrip(red: nat, green: nat, blue: nat)
    requires red < 256 && green < 256 && blue < 256
    ensures ColorChannels(FormatColor(red, green, blue)) == Channels(Some(red), Some(green), Some(blue))
  {
    var c := FormatColor(red, green, blue);
    var r, g, b := ByteHex(red), ByteHex(green), ByteHex(blue);
    assert c[1] == r[0] && c[2] == r[1] && c[3] == g[0] && c[4] == g[1] && c[5] == b[0] && c[6] == b[1];
    ByteHexDigits(red);
    ByteHexDigits(green);
    ByteHexDigits(blue);
    ColorChannelsAre(c, red, green, blue);
  }
}
