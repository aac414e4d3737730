/** Colours as the studio writes them: hexToRgb, which parses "#rrggbb" (the '#'
    optional, digits in either case) and yields black for anything else, and the
    colour picker's formatting of a picked pixel as '#' followed by each channel's
    lower-case base-16 digits, zero-padded to two. */
module Hex {
  import opened Bytes
  import opened Raster
  import opened Background

  /** [a-f\d] under the case-insensitive flag: an ASCII hex digit of either case. */
  predicate IsHexDigit(ch: char)
  {
    '0' <= ch <= '9' || 'a' <= ch <= 'f' || 'A' <= ch <= 'F'
  }

  /** The value parseInt gives one hex digit. */
  function DigitValue(ch: char): (v: nat)
    requires IsHexDigit(ch)
    ensures v < 16
  {
    if '0' <= ch <= '9' then ch as int - '0' as int
    else if 'a' <= ch <= 'f' then ch as int - 'a' as int + 10
    else ch as int - 'A' as int + 10
  }

  /** The digit Number.prototype.toString(16) writes for d: 0-9 then a-f. */
  function HexDigit(d: nat): (ch: char)
    requires d < 16
    ensures IsHexDigit(ch) && !('A' <= ch <= 'F')
  {
    if d < 10 then ('0' as int + d) as char else ('a' as int + d - 10) as char
  }

  /** The digits of hexToRgb's argument: what follows an optional leading '#'. */
  function Body(s: string): string
  {
    if |s| > 0 && s[0] == '#' then s[1..] else s
  }

  /** The strings /^#?([a-f\d]{2})([a-f\d]{2})([a-f\d]{2})$/i matches. */
  predicate WellFormedHex(s: string)
  {
    var d := Body(s);
    |d| == 6 && forall i :: 0 <= i < 6 ==> IsHexDigit(d[i])
  }

  /** parseInt of a two-digit group, base 16. */
  function PairValue(hi: char, lo: char): (v: Byte)
    requires IsHexDigit(hi) && IsHexDigit(lo)
  {
    16 * DigitValue(hi) + DigitValue(lo)
  }

  /** The regex match, as three parsed groups, or None when it does not match. */
  function ParseHex(s: string): (r: Option<Color>)
    ensures r.Some? <==> WellFormedHex(s)
  {
    if !WellFormedHex(s) then None
    else
      var d := Body(s);
      Some(Color(PairValue(d[0], d[1]), PairValue(d[2], d[3]), PairValue(d[4], d[5])))
  }

  /** hexToRgb: the parsed colour, or black when the string is not a hex colour. */
  function HexToRgb(s: string): (c: Color)
    ensures !WellFormedHex(s) ==> c == Black
  {
    match ParseHex(s)
    case None => Black
    case Some(c) => c
  }

  /** Number.prototype.toString(16) of a non-negative integer: lower-case digits,
      most significant first, no leading zeros. */
  function ToRadix16(n: nat): (s: string)
    ensures |s| >= 1
    decreases n
  {
    if n < 16 then [HexDigit(n)] else ToRadix16(n / 16) + [HexDigit(n % 16)]
  }

  /** String.prototype.padStart(2, '0'). */
  function PadStart2(s: string): (r: string)
  {
    if |s| >= 2 then s else seq(2 - |s|, _ => '0') + s
  }

  /** One channel as the colour picker writes it: always two characters. */
  function ChannelHex(v: Byte): (s: string)
    ensures |s| == 2
  {
    assert |ToRadix16(v)| <= 2 by {
      if v >= 16 { assert |ToRadix16(v / 16)| == 1; }
    }
    PadStart2(ToRadix16(v))
  }

  /** The key colour the picker stores for a picked colour: '#' and two characters
      per channel. */
  function FormatHex(c: Color): (s: string)
    ensures |s| == 7 && s[0] == '#'
  {
    "#" + ChannelHex(c.r) + ChannelHex(c.g) + ChannelHex(c.b)
  }

  /** Each channel is written as exactly two lower-case digits whose value is the
      channel: the high digit is v / 16 (zero when v < 16) and the low one v % 16. */
  lemma ChannelHexDigits(v: Byte)
    ensures |ChannelHex(v)| == 2
    ensures ChannelHex(v) == [HexDigit(v / 16), HexDigit(v % 16)]
    ensures PairValue(ChannelHex(v)[0], ChannelHex(v)[1]) == v
  {
    DigitRoundTrip(v / 16);
    DigitRoundTrip(v % 16);
    if v < 16 {
      assert ChannelHex(v) == ['0'] + [HexDigit(v)];
    } else {
      assert ToRadix16(v / 16) == [HexDigit(v / 16)];
    }
  }

  /** toString(16) and parseInt(_, 16) agree on a single digit. */
  lemma DigitRoundTrip(d: nat)
    requires d < 16
    ensures DigitValue(HexDigit(d)) == d
  {}

  /** parseInt inverts toString(16) on one lower-case digit. */
  lemma ValueRoundTrip(ch: char)
    requires IsHexDigit(ch) && !('A' <= ch <= 'F')
    ensures HexDigit(DigitValue(ch)) == ch
  {}

  /** The picker's string is a well-formed hex colour: '#' and six lower-case digits. */
  lemma FormatHexWellFormed(c: Color)
    ensures |FormatHex(c)| == 7 && FormatHex(c)[0] == '#'
    ensures WellFormedHex(FormatHex(c))
    ensures forall i :: 1 <= i < 7 ==> !('A' <= FormatHex(c)[i] <= 'F')
  {
    ChannelHexDigits(c.r);
    ChannelHexDigits(c.g);
    ChannelHexDigits(c.b);
  }

  /** A picked colour survives the trip through its hex string: hexToRgb of the
      string the picker stores is the colour that was picked. */
  lemma FormatThenParse(c: Color)
    ensures ParseHex(FormatHex(c)) == Some(c)
    ensures HexToRgb(FormatHex(c)) == c
  {
    FormatHexWellFormed(c);
    ChannelHexDigits(c.r);
    ChannelHexDigits(c.g);
    ChannelHexDigits(c.b);
    var d := Body(FormatHex(c));
    assert d == ChannelHex(c.r) + ChannelHex(c.g) + ChannelHex(c.b);
  }

  /** Conversely, a '#' and six lower-case digits (what a colour input yields) is
      exactly the string the picker would write for the colour it parses to. */
  lemma {:induction false} ParseThenFormat(s: string)
    requires |s| == 7 && s[0] == '#' && WellFormedHex(s)
    requires forall i :: 1 <= i < 7 ==> !('A' <= s[i] <= 'F')
    ensures FormatHex(HexToRgb(s)) == s
  {
    var d := Body(s);
    assert d == s[1..];
    var c := HexToRgb(s);
    ChannelHexDigits(c.r);
    ChannelHexDigits(c.g);
    ChannelHexDigits(c.b);
    PairDigits(d[0], d[1]);
    PairDigits(d[2], d[3]);
    PairDigits(d[4], d[5]);
    assert FormatHex(c) == "#" + [d[0], d[1]] + [d[2], d[3]] + [d[4], d[5]];
  }

  /** The two digits of a parsed pair are recovered by dividing by 16. */
  lemma PairDigits(hi: char, lo: char)
    requires IsHexDigit(hi) && IsHexDigit(lo) && !('A' <= hi <= 'F') && !('A' <= lo <= 'F')
    ensures HexDigit(PairValue(hi, lo) / 16) == hi && HexDigit(PairValue(hi, lo) % 16) == lo
  {
    var v := PairValue(hi, lo);
    DivModUnique(v, 16, DigitValue(hi), DigitValue(lo));
    ValueRoundTrip(hi);
    ValueRoundTrip(lo);
  }

  /** The leading '#' is optional: dropping it does not change the colour. */
  lemma HashOptional(s: string)
    requires |s| >= 2 && s[0] == '#' && s[1] != '#'
    ensures HexToRgb(s[1..]) == HexToRgb(s)
  {
    assert Body(s) == s[1..] == Body(s[1..]);
  }

  /** The case-insensitive flag: upper-case digits parse like lower-case ones. */
  lemma UpperCaseDigits(d: nat)
    requires 10 <= d < 16
    ensures DigitValue(('A' as int + d - 10) as char) == DigitValue(HexDigit(d))
  {}

  /** Picking a pixel's colour as the key and removing the background replaces that
      pixel, whatever the tolerance: its distance to its own colour is zero. */
  lemma PickThenRemove(img: Image, x: int, y: int, tolerance: real, replacement: Color)
    requires img.Valid()
    requires 0 <= x < img.width && 0 <= y < img.height
    ensures var key := HexToRgb(FormatHex(ColorAtPoint(img, x, y)));
            var out := BackgroundRemoved(img, key, tolerance, replacement);
            ColorAtPoint(out, x, y) == replacement
  {
    var col := ColorAtPoint(img, x, y);
    FormatThenParse(col);
    assert Distance2(col, col) == 0;
    assert tolerance * tolerance >= 0.0;
    RemoveBackgroundPixel(img, col, tolerance, replacement, x, y);
  }
}
