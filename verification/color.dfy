/**
 * The colour picker's hexToRgb and rgbToHex (src/App.jsx), on integer
 * channels. hexToRgb reads the hex digits the way JavaScript's
 * `parseInt(s, 16)` does (optional sign, optional `0x`, then the longest run
 * of hex digits, NaN when there is none) and splits the value with
 * `(v >> 16) & 255`, `(v >> 8) & 255` and `v & 255`.
 */
module Color {
  import opened Reminders

  datatype Rgb = Rgb(r: int, g: int, b: int)

  predicate InRange(c: Rgb)
  {
    0 <= c.r < 256 && 0 <= c.g < 256 && 0 <= c.b < 256
  }

  predicate IsHexDigit(c: char)
  {
    ('0' <= c <= '9') || ('a' <= c <= 'f') || ('A' <= c <= 'F')
  }

  predicate IsLowerHexDigit(c: char)
  {
    ('0' <= c <= '9') || ('a' <= c <= 'f')
  }

  predicate AllHex(s: string)
  {
    forall k :: 0 <= k < |s| ==> IsHexDigit(s[k])
  }

  function DigitValue(c: char): (v: nat)
    requires IsHexDigit(c)
    ensures v < 16
  {
    if '0' <= c <= '9' then c as int - '0' as int
    else if 'a' <= c <= 'f' then c as int - 'a' as int + 10
    else c as int - 'A' as int + 10
  }

  /** The lower-case digit `Number.prototype.toString(16)` writes. */
  function DigitChar(v: nat): (c: char)
    requires v < 16
    ensures IsLowerHexDigit(c) && IsHexDigit(c) && DigitValue(c) == v
  {
    if v < 10 then ('0' as int + v) as char else ('a' as int + v - 10) as char
  }

  lemma DigitCharOfValue(c: char)
    requires IsLowerHexDigit(c)
    ensures DigitChar(DigitValue(c)) == c
  {
  }

  /** The value of a run of hex digits, most significant first. */
  function HexValue(d: string): nat
    requires AllHex(d)
  {
    if d == [] then 0 else HexValue(d[..|d| - 1]) * 16 + DigitValue(d[|d| - 1])
  }

  /** The longest prefix made of hex digits. */
  function HexRun(s: string): (p: string)
    ensures p <= s && AllHex(p)
    ensures |p| < |s| ==> !IsHexDigit(s[|p|])
    ensures AllHex(s) ==> p == s
  {
    if s == [] || !IsHexDigit(s[0]) then []
    else
      var rest := HexRun(s[1..]);
      assert AllHex(s) ==> AllHex(s[1..]);
      [s[0]] + rest
  }

  /** `parseInt(s, 16)`, with None for NaN. */
  function ParseIntHex(s: string): (v: Option<int>)
    ensures v.None? <==> HexRun(Unsigned(s)) == []
    ensures v.Some? && !(|s| > 0 && s[0] == '-') ==> v.value == HexValue(HexRun(Unsigned(s)))
    ensures v.Some? && |s| > 0 && s[0] == '-' ==> v.value == -(HexValue(HexRun(Unsigned(s))) as int)
  {
    var neg := |s| > 0 && s[0] == '-';
    var digits := HexRun(Unsigned(s));
    if digits == [] then None
    else
      var v: int := HexValue(digits);
      Some(if neg then -v else v)
  }

  /** What follows the optional sign and the optional `0x` or `0X`. */
  function Unsigned(s: string): string
  {
    var t := if |s| > 0 && (s[0] == '-' || s[0] == '+') then s[1..] else s;
    if |t| >= 2 && t[0] == '0' && (t[1] == 'x' || t[1] == 'X') then t[2..] else t
  }

  /** `s.replace('#', '')`: only the first `#` goes. */
  function RemoveFirst(s: string, c: char): (r: string)
    ensures c !in s ==> r == s
    ensures |s| > 0 && s[0] == c ==> r == s[1..]
  {
    if s == [] then []
    else if s[0] == c then s[1..]
    else [s[0]] + RemoveFirst(s[1..], c)
  }

  /** The three-digit short form with every digit doubled. */
  function Expand(h: string): string
  {
    if |h| == 3 then [h[0], h[0], h[1], h[1], h[2], h[2]] else h
  }

  /**
   * hexToRgb: an empty value is white; an unparseable one is black (NaN
   * shifts to 0); otherwise the three bytes of the parsed value's low 24 bits.
   * Dafny's `/` and `%` by a positive power of two floor, which matches the
   * 32-bit two's-complement shift and mask also for a negative value.
   */
  function HexToRgb(hex: string): (c: Rgb)
    ensures InRange(c)
    ensures hex == "" ==> c == Rgb(255, 255, 255)
    ensures hex != "" && ParseIntHex(Expand(RemoveFirst(hex, '#'))).None? ==> c == Rgb(0, 0, 0)
  {
    if hex == "" then Rgb(255, 255, 255)
    else
      match ParseIntHex(Expand(RemoveFirst(hex, '#')))
      case None => Rgb(0, 0, 0)
      case Some(v) => Rgb((v / 65536) % 256, (v / 256) % 256, v % 256)
  }

  /** `n.toString(16)` for an integer. */
  function ToHexString(n: int): (s: string)
    ensures n >= 0 ==> AllHex(s) && |s| >= 1
  {
    if n < 0 then "-" + Digits(-n) else Digits(n)
  }

  function Digits(n: nat): (s: string)
    ensures AllHex(s) && |s| >= 1
    ensures n < 16 ==> s == [DigitChar(n)]
  {
    if n < 16 then [DigitChar(n)] else Digits(n / 16) + [DigitChar(n % 16)]
  }

  /** `.padStart(2, '0')`. */
  function PadStart2(s: string): (r: string)
    ensures |r| == if |s| < 2 then 2 else |s|
  {
    if |s| == 0 then "00" else if |s| == 1 then "0" + s else s
  }

  function Channel(n: int): string
  {
    PadStart2(ToHexString(n))
  }

  /** rgbToHex: `#` and each channel as at least two hex digits. */
  function RgbToHex(c: Rgb): (s: string)
    ensures InRange(c) ==> |s| == 7 && s[0] == '#' && AllHex(s[1..])
  {
    ChannelInRange(c.r);
    ChannelInRange(c.g);
    ChannelInRange(c.b);
    "#" + Channel(c.r) + Channel(c.g) + Channel(c.b)
  }

  /** In range, a channel is two lower-case digits worth exactly the channel. */
  lemma ChannelInRange(n: int)
    ensures 0 <= n < 256 ==> var s := Channel(n);
      |s| == 2 && IsLowerHexDigit(s[0]) && IsLowerHexDigit(s[1]) && AllHex(s) && HexValue(s) == n
  {
    if 0 <= n < 256 {
      var s := Channel(n);
      if n < 16 {
        assert s == ['0', DigitChar(n)];
      } else {
        assert Digits(n / 16) == [DigitChar(n / 16)];
        assert s == [DigitChar(n / 16), DigitChar(n % 16)];
      }
      HexValueTwo(s);
    }
  }

  /** The value of two digits. */
  lemma HexValueTwo(d: string)
    requires |d| == 2 && AllHex(d)
    ensures HexValue(d) == DigitValue(d[0]) * 16 + DigitValue(d[1])
    ensures HexValue(d) < 256
  {
    var d1 := d[..1];
    assert d[..|d| - 1] == d1;
    assert d1[..|d1| - 1] == [] && d1[|d1| - 1] == d[0];
    assert HexValue(d1) == DigitValue(d[0]);
  }

  /** Appending two digits multiplies the value so far by 256. */
  lemma HexValueAppend2(x: string, y: string)
    requires AllHex(x) && AllHex(y) && |y| == 2
    ensures AllHex(x + y)
    ensures HexValue(x + y) == HexValue(x) * 256 + HexValue(y)
  {
    var xy := x + y;
    var x1 := x + [y[0]];
    assert xy[..|xy| - 1] == x1;
    assert x1[..|x1| - 1] == x;
    var h, a, b := HexValue(x), DigitValue(y[0]), DigitValue(y[1]);
    assert HexValue(x1) == h * 16 + a;
    assert HexValue(xy) == (h * 16 + a) * 16 + b;
    HexValueTwo(y);
  }

  /** Three two-digit channels side by side. */
  lemma SixDigitsValue(r: string, g: string, b: string)
    requires |r| == 2 && |g| == 2 && |b| == 2 && AllHex(r) && AllHex(g) && AllHex(b)
    ensures AllHex(r + g + b)
    ensures HexValue(r + g + b) == (HexValue(r) * 256 + HexValue(g)) * 256 + HexValue(b)
  {
    HexValueAppend2([], r);
    assert [] + r == r;
    HexValueAppend2(r, g);
    HexValueAppend2(r + g, b);
  }

  /** Reading `#` and six digits splits their value into bytes. */
  lemma HexToRgbOfSix(t: string)
    requires |t| == 6 && AllHex(t)
    ensures var v := HexValue(t);
      HexToRgb("#" + t) == Rgb((v / 65536) % 256, (v / 256) % 256, v % 256)
  {
    assert ("#" + t)[1..] == t;
    ParseSixDigits(t);
  }

  /** The three channels of a value written as six digits. */
  lemma SplitChannels(a: int, b: int, c: int)
    requires 0 <= a < 256 && 0 <= b < 256 && 0 <= c < 256
    ensures var v := (a * 256 + b) * 256 + c;
      (v / 65536) % 256 == a && (v / 256) % 256 == b && v % 256 == c
  {
    var v := (a * 256 + b) * 256 + c;
    assert v == a * 65536 + (b * 256 + c);
    assert v / 65536 == a;
    assert v == (a * 256 + b) * 256 + c;
    assert v / 256 == a * 256 + b;
  }

  /** Six hex digits, led by a digit, parse to their value. */
  lemma ParseSixDigits(s: string)
    requires |s| == 6 && AllHex(s)
    ensures ParseIntHex(Expand(s)) == Some(HexValue(s))
  {
    assert s[0] != '-' && s[0] != '+';
    assert s[1] != 'x' && s[1] != 'X';
    assert Unsigned(s) == s;
  }

  /** Writing a colour and reading it back gives the same channels. */
  lemma RgbToHexRoundTrip(c: Rgb)
    requires InRange(c)
    ensures HexToRgb(RgbToHex(c)) == c
  {
    var r, g, b := Channel(c.r), Channel(c.g), Channel(c.b);
    ChannelInRange(c.r);
    ChannelInRange(c.g);
    ChannelInRange(c.b);
    assert RgbToHex(c) == "#" + (r + g + b);
    SixDigitsValue(r, g, b);
    ReadBack(r + g + b, c.r, c.g, c.b);
  }

  lemma ReadBack(t: string, a: int, b: int, c: int)
    requires |t| == 6 && AllHex(t)
    requires 0 <= a < 256 && 0 <= b < 256 && 0 <= c < 256
    requires HexValue(t) == (a * 256 + b) * 256 + c
    ensures HexToRgb("#" + t) == Rgb(a, b, c)
  {
    HexToRgbOfSix(t);
    SplitChannels(a, b, c);
  }

  predicate CanonicalHex(s: string)
  {
    |s| == 7 && s[0] == '#' && forall k :: 1 <= k < 7 ==> IsLowerHexDigit(s[k])
  }

  /** Two lower-case digits are written back as themselves. */
  lemma ChannelOfTwoDigits(d: string)
    requires |d| == 2 && IsLowerHexDigit(d[0]) && IsLowerHexDigit(d[1])
    ensures AllHex(d) && Channel(HexValue(d)) == d
  {
    HexValueTwo(d);
    var hi, lo := DigitValue(d[0]), DigitValue(d[1]);
    var n := HexValue(d);
    DigitCharOfValue(d[0]);
    DigitCharOfValue(d[1]);
    if hi == 0 {
      assert d[0] == '0';
      assert Channel(n) == ['0', DigitChar(lo)];
    } else {
      assert n / 16 == hi && n % 16 == lo;
      assert Digits(n / 16) == [DigitChar(hi)];
      assert Channel(n) == [DigitChar(hi), DigitChar(lo)];
    }
  }

  /** Reading a canonical `#rrggbb` and writing it back gives the same text. */
  lemma HexToRgbRoundTrip(s: string)
    requires CanonicalHex(s)
    ensures RgbToHex(HexToRgb(s)) == s
  {
    var r, g, b := s[1..3], s[3..5], s[5..7];
    ChannelOfTwoDigits(r);
    ChannelOfTwoDigits(g);
    ChannelOfTwoDigits(b);
    assert s[1..] == r + g + b;
    assert s == "#" + (r + g + b);
    SixDigitsValue(r, g, b);
    HexValueTwo(r);
    HexValueTwo(g);
    HexValueTwo(b);
    ReadBack(r + g + b, HexValue(r), HexValue(g), HexValue(b));
  }

  /** The three-digit short form reads as its doubled six-digit form. */
  lemma ShortFormExpands(h: string)
    requires |h| == 3 && '#' !in h
    ensures HexToRgb("#" + h) == HexToRgb("#" + [h[0], h[0], h[1], h[1], h[2], h[2]])
  {
    assert RemoveFirst("#" + h, '#') == h;
    var six := [h[0], h[0], h[1], h[1], h[2], h[2]];
    assert RemoveFirst("#" + six, '#') == six;
  }
}
