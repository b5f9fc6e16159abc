/**
 * Shade arithmetic on `#rrggbb` colours: the custom-colour validator,
 * `adjustColor` as written in extension.js (and copied in the unit test),
 * and the `padStart` variant kept in the standalone test.
 */
module ColorMath {

  // ---------------------------------------------------------------------
  // Hex digits and the validator /^#[0-9A-Fa-f]{6}$/
  // ---------------------------------------------------------------------

  /** A character of the class [0-9A-Fa-f]. */
  predicate IsHexDigit(c: char) {
    '0' <= c <= '9' || 'a' <= c <= 'f' || 'A' <= c <= 'F'
  }

  /** A digit as `Number.prototype.toString(16)` writes it. */
  predicate IsLowerHexDigit(c: char) {
    '0' <= c <= '9' || 'a' <= c <= 'f'
  }

  predicate AllHex(s: string) {
    forall i :: 0 <= i < |s| ==> IsHexDigit(s[i])
  }

  /** The regex tail `[0-9A-Fa-f]{n}$`: the rest of the input is exactly n hex digits. */
  function MatchHexRun(s: string, n: nat): (b: bool)
    ensures b <==> |s| == n && AllHex(s)
  {
    if n == 0 then s == []
    else s != [] && IsHexDigit(s[0]) && MatchHexRun(s[1..], n - 1)
  }

  /** `validateInput` of the custom-colour input box: /^#[0-9A-Fa-f]{6}$/.test(value). */
  function IsHexColor(s: string): (b: bool)
    ensures b <==> |s| == 7 && s[0] == '#' && forall i :: 1 <= i < 7 ==> IsHexDigit(s[i])
  {
    |s| >= 1 && s[0] == '#' && MatchHexRun(s[1..], 6)
  }

  /** A colour in the canonical form `adjustColor` produces. */
  predicate IsLowerHexColor(s: string) {
    |s| == 7 && s[0] == '#' && forall i :: 1 <= i < 7 ==> IsLowerHexDigit(s[i])
  }

  function LowerChar(c: char): char {
    if 'A' <= c <= 'F' then (c as int - 'A' as int + 'a' as int) as char else c
  }

  /** ASCII lower-casing of the digits A-F, the only letters a valid colour holds. */
  function Lower(s: string): string {
    seq(|s|, i requires 0 <= i < |s| => LowerChar(s[i]))
  }

  // ---------------------------------------------------------------------
  // Numbers in base 16
  // ---------------------------------------------------------------------

  function Pow16(n: nat): (p: nat)
    ensures p >= 1
  {
    if n == 0 then 1 else 16 * Pow16(n - 1)
  }

  lemma Pow16Six()
    ensures Pow16(2) == 0x100 && Pow16(4) == 0x10000 && Pow16(6) == 0x1000000
  {
  }

  function DigitValue(c: char): (v: nat)
    requires IsHexDigit(c)
    ensures v < 16
  {
    if '0' <= c <= '9' then c as int - '0' as int
    else if 'a' <= c <= 'f' then c as int - 'a' as int + 10
    else c as int - 'A' as int + 10
  }

  function HexChar(d: nat): (c: char)
    requires d < 16
    ensures IsLowerHexDigit(c) && IsHexDigit(c) && DigitValue(c) == d
  {
    if d < 10 then ('0' as int + d) as char else ('a' as int + d - 10) as char
  }

  /** `parseInt(s, 16)` on a non-empty run of hex digits (the empty run reads as 0 here). */
  function ParseHex(s: string): (v: nat)
    requires AllHex(s)
    ensures v < Pow16(|s|)
  {
    if s == [] then 0 else ParseHex(s[..|s| - 1]) * 16 + DigitValue(s[|s| - 1])
  }

  /** `n.toString(16)`: lowercase digits, no leading zeros. */
  function ToHexString(n: nat): (s: string)
    ensures |s| >= 1
  {
    if n < 16 then [HexChar(n)] else ToHexString(n / 16) + [HexChar(n % 16)]
  }

  /** The low w base-16 digits of n, zero-padded: the reference encoding. */
  function FixedHex(n: nat, w: nat): (s: string)
    ensures |s| == w
    ensures forall i :: 0 <= i < |s| ==> IsLowerHexDigit(s[i]) && IsHexDigit(s[i])
  {
    if w == 0 then [] else FixedHex(n / 16, w - 1) + [HexChar(n % 16)]
  }

  // ---------------------------------------------------------------------
  // Channels
  // ---------------------------------------------------------------------

  datatype Rgb = Rgb(red: int, green: int, blue: int)

  /** The value of the two-digit hex numeral hi lo. */
  function DigitPair(hi: char, lo: char): (v: nat)
    requires IsHexDigit(hi) && IsHexDigit(lo)
    ensures v < 256
  {
    16 * DigitValue(hi) + DigitValue(lo)
  }

  /** The reference reading of a colour: each pair of digits is one channel. */
  function Channels(color: string): (c: Rgb)
    requires IsHexColor(color)
    ensures 0 <= c.red < 256 && 0 <= c.green < 256 && 0 <= c.blue < 256
  {
    Rgb(DigitPair(color[1], color[2]), DigitPair(color[3], color[4]), DigitPair(color[5], color[6]))
  }

  /** `Math.round(2.55 * percent)`: the integer nearest to 255 * percent / 100, a half rounded up. */
  function Amount(percent: nat): (a: nat)
    ensures 100 * a <= 255 * percent + 50 < 100 * a + 100
  {
    (255 * percent + 50) / 100
  }

  function Min(a: int, b: int): int { if a <= b then a else b }

  function Max(a: int, b: int): int { if a >= b then a else b }

  /** The inner `adjust` closure: one channel, clamped to [0, 255]. */
  function AdjustChannel(v: int, amt: nat, lighten: bool): (r: int)
    requires 0 <= v < 256
    ensures 0 <= r < 256
    ensures lighten ==> v <= r && (r == 255 || r == v + amt)
    ensures !lighten ==> r <= v && (r == 0 || r == v - amt)
    ensures lighten && v + amt <= 255 ==> r == v + amt
    ensures !lighten && amt <= v ==> r == v - amt
  {
    if lighten then Min(255, v + amt) else Max(0, v - amt)
  }

  // ---------------------------------------------------------------------
  // adjustColor (extension.js and its copy in test/unit/logic.test.js)
  // ---------------------------------------------------------------------

  /** `"#" + (0x1000000 + (R << 16) + (G << 8) + B).toString(16).slice(1)`. */
  function EncodeRgb(r: int, g: int, b: int): string
    requires 0 <= r < 256 && 0 <= g < 256 && 0 <= b < 256
  {
    "#" + ToHexString(0x1000000 + r * 0x10000 + g * 0x100 + b)[1..]
  }

  /**
   * `adjustColor(color, percent, lighten)`: the channels are cut out of the
   * parsed number with `>> 16`, `(>> 8) & 0xFF` and `& 0xFF`, which on a
   * 24-bit value are division and remainder by powers of 256.
   */
  function AdjustColor(color: string, percent: nat, lighten: bool): string
    requires IsHexColor(color)
  {
    Pow16Six();
    var num := ParseHex(color[1..]);
    var amt := Amount(percent);
    var red := AdjustChannel(num / 0x10000, amt, lighten);
    var green := AdjustChannel(num / 0x100 % 0x100, amt, lighten);
    var blue := AdjustChannel(num % 0x100, amt, lighten);
    EncodeRgb(red, green, blue)
  }

  // ---------------------------------------------------------------------
  // adjustColor as written in test/standalone_test.js (padStart encoding)
  // ---------------------------------------------------------------------

  /** `s.padStart(n, c)` with a one-character pad. */
  function PadStart(s: string, n: nat, c: char): (r: string)
    ensures |r| == if |s| >= n then |s| else n
    decreases n - |s|
  {
    if |s| >= n then s else PadStart([c] + s, n, c)
  }

  /** The `part` closure: `val.toString(16).padStart(2, '0')`. */
  function Part(v: nat): string {
    PadStart(ToHexString(v), 2, '0')
  }

  function AdjustColorPadded(color: string, percent: nat, lighten: bool): string
    requires IsHexColor(color)
  {
    Pow16Six();
    var num := ParseHex(color[1..]);
    var amt := Amount(percent);
    var red := AdjustChannel(num / 0x10000, amt, lighten);
    var green := AdjustChannel(num / 0x100 % 0x100, amt, lighten);
    var blue := AdjustChannel(num % 0x100, amt, lighten);
    "#" + Part(red) + Part(green) + Part(blue)
  }

  // ---------------------------------------------------------------------
  // Base-16 lemmas
  // ---------------------------------------------------------------------

  lemma DivMod16(q: nat, r: nat)
    requires r < 16
    ensures (16 * q + r) / 16 == q && (16 * q + r) % 16 == r
  {
  }

  /** Adding 16^w to n < 16^w puts one leading "1" in front of the w-digit encoding. */
  lemma {:induction false} ToHexStringOffset(n: nat, w: nat)
    requires n < Pow16(w)
    ensures ToHexString(Pow16(w) + n) == "1" + FixedHex(n, w)
  {
    if w > 0 {
      var m := Pow16(w) + n;
      assert m == 16 * (Pow16(w - 1) + n / 16) + n % 16;
      DivMod16(Pow16(w - 1) + n / 16, n % 16);
      assert n / 16 < Pow16(w - 1);
      ToHexStringOffset(n / 16, w - 1);
    }
  }

  lemma SplitLowDigit(a: nat, q: nat, b: nat, n: nat, m: nat)
    requires b < 16 * q && n == a * (16 * q) + b && m == a * q + b / 16
    ensures n / 16 == m && n % 16 == b % 16 && b / 16 < q
  {
    assert a * (16 * q) == 16 * (a * q);
    assert n == 16 * m + b % 16;
    DivMod16(m, b % 16);
  }

  /** The (v + w)-digit encoding of n = a * 16^w + b is that of a followed by that of b. */
  lemma {:induction false} FixedHexSplit(a: nat, b: nat, p: nat, n: nat, v: nat, w: nat)
    requires p == Pow16(w) && b < p && n == a * p + b
    ensures FixedHex(n, v + w) == FixedHex(a, v) + FixedHex(b, w)
  {
    if w == 0 {
      assert n == a;
    } else {
      var q := Pow16(w - 1);
      var m := a * q + b / 16;
      SplitLowDigit(a, q, b, n, m);
      FixedHexSplit(a, b / 16, q, m, v, w - 1);
      assert FixedHex(n, v + w) == FixedHex(m, v + w - 1) + [HexChar(b % 16)];
      assert FixedHex(b, w) == FixedHex(b / 16, w - 1) + [HexChar(b % 16)];
    }
  }

  lemma {:induction false} ParseFixedHex(n: nat, w: nat)
    requires n < Pow16(w)
    ensures ParseHex(FixedHex(n, w)) == n
  {
    if w > 0 {
      var s := FixedHex(n, w);
      assert s[..|s| - 1] == FixedHex(n / 16, w - 1);
      ParseFixedHex(n / 16, w - 1);
    }
  }

  lemma {:induction false} FixedHexOfParse(s: string)
    requires AllHex(s)
    ensures FixedHex(ParseHex(s), |s|) == Lower(s)
  {
    if s != [] {
      var k := |s| - 1;
      var n := ParseHex(s);
      DivMod16(ParseHex(s[..k]), DigitValue(s[k]));
      FixedHexOfParse(s[..k]);
      assert HexChar(DigitValue(s[k])) == LowerChar(s[k]);
      assert Lower(s) == Lower(s[..k]) + [LowerChar(s[k])];
    }
  }

  lemma ShiftDigit(x: int, p: int, y: int, d: int, n: int, q: int, z: int)
    requires n == (x * p + y) * 16 + d && q == 16 * p && z == y * 16 + d
    ensures n == x * q + z
  {
  }

  lemma PairParse(s: string)
    requires |s| == 2 && AllHex(s)
    ensures ParseHex(s) == DigitPair(s[0], s[1])
  {
    assert s[..1][..0] == [];
  }

  lemma ParseHexSnoc(s: string, c: char)
    requires AllHex(s) && IsHexDigit(c)
    ensures AllHex(s + [c])
    ensures ParseHex(s + [c]) == ParseHex(s) * 16 + DigitValue(c)
  {
    assert (s + [c])[..|s|] == s;
  }

  lemma {:induction false} ParseHexConcat(a: string, b: string)
    requires AllHex(a) && AllHex(b)
    ensures AllHex(a + b)
    ensures ParseHex(a + b) == ParseHex(a) * Pow16(|b|) + ParseHex(b)
  {
    if b == [] {
      assert a + b == a;
    } else {
      var k := |b| - 1;
      var init, c := b[..k], b[k];
      assert b == init + [c];
      assert a + b == (a + init) + [c];
      ParseHexConcat(a, init);
      ParseHexSnoc(a + init, c);
      ParseHexSnoc(init, c);
      ShiftDigit(ParseHex(a), Pow16(k), ParseHex(init), DigitValue(c), ParseHex(a + b), Pow16(|b|), ParseHex(b));
    }
  }

  // ---------------------------------------------------------------------
  // Encoding and decoding colours
  // ---------------------------------------------------------------------

  /** The offset-and-slice trick writes each channel as two zero-padded digits. */
  lemma OffsetEncoding(x: nat)
    requires x < 0x1000000
    ensures ToHexString(0x1000000 + x)[1..] == FixedHex(x, 6)
  {
    Pow16Six();
    ToHexStringOffset(x, 6);
  }

  lemma SplitThree(r: nat, g: nat, b: nat, p: nat, w: nat, rg: nat, n: nat)
    requires p == Pow16(w) && g < p && b < p && rg == r * p + g && n == rg * p + b
    ensures FixedHex(n, w + w + w) == FixedHex(r, w) + FixedHex(g, w) + FixedHex(b, w)
  {
    FixedHexSplit(rg, b, p, n, w + w, w);
    FixedHexSplit(r, g, p, rg, w, w);
  }

  lemma SixDigits(r: int, g: int, b: int)
    requires 0 <= r < 256 && 0 <= g < 256 && 0 <= b < 256
    ensures FixedHex((r * 0x100 + g) * 0x100 + b, 6) == FixedHex(r, 2) + FixedHex(g, 2) + FixedHex(b, 2)
  {
    Pow16Six();
    SplitThree(r, g, b, 0x100, 2, r * 0x100 + g, (r * 0x100 + g) * 0x100 + b);
  }

  lemma EncodeRgbDigits(r: int, g: int, b: int)
    requires 0 <= r < 256 && 0 <= g < 256 && 0 <= b < 256
    ensures EncodeRgb(r, g, b) == "#" + FixedHex(r, 2) + FixedHex(g, 2) + FixedHex(b, 2)
  {
    var x := (r * 0x100 + g) * 0x100 + b;
    assert 0x1000000 + r * 0x10000 + g * 0x100 + b == 0x1000000 + x;
    OffsetEncoding(x);
    SixDigits(r, g, b);
  }

  /** Encoding three channels gives a canonical colour that reads back as those channels. */
  lemma EncodeRgbRoundTrip(r: int, g: int, b: int)
    requires 0 <= r < 256 && 0 <= g < 256 && 0 <= b < 256
    ensures IsHexColor(EncodeRgb(r, g, b)) && IsLowerHexColor(EncodeRgb(r, g, b))
    ensures Channels(EncodeRgb(r, g, b)) == Rgb(r, g, b)
  {
    Pow16Six();
    EncodeRgbDigits(r, g, b);
    var s := EncodeRgb(r, g, b);
    assert s[1..3] == FixedHex(r, 2);
    assert s[3..5] == FixedHex(g, 2);
    assert s[5..7] == FixedHex(b, 2);
    ParseFixedHex(r, 2);
    ParseFixedHex(g, 2);
    ParseFixedHex(b, 2);
    PairParse(s[1..3]);
    PairParse(s[3..5]);
    PairParse(s[5..7]);
  }

  lemma BytePositions(r: int, g: int, b: int, p: int, m: int, n: int)
    requires 0 <= r < 256 && 0 <= g < 256 && 0 <= b < 256
    requires p == 0x100 && m == r * p + g && n == m * p + b
    ensures n / 0x10000 == r && n / 0x100 % 0x100 == g && n % 0x100 == b
  {
    assert n == r * 0x10000 + (g * 0x100 + b);
    assert n / 0x100 == m;
  }

  /** The shifts and masks of adjustColor read the same channels as the digit pairs. */
  lemma ShiftsReadChannels(color: string)
    requires IsHexColor(color)
    ensures ParseHex(color[1..]) / 0x10000 == Channels(color).red
    ensures ParseHex(color[1..]) / 0x100 % 0x100 == Channels(color).green
    ensures ParseHex(color[1..]) % 0x100 == Channels(color).blue
  {
    Pow16Six();
    var c := Channels(color);
    var d1, d2, d3 := color[1..3], color[3..5], color[5..7];
    assert color[1..] == d1 + d2 + d3;
    ParseHexConcat(d1, d2);
    ParseHexConcat(d1 + d2, d3);
    PairParse(d1);
    PairParse(d2);
    PairParse(d3);
    BytePositions(c.red, c.green, c.blue, Pow16(2), ParseHex(d1 + d2), ParseHex(color[1..]));
  }

  /** Re-encoding the channels of a valid colour gives the colour lower-cased. */
  lemma EncodeChannelsIsLower(color: string)
    requires IsHexColor(color)
    ensures EncodeRgb(Channels(color).red, Channels(color).green, Channels(color).blue) == Lower(color)
  {
    var c := Channels(color);
    EncodeRgbDigits(c.red, c.green, c.blue);
    FixedHexOfParse(color[1..3]);
    FixedHexOfParse(color[3..5]);
    FixedHexOfParse(color[5..7]);
    PairParse(color[1..3]);
    PairParse(color[3..5]);
    PairParse(color[5..7]);
    LowerSplit(color);
  }

  lemma LowerSplit(color: string)
    requires |color| == 7 && color[0] == '#'
    ensures Lower(color) == "#" + Lower(color[1..3]) + Lower(color[3..5]) + Lower(color[5..7])
  {
  }

  // ---------------------------------------------------------------------
  // What adjustColor promises
  // ---------------------------------------------------------------------

  /**
   * adjustColor yields a canonical lowercase colour, and each of its channels
   * is the clamped adjustment of the same channel of the input, by one shared
   * amount.
   */
  lemma AdjustColorChannels(color: string, percent: nat, lighten: bool)
    requires IsHexColor(color)
    ensures IsHexColor(AdjustColor(color, percent, lighten))
    ensures IsLowerHexColor(AdjustColor(color, percent, lighten))
    ensures var c, amt := Channels(color), Amount(percent);
      Channels(AdjustColor(color, percent, lighten)) ==
        Rgb(AdjustChannel(c.red, amt, lighten),
            AdjustChannel(c.green, amt, lighten),
            AdjustChannel(c.blue, amt, lighten))
  {
    ShiftsReadChannels(color);
    var c, amt := Channels(color), Amount(percent);
    EncodeRgbRoundTrip(AdjustChannel(c.red, amt, lighten),
                       AdjustChannel(c.green, amt, lighten),
                       AdjustChannel(c.blue, amt, lighten));
  }

  /** Lightening: every channel becomes min(255, c + amt), so it never decreases. */
  lemma LightenChannels(color: string, percent: nat)
    requires IsHexColor(color)
    ensures IsLowerHexColor(AdjustColor(color, percent, true))
    ensures var before, after, amt := Channels(color), Channels(AdjustColor(color, percent, true)), Amount(percent);
      && after.red == Min(255, before.red + amt)
      && after.green == Min(255, before.green + amt)
      && after.blue == Min(255, before.blue + amt)
      && before.red <= after.red <= 255
      && before.green <= after.green <= 255
      && before.blue <= after.blue <= 255
  {
    AdjustColorChannels(color, percent, true);
  }

  /** Darkening: every channel becomes max(0, c - amt), so it never increases. */
  lemma DarkenChannels(color: string, percent: nat)
    requires IsHexColor(color)
    ensures IsLowerHexColor(AdjustColor(color, percent, false))
    ensures var before, after, amt := Channels(color), Channels(AdjustColor(color, percent, false)), Amount(percent);
      && after.red == Max(0, before.red - amt)
      && after.green == Max(0, before.green - amt)
      && after.blue == Max(0, before.blue - amt)
      && 0 <= after.red <= before.red
      && 0 <= after.green <= before.green
      && 0 <= after.blue <= before.blue
  {
    AdjustColorChannels(color, percent, false);
  }

  /** A canonical colour is spelled by the two-digit encodings of its channels. */
  lemma CanonicalDigits(s: string)
    requires IsLowerHexColor(s)
    ensures IsHexColor(s)
    ensures s == "#" + FixedHex(Channels(s).red, 2) + FixedHex(Channels(s).green, 2) + FixedHex(Channels(s).blue, 2)
  {
    FixedHexOfParse(s[1..3]);
    FixedHexOfParse(s[3..5]);
    FixedHexOfParse(s[5..7]);
    PairParse(s[1..3]);
    PairParse(s[3..5]);
    PairParse(s[5..7]);
    assert Lower(s[1..3]) == s[1..3];
    assert Lower(s[3..5]) == s[3..5];
    assert Lower(s[5..7]) == s[5..7];
  }

  /** Two canonical colours with the same channels are the same string. */
  lemma ChannelsDetermineCanonical(s: string, t: string)
    requires IsLowerHexColor(s) && IsLowerHexColor(t)
    ensures IsHexColor(s) && IsHexColor(t)
    ensures Channels(s) == Channels(t) ==> s == t
  {
    CanonicalDigits(s);
    CanonicalDigits(t);
  }

  /** adjustColor's result is the one canonical colour whose channels are the adjusted ones. */
  lemma AdjustColorIs(color: string, percent: nat, lighten: bool, expected: string)
    requires IsHexColor(color) && IsLowerHexColor(expected)
    requires var c, amt := Channels(color), Amount(percent);
      Channels(expected) ==
        Rgb(AdjustChannel(c.red, amt, lighten),
            AdjustChannel(c.green, amt, lighten),
            AdjustChannel(c.blue, amt, lighten))
    ensures AdjustColor(color, percent, lighten) == expected
  {
    AdjustColorChannels(color, percent, lighten);
    ChannelsDetermineCanonical(AdjustColor(color, percent, lighten), expected);
  }

  /** With percent 0 the colour comes back unchanged except for lower-casing. */
  lemma AdjustByZeroIsLower(color: string, lighten: bool)
    requires IsHexColor(color)
    ensures AdjustColor(color, 0, lighten) == Lower(color)
  {
    var lower := Lower(color);
    assert IsLowerHexColor(lower);
    assert Channels(lower) == Channels(color);
    AdjustColorIs(color, 0, lighten, lower);
  }

  // ---------------------------------------------------------------------
  // The padStart variant computes the same function
  // ---------------------------------------------------------------------

  lemma PartIsTwoDigits(v: int)
    requires 0 <= v < 256
    ensures Part(v) == FixedHex(v, 2)
  {
    if v < 16 {
      assert ToHexString(v) == [HexChar(v)];
      assert PadStart([HexChar(v)], 2, '0') == PadStart(['0', HexChar(v)], 2, '0');
      assert FixedHex(v, 2) == [HexChar(0)] + [HexChar(v)];
    } else {
      assert ToHexString(v / 16) == [HexChar(v / 16)];
      assert FixedHex(v, 2) == [HexChar(v / 16)] + [HexChar(v % 16)];
    }
  }

  /** The two encodings of the channels agree on every valid colour. */
  lemma PaddedAgreesWithOffset(color: string, percent: nat, lighten: bool)
    requires IsHexColor(color)
    ensures AdjustColorPadded(color, percent, lighten) == AdjustColor(color, percent, lighten)
  {
    Pow16Six();
    var num := ParseHex(color[1..]);
    var amt := Amount(percent);
    var red := AdjustChannel(num / 0x10000, amt, lighten);
    var green := AdjustChannel(num / 0x100 % 0x100, amt, lighten);
    var blue := AdjustChannel(num % 0x100, amt, lighten);
    PartIsTwoDigits(red);
    PartIsTwoDigits(green);
    PartIsTwoDigits(blue);
    EncodeRgbDigits(red, green, blue);
  }
}
