/**
 * The pixel codec of the ST7735S driver: parsing of '#RRGGBB' colour strings,
 * conversion of an 8-bit-per-channel colour to the controller's 16-bit RGB565
 * word, and conversion of a row-major pixel sequence to the big-endian byte
 * stream that follows a memory-write command.
 */
module Codec {
  import opened Errors

  /** An (R, G, B) triple as a Python tuple holds it: channels are not range-checked. */
  type Rgb = (int, int, int)

  // ---------------------------------------------------------------------------
  // '#RRGGBB' parsing
  // ---------------------------------------------------------------------------

  /** `s.lstrip('#')`: drops every leading '#', and nothing else. */
  function LStripHash(s: string): (t: string)
    ensures |t| <= |s|
  {
    if s != [] && s[0] == '#' then LStripHash(s[1..]) else s
  }

  /** What `lstrip('#')` leaves is a suffix, what it drops is all '#', and what it leaves does not start with '#'. */
  lemma {:induction false} LStripHashSuffix(s: string)
    ensures var t := LStripHash(s);
      && t == s[|s| - |t|..]
      && (forall i :: 0 <= i < |s| - |t| ==> s[i] == '#')
      && (t == [] || t[0] != '#')
    decreases |s|
  {
    if s != [] && s[0] == '#' {
      LStripHashSuffix(s[1..]);
      var t := LStripHash(s);
      assert s[1..][|s| - 1 - |t|..] == s[|s| - |t|..];
      assert forall i :: 1 <= i < |s| - |t| ==> s[i] == s[1..][i - 1];
    }
  }

  predicate IsHexDigit(c: char) {
    '0' <= c <= '9' || 'a' <= c <= 'f' || 'A' <= c <= 'F'
  }

  predicate AllHexDigits(s: string) {
    forall i :: 0 <= i < |s| ==> IsHexDigit(s[i])
  }

  function DigitValue(c: char): (v: int)
    requires IsHexDigit(c)
    ensures 0 <= v < 16
  {
    if c <= '9' then c as int - '0' as int
    else if c <= 'F' then c as int - 'A' as int + 10
    else c as int - 'a' as int + 10
  }

  /** The value of a string of hex digits, most significant digit first. */
  function HexValue(d: string): (v: int)
    requires AllHexDigits(d)
    ensures v >= 0
    decreases |d|
  {
    if d == [] then 0 else HexValue(d[..|d| - 1]) * 16 + DigitValue(d[|d| - 1])
  }

  /** The whitespace that Python's integer parser skips before and after the digits (ASCII only). */
  predicate IsSpace(c: char) {
    c == ' ' || c == '\t' || c == '\n' || c == '\r' || c == '\U{B}' || c == '\U{C}'
  }

  function TrimSpace(s: string): (t: string)
    ensures |t| <= |s|
    decreases |s|
  {
    if s == [] then s
    else if IsSpace(s[0]) then TrimSpace(s[1..])
    else if IsSpace(s[|s| - 1]) then TrimSpace(s[..|s| - 1])
    else s
  }

  /**
   * Python's `int(p, 16)` for a two-character slice `p`: surrounding
   * whitespace is skipped, one sign is allowed, and at least one hex digit
   * must remain. (A "0x" prefix or an underscore can never be valid in two
   * characters.)
   */
  function IntBase16(p: string): (v: Option<int>)
    requires |p| == 2
  {
    var t := TrimSpace(p);
    if t == [] then None
    else
      var negative := t[0] == '-';
      var digits := if t[0] == '-' || t[0] == '+' then t[1..] else t;
      if digits != [] && AllHexDigits(digits) then
        Some(if negative then 0 - HexValue(digits) else HexValue(digits))
      else None
  }

  /**
   * The channel parse of `hex_to_rgb`: two hex digits are read as a byte
   * directly; anything else goes through the general rules of `IntBase16`,
   * which `ParsePairIsInt` shows give the same answer in every case.
   */
  function ParsePair(p: string): (v: Option<int>)
    requires |p| == 2
  {
    if AllHexDigits(p) then Some(16 * DigitValue(p[0]) + DigitValue(p[1])) else IntBase16(p)
  }

  /** The two-digit reading is `int(p, 16)`: `ParsePair` agrees with `IntBase16` on every two-character slice. */
  lemma ParsePairIsInt(p: string)
    requires |p| == 2
    ensures ParsePair(p) == IntBase16(p)
  {
    if AllHexDigits(p) {
      assert !IsSpace(p[0]) && !IsSpace(p[1]);
      assert TrimSpace(p) == p;
      assert p[..1][..0] == [] && p[..1][0] == p[0];
      assert HexValue(p[..1]) == DigitValue(p[0]);
      assert HexValue(p) == HexValue(p[..1]) * 16 + DigitValue(p[1]);
    }
  }

  /** `hex_to_rgb`: '#RRGGBB' (any number of leading '#') to an (R, G, B) triple. */
  function HexToRgb(s: string): (r: Result<Rgb>)
    ensures r == Err(BadHexLength) <==> |LStripHash(s)| != 6
    ensures r.Err? ==> r.error != BadRotation
  {
    var t := LStripHash(s);
    if |t| != 6 then Err(BadHexLength)
    else
      var red, green, blue := ParsePair(t[0..2]), ParsePair(t[2..4]), ParsePair(t[4..6]);
      if red.Some? && green.Some? && blue.Some? then Ok((red.value, green.value, blue.value))
      else Err(BadHexDigit)
  }

  /** '#' followed by two lower-case hex digits per channel: the form that `HexToRgb` inverts. */
  function HexChar(v: int): (c: char)
    requires 0 <= v < 16
    ensures IsHexDigit(c) && DigitValue(c) == v
  {
    if v < 10 then ('0' as int + v) as char else ('a' as int + v - 10) as char
  }

  function FormatHex(red: int, green: int, blue: int): (s: string)
    requires 0 <= red < 256 && 0 <= green < 256 && 0 <= blue < 256
  {
    ['#', HexChar(red / 16), HexChar(red % 16), HexChar(green / 16), HexChar(green % 16),
     HexChar(blue / 16), HexChar(blue % 16)]
  }

  /** A string of six hex digits (after the '#'s) parses to its three two-digit values, each in [0, 255]. */
  lemma HexToRgbDigits(s: string)
    requires |LStripHash(s)| == 6 && AllHexDigits(LStripHash(s))
    ensures var t := LStripHash(s);
      HexToRgb(s) == Ok((16 * DigitValue(t[0]) + DigitValue(t[1]),
                         16 * DigitValue(t[2]) + DigitValue(t[3]),
                         16 * DigitValue(t[4]) + DigitValue(t[5])))
    ensures var (r, g, b) := HexToRgb(s).value; 0 <= r < 256 && 0 <= g < 256 && 0 <= b < 256
  {
    var t := LStripHash(s);
    assert t[0..2][0] == t[0] && t[0..2][1] == t[1] && AllHexDigits(t[0..2]);
    assert t[2..4][0] == t[2] && t[2..4][1] == t[3] && AllHexDigits(t[2..4]);
    assert t[4..6][0] == t[4] && t[4..6][1] == t[5] && AllHexDigits(t[4..6]);
  }

  /** Every channel `HexToRgb` accepts lies in [-15, 255]: the sign Python's `int` allows is the only way below 0. */
  lemma {:induction false} ParsePairRange(p: string)
    requires |p| == 2 && ParsePair(p).Some?
    ensures -15 <= ParsePair(p).value <= 255
    ensures ParsePair(p).value < 0 ==> TrimSpace(p)[0] == '-'
  {
    if !AllHexDigits(p) {
      var t := TrimSpace(p);
      var digits := if t[0] == '-' || t[0] == '+' then t[1..] else t;
      assert |digits| == 2 ==> digits == t == p;
      assert digits[..0] == [];
      assert HexValue(digits) == DigitValue(digits[0]);
    }
  }

  lemma HexToRgbRange(s: string)
    requires HexToRgb(s).Ok?
    ensures var (r, g, b) := HexToRgb(s).value; -15 <= r <= 255 && -15 <= g <= 255 && -15 <= b <= 255
  {
    var t := LStripHash(s);
    ParsePairRange(t[0..2]);
    ParsePairRange(t[2..4]);
    ParsePairRange(t[4..6]);
  }

  /** A channel written with a sign is accepted: "#-f0000" is (-15, 0, 0), outside [0, 255]. */
  lemma SignedChannelAccepted()
    ensures HexToRgb("#-f0000") == Ok((-15, 0, 0))
  {
    var s := "#-f0000";
    var t := s[1..];
    assert LStripHash(t) == t;
    assert LStripHash(s) == t;
    var p := t[0..2];
    assert p == ['-', 'f'];
    assert TrimSpace(p) == p;
    assert p[1..] == ['f'] && p[1..][..0] == [];
    assert AllHexDigits(p[1..]) && HexValue(p[1..]) == 15;
    assert ParsePair(p) == Some(-15);
    assert AllHexDigits(t[2..4]) && AllHexDigits(t[4..6]);
  }

  /** Whitespace inside a pair is skipped: "# f0A0b" is (15, 10, 11). */
  lemma SpacedChannelAccepted()
    ensures HexToRgb("# f0A0b") == Ok((15, 10, 11))
  {
    var s := "# f0A0b";
    var t := s[1..];
    assert LStripHash(t) == t;
    assert LStripHash(s) == t;
    var p := t[0..2];
    assert p == [' ', 'f'];
    assert p[1..] == ['f'];
    assert TrimSpace(p[1..]) == p[1..];
    assert TrimSpace(p) == ['f'];
    assert ['f'][..0] == [];
    assert ParsePair(p) == Some(15);
    assert AllHexDigits(t[2..4]) && AllHexDigits(t[4..6]);
  }

  /** Parsing inverts formatting: every triple of bytes survives `FormatHex` then `HexToRgb`. */
  lemma FormatHexRoundTrip(red: int, green: int, blue: int)
    requires 0 <= red < 256 && 0 <= green < 256 && 0 <= blue < 256
    ensures HexToRgb(FormatHex(red, green, blue)) == Ok((red, green, blue))
  {
    var s := FormatHex(red, green, blue);
    assert LStripHash(s[1..]) == s[1..];
    HexToRgbDigits(s);
  }

  // ---------------------------------------------------------------------------
  // RGB565
  // ---------------------------------------------------------------------------

  /** `max(0, min(255, x))`. */
  function Clamp(x: int): (c: int)
    ensures 0 <= c <= 255
    ensures 0 <= x <= 255 ==> c == x
  {
    if x < 0 then 0 else if x > 255 then 255 else x
  }

  /** The three fields of a 16-bit word read as RGB565: bits 15..11, 10..5 and 4..0. */
  function Red5(w: int): int { w / 2048 }
  function Green6(w: int): int { w / 32 % 64 }
  function Blue5(w: int): int { w % 32 }

  /**
   * `_rgb_to_565` on a triple: `((r & 0xF8) << 8) | ((g & 0xFC) << 3) | (b >> 3)`
   * after clamping. On a byte, `& 0xF8` clears the three low bits and `& 0xFC`
   * the two low bits; `<< k` multiplies by 2^k; the shifted fields occupy
   * disjoint bits, so `|` adds them.
   */
  function Pack565(r: int, g: int, b: int): (w: int)
    ensures 0 <= w < 0x10000
    ensures Red5(w) == Clamp(r) / 8 && Green6(w) == Clamp(g) / 4 && Blue5(w) == Clamp(b) / 8
  {
    var rc, gc, bc := Clamp(r), Clamp(g), Clamp(b);
    var w := (rc - rc % 8) * 256 + (gc - gc % 4) * 8 + bc / 8;
    var red, green, blue := rc / 8, gc / 4, bc / 8;
    assert 0 <= red < 32 && 0 <= green < 64 && 0 <= blue < 32;
    assert rc - rc % 8 == 8 * red && gc - gc % 4 == 4 * green;
    assert w == 2048 * red + 32 * green + blue;
    FieldsOf(w, red, green, blue);
    w
  }

  /** The fields of `2048 * red + 32 * green + blue` are `red`, `green` and `blue`. */
  lemma FieldsOf(w: int, red: int, green: int, blue: int)
    requires 0 <= red < 32 && 0 <= green < 64 && 0 <= blue < 32
    requires w == 2048 * red + 32 * green + blue
    ensures 0 <= w < 0x10000
    ensures Red5(w) == red && Green6(w) == green && Blue5(w) == blue
  {
    assert w / 32 == 64 * red + green;
  }

  /** A word is determined by its three fields. */
  lemma FieldsDetermineWord(w: int, v: int)
    requires 0 <= w < 0x10000 && 0 <= v < 0x10000
    requires Red5(w) == Red5(v) && Green6(w) == Green6(v) && Blue5(w) == Blue5(v)
    ensures w == v
  {
    Decompose(w);
    Decompose(v);
  }

  /** A non-negative word is its fields put back in place. */
  lemma Decompose(w: int)
    requires 0 <= w
    ensures w == 2048 * Red5(w) + 32 * Green6(w) + Blue5(w)
  {
    var q := w / 32;
    assert w == 32 * q + w % 32;
    assert q == 64 * (q / 64) + q % 64;
    assert w == 2048 * (q / 64) + (32 * (q % 64) + w % 32);
    assert w / 2048 == q / 64;
  }

  /** Two colours give the same word exactly when they agree on the bits the word keeps. */
  lemma Pack565SameWord(r: int, g: int, b: int, r': int, g': int, b': int)
    ensures Pack565(r, g, b) == Pack565(r', g', b') <==>
      Clamp(r) / 8 == Clamp(r') / 8 && Clamp(g) / 4 == Clamp(g') / 4 && Clamp(b) / 8 == Clamp(b') / 8
  {
    if Clamp(r) / 8 == Clamp(r') / 8 && Clamp(g) / 4 == Clamp(g') / 4 && Clamp(b) / 8 == Clamp(b') / 8 {
      FieldsDetermineWord(Pack565(r, g, b), Pack565(r', g', b'));
    }
  }

  /** The primaries and black and white. */
  lemma Pack565Corners()
    ensures Pack565(0, 0, 0) == 0x0000
    ensures Pack565(255, 255, 255) == 0xFFFF
    ensures Pack565(255, 0, 0) == 0xF800
    ensures Pack565(0, 255, 0) == 0x07E0
    ensures Pack565(0, 0, 255) == 0x001F
  {
  }

  lemma ClampMonotone(x: int, y: int)
    requires x <= y
    ensures Clamp(x) <= Clamp(y)
  {
  }

  /**
   * Raising one channel, the others fixed, never lowers that channel's field
   * and leaves the other two fields as they were.
   */
  lemma Pack565Monotone(r: int, g: int, b: int, d: nat)
    ensures Red5(Pack565(r, g, b)) <= Red5(Pack565(r + d, g, b))
    ensures Green6(Pack565(r, g, b)) <= Green6(Pack565(r, g + d, b))
    ensures Blue5(Pack565(r, g, b)) <= Blue5(Pack565(r, g, b + d))
    ensures Green6(Pack565(r + d, g, b)) == Green6(Pack565(r, g, b)) == Green6(Pack565(r, g, b + d))
    ensures Red5(Pack565(r, g + d, b)) == Red5(Pack565(r, g, b)) == Red5(Pack565(r, g, b + d))
    ensures Blue5(Pack565(r + d, g, b)) == Blue5(Pack565(r, g, b)) == Blue5(Pack565(r, g + d, b))
  {
    ClampMonotone(r, r + d);
    ClampMonotone(g, g + d);
    ClampMonotone(b, b + d);
  }

  /** The colour argument of `_rgb_to_565`: a tuple or a '#RRGGBB' string. */
  datatype Color = Triple(rgb: Rgb) | Hex(text: string)

  /** `_rgb_to_565`: fails only on a string `hex_to_rgb` rejects. */
  function Rgb565(c: Color): (r: Result<int>)
    ensures r.Ok? <==> c.Triple? || HexToRgb(c.text).Ok?
    ensures r.Ok? ==> 0 <= r.value < 0x10000
    ensures r.Err? ==> r.error == HexToRgb(c.text).error
    ensures c.Triple? ==> r.value == Pack565(c.rgb.0, c.rgb.1, c.rgb.2)
    ensures c.Hex? && r.Ok? ==> var t := HexToRgb(c.text).value; r.value == Pack565(t.0, t.1, t.2)
  {
    match c
    case Triple(rgb) => Ok(Pack565(rgb.0, rgb.1, rgb.2))
    case Hex(text) =>
      match HexToRgb(text)
      case Ok(rgb) => Ok(Pack565(rgb.0, rgb.1, rgb.2))
      case Err(e) => Err(e)
  }

  // ---------------------------------------------------------------------------
  // Pixel stream
  // ---------------------------------------------------------------------------

  /** `w.to_bytes(2, "big")`. */
  function BigEndian16(w: int): (b: seq<int>)
    requires 0 <= w < 0x10000
    ensures |b| == 2 && 0 <= b[0] < 256 && 0 <= b[1] < 256
    ensures b[0] * 256 + b[1] == w
  {
    [w / 256, w % 256]
  }

  function PixelWord(p: Rgb): (w: int)
    ensures 0 <= w < 0x10000
  {
    Pack565(p.0, p.1, p.2)
  }

  /** The bytes `_image_to_data` produces for a row-major pixel sequence. */
  function PixelStream(pixels: seq<Rgb>): seq<int>
    decreases |pixels|
  {
    if pixels == [] then []
    else PixelStream(pixels[..|pixels| - 1]) + BigEndian16(PixelWord(pixels[|pixels| - 1]))
  }

  /** Two bytes per pixel, in input order, high byte first. */
  lemma {:induction false} PixelStreamAt(pixels: seq<Rgb>)
    ensures |PixelStream(pixels)| == 2 * |pixels|
    ensures forall i :: 0 <= i < |pixels| ==>
      PixelStream(pixels)[2 * i] == PixelWord(pixels[i]) / 256 &&
      PixelStream(pixels)[2 * i + 1] == PixelWord(pixels[i]) % 256
    decreases |pixels|
  {
    if pixels != [] {
      var init := pixels[..|pixels| - 1];
      PixelStreamAt(init);
      var front, w := PixelStream(init), PixelWord(pixels[|pixels| - 1]);
      assert PixelStream(pixels) == front + [w / 256, w % 256];
      forall i | 0 <= i < |pixels| - 1
        ensures PixelStream(pixels)[2 * i] == PixelWord(pixels[i]) / 256
        ensures PixelStream(pixels)[2 * i + 1] == PixelWord(pixels[i]) % 256
      {
        assert pixels[i] == init[i];
      }
    }
  }

  /** Reads a byte stream back as big-endian 16-bit words. */
  function Words(bytes: seq<int>): (ws: seq<int>)
    ensures |ws| == |bytes| / 2
  {
    seq(|bytes| / 2, i requires 0 <= i < |bytes| / 2 => bytes[2 * i] * 256 + bytes[2 * i + 1])
  }

  lemma WordsAt(bytes: seq<int>, i: int)
    requires 0 <= i < |bytes| / 2
    ensures Words(bytes)[i] == bytes[2 * i] * 256 + bytes[2 * i + 1]
  {
  }

  /** The stream read back as words is the pixels' RGB565 words. */
  lemma PixelStreamWords(pixels: seq<Rgb>)
    ensures Words(PixelStream(pixels)) == seq(|pixels|, i requires 0 <= i < |pixels| => PixelWord(pixels[i]))
  {
    var bytes := PixelStream(pixels);
    PixelStreamAt(pixels);
    var ws := Words(bytes);
    var expected := seq(|pixels|, i requires 0 <= i < |pixels| => PixelWord(pixels[i]));
    forall i | 0 <= i < |pixels|
      ensures ws[i] == expected[i]
    {
      var w := PixelWord(pixels[i]);
      assert bytes[2 * i] == w / 256 && bytes[2 * i + 1] == w % 256;
      WordsAt(bytes, i);
    }
    assert ws == expected;
  }

  /** `_image_to_data`: one big-endian word per pixel, appended in a loop. */
  method ImageToData(pixels: seq<Rgb>) returns (buf: seq<int>)
    ensures buf == PixelStream(pixels)
  {
    buf := [];
    for i := 0 to |pixels|
      invariant buf == PixelStream(pixels[..i])
    {
      var color565 := Pack565(pixels[i].0, pixels[i].1, pixels[i].2);
      buf := buf + BigEndian16(color565);
      assert pixels[..i + 1][..i] == pixels[..i];
    }
    assert pixels[..|pixels|] == pixels;
  }
}
