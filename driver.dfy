/**
 * The ST7735S panel driver: rotation geometry, window addressing, the power-on
 * command sequence, solid fills and full-frame blits, over the trace-based bus
 * of module Bus.
 */
module Driver {
  import opened Errors
  import opened Codec
  import opened Bus

  // Command bytes of the controller.
  const SWRESET := 0x01
  const SLPOUT := 0x11
  const NORON := 0x20
  const INVON := 0x21
  const DISPON := 0x29
  const CASET := 0x2A
  const RASET := 0x2B
  const RAMWR := 0x2C
  const MADCTL := 0x36
  const COLMOD := 0x3A
  const FRMCTR1 := 0xB1
  const FRMCTR2 := 0xB2
  const FRMCTR3 := 0xB3
  const INVCTR := 0xB4
  const PWCTR1 := 0xC0
  const PWCTR2 := 0xC1
  const PWCTR3 := 0xC2
  const PWCTR4 := 0xC3
  const PWCTR5 := 0xC4
  const VMCTR1 := 0xC5

  // MADCTL bits: row/column exchange, column address order, row address order.
  const MADCTL_RGB := 0x00
  const MADCTL_MV := 0x20
  const MADCTL_MX := 0x40
  const MADCTL_MY := 0x80

  /** COLMOD parameter for 16 bits per pixel. */
  const COLMOD_16BIT := 0x05

  /** The panel's native size at rotation 0. */
  const NativeWidth := 80
  const NativeHeight := 160

  /** `_MAX_SPI_CHUNK // 2`: the pixels `fill` sends per transfer. */
  const PixelsPerChunk: nat := MaxChunk / 2

  // ---------------------------------------------------------------------------
  // Geometry
  // ---------------------------------------------------------------------------

  /** What a rotation sets: the MADCTL byte, the active size and the active offsets. */
  datatype Geometry = Geometry(madctl: int, width: int, height: int, xOffset: int, yOffset: int)

  predicate HasBit(m: int, bit: int)
    requires bit > 0
  {
    m / bit % 2 == 1
  }

  predicate IsRotation(r: int) {
    r == 0 || r == 90 || r == 180 || r == 270
  }

  /**
   * The rotation table of `set_rotation` for a rotation already reduced
   * modulo 360, with hardware offsets (hwX, hwY). The MADCTL bits are
   * disjoint, so `|=` adds them.
   */
  function Row(r: int, hwX: int, hwY: int): Geometry
    requires IsRotation(r)
  {
    if r == 0 then Geometry(MADCTL_RGB + MADCTL_MX + MADCTL_MY, NativeWidth, NativeHeight, hwX, hwY)
    else if r == 90 then Geometry(MADCTL_RGB + MADCTL_MY + MADCTL_MV, NativeHeight, NativeWidth, hwY, hwX)
    else if r == 180 then Geometry(MADCTL_RGB, NativeWidth, NativeHeight, hwX, hwY)
    else Geometry(MADCTL_RGB + MADCTL_MX + MADCTL_MV, NativeHeight, NativeWidth, hwY, hwX)
  }

  /** What `set_rotation` does with any rotation: reduce it modulo 360, then look it up or reject it. */
  function Orient(rotation: int, hwX: int, hwY: int): (g: Option<Geometry>)
    ensures g.Some? <==> IsRotation(rotation % 360)
    ensures g.Some? ==>
      var swapped := rotation % 360 == 90 || rotation % 360 == 270;
      && (if swapped then (g.value.width, g.value.height) == (NativeHeight, NativeWidth)
          else (g.value.width, g.value.height) == (NativeWidth, NativeHeight))
      && (if swapped then (g.value.xOffset, g.value.yOffset) == (hwY, hwX)
          else (g.value.xOffset, g.value.yOffset) == (hwX, hwY))
    ensures g.Some? ==> 0 <= g.value.madctl < 256
  {
    var r := rotation % 360;
    if IsRotation(r) then Some(Row(r, hwX, hwY)) else None
  }

  /** Only the rotation modulo 360 matters. */
  lemma OrientReduced(rotation: int, hwX: int, hwY: int)
    ensures Orient(rotation % 360, hwX, hwY) == Orient(rotation, hwX, hwY)
  {
    var r := rotation % 360;
    assert 0 <= r < 360;
    assert r % 360 == r;
  }

  /** The four rows of the table. */
  lemma OrientTable(hwX: int, hwY: int)
    ensures Orient(0, hwX, hwY) == Some(Geometry(0xC0, 80, 160, hwX, hwY))
    ensures Orient(90, hwX, hwY) == Some(Geometry(0xA0, 160, 80, hwY, hwX))
    ensures Orient(180, hwX, hwY) == Some(Geometry(0x00, 80, 160, hwX, hwY))
    ensures Orient(270, hwX, hwY) == Some(Geometry(0x60, 160, 80, hwY, hwX))
  {
  }

  /**
   * The MADCTL byte agrees with the geometry: MV (row/column exchange) is set
   * exactly when width and height are exchanged; MX is set for 0 and 270, MY
   * for 0 and 90; no other bit is ever set.
   */
  lemma OrientBits(rotation: int, hwX: int, hwY: int)
    requires Orient(rotation, hwX, hwY).Some?
    ensures var g := Orient(rotation, hwX, hwY).value;
      && (HasBit(g.madctl, MADCTL_MV) <==> g.width == NativeHeight)
      && (HasBit(g.madctl, MADCTL_MX) <==> (rotation % 360 == 0 || rotation % 360 == 270))
      && (HasBit(g.madctl, MADCTL_MY) <==> (rotation % 360 == 0 || rotation % 360 == 90))
      && g.madctl == (if HasBit(g.madctl, MADCTL_MY) then MADCTL_MY else 0) +
                     (if HasBit(g.madctl, MADCTL_MX) then MADCTL_MX else 0) +
                     (if HasBit(g.madctl, MADCTL_MV) then MADCTL_MV else 0)
  {
  }

  /** Every rotation shows the whole panel: the active area is always 80 x 160 pixels. */
  lemma OrientArea(rotation: int, hwX: int, hwY: int)
    requires Orient(rotation, hwX, hwY).Some?
    ensures var g := Orient(rotation, hwX, hwY).value; g.width * g.height == NativeWidth * NativeHeight
  {
  }

  /** A quarter turn exchanges the active width and height, and the active offsets. */
  lemma QuarterTurn(rotation: int, hwX: int, hwY: int)
    requires Orient(rotation, hwX, hwY).Some?
    ensures Orient(rotation + 90, hwX, hwY).Some?
    ensures var g, h := Orient(rotation, hwX, hwY).value, Orient(rotation + 90, hwX, hwY).value;
      h.width == g.height && h.height == g.width && h.xOffset == g.yOffset && h.yOffset == g.xOffset
  {
    var r := rotation % 360;
    assert (rotation + 90) % 360 == (r + 90) % 360;
  }

  // ---------------------------------------------------------------------------
  // Command tables
  // ---------------------------------------------------------------------------

  /** `[x0 >> 8, x0 & 0xFF, x1 >> 8, x1 & 0xFF]`; Python's `>>` floors, as Dafny's `/` by 256 does. */
  function Coords(a: int, b: int): seq<int> {
    [a / 256, a % 256, b / 256, b % 256]
  }

  /** The controller reads each coordinate back as a big-endian pair; within 16 bits every byte is a byte. */
  lemma CoordsDecode(a: int, b: int)
    ensures var c := Coords(a, b); |c| == 4 && c[0] * 256 + c[1] == a && c[2] * 256 + c[3] == b
    ensures 0 <= a < 0x10000 && 0 <= b < 0x10000 ==> forall i :: 0 <= i < 4 ==> 0 <= Coords(a, b)[i] < 256
  {
  }

  /**
   * A window set for controller coordinates (x0, y0)-(x1, y1): column range,
   * row range, then memory write carrying `pixels` as its data.
   */
  function WindowFrames(x0: int, y0: int, x1: int, y1: int, pixels: seq<int>): seq<Frame> {
    [Frame(CASET, Coords(x0, x1)), Frame(RASET, Coords(y0, y1)), Frame(RAMWR, pixels)]
  }

  /** A `width` x `height` window whose top-left corner is (x, y) in controller memory. */
  function Rect(x: int, y: int, width: int, height: int, pixels: seq<int>): seq<Frame> {
    WindowFrames(x, y, x + width - 1, y + height - 1, pixels)
  }

  /** The full active rectangle of a geometry, with `pixels` after the memory write. */
  function FullWindow(g: Geometry, pixels: seq<int>): seq<Frame> {
    Rect(g.xOffset, g.yOffset, g.width, g.height, pixels)
  }

  /** What `set_rotation` sends once the table has been consulted. */
  function RotationFrames(g: Geometry): seq<Frame> {
    [Frame(MADCTL, [g.madctl])] + FullWindow(g, [])
  }

  /** The power-on sequence of `_init_display`, in order, with its parameter bytes. */
  function InitFrames(invert: bool): seq<Frame> {
    [Frame(SWRESET, [])]
    + [Frame(SLPOUT, [])]
    + [Frame(FRMCTR1, [0x01, 0x2C, 0x2D])]
    + [Frame(FRMCTR2, [0x01, 0x2C, 0x2D])]
    + [Frame(FRMCTR3, [0x01, 0x2C, 0x2D, 0x01, 0x2C, 0x2D])]
    + [Frame(INVCTR, [0x07])]
    + [Frame(PWCTR1, [0xA2, 0x02, 0x84])]
    + [Frame(PWCTR2, [0xC5])]
    + [Frame(PWCTR3, [0x0A, 0x00])]
    + [Frame(PWCTR4, [0x8A, 0x2A])]
    + [Frame(PWCTR5, [0x8A, 0xEE])]
    + [Frame(VMCTR1, [0x0E])]
    + [Frame(COLMOD, [COLMOD_16BIT])]
    + [Frame(if invert then INVON else NORON, [])]
    + [Frame(DISPON, [])]
  }

  /** The command order of the power-on sequence; only the display-mode command depends on `invert`. */
  lemma InitOrder(invert: bool)
    ensures var t := InitFrames(invert);
      seq(|t|, i requires 0 <= i < |t| => t[i].command) ==
        [0x01, 0x11, 0xB1, 0xB2, 0xB3, 0xB4, 0xC0, 0xC1, 0xC2, 0xC3, 0xC4, 0xC5, 0x3A,
         if invert then 0x21 else 0x20, 0x29]
  {
  }

  /** Turning `invert` on or off changes the display-mode command and nothing else; COLMOD selects 16 bits per pixel. */
  lemma InitInvert(invert: bool)
    ensures |InitFrames(invert)| == |InitFrames(!invert)|
    ensures forall i :: 0 <= i < |InitFrames(invert)| && i != 13 ==> InitFrames(invert)[i] == InitFrames(!invert)[i]
    ensures InitFrames(invert)[12] == Frame(0x3A, [0x05])
  {
  }

  /** One more command sent after `sent` extends the trace by that command's step. */
  lemma EmitSnoc(before: seq<Event>, sent: seq<Frame>, f: Frame, after: seq<Event>)
    requires after == before + Emit(sent) + Step(f)
    ensures after == before + Emit(sent + [f])
  {
    assert (sent + [f])[..|sent|] == sent;
  }

  /** Every command of the power-on sequence is a byte. */
  lemma InitBytes(invert: bool)
    ensures ByteCommands(InitFrames(invert))
  {
  }

  /** CASET, RASET and RAMWR are bytes. */
  lemma RectBytes(x: int, y: int, w: int, h: int, data: seq<int>)
    ensures ByteCommands(Rect(x, y, w, h, data)) && Rect(x, y, w, h, data) != []
  {
  }

  /** The window and rotation commands are bytes. */
  lemma WindowBytes(g: Geometry, data: seq<int>)
    requires 0 <= g.madctl < 256
    ensures ByteCommands(FullWindow(g, data)) && ByteCommands(FullWindow(g, []))
    ensures ByteCommands(RotationFrames(g))
  {
  }

  /** The controller reads the power-on sequence back command for command. */
  lemma InitTrace(before: seq<Event>, after: seq<Event>, invert: bool)
    requires after == before + Emit(InitFrames(invert))
    ensures Frames(Wire(after)) == Frames(Wire(before)) + InitFrames(invert)
  {
    InitBytes(invert);
    AppendedFrames(before, InitFrames(invert));
  }

  lemma EmitThree(a: Frame, b: Frame, c: Frame)
    ensures Emit([a, b, c]) == Step(a) + Step(b) + Step(c)
  {
    assert [a, b, c][..2] == [a, b] && [a, b][..1] == [a] && [a][..0] == [];
    assert Emit([a]) == Step(a);
    assert Emit([a, b]) == Step(a) + Step(b);
  }

  lemma EmitOne(a: Frame)
    ensures Emit([a]) == Step(a)
  {
    assert [a][..0] == [];
  }

  // ---------------------------------------------------------------------------
  // Solid fills
  // ---------------------------------------------------------------------------

  /** `pair * n`. */
  function Repeat(pair: seq<int>, n: nat): (r: seq<int>)
    ensures |r| == |pair| * n
  {
    if n == 0 then [] else pair + Repeat(pair, n - 1)
  }

  lemma {:induction false} RepeatAdd(pair: seq<int>, a: nat, b: nat)
    ensures Repeat(pair, a + b) == Repeat(pair, a) + Repeat(pair, b)
    decreases a
  {
    if a > 0 {
      calc {
        Repeat(pair, a + b);
        pair + Repeat(pair, (a - 1) + b);
        { RepeatAdd(pair, a - 1, b); }
        pair + (Repeat(pair, a - 1) + Repeat(pair, b));
        (pair + Repeat(pair, a - 1)) + Repeat(pair, b);
        Repeat(pair, a) + Repeat(pair, b);
      }
    }
  }

  /** Byte 2k of `[hi, lo] * n` is `hi` and byte 2k + 1 is `lo`. */
  lemma {:induction false} RepeatAt(hi: int, lo: int, n: nat)
    ensures forall k :: 0 <= k < n ==> Repeat([hi, lo], n)[2 * k] == hi && Repeat([hi, lo], n)[2 * k + 1] == lo
    decreases n
  {
    if n > 0 {
      RepeatAt(hi, lo, n - 1);
      forall k | 0 < k < n
        ensures Repeat([hi, lo], n)[2 * k] == hi && Repeat([hi, lo], n)[2 * k + 1] == lo
      {
        assert Repeat([hi, lo], n)[2 * k] == Repeat([hi, lo], n - 1)[2 * (k - 1)];
        assert Repeat([hi, lo], n)[2 * k + 1] == Repeat([hi, lo], n - 1)[2 * (k - 1) + 1];
      }
    }
  }

  /**
   * The transfers `fill` makes for `n` pixels: `[hi, lo]` repeated at most 2048
   * times each; none at all when `n` is not positive, as `range` yields nothing.
   */
  function FillTransfers(hi: int, lo: int, n: int): seq<Event>
    decreases n
  {
    if n <= 0 then []
    else if n <= PixelsPerChunk then [Xfer(High, Repeat([hi, lo], n))]
    else [Xfer(High, Repeat([hi, lo], PixelsPerChunk))] + FillTransfers(hi, lo, n - PixelsPerChunk)
  }

  /** `fill`'s own loop sends exactly what `_write_data` would for the whole repeated payload. */
  lemma {:induction false} FillIsWriteData(hi: int, lo: int, n: nat)
    ensures FillTransfers(hi, lo, n) == Transfers(Repeat([hi, lo], n))
    decreases n
  {
    if n > PixelsPerChunk {
      var m := n - PixelsPerChunk;
      RepeatAdd([hi, lo], PixelsPerChunk, m);
      var whole := Repeat([hi, lo], n);
      assert whole[..MaxChunk] == Repeat([hi, lo], PixelsPerChunk);
      assert whole[MaxChunk..] == Repeat([hi, lo], m);
      FillIsWriteData(hi, lo, m);
    }
  }

  /**
   * A fill of `n` pixels takes ceil(n / 2048) transfers with DC high, none over
   * 4096 bytes, and `2 * n` bytes in all, alternating `hi` and `lo`.
   */
  lemma FillShape(hi: int, lo: int, n: nat)
    ensures |FillTransfers(hi, lo, n)| == (n + PixelsPerChunk - 1) / PixelsPerChunk
    ensures forall i :: 0 <= i < |FillTransfers(hi, lo, n)| ==>
      FillTransfers(hi, lo, n)[i].dc == High && |FillTransfers(hi, lo, n)[i].bytes| <= MaxChunk
    ensures |Payload(FillTransfers(hi, lo, n))| == 2 * n
    ensures forall k :: 0 <= k < n ==>
      Payload(FillTransfers(hi, lo, n))[2 * k] == hi && Payload(FillTransfers(hi, lo, n))[2 * k + 1] == lo
  {
    var data := Repeat([hi, lo], n);
    var ts := FillTransfers(hi, lo, n);
    FillIsWriteData(hi, lo, n);
    assert ts == Transfers(data);
    assert |data| == 2 * n;
    TransfersShape(data);
    assert |ts| == (2 * n + MaxChunk - 1) / MaxChunk;
    ChunkCount(n);
    TransfersPayload(data);
    assert Payload(ts) == data;
    RepeatAt(hi, lo, n);
  }

  /** 4096-byte chunks of `2 * n` bytes are as many as 2048-pixel chunks of `n` pixels. */
  lemma ChunkCount(n: nat)
    ensures (2 * n + MaxChunk - 1) / MaxChunk == (n + PixelsPerChunk - 1) / PixelsPerChunk
  {
    assert PixelsPerChunk == 2048 && MaxChunk == 4096;
    var q, r := (n + 2047) / 2048, (n + 2047) % 2048;
    assert 2 * n + 4095 == q * 4096 + (2 * r + 1);
    assert (2 * n + 4095) / 4096 == q;
  }

  /** The fill colour: a tuple or string for `_rgb_to_565`, or a 565 word used as it is. */
  datatype FillColor = Spec(color: Color) | Word(value: int)

  /**
   * The word `fill` sends. Only a colour string can be rejected; a converted
   * colour is a 16-bit word whose two masks are exactly its big-endian bytes,
   * the bytes `_image_to_data` sends for the same colour.
   */
  function FillWord(c: FillColor): (r: Result<int>)
    ensures c.Word? ==> r == Ok(c.value)
    ensures c.Spec? ==> r == Rgb565(c.color)
    ensures r.Err? ==> c.Spec? && c.color.Hex? && HexToRgb(c.color.text).Err?
    ensures c.Spec? && r.Ok? ==>
      0 <= r.value < 0x10000 && [HighByte(r.value), LowByte(r.value)] == BigEndian16(r.value)
  {
    match c
    case Spec(color) =>
      var r := Rgb565(color);
      if r.Ok? then WordBytes(r.value); r else r
    case Word(value) => Ok(value)
  }

  /** Black, the colour `__init__` fills with, is the all-zero word. */
  lemma BlackFill()
    ensures FillWord(Spec(Triple((0, 0, 0)))) == Ok(0)
    ensures HighByte(0) == 0 && LowByte(0) == 0
  {
    Pack565Corners();
  }

  /** `(color >> 8) & 0xFF` and `color & 0xFF`, for any integer. */
  function HighByte(w: int): int { w / 256 % 256 }
  function LowByte(w: int): int { w % 256 }

  /** A PIL image: its declared size and its pixels in row-major order. */
  datatype Image = Image(width: int, height: int, pixels: seq<Rgb>)

  /** A PIL image always holds exactly one pixel per position of its size. */
  predicate WellFormed(i: Image) {
    0 <= i.width && 0 <= i.height && |i.pixels| == i.width * i.height
  }

  function Solid(p: Rgb, n: nat): (s: seq<Rgb>)
    ensures |s| == n && forall i :: 0 <= i < n ==> s[i] == p
  {
    seq(n, _ => p)
  }

  /** A well-formed `w` x `h` image converts to exactly `2 * w * h` bytes. */
  lemma FrameBytes(frame: Image, w: int, h: int)
    requires WellFormed(frame) && frame.width == w && frame.height == h
    ensures |PixelStream(frame.pixels)| == 2 * w * h
  {
    PixelStreamAt(frame.pixels);
  }

  /** A solid image converts to the colour's two bytes repeated once per pixel. */
  lemma {:induction false} SolidStream(p: Rgb, n: nat)
    ensures PixelStream(Solid(p, n)) == Repeat(BigEndian16(PixelWord(p)), n)
    decreases n
  {
    if n > 0 {
      assert Solid(p, n)[..n - 1] == Solid(p, n - 1);
      SolidStream(p, n - 1);
      RepeatAdd(BigEndian16(PixelWord(p)), n - 1, 1);
      assert Repeat(BigEndian16(PixelWord(p)), 1) == BigEndian16(PixelWord(p));
    }
  }

  /**
   * Blitting a solid image sends, transfer for transfer, what filling the panel
   * with that colour sends.
   */
  lemma DisplaySolidIsFill(p: Rgb, n: nat)
    ensures var w := PixelWord(p);
      Transfers(PixelStream(Solid(p, n))) == FillTransfers(HighByte(w), LowByte(w), n)
  {
    var w := PixelWord(p);
    SolidStream(p, n);
    WordBytes(w);
    FillIsWriteData(HighByte(w), LowByte(w), n);
  }

  /** For a 16-bit word, the two masks pick out its big-endian bytes. */
  lemma WordBytes(w: int)
    requires 0 <= w < 0x10000
    ensures BigEndian16(w) == [HighByte(w), LowByte(w)]
  {
    var q := w / 256;
    assert q < 256;
    assert q % 256 == q;
  }

  /** Rotation 270 on a board with hardware offset (24, 0), then a 160x80 all-red frame. */
  lemma RedFrameAt270()
    ensures Orient(270, 24, 0) == Some(Geometry(0x60, 160, 80, 0, 24))
    ensures Words(PixelStream(Solid((255, 0, 0), 160 * 80))) == seq(12800, _ => 0xF800)
  {
    PixelStreamWords(Solid((255, 0, 0), 160 * 80));
  }

  /** The two halves of `set_rotation`'s traffic make up `RotationFrames`. */
  lemma RotationSent(before: seq<Event>, primed: seq<Event>, after: seq<Event>, g: Geometry)
    requires primed == before + Step(Frame(MADCTL, [g.madctl]))
    requires after == primed + Emit(WindowFrames(0 + g.xOffset, 0 + g.yOffset, g.width - 1 + g.xOffset, g.height - 1 + g.yOffset, []))
    ensures after == before + Emit(RotationFrames(g))
  {
    assert WindowFrames(0 + g.xOffset, 0 + g.yOffset, g.width - 1 + g.xOffset, g.height - 1 + g.yOffset, []) == FullWindow(g, []);
    EmitOne(Frame(MADCTL, [g.madctl]));
    EmitAppend([Frame(MADCTL, [g.madctl])], FullWindow(g, []));
  }

  /** The controller reads `set_rotation`'s traffic back as MADCTL and the full-frame window. */
  lemma RotationTrace(before: seq<Event>, after: seq<Event>, g: Geometry)
    requires after == before + Emit(RotationFrames(g))
    requires 0 <= g.madctl < 256
    ensures Frames(Wire(after)) == Frames(Wire(before)) + RotationFrames(g)
  {
    WindowBytes(g, []);
    AppendedFrames(before, RotationFrames(g));
  }

  /** `_set_window(0, 0, width - 1, height - 1)` with offsets added selects the whole rectangle. */
  lemma WindowRect(x: int, y: int, w: int, h: int)
    ensures WindowFrames(0 + x, 0 + y, w - 1 + x, h - 1 + y, []) == Rect(x, y, w, h, [])
  {
  }

  /** A memory-write payload sent after a full-frame window becomes RAMWR's data. */
  lemma WindowData(x: int, y: int, w: int, h: int, data: seq<int>)
    ensures Emit(Rect(x, y, w, h, data)) == Emit(Rect(x, y, w, h, [])) + Transfers(data)
  {
    var empty, full := Rect(x, y, w, h, []), Rect(x, y, w, h, data);
    assert full[..2] == empty[..2] && full == full[..2] + [full[2]] && empty == empty[..2] + [empty[2]];
    assert Emit(full) == Emit(full[..2]) + Step(full[2]);
    assert Emit(empty) == Emit(empty[..2]) + Step(empty[2]);
    assert Step(full[2]) == Step(empty[2]) + Transfers(data);
  }

  /** `fill`'s chunks after a full-frame window make RAMWR's data the repeated pixel. */
  lemma FillWindow(x: int, y: int, w: int, h: int, hi: int, lo: int, n: nat)
    ensures Emit(Rect(x, y, w, h, [])) + FillTransfers(hi, lo, n) == Emit(Rect(x, y, w, h, Repeat([hi, lo], n)))
  {
    FillIsWriteData(hi, lo, n);
    WindowData(x, y, w, h, Repeat([hi, lo], n));
  }

  /** Regrouping a trace extended three times. */
  lemma Regroup<T>(s: seq<T>, a: seq<T>, b: seq<T>, c: seq<T>)
    ensures s + a + b + c == s + (a + b + c)
  {
  }

  /**
   * A full-frame window followed by a memory-write payload sent through
   * `_write_data` is the window's three commands with the payload as RAMWR's data.
   */
  lemma WindowTrace(before: seq<Event>, primed: seq<Event>, after: seq<Event>, x: int, y: int, w: int, h: int, data: seq<int>)
    requires primed == before + Emit(WindowFrames(0 + x, 0 + y, w - 1 + x, h - 1 + y, []))
    requires after == primed + Transfers(data)
    ensures after == before + Emit(Rect(x, y, w, h, data))
    ensures Frames(Wire(after)) == Frames(Wire(before)) + Rect(x, y, w, h, data)
  {
    WindowEmit(before, primed, after, x, y, w, h, data);
    RectBytes(x, y, w, h, data);
    AppendedFrames(before, Rect(x, y, w, h, data));
  }

  /** The first half of `WindowTrace`. */
  lemma WindowEmit(before: seq<Event>, primed: seq<Event>, after: seq<Event>, x: int, y: int, w: int, h: int, data: seq<int>)
    requires primed == before + Emit(WindowFrames(0 + x, 0 + y, w - 1 + x, h - 1 + y, []))
    requires after == primed + Transfers(data)
    ensures after == before + Emit(Rect(x, y, w, h, data))
  {
    WindowRect(x, y, w, h);
    WindowData(x, y, w, h, data);
    Regroup(before, Emit(Rect(x, y, w, h, [])), Transfers(data), []);
  }

  /** `fill`'s window and chunks, as the window of the active rectangle and the chunks. */
  lemma FillSent(before: seq<Event>, primed: seq<Event>, after: seq<Event>, x: int, y: int, w: int, h: int, hi: int, lo: int, n: int)
    requires primed == before + Emit(WindowFrames(0 + x, 0 + y, w - 1 + x, h - 1 + y, []))
    requires after == primed + FillTransfers(hi, lo, n)
    ensures after == before + Emit(Rect(x, y, w, h, [])) + FillTransfers(hi, lo, n)
  {
    WindowRect(x, y, w, h);
  }

  /**
   * `fill`'s traffic, a window then its own 2048-pixel chunks, is a memory write
   * of `[hi, lo]` repeated once per pixel, and the controller reads it back so.
   */
  lemma FillTrace(before: seq<Event>, after: seq<Event>, x: int, y: int, w: int, h: int, hi: int, lo: int, n: nat)
    requires after == before + Emit(Rect(x, y, w, h, [])) + FillTransfers(hi, lo, n)
    ensures after == before + Emit(Rect(x, y, w, h, Repeat([hi, lo], n)))
    ensures Frames(Wire(after)) == Frames(Wire(before)) + Rect(x, y, w, h, Repeat([hi, lo], n))
  {
    FillEmit(before, after, x, y, w, h, hi, lo, n);
    RectBytes(x, y, w, h, Repeat([hi, lo], n));
    AppendedFrames(before, Rect(x, y, w, h, Repeat([hi, lo], n)));
  }

  /** The first half of `FillTrace`. */
  lemma FillEmit(before: seq<Event>, after: seq<Event>, x: int, y: int, w: int, h: int, hi: int, lo: int, n: nat)
    requires after == before + Emit(Rect(x, y, w, h, [])) + FillTransfers(hi, lo, n)
    ensures after == before + Emit(Rect(x, y, w, h, Repeat([hi, lo], n)))
  {
    Regroup(before, Emit(Rect(x, y, w, h, [])), FillTransfers(hi, lo, n), []);
    FillWindow(x, y, w, h, hi, lo, n);
  }

  /** One pass of `fill`'s loop: the next chunk of at most 2048 pixels, then the rest. */
  lemma FillChunk(t: seq<Event>, hi: int, lo: int, rem: nat)
    requires rem > 0
    ensures var size := if PixelsPerChunk < rem then PixelsPerChunk else rem;
      t + [Xfer(High, Repeat([hi, lo], size))] + FillTransfers(hi, lo, rem - size) == t + FillTransfers(hi, lo, rem)
  {
  }

  /** The power-on sequence, the rotation's commands and a black fill, as one command sequence. */
  lemma BringUpTrace(before: seq<Event>, initialised: seq<Event>, rotated: seq<Event>, after: seq<Event>,
                     invert: bool, g: Geometry, n: nat)
    requires initialised == before + Emit(InitFrames(invert))
    requires rotated == initialised + Emit(RotationFrames(g))
    requires after == rotated + Emit(Rect(g.xOffset, g.yOffset, g.width, g.height, [])) + FillTransfers(0, 0, n)
    requires 0 <= g.madctl < 256
    ensures after == before + Emit(InitFrames(invert) + RotationFrames(g) + FullWindow(g, Repeat([0, 0], n)))
    ensures Frames(Wire(after)) == Frames(Wire(before)) + (InitFrames(invert) + RotationFrames(g) + FullWindow(g, Repeat([0, 0], n)))
  {
    BringUpEmit(before, rotated, after, InitFrames(invert), RotationFrames(g), g, n);
    BringUpBytes(invert, g, n);
    AppendedFrames(before, InitFrames(invert) + RotationFrames(g) + FullWindow(g, Repeat([0, 0], n)));
  }

  /** The three stages of `open`'s traffic, emitted as one table. */
  lemma BringUpEmit(before: seq<Event>, rotated: seq<Event>, after: seq<Event>,
                    init: seq<Frame>, rot: seq<Frame>, g: Geometry, n: nat)
    requires rotated == before + Emit(init) + Emit(rot)
    requires after == rotated + Emit(FullWindow(g, [])) + FillTransfers(0, 0, n)
    ensures after == before + Emit(init + rot + FullWindow(g, Repeat([0, 0], n)))
  {
    var fill := FullWindow(g, Repeat([0, 0], n));
    var window, chunks := Emit(FullWindow(g, [])), FillTransfers(0, 0, n);
    calc {
      after;
      rotated + window + chunks;
      { Regroup(rotated, window, chunks, []); }
      rotated + (window + chunks);
      { FillWindow(g.xOffset, g.yOffset, g.width, g.height, 0, 0, n); }
      rotated + Emit(fill);
      before + Emit(init) + Emit(rot) + Emit(fill);
      { Regroup(before, Emit(init), Emit(rot), Emit(fill)); }
      before + (Emit(init) + Emit(rot) + Emit(fill));
      { EmitAppend(init, rot); EmitAppend(init + rot, fill); }
      before + Emit(init + rot + fill);
    }
  }

  /** Every command of `open`'s traffic is a byte. */
  lemma BringUpBytes(invert: bool, g: Geometry, n: nat)
    requires 0 <= g.madctl < 256
    ensures ByteCommands(InitFrames(invert) + RotationFrames(g) + FullWindow(g, Repeat([0, 0], n)))
  {
    var init, rot, fill := InitFrames(invert), RotationFrames(g), FullWindow(g, Repeat([0, 0], n));
    InitBytes(invert);
    WindowBytes(g, Repeat([0, 0], n));
    ByteCommandsAppend(init, rot);
    ByteCommandsAppend(init + rot, fill);
  }

  // ---------------------------------------------------------------------------
  // The driver
  // ---------------------------------------------------------------------------

  /**
   * An ST7735S panel: the rotation state of `set_rotation` and the bus, seen as
   * the trace of transfers made so far and the level of the DC line.
   */
  class Panel {
    /** The hardware offset of the visible area inside controller memory at rotation 0. */
    const hwXOffset: int
    const hwYOffset: int

    var width: int
    var height: int
    var xOffset: int
    var yOffset: int
    var rotation: int

    var dc: Line
    var trace: seq<Event>

    /** The active geometry is always the table's row for the current rotation. */
    ghost predicate Valid()
      reads this`rotation, this`width, this`height, this`xOffset, this`yOffset
    {
      && IsRotation(rotation)
      && var g := Row(rotation, hwXOffset, hwYOffset);
      && width == g.width && height == g.height && xOffset == g.xOffset && yOffset == g.yOffset
    }

    ghost function Active(): Geometry
      reads this`rotation, this`width, this`height, this`xOffset, this`yOffset
      requires Valid()
    {
      Row(rotation, hwXOffset, hwYOffset)
    }

    /** The field set-up of `__init__`: rotation 0 geometry, nothing sent yet. */
    constructor (xOffset: int, yOffset: int)
      ensures Valid()
      ensures hwXOffset == xOffset && hwYOffset == yOffset
      ensures rotation == 0 && width == NativeWidth && height == NativeHeight
      ensures this.xOffset == xOffset && this.yOffset == yOffset
      ensures dc == Low && trace == []
    {
      hwXOffset, hwYOffset := xOffset, yOffset;
      this.xOffset, this.yOffset := xOffset, yOffset;
      width, height := NativeWidth, NativeHeight;
      rotation := 0;
      dc := Low;
      trace := [];
    }

    /** `_write_command`: DC low, then one byte. */
    method WriteCommand(command: int)
      modifies this`dc, this`trace
      ensures dc == Low
      ensures trace == old(trace) + [Cmd(command)]
    {
      dc := Low;
      trace := trace + [Xfer(dc, [command % 256])];
    }

    /** `_write_data`: DC high, then the payload in slices of at most 4096 bytes. */
    method WriteData(data: seq<int>)
      modifies this`dc, this`trace
      ensures dc == High
      ensures trace == old(trace) + Transfers(data)
    {
      dc := High;
      var length := |data|;
      var i := 0;
      while i < length
        invariant 0 <= i && dc == High
        invariant trace + Transfers(data[if i < length then i else length..]) == old(trace) + Transfers(data)
        decreases length - i
      {
        var end := if i + MaxChunk < length then i + MaxChunk else length;
        var chunk := data[i..end];
        ghost var rest := data[i..];
        if |rest| > MaxChunk {
          assert rest[..MaxChunk] == chunk && rest[MaxChunk..] == data[end..];
        } else {
          assert rest == chunk && data[end..] == [];
        }
        trace := trace + [Xfer(dc, chunk)];
        i := i + MaxChunk;
      }
      assert data[length..] == [];
    }

    /** A command and, when it has any, its parameter bytes. */
    method Send(f: Frame)
      modifies this`dc, this`trace
      ensures dc == if f.params == [] then Low else High
      ensures trace == old(trace) + Step(f)
    {
      WriteCommand(f.command);
      if f.params != [] {
        WriteData(f.params);
      }
    }

    /** `_set_window`: the active offsets are added to all four coordinates. */
    method SetWindow(x0: int, y0: int, x1: int, y1: int)
      modifies this`dc, this`trace
      ensures dc == Low
      ensures trace == old(trace) + Emit(WindowFrames(x0 + xOffset, y0 + yOffset, x1 + xOffset, y1 + yOffset, []))
    {
      var x0, x1, y0, y1 := x0 + xOffset, x1 + xOffset, y0 + yOffset, y1 + yOffset;
      Send(Frame(CASET, Coords(x0, x1)));
      Send(Frame(RASET, Coords(y0, y1)));
      Send(Frame(RAMWR, []));
      EmitThree(Frame(CASET, Coords(x0, x1)), Frame(RASET, Coords(y0, y1)), Frame(RAMWR, []));
    }

    /** `_init_display`: the fixed power-on sequence; `invert` picks INVON over NORON. */
    method InitDisplay(invert: bool)
      modifies this`dc, this`trace
      ensures dc == Low
      ensures trace == old(trace) + Emit(InitFrames(invert))
      ensures Frames(Wire(trace)) == Frames(Wire(old(trace))) + InitFrames(invert)
    {
      Send(Frame(SWRESET, []));
      ghost var sent := [Frame(SWRESET, [])];
      assert trace == old(trace) + Emit(sent) by { EmitOne(sent[0]); }
      Send(Frame(SLPOUT, []));
      EmitSnoc(old(trace), sent, Frame(SLPOUT, []), trace);
      sent := sent + [Frame(SLPOUT, [])];
      Send(Frame(FRMCTR1, [0x01, 0x2C, 0x2D]));
      EmitSnoc(old(trace), sent, Frame(FRMCTR1, [0x01, 0x2C, 0x2D]), trace);
      sent := sent + [Frame(FRMCTR1, [0x01, 0x2C, 0x2D])];
      Send(Frame(FRMCTR2, [0x01, 0x2C, 0x2D]));
      EmitSnoc(old(trace), sent, Frame(FRMCTR2, [0x01, 0x2C, 0x2D]), trace);
      sent := sent + [Frame(FRMCTR2, [0x01, 0x2C, 0x2D])];
      Send(Frame(FRMCTR3, [0x01, 0x2C, 0x2D, 0x01, 0x2C, 0x2D]));
      EmitSnoc(old(trace), sent, Frame(FRMCTR3, [0x01, 0x2C, 0x2D, 0x01, 0x2C, 0x2D]), trace);
      sent := sent + [Frame(FRMCTR3, [0x01, 0x2C, 0x2D, 0x01, 0x2C, 0x2D])];
      Send(Frame(INVCTR, [0x07]));
      EmitSnoc(old(trace), sent, Frame(INVCTR, [0x07]), trace);
      sent := sent + [Frame(INVCTR, [0x07])];
      Send(Frame(PWCTR1, [0xA2, 0x02, 0x84]));
      EmitSnoc(old(trace), sent, Frame(PWCTR1, [0xA2, 0x02, 0x84]), trace);
      sent := sent + [Frame(PWCTR1, [0xA2, 0x02, 0x84])];
      Send(Frame(PWCTR2, [0xC5]));
      EmitSnoc(old(trace), sent, Frame(PWCTR2, [0xC5]), trace);
      sent := sent + [Frame(PWCTR2, [0xC5])];
      Send(Frame(PWCTR3, [0x0A, 0x00]));
      EmitSnoc(old(trace), sent, Frame(PWCTR3, [0x0A, 0x00]), trace);
      sent := sent + [Frame(PWCTR3, [0x0A, 0x00])];
      Send(Frame(PWCTR4, [0x8A, 0x2A]));
      EmitSnoc(old(trace), sent, Frame(PWCTR4, [0x8A, 0x2A]), trace);
      sent := sent + [Frame(PWCTR4, [0x8A, 0x2A])];
      Send(Frame(PWCTR5, [0x8A, 0xEE]));
      EmitSnoc(old(trace), sent, Frame(PWCTR5, [0x8A, 0xEE]), trace);
      sent := sent + [Frame(PWCTR5, [0x8A, 0xEE])];
      Send(Frame(VMCTR1, [0x0E]));
      EmitSnoc(old(trace), sent, Frame(VMCTR1, [0x0E]), trace);
      sent := sent + [Frame(VMCTR1, [0x0E])];
      Send(Frame(COLMOD, [COLMOD_16BIT]));
      EmitSnoc(old(trace), sent, Frame(COLMOD, [COLMOD_16BIT]), trace);
      sent := sent + [Frame(COLMOD, [COLMOD_16BIT])];
      Send(Frame(if invert then INVON else NORON, []));
      EmitSnoc(old(trace), sent, Frame(if invert then INVON else NORON, []), trace);
      sent := sent + [Frame(if invert then INVON else NORON, [])];
      Send(Frame(DISPON, []));
      EmitSnoc(old(trace), sent, Frame(DISPON, []), trace);
      sent := sent + [Frame(DISPON, [])];
      assert sent == InitFrames(invert);
      InitTrace(old(trace), trace, invert);
    }

    /**
     * `set_rotation`: reduces the rotation modulo 360 and rejects anything but
     * 0, 90, 180 and 270 before any traffic; otherwise sets the active geometry
     * from the table, sends MADCTL and re-primes the full-frame window. The
     * rotation field is updated last.
     */
    method SetRotation(rotation: int) returns (result: Result<()>)
      modifies this
      ensures Orient(rotation, hwXOffset, hwYOffset).None? ==>
        result == Err(BadRotation) && unchanged(this)
      ensures Orient(rotation, hwXOffset, hwYOffset).Some? ==>
        var g := Orient(rotation, hwXOffset, hwYOffset).value;
        && result == Ok(())
        && Valid()
        && this.rotation == rotation % 360
        && Active() == g
        && width == g.width && height == g.height && xOffset == g.xOffset && yOffset == g.yOffset
        && dc == Low
        && trace == old(trace) + Emit(RotationFrames(g))
    {
      var reduced := rotation % 360;
      if !IsRotation(reduced) {
        return Err(BadRotation);
      }
      var g := Row(reduced, hwXOffset, hwYOffset);
      width, height := g.width, g.height;
      xOffset, yOffset := g.xOffset, g.yOffset;
      Send(Frame(MADCTL, [g.madctl]));
      ghost var primed := trace;
      SetWindow(0, 0, width - 1, height - 1);
      RotationSent(old(trace), primed, trace, g);
      this.rotation := reduced;
      result := Ok(());
    }

    /**
     * The streaming half of `fill`: DC high, then `[hi, lo]` repeated for
     * `total` pixels, at most 2048 pixels (4096 bytes) per transfer.
     */
    method StreamFill(hi: int, lo: int, total: int)
      modifies this`dc, this`trace
      ensures dc == High
      ensures trace == old(trace) + FillTransfers(hi, lo, total)
    {
      var pair := [hi, lo];
      dc := High;
      var offset := 0;
      while offset < total
        invariant 0 <= offset && dc == High
        invariant trace + FillTransfers(hi, lo, if offset < total then total - offset else 0) ==
          old(trace) + FillTransfers(hi, lo, total)
        decreases total - offset
      {
        var chunkSize := if PixelsPerChunk < total - offset then PixelsPerChunk else total - offset;
        FillChunk(trace, hi, lo, total - offset);
        trace := trace + [Xfer(dc, Repeat(pair, chunkSize))];
        offset := offset + PixelsPerChunk;
      }
    }

    /**
     * `fill`: a colour `_rgb_to_565` rejects is swallowed with nothing sent;
     * otherwise a full-frame window, then `[hi, lo]` in chunks of at most 2048
     * pixels with DC held high.
     */
    method Fill(color: FillColor)
      modifies this`dc, this`trace
      ensures FillWord(color).Err? ==> trace == old(trace) && dc == old(dc)
      ensures FillWord(color).Ok? ==>
        var w := FillWord(color).value;
        && dc == High
        && trace == old(trace) + Emit(Rect(xOffset, yOffset, width, height, [])) + FillTransfers(HighByte(w), LowByte(w), width * height)
    {
      var word := FillWord(color);
      if word.Err? {
        return;
      }
      var color565 := word.value;
      var hi := HighByte(color565);
      var lo := LowByte(color565);
      var total := width * height;
      SetWindow(0, 0, width - 1, height - 1);
      ghost var primed := trace;
      StreamFill(hi, lo, total);
      FillSent(old(trace), primed, trace, xOffset, yOffset, width, height, hi, lo, total);
    }

    /**
     * `display`: an image of another size goes through `resize` (PIL's
     * resampling, outside the model) first; then a full-frame window and the
     * image's RGB565 stream through `_write_data`.
     */
    method Display(image: Image, resize: (Image, int, int) -> Image)
      requires WellFormed(image)
      requires forall i, w, h :: 0 <= w && 0 <= h ==>
        resize(i, w, h).width == w && resize(i, w, h).height == h && WellFormed(resize(i, w, h))
      modifies this`dc, this`trace
      ensures var frame := if (image.width, image.height) == (width, height) then image else resize(image, width, height);
        && (0 <= width && 0 <= height ==> |PixelStream(frame.pixels)| == 2 * width * height)
        && dc == High
        && trace == old(trace) + Emit(Rect(xOffset, yOffset, width, height, PixelStream(frame.pixels)))
        && Frames(Wire(trace)) == Frames(Wire(old(trace))) + Rect(xOffset, yOffset, width, height, PixelStream(frame.pixels))
    {
      var frame := image;
      if (image.width, image.height) != (width, height) {
        frame := resize(image, width, height);
      }
      if 0 <= width && 0 <= height {
        FrameBytes(frame, width, height);
      }
      var pixelData := ImageToData(frame.pixels);
      SetWindow(0, 0, width - 1, height - 1);
      ghost var primed := trace;
      WriteData(pixelData);
      WindowTrace(old(trace), primed, trace, xOffset, yOffset, width, height, pixelData);
    }

    /**
     * The panel bring-up of `__init__`: the power-on sequence, the requested
     * rotation, then a black fill. An invalid rotation raises after the
     * power-on sequence has been sent, and nothing follows it.
     */
    method Open(rotation: int, invert: bool) returns (result: Result<()>)
      modifies this
      ensures Orient(rotation, hwXOffset, hwYOffset).None? ==>
        && result == Err(BadRotation)
        && this.rotation == old(this.rotation) && width == old(width) && height == old(height)
        && xOffset == old(xOffset) && yOffset == old(yOffset)
        && dc == Low
        && trace == old(trace) + Emit(InitFrames(invert))
      ensures Orient(rotation, hwXOffset, hwYOffset).Some? ==>
        var g := Orient(rotation, hwXOffset, hwYOffset).value;
        var bringUp := InitFrames(invert) + RotationFrames(g) + FullWindow(g, Repeat([0, 0], NativeWidth * NativeHeight));
        && result == Ok(())
        && Valid()
        && this.rotation == rotation % 360
        && width == g.width && height == g.height && xOffset == g.xOffset && yOffset == g.yOffset
        && dc == High
        && trace == old(trace) + Emit(bringUp)
        && Frames(Wire(trace)) == Frames(Wire(old(trace))) + bringUp
    {
      InitDisplay(invert);
      ghost var initialised := trace;
      result := SetRotation(rotation);
      if result.Err? {
        return;
      }
      ghost var g := Orient(rotation, hwXOffset, hwYOffset).value;
      ghost var rotated := trace;
      BlackFill();
      OrientArea(rotation, hwXOffset, hwYOffset);
      assert width * height == NativeWidth * NativeHeight;
      Fill(Spec(Triple((0, 0, 0))));
      BringUpTrace(old(trace), initialised, rotated, trace, invert, g, NativeWidth * NativeHeight);
    }
  }
}
