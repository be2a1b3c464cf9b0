# ST7735S panel driver, modelled in Dafny

This project models the Python driver `st7735s.py` for an 80 x 160 ST7735S TFT
panel on SPI. What the driver is worth is the exact byte stream it sends to the
display controller, so the SPI bus is modelled as an append-only trace of
transfers. Each transfer records the level of the DC (data/command) line and
the bytes sent.

- `errors.dfy` (module `Errors`): the `ValueError` causes, plus `Result` and `Option`.
- `bus.dfy` (module `Bus`):
  - the trace and the 4096-byte chunking of `_write_data`;
  - the controller's view of the trace. `Wire` flattens the trace into
    (DC level, byte) pairs. `Frames` regroups those pairs the way the
    controller does: each command byte (DC low) takes the data bytes
    (DC high) that follow it.
  - `Emit` sends a table of `Frame(command, params)` entries the way the
    driver does: one command write, then one data write when there are
    parameters.
  - The central round trip: `Frames(Wire(Emit(t))) == t`. The controller
    reads back exactly the table that was sent, whatever the chunking.
- `codec.dfy` (module `Codec`):
  - `hex_to_rgb`, including Python's `int(_, 16)` on a two-character slice;
  - `_rgb_to_565`, with clamping and 5/6/5 packing;
  - `_image_to_data`, the big-endian pixel stream, as a loop.
- `driver.dfy` (module `Driver`):
  - the rotation table of `set_rotation`, the address window of
    `_set_window`, the `_init_display` power-on sequence and `fill`'s own
    chunking;
  - the class `Panel`. Its fields are those `set_rotation` updates in place
    (`width`, `height`, the active offsets, `rotation`), the DC line and the
    trace. Its methods are `_write_command`, `_write_data`, `_set_window`,
    `_init_display`, `set_rotation`, `fill` and `display`. `__init__` is
    split into the constructor (field set-up) and `Open` (the panel
    bring-up at the end of `__init__`).

Each method's `ensures` states the trace it appends as `Emit` of a command
table, or the chunked transfers of a payload. Lemmas such as `InitTrace`,
`RotationTrace`, `WindowTrace`, `FillTrace` and `BringUpTrace` turn those
equations into what the controller reads back (`Frames`). `InitDisplay`,
`Display` and `Open` also state the read-back in their own `ensures`.

One place where the code does something other than its own description:

- **Hex channels.** A colour string is documented as `'#RRGGBB'` with channels
  in 0..255. The code passes each two-character slice to `int(_, 16)`, which
  also accepts a sign and surrounding whitespace. So `"#-f0000"` parses to
  (-15, 0, 0), and channels range over [-15, 255]; see
  `SignedChannelAccepted`, `SpacedChannelAccepted` and `HexToRgbRange`. The
  model follows the code. The range [0, 255] is proved for strings of six hex
  digits (`HexToRgbDigits`). `_rgb_to_565` clamps afterwards, so the word sent
  is always a 16-bit word.

## Model

| member | source | states |
|---|---|---|
| Codec.HexToRgb | st7735s.py:55-64 | the error is "wrong length" exactly when the string minus its leading '#'s is not 6 characters long; a rotation error is never raised |
| Codec.LStripHashSuffix | st7735s.py:57 | `lstrip('#')` returns a suffix of its input that does not start with '#', and every character it dropped is '#' |
| Codec.ParsePairIsInt | st7735s.py:61-63 | the channel parser is Python's `int(p, 16)` on a two-character slice: optional whitespace, an optional sign, then hex digits |
| Codec.HexToRgbDigits | st7735s.py:57-64 | for six hex digits after the '#'s, the result is the values of characters 0-1, 2-3 and 4-5, each in [0, 255] |
| Codec.ParsePairRange | st7735s.py:61-63 | any two-character slice `int(_, 16)` accepts has a value in [-15, 255], and a negative value comes from a leading '-' |
| Codec.HexToRgbRange | st7735s.py:55-64 | every channel of an accepted colour string lies in [-15, 255] |
| Codec.SignedChannelAccepted | st7735s.py:57-64 | "#-f0000" is accepted as (-15, 0, 0) |
| Codec.SpacedChannelAccepted | st7735s.py:57-64 | "# f0A0b" is accepted as (15, 10, 11): whitespace and mixed case are allowed |
| Codec.FormatHexRoundTrip | st7735s.py:55-64 | formatting any byte triple as '#RRGGBB' and parsing it gives the triple back |
| Codec.Clamp | st7735s.py:398-400 | `max(0, min(255, x))` lies in [0, 255] and leaves values already in range unchanged |
| Codec.Pack565 | st7735s.py:398-401 | the word is below 0x10000, and its red, green and blue fields are the clamped channels' top 5, 6 and 5 bits |
| Codec.FieldsDetermineWord | st7735s.py:401 | two 16-bit words with equal red, green and blue fields are equal, so the three fields form the whole word |
| Codec.Pack565SameWord | st7735s.py:398-401 | two triples pack to the same word if and only if their clamped channels agree in the kept high bits |
| Codec.Pack565Corners | st7735s.py:401 | black, white, red, green and blue pack to 0x0000, 0xFFFF, 0xF800, 0x07E0 and 0x001F |
| Codec.ClampMonotone | st7735s.py:398-400 | clamping preserves order |
| Codec.Pack565Monotone | st7735s.py:398-401 | raising one channel never lowers its own field and leaves the other two fields unchanged |
| Codec.Rgb565 | st7735s.py:392-401 | a tuple always converts; a string converts exactly when `hex_to_rgb` accepts it and otherwise fails with its error; the result is a 16-bit word, the packing of the tuple or of the triple `hex_to_rgb` parsed from the string |
| Codec.BigEndian16 | st7735s.py:418 | `to_bytes(2, "big")` gives two bytes, high byte first, that recompose the word |
| Codec.PixelStreamAt | st7735s.py:413-420 | the stream is twice as long as the pixel list; bytes 2i and 2i+1 are the high and low bytes of pixel i's word |
| Codec.PixelStreamWords | st7735s.py:413-420 | reading the stream back as big-endian words gives each pixel's RGB565 word, in input order |
| Codec.ImageToData | st7735s.py:413-420 | the per-pixel `extend` loop builds exactly the pixel stream |
| Bus.TransfersShape | st7735s.py:253-257 | a payload of L bytes goes out in ceil(L/4096) transfers, all with DC high, none above 4096 bytes, and all but the last exactly 4096 |
| Bus.TransfersPayload | st7735s.py:253-257 | the transfers, concatenated, are the payload, in order |
| Bus.TransfersWire | st7735s.py:248-257 | on the wire, a chunked payload is the payload's bytes, each with DC high |
| Bus.StepFrames | st7735s.py:231-257 | one command write followed by its data write is read back by the controller as that one command with those parameters |
| Bus.EmitFrames | st7735s.py:231-257 | the controller reads back exactly the command table sent, whatever the chunking of its data |
| Bus.AppendedFrames | st7735s.py:231-257 | sending a non-empty table after any earlier traffic appends exactly that table to what the controller has read |
| Driver.Orient | st7735s.py:337-362 | rotation modulo 360 is accepted if and only if it is 0, 90, 180 or 270; the size is (80, 160) unswapped or (160, 80) for 90 and 270; the offsets are (hx, hy) or swapped the same way; MADCTL is a byte |
| Driver.OrientReduced | st7735s.py:337 | only the rotation modulo 360 matters |
| Driver.OrientTable | st7735s.py:341-362 | the four rows: MADCTL 0xC0, 0xA0, 0x00 and 0x60 with their sizes and offsets |
| Driver.OrientBits | st7735s.py:341-362 | MV is set exactly when the sides are exchanged, MX for 0 and 270, MY for 0 and 90, and no other bit is set |
| Driver.OrientArea | st7735s.py:343-362 | every rotation's active area is 80 x 160 pixels |
| Driver.QuarterTurn | st7735s.py:343-362 | turning by 90 more degrees exchanges the active width and height and the two offsets |
| Driver.CoordsDecode | st7735s.py:380-384 | the four CASET/RASET parameter bytes recompose both coordinates big-endian, and are bytes for 16-bit coordinates |
| Driver.InitOrder | st7735s.py:280-329 | the power-on commands are 0x01, 0x11, B1-B4, C0-C5, 0x3A, then INVON or NORON by `invert`, then 0x29, in that order |
| Driver.InitInvert | st7735s.py:321-325 | `invert` changes the display-mode command and nothing else; COLMOD's parameter is 0x05 |
| Driver.InitTrace | st7735s.py:280-329 | the controller reads the power-on traffic back as the table of commands with their parameter bytes |
| Driver.RotationTrace | st7735s.py:364-367 | the controller reads `set_rotation`'s traffic back as MADCTL with its byte, then the full active window |
| Driver.FillIsWriteData | st7735s.py:452-455 | `fill`'s own loop sends transfer for transfer what `_write_data` would send for the whole repeated pair |
| Driver.FillShape | st7735s.py:448-455 | a fill of n pixels takes ceil(n/2048) transfers with DC high, each at most 4096 bytes, 2n bytes in all, alternating hi and lo |
| Driver.ChunkCount | st7735s.py:452-454 | ceil(2n/4096) equals ceil(n/2048): byte chunks and pixel chunks agree |
| Driver.FillWord | st7735s.py:441-445 | only a colour string `hex_to_rgb` rejects can fail; a converted colour is a 16-bit word whose `>> 8 & 0xFF` and `& 0xFF` masks are exactly its big-endian bytes, the same bytes `_image_to_data` sends for that colour; an integer colour is used as it is |
| Driver.BlackFill | st7735s.py:177 | the black fill of `__init__` sends the word 0 as bytes 0, 0 |
| Driver.DisplaySolidIsFill | st7735s.py:431-455 | showing a solid image sends the same transfers as filling with its colour |
| Driver.RedFrameAt270 | st7735s.py:358-362 | rotation 270 with hardware offset (24, 0) gives size 160 x 80 and offsets (0, 24), and a full red frame is 12800 words of 0xF800 (25600 bytes) |
| Driver.FrameBytes | st7735s.py:431 | an image of w x h pixels converts to exactly 2 x w x h bytes |
| Driver.WindowTrace | st7735s.py:433-434 | a full-frame window then a payload is the window's three commands with the payload as RAMWR's data, and is read back so |
| Driver.FillTrace | st7735s.py:449-455 | `fill`'s window and chunks are a memory write of [hi, lo] once per pixel, and are read back so |
| Driver.BringUpTrace | st7735s.py:175-177 | the power-on sequence, the rotation's commands and a black fill make one command table, read back as such |
| Driver.Panel.constructor | st7735s.py:110-124 | the set-up satisfies the rotation invariant: rotation 0, size 80 x 160, active offsets equal to the hardware offsets, nothing sent |
| Driver.Panel.WriteCommand | st7735s.py:231-234 | DC goes low and the command's low byte is appended to the trace |
| Driver.Panel.WriteData | st7735s.py:239-257 | DC goes high and the chunked transfers of the payload are appended |
| Driver.Panel.SetWindow | st7735s.py:371-387 | the active offsets are added to all four coordinates, then CASET, RASET and RAMWR are sent |
| Driver.Panel.InitDisplay | st7735s.py:280-330 | the power-on table is appended, and the controller reads it back command for command |
| Driver.Panel.SetRotation | st7735s.py:335-368 | an invalid rotation fails before any traffic and changes nothing; otherwise the geometry becomes the table's row, the invariant holds, then MADCTL and the full window are sent and `rotation` is the reduced value |
| Driver.Panel.StreamFill | st7735s.py:450-455 | DC goes high and exactly `fill`'s chunks for the pixel count are appended; a count of 0 or less sends nothing |
| Driver.Panel.Fill | st7735s.py:438-457 | a rejected colour sends nothing; otherwise the full active window, then the colour's chunks for width x height pixels |
| Driver.Panel.Display | st7735s.py:425-436 | an image of the wrong size is resized to the active size first; exactly 2 x width x height bytes of pixel stream go out, as RAMWR's data after the full active window, and are read back so |
| Driver.Panel.Open | st7735s.py:173-177 | an invalid rotation fails after the power-on sequence with the geometry unchanged and DC low; otherwise DC ends high and the power-on sequence, the rotation and a black frame of 80 x 160 pixels are sent as one table, and read back so |

## Left out

- GPIO pin set-up, opening and configuring spidev, `reset`, `backlight`, `close` and the context-manager methods: hardware I/O with no protocol logic. The DC line is kept only as a field that the write methods set.
- `time.sleep` settle delays and all logging: timing and diagnostics.
- Fault handling: the `except` branches of `_write_command`, `_write_data`, `_init_display`, `display` and `fill`, and `_recover_spi`. Failures come from the SPI device, which is outside the model, so the model assumes no transfer fails. Two notes on that code: recovery re-opens port (0, 0) at 24 MHz with `invert=False` rather than the configured values, and `fill` calls `spi.xfer2` directly, so its faults are logged and never trigger recovery.
- `_write_data`'s branch for a single `int` argument (lines 250-251): no caller passes one, and `WriteData` takes a byte sequence.
- `spidev`'s own rejection of data values outside 0..255: data bytes are recorded as given. Command bytes are masked with `& 0xFF` as in the source.
- PIL: `Image.resize` with LANCZOS resampling (floating point) is the `resize` parameter of `Display`. Its pixel values are not modelled. `Display` requires only what PIL guarantees: an image holds one pixel per position (`WellFormed`), and `resize` returns such an image of the requested size. An image is its declared size plus its pixels in row-major order. `image.convert("RGB")` is left out: pixels are already RGB triples. Channels are integers, so `int(r)` on floats is not modelled.
- Codec.HexToRgb: `int(_, 16)` is modelled for ASCII only. Python also accepts non-ASCII Unicode whitespace and Unicode decimal digits, and the model rejects such strings with `BadHexDigit`. Underscores cannot appear validly in a two-character slice.
- `create_canvas`, `draw_text` and the default font cache: PIL font metrics and drawing.
- `hud.py`: system statistics, text rendering and a timed polling loop, with no protocol logic.
