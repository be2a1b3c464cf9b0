/**
 * The SPI transport of the ST7735S driver, with the bus abstracted to a trace of
 * transfers. Each transfer records the level of the data/command-select (DC)
 * line while it ran: low marks a command byte, high marks parameter or pixel
 * data. The controller's view of a trace is the byte stream on the wire, each
 * byte tagged with the DC level; `Frames` groups that stream into commands and
 * their parameters, which is how the controller interprets it.
 */
module Bus {

  /** Level of the DC line. */
  datatype Line = Low | High

  /** One `spi.xfer2` call: the bytes sent and the DC level they were sent under. */
  datatype Event = Xfer(dc: Line, bytes: seq<int>)

  /** `_MAX_SPI_CHUNK`: the most bytes one transfer may carry. */
  const MaxChunk: nat := 4096

  /** The transfer `_write_command` makes: `command & 0xFF` with DC low. */
  function Cmd(command: int): Event {
    Xfer(Low, [command % 256])
  }

  /** The transfers `_write_data` makes: the payload cut into 4096-byte slices, in order. */
  function Transfers(data: seq<int>): seq<Event>
    decreases |data|
  {
    if data == [] then []
    else if |data| <= MaxChunk then [Xfer(High, data)]
    else [Xfer(High, data[..MaxChunk])] + Transfers(data[MaxChunk..])
  }

  /** The bytes of a sequence of transfers, concatenated. */
  function Payload(es: seq<Event>): seq<int> {
    if es == [] then [] else es[0].bytes + Payload(es[1..])
  }

  /**
   * A payload of length L takes ceil(L / 4096) transfers, all with DC high, none
   * empty, none over 4096 bytes, and all but the last exactly 4096 bytes.
   */
  lemma {:induction false} TransfersShape(data: seq<int>)
    ensures |Transfers(data)| == (|data| + MaxChunk - 1) / MaxChunk
    ensures forall i :: 0 <= i < |Transfers(data)| ==>
      Transfers(data)[i].dc == High && 0 < |Transfers(data)[i].bytes| <= MaxChunk
    ensures forall i :: 0 <= i < |Transfers(data)| - 1 ==> |Transfers(data)[i].bytes| == MaxChunk
    decreases |data|
  {
    if |data| > MaxChunk {
      TransfersShape(data[MaxChunk..]);
    }
  }

  /** The transfers put the payload back together, in order. */
  lemma {:induction false} TransfersPayload(data: seq<int>)
    ensures Payload(Transfers(data)) == data
    decreases |data|
  {
    if |data| > MaxChunk {
      var head := [Xfer(High, data[..MaxChunk])];
      assert (head + Transfers(data[MaxChunk..]))[1..] == Transfers(data[MaxChunk..]);
      TransfersPayload(data[MaxChunk..]);
      assert data[..MaxChunk] + data[MaxChunk..] == data;
    } else if data != [] {
      assert [Xfer(High, data)][1..] == [];
    }
  }

  // ---------------------------------------------------------------------------
  // The controller's view
  // ---------------------------------------------------------------------------

  /** A byte as the controller latches it, with the DC level at that moment. */
  datatype WireByte = WireByte(dc: Line, value: int)

  function Tag(dc: Line, bytes: seq<int>): (w: seq<WireByte>)
    ensures |w| == |bytes|
  {
    seq(|bytes|, i requires 0 <= i < |bytes| => WireByte(dc, bytes[i]))
  }

  /** The byte stream a trace puts on the wire. */
  function Wire(es: seq<Event>): seq<WireByte> {
    if es == [] then [] else Tag(es[0].dc, es[0].bytes) + Wire(es[1..])
  }

  lemma {:induction false} WireAppend(a: seq<Event>, b: seq<Event>)
    ensures Wire(a + b) == Wire(a) + Wire(b)
    decreases |a|
  {
    if a == [] {
      assert a + b == b;
    } else {
      assert (a + b)[1..] == a[1..] + b;
      WireAppend(a[1..], b);
    }
  }

  lemma TagAppend(dc: Line, x: seq<int>, y: seq<int>)
    ensures Tag(dc, x + y) == Tag(dc, x) + Tag(dc, y)
  {
  }

  /** Chunking is invisible on the wire: the transfers put exactly the payload there, every byte with DC high. */
  lemma {:induction false} TransfersWire(data: seq<int>)
    ensures Wire(Transfers(data)) == Tag(High, data)
    decreases |data|
  {
    if |data| > MaxChunk {
      var head := [Xfer(High, data[..MaxChunk])];
      assert (head + Transfers(data[MaxChunk..]))[1..] == Transfers(data[MaxChunk..]);
      TransfersWire(data[MaxChunk..]);
      TagAppend(High, data[..MaxChunk], data[MaxChunk..]);
      assert data[..MaxChunk] + data[MaxChunk..] == data;
    } else if data != [] {
      assert [Xfer(High, data)][1..] == [];
    }
  }

  /** A command byte and the parameter bytes that followed it. */
  datatype Frame = Frame(command: int, params: seq<int>)

  /** Length of the run of data bytes at the start of `w`. */
  function DataRun(w: seq<WireByte>): (n: nat)
    ensures n <= |w|
  {
    if w == [] || w[0].dc == Low then 0 else 1 + DataRun(w[1..])
  }

  /** The run is exactly the data bytes before the first command byte. */
  lemma {:induction false} DataRunBounds(w: seq<WireByte>)
    ensures forall i :: 0 <= i < DataRun(w) ==> w[i].dc == High
    ensures DataRun(w) < |w| ==> w[DataRun(w)].dc == Low
    decreases |w|
  {
    if w != [] && w[0].dc == High {
      DataRunBounds(w[1..]);
      assert forall i :: 1 <= i < DataRun(w) ==> w[i] == w[1..][i - 1];
    }
  }

  /** A stream of data bytes only is one run. */
  lemma {:induction false} DataRunAll(w: seq<WireByte>)
    requires forall i :: 0 <= i < |w| ==> w[i].dc == High
    ensures DataRun(w) == |w|
    decreases |w|
  {
    if w != [] {
      DataRunAll(w[1..]);
    }
  }

  function Values(w: seq<WireByte>): (v: seq<int>)
    ensures |v| == |w|
  {
    seq(|w|, i requires 0 <= i < |w| => w[i].value)
  }

  /**
   * The controller's reading of a byte stream: every byte sent with DC low is a
   * command, and the bytes sent with DC high up to the next command are its
   * parameters. Data bytes before the first command belong to no command.
   */
  function Frames(w: seq<WireByte>): seq<Frame>
    decreases |w|
  {
    if w == [] then []
    else if w[0].dc == High then Frames(w[1..])
    else
      var rest := w[1..];
      var n := DataRun(rest);
      [Frame(w[0].value, Values(rest[..n]))] + Frames(rest[n..])
  }

  lemma {:induction false} DataRunAppend(w: seq<WireByte>, b: seq<WireByte>)
    requires b == [] || b[0].dc == Low
    ensures DataRun(w + b) == DataRun(w)
    decreases |w|
  {
    if w == [] {
      assert w + b == b;
    } else if w[0].dc == High {
      assert (w + b)[1..] == w[1..] + b;
      DataRunAppend(w[1..], b);
    }
  }

  /** A stream that begins with a command does not reach back into the frames before it. */
  lemma {:induction false} FramesAppend(a: seq<WireByte>, b: seq<WireByte>)
    requires b == [] || b[0].dc == Low
    ensures Frames(a + b) == Frames(a) + Frames(b)
    decreases |a|, 1
  {
    if a == [] {
      assert a + b == b;
    } else if a[0].dc == High {
      assert (a + b)[1..] == a[1..] + b;
      FramesAppend(a[1..], b);
    } else {
      FramesAppendCommand(a, b);
    }
  }

  /** `FramesAppend` when `a` starts with a command byte: its frame ends before `b` starts. */
  lemma {:induction false} FramesAppendCommand(a: seq<WireByte>, b: seq<WireByte>)
    requires a != [] && a[0].dc == Low
    requires b == [] || b[0].dc == Low
    ensures Frames(a + b) == Frames(a) + Frames(b)
    decreases |a|, 0
  {
    var rest := a[1..];
    var n := DataRun(rest);
    var head := [Frame(a[0].value, Values(rest[..n]))];
    assert Frames(a) == head + Frames(rest[n..]);
    CommandFrame(a, b);
    FramesAppend(rest[n..], b);
  }

  lemma TailAppend<T>(a: seq<T>, b: seq<T>)
    requires a != []
    ensures (a + b)[0] == a[0] && (a + b)[1..] == a[1..] + b
  {
  }

  /** The first frame of `a + b` is the first frame of `a` when `b` starts with a command. */
  lemma CommandFrame(a: seq<WireByte>, b: seq<WireByte>)
    requires a != [] && a[0].dc == Low
    requires b == [] || b[0].dc == Low
    ensures var rest := a[1..]; var n := DataRun(rest);
      Frames(a + b) == [Frame(a[0].value, Values(rest[..n]))] + Frames(rest[n..] + b)
  {
    var rest := a[1..];
    var n := DataRun(rest);
    var w := a + b;
    TailAppend(a, b);
    DataRunAppend(rest, b);
    var m := DataRun(w[1..]);
    assert m == n;
    assert w[1..][..m] == rest[..n];
    assert w[1..][m..] == rest[n..] + b;
    assert Frames(w) == [Frame(w[0].value, Values(w[1..][..m]))] + Frames(w[1..][m..]);
  }

  // ---------------------------------------------------------------------------
  // Command sequences
  // ---------------------------------------------------------------------------

  /** `_write_command(c)` followed, when there are parameters, by `_write_data(params)`. */
  function Step(f: Frame): seq<Event> {
    [Cmd(f.command)] + Transfers(f.params)
  }

  /** The trace of a sequence of commands sent one after the other. */
  function Emit(t: seq<Frame>): seq<Event>
    decreases |t|
  {
    if t == [] then [] else Emit(t[..|t| - 1]) + Step(t[|t| - 1])
  }

  lemma {:induction false} EmitAppend(a: seq<Frame>, b: seq<Frame>)
    ensures Emit(a + b) == Emit(a) + Emit(b)
    decreases |b|
  {
    if b == [] {
      assert a + b == a;
    } else {
      var init, last := b[..|b| - 1], b[|b| - 1];
      assert (a + b)[..|a + b| - 1] == a + init && (a + b)[|a + b| - 1] == last;
      EmitAppend(a, init);
      calc {
        Emit(a + b);
        Emit(a + init) + Step(last);
        Emit(a) + Emit(init) + Step(last);
        Emit(a) + (Emit(init) + Step(last));
        Emit(a) + Emit(b);
      }
    }
  }

  predicate ByteCommands(t: seq<Frame>) {
    forall i :: 0 <= i < |t| ==> 0 <= t[i].command < 256
  }

  lemma ByteCommandsAppend(a: seq<Frame>, b: seq<Frame>)
    requires ByteCommands(a) && ByteCommands(b)
    ensures ByteCommands(a + b)
  {
    assert forall i :: |a| <= i < |a + b| ==> (a + b)[i] == b[i - |a|];
  }

  lemma StepFrames(f: Frame)
    requires 0 <= f.command < 256
    ensures Wire(Step(f)) == [WireByte(Low, f.command)] + Tag(High, f.params)
    ensures Frames(Wire(Step(f))) == [f]
  {
    WireAppend([Cmd(f.command)], Transfers(f.params));
    TransfersWire(f.params);
    assert Wire([Cmd(f.command)]) == [WireByte(Low, f.command)];
    var w := Wire(Step(f));
    var rest := w[1..];
    assert rest == Tag(High, f.params);
    DataRunAll(rest);
    assert Values(rest[..|rest|]) == f.params;
  }

  /**
   * Framing round trip: the controller reads back exactly the commands and
   * parameters that were sent, however the parameters were chunked.
   */
  lemma {:induction false} EmitFrames(t: seq<Frame>)
    requires ByteCommands(t)
    ensures Frames(Wire(Emit(t))) == t
    decreases |t|
  {
    if t != [] {
      var init, f := t[..|t| - 1], t[|t| - 1];
      assert ByteCommands(init);
      WireAppend(Emit(init), Step(f));
      StepFrames(f);
      FramesAppend(Wire(Emit(init)), Wire(Step(f)));
      EmitFrames(init);
      calc {
        Frames(Wire(Emit(t)));
        Frames(Wire(Emit(init) + Step(f)));
        Frames(Wire(Emit(init)) + Wire(Step(f)));
        Frames(Wire(Emit(init))) + Frames(Wire(Step(f)));
        init + [f];
        t;
      }
    }
  }

  /** Whatever was on the wire before, commands sent after it are read as exactly those commands. */
  lemma AppendedFrames(before: seq<Event>, t: seq<Frame>)
    requires ByteCommands(t) && t != []
    ensures Frames(Wire(before + Emit(t))) == Frames(Wire(before)) + t
  {
    WireAppend(before, Emit(t));
    EmitFirst(t);
    FramesAppend(Wire(before), Wire(Emit(t)));
    EmitFrames(t);
  }

  /** The first byte of a non-empty command sequence is a command byte. */
  lemma {:induction false} EmitFirst(t: seq<Frame>)
    requires t != []
    ensures Wire(Emit(t)) != [] && Wire(Emit(t))[0].dc == Low
    decreases |t|
  {
    var init, f := t[..|t| - 1], t[|t| - 1];
    WireAppend(Emit(init), Step(f));
    WireAppend([Cmd(f.command)], Transfers(f.params));
    if init != [] {
      EmitFirst(init);
    }
  }
}
