/**
 * The client's side of the frame format: a byte-at-a-time receive automaton
 * with a long and a short buffer, and a sender that stuffs through a 700-byte
 * output buffer. Both are shown to speak the format of module Framing.
 */
module FrameAutomaton {
  import Bytes
  import opened Crc
  import opened Framing

  const SHORT_BUFFER: nat := 7
  const OUTPUT_BUFFER: nat := 700

  datatype Phase = FrameSearch | DleInSearch | FrameStarted | DleInFrame | GetCRC1 | GetCRC2

  datatype Mishap = LineError | BufferOverflow | FramingError | BadCRC

  /** What one received character makes known: nothing, a frame, or an error. */
  datatype Event = Quiet | Frame(payload: seq<octet>, short: bool) | Error(mishap: Mishap)

  /** A character from the line, or one the line marked as bad. */
  datatype Incoming = Ch(b: octet) | Broken

  /** The automaton as a value: what is collected, in which buffer, and the first checksum byte. */
  datatype Rx = Rx(phase: Phase, got: seq<octet>, short: bool, crc1: octet)

  predicate InFrame(phase: Phase) {
    !phase.FrameSearch? && !phase.DleInSearch?
  }

  function Room(short: bool): nat {
    if short then SHORT_BUFFER else MAX_FRAME_SIZE
  }

  function Search(rx: Rx): Rx {
    rx.(phase := FrameSearch, got := [])
  }

  function Fail(rx: Rx, mishap: Mishap): (Rx, Event) {
    (Search(rx), Error(mishap))
  }

  function Collect(rx: Rx, b: octet): (Rx, Event) {
    if |rx.got| >= Room(rx.short) then Fail(rx, BufferOverflow)
    else (rx.(phase := FrameStarted, got := rx.got + [b]), Quiet)
  }

  /** One character; `free` says whether the long buffer is free. */
  function Step(rx: Rx, incoming: Incoming, free: bool): (Rx, Event) {
    if incoming.Broken? then Fail(rx, LineError)
    else
      var b := incoming.b;
      match rx.phase
      case FrameSearch => (if b == DLE then rx.(phase := DleInSearch) else rx, Quiet)
      case DleInSearch =>
        (if b == STX then Rx(FrameStarted, [], !free, rx.crc1)
         else if b == DLE then rx
         else rx.(phase := FrameSearch), Quiet)
      case FrameStarted =>
        if b == DLE then (rx.(phase := DleInFrame), Quiet) else Collect(rx, b)
      case DleInFrame =>
        if b == ETX then (rx.(phase := GetCRC1), Quiet)
        else if b == STX then (rx.(phase := FrameStarted, got := []), Quiet)
        else if b == DLE then Collect(rx, DLE)
        else Fail(rx, FramingError)
      case GetCRC1 => (rx.(phase := GetCRC2, crc1 := b), Quiet)
      case GetCRC2 =>
        if Joined(rx.crc1, b) == Crc16(rx.got) then (Search(rx), Frame(rx.got, rx.short))
        else Fail(rx, BadCRC)
  }

  function Noted(event: Event): seq<Event> {
    if event.Quiet? then [] else [event]
  }

  /** A whole run over good characters, with the long buffer free throughout or never. */
  function Feed(rx: Rx, src: seq<octet>, free: bool): (Rx, seq<Event>)
    decreases |src|
  {
    if src == [] then (rx, [])
    else
      var (next, event) := Step(rx, Ch(src[0]), free);
      var (last, events) := Feed(next, src[1..], free);
      (last, Noted(event) + events)
  }

  // ---- the automaton as the client runs it, on its two buffers ----

  class Receiver {
    const longBuffer: array<octet>
    const shortBuffer: array<octet>
    var readState: Phase
    var rcvByteCount: nat
    var len: nat
    var usingShortRxBuffer: bool
    var rxCRC: bv16
    var crcx0: octet

    ghost predicate Valid()
      reads this, longBuffer, shortBuffer
    {
      && longBuffer != shortBuffer
      && longBuffer.Length == MAX_FRAME_SIZE && shortBuffer.Length == SHORT_BUFFER
      && len == Room(usingShortRxBuffer)
      && rcvByteCount <= len
      && (InFrame(readState) ==> rxCRC == TableCrcFrom(0, Got()))
    }

    ghost function Got(): seq<octet>
      requires longBuffer.Length == MAX_FRAME_SIZE && shortBuffer.Length == SHORT_BUFFER
      requires rcvByteCount <= Room(usingShortRxBuffer)
      reads this, longBuffer, shortBuffer
    {
      if usingShortRxBuffer then shortBuffer[..rcvByteCount] else longBuffer[..rcvByteCount]
    }

    ghost function State(): Rx
      requires Valid()
      reads this, longBuffer, shortBuffer
    {
      Rx(readState, Got(), usingShortRxBuffer, crcx0)
    }

    constructor ()
      ensures Valid() && fresh(longBuffer) && fresh(shortBuffer)
      ensures State().phase == FrameSearch && State().got == []
    {
      longBuffer := new octet[MAX_FRAME_SIZE](_ => 0);
      shortBuffer := new octet[SHORT_BUFFER](_ => 0);
      readState, rcvByteCount, rxCRC, crcx0 := FrameSearch, 0, 0, 0;
      len, usingShortRxBuffer := MAX_FRAME_SIZE, false;
    }

    /** Adds one byte to the buffer in use and to the running checksum. */
    method Store(b: octet)
      requires Valid() && InFrame(readState) && rcvByteCount < len
      modifies this, longBuffer, shortBuffer
      ensures Valid() && State() == old(State()).(got := old(Got()) + [b])
    {
      TableCrcSnoc(Got(), b);
      rxCRC := AccumulateCRC(rxCRC, b);
      if usingShortRxBuffer {
        shortBuffer[rcvByteCount] := b;
      } else {
        longBuffer[rcvByteCount] := b;
      }
      rcvByteCount := rcvByteCount + 1;
      assert Got() == old(Got()) + [b];
    }

    method StartFrame(free: bool)
      requires Valid()
      modifies this
      ensures Valid() && State() == Rx(FrameStarted, [], !free, old(State()).crc1)
    {
      readState := FrameStarted;
      rcvByteCount, rxCRC := 0, 0;
      if free {
        len, usingShortRxBuffer := MAX_FRAME_SIZE, false;
      } else {
        len, usingShortRxBuffer := SHORT_BUFFER, true;
      }
    }

    /** Every error ends the same way: report it and search for the next frame. */
    method Abandon()
      requires Valid()
      modifies this
      ensures Valid() && State() == Search(old(State()))
    {
      readState := FrameSearch;
      rcvByteCount := 0;
    }

    method CollectOrOverflow(b: octet) returns (event: Event)
      requires Valid() && readState == FrameStarted
      modifies this, longBuffer, shortBuffer
      ensures Valid() && (State(), event) == Collect(old(State()), b)
    {
      if rcvByteCount >= len {
        Abandon();
        return Error(BufferOverflow);
      }
      Store(b);
      return Quiet;
    }

    method Escaped(b: octet) returns (event: Event)
      requires Valid() && readState == DleInFrame
      modifies this, longBuffer, shortBuffer
      ensures Valid() && (State(), event) == Step(old(State()), Ch(b), true)
    {
      readState := FrameStarted;
      event := Quiet;
      if b == ETX {
        readState := GetCRC1;
      } else if b == STX {
        rcvByteCount, rxCRC := 0, 0;
      } else if b == DLE {
        event := CollectOrOverflow(DLE);
      } else {
        Abandon();
        event := Error(FramingError);
      }
    }

    method FinishFrame(b: octet) returns (event: Event)
      requires Valid() && readState == GetCRC2
      modifies this
      ensures Valid() && (State(), event) == Step(old(State()), Ch(b), true)
    {
      SameChecksum(0, Got());
      if Joined(crcx0, b) == rxCRC {
        var payload := if usingShortRxBuffer then shortBuffer[..rcvByteCount] else longBuffer[..rcvByteCount];
        event := Frame(payload, usingShortRxBuffer);
      } else {
        event := Error(BadCRC);
      }
      Abandon();
    }

    method RcvChRtn(incoming: Incoming, free: bool) returns (event: Event)
      requires Valid()
      modifies this, longBuffer, shortBuffer
      ensures Valid() && (State(), event) == Step(old(State()), incoming, free)
    {
      event := Quiet;
      if incoming.Broken? {
        Abandon();
        return Error(LineError);
      }
      var b := incoming.b;
      match readState {
        case FrameSearch => if b == DLE { readState := DleInSearch; }
        case DleInSearch =>
          if b == STX { StartFrame(free); } else if b != DLE { readState := FrameSearch; }
        case FrameStarted =>
          if b == DLE { readState := DleInFrame; } else { event := CollectOrOverflow(b); }
        case DleInFrame => event := Escaped(b);
        case GetCRC1 =>
          crcx0 := b;
          readState := GetCRC2;
        case GetCRC2 => event := FinishFrame(b);
      }
    }
  }

  lemma {:induction false} TableCrcConcat(c: bv16, a: seq<octet>, b: octet)
    ensures TableCrcFrom(c, a + [b]) == AccumulateCRC(TableCrcFrom(c, a), b)
    decreases |a|
  {
    if a == [] {
      assert a + [b] == [b] && [b][1..] == [];
      assert TableCrcFrom(AccumulateCRC(c, b), []) == AccumulateCRC(c, b);
    } else {
      assert (a + [b])[0] == a[0] && (a + [b])[1..] == a[1..] + [b];
      TableCrcConcat(AccumulateCRC(c, a[0]), a[1..], b);
    }
  }

  lemma TableCrcSnoc(a: seq<octet>, b: octet)
    ensures TableCrcFrom(0, a + [b]) == AccumulateCRC(TableCrcFrom(0, a), b)
  {
    TableCrcConcat(0, a, b);
  }

  // ---- the automaton reads the same streams ----

  /** Characters that raise no event leave only a new state behind. */
  lemma FeedQuiet(rx: Rx, b: octet, tail: seq<octet>, free: bool)
    requires Step(rx, Ch(b), free).1 == Quiet
    ensures Feed(rx, [b] + tail, free) == Feed(Step(rx, Ch(b), free).0, tail, free)
  {
    assert ([b] + tail)[0] == b && ([b] + tail)[1..] == tail;
    var (last, events) := Feed(Step(rx, Ch(b), free).0, tail, free);
    assert [] + events == events;
  }

  lemma FeedPair(rx: Rx, b0: octet, b1: octet, tail: seq<octet>, free: bool)
    requires Step(rx, Ch(b0), free).1 == Quiet
    requires Step(Step(rx, Ch(b0), free).0, Ch(b1), free).1 == Quiet
    ensures Feed(rx, [b0, b1] + tail, free) == Feed(Step(Step(rx, Ch(b0), free).0, Ch(b1), free).0, tail, free)
  {
    assert [b0, b1] + tail == [b0] + ([b1] + tail);
    FeedQuiet(rx, b0, [b1] + tail, free);
    FeedQuiet(Step(rx, Ch(b0), free).0, b1, tail, free);
  }

  lemma {:induction false} FeedNoise(rx: Rx, noise: seq<octet>, tail: seq<octet>, free: bool)
    requires rx.phase == FrameSearch && DLE !in noise
    ensures Feed(rx, noise + tail, free) == Feed(rx, tail, free)
    decreases |noise|
  {
    if noise == [] {
      assert noise + tail == tail;
    } else {
      assert noise + tail == [noise[0]] + (noise[1..] + tail);
      FeedQuiet(rx, noise[0], noise[1..] + tail, free);
      FeedNoise(rx, noise[1..], tail, free);
    }
  }

  lemma FeedPiece(rx: Rx, b: octet, tail: seq<octet>, free: bool)
    requires rx.phase == FrameStarted && |rx.got| < Room(rx.short)
    ensures Feed(rx, Piece(b) + tail, free) == Feed(rx.(got := rx.got + [b]), tail, free)
  {
    if b == DLE { FeedPair(rx, DLE, DLE, tail, free); } else { FeedQuiet(rx, b, tail, free); }
  }

  lemma {:induction false} FeedStuffed(rx: Rx, data: seq<octet>, tail: seq<octet>, free: bool)
    requires rx.phase == FrameStarted && |rx.got| + |data| <= Room(rx.short)
    ensures Feed(rx, Stuff(data) + tail, free) == Feed(rx.(got := rx.got + data), tail, free)
    decreases |data|
  {
    if data == [] {
      assert rx.got + data == rx.got && Stuff(data) + tail == tail;
    } else {
      var more := Stuff(data[1..]) + tail;
      assert Stuff(data) + tail == Piece(data[0]) + more;
      FeedPiece(rx, data[0], more, free);
      assert rx.got + [data[0]] + data[1..] == rx.got + data;
      FeedStuffed(rx.(got := rx.got + [data[0]]), data[1..], tail, free);
    }
  }

  /** What the checksum behind a body makes of it. */
  function Verdict(data: seq<octet>, crc: bv16, short: bool): Event {
    if crc == Crc16(data) then Frame(data, short) else Error(BadCRC)
  }

  lemma FeedTrailer(rx: Rx, crc: bv16, tail: seq<octet>, free: bool)
    requires rx.phase == FrameStarted
    ensures exists end: Rx :: end.phase == FrameSearch
              && Feed(rx, Trailer(crc) + tail, free)
                 == (Feed(end, tail, free).0, [Verdict(rx.got, crc, rx.short)] + Feed(end, tail, free).1)
  {
    var rest := [High(crc)] + tail;
    assert Trailer(crc) + tail == [DLE, ETX] + ([Low(crc)] + rest);
    FeedPair(rx, DLE, ETX, [Low(crc)] + rest, free);
    var waiting := rx.(phase := GetCRC1);
    FeedQuiet(waiting, Low(crc), rest, free);
    JoinedSplit(crc);
    assert rest[0] == High(crc) && rest[1..] == tail;
    var end := Search(rx.(crc1 := Low(crc)));
    assert Step(rx.(phase := GetCRC2, crc1 := Low(crc)), Ch(High(crc)), free) == (end, Verdict(rx.got, crc, rx.short));
  }

  /** A body with any checksum, after any noise without DLE, raises exactly one event and the search goes on behind it. */
  lemma FeedAny(rx: Rx, noise: seq<octet>, data: seq<octet>, crc: bv16, tail: seq<octet>, free: bool)
    requires rx.phase == FrameSearch && DLE !in noise && |data| <= Room(!free)
    ensures exists end: Rx :: end.phase == FrameSearch
              && Feed(rx, noise + ([DLE, STX] + Stuff(data) + Trailer(crc)) + tail, free)
                 == (Feed(end, tail, free).0, [Verdict(data, crc, !free)] + Feed(end, tail, free).1)
  {
    var body := Stuff(data) + (Trailer(crc) + tail);
    Regroup(noise, [DLE, STX], Stuff(data), Trailer(crc), tail);
    FeedNoise(rx, noise, [DLE, STX] + body, free);
    FeedPair(rx, DLE, STX, body, free);
    var started := Rx(FrameStarted, [], !free, rx.crc1);
    FeedStuffed(started, data, Trailer(crc) + tail, free);
    assert [] + data == data;
    FeedTrailer(started.(got := data), crc, tail, free);
  }

  lemma FeedFrame(rx: Rx, noise: seq<octet>, data: seq<octet>, tail: seq<octet>, free: bool)
    requires rx.phase == FrameSearch && DLE !in noise && |data| <= Room(!free)
    ensures exists end: Rx :: end.phase == FrameSearch
              && Feed(rx, noise + Encode(data) + tail, free)
                 == (Feed(end, tail, free).0, [Frame(data, !free)] + Feed(end, tail, free).1)
  {
    FeedAny(rx, noise, data, Crc16(data), tail, free);
  }

  /** A frame cut short by the start of another is dropped, and the other is handed on, into the buffer the first one had. */
  lemma CutShortDropped(rx: Rx, part: seq<octet>, data: seq<octet>, tail: seq<octet>, free: bool)
    requires rx.phase == FrameSearch && |part| <= Room(!free) && |data| <= Room(!free)
    ensures exists end: Rx :: end.phase == FrameSearch
              && Feed(rx, [DLE, STX] + (Stuff(part) + (Encode(data) + tail)), free)
                 == (Feed(end, tail, free).0, [Frame(data, !free)] + Feed(end, tail, free).1)
  {
    var started := Rx(FrameStarted, [], !free, rx.crc1);
    FeedPair(rx, DLE, STX, Stuff(part) + (Encode(data) + tail), free);
    FeedStuffed(started, part, Encode(data) + tail, free);
    FeedRestart(started.(got := [] + part), data, tail, free);
  }

  lemma FeedRestart(rx: Rx, data: seq<octet>, tail: seq<octet>, free: bool)
    requires rx.phase == FrameStarted && |data| <= Room(rx.short)
    ensures exists end: Rx :: end.phase == FrameSearch
              && Feed(rx, Encode(data) + tail, free) == (Feed(end, tail, free).0, [Frame(data, rx.short)] + Feed(end, tail, free).1)
  {
    var afresh, body := rx.(got := []), Stuff(data) + (Trailer(Crc16(data)) + tail);
    Parts([DLE, STX], Stuff(data), Trailer(Crc16(data)), tail);
    FeedPair(rx, DLE, STX, body, free);
    FeedStuffed(afresh, data, Trailer(Crc16(data)) + tail, free);
    assert [] + data == data;
    FeedTrailer(afresh.(got := data), Crc16(data), tail, free);
  }

  /** In any phase an error on the line, and inside a frame a wrong character behind DLE, is reported and drops what there was. */
  lemma FaultSearchesAgain(rx: Rx, b: octet, free: bool)
    ensures var (next, event) := Step(rx, Broken, free); next.phase == FrameSearch && next.got == [] && event == Error(LineError)
    ensures rx.phase == DleInFrame && b != DLE && b != STX && b != ETX ==>
              var (next, event) := Step(rx, Ch(b), free); next.phase == FrameSearch && next.got == [] && event == Error(FramingError)
  {
  }

  /** A payload changed within two consecutive bytes is reported as a bad checksum and never handed on. */
  lemma DamageRaisesError(rx: Rx, before: seq<octet>, b0: octet, b1: octet, d0: octet, d1: octet, after: seq<octet>, free: bool)
    requires rx.phase == FrameSearch && (b0 != d0 || b1 != d1) && |before| + 2 + |after| <= Room(!free)
    ensures var sent, damaged := Crc16(before + [b0, b1] + after), before + [d0, d1] + after;
            Feed(rx, [DLE, STX] + Stuff(damaged) + Trailer(sent), free).1 == [Error(BadCRC)]
  {
    var sent, damaged := Crc16(before + [b0, b1] + after), before + [d0, d1] + after;
    DetectsWindow(before, b0, b1, d0, d1, after);
    FeedAlone(rx, damaged, sent, free);
  }

  lemma FeedAlone(rx: Rx, data: seq<octet>, crc: bv16, free: bool)
    requires rx.phase == FrameSearch && |data| <= Room(!free)
    ensures Feed(rx, [DLE, STX] + Stuff(data) + Trailer(crc), free).1 == [Verdict(data, crc, !free)]
  {
    var frame := [DLE, STX] + Stuff(data) + Trailer(crc);
    FeedAny(rx, [], data, crc, [], free);
    assert [] + frame + [] == frame;
  }

  lemma FeedNoted(rx: Rx, b: octet, tail: seq<octet>, free: bool)
    requires Step(rx, Ch(b), free).1 != Quiet
    ensures var events := Feed(rx, [b] + tail, free).1; events != [] && events[0] == Step(rx, Ch(b), free).1
  {
    assert ([b] + tail)[0] == b && ([b] + tail)[1..] == tail;
  }

  lemma FullBuffer(rx: Rx, b: octet, tail: seq<octet>, free: bool)
    requires rx.phase == FrameStarted && |rx.got| == Room(rx.short)
    ensures var events := Feed(rx, Piece(b) + tail, free).1; events != [] && events[0] == Error(BufferOverflow)
  {
    if b == DLE {
      assert Piece(b) + tail == [DLE] + ([DLE] + tail);
      FeedQuiet(rx, DLE, [DLE] + tail, free);
      FeedNoted(rx.(phase := DleInFrame), DLE, tail, free);
    } else {
      FeedNoted(rx, b, tail, free);
    }
  }

  /** A payload that does not fit the buffer raises the overflow before anything else. */
  lemma {:induction false} TooLongOverflows(rx: Rx, data: seq<octet>, tail: seq<octet>, free: bool)
    requires rx.phase == FrameStarted && |rx.got| <= Room(rx.short) < |rx.got| + |data|
    ensures var events := Feed(rx, Stuff(data) + tail, free).1; events != [] && events[0] == Error(BufferOverflow)
    decreases |data|
  {
    var more := Stuff(data[1..]) + tail;
    assert Stuff(data) + tail == Piece(data[0]) + more;
    if |rx.got| < Room(rx.short) {
      FeedPiece(rx, data[0], more, free);
      TooLongOverflows(rx.(got := rx.got + [data[0]]), data[1..], tail, free);
    } else {
      FullBuffer(rx, data[0], more, free);
    }
  }

  function FrameEvents(payloads: seq<seq<octet>>): seq<Event> {
    if payloads == [] then [] else [Frame(payloads[0], false)] + FrameEvents(payloads[1..])
  }

  /** With its long buffer free, the automaton raises the payloads of a stream, in order, and ends searching. */
  lemma {:induction false} AutomatonReadsStream(rx: Rx, frames: seq<Sent>)
    requires rx.phase == FrameSearch
    requires forall k :: 0 <= k < |frames| ==> DLE !in frames[k].noise && |frames[k].payload| <= MAX_FRAME_SIZE
    ensures Feed(rx, Wire(frames), true).1 == FrameEvents(Payloads(frames))
    ensures Feed(rx, Wire(frames), true).0.phase == FrameSearch
    decreases |frames|
  {
    if frames != [] {
      var more := Wire(frames[1..]);
      FeedFrame(rx, frames[0].noise, frames[0].payload, more, true);
      var end: Rx :| end.phase == FrameSearch
        && Feed(rx, frames[0].noise + Encode(frames[0].payload) + more, true)
           == (Feed(end, more, true).0, [Frame(frames[0].payload, false)] + Feed(end, more, true).1);
      AutomatonReadsStream(end, frames[1..]);
      assert Payloads(frames)[1..] == Payloads(frames[1..]);
    }
  }

  /** Both decoders make the same of every stream of frames. */
  lemma DecodersAgree(rx: Rx, frames: seq<Sent>)
    requires rx.phase == FrameSearch
    requires forall k :: 0 <= k < |frames| ==> Clean(frames[k])
    ensures Feed(rx, Wire(frames), true).1 == FrameEvents(ReadAll(Wire(frames)).0)
  {
    AutomatonReadsStream(rx, frames);
    StreamRoundTrip(frames);
  }

  // ---- the client's sender ----

  class Sender {
    const outputBuffer: array<octet>
    var bufferPtr: nat
    var txCRC: bv16
    /** Everything handed to the modem so far. */
    var line: seq<octet>

    ghost predicate Valid()
      reads this, outputBuffer
    {
      outputBuffer.Length == OUTPUT_BUFFER && bufferPtr < OUTPUT_BUFFER
    }

    /** Handed over or still waiting in the buffer. */
    ghost function Written(): seq<octet>
      requires Valid()
      reads this, outputBuffer
    {
      line + outputBuffer[..bufferPtr]
    }

    constructor ()
      ensures Valid() && fresh(outputBuffer) && line == [] && bufferPtr == 0
    {
      outputBuffer := new octet[OUTPUT_BUFFER](_ => 0);
      bufferPtr, txCRC, line := 0, 0, [];
    }

    method FlushOutputBuffer()
      requires outputBuffer.Length == OUTPUT_BUFFER && bufferPtr <= OUTPUT_BUFFER
      modifies this
      ensures Valid() && bufferPtr == 0 && txCRC == old(txCRC)
      ensures line == old(line + outputBuffer[..bufferPtr])
    {
      if bufferPtr > 0 {
        line := line + outputBuffer[..bufferPtr];
        bufferPtr := 0;
      }
    }

    method WriteBuffered(ch: octet)
      requires Valid()
      modifies this, outputBuffer
      ensures Valid() && txCRC == old(txCRC)
      ensures Written() == old(Written()) + [ch]
    {
      outputBuffer[bufferPtr] := ch;
      bufferPtr := bufferPtr + 1;
      assert outputBuffer[..bufferPtr] == old(outputBuffer[..bufferPtr]) + [ch];
      if bufferPtr == OUTPUT_BUFFER { FlushOutputBuffer(); }
    }

    method WriteStuffedByte(ch: octet)
      requires Valid()
      modifies this, outputBuffer
      ensures Valid() && Written() == old(Written()) + Piece(ch)
      ensures txCRC == Update(old(txCRC), ch)
    {
      ghost var before := Written();
      TableIsBitwise(txCRC, ch);
      txCRC := AccumulateCRC(txCRC, ch);
      WriteBuffered(ch);
      if ch == DLE {
        WriteBuffered(DLE);
        assert before + [DLE] + [DLE] == before + [DLE, DLE];
      }
    }

    method WriteDLEStuffed(buffer: seq<octet>)
      requires Valid()
      modifies this, outputBuffer
      ensures Valid() && Written() == old(Written()) + Stuff(buffer)
      ensures txCRC == Crc16From(old(txCRC), buffer)
    {
      ghost var before, start := Written(), txCRC;
      for index := 0 to |buffer|
        invariant Valid()
        invariant Written() == before + Stuff(buffer[..index])
        invariant txCRC == Crc16From(start, buffer[..index])
      {
        WriteStuffedByte(buffer[index]);
        assert Written() == before + Stuff(buffer[..index + 1]) by {
          StuffSnoc(buffer, index);
          Bytes.Assoc(before, Stuff(buffer[..index]), Piece(buffer[index]));
        }
        CrcSnoc(start, buffer, index);
      }
      assert buffer[..|buffer|] == buffer;
    }

    /** Header and both parts leave as one frame, however often the output buffer filled up in between. */
    method PdlSendFrame(header: seq<octet>, part1: seq<octet>, part2: seq<octet>)
      requires Valid() && bufferPtr == 0
      modifies this, outputBuffer
      ensures Valid() && bufferPtr == 0
      ensures line == old(line) + Encode(header + part1 + part2)
    {
      ghost var before := line;
      WriteBuffered(DLE);
      WriteBuffered(STX);
      assert Written() == before + [DLE, STX];
      txCRC := 0;
      WriteDLEStuffed(header);
      WriteDLEStuffed(part1);
      WriteDLEStuffed(part2);
      ghost var data := header + part1 + part2;
      assert txCRC == Crc16(data) && Written() == before + ([DLE, STX] + Stuff(data)) by {
        ThreeParts(before + [DLE, STX], header, part1, part2);
        Bytes.Assoc(before, [DLE, STX], Stuff(data));
      }
      WriteTrailer();
      Bytes.Assoc(before, [DLE, STX] + Stuff(data), Trailer(Crc16(data)));
      FlushOutputBuffer();
    }

    method WriteTrailer()
      requires Valid()
      modifies this, outputBuffer
      ensures Valid() && Written() == old(Written()) + Trailer(old(txCRC))
    {
      ghost var before := Written();
      WriteBuffered(DLE);
      WriteBuffered(ETX);
      WriteBuffered(Low(txCRC));
      WriteBuffered(High(txCRC));
      assert Written() == before + [DLE] + [ETX] + [Low(txCRC)] + [High(txCRC)];
    }
  }

  lemma CrcSnoc(c: bv16, data: seq<octet>, k: nat)
    requires k < |data|
    ensures Crc16From(c, data[..k + 1]) == Update(Crc16From(c, data[..k]), data[k])
  {
    assert data[..k + 1] == data[..k] + [data[k]];
    CrcConcat(c, data[..k], [data[k]]);
    var d := Crc16From(c, data[..k]);
    assert [data[k]][1..] == [];
    assert Crc16From(d, [data[k]]) == Crc16From(Update(d, data[k]), []);
  }

  lemma ThreeParts(start: seq<octet>, a: seq<octet>, b: seq<octet>, c: seq<octet>)
    ensures Crc16From(Crc16From(Crc16From(0, a), b), c) == Crc16(a + b + c)
    ensures start + Stuff(a) + Stuff(b) + Stuff(c) == start + Stuff(a + b + c)
  {
    CrcConcat(0, a, b);
    CrcConcat(0, a + b, c);
    StuffConcat(a, b);
    StuffConcat(a + b, c);
    Bytes.Assoc(start, Stuff(a), Stuff(b));
    Bytes.Assoc(start, Stuff(a) + Stuff(b), Stuff(c));
  }
}
