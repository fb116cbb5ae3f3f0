/**
 * Frames on the wire: DLE stuffing between DLE STX and DLE ETX, followed by
 * the checksum. This file holds the wire format, the server's reader and writer
 * and the round trip between them.
 */
module Framing {
  import opened Crc

  const DLE: octet := 0x10
  const STX: octet := 0x02
  const ETX: octet := 0x03

  /** Four header bytes and at most 526 bytes of data. */
  const MAX_FRAME_SIZE: nat := 530

  function Piece(b: octet): seq<octet> {
    if b == DLE then [DLE, DLE] else [b]
  }

  function Stuff(data: seq<octet>): seq<octet> {
    if data == [] then [] else Piece(data[0]) + Stuff(data[1..])
  }

  function Low(crc: bv16): octet {
    (crc & 0xFF) as octet
  }

  function High(crc: bv16): octet {
    (crc >> 8) as octet
  }

  function Joined(low: octet, high: octet): bv16 {
    low as bv16 ^ (high as bv16 << 8)
  }

  function Trailer(crc: bv16): seq<octet> {
    [DLE, ETX, Low(crc), High(crc)]
  }

  /** The wire form of a payload. */
  function Encode(data: seq<octet>): seq<octet> {
    [DLE, STX] + Stuff(data) + Trailer(Crc16(data))
  }

  /** The shortest frame there is: start, end, and a checksum of zero. */
  lemma EmptyFrame()
    ensures Encode([]) == [0x10, 0x02, 0x10, 0x03, 0x00, 0x00]
  {
    assert Crc16([]) == 0 && Stuff([]) == [];
  }

  lemma JoinedSplit(crc: bv16)
    ensures Joined(Low(crc), High(crc)) == crc
  {
  }

  // ---- the server's reader ----

  datatype Fault = Eof | TooLarge | Malformed(marker: octet) | InvalidCrc(expected: bv16, found: bv16)

  /** A value and what is left of the stream, or the first fault. */
  datatype Reading = Good(data: seq<octet>, rest: seq<octet>) | Bad(fault: Fault)

  function Unstuff(buffer: seq<octet>, src: seq<octet>): Reading
    decreases |src|, 0
  {
    if src == [] then Bad(Eof)
    else if src[0] != DLE then Push(buffer, src[0], src[1..])
    else if |src| == 1 then Bad(Eof)
    else if src[1] == DLE then Push(buffer, DLE, src[2..])
    else if src[1] == STX then Unstuff([], src[2..])
    else if src[1] == ETX then Good(buffer, src[2..])
    else Bad(Malformed(src[1]))
  }

  function Push(buffer: seq<octet>, b: octet, src: seq<octet>): Reading
    decreases |src|, 1
  {
    if |buffer| >= MAX_FRAME_SIZE then Bad(TooLarge) else Unstuff(buffer + [b], src)
  }

  function Checked(body: Reading): Reading {
    match body
    case Bad(_) => body
    case Good(data, rest) =>
      if |rest| < 2 then Bad(Eof)
      else if Joined(rest[0], rest[1]) != Crc16(data) then Bad(InvalidCrc(Crc16(data), Joined(rest[0], rest[1])))
      else Good(data, rest[2..])
  }

  function ReadFrame(src: seq<octet>): Reading {
    Checked(Unstuff([], src))
  }

  /** The reading loop, one byte at a time into a growing buffer. */
  method ReadUnstuffed(src: seq<octet>) returns (r: Reading)
    ensures r == Unstuff([], src)
  {
    var buffer: seq<octet> := [];
    var at := 0;
    while at < |src|
      invariant 0 <= at <= |src|
      invariant Unstuff(buffer, src[at..]) == Unstuff([], src)
    {
      var b := src[at];
      assert |src[at..]| == |src| - at && src[at..][0] == b && src[at..][1..] == src[at + 1..];
      at := at + 1;
      if b != DLE {
        if |buffer| >= MAX_FRAME_SIZE { return Bad(TooLarge); }
        buffer := buffer + [b];
        continue;
      }
      if at == |src| { return Bad(Eof); }
      var marker := src[at];
      assert src[at - 1..][1] == marker && src[at - 1..][2..] == src[at + 1..];
      at := at + 1;
      if marker == DLE {
        if |buffer| >= MAX_FRAME_SIZE { return Bad(TooLarge); }
        buffer := buffer + [DLE];
      } else if marker == STX {
        buffer := [];
      } else if marker == ETX {
        return Good(buffer, src[at..]);
      } else {
        return Bad(Malformed(marker));
      }
    }
    return Bad(Eof);
  }

  method ReadFromIo(src: seq<octet>) returns (r: Reading)
    ensures r == ReadFrame(src)
  {
    var body := ReadUnstuffed(src);
    match body {
      case Bad(_) => r := body;
      case Good(buffer, rest) =>
        var bufferCrc := ComputeCrc16(buffer);
        if |rest| < 2 { return Bad(Eof); }
        var crc := Joined(rest[0], rest[1]);
        if crc != bufferCrc { return Bad(InvalidCrc(bufferCrc, crc)); }
        r := Good(buffer, rest[2..]);
    }
  }

  // ---- the server's writer ----

  lemma {:induction false} StuffConcat(a: seq<octet>, b: seq<octet>)
    ensures Stuff(a + b) == Stuff(a) + Stuff(b)
  {
    if a == [] {
      assert a + b == b;
    } else {
      assert (a + b)[0] == a[0] && (a + b)[1..] == a[1..] + b;
      StuffConcat(a[1..], b);
    }
  }

  lemma StuffOne(b: octet)
    ensures Stuff([b]) == Piece(b)
  {
    assert [b][1..] == [];
    assert Piece(b) + [] == Piece(b);
  }

  lemma StuffSnoc(data: seq<octet>, k: nat)
    requires k < |data|
    ensures Stuff(data[..k + 1]) == Stuff(data[..k]) + Piece(data[k])
  {
    assert data[..k + 1] == data[..k] + [data[k]];
    StuffConcat(data[..k], [data[k]]);
    StuffOne(data[k]);
  }

  lemma {:induction false} NothingToStuff(data: seq<octet>)
    requires DLE !in data
    ensures Stuff(data) == data
  {
    if data != [] {
      NothingToStuff(data[1..]);
      assert [data[0]] + data[1..] == data;
    }
  }

  method CountDle(data: seq<octet>) returns (count: nat)
    ensures count == 0 <==> DLE !in data
  {
    count := 0;
    for k := 0 to |data|
      invariant count == 0 <==> DLE !in data[..k]
    {
      assert data[..k + 1] == data[..k] + [data[k]];
      if data[k] == DLE { count := count + 1; }
    }
    assert data[..|data|] == data;
  }

  /** Writing skips the stuffing pass when there is nothing to stuff; the bytes are the same. */
  method WriteData(data: seq<octet>) returns (wire: seq<octet>)
    ensures wire == Encode(data)
  {
    var crc := ComputeCrc16(data);
    var count := CountDle(data);
    if count == 0 {
      NothingToStuff(data);
      return [DLE, STX] + data + Trailer(crc);
    }
    var stuffed: seq<octet> := [];
    for k := 0 to |data|
      invariant stuffed == Stuff(data[..k])
    {
      StuffSnoc(data, k);
      stuffed := stuffed + [data[k]];
      if data[k] == DLE { stuffed := stuffed + [DLE]; }
    }
    assert data[..|data|] == data;
    return [DLE, STX] + stuffed + Trailer(crc);
  }

  // ---- round trip ----

  lemma UnstuffPlain(buffer: seq<octet>, b: octet, tail: seq<octet>)
    requires b != DLE
    ensures Unstuff(buffer, [b] + tail) == Push(buffer, b, tail)
  {
    assert ([b] + tail)[0] == b && ([b] + tail)[1..] == tail;
  }

  lemma UnstuffMarker(buffer: seq<octet>, b: octet, tail: seq<octet>)
    ensures Unstuff(buffer, [DLE, b] + tail) ==
            if b == DLE then Push(buffer, DLE, tail)
            else if b == STX then Unstuff([], tail)
            else if b == ETX then Good(buffer, tail)
            else Bad(Malformed(b))
  {
    var src := [DLE, b] + tail;
    assert src[0] == DLE && src[1] == b && src[2..] == tail;
  }

  lemma UnstuffPiece(buffer: seq<octet>, b: octet, tail: seq<octet>)
    ensures Unstuff(buffer, Piece(b) + tail) == Push(buffer, b, tail)
  {
    if b == DLE { UnstuffMarker(buffer, DLE, tail); } else { UnstuffPlain(buffer, b, tail); }
  }

  /** Stuffed data is read back, or is too large, whatever follows. */
  lemma {:induction false} UnstuffStuffed(buffer: seq<octet>, data: seq<octet>, tail: seq<octet>)
    ensures Unstuff(buffer, Stuff(data) + tail) ==
            if data == [] || |buffer| + |data| <= MAX_FRAME_SIZE then Unstuff(buffer + data, tail) else Bad(TooLarge)
    decreases |data|
  {
    if data == [] {
      assert buffer + data == buffer && Stuff(data) + tail == tail;
    } else {
      var more := Stuff(data[1..]) + tail;
      assert Stuff(data) + tail == Piece(data[0]) + more;
      UnstuffPiece(buffer, data[0], more);
      assert buffer + [data[0]] + data[1..] == buffer + data;
      UnstuffStuffed(buffer + [data[0]], data[1..], tail);
    }
  }

  /** What stands before a frame start is dropped, if it fits the buffer. */
  lemma UnstuffNoise(noise: seq<octet>, tail: seq<octet>)
    requires DLE !in noise
    ensures Unstuff([], noise + ([DLE, STX] + tail)) ==
            if |noise| <= MAX_FRAME_SIZE then Unstuff([], tail) else Bad(TooLarge)
  {
    NothingToStuff(noise);
    UnstuffStuffed([], noise, [DLE, STX] + tail);
    UnstuffMarker([] + noise, STX, tail);
  }

  lemma CheckedTrailer(data: seq<octet>, crc: bv16, rest: seq<octet>)
    ensures Checked(Unstuff(data, Trailer(crc) + rest)) ==
            if crc == Crc16(data) then Good(data, rest) else Bad(InvalidCrc(Crc16(data), crc))
  {
    var end := [Low(crc), High(crc)] + rest;
    assert Trailer(crc) + rest == [DLE, ETX] + end;
    UnstuffMarker(data, ETX, end);
    assert end[0] == Low(crc) && end[1] == High(crc) && end[2..] == rest;
    JoinedSplit(crc);
  }

  lemma Regroup<T>(a: seq<T>, b: seq<T>, c: seq<T>, d: seq<T>, e: seq<T>)
    ensures a + (b + c + d) + e == a + (b + (c + (d + e)))
  {
  }

  lemma ReadBody(data: seq<octet>, crc: bv16, rest: seq<octet>)
    ensures Checked(Unstuff([], Stuff(data) + (Trailer(crc) + rest))) ==
            if |data| > MAX_FRAME_SIZE then Bad(TooLarge)
            else if crc == Crc16(data) then Good(data, rest)
            else Bad(InvalidCrc(Crc16(data), crc))
  {
    UnstuffStuffed([], data, Trailer(crc) + rest);
    assert [] + data == data;
    CheckedTrailer(data, crc, rest);
  }

  /** Any body with any checksum behind it, after noise: exactly what the reader makes of it. */
  lemma ReadAny(noise: seq<octet>, data: seq<octet>, crc: bv16, rest: seq<octet>)
    requires DLE !in noise
    ensures ReadFrame(noise + ([DLE, STX] + Stuff(data) + Trailer(crc)) + rest) ==
            if |noise| > MAX_FRAME_SIZE || |data| > MAX_FRAME_SIZE then Bad(TooLarge)
            else if crc == Crc16(data) then Good(data, rest)
            else Bad(InvalidCrc(Crc16(data), crc))
  {
    var end := Trailer(crc) + rest;
    Regroup(noise, [DLE, STX], Stuff(data), Trailer(crc), rest);
    UnstuffNoise(noise, Stuff(data) + end);
    ReadBody(data, crc, rest);
  }

  /** One frame is read back exactly when it and the noise before it fit; the rest of the stream is untouched. */
  lemma FrameRoundTrip(noise: seq<octet>, data: seq<octet>, rest: seq<octet>)
    requires DLE !in noise
    ensures ReadFrame(noise + Encode(data) + rest) == Good(data, rest)
            <==> |noise| <= MAX_FRAME_SIZE && |data| <= MAX_FRAME_SIZE
  {
    ReadAny(noise, data, Crc16(data), rest);
  }

  /** A frame cut short by the start of another is dropped, and the other is read. */
  lemma CutShortIsDropped(part: seq<octet>, data: seq<octet>, rest: seq<octet>)
    requires |part| <= MAX_FRAME_SIZE && |data| <= MAX_FRAME_SIZE
    ensures ReadFrame([DLE, STX] + (Stuff(part) + (Encode(data) + rest))) == Good(data, rest)
  {
    UnstuffMarker([], STX, Stuff(part) + (Encode(data) + rest));
    UnstuffStuffed([], part, Encode(data) + rest);
    StartsAfresh([] + part, data, rest);
    ReadBody(data, Crc16(data), rest);
  }

  lemma StartsAfresh(buffer: seq<octet>, data: seq<octet>, rest: seq<octet>)
    ensures Unstuff(buffer, Encode(data) + rest) == Unstuff([], Stuff(data) + (Trailer(Crc16(data)) + rest))
  {
    Parts([DLE, STX], Stuff(data), Trailer(Crc16(data)), rest);
    UnstuffMarker(buffer, STX, Stuff(data) + (Trailer(Crc16(data)) + rest));
  }

  lemma Parts<T>(a: seq<T>, b: seq<T>, c: seq<T>, d: seq<T>)
    ensures a + b + c + d == a + (b + (c + d))
  {
  }

  lemma WrongTrailer(data: seq<octet>, crc: bv16, rest: seq<octet>)
    requires crc != Crc16(data) && |data| <= MAX_FRAME_SIZE
    ensures ReadFrame([DLE, STX] + Stuff(data) + Trailer(crc) + rest) == Bad(InvalidCrc(Crc16(data), crc))
  {
    ReadAny([], data, crc, rest);
    assert [] + ([DLE, STX] + Stuff(data) + Trailer(crc)) == [DLE, STX] + Stuff(data) + Trailer(crc);
  }

  /** A frame whose payload was changed within two consecutive bytes never passes for another. */
  lemma DamageIsNoticed(before: seq<octet>, b0: octet, b1: octet, d0: octet, d1: octet, after: seq<octet>, rest: seq<octet>)
    requires b0 != d0 || b1 != d1
    requires |before| + 2 + |after| <= MAX_FRAME_SIZE
    ensures var sent, damaged := Crc16(before + [b0, b1] + after), before + [d0, d1] + after;
            ReadFrame([DLE, STX] + Stuff(damaged) + Trailer(sent) + rest) == Bad(InvalidCrc(Crc16(damaged), sent))
  {
    DetectsWindow(before, b0, b1, d0, d1, after);
    WrongTrailer(before + [d0, d1] + after, Crc16(before + [b0, b1] + after), rest);
  }

  // ---- whole streams ----

  /** A frame as it stands in a stream, with the noise before it. */
  datatype Sent = Sent(noise: seq<octet>, payload: seq<octet>)

  ghost predicate Clean(s: Sent) {
    DLE !in s.noise && |s.noise| <= MAX_FRAME_SIZE && |s.payload| <= MAX_FRAME_SIZE
  }

  function Wire(frames: seq<Sent>): seq<octet> {
    if frames == [] then [] else frames[0].noise + Encode(frames[0].payload) + Wire(frames[1..])
  }

  function Payloads(frames: seq<Sent>): seq<seq<octet>> {
    if frames == [] then [] else [frames[0].payload] + Payloads(frames[1..])
  }

  lemma {:induction false} UnstuffShortens(buffer: seq<octet>, src: seq<octet>)
    ensures Unstuff(buffer, src).Good? ==> |Unstuff(buffer, src).rest| < |src|
    decreases |src|
  {
    if |src| > 0 {
      if src[0] != DLE {
        UnstuffShortens(buffer + [src[0]], src[1..]);
      } else if |src| > 1 {
        UnstuffShortens(buffer + [DLE], src[2..]);
        UnstuffShortens([], src[2..]);
      }
    }
  }

  lemma ReadShortens(src: seq<octet>)
    ensures ReadFrame(src).Good? ==> |ReadFrame(src).rest| < |src|
  {
    UnstuffShortens([], src);
  }

  /** Reading frames until the first fault: the payloads, and what ended it. */
  function ReadAll(src: seq<octet>): (seq<seq<octet>>, Fault, seq<octet>)
    decreases |src|
  {
    var r := ReadFrame(src);
    if r.Bad? then ([], r.fault, src)
    else
      ReadShortens(src);
      var (more, fault, left) := ReadAll(r.rest);
      ([r.data] + more, fault, left)
  }

  /** A stream of frames is read back as exactly those frames, to its very end. */
  lemma {:induction false} StreamRoundTrip(frames: seq<Sent>)
    requires forall k :: 0 <= k < |frames| ==> Clean(frames[k])
    ensures ReadAll(Wire(frames)) == (Payloads(frames), Eof, [])
  {
    if frames != [] {
      var first, more := frames[0], frames[1..];
      FrameRoundTrip(first.noise, first.payload, Wire(more));
      StreamRoundTrip(more);
    }
  }
}
