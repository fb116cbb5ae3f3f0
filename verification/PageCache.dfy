/**
 * The client's view of one remote file: a single page in front of the remote
 * position, written back lazily, filled by pipelined reads.
 */
module PageCache {
  import opened Bytes
  import opened PlainFile
  import opened RemoteFile
  import GridFile

  const DWORD_MODULUS := 0x1_0000_0000
  /** Offset of the end of `filePosition` in a status record. */
  const POSITION_END := 7

  datatype Access = ReadAccess | WriteAccess | UpdateAccess

  datatype Error = Done | AccessDenied | RemoteRefused | OutOfSequence

  /** A word-wise block move: pairs of bytes first, then the odd byte. */
  method MoveWords(src: seq<byte>, dst: array<byte>, at: nat)
    requires at + |src| <= dst.Length
    modifies dst
    ensures dst[..] == old(dst[..at]) + src + old(dst[at + |src|..])
  {
    ghost var was := dst[..];
    var k := 0;
    while k < |src| / 2
      invariant 0 <= k <= |src| / 2
      invariant forall i :: 0 <= i < dst.Length ==> dst[i] == if at <= i < at + 2 * k then src[i - at] else was[i]
    {
      dst[at + 2 * k], dst[at + 2 * k + 1] := src[2 * k], src[2 * k + 1];
      k := k + 1;
    }
    if |src| % 2 == 1 {
      dst[at + |src| - 1] := src[|src| - 1];
    }
    assert dst[..] == was[..at] + src + was[at + |src|..];
    assert was[..at] == old(dst[..at]) && was[at + |src|..] == old(dst[at + |src|..]);
  }

  /**
   * How a page relates to the remote file `r` behind it. A dirty page waits to be written at the remote
   * position; a page that was read holds the bytes just before it, and a short one marks the end of the file.
   */
  predicate PageFits(propertyLength: nat, r: Plain, held: seq<byte>, loc: nat, dirty: bool, wasRead: bool) {
    && loc <= |held|
    && !(dirty && wasRead)
    && (!dirty && !wasRead ==> held == [])
    && (dirty ==> held != [] && WriteAllowed(propertyLength, r, held))
    && (wasRead ==>
          && held != [] && |held| <= r.pos <= |r.body|
          && held == r.body[r.pos - |held|..r.pos]
          && (|held| < PAGE_SIZE ==> r.pos == |r.body|))
  }

  /** The file seen through a page holding `held` with `loc` bytes consumed. */
  function Seen(r: Plain, held: seq<byte>, loc: nat, wasRead: bool): Plain
    requires loc <= |held| && (wasRead ==> |held| <= r.pos)
  {
    if wasRead then Plain(r.body, r.pos - (|held| - loc))
    else Plain(Overwrite(r.body, r.pos, held), r.pos + loc)
  }

  class VfsConn {
    const remote: Remote
    const page: array<byte>
    const access: Access
    const pipeLineSize: nat
    var locBuffer: nat
    var lenBuffer: nat
    var pageDirty: bool
    var pageRead: bool
    var seqNumber: word

    constructor (remote: Remote, access: Access, pipeLineSize: nat)
      requires remote.Valid() && remote.Quiet() && pipeLineSize > 0 && remote.mostInFlight <= pipeLineSize
      ensures Valid() && this.remote == remote && fresh(page)
      ensures this.access == access
      ensures Logical() == remote.now
    {
      this.remote := remote;
      this.access := access;
      this.pipeLineSize := pipeLineSize;
      page := new byte[PAGE_SIZE];
      locBuffer, lenBuffer, pageDirty, pageRead, seqNumber := 0, 0, false, false, 0;
    }

    ghost predicate Valid()
      reads this, page, remote, remote.file, remote.file.host
    {
      && remote.Valid() && remote.Quiet()
      && pipeLineSize > 0 && remote.mostInFlight <= pipeLineSize
      && page.Length == PAGE_SIZE && lenBuffer <= PAGE_SIZE
      && PageFits(PropertyLength(), remote.now, page[..lenBuffer], locBuffer, pageDirty, pageRead)
    }

    /** The file the user of the connection sees. */
    ghost function Logical(): Plain
      reads this, page, remote, remote.file, remote.file.host
      requires Valid()
    {
      Seen(remote.now, page[..lenBuffer], locBuffer, pageRead)
    }

    ghost function PropertyLength(): nat
      reads this, remote, remote.file
    {
      remote.file.header.propertyLength
    }

    /** The logical body keeps the length range of a stored file. */
    lemma LogicalLength()
      requires Valid()
      ensures LengthAllowed(PropertyLength(), |Logical().body|)
      ensures Logical().pos <= HOST_MAX_OFFSET - HEADER_LENGTH
    {
    }

    method ClearBuffer()
      requires remote.Valid() && remote.Quiet() && page.Length == PAGE_SIZE
      requires pipeLineSize > 0 && remote.mostInFlight <= pipeLineSize
      modifies this`locBuffer, this`lenBuffer, this`pageDirty, this`pageRead
      ensures Valid() && !pageDirty && !pageRead && lenBuffer == 0
      ensures Logical() == remote.now
    {
      locBuffer, lenBuffer, pageDirty, pageRead := 0, 0, false, false;
    }

    /** After a flush the remote file is the logical file, position included. */
    method LocalFlush() returns (error: Error)
      requires Valid()
      modifies this`locBuffer, this`lenBuffer, this`pageDirty, this`pageRead, remote, remote.file, remote.file.host
      ensures Valid() && !pageDirty && !pageRead && lenBuffer == 0
      ensures error == Done
      ensures remote.file.header == old(remote.file.header)
      ensures Logical() == old(Logical()) && remote.now == old(Logical())
    {
      LogicalLength();
      error := Done;
      if pageDirty {
        var ok := remote.Write(page[..lenBuffer]);
        error := if ok then Done else RemoteRefused;
      }
      var count := lenBuffer - locBuffer;
      if count > 0 {
        var ok := remote.Seek(Backward, count);
        error := if ok then Done else RemoteRefused;
      }
      ClearBuffer();
    }

    /** Moves user bytes into the page and marks it dirty. */
    method PutIn(chunk: seq<byte>)
      requires page.Length == PAGE_SIZE && locBuffer <= lenBuffer <= PAGE_SIZE && locBuffer + |chunk| <= PAGE_SIZE
      modifies this`locBuffer, this`lenBuffer, this`pageDirty, page
      ensures locBuffer == old(locBuffer) + |chunk| && lenBuffer == Max(old(lenBuffer), locBuffer) && pageDirty
      ensures page[..lenBuffer] == Spliced(old(page[..]), old(locBuffer), chunk)[..lenBuffer]
    {
      MoveWords(chunk, page, locBuffer);
      assert page[..] == Spliced(old(page[..]), old(locBuffer), chunk);
      locBuffer := locBuffer + |chunk|;
      pageDirty := true;
      if locBuffer > lenBuffer { lenBuffer := locBuffer; }
      assert page[..lenBuffer] == page[..][..lenBuffer];
    }

    /** Puts user bytes into the page at the current location. */
    method FillPage(chunk: seq<byte>)
      requires Valid() && !pageRead
      requires 0 < lenBuffer || chunk != []
      requires locBuffer + |chunk| <= PAGE_SIZE
      requires WriteAllowed(PropertyLength(), Logical(), chunk)
      modifies this`locBuffer, this`lenBuffer, this`pageDirty, page
      ensures Valid() && !pageRead
      ensures Logical() == AfterWrite(old(Logical()), chunk)
    {
      ghost var r, held, spare, at := remote.now, page[..lenBuffer], page[lenBuffer..], locBuffer;
      assert page[..] == held + spare;
      ghost var filled := Spliced(held + spare, at, chunk)[..Max(|held|, at + |chunk|)];
      assert Seen(r, filled, at + |chunk|, false) == AfterWrite(Seen(r, held, at, false), chunk)
             && WriteAllowed(PropertyLength(), r, filled) by {
        FilledPage(PropertyLength(), r, held, spare, at, chunk);
      }
      PutIn(chunk);
      assert page[..lenBuffer] == filled;
    }

    /** Fills up a page that is in use, or starts one with the last bytes of a write. */
    method WriteLocal(data: seq<byte>) returns (rest: seq<byte>)
      requires Valid() && !pageRead && data != []
      requires WriteAllowed(PropertyLength(), Logical(), data)
      modifies this`locBuffer, this`lenBuffer, this`pageDirty, page
      ensures Valid() && !pageRead
      ensures |rest| == |data| - Min(|data|, PAGE_SIZE - old(locBuffer))
      ensures WriteAllowed(PropertyLength(), Logical(), rest)
      ensures AfterWrite(Logical(), rest) == AfterWrite(old(Logical()), data)
    {
      var amount := Min(|data|, PAGE_SIZE - locBuffer);
      LogicalLength();
      WriteFirst(PropertyLength(), Logical(), data, amount);
      FillPage(data[..amount]);
      rest := data[amount..];
    }

    /** Writes whole pages past the empty buffer until at most one page is left. */
    method WritePages(data: seq<byte>) returns (rest: seq<byte>)
      requires Valid() && lenBuffer == 0
      requires WriteAllowed(PropertyLength(), Logical(), data)
      modifies remote, remote.file, remote.file.host
      ensures Valid() && lenBuffer == 0 && !pageRead && PropertyLength() == old(PropertyLength())
      ensures |rest| <= PAGE_SIZE && |rest| <= |data|
      ensures WriteAllowed(PropertyLength(), Logical(), rest)
      ensures AfterWrite(Logical(), rest) == AfterWrite(old(Logical()), data)
    {
      var ok;
      rest, ok := remote.WritePages(data);
    }

    /** One turn of a write: the page first, then whole pages, so that the second turn takes the rest. */
    method WriteTurn(data: seq<byte>, secondTime: bool) returns (rest: seq<byte>)
      requires Valid() && data != [] && WriteAllowed(PropertyLength(), Logical(), data)
      requires secondTime ==> lenBuffer == 0 && !pageRead && |data| <= PAGE_SIZE
      modifies this, page, remote, remote.file, remote.file.host
      ensures Valid() && PropertyLength() == old(PropertyLength())
      ensures WriteAllowed(PropertyLength(), Logical(), rest)
      ensures AfterWrite(Logical(), rest) == AfterWrite(old(Logical()), data)
      ensures rest != [] ==> !secondTime && lenBuffer == 0 && !pageRead && |rest| <= PAGE_SIZE
      ensures |rest| <= |data|
    {
      var error := Done;
      if pageRead {
        error := LocalFlush();
      }
      rest := data;
      if secondTime || locBuffer > 0 {
        rest := WriteLocal(rest);
        if rest == [] { return; }
      }
      error := LocalFlush();
      rest := WritePages(rest);
    }

    method FsWrite(data: seq<byte>) returns (error: Error)
      requires Valid() && |data| < WORD_MODULUS
      requires access != ReadAccess ==> WriteAllowed(PropertyLength(), Logical(), data)
      modifies this, page, remote, remote.file, remote.file.host
      ensures Valid() && PropertyLength() == old(PropertyLength())
      ensures error == if access == ReadAccess then AccessDenied else Done
      ensures Logical() == if error == Done then AfterWrite(old(Logical()), data) else old(Logical())
    {
      if access == ReadAccess { return AccessDenied; }
      var secondTime := false;
      error := Done;
      var rest := data;
      while rest != []
        invariant Valid() && PropertyLength() == old(PropertyLength())
        invariant error == Done
        invariant WriteAllowed(PropertyLength(), Logical(), rest)
        invariant AfterWrite(Logical(), rest) == AfterWrite(old(Logical()), data)
        invariant secondTime && rest != [] ==> lenBuffer == 0 && !pageRead && |rest| <= PAGE_SIZE
        decreases |rest|, !secondTime
      {
        rest := WriteTurn(rest, secondTime);
        secondTime := true;
      }
    }

    /** The page is empty. */
    ghost predicate Empty()
      reads this
    {
      locBuffer == 0 && lenBuffer == 0 && !pageDirty && !pageRead
    }

    /** `data` answers a read of `need` bytes from `f`, and the page stands right before remote state `r`. */
    ghost predicate ReadComplete(f: Plain, need: nat, data: seq<byte>, r: Plain)
      reads this, page
      requires page.Length == PAGE_SIZE
    {
      && r.body == f.body && data == ReadBytes(f, need) && lenBuffer <= PAGE_SIZE
      && PageFits(0, r, page[..lenBuffer], locBuffer, false, pageRead) && !pageDirty
      && r.pos - (lenBuffer - locBuffer) == f.pos + |data|
    }

    /** Copies a reply into the page, rounding the move up to whole words. */
    method StorePage(d: seq<byte>)
      requires page.Length == PAGE_SIZE && |d| <= PAGE_SIZE
      modifies page
      ensures page[..|d|] == d
    {
      MoveWords(d, page, 0);
      assert page[..|d|] == page[..][..|d|] == d;
      if |d| % 2 == 1 {
        page[|d|] := *;
      }
    }

    /** Hands a reply to the user, keeping what is not wanted yet in the page. */
    method TakeReply(d: seq<byte>, want: nat, data: seq<byte>,
                     ghost f: Plain, ghost need: nat, ghost got: nat, ghost sent: nat)
      returns (all: seq<byte>)
      requires page.Length == PAGE_SIZE && Empty()
      requires d == ReadBytes(AfterPages(f, got), PAGE_SIZE) && PrefixRead(f, got, data)
      requires got < sent && PAGE_SIZE * (sent - 1) < need && want == need - PAGE_SIZE * got
      modifies this`locBuffer, this`lenBuffer, this`pageRead, page
      ensures |d| < PAGE_SIZE || want <= PAGE_SIZE ==> ReadComplete(f, need, all, AfterPages(f, sent))
      ensures |d| == PAGE_SIZE && want > PAGE_SIZE ==> Empty() && PrefixRead(f, got + 1, all)
    {
      if |d| <= want {
        all := data + d;
        if |d| < PAGE_SIZE { ShortTaken(f, need, got, sent, data, d); } else { FullTaken(f, need, got, sent, data, d); }
      } else {
        LastTaken(f, need, got, sent, data, d);
        StorePage(d);
        all := data + page[..want];
        assert page[..want] == page[..|d|][..want];
        locBuffer, lenBuffer, pageRead := want, |d|, true;
      }
    }

    /** The request side of a read of `need` bytes: what was asked for and what is outstanding. */
    ghost predicate Requesting(need: nat, bytesToBeRequested: nat, outstanding: int)
      reads this, remote, remote.file, remote.file.host
    {
      && remote.Valid() && remote.mostInFlight <= pipeLineSize && pipeLineSize > 0
      && outstanding == remote.sent - remote.got <= pipeLineSize
      && Next(seqNumber) == NoteAt(remote.firstNote, remote.sent)
      && bytesToBeRequested == Max(0, need - PAGE_SIZE * remote.sent)
      && PAGE_SIZE * (remote.sent - 1) < need
    }

    /** Sends a request if something is left to ask for and the pipeline has room. */
    method SendNext(need: nat, toBeRequested: nat, inFlight: nat) returns (bytesToBeRequested: nat, outstanding: nat)
      requires Requesting(need, toBeRequested, inFlight) && PAGE_SIZE * remote.got < need
      modifies this`seqNumber, remote`pending, remote`mostInFlight, remote`sent
      ensures Requesting(need, bytesToBeRequested, outstanding) && outstanding > 0
      ensures if toBeRequested > 0 && inFlight < pipeLineSize
              then bytesToBeRequested < toBeRequested
              else bytesToBeRequested == toBeRequested && outstanding == inFlight
    {
      bytesToBeRequested, outstanding := toBeRequested, inFlight;
      if bytesToBeRequested > 0 && outstanding < pipeLineSize {
        seqNumber := Next(seqNumber);
        remote.SendRead(seqNumber);
        bytesToBeRequested := if bytesToBeRequested < PAGE_SIZE then 0 else bytesToBeRequested - PAGE_SIZE;
        outstanding := outstanding + 1;
      }
    }

    /** One turn of the loop: maybe send, then wait if nothing more can be sent, or else just look for a reply. */
    method RequestTurn(need: nat, toBeRequested: nat, inFlight: nat)
      returns (bytesToBeRequested: nat, outstanding: nat, reply: Option<Reply>)
      requires Requesting(need, toBeRequested, inFlight) && PAGE_SIZE * remote.got < need
      modifies this`seqNumber, remote, remote.file, remote.file.host
      ensures Requesting(need, bytesToBeRequested, outstanding) && PropertyLength() == old(PropertyLength())
      ensures remote.origin == old(remote.origin) && remote.firstNote == old(remote.firstNote)
      ensures bytesToBeRequested < toBeRequested || (bytesToBeRequested == toBeRequested && outstanding < inFlight)
      ensures reply.Some? ==> reply.value == ReplyTo(remote.origin, remote.firstNote, old(remote.got))
      ensures reply.Some? ==> remote.got == old(remote.got) + 1
      ensures reply.None? ==> remote.got == old(remote.got)
    {
      bytesToBeRequested, outstanding := SendNext(need, toBeRequested, inFlight);
      var turns: nat, arrived: bool := *, *;
      if outstanding == pipeLineSize || bytesToBeRequested == 0 {
        var next := remote.Await(turns);
        reply := Some(next);
        outstanding := outstanding - 1;
      } else {
        reply := remote.Poll(turns, arrived);
        if reply.Some? { outstanding := outstanding - 1; }
      }
    }

    /** Between two turns: `data` is what the replies taken so far hold. */
    ghost predicate Streaming(f: Plain, need: nat, bytesToBeRequested: nat, outstanding: int, bytesToBeRead: int, expected: word, data: seq<byte>)
      reads this, remote, remote.file, remote.file.host
    {
      && Requesting(need, bytesToBeRequested, outstanding) && remote.origin == f && Empty()
      && expected == NoteAt(remote.firstNote, remote.got)
      && bytesToBeRead == need - PAGE_SIZE * remote.got > 0
      && PrefixRead(f, remote.got, data)
    }

    /** The replies left in flight can only be empty, and the read is complete once they are taken. */
    ghost predicate Streamed(f: Plain, need: nat, outstanding: int, data: seq<byte>)
      reads this, page, remote, remote.file, remote.file.host
      requires page.Length == PAGE_SIZE
    {
      && remote.Valid() && remote.mostInFlight <= pipeLineSize && remote.origin == f
      && outstanding == remote.sent - remote.got
      && ReadComplete(f, need, data, AfterPages(f, remote.sent))
    }

    /** A reply with the expected note: take it and see whether the read goes on. */
    method StreamReply(reply: Reply, need: nat, toBeRequested: nat, inFlight: nat, toBeRead: nat, data: seq<byte>, ghost f: Plain, ghost got: nat)
      returns (bytesToBeRead: nat, all: seq<byte>, finished: bool)
      requires page.Length == PAGE_SIZE && Empty() && Requesting(need, toBeRequested, inFlight) && remote.origin == f
      requires remote.got == got + 1 && reply == ReplyTo(f, remote.firstNote, got)
      requires toBeRead == need - PAGE_SIZE * got > 0 && PrefixRead(f, got, data)
      modifies this`locBuffer, this`lenBuffer, this`pageRead, page
      ensures if finished then Streamed(f, need, inFlight, all)
              else Streaming(f, need, toBeRequested, inFlight, bytesToBeRead, NoteAt(remote.firstNote, got + 1), all)
    {
      var d := reply.data;
      bytesToBeRead := toBeRead;
      assert bytesToBeRead <= PAGE_SIZE <==> inFlight == 0 && toBeRequested == 0;
      all := TakeReply(d, bytesToBeRead, data, f, need, got, remote.sent);
      if |d| <= bytesToBeRead { bytesToBeRead := bytesToBeRead - |d|; }
      finished := |d| < PAGE_SIZE || (inFlight == 0 && toBeRequested == 0);
    }

    /** The pipelined loop: whatever the timing, it ends with the read complete. */
    method Stream(need: word) returns (error: Error, data: seq<byte>, outstanding: nat)
      requires remote.Valid() && remote.Quiet() && remote.mostInFlight <= pipeLineSize
      requires pipeLineSize > 0 && page.Length == PAGE_SIZE && Empty() && need > 0
      modifies this, page, remote, remote.file, remote.file.host
      ensures error == Done && PropertyLength() == old(PropertyLength())
      ensures Streamed(old(remote.now), need, outstanding, data)
    {
      ghost var f := remote.now;
      error, data, outstanding := Done, [], 0;
      var bytesToBeRequested: nat, bytesToBeRead: nat := need, need;
      var expected := Next(seqNumber);
      remote.Begin(expected);
      while true
        invariant Streaming(f, need, bytesToBeRequested, outstanding, bytesToBeRead, expected, data)
        invariant PropertyLength() == old(PropertyLength()) && error == Done
        decreases bytesToBeRequested, outstanding
      {
        ghost var got := remote.got;
        var reply;
        bytesToBeRequested, outstanding, reply := RequestTurn(need, bytesToBeRequested, outstanding);
        if reply.Some? {
          if reply.value.note != expected {
            error := OutOfSequence;
            break;
          }
          expected := Next(expected);
          var finished;
          bytesToBeRead, data, finished := StreamReply(reply.value, need, bytesToBeRequested, outstanding, bytesToBeRead, data, f, got);
          if finished { break; }
        }
      }
    }

    /** Reads `need` bytes from the remote position with several requests in flight. */
    method ReadRemote(need: word) returns (error: Error, data: seq<byte>)
      requires Valid() && lenBuffer == 0 && need > 0
      modifies this, page, remote, remote.file, remote.file.host
      ensures Valid() && PropertyLength() == old(PropertyLength())
      ensures error == Done
      ensures data == ReadBytes(old(Logical()), need)
      ensures Logical() == AfterRead(old(Logical()), need)
    {
      var outstanding;
      error, data, outstanding := Stream(need);
      remote.Drain(outstanding);
    }

    /** Takes what the page still holds, dirty or read, up to `n` bytes. */
    method TakeLocal(n: nat, ghost f: Plain) returns (data: seq<byte>)
      requires Valid() && f == Logical()
      modifies this`locBuffer
      ensures Valid() && data == ReadBytes(f, |data|)
      ensures |data| == Min(n, lenBuffer - old(locBuffer))
      ensures Logical() == AfterRead(f, |data|)
    {
      var amount := Min(n, lenBuffer - locBuffer);
      var held := page[..lenBuffer];
      data := held[locBuffer..locBuffer + amount];
      TakenFromPage(remote.now, held, locBuffer, amount, pageRead);
      locBuffer := locBuffer + amount;
      assert page[..lenBuffer] == held;
    }

    method FsRead(n: word) returns (error: Error, data: seq<byte>)
      requires Valid()
      modifies this, page, remote, remote.file, remote.file.host
      ensures Valid() && PropertyLength() == old(PropertyLength())
      ensures error == if n > 0 && access == WriteAccess then AccessDenied else Done
      ensures error == Done ==> data == ReadBytes(old(Logical()), n) && Logical() == AfterRead(old(Logical()), n)
      ensures error != Done ==> data == [] && Logical() == old(Logical())
    {
      if n == 0 { return Done, []; }
      if access == WriteAccess { return AccessDenied, []; }
      error, data := ReadThrough(n);
    }

    /** What the page holds first, then the remote file. */
    method ReadThrough(n: word) returns (error: Error, data: seq<byte>)
      requires Valid()
      modifies this, page, remote, remote.file, remote.file.host
      ensures Valid() && PropertyLength() == old(PropertyLength())
      ensures error == Done
      ensures data == ReadBytes(old(Logical()), n) && Logical() == AfterRead(old(Logical()), n)
    {
      ghost var f := Logical();
      data := TakeLocal(n, f);
      error := Done;
      if |data| < n {
        error, data := ReadRest(n, data, f);
      }
    }

    /** The bytes taken from the page and the bytes behind them are one read. */
    method ReadRest(n: word, first: seq<byte>, ghost f: Plain) returns (error: Error, data: seq<byte>)
      requires Valid() && locBuffer == lenBuffer && |first| < n
      requires first == ReadBytes(f, |first|) && Logical() == AfterRead(f, |first|)
      modifies this, page, remote, remote.file, remote.file.host
      ensures Valid() && PropertyLength() == old(PropertyLength())
      ensures error == Done && data == ReadBytes(f, n) && Logical() == AfterRead(f, n)
    {
      ReadSplit(f, |first|, n - |first|);
      var more;
      error, more := ReadOn(n - |first|, AfterRead(f, |first|));
      data := first + more;
    }

    /** Goes on reading once the page is used up. */
    method ReadOn(n: word, ghost f: Plain) returns (error: Error, data: seq<byte>)
      requires Valid() && locBuffer == lenBuffer && n > 0 && f == Logical()
      modifies this, page, remote, remote.file, remote.file.host
      ensures Valid() && PropertyLength() == old(PropertyLength())
      ensures error == Done
      ensures data == ReadBytes(f, n) && Logical() == AfterRead(f, n)
    {
      if pageRead && lenBuffer < PAGE_SIZE { return Done, []; }
      error := LocalFlush();
      error, data := ReadRemote(n);
    }

    /** Writes a dirty page back before a seek, leaving the page as it is. */
    method FlushForSeek() returns (ok: bool)
      requires Valid()
      modifies remote, remote.file, remote.file.host
      ensures ok && remote.Valid() && remote.Quiet() && PropertyLength() == old(PropertyLength())
      ensures remote.mostInFlight == old(remote.mostInFlight)
      ensures remote.now == Plain(old(Logical()).body, old(Logical()).pos + (lenBuffer - locBuffer))
    {
      ok := true;
      if pageDirty {
        // a page that was read as well would have to be sought back over first; there is no such page
        ok := remote.Write(page[..lenBuffer]);
      }
    }

    /** The seek can be done by moving within the page. */
    predicate SeekIsLocal(mode: SeekMode, position: nat)
      reads this
    {
      || (mode == Backward && position <= locBuffer)
      || (mode == Forward && position <= lenBuffer - locBuffer)
    }

    /**
     * A seek behaves like the plain one exactly when it stays in the page, or the page is used up, or the
     * distance to the far end of the page still fits in 32 bits and the plain seek would have succeeded.
     * In the remaining cases the page is thrown away although the position it stood for was not reached.
     */
    method FsSeek(mode: SeekMode, position: GridFile.u32) returns (error: Error)
      requires Valid()
      modifies this, remote, remote.file, remote.file.host
      ensures Valid() && PropertyLength() == old(PropertyLength())
      ensures Logical().body == old(Logical()).body
      ensures error == Done || error == RemoteRefused
      ensures error != Done ==> lenBuffer == 0
      ensures SeekAgrees(error == Done, Logical(), old(Logical()), mode, position)
         <==> old(SeekIsLocal(mode, position)) || SeekReaches(old(Logical()), old(lenBuffer - locBuffer), mode, position)
    {
      if SeekIsLocal(mode, position) {
        SeekInPage(mode, position);
        return Done;
      }
      error := SeekRemote(mode, position);
    }

    /** The seek that stays in the page only moves the location in it. */
    method SeekInPage(mode: SeekMode, position: GridFile.u32)
      requires Valid() && SeekIsLocal(mode, position)
      modifies this`locBuffer
      ensures Valid() && SeekAgrees(true, Logical(), old(Logical()), mode, position)
    {
      LogicalLength();
      locBuffer := if mode == Backward then locBuffer - position else locBuffer + position;
    }

    /** The seek that leaves the page: write it back, move the remote position, drop the page. */
    method SeekRemote(mode: SeekMode, position: GridFile.u32) returns (error: Error)
      requires Valid() && !SeekIsLocal(mode, position)
      modifies this, remote, remote.file, remote.file.host
      ensures Valid() && PropertyLength() == old(PropertyLength())
      ensures Logical().body == old(Logical()).body
      ensures error == Done || error == RemoteRefused
      ensures error != Done ==> lenBuffer == 0
      ensures SeekAgrees(error == Done, Logical(), old(Logical()), mode, position)
         <==> SeekReaches(old(Logical()), old(lenBuffer - locBuffer), mode, position)
    {
      ghost var f := Logical();
      LogicalLength();
      var ok := FlushForSeek();
      error := MoveRemote(mode, position, f);
    }

    /** Moves the remote position, which is as far ahead of the logical one as the page is unread. */
    method MoveRemote(mode: SeekMode, position: GridFile.u32, ghost f: Plain) returns (error: Error)
      requires remote.Valid() && remote.Quiet() && page.Length == PAGE_SIZE
      requires pipeLineSize > 0 && remote.mostInFlight <= pipeLineSize
      requires locBuffer <= lenBuffer <= PAGE_SIZE && (!pageDirty && !pageRead ==> lenBuffer == 0)
      requires remote.now == Plain(f.body, f.pos + (lenBuffer - locBuffer))
      requires mode == Forward ==> position > lenBuffer - locBuffer
      modifies this, remote, remote.file, remote.file.host
      ensures Valid() && PropertyLength() == old(PropertyLength()) && Logical().body == f.body
      ensures error == Done || error == RemoteRefused
      ensures error != Done ==> lenBuffer == 0
      ensures SeekAgrees(error == Done, Logical(), f, mode, position)
         <==> SeekReaches(f, old(lenBuffer - locBuffer), mode, position)
    {
      var ahead := lenBuffer - locBuffer;
      SeekExact(f, ahead, mode, position);
      var distance := if mode == Backward && !pageDirty && !pageRead then position else Distance(ahead, mode, position);
      assert distance == Distance(ahead, mode, position);
      var ok := remote.Seek(mode, distance);
      error := if ok then Done else RemoteRefused;
      ClearBuffer();
    }

    /** Reports position and length; the position is moved back by what the page is ahead. */
    method FsGetStatus(length: nat) returns (error: Error, position: int, fileLength: nat)
      requires Valid()
      modifies this, remote, remote.file, remote.file.host
      ensures Valid() && PropertyLength() == old(PropertyLength()) && Logical() == old(Logical())
      ensures error == Done <==> Logical().pos <= U32_MAX && |Logical().body| <= U32_MAX
      ensures error == Done ==> fileLength == |Logical().body|
      ensures error == Done && length >= POSITION_END ==> position == Logical().pos
    {
      if pageDirty {
        error := LocalFlush();
      }
      var status := remote.Status();
      if status.None? { return RemoteRefused, 0, 0; }
      error, position, fileLength := Done, status.value.0, status.value.1;
      if pageRead && length >= POSITION_END {
        position := position - (lenBuffer - locBuffer);
      }
    }

    method FsTruncate() returns (error: Error)
      requires Valid()
      modifies this, remote, remote.file, remote.file.host
      ensures Valid() && PropertyLength() == old(PropertyLength())
      ensures access == ReadAccess ==> error == AccessDenied && Logical() == old(Logical())
      ensures access != ReadAccess ==>
                && lenBuffer == 0
                && error == (if LengthAllowed(PropertyLength(), old(Logical()).pos) then Done else RemoteRefused)
                && Logical() == AfterTruncate(PropertyLength(), old(Logical()))
    {
      if access == ReadAccess { return AccessDenied; }
      error := LocalFlush();
      var ok := remote.Truncate();
      error := if ok then Done else RemoteRefused;
    }

    /** Closing leaves every logical byte in the remote file; the position is given up. */
    method LocalClose() returns (error: Error)
      requires Valid()
      modifies this, remote, remote.file, remote.file.host
      ensures Valid() && error == Done && lenBuffer == 0 && PropertyLength() == old(PropertyLength())
      ensures remote.now.body == old(Logical()).body
    {
      if pageDirty {
        error := LocalFlush();
      } else {
        error := Done;
        ClearBuffer();
      }
    }
  }

  /** How far the remote position has to move when it stands `ahead` of the logical one, in 32 bits. */
  function Distance(ahead: nat, mode: SeekMode, position: nat): int {
    match mode
    case Backward =>
      if position + ahead >= DWORD_MODULUS then position + ahead - DWORD_MODULUS else position + ahead
    case Forward => position - ahead
    case Absolute => position
    case FromEnd => position
  }

  /** The seek of `f` that ended in `g` has the outcome and the effect of a plain seek. */
  predicate SeekAgrees(ok: bool, g: Plain, f: Plain, mode: SeekMode, position: nat) {
    ok == SeekAllowed(f, mode, position) && g == AfterSeek(f, mode, position)
  }

  /** When a seek through the remote position ends where a plain seek does. */
  predicate SeekReaches(f: Plain, ahead: nat, mode: SeekMode, position: nat) {
    || ahead == 0
    || ((mode == Backward ==> position + ahead < DWORD_MODULUS) && SeekAllowed(f, mode, position))
  }

  lemma SeekExact(f: Plain, ahead: nat, mode: SeekMode, position: nat)
    requires ahead <= PAGE_SIZE && position < DWORD_MODULUS && f.pos + ahead <= HOST_MAX_OFFSET - HEADER_LENGTH
    requires mode == Forward ==> position > ahead
    ensures Distance(ahead, mode, position) >= 0
    ensures var r := Plain(f.body, f.pos + ahead);
            var d := Distance(ahead, mode, position);
            SeekAgrees(SeekAllowed(r, mode, d), AfterSeek(r, mode, d), f, mode, position)
            <==> SeekReaches(f, ahead, mode, position)
  {
  }

  /** A seek before the start of the file, refused either way, moves the position from 3 to 10 when seven bytes of the page are unread. */
  lemma RefusedSeekLosesPosition(body: seq<byte>)
    requires |body| == 10
    ensures var f, r := Plain(body, 3), Plain(body, 10);
            var d := Distance(7, Backward, 5);
            && !SeekReaches(f, 7, Backward, 5)
            && !SeekAllowed(f, Backward, 5) && !SeekAllowed(r, Backward, d)
            && AfterSeek(f, Backward, 5) == f && AfterSeek(r, Backward, d) == r
  {
  }

  lemma TakenFromRead(r: Plain, held: seq<byte>, loc: nat, amount: nat)
    requires loc + amount <= |held| <= r.pos <= |r.body| && held == r.body[r.pos - |held|..r.pos]
    ensures ReadBytes(Seen(r, held, loc, true), amount) == held[loc..loc + amount]
  {
    var p := r.pos - |held| + loc;
    assert r.body[p..p + amount] == held[loc..loc + amount];
  }

  lemma TakenFromDirty(r: Plain, held: seq<byte>, loc: nat, amount: nat)
    requires loc + amount <= |held|
    ensures ReadBytes(Seen(r, held, loc, false), amount) == held[loc..loc + amount]
  {
    if amount > 0 {
      var body, p := Overwrite(r.body, r.pos, held), r.pos + loc;
      var got, wanted := body[p..p + amount], held[loc..loc + amount];
      forall i | 0 <= i < amount ensures got[i] == wanted[i] {
        assert ByteAt(body, p + i) == Overlay(r.body, r.pos, held, p + i);
      }
    }
  }

  /** Consuming bytes of the page, read or dirty, is reading them from the file seen through it. */
  lemma TakenFromPage(r: Plain, held: seq<byte>, loc: nat, amount: nat, wasRead: bool)
    requires loc + amount <= |held|
    requires wasRead ==> |held| <= r.pos <= |r.body| && held == r.body[r.pos - |held|..r.pos]
    ensures ReadBytes(Seen(r, held, loc, wasRead), amount) == held[loc..loc + amount]
    ensures Seen(r, held, loc + amount, wasRead) == AfterRead(Seen(r, held, loc, wasRead), amount)
  {
    if wasRead { TakenFromRead(r, held, loc, amount); } else { TakenFromDirty(r, held, loc, amount); }
    assert |held[loc..loc + amount]| == amount;
  }

  /** Reading in two pieces is reading at once. */
  lemma ReadSplit(f: Plain, a: nat, b: nat)
    requires |ReadBytes(f, a)| == a
    ensures ReadBytes(f, a) + ReadBytes(AfterRead(f, a), b) == ReadBytes(f, a + b)
    ensures AfterRead(AfterRead(f, a), b) == AfterRead(f, a + b)
  {
    ClipConcat(f.body, f.pos, f.pos + a, f.pos + a + b);
  }

  /** The first `k` pages were all there, and `data` is what they hold. */
  ghost predicate PrefixRead(f: Plain, k: nat, data: seq<byte>) {
    && data == Clip(f.body, f.pos, f.pos + PAGE_SIZE * k)
    && (k > 0 ==> f.pos + PAGE_SIZE * k <= |f.body|)
  }

  /** Where `k` page reads from `pos` leave the position. */
  function Stop(body: seq<byte>, pos: nat, k: nat): nat {
    if pos >= |body| then pos else Min(pos + PAGE_SIZE * k, |body|)
  }

  /** The `got`-th reply of a read of `need` bytes at `pos`, with `sent` requests made, and what came before it. */
  ghost predicate InRead(body: seq<byte>, pos: nat, need: nat, got: nat, sent: nat, data: seq<byte>, d: seq<byte>) {
    && got < sent && PAGE_SIZE * (sent - 1) < need
    && data == Clip(body, pos, pos + PAGE_SIZE * got) && (got > 0 ==> pos + PAGE_SIZE * got <= |body|)
    && d == Clip(body, pos + PAGE_SIZE * got, pos + PAGE_SIZE * (got + 1))
  }

  /** A reply longer than what is wanted answers the last request and ends where the remote position is. */
  lemma Overshoot(body: seq<byte>, pos: nat, need: nat, got: nat, sent: nat, data: seq<byte>, d: seq<byte>)
    requires InRead(body, pos, need, got, sent, data, d) && |d| > need - PAGE_SIZE * got
    ensures var p := pos + PAGE_SIZE * got;
            && sent == got + 1 && Stop(body, pos, sent) == p + |d| <= |body| && d == body[p..p + |d|]
            && (|d| < PAGE_SIZE ==> p + |d| == |body|)
  {
  }

  /** Its page mirrors the file, and what was wanted of it completes the read. */
  lemma LastReply(body: seq<byte>, pos: nat, need: nat, got: nat, sent: nat, data: seq<byte>, d: seq<byte>)
    requires InRead(body, pos, need, got, sent, data, d) && |d| > need - PAGE_SIZE * got
    ensures var want, stop := need - PAGE_SIZE * got, Stop(body, pos, sent);
            && sent == got + 1 && data + d[..want] == Clip(body, pos, pos + need)
            && |d| <= stop <= |body| && d == body[stop - |d|..stop]
            && (|d| < PAGE_SIZE ==> stop == |body|)
            && stop - (|d| - want) == pos + need
  {
    Overshoot(body, pos, need, got, sent, data, d);
    JoinSlices(body, pos, pos + PAGE_SIZE * got, pos + need, data, d);
  }

  lemma JoinSlices(s: seq<byte>, a: nat, b: nat, c: nat, data: seq<byte>, d: seq<byte>)
    requires a <= b <= c <= b + |d| <= |s| && data == Clip(s, a, b) && d == s[b..b + |d|]
    ensures data + d[..c - b] == Clip(s, a, c)
  {
    assert d[..c - b] == s[b..c];
  }

  /** A full page extends what was read; if it was the last one wanted, the read is complete. */
  lemma FullReply(body: seq<byte>, pos: nat, need: nat, got: nat, sent: nat, data: seq<byte>, d: seq<byte>)
    requires InRead(body, pos, need, got, sent, data, d) && |d| == PAGE_SIZE
    ensures data + d == Clip(body, pos, pos + PAGE_SIZE * (got + 1)) && pos + PAGE_SIZE * (got + 1) <= |body|
    ensures need == PAGE_SIZE * (got + 1) ==> Stop(body, pos, sent) == pos + need
  {
    ClipConcat(body, pos, pos + PAGE_SIZE * got, pos + PAGE_SIZE * (got + 1));
  }

  /** A short reply is the end of the file: nothing in flight can move the position further. */
  lemma ShortReply(body: seq<byte>, pos: nat, need: nat, got: nat, sent: nat, data: seq<byte>, d: seq<byte>)
    requires InRead(body, pos, need, got, sent, data, d)
    requires |d| < PAGE_SIZE && |d| <= need - PAGE_SIZE * got
    ensures data + d == Clip(body, pos, pos + need)
    ensures Stop(body, pos, sent) == pos + |Clip(body, pos, pos + need)|
  {
    var p := pos + PAGE_SIZE * got;
    ClipConcat(body, pos, p, p + PAGE_SIZE);
    assert Clip(body, pos, p + PAGE_SIZE) == Clip(body, pos, pos + need);
  }

  lemma InReadOf(f: Plain, need: nat, got: nat, sent: nat, data: seq<byte>, d: seq<byte>)
    requires ReplyIn(f, need, got, sent, data, d)
    ensures InRead(f.body, f.pos, need, got, sent, data, d)
    ensures AfterPages(f, sent) == f.(pos := Stop(f.body, f.pos, sent))
  {
    AfterPagesPosition(f, got);
    AfterPagesPosition(f, sent);
  }

  ghost predicate ReplyIn(f: Plain, need: nat, got: nat, sent: nat, data: seq<byte>, d: seq<byte>) {
    && got < sent && PAGE_SIZE * (sent - 1) < need && PrefixRead(f, got, data)
    && d == ReadBytes(AfterPages(f, got), PAGE_SIZE)
  }

  lemma ShortTaken(f: Plain, need: nat, got: nat, sent: nat, data: seq<byte>, d: seq<byte>)
    requires ReplyIn(f, need, got, sent, data, d) && |d| < PAGE_SIZE && |d| <= need - PAGE_SIZE * got
    ensures data + d == ReadBytes(f, need) && AfterPages(f, sent) == f.(pos := f.pos + |ReadBytes(f, need)|)
  {
    InReadOf(f, need, got, sent, data, d);
    ShortReply(f.body, f.pos, need, got, sent, data, d);
  }

  lemma FullTaken(f: Plain, need: nat, got: nat, sent: nat, data: seq<byte>, d: seq<byte>)
    requires ReplyIn(f, need, got, sent, data, d) && |d| == PAGE_SIZE
    ensures PrefixRead(f, got + 1, data + d) && AfterPages(f, sent).body == f.body
    ensures need == PAGE_SIZE * (got + 1) ==> data + d == ReadBytes(f, need) && AfterPages(f, sent).pos == f.pos + need
  {
    InReadOf(f, need, got, sent, data, d);
    FullReply(f.body, f.pos, need, got, sent, data, d);
  }

  lemma LastTaken(f: Plain, need: nat, got: nat, sent: nat, data: seq<byte>, d: seq<byte>)
    requires ReplyIn(f, need, got, sent, data, d) && |d| > need - PAGE_SIZE * got
    ensures var want, r := need - PAGE_SIZE * got, AfterPages(f, sent);
            && r.body == f.body && data + d[..want] == ReadBytes(f, need) && |ReadBytes(f, need)| == need
            && |d| <= r.pos <= |r.body| && d == r.body[r.pos - |d|..r.pos]
            && (|d| < PAGE_SIZE ==> r.pos == |r.body|)
            && r.pos - (|d| - want) == f.pos + need
  {
    InReadOf(f, need, got, sent, data, d);
    LastReply(f.body, f.pos, need, got, sent, data, d);
  }

  function Spliced(page: seq<byte>, at: nat, chunk: seq<byte>): (r: seq<byte>)
    requires at + |chunk| <= |page|
    ensures |r| == |page|
  {
    page[..at] + chunk + page[at + |chunk|..]
  }

  /** Filling the page is writing into it as into a file of its own. */
  lemma SplicedIsOverwrite(held: seq<byte>, spare: seq<byte>, at: nat, chunk: seq<byte>)
    requires at <= |held| && at + |chunk| <= |held + spare|
    ensures Spliced(held + spare, at, chunk)[..Max(|held|, at + |chunk|)] == Overwrite(held, at, chunk)
  {
    var now, over := Spliced(held + spare, at, chunk)[..Max(|held|, at + |chunk|)], Overwrite(held, at, chunk);
    assert |now| == |over|;
    forall i | 0 <= i < |now| ensures now[i] == over[i] {
      assert ByteAt(over, i) == Overlay(held, at, chunk, i);
    }
  }

  /** Writing into the page is writing into the file seen through it. */
  lemma FilledPage(propertyLength: nat, r: Plain, held: seq<byte>, spare: seq<byte>, at: nat, chunk: seq<byte>)
    requires at <= |held| && at + |chunk| <= |held + spare|
    requires LengthAllowed(propertyLength, |r.body|)
    requires WriteAllowed(propertyLength, r, held)
    requires WriteAllowed(propertyLength, Seen(r, held, at, false), chunk)
    ensures var now := Spliced(held + spare, at, chunk)[..Max(|held|, at + |chunk|)];
            && Seen(r, now, at + |chunk|, false) == AfterWrite(Seen(r, held, at, false), chunk)
            && WriteAllowed(propertyLength, r, now)
  {
    SplicedIsOverwrite(held, spare, at, chunk);
    OverwriteWithin(r.body, r.pos, held, at, chunk);
  }
}
