/**
 * One open file as the client reaches it: requests travel to the server, which
 * serves them in arrival order at times of its own choosing, and replies travel
 * back in the same order. Only reads are ever left in flight.
 */
module RemoteFile {
  import opened Bytes
  import opened PlainFile
  import GridFile

  const WORD_MODULUS := 0x1_0000

  type word = n: int | 0 <= n < WORD_MODULUS

  /** The increment of a 16-bit word. */
  function Next(n: word): word {
    if n == WORD_MODULUS - 1 then 0 else n + 1
  }

  /** The note of the `k`-th request after one noted `first`. */
  function NoteAt(first: word, k: nat): word {
    if k == 0 then first else Next(NoteAt(first, k - 1))
  }

  datatype Reply = Reply(note: word, data: seq<byte>)

  /** The file once `k` page reads have been served. */
  function AfterPages(f: Plain, k: nat): Plain
    decreases k
  {
    if k == 0 then f else AfterPages(AfterRead(f, PAGE_SIZE), k - 1)
  }

  /** The `k`-th page read returns the `k`-th page of the file, cut at its end. */
  lemma {:induction false} AfterPagesPosition(f: Plain, k: nat)
    ensures AfterPages(f, k) == f.(pos := if f.pos >= |f.body| then f.pos else Min(f.pos + PAGE_SIZE * k, |f.body|))
    ensures ReadBytes(AfterPages(f, k), PAGE_SIZE) == Clip(f.body, f.pos + PAGE_SIZE * k, f.pos + PAGE_SIZE * (k + 1))
    decreases k
  {
    if k > 0 {
      AfterPagesPosition(AfterRead(f, PAGE_SIZE), k - 1);
    }
  }

  lemma {:induction false} AfterPagesStep(f: Plain, k: nat)
    ensures AfterPages(f, k + 1) == AfterRead(AfterPages(f, k), PAGE_SIZE)
    decreases k
  {
    if k > 0 {
      AfterPagesStep(AfterRead(f, PAGE_SIZE), k - 1);
    }
  }

  /** The reply to the `k`-th page read of a stream over `f`. */
  ghost function ReplyTo(f: Plain, first: word, k: nat): Reply {
    Reply(NoteAt(first, k), ReadBytes(AfterPages(f, k), PAGE_SIZE))
  }

  /** Replies and requests are those of the stream from the `got`-th on. */
  ghost predicate InOrder(f: Plain, first: word, got: nat, ready: seq<Reply>, pending: seq<word>) {
    && (forall i :: 0 <= i < |ready| ==> ready[i] == ReplyTo(f, first, got + i))
    && (forall i :: 0 <= i < |pending| ==> pending[i] == NoteAt(first, got + |ready| + i))
  }

  lemma ServedInOrder(f: Plain, first: word, got: nat, ready: seq<Reply>, pending: seq<word>)
    requires InOrder(f, first, got, ready, pending) && pending != []
    ensures InOrder(f, first, got, ready + [ReplyTo(f, first, got + |ready|)], pending[1..])
  {
    var rest := pending[1..];
    forall i | 0 <= i < |rest| ensures rest[i] == NoteAt(first, got + |ready| + 1 + i) {
      assert rest[i] == pending[i + 1];
    }
  }

  lemma TakenInOrder(f: Plain, first: word, got: nat, ready: seq<Reply>, pending: seq<word>)
    requires InOrder(f, first, got, ready, pending) && ready != []
    ensures InOrder(f, first, got + 1, ready[1..], pending)
  {
    var rest := ready[1..];
    forall i | 0 <= i < |rest| ensures rest[i] == ReplyTo(f, first, got + 1 + i) {
      assert rest[i] == ready[i + 1];
    }
  }

  class Remote {
    const file: GridFile.GRiDFile
    /** Notes of read requests the server has not served yet. */
    var pending: seq<word>
    /** Replies served and not yet taken by the client. */
    var ready: seq<Reply>

    /** The file as the server has it now. */
    ghost var now: Plain
    /** The file when the current stream of reads began, and the stream's first note. */
    ghost var origin: Plain
    ghost var firstNote: word
    /** How many reads of the stream were sent, and how many replies taken. */
    ghost var sent: nat
    ghost var got: nat
    /** The most requests that were ever in flight at once. */
    ghost var mostInFlight: nat

    constructor (file: GridFile.GRiDFile)
      requires file.Valid()
      ensures this.file == file && Valid() && Quiet() && mostInFlight == 0 && now == file.View()
    {
      this.file := file;
      pending, ready := [], [];
      now := file.View();
      origin, firstNote, sent, got, mostInFlight := file.View(), 0, 0, 0, 0;
    }

    /** Whatever the server has got round to, the replies to come are those of the stream. */
    ghost predicate Valid()
      reads this, file, file.host
    {
      && file.Valid()
      && got <= sent && |pending| + |ready| == sent - got
      && now == file.View() == AfterPages(origin, got + |ready|)
      && InOrder(origin, firstNote, got, ready, pending)
    }

    ghost predicate Quiet()
      reads this
    {
      got == sent
    }

    /** Starts a new stream of reads at the current position. */
    ghost method Begin(note: word)
      requires Valid() && Quiet()
      modifies this`origin, this`firstNote, this`sent, this`got
      ensures Valid() && Quiet() && origin == now && firstNote == note && sent == 0
    {
      origin, firstNote, sent, got := now, note, 0, 0;
    }

    method SendRead(note: word)
      requires Valid() && note == NoteAt(firstNote, sent)
      modifies this`pending, this`mostInFlight, this`sent
      ensures Valid() && sent == old(sent) + 1
      ensures mostInFlight == Max(old(mostInFlight), sent - got)
    {
      pending := pending + [note];
      sent := sent + 1;
      mostInFlight := Max(mostInFlight, sent - got);
    }

    method ServeOne()
      requires Valid() && pending != []
      modifies this`pending, this`ready, this`now, file, file.host
      ensures Valid() && file.header == old(file.header)
      ensures |pending| == |old(pending)| - 1 && |ready| == |old(ready)| + 1
    {
      ghost var k := got + |ready|;
      var note := pending[0];
      var data := file.Read(PAGE_SIZE);
      now := file.View();
      assert now == AfterPages(origin, k + 1) by { AfterPagesStep(origin, k); }
      assert Reply(note, data) == ReplyTo(origin, firstNote, k);
      ServedInOrder(origin, firstNote, got, ready, pending);
      ready := ready + [Reply(note, data)];
      pending := pending[1..];
    }

    /** The server serves as many requests as it happens to have time for. */
    method LetServerRun(turns: nat)
      requires Valid()
      modifies this`pending, this`ready, this`now, file, file.host
      ensures Valid() && file.header == old(file.header)
      ensures turns > 0 && got < sent ==> ready != []
    {
      var left := turns;
      while left > 0 && pending != []
        invariant Valid() && file.header == old(file.header)
        invariant left < turns ==> ready != []
      {
        ServeOne();
        left := left - 1;
      }
    }

    method TakeFirst() returns (reply: Reply)
      requires Valid() && ready != []
      modifies this`ready, this`got
      ensures Valid() && got == old(got) + 1
      ensures reply == ReplyTo(origin, firstNote, old(got))
    {
      TakenInOrder(origin, firstNote, got, ready, pending);
      reply := ready[0];
      ready := ready[1..];
      got := got + 1;
    }

    /** Takes a reply if one has arrived; `turns` and `arrived` are the network's choice. */
    method Poll(turns: nat, arrived: bool) returns (reply: Option<Reply>)
      requires Valid()
      modifies this`pending, this`ready, this`now, this`got, file, file.host
      ensures Valid() && file.header == old(file.header)
      ensures reply.Some? ==> got == old(got) + 1 && reply.value == ReplyTo(origin, firstNote, old(got))
      ensures reply.None? ==> got == old(got)
    {
      LetServerRun(turns);
      reply := None;
      if arrived && ready != [] {
        var next := TakeFirst();
        reply := Some(next);
      }
    }

    /** Waits until the next reply is there. */
    method Await(turns: nat) returns (reply: Reply)
      requires Valid() && got < sent
      modifies this`pending, this`ready, this`now, this`got, file, file.host
      ensures Valid() && file.header == old(file.header)
      ensures got == old(got) + 1 && reply == ReplyTo(origin, firstNote, old(got))
    {
      LetServerRun(turns + 1);
      reply := TakeFirst();
    }

    /** Waits for and discards every reply still outstanding. */
    method Drain(outstanding: nat)
      requires Valid() && outstanding == sent - got
      modifies this`pending, this`ready, this`now, this`got, file, file.host
      ensures Valid() && Quiet() && file.header == old(file.header)
      ensures now == AfterPages(origin, sent)
    {
      var left := outstanding;
      while left > 0
        invariant Valid() && file.header == old(file.header)
        invariant 0 <= left == sent - got
      {
        var turns: nat := *;
        var _ := Await(turns);
        left := left - 1;
      }
    }

    /** A write of at most one page, answered before the client goes on. */
    method Write(data: seq<byte>) returns (ok: bool)
      requires Valid() && Quiet()
      modifies this`now, this`origin, this`firstNote, this`sent, this`got, file, file.host
      ensures Valid() && Quiet() && file.header == old(file.header)
      ensures ok <==> |data| <= PAGE_SIZE && WriteAllowed(file.header.propertyLength, old(now), data)
      ensures now == if ok then AfterWrite(old(now), data) else old(now)
    {
      if |data| > PAGE_SIZE { return false; }
      var r := file.Write(data);
      ok := r.Ok?;
      now := file.View();
      origin, sent, got := now, 0, 0;
    }

    /** Writes whole pages until at most one page is left, or the server refuses one; what is left is still to be written. */
    method WritePages(data: seq<byte>) returns (rest: seq<byte>, ok: bool)
      requires Valid() && Quiet()
      modifies this`now, this`origin, this`firstNote, this`sent, this`got, file, file.host
      ensures Valid() && Quiet() && file.header == old(file.header)
      ensures |rest| <= |data| && AfterWrite(now, rest) == AfterWrite(old(now), data)
      ensures if ok then |rest| <= PAGE_SIZE
              else |rest| > PAGE_SIZE && !WriteAllowed(file.header.propertyLength, now, rest[..PAGE_SIZE])
      ensures WriteAllowed(file.header.propertyLength, old(now), data) ==> ok && WriteAllowed(file.header.propertyLength, now, rest)
    {
      rest, ok := data, true;
      while |rest| > PAGE_SIZE && ok
        invariant Valid() && Quiet() && file.header == old(file.header)
        invariant |rest| <= |data| && AfterWrite(now, rest) == AfterWrite(old(now), data)
        invariant WriteAllowed(file.header.propertyLength, old(now), data) ==> ok && WriteAllowed(file.header.propertyLength, now, rest)
        invariant !ok ==> |rest| > PAGE_SIZE && !WriteAllowed(file.header.propertyLength, now, rest[..PAGE_SIZE])
        decreases |rest|, ok
      {
        FirstPage(file.header.propertyLength, now, rest);
        ok := Write(rest[..PAGE_SIZE]);
        if ok { rest := rest[PAGE_SIZE..]; }
      }
    }

    method Seek(mode: SeekMode, n: GridFile.u32) returns (ok: bool)
      requires Valid() && Quiet()
      modifies this`now, this`origin, this`firstNote, this`sent, this`got, file, file.host
      ensures Valid() && Quiet() && file.header == old(file.header)
      ensures ok <==> SeekAllowed(old(now), mode, n)
      ensures now == AfterSeek(old(now), mode, n)
    {
      var r := file.Seek(mode, n);
      ok := r.Ok?;
      now := file.View();
      origin, sent, got := now, 0, 0;
    }

    method Truncate() returns (ok: bool)
      requires Valid() && Quiet()
      modifies this`now, this`origin, this`firstNote, this`sent, this`got, file.host
      ensures Valid() && Quiet()
      ensures ok <==> LengthAllowed(file.header.propertyLength, old(now).pos)
      ensures now == AfterTruncate(file.header.propertyLength, old(now))
    {
      var r := file.Truncate();
      ok := r.Ok?;
      now := file.View();
      origin, sent, got := now, 0, 0;
    }

    /** Position and length, both of which travel in 32 bits. */
    function Status(): (r: Option<(nat, nat)>)
      reads this, file, file.host
      requires Valid()
    {
      if file.bodyPos > U32_MAX || file.BodyLength() > U32_MAX then None
      else Some((file.bodyPos, file.BodyLength()))
    }
  }
}
