/**
 * Runs through the client's page: any calls on an open file, and any number of
 * openings of one stored file, compared with the plain byte string.
 */
module CacheRuns {
  import opened Bytes
  import opened PlainFile
  import opened RemoteFile
  import opened PageCache
  import GridFile

  datatype Op =
    | Read(n: word)
    | Write(data: seq<byte>)
    | SeekTo(mode: SeekMode, position: GridFile.u32)
    | GetStatus
    | Truncate
    | Flush

  datatype Outcome =
    | Bytes(data: seq<byte>)
    | Finished
    | Refused
    | At(position: int, length: nat)

  /** What an operation on the plain file returns and leaves behind. */
  function PlainStep(propertyLength: nat, access: Access, f: Plain, op: Op): (Plain, Outcome) {
    match op
    case Read(n) =>
      if n > 0 && access == WriteAccess then (f, Refused)
      else (AfterRead(f, n), Bytes(ReadBytes(f, n)))
    case Write(data) =>
      if access == ReadAccess then (f, Refused) else (AfterWrite(f, data), Finished)
    case SeekTo(mode, position) =>
      (AfterSeek(f, mode, position), if SeekAllowed(f, mode, position) then Finished else Refused)
    case GetStatus =>
      if f.pos > U32_MAX || |f.body| > U32_MAX then (f, Refused) else (f, At(f.pos, |f.body|))
    case Truncate =>
      if access == ReadAccess || !LengthAllowed(propertyLength, f.pos) then (f, Refused)
      else (AfterTruncate(propertyLength, f), Finished)
    case Flush => (f, Finished)
  }

  /** The page is used up for certain: after a flush, a truncation and a refused seek. */
  predicate Settles(access: Access, op: Op, outcome: Outcome) {
    op == Flush || (op == Truncate && access != ReadAccess) || (op.SeekTo? && outcome == Refused)
  }

  /**
   * The calls that must not differ: writes within the size limit, and seeks to
   * reachable positions or, with the page used up, any seeks at all.
   */
  predicate Accepted(propertyLength: nat, access: Access, settled: bool, f: Plain, op: Op) {
    match op
    case Write(data) => |data| < WORD_MODULUS && (access != ReadAccess ==> WriteAllowed(propertyLength, f, data))
    case SeekTo(mode, position) =>
      settled || (SeekAllowed(f, mode, position) && (mode == Backward ==> position + PAGE_SIZE < DWORD_MODULUS))
    case _ => true
  }

  function PlainRun(propertyLength: nat, access: Access, f: Plain, ops: seq<Op>): (r: (Plain, seq<Outcome>))
    ensures |r.1| == |ops|
  {
    if ops == [] then (f, [])
    else
      var (g, o) := PlainRun(propertyLength, access, f, ops[..|ops| - 1]);
      var (h, last) := PlainStep(propertyLength, access, g, ops[|ops| - 1]);
      (h, o + [last])
  }

  predicate Settled(propertyLength: nat, access: Access, f: Plain, ops: seq<Op>) {
    ops != [] && Settles(access, ops[|ops| - 1], PlainRun(propertyLength, access, f, ops).1[|ops| - 1])
  }

  predicate AllAccepted(propertyLength: nat, access: Access, f: Plain, ops: seq<Op>) {
    forall k :: 0 <= k < |ops| ==>
      Accepted(propertyLength, access, Settled(propertyLength, access, f, ops[..k]),
               PlainRun(propertyLength, access, f, ops[..k]).0, ops[k])
  }

  /** One call through the cache returns what the plain file returns. */
  method Perform(conn: VfsConn, op: Op, ghost settled: bool) returns (outcome: Outcome)
    requires conn.Valid() && Accepted(conn.PropertyLength(), conn.access, settled, conn.Logical(), op)
    requires settled ==> conn.locBuffer == conn.lenBuffer
    modifies conn, conn.page, conn.remote, conn.remote.file, conn.remote.file.host
    ensures conn.Valid() && conn.PropertyLength() == old(conn.PropertyLength())
    ensures (conn.Logical(), outcome) == PlainStep(conn.PropertyLength(), conn.access, old(conn.Logical()), op)
    ensures op == Flush ==> conn.remote.now == conn.Logical()
    ensures Settles(conn.access, op, outcome) ==> conn.locBuffer == conn.lenBuffer
  {
    var error;
    match op
    case Read(n) =>
      var data;
      error, data := conn.FsRead(n);
      outcome := if error == Done then Bytes(data) else Refused;
    case Write(data) =>
      error := conn.FsWrite(data);
      outcome := if error == Done then Finished else Refused;
    case SeekTo(mode, position) =>
      error := conn.FsSeek(mode, position);
      outcome := if error == Done then Finished else Refused;
    case GetStatus =>
      var position, length;
      error, position, length := conn.FsGetStatus(POSITION_END);
      outcome := if error == Done then At(position, length) else Refused;
    case Truncate =>
      error := conn.FsTruncate();
      outcome := if error == Done then Finished else Refused;
    case Flush =>
      error := conn.LocalFlush();
      outcome := if error == Done then Finished else Refused;
  }

  /** Over any run of accepted calls the cached connection is the uncached file. */
  method Replay(conn: VfsConn, ops: seq<Op>) returns (outcomes: seq<Outcome>)
    requires conn.Valid() && AllAccepted(conn.PropertyLength(), conn.access, conn.Logical(), ops)
    modifies conn, conn.page, conn.remote, conn.remote.file, conn.remote.file.host
    ensures conn.Valid() && conn.PropertyLength() == old(conn.PropertyLength())
    ensures (conn.Logical(), outcomes) == PlainRun(conn.PropertyLength(), conn.access, old(conn.Logical()), ops)
    ensures conn.remote.mostInFlight <= conn.pipeLineSize
  {
    outcomes := [];
    ghost var f, propertyLength := conn.Logical(), conn.PropertyLength();
    var k := 0;
    assert ops[..0] == [];
    while k < |ops|
      invariant 0 <= k <= |ops|
      invariant conn.Valid() && conn.PropertyLength() == propertyLength
      invariant (conn.Logical(), outcomes) == PlainRun(propertyLength, conn.access, f, ops[..k])
      invariant Settled(propertyLength, conn.access, f, ops[..k]) ==> conn.locBuffer == conn.lenBuffer
    {
      assert ops[..k + 1][..k] == ops[..k];
      var outcome := Perform(conn, ops[k], Settled(propertyLength, conn.access, f, ops[..k]));
      outcomes := outcomes + [outcome];
      k := k + 1;
    }
    assert ops[..k] == ops;
  }

  // ---- opening, using and closing, over and over ----

  /** A stored file: a valid header with this property length, and a body behind it. */
  ghost predicate Stored(bytes: seq<byte>, propertyLength: nat, body: seq<byte>) {
    && |bytes| >= HEADER_LENGTH && bytes[HEADER_LENGTH..] == body
    && GridFile.HeaderFromBytes(bytes[..HEADER_LENGTH]).WellFormed()
    && GridFile.HeaderFromBytes(bytes[..HEADER_LENGTH]).propertyLength == propertyLength
    && LengthAllowed(propertyLength, |body|)
  }

  /** An open file is a stored one. */
  lemma OpenIsStored(file: GridFile.GRiDFile)
    requires file.Valid()
    ensures Stored(file.host.bytes, file.header.propertyLength, file.View().body)
  {
    GridFile.HeaderRoundTrip(file.header, file.host.bytes[..HEADER_LENGTH]);
  }

  lemma HeaderOf(file: GridFile.GRiDFile, propertyLength: nat, body: seq<byte>)
    requires file.Valid() && Stored(file.host.bytes, propertyLength, body)
    ensures file.header.propertyLength == propertyLength
  {
    GridFile.HeaderRoundTrip(file.header, file.host.bytes[..HEADER_LENGTH]);
  }

  /** Opens a stored file with a descriptor of its own and an empty page in front. */
  method Open(host: GridFile.HostFile, access: Access, pipeLineSize: nat, ghost propertyLength: nat, ghost body: seq<byte>)
    returns (conn: VfsConn)
    requires Stored(host.bytes, propertyLength, body) && pipeLineSize > 0
    modifies host
    ensures fresh(conn) && fresh(conn.page) && fresh(conn.remote) && fresh(conn.remote.file) && conn.remote.file.host == host
    ensures conn.Valid() && conn.access == access && conn.PropertyLength() == propertyLength && conn.Logical() == Plain(body, 0)
  {
    host.cursor := 0;
    var opening := GridFile.GRiDFile.FromFile(host);
    var file := opening.value;
    HeaderOf(file, propertyLength, body);
    var remote := new Remote(file);
    conn := new VfsConn(remote, access, pipeLineSize);
  }

  /** One opening: any accepted calls, then the close. */
  method Session(host: GridFile.HostFile, access: Access, pipeLineSize: nat, ops: seq<Op>, ghost propertyLength: nat, ghost body: seq<byte>)
    returns (outcomes: seq<Outcome>)
    requires Stored(host.bytes, propertyLength, body) && pipeLineSize > 0
    requires AllAccepted(propertyLength, access, Plain(body, 0), ops)
    modifies host
    ensures outcomes == PlainRun(propertyLength, access, Plain(body, 0), ops).1
    ensures Stored(host.bytes, propertyLength, PlainRun(propertyLength, access, Plain(body, 0), ops).0.body)
  {
    var conn := Open(host, access, pipeLineSize, propertyLength, body);
    outcomes := Replay(conn, ops);
    var _ := conn.LocalClose();
    OpenIsStored(conn.remote.file);
  }

  /** The same sessions on the plain byte string, each from position 0. */
  function PlainSessions(propertyLength: nat, access: Access, body: seq<byte>, sessions: seq<seq<Op>>): (seq<byte>, seq<seq<Outcome>>) {
    if sessions == [] then (body, [])
    else
      var (before, outcomes) := PlainSessions(propertyLength, access, body, sessions[..|sessions| - 1]);
      var (after, last) := PlainRun(propertyLength, access, Plain(before, 0), sessions[|sessions| - 1]);
      (after.body, outcomes + [last])
  }

  predicate SessionsAccepted(propertyLength: nat, access: Access, body: seq<byte>, sessions: seq<seq<Op>>) {
    forall k :: 0 <= k < |sessions| ==>
      AllAccepted(propertyLength, access, Plain(PlainSessions(propertyLength, access, body, sessions[..k]).0, 0), sessions[k])
  }

  /** However often a stored file is opened, used and closed, all results and the bytes left on disk are the plain ones. */
  method Sessions(host: GridFile.HostFile, access: Access, pipeLineSize: nat, sessions: seq<seq<Op>>, ghost propertyLength: nat, ghost body: seq<byte>)
    returns (outcomes: seq<seq<Outcome>>)
    requires Stored(host.bytes, propertyLength, body) && pipeLineSize > 0
    requires SessionsAccepted(propertyLength, access, body, sessions)
    modifies host
    ensures outcomes == PlainSessions(propertyLength, access, body, sessions).1
    ensures Stored(host.bytes, propertyLength, PlainSessions(propertyLength, access, body, sessions).0)
  {
    outcomes := [];
    assert sessions[..0] == [];
    for k := 0 to |sessions|
      invariant outcomes == PlainSessions(propertyLength, access, body, sessions[..k]).1
      invariant Stored(host.bytes, propertyLength, PlainSessions(propertyLength, access, body, sessions[..k]).0)
    {
      assert sessions[..k + 1][..k] == sessions[..k];
      var session := Session(host, access, pipeLineSize, sessions[k], propertyLength, PlainSessions(propertyLength, access, body, sessions[..k]).0);
      outcomes := outcomes + [session];
    }
    assert sessions[..|sessions|] == sessions;
  }
}
