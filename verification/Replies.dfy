/**
 * Serialised VFS replies and how large they get, up to the frame that carries
 * them: the worst case fills the client's receive buffer to the last byte.
 */
module Replies {
  import opened Bytes
  import opened PlainFile
  import Names
  import DirPaging
  import Crc
  import Framing
  import FrameAutomaton

  const MAX_MESSAGE_LENGTH: nat := 514
  const MAX_READ_LENGTH: nat := PAGE_SIZE
  const DESCRIPTOR_LENGTH: nat := 198
  const STATUS_LENGTH: nat := 15

  datatype Header = Header(response: nat, serversConnId: nat, requestorsConnId: nat, status: nat)

  datatype Response =
    | Simple(header: Header)
    | GetStatus(header: Header, body: seq<byte>)
    | ReadDirPage(header: Header, entries: seq<Names.Name>)
    | Read(header: Header, data: seq<byte>)

  function HeaderBytes(h: Header): (r: seq<byte>)
    ensures |r| == 8
  {
    LittleEndian(h.response, 2) + LittleEndian(h.serversConnId, 2) + LittleEndian(h.requestorsConnId, 2) + LittleEndian(h.status, 2)
  }

  function EntryBytes(name: Names.Name): (r: seq<byte>)
    requires |name| <= DirPaging.MAX_NAME
    ensures |r| == DirPaging.PREAMBLE + |name|
  {
    Zeros(4) + LittleEndian(DirPaging.PREAMBLE + |name|, 4) + [|name| as byte] + name
  }

  function PageBytes(names: seq<Names.Name>): (r: seq<byte>)
    requires forall i :: 0 <= i < |names| ==> |names[i]| <= DirPaging.MAX_NAME
    ensures |r| == DirPaging.Size(names)
  {
    if names == [] then [] else PageBytes(names[..|names| - 1]) + EntryBytes(names[|names| - 1])
  }

  /** The four fields stand at their places, each readable as it was. */
  lemma HeaderFields(h: Header)
    requires h.response < 0x10000 && h.serversConnId < 0x10000 && h.requestorsConnId < 0x10000 && h.status < 0x10000
    ensures var b := HeaderBytes(h);
            && FromLittleEndian(b[0..2]) == h.response && FromLittleEndian(b[2..4]) == h.serversConnId
            && FromLittleEndian(b[4..6]) == h.requestorsConnId && FromLittleEndian(b[6..8]) == h.status
  {
    WordRead(h.response);
    WordRead(h.serversConnId);
    WordRead(h.requestorsConnId);
    WordRead(h.status);
    var b := HeaderBytes(h);
    assert b[0..2] == LittleEndian(h.response, 2) && b[2..4] == LittleEndian(h.serversConnId, 2);
    assert b[4..6] == LittleEndian(h.requestorsConnId, 2) && b[6..8] == LittleEndian(h.status, 2);
  }

  /** How a reader walks a page: the length of an entry leads to the next one. */
  function ReadPage(d: seq<byte>): Option<seq<Names.Name>>
    decreases |d|
  {
    if d == [] then Some([])
    else if |d| < DirPaging.PREAMBLE then None
    else
      var length := FromLittleEndian(d[4..8]);
      if length != DirPaging.PREAMBLE + d[8] as nat || |d| < length then None
      else
        var more := ReadPage(d[length..]);
        if more.None? then None else Some([d[DirPaging.PREAMBLE..length]] + more.value)
  }

  lemma EntryRead(name: Names.Name, rest: seq<byte>)
    requires |name| <= DirPaging.MAX_NAME
    ensures var d := EntryBytes(name) + rest;
            var length := DirPaging.PREAMBLE + |name|;
            && FromLittleEndian(d[4..8]) == length && d[8] as nat == |name|
            && d[DirPaging.PREAMBLE..length] == name && d[length..] == rest
  {
    var length := DirPaging.PREAMBLE + |name|;
    assert Pow256(4) > length by { assert Pow256(1) == 256; }
    LittleEndianRoundTrip(length, 4);
    var d := EntryBytes(name) + rest;
    assert d[4..8] == LittleEndian(length, 4);
  }

  lemma {:induction false} PageCons(names: seq<Names.Name>)
    requires names != [] && DirPaging.Short(names)
    ensures DirPaging.Short(names[1..]) && PageBytes(names) == EntryBytes(names[0]) + PageBytes(names[1..])
    decreases |names|
  {
    var last := |names| - 1;
    if last > 0 {
      PageCons(names[..last]);
      assert names[..last][1..] == names[1..][..last - 1];
    } else {
      assert names[..0] == [] && names[1..] == [];
    }
  }

  /** A page is read back as the names it was written from. */
  lemma {:induction false} PageReadBack(names: seq<Names.Name>)
    requires DirPaging.Short(names)
    ensures ReadPage(PageBytes(names)) == Some(names)
    decreases |names|
  {
    if names != [] {
      PageCons(names);
      EntryRead(names[0], PageBytes(names[1..]));
      PageReadBack(names[1..]);
      assert [names[0]] + names[1..] == names;
    }
  }

  /** A block behind its own length. */
  function Block(body: seq<byte>): seq<byte> {
    LittleEndian(|body|, 2) + body
  }

  /** Names fit their length byte; lengths fit their fields. */
  ghost predicate WellFormed(r: Response) {
    match r
    case Simple(_) => true
    case GetStatus(_, body) => |body| == STATUS_LENGTH
    case ReadDirPage(_, entries) => DirPaging.Short(entries) && DirPaging.Size(entries) < 0x10000
    case Read(_, data) => |data| < 0x10000
  }

  ghost function ResponseBytes(r: Response): seq<byte>
    requires WellFormed(r)
  {
    match r
    case Simple(h) => HeaderBytes(h)
    case GetStatus(h, body) => HeaderBytes(h) + Block(body)
    case ReadDirPage(h, entries) => HeaderBytes(h) + Block(PageBytes(entries))
    case Read(h, data) => HeaderBytes(h) + Block(data)
  }

  datatype Outcome = Written | TooLong | BadName | Overrun

  /** Writes a page entry by entry; an overlong name stops it. */
  method WritePage(names: seq<Names.Name>) returns (ok: bool, body: seq<byte>)
    ensures ok <==> DirPaging.Short(names)
    ensures ok ==> body == PageBytes(names)
  {
    body := [];
    for k := 0 to |names|
      invariant forall i :: 0 <= i < k ==> |names[i]| <= DirPaging.MAX_NAME
      invariant body == PageBytes(names[..k])
    {
      assert names[..k + 1][..k] == names[..k];
      if |names[k]| > DirPaging.MAX_NAME { return false, body; }
      body := body + EntryBytes(names[k]);
    }
    assert names[..|names|] == names;
    ok := true;
  }

  /** Appends a reply to a buffer, or fails; a reply that is only too long leaves the buffer as it was. */
  method WriteInto(r: Response, dst: seq<byte>) returns (outcome: Outcome, out: seq<byte>)
    requires r.GetStatus? ==> |r.body| == STATUS_LENGTH
    ensures outcome == Written <==> WellFormed(r) && |ResponseBytes(r)| <= MAX_MESSAGE_LENGTH
    ensures outcome == Written ==> out == dst + ResponseBytes(r)
    ensures outcome == TooLong ==> out == dst
  {
    out := dst + HeaderBytes(r.header);
    var body: seq<byte> := [];
    match r {
      case Simple(_) =>
        assert |HeaderBytes(r.header)| <= MAX_MESSAGE_LENGTH;
        return Written, out;
      case GetStatus(_, status) => body := status;
      case ReadDirPage(_, entries) =>
        var ok;
        ok, body := WritePage(entries);
        if !ok { return BadName, out + body; }
      case Read(_, data) => body := data;
    }
    if |body| >= 0x10000 { return Overrun, out + body; }
    ghost var before := out;
    out := out + Block(body);
    assert out == dst + (HeaderBytes(r.header) + Block(body));
    if |out| - |dst| > MAX_MESSAGE_LENGTH { return TooLong, dst; }
    outcome := Written;
  }

  // ---- what the server puts in ----

  /** Every reply the server builds. */
  ghost predicate Built(r: Response) {
    match r
    case Simple(_) => true
    case GetStatus(_, body) => |body| == STATUS_LENGTH
    case ReadDirPage(_, entries) => DirPaging.Short(entries) && DirPaging.Size(entries) <= PAGE_SIZE
    case Read(_, data) => |data| <= MAX_READ_LENGTH
  }

  /** A read returns no more than a page, however much was asked for. */
  method ReadReply(h: Header, f: Plain, dataLength: nat) returns (r: Response, after: Plain)
    ensures Built(r) && r.Read? && r.header == h && r.data == ReadBytes(f, Min(dataLength, MAX_READ_LENGTH))
    ensures after == AfterRead(f, Min(dataLength, MAX_READ_LENGTH))
  {
    var length := Min(dataLength, MAX_READ_LENGTH);
    r := Read(h, ReadBytes(f, length));
    after := AfterRead(f, length);
  }

  method DescriptorReply(h: Header, descriptor: seq<byte>, dataLength: nat) returns (r: Response)
    ensures Built(r) && r.Read? && r.header == h && r.data == Clip(descriptor, 0, Min(dataLength, DESCRIPTOR_LENGTH))
  {
    var length := Min(dataLength, DESCRIPTOR_LENGTH);
    r := Read(h, if |descriptor| > length then descriptor[..length] else descriptor);
  }

  method DirectoryReply(h: Header, attachment: DirPaging.Attachment, host: seq<DirPaging.HostEntry>, count: nat) returns (r: Response)
    requires attachment.Valid()
    modifies attachment
    ensures attachment.Valid() && Built(r) && r.ReadDirPage? && r.header == h
    ensures attachment.listing.Some? && old(attachment.position) <= attachment.position <= |attachment.listing.value|
    ensures r.entries == attachment.listing.value[old(attachment.position)..attachment.position]
  {
    var entries := attachment.ReadDirPage(host, count);
    r := ReadDirPage(h, entries);
  }

  /** Status pages are counted in units of 512 bytes and in 16 bits. */
  function StatusPages(length: nat): nat {
    Min((length + 511) / 512, 0xFFFF)
  }

  function StatusBytes(open: byte, access: byte, seekable: byte, f: Plain): (r: seq<byte>)
    ensures |r| == STATUS_LENGTH
  {
    [open, access, seekable] + LittleEndian(f.pos, 4) + LittleEndian(|f.body|, 4)
    + (LittleEndian(StatusPages(|f.body|), 2) + LittleEndian(StatusPages(|f.body|), 2))
  }

  /** Flags first, then position, length and twice the page count, each readable at its place. */
  lemma StatusFields(open: byte, access: byte, seekable: byte, f: Plain)
    requires f.pos <= U32_MAX && |f.body| <= U32_MAX
    ensures var b := StatusBytes(open, access, seekable, f);
            && b[0] == open && b[1] == access && b[2] == seekable
            && FromLittleEndian(b[3..7]) == f.pos && FromLittleEndian(b[7..11]) == |f.body|
            && FromLittleEndian(b[11..13]) == FromLittleEndian(b[13..15]) == StatusPages(|f.body|)
  {
    var b, pages := StatusBytes(open, access, seekable, f), StatusPages(|f.body|);
    WordRead(pages);
    DwordRead(f.pos);
    DwordRead(|f.body|);
    StatusBlocks([open, access, seekable], LittleEndian(f.pos, 4), LittleEndian(|f.body|, 4), LittleEndian(pages, 2), LittleEndian(pages, 2));
  }

  lemma StatusBlocks(flags: seq<byte>, position: seq<byte>, length: seq<byte>, pages: seq<byte>, reserved: seq<byte>)
    requires |flags| == 3 && |position| == |length| == 4 && |pages| == |reserved| == 2
    ensures var b := flags + position + length + (pages + reserved);
            b[..3] == flags && b[3..7] == position && b[7..11] == length && b[11..13] == pages && b[13..15] == reserved
  {
  }

  /** As many pages of 512 bytes as the file needs, or the most that can be said. */
  lemma PagesNeeded(length: nat)
    ensures var n := StatusPages(length);
            n == 0xFFFF <= length / 512 || (512 * n >= length && (n > 0 ==> 512 * (n - 1) < length))
  {
  }

  lemma WordRead(n: nat)
    requires n < 0x10000
    ensures FromLittleEndian(LittleEndian(n, 2)) == n
  {
    assert Pow256(2) == 0x10000 by { assert Pow256(1) == 256; }
    LittleEndianRoundTrip(n, 2);
  }

  lemma DwordRead(n: nat)
    requires n <= U32_MAX
    ensures FromLittleEndian(LittleEndian(n, 4)) == n
  {
    assert Pow256(4) == U32_MAX + 1 by { assert Pow256(1) == 256 && Pow256(2) == 0x10000 && Pow256(3) == 0x100_0000; }
    LittleEndianRoundTrip(n, 4);
  }

  // ---- every request ----

  datatype Request =
    | StatusRequest
    | ReadRequest(length: nat)
    | ReadDescRequest(length: nat)
    | ReadDirRequest(count: nat)
    | AttachRequest
    | SimpleRequest(code: nat)

  /** What the server has for the connection a request names. */
  datatype Target = Target(file: Plain, descriptor: seq<byte>, open: byte, access: byte, seekable: byte)

  const RESPONSE_BIT: nat := 0x8000

  function RequestCode(request: Request): nat {
    match request
    case StatusRequest => 1
    case ReadRequest(_) => 4
    case AttachRequest => 8
    case ReadDescRequest(_) => 12
    case ReadDirRequest(_) => 29
    case SimpleRequest(code) => code
  }

  function WithResponseBit(code: nat): nat {
    if code >= RESPONSE_BIT then code else code + RESPONSE_BIT
  }

  /**
   * The reply to any request, in any state: `status` is zero or the error the
   * table or the backend raised, `newConnection` the id an attach was given.
   * Errors reply with no data.
   */
  method Answer(request: Request, serversConnId: nat, requestorsConnId: nat, status: nat, newConnection: nat,
                target: Target, attachment: DirPaging.Attachment, host: seq<DirPaging.HostEntry>)
    returns (r: Response)
    requires attachment.Valid()
    modifies attachment
    ensures attachment.Valid() && Built(r)
    ensures r.header == Header(WithResponseBit(RequestCode(request)),
                               if request == AttachRequest then (if status == 0 then newConnection else 0) else serversConnId,
                               requestorsConnId, status)
    ensures match request
            case StatusRequest =>
              r.GetStatus? && r.body == if status == 0 then StatusBytes(target.open, target.access, target.seekable, target.file)
                                        else StatusBytes(0, 1, 0, Plain([], 0))
            case ReadRequest(n) => r.Read? && r.data == if status == 0 then ReadBytes(target.file, Min(n, MAX_READ_LENGTH)) else []
            case ReadDescRequest(n) => r.Read? && r.data == if status == 0 then Clip(target.descriptor, 0, Min(n, DESCRIPTOR_LENGTH)) else []
            case ReadDirRequest(_) => r.ReadDirPage? && (status != 0 ==> r.entries == [])
            case _ => r.Simple?
    ensures request.ReadDirRequest? && status == 0 ==>
              && attachment.listing.Some? && old(attachment.position) <= attachment.position <= |attachment.listing.value|
              && r.entries == attachment.listing.value[old(attachment.position)..attachment.position]
  {
    var id := if request == AttachRequest then (if status == 0 then newConnection else 0) else serversConnId;
    var h := Header(WithResponseBit(RequestCode(request)), id, requestorsConnId, status);
    match request {
      case StatusRequest =>
        r := GetStatus(h, if status == 0 then StatusBytes(target.open, target.access, target.seekable, target.file)
                          else StatusBytes(0, 1, 0, Plain([], 0)));
      case ReadRequest(n) =>
        if status != 0 { return Read(h, []); }
        var after;
        r, after := ReadReply(h, target.file, n);
      case ReadDescRequest(n) =>
        if status != 0 { return Read(h, []); }
        r := DescriptorReply(h, target.descriptor, n);
      case ReadDirRequest(count) =>
        if status != 0 { return ReadDirPage(h, []); }
        r := DirectoryReply(h, attachment, host, count);
      case AttachRequest => r := Simple(h);
      case SimpleRequest(_) => r := Simple(h);
    }
  }

  /** A request as it arrives: code, both connection ids, and for the calls that read something how much of it. */
  function ParseRequest(d: seq<byte>): Option<Request> {
    if |d| < 6 then None
    else
      var code := FromLittleEndian(d[0..2]);
      if code in {1, 4, 12, 29} then
        if |d| != 8 then None
        else
          var n := FromLittleEndian(d[6..8]);
          Some(if code == 1 then StatusRequest else if code == 4 then ReadRequest(n)
               else if code == 12 then ReadDescRequest(n) else ReadDirRequest(n))
      else if code == 8 then Some(AttachRequest)
      else Some(SimpleRequest(code))
  }

  lemma ParsedCode(d: seq<byte>)
    requires ParseRequest(d).Some?
    ensures RequestCode(ParseRequest(d).value) == FromLittleEndian(d[0..2])
  {
  }

  lemma WordBelow(d: seq<byte>)
    requires |d| == 2
    ensures FromLittleEndian(d) < 0x10000
  {
    assert Pow256(2) == 0x10000 by { assert Pow256(1) == 256; }
    LittleEndianCanonical(d);
  }

  /** Every reply is written, and is at most 514 bytes long. */
  lemma BuiltFits(r: Response)
    requires Built(r)
    ensures WellFormed(r) && |ResponseBytes(r)| <= MAX_MESSAGE_LENGTH
  {
  }

  // ---- the layers below ----

  function VipcMessage(ty: nat, note: nat, payload: seq<byte>): seq<byte> {
    LittleEndian(ty, 2) + LittleEndian(note, 2) + LittleEndian(|payload|, 2) + payload
  }

  function DataFrame(repr: nat, localPath: nat, remotePath: nat, payload: seq<byte>): seq<byte> {
    LittleEndian(repr, 2) + LittleEndian(localPath, 2) + LittleEndian(remotePath, 2) + payload
  }

  function PdlFrame(ty: byte, flags: byte, window: byte, number: byte, body: seq<byte>): seq<byte> {
    [ty, flags, window, number] + body
  }

  function Octets(s: seq<byte>): (r: seq<Crc.octet>)
    ensures |r| == |s|
  {
    seq(|s|, i requires 0 <= i < |s| => s[i] as Crc.octet)
  }

  /** The fields of the three layers a reply travels in. */
  datatype Envelope = Envelope(ty: nat, note: nat, localPath: nat, remotePath: nat, number: byte)

  /** A data frame: type 5, end-of-message flag 1, window 'D'. */
  function Enveloped(e: Envelope, message: seq<byte>): seq<byte> {
    PdlFrame(5, 1, 0x44, e.number, DataFrame(0, e.localPath, e.remotePath, VipcMessage(e.ty, e.note, message)))
  }

  lemma EnvelopedLength(e: Envelope, message: seq<byte>)
    ensures |Enveloped(e, message)| == |message| + 16
  {
  }

  lemma FrameArrives(frame: seq<Crc.octet>, rx: FrameAutomaton.Rx)
    requires |frame| <= Framing.MAX_FRAME_SIZE && rx.phase == FrameAutomaton.FrameSearch
    ensures FrameAutomaton.Feed(rx, Framing.Encode(frame), true).1 == [FrameAutomaton.Frame(frame, false)]
  {
    FrameAutomaton.FeedAlone(rx, frame, Crc.Crc16(frame), true);
  }

  /**
   * For every request and every state the reply is written, fits the frame, and
   * comes out of the client's automaton as it went in.
   */
  method Respond(request: Request, serversConnId: nat, requestorsConnId: nat, status: nat, newConnection: nat,
                 target: Target, attachment: DirPaging.Attachment, host: seq<DirPaging.HostEntry>,
                 envelope: Envelope, ghost rx: FrameAutomaton.Rx)
    returns (frame: seq<byte>, wire: seq<Crc.octet>, ghost r: Response)
    requires attachment.Valid() && rx.phase == FrameAutomaton.FrameSearch
    modifies attachment
    ensures attachment.Valid() && Built(r) && |ResponseBytes(r)| <= MAX_MESSAGE_LENGTH
    ensures r.header == Header(WithResponseBit(RequestCode(request)),
                               if request == AttachRequest then (if status == 0 then newConnection else 0) else serversConnId,
                               requestorsConnId, status)
    ensures frame == Enveloped(envelope, ResponseBytes(r)) && |frame| <= Framing.MAX_FRAME_SIZE
    ensures FrameAutomaton.Feed(rx, wire, true).1 == [FrameAutomaton.Frame(Octets(frame), false)]
  {
    var reply := Answer(request, serversConnId, requestorsConnId, status, newConnection, target, attachment, host);
    r := reply;
    BuiltFits(reply);
    var outcome, message := WriteInto(reply, []);
    assert [] + ResponseBytes(reply) == ResponseBytes(reply);
    EnvelopedLength(envelope, message);
    frame := Enveloped(envelope, message);
    wire := Framing.WriteData(Octets(frame));
    FrameArrives(Octets(frame), rx);
  }

  // ---- from a request on the wire to the reply on the wire ----

  type word16 = n: nat | n < 0x10000

  /** What a data frame that carries a message says. */
  datatype Opened = Opened(number: byte, localPath: word16, remotePath: word16, ty: word16, note: word16, message: seq<byte>)

  /** Three layers off: link header, paths, message header; the length must be that of the rest. */
  function OpenFrame(d: seq<byte>): Option<Opened> {
    if |d| < 16 || d[0] != 5 || FromLittleEndian(d[4..6]) != 0 || FromLittleEndian(d[14..16]) != |d| - 16 then None
    else
      WordBelow(d[6..8]);
      WordBelow(d[8..10]);
      WordBelow(d[10..12]);
      WordBelow(d[12..14]);
      Some(Opened(d[3], FromLittleEndian(d[6..8]), FromLittleEndian(d[8..10]),
                  FromLittleEndian(d[10..12]), FromLittleEndian(d[12..14]), d[16..]))
  }

  /** An envelope that was closed around a message opens to it. */
  lemma EnvelopeOpens(e: Envelope, message: seq<byte>)
    requires e.ty < 0x10000 && e.note < 0x10000 && e.localPath < 0x10000 && e.remotePath < 0x10000 && |message| < 0x10000
    ensures OpenFrame(Enveloped(e, message)) == Some(Opened(e.number, e.localPath, e.remotePath, e.ty, e.note, message))
  {
    var d := Enveloped(e, message);
    WordRead(0);
    WordRead(e.localPath);
    WordRead(e.remotePath);
    WordRead(e.ty);
    WordRead(e.note);
    WordRead(|message|);
    Layers([5, 1, 0x44, e.number], LittleEndian(0, 2), LittleEndian(e.localPath, 2), LittleEndian(e.remotePath, 2),
           LittleEndian(e.ty, 2), LittleEndian(e.note, 2), LittleEndian(|message|, 2), message);
  }

  lemma Layers(head: seq<byte>, a: seq<byte>, b: seq<byte>, c: seq<byte>, x: seq<byte>, y: seq<byte>, z: seq<byte>, rest: seq<byte>)
    requires |head| == 4 && |a| == |b| == |c| == |x| == |y| == |z| == 2
    ensures var d := head + (a + b + c + (x + y + z + rest));
            && d[0] == head[0] && d[3] == head[3] && d[4..6] == a && d[6..8] == b && d[8..10] == c
            && d[10..12] == x && d[12..14] == y && d[14..16] == z && d[16..] == rest
  {
  }

  /** A reply goes back the way the request came. */
  function ReplyEnvelope(incoming: Opened, number: byte): Envelope {
    Envelope(incoming.ty, incoming.note, incoming.remotePath, incoming.localPath, number)
  }

  /** The request's code with the top bit set, its connection ids in reply order, and the status. */
  ghost predicate Answers(d: seq<byte>, m: seq<byte>, status: nat, newConnection: nat) {
    && |d| >= 6 && |m| >= 8
    && FromLittleEndian(m[0..2]) >= 0x8000 && FromLittleEndian(m[0..2]) % 0x8000 == FromLittleEndian(d[0..2]) % 0x8000
    && FromLittleEndian(m[2..4])
       == (if d[0..2] != LittleEndian(8, 2) then FromLittleEndian(d[4..6]) else if status == 0 then newConnection else 0)
    && FromLittleEndian(m[4..6]) == FromLittleEndian(d[2..4]) && FromLittleEndian(m[6..8]) == status
  }

  lemma HeaderAnswers(d: seq<byte>, r: Response, status: nat, newConnection: nat)
    requires ParseRequest(d).Some? && WellFormed(r) && status < 0x10000 && newConnection < 0x10000
    requires r.header == Header(WithResponseBit(RequestCode(ParseRequest(d).value)),
                                if ParseRequest(d).value == AttachRequest then (if status == 0 then newConnection else 0)
                                else FromLittleEndian(d[4..6]),
                                FromLittleEndian(d[2..4]), status)
    ensures Answers(d, ResponseBytes(r), status, newConnection)
  {
    WordBelow(d[0..2]);
    WordBelow(d[2..4]);
    WordBelow(d[4..6]);
    ParsedCode(d);
    HeaderFields(r.header);
    AttachCode(d[0..2]);
    StartsWithHeader(ResponseBytes(r), HeaderBytes(r.header), r);
  }

  lemma StartsWithHeader(m: seq<byte>, h: seq<byte>, r: Response)
    requires WellFormed(r) && m == ResponseBytes(r) && h == HeaderBytes(r.header)
    ensures |m| >= 8 && m[0..2] == h[0..2] && m[2..4] == h[2..4] && m[4..6] == h[4..6] && m[6..8] == h[6..8]
  {
    assert m[..8] == h;
    assert m[0..2] == m[..8][0..2] && m[2..4] == m[..8][2..4] && m[4..6] == m[..8][4..6] && m[6..8] == m[..8][6..8];
  }

  lemma AttachCode(code: seq<byte>)
    requires |code| == 2
    ensures FromLittleEndian(code) == 8 <==> code == LittleEndian(8, 2)
  {
    WordRead(8);
    LittleEndianCanonical(code);
  }

  /**
   * Bytes to bytes: whatever request arrives and whatever comes of it, the frame
   * sent back is at most 530 bytes, comes out of the client's automaton, opens to
   * a message on the way the request came, and that message answers the request.
   */
  method RespondTo(incoming: Opened, number: byte, status: word16, newConnection: word16,
                   target: Target, attachment: DirPaging.Attachment, host: seq<DirPaging.HostEntry>, ghost rx: FrameAutomaton.Rx)
    returns (frame: seq<byte>, wire: seq<Crc.octet>)
    requires ParseRequest(incoming.message).Some? && attachment.Valid() && rx.phase == FrameAutomaton.FrameSearch
    modifies attachment
    ensures attachment.Valid() && |frame| <= Framing.MAX_FRAME_SIZE
    ensures FrameAutomaton.Feed(rx, wire, true).1 == [FrameAutomaton.Frame(Octets(frame), false)]
    ensures var reply := OpenFrame(frame);
            && reply.Some?
            && reply.value == Opened(number, incoming.remotePath, incoming.localPath, incoming.ty, incoming.note, reply.value.message)
            && Answers(incoming.message, reply.value.message, status, newConnection)
  {
    var d, e := incoming.message, ReplyEnvelope(incoming, number);
    ghost var r;
    frame, wire, r := Respond(ParseRequest(d).value, FromLittleEndian(d[4..6]), FromLittleEndian(d[2..4]), status, newConnection,
                              target, attachment, host, e, rx);
    HeaderAnswers(d, r, status, newConnection);
    EnvelopeOpens(e, ResponseBytes(r));
  }

  /** Behind the header stands the length of the data, then the data. */
  lemma DataReadBack(h: Header, data: seq<byte>)
    requires |data| < 0x10000
    ensures var m := ResponseBytes(Read(h, data));
            FromLittleEndian(m[8..10]) == |data| && m[10..] == data
  {
    WordRead(|data|);
    var m := ResponseBytes(Read(h, data));
    assert m[8..10] == LittleEndian(|data|, 2);
  }

  /** The bound is reached: a full page is a full frame. */
  lemma FullPageFullFrame(h: Header, data: seq<byte>, e: Envelope)
    requires |data| == MAX_READ_LENGTH
    ensures |Enveloped(e, ResponseBytes(Read(h, data)))| == Framing.MAX_FRAME_SIZE
  {
  }
}
