/**
 * The server's stored file: a 16-byte header followed by the logical body, kept
 * in one physical host file whose own cursor moves underneath.
 */
module GridFile {
  import opened Bytes
  import opened PlainFile

  const HEADER_MAGIC: seq<byte> := [71, 82, 105, 68, 105, 82, 71]
  const HEADER_FORMAT_VERSION: byte := 1

  type u32 = n: int | 0 <= n <= U32_MAX

  datatype FileError =
    | UnexpectedEof
    | InvalidHeaderMagic
    | UnsupportedHeaderVersion
    | DataTooShort
    | DataTooLarge
    | SeekBeforeStart

  datatype Result<+T> = Ok(value: T) | Err(error: FileError)

  datatype Header = Header(
    magic: seq<byte>,
    formatVersion: byte,
    versionMajor: byte,
    versionMinor: byte,
    versionPatch: byte,
    flags: byte,
    propertyLength: u32
  ) {
    predicate WellFormed() {
      magic == HEADER_MAGIC && formatVersion == HEADER_FORMAT_VERSION
    }

    function Validate(): Option<FileError> {
      if magic != HEADER_MAGIC then Some(InvalidHeaderMagic)
      else if formatVersion != HEADER_FORMAT_VERSION then Some(UnsupportedHeaderVersion)
      else None
    }

    function ToBytes(): (r: seq<byte>)
      requires |magic| == 7
      ensures |r| == HEADER_LENGTH
    {
      magic + [formatVersion, versionMajor, versionMinor, versionPatch, flags] + LittleEndian(propertyLength, 4)
    }
  }

  function HeaderFromBytes(b: seq<byte>): (h: Header)
    requires |b| == HEADER_LENGTH
    ensures |h.magic| == 7
  {
    LittleEndianCanonical(b[12..]);
    WordRange();
    Header(b[..7], b[7], b[8], b[9], b[10], b[11], FromLittleEndian(b[12..]))
  }

  lemma WordRange()
    ensures Pow256(4) == U32_MAX + 1
  {
    assert Pow256(1) == 256;
    assert Pow256(2) == 256 * Pow256(1);
    assert Pow256(3) == 256 * Pow256(2);
  }

  /** The sixteen header bytes and the header record determine each other. */
  lemma HeaderRoundTrip(h: Header, b: seq<byte>)
    requires |h.magic| == 7 && |b| == HEADER_LENGTH
    ensures HeaderFromBytes(h.ToBytes()) == h
    ensures HeaderFromBytes(b).ToBytes() == b
  {
    WordRange();
    LittleEndianRoundTrip(h.propertyLength, 4);
    var e := h.ToBytes();
    assert e[..7] == h.magic;
    assert e[12..] == LittleEndian(h.propertyLength, 4);
    LittleEndianCanonical(b[12..]);
    assert b == b[..7] + [b[7], b[8], b[9], b[10], b[11]] + b[12..];
  }

  /** Magic, format, version and flags byte by byte, then the property length, low byte first. */
  lemma HeaderLayout(h: Header)
    requires |h.magic| == 7
    ensures var b := h.ToBytes();
            && b[..7] == h.magic && b[7..12] == [h.formatVersion, h.versionMajor, h.versionMinor, h.versionPatch, h.flags]
            && b[12] as int + 0x100 * b[13] as int + 0x1_0000 * b[14] as int + 0x100_0000 * b[15] as int == h.propertyLength
  {
    var b, n := h.ToBytes(), h.propertyLength;
    assert b[..7] == h.magic && b[7..12] == [h.formatVersion, h.versionMajor, h.versionMinor, h.versionPatch, h.flags];
    DwordBytes(n);
    assert b[12..] == LittleEndian(n, 4);
  }

  lemma DwordBytes(n: u32)
    ensures var b := LittleEndian(n, 4);
            b[0] as int + 0x100 * b[1] as int + 0x1_0000 * b[2] as int + 0x100_0000 * b[3] as int == n
  {
    var b := LittleEndian(n, 4);
    assert b[1..] == LittleEndian(n / 0x100, 3);
    assert b[1..][1..] == LittleEndian(n / 0x100 / 0x100, 2);
    assert b[1..][1..][1..] == LittleEndian(n / 0x100 / 0x100 / 0x100, 1);
  }

  /** An open host file: its bytes and the cursor of the descriptor. */
  class HostFile {
    var bytes: seq<byte>
    var cursor: nat

    constructor (bytes: seq<byte>)
      ensures this.bytes == bytes && cursor == 0
    {
      this.bytes := bytes;
      cursor := 0;
    }

    method SeekStart(offset: nat) returns (ok: bool)
      modifies this`cursor
      ensures ok == (offset <= HOST_MAX_OFFSET)
      ensures cursor == if ok then offset else old(cursor)
    {
      ok := offset <= HOST_MAX_OFFSET;
      if ok { cursor := offset; }
    }

    method Read(n: nat) returns (data: seq<byte>)
      modifies this`cursor
      ensures data == Clip(bytes, old(cursor), old(cursor) + n)
      ensures cursor == old(cursor) + |data|
    {
      data := Clip(bytes, cursor, cursor + n);
      cursor := cursor + |data|;
    }

    method Write(data: seq<byte>)
      modifies this
      ensures bytes == Overwrite(old(bytes), old(cursor), data)
      ensures cursor == old(cursor) + |data|
    {
      bytes := Overwrite(bytes, cursor, data);
      cursor := cursor + |data|;
    }

    method SetLen(n: nat)
      modifies this`bytes
      ensures bytes == Resize(old(bytes), n)
    {
      bytes := Resize(bytes, n);
    }
  }

  function LengthError(propertyLength: nat, n: nat): Option<FileError> {
    if n < propertyLength then Some(DataTooShort)
    else if n - propertyLength > U32_MAX then Some(DataTooLarge)
    else None
  }

  class GRiDFile {
    const host: HostFile
    var header: Header
    var bodyPos: nat

    ghost predicate Valid()
      reads this, host
    {
      && header.WellFormed()
      && |host.bytes| >= HEADER_LENGTH
      && host.bytes[..HEADER_LENGTH] == header.ToBytes()
      && LengthAllowed(header.propertyLength, |host.bytes| - HEADER_LENGTH)
      && bodyPos <= HOST_MAX_OFFSET - HEADER_LENGTH
    }

    /** The logical body and position, the only thing a client can observe. */
    ghost function View(): Plain
      reads this, host
      requires Valid()
    {
      Plain(host.bytes[HEADER_LENGTH..], bodyPos)
    }

    constructor (host: HostFile, header: Header)
      requires header.WellFormed()
      requires |host.bytes| >= HEADER_LENGTH && host.bytes[..HEADER_LENGTH] == header.ToBytes()
      requires LengthAllowed(header.propertyLength, |host.bytes| - HEADER_LENGTH)
      ensures Valid() && this.host == host && this.header == header
      ensures View() == Plain(host.bytes[HEADER_LENGTH..], 0)
    {
      this.host := host;
      this.header := header;
      bodyPos := 0;
    }

    /** Opening accepts exactly the physical files that satisfy the invariant. */
    static method FromFile(host: HostFile) returns (r: Result<GRiDFile>)
      requires host.cursor == 0
      modifies host
      ensures host.bytes == old(host.bytes)
      ensures r.Ok? <==>
        && |host.bytes| >= HEADER_LENGTH
        && var h := HeaderFromBytes(host.bytes[..HEADER_LENGTH]);
           h.WellFormed() && LengthAllowed(h.propertyLength, |host.bytes| - HEADER_LENGTH)
      ensures r.Ok? ==> fresh(r.value) && r.value.host == host && r.value.Valid()
      ensures r.Ok? ==> r.value.View() == Plain(host.bytes[HEADER_LENGTH..], 0)
    {
      var headerBytes := host.Read(HEADER_LENGTH);
      if |headerBytes| < HEADER_LENGTH { return Err(UnexpectedEof); }
      assert headerBytes == host.bytes[..HEADER_LENGTH];
      var header := HeaderFromBytes(headerBytes);
      HeaderRoundTrip(header, headerBytes);
      var invalid := header.Validate();
      if invalid.Some? { return Err(invalid.value); }
      var minimum := HEADER_LENGTH + header.propertyLength;
      if |host.bytes| < minimum { return Err(DataTooShort); }
      if |host.bytes| - minimum > U32_MAX { return Err(DataTooLarge); }
      var file := new GRiDFile(host, header);
      var _ := file.SeekBody(0);
      r := Ok(file);
    }

    /** Creation lays the header and the whole body down, whatever the host file held. */
    static method Create(host: HostFile, header: Header, body: seq<byte>) returns (r: Result<GRiDFile>)
      requires |header.magic| == 7
      modifies host
      ensures r.Ok? <==> LengthAllowed(header.propertyLength, |body|) && header.WellFormed()
      ensures r.Ok? ==> fresh(r.value) && r.value.host == host && r.value.Valid()
      ensures r.Ok? ==> r.value.header == header && r.value.View() == Plain(body, 0)
    {
      var bad := LengthError(header.propertyLength, |body|);
      if bad.Some? { return Err(bad.value); }
      host.SetLen(HEADER_LENGTH + |body|);
      var _ := host.SeekStart(0);
      var invalid := header.Validate();
      if invalid.Some? { return Err(invalid.value); }
      host.Write(header.ToBytes());
      host.Write(body);
      assert host.bytes == header.ToBytes() + body;
      var file := new GRiDFile(host, header);
      var _ := file.SeekBody(0);
      r := Ok(file);
    }

    method SeekBody(position: nat) returns (ok: bool)
      requires Valid()
      modifies host`cursor
      ensures Valid() && View() == old(View())
      ensures ok == (HEADER_LENGTH + position <= HOST_MAX_OFFSET)
      ensures ok ==> host.cursor == HEADER_LENGTH + position
    {
      ok := host.SeekStart(HEADER_LENGTH + position);
    }

    function BodyLength(): (n: nat)
      reads this, host
      requires Valid()
      ensures n == |View().body|
    {
      |host.bytes| - HEADER_LENGTH
    }

    method Read(n: nat) returns (data: seq<byte>)
      requires Valid()
      modifies this, host
      ensures Valid() && header == old(header) && host.bytes == old(host.bytes)
      ensures data == ReadBytes(old(View()), n)
      ensures View() == AfterRead(old(View()), n)
    {
      var bodyLength := BodyLength();
      if bodyPos >= bodyLength || n == 0 { return []; }
      var readLength := Min(n, bodyLength - bodyPos);
      var _ := SeekBody(bodyPos);
      ClipShift(host.bytes, HEADER_LENGTH, bodyPos, bodyPos + readLength);
      data := host.Read(readLength);
      bodyPos := bodyPos + |data|;
    }

    /** A write is refused exactly when the body would leave its allowed range. */
    method Write(data: seq<byte>) returns (r: Result<nat>)
      requires Valid()
      modifies this, host
      ensures Valid() && header == old(header)
      ensures host.bytes[..HEADER_LENGTH] == old(host.bytes[..HEADER_LENGTH])
      ensures r.Ok? <==> WriteAllowed(header.propertyLength, old(View()), data)
      ensures r.Ok? ==> r.value == |data| && View() == AfterWrite(old(View()), data)
      ensures r.Err? ==> View() == old(View())
    {
      if data == [] { return Ok(0); }
      var end := bodyPos + |data|;
      var bad := LengthError(header.propertyLength, Max(end, BodyLength()));
      if bad.Some? { return Err(bad.value); }
      var _ := SeekBody(bodyPos);
      OverwriteBehindHeader(host.bytes, bodyPos, data);
      host.Write(data);
      bodyPos := end;
      r := Ok(|data|);
    }

    method Seek(mode: SeekMode, n: u32) returns (r: Result<nat>)
      requires Valid()
      modifies this, host`cursor
      ensures Valid() && header == old(header)
      ensures r.Ok? <==> SeekAllowed(old(View()), mode, n)
      ensures r.Ok? ==> r.value == bodyPos
      ensures View() == AfterSeek(old(View()), mode, n)
    {
      var start := match mode
        case Absolute => 0
        case FromEnd => BodyLength()
        case _ => bodyPos;
      var target := if mode == Backward || mode == FromEnd then start - n else start + n;
      if target < 0 { return Err(SeekBeforeStart); }
      var ok := SeekBody(target);
      if !ok { return Err(SeekBeforeStart); }
      bodyPos := target;
      r := Ok(target);
    }

    method Truncate() returns (r: Result<()>)
      requires Valid()
      modifies host
      ensures Valid()
      ensures host.bytes[..HEADER_LENGTH] == old(host.bytes[..HEADER_LENGTH])
      ensures r.Ok? <==> LengthAllowed(header.propertyLength, bodyPos)
      ensures View() == AfterTruncate(header.propertyLength, old(View()))
    {
      var bad := LengthError(header.propertyLength, bodyPos);
      if bad.Some? { return Err(bad.value); }
      ghost var body := host.bytes[HEADER_LENGTH..];
      host.SetLen(HEADER_LENGTH + bodyPos);
      assert host.bytes[HEADER_LENGTH..] == Resize(body, bodyPos);
      r := Ok(());
    }

    /** A new header is accepted exactly when it suits the body, which it leaves alone. */
    method SetHeader(newHeader: Header) returns (r: Result<()>)
      requires Valid() && |newHeader.magic| == 7
      modifies this, host
      ensures Valid() && View() == old(View())
      ensures r.Ok? <==> LengthAllowed(newHeader.propertyLength, |View().body|) && newHeader.WellFormed()
      ensures header == if r.Ok? then newHeader else old(header)
    {
      var bad := LengthError(newHeader.propertyLength, BodyLength());
      if bad.Some? { return Err(bad.value); }
      var invalid := newHeader.Validate();
      if invalid.Some? { return Err(invalid.value); }
      header := newHeader;
      SyncHeader();
      r := Ok(());
    }

    method SyncHeader()
      requires header.WellFormed() && |host.bytes| >= HEADER_LENGTH
      requires LengthAllowed(header.propertyLength, |host.bytes| - HEADER_LENGTH)
      requires bodyPos <= HOST_MAX_OFFSET - HEADER_LENGTH
      modifies host
      ensures Valid() && View() == Plain(old(host.bytes[HEADER_LENGTH..]), bodyPos)
    {
      var physical := HEADER_LENGTH + bodyPos;
      var _ := host.SeekStart(0);
      host.Write(header.ToBytes());
      var _ := host.SeekStart(physical);
      assert host.bytes[HEADER_LENGTH..] == old(host.bytes[HEADER_LENGTH..]);
    }
  }

  /** Writing at `16 + at` in the physical file writes at `at` in the body. */
  lemma OverwriteBehindHeader(bytes: seq<byte>, at: nat, data: seq<byte>)
    requires |bytes| >= HEADER_LENGTH
    ensures var w := Overwrite(bytes, HEADER_LENGTH + at, data);
            w[..HEADER_LENGTH] == bytes[..HEADER_LENGTH]
            && w[HEADER_LENGTH..] == Overwrite(bytes[HEADER_LENGTH..], at, data)
  {
    var body := bytes[HEADER_LENGTH..];
    var w, v := Overwrite(bytes, HEADER_LENGTH + at, data), Overwrite(body, at, data);
    forall i: nat
      ensures ByteAt(w[HEADER_LENGTH..], i) == ByteAt(v, i)
    {
      assert ByteAt(w, HEADER_LENGTH + i) == Overlay(bytes, HEADER_LENGTH + at, data, HEADER_LENGTH + i);
    }
    SameBytes(w[HEADER_LENGTH..], v);
    forall i: nat
      ensures ByteAt(w[..HEADER_LENGTH], i) == ByteAt(bytes[..HEADER_LENGTH], i)
    {
      assert ByteAt(w, i) == Overlay(bytes, HEADER_LENGTH + at, data, i);
    }
    SameBytes(w[..HEADER_LENGTH], bytes[..HEADER_LENGTH]);
  }
}
