/**
 * The reference behaviour every file layer is compared with: an uncached byte
 * string with one position. A position may lie past the end; reading there
 * yields nothing and writing there fills the gap with zeros.
 */
module PlainFile {
  import opened Bytes

  /** Largest offset a host file accepts (a signed 64-bit offset). */
  const HOST_MAX_OFFSET := 0x7FFF_FFFF_FFFF_FFFF
  /** The fixed header in front of a stored body. */
  const HEADER_LENGTH := 16
  const U32_MAX := 0xFFFF_FFFF

  datatype Plain = Plain(body: seq<byte>, pos: nat)

  datatype SeekMode = Backward | Absolute | Forward | FromEnd

  function ReadBytes(f: Plain, n: nat): seq<byte> {
    Clip(f.body, f.pos, f.pos + n)
  }

  function AfterRead(f: Plain, n: nat): Plain {
    f.(pos := f.pos + |ReadBytes(f, n)|)
  }

  /** The byte at `i`, zero past the end. */
  function ByteAt(s: seq<byte>, i: nat): byte {
    if i < |s| then s[i] else 0
  }

  /** The byte at `i` once `data` is laid over `body` at `at`. */
  function Overlay(body: seq<byte>, at: nat, data: seq<byte>, i: nat): byte {
    if at <= i < at + |data| then data[i - at] else ByteAt(body, i)
  }

  /** `body` with `data` laid over it at `at`, grown if it reaches past the end. */
  function Overwrite(body: seq<byte>, at: nat, data: seq<byte>): (r: seq<byte>)
    ensures |r| == if data == [] then |body| else Max(|body|, at + |data|)
    ensures forall i: nat :: ByteAt(r, i) == Overlay(body, at, data, i)
  {
    if data == [] then body
    else seq(Max(|body|, at + |data|), i requires 0 <= i => Overlay(body, at, data, i))
  }

  lemma SameBytes(a: seq<byte>, b: seq<byte>)
    requires |a| == |b|
    requires forall i: nat :: ByteAt(a, i) == ByteAt(b, i)
    ensures a == b
  {
    forall i | 0 <= i < |a|
      ensures a[i] == b[i]
    {
      assert ByteAt(a, i) == ByteAt(b, i);
    }
  }

  function AfterWrite(f: Plain, data: seq<byte>): Plain {
    Plain(Overwrite(f.body, f.pos, data), f.pos + |data|)
  }

  /** Cut, or grown with zeros. */
  function Resize(body: seq<byte>, n: nat): (r: seq<byte>)
    ensures |r| == n && forall i :: 0 <= i < n ==> r[i] == ByteAt(body, i)
  {
    if n <= |body| then body[..n] else body + Zeros(n - |body|)
  }

  /** The absolute position a seek asks for; it may be negative. */
  function SeekPosition(f: Plain, mode: SeekMode, n: nat): int {
    match mode
    case Backward => f.pos - n
    case Absolute => n
    case Forward => f.pos + n
    case FromEnd => |f.body| - n
  }

  predicate SeekAllowed(f: Plain, mode: SeekMode, n: nat) {
    0 <= SeekPosition(f, mode, n) <= HOST_MAX_OFFSET - HEADER_LENGTH
  }

  /** A refused seek leaves the position alone. */
  function AfterSeek(f: Plain, mode: SeekMode, n: nat): Plain {
    if SeekAllowed(f, mode, n) then f.(pos := SeekPosition(f, mode, n)) else f
  }

  /** The body lengths a file with `propertyLength` bytes of properties may have. */
  predicate LengthAllowed(propertyLength: nat, n: nat) {
    propertyLength <= n <= propertyLength + U32_MAX
  }

  predicate WriteAllowed(propertyLength: nat, f: Plain, data: seq<byte>) {
    data == [] || LengthAllowed(propertyLength, Max(|f.body|, f.pos + |data|))
  }

  function AfterTruncate(propertyLength: nat, f: Plain): Plain {
    if LengthAllowed(propertyLength, f.pos) then f.(body := Resize(f.body, f.pos)) else f
  }

  // ---- what a seek means for the next read ----

  /** The largest body position a host file can be put at. */
  const MAX_POSITION := HOST_MAX_OFFSET - HEADER_LENGTH

  /** From the end: the next n bytes are the last n of the file. */
  lemma SeekFromEndReadsTail(f: Plain, n: nat)
    requires n <= |f.body| <= MAX_POSITION
    ensures ReadBytes(AfterSeek(f, FromEnd, n), n) == f.body[|f.body| - n..]
  {
  }

  /** From the start: what follows is the file without its first n bytes. */
  lemma SeekAbsoluteReadsRest(f: Plain, n: nat)
    requires n <= |f.body| <= MAX_POSITION
    ensures ReadBytes(AfterSeek(f, Absolute, n), |f.body|) == f.body[n..]
  {
  }

  /** Forward after a read of k bytes: of k + n + m bytes read at once, the last m. */
  lemma SeekForwardSkips(f: Plain, k: nat, n: nat, m: nat)
    requires f.pos + k + n <= |f.body| <= MAX_POSITION
    ensures ReadBytes(AfterSeek(AfterRead(f, k), Forward, n), m) == ReadBytes(f, k + n + m)[k + n..]
  {
    assert AfterSeek(AfterRead(f, k), Forward, n).pos == f.pos + k + n;
  }

  /** Backward over what was just read: it is read again. */
  lemma SeekBackwardRereads(f: Plain, k: nat)
    requires f.pos <= MAX_POSITION
    ensures ReadBytes(AfterSeek(AfterRead(f, k), Backward, |ReadBytes(f, k)|), k) == ReadBytes(f, k)
  {
  }

  /** Backward over what was just written: it is read as it was written. */
  lemma SeekBackwardReadsWritten(f: Plain, data: seq<byte>)
    requires f.pos <= MAX_POSITION
    ensures ReadBytes(AfterSeek(AfterWrite(f, data), Backward, |data|), |data|) == data
  {
    var g := AfterWrite(f, data);
    forall i | 0 <= i < |data| ensures g.body[f.pos + i] == data[i] {
      assert ByteAt(g.body, f.pos + i) == Overlay(f.body, f.pos, data, f.pos + i);
    }
  }

  /** A seek is refused exactly if it asks for a place before the start or one the host cannot name. */
  lemma SeekRefusedExactly(f: Plain, mode: SeekMode, n: nat)
    requires f.pos <= MAX_POSITION && |f.body| <= MAX_POSITION
    ensures !SeekAllowed(f, mode, n) <==>
            match mode
            case Backward => n > f.pos
            case FromEnd => n > |f.body|
            case Absolute => n > MAX_POSITION
            case Forward => n > MAX_POSITION - f.pos
  {
  }

  /** Truncation ends the file at the position; what was before it stays, and a gap is zeros. */
  lemma TruncateEndsHere(propertyLength: nat, f: Plain)
    requires LengthAllowed(propertyLength, f.pos)
    ensures var g := AfterTruncate(propertyLength, f);
            && |g.body| == g.pos == f.pos && ReadBytes(g, 1) == []
            && forall i :: 0 <= i < f.pos ==> g.body[i] == ByteAt(f.body, i)
  {
  }

  /** Writing a string in two pieces is writing it at once. */
  lemma WriteSplit(f: Plain, a: seq<byte>, b: seq<byte>)
    ensures AfterWrite(AfterWrite(f, a), b) == AfterWrite(f, a + b)
  {
    var once, mid := Overwrite(f.body, f.pos, a + b), Overwrite(f.body, f.pos, a);
    var twice := Overwrite(mid, f.pos + |a|, b);
    forall i: nat
      ensures ByteAt(once, i) == ByteAt(twice, i)
    {
      assert ByteAt(mid, i) == Overlay(f.body, f.pos, a, i);
    }
    SameBytes(once, twice);
  }

  /** Writing the first `k` bytes leaves the rest to be written, still within bounds. */
  lemma WriteFirst(propertyLength: nat, f: Plain, data: seq<byte>, k: nat)
    requires k <= |data|
    requires LengthAllowed(propertyLength, |f.body|) && WriteAllowed(propertyLength, f, data)
    ensures WriteAllowed(propertyLength, f, data[..k])
    ensures WriteAllowed(propertyLength, AfterWrite(f, data[..k]), data[k..])
    ensures AfterWrite(AfterWrite(f, data[..k]), data[k..]) == AfterWrite(f, data)
  {
    WriteSplit(f, data[..k], data[k..]);
    assert data == data[..k] + data[k..];
  }

  /** A page of a longer write: the rest is left, and stays allowed if the whole was. */
  lemma FirstPage(propertyLength: nat, f: Plain, data: seq<byte>)
    requires |data| > PAGE_SIZE && LengthAllowed(propertyLength, |f.body|)
    ensures AfterWrite(AfterWrite(f, data[..PAGE_SIZE]), data[PAGE_SIZE..]) == AfterWrite(f, data)
    ensures WriteAllowed(propertyLength, f, data) ==>
              && WriteAllowed(propertyLength, f, data[..PAGE_SIZE])
              && WriteAllowed(propertyLength, AfterWrite(f, data[..PAGE_SIZE]), data[PAGE_SIZE..])
  {
    WriteSplit(f, data[..PAGE_SIZE], data[PAGE_SIZE..]);
    assert data == data[..PAGE_SIZE] + data[PAGE_SIZE..];
    if WriteAllowed(propertyLength, f, data) { WriteFirst(propertyLength, f, data, PAGE_SIZE); }
  }

  /** Overwriting the tail of a region just written only changes that region. */
  lemma OverwriteWithin(body: seq<byte>, at: nat, page: seq<byte>, k: nat, data: seq<byte>)
    requires k <= |page|
    ensures Overwrite(Overwrite(body, at, page), at + k, data) == Overwrite(body, at, Overwrite(page, k, data))
  {
    var mid, filled := Overwrite(body, at, page), Overwrite(page, k, data);
    var l, r := Overwrite(mid, at + k, data), Overwrite(body, at, filled);
    forall i: nat
      ensures ByteAt(l, i) == ByteAt(r, i)
    {
      assert ByteAt(mid, i) == Overlay(body, at, page, i);
      if at <= i { assert ByteAt(filled, i - at) == Overlay(page, k, data, i - at); }
    }
    SameBytes(l, r);
  }
}
