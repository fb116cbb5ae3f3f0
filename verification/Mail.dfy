/**
 * Mail objects on the wire: building the detail of a message, checking that it
 * fits, and parsing an outgoing object that may carry a stale tail.
 */
module Mail {
  import opened Bytes
  import opened Tlv

  const RECORDS := MarkerU16(RECORD_MARKER)
  const TAG_HEADER: byte := 0x62
  const TAG_RECIPIENT: byte := 0x74
  const TAG_SENDER: byte := 0x66
  const TAG_DISPLAY_SENDER: byte := 0x6B
  const TAG_SUBJECT: byte := 0x73
  const TAG_BODY: byte := 0x6E
  const TAG_TERMINATOR: byte := 0x7A
  const STATUS_READ: byte := 1

  const U16_MAX: nat := 0xFFFF
  const MAX_TAG_VALUE: nat := U16_MAX - 1
  const TAG_LEN: nat := 1
  const RECORD_HEADER_LEN: nat := 3
  const TRANSPORT_HEADER_LEN: nat := 4
  const MAIL_HEADER_VALUE_LEN: nat := 12

  // ---- records ----

  /** A record; a payload its length field cannot name is cut. */
  function AppFrame(marker: byte, payload: seq<byte>): seq<byte> {
    var kept := if |payload| > U16_MAX then payload[..U16_MAX] else payload;
    [marker] + LittleEndian(|kept|, 2) + kept
  }

  function TaggedRecord(e: Entry): seq<byte> {
    AppFrame(RECORD_MARKER, [e.tag] + e.value)
  }

  function Records(entries: seq<Entry>): seq<byte> {
    if entries == [] then [] else TaggedRecord(entries[0]) + Records(entries[1..])
  }

  function Goods(entries: seq<Entry>): seq<Item> {
    if entries == [] then [] else [Good(entries[0])] + Goods(entries[1..])
  }

  lemma RecordRead(e: Entry, rest: seq<byte>)
    requires |e.value| <= MAX_TAG_VALUE
    ensures ReadEntry(RECORDS, TaggedRecord(e) + rest) == Some(Parsed(e, rest))
  {
    assert TaggedRecord(e) == LongRecord(RECORD_MARKER, e);
    LongRecordRead(RECORD_MARKER, e, rest);
  }

  /** Whole records are walked as what they were made from. */
  lemma {:induction false} RecordsWalk(entries: seq<Entry>)
    requires forall i :: 0 <= i < |entries| ==> |entries[i].value| <= MAX_TAG_VALUE
    ensures Walk(RECORDS, Records(entries)) == Goods(entries)
  {
    if entries != [] {
      var first, more := entries[0], Records(entries[1..]);
      RecordRead(first, more);
      RecordsWalk(entries[1..]);
    }
  }

  lemma {:induction false} GoodsPrefix(entries: seq<Entry>)
    ensures AllGood(Goods(entries)) && Prefix(Goods(entries)) == entries
  {
    if entries != [] {
      GoodsPrefix(entries[1..]);
      assert Goods(entries)[1..] == Goods(entries[1..]);
    }
  }

  /** Records followed by anything: the walk starts with exactly these entries. */
  lemma RecordsThenAnything(entries: seq<Entry>, tail: seq<byte>)
    requires forall i :: 0 <= i < |entries| ==> |entries[i].value| <= MAX_TAG_VALUE
    ensures Prefix(Walk(RECORDS, Records(entries) + tail)) == entries + Prefix(Walk(RECORDS, tail))
  {
    RecordsWalk(entries);
    GoodsPrefix(entries);
    WalkAppend(RECORDS, Records(entries), tail);
    PrefixAppend(Goods(entries), Walk(RECORDS, tail));
  }

  // ---- parsing an outgoing object ----

  datatype Outgoing = Outgoing(recipient: seq<byte>, subject: seq<byte>, body: seq<byte>)

  predicate Ascii(s: seq<byte>) {
    forall i :: 0 <= i < |s| ==> s[i] < 0x80
  }

  /** The value of the first body record with an empty terminator right behind it. */
  function BodyOf(entries: seq<Entry>): Option<seq<byte>> {
    if |entries| < 2 then None
    else if entries[0].tag == TAG_BODY && entries[1] == Entry(TAG_TERMINATOR, []) then Some(entries[0].value)
    else BodyOf(entries[1..])
  }

  function ParseEntries(entries: seq<Entry>): Option<Outgoing> {
    var recipient := FirstTagged(entries, TAG_RECIPIENT);
    var subject := FirstTagged(entries, TAG_SUBJECT);
    var body := BodyOf(entries);
    if recipient.None? || !Ascii(recipient.value) || subject.None? || !Ascii(subject.value)
       || body.None? || !Ascii(body.value)
    then None
    else Some(Outgoing(recipient.value, subject.value, body.value))
  }

  ghost function Parse(d: seq<byte>): Option<Outgoing> {
    ParseEntries(Prefix(Walk(RECORDS, d)))
  }

  method FindBody(d: seq<byte>) returns (r: Option<seq<byte>>)
    ensures r == BodyOf(Prefix(Walk(RECORDS, d)))
  {
    var entries := WellFormedPrefix(d, RECORDS);
    ghost var all := BodyOf(entries);
    var k := 0;
    while k + 1 < |entries|
      invariant k <= |entries| && BodyOf(entries[k..]) == all
    {
      if entries[k].tag == TAG_BODY && entries[k + 1].tag == TAG_TERMINATOR && entries[k + 1].value == [] {
        return Some(entries[k].value);
      }
      assert entries[k..][1..] == entries[k + 1..];
      k := k + 1;
    }
    return None;
  }

  method ParseOutgoing(d: seq<byte>) returns (r: Option<Outgoing>)
    ensures r == Parse(d)
  {
    var recipient := FindTag(d, RECORDS, TAG_RECIPIENT);
    if recipient.None? || !Ascii(recipient.value) { return None; }
    var subject := FindTag(d, RECORDS, TAG_SUBJECT);
    if subject.None? || !Ascii(subject.value) { return None; }
    var body := FindBody(d);
    if body.None? || !Ascii(body.value) { return None; }
    r := Some(Outgoing(recipient.value, subject.value, body.value));
  }

  lemma {:induction false} BodyAppend(a: seq<Entry>, b: seq<Entry>)
    requires BodyOf(a).Some?
    ensures BodyOf(a + b) == BodyOf(a)
  {
    assert (a + b)[0] == a[0] && (a + b)[1] == a[1] && (a + b)[1..] == a[1..] + b;
    if !(a[0].tag == TAG_BODY && a[1] == Entry(TAG_TERMINATOR, [])) {
      BodyAppend(a[1..], b);
    }
  }

  /** Entries that hold all three fields settle the parse, whatever comes behind. */
  lemma FieldsSettle(a: seq<Entry>, b: seq<Entry>)
    requires FirstTagged(a, TAG_RECIPIENT).Some? && FirstTagged(a, TAG_SUBJECT).Some? && BodyOf(a).Some?
    ensures ParseEntries(a + b) == ParseEntries(a)
  {
    FirstTaggedAppend(a, b, TAG_RECIPIENT);
    FirstTaggedAppend(a, b, TAG_SUBJECT);
    BodyAppend(a, b);
  }

  /** A stale tail behind a well-formed object that parses changes nothing. */
  lemma StaleTailHarmless(d: seq<byte>, tail: seq<byte>)
    requires AllGood(Walk(RECORDS, d)) && Parse(d).Some?
    ensures Parse(d + tail) == Parse(d)
  {
    WalkAppend(RECORDS, d, tail);
    PrefixAppend(Walk(RECORDS, d), Walk(RECORDS, tail));
    FieldsSettle(Prefix(Walk(RECORDS, d)), Prefix(Walk(RECORDS, tail)));
  }

  // ---- the detail of a stored message ----

  datatype Message = Message(mailId: nat, recipient: seq<byte>, sender: seq<byte>, subject: seq<byte>, body: seq<byte>)

  function DetailEntries(m: Message): seq<Entry> {
    [Entry(TAG_HEADER, LittleEndian(m.mailId, 4) + Zeros(2) + Zeros(4) + [STATUS_READ]),
     Entry(TAG_RECIPIENT, m.recipient),
     Entry(TAG_SENDER, m.sender),
     Entry(TAG_DISPLAY_SENDER, m.sender),
     Entry(TAG_SUBJECT, m.subject),
     Entry(TAG_BODY, m.body),
     Entry(TAG_TERMINATOR, [])]
  }

  /** The records, and the body once more in the raw. */
  function MailDetail(m: Message): seq<byte> {
    Records(DetailEntries(m)) + m.body
  }

  function Transport(flags: byte, connectionId: byte, data: seq<byte>): seq<byte> {
    [flags, connectionId, 0, 0] + data
  }

  /** The server's arithmetic, done before a message is accepted. */
  method FitsVipcPayload(m: Message) returns (fits: bool)
    ensures fits <==> NothingCut(m) && forall flags, conn :: |Transport(flags, conn, MailDetail(m))| <= U16_MAX
  {
    var fields := [m.recipient, m.sender, m.sender, m.subject, m.body];
    var recordOverhead := |fields| * (RECORD_HEADER_LEN + TAG_LEN);
    var fixedLength := MAIL_HEADER_VALUE_LEN + RECORD_HEADER_LEN + RECORD_HEADER_LEN + TAG_LEN + TRANSPORT_HEADER_LEN;
    var total := fixedLength + recordOverhead + |m.body|;
    var allShort := true;
    var k := 0;
    ghost var start := total;
    while k < |fields|
      invariant 0 <= k <= |fields| && total == start + SumOf(fields[..k])
      invariant allShort <==> forall i :: 0 <= i < k ==> |fields[i]| <= MAX_TAG_VALUE
    {
      assert fields[..k + 1][..k] == fields[..k];
      allShort := allShort && |fields[k]| <= MAX_TAG_VALUE;
      total := total + |fields[k]|;
      k := k + 1;
    }
    fits := allShort && total <= U16_MAX;
    assert fields[..k] == fields;
    FiveSum(fields);
    CutExactly(m);
    if allShort { DetailLength(m); }
    assert forall flags, conn :: |Transport(flags, conn, MailDetail(m))| == TRANSPORT_HEADER_LEN + |MailDetail(m)|;
    assert |Transport(0, 0, MailDetail(m))| == TRANSPORT_HEADER_LEN + |MailDetail(m)|;
  }

  function SumOf(fields: seq<seq<byte>>): nat {
    if fields == [] then 0 else SumOf(fields[..|fields| - 1]) + |fields[|fields| - 1]|
  }

  lemma FiveSum(f: seq<seq<byte>>)
    requires |f| == 5
    ensures SumOf(f) == |f[0]| + |f[1]| + |f[2]| + |f[3]| + |f[4]|
  {
    assert f[..4][..3] == f[..3] && f[..3][..2] == f[..2] && f[..2][..1] == f[..1] && f[..1][..0] == [];
    assert SumOf(f[..1]) == |f[0]|;
    assert SumOf(f[..2]) == |f[0]| + |f[1]|;
    assert SumOf(f[..3]) == |f[0]| + |f[1]| + |f[2]|;
  }

  /** No record of the detail was cut: each carries its whole value behind a tag and a header. */
  ghost predicate NothingCut(m: Message) {
    forall i :: 0 <= i < |DetailEntries(m)| ==>
      |TaggedRecord(DetailEntries(m)[i])| == RECORD_HEADER_LEN + TAG_LEN + |DetailEntries(m)[i].value|
  }

  lemma CutExactly(m: Message)
    ensures NothingCut(m) <==> |m.recipient| <= MAX_TAG_VALUE && |m.sender| <= MAX_TAG_VALUE
                               && |m.subject| <= MAX_TAG_VALUE && |m.body| <= MAX_TAG_VALUE
  {
    var e := DetailEntries(m);
    if NothingCut(m) {
      assert e[1].value == m.recipient && e[2].value == m.sender && e[4].value == m.subject && e[5].value == m.body;
    }
  }

  lemma RecordsCons(e: Entry, more: seq<Entry>)
    requires |e.value| <= MAX_TAG_VALUE
    ensures |Records([e] + more)| == RECORD_HEADER_LEN + TAG_LEN + |e.value| + |Records(more)|
  {
    assert ([e] + more)[1..] == more;
  }

  lemma DetailLength(m: Message)
    requires NothingCut(m)
    ensures |MailDetail(m)| == 39 + |m.recipient| + 2 * |m.sender| + |m.subject| + 2 * |m.body|
  {
    CutExactly(m);
    var e := DetailEntries(m);
    var r6 := [e[6]] + [];
    var r5 := [e[5]] + r6;
    var r4 := [e[4]] + r5;
    var r3 := [e[3]] + r4;
    var r2 := [e[2]] + r3;
    var r1 := [e[1]] + r2;
    RecordsCons(e[0], r1);
    RecordsCons(e[1], r2);
    RecordsCons(e[2], r3);
    RecordsCons(e[3], r4);
    RecordsCons(e[4], r5);
    RecordsCons(e[5], r6);
    RecordsCons(e[6], []);
    assert e == [e[0]] + r1;
  }

  lemma DetailFields(m: Message)
    ensures var e := DetailEntries(m);
            && FirstTagged(e, TAG_RECIPIENT) == Some(m.recipient)
            && FirstTagged(e, TAG_SUBJECT) == Some(m.subject)
            && FirstTagged(e, TAG_SENDER) == Some(m.sender) && FirstTagged(e, TAG_DISPLAY_SENDER) == Some(m.sender)
            && BodyOf(e) == Some(m.body)
  {
    var e := DetailEntries(m);
    assert e[1..][1..] == e[2..] && e[2..][1..] == e[3..] && e[3..][1..] == e[4..] && e[4..][1..] == e[5..];
    assert FirstTagged(e[2..], TAG_SENDER) == Some(m.sender);
    assert FirstTagged(e[2..], TAG_DISPLAY_SENDER) == Some(m.sender);
    assert FirstTagged(e[4..], TAG_SUBJECT) == Some(m.subject);
    assert FirstTagged(e[2..], TAG_SUBJECT) == Some(m.subject);
    assert BodyOf(e[5..]) == Some(m.body);
    assert BodyOf(e[3..]) == Some(m.body);
    assert BodyOf(e[1..]) == Some(m.body);
  }

  /** The mail id in front, the status at the end, zeros between. */
  ghost predicate IsHeader(value: seq<byte>, mailId: nat) {
    && |value| == 11 && FromLittleEndian(value[..4]) == mailId && value[10] == STATUS_READ
    && forall i :: 4 <= i < 10 ==> value[i] == 0
  }

  lemma HeaderValue(m: Message)
    requires m.mailId <= 0xFFFF_FFFF
    ensures DetailEntries(m)[0].tag == TAG_HEADER && IsHeader(DetailEntries(m)[0].value, m.mailId)
  {
    assert Pow256(4) == 0x1_0000_0000 by { assert Pow256(1) == 256 && Pow256(2) == 0x10000 && Pow256(3) == 0x100_0000; }
    LittleEndianRoundTrip(m.mailId, 4);
    assert DetailEntries(m)[0].value[..4] == LittleEndian(m.mailId, 4);
  }

  /** The header record leads and holds the mail id. */
  lemma DetailHeader(m: Message)
    requires NothingCut(m) && m.mailId <= 0xFFFF_FFFF
    ensures var value := FirstTagged(Prefix(Walk(RECORDS, MailDetail(m))), TAG_HEADER);
            value.Some? && IsHeader(value.value, m.mailId)
  {
    HeaderValue(m);
    var e, tail := DetailEntries(m), Prefix(Walk(RECORDS, m.body));
    assert Prefix(Walk(RECORDS, MailDetail(m))) == e + tail by {
      CutExactly(m);
      RecordsThenAnything(e, m.body);
    }
    assert (e + tail)[0] == e[0];
  }

  /**
   * A stored message that was not cut is read back as it was stored, exactly
   * when it is ASCII; the raw body behind the records does no harm.
   */
  lemma ReadBack(m: Message)
    requires NothingCut(m)
    ensures Parse(MailDetail(m)) ==
            if Ascii(m.recipient) && Ascii(m.subject) && Ascii(m.body)
            then Some(Outgoing(m.recipient, m.subject, m.body)) else None
  {
    CutExactly(m);
    RecordsThenAnything(DetailEntries(m), m.body);
    DetailFields(m);
    FieldsSettle(DetailEntries(m), Prefix(Walk(RECORDS, m.body)));
  }
}
