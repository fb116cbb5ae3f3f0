/**
 * Mail requests arrive in fragments on seventeen channels. Each channel collects
 * its own request; splitting a request makes no difference to what is handled.
 */
module Fragments {
  import opened Bytes
  import opened Tlv

  const CHANNEL_COUNT: nat := 17
  const MAX_REQUEST: nat := 65536
  const MORE: nat := 1

  const SESSION_MARKER: byte := 0xFE
  const SESSION_COMMAND: byte := 0x61
  const TAG_SELECT: byte := 0x53
  const TAG_INITIALIZE: byte := 0x49
  const MAIL_SERVICE_ID: nat := 11400
  const PROTOCOL_VERSION: byte := 1

  // ---- what is done with a whole request ----

  datatype Reply = SessionOpened | EmptyResult | Accepted | Select(value: seq<byte>) | Ignored

  function SingleRecord(data: seq<byte>, marker: byte, tag: byte): Option<seq<byte>> {
    var items := Walk(MarkerU16(marker), data);
    if |items| == 1 && items[0].Good? && items[0].entry.tag == tag then Some(items[0].entry.value) else None
  }

  predicate EveryRecordValid(data: seq<byte>) {
    data != [] && AllGood(Walk(MarkerU16(RECORD_MARKER), data))
  }

  function Route(note: nat, data: seq<byte>): Reply {
    if note == 0 && SingleRecord(data, SESSION_MARKER, SESSION_COMMAND)
                    == Some(LittleEndian(MAIL_SERVICE_ID, 2) + [PROTOCOL_VERSION]) then SessionOpened
    else if note == 4 && data == [] then EmptyResult
    else if note == 6 && EveryRecordValid(data) then Accepted
    else if note == 7 then
      var value := SingleRecord(data, RECORD_MARKER, TAG_SELECT);
      if value.Some? && |value.value| >= 9 then Select(value.value) else Ignored
    else if note == 8 && data == [] then EmptyResult
    else if note == 0x0D then
      var value := SingleRecord(data, RECORD_MARKER, TAG_INITIALIZE);
      if value.Some? && |value.value| == 2 then EmptyResult else Ignored
    else if (note == 0x0E || note == 0x10) && data == [] then EmptyResult
    else Ignored
  }

  /** A request is a single record exactly if it is the bytes of that record. */
  lemma SingleRecordExactly(data: seq<byte>, marker: byte, tag: byte, value: seq<byte>)
    ensures SingleRecord(data, marker, tag) == Some(value)
            <==> |value| < 0xFFFF && data == LongRecord(marker, Entry(tag, value))
  {
    var kind, record := MarkerU16(marker), LongRecord(marker, Entry(tag, value));
    assert record + [] == record;
    if |value| < 0xFFFF && data == record {
      LongRecordRead(marker, Entry(tag, value), []);
      assert Walk(kind, data) == [Good(Entry(tag, value))] + [];
    }
    if SingleRecord(data, marker, tag) == Some(value) {
      LongRecordOnly(marker, data);
      var p := ReadEntry(kind, data).value;
      assert Walk(kind, data) == [Good(p.entry)] + Walk(kind, p.rest);
      assert p.rest == [];
    }
  }

  /** The one request the initialize channel takes: a record with a two-byte value. */
  predicate IsInitialize(data: seq<byte>) {
    |data| == 6 && data == LongRecord(RECORD_MARKER, Entry(TAG_INITIALIZE, data[4..]))
  }

  lemma InitializeExactly(data: seq<byte>)
    ensures var value := SingleRecord(data, RECORD_MARKER, TAG_INITIALIZE);
            value.Some? && |value.value| == 2 <==> IsInitialize(data)
  {
    var value := SingleRecord(data, RECORD_MARKER, TAG_INITIALIZE);
    if value.Some? && |value.value| == 2 {
      SingleRecordExactly(data, RECORD_MARKER, TAG_INITIALIZE, value.value);
      assert data[4..] == value.value;
    }
    if IsInitialize(data) {
      SingleRecordExactly(data, RECORD_MARKER, TAG_INITIALIZE, data[4..]);
    }
  }

  /** The bytes are records, one after the other and nothing else. */
  ghost predicate MadeOfRecords(data: seq<byte>) {
    exists entries :: Fit(entries) && data == Records(RECORD_MARKER, entries)
  }

  lemma MadeOfRecordsExactly(data: seq<byte>)
    ensures AllGood(Walk(MarkerU16(RECORD_MARKER), data)) <==> MadeOfRecords(data)
  {
    if AllGood(Walk(MarkerU16(RECORD_MARKER), data)) {
      RecordsOnly(RECORD_MARKER, data);
    }
    if MadeOfRecords(data) {
      var entries :| Fit(entries) && data == Records(RECORD_MARKER, entries);
      RecordsRead(RECORD_MARKER, entries);
    }
  }

  /** What each channel accepts, in bytes. */
  lemma RouteExactly(note: nat, data: seq<byte>, value: seq<byte>)
    ensures Route(note, data) == SessionOpened
            <==> note == 0 && data == LongRecord(SESSION_MARKER, Entry(SESSION_COMMAND, LittleEndian(MAIL_SERVICE_ID, 2) + [PROTOCOL_VERSION]))
    ensures Route(note, data) == Select(value)
            <==> note == 7 && 9 <= |value| < 0xFFFF && data == LongRecord(RECORD_MARKER, Entry(TAG_SELECT, value))
    ensures Route(note, data) == EmptyResult
            <==> (note in {4, 8, 0x0E, 0x10} && data == []) || (note == 0x0D && IsInitialize(data))
    ensures Route(note, data) == Accepted <==> note == 6 && data != [] && MadeOfRecords(data)
  {
    SingleRecordExactly(data, SESSION_MARKER, SESSION_COMMAND, LittleEndian(MAIL_SERVICE_ID, 2) + [PROTOCOL_VERSION]);
    SingleRecordExactly(data, RECORD_MARKER, TAG_SELECT, value);
    InitializeExactly(data);
    MadeOfRecordsExactly(data);
  }

  // ---- one channel ----

  datatype Pending = Pending(connectionId: byte, data: seq<byte>)

  const IDLE := Pending(0, [])

  /** A whole request. The answer is a function of it and the stored mail. */
  datatype Request = Request(note: nat, connectionId: byte, data: seq<byte>)

  function ReplyTo(request: Option<Request>): Reply {
    if request.None? then Ignored else Route(request.value.note, request.value.data)
  }

  datatype Fragment = Fragment(flags: byte, connectionId: byte, error: nat, data: seq<byte>)

  function ParseFragment(payload: seq<byte>): Option<Fragment> {
    if |payload| < 4 then None
    else Some(Fragment(payload[0], payload[1], FromLittleEndian(payload[2..4]), payload[4..]))
  }

  predicate HasMore(flags: byte) {
    flags as nat % 2 == MORE
  }

  /** One fragment: the channel afterwards, and the request if it was the last one. */
  function OnChannel(note: nat, p: Pending, payload: seq<byte>): (Pending, Option<Request>) {
    var f := ParseFragment(payload);
    if f.None? || f.value.error != 0 then (IDLE, None)
    else
      var kept := if p.data != [] && p.connectionId != f.value.connectionId then [] else p.data;
      if |kept| + |f.value.data| > MAX_REQUEST then (IDLE, None)
      else if HasMore(f.value.flags) then (Pending(f.value.connectionId, kept + f.value.data), None)
      else (IDLE, Some(Request(note, f.value.connectionId, kept + f.value.data)))
  }

  class MailServer {
    var fragments: seq<Pending>

    ghost predicate Valid()
      reads this
    {
      |fragments| == CHANNEL_COUNT && Bounded(fragments)
    }

    constructor ()
      ensures Valid() && fragments == seq(CHANNEL_COUNT, _ => IDLE)
    {
      fragments := seq(CHANNEL_COUNT, _ => IDLE);
    }

    method Process(note: nat, payload: seq<byte>) returns (request: Option<Request>, reply: Reply)
      requires Valid()
      modifies this
      ensures Valid() && (fragments, request) == Step(old(fragments), note, payload)
      ensures reply == ReplyTo(request)
    {
      if note >= |fragments| { return None, Ignored; }
      var fragment := ParseFragment(payload);
      if fragment.None? || fragment.value.error != 0 {
        fragments := fragments[note := IDLE];
        return None, Ignored;
      }
      var f := fragment.value;
      var pending := fragments[note];
      if pending.data != [] && pending.connectionId != f.connectionId { pending := IDLE; }
      pending := pending.(connectionId := f.connectionId);
      if |pending.data| + |f.data| > MAX_REQUEST {
        fragments := fragments[note := IDLE];
        return None, Ignored;
      }
      pending := pending.(data := pending.data + f.data);
      if HasMore(f.flags) {
        fragments := fragments[note := pending];
        return None, Ignored;
      }
      fragments := fragments[note := IDLE];
      request := Some(Request(note, pending.connectionId, pending.data));
      reply := Route(note, pending.data);
    }
  }

  // ---- all channels ----

  ghost predicate Bounded(state: seq<Pending>) {
    forall n :: 0 <= n < |state| ==> |state[n].data| <= MAX_REQUEST
  }

  function Step(state: seq<Pending>, note: nat, payload: seq<byte>): (seq<Pending>, Option<Request>) {
    if note >= |state| then (state, None)
    else
      var (p, request) := OnChannel(note, state[note], payload);
      (state[note := p], request)
  }

  datatype Arrival = Arrival(note: nat, payload: seq<byte>)

  /** The channels after a run, and what was answered, arrival by arrival. */
  function Run(state: seq<Pending>, arrivals: seq<Arrival>): (seq<Pending>, seq<Option<Request>>)
    decreases |arrivals|
  {
    if arrivals == [] then (state, [])
    else
      var (next, request) := Step(state, arrivals[0].note, arrivals[0].payload);
      var (last, more) := Run(next, arrivals[1..]);
      (last, [request] + more)
  }

  /** No channel ever holds more than the largest request. */
  lemma {:induction false} BoundedAlways(state: seq<Pending>, arrivals: seq<Arrival>)
    requires Bounded(state)
    ensures Bounded(Run(state, arrivals).0) && |Run(state, arrivals).0| == |state|
    decreases |arrivals|
  {
    if arrivals != [] {
      BoundedAlways(Step(state, arrivals[0].note, arrivals[0].payload).0, arrivals[1..]);
    }
  }

  // ---- channels do not touch each other ----

  function PayloadsOn(note: nat, arrivals: seq<Arrival>): seq<seq<byte>> {
    if arrivals == [] then []
    else (if arrivals[0].note == note then [arrivals[0].payload] else []) + PayloadsOn(note, arrivals[1..])
  }

  function AnswersOn(note: nat, arrivals: seq<Arrival>, answers: seq<Option<Request>>): seq<Option<Request>>
    requires |arrivals| == |answers|
  {
    if arrivals == [] then []
    else (if arrivals[0].note == note then [answers[0]] else []) + AnswersOn(note, arrivals[1..], answers[1..])
  }

  function RunChannel(note: nat, p: Pending, payloads: seq<seq<byte>>): (Pending, seq<Option<Request>>)
    decreases |payloads|
  {
    if payloads == [] then (p, [])
    else
      var (next, request) := OnChannel(note, p, payloads[0]);
      var (last, more) := RunChannel(note, next, payloads[1..]);
      (last, [request] + more)
  }

  lemma {:induction false} OneAnswerEach(state: seq<Pending>, arrivals: seq<Arrival>)
    ensures |Run(state, arrivals).1| == |arrivals| && |Run(state, arrivals).0| == |state|
    decreases |arrivals|
  {
    if arrivals != [] {
      OneAnswerEach(Step(state, arrivals[0].note, arrivals[0].payload).0, arrivals[1..]);
    }
  }

  /** What happens on a channel is what would happen with that channel's traffic alone. */
  lemma {:induction false} ChannelAlone(note: nat, state: seq<Pending>, arrivals: seq<Arrival>)
    requires note < |state|
    ensures |Run(state, arrivals).1| == |arrivals| && |Run(state, arrivals).0| == |state|
    ensures RunChannel(note, state[note], PayloadsOn(note, arrivals))
            == (Run(state, arrivals).0[note], AnswersOn(note, arrivals, Run(state, arrivals).1))
    decreases |arrivals|
  {
    OneAnswerEach(state, arrivals);
    if arrivals != [] {
      var first := arrivals[0];
      var next := Step(state, first.note, first.payload).0;
      ChannelAlone(note, next, arrivals[1..]);
      var answers := Run(state, arrivals).1;
      assert answers[1..] == Run(next, arrivals[1..]).1;
      var rest := PayloadsOn(note, arrivals[1..]);
      if first.note == note {
        assert PayloadsOn(note, arrivals) == [first.payload] + rest;
        assert ([first.payload] + rest)[1..] == rest;
      } else {
        assert PayloadsOn(note, arrivals) == [] + rest == rest;
        assert AnswersOn(note, arrivals, answers) == AnswersOn(note, arrivals[1..], answers[1..]);
      }
    }
  }

  // ---- splitting a request ----

  datatype Part = Part(flags: byte, data: seq<byte>)

  function Whole(parts: seq<Part>): seq<byte> {
    if parts == [] then [] else parts[0].data + Whole(parts[1..])
  }

  /** Every part but the last says that more follows. */
  ghost predicate Split(parts: seq<Part>) {
    parts != [] && forall i :: 0 <= i < |parts| ==> (HasMore(parts[i].flags) <==> i < |parts| - 1)
  }

  function Packed(connectionId: byte, part: Part): seq<byte> {
    [part.flags, connectionId, 0, 0] + part.data
  }

  function PackedAll(connectionId: byte, parts: seq<Part>): seq<seq<byte>> {
    if parts == [] then [] else [Packed(connectionId, parts[0])] + PackedAll(connectionId, parts[1..])
  }

  function Nothing(n: nat): seq<Option<Request>> {
    seq(n, _ => None)
  }

  lemma PackedParses(connectionId: byte, part: Part)
    ensures ParseFragment(Packed(connectionId, part)) == Some(Fragment(part.flags, connectionId, 0, part.data))
  {
    var d := Packed(connectionId, part);
    assert d[2..4] == [0, 0] && d[4..] == part.data;
    assert [0 as byte, 0][1..] == [0] && [0 as byte][1..] == [];
    assert FromLittleEndian([0 as byte]) == 0;
  }

  lemma RunChannelStep(note: nat, p: Pending, payload: seq<byte>, more: seq<seq<byte>>)
    ensures var (next, request) := OnChannel(note, p, payload);
            RunChannel(note, p, [payload] + more) == (RunChannel(note, next, more).0, [request] + RunChannel(note, next, more).1)
  {
    assert ([payload] + more)[0] == payload && ([payload] + more)[1..] == more;
  }

  /** A part with more to follow is only collected. */
  lemma PartCollected(note: nat, p: Pending, connectionId: byte, part: Part)
    requires HasMore(part.flags) && |p.data| + |part.data| <= MAX_REQUEST
    requires p.data != [] ==> p.connectionId == connectionId
    ensures OnChannel(note, p, Packed(connectionId, part)) == (Pending(connectionId, p.data + part.data), None)
  {
    PackedParses(connectionId, part);
  }

  /** The last part releases the whole. */
  lemma LastPart(note: nat, p: Pending, connectionId: byte, part: Part)
    requires !HasMore(part.flags) && |p.data| + |part.data| <= MAX_REQUEST
    requires p.data != [] ==> p.connectionId == connectionId
    ensures OnChannel(note, p, Packed(connectionId, part))
            == (IDLE, Some(Request(note, connectionId, p.data + part.data)))
  {
    PackedParses(connectionId, part);
  }

  lemma SplitRest(parts: seq<Part>)
    requires Split(parts) && |parts| > 1
    ensures HasMore(parts[0].flags) && Split(parts[1..])
  {
    var rest := parts[1..];
    forall i | 0 <= i < |rest| ensures HasMore(rest[i].flags) <==> i < |rest| - 1 {
      assert rest[i] == parts[i + 1];
    }
  }

  lemma NothingMore(n: nat, answer: Option<Request>)
    ensures [None] + (Nothing(n) + [answer]) == Nothing(n + 1) + [answer]
  {
  }

  lemma AnsweredAlone(note: nat, p: Pending, payload: seq<byte>, answer: Option<Request>)
    requires OnChannel(note, p, payload) == (IDLE, answer)
    ensures RunChannel(note, p, [payload]) == (IDLE, [answer])
  {
    assert [payload][1..] == [];
    assert RunChannel(note, IDLE, []) == (IDLE, []);
    assert [answer] + [] == [answer];
  }

  lemma OnePart(note: nat, p: Pending, connectionId: byte, part: Part)
    requires !HasMore(part.flags) && |p.data| + |part.data| <= MAX_REQUEST
    requires p.data != [] ==> p.connectionId == connectionId
    ensures RunChannel(note, p, [Packed(connectionId, part)]) == (IDLE, [Some(Request(note, connectionId, p.data + part.data))])
  {
    LastPart(note, p, connectionId, part);
    AnsweredAlone(note, p, Packed(connectionId, part), Some(Request(note, connectionId, p.data + part.data)));
  }

  lemma MoreCollected(note: nat, p: Pending, connectionId: byte, part: Part, tail: seq<seq<byte>>, n: nat, answer: Option<Request>)
    requires HasMore(part.flags) && |p.data| + |part.data| <= MAX_REQUEST
    requires p.data != [] ==> p.connectionId == connectionId
    requires RunChannel(note, Pending(connectionId, p.data + part.data), tail) == (IDLE, Nothing(n) + [answer])
    ensures RunChannel(note, p, [Packed(connectionId, part)] + tail) == (IDLE, Nothing(n + 1) + [answer])
  {
    PartCollected(note, p, connectionId, part);
    RunChannelStep(note, p, Packed(connectionId, part), tail);
    NothingMore(n, answer);
  }

  /** The parts are collected behind what is there, and answered once. */
  lemma {:induction false} Collected(note: nat, p: Pending, connectionId: byte, parts: seq<Part>, all: seq<byte>)
    requires Split(parts) && all == p.data + Whole(parts) && |all| <= MAX_REQUEST
    requires p.data != [] ==> p.connectionId == connectionId
    ensures RunChannel(note, p, PackedAll(connectionId, parts))
            == (IDLE, Nothing(|parts| - 1) + [Some(Request(note, connectionId, all))])
    decreases |parts|
  {
    var first, rest := parts[0], parts[1..];
    var answer := Some(Request(note, connectionId, all));
    if |parts| == 1 {
      assert all == p.data + first.data by { assert Whole(parts) == first.data + Whole(rest) && Whole(rest) == []; }
      assert PackedAll(connectionId, parts) == [Packed(connectionId, first)] by { assert PackedAll(connectionId, rest) == []; }
      OnePart(note, p, connectionId, first);
      assert Nothing(0) + [answer] == [answer];
    } else {
      var next := Pending(connectionId, p.data + first.data);
      assert HasMore(first.flags) && Split(rest) by { SplitRest(parts); }
      assert all == next.data + Whole(rest);
      Collected(note, next, connectionId, rest, all);
      MoreCollected(note, p, connectionId, first, PackedAll(connectionId, rest), |rest| - 1, answer);
    }
  }

  // ---- what is dropped ----

  /** A half request is there, of another connection. */
  predicate OfAnother(p: Pending, connectionId: byte) {
    p.data != [] && p.connectionId != connectionId
  }

  /** The half request of another connection is dropped and leaves no byte behind. */
  lemma AnotherIsDropped(note: nat, p: Pending, connectionId: byte, part: Part)
    requires OfAnother(p, connectionId) && |part.data| <= MAX_REQUEST
    ensures OnChannel(note, p, Packed(connectionId, part))
            == if HasMore(part.flags) then (Pending(connectionId, part.data), None)
               else (IDLE, Some(Request(note, connectionId, part.data)))
  {
    PackedParses(connectionId, part);
    assert [] + part.data == part.data;
  }

  /** A fragment too short for its header, or with an error in it, drops what was collected and answers nothing. */
  lemma FaultIsDropped(note: nat, p: Pending, payload: seq<byte>)
    requires |payload| < 4 || payload[2] != 0 || payload[3] != 0
    ensures OnChannel(note, p, payload) == (IDLE, None)
  {
    if |payload| >= 4 {
      var word := payload[2..4];
      assert word[1..][1..] == [];
      assert FromLittleEndian(word) == word[0] as nat + 256 * (word[1] as nat + 256 * FromLittleEndian(word[1..][1..]));
    }
  }

  /** A request that grows past 64 KiB is dropped as a whole, with the fragment that made it so. */
  lemma OverlongIsDropped(note: nat, p: Pending, connectionId: byte, part: Part)
    requires |part.data| > MAX_REQUEST || (!OfAnother(p, connectionId) && |p.data| + |part.data| > MAX_REQUEST)
    ensures OnChannel(note, p, Packed(connectionId, part)) == (IDLE, None)
  {
    PackedParses(connectionId, part);
  }

  /** To another connection a half full channel is an idle one. */
  lemma AnotherStartsAfresh(note: nat, p: Pending, connectionId: byte, parts: seq<Part>)
    requires OfAnother(p, connectionId) && parts != []
    ensures RunChannel(note, p, PackedAll(connectionId, parts)) == RunChannel(note, IDLE, PackedAll(connectionId, parts))
  {
    var first, rest := Packed(connectionId, parts[0]), PackedAll(connectionId, parts[1..]);
    PackedParses(connectionId, parts[0]);
    assert PackedAll(connectionId, parts) == [first] + rest;
    RunChannelStep(note, p, first, rest);
    RunChannelStep(note, IDLE, first, rest);
  }

  /**
   * A request that arrives split on a channel that is idle or was left half full
   * by another connection, in between any traffic on other channels, is answered
   * once, at its last part, as if it had come whole.
   */
  lemma SplitTransparent(state: seq<Pending>, note: nat, arrivals: seq<Arrival>, connectionId: byte, parts: seq<Part>, whole: Part)
    requires note < |state| && (state[note].data == [] || state[note].connectionId != connectionId)
    requires Split(parts) && |Whole(parts)| <= MAX_REQUEST
    requires PayloadsOn(note, arrivals) == PackedAll(connectionId, parts)
    requires !HasMore(whole.flags) && whole.data == Whole(parts)
    ensures |Run(state, arrivals).1| == |arrivals| && |Run(state, arrivals).0| == |state|
    ensures AnswersOn(note, arrivals, Run(state, arrivals).1)
            == Nothing(|parts| - 1) + [Step(state, note, Packed(connectionId, whole)).1]
    ensures Step(state, note, Packed(connectionId, whole)).1 == Some(Request(note, connectionId, Whole(parts)))
    ensures Run(state, arrivals).0[note] == IDLE
  {
    ChannelAlone(note, state, arrivals);
    assert [] + Whole(parts) == Whole(parts);
    if state[note].data == [] {
      Collected(note, state[note], connectionId, parts, Whole(parts));
      LastPart(note, state[note], connectionId, whole);
    } else {
      AnotherStartsAfresh(note, state[note], connectionId, parts);
      Collected(note, IDLE, connectionId, parts, Whole(parts));
      AnotherIsDropped(note, state[note], connectionId, whole);
    }
  }
}
