/**
 * The record walk that Sentry and GRiDMail share: an iterator that stops at the
 * first malformed record, and the collectors built on it.
 */
module Tlv {
  import opened Bytes

  /** `<tag><u8 length><value>`, or `<marker><u16 length><tag + value>`. */
  datatype Kind = TagU8 | MarkerU16(marker: byte)

  /** The marker of the records that mail objects and mail requests are made of. */
  const RECORD_MARKER: byte := 0xFD

  datatype Entry = Entry(tag: byte, value: seq<byte>)

  /** What one step of the walk yields. */
  datatype Item = Good(entry: Entry) | Bad

  datatype Parsed = Parsed(entry: Entry, rest: seq<byte>)

  /** The record at the front of the data, and what follows it. */
  function ReadEntry(kind: Kind, d: seq<byte>): (r: Option<Parsed>)
    ensures r.Some? ==> |r.value.rest| < |d|
  {
    match kind
    case TagU8 =>
      if |d| < 2 || |d| < 2 + d[1] as nat then None
      else Some(Parsed(Entry(d[0], d[2..2 + d[1] as nat]), d[2 + d[1] as nat..]))
    case MarkerU16(marker) =>
      if |d| < 3 || d[0] != marker then None
      else
        var length := FromLittleEndian(d[1..3]);
        if |d| < 3 + length || length == 0 then None
        else Some(Parsed(Entry(d[3], d[4..3 + length]), d[3 + length..]))
  }

  /** The whole walk. */
  function Walk(kind: Kind, d: seq<byte>): seq<Item>
    decreases |d|
  {
    if d == [] then []
    else match ReadEntry(kind, d)
      case None => [Bad]
      case Some(p) => [Good(p.entry)] + Walk(kind, p.rest)
  }

  predicate AllGood(items: seq<Item>) {
    forall i :: 0 <= i < |items| ==> items[i].Good?
  }

  /** The entries before the first malformed record. */
  function Prefix(items: seq<Item>): seq<Entry> {
    if items == [] || items[0].Bad? then [] else [items[0].entry] + Prefix(items[1..])
  }

  function FirstTagged(entries: seq<Entry>, tag: byte): Option<seq<byte>> {
    if entries == [] then None
    else if entries[0].tag == tag then Some(entries[0].value)
    else FirstTagged(entries[1..], tag)
  }

  /** The iterator: a cursor that never moves again once a record was malformed. */
  class Cursor {
    const data: seq<byte>
    const kind: Kind
    var position: nat
    var failed: bool

    ghost predicate Valid()
      reads this
    {
      position <= |data|
    }

    ghost function Left(): seq<Item>
      requires Valid()
      reads this
    {
      if failed then [] else Walk(kind, data[position..])
    }

    constructor (data: seq<byte>, kind: Kind)
      ensures Valid() && Left() == Walk(kind, data) && this.data == data && this.kind == kind
    {
      this.data, this.kind, position, failed := data, kind, 0, false;
      new;
      assert data[0..] == data;
    }

    method Next() returns (item: Option<Item>)
      requires Valid()
      modifies this
      ensures Valid()
      ensures item == if old(Left()) == [] then None else Some(old(Left())[0])
      ensures Left() == if old(Left()) == [] then [] else old(Left())[1..]
    {
      if failed || position >= |data| { return None; }
      var entry := ReadEntry(kind, data[position..]);
      match entry {
        case None =>
          failed := true;
          item := Some(Bad);
        case Some(p) =>
          assert data[|data| - |p.rest|..] == p.rest by { RestIsSuffix(kind, data[position..], p); }
          position := |data| - |p.rest|;
          item := Some(Good(p.entry));
      }
    }
  }

  lemma RestIsSuffix(kind: Kind, d: seq<byte>, p: Parsed)
    requires ReadEntry(kind, d) == Some(p)
    ensures |p.rest| <= |d| && d[|d| - |p.rest|..] == p.rest
  {
  }

  /** All records, if none is malformed. */
  method CollectAll(data: seq<byte>, kind: Kind) returns (r: Option<seq<Entry>>)
    ensures r.Some? <==> AllGood(Walk(kind, data))
    ensures r.Some? ==> r.value == Prefix(Walk(kind, data)) && |r.value| == |Walk(kind, data)|
  {
    var cursor := new Cursor(data, kind);
    var entries: seq<Entry> := [];
    ghost var all := Walk(kind, data);
    while true
      invariant cursor.Valid() && entries + Prefix(cursor.Left()) == Prefix(all)
      invariant |entries| + |cursor.Left()| == |all| && (AllGood(all) <==> AllGood(cursor.Left()))
      decreases |cursor.Left()|
    {
      ghost var left := cursor.Left();
      var item := cursor.Next();
      if item.None? { return Some(entries); }
      if item.value.Bad? {
        assert left[0].Bad?;
        return None;
      }
      GoodFirst(left, entries);
      entries := entries + [item.value.entry];
    }
  }

  method WellFormedPrefix(data: seq<byte>, kind: Kind) returns (entries: seq<Entry>)
    ensures entries == Prefix(Walk(kind, data))
  {
    var cursor := new Cursor(data, kind);
    entries := [];
    while true
      invariant cursor.Valid() && entries + Prefix(cursor.Left()) == Prefix(Walk(kind, data))
      decreases |cursor.Left()|
    {
      ghost var left := cursor.Left();
      var item := cursor.Next();
      if item.None? || item.value.Bad? { return; }
      GoodFirst(left, entries);
      entries := entries + [item.value.entry];
    }
  }

  lemma GoodFirst(left: seq<Item>, entries: seq<Entry>)
    requires left != [] && left[0].Good?
    ensures AllGood(left) <==> AllGood(left[1..])
    ensures entries + [left[0].entry] + Prefix(left[1..]) == entries + Prefix(left)
  {
    forall i | 0 < i < |left| ensures left[i] == left[1..][i - 1] {
    }
    Assoc(entries, [left[0].entry], Prefix(left[1..]));
  }

  /** The first record with a tag; malformed records are passed over, but the walk ends there. */
  method FindTag(data: seq<byte>, kind: Kind, wanted: byte) returns (r: Option<seq<byte>>)
    ensures r == FirstTagged(Prefix(Walk(kind, data)), wanted)
  {
    var cursor := new Cursor(data, kind);
    ghost var all := FirstTagged(Prefix(Walk(kind, data)), wanted);
    WalkBadIsLast(kind, data);
    while true
      invariant cursor.Valid() && FirstTagged(Prefix(cursor.Left()), wanted) == all
      invariant BadIsLast(cursor.Left())
      decreases |cursor.Left()|
    {
      ghost var left := cursor.Left();
      var item := cursor.Next();
      if item.None? { return None; }
      if item.value.Good? && item.value.entry.tag == wanted { return Some(item.value.entry.value); }
      assert item.value.Bad? ==> left[1..] == [];
    }
  }

  ghost predicate BadIsLast(items: seq<Item>) {
    forall i :: 0 <= i < |items| && items[i].Bad? ==> i == |items| - 1
  }

  lemma {:induction false} WalkBadIsLast(kind: Kind, d: seq<byte>)
    ensures BadIsLast(Walk(kind, d))
    decreases |d|
  {
    if d != [] && ReadEntry(kind, d).Some? {
      WalkBadIsLast(kind, ReadEntry(kind, d).value.rest);
    }
  }

  /** At least one record and none malformed. */
  method AllRecordsValid(data: seq<byte>, kind: Kind) returns (r: bool)
    ensures r <==> AllGood(Walk(kind, data)) && data != []
  {
    var all := CollectAll(data, kind);
    r := all.Some? && |all.value| != 0;
  }

  // ---- records read back ----

  /** A record with a one-byte length is read back, whatever follows. */
  lemma ShortRecordRead(e: Entry, rest: seq<byte>)
    requires |e.value| < 256
    ensures ReadEntry(TagU8, [e.tag, |e.value| as byte] + e.value + rest) == Some(Parsed(e, rest))
  {
    var d := [e.tag, |e.value| as byte] + e.value + rest;
    var n := 2 + |e.value|;
    assert d[1] as nat == |e.value| && d[2..n] == e.value && d[n..] == rest;
  }

  /** Nothing but its bytes reads as such a record. */
  lemma ShortRecordOnly(d: seq<byte>)
    requires ReadEntry(TagU8, d).Some?
    ensures var p := ReadEntry(TagU8, d).value;
            |p.entry.value| < 256 && d == [p.entry.tag, |p.entry.value| as byte] + p.entry.value + p.rest
  {
    var n := 2 + d[1] as nat;
    assert d == d[..2] + d[2..n] + d[n..];
    assert d[..2] == [d[0], d[1]];
  }

  /** The bytes of a record with a marker and a two-byte length that covers the tag. */
  function LongRecord(marker: byte, e: Entry): seq<byte> {
    [marker] + LittleEndian(1 + |e.value|, 2) + ([e.tag] + e.value)
  }

  lemma LongRecordRead(marker: byte, e: Entry, rest: seq<byte>)
    requires |e.value| < 0xFFFF
    ensures ReadEntry(MarkerU16(marker), LongRecord(marker, e) + rest) == Some(Parsed(e, rest))
  {
    var n := 1 + |e.value|;
    var d := LongRecord(marker, e) + rest;
    assert Pow256(2) == 0x10000 by { assert Pow256(1) == 256; }
    LittleEndianRoundTrip(n, 2);
    assert d[1..3] == LittleEndian(n, 2);
    assert d[3] == e.tag && d[4..3 + n] == e.value && d[3 + n..] == rest;
  }

  /** What is read is what the record's bytes say, and nothing else reads so. */
  lemma LongRecordOnly(marker: byte, d: seq<byte>)
    requires ReadEntry(MarkerU16(marker), d).Some?
    ensures var p := ReadEntry(MarkerU16(marker), d).value;
            |p.entry.value| < 0xFFFF && d == LongRecord(marker, p.entry) + p.rest
  {
    var p := ReadEntry(MarkerU16(marker), d).value;
    var n := FromLittleEndian(d[1..3]);
    assert Pow256(2) == 0x10000 by { assert Pow256(1) == 256; }
    LittleEndianCanonical(d[1..3]);
    assert d == [d[0]] + d[1..3] + ([d[3]] + d[4..3 + n]) + d[3 + n..];
  }

  /** Records one after the other. */
  function Records(marker: byte, entries: seq<Entry>): seq<byte> {
    if entries == [] then [] else LongRecord(marker, entries[0]) + Records(marker, entries[1..])
  }

  /** Every value fits the two bytes of its length together with the tag. */
  predicate Fit(entries: seq<Entry>) {
    forall i :: 0 <= i < |entries| ==> |entries[i].value| < 0xFFFF
  }

  lemma {:induction false} RecordsRead(marker: byte, entries: seq<Entry>)
    requires Fit(entries)
    ensures AllGood(Walk(MarkerU16(marker), Records(marker, entries)))
    ensures Prefix(Walk(MarkerU16(marker), Records(marker, entries))) == entries
  {
    if entries != [] {
      var kind, e, rest := MarkerU16(marker), entries[0], Records(marker, entries[1..]);
      RecordsRead(marker, entries[1..]);
      LongRecordRead(marker, e, rest);
      assert Walk(kind, Records(marker, entries)) == [Good(e)] + Walk(kind, rest);
      assert ([Good(e)] + Walk(kind, rest))[1..] == Walk(kind, rest);
    }
  }

  /** Bytes that read as well-formed records throughout are those records. */
  lemma {:induction false} RecordsOnly(marker: byte, d: seq<byte>)
    requires AllGood(Walk(MarkerU16(marker), d))
    ensures Fit(Prefix(Walk(MarkerU16(marker), d))) && d == Records(marker, Prefix(Walk(MarkerU16(marker), d)))
    decreases |d|
  {
    if d != [] {
      var kind := MarkerU16(marker);
      assert Walk(kind, d)[0].Good?;
      var p := ReadEntry(kind, d).value;
      var more := Walk(kind, p.rest);
      assert Walk(kind, d) == [Good(p.entry)] + more;
      GoodTail(Walk(kind, d), p.entry, more);
      RecordsOnly(marker, p.rest);
      LongRecordOnly(marker, d);
      assert Walk(kind, d)[1..] == more;
      assert ([p.entry] + Prefix(more))[1..] == Prefix(more);
    }
  }

  // ---- appending ----

  lemma ReadEntryAppend(kind: Kind, d: seq<byte>, tail: seq<byte>)
    requires ReadEntry(kind, d).Some?
    ensures ReadEntry(kind, d + tail) == Some(Parsed(ReadEntry(kind, d).value.entry, ReadEntry(kind, d).value.rest + tail))
  {
    var all := d + tail;
    match kind {
      case TagU8 =>
        var n := 2 + d[1] as nat;
        assert all[2..n] == d[2..n] && all[n..] == d[n..] + tail;
      case MarkerU16(_) =>
        assert all[1..3] == d[1..3];
        var n := 3 + FromLittleEndian(d[1..3]);
        assert all[4..n] == d[4..n] && all[n..] == d[n..] + tail;
    }
  }

  lemma WalkStep(kind: Kind, d: seq<byte>, tail: seq<byte>) returns (e: Entry, rest: seq<byte>)
    requires d != [] && Walk(kind, d)[0].Good?
    ensures |rest| < |d|
    ensures Walk(kind, d) == [Good(e)] + Walk(kind, rest)
    ensures Walk(kind, d + tail) == [Good(e)] + Walk(kind, rest + tail)
  {
    var p := ReadEntry(kind, d).value;
    e, rest := p.entry, p.rest;
    assert ReadEntry(kind, d + tail) == Some(Parsed(e, rest + tail)) by { ReadEntryAppend(kind, d, tail); }
  }

  lemma GoodTail(items: seq<Item>, e: Entry, more: seq<Item>)
    requires AllGood(items) && items == [Good(e)] + more
    ensures AllGood(more)
  {
    forall i | 0 <= i < |more| ensures more[i].Good? {
      assert more[i] == items[i + 1];
    }
  }

  /** What follows well-formed records does not change them. */
  lemma {:induction false} WalkAppend(kind: Kind, d: seq<byte>, tail: seq<byte>)
    requires AllGood(Walk(kind, d))
    ensures Walk(kind, d + tail) == Walk(kind, d) + Walk(kind, tail)
    decreases |d|
  {
    if d == [] {
      assert d + tail == tail;
    } else {
      var e, rest := WalkStep(kind, d, tail);
      GoodTail(Walk(kind, d), e, Walk(kind, rest));
      WalkAppend(kind, rest, tail);
      Assoc([Good(e)], Walk(kind, rest), Walk(kind, tail));
    }
  }

  lemma {:induction false} PrefixAppend(a: seq<Item>, b: seq<Item>)
    requires AllGood(a)
    ensures Prefix(a + b) == Prefix(a) + Prefix(b)
  {
    if a == [] {
      assert a + b == b;
    } else {
      assert (a + b)[0] == a[0] && (a + b)[1..] == a[1..] + b;
      PrefixAppend(a[1..], b);
    }
  }

  lemma {:induction false} FirstTaggedAppend(a: seq<Entry>, b: seq<Entry>, tag: byte)
    requires FirstTagged(a, tag).Some?
    ensures FirstTagged(a + b, tag) == FirstTagged(a, tag)
  {
    assert (a + b)[0] == a[0] && (a + b)[1..] == a[1..] + b;
    if a[0].tag != tag {
      FirstTaggedAppend(a[1..], b, tag);
    }
  }
}
