/**
 * Reading a directory page by page: one sorted snapshot per attachment, a
 * position in it, and pages bounded in entries and in bytes.
 */
module DirPaging {
  import opened Bytes
  import opened Names

  const PREAMBLE: nat := 9
  const MAX_NAME: nat := 80
  const MAX_PER_PAGE: nat := 30

  // ---- the snapshot ----

  datatype Kind = Directory | RegularFile | Special
  datatype HostEntry = HostEntry(name: Name, kind: Kind)

  /** "~Subject~" */
  const SUBJECT_SUFFIX: Name := [0x7E, 0x53, 0x75, 0x62, 0x6A, 0x65, 0x63, 0x74, 0x7E]

  function ShownName(e: HostEntry): Name {
    if e.kind == Directory then e.name + SUBJECT_SUFFIX else e.name
  }

  predicate IsShown(e: HostEntry) {
    e.kind != Special && |ShownName(e)| <= MAX_NAME
  }

  function Shown(host: seq<HostEntry>): seq<Name> {
    if host == [] then []
    else Shown(host[..|host| - 1]) + (if IsShown(host[|host| - 1]) then [ShownName(host[|host| - 1])] else [])
  }

  ghost predicate Sorted(names: seq<Name>) {
    forall i, j :: 0 <= i < j < |names| ==> NameLe(names[i], names[j])
  }

  ghost predicate Short(names: seq<Name>) {
    forall i :: 0 <= i < |names| ==> |names[i]| <= MAX_NAME
  }

  method InsertName(names: seq<Name>, name: Name) returns (r: seq<Name>)
    requires Sorted(names)
    ensures Sorted(r) && multiset(r) == multiset(names) + multiset{name}
  {
    var k := |names|;
    while k > 0 && !NameLe(names[k - 1], name)
      invariant 0 <= k <= |names|
      invariant forall i :: k <= i < |names| ==> NameLe(name, names[i])
    {
      NameLeTotal(names[k - 1], name);
      k := k - 1;
    }
    forall i | 0 <= i < k ensures NameLe(names[i], name) {
      if i < k - 1 { NameLeTransitive(names[i], names[k - 1], name); }
    }
    assert names == names[..k] + names[k..];
    r := names[..k] + [name] + names[k..];
  }

  /** Objects of other kinds and with overlong names are left out; the rest is sorted. */
  method DirectoryEntries(host: seq<HostEntry>) returns (names: seq<Name>)
    ensures Snapshot(names, host)
  {
    names := [];
    for k := 0 to |host|
      invariant Sorted(names) && multiset(names) == multiset(Shown(host[..k]))
    {
      assert host[..k + 1][..k] == host[..k];
      if IsShown(host[k]) {
        names := InsertName(names, ShownName(host[k]));
      }
    }
    assert host[..|host|] == host;
    forall i | 0 <= i < |names| ensures |names[i]| <= MAX_NAME {
      assert names[i] in multiset(names);
      ShownShort(host, names[i]);
    }
  }

  lemma {:induction false} ShownShort(host: seq<HostEntry>, name: Name)
    requires name in Shown(host)
    ensures |name| <= MAX_NAME
  {
    if host != [] && name in Shown(host[..|host| - 1]) {
      ShownShort(host[..|host| - 1], name);
    }
  }

  /** A listing as it is taken of a directory. */
  ghost predicate Snapshot(names: seq<Name>, host: seq<HostEntry>) {
    Sorted(names) && Short(names) && multiset(names) == multiset(Shown(host))
  }

  /** A regular file is listed under its own name, a directory under its name with the suffix. */
  predicate ListedAs(e: HostEntry, name: Name) {
    match e.kind
    case RegularFile => name == e.name
    case Directory => name == e.name + SUBJECT_SUFFIX
    case Special => false
  }

  /** A name of at most 80 bytes is listed exactly if some object of the directory is listed under it; a longer one never is. */
  lemma {:induction false} ShownMeaning(host: seq<HostEntry>, name: Name)
    ensures name in Shown(host) <==> |name| <= MAX_NAME && exists i :: 0 <= i < |host| && ListedAs(host[i], name)
  {
    if host != [] {
      var last := |host| - 1;
      ShownMeaning(host[..last], name);
      assert forall i :: 0 <= i < last ==> host[..last][i] == host[i];
    }
  }

  lemma SnapshotMeaning(names: seq<Name>, host: seq<HostEntry>, name: Name)
    requires Snapshot(names, host)
    ensures name in names <==> |name| <= MAX_NAME && exists i :: 0 <= i < |host| && ListedAs(host[i], name)
  {
    ShownMeaning(host, name);
    assert name in names <==> name in multiset(names);
    assert name in Shown(host) <==> name in multiset(Shown(host));
  }

  // ---- pages ----

  function Size(names: seq<Name>): nat {
    if names == [] then 0 else Size(names[..|names| - 1]) + PREAMBLE + |names[|names| - 1]|
  }

  /** A page is the longest run of entries that respects both bounds. */
  ghost predicate IsPage(rest: seq<Name>, page: seq<Name>, maxEntries: nat, maxBytes: nat) {
    && page <= rest && |page| <= maxEntries && Size(page) <= maxBytes
    && (|page| < |rest| && |page| < maxEntries ==> Size(rest[..|page| + 1]) > maxBytes)
  }

  function MaxEntries(count: nat): nat {
    Min(count, MAX_PER_PAGE)
  }

  function MaxBytes(count: nat): nat {
    Min(MaxEntries(count) * (PREAMBLE + MAX_NAME), PAGE_SIZE)
  }

  /** With the longest name allowed there is still room for one entry. */
  lemma PageNotEmpty(rest: seq<Name>, page: seq<Name>, count: nat)
    requires IsPage(rest, page, MaxEntries(count), MaxBytes(count)) && Short(rest)
    requires count > 0 && rest != []
    ensures page != []
  {
    assert rest[..1] == [rest[0]];
    assert [rest[0]][..0] == [];
  }

  class Attachment {
    var position: nat
    var listing: Option<seq<Name>>

    ghost predicate Valid()
      reads this
    {
      match listing case None => position == 0 case Some(names) => Short(names) && position <= |names|
    }

    constructor ()
      ensures Valid() && listing.None?
    {
      position, listing := 0, None;
    }

    /** The listing is taken of the directory as it is at the first page, and kept. */
    twostate predicate Took(host: seq<HostEntry>)
      reads this
    {
      && listing.Some?
      && (if old(listing).Some? then listing == old(listing) else Snapshot(listing.value, host))
    }

    method ReadDir(host: seq<HostEntry>, maxEntries: nat, maxBytes: nat) returns (entries: seq<Name>)
      requires Valid()
      modifies this
      ensures Valid() && Took(host) && position == old(position) + |entries|
      ensures IsPage(listing.value[old(position)..], entries, maxEntries, maxBytes)
    {
      if listing.None? {
        var names := DirectoryEntries(host);
        listing := Some(names);
      }
      var source := listing.value;
      ghost var start := position;
      entries := [];
      var pageSize := 0;
      while |entries| < maxEntries
        modifies this`position
        invariant start + |entries| == position <= |source| && |entries| <= maxEntries
        invariant entries == source[start..][..|entries|]
        invariant pageSize == Size(entries) <= maxBytes
      {
        if position >= |source| { break; }
        var entry := source[position];
        var entrySize := PREAMBLE + |entry|;
        assert source[start..][..|entries| + 1] == entries + [entry];
        assert (entries + [entry])[..|entries|] == entries;
        if pageSize + entrySize > maxBytes { break; }
        pageSize := pageSize + entrySize;
        entries := entries + [entry];
        position := position + 1;
      }
    }

    method ReadDirPage(host: seq<HostEntry>, count: nat) returns (entries: seq<Name>)
      requires Valid()
      modifies this
      ensures Valid() && Took(host) && position == old(position) + |entries|
      ensures entries == listing.value[old(position)..position]
      ensures |entries| <= MAX_PER_PAGE && Size(entries) <= PAGE_SIZE && Short(entries)
      ensures count > 0 && old(position) < |listing.value| ==> entries != []
      ensures position == |listing.value| || |entries| == Min(count, MAX_PER_PAGE)
              || Size(entries) + PREAMBLE + |listing.value[position]| > Min(Min(count, MAX_PER_PAGE) * 89, PAGE_SIZE)
    {
      entries := ReadDir(host, MaxEntries(count), MaxBytes(count));
      ghost var rest := listing.value[old(position)..];
      if count > 0 && rest != [] { PageNotEmpty(rest, entries, count); }
      if position < |listing.value| && |entries| < MaxEntries(count) {
        assert rest[..|entries| + 1][..|entries|] == entries;
      }
    }

    /**
     * A whole walk over a directory that may change all the while: the pages
     * together are a prefix of the sorted listing of the directory as it was at
     * the first request, and all of it once there were enough requests.
     */
    method Walk(hosts: seq<seq<HostEntry>>, counts: seq<nat>) returns (all: seq<Name>)
      requires Valid() && listing.None? && |hosts| == |counts| > 0
      requires forall i :: 0 <= i < |counts| ==> counts[i] > 0
      modifies this
      ensures Valid() && listing.Some? && Snapshot(listing.value, hosts[0]) && all == listing.value[..position]
      ensures |counts| >= |Shown(hosts[0])| ==> all == listing.value
    {
      all := ReadDirPage(hosts[0], counts[0]);
      ghost var names := listing.value;
      assert |names| == |multiset(names)| == |Shown(hosts[0])|;
      for k := 1 to |counts|
        invariant Valid() && listing == Some(names) && all == names[..position]
        invariant position >= Min(k, |names|)
      {
        var page := ReadDirPage(hosts[k], counts[k]);
        all := all + page;
      }
    }
  }
}
