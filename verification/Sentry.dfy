/**
 * Walking the user directory without a cursor: the client echoes the row it got
 * last, the server looks that row up again and answers with the one behind it.
 */
module Sentry {
  import opened Bytes
  import opened Names

  // ---- names, compared without regard to case ----

  function Lower(b: byte): byte {
    if 0x41 <= b <= 0x5A then b + 0x20 else b
  }

  function Fold(name: Name): Name {
    seq(|name|, i requires 0 <= i < |name| => Lower(name[i]))
  }

  predicate Same(a: Name, b: Name) {
    Fold(a) == Fold(b)
  }

  predicate IsLetter(b: byte) {
    0x41 <= b <= 0x5A || 0x61 <= b <= 0x7A
  }

  /** Equal, or the same ASCII letter in the other case. */
  predicate SameChar(a: byte, b: byte) {
    a == b || (IsLetter(a) && IsLetter(b) && (a as int == b as int + 0x20 || b as int == a as int + 0x20))
  }

  /** Names are the same exactly if they are of one length and the same character by character. */
  lemma SameExactly(a: Name, b: Name)
    ensures Same(a, b) <==> |a| == |b| && forall i :: 0 <= i < |a| ==> SameChar(a[i], b[i])
  {
    if Same(a, b) {
      assert |Fold(a)| == |a| && |Fold(b)| == |b|;
      forall i | 0 <= i < |a| ensures SameChar(a[i], b[i]) {
        assert Fold(a)[i] == Lower(a[i]) && Fold(b)[i] == Lower(b[i]);
      }
    } else if |a| == |b| {
      var i :| 0 <= i < |a| && Fold(a)[i] != Fold(b)[i];
      assert !SameChar(a[i], b[i]);
    }
  }

  predicate EndsInNul(name: Name) {
    name != [] && name[|name| - 1] == 0
  }

  // ---- rows ----

  datatype Row = Row(company: Name, group: Name, user: Name)

  datatype Account = Company(company: Name) | Group(company: Name, group: Name) | User(company: Name, group: Name, user: Name)

  /** The wire form repeats the name above in the levels that do not apply. */
  function FromAccount(a: Account): Row {
    match a
    case Company(c) => Row(c, c, c)
    case Group(c, g) => Row(c, g, g)
    case User(c, g, u) => Row(c, g, u)
  }

  predicate SameRow(a: Row, b: Row) {
    Same(a.company, b.company) && Same(a.group, b.group) && Same(a.user, b.user)
  }

  /** What a filter names: a company, a group of it, or one record. */
  datatype Prefix = OfCompany(company: Name) | OfGroup(company: Name, group: Name) | OfUser(company: Name, group: Name, user: Name)

  predicate Matches(row: Row, p: Prefix) {
    match p
    case OfCompany(c) => Same(row.company, c)
    case OfGroup(c, g) => Same(row.company, c) && Same(row.group, g)
    case OfUser(c, g, u) => Same(row.company, c) && Same(row.group, g) && Same(row.user, u)
  }

  /** The last row a prefix matches. */
  function Find(rows: seq<Row>, p: Prefix): (r: Option<nat>)
    ensures r.Some? ==> r.value < |rows| && Matches(rows[r.value], p)
    ensures r.Some? ==> forall i :: r.value < i < |rows| ==> !Matches(rows[i], p)
    ensures r.None? ==> forall i :: 0 <= i < |rows| ==> !Matches(rows[i], p)
  {
    if rows == [] then None
    else if Matches(rows[|rows| - 1], p) then Some(|rows| - 1)
    else Find(rows[..|rows| - 1], p)
  }

  // ---- filters ----

  datatype Filter = Start | Skip | Named(name: Name)

  function Trim(v: seq<byte>): (r: seq<byte>)
    ensures |r| <= |v| && r == v[..|r|] && !EndsInNul(r)
  {
    if v == [] || v[|v| - 1] != 0 then v else Trim(v[..|v| - 1])
  }

  function FilterOf(value: Option<seq<byte>>): Filter {
    if value.None? then Start
    else if value.value != [] && (forall i :: 0 <= i < |value.value| ==> value.value[i] == 0xFF) then Skip
    else if Trim(value.value) == [] then Start
    else Named(Trim(value.value))
  }

  /** What the client sends to skip a level: nothing but 0xFF bytes. */
  function SkipBytes(n: nat): Option<seq<byte>> {
    Some(seq(n, _ => 0xFF as byte))
  }

  /** A level is skipped exactly by one or more such bytes. */
  lemma SkipExactly(value: Option<seq<byte>>)
    ensures FilterOf(value) == Skip <==> exists n: nat :: n > 0 && value == SkipBytes(n)
  {
    if FilterOf(value) == Skip {
      assert value.value == SkipBytes(|value.value|).value;
    }
  }

  /** No filter, or one of zeros only, starts at the top. */
  lemma StartExactly(value: Option<seq<byte>>)
    ensures FilterOf(value) == Start <==> value.None? || forall i :: 0 <= i < |value.value| ==> value.value[i] == 0
  {
    if value.Some? {
      TrimToNothing(value.value);
      if value.value != [] { assert value.value[0] == 0 ==> value.value[0] != 0xFF; }
    }
  }

  lemma {:induction false} TrimToNothing(v: seq<byte>)
    ensures Trim(v) == [] <==> forall i :: 0 <= i < |v| ==> v[i] == 0
  {
    if v != [] {
      var last := |v| - 1;
      if v[last] == 0 {
        TrimToNothing(v[..last]);
        assert forall i :: 0 <= i < last ==> v[..last][i] == v[i];
      }
    }
  }

  /** Where a listing starts: at the top, nowhere, or behind the last row the filters name. */
  function Seek(rows: seq<Row>, company: Filter, group: Filter, user: Filter): Option<nat> {
    if company.Start? then Some(0)
    else if company.Skip? then None
    else if !group.Named? then Behind(Find(rows, OfCompany(company.name)))
    else if !user.Named? then Behind(Find(rows, OfGroup(company.name, group.name)))
    else Behind(Find(rows, OfUser(company.name, group.name, user.name)))
  }

  function Behind(found: Option<nat>): Option<nat> {
    if found.None? then None else Some(found.value + 1)
  }

  // ---- who may see what ----

  datatype Authority = Normal | GroupAdmin | CompanyAdmin | SystemAdmin

  datatype Actor = Actor(authority: Authority, company: Name, group: Name, user: Name)

  /** How many of the three names address something. */
  function Depth(row: Row): nat {
    if Same(row.company, row.group) then 1 else if Same(row.group, row.user) then 2 else 3
  }

  predicate Outside(actor: Actor, row: Row) {
    var depth := match actor.authority
      case SystemAdmin => 0
      case CompanyAdmin => Min(Depth(row), 1)
      case GroupAdmin => Min(Depth(row), 2)
      case Normal => 3;
    !(&& (depth >= 1 ==> Same(row.company, actor.company))
      && (depth >= 2 ==> Same(row.group, actor.group))
      && (depth >= 3 ==> Same(row.user, actor.user)))
  }

  predicate InScope(actor: Actor, rows: seq<Row>, i: nat) {
    i < |rows| && !Outside(actor, rows[i])
  }

  lemma ScopeIsByName(actor: Actor, a: Row, b: Row)
    requires SameRow(a, b)
    ensures Outside(actor, a) == Outside(actor, b)
  {
  }

  /**
   * Who sees which row. A group administrator sees its group and the row of its
   * company; and since the row of a group named as its company reads like one,
   * that group with its users as well.
   */
  lemma ScopeMeaning(actor: Actor, row: Row)
    ensures !Outside(actor, row) <==>
            match actor.authority
            case SystemAdmin => true
            case CompanyAdmin => Same(row.company, actor.company)
            case GroupAdmin => Same(row.company, actor.company) && (Same(row.group, row.company) || Same(row.group, actor.group))
            case Normal => Same(row.company, actor.company) && Same(row.group, actor.group) && Same(row.user, actor.user)
  {
  }

  /** The first row from a place on that the actor may see. */
  function NextVisible(actor: Actor, rows: seq<Row>, from: nat): (r: Option<nat>)
    ensures r.Some? ==> from <= r.value && InScope(actor, rows, r.value)
    ensures forall i: nat :: from <= i && (r.Some? ==> i < r.value) ==> !InScope(actor, rows, i)
    decreases |rows| - from
  {
    if from >= |rows| then None
    else if !Outside(actor, rows[from]) then Some(from)
    else NextVisible(actor, rows, from + 1)
  }

  /** One step of a listing, for an actor who may list. */
  function List(actor: Actor, rows: seq<Row>, start: Option<nat>): Option<nat> {
    if start.None? then None else NextVisible(actor, rows, start.value)
  }

  /** The client's echo of a name, padded with zeros. */
  function Padded(name: Name, pad: nat): Option<seq<byte>> {
    Some(name + Zeros(pad))
  }

  /** Where the server starts when row i is echoed. */
  function EchoStart(rows: seq<Row>, i: nat, pad: nat): Option<nat>
    requires i < |rows|
  {
    Seek(rows, FilterOf(Padded(rows[i].company, pad)), FilterOf(Padded(rows[i].group, pad)), FilterOf(Padded(rows[i].user, pad)))
  }

  /** Names are ASCII and not empty. */
  ghost predicate Proper(rows: seq<Row>) {
    forall i :: 0 <= i < |rows| ==> ProperName(rows[i].company) && ProperName(rows[i].group) && ProperName(rows[i].user)
  }

  predicate ProperName(name: Name) {
    name != [] && forall i :: 0 <= i < |name| ==> name[i] < 0x80
  }

  ghost predicate NoNulEnds(rows: seq<Row>) {
    forall i :: 0 <= i < |rows| ==> !EndsInNul(rows[i].company) && !EndsInNul(rows[i].group) && !EndsInNul(rows[i].user)
  }

  // ---- what an echo finds ----

  lemma {:induction false} TrimPadded(name: Name, pad: nat)
    ensures Trim(name + Zeros(pad)) == Trim(name)
    decreases pad
  {
    if pad == 0 {
      assert name + Zeros(0) == name;
    } else {
      assert (name + Zeros(pad))[..|name| + pad - 1] == name + Zeros(pad - 1);
      TrimPadded(name, pad - 1);
    }
  }

  lemma FilterPadded(name: Name, pad: nat)
    requires ProperName(name)
    ensures FilterOf(Padded(name, pad)) == if Trim(name) == [] then Start else Named(Trim(name))
  {
    TrimPadded(name, pad);
    assert (name + Zeros(pad))[0] == name[0] != 0xFF;
  }

  /** What the trimmed names of a row address; nothing if the company is all NULs. */
  function EchoPrefix(row: Row): Option<Prefix> {
    if Trim(row.company) == [] then None
    else if Trim(row.group) == [] then Some(OfCompany(Trim(row.company)))
    else if Trim(row.user) == [] then Some(OfGroup(Trim(row.company), Trim(row.group)))
    else Some(OfUser(Trim(row.company), Trim(row.group), Trim(row.user)))
  }

  lemma EchoStarts(rows: seq<Row>, i: nat, pad: nat)
    requires Proper(rows) && i < |rows|
    ensures EchoStart(rows, i, pad) ==
            match EchoPrefix(rows[i]) case None => Some(0) case Some(p) => Behind(Find(rows, p))
  {
    var company, group, user := rows[i].company, rows[i].group, rows[i].user;
    assert ProperName(company) && ProperName(group) && ProperName(user);
    assert FilterOf(Padded(company, pad)) == if Trim(company) == [] then Start else Named(Trim(company)) by { FilterPadded(company, pad); }
    assert FilterOf(Padded(group, pad)) == if Trim(group) == [] then Start else Named(Trim(group)) by { FilterPadded(group, pad); }
    assert FilterOf(Padded(user, pad)) == if Trim(user) == [] then Start else Named(Trim(user)) by { FilterPadded(user, pad); }
  }

  /** The trimmed names of row i address only rows before it. */
  ghost predicate FallsBack(rows: seq<Row>, i: nat)
    requires i < |rows|
  {
    match EchoPrefix(rows[i])
    case None => true
    case Some(p) => (exists j :: 0 <= j < i && Matches(rows[j], p)) && (forall j :: i <= j < |rows| ==> !Matches(rows[j], p))
  }

  /** A step moves on, or ends the listing, exactly if the trimmed names do not address earlier rows only. */
  lemma EchoAdvances(actor: Actor, rows: seq<Row>, i: nat, pad: nat)
    requires Proper(rows) && InScope(actor, rows, i)
    ensures (var next := List(actor, rows, EchoStart(rows, i, pad)); next.None? || next.value > i) <==> !FallsBack(rows, i)
  {
    EchoStarts(rows, i, pad);
    var start := EchoStart(rows, i, pad);
    if start.Some? && start.value <= i {
      assert InScope(actor, rows, i);
      assert NextVisible(actor, rows, start.value).Some?;
    }
  }

  /** Two companies that differ only in a NUL at the end, and the listing never gets past the second. */
  lemma NulKeepsListingForEver(pad: nat)
    ensures var rows := [FromAccount(Company([0x41])), FromAccount(Company([0x41, 0]))];
            var admin := Actor(SystemAdmin, [], [], []);
            List(admin, rows, EchoStart(rows, 1, pad)) == Some(1)
  {
    var a, b: Name := [0x41], [0x41, 0];
    var rows := [FromAccount(Company(a)), FromAccount(Company(b))];
    assert b[..1] == a;
    assert Trim(b) == a;
    assert Proper(rows);
    EchoStarts(rows, 1, pad);
    assert !Same(b, a) by { assert |Fold(b)| == 2 && |Fold(a)| == 1; }
    assert Find(rows, OfUser(a, a, a)) == Some(0);
  }

  /** Without NULs at the end an echo finds the row itself or a later one of the same names. */
  lemma EchoFindsItself(rows: seq<Row>, i: nat, pad: nat)
    requires Proper(rows) && NoNulEnds(rows) && i < |rows|
    ensures EchoStart(rows, i, pad).Some? && i < EchoStart(rows, i, pad).value <= |rows|
    ensures SameRow(rows[EchoStart(rows, i, pad).value - 1], rows[i])
    ensures forall j :: EchoStart(rows, i, pad).value <= j < |rows| ==> !SameRow(rows[j], rows[i])
  {
    EchoStarts(rows, i, pad);
    assert Trim(rows[i].company) == rows[i].company && Trim(rows[i].group) == rows[i].group && Trim(rows[i].user) == rows[i].user;
    assert Matches(rows[i], OfUser(rows[i].company, rows[i].group, rows[i].user));
  }

  // ---- whole listings ----

  /** The rows the actor may see, below n, in order: what a walk with a cursor gives. */
  function Visible(actor: Actor, rows: seq<Row>, n: nat): seq<nat> {
    if n == 0 then [] else Visible(actor, rows, n - 1) + (if InScope(actor, rows, n - 1) then [n - 1] else [])
  }

  lemma {:induction false} VisibleGap(actor: Actor, rows: seq<Row>, from: nat, end: nat)
    requires from <= end && forall i: nat :: from <= i < end ==> !InScope(actor, rows, i)
    ensures Visible(actor, rows, end) == Visible(actor, rows, from)
    decreases end
  {
    if from < end {
      VisibleGap(actor, rows, from, end - 1);
    }
  }

  /** No two visible rows have the same names on the wire. */
  ghost predicate TwinFree(actor: Actor, rows: seq<Row>) {
    forall i, j :: 0 <= i < j < |rows| && InScope(actor, rows, i) && InScope(actor, rows, j) ==> !SameRow(rows[j], rows[i])
  }

  ghost predicate Increasing(path: seq<nat>) {
    forall a, b :: 0 <= a < b < |path| ==> path[a] < path[b]
  }

  ghost predicate PathApart(rows: seq<Row>, path: seq<nat>) {
    && (forall a :: 0 <= a < |path| ==> path[a] < |rows|)
    && (forall a, b :: 0 <= a < b < |path| ==> !SameRow(rows[path[b]], rows[path[a]]))
  }

  lemma {:induction false} VisibleMember(actor: Actor, rows: seq<Row>, n: nat, i: nat)
    ensures i in Visible(actor, rows, n) <==> i < n && InScope(actor, rows, i)
    decreases n
  {
    if n > 0 {
      VisibleMember(actor, rows, n - 1, i);
    }
  }

  /** A path without twins that shows every visible row leaves no twins anywhere. */
  lemma AllShownNoTwins(actor: Actor, rows: seq<Row>, path: seq<nat>)
    requires PathApart(rows, path) && Increasing(path) && path == Visible(actor, rows, |rows|)
    ensures TwinFree(actor, rows)
  {
    forall i, j | 0 <= i < j < |rows| && InScope(actor, rows, i) && InScope(actor, rows, j)
      ensures !SameRow(rows[j], rows[i])
    {
      VisibleMember(actor, rows, |rows|, i);
      VisibleMember(actor, rows, |rows|, j);
      var a :| 0 <= a < |path| && path[a] == i;
      var b :| 0 <= b < |path| && path[b] == j;
      assert a < b;
    }
  }

  /** Where the walk stands: at a row, or past the end. */
  function Place(at: Option<nat>, rows: seq<Row>): nat {
    if at.Some? then at.value else |rows|
  }

  /** The path so far: visible rows in order, before a place from where on every row has other names. */
  ghost predicate OnTheWay(actor: Actor, rows: seq<Row>, path: seq<nat>, place: nat) {
    && Increasing(path) && PathApart(rows, path)
    && (forall a :: 0 <= a < |path| ==> path[a] < place && InScope(actor, rows, path[a]))
    && (forall a, j :: 0 <= a < |path| && place <= j < |rows| ==> !SameRow(rows[j], rows[path[a]]))
    && (TwinFree(actor, rows) ==> path == Visible(actor, rows, place))
  }

  lemma FurtherOn(actor: Actor, rows: seq<Row>, path: seq<nat>, i: nat, place: nat)
    requires OnTheWay(actor, rows, path, i) && InScope(actor, rows, i) && i < place
    requires forall j :: place <= j < |rows| ==> !SameRow(rows[j], rows[i])
    requires TwinFree(actor, rows) ==> Visible(actor, rows, place) == Visible(actor, rows, i) + [i]
    ensures OnTheWay(actor, rows, path + [i], place)
  {
    var path' := path + [i];
    forall a, b | 0 <= a < b < |path'| ensures path'[a] < path'[b] && !SameRow(rows[path'[b]], rows[path'[a]]) {
      assert path'[a] == path[a];
    }
  }

  /** One echo: on to the next visible row with other names. */
  method EchoOnce(actor: Actor, rows: seq<Row>, i: nat) returns (next: Option<nat>)
    requires Proper(rows) && NoNulEnds(rows) && InScope(actor, rows, i)
    ensures next.Some? ==> i < next.value && InScope(actor, rows, next.value)
    ensures forall j :: Place(next, rows) <= j < |rows| ==> !SameRow(rows[j], rows[i])
    ensures TwinFree(actor, rows) ==> Visible(actor, rows, Place(next, rows)) == Visible(actor, rows, i) + [i]
  {
    var pad: nat := *;
    EchoFindsItself(rows, i, pad);
    var start := EchoStart(rows, i, pad).value;
    next := NextVisible(actor, rows, start);
    if TwinFree(actor, rows) {
      EchoIsNext(actor, rows, i, start);
      VisibleGap(actor, rows, start, Place(next, rows));
    }
  }

  /** Without twins the row an echo finds is the row itself. */
  lemma EchoIsNext(actor: Actor, rows: seq<Row>, i: nat, start: nat)
    requires TwinFree(actor, rows) && InScope(actor, rows, i) && i < start <= |rows| && SameRow(rows[start - 1], rows[i])
    ensures start == i + 1
  {
    ScopeIsByName(actor, rows[start - 1], rows[i]);
  }

  /**
   * A whole listing by echoes. It ends, its rows come in order and all are the
   * actor's to see; and it shows every such row exactly if no two of them have
   * the same names.
   */
  method ListByEcho(actor: Actor, rows: seq<Row>) returns (path: seq<nat>)
    requires Proper(rows) && NoNulEnds(rows)
    ensures Increasing(path) && forall a :: 0 <= a < |path| ==> InScope(actor, rows, path[a])
    ensures TwinFree(actor, rows) <==> path == Visible(actor, rows, |rows|)
  {
    path := [];
    var at := List(actor, rows, Seek(rows, Start, Start, Start));
    VisibleGap(actor, rows, 0, Place(at, rows));
    while at.Some?
      invariant at.Some? ==> InScope(actor, rows, at.value)
      invariant OnTheWay(actor, rows, path, Place(at, rows))
      decreases |rows| - Place(at, rows), at.Some?
    {
      var i := at.value;
      at := EchoOnce(actor, rows, i);
      FurtherOn(actor, rows, path, i, Place(at, rows));
      path := path + [i];
    }
    if path == Visible(actor, rows, |rows|) { AllShownNoTwins(actor, rows, path); }
  }

  /** The client's padding makes no difference. */
  lemma AnyPadding(rows: seq<Row>, i: nat, pad: nat)
    requires Proper(rows) && i < |rows|
    ensures EchoStart(rows, i, pad) == EchoStart(rows, i, 0)
  {
    EchoStarts(rows, i, pad);
    EchoStarts(rows, i, 0);
  }

  /** Following a step from i on, at most n times. */
  function PathOf(next: nat -> Option<nat>, i: nat, n: nat): (path: seq<nat>)
    ensures path != [] && path[0] == i
    decreases n
  {
    if n == 0 || next(i).None? then [i] else [i] + PathOf(next, next(i).value, n - 1)
  }

  lemma IncreasingCons(i: nat, path: seq<nat>)
    requires path != []
    ensures Increasing([i] + path) <==> i < path[0] && Increasing(path)
  {
    var all := [i] + path;
    if Increasing(all) {
      assert all[0] < all[1];
      forall a, b | 0 <= a < b < |path| ensures path[a] < path[b] {
        assert all[a + 1] < all[b + 1];
      }
    }
    if i < path[0] && Increasing(path) {
      forall a, b | 0 <= a < b < |all| ensures all[a] < all[b] {
        if a == 0 { assert all[b] == path[b - 1]; } else { assert all[a] == path[a - 1] && all[b] == path[b - 1]; }
      }
    }
  }

  /** No element that was left is marked. */
  ghost predicate NoneMarked(marked: nat -> bool, path: seq<nat>) {
    forall a :: 0 <= a < |path| - 1 ==> !marked(path[a])
  }

  lemma NoneMarkedCons(marked: nat -> bool, i: nat, path: seq<nat>)
    requires path != []
    ensures NoneMarked(marked, [i] + path) <==> !marked(i) && NoneMarked(marked, path)
  {
    var all := [i] + path;
    if NoneMarked(marked, all) {
      assert !marked(all[0]);
      forall a | 0 <= a < |path| - 1 ensures !marked(path[a]) {
        assert !marked(all[a + 1]);
      }
    }
    if !marked(i) && NoneMarked(marked, path) {
      forall a | 0 <= a < |all| - 1 ensures !marked(all[a]) {
        if a > 0 { assert all[a] == path[a - 1]; }
      }
    }
  }

  /** From sound places every step leads to one, and goes up exactly if the place is not marked. */
  ghost predicate MarksSteps(next: nat -> Option<nat>, sound: nat -> bool, marked: nat -> bool) {
    forall j: nat :: sound(j) && next(j).Some? ==> sound(next(j).value) && (j < next(j).value <==> !marked(j))
  }

  lemma {:induction false} UpUnlessMarked(next: nat -> Option<nat>, sound: nat -> bool, marked: nat -> bool, i: nat, n: nat)
    requires MarksSteps(next, sound, marked) && sound(i)
    ensures Increasing(PathOf(next, i, n)) <==> NoneMarked(marked, PathOf(next, i, n))
    decreases n
  {
    if n > 0 && next(i).Some? {
      var more := PathOf(next, next(i).value, n - 1);
      UpUnlessMarked(next, sound, marked, next(i).value, n - 1);
      IncreasingCons(i, more);
      NoneMarkedCons(marked, i, more);
    }
  }

  lemma {:induction false} UpMustEnd(next: nat -> Option<nat>, i: nat, n: nat, top: nat)
    requires Increasing(PathOf(next, i, n)) && i + n >= top
    requires forall j: nat :: next(j).Some? ==> j < top && next(j).value < top
    ensures next(PathOf(next, i, n)[|PathOf(next, i, n)| - 1]).None?
    decreases n
  {
    if next(i).Some? {
      var more := PathOf(next, next(i).value, n - 1);
      IncreasingCons(i, more);
      UpMustEnd(next, next(i).value, n - 1, top);
      assert ([i] + more)[|more|] == more[|more| - 1];
    }
  }

  /** The step of a listing by echoes, row by row. */
  function EchoNext(actor: Actor, rows: seq<Row>): nat -> Option<nat> {
    (j: nat) => if j < |rows| then List(actor, rows, EchoStart(rows, j, 0)) else None
  }

  ghost function FallingBack(rows: seq<Row>): nat -> bool {
    (j: nat) => j < |rows| && FallsBack(rows, j)
  }

  ghost function Scope(actor: Actor, rows: seq<Row>): nat -> bool {
    (j: nat) => InScope(actor, rows, j)
  }

  lemma EchoMarked(actor: Actor, rows: seq<Row>, j: nat, next: Option<nat>)
    requires Proper(rows) && InScope(actor, rows, j) && next == List(actor, rows, EchoStart(rows, j, 0)) && next.Some?
    ensures InScope(actor, rows, next.value) && (j < next.value <==> !FallsBack(rows, j))
  {
    EchoAdvances(actor, rows, j, 0);
  }

  lemma EchoesMarked(actor: Actor, rows: seq<Row>)
    requires Proper(rows)
    ensures MarksSteps(EchoNext(actor, rows), Scope(actor, rows), FallingBack(rows))
  {
    var next, sound, marked := EchoNext(actor, rows), Scope(actor, rows), FallingBack(rows);
    forall j: nat | sound(j) && next(j).Some?
      ensures sound(next(j).value) && (j < next(j).value <==> !marked(j))
    {
      var step := List(actor, rows, EchoStart(rows, j, 0));
      assert next(j) == step;
      assert InScope(actor, rows, step.value) && (j < step.value <==> !FallsBack(rows, j)) by { EchoMarked(actor, rows, j, step); }
    }
  }

  /**
   * A listing of any names, however long it is watched, shows strictly increasing
   * rows if and only if no row it went on from falls back; and then it has ended
   * once it was watched for as many echoes as there are rows.
   */
  lemma PathAdvances(actor: Actor, rows: seq<Row>, i: nat, n: nat)
    requires Proper(rows) && InScope(actor, rows, i)
    ensures var path := PathOf(EchoNext(actor, rows), i, n);
            && (Increasing(path) <==> NoneMarked(FallingBack(rows), path))
            && (Increasing(path) && i + n >= |rows| ==> EchoNext(actor, rows)(path[|path| - 1]).None?)
  {
    var next := EchoNext(actor, rows);
    EchoesMarked(actor, rows);
    UpUnlessMarked(next, Scope(actor, rows), FallingBack(rows), i, n);
    if Increasing(PathOf(next, i, n)) && i + n >= |rows| {
      UpMustEnd(next, i, n, |rows|);
    }
  }

  // ---- which directories have twins ----

  function Rows(accounts: seq<Account>): (rows: seq<Row>)
    ensures |rows| == |accounts| && forall i :: 0 <= i < |rows| ==> rows[i] == FromAccount(accounts[i])
  {
    seq(|accounts|, i requires 0 <= i < |accounts| => FromAccount(accounts[i]))
  }

  /** The database keeps names apart: companies, groups everywhere, users within a group. */
  predicate SameKey(a: Account, b: Account) {
    match (a, b)
    case (Company(c), Company(d)) => Same(c, d)
    case (Group(_, g), Group(_, h)) => Same(g, h)
    case (User(_, g, u), User(_, h, v)) => Same(g, h) && Same(u, v)
    case _ => false
  }

  ghost predicate Stored(accounts: seq<Account>) {
    && (forall i, j :: 0 <= i < j < |accounts| ==> !SameKey(accounts[i], accounts[j]))
    && (forall i :: 0 <= i < |accounts| && accounts[i].Group? ==> Company(accounts[i].company) in accounts)
    && (forall i :: 0 <= i < |accounts| && accounts[i].User? ==> Group(accounts[i].company, accounts[i].group) in accounts)
  }

  /** A group named as its company, or a user named as its group. */
  predicate Clash(a: Account) {
    match a
    case Company(_) => false
    case Group(c, g) => Same(g, c)
    case User(c, g, u) => Same(u, g)
  }

  lemma TwinsClash(a: Account, b: Account)
    requires SameRow(FromAccount(a), FromAccount(b)) && !SameKey(a, b)
    ensures Clash(a) || Clash(b)
  {
  }

  lemma ClashHasTwin(accounts: seq<Account>, i: nat) returns (k: nat)
    requires Stored(accounts) && i < |accounts| && Clash(accounts[i])
    ensures k < |accounts| && k != i && SameRow(FromAccount(accounts[k]), FromAccount(accounts[i]))
  {
    var a := accounts[i];
    var parent := if a.Group? then Company(a.company) else Group(a.company, a.group);
    assert parent in accounts;
    k :| 0 <= k < |accounts| && accounts[k] == parent;
  }

  /** Visible rows share their names exactly where a visible account clashes with the one above it. */
  lemma TwinFreeExactly(actor: Actor, accounts: seq<Account>)
    requires Stored(accounts)
    ensures TwinFree(actor, Rows(accounts))
            <==> forall i :: 0 <= i < |accounts| && InScope(actor, Rows(accounts), i) ==> !Clash(accounts[i])
  {
    var rows := Rows(accounts);
    if TwinFree(actor, rows) {
      forall i | 0 <= i < |accounts| && InScope(actor, rows, i) ensures !Clash(accounts[i]) {
        if Clash(accounts[i]) {
          var k := ClashHasTwin(accounts, i);
          ScopeIsByName(actor, rows[k], rows[i]);
          assert SameRow(rows[i], rows[k]);
        }
      }
    } else {
      var i, j :| 0 <= i < j < |rows| && InScope(actor, rows, i) && InScope(actor, rows, j) && SameRow(rows[j], rows[i]);
      TwinsClash(accounts[i], accounts[j]);
    }
  }

  /** The listing of a stored directory is complete exactly if nothing the actor sees is named as what it belongs to. */
  method ListDirectory(actor: Actor, accounts: seq<Account>) returns (path: seq<nat>)
    requires Stored(accounts) && Proper(Rows(accounts)) && NoNulEnds(Rows(accounts))
    ensures Increasing(path) && forall a :: 0 <= a < |path| ==> InScope(actor, Rows(accounts), path[a])
    ensures path == Visible(actor, Rows(accounts), |accounts|)
            <==> forall i :: 0 <= i < |accounts| && InScope(actor, Rows(accounts), i) ==> !Clash(accounts[i])
  {
    path := ListByEcho(actor, Rows(accounts));
    TwinFreeExactly(actor, accounts);
  }

  function Namesakes(): seq<Account> {
    [Company([0x41]), Group([0x41], [0x41])]
  }

  lemma NamesakesStored()
    ensures Stored(Namesakes()) && Clash(Namesakes()[1])
    ensures Rows(Namesakes()) == [Row([0x41], [0x41], [0x41]), Row([0x41], [0x41], [0x41])]
  {
    assert Namesakes()[0] == Company([0x41]);
  }

  lemma OneNameTwice(pad: nat)
    ensures var row, admin := Row([0x41], [0x41], [0x41]), Actor(SystemAdmin, [], [], []);
            && Proper([row, row]) && NoNulEnds([row, row]) && InScope(admin, [row, row], 1)
            && List(admin, [row, row], EchoStart([row, row], 0, pad)) == None
  {
    var row := Row([0x41], [0x41], [0x41]);
    EchoFindsItself([row, row], 0, pad);
  }

  /** A company with a group of its own name: a stored directory whose second row is visible and never shown. */
  lemma NamesakeIsMissed(pad: nat)
    ensures var rows, admin := Rows(Namesakes()), Actor(SystemAdmin, [], [], []);
            && Stored(Namesakes()) && Proper(rows) && NoNulEnds(rows) && InScope(admin, rows, 1) && Clash(Namesakes()[1])
            && List(admin, rows, EchoStart(rows, 0, pad)) == None
  {
    NamesakesStored();
    OneNameTwice(pad);
  }

  // ---- skipping a block ----

  function GroupKey(a: Account): Name {
    if a.Company? then [] else Fold(a.group)
  }

  function UserKey(a: Account): Name {
    if a.User? then Fold(a.user) else []
  }

  function LevelOf(a: Account): nat {
    match a case Company(_) => 0 case Group(_, _) => 1 case User(_, _, _) => 2
  }

  /** The order the client walks: by company, group, level, user. */
  predicate KeyLe(a: Account, b: Account) {
    if Fold(a.company) != Fold(b.company) then NameLe(Fold(a.company), Fold(b.company))
    else if GroupKey(a) != GroupKey(b) then NameLe(GroupKey(a), GroupKey(b))
    else if LevelOf(a) != LevelOf(b) then LevelOf(a) < LevelOf(b)
    else NameLe(UserKey(a), UserKey(b))
  }

  ghost predicate InClientOrder(accounts: seq<Account>) {
    forall i, j :: 0 <= i < j < |accounts| ==> KeyLe(accounts[i], accounts[j])
  }

  lemma BetweenCompany(a: Account, b: Account, c: Account)
    requires KeyLe(a, b) && KeyLe(b, c) && Same(a.company, c.company)
    ensures Same(a.company, b.company)
  {
    if Fold(a.company) != Fold(b.company) {
      NameLeAntisymmetric(Fold(a.company), Fold(b.company));
    }
  }

  lemma BetweenGroup(a: Account, b: Account, c: Account)
    requires KeyLe(a, b) && KeyLe(b, c) && Same(a.company, c.company) && GroupKey(a) == GroupKey(c)
    ensures Same(a.company, b.company) && GroupKey(a) == GroupKey(b)
  {
    BetweenCompany(a, b, c);
    if GroupKey(a) != GroupKey(b) {
      NameLeAntisymmetric(GroupKey(a), GroupKey(b));
    }
  }

  /** Skipping below a company goes to the first row behind all of it, past nothing else. */
  lemma BehindCompany(accounts: seq<Account>, i: nat, user: Filter)
    requires InClientOrder(accounts) && i < |accounts|
    ensures var start := Seek(Rows(accounts), Named(accounts[i].company), Skip, user);
            && start.Some? && i < start.value <= |accounts|
            && (forall j :: i <= j < start.value ==> Same(accounts[j].company, accounts[i].company))
            && (forall j :: start.value <= j < |accounts| ==> !Same(accounts[j].company, accounts[i].company))
  {
    var rows, p := Rows(accounts), OfCompany(accounts[i].company);
    assert Matches(rows[i], p);
    var last := Find(rows, p).value;
    assert Seek(rows, Named(accounts[i].company), Skip, user) == Some(last + 1);
    assert Same(accounts[last].company, accounts[i].company) by { assert Matches(rows[last], p); }
    forall j | i < j < last ensures Same(accounts[j].company, accounts[i].company) {
      BetweenCompany(accounts[i], accounts[j], accounts[last]);
    }
    forall j | last < j < |accounts| ensures !Same(accounts[j].company, accounts[i].company) {
      assert !Matches(rows[j], p) && rows[j].company == accounts[j].company;
    }
  }

  predicate InGroupOf(a: Account, b: Account) {
    !a.Company? && !b.Company? && Same(a.company, b.company) && Same(a.group, b.group)
  }

  lemma BetweenMembers(a: Account, b: Account, c: Account)
    requires KeyLe(a, b) && KeyLe(b, c) && InGroupOf(c, a) && a.group != []
    ensures InGroupOf(b, a)
  {
    BetweenGroup(a, b, c);
    assert |GroupKey(a)| > 0;
  }

  /** In client order no company row stands behind a row of one of its groups. */
  lemma CompanyFirst(a: Account, b: Account)
    requires KeyLe(a, b) && !a.Company? && a.group != [] && Same(a.company, b.company)
    ensures !b.Company?
  {
    assert |GroupKey(a)| > 0;
  }

  /** So does skipping below a group, even one named as its company. */
  lemma BehindGroup(accounts: seq<Account>, i: nat)
    requires InClientOrder(accounts) && Proper(Rows(accounts)) && i < |accounts| && !accounts[i].Company?
    ensures var start := Seek(Rows(accounts), Named(accounts[i].company), Named(accounts[i].group), Skip);
            && start.Some? && i < start.value <= |accounts|
            && (forall j :: i <= j < start.value ==> InGroupOf(accounts[j], accounts[i]))
            && (forall j :: start.value <= j < |accounts| ==> !InGroupOf(accounts[j], accounts[i]))
  {
    var rows, p := Rows(accounts), OfGroup(accounts[i].company, accounts[i].group);
    assert Matches(rows[i], p);
    var last := Find(rows, p).value;
    assert Seek(rows, Named(accounts[i].company), Named(accounts[i].group), Skip) == Some(last + 1);
    assert accounts[i].group != [] by { assert ProperName(rows[i].group); }
    LastMember(accounts, rows, p, i, last);
    forall j | i < j < last ensures InGroupOf(accounts[j], accounts[i]) {
      BetweenMembers(accounts[i], accounts[j], accounts[last]);
    }
    forall j | last < j < |accounts| ensures !InGroupOf(accounts[j], accounts[i]) {
      assert !Matches(rows[j], p) && rows[j] == FromAccount(accounts[j]);
    }
  }

  lemma LastMember(accounts: seq<Account>, rows: seq<Row>, p: Prefix, i: nat, last: nat)
    requires InClientOrder(accounts) && rows == Rows(accounts) && i <= last < |accounts|
    requires !accounts[i].Company? && accounts[i].group != []
    requires p == OfGroup(accounts[i].company, accounts[i].group) && Matches(rows[last], p)
    ensures InGroupOf(accounts[last], accounts[i])
  {
    assert rows[last] == FromAccount(accounts[last]);
    if i < last { CompanyFirst(accounts[i], accounts[last]); }
  }

  // ---- the same from the bytes of a request ----

  /** Where the server starts for the three filters of a request. */
  function Requested(rows: seq<Row>, company: Option<seq<byte>>, group: Option<seq<byte>>, user: Option<seq<byte>>): Option<nat> {
    Seek(rows, FilterOf(company), FilterOf(group), FilterOf(user))
  }

  lemma NameSent(name: Name, pad: nat)
    requires ProperName(name) && !EndsInNul(name)
    ensures FilterOf(Padded(name, pad)) == Named(name)
  {
    FilterPadded(name, pad);
    assert Trim(name) == name;
  }

  /**
   * The client names a company, padded, and fills the group with 0xFF: the listing
   * goes on at the first row behind the whole company.
   */
  lemma SkipCompany(accounts: seq<Account>, i: nat, pad: nat, n: nat, user: Option<seq<byte>>)
    requires InClientOrder(accounts) && Proper(Rows(accounts)) && i < |accounts| && n > 0
    requires !EndsInNul(accounts[i].company)
    ensures var start := Requested(Rows(accounts), Padded(accounts[i].company, pad), SkipBytes(n), user);
            && start.Some? && i < start.value <= |accounts|
            && (forall j :: i <= j < start.value ==> Same(accounts[j].company, accounts[i].company))
            && (forall j :: start.value <= j < |accounts| ==> !Same(accounts[j].company, accounts[i].company))
  {
    assert ProperName(Rows(accounts)[i].company);
    NameSent(accounts[i].company, pad);
    SkipExactly(SkipBytes(n));
    BehindCompany(accounts, i, FilterOf(user));
  }

  /** The client names company and group, padded, and fills the user with 0xFF: on behind the whole group. */
  lemma SkipGroup(accounts: seq<Account>, i: nat, pad: nat, n: nat)
    requires InClientOrder(accounts) && Proper(Rows(accounts)) && i < |accounts| && !accounts[i].Company? && n > 0
    requires !EndsInNul(accounts[i].company) && !EndsInNul(accounts[i].group)
    ensures var start := Requested(Rows(accounts), Padded(accounts[i].company, pad), Padded(accounts[i].group, pad), SkipBytes(n));
            && start.Some? && i < start.value <= |accounts|
            && (forall j :: i <= j < start.value ==> InGroupOf(accounts[j], accounts[i]))
            && (forall j :: start.value <= j < |accounts| ==> !InGroupOf(accounts[j], accounts[i]))
  {
    assert ProperName(Rows(accounts)[i].company) && ProperName(Rows(accounts)[i].group);
    NameSent(accounts[i].company, pad);
    NameSent(accounts[i].group, pad);
    SkipExactly(SkipBytes(n));
    BehindGroup(accounts, i);
  }

  /** Skipping the companies leaves nothing to list. */
  lemma SkipAll(actor: Actor, rows: seq<Row>, n: nat, group: Option<seq<byte>>, user: Option<seq<byte>>)
    requires n > 0
    ensures List(actor, rows, Requested(rows, SkipBytes(n), group, user)) == None
  {
    SkipExactly(SkipBytes(n));
  }

  /** Without filters, or with blank ones, the listing starts with the first row the actor may see. */
  lemma StartFromTop(actor: Actor, rows: seq<Row>, n: nat, group: Option<seq<byte>>, user: Option<seq<byte>>)
    ensures Requested(rows, None, group, user) == Some(0) == Requested(rows, Some(Zeros(n)), group, user)
  {
    StartExactly(Some(Zeros(n)));
  }
}
