/**
 * Persistent file ids of one disk. An id is kept as an attribute of its object;
 * the allocator lives in memory and is rebuilt from the tree after a restart.
 */
module FileIds {
  import opened Bytes
  import IdMap

  /** An object with the id it holds, if any, and what it contains. A removed object leaves a gap. */
  datatype Tree = Gone | Object(id: Option<nat>, entries: seq<Tree>)

  /** Where an object stands: which entry to take at each level. */
  type Path = seq<nat>

  function Find(t: Tree, path: Path): Tree {
    if path == [] || t.Gone? then t
    else if path[0] < |t.entries| then Find(t.entries[path[0]], path[1..])
    else Gone
  }

  predicate Exists(t: Tree, path: Path) {
    Find(t, path).Object?
  }

  function IdAt(t: Tree, path: Path): Option<nat> {
    match Find(t, path) case Gone => None case Object(id, _) => id
  }

  /** The tree with another object in one place. */
  function Put(t: Tree, path: Path, sub: Tree): Tree {
    if path == [] || t.Gone? then sub
    else if path[0] < |t.entries| then
      t.(entries := t.entries[path[0] := Put(t.entries[path[0]], path[1..], sub)])
    else t
  }

  /** How many objects of a tree hold an id. */
  ghost function Holders(t: Tree, id: nat): nat
    decreases t, 1
  {
    if t.Gone? then 0 else (if t.id == Some(id) then 1 else 0) + EntryHolders(t, |t.entries|, id)
  }

  ghost function EntryHolders(t: Tree, n: nat, id: nat): nat
    requires t.Object? && n <= |t.entries|
    decreases t, 0, n
  {
    if n == 0 then 0 else EntryHolders(t, n - 1, id) + Holders(t.entries[n - 1], id)
  }

  /** No id is held twice, and all are ids an allocator of this size could give. */
  ghost predicate Sound(t: Tree, size: int) {
    forall id: nat :: Holders(t, id) <= 1 && (Holders(t, id) > 0 ==> 1 <= id <= size)
  }

  // ---- what replacing one object does to the ids ----

  lemma {:induction false} PutEntry(t: Tree, k: nat, sub: Tree, n: nat, id: nat)
    requires t.Object? && k < |t.entries| && n <= |t.entries|
    ensures EntryHolders(t.(entries := t.entries[k := sub]), n, id)
            == EntryHolders(t, n, id) + (if k < n then Holders(sub, id) - Holders(t.entries[k], id) else 0)
    decreases n
  {
    if n > 0 {
      PutEntry(t, k, sub, n - 1, id);
    }
  }

  /** Replacing an object replaces what it holds and nothing else. */
  lemma {:induction false} PutHolders(t: Tree, path: Path, sub: Tree, id: nat)
    requires Exists(t, path)
    ensures Holders(Put(t, path, sub), id) == Holders(t, id) - Holders(Find(t, path), id) + Holders(sub, id)
    decreases |path|
  {
    if path != [] {
      var k := path[0];
      PutHolders(t.entries[k], path[1..], sub, id);
      PutEntry(t, k, Put(t.entries[k], path[1..], sub), |t.entries|, id);
    }
  }

  /** An object elsewhere is still found, and so is one below, unless the replacement lost it. */
  lemma {:induction false} PutFind(t: Tree, path: Path, sub: Tree, other: Path)
    requires Exists(t, path)
    ensures if path <= other then Find(Put(t, path, sub), other) == Find(sub, other[|path|..])
            else Exists(t, other) <==> Exists(Put(t, path, sub), other)
    ensures !(path <= other) ==> IdAt(Put(t, path, sub), other) == IdAt(t, other)
    decreases |path|
  {
    if path != [] && other != [] {
      var k := path[0];
      if other[0] == k {
        PutFind(t.entries[k], path[1..], sub, other[1..]);
        assert path <= other <==> path[1..] <= other[1..];
        assert path <= other ==> other[|path|..] == other[1..][|path[1..]|..];
      }
    }
  }

  // ---- the allocator ----

  datatype Answer = Id(id: nat) | DeviceFull | NoSuchObject

  /** Marks every id held in a tree, going down directory by directory. */
  method CollectFileIds(t: Tree, ids: IdMap.Map)
    requires ids.Valid() && forall id: nat :: Holders(t, id) > 0 ==> 1 <= id <= ids.Size()
    modifies ids.bytes
    ensures ids.Valid()
    ensures forall id :: id in ids.Taken() <==> id in old(ids.Taken()) || (id >= 0 && Holders(t, id) > 0)
    decreases t
  {
    if t.Gone? { return; }
    if t.id.Some? {
      assert Holders(t, t.id.value) > 0;
      ids.Set(t.id.value);
    }
    for k := 0 to |t.entries|
      invariant ids.Valid()
      invariant forall id :: id in ids.Taken() <==>
                  id in old(ids.Taken()) || (id >= 0 && (t.id == Some(id) || EntryHolders(t, k, id) > 0))
    {
      EntriesWithin(t, k);
      CollectFileIds(t.entries[k], ids);
    }
  }

  lemma {:induction false} EntryBelow(t: Tree, k: nat, n: nat, id: nat)
    requires t.Object? && k < n <= |t.entries|
    ensures Holders(t.entries[k], id) <= EntryHolders(t, n, id)
    decreases n
  {
    if k + 1 < n {
      EntryBelow(t, k, n - 1, id);
    }
  }

  lemma EntriesWithin(t: Tree, k: nat)
    requires t.Object? && k < |t.entries|
    ensures forall id: nat :: Holders(t.entries[k], id) <= Holders(t, id)
  {
    forall id: nat ensures Holders(t.entries[k], id) <= Holders(t, id) {
      EntryBelow(t, k, |t.entries|, id);
    }
  }

  /** The ids held on a disk. */
  ghost function HeldOn(t: Tree, size: int): set<nat> {
    set id: nat | 1 <= id <= size && Holders(t, id) > 0
  }

  /** These are all the ids an allocator of this size could give. */
  ghost predicate AllIds(taken: set<nat>, size: int) {
    forall id: nat :: 1 <= id <= size ==> id in taken
  }

  class DirManager {
    /** The disk, which outlives the server. */
    var disk: Tree
    /** The allocator of this run, once it was built. */
    var ids: IdMap.Map?
    /** The clients that saw no id and wait for the lock, each with the object it asked for. */
    var waiting: map<nat, Path>
    const chunks: nat
    /** The ids that some object was seen to hold at some moment. */
    ghost var everHeld: set<nat>

    ghost predicate Valid()
      reads this, ids, if ids == null then {} else {ids.bytes}
    {
      && chunks > 0 && Sound(disk, Size())
      && (ids != null ==>
            && ids.chunks == chunks && ids.Valid() && ids.Taken() <= everHeld
            && forall id: nat :: Holders(disk, id) > 0 ==> id in ids.Taken())
    }

    function Size(): int {
      128 * chunks - 1
    }

    /** A server starting on a disk that an earlier run left behind. */
    constructor (disk: Tree, chunks: nat)
      requires chunks > 0 && Sound(disk, 128 * chunks - 1)
      ensures Valid() && this.disk == disk && ids == null && waiting == map[] && this.chunks == chunks && everHeld == {}
    {
      this.disk, ids, waiting, this.chunks, everHeld := disk, null, map[], chunks, {};
    }

    /** The allocator starts with exactly the ids that are held. */
    method BuildIds()
      requires Valid() && ids == null
      modifies this`ids, this`everHeld
      ensures Valid() && ids != null && fresh(ids) && fresh(ids.bytes)
      ensures ids.Taken() == HeldOn(disk, Size()) && everHeld == old(everHeld) + HeldOn(disk, Size())
    {
      var map' := new IdMap.Map(chunks);
      CollectFileIds(disk, map');
      ids := map';
      assert forall id: nat :: id in ids.Taken() ==> 1 <= id <= Size();
      everHeld := everHeld + HeldOn(disk, Size());
    }

    /**
     * The part under the lock. It looks again, since others may have come first. The device is full only if every id
     * was held at some moment; a server that has just started says so only if every id is held now.
     */
    method LockedAllocate(path: Path) returns (answer: Answer)
      requires Valid()
      modifies this`disk, this`ids, this`everHeld, if ids == null then {} else {ids.bytes}
      ensures Valid() && Allocated(old(disk), path, answer, disk)
      ensures answer == DeviceFull ==> AllIds(everHeld, Size())
      ensures answer == DeviceFull && old(ids) == null ==> AllIds(HeldOn(disk, Size()), Size())
      ensures old(everHeld) <= everHeld <= old(everHeld) + HeldOn(old(disk), Size()) + HeldOn(disk, Size())
      ensures Evolves(old(disk), disk)
      ensures ids != null && (ids == old(ids) || fresh(ids.bytes))
    {
      if ids == null { BuildIds(); }
      if !Exists(disk, path) { return NoSuchObject; }
      var known := IdAt(disk, path);
      if known.Some? { return Id(known.value); }
      var free := ids.FindFree();
      if free.None? {
        assert AllIds(ids.Taken(), Size());
        return DeviceFull;
      }
      AssignNext(path, free.value);
      answer := Id(free.value);
    }

    /** Gives an object without an id one that is free. */
    method AssignNext(path: Path, id: nat)
      requires Valid() && ids != null && Exists(disk, path) && IdAt(disk, path).None?
      requires 1 <= id <= Size() && id !in ids.Taken()
      modifies this`disk, this`everHeld, ids.bytes
      ensures Valid() && Evolves(old(disk), disk) && Allocated(old(disk), path, Id(id), disk)
      ensures everHeld == old(everHeld) + {id} && id in HeldOn(disk, Size())
    {
      Assigned(disk, path, id, Size());
      disk := Put(disk, path, Find(disk, path).(id := Some(id)));
      ids.Set(id);
      everHeld := everHeld + {id};
    }

    /** A new object has no id yet. */
    method Create(dir: Path)
      requires Valid()
      modifies this`disk
      ensures Valid() && Evolves(old(disk), disk) && Created(old(disk), dir, disk)
    {
      if !Exists(disk, dir) { return; }
      var sub := Find(disk, dir);
      var sub' := sub.(entries := sub.entries + [Object(None, [])]);
      Grown(disk, dir, sub, sub', Size());
      disk := Put(disk, dir, sub');
    }

    method Remove(path: Path)
      requires Valid()
      modifies this`disk
      ensures Valid() && Evolves(old(disk), disk) && Removed(old(disk), path, disk)
    {
      if path == [] || !Exists(disk, path) {
        NothingRemoved(disk, path);
        return;
      }
      Pruned(disk, path, Size());
      disk := Put(disk, path, Gone);
    }

    /** The allocator is lost, and so is every client; the disk is not. */
    method Restart()
      requires Valid()
      modifies this`ids, this`waiting
      ensures Valid() && disk == old(disk) && ids == null && waiting == map[]
    {
      ids, waiting := null, map[];
    }

    /** The read without the lock. An id that is there is the answer; without one the client waits for the lock. */
    method Ask(client: nat, path: Path) returns (outcome: Outcome)
      requires Valid()
      modifies this`waiting
      ensures Valid() && Asked(client, path, disk, old(waiting), outcome, waiting)
    {
      if client in waiting { return Nothing; }
      if !Exists(disk, path) { return Missing; }
      var known := IdAt(disk, path);
      if known.Some? { return Granted(Grant(path, known.value)); }
      waiting := waiting[client := path];
      outcome := Waits;
    }

    /** A client that waited gets the lock, however much later. */
    method Lock(client: nat) returns (outcome: Outcome)
      requires Valid()
      modifies this`disk, this`ids, this`waiting, this`everHeld, if ids == null then {} else {ids.bytes}
      ensures Valid() && Evolves(old(disk), disk) && Locked(client, old(waiting), old(disk), outcome, disk, waiting)
      ensures outcome == Full ==> AllIds(everHeld, Size())
      ensures old(everHeld) <= everHeld <= old(everHeld) + HeldOn(old(disk), Size()) + HeldOn(disk, Size())
      ensures ids == old(ids) || (ids != null && fresh(ids.bytes))
    {
      if client !in waiting { return Nothing; }
      var path := waiting[client];
      waiting := waiting - {client};
      var answer := LockedAllocate(path);
      outcome := OutcomeOf(path, answer);
    }

    method Perform(a: Action) returns (outcome: Outcome)
      requires Valid()
      modifies this`disk, this`ids, this`waiting, this`everHeld, if ids == null then {} else {ids.bytes}
      ensures Valid() && Evolves(old(disk), disk) && Stepped(a, old(waiting), old(disk), outcome, disk, waiting)
      ensures outcome == Full ==> AllIds(everHeld, Size())
      ensures old(everHeld) <= everHeld <= old(everHeld) + HeldOn(old(disk), Size()) + HeldOn(disk, Size())
      ensures ids == old(ids) || ids == null || fresh(ids.bytes)
    {
      outcome := Nothing;
      match a {
        case AskFor(client, path) => outcome := Ask(client, path);
        case LockFor(client) => outcome := Lock(client);
        case CreateIn(dir) => Create(dir);
        case RemoveAt(path) => Remove(path);
        case RestartServer => Restart();
      }
    }

    /**
     * Whatever happens in whatever order, clients overtaking each other between read and lock: each action does what it
     * is for, a client that gets the lock gets an id unless its object is gone or every id was held at some moment, an
     * object that was ever answered for still holds that id or was removed, and no two that are left were given the
     * same one.
     */
    method Run(actions: seq<Action>) returns (outcomes: seq<Outcome>, ghost trace: seq<Moment>)
      requires Valid()
      modifies this`disk, this`ids, this`waiting, this`everHeld, if ids == null then {} else {ids.bytes}
      ensures Valid() && Evolves(old(disk), disk)
      ensures |trace| == |actions| + 1 && trace[0] == Moment(old(disk), old(waiting)) && trace[|actions|] == Moment(disk, waiting)
      ensures AllStepped(actions, outcomes, trace)
      ensures Honoured(outcomes, disk) && AllDistinct(outcomes, disk)
      ensures Full in outcomes ==> AllIds(everHeld, Size())
      ensures forall id :: id in everHeld ==> id in old(everHeld) || WasHeld(trace, id)
    {
      outcomes := [];
      trace := [Moment(disk, waiting)];
      for k := 0 to |actions|
        invariant Valid() && Evolves(old(disk), disk) && Honoured(outcomes, disk) && old(everHeld) <= everHeld
        invariant |trace| == k + 1 && trace[0] == Moment(old(disk), old(waiting)) && trace[k] == Moment(disk, waiting)
        invariant AllStepped(actions[..k], outcomes, trace)
        invariant Full in outcomes ==> AllIds(everHeld, Size())
        invariant forall id :: id in everHeld ==> id in old(everHeld) || WasHeld(trace, id)
        invariant ids == old(ids) || ids == null || fresh(ids.bytes)
      {
        ghost var mid, before, seen := disk, trace, everHeld;
        var outcome := Perform(actions[k]);
        trace := before + [Moment(disk, waiting)];
        Transitive(old(disk), mid, disk);
        HonouredNext(outcomes, outcome, actions[k], before[k].waiting, mid, disk, waiting);
        OneMoreStep(actions[..k], outcomes, before, actions[k], outcome, Moment(disk, waiting));
        HeldSoFar(before, Moment(disk, waiting), old(everHeld), seen, everHeld, Size());
        assert actions[..k] + [actions[k]] == actions[..k + 1];
        outcomes := outcomes + [outcome];
      }
      assert actions[..|actions|] == actions;
      DistinctGrants(outcomes, disk, Size());
    }
  }

  datatype Action =
    | AskFor(client: nat, path: Path)
    | LockFor(client: nat)
    | CreateIn(dir: Path)
    | RemoveAt(path: Path)
    | RestartServer

  datatype Outcome = Granted(grant: Grant) | Waits | Missing | Full | Nothing

  function OutcomeOf(path: Path, answer: Answer): Outcome {
    match answer
    case Id(id) => Granted(Grant(path, id))
    case DeviceFull => Full
    case NoSuchObject => Missing
  }

  /** The disk and the waiting clients between two actions. */
  datatype Moment = Moment(disk: Tree, waiting: map<nat, Path>)

  // ---- what each action is for ----

  /** The object's own id, or a free one for an object without; nothing else changes. */
  ghost predicate Allocated(t: Tree, path: Path, answer: Answer, t': Tree) {
    && (answer == NoSuchObject <==> !Exists(t, path))
    && (IdAt(t, path).Some? ==> answer == Id(IdAt(t, path).value))
    && (answer.Id? ==> IdAt(t', path) == Some(answer.id))
    && (answer.Id? && IdAt(t, path).None? ==> Holders(t, answer.id) == 0)
    && (!answer.Id? || IdAt(t, path).Some? ==> t' == t)
    && (forall other :: Exists(t', other) <==> Exists(t, other))
    && (forall other :: other != path ==> IdAt(t', other) == IdAt(t, other))
  }

  ghost predicate Asked(client: nat, path: Path, t: Tree, waiting: map<nat, Path>, o: Outcome, waiting': map<nat, Path>) {
    && (o == Nothing <==> client in waiting)
    && (client !in waiting ==> (o == Missing <==> !Exists(t, path)) && (o == Waits <==> Exists(t, path) && IdAt(t, path).None?))
    && (o.Granted? ==> o.grant.path == path && IdAt(t, path) == Some(o.grant.id))
    && o != Full
    && waiting' == if o == Waits then waiting[client := path] else waiting
  }

  ghost predicate Locked(client: nat, waiting: map<nat, Path>, t: Tree, o: Outcome, t': Tree, waiting': map<nat, Path>) {
    && waiting' == waiting - {client}
    && (if client !in waiting then o == Nothing && t' == t
        else exists answer :: o == OutcomeOf(waiting[client], answer) && Allocated(t, waiting[client], answer, t'))
  }

  /** A directory that is there gets one more object, without an id, behind those it has. */
  ghost predicate Created(t: Tree, dir: Path, t': Tree) {
    && (forall other :: Exists(t', other) <==>
          Exists(t, other) || (Exists(t, dir) && other == dir + [|Find(t, dir).entries|]))
    && (forall other :: IdAt(t', other) == IdAt(t, other))
  }

  /** The object and all below it are gone; the disk itself stays. */
  ghost predicate Removed(t: Tree, path: Path, t': Tree) {
    && (forall other :: Exists(t', other) <==> Exists(t, other) && (path == [] || !(path <= other)))
    && (forall other :: path == [] || !(path <= other) ==> IdAt(t', other) == IdAt(t, other))
  }

  ghost predicate Stepped(a: Action, waiting: map<nat, Path>, t: Tree, o: Outcome, t': Tree, waiting': map<nat, Path>) {
    match a
    case AskFor(client, path) => t' == t && Asked(client, path, t, waiting, o, waiting')
    case LockFor(client) => Locked(client, waiting, t, o, t', waiting')
    case CreateIn(dir) => o == Nothing && waiting' == waiting && Created(t, dir, t')
    case RemoveAt(path) => o == Nothing && waiting' == waiting && Removed(t, path, t')
    case RestartServer => o == Nothing && waiting' == map[] && t' == t
  }

  ghost predicate AllStepped(actions: seq<Action>, outcomes: seq<Outcome>, trace: seq<Moment>) {
    && |outcomes| == |actions| && |trace| == |actions| + 1
    && forall k :: 0 <= k < |actions| ==>
         Stepped(actions[k], trace[k].waiting, trace[k].disk, outcomes[k], trace[k + 1].disk, trace[k + 1].waiting)
  }

  ghost predicate WasHeld(trace: seq<Moment>, id: nat) {
    exists k :: 0 <= k < |trace| && Holders(trace[k].disk, id) > 0
  }

  lemma OneMoreStep(actions: seq<Action>, outcomes: seq<Outcome>, trace: seq<Moment>, a: Action, o: Outcome, next: Moment)
    requires AllStepped(actions, outcomes, trace)
    requires var last := trace[|actions|]; Stepped(a, last.waiting, last.disk, o, next.disk, next.waiting)
    ensures AllStepped(actions + [a], outcomes + [o], trace + [next])
  {
    var actions', outcomes', trace' := actions + [a], outcomes + [o], trace + [next];
    forall k | 0 <= k < |actions'|
      ensures Stepped(actions'[k], trace'[k].waiting, trace'[k].disk, outcomes'[k], trace'[k + 1].disk, trace'[k + 1].waiting)
    {
      if k < |actions| {
        assert Stepped(actions[k], trace[k].waiting, trace[k].disk, outcomes[k], trace[k + 1].disk, trace[k + 1].waiting);
      }
    }
  }

  lemma HeldSoFar(trace: seq<Moment>, next: Moment, start: set<nat>, seen: set<nat>, seen': set<nat>, size: int)
    requires trace != [] && size >= 0
    requires seen' <= seen + HeldOn(trace[|trace| - 1].disk, size) + HeldOn(next.disk, size)
    requires forall id :: id in seen ==> id in start || WasHeld(trace, id)
    ensures forall id :: id in seen' ==> id in start || WasHeld(trace + [next], id)
  {
    var trace' := trace + [next];
    forall id | id in seen' && id !in start ensures WasHeld(trace', id) {
      if id in seen {
        var k :| 0 <= k < |trace| && Holders(trace[k].disk, id) > 0;
        assert trace'[k] == trace[k];
      } else {
        assert trace'[|trace| - 1] == trace[|trace| - 1] && trace'[|trace|] == next;
      }
    }
  }

  lemma NothingRemoved(t: Tree, path: Path)
    requires path == [] || !Exists(t, path)
    ensures Removed(t, path, t)
  {
    forall other | path != [] && path <= other && Exists(t, other) ensures false {
      AboveExists(t, path, other);
    }
  }

  /** What an object stands in exists. */
  lemma {:induction false} AboveExists(t: Tree, path: Path, other: Path)
    requires path <= other && Exists(t, other)
    ensures Exists(t, path)
    decreases |path|
  {
    if path != [] {
      AboveExists(t.entries[path[0]], path[1..], other[1..]);
    }
  }

  /** An id given to a client for an object. */
  datatype Grant = Grant(path: Path, id: nat)

  /** Every id given out is still the object's, or the object was removed. */
  ghost predicate Honoured(outcomes: seq<Outcome>, t: Tree) {
    forall i :: 0 <= i < |outcomes| && outcomes[i].Granted? ==> Stands(outcomes[i].grant, t)
  }

  ghost predicate Stands(g: Grant, t: Tree) {
    Dead(t, g.path) || IdAt(t, g.path) == Some(g.id)
  }

  /** Objects that are left were given different ids. */
  ghost predicate AllDistinct(outcomes: seq<Outcome>, t: Tree) {
    forall i, j :: 0 <= i < j < |outcomes| && outcomes[i].Granted? && outcomes[j].Granted? ==>
      Apart(outcomes[i].grant, outcomes[j].grant, t)
  }

  ghost predicate Apart(g: Grant, h: Grant, t: Tree) {
    g.path == h.path || Dead(t, g.path) || Dead(t, h.path) || g.id != h.id
  }

  lemma HonouredNext(outcomes: seq<Outcome>, o: Outcome, a: Action, waiting: map<nat, Path>, before: Tree, after: Tree, waiting': map<nat, Path>)
    requires Honoured(outcomes, before) && Evolves(before, after) && Stepped(a, waiting, before, o, after, waiting')
    ensures Honoured(outcomes + [o], after)
  {
    forall i | 0 <= i < |outcomes| && outcomes[i].Granted? ensures Stands(outcomes[i].grant, after) {
      assert Stands(outcomes[i].grant, before);
    }
  }

  lemma {:induction false} HoldsOne(t: Tree, path: Path, id: nat)
    requires IdAt(t, path) == Some(id)
    ensures Holders(t, id) >= 1
    decreases |path|
  {
    if path != [] {
      HoldsOne(t.entries[path[0]], path[1..], id);
      EntryBelow(t, path[0], |t.entries|, id);
    }
  }

  lemma {:induction false} TwoEntries(t: Tree, j: nat, k: nat, n: nat, id: nat)
    requires t.Object? && j < k < n <= |t.entries|
    ensures Holders(t.entries[j], id) + Holders(t.entries[k], id) <= EntryHolders(t, n, id)
    decreases n
  {
    if k + 1 < n {
      TwoEntries(t, j, k, n - 1, id);
    } else {
      EntryBelow(t, j, n - 1, id);
    }
  }

  /** Two objects with one id are two holders. */
  lemma {:induction false} HoldTwo(t: Tree, a: Path, b: Path, id: nat)
    requires a != b && IdAt(t, a) == Some(id) && IdAt(t, b) == Some(id)
    ensures Holders(t, id) >= 2
    decreases |a|
  {
    if a == [] || b == [] {
      var other := if a == [] then b else a;
      HoldsOne(t.entries[other[0]], other[1..], id);
      EntryBelow(t, other[0], |t.entries|, id);
    } else if a[0] == b[0] {
      assert a[1..] != b[1..] by { assert a == [a[0]] + a[1..] && b == [b[0]] + b[1..]; }
      HoldTwo(t.entries[a[0]], a[1..], b[1..], id);
      EntryBelow(t, a[0], |t.entries|, id);
    } else {
      HoldsOne(t.entries[a[0]], a[1..], id);
      HoldsOne(t.entries[b[0]], b[1..], id);
      TwoEntries(t, if a[0] < b[0] then a[0] else b[0], if a[0] < b[0] then b[0] else a[0], |t.entries|, id);
    }
  }

  lemma DistinctGrants(outcomes: seq<Outcome>, t: Tree, size: int)
    requires size >= 0 && Honoured(outcomes, t) && Sound(t, size)
    ensures AllDistinct(outcomes, t)
  {
    forall i, j | 0 <= i < j < |outcomes| && outcomes[i].Granted? && outcomes[j].Granted?
      ensures Apart(outcomes[i].grant, outcomes[j].grant, t)
    {
      var g, h := outcomes[i].grant, outcomes[j].grant;
      assert Stands(g, t) && Stands(h, t);
      if !Apart(g, h, t) { HoldTwo(t, g.path, h.path, g.id); }
    }
  }

  /** The object at a path, or a directory above it, was removed. */
  predicate Dead(t: Tree, path: Path) {
    t.Gone? || (path != [] && path[0] < |t.entries| && Dead(t.entries[path[0]], path[1..]))
  }

  /** Every object that holds an id keeps it until it is removed, and what is removed does not come back. */
  ghost predicate Evolves(before: Tree, after: Tree) {
    forall path: Path {:trigger Dead(after, path)} {:trigger IdAt(after, path)} ::
      && (Dead(before, path) ==> Dead(after, path))
      && (IdAt(before, path).Some? ==> Dead(after, path) || IdAt(after, path) == IdAt(before, path))
  }

  lemma Transitive(a: Tree, b: Tree, c: Tree)
    requires Evolves(a, b) && Evolves(b, c)
    ensures Evolves(a, c)
  {
    forall path: Path
      ensures Dead(a, path) ==> Dead(c, path)
      ensures IdAt(a, path).Some? ==> Dead(c, path) || IdAt(c, path) == IdAt(a, path)
    {
      assert Dead(a, path) ==> Dead(b, path);
      assert Dead(b, path) ==> Dead(c, path);
      assert IdAt(a, path).Some? ==> Dead(b, path) || IdAt(b, path) == IdAt(a, path);
    }
  }

  lemma {:induction false} PutDead(t: Tree, path: Path, sub: Tree, other: Path)
    requires Exists(t, path)
    ensures Dead(Put(t, path, sub), other) == if path <= other then Dead(sub, other[|path|..]) else Dead(t, other)
    decreases |path|
  {
    if path == [] {
      assert other[0..] == other;
    } else if other != [] {
      var k := path[0];
      if other[0] == k {
        PutDead(t.entries[k], path[1..], sub, other[1..]);
        assert path <= other <==> path[1..] <= other[1..];
        assert path <= other ==> other[|path|..] == other[1..][|path[1..]|..];
      }
    }
  }

  lemma {:induction false} DeadBelow(t: Tree, path: Path, other: Path)
    requires path <= other && Exists(t, path)
    ensures Dead(t, other) == Dead(Find(t, path), other[|path|..])
    decreases |path|
  {
    if path == [] {
      assert other[0..] == other;
    } else {
      DeadBelow(t.entries[path[0]], path[1..], other[1..]);
      assert other[|path|..] == other[1..][|path[1..]|..];
    }
  }

  /** Replacing an object by one that evolved from it is an evolution of the tree. */
  lemma PutEvolves(t: Tree, path: Path, sub': Tree)
    requires Exists(t, path) && Evolves(Find(t, path), sub')
    ensures Evolves(t, Put(t, path, sub'))
  {
    var t' := Put(t, path, sub');
    forall other: Path
      ensures Dead(t, other) ==> Dead(t', other)
      ensures IdAt(t, other).Some? ==> Dead(t', other) || IdAt(t', other) == IdAt(t, other)
    {
      PutFind(t, path, sub', other);
      PutDead(t, path, sub', other);
      if path <= other {
        FindBelow(t, path, other);
        DeadBelow(t, path, other);
        var rest := other[|path|..];
        assert Dead(Find(t, path), rest) ==> Dead(sub', rest);
        assert IdAt(Find(t, path), rest).Some? ==> Dead(sub', rest) || IdAt(sub', rest) == IdAt(Find(t, path), rest);
      }
    }
  }

  lemma Grown(t: Tree, dir: Path, sub: Tree, sub': Tree, size: int)
    requires Sound(t, size) && Exists(t, dir) && sub == Find(t, dir)
    requires sub' == sub.(entries := sub.entries + [Object(None, [])])
    ensures var t' := Put(t, dir, sub');
            Sound(t', size) && Evolves(t, t') && Created(t, dir, t') && forall id: nat :: Holders(t', id) == Holders(t, id)
  {
    var n := |sub.entries|;
    forall id: nat ensures Holders(Put(t, dir, sub'), id) == Holders(t, id) {
      PutHolders(t, dir, sub', id);
      SameEntries(sub, sub', n, id);
      assert sub'.entries[n] == Object(None, []);
      assert Holders(sub'.entries[n], id) == 0;
    }
    forall path: Path
      ensures Dead(sub, path) ==> Dead(sub', path)
      ensures IdAt(sub, path).Some? ==> Dead(sub', path) || IdAt(sub', path) == IdAt(sub, path)
    {
      if path != [] && path[0] < n { assert sub'.entries[path[0]] == sub.entries[path[0]]; }
    }
    PutEvolves(t, dir, sub');
    forall other: Path
      ensures Exists(Put(t, dir, sub'), other) <==> Exists(t, other) || other == dir + [n]
      ensures IdAt(Put(t, dir, sub'), other) == IdAt(t, other)
    {
      OneMore(t, dir, sub, sub', other);
    }
  }

  lemma OneMore(t: Tree, dir: Path, sub: Tree, sub': Tree, other: Path)
    requires Exists(t, dir) && sub == Find(t, dir) && sub' == sub.(entries := sub.entries + [Object(None, [])])
    ensures Exists(Put(t, dir, sub'), other) <==> Exists(t, other) || other == dir + [|sub.entries|]
    ensures IdAt(Put(t, dir, sub'), other) == IdAt(t, other)
  {
    PutFind(t, dir, sub', other);
    if dir <= other {
      FindBelow(t, dir, other);
      var n, rest := |sub.entries|, other[|dir|..];
      assert other == dir + rest;
      if rest != [] && rest[0] < n { assert sub'.entries[rest[0]] == sub.entries[rest[0]]; }
      if rest != [] && rest[0] == n { assert rest == [n] + rest[1..]; }
    }
  }

  lemma Pruned(t: Tree, path: Path, size: int)
    requires Sound(t, size) && Exists(t, path)
    ensures var t' := Put(t, path, Gone);
            && Sound(t', size) && Evolves(t, t') && (forall id: nat :: Holders(t', id) <= Holders(t, id))
            && (path != [] ==> Removed(t, path, t'))
  {
    forall id: nat ensures Holders(Put(t, path, Gone), id) <= Holders(t, id) {
      PutHolders(t, path, Gone, id);
    }
    PutEvolves(t, path, Gone);
    forall other: Path
      ensures if path <= other then !Exists(Put(t, path, Gone), other)
              else (Exists(Put(t, path, Gone), other) <==> Exists(t, other)) && IdAt(Put(t, path, Gone), other) == IdAt(t, other)
    {
      PutFind(t, path, Gone, other);
    }
  }

  /** Giving an object without an id one that nobody holds. */
  lemma Assigned(t: Tree, path: Path, id: nat, size: int)
    requires Sound(t, size) && Exists(t, path) && IdAt(t, path).None?
    requires 1 <= id <= size && Holders(t, id) == 0
    ensures var t' := Put(t, path, Find(t, path).(id := Some(id)));
            && Sound(t', size) && IdAt(t', path) == Some(id)
            && (forall other: nat :: Holders(t', other) == Holders(t, other) + if other == id then 1 else 0)
            && Evolves(t, t') && Allocated(t, path, Id(id), t')
  {
    var sub := Find(t, path);
    var sub' := sub.(id := Some(id));
    var t' := Put(t, path, sub');
    forall other: nat ensures Holders(t', other) == Holders(t, other) + if other == id then 1 else 0 {
      PutHolders(t, path, sub', other);
      SameEntries(sub, sub', |sub.entries|, other);
    }
    PutEvolves(t, path, sub');
    forall other: Path
      ensures if other == path then IdAt(t', other) == Some(id) else IdAt(t', other) == IdAt(t, other)
      ensures Exists(t', other) <==> Exists(t, other)
    {
      PutFind(t, path, sub', other);
      if path <= other {
        FindBelow(t, path, other);
        if other == path { assert other[|path|..] == []; }
      }
    }
  }

  lemma {:induction false} SameEntries(a: Tree, b: Tree, n: nat, id: nat)
    requires a.Object? && b.Object? && n <= |a.entries| && n <= |b.entries|
    requires forall k :: 0 <= k < n ==> a.entries[k] == b.entries[k]
    ensures EntryHolders(a, n, id) == EntryHolders(b, n, id)
    decreases n
  {
    if n > 0 {
      SameEntries(a, b, n - 1, id);
    }
  }

  lemma {:induction false} FindBelow(t: Tree, path: Path, other: Path)
    requires path <= other && Exists(t, path)
    ensures Find(t, other) == Find(Find(t, path), other[|path|..])
    decreases |path|
  {
    if path == [] {
      assert other[0..] == other;
    } else {
      FindBelow(t.entries[path[0]], path[1..], other[1..]);
      assert other[|path|..] == other[1..][|path[1..]|..];
    }
  }
}
