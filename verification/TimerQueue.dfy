/**
 * The linked queues under the timer: head, tail and links, with the sequence of
 * entries they stand for.
 */
module TimerQueue {
  /** A request control block. */
  class Req {
    var qLink: Req?
    var timeOut: nat
    var endTime: nat

    constructor (timeOut: nat)
      ensures this.timeOut == timeOut
    {
      this.timeOut := timeOut;
    }
  }

  ghost function NodeAt(items: seq<Req>, i: nat): Req? {
    if i < |items| then items[i] else null
  }

  ghost predicate Distinct(items: seq<Req>) {
    forall i, j :: 0 <= i < j < |items| ==> items[i] != items[j]
  }

  lemma DistinctConcat(a: seq<Req>, b: seq<Req>)
    requires Distinct(a) && Distinct(b) && forall r :: r in a ==> r !in b
    ensures Distinct(a + b)
  {
    forall i, j | 0 <= i < j < |a + b| ensures (a + b)[i] != (a + b)[j] {
      if i < |a| <= j { assert a[i] in a && b[j - |a|] in b; }
    }
  }

  lemma DistinctWith(items: seq<Req>, entry: Req, k: nat)
    requires Distinct(items) && entry !in items && k <= |items|
    ensures Distinct(items[..k] + [entry] + items[k..])
  {
  }

  lemma DistinctWithout(items: seq<Req>, k: nat)
    requires Distinct(items) && k < |items|
    ensures Distinct(items[..k] + items[k + 1..])
  {
  }

  /** Each entry links to the next one, the last one to `after`. */
  ghost predicate Chain(items: seq<Req>, after: Req?)
    reads items`qLink
  {
    forall i {:trigger items[i].qLink} :: 0 <= i < |items| ==> items[i].qLink == if i + 1 < |items| then items[i + 1] else after
  }

  lemma Join(a: seq<Req>, b: seq<Req>)
    requires Chain(a, NodeAt(b, 0)) && Chain(b, null)
    ensures Chain(a + b, null)
  {
    var all := a + b;
    forall i | 0 <= i < |all| ensures all[i].qLink == if i + 1 < |all| then all[i + 1] else null {
      if i < |a| {
        assert all[i] == a[i];
      } else {
        assert all[i] == b[i - |a|];
      }
    }
  }

  /** A queue of control blocks: a head, a tail, and links between. */
  class Que {
    var head: Req?
    var tail: Req?
    ghost var items: seq<Req>

    ghost predicate Valid()
      reads this, items`qLink
    {
      && Distinct(items)
      && Chain(items, null)
      && head == NodeAt(items, 0)
      && tail == if items == [] then null else items[|items| - 1]
    }

    ghost function Nodes(): set<Req>
      reads this
    {
      set r | r in items
    }

    constructor ()
      ensures Valid() && items == []
    {
      head, tail, items := null, null, [];
    }

    method PutQ(entry: Req)
      requires Valid() && entry !in items
      modifies this, entry`qLink, Nodes()`qLink
      ensures Valid() && items == old(items) + [entry]
    {
      entry.qLink := null;
      if head != null {
        var last := tail;
        tail := entry;
        last.qLink := entry;
      } else {
        tail := entry;
        head := entry;
      }
      items := items + [entry];
    }

    method PopQ() returns (entry: Req?)
      requires Valid()
      modifies this, Nodes()`qLink
      ensures Valid() && entry == NodeAt(old(items), 0)
      ensures items == if old(items) == [] then [] else old(items)[1..]
      ensures entry != null ==> entry.qLink == null
    {
      if head != null {
        entry := head;
        head := entry.qLink;
        if head == null { tail := null; }
        entry.qLink := null;
        items := items[1..];
      } else {
        entry := null;
      }
    }

    method ConCatQues(rear: Que)
      requires Valid() && rear.Valid() && this != rear
      requires forall r :: r in items ==> r !in rear.items
      modifies this, rear, Nodes()`qLink
      ensures Valid() && rear.Valid()
      ensures items == old(items) + old(rear.items) && rear.items == []
    {
      ghost var front, back := items, rear.items;
      DistinctConcat(front, back);
      if head != null {
        if rear.head != null {
          var last := tail;
          assert last == front[|front| - 1] && last !in back;
          last.qLink := rear.head;
          tail := rear.tail;
          rear.head, rear.tail := null, null;
        }
      } else if rear.head != null {
        head := rear.head;
        tail := rear.tail;
        rear.head, rear.tail := null, null;
      }
      items, rear.items := front + back, [];
      Join(front, back);
    }

    /** Links a new entry in between `prev` and `next`, at place k. */
    method LinkIn(prev: Req?, next: Req?, entry: Req, ghost k: nat)
      requires Valid() && entry !in items && k <= |items|
      requires next == NodeAt(items, k) && prev == if k == 0 then null else items[k - 1]
      modifies this, entry`qLink, Nodes()`qLink
      ensures Valid() && items == old(items)[..k] + [entry] + old(items)[k..] && Nodes() <= old(Nodes()) + {entry}
    {
      if prev != null {
        entry.qLink := next;
        prev.qLink := entry;
      } else {
        entry.qLink := head;
        head := entry;
      }
      if next == null { tail := entry; }
      ghost var was := items;
      items := was[..k] + [entry] + was[k..];
      DistinctWith(was, entry, k);
      forall i | 0 <= i < |items| ensures items[i].qLink == NodeAt(items, i + 1) {
        if i < k {
          assert items[i] == was[i];
          assert NodeAt(items, i + 1) == if i + 1 < k then was[i + 1] else entry;
        } else {
          assert NodeAt(items, i + 1) == NodeAt(was, i);
          if i > k { assert items[i] == was[i - 1]; }
        }
      }
    }

    /** Takes the entry at place k out; `prev` stands before it. */
    method Unlink(prev: Req?, entry: Req, ghost k: nat)
      requires Valid() && k < |items| && entry == items[k]
      requires prev == if k == 0 then null else items[k - 1]
      modifies this, Nodes()`qLink
      ensures Valid() && items == old(items)[..k] + old(items)[k + 1..] && Nodes() <= old(Nodes())
      ensures entry.qLink == null
    {
      if prev != null {
        prev.qLink := entry.qLink;
        if tail == entry { tail := prev; }
      } else {
        head := entry.qLink;
        if head == null { tail := null; }
      }
      entry.qLink := null;
      ghost var was := items;
      items := was[..k] + was[k + 1..];
      DistinctWithout(was, k);
      forall i | 0 <= i < |items| ensures items[i].qLink == NodeAt(items, i + 1) {
        if i < k { assert items[i] == was[i]; } else { assert items[i] == was[i + 1]; }
      }
    }
  }
}
