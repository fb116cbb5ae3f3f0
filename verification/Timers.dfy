/**
 * The timer: requests ordered by an end time relative to a start time that is
 * moved forward now and then, counted by a 32-bit clock. The specification is a
 * list of requests with absolute deadlines.
 */
module Timers {
  import opened TimerQueue

  const DWORDS: nat := 0x1_0000_0000
  const MAX_RELATIVE_TIME: nat := 0x10000
  const WAIT_MAX: nat := 65000
  const WAIT_FOREVER: nat := 0xFFFF

  // ---- the specification: absolute deadlines ----

  datatype Timed = Timed(req: Req, due: nat)

  ghost predicate Sorted(p: seq<Timed>) {
    forall i, j :: 0 <= i < j < |p| ==> p[i].due <= p[j].due
  }

  /** What is still to come at a moment. */
  ghost function Later(p: seq<Timed>, now: nat): seq<Timed> {
    if p == [] || p[0].due > now then p else Later(p[1..], now)
  }

  /** What is to be returned at a moment, in order. */
  ghost function Due(p: seq<Timed>, now: nat): seq<Req> {
    if p == [] || p[0].due > now then [] else [p[0].req] + Due(p[1..], now)
  }

  /** A new request goes behind every request that is due no later. */
  ghost function Insert(p: seq<Timed>, x: Timed): seq<Timed> {
    if p == [] || p[0].due > x.due then [x] + p else [p[0]] + Insert(p[1..], x)
  }

  /** Adding a request to a timer with a recent start time returns nothing; else all that is due. */
  ghost function StillPending(p: seq<Timed>, recent: bool, now: nat): seq<Timed> {
    if recent then p else Later(p, now)
  }

  ghost function Returned(p: seq<Timed>, recent: bool, now: nat): seq<Req> {
    if recent then [] else Due(p, now)
  }

  ghost function Reqs(p: seq<Timed>): seq<Req> {
    if p == [] then [] else [p[0].req] + Reqs(p[1..])
  }

  /** The two parts make up the list, in its order. */
  lemma {:induction false} DueThenLater(p: seq<Timed>, now: nat)
    ensures Due(p, now) + Reqs(Later(p, now)) == Reqs(p)
  {
    if p != [] && p[0].due <= now {
      DueThenLater(p[1..], now);
    }
  }

  /** In a sorted list exactly the requests whose time has not come are left. */
  lemma {:induction false} ExactlyTheDue(p: seq<Timed>, now: nat)
    requires Sorted(p)
    ensures forall t :: t in Later(p, now) <==> t in p && t.due > now
  {
    if p == [] || p[0].due > now {
      forall t | t in p ensures t.due > now {
        var i :| 0 <= i < |p| && p[i] == t;
      }
    } else {
      ExactlyTheDue(p[1..], now);
      forall t ensures t in Later(p, now) <==> t in p && t.due > now {
        assert p == [p[0]] + p[1..];
      }
    }
  }

  /** A wake-up in between changes neither what is returned nor its order. */
  lemma {:induction false} WakeInBetween(p: seq<Timed>, early: nat, now: nat)
    requires early <= now
    ensures Later(Later(p, early), now) == Later(p, now)
    ensures Due(p, early) + Due(Later(p, early), now) == Due(p, now)
  {
    if p != [] && p[0].due <= early {
      WakeInBetween(p[1..], early, now);
      DueStep(p, early, []);
    }
  }

  lemma {:induction false} InsertIsSplice(p: seq<Timed>, x: Timed, k: nat)
    requires k <= |p| && (forall i :: 0 <= i < k ==> p[i].due <= x.due) && (k < |p| ==> p[k].due > x.due)
    ensures Insert(p, x) == p[..k] + [x] + p[k..]
  {
    if k > 0 {
      InsertIsSplice(p[1..], x, k - 1);
      assert p[..k] == [p[0]] + p[1..][..k - 1];
    }
  }

  /** Insertion keeps the order. */
  lemma SpliceSorted(p: seq<Timed>, x: Timed, k: nat)
    requires Sorted(p)
    requires k <= |p| && (forall i :: 0 <= i < k ==> p[i].due <= x.due) && (k < |p| ==> p[k].due > x.due)
    ensures Sorted(p[..k] + [x] + p[k..])
  {
    var q := p[..k] + [x] + p[k..];
    forall i, j | 0 <= i < j < |q| ensures q[i].due <= q[j].due {
      assert q[i] == if i < k then p[i] else if i == k then x else p[i - 1];
      assert q[j] == if j < k then p[j] else if j == k then x else p[j - 1];
    }
  }

  lemma CutSorted(p: seq<Timed>, k: nat)
    requires Sorted(p) && k < |p|
    ensures Sorted(p[..k] + p[k + 1..])
  {
    var q := p[..k] + p[k + 1..];
    forall i, j | 0 <= i < j < |q| ensures q[i].due <= q[j].due {
      assert q[i] == if i < k then p[i] else p[i + 1];
      assert q[j] == if j < k then p[j] else p[j + 1];
    }
  }

  lemma DueStep(p: seq<Timed>, now: nat, sent: seq<Req>)
    requires p != [] && p[0].due <= now
    ensures sent + [p[0].req] + Due(p[1..], now) == sent + Due(p, now)
  {
    var rest := Due(p[1..], now);
    assert sent + [p[0].req] + rest == sent + ([p[0].req] + rest);
  }

  ghost predicate Future(p: seq<Timed>, now: nat) {
    forall i :: 0 <= i < |p| ==> p[i].due > now
  }

  lemma LaterIsLater(p: seq<Timed>, now: nat)
    requires Sorted(p)
    ensures Future(Later(p, now), now)
  {
    ExactlyTheDue(p, now);
    forall i | 0 <= i < |Later(p, now)| ensures Later(p, now)[i].due > now {
      assert Later(p, now)[i] in Later(p, now);
    }
  }

  // ---- the 32-bit clock ----

  function Minus32(a: nat, b: nat): nat
    requires a < DWORDS && b < DWORDS
  {
    if a >= b then a - b else a + DWORDS - b
  }

  /** How far back the start time is for a new request, by the clock; a start time too far back is moved up first. */
  function SinceStart(sysCounter: nat, start: nat): nat
    requires sysCounter < DWORDS && start < DWORDS
  {
    var elapsed := Minus32(sysCounter, start);
    if elapsed < MAX_RELATIVE_TIME then elapsed else 0
  }

  /** The deadline of a request: a whole turn of the clock too early if its end time does not fit 32 bits. */
  function DueTime(now: nat, timeOut: nat, since: nat): int {
    if timeOut + since < DWORDS then now + timeOut else now + timeOut - DWORDS
  }

  /** Five ticks after the start time, the longest timeout there is was due a tick ago. */
  lemma LongestTimeoutIsOverdue(now: nat)
    requires now >= 5
    ensures var start, counter := (now - 5) % DWORDS, now % DWORDS;
            DueTime(now, DWORDS - 1, SinceStart(counter, start)) == now - 1
  {
    ClockDifference(now, now - 5);
  }

  lemma ModUnique(x: nat, q: nat, r: nat)
    requires r < DWORDS && x == q * DWORDS + r
    ensures x % DWORDS == r
  {
  }

  /** The clock difference is the time elapsed, up to whole turns of the clock. */
  lemma ClockDifference(now: nat, base: nat)
    requires base <= now
    ensures var r := Minus32(now % DWORDS, base % DWORDS);
            && r < DWORDS && r <= now - base
            && (now - r) % DWORDS == base % DWORDS
            && (now - base < DWORDS ==> r == now - base)
  {
    var a, b := now % DWORDS, base % DWORDS;
    var q, p := now / DWORDS, base / DWORDS;
    assert now == q * DWORDS + a && base == p * DWORDS + b;
    if a >= b {
      ModUnique(now - (a - b), q, b);
    } else {
      ModUnique(now - (a + DWORDS - b), q - 1, b);
    }
  }

  // ---- the timer ----

  /** Each entry's end time, counted from `start`, is its deadline. */
  ghost predicate Match(p: seq<Timed>, items: seq<Req>, start: nat)
    reads items`endTime
  {
    && |p| == |items|
    && forall i :: 0 <= i < |p| ==>
         p[i].req == items[i] && p[i].due == start + items[i].endTime && items[i].endTime < DWORDS
  }

  /** The same splice in both lists keeps requests and deadlines together. */
  lemma Spliced(p: seq<Timed>, items: seq<Req>, x: Timed, k: nat, start: nat)
    requires Match(p, items, start) && k <= |p|
    requires x.due == start + x.req.endTime && x.req.endTime < DWORDS
    ensures Match(p[..k] + [x] + p[k..], items[..k] + [x.req] + items[k..], start)
  {
    var p', items' := p[..k] + [x] + p[k..], items[..k] + [x.req] + items[k..];
    forall i | 0 <= i < |p'| ensures p'[i].req == items'[i] && p'[i].due == start + items'[i].endTime && items'[i].endTime < DWORDS {
      if i < k {
        assert p'[i] == p[i] && items'[i] == items[i];
      } else if i > k {
        assert p'[i] == p[i - 1] && items'[i] == items[i - 1];
      }
    }
  }

  /** So does the same cut. */
  lemma Cut(p: seq<Timed>, items: seq<Req>, k: nat, start: nat)
    requires Match(p, items, start) && k < |p|
    ensures Match(p[..k] + p[k + 1..], items[..k] + items[k + 1..], start)
  {
    var p', items' := p[..k] + p[k + 1..], items[..k] + items[k + 1..];
    forall i | 0 <= i < |p'| ensures p'[i].req == items'[i] && p'[i].due == start + items'[i].endTime && items'[i].endTime < DWORDS {
      if i < k {
        assert p'[i] == p[i] && items'[i] == items[i];
      } else {
        assert p'[i] == p[i + 1] && items'[i] == items[i + 1];
      }
    }
  }

  class TimerModule {
    const que: Que
    var timerStartTime: nat
    /** Requests returned to their owners, in order. */
    var sent: seq<Req>
    /** The moment timerStartTime stands for. */
    ghost var base: nat
    ghost var pending: seq<Timed>

    ghost predicate Valid()
      reads this, que, que.items
    {
      && que.Valid()
      && timerStartTime == base % DWORDS
      && Sorted(pending)
      && Tied(base)
    }

    /** Each queued request's end time, counted from `start`, is its deadline. */
    ghost predicate Tied(start: nat)
      reads this`pending, que, que.items`endTime
    {
      Match(pending, que.items, start)
    }

    constructor (sysCounter: nat, ghost now: nat)
      requires sysCounter == now % DWORDS
      ensures Valid() && pending == [] && sent == [] && base == now && fresh(que)
    {
      que := new Que();
      timerStartTime, sent, base, pending := sysCounter, [], now, [];
    }

    /** Time since the start time. An idle timer may have slept through whole turns of the clock. */
    method Elapsed(sysCounter: nat, ghost now: nat) returns (relative: nat)
      requires Valid() && base <= now && sysCounter == now % DWORDS
      requires pending != [] ==> now - base < DWORDS
      modifies this`base
      ensures Valid() && base + relative == now && relative < DWORDS
      ensures now - old(base) < DWORDS ==> base == old(base)
      ensures relative == Minus32(sysCounter, timerStartTime)
    {
      ClockDifference(now, base);
      relative := Minus32(sysCounter, timerStartTime);
      base := now - relative;
    }

    method ReturnHead()
      requires Valid() && pending != []
      modifies this`sent, this`pending, que, que.Nodes()`qLink
      ensures Valid() && pending == old(pending)[1..] && sent == old(sent) + [old(pending)[0].req]
      ensures que.items == old(que.items)[1..]
    {
      ghost var was, entries := pending, que.items;
      var r := que.PopQ();
      sent := sent + [r];
      pending := was[1..];
      forall i | 0 <= i < |pending| ensures pending[i] == was[i + 1] && que.items[i] == entries[i + 1] {
      }
    }

    /** One turn: the head is returned if it is due. */
    method ReturnOne(relative: nat, ghost now: nat) returns (complete: bool)
      requires Valid() && pending != [] && now == base + relative
      modifies this`sent, this`pending, que, que.Nodes()`qLink
      ensures Valid() && que.Nodes() <= old(que.Nodes())
      ensures Later(pending, now) == Later(old(pending), now)
      ensures sent + Due(pending, now) == old(sent) + Due(old(pending), now)
      ensures if complete then |pending| < |old(pending)| else pending != [] && pending[0].due > now
      ensures |pending| <= |old(pending)|
    {
      complete := relative >= que.head.endTime;
      if complete {
        assert pending[0].due <= now;
        DueStep(pending, now, sent);
        ReturnHead();
      }
    }

    /** Returns the requests that are due, first come first. */
    method ReturnDue(relative: nat, ghost now: nat)
      requires Valid() && now == base + relative
      modifies this`sent, this`pending, que, que.Nodes()`qLink
      ensures Valid() && que.Nodes() <= old(que.Nodes())
      ensures pending == Later(old(pending), now)
      ensures sent == old(sent) + Due(old(pending), now)
    {
      ghost var entries := que.Nodes();
      var complete := true;
      while complete && que.head != null
        modifies this`sent, this`pending, que, entries`qLink
        invariant Valid() && que.Nodes() <= entries
        invariant Later(pending, now) == Later(old(pending), now)
        invariant sent + Due(pending, now) == old(sent) + Due(old(pending), now)
        invariant !complete ==> pending != [] && pending[0].due > now
        decreases |pending|, complete
      {
        complete := ReturnOne(relative, now);
      }
    }

    /** Every end time is counted from now instead of the start time. */
    method ShiftEnds(relative: nat, ghost now: nat)
      requires que.Valid() && Tied(base) && now == base + relative
      requires Future(pending, now)
      modifies que.Nodes()`endTime
      ensures que.Valid() && Tied(now)
    {
      var r := que.head;
      ghost var k := 0;
      while r != null
        invariant k <= |que.items| && r == NodeAt(que.items, k) && que.Valid()
        invariant forall i :: 0 <= i < k ==> que.items[i].endTime == pending[i].due - now
        invariant forall i :: k <= i < |que.items| ==> que.items[i].endTime == pending[i].due - base
        decreases |que.items| - k
      {
        r.endTime := r.endTime - relative;
        r := r.qLink;
        k := k + 1;
      }
    }

    /** Moves the start time to now once it lies far back; every deadline stays what it was. */
    method Rebase(sysCounter: nat, elapsed: nat, ghost now: nat) returns (relative: nat)
      requires Valid() && now == base + elapsed && sysCounter == now % DWORDS
      requires Future(pending, now)
      modifies this`base, this`timerStartTime, que.Nodes()`endTime
      ensures Valid() && now == base + relative && relative < MAX_RELATIVE_TIME
      ensures base == if elapsed >= MAX_RELATIVE_TIME then now else old(base)
    {
      relative := elapsed;
      if relative >= MAX_RELATIVE_TIME {
        ShiftEnds(relative, now);
        timerStartTime := sysCounter;
        base := now;
        relative := 0;
        assert que.Valid();
        assert Tied(base);
      }
    }

    /** How long to sleep: for ever, or at most until the next deadline. */
    method NextDelay(relative: nat, ghost now: nat) returns (delay: nat)
      requires Valid() && now == base + relative
      requires Future(pending, now)
      ensures delay == if pending == [] then WAIT_FOREVER
                       else if pending[0].due - now >= WAIT_MAX then WAIT_MAX else pending[0].due - now
      ensures delay > 0 && Future(pending, now + delay - 1)
    {
      if que.head == null {
        delay := WAIT_FOREVER;
      } else {
        delay := que.head.endTime - relative;
        if delay >= WAIT_MAX { delay := WAIT_MAX; }
      }
    }

    method Expire(sysCounter: nat, ghost now: nat) returns (relative: nat)
      requires Valid() && base <= now && sysCounter == now % DWORDS
      requires pending != [] ==> now - base < DWORDS
      modifies this`base, this`sent, this`pending, que, que.Nodes()`qLink
      ensures Valid() && que.Nodes() <= old(que.Nodes()) && now == base + relative
      ensures pending == Later(old(pending), now) && sent == old(sent) + Due(old(pending), now)
      ensures Future(pending, now) && (now - old(base) < DWORDS ==> base == old(base))
    {
      LaterIsLater(pending, now);
      relative := Elapsed(sysCounter, now);
      ReturnDue(relative, now);
    }

    /**
     * Returns exactly the requests that are due, in order, and a delay that
     * sleeps past no deadline.
     */
    method CompleteTimerRequests(sysCounter: nat, ghost now: nat) returns (delay: nat)
      requires Valid() && base <= now && sysCounter == now % DWORDS
      requires pending != [] ==> now - base < DWORDS
      modifies this, que, que.Nodes()`qLink, que.Nodes()`endTime
      ensures Valid() && que.Nodes() <= old(que.Nodes())
      ensures pending == Later(old(pending), now) && sent == old(sent) + Due(old(pending), now)
      ensures base <= now < base + MAX_RELATIVE_TIME
      ensures MAX_RELATIVE_TIME <= now - old(base) < DWORDS ==> base == now
      ensures delay == if pending == [] then WAIT_FOREVER
                       else if pending[0].due - now >= WAIT_MAX then WAIT_MAX else pending[0].due - now
      ensures delay > 0 && Future(pending, now + delay - 1)
    {
      var relative := Expire(sysCounter, now);
      relative := Rebase(sysCounter, relative, now);
      delay := NextDelay(relative, now);
    }

    /** Readies the start time for a new request; a start time too far back is moved, which returns what is due. */
    method Freshen(sysCounter: nat, ghost now: nat) returns (relative: nat)
      requires Valid() && base <= now && sysCounter == now % DWORDS
      requires pending != [] ==> now - base < DWORDS
      modifies this, que, que.Nodes()`qLink, que.Nodes()`endTime
      ensures Valid() && que.Nodes() <= old(que.Nodes()) && now == base + relative && relative < MAX_RELATIVE_TIME
      ensures relative == SinceStart(sysCounter, old(timerStartTime))
      ensures pending == StillPending(old(pending), now - old(base) < MAX_RELATIVE_TIME, now)
      ensures sent == old(sent) + Returned(old(pending), now - old(base) < MAX_RELATIVE_TIME, now)
    {
      relative := Elapsed(sysCounter, now);
      if relative >= MAX_RELATIVE_TIME {
        var _ := CompleteTimerRequests(sysCounter, now);
        relative := 0;
      }
    }

    /** The place of a new request: before the first that ends later. */
    method FindPlace(endTime: nat, ghost due: nat) returns (prev: Req?, next: Req?, ghost k: nat)
      requires Valid() && due == base + endTime
      ensures k <= |pending| && (forall i :: 0 <= i < k ==> pending[i].due <= due) && (k < |pending| ==> pending[k].due > due)
      ensures next == NodeAt(que.items, k) && prev == if k == 0 then null else que.items[k - 1]
    {
      prev, next, k := null, que.head, 0;
      var found := false;
      while next != null && !found
        invariant k <= |pending| && next == NodeAt(que.items, k) && prev == if k == 0 then null else que.items[k - 1]
        invariant forall i :: 0 <= i < k ==> pending[i].due <= due
        invariant found ==> k < |pending| && pending[k].due > due
        decreases |pending| - k, !found
      {
        if next.endTime > endTime {
          found := true;
        } else {
          prev, next, k := next, next.qLink, k + 1;
        }
      }
    }

    /** Links a request in at place k, in the queue and in the list of deadlines. */
    method Splice(prev: Req?, next: Req?, req: Req, ghost x: Timed, ghost k: nat)
      requires Valid() && req !in que.items && k <= |pending|
      requires next == NodeAt(que.items, k) && prev == if k == 0 then null else que.items[k - 1]
      requires x == Timed(req, base + req.endTime) && req.endTime < DWORDS
      modifies this`pending, que, que.Nodes()`qLink, req`qLink
      ensures que.Valid() && Tied(base) && que.Nodes() <= old(que.Nodes()) + {req}
      ensures pending == old(pending)[..k] + [x] + old(pending)[k..]
    {
      ghost var p, items := pending, que.items;
      que.LinkIn(prev, next, req, k);
      pending := p[..k] + [x] + p[k..];
      assert Tied(base) by { Spliced(p, items, x, k, base); }
    }

    method Enqueue(req: Req, ghost due: nat)
      requires Valid() && req !in que.items && req.endTime < DWORDS && due == base + req.endTime
      modifies this`pending, que, que.Nodes()`qLink, req`qLink
      ensures Valid() && pending == Insert(old(pending), Timed(req, due)) && que.Nodes() <= old(que.Nodes()) + {req}
    {
      var prev, next, k := FindPlace(req.endTime, due);
      ghost var was, x := pending, Timed(req, due);
      Splice(prev, next, req, x, k);
      assert Sorted(pending) by { SpliceSorted(was, x, k); }
      assert pending == Insert(was, x) by { InsertIsSplice(was, x, k); }
    }

    /**
     * A request is due `timeOut` from now, unless the end time overflows the 32
     * bits it is kept in: then it is due a whole turn of the clock too early.
     */
    method Schedule(req: Req, sysCounter: nat, ghost now: nat) returns (signalled: bool, ghost due: nat)
      requires Valid() && base <= now && sysCounter == now % DWORDS
      requires pending != [] ==> now - base < DWORDS
      requires req !in que.items && req.timeOut < DWORDS
      modifies this, que, que.Nodes()`qLink, que.Nodes()`endTime, req`qLink, req`endTime
      ensures Valid() && base <= now < base + MAX_RELATIVE_TIME && que.Nodes() <= old(que.Nodes()) + {req}
      ensures due == DueTime(now, req.timeOut, SinceStart(sysCounter, old(timerStartTime)))
      ensures pending == Insert(StillPending(old(pending), now - old(base) < MAX_RELATIVE_TIME, now), Timed(req, due))
      ensures sent == old(sent) + Returned(old(pending), now - old(base) < MAX_RELATIVE_TIME, now)
      ensures pending != [] && (signalled <==> pending[0].req == req)
    {
      var relative := Freshen(sysCounter, now);
      assert req !in que.Nodes();
      req.endTime := if req.timeOut + relative < DWORDS then req.timeOut + relative else req.timeOut + relative - DWORDS;
      due := base + req.endTime;
      Enqueue(req, due);
      signalled := que.head == req;
    }

    /** A zero timeout is returned at once; anything else is scheduled. */
    method AddTimerRequest(req: Req, sysCounter: nat, ghost now: nat) returns (signalled: bool, ghost due: nat)
      requires Valid() && base <= now && sysCounter == now % DWORDS
      requires pending != [] ==> now - base < DWORDS
      requires req !in que.items && req.timeOut < DWORDS
      modifies this, que, que.Nodes()`qLink, que.Nodes()`endTime, req`qLink, req`endTime
      ensures Valid() && que.Nodes() <= old(que.Nodes()) + {req}
      ensures req.timeOut == 0 ==> pending == old(pending) && sent == old(sent) + [req] && base == old(base) && !signalled && due == now
      ensures req.timeOut > 0 ==>
                && base <= now < base + MAX_RELATIVE_TIME
                && due == DueTime(now, req.timeOut, SinceStart(sysCounter, old(timerStartTime)))
                && pending == Insert(StillPending(old(pending), now - old(base) < MAX_RELATIVE_TIME, now), Timed(req, due))
                && sent == old(sent) + Returned(old(pending), now - old(base) < MAX_RELATIVE_TIME, now)
                && pending != [] && (signalled <==> pending[0].req == req)
    {
      if req.timeOut == 0 {
        sent := sent + [req];
        return false, now;
      }
      signalled, due := Schedule(req, sysCounter, now);
    }

    method FindEntry(entry: Req) returns (prev: Req?, r: Req?, ghost k: nat)
      requires Valid()
      ensures k <= |que.items| && r == NodeAt(que.items, k) && prev == if k == 0 then null else que.items[k - 1]
      ensures if r == null then entry !in que.items else r == entry
    {
      prev, r, k := null, que.head, 0;
      while r != null && r != entry
        invariant k <= |que.items| && r == NodeAt(que.items, k) && prev == if k == 0 then null else que.items[k - 1]
        invariant forall i :: 0 <= i < k ==> que.items[i] != entry
        decreases |que.items| - k
      {
        prev, r, k := r, r.qLink, k + 1;
      }
    }

    method CutOut(prev: Req?, req: Req, ghost k: nat)
      requires Valid() && k < |que.items| && req == que.items[k]
      requires prev == if k == 0 then null else que.items[k - 1]
      modifies this`pending, que, que.Nodes()`qLink
      ensures que.Valid() && Tied(base) && que.Nodes() <= old(que.Nodes())
      ensures pending == old(pending)[..k] + old(pending)[k + 1..]
    {
      Cut(pending, que.items, k, base);
      que.Unlink(prev, req, k);
      pending := pending[..k] + pending[k + 1..];
    }

    /** Takes a request off the queue and says whether it was there; everything else stays as it was. */
    method AbortTimerRequest(abortReq: Req?) returns (found: bool)
      requires Valid()
      modifies this`pending, que, que.Nodes()`qLink
      ensures Valid() && que.Nodes() <= old(que.Nodes()) && (found <==> abortReq in old(que.items))
      ensures if found then
                exists k :: 0 <= k < |old(pending)| && old(pending)[k].req == abortReq
                            && pending == old(pending)[..k] + old(pending)[k + 1..]
              else pending == old(pending)
    {
      if abortReq == null { return false; }
      var prev, r, k := FindEntry(abortReq);
      found := r == abortReq;
      if found {
        CutSorted(pending, k);
        CutOut(prev, abortReq, k);
      }
    }
  }
}
