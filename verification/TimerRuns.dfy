/**
 * Runs of the timer: requests added, aborted and completed over time. Every
 * request is returned exactly once, by the first completion at or after its
 * deadline, unless it was aborted.
 */
module TimerRuns {
  import Bytes
  import opened TimerQueue
  import opened Timers

  type dword = n: nat | n < DWORDS

  /** A call, made some ticks after the one before it; requests are named by the order they were added in. */
  datatype Event = Add(timeOut: dword, wait: nat) | Abort(which: nat, wait: nat) | Complete(wait: nat)

  /** When a request was added, counted in completions, its timeout, and when it is due. */
  datatype Ticket = Ticket(from: nat, timeOut: nat, due: nat)

  /** How a request was returned: by the completion numbered `at`, or at once because its timeout was zero. */
  datatype Life = Life(req: Req, at: nat) | AtOnce(req: Req)

  /** The moments of the completions so far, a ticket for each request, and the requests returned, in order. */
  datatype Log = Log(runs: seq<nat>, tickets: map<Req, Ticket>, lives: seq<Life>)

  ghost function TicketOf(log: Log, r: Req): Ticket {
    if r in log.tickets then log.tickets[r] else Ticket(0, 0, 0)
  }

  /** Not returned at once, and due at none of these completions. */
  ghost predicate NotYetDue(runs: seq<nat>, t: Ticket) {
    t.timeOut > 0 && t.from <= |runs| && forall k :: t.from <= k < |runs| ==> runs[k] < t.due
  }

  /** Returned by the first completion at or after the deadline. */
  ghost predicate ByFirst(runs: seq<nat>, t: Ticket, at: nat) {
    && t.from <= at < |runs| && t.due <= runs[at]
    && forall k :: t.from <= k < at ==> runs[k] < t.due
  }

  ghost predicate OnTime(log: Log, l: Life) {
    var ticket := TicketOf(log, l.req);
    if l.AtOnce? then ticket.timeOut == 0 else ticket.timeOut > 0 && ByFirst(log.runs, ticket, l.at)
  }

  ghost predicate AllOnTime(log: Log) {
    forall i :: 0 <= i < |log.lives| ==> OnTime(log, log.lives[i])
  }

  /** What waits is due when its ticket says, and was due at no completion among `runs` since it was added. */
  ghost predicate Waiting(log: Log, runs: seq<nat>, p: seq<Timed>)
    decreases |p|
  {
    p == [] || (p[0].due == TicketOf(log, p[0].req).due && NotYetDue(runs, TicketOf(log, p[0].req)) && Waiting(log, runs, p[1..]))
  }

  ghost function LifeReqs(lives: seq<Life>): seq<Req> {
    seq(|lives|, i requires 0 <= i < |lives| => lives[i].req)
  }

  ghost function Ended(log: Log, r: Req): Log
    requires log.runs != []
  {
    log.(lives := log.lives + [Life(r, |log.runs| - 1)])
  }

  /** The log once everything due at the last completion is returned. */
  ghost function AllEnded(log: Log, p: seq<Timed>, now: nat): Log
    requires log.runs != []
    decreases |p|
  {
    if p == [] || p[0].due > now then log else AllEnded(Ended(log, p[0].req), p[1..], now)
  }

  ghost function AfterRun(log: Log, p: seq<Timed>, now: nat): Log {
    AllEnded(log.(runs := log.runs + [now]), p, now)
  }

  // ---- a completion ----

  lemma OneEnds(log: Log, before: seq<nat>, t: Timed, now: nat)
    requires log.runs == before + [now] && AllOnTime(log)
    requires NotYetDue(before, TicketOf(log, t.req)) && t.due == TicketOf(log, t.req).due <= now
    ensures AllOnTime(Ended(log, t.req))
    ensures LifeReqs(Ended(log, t.req).lives) == LifeReqs(log.lives) + [t.req]
  {
    var ticket, after := TicketOf(log, t.req), Ended(log, t.req);
    forall k | ticket.from <= k < |before| ensures log.runs[k] < ticket.due {
      assert before[k] == log.runs[k];
    }
    forall i | 0 <= i < |after.lives| ensures OnTime(after, after.lives[i]) {
      if i < |log.lives| { assert OnTime(log, log.lives[i]); }
    }
  }

  /** Who waits depends neither on the lives in the log nor on its own count of completions. */
  lemma {:induction false} WaitingAnyLog(log: Log, other: Log, runs: seq<nat>, p: seq<Timed>)
    requires Waiting(log, runs, p) && other.tickets == log.tickets
    ensures Waiting(other, runs, p)
    decreases |p|
  {
    if p != [] {
      WaitingAnyLog(log, other, runs, p[1..]);
    }
  }

  lemma {:induction false} AllEnd(log: Log, before: seq<nat>, p: seq<Timed>, now: nat)
    requires log.runs == before + [now] && AllOnTime(log) && Waiting(log, before, p)
    ensures var after := AllEnded(log, p, now);
            && after.runs == log.runs && after.tickets == log.tickets && AllOnTime(after)
            && Waiting(after, before, Later(p, now))
            && LifeReqs(after.lives) == LifeReqs(log.lives) + Due(p, now)
    decreases |p|
  {
    if p == [] || p[0].due > now {
      assert LifeReqs(log.lives) + [] == LifeReqs(log.lives);
    } else {
      OneEnds(log, before, p[0], now);
      WaitingAnyLog(log, Ended(log, p[0].req), before, p[1..]);
      AllEnd(Ended(log, p[0].req), before, p[1..], now);
      DueStep(p, now, LifeReqs(log.lives));
    }
  }

  /** What lies in the future waits through a completion now. */
  lemma {:induction false} StillWaiting(log: Log, before: seq<nat>, p: seq<Timed>, now: nat)
    requires Waiting(log, before, p) && Future(p, now)
    ensures Waiting(log, before + [now], p)
    decreases |p|
  {
    if p != [] {
      assert p[0].due > now;
      assert Future(p[1..], now) by {
        forall i | 0 <= i < |p[1..]| ensures p[1..][i].due > now { assert p[1..][i] == p[i + 1]; }
      }
      StillWaiting(log, before, p[1..], now);
    }
  }

  lemma EarlierOnTime(log: Log, now: nat)
    requires AllOnTime(log)
    ensures AllOnTime(log.(runs := log.runs + [now]))
  {
    forall i | 0 <= i < |log.lives| ensures OnTime(log.(runs := log.runs + [now]), log.lives[i]) {
      assert OnTime(log, log.lives[i]);
    }
  }

  /** A completion returns on time what it returns, and what stays was not due at it. */
  lemma RunKeeps(log: Log, p: seq<Timed>, now: nat)
    requires Waiting(log, log.runs, p) && AllOnTime(log) && Sorted(p)
    ensures var after := AfterRun(log, p, now);
            && after.runs == log.runs + [now] && after.tickets == log.tickets
            && Waiting(after, after.runs, Later(p, now)) && AllOnTime(after)
            && LifeReqs(after.lives) == LifeReqs(log.lives) + Due(p, now)
  {
    var mid := log.(runs := log.runs + [now]);
    WaitingAnyLog(log, mid, log.runs, p);
    EarlierOnTime(log, now);
    AllEnd(mid, log.runs, p, now);
    LaterIsLater(p, now);
    StillWaiting(AfterRun(log, p, now), log.runs, Later(p, now), now);
  }

  // ---- adding and aborting ----

  ghost function Added(log: Log, r: Req, timeOut: nat, due: nat): Log {
    log.(tickets := log.tickets[r := Ticket(|log.runs|, timeOut, due)])
  }

  ghost predicate Without(p: seq<Timed>, r: Req)
    decreases |p|
  {
    p == [] || (p[0].req != r && Without(p[1..], r))
  }

  lemma {:induction false} OthersWait(log: Log, runs: seq<nat>, p: seq<Timed>, x: Timed, timeOut: nat)
    requires Waiting(log, runs, p) && Without(p, x.req)
    ensures Waiting(Added(log, x.req, timeOut, x.due), runs, p)
    decreases |p|
  {
    if p != [] {
      OthersWait(log, runs, p[1..], x, timeOut);
    }
  }

  lemma {:induction false} InsertWaits(log: Log, runs: seq<nat>, p: seq<Timed>, x: Timed)
    requires Waiting(log, runs, p) && NotYetDue(runs, TicketOf(log, x.req)) && x.due == TicketOf(log, x.req).due
    ensures Waiting(log, runs, Insert(p, x))
    decreases |p|
  {
    if p == [] || p[0].due > x.due {
      assert ([x] + p)[1..] == p;
    } else {
      InsertWaits(log, runs, p[1..], x);
      assert ([p[0]] + Insert(p[1..], x))[1..] == Insert(p[1..], x);
    }
  }

  lemma {:induction false} InsertReqs(p: seq<Timed>, x: Timed)
    ensures multiset(Reqs(Insert(p, x))) == multiset(Reqs(p)) + multiset{x.req}
  {
    if p == [] || p[0].due > x.due {
      assert ([x] + p)[1..] == p;
    } else {
      InsertReqs(p[1..], x);
      assert ([p[0]] + Insert(p[1..], x))[1..] == Insert(p[1..], x);
    }
  }

  lemma {:induction false} CutWaits(log: Log, runs: seq<nat>, p: seq<Timed>, k: nat)
    requires Waiting(log, runs, p) && k < |p|
    ensures Waiting(log, runs, p[..k] + p[k + 1..])
    decreases k
  {
    if k == 0 {
      assert p[..0] + p[1..] == p[1..];
    } else {
      var rest := p[1..];
      CutWaits(log, runs, rest, k - 1);
      assert (p[..k] + p[k + 1..])[0] == p[0] && (p[..k] + p[k + 1..])[1..] == rest[..k - 1] + rest[k..];
    }
  }

  lemma {:induction false} CutReqs(p: seq<Timed>, k: nat)
    requires k < |p|
    ensures multiset(Reqs(p)) == multiset(Reqs(p[..k] + p[k + 1..])) + multiset{p[k].req}
    decreases k
  {
    var rest, cut := p[1..], p[..k] + p[k + 1..];
    if k == 0 {
      assert cut == rest;
    } else {
      CutReqs(rest, k - 1);
      assert cut[0] == p[0] && cut[1..] == rest[..k - 1] + rest[k..];
    }
  }

  // ---- the books over a whole run ----

  /** Every request added is returned, aborted or waiting; all that is returned was on time. */
  ghost predicate Books(log: Log, p: seq<Timed>, sent: seq<Req>, aborted: seq<Req>, added: seq<Req>) {
    && Waiting(log, log.runs, p) && AllOnTime(log) && LifeReqs(log.lives) == sent
    && multiset(added) == multiset(sent) + multiset(aborted) + multiset(Reqs(p))
  }

  lemma RunBooks(log: Log, p: seq<Timed>, now: nat, sent: seq<Req>, aborted: seq<Req>, added: seq<Req>)
    requires Books(log, p, sent, aborted, added) && Sorted(p)
    ensures var after := AfterRun(log, p, now);
            && after.runs == log.runs + [now] && after.tickets == log.tickets
            && Books(after, Later(p, now), sent + Due(p, now), aborted, added)
  {
    RunKeeps(log, p, now);
    DueThenLater(p, now);
  }

  /** A new ticket changes nothing for the requests returned before. */
  lemma OldLives(log: Log, r: Req, timeOut: nat, due: nat, sent: seq<Req>)
    requires AllOnTime(log) && LifeReqs(log.lives) == sent && r !in sent
    ensures AllOnTime(Added(log, r, timeOut, due))
  {
    var after := Added(log, r, timeOut, due);
    forall i | 0 <= i < |log.lives| ensures OnTime(after, log.lives[i]) {
      assert OnTime(log, log.lives[i]);
      assert log.lives[i].req == sent[i];
      assert TicketOf(after, log.lives[i].req) == TicketOf(log, log.lives[i].req);
    }
  }

  lemma AddWaits(log: Log, p: seq<Timed>, x: Timed, timeOut: nat)
    requires timeOut > 0 && Waiting(log, log.runs, p) && Without(p, x.req)
    ensures Waiting(Added(log, x.req, timeOut, x.due), log.runs, Insert(p, x))
  {
    OthersWait(log, log.runs, p, x, timeOut);
    InsertWaits(Added(log, x.req, timeOut, x.due), log.runs, p, x);
  }

  lemma AddBooks(log: Log, p: seq<Timed>, x: Timed, timeOut: nat, sent: seq<Req>, aborted: seq<Req>, added: seq<Req>)
    requires timeOut > 0 && Books(log, p, sent, aborted, added) && Without(p, x.req) && x.req !in sent
    ensures Books(Added(log, x.req, timeOut, x.due), Insert(p, x), sent, aborted, added + [x.req])
  {
    AddWaits(log, p, x, timeOut);
    OldLives(log, x.req, timeOut, x.due, sent);
    InsertReqs(p, x);
  }

  ghost function AddedAtOnce(log: Log, r: Req, now: nat): Log {
    var ticketed := Added(log, r, 0, now);
    ticketed.(lives := ticketed.lives + [AtOnce(r)])
  }

  lemma AtOnceOnTime(log: Log, r: Req)
    requires AllOnTime(log) && TicketOf(log, r).timeOut == 0
    ensures var after := log.(lives := log.lives + [AtOnce(r)]);
            AllOnTime(after) && LifeReqs(after.lives) == LifeReqs(log.lives) + [r]
  {
    var after := log.(lives := log.lives + [AtOnce(r)]);
    forall i | 0 <= i < |log.lives| ensures OnTime(after, after.lives[i]) {
      assert OnTime(log, log.lives[i]);
    }
  }

  lemma AtOnceBooks(log: Log, p: seq<Timed>, r: Req, now: nat, sent: seq<Req>, aborted: seq<Req>, added: seq<Req>)
    requires Books(log, p, sent, aborted, added) && Without(p, r) && r !in sent
    ensures Books(AddedAtOnce(log, r, now), p, sent + [r], aborted, added + [r])
  {
    var ticketed := Added(log, r, 0, now);
    OthersWait(log, log.runs, p, Timed(r, now), 0);
    WaitingAnyLog(ticketed, AddedAtOnce(log, r, now), log.runs, p);
    OldLives(log, r, 0, now, sent);
    AtOnceOnTime(ticketed, r);
  }

  lemma AbortBooks(log: Log, p: seq<Timed>, k: nat, sent: seq<Req>, aborted: seq<Req>, added: seq<Req>)
    requires Books(log, p, sent, aborted, added) && k < |p|
    ensures Books(log, p[..k] + p[k + 1..], sent, aborted + [p[k].req], added)
  {
    CutWaits(log, log.runs, p, k);
    CutReqs(p, k);
  }

  // ---- the calls, and what they were asked for ----

  /** A request handed in: at which moment, and for how long. */
  datatype Asked = Asked(at: nat, timeOut: nat)

  ghost function AskedBy(e: Event, now: nat): seq<Asked> {
    if e.Add? then [Asked(now, e.timeOut)] else []
  }

  /** What the calls ask for, in order. */
  ghost function AllAsked(now: nat, events: seq<Event>): seq<Asked>
    decreases |events|
  {
    if events == [] then []
    else AskedBy(events[0], now + events[0].wait) + AllAsked(now + events[0].wait, events[1..])
  }

  ghost function CompletedBy(e: Event, now: nat): seq<nat> {
    if e.Complete? then [now] else []
  }

  /** The moments at which completion is called for. */
  ghost function AllCompleted(now: nat, events: seq<Event>): seq<nat>
    decreases |events|
  {
    if events == [] then []
    else CompletedBy(events[0], now + events[0].wait) + AllCompleted(now + events[0].wait, events[1..])
  }

  /** The ticket says what was asked for: due at its time, or a turn of the clock early if that did not fit. */
  ghost predicate Granted(a: Asked, t: Ticket) {
    && t.timeOut == a.timeOut
    && (t.due == a.at + a.timeOut || (a.timeOut > DWORDS - MAX_RELATIVE_TIME && t.due == a.at + a.timeOut - DWORDS))
  }

  /** Its completions are the ones from the moment it was added on. */
  ghost predicate Counted(runs: seq<nat>, a: Asked, t: Ticket) {
    && t.from <= |runs|
    && (forall k :: 0 <= k < t.from ==> runs[k] <= a.at)
    && (forall k :: t.from <= k < |runs| ==> a.at <= runs[k])
  }

  ghost predicate Tickets(log: Log, added: seq<Req>, asked: seq<Asked>) {
    && |added| == |asked|
    && forall i :: 0 <= i < |added| ==> Granted(asked[i], TicketOf(log, added[i])) && Counted(log.runs, asked[i], TicketOf(log, added[i]))
  }

  ghost predicate Past(runs: seq<nat>, asked: seq<Asked>, now: nat) {
    && (forall k :: 0 <= k < |runs| ==> runs[k] <= now)
    && (forall i :: 0 <= i < |asked| ==> asked[i].at <= now)
  }

  lemma TicketsAfterRun(log: Log, after: Log, added: seq<Req>, asked: seq<Asked>, now: nat)
    requires Tickets(log, added, asked) && Past(log.runs, asked, now)
    requires after.tickets == log.tickets && after.runs == log.runs + [now]
    ensures Tickets(after, added, asked) && Past(after.runs, asked, now)
  {
    forall i | 0 <= i < |added|
      ensures Granted(asked[i], TicketOf(after, added[i])) && Counted(after.runs, asked[i], TicketOf(after, added[i]))
    {
      assert Counted(log.runs, asked[i], TicketOf(log, added[i]));
    }
  }

  lemma TicketsAfterAdd(log: Log, r: Req, timeOut: nat, due: nat, added: seq<Req>, asked: seq<Asked>, now: nat)
    requires Tickets(log, added, asked) && Past(log.runs, asked, now) && r !in added
    requires Granted(Asked(now, timeOut), Ticket(|log.runs|, timeOut, due))
    ensures Tickets(Added(log, r, timeOut, due), added + [r], asked + [Asked(now, timeOut)])
    ensures Past(log.runs, asked + [Asked(now, timeOut)], now)
  {
    var after, all, asks := Added(log, r, timeOut, due), added + [r], asked + [Asked(now, timeOut)];
    forall i | 0 <= i < |all|
      ensures Granted(asks[i], TicketOf(after, all[i])) && Counted(after.runs, asks[i], TicketOf(after, all[i]))
    {
      if i < |added| {
        assert all[i] == added[i] && asks[i] == asked[i] && added[i] in added;
        assert Counted(log.runs, asked[i], TicketOf(log, added[i]));
      }
    }
  }

  // ---- the run ----

  /** What has happened so far: the log, the requests handed in and the completions called for. */
  datatype History = History(log: Log, asked: seq<Asked>, completed: seq<nat>)

  ghost predicate Kept(h: History, p: seq<Timed>, sent: seq<Req>, aborted: seq<Req>, added: seq<Req>) {
    && Books(h.log, p, sent, aborted, added) && Tickets(h.log, added, h.asked) && Distinct(added)
    && forall i :: 0 <= i < |h.completed| ==> h.completed[i] in h.log.runs
  }

  ghost function HistoryAfterRun(h: History, p: seq<Timed>, now: nat): History {
    h.(log := AfterRun(h.log, p, now))
  }

  lemma KeptAfterRun(h: History, p: seq<Timed>, sent: seq<Req>, aborted: seq<Req>, added: seq<Req>, now: nat)
    requires Kept(h, p, sent, aborted, added) && Past(h.log.runs, h.asked, now) && Sorted(p)
    ensures var after := HistoryAfterRun(h, p, now);
            && Kept(after, Later(p, now), sent + Due(p, now), aborted, added) && Past(after.log.runs, after.asked, now)
            && after.log.runs == h.log.runs + [now]
  {
    RunBooks(h.log, p, now, sent, aborted, added);
    TicketsAfterRun(h.log, AfterRun(h.log, p, now), added, h.asked, now);
  }

  ghost function HistoryAfterAdd(h: History, r: Req, timeOut: nat, due: nat, now: nat): History {
    h.(log := if timeOut == 0 then AddedAtOnce(h.log, r, now) else Added(h.log, r, timeOut, due),
       asked := h.asked + [Asked(now, timeOut)])
  }

  lemma KeptAfterAdd(h: History, p: seq<Timed>, sent: seq<Req>, aborted: seq<Req>, added: seq<Req>, x: Timed, timeOut: nat, now: nat)
    requires Kept(h, p, sent, aborted, added) && Past(h.log.runs, h.asked, now)
    requires Without(p, x.req) && x.req !in sent && x.req !in added && timeOut > 0
    requires Granted(Asked(now, timeOut), Ticket(|h.log.runs|, timeOut, x.due))
    ensures var after := HistoryAfterAdd(h, x.req, timeOut, x.due, now);
            Kept(after, Insert(p, x), sent, aborted, added + [x.req]) && Past(after.log.runs, after.asked, now)
  {
    AddBooks(h.log, p, x, timeOut, sent, aborted, added);
    TicketsAfterAdd(h.log, x.req, timeOut, x.due, added, h.asked, now);
  }

  lemma KeptAtOnce(h: History, p: seq<Timed>, sent: seq<Req>, aborted: seq<Req>, added: seq<Req>, r: Req, now: nat)
    requires Kept(h, p, sent, aborted, added) && Past(h.log.runs, h.asked, now)
    requires Without(p, r) && r !in sent && r !in added
    ensures var after := HistoryAfterAdd(h, r, 0, now, now);
            Kept(after, p, sent + [r], aborted, added + [r]) && Past(after.log.runs, after.asked, now)
  {
    AtOnceBooks(h.log, p, r, now, sent, aborted, added);
    TicketsAfterAdd(h.log, r, 0, now, added, h.asked, now);
    TicketsAnyLives(Added(h.log, r, 0, now), AddedAtOnce(h.log, r, now), added + [r], h.asked + [Asked(now, 0)]);
  }

  lemma TicketsAnyLives(log: Log, other: Log, added: seq<Req>, asked: seq<Asked>)
    requires Tickets(log, added, asked) && other.tickets == log.tickets && other.runs == log.runs
    ensures Tickets(other, added, asked)
  {
    forall i | 0 <= i < |added| ensures TicketOf(other, added[i]) == TicketOf(log, added[i]) {
    }
  }

  lemma {:induction false} WithoutAll(p: seq<Timed>, r: Req)
    requires forall i :: 0 <= i < |p| ==> p[i].req != r
    ensures Without(p, r)
    decreases |p|
  {
    if p != [] {
      WithoutAll(p[1..], r);
    }
  }

  lemma {:induction false} LaterWithout(p: seq<Timed>, now: nat, r: Req)
    requires Without(p, r)
    ensures Without(Later(p, now), r) && r !in Due(p, now)
  {
    if p != [] && p[0].due <= now {
      LaterWithout(p[1..], now, r);
    }
  }

  method CompleteNow(timer: TimerModule, sysCounter: nat, ghost now: nat, ghost h: History, ghost aborted: seq<Req>, ghost added: seq<Req>)
      returns (ghost after: History)
    requires timer.Valid() && timer.base <= now < timer.base + DWORDS && sysCounter == now % DWORDS
    requires Kept(h, timer.pending, timer.sent, aborted, added) && Past(h.log.runs, h.asked, now)
    modifies timer, timer.que, timer.que.Nodes()`qLink, timer.que.Nodes()`endTime
    ensures timer.Valid() && timer.base <= now < timer.base + MAX_RELATIVE_TIME && timer.que.Nodes() <= old(timer.que.Nodes())
    ensures Kept(after, timer.pending, timer.sent, aborted, added) && Past(after.log.runs, after.asked, now)
    ensures after.asked == h.asked && after.completed == h.completed + [now]
  {
    KeptAfterRun(h, timer.pending, timer.sent, aborted, added, now);
    after := HistoryAfterRun(h, timer.pending, now).(completed := h.completed + [now]);
    var _ := timer.CompleteTimerRequests(sysCounter, now);
  }

  /** The history up to the insertion of a new request: a start time far back is a completion first. */
  ghost function BeforeInsert(h: History, p: seq<Timed>, recent: bool, now: nat): History {
    if recent then h else HistoryAfterRun(h, p, now)
  }

  lemma KeptBeforeInsert(h: History, p: seq<Timed>, sent: seq<Req>, aborted: seq<Req>, added: seq<Req>, recent: bool, now: nat, r: Req)
    requires Kept(h, p, sent, aborted, added) && Past(h.log.runs, h.asked, now) && Sorted(p)
    requires Without(p, r) && r !in sent
    ensures var mid, p', sent' := BeforeInsert(h, p, recent, now), StillPending(p, recent, now), sent + Returned(p, recent, now);
            && Kept(mid, p', sent', aborted, added) && Past(mid.log.runs, mid.asked, now)
            && mid.asked == h.asked && mid.completed == h.completed
            && Without(p', r) && r !in sent'
  {
    if recent {
      assert sent + [] == sent;
    } else {
      KeptAfterRun(h, p, sent, aborted, added, now);
      LaterWithout(p, now, r);
    }
  }

  /** The history after a call to add, whichever way it went. */
  ghost function AfterAdding(h: History, p: seq<Timed>, r: Req, timeOut: nat, due: nat, recent: bool, now: nat): History {
    HistoryAfterAdd(if timeOut == 0 then h else BeforeInsert(h, p, recent, now), r, timeOut, due, now)
  }

  ghost function PendingAfter(p: seq<Timed>, x: Timed, timeOut: nat, recent: bool, now: nat): seq<Timed> {
    if timeOut == 0 then p else Insert(StillPending(p, recent, now), x)
  }

  ghost function SentAfter(p: seq<Timed>, r: Req, timeOut: nat, recent: bool, now: nat): seq<Req> {
    if timeOut == 0 then [r] else Returned(p, recent, now)
  }

  lemma AddKept(h: History, p: seq<Timed>, sent: seq<Req>, aborted: seq<Req>, added: seq<Req>, x: Timed, timeOut: nat, recent: bool, now: nat)
    requires Kept(h, p, sent, aborted, added) && Past(h.log.runs, h.asked, now) && Sorted(p)
    requires Without(p, x.req) && x.req !in sent && x.req !in added
    requires timeOut == 0 ==> x.due == now
    requires forall from :: Granted(Asked(now, timeOut), Ticket(from, timeOut, x.due))
    ensures var after := AfterAdding(h, p, x.req, timeOut, x.due, recent, now);
            && Kept(after, PendingAfter(p, x, timeOut, recent, now), sent + SentAfter(p, x.req, timeOut, recent, now), aborted, added + [x.req])
            && Past(after.log.runs, after.asked, now)
            && after.asked == h.asked + [Asked(now, timeOut)] && after.completed == h.completed
  {
    if timeOut == 0 {
      KeptAtOnce(h, p, sent, aborted, added, x.req, now);
    } else {
      KeptBeforeInsert(h, p, sent, aborted, added, recent, now, x.req);
      KeptAfterAdd(BeforeInsert(h, p, recent, now), StillPending(p, recent, now), sent + Returned(p, recent, now), aborted, added, x, timeOut, now);
    }
  }

  lemma GrantedDue(now: nat, timeOut: nat, sysCounter: nat, start: nat, due: nat)
    requires timeOut < DWORDS && sysCounter < DWORDS && start < DWORDS
    requires due == DueTime(now, timeOut, SinceStart(sysCounter, start))
    ensures forall from :: Granted(Asked(now, timeOut), Ticket(from, timeOut, due))
  {
  }

  /** What waits is not this request if the queue does not hold it. */
  lemma NotQueued(p: seq<Timed>, items: seq<Req>, start: nat, r: Req)
    requires Match(p, items, start) && r !in items
    ensures Without(p, r)
  {
    forall i | 0 <= i < |p| ensures p[i].req != r {
      assert p[i].req == items[i];
    }
    WithoutAll(p, r);
  }

  method AddNow(timer: TimerModule, req: Req, sysCounter: nat, ghost now: nat, ghost h: History, ghost aborted: seq<Req>, ghost added: seq<Req>)
      returns (ghost after: History)
    requires timer.Valid() && timer.base <= now < timer.base + DWORDS && sysCounter == now % DWORDS
    requires Kept(h, timer.pending, timer.sent, aborted, added) && Past(h.log.runs, h.asked, now)
    requires req !in timer.que.items && req !in timer.sent && req !in added && req.timeOut < DWORDS
    modifies timer, timer.que, timer.que.Nodes()`qLink, timer.que.Nodes()`endTime, req`qLink, req`endTime
    ensures timer.Valid() && timer.que.Nodes() <= old(timer.que.Nodes()) + {req}
    ensures if req.timeOut == 0 then timer.base == old(timer.base) else timer.base <= now < timer.base + MAX_RELATIVE_TIME
    ensures Kept(after, timer.pending, timer.sent, aborted, added + [req]) && Past(after.log.runs, after.asked, now)
    ensures after.asked == h.asked + [Asked(now, req.timeOut)] && after.completed == h.completed
  {
    ghost var p, sent, recent, start := timer.pending, timer.sent, now - timer.base < MAX_RELATIVE_TIME, timer.timerStartTime;
    NotQueued(p, timer.que.items, timer.base, req);
    var _, due := timer.AddTimerRequest(req, sysCounter, now);
    if req.timeOut > 0 { GrantedDue(now, req.timeOut, sysCounter, start, due); }
    AddKept(h, p, sent, aborted, added, Timed(req, due), req.timeOut, recent, now);
    after := AfterAdding(h, p, req, req.timeOut, due, recent, now);
  }

  method AbortNow(timer: TimerModule, req: Req?, aborted: seq<Req>, ghost h: History, ghost added: seq<Req>) returns (gone: seq<Req>)
    requires timer.Valid() && Kept(h, timer.pending, timer.sent, aborted, added)
    modifies timer`pending, timer.que, timer.que.Nodes()`qLink
    ensures timer.Valid() && timer.que.Nodes() <= old(timer.que.Nodes())
    ensures Kept(h, timer.pending, timer.sent, gone, added)
    ensures gone == if req != null && req in old(timer.que.items) then aborted + [req] else aborted
  {
    ghost var p := timer.pending;
    var found := timer.AbortTimerRequest(req);
    gone := aborted;
    if found {
      ghost var k :| 0 <= k < |p| && p[k].req == req && timer.pending == p[..k] + p[k + 1..];
      AbortBooks(h.log, p, k, timer.sent, aborted, added);
      gone := aborted + [req];
    }
  }

  method AddNew(timer: TimerModule, timeOut: dword, sysCounter: nat, added: seq<Req>, ghost now: nat, ghost h: History, ghost aborted: seq<Req>)
      returns (added': seq<Req>, ghost after: History)
    requires timer.Valid() && timer.base <= now < timer.base + DWORDS && sysCounter == now % DWORDS
    requires Kept(h, timer.pending, timer.sent, aborted, added) && Past(h.log.runs, h.asked, now)
    modifies timer, timer.que, timer.que.Nodes()`qLink, timer.que.Nodes()`endTime
    ensures timer.Valid() && fresh(timer.que.Nodes() - old(timer.que.Nodes()))
    ensures if timeOut == 0 then timer.base == old(timer.base) else timer.base <= now < timer.base + MAX_RELATIVE_TIME
    ensures Kept(after, timer.pending, timer.sent, aborted, added') && Past(after.log.runs, after.asked, now)
    ensures after.asked == h.asked + [Asked(now, timeOut)] && after.completed == h.completed && added <= added'
  {
    var req := new Req(timeOut);
    assert req !in timer.que.items && req !in timer.sent && req !in added;
    after := AddNow(timer, req, sysCounter, now, h, aborted, added);
    added' := added + [req];
  }

  predicate ReadsClock(e: Event) {
    e.Complete? || (e.Add? && e.timeOut > 0)
  }

  /** The clock is read well before it has gone round since it was last read. */
  ghost predicate Paced(read: nat, now: nat, events: seq<Event>)
    requires read <= now
    decreases |events|
  {
    events == [] ||
    (var next := now + events[0].wait;
     next - read < DWORDS - MAX_RELATIVE_TIME && Paced(if ReadsClock(events[0]) then next else read, next, events[1..]))
  }

  lemma PastLater(runs: seq<nat>, asked: seq<Asked>, now: nat, later: nat)
    requires Past(runs, asked, now) && now <= later
    ensures Past(runs, asked, later)
  {
  }

  predicate Names(e: Event, added: seq<Req>) {
    e.Abort? && e.which < |added|
  }

  /** Some of the calls to abort, in order, each with the request it names. */
  ghost predicate ByName(events: seq<Event>, added: seq<Req>, gone: seq<Req>)
    decreases |events|
  {
    if events == [] then gone == []
    else
      || ByName(events[1..], added, gone)
      || (gone != [] && Names(events[0], added) && added[events[0].which] == gone[0] && ByName(events[1..], added, gone[1..]))
  }

  lemma OneMoreGone(events: seq<Event>, added: seq<Req>, added': seq<Req>, more: seq<Req>, gone: seq<Req>)
    requires events != [] && added <= added' && ByName(events[1..], added', gone)
    requires more == [] || (Names(events[0], added) && more == [added[events[0].which]])
    ensures ByName(events, added', more + gone)
  {
    if more == [] {
      assert more + gone == gone;
    } else {
      assert (more + gone)[1..] == gone && Names(events[0], added');
    }
  }

  /** One call at the moment `now`. */
  method Perform(timer: TimerModule, e: Event, sysCounter: nat, added: seq<Req>, aborted: seq<Req>, ghost now: nat, ghost h: History)
      returns (added': seq<Req>, aborted': seq<Req>, ghost more: seq<Req>, ghost after: History)
    requires timer.Valid() && timer.base <= now < timer.base + DWORDS && sysCounter == now % DWORDS
    requires Kept(h, timer.pending, timer.sent, aborted, added) && Past(h.log.runs, h.asked, now)
    modifies timer, timer.que, timer.que.Nodes()`qLink, timer.que.Nodes()`endTime
    ensures timer.Valid() && fresh(timer.que.Nodes() - old(timer.que.Nodes()))
    ensures if ReadsClock(e) then timer.base <= now < timer.base + MAX_RELATIVE_TIME else timer.base == old(timer.base)
    ensures Kept(after, timer.pending, timer.sent, aborted', added') && Past(after.log.runs, after.asked, now)
    ensures after.asked == h.asked + AskedBy(e, now) && after.completed == h.completed + CompletedBy(e, now)
    ensures added <= added' && aborted' == aborted + more
    ensures more == [] || (Names(e, added) && more == [added[e.which]])
  {
    added', aborted', more, after := added, aborted, [], h;
    assert aborted + [] == aborted && h.asked + [] == h.asked && h.completed + [] == h.completed;
    match e
    case Add(timeOut, _) =>
      added', after := AddNew(timer, timeOut, sysCounter, added, now, h, aborted);
    case Abort(which, _) =>
      aborted' := AbortNow(timer, if which < |added| then added[which] else null, aborted, h, added);
      more := aborted'[|aborted|..];
    case Complete(_) =>
      after := CompleteNow(timer, sysCounter, now, h, aborted, added);
  }

  /** The calls from here on; the clock was last read at `read`. */
  method Continue(timer: TimerModule, events: seq<Event>, now: nat, ghost read: nat, added: seq<Req>, aborted: seq<Req>, ghost h: History)
      returns (added': seq<Req>, aborted': seq<Req>, ghost gone: seq<Req>, ghost after: History)
    requires timer.Valid() && timer.base <= read < timer.base + MAX_RELATIVE_TIME && read <= now && Paced(read, now, events)
    requires Kept(h, timer.pending, timer.sent, aborted, added) && Past(h.log.runs, h.asked, now)
    modifies timer, timer.que, timer.que.Nodes()`qLink, timer.que.Nodes()`endTime
    ensures timer.Valid() && Kept(after, timer.pending, timer.sent, aborted', added')
    ensures added <= added' && aborted' == aborted + gone && ByName(events, added', gone)
    ensures after.asked == h.asked + AllAsked(now, events) && after.completed == h.completed + AllCompleted(now, events)
    decreases |events|
  {
    added', aborted', gone, after := added, aborted, [], h;
    if events != [] {
      var next := now + events[0].wait;
      PastLater(h.log.runs, h.asked, now, next);
      ghost var more, mid, rest;
      added', aborted', more, mid := Perform(timer, events[0], next % DWORDS, added, aborted, next, h);
      added', aborted', rest, after :=
        Continue(timer, events[1..], next, if ReadsClock(events[0]) then next else read, added', aborted', mid);
      gone := more + rest;
      OneMoreGone(events, added, added', more, rest);
      Bytes.Assoc(aborted, more, rest);
      Bytes.Assoc(h.asked, AskedBy(events[0], next), AllAsked(next, events[1..]));
      Bytes.Assoc(h.completed, CompletedBy(events[0], next), AllCompleted(next, events[1..]));
    }
  }

  /**
   * Any calls on a new timer, with the clock read in time: every request handed in is returned exactly once, in
   * the order and by the first completion its deadline allows, or was aborted by name, or still waits for its time.
   */
  method Drive(start: nat, events: seq<Event>)
      returns (added: seq<Req>, aborted: seq<Req>, sent: seq<Req>, ghost pending: seq<Timed>, ghost h: History)
    requires Paced(start, start, events)
    ensures Kept(h, pending, sent, aborted, added) && ByName(events, added, aborted)
    ensures h.asked == AllAsked(start, events) && h.completed == AllCompleted(start, events)
  {
    var timer := new TimerModule(start % DWORDS, start);
    ghost var gone;
    added, aborted, gone, h := Continue(timer, events, start, start, [], [], History(Log([], map[], []), [], []));
    assert [] + gone == gone;
    sent, pending := timer.sent, timer.pending;
  }

  /** Handed in five ticks after the timer was started, a request for the longest time there is comes back at once. */
  method LongestComesBackAtOnce(now: nat) returns (req: Req, sent: seq<Req>)
    requires now >= 5
    ensures req.timeOut == DWORDS - 1 && sent == [req]
  {
    var timer := new TimerModule((now - 5) % DWORDS, now - 5);
    req := new Req(DWORDS - 1);
    LongestTimeoutIsOverdue(now);
    var _, due := timer.AddTimerRequest(req, now % DWORDS, now);
    assert Due([Timed(req, due)], now) == [req];
    var _ := timer.CompleteTimerRequests(now % DWORDS, now);
    sent := timer.sent;
  }
}
