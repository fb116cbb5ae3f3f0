/**
 * Why a write always ends: while its frame is outstanding every timer expiry and
 * every processed negative acknowledgement uses up a bounded budget, although a
 * resend starts the count of pings afresh.
 */
module LinkRetries {
  import opened Link
  import opened LinkRuns

  predicate Waiting(c: Client) {
    c.state == Connected && c.sending.outstanding
  }

  /** What the retry counters leave, resends counting for a whole round of pings each. */
  function Budget(t: Timing): int {
    (MAX_DATA_RETRIES - t.dataRetries) * (MAX_PING_RETRIES + 1) + (MAX_PING_RETRIES - t.pingRetries)
  }

  /** The counters stay within their limits and an outstanding frame always has the timer running. */
  predicate Supervised(c: Client) {
    && (c.state == Connected ==> c.timing.pingRetries < MAX_PING_RETRIES && c.timing.dataRetries <= MAX_DATA_RETRIES)
    && (c.state == Connecting ==> c.timing.pingRetries == 0 && c.timing.dataRetries == 0)
    && (Waiting(c) ==> c.timing.timerActive)
  }

  /** The events that use up the budget. */
  predicate IsRetryEvent(s: Sys, step: Step) {
    Waiting(s.client) && (step.Tick? || (step.Retry? && s.client.nackReceived))
  }

  function RetryEvents(s: Sys, steps: seq<Step>): nat
    requires AllEnabled(s, steps)
    decreases |steps|
  {
    if steps == [] then 0
    else (if IsRetryEvent(s, steps[0]) then 1 else 0) + RetryEvents(Do(s, steps[0]), steps[1..])
  }

  /** The frame is outstanding at the start, at the end and at every point between. */
  predicate StillWaiting(s: Sys, steps: seq<Step>)
    requires AllEnabled(s, steps)
    decreases |steps|
  {
    Waiting(s.client) && (steps == [] || StillWaiting(Do(s, steps[0]), steps[1..]))
  }

  lemma SupervisedInitially(s: Sys)
    requires Initial(s)
    ensures Supervised(s.client)
  {
  }

  lemma AckSupervised(c: Client, conn: seqno, number: seqno)
    requires Supervised(c) && c.state == Connected
    ensures Supervised(ReceiveAck(c, conn, number))
    ensures var d := ReceiveAck(c, conn, number);
            Waiting(c) && Waiting(d) ==> Budget(d.timing) == Budget(c.timing)
  {
  }

  lemma ReceivingSupervised(c: Client, f: Frame, usingShort: bool)
    requires Supervised(c)
    requires c.state == Connecting ==> !c.sending.outstanding
    ensures Supervised(ProcessFrame(c, f, usingShort))
    ensures var d := ProcessFrame(c, f, usingShort);
            Waiting(c) && Waiting(d) ==> Budget(d.timing) == Budget(c.timing)
  {
    if c.state == Connected && f.Ack? {
      AckSupervised(c.(okToRcvRfc := false), f.conn, f.number);
    }
  }

  lemma TickSupervised(c: Client)
    requires Supervised(c)
    ensures Supervised(TimerTick(c).0)
    ensures var d := TimerTick(c).0; Waiting(c) && Waiting(d) ==> Budget(d.timing) < Budget(c.timing)
  {
  }

  lemma RetrySupervised(c: Client)
    requires Supervised(c) && (c.nackReceived ==> c.state != Connecting)
    ensures Supervised(RetryIfNacked(c).0)
    ensures var d := RetryIfNacked(c).0;
            Waiting(c) && Waiting(d) ==>
              if c.nackReceived then Budget(d.timing) < Budget(c.timing) else Budget(d.timing) == Budget(c.timing)
  {
  }

  /** No step lets the budget of a frame that stays outstanding grow, and every retry event shrinks it. */
  lemma BudgetStep(s: Sys, step: Step)
    requires Inv(s) && Supervised(s.client) && Enabled(s, step)
    ensures var t := Do(s, step);
            && Supervised(t.client)
            && (Waiting(s.client) && Waiting(t.client) ==>
                  Budget(t.client.timing) + (if IsRetryEvent(s, step) then 1 else 0) <= Budget(s.client.timing))
  {
    match step
    case ClientReceives(late) => ReceivingSupervised(s.client, s.down[0], late || !s.client.receiving.bufferFree);
    case Tick => TickSupervised(s.client);
    case Retry => RetrySupervised(s.client);
    case _ =>
  }

  lemma {:induction false} BudgetOverRun(s: Sys, steps: seq<Step>)
    requires Inv(s) && Supervised(s.client) && AllEnabled(s, steps) && StillWaiting(s, steps)
    ensures var t := Run(s, steps);
            && Supervised(t.client)
            && RetryEvents(s, steps) + Budget(t.client.timing) <= Budget(s.client.timing)
    decreases |steps|
  {
    if steps != [] {
      InvKept(s, steps[0]);
      BudgetStep(s, steps[0]);
      BudgetOverRun(Do(s, steps[0]), steps[1..]);
    }
  }

  lemma {:induction false} SupervisedAlways(s: Sys, steps: seq<Step>)
    requires Inv(s) && Supervised(s.client) && AllEnabled(s, steps)
    ensures Inv(Run(s, steps)) && Supervised(Run(s, steps).client)
    decreases |steps|
  {
    if steps != [] {
      InvKept(s, steps[0]);
      BudgetStep(s, steps[0]);
      SupervisedAlways(Do(s, steps[0]), steps[1..]);
    }
  }

  /**
   * In any run, from any point where a frame is outstanding, at most 287 timer expiries and processed negative
   * acknowledgements can follow before the frame is acknowledged or the link goes down, and until then the timer
   * is always running, so such an event is always on its way.
   */
  lemma EveryWriteEnds(start: Sys, before: seq<Step>, during: seq<Step>)
    requires Initial(start) && AllEnabled(start, before)
    requires AllEnabled(Run(start, before), during) && StillWaiting(Run(start, before), during)
    ensures RetryEvents(Run(start, before), during) < MAX_DATA_RETRIES * (MAX_PING_RETRIES + 1) + MAX_PING_RETRIES
    ensures Run(Run(start, before), during).client.timing.timerActive
  {
    InvInitially(start);
    SupervisedInitially(start);
    SupervisedAlways(start, before);
    BudgetOverRun(Run(start, before), during);
    StillWaitingAtEnd(Run(start, before), during);
  }

  lemma {:induction false} StillWaitingAtEnd(s: Sys, steps: seq<Step>)
    requires AllEnabled(s, steps) && StillWaiting(s, steps)
    ensures Waiting(Run(s, steps).client)
    decreases |steps|
  {
    if steps != [] {
      StillWaitingAtEnd(Do(s, steps[0]), steps[1..]);
    }
  }
}
