/**
 * After a loss: whatever was on its way may be gone, a write that is waiting can
 * still be finished, an idle link is kept alive, and an end that hears nothing
 * gives up after as many tries as it is allowed, no fewer.
 */
module LinkRecovery {
  import opened Link
  import opened LinkRuns
  import opened LinkRetries
  import opened LinkProgress

  // ---- the session stays open as long as the client has not gone ----

  predicate NoDisc(ch: seq<Frame>) {
    forall i :: 0 <= i < |ch| ==> !ch[i].Disc?
  }

  predicate StillOpen(s: Sys) {
    s.client.state != Disconnected ==> !s.session.closed && NoDisc(s.up)
  }

  lemma OpenKept(s: Sys, step: Step)
    requires StillOpen(s) && Enabled(s, step)
    ensures StillOpen(Do(s, step))
  {
    if step.Tick? { TickSends(s.client); }
  }

  lemma TickSends(c: Client)
    ensures NoDisc(TimerTick(c).1) && (TimerTick(c).0.state == Disconnected ==> c.state == Disconnected)
  {
  }

  lemma {:induction false} OpenAlways(s: Sys, steps: seq<Step>)
    requires StillOpen(s) && AllEnabled(s, steps)
    ensures StillOpen(Run(s, steps))
    decreases |steps|
  {
    if steps != [] {
      OpenKept(s, steps[0]);
      OpenAlways(Do(s, steps[0]), steps[1..]);
    }
  }

  // ---- everything on its way is lost ----

  lemma {:induction false} UpLost(s: Sys) returns (steps: seq<Step>)
    ensures AllEnabled(s, steps) && Run(s, steps) == s.(up := [])
    decreases |s.up|
  {
    if s.up == [] {
      steps := [];
    } else {
      var t := Do(s, LoseUp(0));
      assert t == s.(up := t.up) && |t.up| < |s.up|;
      var more := UpLost(t);
      RunCons(s, LoseUp(0), more);
      steps := [LoseUp(0)] + more;
    }
  }

  lemma {:induction false} DownLost(s: Sys) returns (steps: seq<Step>)
    ensures AllEnabled(s, steps) && Run(s, steps) == s.(down := [])
    decreases |s.down|
  {
    if s.down == [] {
      steps := [];
    } else {
      var t := Do(s, LoseDown(0));
      assert t == s.(down := t.down) && |t.down| < |s.down|;
      var more := DownLost(t);
      RunCons(s, LoseDown(0), more);
      steps := [LoseDown(0)] + more;
    }
  }

  lemma AllLost(s: Sys) returns (steps: seq<Step>)
    ensures AllEnabled(s, steps) && Run(s, steps) == s.(up := [], down := [])
  {
    var first := UpLost(s);
    var more := DownLost(Run(s, first));
    RunConcat(s, first, more);
    steps := first + more;
  }

  // ---- a write is finished all the same ----

  /** A frame is waiting for its acknowledgement on empty lines, and another ping and another resend are allowed. */
  predicate Stranded(s: Sys) {
    && Inv(s) && s.linked && Waiting(s.client) && s.client.timing.timerActive && !s.session.closed && s.up == [] && s.down == []
    && s.client.timing.pingRetries + 1 < MAX_PING_RETRIES && s.client.timing.dataRetries < MAX_DATA_RETRIES
  }

  /** The write that was waiting is done, and its payload is the last one processed. */
  predicate Finished(s: Sys, t: Sys) {
    && t.client.sending.framesSent == s.client.sending.framesSent + 1 && !t.client.sending.outstanding && MayWrite(t.client)
    && t.started == s.started == t.session.delivered
  }

  /** The ping is answered with the number of the last payload that was processed. */
  lemma PingRound(s: Sys, late: bool)
    requires Stranded(s)
    ensures var steps := [Tick, ServerReceives([]), ClientReceives(late)];
            AllEnabled(s, steps)
            && (var t := Run(s, steps);
                && t.up == [] && t.down == [] && t.session == s.session && t.started == s.started && t.linked
                && (if |s.session.delivered| == |s.started| then Finished(s, t)
                    else Waiting(t.client) && t.client.nackReceived && t.client.sending == s.client.sending
                         && t.client.timing.dataRetries == s.client.timing.dataRetries))
  {
    Three(s, Tick, ServerReceives([]), ClientReceives(late));
  }

  /** The negative acknowledgement brings the frame again, and this time it gets through. */
  lemma ResendRound(s: Sys, replies: seq<Payload>, late: bool)
    requires Inv(s) && s.linked && Waiting(s.client) && s.client.nackReceived && !s.session.closed && s.up == [] && s.down == []
    requires s.client.timing.dataRetries < MAX_DATA_RETRIES && |s.session.delivered| < |s.started|
    ensures var steps := [Retry, ServerReceives(replies), ClientReceives(late)];
            AllEnabled(s, steps) && Finished(s, Run(s, steps))
  {
    var sent := Do(s, Retry);
    assert sent.up == [Data(s.client.sending.txNumber, s.started[|s.started| - 1])];
    assert s.started == s.started[..|s.started| - 1] + [s.started[|s.started| - 1]];
    Three(s, Retry, ServerReceives(replies), ClientReceives(late));
  }

  lemma Rescued(s: Sys, replies: seq<Payload>, late: bool) returns (steps: seq<Step>)
    requires Stranded(s)
    ensures AllEnabled(s, steps) && Finished(s, Run(s, steps))
  {
    steps := [Tick, ServerReceives([]), ClientReceives(late)];
    PingRound(s, late);
    if |s.session.delivered| < |s.started| {
      var t := Run(s, steps);
      InvAlways(s, steps);
      ResendRound(t, replies, late);
      var more := [Retry, ServerReceives(replies), ClientReceives(late)];
      RunConcat(s, steps, more);
      steps := steps + more;
    }
  }

  /**
   * From any point of any run at which a write is waiting and its retry counters are not used up: let everything that
   * is on its way be lost, and the link can still finish the write, with its payload processed once.
   */
  lemma EveryWriteCanFinish(start: Sys, before: seq<Step>, replies: seq<Payload>, late: bool) returns (steps: seq<Step>)
    requires Initial(start) && AllEnabled(start, before) && Waiting(Run(start, before).client)
    requires var t := Run(start, before).client.timing;
             t.pingRetries + 1 < MAX_PING_RETRIES && t.dataRetries < MAX_DATA_RETRIES
    ensures AllEnabled(Run(start, before), steps) && Finished(Run(start, before), Run(Run(start, before), steps))
  {
    var s := Run(start, before);
    InvInitially(start);
    SupervisedInitially(start);
    SupervisedAlways(start, before);
    OpenAlways(start, before);
    var lost := AllLost(s);
    var empty := Run(s, lost);
    InvAlways(s, lost);
    var more := Rescued(empty, replies, late);
    RunConcat(s, lost, more);
    steps := lost + more;
  }

  // ---- an end that hears nothing ----

  /** What the client waits for when its timer runs out. */
  datatype Cause = Connection | Acknowledgement | Life

  /** How often it asks again before it gives up. */
  function Tries(cause: Cause): nat {
    match cause
    case Connection => 8
    case Acknowledgement => 15
    case Life => 5
  }

  function Question(cause: Cause): Frame {
    if cause == Connection then Rfc(RFC_FILLER, RFC_FILLER) else Ping
  }

  /** It has asked k times over. */
  predicate Asking(s: Sys, cause: Cause, k: nat) {
    && s.client.timing.timerActive
    && match cause
       case Connection => s.client.state == Connecting && s.client.timing.rfcRetries == k
       case Acknowledgement => Waiting(s.client) && s.client.timing.pingRetries == k
       case Life =>
         && s.client.state == Connected && !s.client.sending.outstanding && s.client.timing.activityTimeOut == NO_ACTIVITY_TIMEOUT
         && s.client.timing.pingOutstanding && s.client.timing.idlePingRetries == k
  }

  function Ticks(n: nat): seq<Step> {
    if n == 0 then [] else [Tick] + Ticks(n - 1)
  }

  function Questions(cause: Cause, n: nat): seq<Frame> {
    if n == 0 then [] else [Question(cause)] + Questions(cause, n - 1)
  }

  /** Only the client has changed, and it has sent these. */
  predicate HasSent(s: Sys, frames: seq<Frame>, t: Sys) {
    t == s.(client := t.client, up := s.up + frames)
  }

  lemma AsksAgain(s: Sys, cause: Cause, k: nat) returns (t: Sys)
    requires Asking(s, cause, k) && k < Tries(cause)
    ensures s.client.timing.timerActive && t == Do(s, Tick) && Asking(t, cause, k + 1) && HasSent(s, [Question(cause)], t)
  {
    t := Do(s, Tick);
  }

  lemma GivesUpAsking(s: Sys, cause: Cause)
    requires Asking(s, cause, Tries(cause))
    ensures var t := Do(s, Tick); t.client.state == Disconnecting && t == s.(client := t.client)
  {
  }

  lemma FirstTick(s: Sys, t: Sys, n: nat)
    requires s.client.timing.timerActive && t == Do(s, Tick) && AllEnabled(t, Ticks(n))
    ensures AllEnabled(s, Ticks(n + 1)) && Run(s, Ticks(n + 1)) == Run(t, Ticks(n))
  {
    RunCons(s, Tick, Ticks(n));
  }

  lemma SentMore(s: Sys, cause: Cause, t: Sys, n: nat, u: Sys)
    requires HasSent(s, [Question(cause)], t) && HasSent(t, Questions(cause, n), u)
    ensures HasSent(s, Questions(cause, n + 1), u)
  {
    assert s.up + [Question(cause)] + Questions(cause, n) == s.up + ([Question(cause)] + Questions(cause, n));
  }

  lemma SentNothing(s: Sys, cause: Cause)
    ensures AllEnabled(s, Ticks(0)) && Run(s, Ticks(0)) == s && HasSent(s, Questions(cause, 0), s)
  {
    assert s.up + [] == s.up;
  }

  lemma {:induction false} KeepsAsking(s: Sys, cause: Cause, k: nat, n: nat)
    requires Asking(s, cause, k) && k + n <= Tries(cause)
    ensures AllEnabled(s, Ticks(n)) && Asking(Run(s, Ticks(n)), cause, k + n) && HasSent(s, Questions(cause, n), Run(s, Ticks(n)))
    decreases n
  {
    if n == 0 {
      SentNothing(s, cause);
    } else {
      var t := AsksAgain(s, cause, k);
      KeepsAsking(t, cause, k + 1, n - 1);
      FirstTick(s, t, n - 1);
      SentMore(s, cause, t, n - 1, Run(t, Ticks(n - 1)));
    }
  }

  /** It asks as often as it is allowed, at every expiry once, and then takes the link down and says so. */
  lemma AsksThenGoes(s: Sys, cause: Cause)
    requires Asking(s, cause, 0)
    ensures var steps := Ticks(Tries(cause)) + [Tick, FinishDisconnect];
            AllEnabled(s, steps)
            && (var t := Run(s, steps);
                t.client.state == Disconnected && t == s.(client := t.client, up := s.up + Questions(cause, Tries(cause)) + [Disc]))
  {
    var asked := Ticks(Tries(cause));
    KeepsAsking(s, cause, 0, Tries(cause));
    var t := Run(s, asked);
    GivesUpAsking(t, cause);
    Two(t, Tick, FinishDisconnect);
    RunConcat(s, asked, [Tick, FinishDisconnect]);
  }

  /** A client that has just asked for a connection, and one that has just sent a payload. */
  lemma AskingAtFirst(s: Sys, payload: Payload)
    ensures Initial(s) ==> Asking(s, Connection, 0)
    ensures Enabled(s, Write(payload)) ==> Asking(Do(s, Write(payload)), Acknowledgement, 0)
  {
  }

  /** An idle client: its first expiry asks for a sign of life. */
  lemma IdleAsks(s: Sys)
    requires s.client.state == Connected && !s.client.sending.outstanding && s.client.timing.timerActive
    requires s.client.timing.activityTimeOut == NO_ACTIVITY_TIMEOUT && !s.client.timing.pingOutstanding
    ensures var t := Do(s, Tick); Asking(t, Life, 0) && t == s.(client := t.client, up := s.up + [Ping])
  {
  }

  /** A sign of life on empty lines: the idle link is as it was, however many were missing before. */
  lemma AnsweredWhileIdle(s: Sys, k: nat, late: bool)
    requires Inv(s) && s.linked && Asking(s, Life, k) && k < Tries(Life) && !s.session.closed && s.up == [] && s.down == []
    ensures var steps := [Tick, ServerReceives([]), ClientReceives(late)];
            AllEnabled(s, steps)
            && (var t := Run(s, steps);
                && t.client.state == Connected && !t.client.timing.pingOutstanding && t.client.timing.idlePingRetries == 0
                && t.client.timing.timerActive && t.client.sending == s.client.sending && t.session == s.session
                && t.up == [] && t.down == [])
  {
    Three(s, Tick, ServerReceives([]), ClientReceives(late));
  }

  /** Taking the link down takes both ends down; a write that was waiting is failed and no other is let in. */
  lemma LeaveTogether(s: Sys)
    requires s.client.state == Disconnecting && s.up == [] && !s.session.closed
    ensures var steps := [FinishDisconnect, ServerReceives([])];
            AllEnabled(s, steps)
            && (var t := Run(s, steps);
                && t.client.state == Disconnected && t.session.closed && !MayWrite(t.client)
                && (s.client.sending.txReady ==> t.client.sending.writeLock == Poisoned && !t.client.sending.outstanding)
                && t.session.delivered == s.session.delivered && t.up == [])
  {
    Two(s, FinishDisconnect, ServerReceives([]));
  }

  // ---- what a client that is up says to what it hears ----

  /** A damaged frame is answered with the number of the last reply, unless it came into the short buffer. */
  lemma NoiseIsAnswered(s: Sys, late: bool)
    requires s.client.state == Connected && !s.client.receiving.answerDue
    ensures var steps := [ClientNoise(late), Answer];
            AllEnabled(s, steps)
            && Run(s, steps) == if late || !s.client.receiving.bufferFree then s
                                else s.(up := s.up + [Ack(s.client.sending.connectionId, s.client.receiving.recvSequence)])
  {
    Two(s, ClientNoise(late), Answer);
    assert s.up + [] == s.up;
  }

  /** A reply that was taken before is not taken or answered again; one out of order is answered but not taken. */
  lemma OtherDataIsNotTaken(s: Sys, number: seqno, payload: Payload, rest: seq<Frame>)
    requires s.client.state == Connected && !s.client.receiving.answerDue && s.client.receiving.bufferFree
    requires s.down == [Data(number, payload)] + rest && number != Next(s.client.receiving.recvSequence)
    ensures var steps := [ClientReceives(false), Answer];
            AllEnabled(s, steps)
            && (var t, recv := Run(s, steps), s.client.receiving.recvSequence;
                && t.client.receiving.received == s.client.receiving.received && t.client.receiving.recvSequence == recv
                && t.up == if number == recv then s.up else s.up + [Ack(s.client.sending.connectionId, recv)])
  {
    Two(s, ClientReceives(false), Answer);
    assert s.up + [] == s.up;
  }
}
