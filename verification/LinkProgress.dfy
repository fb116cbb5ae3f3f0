/**
 * What the link gets done: it comes up, carries every payload and every reply
 * when nothing is lost, and finishes a write after a loss as long as its retry
 * counters are not used up.
 */
module LinkProgress {
  import opened Link
  import opened LinkRuns
  import opened LinkRetries

  // ---- runs of a few steps ----

  lemma Two(s: Sys, a: Step, b: Step)
    requires Enabled(s, a) && Enabled(Do(s, a), b)
    ensures AllEnabled(s, [a, b]) && Run(s, [a, b]) == Do(Do(s, a), b)
  {
    RunCons(Do(s, a), b, []);
    RunCons(s, a, [b]);
  }

  lemma Three(s: Sys, a: Step, b: Step, c: Step)
    requires Enabled(s, a) && Enabled(Do(s, a), b) && Enabled(Do(Do(s, a), b), c)
    ensures AllEnabled(s, [a, b, c]) && Run(s, [a, b, c]) == Do(Do(Do(s, a), b), c)
  {
    Two(Do(s, a), b, c);
    RunCons(s, a, [b, c]);
  }

  /** Up, with nothing on its way, nothing waiting and both ends agreeing on the numbers of replies. */
  predicate Quiet(s: Sys) {
    && s.linked && MayWrite(s.client) && !s.session.closed && s.up == [] && s.down == []
    && !s.client.nackReceived && !s.client.receiving.answerDue && s.client.receiving.bufferFree
    && s.client.receiving.recvSequence == s.session.lastSeqNumber
  }

  /** The first request for connection is answered, and the link is up. */
  lemma ComesUp(s: Sys, late: bool)
    requires Initial(s)
    ensures var steps := [ServerReceives([]), ClientReceives(late)];
            AllEnabled(s, steps) && Inv(Run(s, steps)) && Quiet(Run(s, steps))
            && Run(s, steps).client.receiving.received == [] && Run(s, steps).session.delivered == []
            && Run(s, steps).started == [] && Run(s, steps).client.timing.timerActive
  {
    Two(s, ServerReceives([]), ClientReceives(late));
    InvInitially(s);
    InvAlways(s, [ServerReceives([]), ClientReceives(late)]);
  }

  // ---- one payload and its replies ----

  /** The frames of some replies, numbered on from `last`. */
  function Numbered(last: seqno, replies: seq<Payload>): seq<Frame>
    decreases |replies|
  {
    if replies == [] then [] else [Data(Next(last), replies[0])] + Numbered(Next(last), replies[1..])
  }

  function NumberAfter(last: seqno, n: nat): seqno
    decreases n
  {
    if n == 0 then last else NumberAfter(Next(last), n - 1)
  }

  lemma {:induction false} ResponsesNumbered(s: Session, replies: seq<Payload>)
    ensures WriteResponses(s, replies)
            == (s.(lastSeqNumber := NumberAfter(s.lastSeqNumber, |replies|)), Numbered(s.lastSeqNumber, replies))
    decreases |replies|
  {
    if replies != [] {
      ResponsesNumbered(s.(lastSeqNumber := Next(s.lastSeqNumber)), replies[1..]);
    }
  }

  /** Handed in, delivered, acknowledged: the write is done and the replies are on their way. */
  lemma Exchange(s: Sys, p: Payload, replies: seq<Payload>, late: bool)
    requires Inv(s) && Quiet(s)
    ensures var steps := [Write(p), ServerReceives(replies), ClientReceives(late)];
            AllEnabled(s, steps) && Exchanged(s, p, replies, Run(s, steps))
  {
    var sent := Do(s, Write(p));
    assert sent.up == [Data(sent.client.sending.txNumber, p)];
    ResponsesNumbered(s.session.(recvSequence := sent.client.sending.txNumber, delivered := s.session.delivered + [p]), replies);
    Three(s, Write(p), ServerReceives(replies), ClientReceives(late));
  }

  predicate Exchanged(s: Sys, p: Payload, replies: seq<Payload>, t: Sys) {
    && t.session.delivered == s.session.delivered + [p] && t.started == s.started + [p]
    && t.client.sending.framesSent == s.client.sending.framesSent + 1 && MayWrite(t.client) && !t.client.sending.outstanding
    && t.linked && !t.session.closed && t.up == [] && t.down == Numbered(s.session.lastSeqNumber, replies)
    && t.session.lastSeqNumber == NumberAfter(s.session.lastSeqNumber, |replies|)
    && t.client.receiving == s.client.receiving && !t.client.nackReceived
  }

  /** The client is up with its buffer free, the session is open, and only these frames are on their way down. */
  predicate Hearing(s: Sys, down: seq<Frame>) {
    && s.linked && MayWrite(s.client) && !s.session.closed && s.up == [] && s.down == down
    && !s.client.nackReceived && !s.client.receiving.answerDue && s.client.receiving.bufferFree
  }

  /** One reply taken: handed on, acknowledged, and nothing else changed for either end. */
  predicate Took(s: Sys, replies: seq<Payload>, t: Sys) {
    && t.client.receiving.received == s.client.receiving.received + replies
    && t.client.receiving.recvSequence == NumberAfter(s.client.receiving.recvSequence, |replies|)
    && t.client.sending == s.client.sending && t.session == s.session && t.started == s.started
  }

  const REPLY_STEPS := [ClientReceives(false), FreeRxBuffer, Answer, ServerReceives([])]

  lemma OneReply(s: Sys, r: Payload, rest: seq<Frame>)
    requires Hearing(s, [Data(Next(s.client.receiving.recvSequence), r)] + rest)
    ensures AllEnabled(s, REPLY_STEPS) && Hearing(Run(s, REPLY_STEPS), rest) && Took(s, [r], Run(s, REPLY_STEPS))
  {
    var s1 := Do(s, ClientReceives(false));
    assert s.down[1..] == rest;
    var s2 := Do(s1, FreeRxBuffer);
    var s3 := Do(s2, Answer);
    Two(s2, Answer, ServerReceives([]));
    RunCons(s1, FreeRxBuffer, [Answer, ServerReceives([])]);
    RunCons(s, ClientReceives(false), [FreeRxBuffer, Answer, ServerReceives([])]);
  }

  lemma TookMore(s: Sys, r: Payload, replies: seq<Payload>, t: Sys, u: Sys)
    requires replies != [] && replies[0] == r && Took(s, [r], t) && Took(t, replies[1..], u)
    ensures Took(s, replies, u)
  {
    var received := s.client.receiving.received;
    assert received + [r] + replies[1..] == received + replies;
    assert NumberAfter(s.client.receiving.recvSequence, 1) == Next(s.client.receiving.recvSequence);
  }

  /** All replies are handed on, in order. */
  lemma {:induction false} AllReplies(s: Sys, replies: seq<Payload>) returns (steps: seq<Step>)
    requires Hearing(s, Numbered(s.client.receiving.recvSequence, replies))
    ensures AllEnabled(s, steps) && Hearing(Run(s, steps), []) && Took(s, replies, Run(s, steps))
    decreases |replies|
  {
    if replies == [] {
      steps := [];
      assert s.client.receiving.received + [] == s.client.receiving.received;
    } else {
      OneReply(s, replies[0], Numbered(Next(s.client.receiving.recvSequence), replies[1..]));
      var t := Run(s, REPLY_STEPS);
      assert NumberAfter(s.client.receiving.recvSequence, 1) == Next(s.client.receiving.recvSequence);
      var more := AllReplies(t, replies[1..]);
      TookMore(s, replies[0], replies, t, Run(t, more));
      RunConcat(s, REPLY_STEPS, more);
      steps := REPLY_STEPS + more;
    }
  }

  // ---- whole conversations ----

  datatype Talk = Talk(payload: Payload, replies: seq<Payload>)

  function Payloads(talks: seq<Talk>): seq<Payload> {
    if talks == [] then [] else [talks[0].payload] + Payloads(talks[1..])
  }

  function AllReplied(talks: seq<Talk>): seq<Payload> {
    if talks == [] then [] else talks[0].replies + AllReplied(talks[1..])
  }

  /** What both ends have to show for it. */
  predicate Carried(s: Sys, payloads: seq<Payload>, replies: seq<Payload>, t: Sys) {
    && t.started == s.started + payloads && t.session.delivered == s.session.delivered + payloads
    && t.client.sending.framesSent == s.client.sending.framesSent + |payloads|
    && t.client.receiving.received == s.client.receiving.received + replies
  }

  lemma OneTalk(s: Sys, talk: Talk) returns (steps: seq<Step>)
    requires Inv(s) && Quiet(s)
    ensures AllEnabled(s, steps) && Quiet(Run(s, steps)) && Carried(s, [talk.payload], talk.replies, Run(s, steps))
  {
    var first := [Write(talk.payload), ServerReceives(talk.replies), ClientReceives(false)];
    Exchange(s, talk.payload, talk.replies, false);
    var t := Run(s, first);
    var more := AllReplies(t, talk.replies);
    RunConcat(s, first, more);
    steps := first + more;
  }

  lemma CarriedMore(s: Sys, t: Sys, u: Sys, talks: seq<Talk>)
    requires talks != [] && Carried(s, [talks[0].payload], talks[0].replies, t)
    requires Carried(t, Payloads(talks[1..]), AllReplied(talks[1..]), u)
    ensures Carried(s, Payloads(talks), AllReplied(talks), u)
  {
    var p, ps, rs, more := [talks[0].payload], Payloads(talks[1..]), talks[0].replies, AllReplied(talks[1..]);
    assert s.started + p + ps == s.started + (p + ps) && s.session.delivered + p + ps == s.session.delivered + (p + ps);
    assert s.client.receiving.received + rs + more == s.client.receiving.received + (rs + more);
  }

  /**
   * On lines that lose nothing every payload handed in is processed once and in order, every write completes, and
   * every reply is handed on once and in order; afterwards the link is as quiet as before.
   */
  lemma {:induction false} Conversation(s: Sys, talks: seq<Talk>) returns (steps: seq<Step>)
    requires Inv(s) && Quiet(s)
    ensures AllEnabled(s, steps) && Quiet(Run(s, steps)) && Carried(s, Payloads(talks), AllReplied(talks), Run(s, steps))
    decreases |talks|
  {
    if talks == [] {
      steps := [];
      assert s.started + [] == s.started && s.session.delivered + [] == s.session.delivered;
      assert s.client.receiving.received + [] == s.client.receiving.received;
    } else {
      var first := OneTalk(s, talks[0]);
      var t := Run(s, first);
      InvAlways(s, first);
      var more := Conversation(t, talks[1..]);
      CarriedMore(s, t, Run(t, more), talks);
      RunConcat(s, first, more);
      steps := first + more;
    }
  }

  /** From the first request for connection on. */
  lemma FromTheStart(s: Sys, talks: seq<Talk>) returns (steps: seq<Step>)
    requires Initial(s)
    ensures AllEnabled(s, steps)
    ensures var t := Run(s, steps);
            t.session.delivered == t.started == Payloads(talks) && t.client.sending.framesSent == |talks|
            && t.client.receiving.received == AllReplied(talks)
  {
    var first := [ServerReceives([]), ClientReceives(false)];
    ComesUp(s, false);
    var t := Run(s, first);
    var more := Conversation(t, talks);
    RunConcat(s, first, more);
    steps := first + more;
    EveryPayload(talks);
    assert t.client.sending.framesSent == 0;
    assert [] + Payloads(talks) == Payloads(talks) && [] + AllReplied(talks) == AllReplied(talks);
  }

  lemma {:induction false} EveryPayload(talks: seq<Talk>)
    ensures |Payloads(talks)| == |talks|
  {
    if talks != [] {
      EveryPayload(talks[1..]);
    }
  }
}
