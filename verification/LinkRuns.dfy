/**
 * Runs of the whole link: both ends, two channels that keep order but may lose
 * or repeat frames, and the history of payloads handed in.
 */
module LinkRuns {
  import opened Link

  datatype Sys = Sys(
    client: Client,
    session: Session,
    up: seq<Frame>,
    down: seq<Frame>,
    started: seq<Payload>,
    linked: bool,
    base: seqno
  )

  datatype Step =
    | Write(payload: Payload)
    | ClientReceives(late: bool)
    | ClientNoise(late: bool)
    | LoseCarrier
    | FreeRxBuffer
    | Answer
    | Retry
    | Tick
    | FinishDisconnect
    | ServerReceives(replies: seq<Payload>)
    | LoseUp(at: nat)
    | RepeatUp(at: nat)
    | LoseDown(at: nat)
    | RepeatDown(at: nat)

  function Without(ch: seq<Frame>, at: nat): (r: seq<Frame>)
    requires at < |ch|
  {
    ch[..at] + ch[at + 1..]
  }

  /** The frame at `at` arrives twice in a row. */
  function Repeated(ch: seq<Frame>, at: nat): (r: seq<Frame>)
    requires at < |ch|
  {
    ch[..at] + [ch[at]] + ch[at..]
  }

  predicate Enabled(s: Sys, step: Step) {
    match step
    case Write(_) => MayWrite(s.client)
    case ClientReceives(_) => s.down != []
    case ClientNoise(_) => true
    case LoseCarrier => true
    case FreeRxBuffer => true
    case Answer => s.client.state != Disconnected
    case Retry => s.client.state != Disconnected
    case Tick => s.client.timing.timerActive
    case FinishDisconnect => s.client.state == Disconnecting
    case ServerReceives(_) => s.up != []
    case LoseUp(at) => at < |s.up|
    case RepeatUp(at) => at < |s.up|
    case LoseDown(at) => at < |s.down|
    case RepeatDown(at) => at < |s.down|
  }

  function ClientStep(s: Sys, out: Output): Sys {
    s.(client := out.0, up := s.up + out.1)
  }

  function Do(s: Sys, step: Step): Sys
    requires Enabled(s, step)
  {
    match step
    case Write(payload) => ClientStep(s, DlcWrite(s.client, payload)).(started := s.started + [payload])
    case ClientReceives(late) =>
      var c := Hear(s.client, Whole(s.down[0], late));
      s.(client := c, down := s.down[1..], linked := s.linked || c.state == Connected)
    case ClientNoise(late) => s.(client := Hear(s.client, Damaged(late)))
    case LoseCarrier => s.(client := StartDisconnect(s.client))
    case FreeRxBuffer => s.(client := s.client.(receiving := s.client.receiving.(bufferFree := true)))
    case Answer => ClientStep(s, AnswerIfDue(s.client))
    case Retry => ClientStep(s, RetryIfNacked(s.client))
    case Tick => ClientStep(s, TimerTick(s.client))
    case FinishDisconnect => ClientStep(s, DisconnectDlc(s.client))
    case ServerReceives(replies) =>
      var (session, sent) := ServeFrame(s.session, s.up[0], replies);
      s.(session := session, up := s.up[1..], down := s.down + sent)
    case LoseUp(at) => s.(up := Without(s.up, at))
    case RepeatUp(at) => s.(up := Repeated(s.up, at))
    case LoseDown(at) => s.(down := Without(s.down, at))
    case RepeatDown(at) => s.(down := Repeated(s.down, at))
  }

  /** A client that has just asked for a connection, and a session that has just been accepted. */
  predicate Initial(s: Sys) {
    && s.client.state == Connecting && !s.client.nackReceived && !s.client.receiving.answerDue
    && !s.client.sending.outstanding && !s.client.sending.txReady && s.client.sending.writeLock == Free
    && s.client.sending.framesSent == 0 && s.client.errors == Errors(0, 0)
    && s.client.timing.timerActive && s.client.timing.pingRetries == 0 && s.client.timing.dataRetries == 0
    && s.client.receiving.bufferFree && s.client.receiving.received == [] && s.client.timing.rfcRetries == 0
    && s.up == [Rfc(RFC_FILLER, RFC_FILLER)] && s.down == []
    && s.session == Session(s.session.connectionId, s.base, s.base, false, [], 0)
    && s.started == [] && !s.linked
  }

  predicate AllEnabled(s: Sys, steps: seq<Step>)
    decreases |steps|
  {
    steps == [] || (Enabled(s, steps[0]) && AllEnabled(Do(s, steps[0]), steps[1..]))
  }

  /** The state a run of enabled steps ends in. */
  function Run(s: Sys, steps: seq<Step>): Sys
    requires AllEnabled(s, steps)
    decreases |steps|
  {
    if steps == [] then s else Run(Do(s, steps[0]), steps[1..])
  }

  lemma RunCons(s: Sys, step: Step, rest: seq<Step>)
    requires Enabled(s, step) && AllEnabled(Do(s, step), rest)
    ensures AllEnabled(s, [step] + rest) && Run(s, [step] + rest) == Run(Do(s, step), rest)
  {
    assert ([step] + rest)[1..] == rest;
  }

  function First(s: Sys, steps: seq<Step>): Sys
    requires steps != [] && AllEnabled(s, steps)
  {
    Do(s, steps[0])
  }

  lemma RunAfterFirst(s: Sys, a: seq<Step>, b: seq<Step>)
    requires a != [] && AllEnabled(s, a) && AllEnabled(First(s, a), a[1..] + b)
    ensures AllEnabled(s, a + b) && Run(s, a + b) == Run(First(s, a), a[1..] + b)
  {
    assert (a + b)[0] == a[0] && (a + b)[1..] == a[1..] + b;
  }

  /** One run after another. */
  lemma {:induction false} RunConcat(s: Sys, a: seq<Step>, b: seq<Step>)
    requires AllEnabled(s, a) && AllEnabled(Run(s, a), b)
    ensures AllEnabled(s, a + b) && Run(s, a + b) == Run(Run(s, a), b)
    decreases |a|
  {
    if a == [] {
      assert a + b == b;
    } else {
      RunConcat(First(s, a), a[1..], b);
      RunAfterFirst(s, a, b);
    }
  }

  lemma ClientStepTwice(s: Sys, a: Output, b: Output)
    ensures ClientStep(ClientStep(s, a), b) == ClientStep(s, (b.0, a.1 + b.1))
  {
    assert s.up + a.1 + b.1 == s.up + (a.1 + b.1);
  }

  // ---- a turn of the emulator is a run of its single reactions ----

  /** What the receiver meets next on the line: the next frame, if there is one, or a damaged one. */
  datatype Sound = NextFrame(late: bool) | Noise(late: bool)

  function Arrivals(down: seq<Frame>, sounds: seq<Sound>): seq<Arrival>
    decreases |sounds|
  {
    if sounds == [] then []
    else if sounds[0].Noise? then [Damaged(sounds[0].late)] + Arrivals(down, sounds[1..])
    else if down == [] then Arrivals(down, sounds[1..])
    else [Whole(down[0], sounds[0].late)] + Arrivals(down[1..], sounds[1..])
  }

  /** What is still on the line afterwards. */
  function Unheard(down: seq<Frame>, sounds: seq<Sound>): seq<Frame>
    decreases |sounds|
  {
    if sounds == [] then down
    else Unheard(if sounds[0].NextFrame? && down != [] then down[1..] else down, sounds[1..])
  }

  function HearSteps(down: seq<Frame>, sounds: seq<Sound>): seq<Step>
    decreases |sounds|
  {
    if sounds == [] then []
    else if sounds[0].Noise? then [ClientNoise(sounds[0].late)] + HearSteps(down, sounds[1..])
    else if down == [] then HearSteps(down, sounds[1..])
    else [ClientReceives(sounds[0].late)] + HearSteps(down[1..], sounds[1..])
  }

  lemma {:induction false} HearingIsARun(s: Sys, sounds: seq<Sound>)
    ensures AllEnabled(s, HearSteps(s.down, sounds))
    ensures var t := Run(s, HearSteps(s.down, sounds));
            t == s.(client := HearAll(s.client, Arrivals(s.down, sounds)), down := Unheard(s.down, sounds), linked := t.linked)
    decreases |sounds|
  {
    if sounds != [] {
      var rest := sounds[1..];
      if sounds[0].Noise? {
        var next := Do(s, ClientNoise(sounds[0].late));
        HearingIsARun(next, rest);
        RunCons(s, ClientNoise(sounds[0].late), HearSteps(s.down, rest));
        FirstHeard(s.client, Damaged(sounds[0].late), Arrivals(s.down, rest));
      } else if s.down == [] {
        HearingIsARun(s, rest);
      } else {
        var next := Do(s, ClientReceives(sounds[0].late));
        HearingIsARun(next, rest);
        RunCons(s, ClientReceives(sounds[0].late), HearSteps(s.down[1..], rest));
        FirstHeard(s.client, Whole(s.down[0], sounds[0].late), Arrivals(s.down[1..], rest));
      }
    }
  }

  lemma FirstHeard(c: Client, a: Arrival, rest: seq<Arrival>)
    ensures HearAll(c, [a] + rest) == HearAll(Hear(c, a), rest)
  {
    assert ([a] + rest)[1..] == rest;
  }

  /** A client that listens does not drop the link by listening alone. */
  lemma {:induction false} HearingKeepsUp(c: Client, arrivals: seq<Arrival>)
    requires c.state != Disconnected
    ensures HearAll(c, arrivals).state != Disconnected
    decreases |arrivals|
  {
    if arrivals != [] {
      HearingKeepsUp(Hear(c, arrivals[0]), arrivals[1..]);
    }
  }

  function FinishSteps(c: Client, lost: bool, expired: bool): seq<Step> {
    if lost then [LoseCarrier]
    else if expired && RetryIfNacked(AnswerIfDue(c).0).0.timing.timerActive then [Answer, Retry, Tick]
    else [Answer, Retry]
  }

  lemma FinishIsARun(s: Sys, lost: bool, expired: bool)
    requires s.client.state != Disconnected
    ensures AllEnabled(s, FinishSteps(s.client, lost, expired))
    ensures Run(s, FinishSteps(s.client, lost, expired)) == ClientStep(s, FinishTurn(s.client, lost, expired))
  {
    if lost {
      RunCons(s, LoseCarrier, []);
      assert s.up + [] == s.up;
    } else {
      var answer := AnswerIfDue(s.client);
      var retry := RetryIfNacked(answer.0);
      var s1, s2 := ClientStep(s, answer), ClientStep(ClientStep(s, answer), retry);
      ClientStepTwice(s, answer, retry);
      if expired && retry.0.timing.timerActive {
        ClientStepTwice(s, (retry.0, answer.1 + retry.1), TimerTick(retry.0));
        RunCons(s2, Tick, []);
        RunCons(s1, Retry, [Tick]);
        RunCons(s, Answer, [Retry, Tick]);
      } else {
        RunCons(s1, Retry, []);
        RunCons(s, Answer, [Retry]);
      }
    }
  }

  function TurnSteps(s: Sys, sounds: seq<Sound>, lost: bool, expired: bool): seq<Step> {
    if Listening(s.client) then
      HearSteps(s.down, sounds) + FinishSteps(HearAll(s.client, Arrivals(s.down, sounds)), lost, expired)
    else if s.client.state == Disconnecting then [FinishDisconnect]
    else []
  }

  /** What a turn leaves on the line: a client that is not up does not look at it. */
  function AfterTurn(c: Client, down: seq<Frame>, sounds: seq<Sound>): seq<Frame> {
    if Listening(c) then Unheard(down, sounds) else down
  }

  lemma PollIsARun(s: Sys, sounds: seq<Sound>, lost: bool, expired: bool)
    ensures AllEnabled(s, TurnSteps(s, sounds, lost, expired))
    ensures var t := Run(s, TurnSteps(s, sounds, lost, expired));
            var out := IsMain(s.client, Arrivals(s.down, sounds), lost, expired);
            t == s.(client := out.0, up := s.up + out.1, down := AfterTurn(s.client, s.down, sounds), linked := t.linked)
  {
    if Listening(s.client) {
      HearingIsARun(s, sounds);
      HearingKeepsUp(s.client, Arrivals(s.down, sounds));
      var mid := Run(s, HearSteps(s.down, sounds));
      FinishIsARun(mid, lost, expired);
      RunConcat(s, HearSteps(s.down, sounds), FinishSteps(mid.client, lost, expired));
    } else if s.client.state == Disconnecting {
      RunCons(s, FinishDisconnect, []);
    } else {
      assert s.up + [] == s.up;
    }
  }

  // ---- what every step keeps ----

  predicate Before(f: Frame, g: Frame) {
    g.Rfc? ==> f.Rfc?
  }

  /** A data frame on its way up: the newest payload, or a stale copy of the one before it. */
  predicate UpFrame(f: Frame, cur: seqno, ack: seqno, waiting: bool, started: seq<Payload>) {
    f.Data? ==>
      && started != []
      && ((f.number == cur && f.payload == started[|started| - 1]) || (waiting && f.number == ack))
  }

  predicate UpOrder(f: Frame, g: Frame, cur: seqno) {
    Before(f, g) && (f.Data? && g.Data? && f.number == cur ==> g.number == cur)
  }

  predicate UpChannel(up: seq<Frame>, cur: seqno, ack: seqno, waiting: bool, started: seq<Payload>) {
    && (forall i :: 0 <= i < |up| ==> UpFrame(up[i], cur, ack, waiting, started))
    && (forall i, j :: 0 <= i < j < |up| ==> UpOrder(up[i], up[j], cur))
  }

  /** A frame on its way down: a connection answer, an acknowledgement of the last one or two payloads, or data. */
  predicate DownFrame(f: Frame, conn: seqno, base: seqno, ack: seqno, ahead: bool) {
    match f
    case Rfc(c, n) => c == conn && n == base
    case Ack(c, n) => c == conn && (n == ack || (ahead && n == Next(ack)))
    case Data(_, _) => true
    case _ => false
  }

  predicate DownOrder(f: Frame, g: Frame, ack: seqno) {
    Before(f, g) && (f.Ack? && g.Ack? && f.number == Next(ack) ==> g.number == Next(ack))
  }

  predicate DownChannel(down: seq<Frame>, conn: seqno, base: seqno, ack: seqno, ahead: bool) {
    && (forall i :: 0 <= i < |down| ==> DownFrame(down[i], conn, base, ack, ahead))
    && (forall i, j :: 0 <= i < j < |down| ==> DownOrder(down[i], down[j], ack))
  }

  predicate NoRfc(ch: seq<Frame>) {
    forall i :: 0 <= i < |ch| ==> !ch[i].Rfc?
  }

  predicate OnlyRfc(ch: seq<Frame>) {
    forall i :: 0 <= i < |ch| ==> ch[i].Rfc?
  }

  /** Before the client has seen a connection answer nothing but connection requests has moved. */
  predicate Unlinked(s: Sys) {
    && s.started == [] && s.session.delivered == []
    && s.session.lastSeqNumber == s.session.recvSequence == s.base
    && s.client.state != Connected
    && (s.client.state == Connecting ==> OnlyRfc(s.up))
    && (forall i :: 0 <= i < |s.up| ==> s.up[i].Rfc? || s.up[i].Disc?)
    && (forall i :: 0 <= i < |s.down| ==> s.down[i] == Rfc(s.session.connectionId, s.base))
    && !s.client.sending.outstanding && !s.client.sending.txReady && s.client.sending.writeLock == Free
    && !s.client.nackReceived && !s.client.receiving.answerDue && s.client.sending.framesSent == 0
  }

  /** The number the newest payload travels under. */
  function Current(s: Sys): seqno {
    if |s.started| == s.client.sending.framesSent then s.client.sending.ackSequence else Next(s.client.sending.ackSequence)
  }

  predicate Linked(s: Sys) {
    var c := s.client;
    var tx := c.sending;
    var started, completed, delivered := |s.started|, tx.framesSent, |s.session.delivered|;
    && completed <= delivered <= started <= completed + 1
    && s.session.delivered == s.started[..delivered]
    && tx.connectionId == s.session.connectionId
    && c.state != Connecting
    && (completed == 0 ==> tx.ackSequence == s.base)
    && s.session.recvSequence == (if delivered == completed then tx.ackSequence else Next(tx.ackSequence))
    && (delivered == 0 ==> s.session.lastSeqNumber == s.base)
    && (c.nackReceived ==> started > 0)
    && (started > 0 ==> tx.txNumber == Current(s) && tx.txPayload == s.started[started - 1])
    && (c.state != Disconnected ==>
          && tx.outstanding == tx.txReady == (started == completed + 1)
          && tx.writeLock == (if tx.outstanding then Held else Free)
          && tx.sendSequence == (if tx.outstanding then Next(Next(tx.ackSequence)) else Next(tx.ackSequence)))
    && UpChannel(s.up, Current(s), tx.ackSequence, delivered < started, s.started)
    && DownChannel(s.down, tx.connectionId, s.base, tx.ackSequence, delivered == completed + 1)
    && (forall i, j :: 0 <= i < |s.up| && 0 <= j < |s.down| && s.up[i].Rfc? ==> s.down[j].Rfc?)
    && (delivered > 0 || (c.state == Connected && !c.okToRcvRfc) ==> NoRfc(s.up))
    && (c.state == Connected && !c.okToRcvRfc ==> NoRfc(s.down))
  }

  predicate Inv(s: Sys) {
    && s.client.errors == Errors(0, 0) && s.session.outOfSequence == 0
    && (if s.linked then Linked(s) else Unlinked(s))
  }

  lemma InvInitially(s: Sys)
    requires Initial(s)
    ensures Inv(s)
  {
  }

  lemma WithoutUp(up: seq<Frame>, at: nat, cur: seqno, ack: seqno, waiting: bool, started: seq<Payload>)
    requires at < |up| && UpChannel(up, cur, ack, waiting, started)
    ensures UpChannel(Without(up, at), cur, ack, waiting, started)
  {
    var r := Without(up, at);
    forall i, j | 0 <= i < j < |r|
      ensures UpOrder(r[i], r[j], cur)
    {
      var i', j' := if i < at then i else i + 1, if j < at then j else j + 1;
      assert UpOrder(up[i'], up[j'], cur);
    }
  }

  lemma RepeatedUp(up: seq<Frame>, at: nat, cur: seqno, ack: seqno, waiting: bool, started: seq<Payload>)
    requires at < |up| && UpChannel(up, cur, ack, waiting, started)
    ensures UpChannel(Repeated(up, at), cur, ack, waiting, started)
  {
    var r := Repeated(up, at);
    forall i, j | 0 <= i < j < |r|
      ensures UpOrder(r[i], r[j], cur)
    {
      var i', j' := if i <= at then i else i - 1, if j <= at then j else j - 1;
      assert r[i] == up[i'] && r[j] == up[j'];
      assert i' < j' ==> UpOrder(up[i'], up[j'], cur);
    }
  }

  lemma WithoutDown(down: seq<Frame>, at: nat, conn: seqno, base: seqno, ack: seqno, ahead: bool)
    requires at < |down| && DownChannel(down, conn, base, ack, ahead)
    ensures DownChannel(Without(down, at), conn, base, ack, ahead)
  {
    var r := Without(down, at);
    forall i, j | 0 <= i < j < |r|
      ensures DownOrder(r[i], r[j], ack)
    {
      var i', j' := if i < at then i else i + 1, if j < at then j else j + 1;
      assert DownOrder(down[i'], down[j'], ack);
    }
  }

  lemma RepeatedDown(down: seq<Frame>, at: nat, conn: seqno, base: seqno, ack: seqno, ahead: bool)
    requires at < |down| && DownChannel(down, conn, base, ack, ahead)
    ensures DownChannel(Repeated(down, at), conn, base, ack, ahead)
  {
    var r := Repeated(down, at);
    forall i, j | 0 <= i < j < |r|
      ensures DownOrder(r[i], r[j], ack)
    {
      var i', j' := if i <= at then i else i - 1, if j <= at then j else j - 1;
      assert r[i] == down[i'] && r[j] == down[j'];
      assert i' < j' ==> DownOrder(down[i'], down[j'], ack);
    }
  }

  lemma UpChannelStep(s: Sys, at: nat)
    requires Inv(s) && at < |s.up|
    ensures Inv(s.(up := Without(s.up, at)))
    ensures Inv(s.(up := Repeated(s.up, at)))
  {
    if s.linked {
      WithoutUp(s.up, at, Current(s), s.client.sending.ackSequence, |s.session.delivered| < |s.started|, s.started);
      RepeatedUp(s.up, at, Current(s), s.client.sending.ackSequence, |s.session.delivered| < |s.started|, s.started);
    }
  }

  lemma DownChannelStep(s: Sys, at: nat)
    requires Inv(s) && at < |s.down|
    ensures Inv(s.(down := Without(s.down, at)))
    ensures Inv(s.(down := Repeated(s.down, at)))
  {
    if s.linked {
      var ahead := |s.session.delivered| == s.client.sending.framesSent + 1;
      WithoutDown(s.down, at, s.client.sending.connectionId, s.base, s.client.sending.ackSequence, ahead);
      RepeatedDown(s.down, at, s.client.sending.connectionId, s.base, s.client.sending.ackSequence, ahead);
    }
  }

  lemma AppendUp(up: seq<Frame>, f: Frame, cur: seqno, ack: seqno, waiting: bool, started: seq<Payload>)
    requires UpChannel(up, cur, ack, waiting, started) && UpFrame(f, cur, ack, waiting, started)
    requires !f.Rfc? && (f.Data? ==> f.number == cur)
    ensures UpChannel(up + [f], cur, ack, waiting, started)
  {
  }

  lemma AppendDown(down: seq<Frame>, sent: seq<Frame>, conn: seqno, base: seqno, ack: seqno, ahead: bool)
    requires DownChannel(down, conn, base, ack, ahead) && DownChannel(sent, conn, base, ack, ahead)
    requires forall i, j :: 0 <= i < |down| && 0 <= j < |sent| ==> DownOrder(down[i], sent[j], ack)
    ensures DownChannel(down + sent, conn, base, ack, ahead)
  {
    var all := down + sent;
    forall i, j | 0 <= i < j < |all|
      ensures DownOrder(all[i], all[j], ack)
    {
      if j < |down| {
        assert DownOrder(down[i], down[j], ack);
      } else if i < |down| {
        assert DownOrder(down[i], sent[j - |down|], ack);
      } else {
        assert DownOrder(sent[i - |down|], sent[j - |down|], ack);
      }
    }
  }

  /** Handing in a payload makes the one before it the stale one. */
  lemma WriteStep(s: Sys, payload: Payload)
    requires Inv(s) && Enabled(s, Write(payload))
    ensures Inv(Do(s, Write(payload)))
  {
  }

  /** Answering a request for connection, while nothing else has been sent yet. */
  lemma ServeRfc(s: Sys)
    requires Inv(s) && s.linked && s.up != [] && s.up[0].Rfc? && !s.session.closed
    ensures Inv(Do(s, ServerReceives([])))
  {
    var c := s.client;
    var sent := [Rfc(c.sending.connectionId, s.base)];
    AppendDown(s.down, sent, c.sending.connectionId, s.base, c.sending.ackSequence, false);
  }

  lemma ServePing(s: Sys)
    requires Inv(s) && s.linked && s.up != [] && s.up[0].Ping? && !s.session.closed
    ensures Inv(Do(s, ServerReceives([])))
  {
    var c := s.client;
    var ahead := |s.session.delivered| == c.sending.framesSent + 1;
    AppendDown(s.down, [Ack(c.sending.connectionId, s.session.recvSequence)], c.sending.connectionId, s.base, c.sending.ackSequence, ahead);
    assert Before(s.up[0], s.up[0]);
  }

  /** The newest payload arriving for the first time is delivered and acknowledged; everything behind it is a copy. */
  lemma ServeNewData(s: Sys, replies: seq<Payload>)
    requires Inv(s) && s.linked && s.up != [] && s.up[0].Data? && !s.session.closed
    requires s.up[0].number != s.session.recvSequence
    ensures Inv(Do(s, ServerReceives(replies)))
  {
    var c := s.client;
    var (session, sent) := ServeFrame(s.session, s.up[0], replies);
    AckThenData(sent, c.sending.connectionId, s.base, c.sending.ackSequence);
    AppendDown(s.down, sent, c.sending.connectionId, s.base, c.sending.ackSequence, true);
    var s' := Do(s, ServerReceives(replies));
    assert s'.session.delivered == s.started;
  }

  lemma AckThenData(sent: seq<Frame>, conn: seqno, base: seqno, ack: seqno)
    requires sent != [] && sent[0] == Ack(conn, Next(ack))
    requires forall f :: f in sent[1..] ==> f.Data?
    ensures DownChannel(sent, conn, base, ack, true)
    ensures forall j :: 0 < j < |sent| ==> sent[j].Data?
  {
    forall j | 0 < j < |sent|
      ensures sent[j].Data?
    {
      assert sent[j] in sent[1..];
    }
  }

  lemma ServerStep(s: Sys, replies: seq<Payload>)
    requires Inv(s) && Enabled(s, ServerReceives(replies))
    ensures Inv(Do(s, ServerReceives(replies)))
  {
    if s.linked && !s.session.closed {
      if s.up[0].Rfc? { ServeRfc(s); }
      else if s.up[0].Ping? { ServePing(s); }
      else if s.up[0].Data? && s.up[0].number != s.session.recvSequence { ServeNewData(s, replies); }
    }
  }

  /** The client changed only in timers and counters, or started to disconnect. */
  predicate Kept(c: Client, d: Client) {
    && (d.state == c.state || (c.state == Connected && d.state == Disconnecting))
    && d.sending == c.sending && d.errors == c.errors && d.okToRcvRfc == c.okToRcvRfc
    && (d.nackReceived ==> c.nackReceived || (c.state == Connected && c.sending.outstanding))
  }

  lemma ClientKept(s: Sys, d: Client)
    requires Inv(s) && s.linked && Kept(s.client, d)
    ensures Inv(s.(client := d))
  {
  }

  lemma ClientGone(s: Sys)
    requires Inv(s) && s.linked
    ensures Inv(s.(client := DisconnectDlc(s.client).0))
  {
  }

  /** A frame the linked client may put on the wire: no connection request, no payload but the newest. */
  predicate Sendable(s: Sys, f: Frame) {
    && !f.Rfc?
    && (f.Data? ==> f.number == Current(s) && s.started != [] && f.payload == s.started[|s.started| - 1])
  }

  lemma ClientSends(s: Sys, f: Frame)
    requires Inv(s) && s.linked && Sendable(s, f)
    ensures Inv(s.(up := s.up + [f]))
  {
    AppendUp(s.up, f, Current(s), s.client.sending.ackSequence, |s.session.delivered| < |s.started|, s.started);
  }

  /** Any reaction of the emulator that keeps its link state and sends at most one sendable frame. */
  lemma Reaction(s: Sys, out: Output)
    requires Inv(s) && s.linked && Kept(s.client, out.0)
    requires out.1 == [] || (out.1 == [out.1[0]] && Sendable(s, out.1[0]))
    ensures Inv(ClientStep(s, out))
  {
    ClientKept(s, out.0);
    if out.1 == [] {
      assert s.up + out.1 == s.up;
    } else {
      ClientSends(s.(client := out.0), out.1[0]);
    }
  }

  lemma LinkUp(s: Sys, late: bool)
    requires Inv(s) && !s.linked && s.down != []
    ensures Inv(Do(s, ClientReceives(late)))
  {
  }

  lemma PopRfc(s: Sys, late: bool)
    requires Inv(s) && s.linked && s.down != [] && s.down[0].Rfc?
    ensures Inv(Do(s, ClientReceives(late)))
  {
  }

  /** Hearing anything else means no connection frame is on its way any more. */
  lemma HeardOther(s: Sys)
    requires Inv(s) && s.linked && s.down != [] && !s.down[0].Rfc?
    ensures Inv(s.(down := s.down[1..]))
    ensures Inv(s.(down := s.down[1..], client := s.client.(okToRcvRfc := false)))
  {
    assert forall j :: 0 < j < |s.down| ==> DownOrder(s.down[0], s.down[j], s.client.sending.ackSequence);
    assert NoRfc(s.down[1..]) && NoRfc(s.up);
  }

  /** The acknowledgement of the outstanding payload completes the write. */
  lemma Completed(s: Sys, number: seqno)
    requires Inv(s) && s.linked && s.client.state == Connected && s.client.sending.outstanding
    requires number == Next(s.client.sending.ackSequence) && |s.session.delivered| == |s.started|
    requires forall j :: 0 <= j < |s.down| && s.down[j].Ack? ==> s.down[j].number == number
    ensures Inv(s.(client := ReceiveAck(s.client, s.client.sending.connectionId, number)))
  {
  }

  lemma ReceiveAckStep(s: Sys, late: bool)
    requires Inv(s) && s.linked && s.client.state == Connected && s.down != [] && s.down[0].Ack?
    ensures Inv(Do(s, ClientReceives(late)))
  {
    HeardOther(s);
    var t := s.(down := s.down[1..], client := s.client.(okToRcvRfc := false));
    var f := s.down[0];
    assert DownFrame(f, s.client.sending.connectionId, s.base, s.client.sending.ackSequence, |s.session.delivered| == s.client.sending.framesSent + 1);
    if f.number == Next(s.client.sending.ackSequence) {
      assert forall j :: 0 < j < |s.down| ==> DownOrder(f, s.down[j], s.client.sending.ackSequence);
      Completed(t, f.number);
    } else {
      StaleAckKept(t.client, f.number);
      ClientKept(t, ReceiveAck(t.client, f.conn, f.number));
    }
  }

  /** An acknowledgement of what was acknowledged before. */
  lemma StaleAckKept(c: Client, number: seqno)
    requires c.state == Connected && number == c.sending.ackSequence
    ensures Kept(c, ReceiveAck(c, c.sending.connectionId, number))
  {
  }

  lemma ReceiveStep(s: Sys, late: bool)
    requires Inv(s) && Enabled(s, ClientReceives(late))
    ensures Inv(Do(s, ClientReceives(late)))
  {
    if !s.linked { LinkUp(s, late); }
    else if s.down[0].Rfc? { PopRfc(s, late); }
    else {
      HeardOther(s);
      if s.client.state == Connected {
        if s.down[0].Ack? { ReceiveAckStep(s, late); }
        else {
          assert s.down[0].Data? by {
            assert DownFrame(s.down[0], s.client.sending.connectionId, s.base, s.client.sending.ackSequence,
                             |s.session.delivered| == s.client.sending.framesSent + 1);
          }
          var t := s.(down := s.down[1..], client := s.client.(okToRcvRfc := false));
          ClientKept(t, ReceiveData(t.client, s.down[0].number, s.down[0].payload, late || !s.client.receiving.bufferFree));
        }
      }
    }
  }

  lemma AnswerStep(s: Sys)
    requires Inv(s) && Enabled(s, Answer)
    ensures Inv(Do(s, Answer))
  {
    if s.linked {
      Reaction(s, AnswerIfDue(s.client));
    }
  }

  /** Giving up: the client is gone and says so. */
  lemma GivesUp(s: Sys, c: Client)
    requires Inv(s) && s.linked && Kept(s.client, c) && c.state != Disconnected
    ensures Inv(ClientStep(s, DisconnectDlc(c)))
  {
    ClientKept(s, c);
    ClientGone(s.(client := c));
    ClientSends(s.(client := DisconnectDlc(c).0), Disc);
  }

  /** A resend, even one triggered by a negative acknowledgement that has become stale, is a copy of the newest payload. */
  lemma RetryStep(s: Sys)
    requires Inv(s) && Enabled(s, Retry)
    ensures Inv(Do(s, Retry))
  {
    if s.linked {
      var c := s.client.(nackReceived := false, timing := s.client.timing.(dataRetries := s.client.timing.dataRetries + 1));
      if s.client.nackReceived && c.timing.dataRetries > MAX_DATA_RETRIES {
        GivesUp(s, c);
      } else {
        Reaction(s, RetryIfNacked(s.client));
      }
    }
  }

  lemma PingReaction(c: Client)
    requires c.state == Connected
    ensures Kept(c, PingForAck(c).0) && (PingForAck(c).1 == [] || PingForAck(c).1 == [Ping])
  {
  }

  lemma IdleReaction(c: Client)
    requires c.state == Connected
    ensures Kept(c, IdleTick(c).0) && (IdleTick(c).1 == [] || IdleTick(c).1 == [Ping])
  {
  }

  lemma TickReaction(c: Client)
    requires c.state != Connecting
    ensures Kept(c, TimerTick(c).0) && (TimerTick(c).1 == [] || TimerTick(c).1 == [Ping])
  {
    var c1 := c.(timing := c.timing.(timerActive := false));
    if c.state == Connected {
      if c.sending.outstanding { PingReaction(c1); } else { IdleReaction(c1); }
    }
  }

  lemma TickStep(s: Sys)
    requires Inv(s) && Enabled(s, Tick)
    ensures Inv(Do(s, Tick))
  {
    if s.linked {
      TickReaction(s.client);
      Reaction(s, TimerTick(s.client));
    }
  }

  lemma FinishStep(s: Sys)
    requires Inv(s) && Enabled(s, FinishDisconnect)
    ensures Inv(Do(s, FinishDisconnect))
  {
    if s.linked {
      GivesUp(s, s.client);
    }
  }

  lemma QuietStep(s: Sys, step: Step)
    requires Inv(s) && (step.ClientNoise? || step.LoseCarrier? || step.FreeRxBuffer?)
    ensures Inv(Do(s, step))
  {
    if s.linked {
      ClientKept(s, Do(s, step).client);
    }
  }

  lemma InvKept(s: Sys, step: Step)
    requires Inv(s) && Enabled(s, step)
    ensures Inv(Do(s, step))
  {
    match step
    case Write(payload) => WriteStep(s, payload);
    case ClientReceives(late) => ReceiveStep(s, late);
    case ClientNoise(_) => QuietStep(s, step);
    case LoseCarrier => QuietStep(s, step);
    case FreeRxBuffer => QuietStep(s, step);
    case Answer => AnswerStep(s);
    case Retry => RetryStep(s);
    case Tick => TickStep(s);
    case FinishDisconnect => FinishStep(s);
    case ServerReceives(replies) => ServerStep(s, replies);
    case LoseUp(at) => UpChannelStep(s, at);
    case RepeatUp(at) => UpChannelStep(s, at);
    case LoseDown(at) => DownChannelStep(s, at);
    case RepeatDown(at) => DownChannelStep(s, at);
  }

  lemma {:induction false} InvAlways(s: Sys, steps: seq<Step>)
    requires Inv(s) && AllEnabled(s, steps)
    ensures Inv(Run(s, steps))
    decreases |steps|
  {
    if steps != [] {
      InvKept(s, steps[0]);
      InvAlways(Do(s, steps[0]), steps[1..]);
    }
  }

  /**
   * Over every run the server processes a prefix of the payloads handed in, each once and in order, never behind
   * the completed writes and at most one ahead of them; neither end ever takes one of its error branches.
   */
  lemma ExactlyOnce(s: Sys, steps: seq<Step>)
    requires Initial(s) && AllEnabled(s, steps)
    ensures var t := Run(s, steps);
            && t.session.delivered <= t.started
            && t.client.sending.framesSent <= |t.session.delivered| <= t.client.sending.framesSent + 1
            && t.session.outOfSequence == 0 && t.client.errors == Errors(0, 0)
            && (t.client.state == Connected ==>
                  t.client.sending.sendSequence
                    == (t.client.sending.ackSequence + 1 + (if t.client.sending.outstanding then 1 else 0)) % 256)
  {
    InvInitially(s);
    InvAlways(s, steps);
  }
}
