/**
 * The emulator object and the session object, joined by two lines and driven
 * through any events: what they do is a run of the link, so what holds of every
 * run holds of the objects.
 */
module LinkReplay {
  import opened Link
  import opened LinkEndpoints
  import opened LinkRuns
  import LinkRetries

  datatype Line = Up | Down

  datatype Event =
    | Hand(payload: Payload)
    | Turn(sounds: seq<Sound>, lost: bool, expired: bool)
    | FreeBuffer
    | Serve(replies: seq<Payload>)
    | Lose(line: Line, at: nat)
    | Repeat(line: Line, at: nat)

  function OnLine(s: Sys, line: Line): seq<Frame> {
    if line.Up? then s.up else s.down
  }

  /** The single steps an event stands for; one that finds nothing to do stands for none. */
  function StepsOf(s: Sys, e: Event): seq<Step> {
    match e
    case Hand(payload) => if MayWrite(s.client) then [Write(payload)] else []
    case Turn(sounds, lost, expired) => TurnSteps(s, sounds, lost, expired)
    case FreeBuffer => [FreeRxBuffer]
    case Serve(replies) => if s.up == [] then [] else [ServerReceives(replies)]
    case Lose(line, at) =>
      if at >= |OnLine(s, line)| then [] else if line.Up? then [LoseUp(at)] else [LoseDown(at)]
    case Repeat(line, at) =>
      if at >= |OnLine(s, line)| then [] else if line.Up? then [RepeatUp(at)] else [RepeatDown(at)]
  }

  lemma EventIsARun(s: Sys, e: Event)
    ensures AllEnabled(s, StepsOf(s, e))
  {
    if e.Turn? {
      PollIsARun(s, e.sounds, e.lost, e.expired);
    } else if StepsOf(s, e) != [] {
      OneStep(s, StepsOf(s, e)[0]);
    }
  }

  lemma OneStep(s: Sys, step: Step)
    requires Enabled(s, step)
    ensures AllEnabled(s, [step]) && Run(s, [step]) == Do(s, step)
  {
    RunCons(s, step, []);
  }

  function AfterOne(s: Sys, e: Event): Sys {
    EventIsARun(s, e);
    Run(s, StepsOf(s, e))
  }

  /** The system after any number of events. */
  function After(s: Sys, events: seq<Event>): Sys
    decreases |events|
  {
    if events == [] then s else After(AfterOne(s, events[0]), events[1..])
  }

  lemma {:induction false} EventsAreARun(s: Sys, events: seq<Event>) returns (steps: seq<Step>)
    ensures AllEnabled(s, steps) && Run(s, steps) == After(s, events)
    decreases |events|
  {
    if events == [] {
      steps := [];
    } else {
      var first := StepsOf(s, events[0]);
      EventIsARun(s, events[0]);
      var rest := EventsAreARun(AfterOne(s, events[0]), events[1..]);
      RunConcat(s, first, rest);
      steps := first + rest;
    }
  }

  /** The objects and the lines stand for this state of the system. */
  ghost predicate Shows(s: Sys, emulator: IsEmulator, session: ServerSession, up: seq<Frame>, down: seq<Frame>, started: seq<Payload>)
    reads emulator, session
  {
    && s.client == emulator.State() && s.session == session.State()
    && s.up == up && s.down == down && s.started == started
  }

  method HandIn(emulator: IsEmulator, session: ServerSession, up: seq<Frame>, started: seq<Payload>, payload: Payload,
                ghost s: Sys, ghost down: seq<Frame>)
      returns (up': seq<Frame>, started': seq<Payload>)
    requires Shows(s, emulator, session, up, down, started)
    modifies emulator
    ensures Shows(AfterOne(s, Hand(payload)), emulator, session, up', down, started')
  {
    if MayWrite(s.client) { OneStep(s, Write(payload)); }
    var sent := |emulator.wire|;
    var accepted := emulator.Write(payload);
    up' := up + emulator.wire[sent..];
    started' := if accepted then started + [payload] else started;
  }

  method TakeTurn(emulator: IsEmulator, session: ServerSession, up: seq<Frame>, down: seq<Frame>,
                  sounds: seq<Sound>, lost: bool, expired: bool, ghost s: Sys, ghost started: seq<Payload>)
      returns (up': seq<Frame>, down': seq<Frame>)
    requires Shows(s, emulator, session, up, down, started)
    modifies emulator
    ensures Shows(AfterOne(s, Turn(sounds, lost, expired)), emulator, session, up', down', started)
  {
    PollIsARun(s, sounds, lost, expired);
    var sent := |emulator.wire|;
    var listening := emulator.currentState == Connecting || emulator.currentState == Connected;
    down' := if listening then Unheard(down, sounds) else down;
    emulator.Poll(Arrivals(down, sounds), lost, expired);
    up' := up + emulator.wire[sent..];
  }

  method ServeNext(emulator: IsEmulator, session: ServerSession, up: seq<Frame>, down: seq<Frame>, replies: seq<Payload>,
                   ghost s: Sys, ghost started: seq<Payload>)
      returns (up': seq<Frame>, down': seq<Frame>)
    requires Shows(s, emulator, session, up, down, started)
    modifies session
    ensures Shows(AfterOne(s, Serve(replies)), emulator, session, up', down', started)
  {
    if up == [] { return up, down; }
    OneStep(s, ServerReceives(replies));
    var sent := |session.wire|;
    session.ProcessOne(up[0], replies);
    up', down' := up[1..], down + session.wire[sent..];
  }

  /** A frame is lost or repeated on one of the lines. */
  function Disturbed(ch: seq<Frame>, e: Event, line: Line): seq<Frame>
    requires e.Lose? || e.Repeat?
  {
    if e.line != line || e.at >= |ch| then ch else if e.Lose? then Without(ch, e.at) else Repeated(ch, e.at)
  }

  lemma Disturbance(s: Sys, e: Event)
    requires e.Lose? || e.Repeat?
    ensures AfterOne(s, e) == s.(up := Disturbed(s.up, e, Up), down := Disturbed(s.down, e, Down))
  {
    if StepsOf(s, e) != [] {
      OneStep(s, StepsOf(s, e)[0]);
    }
  }

  /** One event on the objects. */
  method Perform(emulator: IsEmulator, session: ServerSession, up: seq<Frame>, down: seq<Frame>, started: seq<Payload>,
                 e: Event, ghost s: Sys)
      returns (up': seq<Frame>, down': seq<Frame>, started': seq<Payload>)
    requires Shows(s, emulator, session, up, down, started)
    modifies emulator, session
    ensures Shows(AfterOne(s, e), emulator, session, up', down', started')
  {
    up', down', started' := up, down, started;
    match e
    case Hand(payload) =>
      up', started' := HandIn(emulator, session, up, started, payload, s, down);
    case Turn(sounds, lost, expired) =>
      up', down' := TakeTurn(emulator, session, up, down, sounds, lost, expired, s, started);
    case FreeBuffer =>
      OneStep(s, FreeRxBuffer);
      emulator.FreeRxBuffer();
    case Serve(replies) =>
      up', down' := ServeNext(emulator, session, up, down, replies, s, started);
    case _ =>
      Disturbance(s, e);
      up', down' := Disturbed(up, e, Up), Disturbed(down, e, Down);
  }

  method Continue(emulator: IsEmulator, session: ServerSession, up: seq<Frame>, down: seq<Frame>, started: seq<Payload>,
                  events: seq<Event>, ghost s: Sys)
      returns (up': seq<Frame>, down': seq<Frame>, started': seq<Payload>)
    requires Shows(s, emulator, session, up, down, started)
    modifies emulator, session
    ensures Shows(After(s, events), emulator, session, up', down', started')
  {
    up', down', started' := up, down, started;
    ghost var now := s;
    for k := 0 to |events|
      invariant Shows(now, emulator, session, up', down', started')
      invariant After(now, events[k..]) == After(s, events)
    {
      assert events[k..][1..] == events[k + 1..];
      up', down', started' := Perform(emulator, session, up', down', started', events[k], now);
      now := AfterOne(now, events[k]);
    }
    assert events[|events|..] == [];
  }

  /** A link that has just been asked for. */
  method Connect(connectionId: seqno, number: seqno, activityTimeOut: nat)
      returns (emulator: IsEmulator, session: ServerSession, ghost start: Sys)
    ensures fresh(emulator) && fresh(session) && Initial(start)
    ensures Shows(start, emulator, session, emulator.wire, [], [])
  {
    emulator := new IsEmulator(activityTimeOut);
    emulator.Start();
    session := new ServerSession(connectionId, number);
    start := Sys(emulator.State(), session.State(), emulator.wire, [], [], false, number);
  }

  /**
   * Whatever the users hand in, whenever either end gets its turn, and whatever the lines lose or repeat: the
   * session has processed a prefix of the payloads taken, each once and in order, never behind the completed writes
   * and at most one ahead; neither object has counted an error; an outstanding frame has the timer running.
   */
  method Drive(connectionId: seqno, number: seqno, activityTimeOut: nat, events: seq<Event>)
      returns (emulator: IsEmulator, session: ServerSession, started: seq<Payload>, ghost start: Sys)
    ensures Initial(start)
    ensures var s := After(start, events);
            s.client == emulator.State() && s.session == session.State() && s.started == started
    ensures session.delivered <= started
    ensures emulator.sending.framesSent <= |session.delivered| <= emulator.sending.framesSent + 1
    ensures emulator.errors == Errors(0, 0) && session.outOfSequence == 0
    ensures emulator.currentState == Connected ==>
              && emulator.sending.sendSequence
                 == (emulator.sending.ackSequence + 1 + (if emulator.sending.outstanding then 1 else 0)) % 256
              && (emulator.sending.outstanding ==> emulator.timing.timerActive)
  {
    emulator, session, start := Connect(connectionId, number, activityTimeOut);
    var up, down;
    up, down, started := Continue(emulator, session, emulator.wire, [], [], events, start);
    ghost var steps := EventsAreARun(start, events);
    ExactlyOnce(start, steps);
    InvInitially(start);
    LinkRetries.SupervisedInitially(start);
    LinkRetries.SupervisedAlways(start, steps);
  }
}
