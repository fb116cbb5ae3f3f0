/** The two ends of the link as they are written: module globals and a session object, changed in place. */
module LinkEndpoints {
  import opened Link

  class IsEmulator {
    var currentState: LinkState
    var okToRcvRfc: bool
    var nackReceived: bool
    var sending: Sending
    var receiving: Receiving
    var timing: Timing
    var errors: Errors
    /** Every frame sent so far. */
    var wire: seq<Frame>

    ghost function State(): Client
      reads this
    {
      Client(currentState, okToRcvRfc, nackReceived, sending, receiving, timing, errors)
    }

    /** The method did what `out` says: new state, and its frames appended to the wire. */
    twostate predicate Did(out: Output)
      reads this
    {
      State() == out.0 && wire == old(wire) + out.1
    }

    /** The emulator as it is loaded, before it asks for a connection. */
    constructor (activityTimeOut: nat)
      ensures State() == Client(Disconnected, false, false, Sending(0, 0, 0, false, false, 0, [], Free, 0),
                                Receiving(0, true, false, 0, []), Timing(false, 0, 0, 0, false, 0, 0, activityTimeOut), Errors(0, 0))
      ensures wire == []
    {
      currentState, okToRcvRfc, nackReceived := Disconnected, false, false;
      sending := Sending(0, 0, 0, false, false, 0, [], Free, 0);
      receiving := Receiving(0, true, false, 0, []);
      timing := Timing(false, 0, 0, 0, false, 0, 0, activityTimeOut);
      errors := Errors(0, 0);
      wire := [];
    }

    method PdlSendFrame(f: Frame)
      modifies this`wire
      ensures wire == old(wire) + [f]
    {
      wire := wire + [f];
    }

    method SendRfcFrame()
      modifies this
      ensures Did(SendRfc(old(State())))
    {
      PdlSendFrame(Rfc(RFC_FILLER, RFC_FILLER));
      timing := timing.(timerActive := true);
    }

    method Start()
      modifies this
      ensures Did(StartRfc(old(State())))
    {
      timing := timing.(rfcRetries := 0, idleTime := 0, pingOutstanding := false);
      nackReceived := false;
      receiving := receiving.(answerDue := false);
      sending := sending.(outstanding := false);
      currentState := Connecting;
      SendRfcFrame();
    }

    method SendData()
      modifies this
      ensures Did(SendDataFrame(old(State())))
    {
      timing := timing.(timerActive := false);
      PdlSendFrame(Data(sending.txNumber, sending.txPayload));
      timing := timing.(pingRetries := 0, idleTime := 0);
      timing := timing.(timerActive := true);
    }

    method StartData()
      modifies this
      ensures Did(StartDataFrame(old(State())))
    {
      timing := timing.(timerActive := false);
      sending := sending.(txNumber := sending.sendSequence);
      sending := sending.(sendSequence := Next(sending.sendSequence));
      timing := timing.(dataRetries := 0);
      sending := sending.(outstanding := true);
      SendData();
    }

    /** A write while the lock is held would wait; one on a link that is not up is refused. */
    method Write(payload: Payload) returns (accepted: bool)
      modifies this
      ensures accepted == MayWrite(old(State()))
      ensures accepted ==> Did(DlcWrite(old(State()), payload))
      ensures !accepted ==> Did((old(State()), []))
    {
      if currentState != Connected || sending.writeLock != Free { return false; }
      sending := sending.(writeLock := Held, txPayload := payload, txReady := true);
      StartData();
      accepted := true;
    }

    method CompleteWrite(lock: Lock)
      modifies this
      ensures Did((CompleteWriteRequest(old(State()), lock), []))
    {
      if sending.txReady {
        sending := sending.(outstanding := false);
        timing := timing.(pingRetries := 0);
        sending := sending.(txReady := false, writeLock := lock);
      }
    }

    method BeginDisconnect()
      modifies this
      ensures Did((StartDisconnect(old(State())), []))
    {
      if currentState != Disconnected && currentState != Disconnecting {
        currentState := Disconnecting;
      }
    }

    method Disconnect()
      modifies this
      ensures Did(DisconnectDlc(old(State())))
    {
      if currentState == Disconnected { return; }
      currentState := Disconnected;
      PdlSendFrame(Disc);
      CompleteWrite(Poisoned);
    }

    method RaiseProtocolError()
      modifies this
      ensures Did((ProtocolError(old(State())), []))
    {
      errors := errors.(protocol := errors.protocol + 1);
      BeginDisconnect();
    }

    method HandleAck(conn: seqno, number: seqno)
      modifies this
      ensures Did((ReceiveAck(old(State()), conn, number), []))
    {
      if sending.connectionId != conn { RaiseProtocolError(); }
      HandleDataAck(number);
      if timing.pingOutstanding {
        timing := timing.(pingOutstanding := false, idlePingRetries := 0);
        if number != sending.ackSequence {
          errors := errors.(illegalAcks := errors.illegalAcks + 1);
        }
      }
    }

    method HandleDataAck(number: seqno)
      modifies this
      ensures Did((AckForData(old(State()), number), []))
    {
      if sending.outstanding {
        if number == Next(sending.ackSequence) {
          sending := sending.(ackSequence := number, framesSent := sending.framesSent + 1);
          CompleteWrite(Free);
          timing := timing.(timerActive := true);
        } else if timing.pingRetries > 0 && number == sending.ackSequence {
          nackReceived := true;
        }
      }
    }

    method HandleData(number: seqno, payload: Payload, usingShort: bool)
      modifies this
      ensures Did((ReceiveData(old(State()), number, payload, usingShort), []))
    {
      timing := timing.(idleTime := 0);
      if !usingShort {
        if number == Next(receiving.recvSequence) {
          receiving := receiving.(recvSequence := number, bufferFree := false, answerDue := true);
          receiving := receiving.(received := receiving.received + [payload]);
        } else if number != receiving.recvSequence {
          receiving := receiving.(illegalData := receiving.illegalData + 1, answerDue := true);
        }
      }
    }

    method HandleFrame(f: Frame, usingShort: bool)
      modifies this
      ensures Did((ProcessFrame(old(State()), f, usingShort), []))
    {
      if f.Disc? {
        BeginDisconnect();
      } else if currentState == Connecting {
        if f.Rfc? {
          sending := sending.(sendSequence := Next(f.number), ackSequence := f.number, connectionId := f.conn);
          receiving := receiving.(recvSequence := f.number);
          currentState := Connected;
          okToRcvRfc := true;
          timing := timing.(timerActive := true);
        } else {
          RaiseProtocolError();
        }
      } else if currentState == Connected {
        if f.Rfc? && okToRcvRfc { return; }
        okToRcvRfc := false;
        if f.Ack? { HandleAck(f.conn, f.number); }
        else if f.Data? { HandleData(f.number, f.payload, usingShort); }
        else if f.Ping? { receiving := receiving.(answerDue := true); }
        else { RaiseProtocolError(); }
      }
    }

    method Resend()
      modifies this
      ensures Did(RetryData(old(State())))
    {
      timing := timing.(dataRetries := timing.dataRetries + 1);
      if timing.dataRetries <= MAX_DATA_RETRIES { SendData(); } else { Disconnect(); }
    }

    method PingAgain()
      modifies this
      ensures Did(PingForAck(old(State())))
    {
      timing := timing.(pingRetries := timing.pingRetries + 1);
      if timing.pingRetries < MAX_PING_RETRIES {
        PdlSendFrame(Ping);
        timing := timing.(timerActive := true);
      } else {
        BeginDisconnect();
      }
    }

    method Idle()
      modifies this
      ensures Did(IdleTick(old(State())))
    {
      timing := timing.(idleTime := timing.idleTime + IDLE_PING_TIMEOUT);
      if timing.idleTime >= timing.activityTimeOut && timing.activityTimeOut != NO_ACTIVITY_TIMEOUT {
        timing := timing.(idleTime := 0);
        return;
      }
      timing := timing.(idlePingRetries := if timing.pingOutstanding then timing.idlePingRetries + 1 else 0);
      if timing.idlePingRetries >= MAX_IDLE_PING_RETRIES {
        BeginDisconnect();
      } else {
        timing := timing.(pingOutstanding := true);
        PdlSendFrame(Ping);
        timing := timing.(timerActive := true);
      }
    }

    method Expired()
      modifies this
      ensures Did(TimerTick(old(State())))
    {
      timing := timing.(timerActive := false);
      if currentState == Connecting {
        timing := timing.(rfcRetries := timing.rfcRetries + 1);
        if timing.rfcRetries <= MAX_RFC_RETRIES { SendRfcFrame(); } else { BeginDisconnect(); }
      } else if currentState == Connected {
        if sending.outstanding { PingAgain(); } else { Idle(); }
      }
    }

    method Answer()
      modifies this
      ensures Did(AnswerIfDue(old(State())))
    {
      if receiving.answerDue {
        receiving := receiving.(answerDue := false);
        PdlSendFrame(Ack(sending.connectionId, receiving.recvSequence));
      }
    }

    method ResendIfNacked()
      modifies this
      ensures Did(RetryIfNacked(old(State())))
    {
      if nackReceived {
        nackReceived := false;
        Resend();
      }
    }

    method FreeRxBuffer()
      modifies this
      ensures Did((old(State()).(receiving := old(receiving).(bufferFree := true)), []))
    {
      receiving := receiving.(bufferFree := true);
    }

    method HearOne(a: Arrival)
      modifies this
      ensures Did((Hear(old(State()), a), []))
    {
      var usingShort := a.late || !receiving.bufferFree;
      if a.Whole? {
        HandleFrame(a.frame, usingShort);
      } else if currentState == Connected && !usingShort {
        receiving := receiving.(answerDue := true);
      }
    }

    /** Everything the receiver has, frame by frame. */
    method CheckReceiveStatus(arrivals: seq<Arrival>)
      modifies this
      ensures Did((HearAll(old(State()), arrivals), []))
    {
      var k := 0;
      while k < |arrivals|
        invariant 0 <= k <= |arrivals| && wire == old(wire)
        invariant HearAll(State(), arrivals[k..]) == HearAll(old(State()), arrivals)
      {
        assert arrivals[k..][1..] == arrivals[k + 1..];
        HearOne(arrivals[k]);
        k := k + 1;
      }
    }

    method Work(expired: bool)
      modifies this
      ensures Did(FinishTurn(old(State()), false, expired))
    {
      Answer();
      ResendIfNacked();
      if expired && timing.timerActive { Expired(); }
    }

    method Poll(arrivals: seq<Arrival>, lost: bool, expired: bool)
      modifies this
      ensures Did(IsMain(old(State()), arrivals, lost, expired))
    {
      if currentState == Disconnected { return; }
      if currentState == Disconnecting {
        Disconnect();
        return;
      }
      CheckReceiveStatus(arrivals);
      if lost {
        BeginDisconnect();
        return;
      }
      Work(expired);
    }
  }

  class ServerSession {
    const connectionId: seqno
    var lastSeqNumber: seqno
    var recvSequence: seqno
    var closed: bool
    var delivered: seq<Payload>
    var outOfSequence: nat
    var wire: seq<Frame>

    constructor (connectionId: seqno, initial: seqno)
      ensures State() == Session(connectionId, initial, initial, false, [], 0) && wire == []
    {
      this.connectionId := connectionId;
      lastSeqNumber, recvSequence, closed, delivered, outOfSequence, wire := initial, initial, false, [], 0, [];
    }

    ghost function State(): Session
      reads this
    {
      Session(connectionId, lastSeqNumber, recvSequence, closed, delivered, outOfSequence)
    }

    twostate predicate Did(out: (Session, seq<Frame>))
      reads this
    {
      State() == out.0 && wire == old(wire) + out.1
    }

    method WriteAll(replies: seq<Payload>)
      modifies this`lastSeqNumber, this`wire
      ensures Did(WriteResponses(old(State()), replies))
    {
      var k := 0;
      ghost var all := WriteResponses(State(), replies);
      while k < |replies|
        invariant 0 <= k <= |replies|
        invariant all.0 == WriteResponses(State(), replies[k..]).0
        invariant old(wire) + all.1 == wire + WriteResponses(State(), replies[k..]).1
      {
        assert replies[k..][1..] == replies[k + 1..];
        lastSeqNumber := Next(lastSeqNumber);
        wire := wire + [Data(lastSeqNumber, replies[k])];
        k := k + 1;
      }
      assert replies[k..] == [];
    }

    method ProcessOne(f: Frame, replies: seq<Payload>)
      modifies this
      ensures Did(ServeFrame(old(State()), f, replies))
    {
      if closed { return; }
      match f
      case Rfc(_, _) =>
        recvSequence := lastSeqNumber;
        wire := wire + [Rfc(connectionId, lastSeqNumber)];
      case Ack(_, _) =>
      case Disc =>
        closed := true;
      case Ping =>
        wire := wire + [Ack(connectionId, recvSequence)];
      case Data(number, payload) =>
        var expected := Next(recvSequence);
        if number == recvSequence { return; }
        if number != expected {
          outOfSequence := outOfSequence + 1;
          wire := wire + [Ack(connectionId, recvSequence)];
          return;
        }
        recvSequence := number;
        wire := wire + [Ack(connectionId, recvSequence)];
        delivered := delivered + [payload];
        WriteAll(replies);
    }
  }
}
