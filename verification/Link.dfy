/**
 * The two ends of the phone data link as state transformers: the client's
 * interrupt-service emulator and the server's session. Every function maps the
 * old state of one end to its new state and the frames it puts on the wire.
 */
module Link {
  import opened Bytes

  type Payload = seq<byte>
  type seqno = n: int | 0 <= n < 256

  const MAX_PING_RETRIES := 16
  const MAX_RFC_RETRIES := 8
  const MAX_DATA_RETRIES := 16
  const MAX_IDLE_PING_RETRIES := 6
  const IDLE_PING_TIMEOUT := 10
  const NO_ACTIVITY_TIMEOUT := 0xFFFF

  /** The increment of a byte. */
  function Next(n: seqno): seqno {
    if n == 255 then 0 else n + 1
  }

  datatype Frame =
    | Rfc(conn: seqno, number: seqno)
    | Ack(conn: seqno, number: seqno)
    | Disc
    | Ping
    | Data(number: seqno, payload: Payload)

  datatype LinkState = Disconnected | Connecting | Connected | Disconnecting

  datatype Lock = Free | Held | Poisoned

  /** What the client has handed to the link: sequence numbers, transmit descriptor and write lock. */
  datatype Sending = Sending(
    connectionId: seqno,
    sendSequence: seqno,
    ackSequence: seqno,
    outstanding: bool,
    txReady: bool,
    txNumber: seqno,
    txPayload: Payload,
    writeLock: Lock,
    framesSent: nat
  )

  /** What the client has taken from the link; `received` is what it handed on, in order. */
  datatype Receiving = Receiving(
    recvSequence: seqno,
    bufferFree: bool,
    answerDue: bool,
    illegalData: nat,
    received: seq<Payload>
  )

  datatype Timing = Timing(
    timerActive: bool,
    pingRetries: nat,
    dataRetries: nat,
    rfcRetries: nat,
    pingOutstanding: bool,
    idlePingRetries: nat,
    idleTime: nat,
    activityTimeOut: nat
  )

  /** How often the client met a frame its peer should never have sent. */
  datatype Errors = Errors(protocol: nat, illegalAcks: nat)

  /** The globals of the client's emulator process. */
  datatype Client = Client(
    state: LinkState,
    okToRcvRfc: bool,
    nackReceived: bool,
    sending: Sending,
    receiving: Receiving,
    timing: Timing,
    errors: Errors
  )

  type Output = (Client, seq<Frame>)

  const RFC_FILLER: seqno := 0xAA

  function Arm(c: Client): Client {
    c.(timing := c.timing.(timerActive := true))
  }

  function SendRfc(c: Client): Output {
    (Arm(c), [Rfc(RFC_FILLER, RFC_FILLER)])
  }

  function StartRfc(c: Client): Output {
    SendRfc(c.(state := Connecting, nackReceived := false,
               sending := c.sending.(outstanding := false),
               receiving := c.receiving.(answerDue := false),
               timing := c.timing.(rfcRetries := 0, idleTime := 0, pingOutstanding := false)))
  }

  /** Puts the frame in the transmit descriptor on the wire and arms the timer. */
  function SendDataFrame(c: Client): Output {
    (c.(timing := c.timing.(pingRetries := 0, idleTime := 0, timerActive := true)),
     [Data(c.sending.txNumber, c.sending.txPayload)])
  }

  function StartDataFrame(c: Client): Output {
    SendDataFrame(
      c.(sending := c.sending.(txNumber := c.sending.sendSequence, sendSequence := Next(c.sending.sendSequence),
                               outstanding := true),
         timing := c.timing.(dataRetries := 0)))
  }

  /** A write is admitted only while connected and with the lock free; it takes the lock. */
  predicate MayWrite(c: Client) {
    c.state == Connected && c.sending.writeLock == Free
  }

  function DlcWrite(c: Client, payload: Payload): Output
    requires MayWrite(c)
  {
    StartDataFrame(c.(sending := c.sending.(writeLock := Held, txPayload := payload, txReady := true)))
  }

  function CompleteWriteRequest(c: Client, lock: Lock): Client {
    if c.sending.txReady
    then c.(sending := c.sending.(outstanding := false, txReady := false, writeLock := lock),
            timing := c.timing.(pingRetries := 0))
    else c
  }

  function StartDisconnect(c: Client): Client {
    if c.state == Disconnected || c.state == Disconnecting then c else c.(state := Disconnecting)
  }

  function DisconnectDlc(c: Client): Output {
    if c.state == Disconnected then (c, [])
    else (CompleteWriteRequest(c.(state := Disconnected), Poisoned), [Disc])
  }

  function ProtocolError(c: Client): Client {
    StartDisconnect(c.(errors := c.errors.(protocol := c.errors.protocol + 1)))
  }

  /** The part of an acknowledgement that concerns the outstanding data frame. */
  function AckForData(c: Client, number: seqno): Client {
    if !c.sending.outstanding then c
    else if number == Next(c.sending.ackSequence) then
      Arm(CompleteWriteRequest(
        c.(sending := c.sending.(ackSequence := number, framesSent := c.sending.framesSent + 1)), Free))
    else if c.timing.pingRetries > 0 && number == c.sending.ackSequence then c.(nackReceived := true)
    else c
  }

  /** The part that concerns an outstanding idle ping. */
  function AckForPing(c: Client, number: seqno): Client {
    if !c.timing.pingOutstanding then c
    else
      c.(timing := c.timing.(pingOutstanding := false, idlePingRetries := 0),
         errors := if number != c.sending.ackSequence then c.errors.(illegalAcks := c.errors.illegalAcks + 1) else c.errors)
  }

  function ReceiveAck(c: Client, conn: seqno, number: seqno): Client {
    var c1 := if c.sending.connectionId != conn then ProtocolError(c) else c;
    AckForPing(AckForData(c1, number), number)
  }

  /** `usingShort` says the frame arrived while the long receive buffer was taken. */
  function ReceiveData(c: Client, number: seqno, payload: Payload, usingShort: bool): Client {
    var r := c.receiving;
    c.(timing := c.timing.(idleTime := 0),
       receiving :=
         if usingShort then r
         else if number == Next(r.recvSequence) then
           r.(recvSequence := number, bufferFree := false, answerDue := true, received := r.received + [payload])
         else if number == r.recvSequence then r
         else r.(illegalData := r.illegalData + 1, answerDue := true))
  }

  function AnswerDue(c: Client): Client {
    c.(receiving := c.receiving.(answerDue := true))
  }

  function LinkEstablished(c: Client, conn: seqno, number: seqno): Client {
    Arm(c.(state := Connected, okToRcvRfc := true,
           sending := c.sending.(connectionId := conn, sendSequence := Next(number), ackSequence := number),
           receiving := c.receiving.(recvSequence := number)))
  }

  function ProcessFrame(c: Client, f: Frame, usingShort: bool): Client {
    if f.Disc? then StartDisconnect(c)
    else match c.state
    case Connecting =>
      if f.Rfc? then LinkEstablished(c, f.conn, f.number) else ProtocolError(c)
    case Connected =>
      if f.Rfc? && c.okToRcvRfc then c
      else
        var c1 := c.(okToRcvRfc := false);
        (match f
         case Ack(conn, number) => ReceiveAck(c1, conn, number)
         case Data(number, payload) => ReceiveData(c1, number, payload, usingShort)
         case Ping => AnswerDue(c1)
         case _ => ProtocolError(c1))
    case _ => c
  }

  /** A frame that failed its checks is answered like a ping unless it came into the short buffer. */
  function ProcessErrorInReceive(c: Client, usingShort: bool): Client {
    if c.state == Connected && !usingShort then AnswerDue(c) else c
  }

  function AnswerIfDue(c: Client): Output {
    if c.receiving.answerDue
    then (c.(receiving := c.receiving.(answerDue := false)), [Ack(c.sending.connectionId, c.receiving.recvSequence)])
    else (c, [])
  }

  function RetryData(c: Client): Output {
    var c1 := c.(timing := c.timing.(dataRetries := c.timing.dataRetries + 1));
    if c1.timing.dataRetries <= MAX_DATA_RETRIES then SendDataFrame(c1) else DisconnectDlc(c1)
  }

  function RetryIfNacked(c: Client): Output {
    if c.nackReceived then RetryData(c.(nackReceived := false)) else (c, [])
  }

  function PingForAck(c: Client): Output {
    var t := c.timing.(pingRetries := c.timing.pingRetries + 1);
    if t.pingRetries < MAX_PING_RETRIES then (c.(timing := t.(timerActive := true)), [Ping])
    else (StartDisconnect(c.(timing := t)), [])
  }

  function IdleTick(c: Client): Output {
    var t := c.timing.(idleTime := c.timing.idleTime + IDLE_PING_TIMEOUT);
    if t.idleTime >= t.activityTimeOut && t.activityTimeOut != NO_ACTIVITY_TIMEOUT then
      (c.(timing := t.(idleTime := 0)), [])
    else
      var u := t.(idlePingRetries := if t.pingOutstanding then t.idlePingRetries + 1 else 0);
      if u.idlePingRetries >= MAX_IDLE_PING_RETRIES then (StartDisconnect(c.(timing := u)), [])
      else (c.(timing := u.(pingOutstanding := true, timerActive := true)), [Ping])
  }

  function ConnectingTick(c: Client): Output {
    var c1 := c.(timing := c.timing.(rfcRetries := c.timing.rfcRetries + 1));
    if c1.timing.rfcRetries <= MAX_RFC_RETRIES then SendRfc(c1) else (StartDisconnect(c1), [])
  }

  /** What the emulator does when its timer has expired. */
  function TimerTick(c: Client): Output {
    var c1 := c.(timing := c.timing.(timerActive := false));
    match c1.state
    case Connecting => ConnectingTick(c1)
    case Connected => if c1.sending.outstanding then PingForAck(c1) else IdleTick(c1)
    case _ => (c1, [])
  }

  /**
   * What the receiver makes of the line: a whole frame, or one that failed its checks. A frame that began while
   * the long receive buffer was taken is in the short one, even if the long one was freed meanwhile.
   */
  datatype Arrival = Whole(frame: Frame, late: bool) | Damaged(late: bool)

  function Hear(c: Client, a: Arrival): Client {
    var usingShort := a.late || !c.receiving.bufferFree;
    match a
    case Whole(f, _) => ProcessFrame(c, f, usingShort)
    case Damaged(_) => ProcessErrorInReceive(c, usingShort)
  }

  function HearAll(c: Client, arrivals: seq<Arrival>): Client
    decreases |arrivals|
  {
    if arrivals == [] then c else HearAll(Hear(c, arrivals[0]), arrivals[1..])
  }

  /** A turn once the receiver is empty: give up without a carrier, else answer, resend, and look at the clock. */
  function FinishTurn(c: Client, lost: bool, expired: bool): Output {
    if lost then (StartDisconnect(c), [])
    else
      var (c1, answer) := AnswerIfDue(c);
      var (c2, retry) := RetryIfNacked(c1);
      if expired && c2.timing.timerActive then
        var (c3, tick) := TimerTick(c2);
        (c3, answer + retry + tick)
      else (c2, answer + retry)
  }

  predicate Listening(c: Client) {
    c.state == Connecting || c.state == Connected
  }

  /** One poll of the emulator: what arrived since the last one, and the readings of carrier and clock. */
  function IsMain(c: Client, arrivals: seq<Arrival>, lost: bool, expired: bool): Output {
    if Listening(c) then FinishTurn(HearAll(c, arrivals), lost, expired) else DisconnectDlc(c)
  }

  /** One session of the server; `outOfSequence` counts the frames it refused as out of order. */
  datatype Session = Session(
    connectionId: seqno,
    lastSeqNumber: seqno,
    recvSequence: seqno,
    closed: bool,
    delivered: seq<Payload>,
    outOfSequence: nat
  )

  /** Response data frames, numbered on from the last one sent. */
  function WriteResponses(s: Session, replies: seq<Payload>): (r: (Session, seq<Frame>))
    ensures r.0 == s.(lastSeqNumber := r.0.lastSeqNumber)
    ensures replies == [] ==> r.0 == s
    ensures forall f :: f in r.1 ==> f.Data?
    decreases |replies|
  {
    if replies == [] then (s, [])
    else
      var s1 := s.(lastSeqNumber := Next(s.lastSeqNumber));
      var (s2, rest) := WriteResponses(s1, replies[1..]);
      (s2, [Data(s1.lastSeqNumber, replies[0])] + rest)
  }

  /** One frame at the server; `replies` is what the request in it, if any, is answered with. */
  function ServeFrame(s: Session, f: Frame, replies: seq<Payload>): (Session, seq<Frame>) {
    if s.closed then (s, [])
    else match f
    case Rfc(_, _) =>
      (s.(recvSequence := s.lastSeqNumber), [Rfc(s.connectionId, s.lastSeqNumber)])
    case Ack(_, _) => (s, [])
    case Disc => (s.(closed := true), [])
    case Ping => (s, [Ack(s.connectionId, s.recvSequence)])
    case Data(number, payload) =>
      if number == s.recvSequence then (s, [])
      else if number != Next(s.recvSequence) then
        (s.(outOfSequence := s.outOfSequence + 1), [Ack(s.connectionId, s.recvSequence)])
      else
        var s1 := s.(recvSequence := number, delivered := s.delivered + [payload]);
        var (s2, sent) := WriteResponses(s1, replies);
        (s2, [Ack(s.connectionId, number)] + sent)
  }
}
