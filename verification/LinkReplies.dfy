/**
 * The way down: replies are numbered but never sent again. What the client hands
 * on is a prefix of what the server wrote, each reply once and in order, as long
 * as it is never 256 replies behind.
 */
module LinkReplies {
  import Bytes
  import opened Link
  import opened LinkRuns
  import opened LinkProgress

  /** A state of the link with all replies written so far, and for each data frame on its way down which one it carries. */
  datatype Traced = Traced(sys: Sys, marks: seq<nat>, replied: seq<Payload>)

  /** A byte that counts from `base`. */
  function Number(base: seqno, n: nat): seqno
    decreases n
  {
    if n == 0 then base else Next(Number(base, n - 1))
  }

  lemma {:induction false} NumberMod(base: seqno, n: nat)
    ensures Number(base, n) == (base + n) % 256
    decreases n
  {
    if n > 0 {
      NumberMod(base, n - 1);
    }
  }

  /** Within 256 of each other, numbers tell replies apart. */
  lemma NumbersApart(base: seqno, k: nat, r: nat)
    requires r <= k + 1 && k < r + 256 && Number(base, k + 1) == Number(base, r + 1)
    ensures k == r
  {
    NumberMod(base, k + 1);
    NumberMod(base, r + 1);
  }

  // ---- what the server sends ----

  function PayloadsOf(frames: seq<Frame>): seq<Payload> {
    if frames == [] then []
    else (if frames[0].Data? then [frames[0].payload] else []) + PayloadsOf(frames[1..])
  }

  function MarksOf(frames: seq<Frame>, from: nat): (r: seq<nat>)
    ensures |r| == |frames|
  {
    if frames == [] then []
    else [from] + MarksOf(frames[1..], if frames[0].Data? then from + 1 else from)
  }

  function Cut<T>(s: seq<T>, at: nat): seq<T>
    requires at < |s|
  {
    s[..at] + s[at + 1..]
  }

  function Doubled<T>(s: seq<T>, at: nat): seq<T>
    requires at < |s|
  {
    s[..at] + [s[at]] + s[at..]
  }

  function DoTraced(t: Traced, step: Step): Traced
    requires Enabled(t.sys, step) && |t.marks| == |t.sys.down|
  {
    var next := Do(t.sys, step);
    match step
    case ServerReceives(replies) =>
      var sent := ServeFrame(t.sys.session, t.sys.up[0], replies).1;
      Traced(next, t.marks + MarksOf(sent, |t.replied|), t.replied + PayloadsOf(sent))
    case ClientReceives(_) => t.(sys := next, marks := t.marks[1..])
    case LoseDown(at) => t.(sys := next, marks := Cut(t.marks, at))
    case RepeatDown(at) => t.(sys := next, marks := Doubled(t.marks, at))
    case _ => t.(sys := next)
  }

  // ---- what every step keeps ----

  predicate Carries(f: Frame, mark: nat, replied: seq<Payload>, base: seqno, r: nat) {
    f.Data? ==> r <= mark + 1 && mark < |replied| && f.payload == replied[mark] && f.number == Number(base, mark + 1)
  }

  predicate InOrder(f: Frame, i: nat, g: Frame, j: nat) {
    f.Data? && g.Data? ==> i <= j
  }

  /** The data frames on their way down carry replies in the order they were written, none before the last one taken. */
  predicate Marked(down: seq<Frame>, marks: seq<nat>, replied: seq<Payload>, base: seqno, r: nat) {
    && |marks| == |down|
    && (forall i :: 0 <= i < |down| ==> Carries(down[i], marks[i], replied, base, r))
    && (forall i, j :: 0 <= i < j < |down| ==> InOrder(down[i], marks[i], down[j], marks[j]))
  }

  predicate Tracing(t: Traced) {
    var s, r := t.sys, t.sys.client.receiving;
    && Marked(s.down, t.marks, t.replied, s.base, |r.received|)
    && s.session.lastSeqNumber == Number(s.base, |t.replied|)
    && r.received <= t.replied
    && (if s.linked then r.recvSequence == Number(s.base, |r.received|) else t.replied == [])
  }

  lemma MarkedCut(down: seq<Frame>, marks: seq<nat>, at: nat, replied: seq<Payload>, base: seqno, r: nat)
    requires Marked(down, marks, replied, base, r) && at < |down|
    ensures Marked(Cut(down, at), Cut(marks, at), replied, base, r)
  {
    var d, m := Cut(down, at), Cut(marks, at);
    forall i, j | 0 <= i < j < |d| ensures InOrder(d[i], m[i], d[j], m[j]) {
      var i', j' := if i < at then i else i + 1, if j < at then j else j + 1;
      assert InOrder(down[i'], marks[i'], down[j'], marks[j']);
    }
    forall i | 0 <= i < |d| ensures Carries(d[i], m[i], replied, base, r) {
      var i' := if i < at then i else i + 1;
      assert Carries(down[i'], marks[i'], replied, base, r);
    }
  }

  lemma MarkedDoubled(down: seq<Frame>, marks: seq<nat>, at: nat, replied: seq<Payload>, base: seqno, r: nat)
    requires Marked(down, marks, replied, base, r) && at < |down|
    ensures Marked(Doubled(down, at), Doubled(marks, at), replied, base, r)
  {
    var d, m := Doubled(down, at), Doubled(marks, at);
    forall i, j | 0 <= i < j < |d| ensures InOrder(d[i], m[i], d[j], m[j]) {
      var i', j' := if i <= at then i else i - 1, if j <= at then j else j - 1;
      assert i' < j' ==> InOrder(down[i'], marks[i'], down[j'], marks[j']);
    }
    forall i | 0 <= i < |d| ensures Carries(d[i], m[i], replied, base, r) {
      var i' := if i <= at then i else i - 1;
      assert Carries(down[i'], marks[i'], replied, base, r);
    }
  }

  lemma MarkedRest(down: seq<Frame>, marks: seq<nat>, replied: seq<Payload>, base: seqno, r: nat)
    requires Marked(down, marks, replied, base, r) && down != []
    ensures Marked(down[1..], marks[1..], replied, base, r)
  {
    assert Cut(down, 0) == down[1..] && Cut(marks, 0) == marks[1..];
    MarkedCut(down, marks, 0, replied, base, r);
  }

  /** Once the first frame is taken as reply r, what follows it carries r or later ones. */
  lemma MarkedTaken(down: seq<Frame>, marks: seq<nat>, replied: seq<Payload>, base: seqno, r: nat)
    requires Marked(down, marks, replied, base, r) && down != [] && down[0].Data? && marks[0] == r
    ensures Marked(down[1..], marks[1..], replied, base, r + 1)
  {
    MarkedRest(down, marks, replied, base, r);
    forall i | 0 <= i < |down| - 1 ensures Carries(down[1..][i], marks[1..][i], replied, base, r + 1) {
      assert InOrder(down[0], marks[0], down[i + 1], marks[i + 1]);
      assert Carries(down[i + 1], marks[i + 1], replied, base, r);
    }
  }

  /** One more frame behind the others. */
  lemma MarkedMore(down: seq<Frame>, marks: seq<nat>, f: Frame, mark: nat, replied: seq<Payload>, base: seqno, r: nat)
    requires Marked(down, marks, replied, base, r) && Carries(f, mark, replied, base, r)
    requires f.Data? ==> |replied| == mark + 1
    ensures Marked(down + [f], marks + [mark], replied, base, r)
  {
    var d, m := down + [f], marks + [mark];
    forall i, j | 0 <= i < j < |d| ensures InOrder(d[i], m[i], d[j], m[j]) {
      if j < |down| {
        assert InOrder(down[i], marks[i], down[j], marks[j]);
      } else {
        assert Carries(down[i], marks[i], replied, base, r);
      }
    }
    forall i | 0 <= i < |d| ensures Carries(d[i], m[i], replied, base, r) {
      if i < |down| { assert Carries(down[i], marks[i], replied, base, r); }
    }
  }

  lemma MarkedLonger(down: seq<Frame>, marks: seq<nat>, replied: seq<Payload>, more: Payload, base: seqno, r: nat)
    requires Marked(down, marks, replied, base, r)
    ensures Marked(down, marks, replied + [more], base, r)
  {
    forall i | 0 <= i < |down| ensures Carries(down[i], marks[i], replied + [more], base, r) {
      assert Carries(down[i], marks[i], replied, base, r);
    }
  }

  lemma {:induction false} NumberedReplies(last: seqno, replies: seq<Payload>)
    ensures PayloadsOf(Numbered(last, replies)) == replies
    decreases |replies|
  {
    if replies != [] {
      NumberedReplies(Next(last), replies[1..]);
      assert ([Data(Next(last), replies[0])] + Numbered(Next(last), replies[1..]))[1..] == Numbered(Next(last), replies[1..]);
    }
  }

  lemma {:induction false} NumberAfterAll(base: seqno, n: nat, k: nat)
    ensures NumberAfter(Number(base, n), k) == Number(base, n + k)
    decreases k
  {
    if k > 0 {
      NumberAfterAll(base, n + 1, k - 1);
    }
  }

  lemma SentFirst(last: seqno, replies: seq<Payload>, k: nat)
    requires replies != []
    ensures var f, more := Data(Next(last), replies[0]), Numbered(Next(last), replies[1..]);
            Numbered(last, replies) == [f] + more && MarksOf(Numbered(last, replies), k) == [k] + MarksOf(more, k + 1)
  {
    var f, more := Data(Next(last), replies[0]), Numbered(Next(last), replies[1..]);
    assert ([f] + more)[1..] == more;
  }

  /** Sending all at once or the first one first is the same. */
  lemma SentSplit(down: seq<Frame>, marks: seq<nat>, replied: seq<Payload>, last: seqno, replies: seq<Payload>, k: nat)
    requires replies != []
    ensures var f, more, sent := Data(Next(last), replies[0]), Numbered(Next(last), replies[1..]), Numbered(last, replies);
            && down + [f] + more == down + sent && marks + [k] + MarksOf(more, k + 1) == marks + MarksOf(sent, k)
            && replied + [replies[0]] + replies[1..] == replied + replies
  {
    var f, more := Data(Next(last), replies[0]), Numbered(Next(last), replies[1..]);
    SentFirst(last, replies, k);
    Bytes.Assoc(down, [f], more);
    Bytes.Assoc(marks, [k], MarksOf(more, k + 1));
    Bytes.Assoc(replied, [replies[0]], replies[1..]);
    assert [replies[0]] + replies[1..] == replies;
  }

  type Property = (seq<Frame>, seq<nat>, seq<Payload>) -> bool

  /** A property that one more reply keeps. */
  predicate OneMoreKeeps(holds: Property, base: seqno, d: seq<Frame>, m: seq<nat>, all: seq<Payload>, p: Payload) {
    holds(d, m, all) ==> holds(d + [Data(Next(Number(base, |all|)), p)], m + [|all|], all + [p])
  }

  /** Is kept by any number of them, sent one after the other. */
  lemma {:induction false} AllKeep(holds: Property, base: seqno, d: seq<Frame>, m: seq<nat>, all: seq<Payload>, replies: seq<Payload>)
    requires holds(d, m, all) && forall d', m', all', p :: OneMoreKeeps(holds, base, d', m', all', p)
    ensures var sent := Numbered(Number(base, |all|), replies);
            holds(d + sent, m + MarksOf(sent, |all|), all + replies)
    decreases |replies|
  {
    var last, k := Number(base, |all|), |all|;
    if replies == [] {
      assert d + Numbered(last, replies) == d && m + MarksOf(Numbered(last, replies), k) == m && all + replies == all;
    } else {
      assert OneMoreKeeps(holds, base, d, m, all, replies[0]);
      AllKeep(holds, base, d + [Data(Next(last), replies[0])], m + [k], all + [replies[0]], replies[1..]);
      SentSplit(d, m, all, last, replies, k);
    }
  }

  /** The replies to one request, sent one after the other. */
  lemma MarkedReplies(down: seq<Frame>, marks: seq<nat>, replied: seq<Payload>, base: seqno, r: nat, replies: seq<Payload>)
    requires Marked(down, marks, replied, base, r) && r <= |replied|
    ensures var sent := Numbered(Number(base, |replied|), replies);
            Marked(down + sent, marks + MarksOf(sent, |replied|), replied + replies, base, r)
  {
    var holds: Property := (d, m, all) => Marked(d, m, all, base, r) && r <= |all|;
    forall d, m, all, p ensures OneMoreKeeps(holds, base, d, m, all, p) {
      if holds(d, m, all) { OneMoreReply(d, m, all, base, r, p); }
    }
    AllKeep(holds, base, down, marks, replied, replies);
  }

  lemma OneMoreReply(down: seq<Frame>, marks: seq<nat>, replied: seq<Payload>, base: seqno, r: nat, p: Payload)
    requires Marked(down, marks, replied, base, r) && r <= |replied|
    ensures Marked(down + [Data(Next(Number(base, |replied|)), p)], marks + [|replied|], replied + [p], base, r)
  {
    MarkedLonger(down, marks, replied, p, base, r);
    MarkedMore(down, marks, Data(Next(Number(base, |replied|)), p), |replied|, replied + [p], base, r);
  }

  /** Frames that are no data concern nobody here. */
  lemma {:induction false} MarkedOthers(down: seq<Frame>, marks: seq<nat>, sent: seq<Frame>, replied: seq<Payload>, base: seqno, r: nat)
    requires Marked(down, marks, replied, base, r) && |sent| <= 1 && (sent != [] ==> !sent[0].Data?)
    ensures Marked(down + sent, marks + MarksOf(sent, |replied|), replied, base, r) && PayloadsOf(sent) == []
  {
    if sent == [] {
      assert down + sent == down && marks + MarksOf(sent, |replied|) == marks;
    } else {
      MarkedMore(down, marks, sent[0], |replied|, replied, base, r);
      assert sent == [sent[0]] && sent[1..] == [];
      assert MarksOf(sent, |replied|) == [|replied|] + MarksOf(sent[1..], |replied|);
      assert MarksOf(sent, |replied|) == [|replied|];
    }
  }

  // ---- step by step ----

  /** The client is not 256 replies behind. */
  predicate NotFarBehind(t: Traced) {
    |t.replied| < |t.sys.client.receiving.received| + 256
  }

  lemma TracingInitially(s: Sys)
    requires Initial(s)
    ensures Tracing(Traced(s, [], []))
  {
  }

  /** An acknowledgement, then the replies. */
  lemma AckThenReplies(down: seq<Frame>, marks: seq<nat>, replied: seq<Payload>, base: seqno, r: nat, ack: Frame, replies: seq<Payload>)
    requires Marked(down, marks, replied, base, r) && r <= |replied| && ack.Ack?
    ensures var sent := [ack] + Numbered(Number(base, |replied|), replies);
            Marked(down + sent, marks + MarksOf(sent, |replied|), replied + replies, base, r) && PayloadsOf(sent) == replies
  {
    var k, more := |replied|, Numbered(Number(base, |replied|), replies);
    MarkedMore(down, marks, ack, k, replied, base, r);
    MarkedReplies(down + [ack], marks + [k], replied, base, r, replies);
    NumberedReplies(Number(base, k), replies);
    assert ([ack] + more)[1..] == more;
    Bytes.Assoc(down, [ack], more);
    Bytes.Assoc(marks, [k], MarksOf(more, k));
  }

  lemma ServeTraced(t: Traced, replies: seq<Payload>)
    requires Inv(t.sys) && Tracing(t) && Enabled(t.sys, ServerReceives(replies))
    ensures Tracing(DoTraced(t, ServerReceives(replies)))
  {
    var s, f, r := t.sys, t.sys.up[0], |t.sys.client.receiving.received|;
    if !s.session.closed && f.Data? && f.number == Next(s.session.recvSequence) && f.number != s.session.recvSequence {
      AckThenReplies(s.down, t.marks, t.replied, s.base, r, Ack(s.session.connectionId, f.number), replies);
      NumberAfterAll(s.base, |t.replied|, |replies|);
      ResponsesNumbered(s.session.(recvSequence := f.number, delivered := s.session.delivered + [f.payload]), replies);
      assert s.linked;
    } else {
      MarkedOthers(s.down, t.marks, ServeFrame(s.session, f, replies).1, t.replied, s.base, r);
      assert t.replied + [] == t.replied;
    }
  }

  /** Beyond connecting, a frame changes what was received only by being the next reply. */
  lemma HeardExactly(c: Client, f: Frame, late: bool)
    requires c.state != Connecting
    ensures var r, d := c.receiving, Hear(c, Whole(f, late)).receiving;
            || (d.received == r.received && d.recvSequence == r.recvSequence)
            || (f.Data? && f.number == Next(r.recvSequence) && d.received == r.received + [f.payload] && d.recvSequence == f.number)
  {
  }

  /** The next reply is the one behind those received. */
  lemma NextIsNext(down: seq<Frame>, marks: seq<nat>, replied: seq<Payload>, base: seqno, received: seq<Payload>)
    requires Marked(down, marks, replied, base, |received|) && down != [] && down[0].Data?
    requires received <= replied && |replied| < |received| + 256 && down[0].number == Next(Number(base, |received|))
    ensures received + [down[0].payload] <= replied && down[0].number == Number(base, |received| + 1)
    ensures Marked(down[1..], marks[1..], replied, base, |received| + 1)
  {
    assert Carries(down[0], marks[0], replied, base, |received|);
    NumbersApart(base, marks[0], |received|);
    MarkedTaken(down, marks, replied, base, |received|);
  }

  lemma HearTraced(t: Traced, late: bool)
    requires Inv(t.sys) && Tracing(t) && Enabled(t.sys, ClientReceives(late)) && NotFarBehind(t)
    ensures Tracing(DoTraced(t, ClientReceives(late)))
  {
    var s := t.sys;
    MarkedRest(s.down, t.marks, t.replied, s.base, |s.client.receiving.received|);
    if s.linked {
      HeardExactly(s.client, s.down[0], late);
      if Hear(s.client, Whole(s.down[0], late)).receiving.received != s.client.receiving.received {
        NextIsNext(s.down, t.marks, t.replied, s.base, s.client.receiving.received);
      }
    }
  }

  lemma LineTraced(t: Traced, step: Step)
    requires Tracing(t) && Enabled(t.sys, step) && (step.LoseDown? || step.RepeatDown?)
    ensures Tracing(DoTraced(t, step))
  {
    MarkedCut(t.sys.down, t.marks, step.at, t.replied, t.sys.base, |t.sys.client.receiving.received|);
    MarkedDoubled(t.sys.down, t.marks, step.at, t.replied, t.sys.base, |t.sys.client.receiving.received|);
  }

  lemma TracingKept(t: Traced, step: Step)
    requires Inv(t.sys) && Tracing(t) && Enabled(t.sys, step) && NotFarBehind(t)
    ensures Tracing(DoTraced(t, step))
  {
    match step
    case ServerReceives(replies) => ServeTraced(t, replies);
    case ClientReceives(late) => HearTraced(t, late);
    case LoseDown(_) => LineTraced(t, step);
    case RepeatDown(_) => LineTraced(t, step);
    case _ => OthersKeepReceiving(t.sys, step);
  }

  lemma OthersKeepReceiving(s: Sys, step: Step)
    requires Enabled(s, step) && !step.ServerReceives? && !step.ClientReceives? && !step.LoseDown? && !step.RepeatDown?
    ensures var u := Do(s, step);
            && u.session == s.session && u.down == s.down && u.base == s.base && u.linked == s.linked
            && u.client.receiving.received == s.client.receiving.received
            && u.client.receiving.recvSequence == s.client.receiving.recvSequence
  {
  }

  // ---- whole runs ----

  /** The state with its history, and at no point 256 replies behind. */
  predicate KeepsUp(t: Traced, steps: seq<Step>)
    requires |t.marks| == |t.sys.down| && AllEnabled(t.sys, steps)
    decreases |steps|
  {
    steps == [] || (NotFarBehind(t) && KeepsUp(DoTraced(t, steps[0]), steps[1..]))
  }

  function RunTraced(t: Traced, steps: seq<Step>): Traced
    requires |t.marks| == |t.sys.down| && AllEnabled(t.sys, steps)
    decreases |steps|
  {
    if steps == [] then t else RunTraced(DoTraced(t, steps[0]), steps[1..])
  }

  lemma {:induction false} TracingAlways(t: Traced, steps: seq<Step>)
    requires Inv(t.sys) && Tracing(t) && AllEnabled(t.sys, steps) && KeepsUp(t, steps)
    ensures Tracing(RunTraced(t, steps)) && RunTraced(t, steps).sys == Run(t.sys, steps)
    decreases |steps|
  {
    if steps != [] {
      TracingKept(t, steps[0]);
      InvKept(t.sys, steps[0]);
      TracingAlways(DoTraced(t, steps[0]), steps[1..]);
    }
  }

  /**
   * Over every run, with frames lost and repeated on both lines and dropped for want of a buffer, in which the client is
   * never 256 replies behind: it has handed on a prefix of the replies the server wrote, each once and in order.
   */
  lemma RepliesInOrder(start: Sys, steps: seq<Step>)
    requires Initial(start) && AllEnabled(start, steps) && KeepsUp(Traced(start, [], []), steps)
    ensures var t := RunTraced(Traced(start, [], []), steps);
            t.sys == Run(start, steps) && t.sys.client.receiving.received <= t.replied
  {
    InvInitially(start);
    TracingInitially(start);
    TracingAlways(Traced(start, [], []), steps);
  }

  // ---- 256 behind is too far ----

  lemma {:induction false} FirstLost(s: Sys, last: seqno, replies: seq<Payload>, n: nat) returns (steps: seq<Step>)
    requires s.down == Numbered(last, replies) && n <= |replies|
    ensures AllEnabled(s, steps) && Run(s, steps) == s.(down := Numbered(NumberAfter(last, n), replies[n..]))
    decreases n
  {
    if n == 0 {
      steps := [];
      assert replies[0..] == replies;
    } else {
      var t := Do(s, LoseDown(0));
      assert t.down == Numbered(Next(last), replies[1..]) && t == s.(down := t.down);
      var more := FirstLost(t, Next(last), replies[1..], n - 1);
      assert replies[1..][n - 1..] == replies[n..];
      RunCons(s, LoseDown(0), more);
      steps := [LoseDown(0)] + more;
    }
  }

  lemma WholeTurns(b: seqno, turns: nat)
    ensures Number(b, 256 * turns) == b
  {
    NumberMod(b, 256 * turns);
  }

  lemma NumberedOne(last: seqno, r: Payload)
    ensures Numbered(last, [r]) == [Data(Next(last), r)]
  {
    assert [r][1..] == [];
  }

  /** After whole turns of lost replies the next one has the number of the first. */
  lemma NextHasFirstNumber(last: seqno, replies: seq<Payload>, turns: nat, n: nat)
    requires |replies| == n + 1 && n == 256 * turns
    ensures Numbered(NumberAfter(last, n), replies[n..]) == [Data(Next(last), replies[n])]
  {
    assert NumberAfter(last, n) == last by {
      NumberAfterAll(last, 0, n);
      WholeTurns(last, turns);
    }
    assert replies[n..] == [replies[n]];
    NumberedOne(last, replies[n]);
  }

  lemma TakesTheLast(s: Sys, replies: seq<Payload>, turns: nat, n: nat) returns (steps: seq<Step>)
    requires s.client.state == Connected && s.client.receiving.bufferFree && |replies| == n + 1 && n == 256 * turns
    requires s.down == Numbered(s.client.receiving.recvSequence, replies)
    ensures AllEnabled(s, steps)
    ensures Run(s, steps).client.receiving.received == s.client.receiving.received + [replies[n]]
  {
    var last := s.client.receiving.recvSequence;
    var lost := FirstLost(s, last, replies, n);
    NextHasFirstNumber(last, replies, turns, n);
    TakesIt(Run(s, lost), replies[n]);
    RunConcat(s, lost, [ClientReceives(false)]);
    steps := lost + [ClientReceives(false)];
  }

  /** A request with 257 replies of which the first 256 are lost: the last one is taken for the first. */
  lemma LastTakenForFirst(s: Sys, p: Payload, replies: seq<Payload>) returns (steps: seq<Step>)
    requires Inv(s) && Quiet(s) && |replies| == 257
    ensures AllEnabled(s, steps)
    ensures Run(s, steps).client.receiving.received == s.client.receiving.received + [replies[256]]
  {
    var first := [Write(p), ServerReceives(replies), ClientReceives(false)];
    Exchange(s, p, replies, false);
    var more := TakesTheLast(Run(s, first), replies, 1, |replies| - 1);
    RunConcat(s, first, more);
    steps := first + more;
  }

  lemma TakesIt(s: Sys, r: Payload)
    requires s.client.state == Connected && s.client.receiving.bufferFree && s.down == [Data(Next(s.client.receiving.recvSequence), r)]
    ensures AllEnabled(s, [ClientReceives(false)])
    ensures Run(s, [ClientReceives(false)]).client.receiving.received == s.client.receiving.received + [r]
  {
    RunCons(s, ClientReceives(false), []);
  }
}
