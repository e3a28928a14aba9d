/** The session multiplexer of the gRPC repository client: many senders and one read loop share
    a map of pending requests, each with a channel of capacity one for its reply. The model is a
    state machine whose steps are the atomic actions of those goroutines, in any interleaving. */
module GrpcSession {
  import opened Wrappers

  type ReqId = nat
  type ChanId = nat

  datatype Msg = Response(id: ReqId, body: nat) | StreamBroken

  /** A channel of capacity one. sent is every message put on it, queue what was not received yet. */
  datatype Chan = Chan(queue: seq<Msg>, closed: bool, sent: seq<Msg>)

  /** Where a call of sendRequest is. */
  datatype Phase =
    | Waiting                // registered, waiting for the send mutex
    | Sending                // inside Send
    | SendFailed             // Send returned an error
    | Holding(ch: ChanId)    // has taken its channel back, to report the broken stream on it
    | Closing(ch: ChanId)    // has reported, about to close
    | Returned(sent: bool)   // has returned the channel; sent says whether Send succeeded

  datatype Sender = Sender(ch: ChanId, phase: Phase)

  /** Where the read loop is. While draining it holds the mutex of the pending requests. */
  datatype Reader =
    | Receiving
    | Delivering(id: ReqId, ch: ChanId, msg: Msg)
    | ClosingReply(id: ReqId, ch: ChanId)
    | BlockedForever // sending on the nil channel of an unknown request
    | Draining
    | DrainHolding(id: ReqId, ch: ChanId)
    | DrainClosing(id: ReqId, ch: ChanId)
    | Stopped(drainedAt: ReqId) // requests below drainedAt were registered before the drain ended

  datatype State = State(
    next: ReqId,
    active: map<ReqId, ChanId>,
    chans: map<ChanId, Chan>,
    senders: map<ReqId, Sender>,
    sendMutex: Option<ReqId>,
    reader: Reader,
    panicked: bool)

  datatype Step =
    | Register(ch: ChanId)
    | LockSend(id: ReqId)
    | SendOk(id: ReqId)
    | SendError(id: ReqId)
    | TakeBack(id: ReqId)
    | ReportBroken(id: ReqId)
    | CloseBroken(id: ReqId)
    | Recv(id: ReqId, body: nat)
    | Deliver
    | CloseReply
    | RecvError
    | DrainTake(id: ReqId)
    | DrainReport
    | DrainClose
    | DrainEnd
    | Consume(ch: ChanId)

  ghost const INITIAL := State(1, map[], map[], map[], None, Receiving, false)

  predicate MutexFree(s: State) {
    !(s.reader.Draining? || s.reader.DrainHolding? || s.reader.DrainClosing?)
  }

  /** Room for one more message; a send on a full channel waits. */
  predicate HasRoom(s: State, ch: ChanId) {
    ch in s.chans && |s.chans[ch].queue| < 1
  }

  ghost predicate Enabled(s: State, step: Step) {
    match step
    case Register(ch) => MutexFree(s) && ch !in s.chans
    case LockSend(id) => s.sendMutex == None && id in s.senders && s.senders[id].phase.Waiting?
    case SendOk(id) => id in s.senders && s.senders[id].phase.Sending?
    case SendError(id) => id in s.senders && s.senders[id].phase.Sending?
    case TakeBack(id) => MutexFree(s) && id in s.senders && s.senders[id].phase.SendFailed?
    case ReportBroken(id) => id in s.senders && s.senders[id].phase.Holding? && HasRoom(s, s.senders[id].phase.ch)
    case CloseBroken(id) => id in s.senders && s.senders[id].phase.Closing? && s.senders[id].phase.ch in s.chans
    case Recv(id, body) => s.reader.Receiving?
    case Deliver => s.reader.Delivering? && HasRoom(s, s.reader.ch)
    case CloseReply => s.reader.ClosingReply? && s.reader.ch in s.chans
    case RecvError => s.reader.Receiving?
    case DrainTake(id) => s.reader.Draining? && id in s.active
    case DrainReport => s.reader.DrainHolding? && HasRoom(s, s.reader.ch)
    case DrainClose => s.reader.DrainClosing? && s.reader.ch in s.chans
    case DrainEnd => s.reader.Draining? && s.active == map[]
    case Consume(ch) => ch in s.chans && s.chans[ch].queue != []
  }

  function SetPhase(s: State, id: ReqId, p: Phase): State
    requires id in s.senders
  {
    s.(senders := s.senders[id := s.senders[id].(phase := p)])
  }

  /** ch <- m; panics on a closed channel. */
  function Put(s: State, ch: ChanId, m: Msg): State
    requires ch in s.chans
  {
    var c := s.chans[ch];
    s.(chans := s.chans[ch := c.(queue := c.queue + [m], sent := c.sent + [m])],
       panicked := s.panicked || c.closed)
  }

  /** close(ch); panics on a closed channel. */
  function Close(s: State, ch: ChanId): State
    requires ch in s.chans
  {
    s.(chans := s.chans[ch := s.chans[ch].(closed := true)], panicked := s.panicked || s.chans[ch].closed)
  }

  ghost function Apply(s: State, step: Step): State
    requires Enabled(s, step)
  {
    match step
    case Register(ch) =>
      s.(next := s.next + 1,
         active := s.active[s.next := ch],
         chans := s.chans[ch := Chan([], false, [])],
         senders := s.senders[s.next := Sender(ch, Waiting)])
    case LockSend(id) => SetPhase(s, id, Sending).(sendMutex := Some(id))
    case SendOk(id) => SetPhase(s, id, Returned(true)).(sendMutex := None)
    case SendError(id) => SetPhase(s, id, SendFailed)
    case TakeBack(id) =>
      if id in s.active then SetPhase(s, id, Holding(s.active[id])).(active := s.active - {id})
      else SetPhase(s, id, Returned(false)).(sendMutex := None)
    case ReportBroken(id) =>
      var ch := s.senders[id].phase.ch;
      SetPhase(Put(s, ch, StreamBroken), id, Closing(ch))
    case CloseBroken(id) =>
      SetPhase(Close(s, s.senders[id].phase.ch), id, Returned(false)).(sendMutex := None)
    case Recv(id, body) =>
      if id in s.active then
        s.(active := s.active - {id}, reader := Delivering(id, s.active[id], Response(id, body)))
      else s.(reader := BlockedForever)
    case Deliver => Put(s, s.reader.ch, s.reader.msg).(reader := ClosingReply(s.reader.id, s.reader.ch))
    case CloseReply => Close(s, s.reader.ch).(reader := Receiving)
    case RecvError => s.(reader := Draining)
    case DrainTake(id) => s.(active := s.active - {id}, reader := DrainHolding(id, s.active[id]))
    case DrainReport => Put(s, s.reader.ch, StreamBroken).(reader := DrainClosing(s.reader.id, s.reader.ch))
    case DrainClose => Close(s, s.reader.ch).(reader := Draining)
    case DrainEnd => s.(reader := Stopped(s.next))
    case Consume(ch) => s.(chans := s.chans[ch := s.chans[ch].(queue := s.chans[ch].queue[1..])])
  }

  // ---- The invariant: every request is in exactly one place ----

  predicate WithReader(s: State, id: ReqId) {
    (s.reader.Delivering? || s.reader.ClosingReply? || s.reader.DrainHolding? || s.reader.DrainClosing?) &&
      s.reader.id == id
  }

  predicate ReaderHasPut(s: State) {
    s.reader.ClosingReply? || s.reader.DrainClosing?
  }

  predicate WithSender(s: State, id: ReqId)
    requires id in s.senders
  {
    s.senders[id].phase.Holding? || s.senders[id].phase.Closing?
  }

  /** How many of the four places the request is in: pending, held by the read loop,
      held by its own sender, or answered. */
  function Places(s: State, id: ReqId, c: Chan): nat
    requires id in s.senders
  {
    (if id in s.active then 1 else 0) + (if WithReader(s, id) then 1 else 0)
    + (if WithSender(s, id) then 1 else 0) + (if c.closed then 1 else 0)
  }

  /** How many messages its channel has been sent in that place. */
  function SentCount(s: State, id: ReqId, c: Chan): nat
    requires id in s.senders
  {
    if c.closed || (WithReader(s, id) && ReaderHasPut(s)) || s.senders[id].phase.Closing? then 1 else 0
  }

  /** The request's reply has been sent and its channel closed. */
  ghost predicate Answered(s: State, id: ReqId)
    requires id in s.senders
  {
    s.senders[id].ch in s.chans && s.chans[s.senders[id].ch].closed
  }

  ghost predicate RightMessage(id: ReqId, m: Msg) {
    m.Response? ==> m.id == id
  }

  ghost predicate RequestOk(s: State, id: ReqId)
    requires id in s.senders
  {
    var ch := s.senders[id].ch;
    && ch in s.chans
    && var c := s.chans[ch];
    && Places(s, id, c) == 1
    && |c.sent| == SentCount(s, id, c)
    && (c.queue == [] || c.queue == c.sent)
    && (forall m :: m in c.sent ==> RightMessage(id, m))
    && (id in s.active ==> s.active[id] == ch)
    && (WithReader(s, id) ==> s.reader.ch == ch)
    && (WithReader(s, id) && s.reader.Delivering? ==> RightMessage(id, s.reader.msg))
    && (WithSender(s, id) ==> s.senders[id].phase.ch == ch)
  }

  /** Once the drain is over, only later requests can be pending, and those stay
      pending until their own sender takes them back. */
  ghost predicate AfterDrain(s: State, id: ReqId)
    requires id in s.senders
  {
    var p := s.senders[id].phase;
    s.reader.Stopped? ==>
      (id in s.active <==>
         s.reader.drainedAt <= id && (p.Waiting? || p.Sending? || p.SendFailed? || p == Returned(true)))
  }

  ghost predicate SendMutexOk(s: State, id: ReqId)
    requires id in s.senders
  {
    var p := s.senders[id].phase;
    s.sendMutex == Some(id) <==> p.Sending? || p.SendFailed? || p.Holding? || p.Closing?
  }

  /** Request numbers are handed out in order, and no two requests share a channel. */
  ghost predicate DomainsOk(s: State) {
    && 1 <= s.next
    && (forall id: ReqId :: id in s.senders <==> 1 <= id < s.next)
    && (forall id :: id in s.active ==> id in s.senders)
    && (forall id :: WithReader(s, id) ==> id in s.senders)
    && (forall id, id' :: id in s.senders && id' in s.senders && s.senders[id].ch == s.senders[id'].ch ==> id == id')
    && (s.sendMutex.Some? ==> s.sendMutex.value in s.senders)
    && (s.reader.Stopped? ==> s.reader.drainedAt <= s.next)
  }

  ghost predicate Inv(s: State) {
    !s.panicked && DomainsOk(s) && EachOk(s)
  }

  /** Other steps than a registration hand out no numbers and move no channels. */
  lemma StepFrame(s: State, step: Step)
    requires Enabled(s, step) && !step.Register?
    ensures var s' := Apply(s, step);
            && s'.next == s.next && s'.senders.Keys == s.senders.Keys && s'.active.Keys <= s.active.Keys
            && (forall id :: id in s.senders ==> s'.senders[id].ch == s.senders[id].ch)
  {}

  lemma StepFrameReader(s: State, step: Step)
    requires Enabled(s, step) && !step.Register?
    ensures var s' := Apply(s, step);
            && (forall id :: WithReader(s', id) ==> WithReader(s, id) || id in s.active)
            && (s'.sendMutex.Some? ==> s'.sendMutex == s.sendMutex || s'.sendMutex.value in s.senders)
            && (s'.reader.Stopped? ==> s.reader == s'.reader || s'.reader.drainedAt == s.next)
  {}

  lemma {:induction false} StepKeepsDomains(s: State, step: Step)
    requires DomainsOk(s) && Enabled(s, step)
    requires forall id :: id in s.senders ==> s.senders[id].ch in s.chans
    ensures DomainsOk(Apply(s, step))
  {
    if !step.Register? {
      StepFrame(s, step);
      StepFrameReader(s, step);
    }
  }

  /** What holds of each request. */
  ghost predicate EachOk(s: State) {
    forall id :: id in s.senders ==> RequestOk(s, id) && AfterDrain(s, id) && SendMutexOk(s, id)
  }

  lemma {:induction false} RegisterKeeps(s: State, ch: ChanId)
    requires Inv(s) && Enabled(s, Register(ch))
    ensures EachOk(Apply(s, Register(ch)))
  {
    var s' := Apply(s, Register(ch));
    assert s.next !in s.senders && !WithReader(s, s.next);
    forall id | id in s'.senders ensures RequestOk(s', id) && AfterDrain(s', id) && SendMutexOk(s', id) {
      if id != s.next {
        assert RequestOk(s, id) && AfterDrain(s, id) && SendMutexOk(s, id);
      }
    }
  }

  lemma {:induction false} SenderKeeps(s: State, step: Step)
    requires Inv(s) && Enabled(s, step)
    requires IsSenderStep(step)
    ensures EachOk(Apply(s, step))
  {
    var s' := Apply(s, step);
    forall id | id in s'.senders ensures RequestOk(s', id) && AfterDrain(s', id) && SendMutexOk(s', id) {
      assert RequestOk(s, id) && AfterDrain(s, id) && SendMutexOk(s, id);
    }
  }

  lemma {:induction false} ReaderKeeps(s: State, step: Step)
    requires Inv(s) && Enabled(s, step)
    requires step.Recv? || step.RecvError? || step.DrainTake? || step.DrainEnd?
    ensures EachOk(Apply(s, step))
  {
    var s' := Apply(s, step);
    forall id | id in s'.senders ensures RequestOk(s', id) && AfterDrain(s', id) && SendMutexOk(s', id) {
      assert RequestOk(s, id) && AfterDrain(s, id) && SendMutexOk(s, id);
    }
  }

  lemma {:induction false} ConsumeKeeps(s: State, ch: ChanId)
    requires Inv(s) && Enabled(s, Consume(ch))
    ensures EachOk(Apply(s, Consume(ch)))
  {
    var s' := Apply(s, Consume(ch));
    forall id | id in s'.senders ensures RequestOk(s', id) && AfterDrain(s', id) && SendMutexOk(s', id) {
      assert RequestOk(s, id) && AfterDrain(s, id) && SendMutexOk(s, id);
    }
  }

  lemma {:induction false} ReplyKeeps(s: State, step: Step)
    requires Inv(s) && Enabled(s, step)
    requires step.Deliver? || step.CloseReply? || step.DrainReport? || step.DrainClose?
    ensures EachOk(Apply(s, step))
  {
    var s' := Apply(s, step);
    assert WithReader(s, s.reader.id);
    assert RequestOk(s, s.reader.id);
    forall id | id in s'.senders ensures RequestOk(s', id) && AfterDrain(s', id) && SendMutexOk(s', id) {
      assert RequestOk(s, id) && AfterDrain(s, id) && SendMutexOk(s, id);
    }
  }

  /** A send on a channel, or a close of it, is only made by the goroutine that holds it. */
  lemma {:induction false} NoPanic(s: State, step: Step)
    requires Inv(s) && Enabled(s, step)
    ensures !Apply(s, step).panicked
  {
    if step.ReportBroken? || step.CloseBroken? {
      assert RequestOk(s, step.id);
    }
    if step.Deliver? || step.CloseReply? || step.DrainReport? || step.DrainClose? {
      assert WithReader(s, s.reader.id);
      assert RequestOk(s, s.reader.id);
    }
  }

  lemma {:induction false} StepKeepsEach(s: State, step: Step)
    requires Inv(s) && Enabled(s, step)
    ensures EachOk(Apply(s, step))
  {
    if step.Register? {
      RegisterKeeps(s, step.ch);
    } else if IsSenderStep(step) {
      SenderKeeps(s, step);
    } else if step.Deliver? || step.CloseReply? || step.DrainReport? || step.DrainClose? {
      ReplyKeeps(s, step);
    } else if step.Consume? {
      ConsumeKeeps(s, step.ch);
    } else {
      ReaderKeeps(s, step);
    }
  }

  lemma {:induction false} StepKeepsInv(s: State, step: Step)
    requires Inv(s) && Enabled(s, step)
    ensures Inv(Apply(s, step))
  {
    NoPanic(s, step);
    StepKeepsEach(s, step);
    forall id | id in s.senders ensures s.senders[id].ch in s.chans {
      assert RequestOk(s, id);
    }
    StepKeepsDomains(s, step);
  }

  // ---- Whole runs ----

  ghost predicate IsRun(steps: seq<Step>)
    decreases |steps|, 0
  {
    steps != [] ==>
      var n := |steps| - 1;
      IsRun(steps[..n]) && Enabled(After(steps[..n]), steps[n])
  }

  /** The state after a run, from the state a session starts in. */
  ghost function After(steps: seq<Step>): State
    requires IsRun(steps)
    decreases |steps|, 1
  {
    if steps == [] then INITIAL
    else var n := |steps| - 1; Apply(After(steps[..n]), steps[n])
  }

  lemma {:induction false} RunKeepsInv(steps: seq<Step>)
    requires IsRun(steps)
    ensures Inv(After(steps))
    decreases |steps|
  {
    if steps != [] {
      var n := |steps| - 1;
      RunKeepsInv(steps[..n]);
      StepKeepsInv(After(steps[..n]), steps[n]);
    }
  }

  /** At most one message ever reaches a request's channel, it answers that request or reports a
      broken stream, and the channel is closed at most once: a second close, or a send after
      the close, would panic. */
  lemma {:induction false} AtMostOneReply(steps: seq<Step>, id: ReqId)
    requires IsRun(steps) && id in After(steps).senders
    ensures var s := After(steps);
            var ch := s.senders[id].ch;
            && !s.panicked
            && ch in s.chans && |s.chans[ch].sent| <= 1
            && (s.chans[ch].closed ==> |s.chans[ch].sent| == 1)
            && (forall m :: m in s.chans[ch].sent ==> m == StreamBroken || (m.Response? && m.id == id))
            && (s.chans[ch].queue == [] || s.chans[ch].queue == s.chans[ch].sent)
  {
    RunKeepsInv(steps);
    assert RequestOk(After(steps), id);
  }

  /** Each request is pending, held by exactly one goroutine, or answered. */
  lemma {:induction false} ExactlyOnePlace(steps: seq<Step>, id: ReqId)
    requires IsRun(steps)
    ensures var s := After(steps);
            1 <= id < s.next ==>
              && id in s.senders && s.senders[id].ch in s.chans
              && Places(s, id, s.chans[s.senders[id].ch]) == 1
  {
    RunKeepsInv(steps);
    var s := After(steps);
    if 1 <= id < s.next {
      assert RequestOk(s, id);
    }
  }

  /** Outside Recv the read loop can always go on: its sends never wait for room, and the drain
      always has a request to take or is over. */
  lemma {:induction false} ReaderNeverBlocks(steps: seq<Step>)
    requires IsRun(steps)
    ensures var s := After(steps);
            && (s.reader.Delivering? ==> Enabled(s, Deliver))
            && (s.reader.ClosingReply? ==> Enabled(s, CloseReply))
            && (s.reader.DrainHolding? ==> Enabled(s, DrainReport))
            && (s.reader.DrainClosing? ==> Enabled(s, DrainClose))
            && (s.reader.Draining? ==> Enabled(s, DrainEnd) || exists id :: Enabled(s, DrainTake(id)))
  {
    RunKeepsInv(steps);
    var s := After(steps);
    if s.reader.Draining? && s.active != map[] {
      var id :| id in s.active;
      assert Enabled(s, DrainTake(id));
    }
    HeldHasRoom(s);
  }

  lemma {:induction false} HeldHasRoom(s: State)
    requires Inv(s)
    ensures s.reader.Delivering? || s.reader.DrainHolding? ==> HasRoom(s, s.reader.ch)
    ensures s.reader.ClosingReply? || s.reader.DrainClosing? ==> s.reader.ch in s.chans
  {
    if s.reader.Delivering? || s.reader.ClosingReply? || s.reader.DrainHolding? || s.reader.DrainClosing? {
      assert WithReader(s, s.reader.id);
      assert RequestOk(s, s.reader.id);
    }
  }

  /** A sender that has taken its channel back can always report on it and close it. */
  lemma {:induction false} SenderNeverBlocks(steps: seq<Step>, id: ReqId)
    requires IsRun(steps) && id in After(steps).senders
    ensures var s := After(steps);
            && (s.senders[id].phase.Holding? ==> Enabled(s, ReportBroken(id)))
            && (s.senders[id].phase.Closing? ==> Enabled(s, CloseBroken(id)))
  {
    RunKeepsInv(steps);
    assert RequestOk(After(steps), id);
  }

  /** Exactly what hangs the read loop: a message for a request that is unknown, already
      answered, or being failed by its own sender. */
  lemma {:induction false} RecvBlocksIff(steps: seq<Step>, id: ReqId, body: nat)
    requires IsRun(steps) && After(steps).reader.Receiving?
    ensures var s := After(steps);
            Apply(s, Recv(id, body)).reader.BlockedForever? <==>
              id !in s.senders || WithSender(s, id) || Answered(s, id)
  {
    RunKeepsInv(steps);
    var s := After(steps);
    if id in s.senders {
      assert RequestOk(s, id);
    }
  }

  /** After the drain a request is pending iff it was registered later and its sender has not
      taken it back: its Send is still to come, in progress or about to be reported, or succeeded. */
  lemma {:induction false} PendingAfterDrain(steps: seq<Step>, id: ReqId)
    requires IsRun(steps) && After(steps).reader.Stopped?
    ensures var s := After(steps);
            id in s.active <==>
              && id in s.senders && s.reader.drainedAt <= id
              && var p := s.senders[id].phase; p.Waiting? || p.Sending? || p.SendFailed? || p == Returned(true)
  {
    RunKeepsInv(steps);
    var s := After(steps);
    if id in s.senders {
      assert AfterDrain(s, id);
    }
  }

  /** So when every call has returned and every Send after the drain failed, nothing is pending
      and each request has had exactly one reply. */
  lemma {:induction false} AllAnswered(steps: seq<Step>)
    requires IsRun(steps) && After(steps).reader.Stopped?
    requires var s := After(steps);
             forall id :: id in s.senders ==>
               s.senders[id].phase.Returned? && (s.senders[id].phase.sent ==> id < s.reader.drainedAt)
    ensures var s := After(steps);
            && s.active == map[]
            && forall id :: id in s.senders ==> Answered(s, id) && |s.chans[s.senders[id].ch].sent| == 1
  {
    RunKeepsInv(steps);
    var s := After(steps);
    forall id | id in s.active ensures false {
      PendingAfterDrain(steps, id);
    }
    forall id | id in s.senders ensures Answered(s, id) && |s.chans[s.senders[id].ch].sent| == 1 {
      assert RequestOk(s, id);
    }
  }

  /** A step never takes back what was sent, or reopens a channel. */
  lemma StepKeepsReplies(s: State, step: Step)
    requires Enabled(s, step)
    ensures var s' := Apply(s, step);
            forall ch :: ch in s.chans ==>
              ch in s'.chans && s.chans[ch].sent <= s'.chans[ch].sent && (s.chans[ch].closed ==> s'.chans[ch].closed)
  {}

  /** A reply, once given, is the reply for the rest of the run. */
  lemma {:induction false} ReplyIsFinal(steps: seq<Step>, n: nat, id: ReqId)
    requires IsRun(steps) && n <= |steps| && IsRun(steps[..n])
    requires id in After(steps[..n]).senders
    ensures var s, s' := After(steps[..n]), After(steps);
            var ch := s.senders[id].ch;
            && id in s'.senders && s'.senders[id].ch == ch
            && ch in s.chans && ch in s'.chans
            && s.chans[ch].sent <= s'.chans[ch].sent
            && (s.chans[ch].closed ==> s'.chans[ch] .closed && s'.chans[ch].sent == s.chans[ch].sent)
    decreases |steps|
  {
    AtMostOneReply(steps[..n], id);
    if n == |steps| {
      assert steps[..n] == steps;
    } else {
      var init := steps[..|steps| - 1];
      assert init[..n] == steps[..n];
      ReplyIsFinal(init, n, id);
      RunKeepsInv(init);
      StepKeepsReplies(After(init), steps[|steps| - 1]);
      if !steps[|steps| - 1].Register? {
        StepFrame(After(init), steps[|steps| - 1]);
      }
      AtMostOneReply(steps, id);
    }
  }

  // ---- Which message a request gets ----

  /** The message received for the request is being delivered to its channel, or was. */
  ghost predicate Replied(s: State, id: ReqId, m: Msg) {
    && id in s.senders && s.senders[id].ch in s.chans
    && (s.reader == Delivering(id, s.senders[id].ch, m) || s.chans[s.senders[id].ch].sent == [m])
  }

  lemma {:induction false} RepliedStep(s: State, step: Step, id: ReqId, m: Msg)
    requires Inv(s) && Enabled(s, step) && Replied(s, id, m)
    ensures Replied(Apply(s, step), id, m)
  {
    var s' := Apply(s, step);
    StepKeepsInv(s, step);
    StepKeepsReplies(s, step);
    SameSender(s, step, id);
    assert RequestOk(s, id) && RequestOk(s', id);
    if s.reader == Delivering(id, s.senders[id].ch, m) {
      DeliveringStep(s, step);
    }
  }

  /** A delivery stays under way until its message is on the channel. */
  lemma {:induction false} DeliveringStep(s: State, step: Step)
    requires Inv(s) && Enabled(s, step) && s.reader.Delivering? && s.reader.ch in s.chans
    ensures Apply(s, step).reader == s.reader ||
            (s.reader.ch in Apply(s, step).chans && s.reader.msg in Apply(s, step).chans[s.reader.ch].sent)
  {}

  /** The message that the read loop receives for a pending request is the one that its channel gets. */
  lemma {:induction false} ReceivedIsDelivered(steps: seq<Step>, n: nat, id: ReqId, body: nat)
    requires IsRun(steps) && n < |steps| && IsRun(steps[..n])
    requires steps[n] == Recv(id, body) && id in After(steps[..n]).active
    ensures Replied(After(steps), id, Response(id, body))
    decreases |steps|
  {
    var last := |steps| - 1;
    RunKeepsInv(steps[..last]);
    if n == last {
      assert RequestOk(After(steps[..n]), id);
    } else {
      assert steps[..last][..n] == steps[..n];
      ReceivedIsDelivered(steps[..last], n, id, body);
      RepliedStep(After(steps[..last]), steps[last], id, Response(id, body));
    }
  }

  /** Step n of the run is what the message goes back to: it was received for the pending request, or
      the request could not be sent, or the stream broke. */
  ghost predicate CausedAt(steps: seq<Step>, n: nat, id: ReqId, m: Msg) {
    && n < |steps|
    && match m
       case Response(i, body) =>
         i == id && steps[n] == Recv(id, body) && IsRun(steps[..n]) && id in After(steps[..n]).active
       case StreamBroken => steps[n] == SendError(id) || steps[n] == RecvError
  }

  ghost predicate Caused(steps: seq<Step>, id: ReqId, m: Msg) {
    exists n: nat :: CausedAt(steps, n, id, m)
  }

  lemma {:induction false} CausedLater(steps: seq<Step>, step: Step, id: ReqId, m: Msg)
    requires Caused(steps, id, m)
    ensures Caused(steps + [step], id, m)
  {
    var n: nat :| CausedAt(steps, n, id, m);
    assert (steps + [step])[..n] == steps[..n];
    assert CausedAt(steps + [step], n, id, m);
  }

  predicate Failing(p: Phase) {
    p.SendFailed? || p.Holding? || p.Closing?
  }

  /** Every message on the request's channel has its cause, and so has each one about to be sent. */
  ghost predicate Traced(steps: seq<Step>, s: State, id: ReqId) {
    id in s.senders ==>
      && (s.senders[id].ch in s.chans ==> forall m :: m in s.chans[s.senders[id].ch].sent ==> Caused(steps, id, m))
      && (s.reader.Delivering? && s.reader.id == id ==> Caused(steps, id, s.reader.msg))
      && (Failing(s.senders[id].phase) || !MutexFree(s) ==> Caused(steps, id, StreamBroken))
  }

  /** What a step can add to a request's channel. */
  lemma {:induction false} SentStep(s: State, step: Step, id: ReqId, m: Msg)
    requires Inv(s) && Enabled(s, step) && id in s.senders
    requires s.senders[id].ch in s.chans && m in Apply(s, step).chans[s.senders[id].ch].sent
    ensures || m in s.chans[s.senders[id].ch].sent
            || (s.reader.Delivering? && s.reader.id == id && s.reader.msg == m)
            || (m == StreamBroken && (Failing(s.senders[id].phase) || !MutexFree(s)))
  {
    if step.ReportBroken? {
      assert RequestOk(s, step.id);
    } else if step.Deliver? {
      assert WithReader(s, s.reader.id);
      assert RequestOk(s, s.reader.id);
    } else if !step.DrainReport? {
      OthersSendNothing(s, step, s.senders[id].ch);
    }
  }

  lemma {:induction false} OthersSendNothing(s: State, step: Step, ch: ChanId)
    requires Enabled(s, step) && !step.ReportBroken? && !step.Deliver? && !step.DrainReport? && ch in s.chans
    ensures ch in Apply(s, step).chans && Apply(s, step).chans[ch].sent == s.chans[ch].sent
  {}

  lemma {:induction false} SentTraced(steps: seq<Step>, step: Step, id: ReqId, m: Msg)
    requires IsRun(steps) && Inv(After(steps)) && Enabled(After(steps), step) && Traced(steps, After(steps), id)
    requires id in After(steps).senders && After(steps).senders[id].ch in After(steps).chans
    requires m in Apply(After(steps), step).chans[After(steps).senders[id].ch].sent
    ensures Caused(steps + [step], id, m)
  {
    SentStep(After(steps), step, id, m);
    CausedLater(steps, step, id, m);
  }

  /** A request starts with nothing on its channel. */
  lemma {:induction false} RegisteredTraced(steps: seq<Step>, s: State, ch: ChanId)
    requires Inv(s) && Enabled(s, Register(ch))
    ensures Traced(steps, Apply(s, Register(ch)), s.next)
  {
    assert !WithReader(s, s.next);
  }

  lemma {:induction false} TracedStep(steps: seq<Step>, step: Step, id: ReqId)
    requires IsRun(steps) && Inv(After(steps)) && Enabled(After(steps), step) && Traced(steps, After(steps), id)
    ensures Traced(steps + [step], Apply(After(steps), step), id)
  {
    var s, s' := After(steps), Apply(After(steps), step);
    if id !in s.senders {
      if step.Register? && id == s.next {
        RegisteredTraced(steps + [step], s, step.ch);
      }
      return;
    }
    assert RequestOk(s, id);
    SameSender(s, step, id);
    forall m | m in s'.chans[s.senders[id].ch].sent ensures Caused(steps + [step], id, m) {
      SentTraced(steps, step, id, m);
    }
    if s'.reader.Delivering? && s'.reader.id == id {
      DeliveryStep(steps, step, id);
    }
    if Failing(s'.senders[id].phase) || !MutexFree(s') {
      BrokenStep(steps, step, id);
    }
  }

  lemma {:induction false} SameSender(s: State, step: Step, id: ReqId)
    requires Inv(s) && Enabled(s, step) && id in s.senders
    ensures var s' := Apply(s, step);
            id in s'.senders && s'.senders[id].ch == s.senders[id].ch && s.senders[id].ch in s'.chans
  {
    assert RequestOk(s, id);
  }

  lemma {:induction false} DeliveryStep(steps: seq<Step>, step: Step, id: ReqId)
    requires IsRun(steps) && Inv(After(steps)) && Enabled(After(steps), step) && Traced(steps, After(steps), id)
    requires id in After(steps).senders
    requires var s' := Apply(After(steps), step); s'.reader.Delivering? && s'.reader.id == id
    ensures Caused(steps + [step], id, Apply(After(steps), step).reader.msg)
  {
    var s, steps' := After(steps), steps + [step];
    var m := Apply(s, step).reader.msg;
    if s.reader.Delivering? {
      CausedLater(steps, step, id, m);
    } else {
      assert steps'[..|steps|] == steps;
      assert CausedAt(steps', |steps|, id, m);
    }
  }

  lemma {:induction false} BrokenStep(steps: seq<Step>, step: Step, id: ReqId)
    requires IsRun(steps) && Inv(After(steps)) && Enabled(After(steps), step) && Traced(steps, After(steps), id)
    requires id in After(steps).senders && id in Apply(After(steps), step).senders
    requires var s' := Apply(After(steps), step); Failing(s'.senders[id].phase) || !MutexFree(s')
    ensures Caused(steps + [step], id, StreamBroken)
  {
    var s, steps' := After(steps), steps + [step];
    if Failing(s.senders[id].phase) || !MutexFree(s) {
      CausedLater(steps, step, id, StreamBroken);
    } else {
      assert step == SendError(id) || step == RecvError;
      assert CausedAt(steps', |steps|, id, StreamBroken);
    }
  }

  /** Nothing else ever reaches a channel: each message on it was received for that request while it
      was pending, or reports that its Send failed or that the stream broke. */
  lemma {:induction false} ReplyHasCause(steps: seq<Step>, id: ReqId)
    requires IsRun(steps)
    ensures Traced(steps, After(steps), id)
    decreases |steps|
  {
    if steps != [] {
      var n := |steps| - 1;
      ReplyHasCause(steps[..n], id);
      RunKeepsInv(steps[..n]);
      TracedStep(steps[..n], steps[n], id);
      assert steps[..n] + [steps[n]] == steps;
    }
  }

  /** The message is received from the channel. */
  ghost predicate Consumed(s: State, id: ReqId) {
    && id in s.senders && s.senders[id].ch in s.chans
    && var c := s.chans[s.senders[id].ch]; c.queue == [] && c.sent != []
  }

  lemma {:induction false} ConsumedStep(s: State, step: Step, id: ReqId)
    requires Inv(s) && Enabled(s, step) && Consumed(s, id)
    ensures Consumed(Apply(s, step), id)
  {
    SameSender(s, step, id);
    StepKeepsInv(s, step);
    StepKeepsReplies(s, step);
    assert RequestOk(s, id) && RequestOk(Apply(s, step), id);
    QueueStep(s, step, s.senders[id].ch);
  }

  /** Nothing is queued that is not also sent. */
  lemma {:induction false} QueueStep(s: State, step: Step, ch: ChanId)
    requires Enabled(s, step) && ch in s.chans
    ensures ch in Apply(s, step).chans
    ensures var c, c' := s.chans[ch], Apply(s, step).chans[ch]; c'.sent == c.sent ==> |c'.queue| <= |c.queue|
  {}

  /** What a caller receives is the one message sent, and it receives it once. */
  lemma {:induction false} ReceivedOnce(steps: seq<Step>, n: nat, id: ReqId)
    requires IsRun(steps) && n < |steps| && IsRun(steps[..n]) && id in After(steps[..n]).senders
    requires steps[n] == Consume(After(steps[..n]).senders[id].ch)
    ensures var s := After(steps[..n]);
            var ch := s.senders[id].ch;
            ch in s.chans && |s.chans[ch].sent| == 1 && s.chans[ch].queue == s.chans[ch].sent
    ensures Consumed(After(steps), id)
    decreases |steps|
  {
    var last := |steps| - 1;
    AtMostOneReply(steps[..n], id);
    RunKeepsInv(steps[..last]);
    if n < last {
      assert steps[..last][..n] == steps[..n];
      ReceivedOnce(steps[..last], n, id);
      ConsumedStep(After(steps[..last]), steps[last], id);
    }
  }

  /** Whoever holds a channel finds it open, with room for its one message until that is sent; so it
      never waits on it and never panics. */
  lemma {:induction false} HeldChannelIsOpen(steps: seq<Step>, id: ReqId)
    requires IsRun(steps)
    ensures var s := After(steps);
            WithReader(s, id) || (id in s.senders && WithSender(s, id)) ==>
              && id in s.senders && s.senders[id].ch in s.chans && !s.chans[s.senders[id].ch].closed
              && (WithReader(s, id) ==> s.reader.ch == s.senders[id].ch)
              && (WithReader(s, id) && !ReaderHasPut(s) ==> s.chans[s.senders[id].ch].queue == [])
              && (s.senders[id].phase.Holding? ==> s.chans[s.senders[id].ch].queue == [])
  {
    RunKeepsInv(steps);
    var s := After(steps);
    if id in s.senders {
      assert RequestOk(s, id);
    }
  }

  ghost predicate SentOk(steps: seq<Step>, s: State, id: ReqId) {
    id in s.senders ==>
      (s.senders[id].phase == Returned(true) <==> SendOk(id) in steps)
  }

  lemma {:induction false} SentStepOk(s: State, step: Step, id: ReqId)
    requires DomainsOk(s) && Enabled(s, step) && id in Apply(s, step).senders
    ensures Apply(s, step).senders[id].phase == Returned(true) <==>
            step == SendOk(id) || (id in s.senders && s.senders[id].phase == Returned(true))
  {
    if !step.Register? && !IsSenderStep(step) {
      OthersKeepPhase(s, step, id);
    }
  }

  predicate IsSenderStep(step: Step) {
    step.LockSend? || step.SendOk? || step.SendError? || step.TakeBack? || step.ReportBroken? || step.CloseBroken?
  }

  lemma {:induction false} OthersKeepPhase(s: State, step: Step, id: ReqId)
    requires Enabled(s, step) && !step.Register? && !IsSenderStep(step)
    ensures Apply(s, step).senders == s.senders
  {}

  lemma {:induction false} SentBySender(steps: seq<Step>, id: ReqId)
    requires IsRun(steps) && SendOk(id) in steps
    ensures id in After(steps).senders
    decreases |steps|
  {
    var n := |steps| - 1;
    if SendOk(id) in steps[..n] {
      SentBySender(steps[..n], id);
      RunKeepsInv(steps[..n]);
      SameSender(After(steps[..n]), steps[n], id);
    } else {
      assert steps == steps[..n] + [steps[n]];
    }
  }

  /** A call reports that its request was sent exactly if Send succeeded. */
  lemma {:induction false} SentIff(steps: seq<Step>, id: ReqId)
    requires IsRun(steps)
    ensures SentOk(steps, After(steps), id)
    decreases |steps|
  {
    if steps != [] {
      var n := |steps| - 1;
      SentIff(steps[..n], id);
      RunKeepsInv(steps[..n]);
      assert steps == steps[..n] + [steps[n]];
      if id in After(steps).senders {
        SentStepOk(After(steps[..n]), steps[n], id);
        if id !in After(steps[..n]).senders && SendOk(id) in steps[..n] {
          SentBySender(steps[..n], id);
        }
      }
    }
  }

  /** Two calls are never inside Send at the same time. */
  lemma {:induction false} SendsAreExclusive(steps: seq<Step>, id: ReqId, other: ReqId)
    requires IsRun(steps)
    requires var s := After(steps);
             id in s.senders && other in s.senders && s.senders[id].phase.Sending? && s.senders[other].phase.Sending?
    ensures id == other
  {
    RunKeepsInv(steps);
    assert SendMutexOk(After(steps), id) && SendMutexOk(After(steps), other);
  }

  /** A send waits on a channel that is not empty, and would panic on a closed one, as would closing it. */
  lemma {:induction false} ReaderChannelRules(s: State, step: Step)
    requires (step == Deliver || step == DrainReport || step == CloseReply || step == DrainClose) && Enabled(s, step)
    ensures step == Deliver || step == DrainReport ==> s.chans[s.reader.ch].queue == []
    ensures Apply(s, step).panicked <==> s.panicked || s.chans[s.reader.ch].closed
  {}

  lemma {:induction false} SenderChannelRules(s: State, step: Step, id: ReqId)
    requires (step == ReportBroken(id) || step == CloseBroken(id)) && Enabled(s, step)
    ensures step == ReportBroken(id) ==> s.chans[s.senders[id].phase.ch].queue == []
    ensures Apply(s, step).panicked <==> s.panicked || s.chans[s.senders[id].phase.ch].closed
  {}

  // ---- Every call returns ----

  /** The network decides: a Send can succeed or fail, and the stream can bring anything or break. */
  lemma {:induction false} EitherOutcome(s: State, id: ReqId, body: nat)
    ensures id in s.senders && s.senders[id].phase.Sending? ==> Enabled(s, SendOk(id)) && Enabled(s, SendError(id))
    ensures s.reader.Receiving? ==> Enabled(s, Recv(id, body)) && Enabled(s, RecvError)
  {}

  /** No deadlock: until a call has returned, some sender or the drain can go on. */
  lemma {:induction false} NoDeadlock(steps: seq<Step>, id: ReqId)
    requires IsRun(steps)
    requires id in After(steps).senders && !After(steps).senders[id].phase.Returned?
    ensures exists step :: Enabled(After(steps), step) && (IsSenderStep(step) || IsDrainStep(step))
  {
    RunKeepsInv(steps);
    var s := After(steps);
    if s.senders[id].phase.Waiting? {
      if s.sendMutex == None {
        assert Enabled(s, LockSend(id));
      } else {
        assert SendMutexOk(s, s.sendMutex.value);
        HolderGoesOn(steps, s.sendMutex.value);
      }
    } else {
      HolderGoesOn(steps, id);
    }
  }

  lemma {:induction false} HolderGoesOn(steps: seq<Step>, id: ReqId)
    requires IsRun(steps) && id in After(steps).senders
    requires var p := After(steps).senders[id].phase; p.Sending? || p.SendFailed? || p.Holding? || p.Closing?
    ensures exists step :: Enabled(After(steps), step) && (IsSenderStep(step) || IsDrainStep(step))
  {
    var s := After(steps);
    SenderNeverBlocks(steps, id);
    match s.senders[id].phase
    case Sending => assert Enabled(s, SendOk(id));
    case SendFailed =>
      if MutexFree(s) {
        assert Enabled(s, TakeBack(id));
      } else {
        ReaderNeverBlocks(steps);
        assert Enabled(s, DrainReport) || Enabled(s, DrainClose) || Enabled(s, DrainEnd) ||
               exists k :: Enabled(s, DrainTake(k));
      }
    case Holding(_) => assert Enabled(s, ReportBroken(id));
    case Closing(_) => assert Enabled(s, CloseBroken(id));
  }

  function PhaseWork(p: Phase): nat {
    match p
    case Waiting => 6
    case Sending => 5
    case SendFailed => 4
    case Holding(_) => 3
    case Closing(_) => 1
    case Returned(_) => 0
  }

  function ReaderWork(r: Reader): nat {
    match r
    case Receiving => 2
    case Delivering(_, _, _) => 5
    case ClosingReply(_, _) => 3
    case BlockedForever => 0
    case Draining => 1
    case DrainHolding(_, _) => 4
    case DrainClosing(_, _) => 2
    case Stopped(_) => 0
  }

  /** What is still to do for a request: by its sender, while it is pending, and to receive its reply. */
  function RequestWork(s: State, id: ReqId): nat {
    if id !in s.senders then 0
    else
      var ch := s.senders[id].ch;
      PhaseWork(s.senders[id].phase) + (if id in s.active then 4 else 0)
      + (if ch in s.chans then |s.chans[ch].queue| else 0)
  }

  function RequestsWork(s: State, n: nat): nat {
    if n == 0 then 0 else RequestsWork(s, n - 1) + RequestWork(s, n - 1)
  }

  /** An upper bound on the steps that remain, registrations aside. */
  function Work(s: State): nat {
    RequestsWork(s, s.next) + ReaderWork(s.reader)
  }

  lemma {:induction false} WorkChanges(s: State, s': State, n: nat, k: ReqId)
    requires forall id: ReqId :: id < n && id != k ==> RequestWork(s', id) == RequestWork(s, id)
    ensures k < n ==> RequestsWork(s', n) + RequestWork(s, k) == RequestsWork(s, n) + RequestWork(s', k)
    ensures k >= n ==> RequestsWork(s', n) == RequestsWork(s, n)
  {
    if n > 0 {
      WorkChanges(s, s', n - 1, k);
    }
  }

  predicate HoldsRequest(r: Reader) {
    r.Delivering? || r.ClosingReply? || r.DrainHolding? || r.DrainClosing?
  }

  /** The request that a step is about. */
  function Subject(s: State, step: Step, owner: ReqId): ReqId {
    match step
    case LockSend(id) => id
    case SendOk(id) => id
    case SendError(id) => id
    case TakeBack(id) => id
    case ReportBroken(id) => id
    case CloseBroken(id) => id
    case Recv(id, _) => id
    case DrainTake(id) => id
    case Consume(_) => owner
    case _ =>
      if HoldsRequest(s.reader) then s.reader.id else owner
  }

  ghost predicate Owns(s: State, step: Step, owner: ReqId) {
    step.Consume? ==> owner in s.senders && s.senders[owner].ch == step.ch
  }

  lemma {:induction false} OthersWorkSame(s: State, step: Step, owner: ReqId, id: ReqId)
    requires Inv(s) && Enabled(s, step) && !step.Register? && Owns(s, step, owner)
    requires id != Subject(s, step, owner)
    ensures RequestWork(Apply(s, step), id) == RequestWork(s, id)
  {
    if id in s.senders {
      SameSender(s, step, id);
      assert RequestOk(s, id);
      if HoldsRequest(s.reader) {
        assert WithReader(s, s.reader.id);
        assert RequestOk(s, s.reader.id);
      }
      if step.ReportBroken? || step.CloseBroken? {
        assert RequestOk(s, step.id);
      }
    } else {
      StepFrame(s, step);
    }
  }

  lemma {:induction false} SubjectWorks(s: State, step: Step, owner: ReqId)
    requires Inv(s) && Enabled(s, step) && !step.Register? && Owns(s, step, owner)
    ensures var s', k := Apply(s, step), Subject(s, step, owner);
            RequestWork(s', k) + ReaderWork(s'.reader) < RequestWork(s, k) + ReaderWork(s.reader)
  {
    var k := Subject(s, step, owner);
    if k in s.senders {
      SameSender(s, step, k);
      assert RequestOk(s, k);
    } else {
      StepFrame(s, step);
    }
  }

  /** Each step but a registration does some of it. */
  lemma {:induction false} EveryStepWorks(s: State, step: Step, owner: ReqId)
    requires Inv(s) && Enabled(s, step) && !step.Register? && Owns(s, step, owner)
    ensures Work(Apply(s, step)) < Work(s)
  {
    var s', k := Apply(s, step), Subject(s, step, owner);
    StepFrame(s, step);
    forall id: ReqId | id < s.next && id != k ensures RequestWork(s', id) == RequestWork(s, id) {
      OthersWorkSame(s, step, owner, id);
    }
    WorkChanges(s, s', s.next, k);
    SubjectWorks(s, step, owner);
    assert k >= s.next ==> k !in s.senders;
  }

  /** A registration adds a bounded amount. */
  lemma {:induction false} RegisterAdds(s: State, ch: ChanId)
    requires Inv(s) && Enabled(s, Register(ch))
    ensures Work(Apply(s, Register(ch))) == Work(s) + 10
  {
    var s' := Apply(s, Register(ch));
    forall id: ReqId | id < s.next ensures RequestWork(s', id) == RequestWork(s, id) {
      if id in s.senders {
        assert RequestOk(s, id);
      }
    }
    WorkChanges(s, s', s.next, s.next);
  }

  ghost predicate AllOwned(s: State) {
    forall ch :: ch in s.chans ==> exists id :: id in s.senders && s.senders[id].ch == ch
  }

  lemma {:induction false} OwnedStep(s: State, step: Step)
    requires Inv(s) && Enabled(s, step) && AllOwned(s)
    ensures AllOwned(Apply(s, step))
  {
    var s' := Apply(s, step);
    forall ch | ch in s'.chans ensures exists id :: id in s'.senders && s'.senders[id].ch == ch {
      if ch in s.chans {
        var id :| id in s.senders && s.senders[id].ch == ch;
        SameSender(s, step, id);
      } else {
        assert s'.senders[s.next].ch == ch;
      }
    }
  }

  function Registrations(steps: seq<Step>): nat {
    if steps == [] then 0 else Registrations(steps[..|steps| - 1]) + if steps[|steps| - 1].Register? then 1 else 0
  }

  /** Every run ends: besides its registrations it has at most ten steps for each of them and two more, so
      with finitely many requests every call returns and every reply is received or waits to be. */
  lemma {:induction false} RunsAreBounded(steps: seq<Step>)
    requires IsRun(steps)
    ensures AllOwned(After(steps))
    ensures |steps| + Work(After(steps)) <= 11 * Registrations(steps) + 2
    ensures Registrations(steps) == After(steps).next - 1
    decreases |steps|
  {
    if steps != [] {
      var n := |steps| - 1;
      var s, step := After(steps[..n]), steps[n];
      RunsAreBounded(steps[..n]);
      RunKeepsInv(steps[..n]);
      OwnedStep(s, step);
      if step.Register? {
        RegisterAdds(s, step.ch);
      } else {
        StepFrame(s, step);
        var owner: ReqId := 0;
        if step.Consume? {
          owner :| owner in s.senders && s.senders[owner].ch == step.ch;
        }
        EveryStepWorks(s, step, owner);
      }
    }
  }

  /** Steps left in a drain. */
  function DrainWork(s: State): nat {
    3 * |s.active| + match s.reader
      case DrainHolding(_, _) => 3
      case DrainClosing(_, _) => 2
      case Draining => 1
      case _ => 0
  }

  /** The drain ends: while it lasts no step adds work to it, and each of its own steps does some. */
  lemma {:induction false} DrainTerminates(s: State, step: Step)
    requires Enabled(s, step) && !MutexFree(s)
    ensures DrainWork(Apply(s, step)) <= DrainWork(s)
    ensures IsDrainStep(step) ==> DrainWork(Apply(s, step)) < DrainWork(s)
  {
    if step.DrainTake? {
      assert |s.active| == |s.active - {step.id}| + 1;
    } else if !IsDrainStep(step) {
      OthersLeaveDrain(s, step);
    }
  }

  predicate IsDrainStep(step: Step) {
    step.DrainTake? || step.DrainReport? || step.DrainClose? || step.DrainEnd?
  }

  lemma {:induction false} OthersLeaveDrain(s: State, step: Step)
    requires Enabled(s, step) && !MutexFree(s) && !IsDrainStep(step)
    ensures Apply(s, step).active == s.active && Apply(s, step).reader == s.reader
  {}
}
