/** What a successful Flush of the gRPC repository client promises about the contents written
    before it. Writes are acknowledged asynchronously by goroutines of an error group, skipped for
    recently read contents, and checked first when large; calls interleave freely. */
module FlushGuarantee {
  import opened RecentlyRead

  const WRITE_CONTENT_CHECK_EXISTENCE_ABOVE_SIZE := 50_000

  /** A goroutine of the error group, waiting for the server's answer to one write. */
  datatype Task = Task(id: ContentId, status: Status)
  datatype Status = Running | Succeeded | Failed

  /** A WriteContent call that has computed its content ID. */
  datatype Write =
    | Started(id: ContentId, size: nat, prefixed: bool)
    | NotRecent(id: ContentId, size: nat, prefixed: bool)
    | ToSend(id: ContentId, prefixed: bool)
    | Finished

  /** A Flush call; promised is what WriteContent had returned when it started. */
  datatype Flush =
    | Waiting(promised: set<ContentId>)  // in Wait
    | AllDone(promised: set<ContentId>)  // every task that Wait saw has finished
    | Requested(promised: set<ContentId>) // Wait returned nil, the flush request is out
    | FlushedOk(promised: set<ContentId>)
    | FlushFailed

  /** The answer to a write request. */
  datatype Reply = Acknowledged(got: ContentId) | Refused | NoReply

  datatype State = State(
    recent: seq<ContentId>,          // adds to the recently-read memory
    tasks: seq<Task>,
    groupError: bool,               // the error group has a first error
    writes: map<nat, Write>,
    flushes: map<nat, Flush>,
    returned: set<ContentId>,       // by successful WriteContent calls
    acked: set<ContentId>,          // IDs in the server's acknowledgements
    infoOk: set<ContentId>,         // confirmed by ContentInfo
    readOk: set<ContentId>,         // returned by GetContent
    skipped: set<ContentId>,        // returned without sending, because recently read
    stored: set<ContentId>,         // what the server has
    cached: set<ContentId>)         // what the shared local content cache has

  datatype Step =
    | Read(id: ContentId, prefixed: bool)
    | OthersStore(id: ContentId)
    | OthersCache(id: ContentId)
    | Begin(call: nat, id: ContentId, size: nat, prefixed: bool)
    | CheckRecent(call: nat)
    | CheckInfo(call: nat, found: bool)
    | SessionFails(call: nat)
    | Send(call: nat)
    | Answer(task: nat, reply: Reply)
    | FlushBegin(call: nat)
    | WaitDone(call: nat)
    | WaitReturns(call: nat)
    | FlushReply(call: nat, ok: bool)

  ghost const INITIAL := State([], [], false, map[], map[], {}, {}, {}, {}, {}, {}, {})

  predicate Small(w: Write) {
    w.NotRecent? && w.size < WRITE_CONTENT_CHECK_EXISTENCE_ABOVE_SIZE
  }

  ghost predicate Enabled(s: State, step: Step) {
    match step
    case Read(id, _) => id != EMPTY_ID && (id in s.stored || id in s.cached)
    case OthersStore(_) => true
    case OthersCache(_) => true
    case Begin(c, id, _, _) => c !in s.writes && id != EMPTY_ID
    case CheckRecent(c) => c in s.writes && s.writes[c].Started?
    case CheckInfo(c, found) =>
      && c in s.writes && s.writes[c].NotRecent? && !Small(s.writes[c])
      && (found ==> s.writes[c].id in s.stored)
    case SessionFails(c) => c in s.writes && (Small(s.writes[c]) || s.writes[c].ToSend?)
    case Send(c) => c in s.writes && (Small(s.writes[c]) || s.writes[c].ToSend?)
    case Answer(t, _) => t < |s.tasks| && s.tasks[t].status.Running?
    case FlushBegin(c) => c !in s.flushes
    case WaitDone(c) => c in s.flushes && s.flushes[c].Waiting? && forall t :: t in s.tasks ==> !t.status.Running?
    case WaitReturns(c) => c in s.flushes && s.flushes[c].AllDone?
    case FlushReply(c, _) => c in s.flushes && s.flushes[c].Requested?
  }

  ghost function Apply(s: State, step: Step): State
    requires Enabled(s, step)
  {
    match step
    case Read(id, prefixed) =>
      s.(readOk := s.readOk + {id}, cached := s.cached + {id}, recent := if prefixed then s.recent + [id] else s.recent)
    case OthersStore(id) => s.(stored := s.stored + {id})
    case OthersCache(id) => s.(cached := s.cached + {id})
    case Begin(c, id, size, prefixed) => s.(writes := s.writes[c := Started(id, size, prefixed)])
    case CheckRecent(c) =>
      var w := s.writes[c];
      if Remembered(s.recent, w.id) then
        s.(writes := s.writes[c := Finished], returned := s.returned + {w.id}, skipped := s.skipped + {w.id})
      else s.(writes := s.writes[c := NotRecent(w.id, w.size, w.prefixed)])
    case CheckInfo(c, found) =>
      var w := s.writes[c];
      if found then
        s.(writes := s.writes[c := Finished], returned := s.returned + {w.id}, infoOk := s.infoOk + {w.id})
      else s.(writes := s.writes[c := ToSend(w.id, w.prefixed)])
    case SessionFails(c) => s.(writes := s.writes[c := Finished])
    case Send(c) =>
      var w := s.writes[c];
      s.(writes := s.writes[c := Finished],
         tasks := s.tasks + [Task(w.id, Running)],
         cached := if w.prefixed then s.cached + {w.id} else s.cached,
         returned := s.returned + {w.id})
    case Answer(t, reply) =>
      var task := s.tasks[t];
      var s' := if reply.Acknowledged? then s.(acked := s.acked + {reply.got}, stored := s.stored + {reply.got}) else s;
      if reply == Acknowledged(task.id) then s'.(tasks := s.tasks[t := task.(status := Succeeded)])
      else s'.(tasks := s.tasks[t := task.(status := Failed)], groupError := true)
    case FlushBegin(c) => s.(flushes := s.flushes[c := Waiting(s.returned)])
    case WaitDone(c) => s.(flushes := s.flushes[c := AllDone(s.flushes[c].promised)])
    case WaitReturns(c) =>
      s.(flushes := s.flushes[c := if s.groupError then FlushFailed else Requested(s.flushes[c].promised)])
    case FlushReply(c, ok) =>
      s.(flushes := s.flushes[c := if ok then FlushedOk(s.flushes[c].promised) else FlushFailed])
  }

  ghost predicate Confirmed(s: State, id: ContentId) {
    id in s.acked || id in s.infoOk || id in s.skipped
  }

  /** A task for id has not succeeded. */
  ghost predicate Unfinished(s: State, id: ContentId) {
    exists t :: 0 <= t < |s.tasks| && s.tasks[t].id == id && !s.tasks[t].status.Succeeded?
  }

  /** good holds of everything a flush has to vouch for at its stage. */
  ghost predicate FlushOk(s: State, f: Flush, good: set<ContentId>) {
    match f
    case Waiting(p) => p <= s.returned
    case AllDone(p) => s.groupError || p <= good
    case Requested(p) => p <= good
    case FlushedOk(p) => p <= good
    case FlushFailed => true
  }

  /** Every returned ID is good or has an unfinished task, and so for the flushes. */
  ghost predicate Vouched(s: State, good: set<ContentId>) {
    && (forall id :: id in s.returned ==> id in good || Unfinished(s, id))
    && (forall c :: c in s.flushes ==> FlushOk(s, s.flushes[c], good))
  }

  ghost predicate TasksOk(s: State) {
    && (forall t :: 0 <= t < |s.tasks| && s.tasks[t].status.Failed? ==> s.groupError)
    && (forall t :: 0 <= t < |s.tasks| && s.tasks[t].status.Succeeded? ==> s.tasks[t].id in s.acked)
  }

  /** What is remembered or skipped was read, and what is confirmed is stored. */
  ghost predicate ReadsOk(s: State) {
    && (forall i :: 0 <= i < |s.recent| ==> s.recent[i] in s.readOk)
    && s.skipped <= s.readOk
    && s.acked + s.infoOk <= s.stored
  }

  ghost function AllConfirmed(s: State): set<ContentId> {
    s.acked + s.infoOk + s.skipped
  }

  ghost predicate Inv(s: State) {
    TasksOk(s) && ReadsOk(s) && Vouched(s, AllConfirmed(s))
  }

  /** Unfinished tasks stay or succeed. */
  lemma {:induction false} UnfinishedStep(s: State, step: Step, id: ContentId)
    requires Enabled(s, step) && Unfinished(s, id)
    ensures Unfinished(Apply(s, step), id) || id in Apply(s, step).acked
  {
    var s' := Apply(s, step);
    var t :| 0 <= t < |s.tasks| && s.tasks[t].id == id && !s.tasks[t].status.Succeeded?;
    assert s'.tasks[t].id == id;
  }

  /** What one step adds to the returned IDs. */
  lemma {:induction false} ReturnedStep(s: State, step: Step, id: ContentId)
    requires Enabled(s, step) && TasksOk(s) && ReadsOk(s)
    requires id in Apply(s, step).returned && id !in s.returned
    ensures var s' := Apply(s, step);
            Unfinished(s', id) || id in s'.infoOk || (id in s'.skipped && id in s.readOk)
  {
    if step.Send? {
      assert Apply(s, step).tasks[|s.tasks|].id == id;
    }
  }

  /** A step keeps what flushes vouch for, if it keeps good things good. */
  lemma {:induction false} VouchedStep(s: State, step: Step, good: set<ContentId>, good': set<ContentId>)
    requires Enabled(s, step) && TasksOk(s) && Vouched(s, good)
    requires good <= good' && Apply(s, step).acked <= good'
    requires forall id :: id in Apply(s, step).returned && id !in s.returned ==>
               id in good' || Unfinished(Apply(s, step), id)
    ensures Vouched(Apply(s, step), good')
  {
    var s' := Apply(s, step);
    forall id | id in s'.returned ensures id in good' || Unfinished(s', id) {
      if id in s.returned && id !in good {
        UnfinishedStep(s, step, id);
      }
    }
    forall c | c in s'.flushes ensures FlushOk(s', s'.flushes[c], good') {
      if c in s.flushes {
        assert FlushOk(s, s.flushes[c], good);
        if step == WaitDone(c) && !s.groupError {
          AllTasksSucceeded(s, good);
        }
      }
    }
  }

  /** When no task runs and none failed, everything returned is good. */
  lemma {:induction false} AllTasksSucceeded(s: State, good: set<ContentId>)
    requires TasksOk(s) && Vouched(s, good) && !s.groupError
    requires forall t :: t in s.tasks ==> !t.status.Running?
    ensures s.returned <= good
  {}

  lemma {:induction false} StepKeepsTasks(s: State, step: Step)
    requires Enabled(s, step) && TasksOk(s) && ReadsOk(s)
    ensures TasksOk(Apply(s, step)) && ReadsOk(Apply(s, step))
  {}

  lemma {:induction false} StepKeepsInv(s: State, step: Step)
    requires Inv(s) && Enabled(s, step)
    ensures Inv(Apply(s, step))
  {
    var s' := Apply(s, step);
    StepKeepsTasks(s, step);
    forall id | id in s'.returned && id !in s.returned ensures id in AllConfirmed(s') || Unfinished(s', id) {
      ReturnedStep(s, step, id);
    }
    VouchedStep(s, step, AllConfirmed(s), AllConfirmed(s'));
  }

  // ---- Whole runs ----

  ghost predicate IsRun(steps: seq<Step>)
    decreases |steps|, 0
  {
    steps != [] ==>
      var n := |steps| - 1;
      IsRun(steps[..n]) && Enabled(After(steps[..n]), steps[n])
  }

  ghost function After(steps: seq<Step>): State
    requires IsRun(steps)
    decreases |steps|, 1
  {
    if steps == [] then INITIAL
    else var n := |steps| - 1; Apply(After(steps[..n]), steps[n])
  }

  lemma {:induction false} RunKeepsInv(steps: seq<Step>)
    requires IsRun(steps)
    ensures Inv(After(steps))
    decreases |steps|
  {
    if steps != [] {
      var n := |steps| - 1;
      RunKeepsInv(steps[..n]);
      StepKeepsInv(After(steps[..n]), steps[n]);
    }
  }

  /** When Flush has returned nil, every ID that WriteContent returned before it was acknowledged
      with the identical ID, confirmed by ContentInfo, or skipped because it had been read. */
  lemma {:induction false} FlushConfirms(steps: seq<Step>, call: nat, id: ContentId)
    requires IsRun(steps)
    requires var s := After(steps); call in s.flushes && s.flushes[call].FlushedOk? && id in s.flushes[call].promised
    ensures Confirmed(After(steps), id) && After(steps).skipped <= After(steps).readOk
  {
    RunKeepsInv(steps);
    var s := After(steps);
    assert FlushOk(s, s.flushes[call], AllConfirmed(s));
  }

  // ---- Is it then on the server? ----

  /** Nobody else leaves this content in the shared cache while the server does not have it. */
  ghost predicate CacheIsSound(steps: seq<Step>, id: ContentId)
    requires IsRun(steps)
    decreases |steps|
  {
    steps != [] ==>
      var n := |steps| - 1;
      && CacheIsSound(steps[..n], id)
      && (steps[n] == OthersCache(id) ==> id in After(steps[..n]).stored)
  }

  /** What may be returned and promised: what is stored, and any other content. */
  ghost function StoredOrOther(s: State, id: ContentId): set<ContentId> {
    s.stored + (s.returned - {id})
  }

  /** If the content was read, cached, acknowledged or confirmed, it is stored or still has an
      unfinished task of this client. */
  ghost predicate StoredInv(s: State, id: ContentId) {
    && TasksOk(s)
    && (id in s.readOk || id in s.cached ==> id in s.stored || Unfinished(s, id))
    && Vouched(s, StoredOrOther(s, id))
  }

  lemma {:induction false} StepKeepsStored(s: State, step: Step, id: ContentId)
    requires StoredInv(s, id) && ReadsOk(s) && Enabled(s, step)
    requires step == OthersCache(id) ==> id in s.stored
    ensures StoredInv(Apply(s, step), id)
  {
    var s' := Apply(s, step);
    StepKeepsTasks(s, step);
    if id in s'.readOk || id in s'.cached {
      if Unfinished(s, id) {
        UnfinishedStep(s, step, id);
      } else if step.Send? && id !in s.cached && id !in s.readOk {
        assert s'.tasks[|s.tasks|].id == id;
      }
    }
    if id in s'.returned && id !in s.returned {
      ReturnedStep(s, step, id);
    }
    VouchedStep(s, step, StoredOrOther(s, id), StoredOrOther(s', id));
  }

  lemma {:induction false} RunKeepsStored(steps: seq<Step>, id: ContentId)
    requires IsRun(steps) && CacheIsSound(steps, id)
    ensures StoredInv(After(steps), id)
    decreases |steps|
  {
    if steps != [] {
      var n := |steps| - 1;
      RunKeepsStored(steps[..n], id);
      RunKeepsInv(steps[..n]);
      StepKeepsStored(After(steps[..n]), steps[n], id);
    }
  }

  /** A nil Flush means that the server has every content written before that this client did not
      skip, or for which the shared cache was sound. */
  lemma {:induction false} FlushStores(steps: seq<Step>, call: nat, id: ContentId)
    requires IsRun(steps) && (id !in After(steps).skipped || CacheIsSound(steps, id))
    requires var s := After(steps); call in s.flushes && s.flushes[call].FlushedOk? && id in s.flushes[call].promised
    ensures id in After(steps).stored
  {
    var s := After(steps);
    if id in s.skipped {
      RunKeepsStored(steps, id);
      assert FlushOk(s, s.flushes[call], StoredOrOther(s, id));
    } else {
      FlushConfirms(steps, call, id);
      RunKeepsInv(steps);
    }
  }

  /** So whatever the cache held, it has every content written before that was never read back. */
  lemma {:induction false} FlushStoresUnread(steps: seq<Step>, call: nat, id: ContentId)
    requires IsRun(steps) && id !in After(steps).readOk
    requires var s := After(steps); call in s.flushes && s.flushes[call].FlushedOk? && id in s.flushes[call].promised
    ensures id in After(steps).stored
  {
    FlushConfirms(steps, call, id);
    FlushStores(steps, call, id);
  }

  // ---- From a write to a flush ----

  /** What call c is writing, until it is done. */
  ghost predicate Writes(s: State, c: nat, id: ContentId, size: nat, prefixed: bool) {
    && c in s.writes
    && match s.writes[c]
       case Started(i, n, p) => i == id && n == size && p == prefixed
       case NotRecent(i, n, p) => i == id && n == size && p == prefixed
       case ToSend(i, p) => i == id && p == prefixed
       case Finished => true
  }

  lemma {:induction false} WritesStep(s: State, step: Step, c: nat, id: ContentId, size: nat, prefixed: bool)
    requires Enabled(s, step) && Writes(s, c, id, size, prefixed)
    ensures Writes(Apply(s, step), c, id, size, prefixed)
  {}

  lemma {:induction false} WritesKept(steps: seq<Step>, b: nat, c: nat, id: ContentId, size: nat, prefixed: bool)
    requires IsRun(steps) && b < |steps| && steps[b] == Begin(c, id, size, prefixed)
    ensures Writes(After(steps), c, id, size, prefixed)
    decreases |steps|
  {
    var n := |steps| - 1;
    if b < n {
      WritesKept(steps[..n], b, c, id, size, prefixed);
      WritesStep(After(steps[..n]), steps[n], c, id, size, prefixed);
    }
  }

  lemma {:induction false} AskedStep(s: State, step: Step, c: nat, id: ContentId, size: nat, prefixed: bool)
    requires Enabled(s, step) && Writes(s, c, id, size, prefixed)
    ensures var w, w' := s.writes[c], Apply(s, step).writes[c];
            && (step == CheckInfo(c, false) ==> size >= 50_000 && w'.ToSend?)
            && (w'.ToSend? ==> w.ToSend? || step == CheckInfo(c, false))
            && (w.ToSend? || w.Finished? ==> w'.ToSend? || w'.Finished?)
  {}

  lemma {:induction false} AskedMeans(steps: seq<Step>, b: nat, c: nat, id: ContentId, size: nat, prefixed: bool)
    requires IsRun(steps) && b < |steps| && steps[b] == Begin(c, id, size, prefixed)
    ensures c in After(steps).writes
    ensures var w := After(steps).writes[c];
            && (w.ToSend? ==> CheckInfo(c, false) in steps[b..])
            && (CheckInfo(c, false) in steps[b..] ==> size >= 50_000 && (w.ToSend? || w.Finished?))
    decreases |steps|
  {
    var n := |steps| - 1;
    if b < n {
      AskedMeans(steps[..n], b, c, id, size, prefixed);
      WritesKept(steps[..n], b, c, id, size, prefixed);
      AskedStep(After(steps[..n]), steps[n], c, id, size, prefixed);
      assert steps[b..] == steps[..n][b..] + [steps[n]];
    } else {
      assert steps[b..] == [steps[b]];
    }
  }

  /** A content is sent without asking the server first exactly if it has less than 50 000 bytes. */
  lemma {:induction false} LargeIsChecked(steps: seq<Step>, b: nat, c: nat, id: ContentId, size: nat, prefixed: bool)
    requires IsRun(steps) && b < |steps| && steps[b] == Begin(c, id, size, prefixed)
    requires Enabled(After(steps), Send(c))
    ensures size >= 50_000 <==> CheckInfo(c, false) in steps[b..]
  {
    AskedMeans(steps, b, c, id, size, prefixed);
    WritesKept(steps, b, c, id, size, prefixed);
  }

  /** Whatever happens, a call can go on until it returns, and can fail where it needs the session. */
  lemma {:induction false} CallGoesOn(s: State, c: nat)
    requires c in s.writes && !s.writes[c].Finished?
    ensures Enabled(s, CheckRecent(c)) || Enabled(s, CheckInfo(c, false)) || Enabled(s, Send(c))
    ensures Enabled(s, Send(c)) <==> Enabled(s, SessionFails(c))
  {}

  /** Other clients can store and cache anything at any time, and every write can be answered in any way. */
  lemma {:induction false} AnythingElseHappens(s: State, id: ContentId, t: nat, reply: Reply)
    requires t < |s.tasks| && s.tasks[t].status.Running?
    ensures Enabled(s, OthersStore(id)) && Enabled(s, OthersCache(id)) && Enabled(s, Answer(t, reply))
    ensures Apply(s, OthersStore(id)).stored == s.stored + {id}
  {}

  /** How far a call still has to go. */
  function CallWork(w: Write): nat {
    match w
    case Started(_, _, _) => 3
    case NotRecent(_, _, _) => 2
    case ToSend(_, _) => 1
    case Finished => 0
  }

  /** Each step of a call brings it on, and one that fails for want of a session returns nothing. */
  lemma {:induction false} CallStepWorks(s: State, step: Step, c: nat)
    requires Enabled(s, step) && c in s.writes
    requires step == CheckRecent(c) || step == Send(c) || step == SessionFails(c) || (step.CheckInfo? && step.call == c)
    ensures CallWork(Apply(s, step).writes[c]) < CallWork(s.writes[c])
    ensures step == SessionFails(c) ==> Apply(s, step) == s.(writes := Apply(s, step).writes)
  {}

  /** What the shared cache gets: what is read, what others put there, and prefixed contents that are sent. */
  lemma {:induction false} CachedStep(s: State, step: Step, id: ContentId)
    requires Enabled(s, step)
    ensures id in Apply(s, step).cached <==>
            || id in s.cached || step == OthersCache(id) || (step.Read? && step.id == id)
            || (step.Send? && var w := s.writes[step.call]; !w.Finished? && w.id == id && w.prefixed)
  {}

  /** The step makes call c return its content ID: the content was read recently, the server says that it
      has it, or it is sent. */
  ghost predicate Returns(s: State, step: Step, c: nat) {
    && c in s.writes
    && match step
       case CheckRecent(k) => k == c && s.writes[c].Started? && Remembered(s.recent, s.writes[c].id)
       case CheckInfo(k, found) => k == c && found
       case Send(k) => k == c
       case _ => false
  }

  lemma {:induction false} ReturnsStep(s: State, step: Step, c: nat, id: ContentId)
    requires Enabled(s, step) && Returns(s, step, c) && !s.writes[c].Finished? && s.writes[c].id == id
    ensures id in Apply(s, step).returned && Apply(s, step).writes[c].Finished?
  {}

  lemma {:induction false} NotYetReturned(s: State, step: Step, c: nat)
    requires Enabled(s, step) && Returns(s, step, c)
    ensures !s.writes[c].Finished?
  {}

  lemma {:induction false} ReturnedGrows(s: State, step: Step)
    requires Enabled(s, step)
    ensures s.returned <= Apply(s, step).returned
  {}

  lemma {:induction false} ReturnedKept(steps: seq<Step>, n: nat, id: ContentId)
    requires IsRun(steps) && n <= |steps| && IsRun(steps[..n]) && id in After(steps[..n]).returned
    ensures id in After(steps).returned
    decreases |steps|
  {
    if n < |steps| {
      var init := steps[..|steps| - 1];
      assert init[..n] == steps[..n];
      ReturnedKept(init, n, id);
      ReturnedGrows(After(init), steps[|steps| - 1]);
    } else {
      assert steps[..n] == steps;
    }
  }

  /** A flush that has not failed still answers for the content. */
  ghost predicate Promises(s: State, f: nat, id: ContentId) {
    f in s.flushes && (s.flushes[f].FlushFailed? || id in s.flushes[f].promised)
  }

  lemma {:induction false} PromisesStep(s: State, step: Step, f: nat, id: ContentId)
    requires Enabled(s, step) && Promises(s, f, id)
    ensures Promises(Apply(s, step), f, id)
  {}

  lemma {:induction false} PromisesKept(steps: seq<Step>, k: nat, f: nat, id: ContentId)
    requires IsRun(steps) && k < |steps| && IsRun(steps[..k])
    requires steps[k] == FlushBegin(f) && id in After(steps[..k]).returned
    ensures Promises(After(steps), f, id)
    decreases |steps|
  {
    var n := |steps| - 1;
    if k < n {
      assert steps[..n][..k] == steps[..k];
      PromisesKept(steps[..n], k, f, id);
      PromisesStep(After(steps[..n]), steps[n], f, id);
    }
  }

  lemma {:induction false} PrefixIsRun(steps: seq<Step>, n: nat)
    requires IsRun(steps) && n <= |steps|
    ensures IsRun(steps[..n])
    decreases |steps|
  {
    if n < |steps| {
      var init := steps[..|steps| - 1];
      assert init[..n] == steps[..n];
      PrefixIsRun(init, n);
    } else {
      assert steps[..n] == steps;
    }
  }

  // ---- Failed writes ----

  predicate IsFailure(s: State, step: Step) {
    step.Answer? && step.task < |s.tasks| && step.reply != Acknowledged(s.tasks[step.task].id)
  }

  /** The group has an error once a write is not acknowledged with its own ID. */
  lemma {:induction false} GroupErrorStep(s: State, step: Step)
    requires Enabled(s, step)
    ensures Apply(s, step).groupError <==> s.groupError || IsFailure(s, step)
  {}

  lemma {:induction false} ErrorStays(steps: seq<Step>, n: nat)
    requires IsRun(steps) && n < |steps| && IsRun(steps[..n]) && IsFailure(After(steps[..n]), steps[n])
    ensures After(steps).groupError
    decreases |steps|
  {
    var last := |steps| - 1;
    if n < last {
      assert steps[..last][..n] == steps[..n];
      ErrorStays(steps[..last], n);
    }
    GroupErrorStep(After(steps[..last]), steps[last]);
  }

  /** A write that fails makes every Flush fail whose wait ends after it. */
  lemma {:induction false} FailedWriteFailsFlush(steps: seq<Step>, n: nat, f: nat)
    requires IsRun(steps) && n < |steps| - 1 && IsRun(steps[..n]) && IsFailure(After(steps[..n]), steps[n])
    requires steps[|steps| - 1] == WaitReturns(f)
    ensures After(steps).flushes[f] == FlushFailed
  {
    var init := steps[..|steps| - 1];
    assert init[..n] == steps[..n];
    ErrorStays(init, n);
  }

  function Unanswered(tasks: seq<Task>): nat {
    if tasks == [] then 0
    else Unanswered(tasks[..|tasks| - 1]) + if tasks[|tasks| - 1].status.Running? then 1 else 0
  }

  lemma {:induction false} RunningUpdate(tasks: seq<Task>, t: nat, task: Task)
    requires t < |tasks| && tasks[t].status.Running? && !task.status.Running?
    ensures Unanswered(tasks[t := task]) == Unanswered(tasks) - 1
    decreases |tasks|
  {
    var n := |tasks| - 1;
    if t == n {
      assert tasks[t := task][..n] == tasks[..n];
    } else {
      assert tasks[t := task][..n] == tasks[..n][t := task];
      RunningUpdate(tasks[..n], t, task);
    }
  }

  function Sends(steps: seq<Step>): nat {
    if steps == [] then 0 else Sends(steps[..|steps| - 1]) + if steps[|steps| - 1].Send? then 1 else 0
  }

  function Answers(steps: seq<Step>): nat {
    if steps == [] then 0 else Answers(steps[..|steps| - 1]) + if steps[|steps| - 1].Answer? then 1 else 0
  }

  lemma {:induction false} RunningStep(s: State, step: Step)
    requires Enabled(s, step)
    ensures Unanswered(Apply(s, step).tasks) ==
            Unanswered(s.tasks) + (if step.Send? then 1 else 0) - (if step.Answer? then 1 else 0)
  {
    if step.Answer? {
      RunningUpdate(s.tasks, step.task, Apply(s, step).tasks[step.task]);
    }
  }

  /** Every write that is sent runs until it is answered, and is answered once. */
  lemma {:induction false} WritesAreAnswered(steps: seq<Step>)
    requires IsRun(steps)
    ensures Unanswered(After(steps).tasks) + Answers(steps) == Sends(steps)
    decreases |steps|
  {
    if steps != [] {
      var n := |steps| - 1;
      WritesAreAnswered(steps[..n]);
      RunningStep(After(steps[..n]), steps[n]);
    }
  }

  /** The ID of the content that call c began with is among the returned ones when it returns. */
  lemma {:induction false} CallReturnsId(steps: seq<Step>, b: nat, c: nat, id: ContentId, size: nat, prefixed: bool)
    requires steps != [] && IsRun(steps) && b < |steps| - 1 && steps[b] == Begin(c, id, size, prefixed)
    requires var n := |steps| - 1; Returns(After(steps[..n]), steps[n], c)
    ensures id in After(steps).returned && After(steps).writes[c].Finished?
  {
    var n := |steps| - 1;
    WritesKept(steps[..n], b, c, id, size, prefixed);
    NotYetReturned(After(steps[..n]), steps[n], c);
    ReturnsStep(After(steps[..n]), steps[n], c, id);
  }

  /** What a call has returned before a Flush begins, the Flush answers for. */
  lemma {:induction false} ReturnedIsPromised(steps: seq<Step>, b: nat, c: nat, id: ContentId, size: nat,
                                              prefixed: bool, n: nat, k: nat, f: nat)
    requires IsRun(steps) && b < n < k < |steps| && IsRun(steps[..n])
    requires steps[b] == Begin(c, id, size, prefixed) && Returns(After(steps[..n]), steps[n], c)
    requires steps[k] == FlushBegin(f)
    ensures Promises(After(steps), f, id)
  {
    PrefixIsRun(steps, n + 1);
    PrefixIsRun(steps, k);
    assert steps[..n + 1][..n] == steps[..n] && steps[..k][..n + 1] == steps[..n + 1];
    CallReturnsId(steps[..n + 1], b, c, id, size, prefixed);
    ReturnedKept(steps[..k], n + 1, id);
    PromisesKept(steps, k, f, id);
  }

  /** So a content whose WriteContent returned before a Flush that succeeds is on the server, if it was
      never read back or the shared cache was sound. */
  lemma {:induction false} WriteThenFlush(steps: seq<Step>, b: nat, c: nat, id: ContentId, size: nat,
                                          prefixed: bool, n: nat, k: nat, f: nat)
    requires IsRun(steps) && b < n < k < |steps| && IsRun(steps[..n])
    requires steps[b] == Begin(c, id, size, prefixed) && Returns(After(steps[..n]), steps[n], c)
    requires steps[k] == FlushBegin(f) && f in After(steps).flushes && After(steps).flushes[f].FlushedOk?
    requires id !in After(steps).readOk || CacheIsSound(steps, id)
    ensures id in After(steps).stored
  {
    ReturnedIsPromised(steps, b, c, id, size, prefixed, n, k, f);
    FlushConfirms(steps, f, id);
    FlushStores(steps, f, id);
  }

  lemma {:induction false} Extend(steps: seq<Step>, step: Step)
    requires IsRun(steps) && Enabled(After(steps), step)
    ensures IsRun(steps + [step]) && After(steps + [step]) == Apply(After(steps), step)
  {}

  /** Another client caches a content and this one reads it back. */
  lemma {:induction false} ReadFromCache(id: ContentId) returns (steps: seq<Step>)
    requires id != EMPTY_ID
    ensures IsRun(steps) && !CacheIsSound(steps, id)
    ensures After(steps) == INITIAL.(recent := [id], readOk := {id}, cached := {id})
  {
    var first := [OthersCache(id)];
    Extend([], OthersCache(id));
    assert [] + first == first;
    Extend(first, Read(id, true));
    steps := first + [Read(id, true)];
    assert steps[..1] == first && first[..0] == [];
    assert INITIAL.recent + [id] == [id];
  }

  lemma {:induction false} WriteRemembered(before: seq<Step>, id: ContentId, size: nat) returns (steps: seq<Step>)
    requires IsRun(before) && id != EMPTY_ID &&
             After(before) == INITIAL.(recent := [id], readOk := {id}, cached := {id})
    ensures IsRun(steps) && before <= steps
    ensures After(steps) == After(before).(writes := map[0 := Finished], returned := {id}, skipped := {id})
  {
    AddRemembers([], id);
    assert [] + [id] == [id];
    Extend(before, Begin(0, id, size, true));
    steps := before + [Begin(0, id, size, true)];
    assert After(steps).writes == map[0 := Started(id, size, true)];
    Extend(steps, CheckRecent(0));
    steps := steps + [CheckRecent(0)];
    assert After(steps).writes == map[0 := Finished];
  }

  /** With no task ever started, Flush gets through its wait. */
  lemma {:induction false} WaitIdle(before: seq<Step>) returns (steps: seq<Step>)
    requires IsRun(before) && var s := After(before); s.tasks == [] && s.flushes == map[]
    ensures IsRun(steps) && before <= steps
    ensures After(steps) == After(before).(flushes := map[0 := AllDone(After(before).returned)])
  {
    var s := After(before);
    Extend(before, FlushBegin(0));
    steps := before + [FlushBegin(0)];
    assert After(steps).flushes == map[0 := Waiting(s.returned)];
    Extend(steps, WaitDone(0));
    steps := steps + [WaitDone(0)];
    assert After(steps).flushes == map[0 := AllDone(s.returned)];
  }

  /** Without an error in the group it then succeeds. */
  lemma {:induction false} FlushDone(before: seq<Step>, promised: set<ContentId>) returns (steps: seq<Step>)
    requires IsRun(before) && var s := After(before); !s.groupError && s.flushes == map[0 := AllDone(promised)]
    ensures IsRun(steps) && before <= steps
    ensures After(steps) == After(before).(flushes := map[0 := FlushedOk(promised)])
  {
    Extend(before, WaitReturns(0));
    steps := before + [WaitReturns(0)];
    assert After(steps).flushes == map[0 := Requested(promised)];
    Extend(steps, FlushReply(0, true));
    steps := steps + [FlushReply(0, true)];
    assert After(steps).flushes == map[0 := FlushedOk(promised)];
  }

  /** Of what was read back, not: a prefixed content that another client cached before its own write
      failed is read back, remembered, therefore not sent, and Flush returns nil although the server
      does not have it. */
  lemma {:induction false} FlushWithoutStoring(id: ContentId, size: nat) returns (steps: seq<Step>)
    requires id != EMPTY_ID
    ensures IsRun(steps) && !CacheIsSound(steps, id)
    ensures After(steps).flushes == map[0 := FlushedOk({id})] && id !in After(steps).stored
    ensures id in After(steps).skipped && id in After(steps).readOk
  {
    var read := ReadFromCache(id);
    var written := WriteRemembered(read, id, size);
    var waited := WaitIdle(written);
    steps := FlushDone(waited, {id});
    if CacheIsSound(steps, id) {
      SoundPrefix(steps, read, id);
    }
  }

  lemma {:induction false} SoundPrefix(steps: seq<Step>, init: seq<Step>, id: ContentId)
    requires IsRun(steps) && init <= steps && IsRun(init) && CacheIsSound(steps, id)
    ensures CacheIsSound(init, id)
    decreases |steps|
  {
    if steps != init {
      SoundPrefix(steps[..|steps| - 1], init, id);
    }
  }
}
