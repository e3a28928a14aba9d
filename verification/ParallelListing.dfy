/** Listing a large directory in localfs: the caller feeds entries to four workers through one
    bounded channel, takes their results from another, and keeps count of what is in between. The
    model is a state machine over the steps of the five goroutines. */
module ParallelListing {

  const NUM_ENTRIES_TO_READ := 100
  const DIR_LISTING_PREFETCH := 200
  const PARALLEL_STAT_GOROUTINES := 4

  /** What Lstat says of an entry when a worker gets to it. */
  datatype Stat = Found | Gone | Failed

  /** A directory: how many entries reading it yields, and what becomes of each. */
  datatype Dir = Dir(total: nat, stat: nat -> Stat)

  datatype Worker = Idle | Held(entry: nat) | Exited

  datatype Main =
    | Draining                    // taking results that are ready, before the next push
    | Calling(entry: nat)         // in a callback, while draining
    | Pushing                     // sending the next entry to the workers
    | Reading                     // the batch is used up
    | Final(i: nat)               // collecting the rest
    | FinalCalling(entry: nat, i: nat)
    | Succeeded
    | Aborted

  datatype State = State(
    main: Main,
    pushed: nat,          // entries sent to the workers so far
    batchEnd: nat,        // entries read from the directory so far
    pending: int,
    input: seq<nat>,
    workers: seq<Worker>,
    output: seq<nat>,
    called: seq<nat>,     // callbacks made
    skipped: seq<nat>)    // results without an entry

  datatype Step =
    | Receive | NoOutput | CallbackOk | CallbackFails | Push
    | ReadNext(k: nat) | ReadFails | FinalReceive | Finish
    | Take(w: nat) | Emit(w: nat) | Exit(w: nat)

  ghost predicate Initial(d: Dir, s: State) {
    && NUM_ENTRIES_TO_READ <= d.total
    && s == State(Draining, 0, NUM_ENTRIES_TO_READ, 0, [], [Idle, Idle, Idle, Idle], [], [], [])
  }

  predicate Returned(m: Main) {
    m.Succeeded? || m.Aborted?
  }

  ghost predicate Enabled(d: Dir, s: State, step: Step) {
    match step
    case Receive => s.main.Draining? && s.output != []
    case NoOutput => s.main.Draining? && s.output == []
    case CallbackOk => s.main.Calling? || s.main.FinalCalling?
    case CallbackFails => s.main.Calling? || s.main.FinalCalling?
    case Push => s.main.Pushing? && |s.input| < DIR_LISTING_PREFETCH
    case ReadNext(k) =>
      s.main.Reading? && k <= NUM_ENTRIES_TO_READ && s.batchEnd + k <= d.total && (k == 0 ==> s.batchEnd == d.total)
    case ReadFails => s.main.Reading?
    case FinalReceive => s.main.Final? && s.main.i < s.pending && s.output != []
    case Finish => s.main.Final? && s.main.i == s.pending
    case Take(w) => w < |s.workers| && s.workers[w].Idle? && s.input != []
    case Emit(w) => w < |s.workers| && s.workers[w].Held? && |s.output| < DIR_LISTING_PREFETCH
    case Exit(w) => w < |s.workers| && s.workers[w].Idle? && Returned(s.main)
  }

  /** What the caller does with a result: give up, call back, or go on without. */
  function Handle(d: Dir, s: State, e: nat, callback: Main, next: Main): State {
    match d.stat(e)
    case Failed => s.(main := Aborted)
    case Found => s.(main := callback)
    case Gone => s.(skipped := s.skipped + [e], main := next)
  }

  function Apply(d: Dir, s: State, step: Step): State
    requires Enabled(d, s, step)
  {
    match step
    case Receive =>
      var e := s.output[0];
      Handle(d, s.(output := s.output[1..], pending := s.pending - 1), e, Calling(e), Draining)
    case NoOutput => s.(main := Pushing)
    case CallbackOk =>
      s.(called := s.called + [s.main.entry], main := if s.main.Calling? then Draining else Final(s.main.i))
    case CallbackFails => s.(main := Aborted)
    case Push =>
      s.(input := s.input + [s.pushed], pushed := s.pushed + 1, pending := s.pending + 1,
         main := if s.pushed + 1 < s.batchEnd then Draining else Reading)
    case ReadNext(k) => s.(batchEnd := s.batchEnd + k, main := if k > 0 then Draining else Final(0))
    case ReadFails => s.(main := Aborted)
    case FinalReceive =>
      var e := s.output[0];
      Handle(d, s.(output := s.output[1..]), e, FinalCalling(e, s.main.i + 1), Final(s.main.i + 1))
    case Finish => s.(main := Succeeded)
    case Take(w) => s.(workers := s.workers[w := Held(s.input[0])], input := s.input[1..])
    case Emit(w) => s.(output := s.output + [s.workers[w].entry], workers := s.workers[w := Idle])
    case Exit(w) => s.(workers := s.workers[w := Exited])
  }

  // ---- How many results are under way ----

  /** How many workers hold an entry. */
  function Holding(ws: seq<Worker>): (n: nat)
    ensures n <= |ws|
  {
    if ws == [] then 0 else Holding(ws[..|ws| - 1]) + if ws[|ws| - 1].Held? then 1 else 0
  }

  /** Results that the caller has yet to receive. */
  function Outstanding(s: State): nat {
    |s.input| + Holding(s.workers) + |s.output|
  }

  /** How often the caller still has to receive, by its own count. */
  function Expected(s: State): int {
    match s.main
    case Final(i) => s.pending - i
    case FinalCalling(_, i) => s.pending - i
    case _ => s.pending
  }

  ghost predicate Bounds(s: State) {
    match s.main
    case Draining => s.pending <= DIR_LISTING_PREFETCH + PARALLEL_STAT_GOROUTINES + 1 && s.pushed < s.batchEnd
    case Calling(_) => s.pending <= DIR_LISTING_PREFETCH + PARALLEL_STAT_GOROUTINES + 1 && s.pushed < s.batchEnd
    case Pushing => s.pending <= DIR_LISTING_PREFETCH + PARALLEL_STAT_GOROUTINES && s.pushed < s.batchEnd
    case Reading => s.pending <= DIR_LISTING_PREFETCH + PARALLEL_STAT_GOROUTINES + 1 && s.pushed == s.batchEnd
    case _ => s.pushed == s.batchEnd
  }

  ghost predicate Counted(d: Dir, s: State) {
    && |s.workers| == PARALLEL_STAT_GOROUTINES
    && |s.input| <= DIR_LISTING_PREFETCH && |s.output| <= DIR_LISTING_PREFETCH
    && s.pushed <= s.batchEnd <= d.total
    && (!s.main.Aborted? ==> Bounds(s))
    && (s.main.Final? || s.main.FinalCalling? || s.main.Succeeded? ==> s.batchEnd == d.total)
    && (!Returned(s.main) ==> Expected(s) == Outstanding(s))
    && (!Returned(s.main) ==> forall w :: 0 <= w < |s.workers| ==> !s.workers[w].Exited?)
    && (s.main.Succeeded? ==> Outstanding(s) == 0)
  }

  function One(b: bool): nat {
    if b then 1 else 0
  }

  lemma {:induction false} HoldingUpdate(ws: seq<Worker>, w: nat, x: Worker)
    requires w < |ws|
    ensures Holding(ws[w := x]) + One(ws[w].Held?) == Holding(ws) + One(x.Held?)
    decreases |ws|
  {
    var n := |ws| - 1;
    if w == n {
      assert ws[w := x][..n] == ws[..n];
    } else {
      assert ws[w := x][..n] == ws[..n][w := x];
      HoldingUpdate(ws[..n], w, x);
    }
  }

  lemma {:induction false} SomeoneHolds(ws: seq<Worker>)
    requires Holding(ws) > 0
    ensures exists w: nat :: w < |ws| && ws[w].Held?
  {
    var n := |ws| - 1;
    if !ws[n].Held? {
      SomeoneHolds(ws[..n]);
      var w: nat :| w < n && ws[..n][w].Held?;
      assert ws[w].Held?;
    }
  }

  lemma {:induction false} NooneHolds(ws: seq<Worker>, w: nat)
    requires Holding(ws) == 0 && w < |ws|
    ensures !ws[w].Held?
  {
    if w < |ws| - 1 {
      NooneHolds(ws[..|ws| - 1], w);
    }
  }

  lemma {:induction false} StepKeepsCounted(d: Dir, s: State, step: Step)
    requires Counted(d, s) && Enabled(d, s, step)
    ensures Counted(d, Apply(d, s, step))
  {
    match step
    case Take(_) => WorkerKeepsCounted(d, s, step);
    case Emit(_) => WorkerKeepsCounted(d, s, step);
    case Exit(_) => WorkerKeepsCounted(d, s, step);
    case Receive => ReceiveKeepsCounted(d, s, step);
    case FinalReceive => ReceiveKeepsCounted(d, s, step);
    case _ =>
  }

  lemma {:induction false} WorkerKeepsCounted(d: Dir, s: State, step: Step)
    requires Counted(d, s) && Enabled(d, s, step) && (step.Take? || step.Emit? || step.Exit?)
    ensures Counted(d, Apply(d, s, step))
  {
    HoldingUpdate(s.workers, step.w, Apply(d, s, step).workers[step.w]);
    assert step.Exit? || Outstanding(Apply(d, s, step)) == Outstanding(s);
  }

  lemma {:induction false} ReceiveKeepsCounted(d: Dir, s: State, step: Step)
    requires Counted(d, s) && Enabled(d, s, step) && (step.Receive? || step.FinalReceive?)
    ensures Counted(d, Apply(d, s, step))
  {
    assert Outstanding(Apply(d, s, step)) == Outstanding(s) - 1;
  }

  // ---- Where each entry is ----

  function Occurs(xs: seq<nat>, j: nat): nat {
    if xs == [] then 0 else Occurs(xs[..|xs| - 1], j) + One(xs[|xs| - 1] == j)
  }

  function HeldCount(ws: seq<Worker>, j: nat): nat {
    if ws == [] then 0 else HeldCount(ws[..|ws| - 1], j) + One(ws[|ws| - 1] == Held(j))
  }

  function InCallback(m: Main, j: nat): bool {
    (m.Calling? || m.FinalCalling?) && m.entry == j
  }

  function InFlight(s: State, j: nat): nat {
    Occurs(s.input, j) + HeldCount(s.workers, j) + Occurs(s.output, j)
  }

  function Handled(s: State, j: nat): nat {
    One(InCallback(s.main, j)) + Occurs(s.called, j) + Occurs(s.skipped, j)
  }

  /** How many times entry j is somewhere between the directory and the end of its handling. */
  function Copies(s: State, j: nat): nat {
    InFlight(s, j) + Handled(s, j)
  }

  /** Callbacks are only for entries that exist, and only entries that are gone are skipped. */
  ghost predicate ClassOk(d: Dir, s: State, j: nat) {
    && (Occurs(s.called, j) > 0 || InCallback(s.main, j) ==> d.stat(j) == Found)
    && (Occurs(s.skipped, j) > 0 ==> d.stat(j) == Gone)
  }

  ghost predicate EntryOk(d: Dir, s: State, j: nat) {
    && (!s.main.Aborted? ==> Copies(s, j) == One(j < s.pushed))
    && ClassOk(d, s, j)
  }

  lemma {:induction false} OccursAppend(xs: seq<nat>, x: nat, j: nat)
    ensures Occurs(xs + [x], j) == Occurs(xs, j) + One(x == j)
  {}

  lemma {:induction false} OccursFirst(xs: seq<nat>, j: nat)
    requires xs != []
    ensures Occurs(xs, j) == One(xs[0] == j) + Occurs(xs[1..], j)
    decreases |xs|
  {
    if |xs| > 1 {
      var n := |xs| - 1;
      OccursFirst(xs[..n], j);
      assert xs[..n][1..] == xs[1..][..n - 1];
    }
  }

  lemma {:induction false} HeldCountUpdate(ws: seq<Worker>, w: nat, x: Worker, j: nat)
    requires w < |ws|
    ensures HeldCount(ws[w := x], j) + One(ws[w] == Held(j)) == HeldCount(ws, j) + One(x == Held(j))
    decreases |ws|
  {
    var n := |ws| - 1;
    if w == n {
      assert ws[w := x][..n] == ws[..n];
    } else {
      assert ws[w := x][..n] == ws[..n][w := x];
      HeldCountUpdate(ws[..n], w, x, j);
    }
  }

  lemma {:induction false} StepKeepsEntry(d: Dir, s: State, step: Step, j: nat)
    requires EntryOk(d, s, j) && Enabled(d, s, step)
    ensures EntryOk(d, Apply(d, s, step), j)
  {
    match step
    case Receive => ReceiveKeepsEntry(d, s, step, j);
    case FinalReceive => ReceiveKeepsEntry(d, s, step, j);
    case CallbackOk => CallbackKeepsEntry(d, s, j);
    case Push => PushKeepsEntry(d, s, j);
    case Take(w) => TakeKeepsEntry(d, s, w, j);
    case Emit(w) => EmitKeepsEntry(d, s, w, j);
    case Exit(w) => HeldCountUpdate(s.workers, w, Exited, j);
    case _ =>
  }

  lemma {:induction false} CallbackKeepsEntry(d: Dir, s: State, j: nat)
    requires EntryOk(d, s, j) && Enabled(d, s, CallbackOk)
    ensures EntryOk(d, Apply(d, s, CallbackOk), j)
  {
    CallbackHandled(d, s, j);
    assert InFlight(Apply(d, s, CallbackOk), j) == InFlight(s, j);
  }

  /** A callback that has returned was under way before, for an entry of the same kind. */
  lemma {:induction false} CallbackHandled(d: Dir, s: State, j: nat)
    requires Enabled(d, s, CallbackOk) && ClassOk(d, s, j)
    ensures var s' := Apply(d, s, CallbackOk); Handled(s', j) == Handled(s, j) && ClassOk(d, s', j)
  {
    OccursAppend(s.called, s.main.entry, j);
  }

  lemma {:induction false} PushKeepsEntry(d: Dir, s: State, j: nat)
    requires EntryOk(d, s, j) && Enabled(d, s, Push)
    ensures EntryOk(d, Apply(d, s, Push), j)
  {
    OccursAppend(s.input, s.pushed, j);
  }

  lemma {:induction false} TakeKeepsEntry(d: Dir, s: State, w: nat, j: nat)
    requires EntryOk(d, s, j) && Enabled(d, s, Take(w))
    ensures EntryOk(d, Apply(d, s, Take(w)), j)
  {
    OccursFirst(s.input, j);
    HeldCountUpdate(s.workers, w, Held(s.input[0]), j);
  }

  lemma {:induction false} EmitKeepsEntry(d: Dir, s: State, w: nat, j: nat)
    requires EntryOk(d, s, j) && Enabled(d, s, Emit(w))
    ensures EntryOk(d, Apply(d, s, Emit(w)), j)
  {
    OccursAppend(s.output, s.workers[w].entry, j);
    HeldCountUpdate(s.workers, w, Idle, j);
  }

  lemma {:induction false} ReceiveKeepsEntry(d: Dir, s: State, step: Step, j: nat)
    requires EntryOk(d, s, j) && Enabled(d, s, step) && (step.Receive? || step.FinalReceive?)
    ensures EntryOk(d, Apply(d, s, step), j)
  {
    ReceivedFlight(d, s, step, j);
    if d.stat(s.output[0]) != Failed {
      ReceivedHandled(d, s, step, j);
      assert Copies(Apply(d, s, step), j) == Copies(s, j);
    }
    ReceivedClass(d, s, step, j);
  }

  lemma {:induction false} ReceivedClass(d: Dir, s: State, step: Step, j: nat)
    requires ClassOk(d, s, j) && Enabled(d, s, step) && (step.Receive? || step.FinalReceive?)
    ensures ClassOk(d, Apply(d, s, step), j)
  {
    ReceivedWhere(d, s, step, j);
    SkippedIsGone(d, s.skipped, Apply(d, s, step).skipped, s.output[0], j);
  }

  /** A received entry is skipped, or its callback is under way, according to what it is. */
  lemma {:induction false} ReceivedWhere(d: Dir, s: State, step: Step, j: nat)
    requires Enabled(d, s, step) && (step.Receive? || step.FinalReceive?)
    ensures var s', e := Apply(d, s, step), s.output[0];
            && s'.called == s.called
            && !InCallback(s.main, j) && (InCallback(s'.main, j) <==> e == j && d.stat(j) == Found)
            && s'.skipped == (if d.stat(e) == Gone then s.skipped + [e] else s.skipped)
  {}

  lemma {:induction false} SkippedIsGone(d: Dir, skipped: seq<nat>, skipped': seq<nat>, e: nat, j: nat)
    requires Occurs(skipped, j) > 0 ==> d.stat(j) == Gone
    requires skipped' == if d.stat(e) == Gone then skipped + [e] else skipped
    ensures Occurs(skipped', j) > 0 ==> d.stat(j) == Gone
  {
    OccursAppend(skipped, e, j);
  }

  lemma {:induction false} ReceivedFlight(d: Dir, s: State, step: Step, j: nat)
    requires Enabled(d, s, step) && (step.Receive? || step.FinalReceive?)
    ensures InFlight(s, j) == InFlight(Apply(d, s, step), j) + One(s.output[0] == j)
  {
    OccursFirst(s.output, j);
  }

  lemma {:induction false} ReceivedHandled(d: Dir, s: State, step: Step, j: nat)
    requires Enabled(d, s, step) && (step.Receive? || step.FinalReceive?) && d.stat(s.output[0]) != Failed
    ensures Handled(Apply(d, s, step), j) == Handled(s, j) + One(s.output[0] == j)
  {
    var s', e := Apply(d, s, step), s.output[0];
    ReceivedWhere(d, s, step, j);
    SkippedOnce(d, s.skipped, s'.skipped, e, j);
    assert Occurs(s'.called, j) == Occurs(s.called, j);
  }

  lemma {:induction false} SkippedOnce(d: Dir, skipped: seq<nat>, skipped': seq<nat>, e: nat, j: nat)
    requires skipped' == if d.stat(e) == Gone then skipped + [e] else skipped
    ensures Occurs(skipped', j) == Occurs(skipped, j) + One(d.stat(e) == Gone && e == j)
  {
    OccursAppend(skipped, e, j);
  }

  lemma {:induction false} AllIdle(ws: seq<Worker>, j: nat)
    requires forall w :: 0 <= w < |ws| ==> ws[w].Idle?
    ensures Holding(ws) == 0 && HeldCount(ws, j) == 0
  {
    if ws != [] {
      AllIdle(ws[..|ws| - 1], j);
    }
  }

  // ---- Whole runs ----

  ghost predicate IsRun(d: Dir, init: State, steps: seq<Step>)
    decreases |steps|, 0
  {
    if steps == [] then Initial(d, init)
    else
      var n := |steps| - 1;
      IsRun(d, init, steps[..n]) && Enabled(d, After(d, init, steps[..n]), steps[n])
  }

  ghost function After(d: Dir, init: State, steps: seq<Step>): State
    requires IsRun(d, init, steps)
    decreases |steps|, 1
  {
    if steps == [] then init
    else var n := |steps| - 1; Apply(d, After(d, init, steps[..n]), steps[n])
  }

  lemma {:induction false} RunCounted(d: Dir, init: State, steps: seq<Step>)
    requires IsRun(d, init, steps)
    ensures Counted(d, After(d, init, steps))
    decreases |steps|
  {
    if steps == [] {
      AllIdle(init.workers, 0);
    } else {
      var n := |steps| - 1;
      RunCounted(d, init, steps[..n]);
      StepKeepsCounted(d, After(d, init, steps[..n]), steps[n]);
    }
  }

  lemma {:induction false} RunEntryOk(d: Dir, init: State, steps: seq<Step>, j: nat)
    requires IsRun(d, init, steps)
    ensures EntryOk(d, After(d, init, steps), j)
    decreases |steps|
  {
    if steps == [] {
      AllIdle(init.workers, j);
    } else {
      var n := |steps| - 1;
      RunEntryOk(d, init, steps[..n], j);
      StepKeepsEntry(d, After(d, init, steps[..n]), steps[n], j);
    }
  }

  /** Until it returns, what the caller still expects is exactly what is in the channels and with
      the workers. */
  lemma {:induction false} PendingIsExact(d: Dir, init: State, steps: seq<Step>)
    requires IsRun(d, init, steps) && !Returned(After(d, init, steps).main)
    ensures var s := After(d, init, steps); Expected(s) == |s.input| + Holding(s.workers) + |s.output|
  {
    RunCounted(d, init, steps);
  }

  /** A caller that waits to push at a full channel leaves the workers room for their results. */
  lemma {:induction false} FullInputLeavesRoom(d: Dir, init: State, steps: seq<Step>)
    requires IsRun(d, init, steps)
    requires var s := After(d, init, steps); s.main.Pushing? && |s.input| == DIR_LISTING_PREFETCH
    ensures var s := After(d, init, steps); Holding(s.workers) + |s.output| <= PARALLEL_STAT_GOROUTINES
  {
    RunCounted(d, init, steps);
  }

  predicate IsFailure(step: Step) {
    step.CallbackFails? || step.ReadFails?
  }

  /** No deadlock: until the caller returns, some goroutine can take a step without an error. */
  lemma {:induction false} NoDeadlock(d: Dir, init: State, steps: seq<Step>)
    requires IsRun(d, init, steps) && !Returned(After(d, init, steps).main)
    ensures exists step :: Enabled(d, After(d, init, steps), step) && !IsFailure(step)
  {
    RunCounted(d, init, steps);
    var s := After(d, init, steps);
    match s.main
    case Draining => assert Enabled(d, s, Receive) || Enabled(d, s, NoOutput);
    case Calling(_) => assert Enabled(d, s, CallbackOk);
    case FinalCalling(_, _) => assert Enabled(d, s, CallbackOk);
    case Reading =>
      var left := d.total - s.batchEnd;
      assert Enabled(d, s, ReadNext(if left < NUM_ENTRIES_TO_READ then left else NUM_ENTRIES_TO_READ));
    case Pushing =>
      if |s.input| < DIR_LISTING_PREFETCH {
        assert Enabled(d, s, Push);
      } else {
        WorkerCanGoOn(d, s);
      }
    case Final(i) =>
      if i == s.pending {
        assert Enabled(d, s, Finish);
      } else if s.output != [] {
        assert Enabled(d, s, FinalReceive);
      } else {
        WorkerCanGoOn(d, s);
      }
  }

  lemma {:induction false} WorkerCanGoOn(d: Dir, s: State)
    requires |s.workers| == PARALLEL_STAT_GOROUTINES && |s.output| < DIR_LISTING_PREFETCH
    requires forall w :: 0 <= w < |s.workers| ==> !s.workers[w].Exited?
    requires Holding(s.workers) > 0 || s.input != []
    ensures exists step :: Enabled(d, s, step) && !IsFailure(step)
  {
    if Holding(s.workers) > 0 {
      SomeoneHolds(s.workers);
      var w: nat :| w < |s.workers| && s.workers[w].Held?;
      assert Enabled(d, s, Emit(w));
    } else {
      NooneHolds(s.workers, 0);
      assert Enabled(d, s, Take(0));
    }
  }

  /** A run that succeeds has called back exactly once for each entry that still existed, and for
      nothing else; no entry failed. */
  lemma {:induction false} CallsEachOnce(d: Dir, init: State, steps: seq<Step>, j: nat)
    requires IsRun(d, init, steps) && After(d, init, steps).main.Succeeded?
    ensures Occurs(After(d, init, steps).called, j) == One(j < d.total && d.stat(j) == Found)
    ensures j < d.total ==> d.stat(j) != Failed
  {
    RunCounted(d, init, steps);
    RunEntryOk(d, init, steps, j);
    var s := After(d, init, steps);
    if HeldCount(s.workers, j) > 0 {
      HeldIsCounted(s.workers, j);
    }
  }

  lemma {:induction false} HeldIsCounted(ws: seq<Worker>, j: nat)
    ensures HeldCount(ws, j) <= Holding(ws)
  {
    if ws != [] {
      HeldIsCounted(ws[..|ws| - 1], j);
    }
  }

  /** The caller gives up only for an error: of a callback, of reading the directory or of an entry. */
  lemma {:induction false} AbortHasCause(d: Dir, init: State, steps: seq<Step>)
    requires IsRun(d, init, steps) && After(d, init, steps).main.Aborted?
    ensures (exists i :: 0 <= i < |steps| && IsFailure(steps[i])) ||
            (exists j: nat :: j < d.total && d.stat(j) == Failed)
    decreases |steps|
  {
    var n := |steps| - 1;
    var s := After(d, init, steps[..n]);
    if s.main.Aborted? {
      AbortHasCause(d, init, steps[..n]);
      if i :| 0 <= i < n && IsFailure(steps[..n][i]) {
        assert IsFailure(steps[i]);
      }
    } else if !IsFailure(steps[n]) {
      AbortingStep(d, s, steps[n]);
      RunCounted(d, init, steps[..n]);
      RunEntryOk(d, init, steps[..n], s.output[0]);
      OutputWasPushed(d, s);
    }
  }

  lemma {:induction false} AbortingStep(d: Dir, s: State, step: Step)
    requires Enabled(d, s, step) && !s.main.Aborted? && Apply(d, s, step).main.Aborted?
    ensures IsFailure(step) || (s.output != [] && d.stat(s.output[0]) == Failed)
  {}

  /** The step is an error: of a callback, of reading the directory or of the entry received. */
  ghost predicate IsError(d: Dir, s: State, step: Step) {
    || step.CallbackFails? || step.ReadFails?
    || ((step.Receive? || step.FinalReceive?) && s.output != [] && d.stat(s.output[0]) == Failed)
  }

  lemma {:induction false} AbortStep(d: Dir, s: State, step: Step)
    requires Enabled(d, s, step)
    ensures Apply(d, s, step).main.Aborted? <==> s.main.Aborted? || IsError(d, s, step)
  {}

  /** Step i of the run is an error. */
  ghost predicate ErrorAt(d: Dir, init: State, steps: seq<Step>, i: nat) {
    i < |steps| && IsRun(d, init, steps[..i]) && IsError(d, After(d, init, steps[..i]), steps[i])
  }

  lemma {:induction false} ErrorAborts(d: Dir, init: State, steps: seq<Step>, i: nat)
    requires IsRun(d, init, steps) && ErrorAt(d, init, steps, i)
    ensures After(d, init, steps).main.Aborted?
    decreases |steps|
  {
    var n := |steps| - 1;
    if i < n {
      assert steps[..n][..i] == steps[..i];
      ErrorAborts(d, init, steps[..n], i);
    }
    AbortStep(d, After(d, init, steps[..n]), steps[n]);
  }

  lemma {:induction false} AbortHasError(d: Dir, init: State, steps: seq<Step>) returns (i: nat)
    requires IsRun(d, init, steps) && After(d, init, steps).main.Aborted?
    ensures ErrorAt(d, init, steps, i)
    decreases |steps|
  {
    var n := |steps| - 1;
    AbortStep(d, After(d, init, steps[..n]), steps[n]);
    if IsError(d, After(d, init, steps[..n]), steps[n]) {
      i := n;
    } else {
      i := AbortHasError(d, init, steps[..n]);
      assert steps[..n][..i] == steps[..i];
    }
  }

  /** Only directories of at least one hundred entries are listed with workers. */
  lemma {:induction false} StartsIff(d: Dir)
    ensures (exists s :: Initial(d, s)) <==> d.total >= 100
  {
    if d.total >= 100 {
      assert Initial(d, State(Draining, 0, 100, 0, [], [Idle, Idle, Idle, Idle], [], [], []));
    }
  }

  /** Every callback and every read can fail. */
  lemma {:induction false} MayFail(d: Dir, s: State)
    ensures s.main.Calling? || s.main.FinalCalling? ==> Enabled(d, s, CallbackOk) && Enabled(d, s, CallbackFails)
    ensures s.main.Reading? ==> Enabled(d, s, ReadFails)
  {}

  /** The directory is read up to one hundred entries at a time, and to its end. */
  lemma {:induction false} Batches(d: Dir, s: State, k: nat)
    requires s.main.Reading?
    ensures Enabled(d, s, ReadNext(k)) <==>
            k <= 100 && s.batchEnd + k <= d.total && (k > 0 || s.batchEnd == d.total)
  {}

  /** The caller returns an error exactly if there was one, however many others succeed. */
  lemma {:induction false} AbortsIff(d: Dir, init: State, steps: seq<Step>)
    requires IsRun(d, init, steps)
    ensures After(d, init, steps).main.Aborted? <==> exists i: nat :: ErrorAt(d, init, steps, i)
  {
    if After(d, init, steps).main.Aborted? {
      var i := AbortHasError(d, init, steps);
    }
    forall i: nat | ErrorAt(d, init, steps, i) ensures After(d, init, steps).main.Aborted? {
      ErrorAborts(d, init, steps, i);
    }
  }

  lemma {:induction false} OutputWasPushed(d: Dir, s: State)
    requires s.output != [] && !s.main.Aborted? && EntryOk(d, s, s.output[0])
    ensures s.output[0] < s.pushed
  {
    OccursFirst(s.output, s.output[0]);
  }

  // ---- Termination ----

  function Alive(ws: seq<Worker>): nat {
    if ws == [] then 0 else Alive(ws[..|ws| - 1]) + One(!ws[|ws| - 1].Exited?)
  }

  function PhaseWork(m: Main): nat {
    match m
    case Draining => 2
    case Pushing => 1
    case Calling(_) => 3
    case Reading => 3
    case Final(_) => 1
    case FinalCalling(_, _) => 2
    case _ => 0
  }

  /** An upper bound on the steps that remain. */
  function Work(d: Dir, s: State): int {
    9 * (d.total - s.batchEnd) + 7 * (s.batchEnd - s.pushed)
    + 4 * |s.input| + 3 * Holding(s.workers) + 2 * |s.output| + PhaseWork(s.main) + Alive(s.workers)
  }

  lemma {:induction false} AliveUpdate(ws: seq<Worker>, w: nat, x: Worker)
    requires w < |ws|
    ensures Alive(ws[w := x]) + One(!ws[w].Exited?) == Alive(ws) + One(!x.Exited?)
    decreases |ws|
  {
    var n := |ws| - 1;
    if w == n {
      assert ws[w := x][..n] == ws[..n];
    } else {
      assert ws[w := x][..n] == ws[..n][w := x];
      AliveUpdate(ws[..n], w, x);
    }
  }

  /** Every step does some of a finite amount of work. So a run can only stop where no step is
      enabled, which until the caller has returned is nowhere. */
  lemma {:induction false} EveryStepWorks(d: Dir, s: State, step: Step)
    requires Counted(d, s) && Enabled(d, s, step)
    ensures 0 <= Work(d, Apply(d, s, step)) < Work(d, s)
  {
    StepKeepsCounted(d, s, step);
    WorkIsBounded(d, Apply(d, s, step));
    if step.Take? || step.Emit? || step.Exit? {
      WorkerStepWorks(d, s, step);
    } else {
      CallerStepWorks(d, s, step);
    }
  }

  lemma {:induction false} WorkIsBounded(d: Dir, s: State)
    requires Counted(d, s)
    ensures 0 <= Work(d, s)
  {}

  lemma {:induction false} CallerStepWorks(d: Dir, s: State, step: Step)
    requires Counted(d, s) && Enabled(d, s, step) && !step.Take? && !step.Emit? && !step.Exit?
    ensures Work(d, Apply(d, s, step)) < Work(d, s)
  {}

  lemma {:induction false} WorkerStepWorks(d: Dir, s: State, step: Step)
    requires Enabled(d, s, step) && (step.Take? || step.Emit? || step.Exit?)
    ensures Work(d, Apply(d, s, step)) < Work(d, s)
  {
    var x := Apply(d, s, step).workers[step.w];
    HoldingUpdate(s.workers, step.w, x);
    AliveUpdate(s.workers, step.w, x);
  }

  /** No run is longer than the work there is at the start. */
  lemma {:induction false} RunsAreBounded(d: Dir, init: State, steps: seq<Step>)
    requires IsRun(d, init, steps)
    ensures |steps| + Work(d, After(d, init, steps)) <= Work(d, init)
    decreases |steps|
  {
    if steps != [] {
      var n := |steps| - 1;
      RunsAreBounded(d, init, steps[..n]);
      RunCounted(d, init, steps[..n]);
      EveryStepWorks(d, After(d, init, steps[..n]), steps[n]);
    }
  }
}
