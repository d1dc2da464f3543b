/** The threaded loader of client/mysqlimport.c: the main thread starts one worker per file and a counter,
    guarded by a mutex and a condition variable, keeps the number of workers within a limit. The protocol
    is a state machine; every access to shared state is one step, and any thread may take the next step. */
module ImportThrottle {
  import opened Text

  datatype Config = Config(limit: nat, files: nat)

  /** Where the main thread stands: the loop over the files, then the final wait. `signaled` is the state of
      the condition variable as the waiting thread sees it. */
  datatype MainPc =
    | Lock | Test | Wait(signaled: bool) | Unlock | Create | FailedLock | FailedUnlock
    | LastLock | LastTest | LastWait(signaled: bool) | LastUnlock | Done

  datatype WorkerPc =
    | Idle | NotCreated
    | Connect | Load | TestExit(error: int) | SetExit(error: int)
    | WorkerLock | Decrement | Signal | WorkerUnlock | Gone

  datatype Thread = MainThread | WorkerThread(index: nat)

  /** `loads` and `errors` record per file how often it was loaded and with which result; `refused` the
      workers that got no connection. */
  datatype State = State(pc: MainPc, next: nat, holder: Option<Thread>, counter: int, exitcode: int,
                         workers: seq<WorkerPc>, loads: seq<nat>, errors: seq<int>, refused: seq<bool>)

  ghost function Initial(c: Config): State {
    State(if c.files > 0 then Lock else LastLock, 0, None, 0, 0,
          seq(c.files, _ => Idle), seq(c.files, _ => 0), seq(c.files, _ => 0), seq(c.files, _ => false))
  }

  /** A step of the main thread, the end of its timed wait without a signal, or a step of a worker. What the
      outside world answers is part of the step. */
  datatype Step = Main(created: bool) | Timeout | Worker(index: nat, connected: bool, error: int)

  // ---------- the main thread ----------

  function NextFile(c: Config, s: State): State {
    s.(next := s.next + 1, pc := if s.next + 1 < c.files then Lock else LastLock)
  }

  ghost predicate MainEnabled(s: State) {
    match s.pc
    case Lock => s.holder == None
    case FailedLock => s.holder == None
    case LastLock => s.holder == None
    case Wait(signaled) => signaled && s.holder == None
    case LastWait(signaled) => signaled && s.holder == None
    case Done => false
    case _ => true
  }

  ghost function MainStep(c: Config, s: State, created: bool): State
    requires s.pc == Create ==> s.next < |s.workers|
  {
    match s.pc
    case Lock => s.(holder := Some(MainThread), pc := Test)
    case Test =>
      if s.counter == c.limit then s.(holder := None, pc := Wait(false))
      else s.(counter := s.counter + 1, pc := Unlock)
    case Wait(_) => s.(holder := Some(MainThread), pc := Test)
    case Unlock => s.(holder := None, pc := Create)
    case Create =>
      if created then NextFile(c, s.(workers := s.workers[s.next := Connect]))
      else s.(workers := s.workers[s.next := NotCreated], pc := FailedLock)
    case FailedLock => s.(holder := Some(MainThread), counter := s.counter - 1, pc := FailedUnlock)
    case FailedUnlock => NextFile(c, s.(holder := None))
    case LastLock => s.(holder := Some(MainThread), pc := LastTest)
    case LastTest => if s.counter != 0 then s.(holder := None, pc := LastWait(false)) else s.(pc := LastUnlock)
    case LastWait(_) => s.(holder := Some(MainThread), pc := LastTest)
    case LastUnlock => s.(holder := None, pc := Done)
    case Done => s
  }

  // ---------- a worker ----------

  ghost predicate WorkerEnabled(s: State, i: nat) {
    i < |s.workers| &&
    match s.workers[i]
    case Idle => false
    case NotCreated => false
    case Gone => false
    case WorkerLock => s.holder == None
    case _ => true
  }

  ghost function At(s: State, i: nat, pc: WorkerPc): State
    requires i < |s.workers|
  {
    s.(workers := s.workers[i := pc])
  }

  ghost function Signaled(pc: MainPc): MainPc {
    match pc
    case Wait(_) => Wait(true)
    case LastWait(_) => LastWait(true)
    case _ => pc
  }

  ghost predicate Sized(c: Config, s: State) {
    |s.workers| == |s.loads| == |s.errors| == |s.refused| == c.files
  }

  ghost predicate InShape(c: Config, s: State) { Sized(c, s) && (s.pc == Create ==> s.next < c.files) }

  ghost function WorkerStep(c: Config, s: State, i: nat, connected: bool, error: int): State
    requires Sized(c, s) && WorkerEnabled(s, i)
  {
    match s.workers[i]
    case Connect =>
      if connected then At(s, i, Load) else At(s, i, WorkerLock).(refused := s.refused[i := true])
    case Load =>
      At(s, i, if error == 0 then WorkerLock else TestExit(error))
      .(loads := s.loads[i := s.loads[i] + 1], errors := s.errors[i := error])
    case TestExit(e) => At(s, i, if s.exitcode == 0 then SetExit(e) else WorkerLock)
    case SetExit(e) => At(s, i, WorkerLock).(exitcode := e)
    case WorkerLock => At(s, i, Decrement).(holder := Some(WorkerThread(i)))
    case Decrement => At(s, i, Signal).(counter := s.counter - 1)
    case Signal => At(s, i, WorkerUnlock).(pc := Signaled(s.pc))
    case WorkerUnlock => At(s, i, Gone).(holder := None)
    case _ => s
  }

  // ---------- runs ----------

  /** Which steps are possible; every state of a run is in shape. */
  ghost predicate Enabled(c: Config, s: State, step: Step) {
    InShape(c, s) &&
    match step
    case Main(_) => MainEnabled(s)
    case Timeout => (s.pc.Wait? || s.pc.LastWait?) && s.holder == None
    case Worker(i, _, _) => WorkerEnabled(s, i)
  }

  ghost function Next(c: Config, s: State, step: Step): State
    requires Enabled(c, s, step)
  {
    match step
    case Main(created) => MainStep(c, s, created)
    case Timeout => MainStep(c, s, false)
    case Worker(i, connected, error) => WorkerStep(c, s, i, connected, error)
  }

  // ---------- the invariant ----------

  /** Workers the counter must still count. */
  ghost predicate Unfinished(w: WorkerPc) {
    w.Connect? || w.Load? || w.TestExit? || w.SetExit? || w.WorkerLock? || w.Decrement?
  }

  ghost function Sum(ws: seq<WorkerPc>, weight: WorkerPc -> int): int {
    if ws == [] then 0 else weight(ws[0]) + Sum(ws[1..], weight)
  }

  ghost function One(w: WorkerPc): int { if Unfinished(w) then 1 else 0 }

  ghost function UnfinishedWorkers(s: State): int { Sum(s.workers, One) }

  /** The main thread has counted a worker it has not created, or has failed to create. */
  ghost function Pending(s: State): int { if s.pc.Unlock? || s.pc.Create? || s.pc.FailedLock? then 1 else 0 }

  ghost predicate MainHolds(pc: MainPc) {
    pc.Test? || pc.Unlock? || pc.FailedUnlock? || pc.LastTest? || pc.LastUnlock?
  }

  ghost predicate WorkerHolds(w: WorkerPc) { w.Decrement? || w.Signal? || w.WorkerUnlock? }

  /** The mutex is held by whoever is inside a critical section. */
  ghost predicate Exclusive(s: State) {
    && (s.holder == Some(MainThread) <==> MainHolds(s.pc))
    && (s.holder.Some? && s.holder.value.WorkerThread? ==> s.holder.value.index < |s.workers|)
    && forall i :: 0 <= i < |s.workers| ==> (s.holder == Some(WorkerThread(i)) <==> WorkerHolds(s.workers[i]))
  }

  ghost predicate Counted(c: Config, s: State) {
    s.counter == UnfinishedWorkers(s) + Pending(s) && 0 <= s.counter <= c.limit
  }

  ghost predicate LastPhase(pc: MainPc) {
    pc.LastLock? || pc.LastTest? || pc.LastWait? || pc.LastUnlock? || pc.Done?
  }

  /** Files before `next` have been dealt with; the file at `next` is being dealt with. */
  ghost predicate InOrder(c: Config, s: State) {
    && Sized(c, s)
    && (if LastPhase(s.pc) then s.next == c.files else s.next < c.files)
    && (forall i :: 0 <= i < s.next ==> s.workers[i] != Idle)
    && (forall i :: s.next < i < c.files ==> s.workers[i] == Idle)
    && (s.next < c.files ==> s.workers[s.next] == if s.pc.FailedLock? || s.pc.FailedUnlock? then NotCreated else Idle)
  }

  /** A file has been loaded once its worker is past loading, unless it got no connection. */
  ghost predicate LoadOf(w: WorkerPc, loads: nat, error: int, refused: bool, exitcode: int) {
    match w
    case Idle => loads == 0 && error == 0 && !refused
    case NotCreated => loads == 0 && error == 0 && !refused
    case Connect => loads == 0 && error == 0 && !refused
    case Load => loads == 0 && error == 0 && !refused
    case TestExit(e) => loads == 1 && error == e != 0 && !refused
    case SetExit(e) => loads == 1 && error == e != 0 && !refused
    case _ => loads == (if refused then 0 else 1) && (refused ==> error == 0) && (error != 0 ==> exitcode != 0)
  }

  ghost predicate Loaded(s: State)
    requires |s.workers| == |s.loads| == |s.errors| == |s.refused|
  {
    && (forall i :: 0 <= i < |s.workers| ==> LoadOf(s.workers[i], s.loads[i], s.errors[i], s.refused[i], s.exitcode))
    && (s.exitcode != 0 ==> s.exitcode in s.errors)
  }

  /** A waiting main thread that has not been signaled has something to wait for. */
  ghost predicate NoLostWakeup(c: Config, s: State) {
    && (s.pc == Wait(false) ==> s.counter == c.limit || Signal in s.workers)
    && (s.pc == LastWait(false) ==> s.counter > 0 || Signal in s.workers)
  }

  /** At the end nothing is counted any more. */
  ghost predicate Finished(s: State) {
    (s.pc.LastUnlock? || s.pc.Done? ==> s.counter == 0) && (s.pc.Done? ==> s.holder == None)
  }

  ghost predicate Inv(c: Config, s: State) {
    InOrder(c, s) && Exclusive(s) && Counted(c, s) && Loaded(s) && NoLostWakeup(c, s) && Finished(s)
  }

  // ---------- sums ----------

  lemma {:induction false} SumUpdated(ws: seq<WorkerPc>, weight: WorkerPc -> int, i: nat, w: WorkerPc)
    requires i < |ws|
    ensures Sum(ws[i := w], weight) == Sum(ws, weight) - weight(ws[i]) + weight(w)
    decreases |ws|
  {
    if i == 0 {
      assert ws[0 := w][1..] == ws[1..];
    } else {
      assert ws[i := w][1..] == ws[1..][i - 1 := w];
      SumUpdated(ws[1..], weight, i - 1, w);
    }
  }

  lemma {:induction false} SumConstant(n: nat, w: WorkerPc, weight: WorkerPc -> int, k: int)
    requires weight(w) == k
    ensures Sum(seq(n, _ => w), weight) == n * k
    decreases n
  {
    var ws := seq(n, _ => w);
    if n > 0 {
      assert ws[1..] == seq(n - 1, _ => w);
      SumConstant(n - 1, w, weight, k);
    }
  }

  lemma {:induction false} SomeoneUnfinished(ws: seq<WorkerPc>)
    requires Sum(ws, One) > 0
    ensures exists i :: 0 <= i < |ws| && Unfinished(ws[i])
  {
    if Unfinished(ws[0]) {
    } else {
      SomeoneUnfinished(ws[1..]);
      var i :| 0 <= i < |ws| - 1 && Unfinished(ws[1..][i]);
      assert Unfinished(ws[i + 1]);
    }
  }

  lemma {:induction false} NoneUnfinished(ws: seq<WorkerPc>, i: nat)
    requires i < |ws| && Unfinished(ws[i])
    ensures Sum(ws, One) > 0
  {
    SumNonNegative(ws[1..]);
    if i > 0 { NoneUnfinished(ws[1..], i - 1); }
  }

  lemma {:induction false} SumNonNegative(ws: seq<WorkerPc>)
    ensures Sum(ws, One) >= 0
  {
    if ws != [] { SumNonNegative(ws[1..]); }
  }

  // ---------- every step keeps the invariant ----------

  lemma InitialInv(c: Config)
    requires c.limit > 0
    ensures Inv(c, Initial(c))
  {
    SumConstant(c.files, Idle, One, 0);
  }

  ghost predicate MainMoves(c: Config, s: State) { MainEnabled(s) || Enabled(c, s, Timeout) }

  lemma MainKeepsOrder(c: Config, s: State, created: bool)
    requires InOrder(c, s) && MainMoves(c, s)
    ensures InOrder(c, MainStep(c, s, created))
  {
  }

  lemma MainKeepsExclusion(c: Config, s: State, created: bool)
    requires InOrder(c, s) && Exclusive(s) && MainMoves(c, s)
    ensures Exclusive(MainStep(c, s, created))
  {
  }

  lemma MainKeepsCount(c: Config, s: State, created: bool)
    requires InOrder(c, s) && Counted(c, s) && Finished(s) && MainMoves(c, s)
    ensures Counted(c, MainStep(c, s, created)) && Finished(MainStep(c, s, created))
  {
    if s.pc == Create {
      SumUpdated(s.workers, One, s.next, Connect);
      SumUpdated(s.workers, One, s.next, NotCreated);
    }
    SumNonNegative(s.workers);
  }

  lemma MainKeepsLoads(c: Config, s: State, created: bool)
    requires InOrder(c, s) && Loaded(s) && MainMoves(c, s)
    ensures Loaded(MainStep(c, s, created))
  {
  }

  lemma MainKeepsWakeup(c: Config, s: State, created: bool)
    requires InOrder(c, s) && Counted(c, s) && NoLostWakeup(c, s) && MainMoves(c, s)
    ensures NoLostWakeup(c, MainStep(c, s, created))
  {
    hide InOrder, Sum;
  }

  lemma MainKeepsInv(c: Config, s: State, created: bool)
    requires Inv(c, s) && MainMoves(c, s)
    ensures Inv(c, MainStep(c, s, created))
  {
    hide InOrder, Exclusive, Counted, Loaded, NoLostWakeup, Finished, MainStep;
    MainKeepsOrder(c, s, created);
    MainKeepsExclusion(c, s, created);
    MainKeepsCount(c, s, created);
    MainKeepsLoads(c, s, created);
    MainKeepsWakeup(c, s, created);
  }

  lemma WorkerKeepsOrder(c: Config, s: State, i: nat, connected: bool, error: int)
    requires InOrder(c, s) && WorkerEnabled(s, i)
    ensures InOrder(c, WorkerStep(c, s, i, connected, error))
  {
  }

  lemma WorkerKeepsExclusion(c: Config, s: State, i: nat, connected: bool, error: int)
    requires Sized(c, s) && Exclusive(s) && WorkerEnabled(s, i)
    ensures Exclusive(WorkerStep(c, s, i, connected, error))
  {
  }

  lemma WorkerKeepsCount(c: Config, s: State, i: nat, connected: bool, error: int)
    requires Sized(c, s) && Counted(c, s) && Finished(s) && WorkerEnabled(s, i)
    ensures Counted(c, WorkerStep(c, s, i, connected, error)) && Finished(WorkerStep(c, s, i, connected, error))
  {
    var t := WorkerStep(c, s, i, connected, error);
    SumUpdated(s.workers, One, i, t.workers[i]);
    assert t.workers == s.workers[i := t.workers[i]];
    SumNonNegative(t.workers);
    if Unfinished(s.workers[i]) { NoneUnfinished(s.workers, i); }
  }

  lemma WorkerKeepsLoads(c: Config, s: State, i: nat, connected: bool, error: int)
    requires Sized(c, s) && Loaded(s) && WorkerEnabled(s, i)
    ensures Loaded(WorkerStep(c, s, i, connected, error))
  {
    var t := WorkerStep(c, s, i, connected, error);
    assert LoadOf(s.workers[i], s.loads[i], s.errors[i], s.refused[i], s.exitcode);
    assert LoadOf(t.workers[i], t.loads[i], t.errors[i], t.refused[i], t.exitcode);
    forall k | 0 <= k < |s.workers| && k != i ensures LoadOf(t.workers[k], t.loads[k], t.errors[k], t.refused[k], t.exitcode) {
      assert LoadOf(s.workers[k], s.loads[k], s.errors[k], s.refused[k], s.exitcode);
    }
    if t.exitcode != 0 {
      var k :| 0 <= k < |s.errors| && s.errors[k] == t.exitcode;
      assert t.errors[k] == t.exitcode;
    }
  }

  lemma WorkerKeepsWakeup(c: Config, s: State, i: nat, connected: bool, error: int)
    requires Sized(c, s) && Counted(c, s) && NoLostWakeup(c, s) && WorkerEnabled(s, i)
    ensures NoLostWakeup(c, WorkerStep(c, s, i, connected, error))
  {
    hide Sum;
    var t := WorkerStep(c, s, i, connected, error);
    assert t.workers[i] == Signal ==> Signal in t.workers;
    if Signal in s.workers && s.workers[i] != Signal {
      var k :| 0 <= k < |s.workers| && s.workers[k] == Signal;
      assert t.workers[k] == Signal;
    }
  }

  lemma WorkerKeepsInv(c: Config, s: State, i: nat, connected: bool, error: int)
    requires Inv(c, s) && WorkerEnabled(s, i)
    ensures Inv(c, WorkerStep(c, s, i, connected, error))
  {
    hide Exclusive, Counted, Loaded, NoLostWakeup, Finished, WorkerStep;
    WorkerKeepsOrder(c, s, i, connected, error);
    WorkerKeepsExclusion(c, s, i, connected, error);
    WorkerKeepsCount(c, s, i, connected, error);
    WorkerKeepsLoads(c, s, i, connected, error);
    WorkerKeepsWakeup(c, s, i, connected, error);
  }

  lemma StepKeepsInv(c: Config, s: State, step: Step)
    requires Inv(c, s) && Enabled(c, s, step)
    ensures Inv(c, Next(c, s, step))
  {
    hide Exclusive, Counted, Loaded, NoLostWakeup, Finished, MainStep, WorkerStep;
    match step {
      case Main(created) => MainKeepsInv(c, s, created);
      case Timeout => MainKeepsInv(c, s, false);
      case Worker(i, connected, error) => WorkerKeepsInv(c, s, i, connected, error);
    }
  }

  /** s comes about from the initial state by the steps, in order. */
  ghost predicate Reaches(c: Config, steps: seq<Step>, s: State) {
    if steps == [] then s == Initial(c)
    else
      var n := |steps| - 1;
      exists t: State :: Reaches(c, steps[..n], t) && Enabled(c, t, steps[n]) && s == Next(c, t, steps[n])
  }

  lemma {:induction false} ReachableInv(c: Config, steps: seq<Step>, s: State)
    requires c.limit > 0 && Reaches(c, steps, s)
    ensures Inv(c, s)
  {
    hide Inv;
    if steps == [] {
      InitialInv(c);
    } else {
      var n := |steps| - 1;
      var t: State :| Reaches(c, steps[..n], t) && Enabled(c, t, steps[n]) && s == Next(c, t, steps[n]);
      ReachableInv(c, steps[..n], t);
      StepKeepsInv(c, t, steps[n]);
    }
  }

  // ---------- what the invariant means ----------

  /** In every run the counter is the number of unfinished workers plus a creation under way, within the limit. */
  lemma CounterIsExact(c: Config, steps: seq<Step>, s: State)
    requires c.limit > 0 && Reaches(c, steps, s)
    ensures s.counter == UnfinishedWorkers(s) + Pending(s) <= c.limit
  {
    hide Reaches;
    ReachableInv(c, steps, s);
  }

  /** The thread is inside a critical section. */
  ghost predicate Holds(s: State, t: Thread) {
    match t
    case MainThread => MainHolds(s.pc)
    case WorkerThread(i) => i < |s.workers| && WorkerHolds(s.workers[i])
  }

  /** No two threads, workers or main, are inside a critical section at the same time. */
  lemma MutualExclusion(c: Config, steps: seq<Step>, s: State, t: Thread, u: Thread)
    requires c.limit > 0 && Reaches(c, steps, s) && Holds(s, t) && Holds(s, u)
    ensures t == u && s.holder == Some(t)
  {
    hide Reaches;
    ReachableInv(c, steps, s);
  }

  /** Once the main thread has left the final wait, no worker will touch the mutex again. */
  lemma LeavesLast(c: Config, steps: seq<Step>, s: State, i: nat)
    requires c.limit > 0 && Reaches(c, steps, s) && (s.pc.LastUnlock? || s.pc.Done?) && i < c.files
    ensures |s.workers| == c.files && (s.workers[i] == NotCreated || s.workers[i] == Gone)
  {
    hide Reaches;
    ReachableInv(c, steps, s);
    if Unfinished(s.workers[i]) { NoneUnfinished(s.workers, i); }
  }

  /** At the end every file was loaded exactly once, except where no thread or no connection could be had, and the
      exit code tells whether some load failed. */
  lemma EveryFileLoadedOnce(c: Config, steps: seq<Step>, s: State, i: nat)
    requires c.limit > 0 && Reaches(c, steps, s) && s.pc == Done && i < c.files
    ensures Sized(c, s) && s.loads[i] == if s.workers[i] == NotCreated || s.refused[i] then 0 else 1
    ensures s.exitcode != 0 <==> exists k :: 0 <= k < c.files && s.errors[k] != 0
  {
    hide Reaches, Sum;
    ReachableInv(c, steps, s);
    forall k | 0 <= k < c.files ensures LoadOf(s.workers[k], s.loads[k], s.errors[k], s.refused[k], s.exitcode) && (s.workers[k] == NotCreated || s.workers[k] == Gone) {
      LeavesLast(c, steps, s, k);
    }
  }

  /** Never in a run is a file loaded twice. */
  lemma NeverLoadedTwice(c: Config, steps: seq<Step>, s: State, i: nat)
    requires c.limit > 0 && Reaches(c, steps, s) && i < c.files
    ensures |s.loads| == c.files && s.loads[i] <= 1
  {
    hide Reaches, Sum;
    ReachableInv(c, steps, s);
    assert LoadOf(s.workers[i], s.loads[i], s.errors[i], s.refused[i], s.exitcode);
  }

  // ---------- no deadlock ----------

  lemma WorkerCanMove(c: Config, s: State, i: nat)
    requires Inv(c, s) && i < c.files && s.workers[i] != Idle && s.workers[i] != NotCreated && s.workers[i] != Gone
    requires s.holder == None || s.holder == Some(WorkerThread(i))
    ensures Enabled(c, s, Worker(i, true, 0))
  {
  }

  /** While the main thread is not done some thread can take a step, timeouts aside: a signal is never lost. */
  lemma NoDeadlock(c: Config, steps: seq<Step>, s: State)
    requires c.limit > 0 && Reaches(c, steps, s) && s.pc != Done
    ensures exists step: Step :: step != Timeout && Enabled(c, s, step)
  {
    hide Reaches, Sum, Loaded;
    ReachableInv(c, steps, s);
    if s.holder.Some? && s.holder.value.WorkerThread? {
      WorkerCanMove(c, s, s.holder.value.index);
    } else if MainEnabled(s) {
      assert Enabled(c, s, Main(true));
    } else {
      var i := Waiter(c, s);
      WorkerCanMove(c, s, i);
    }
  }

  /** Whom the main thread waits for. */
  lemma Waiter(c: Config, s: State) returns (i: nat)
    requires c.limit > 0 && Inv(c, s) && !MainEnabled(s) && s.pc != Done && s.holder == None
    ensures i < c.files && s.workers[i] != Idle && s.workers[i] != NotCreated && s.workers[i] != Gone
  {
    if k :| 0 <= k < c.files && s.workers[k] == Signal {
      i := k;
    } else {
      SomeoneUnfinished(s.workers);
      i :| 0 <= i < c.files && Unfinished(s.workers[i]);
    }
  }

  // ---------- termination ----------

  function WorkerRank(w: WorkerPc): int {
    match w
    case Idle => 15
    case NotCreated => 0
    case Connect => 14
    case Load => 13
    case TestExit(_) => 12
    case SetExit(_) => 11
    case WorkerLock => 10
    case Decrement => 9
    case Signal => 8
    case WorkerUnlock => 1
    case Gone => 0
  }

  function MainRank(pc: MainPc): int {
    match pc
    case Lock => 7
    case Test => 5
    case Wait(signaled) => if signaled then 6 else 4
    case Unlock => 3
    case Create => 2
    case FailedLock => 1
    case FailedUnlock => 0
    case LastLock => 7
    case LastTest => 5
    case LastWait(signaled) => if signaled then 6 else 4
    case LastUnlock => 3
    case Done => 0
  }

  ghost function Measure(c: Config, s: State): int {
    10 * (c.files - s.next) + MainRank(s.pc) + Sum(s.workers, WorkerRank)
  }

  lemma {:induction false} RanksNonNegative(ws: seq<WorkerPc>)
    ensures Sum(ws, WorkerRank) >= 0
  {
    if ws != [] { RanksNonNegative(ws[1..]); }
  }

  lemma MainLowersMeasure(c: Config, s: State, created: bool)
    requires InOrder(c, s) && MainEnabled(s)
    ensures Measure(c, MainStep(c, s, created)) < Measure(c, s)
  {
    hide Sum;
    if s.pc == Create {
      SumUpdated(s.workers, WorkerRank, s.next, Connect);
      SumUpdated(s.workers, WorkerRank, s.next, NotCreated);
    }
  }

  lemma WorkerLowersMeasure(c: Config, s: State, i: nat, connected: bool, error: int)
    requires Sized(c, s) && WorkerEnabled(s, i)
    ensures Measure(c, WorkerStep(c, s, i, connected, error)) < Measure(c, s)
  {
    hide Sum;
    var t := WorkerStep(c, s, i, connected, error);
    SumUpdated(s.workers, WorkerRank, i, t.workers[i]);
    assert t.workers == s.workers[i := t.workers[i]];
  }

  /** Every step but a timeout lowers the measure; a timeout raises it by at most one. */
  lemma StepLowersMeasure(c: Config, s: State, step: Step)
    requires Inv(c, s) && Enabled(c, s, step)
    ensures if step == Timeout then Measure(c, Next(c, s, step)) <= Measure(c, s) + 1
            else Measure(c, Next(c, s, step)) < Measure(c, s)
  {
    hide Exclusive, Counted, Loaded, NoLostWakeup, Finished, WorkerStep, Sum;
    match step {
      case Main(created) => MainLowersMeasure(c, s, created);
      case Timeout =>
      case Worker(i, connected, error) => WorkerLowersMeasure(c, s, i, connected, error);
    }
  }

  ghost function Timeouts(steps: seq<Step>): nat {
    if steps == [] then 0
    else Timeouts(steps[..|steps| - 1]) + if steps[|steps| - 1] == Timeout then 1 else 0
  }

  lemma {:induction false} RunIsBounded(c: Config, steps: seq<Step>, s: State)
    requires c.limit > 0 && Reaches(c, steps, s)
    ensures |steps| + Measure(c, s) <= 25 * c.files + 7 + 2 * Timeouts(steps)
    decreases |steps|
  {
    hide Inv, Measure, Next;
    if steps == [] {
      InitialMeasure(c);
    } else {
      var n := |steps| - 1;
      var t: State :| Reaches(c, steps[..n], t) && Enabled(c, t, steps[n]) && s == Next(c, t, steps[n]);
      ReachableInv(c, steps[..n], t);
      RunIsBounded(c, steps[..n], t);
      StepLowersMeasure(c, t, steps[n]);
    }
  }

  lemma InitialMeasure(c: Config)
    ensures Measure(c, Initial(c)) == 25 * c.files + 7
  {
    SumConstant(c.files, Idle, WorkerRank, 15);
  }

  /** Timeouts aside, every run is finite: with NoDeadlock, it ends with the main thread done. */
  lemma EveryRunEnds(c: Config, steps: seq<Step>, s: State)
    requires c.limit > 0 && Reaches(c, steps, s)
    ensures |steps| <= 25 * c.files + 7 + 2 * Timeouts(steps)
  {
    hide Reaches;
    RunIsBounded(c, steps, s);
    ReachableInv(c, steps, s);
    RanksNonNegative(s.workers);
  }
}
