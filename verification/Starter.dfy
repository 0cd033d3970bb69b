/** The thread limiter (abc/src/starter.c) as a state machine: one main thread, one worker for each command, and a
    counter under a mutex.  A thread that waits for the mutex, or has ended, stays where it is when it is scheduled,
    so every interleaving is a sequence of actors. */
module Starter {

  /** MAX_COMM_NUM. */
  const MAX_COMMANDS: nat := 1000

  datatype MainPc =
    | Fetch                                             // fgets, and the test for the end of the file
    | WaitLock | WaitRead | WaitUnlock | WaitCheck      // wait for a free CPU
    | IncLock | Inc | IncUnlock                         // announce the command
    | Create                                            // pthread_create
    | FinalLock | FinalRead | FinalUnlock | FinalCheck  // wait for the workers
    | Destroy | Done

  datatype WorkerPc = Running | ErrLock | ErrUnlock | DecLock | Dec | DecUnlock | Exited

  datatype Holder = Free | ByMain | ByWorker(k: nat)

  /** `left` commands are still in the file; `counter` is the local copy that main reads; `running` is
      nThreadsRunning; worker `k` executes the k-th command. */
  datatype State = State(pc: MainPc, left: nat, counter: int, running: int, holder: Holder, workers: seq<WorkerPc>,
                         destroyed: bool)

  /** Who moves next.  For a worker, `fails` is the exit status of its command, which it looks at once. */
  datatype Actor = MainThread | Worker(k: nat, fails: bool)

  function Init(commands: nat): State {
    State(Fetch, commands, 0, 0, Free, [], false)
  }

  function Lock(s: State, next: MainPc): State {
    if s.holder == Free then s.(holder := ByMain, pc := next) else s
  }

  function MainStep(cpus: nat, s: State): State {
    match s.pc
    case Fetch => if s.left > 0 then s.(left := s.left - 1, pc := WaitLock) else s.(pc := FinalLock)
    case WaitLock => Lock(s, WaitRead)
    case WaitRead => s.(counter := s.running, pc := WaitUnlock)
    case WaitUnlock => s.(holder := Free, pc := WaitCheck)
    case WaitCheck => s.(pc := if s.counter < cpus - 1 then IncLock else WaitLock)
    case IncLock => Lock(s, Inc)
    case Inc => s.(running := s.running + 1, pc := IncUnlock)
    case IncUnlock => s.(holder := Free, pc := Create)
    case Create => s.(workers := s.workers + [Running], pc := if |s.workers| + 1 == MAX_COMMANDS then FinalLock
      else Fetch)
    case FinalLock => Lock(s, FinalRead)
    case FinalRead => s.(counter := s.running, pc := FinalUnlock)
    case FinalUnlock => s.(holder := Free, pc := FinalCheck)
    case FinalCheck => s.(pc := if s.counter == 0 then Destroy else FinalLock)
    case Destroy => s.(destroyed := true, pc := Done)
    case Done => s
  }

  function WorkerLock(s: State, k: nat, next: WorkerPc): State
    requires k < |s.workers|
  {
    if s.holder == Free then s.(holder := ByWorker(k), workers := s.workers[k := next]) else s
  }

  function WorkerStep(s: State, k: nat, fails: bool): State
    requires k < |s.workers|
  {
    match s.workers[k]
    case Running => s.(workers := s.workers[k := if fails then ErrLock else DecLock])
    case ErrLock => WorkerLock(s, k, ErrUnlock)
    case ErrUnlock => s.(holder := Free, workers := s.workers[k := DecLock])
    case DecLock => WorkerLock(s, k, Dec)
    case Dec => s.(running := s.running - 1, workers := s.workers[k := DecUnlock])
    case DecUnlock => s.(holder := Free, workers := s.workers[k := Exited])
    case Exited => s
  }

  function Step(cpus: nat, s: State, a: Actor): State {
    match a
    case MainThread => MainStep(cpus, s)
    case Worker(k, fails) => if k < |s.workers| then WorkerStep(s, k, fails) else s
  }

  function Fold(step: (State, Actor) -> State, s: State, run: seq<Actor>): State {
    if run == [] then s else step(Fold(step, s, run[..|run| - 1]), run[|run| - 1])
  }

  function Stepper(cpus: nat): (State, Actor) -> State {
    (s, a) => Step(cpus, s, a)
  }

  /** The state after an interleaving. */
  function After(cpus: nat, s: State, run: seq<Actor>): State {
    Fold(Stepper(cpus), s, run)
  }

  lemma AfterNext(cpus: nat, s: State, run: seq<Actor>, a: Actor, t: State)
    requires After(cpus, s, run) == t
    ensures After(cpus, s, run + [a]) == Step(cpus, t, a)
  {
    assert (run + [a])[..|run|] == run;
  }

  lemma {:induction false} FoldJoined(step: (State, Actor) -> State, s: State, first: seq<Actor>, run: seq<Actor>)
    ensures Fold(step, s, first + run) == Fold(step, Fold(step, s, first), run)
  {
    if run == [] {
      assert first + run == first;
    } else {
      FoldJoined(step, s, first, run[..|run| - 1]);
      assert (first + run)[..|first + run| - 1] == first + run[..|run| - 1];
    }
  }

  lemma AfterJoined(cpus: nat, s: State, first: seq<Actor>, run: seq<Actor>)
    ensures After(cpus, s, first + run) == After(cpus, After(cpus, s, first), run)
  {
    FoldJoined(Stepper(cpus), s, first, run);
  }

  // ---------------------------------------------------------------- counting workers

  function Total(ws: seq<WorkerPc>, weight: WorkerPc -> nat): nat {
    if ws == [] then 0 else Total(ws[..|ws| - 1], weight) + weight(ws[|ws| - 1])
  }

  lemma {:induction false} TotalUpdate(ws: seq<WorkerPc>, weight: WorkerPc -> nat, k: nat, w: WorkerPc)
    requires k < |ws|
    ensures Total(ws[k := w], weight) + weight(ws[k]) == Total(ws, weight) + weight(w)
  {
    var n := |ws| - 1;
    if k == n {
      assert ws[k := w][..n] == ws[..n];
    } else {
      TotalUpdate(ws[..n], weight, k, w);
      assert ws[k := w][..n] == ws[..n][k := w];
    }
  }

  lemma TotalAppend(ws: seq<WorkerPc>, weight: WorkerPc -> nat, w: WorkerPc)
    ensures Total(ws + [w], weight) == Total(ws, weight) + weight(w)
  {
  }

  lemma {:induction false} TotalZero(ws: seq<WorkerPc>, weight: WorkerPc -> nat)
    ensures Total(ws, weight) == 0 <==> forall k | 0 <= k < |ws| :: weight(ws[k]) == 0
  {
    if ws != [] {
      TotalZero(ws[..|ws| - 1], weight);
    }
  }

  lemma {:induction false} TotalMonotone(ws: seq<WorkerPc>, small: WorkerPc -> nat, large: WorkerPc -> nat)
    requires forall w: WorkerPc :: small(w) <= large(w)
    ensures Total(ws, small) <= Total(ws, large)
  {
    if ws != [] {
      TotalMonotone(ws[..|ws| - 1], small, large);
    }
  }

  /** The worker has not yet taken itself off the counter. */
  function Pending(w: WorkerPc): nat {
    if w == DecUnlock || w == Exited then 0 else 1
  }

  function Executing(w: WorkerPc): nat {
    if w == Running then 1 else 0
  }

  function StepsLeft(w: WorkerPc): nat {
    match w
    case Running => 6
    case ErrLock => 5
    case ErrUnlock => 4
    case DecLock => 3
    case Dec => 2
    case DecUnlock => 1
    case Exited => 0
  }

  // ---------------------------------------------------------------- the invariant

  predicate MainHolds(pc: MainPc) {
    pc in {WaitRead, WaitUnlock, Inc, IncUnlock, FinalRead, FinalUnlock}
  }

  predicate WorkerHolds(w: WorkerPc) {
    w in {ErrUnlock, Dec, DecUnlock}
  }

  /** The mutex is held by whoever is inside a critical section, and by nobody else. */
  ghost predicate Exclusive(s: State) {
    && (s.holder == ByMain <==> MainHolds(s.pc))
    && (forall k: nat | k < |s.workers| :: s.holder == ByWorker(k) <==> WorkerHolds(s.workers[k]))
    && (s.holder.ByWorker? ==> s.holder.k < |s.workers|)
  }

  /** The command that main has announced but not started yet. */
  function Announced(pc: MainPc): nat {
    if pc == IncUnlock || pc == Create then 1 else 0
  }

  /** The counter is the number of commands announced and not yet taken off. */
  ghost predicate Counted(s: State) {
    s.running == Total(s.workers, Pending) + Announced(s.pc)
  }

  /** What main last read may be stale, but never too small: main is the only one who increments. */
  ghost predicate Capped(cpus: nat, s: State) {
    && s.running <= cpus - 1
    && (s.pc in {WaitUnlock, WaitCheck} ==> s.running <= s.counter)
    && (s.pc in {IncLock, Inc} ==> s.running <= s.counter < cpus - 1)
  }

  ghost predicate AllExited(s: State) {
    forall k | 0 <= k < |s.workers| :: s.workers[k] == Exited
  }

  /** Main leaves the final loop, and destroys the mutex, only when every worker has given the mutex back. */
  ghost predicate Joined(s: State) {
    && (s.pc in {FinalUnlock, FinalCheck} && s.counter == 0 ==> AllExited(s))
    && (s.pc in {Destroy, Done} ==> AllExited(s))
    && (s.destroyed <==> s.pc == Done)
  }

  /** The command that main is dealing with. */
  function InHand(pc: MainPc): nat {
    if pc in {WaitLock, WaitRead, WaitUnlock, WaitCheck, IncLock, Inc, IncUnlock, Create} then 1 else 0
  }

  /** No command is lost or started twice, and no more than MAX_COMMANDS are started. */
  ghost predicate Conserved(commands: nat, s: State) {
    && s.left + InHand(s.pc) + |s.workers| == commands
    && |s.workers| + InHand(s.pc) <= MAX_COMMANDS
    && (s.pc == Fetch ==> |s.workers| < MAX_COMMANDS)
    && (s.pc in {FinalLock, FinalRead, FinalUnlock, FinalCheck, Destroy, Done} ==>
          s.left == 0 || |s.workers| == MAX_COMMANDS)
  }

  ghost predicate Inv(cpus: nat, commands: nat, s: State) {
    Exclusive(s) && Counted(s) && Capped(cpus, s) && Joined(s) && Conserved(commands, s)
  }

  // ---------------------------------------------------------------- every step keeps it

  lemma MainKeepsCount(cpus: nat, s: State)
    requires Counted(s)
    ensures Counted(MainStep(cpus, s))
  {
    var t := MainStep(cpus, s);
    if s.pc == Create {
      TotalAppend(s.workers, Pending, Running);
    } else {
      assert t.workers == s.workers && t.running - Announced(t.pc) == s.running - Announced(s.pc);
    }
  }

  lemma WorkerKeepsCount(s: State, k: nat, fails: bool)
    requires Counted(s) && k < |s.workers|
    ensures Counted(WorkerStep(s, k, fails))
  {
    var t := WorkerStep(s, k, fails);
    var w := t.workers[k];
    assert t.workers == s.workers[k := w] && t.running - s.running == Pending(w) - Pending(s.workers[k]);
    TotalUpdate(s.workers, Pending, k, w);
  }

  lemma MainKeepsExclusion(cpus: nat, s: State)
    requires Exclusive(s)
    ensures Exclusive(MainStep(cpus, s))
  {
  }

  lemma WorkerKeepsExclusion(s: State, k: nat, fails: bool)
    requires Exclusive(s) && k < |s.workers|
    ensures Exclusive(WorkerStep(s, k, fails))
  {
  }

  lemma StepKeepsCounters(cpus: nat, s: State, a: Actor)
    requires Counted(s) && Exclusive(s)
    ensures Counted(Step(cpus, s, a)) && Exclusive(Step(cpus, s, a))
  {
    match a
    case MainThread =>
      MainKeepsCount(cpus, s);
      MainKeepsExclusion(cpus, s);
    case Worker(k, fails) =>
      if k < |s.workers| {
        WorkerKeepsCount(s, k, fails);
        WorkerKeepsExclusion(s, k, fails);
      }
  }

  lemma StepKeepsCap(cpus: nat, s: State, a: Actor)
    requires Capped(cpus, s)
    ensures Capped(cpus, Step(cpus, s, a))
  {
  }

  lemma NobodyLeft(s: State)
    requires Counted(s) && Exclusive(s) && s.pc == FinalRead && s.running == 0
    ensures AllExited(s)
  {
    TotalZero(s.workers, Pending);
    forall k: nat | k < |s.workers| ensures s.workers[k] == Exited {
      assert Pending(s.workers[k]) == 0;
      assert s.holder == ByWorker(k) <==> WorkerHolds(s.workers[k]);
    }
  }

  lemma MainKeepsJoin(cpus: nat, s: State)
    requires Joined(s) && Counted(s) && Exclusive(s)
    ensures Joined(MainStep(cpus, s))
  {
    if s.pc == FinalRead && s.running == 0 {
      NobodyLeft(s);
    }
  }

  lemma WorkerKeepsJoin(s: State, k: nat, fails: bool)
    requires Joined(s) && k < |s.workers|
    ensures Joined(WorkerStep(s, k, fails))
  {
  }

  lemma StepKeepsJoin(cpus: nat, s: State, a: Actor)
    requires Joined(s) && Counted(s) && Exclusive(s)
    ensures Joined(Step(cpus, s, a))
  {
    match a
    case MainThread => MainKeepsJoin(cpus, s);
    case Worker(k, fails) =>
      if k < |s.workers| {
        WorkerKeepsJoin(s, k, fails);
      }
  }

  lemma StepKeepsCommands(cpus: nat, commands: nat, s: State, a: Actor)
    requires Conserved(commands, s)
    ensures Conserved(commands, Step(cpus, s, a))
  {
  }

  lemma StepKeepsInv(cpus: nat, commands: nat, s: State, a: Actor)
    requires Inv(cpus, commands, s)
    ensures Inv(cpus, commands, Step(cpus, s, a))
  {
    StepKeepsCounters(cpus, s, a);
    StepKeepsCap(cpus, s, a);
    StepKeepsJoin(cpus, s, a);
    StepKeepsCommands(cpus, commands, s, a);
  }

  /** Whatever the interleaving. */
  lemma {:induction false} AlwaysInv(cpus: nat, commands: nat, run: seq<Actor>)
    requires cpus > 0
    ensures Inv(cpus, commands, After(cpus, Init(commands), run))
  {
    if run != [] {
      AlwaysInv(cpus, commands, run[..|run| - 1]);
      StepKeepsInv(cpus, commands, After(cpus, Init(commands), run[..|run| - 1]), run[|run| - 1]);
    }
  }

  // ---------------------------------------------------------------- safety

  /** The cap: at most `cpus - 1` commands execute at any time, and the counter never leaves `0 .. cpus - 1`. */
  lemma ConcurrencyCap(cpus: nat, commands: nat, run: seq<Actor>)
    requires cpus > 0
    ensures var s := After(cpus, Init(commands), run);
            0 <= Total(s.workers, Executing) <= Total(s.workers, Pending) <= s.running <= cpus - 1
  {
    var s := After(cpus, Init(commands), run);
    AlwaysInv(cpus, commands, run);
    TotalMonotone(s.workers, Executing, Pending);
  }

  /** At most one thread is inside a critical section. */
  lemma MutualExclusion(cpus: nat, commands: nat, run: seq<Actor>, j: nat, k: nat)
    requires cpus > 0
    ensures var s := After(cpus, Init(commands), run);
            && (j < |s.workers| && WorkerHolds(s.workers[j]) ==> !MainHolds(s.pc))
            && (j < k < |s.workers| && WorkerHolds(s.workers[j]) ==> !WorkerHolds(s.workers[k]))
  {
    AlwaysInv(cpus, commands, run);
  }

  /** Once the mutex is destroyed every command up to the limit has been started and has ended, and no thread moves. */
  lemma SafeJoin(cpus: nat, commands: nat, run: seq<Actor>, a: Actor)
    requires cpus > 0
    ensures var s := After(cpus, Init(commands), run);
            s.destroyed ==>
              && AllExited(s) && |s.workers| == (if commands < MAX_COMMANDS then commands else MAX_COMMANDS)
              && s.running == 0 && s.holder == Free && Step(cpus, s, a) == s
  {
    var s := After(cpus, Init(commands), run);
    AlwaysInv(cpus, commands, run);
    if s.destroyed {
      TotalZero(s.workers, Pending);
      assert forall k: nat | k < |s.workers| :: s.holder == ByWorker(k) <==> WorkerHolds(s.workers[k]);
    }
  }

  // ---------------------------------------------------------------- progress

  function MainLeft(s: State): nat {
    match s.pc
    case Fetch => 40 * s.left + 10
    case WaitLock | WaitRead | WaitUnlock | WaitCheck => 40 * s.left + 40
    case IncLock => 40 * s.left + 39
    case Inc => 40 * s.left + 38
    case IncUnlock => 40 * s.left + 37
    case Create => 40 * s.left + 36
    case FinalLock | FinalRead | FinalUnlock | FinalCheck => 2
    case Destroy => 1
    case Done => 0
  }

  /** The steps still to take, not counting the waiting. */
  function WorkLeft(s: State): nat {
    MainLeft(s) + Total(s.workers, StepsLeft)
  }

  predicate Waiting(pc: MainPc) {
    pc in {WaitLock, WaitRead, WaitUnlock, WaitCheck, FinalLock, FinalRead, FinalUnlock, FinalCheck}
  }

  /** Outside `Create` main touches no worker. */
  lemma MainLeftFalls(cpus: nat, s: State)
    requires s.pc != Create
    ensures var t := MainStep(cpus, s);
            && t.workers == s.workers
            && (t == s || MainLeft(t) < MainLeft(s) || (MainLeft(t) == MainLeft(s) && Waiting(s.pc) && Waiting(t.pc)))
  {
  }

  lemma CreateLeavesLess(cpus: nat, s: State)
    requires s.pc == Create
    ensures WorkLeft(MainStep(cpus, s)) < WorkLeft(s)
  {
    var t := MainStep(cpus, s);
    assert t.workers == s.workers + [Running] && MainLeft(t) + 6 < MainLeft(s);
    TotalAppend(s.workers, StepsLeft, Running);
    assert Total(t.workers, StepsLeft) == Total(s.workers, StepsLeft) + 6;
  }

  /** A step that changes anything leaves less work, except when main goes round one of its waiting loops. */
  lemma MainWork(cpus: nat, s: State)
    ensures var t := MainStep(cpus, s);
            || t == s || WorkLeft(t) < WorkLeft(s)
            || (WorkLeft(t) == WorkLeft(s) && t.workers == s.workers && Waiting(s.pc) && Waiting(t.pc))
  {
    if s.pc == Create {
      CreateLeavesLess(cpus, s);
    } else {
      MainLeftFalls(cpus, s);
      SameWorkers(s, MainStep(cpus, s));
    }
  }

  lemma SameWorkers(s: State, t: State)
    requires t.workers == s.workers
    ensures WorkLeft(t) - MainLeft(t) == WorkLeft(s) - MainLeft(s)
  {
  }

  lemma WorkerWork(cpus: nat, s: State, k: nat, fails: bool)
    requires k < |s.workers|
    ensures var t := WorkerStep(s, k, fails); t == s || WorkLeft(t) < WorkLeft(s)
  {
    var t := WorkerStep(s, k, fails);
    if t != s {
      var w := t.workers[k];
      assert t.workers == s.workers[k := w] && StepsLeft(w) < StepsLeft(s.workers[k]) && t.pc == s.pc
        && t.left == s.left;
      TotalUpdate(s.workers, StepsLeft, k, w);
    }
  }

  /** So a run has at most `WorkLeft(Init(commands))` steps that are not waiting. */
  lemma OnlyWaitingRepeats(cpus: nat, s: State, a: Actor)
    ensures var t := Step(cpus, s, a);
            || t == s || WorkLeft(t) < WorkLeft(s)
            || (WorkLeft(t) == WorkLeft(s) && a == MainThread && Waiting(s.pc) && Waiting(t.pc))
  {
    match a
    case MainThread => MainWork(cpus, s);
    case Worker(k, fails) =>
      if k < |s.workers| {
        WorkerWork(cpus, s, k, fails);
      }
  }

  /** While main waits, some worker is still on the counter exactly if the counter is not 0.  So when main reads a
      count that keeps it waiting, there is such a worker at that moment. */
  lemma WaitingMeansPending(cpus: nat, commands: nat, s: State)
    requires Inv(cpus, commands, s) && Waiting(s.pc)
    ensures (exists k: nat :: k < |s.workers| && Pending(s.workers[k]) == 1) <==> s.running > 0
  {
    TotalZero(s.workers, Pending);
  }

  /** `k` steps of the same actor. */
  function Repeat(cpus: nat, s: State, a: Actor, k: nat): State
    decreases k
  {
    if k == 0 then s else Repeat(cpus, Step(cpus, s, a), a, k - 1)
  }

  lemma {:induction false} Repeated(cpus: nat, s: State, run: seq<Actor>, a: Actor, t: State, k: nat)
    returns (longer: seq<Actor>)
    requires After(cpus, s, run) == t
    ensures After(cpus, s, longer) == Repeat(cpus, t, a, k)
    decreases k
  {
    if k == 0 {
      longer := run;
    } else {
      AfterNext(cpus, s, run, a, t);
      longer := Repeated(cpus, s, run + [a], a, Step(cpus, t, a), k - 1);
    }
  }

  const WAITING_WITH_ONE := State(WaitCheck, 0, 1, 1, Free, [Running], false)
  const WAITING_WITH_NONE := State(WaitCheck, 0, 1, 0, Free, [Exited], false)

  const ANNOUNCED := State(Create, 1, 0, 1, Free, [], false)

  lemma Announces()
    ensures Repeat(2, Init(2), MainThread, 8) == ANNOUNCED
  {
  }

  lemma WaitsAgain()
    ensures Repeat(2, ANNOUNCED, MainThread, 5) == WAITING_WITH_ONE
  {
  }

  lemma WorkerEnds()
    ensures Repeat(2, WAITING_WITH_ONE, Worker(0, false), 4) == WAITING_WITH_NONE
  {
  }

  /** Later the count that main holds may be out of date: with two CPUs and two commands main can be about to go round
      again although every worker has ended. */
  lemma StaleCount() returns (run: seq<Actor>)
    ensures var s := After(2, Init(2), run);
            s.pc == WaitCheck && s.counter >= 2 - 1 && s.running == 0 && |s.workers| == 1 && AllExited(s)
  {
    Announces();
    WaitsAgain();
    WorkerEnds();
    run := Repeated(2, Init(2), [], MainThread, Init(2), 8);
    run := Repeated(2, Init(2), run, MainThread, ANNOUNCED, 5);
    run := Repeated(2, Init(2), run, Worker(0, false), WAITING_WITH_ONE, 4);
  }

  /** How far main is from giving the mutex back, or, when all workers have ended, from leaving its loop. */
  function LoopRank(cpus: nat, s: State): nat {
    var busy := Total(s.workers, StepsLeft) > 0;
    match s.pc
    case WaitRead | FinalRead => 2
    case WaitUnlock => if busy || s.counter < cpus - 1 then 1 else 5
    case FinalUnlock => if busy || s.counter == 0 then 1 else 5
    case WaitLock | FinalLock => if busy then 0 else 3
    case WaitCheck => if busy || s.counter < cpus - 1 then 0 else 4
    case FinalCheck => if busy || s.counter == 0 then 0 else 4
    case _ => 0
  }

  /** The step leaves less work, or brings the end of a wait closer. */
  predicate Descends(cpus: nat, s: State, t: State) {
    WorkLeft(t) < WorkLeft(s) || (WorkLeft(t) == WorkLeft(s) && LoopRank(cpus, t) < LoopRank(cpus, s))
  }

  /** Some worker moves, as long as main is outside its critical sections. */
  lemma WorkerCanMove(cpus: nat, s: State) returns (a: Actor)
    requires Exclusive(s) && !AllExited(s) && !MainHolds(s.pc)
    ensures WorkLeft(Step(cpus, s, a)) < WorkLeft(s)
  {
    var k: nat :| k < |s.workers| && s.workers[k] != Exited;
    if s.holder.ByWorker? {
      k := s.holder.k;
    }
    assert s.holder == ByWorker(k) <==> WorkerHolds(s.workers[k]);
    WorkerWork(cpus, s, k, true);
    a := Worker(k, true);
  }

  lemma MainLeavesSection(cpus: nat, s: State)
    requires MainHolds(s.pc) && !AllExited(s)
    ensures Descends(cpus, s, MainStep(cpus, s))
  {
    BusyMeansWork(s);
  }

  lemma BusyMeansWork(s: State)
    ensures AllExited(s) <==> Total(s.workers, StepsLeft) == 0
  {
    TotalZero(s.workers, StepsLeft);
  }

  lemma ExitedHoldNothing(s: State)
    requires Exclusive(s) && AllExited(s)
    ensures !s.holder.ByWorker?
  {
    assert s.holder.ByWorker? ==> exists k: nat :: k < |s.workers| && s.holder == ByWorker(k);
  }

  lemma MainAlone(cpus: nat, commands: nat, s: State)
    requires Inv(cpus, commands, s) && AllExited(s) && s.pc != Done && (cpus >= 2 || commands == 0)
    ensures Descends(cpus, s, MainStep(cpus, s))
  {
    BusyMeansWork(s);
    TotalZero(s.workers, Pending);
    ExitedHoldNothing(s);
    MainWork(cpus, s);
  }

  lemma SomeoneDescends(cpus: nat, commands: nat, s: State) returns (a: Actor)
    requires Inv(cpus, commands, s) && s.pc != Done && (cpus >= 2 || commands == 0)
    ensures Descends(cpus, s, Step(cpus, s, a))
  {
    if AllExited(s) {
      MainAlone(cpus, commands, s);
      a := MainThread;
    } else if MainHolds(s.pc) {
      MainLeavesSection(cpus, s);
      a := MainThread;
    } else {
      a := WorkerCanMove(cpus, s);
    }
  }

  lemma FinishFrom(cpus: nat, commands: nat, s: State) returns (rest: seq<Actor>)
    requires Inv(cpus, commands, s) && (cpus >= 2 || commands == 0)
    ensures After(cpus, s, rest).pc == Done
    decreases WorkLeft(s), LoopRank(cpus, s)
  {
    if s.pc == Done {
      return [];
    }
    var a := SomeoneDescends(cpus, commands, s);
    StepKeepsInv(cpus, commands, s, a);
    var tail := FinishFrom(cpus, commands, Step(cpus, s, a));
    AfterNext(cpus, s, [], a, s);
    assert [] + [a] == [a];
    AfterJoined(cpus, s, [a], tail);
    rest := [a] + tail;
  }

  /** There is no deadlock and no trap: whatever has happened so far, the program can still end. */
  lemma CanAlwaysFinish(cpus: nat, commands: nat, run: seq<Actor>)
    requires cpus >= 2 || (cpus == 1 && commands == 0)
    ensures exists rest: seq<Actor> :: After(cpus, After(cpus, Init(commands), run), rest).pc == Done
  {
    AlwaysInv(cpus, commands, run);
    var rest := FinishFrom(cpus, commands, After(cpus, Init(commands), run));
  }

  // ---------------------------------------------------------------- one CPU

  lemma OneCpuStep(commands: nat, s: State, a: Actor)
    requires Inv(1, commands, s) && s.workers == []
    ensures Step(1, s, a).workers == []
  {
    assert s.running == Announced(s.pc) && s.running <= 0;
  }

  /** With one CPU the test `Counter < nCPUs - 1` can never hold: no command is ever started. */
  lemma {:induction false} OneCpuStartsNothing(commands: nat, run: seq<Actor>)
    ensures After(1, Init(commands), run).workers == []
  {
    if run != [] {
      OneCpuStartsNothing(commands, run[..|run| - 1]);
      AlwaysInv(1, commands, run[..|run| - 1]);
      OneCpuStep(commands, After(1, Init(commands), run[..|run| - 1]), run[|run| - 1]);
    }
  }

  /** Exactly when the program can end at all. */
  lemma EndsExactly(cpus: nat, commands: nat)
    requires cpus > 0
    ensures (exists run: seq<Actor> :: After(cpus, Init(commands), run).pc == Done) <==> cpus >= 2 || commands == 0
  {
    if cpus >= 2 || commands == 0 {
      AlwaysInv(cpus, commands, []);
      var run := FinishFrom(cpus, commands, Init(commands));
    } else {
      forall run: seq<Actor> ensures After(cpus, Init(commands), run).pc != Done {
        OneCpuStartsNothing(commands, run);
        AlwaysInv(cpus, commands, run);
      }
    }
  }
}
