/** The thread limiter makes use of its cap: as many commands as it allows do run at a time, and main does not wait
    while a CPU is free. */
module StarterCap {
  import opened Starter

  /** A command is still to be announced. */
  predicate ToAnnounce(s: State) {
    (s.pc == Fetch && s.left > 0) || s.pc in {WaitLock, WaitRead, WaitUnlock, WaitCheck, IncLock, Inc}
  }

  /** How many steps main is from announcing its command, if the counter it holds lets it pass. */
  function StepsToInc(cpus: nat, s: State): nat {
    match s.pc
    case Fetch => 8
    case WaitLock => 7
    case WaitRead => 6
    case WaitUnlock => if s.counter < cpus - 1 then 5 else 9
    case WaitCheck => if s.counter < cpus - 1 then 4 else 8
    case IncLock => 3
    case _ => 2
  }

  lemma MainComesCloser(cpus: nat, s: State)
    requires Exclusive(s) && ToAnnounce(s) && !s.holder.ByWorker? && s.running < cpus - 1
    ensures var t := MainStep(cpus, s);
            || t.running == s.running + 1
            || (ToAnnounce(t) && !t.holder.ByWorker? && t.running == s.running
                && StepsToInc(cpus, t) < StepsToInc(cpus, s))
  {
  }

  /** With a CPU free and no worker inside a critical section, steps of main alone announce one more command. */
  lemma {:induction false} MainAnnounces(cpus: nat, s: State) returns (k: nat)
    requires Exclusive(s) && ToAnnounce(s) && !s.holder.ByWorker? && s.running < cpus - 1
    ensures Repeat(cpus, s, MainThread, k).running == s.running + 1
    ensures k <= StepsToInc(cpus, s)
    decreases StepsToInc(cpus, s)
  {
    var t := MainStep(cpus, s);
    MainComesCloser(cpus, s);
    MainKeepsExclusion(cpus, s);
    if t.running == s.running + 1 {
      k := 1;
    } else {
      var rest := MainAnnounces(cpus, t);
      k := rest + 1;
      RepeatFirst(cpus, s, t, k);
    }
  }

  /** So in every run: main is never held up by anything but the cap, or a worker that is about to leave its critical
      section. */
  lemma FreeCpuIsUsed(cpus: nat, commands: nat, run: seq<Actor>) returns (longer: seq<Actor>)
    requires cpus > 0
    requires var s := After(cpus, Init(commands), run); ToAnnounce(s) && !s.holder.ByWorker? && s.running < cpus - 1
    ensures run <= longer && |longer| <= |run| + 9 && forall i | |run| <= i < |longer| :: longer[i] == MainThread
    ensures After(cpus, Init(commands), longer).running == After(cpus, Init(commands), run).running + 1
  {
    var s := After(cpus, Init(commands), run);
    AlwaysInv(cpus, commands, run);
    var k := MainAnnounces(cpus, s);
    longer := MainRuns(cpus, Init(commands), run, s, k);
  }

  lemma {:induction false} MainRuns(cpus: nat, s: State, run: seq<Actor>, t: State, k: nat) returns (more: seq<Actor>)
    requires After(cpus, s, run) == t
    ensures run <= more && |more| == |run| + k && forall i | |run| <= i < |more| :: more[i] == MainThread
    ensures After(cpus, s, more) == Repeat(cpus, t, MainThread, k)
    decreases k
  {
    if k == 0 {
      more := run;
    } else {
      AfterNext(cpus, s, run, MainThread, t);
      more := MainRuns(cpus, s, run + [MainThread], Step(cpus, t, MainThread), k - 1);
    }
  }

  // ---------------------------------------------------------------- the cap is reached

  function Min(a: nat, b: nat): nat {
    if a < b then a else b
  }

  /** As many commands as may run at a time. */
  function Cap(cpus: nat, commands: nat): nat
    requires cpus > 0
  {
    Min(cpus - 1, Min(commands, MAX_COMMANDS))
  }

  /** `k` commands are executing, none has ended, and main is at the top of its loop (or past it). */
  ghost predicate AllRunning(s: State, commands: nat, k: nat) {
    && s.holder == Free && s.running == k == |s.workers| && s.left + k == commands && !s.destroyed
    && s.pc == (if k == MAX_COMMANDS then FinalLock else Fetch)
    && forall i | 0 <= i < k :: s.workers[i] == Running
  }

  /** Nine steps of main start one more. */
  lemma OneMore(cpus: nat, commands: nat, s: State, k: nat)
    requires AllRunning(s, commands, k) && k < cpus - 1 && k < commands && k < MAX_COMMANDS
    ensures AllRunning(Repeat(cpus, s, MainThread, 9), commands, k + 1)
  {
    var s5 := s.(left := s.left - 1, counter := k, pc := WaitCheck);
    var s8 := s5.(running := k + 1, pc := Create);
    ComesToCheck(cpus, s, s5, 9);
    ComesToCreate(cpus, s5, s8, 5);
    assert Repeat(cpus, s8, MainThread, 1) == MainStep(cpus, s8);
  }

  lemma RepeatFirst(cpus: nat, s: State, t: State, n: nat)
    requires n > 0 && t == MainStep(cpus, s)
    ensures Repeat(cpus, s, MainThread, n) == Repeat(cpus, t, MainThread, n - 1)
  {
  }

  lemma ComesToCheck(cpus: nat, s: State, t: State, n: nat)
    requires s.pc == Fetch && s.left > 0 && s.holder == Free && n >= 4
    requires t == s.(left := s.left - 1, counter := s.running, pc := WaitCheck)
    ensures Repeat(cpus, s, MainThread, n) == Repeat(cpus, t, MainThread, n - 4)
  {
    var s1 := s.(left := s.left - 1, pc := WaitLock);
    var s2 := s1.(holder := ByMain, pc := WaitRead);
    var s3 := s2.(counter := s.running, pc := WaitUnlock);
    RepeatFirst(cpus, s, s1, n);
    RepeatFirst(cpus, s1, s2, n - 1);
    RepeatFirst(cpus, s2, s3, n - 2);
    RepeatFirst(cpus, s3, t, n - 3);
  }

  lemma ComesToCreate(cpus: nat, s: State, t: State, n: nat)
    requires s.pc == WaitCheck && s.counter < cpus - 1 && s.holder == Free && n >= 4
    requires t == s.(running := s.running + 1, pc := Create)
    ensures Repeat(cpus, s, MainThread, n) == Repeat(cpus, t, MainThread, n - 4)
  {
    var s1 := s.(pc := IncLock);
    var s2 := s1.(holder := ByMain, pc := Inc);
    var s3 := s2.(running := s.running + 1, pc := IncUnlock);
    RepeatFirst(cpus, s, s1, n);
    RepeatFirst(cpus, s1, s2, n - 1);
    RepeatFirst(cpus, s2, s3, n - 2);
    RepeatFirst(cpus, s3, t, n - 3);
  }

  lemma {:induction false} RunningTotal(ws: seq<WorkerPc>)
    requires forall i | 0 <= i < |ws| :: ws[i] == Running
    ensures Total(ws, Executing) == |ws|
  {
    if ws != [] {
      RunningTotal(ws[..|ws| - 1]);
    }
  }

  lemma {:induction false} RunningAtOnce(cpus: nat, commands: nat, k: nat) returns (run: seq<Actor>)
    requires cpus > 0 && k <= Cap(cpus, commands)
    ensures AllRunning(After(cpus, Init(commands), run), commands, k)
  {
    if k == 0 {
      run := [];
    } else {
      run := RunningAtOnce(cpus, commands, k - 1);
      var s := After(cpus, Init(commands), run);
      OneMore(cpus, commands, s, k - 1);
      run := MainRuns(cpus, Init(commands), run, s, 9);
    }
  }

  /** The limiter lets as many commands run at a time as it may: for any number of CPUs and commands, some run comes to
      a state where that many execute. */
  lemma CapIsReached(cpus: nat, commands: nat) returns (run: seq<Actor>)
    requires cpus > 0
    ensures Total(After(cpus, Init(commands), run).workers, Executing)
            == Min(cpus - 1, Min(commands, MAX_COMMANDS))
  {
    run := RunningAtOnce(cpus, commands, Cap(cpus, commands));
    RunningTotal(After(cpus, Init(commands), run).workers);
  }

  // ---------------------------------------------------------------- one worker

  lemma WorkerFirst(cpus: nat, s: State, a: Actor, t: State, n: nat)
    requires n > 0 && t == Step(cpus, s, a)
    ensures Repeat(cpus, s, a, n) == Repeat(cpus, t, a, n - 1)
  {
  }

  lemma WorkerTakesOff(cpus: nat, s: State, k: nat, a: Actor, n: nat)
    requires k < |s.workers| && s.workers[k] == DecLock && s.holder == Free && a.Worker? && a.k == k && n >= 2
    ensures var t := s.(running := s.running - 1, holder := ByWorker(k), workers := s.workers[k := DecUnlock]);
            Repeat(cpus, s, a, n) == Repeat(cpus, t, a, n - 2)
  {
    var s1 := s.(holder := ByWorker(k), workers := s.workers[k := Dec]);
    var s2 := s1.(running := s.running - 1, workers := s.workers[k := DecUnlock]);
    WorkerFirst(cpus, s, a, s1, n);
    WorkerFirst(cpus, s1, a, s2, n - 1);
    assert s2 == s.(running := s.running - 1, holder := ByWorker(k), workers := s.workers[k := DecUnlock]);
  }

  lemma WorkerReports(cpus: nat, s: State, k: nat, a: Actor, n: nat)
    requires k < |s.workers| && s.workers[k] == Running && s.holder == Free && a == Worker(k, true) && n >= 3
    ensures Repeat(cpus, s, a, n) == Repeat(cpus, s.(workers := s.workers[k := DecLock]), a, n - 3)
  {
    var s1 := s.(workers := s.workers[k := ErrLock]);
    var s2 := s1.(holder := ByWorker(k), workers := s.workers[k := ErrUnlock]);
    var s3 := s.(workers := s.workers[k := DecLock]);
    WorkerFirst(cpus, s, a, s1, n);
    WorkerFirst(cpus, s1, a, s2, n - 1);
    WorkerFirst(cpus, s2, a, s3, n - 2);
  }

  /** A worker alone, with the mutex free: its fourth step ends it and gives the mutex back, or its sixth if its command
      failed, because it then enters a critical section of its own to say so. */
  lemma WorkerAlone(cpus: nat, s: State, k: nat, fails: bool)
    requires k < |s.workers| && s.workers[k] == Running && s.holder == Free
    ensures var n := if fails then 5 else 3;
            var last := Repeat(cpus, s, Worker(k, fails), n);
            && last.workers == s.workers[k := DecUnlock] && last.holder == ByWorker(k)
            && Step(cpus, last, Worker(k, fails)) == s.(running := s.running - 1, workers := s.workers[k := Exited])
  {
    var a := Worker(k, fails);
    var t := s.(workers := s.workers[k := DecLock]);
    if fails {
      WorkerReports(cpus, s, k, a, 5);
    } else {
      WorkerFirst(cpus, s, a, t, 3);
    }
    WorkerTakesOff(cpus, t, k, a, 2);
    var last := t.(running := s.running - 1, holder := ByWorker(k), workers := s.workers[k := DecUnlock]);
    assert t.workers[k := DecUnlock] == s.workers[k := DecUnlock];
    assert last.workers[k := Exited] == s.workers[k := Exited];
  }
}
