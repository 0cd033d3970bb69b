/** Infinite runs of the thread limiter: every fair one ends, and there are fair ones. */
module StarterRuns {
  import opened Starter

  ghost predicate Takes(cpus: nat, schedule: nat -> Actor, st: nat -> State, i: nat) {
    st(i + 1) == Step(cpus, st(i), schedule(i))
  }

  /** `st(i)` is the state after the first `i` moves of an infinite schedule. */
  ghost predicate Plays(cpus: nat, commands: nat, schedule: nat -> Actor, st: nat -> State) {
    st(0) == Init(commands) && forall i: nat :: Takes(cpus, schedule, st, i)
  }

  /** At moment `j` worker `k` is scheduled and moves. */
  ghost predicate WorkerMoves(schedule: nat -> Actor, st: nat -> State, j: nat, k: nat) {
    schedule(j).Worker? && schedule(j).k == k && st(j + 1) != st(j)
  }

  ghost predicate MainComes(schedule: nat -> Actor, i: nat) {
    exists j: nat :: i <= j && schedule(j) == MainThread
  }

  ghost predicate WorkerComes(schedule: nat -> Actor, st: nat -> State, i: nat, k: nat) {
    exists j: nat :: i <= j && WorkerMoves(schedule, st, j, k)
  }

  /** Worker `k` has been started and has not ended. */
  ghost predicate Alive(s: State, k: nat) {
    k < |s.workers| && s.workers[k] != Exited
  }

  /** Main is scheduled again and again, and a worker that has not ended moves again. */
  ghost predicate Fair(schedule: nat -> Actor, st: nat -> State) {
    && (forall i: nat :: MainComes(schedule, i))
    && (forall i: nat, k: nat | Alive(st(i), k) :: WorkerComes(schedule, st, i, k))
  }

  // ---------------------------------------------------------------- fair runs end

  lemma {:induction false} StaysInv(cpus: nat, commands: nat, schedule: nat -> Actor, st: nat -> State, i: nat)
    requires cpus > 0 && Plays(cpus, commands, schedule, st)
    ensures Inv(cpus, commands, st(i))
  {
    if i == 0 {
      AlwaysInv(cpus, commands, []);
    } else {
      StaysInv(cpus, commands, schedule, st, i - 1);
      assert Takes(cpus, schedule, st, i - 1);
      StepKeepsInv(cpus, commands, st(i - 1), schedule(i - 1));
    }
  }

  lemma WorkFallsOnce(cpus: nat, schedule: nat -> Actor, st: nat -> State, i: nat)
    requires Takes(cpus, schedule, st, i)
    ensures WorkLeft(st(i + 1)) <= WorkLeft(st(i))
    ensures schedule(i).Worker? && st(i + 1) != st(i) ==> WorkLeft(st(i + 1)) < WorkLeft(st(i))
  {
    OnlyWaitingRepeats(cpus, st(i), schedule(i));
  }

  lemma {:induction false} WorkFalls(cpus: nat, commands: nat, schedule: nat -> Actor, st: nat -> State, i: nat, j: nat)
    requires i <= j && Plays(cpus, commands, schedule, st)
    ensures WorkLeft(st(j)) <= WorkLeft(st(i))
    decreases j
  {
    if i < j {
      WorkFalls(cpus, commands, schedule, st, i, j - 1);
      assert Takes(cpus, schedule, st, j - 1);
      WorkFallsOnce(cpus, schedule, st, j - 1);
    }
  }

  lemma WorkerDescends(cpus: nat, commands: nat, schedule: nat -> Actor, st: nat -> State, i: nat, k: nat)
    returns (j: nat)
    requires Plays(cpus, commands, schedule, st) && WorkerComes(schedule, st, i, k)
    ensures WorkLeft(st(j)) < WorkLeft(st(i))
  {
    var m: nat :| i <= m && WorkerMoves(schedule, st, m, k);
    WorkFalls(cpus, commands, schedule, st, i, m);
    assert Takes(cpus, schedule, st, m);
    WorkFallsOnce(cpus, schedule, st, m);
    j := m + 1;
  }

  lemma ExitedStay(cpus: nat, s: State, a: Actor)
    requires AllExited(s) && a.Worker?
    ensures Step(cpus, s, a) == s
  {
  }

  /** While all workers have ended nothing happens until main is scheduled. */
  lemma {:induction false} IdleUntilMain(cpus: nat, commands: nat, schedule: nat -> Actor, st: nat -> State,
                                         i: nat, j: nat)
    returns (m: nat)
    requires i <= j && schedule(j) == MainThread && AllExited(st(i)) && Plays(cpus, commands, schedule, st)
    ensures i <= m <= j && schedule(m) == MainThread && st(m) == st(i)
    decreases j - i
  {
    if schedule(i) == MainThread {
      m := i;
    } else {
      assert Takes(cpus, schedule, st, i);
      ExitedStay(cpus, st(i), schedule(i));
      m := IdleUntilMain(cpus, commands, schedule, st, i + 1, j);
    }
  }

  lemma MainTurn(cpus: nat, commands: nat, schedule: nat -> Actor, st: nat -> State, m: nat)
    requires cpus >= 2 && schedule(m) == MainThread && Plays(cpus, commands, schedule, st)
    requires AllExited(st(m)) && st(m).pc != Done
    ensures Descends(cpus, st(m), st(m + 1))
  {
    StaysInv(cpus, commands, schedule, st, m);
    assert Takes(cpus, schedule, st, m);
    MainAlone(cpus, commands, st(m));
  }

  lemma SomeoneAlive(s: State)
    ensures AllExited(s) || exists k: nat :: Alive(s, k)
  {
    if !AllExited(s) {
      var k: nat :| k < |s.workers| && s.workers[k] != Exited;
      assert Alive(s, k);
    }
  }

  /** From any moment before the end there is a later one that is closer to it. */
  lemma FairDescends(cpus: nat, commands: nat, schedule: nat -> Actor, st: nat -> State, i: nat) returns (j: nat)
    requires cpus >= 2 && Plays(cpus, commands, schedule, st) && Fair(schedule, st) && st(i).pc != Done
    ensures Descends(cpus, st(i), st(j))
  {
    if k: nat :| Alive(st(i), k) {
      j := WorkerDescends(cpus, commands, schedule, st, i, k);
    } else {
      SomeoneAlive(st(i));
      assert MainComes(schedule, i);
      var next: nat :| i <= next && schedule(next) == MainThread;
      var m := IdleUntilMain(cpus, commands, schedule, st, i, next);
      MainTurn(cpus, commands, schedule, st, m);
      j := m + 1;
    }
  }

  lemma EndsFrom(cpus: nat, commands: nat, schedule: nat -> Actor, st: nat -> State, i: nat) returns (j: nat)
    requires cpus >= 2 && Plays(cpus, commands, schedule, st) && Fair(schedule, st)
    ensures st(j).pc == Done
    decreases WorkLeft(st(i)), LoopRank(cpus, st(i))
  {
    if st(i).pc == Done {
      j := i;
    } else {
      var next := FairDescends(cpus, commands, schedule, st, i);
      j := EndsFrom(cpus, commands, schedule, st, next);
    }
  }

  /** With two CPUs or more, every fair schedule ends the program. */
  lemma FairSchedulesEnd(cpus: nat, commands: nat, schedule: nat -> Actor, st: nat -> State)
    requires cpus >= 2 && Plays(cpus, commands, schedule, st) && Fair(schedule, st)
    ensures exists j: nat :: st(j).pc == Done
  {
    var j := EndsFrom(cpus, commands, schedule, st, 0);
  }

  // ---------------------------------------------------------------- there are fair runs

  lemma OthersLeaveAlive(cpus: nat, s: State, a: Actor, k: nat)
    requires Alive(s, k) && (a.Worker? && a.k == k ==> Step(cpus, s, a) == s)
    ensures Alive(Step(cpus, s, a), k)
  {
  }

  /** A worker that is alive now and has ended later moves in between. */
  lemma {:induction false} MustMove(cpus: nat, commands: nat, schedule: nat -> Actor, st: nat -> State,
                                    i: nat, end: nat, k: nat)
    requires Plays(cpus, commands, schedule, st) && i <= end && Alive(st(i), k) && AllExited(st(end))
    ensures WorkerComes(schedule, st, i, k)
    decreases end - i
  {
    if !WorkerMoves(schedule, st, i, k) {
      assert Takes(cpus, schedule, st, i);
      OthersLeaveAlive(cpus, st(i), schedule(i), k);
      assert i != end;
      MustMove(cpus, commands, schedule, st, i + 1, end, k);
    }
  }

  /** Plays `run` and then main for ever. */
  ghost function Padded(run: seq<Actor>): nat -> Actor {
    (i: nat) => if i < |run| then run[i] else MainThread
  }

  ghost function PaddedStates(cpus: nat, commands: nat, run: seq<Actor>): nat -> State {
    (i: nat) => After(cpus, Init(commands), if i < |run| then run[..i] else run)
  }

  lemma PaddedPlays(cpus: nat, commands: nat, run: seq<Actor>)
    requires After(cpus, Init(commands), run).pc == Done
    ensures Plays(cpus, commands, Padded(run), PaddedStates(cpus, commands, run))
  {
    var schedule, st := Padded(run), PaddedStates(cpus, commands, run);
    forall i: nat ensures Takes(cpus, schedule, st, i) {
      if i < |run| {
        assert run[..i] + [run[i]] == if i + 1 < |run| then run[..i + 1] else run;
        AfterNext(cpus, Init(commands), run[..i], run[i], st(i));
      }
    }
    assert st(0) == Init(commands) by {
      assert run == [] || run[..0] == [];
    }
  }

  lemma AliveIsEarly(cpus: nat, commands: nat, run: seq<Actor>, i: nat, k: nat)
    requires AllExited(After(cpus, Init(commands), run)) && Alive(PaddedStates(cpus, commands, run)(i), k)
    ensures i < |run|
  {
    assert i >= |run| ==> PaddedStates(cpus, commands, run)(i) == After(cpus, Init(commands), run);
  }

  /** Fairness can be met. */
  lemma FairExists(cpus: nat, commands: nat) returns (schedule: nat -> Actor, st: nat -> State)
    requires cpus >= 2
    ensures Plays(cpus, commands, schedule, st) && Fair(schedule, st)
  {
    AlwaysInv(cpus, commands, []);
    var run := FinishFrom(cpus, commands, Init(commands));
    schedule, st := Padded(run), PaddedStates(cpus, commands, run);
    PaddedPlays(cpus, commands, run);
    AlwaysInv(cpus, commands, run);
    assert st(|run|) == After(cpus, Init(commands), run);
    forall i: nat ensures MainComes(schedule, i) {
      assert schedule(i + |run|) == MainThread;
    }
    forall i: nat, k: nat | Alive(st(i), k) ensures WorkerComes(schedule, st, i, k) {
      AliveIsEarly(cpus, commands, run, i, k);
      MustMove(cpus, commands, schedule, st, i, |run|, k);
    }
  }
}
