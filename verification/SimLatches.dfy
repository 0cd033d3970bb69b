/** Register transfer: when the in-place loop over the latches is the simultaneous move. */
module SimLatches {
  import opened AceInfo
  import opened Network
  import opened Sim

  lemma OwnedOnce(n: Net, j: nat, k: nat, o: nat)
    requires j < |n.latches| && k < |n.latches| && Owns(n, j, o) && j != k
    ensures !Owns(n, k, o)
  {
  }

  /** Object `o` after the first `k` latches have taken over their drivers' records, all read before the move. */
  ghost function Moved(n: Net, s: seq<Info>, k: nat, o: nat): Info
    requires |s| == n.Size() && k <= |n.latches| && o < |s|
  {
    if k == 0 then s[o]
    else if Owns(n, k - 1, o) then Follow(s[o], s[n.latches[k - 1].driver])
    else Moved(n, s, k - 1, o)
  }

  ghost function Simultaneous(n: Net, s: seq<Info>): (t: seq<Info>)
    requires |s| == n.Size()
    ensures |t| == |s|
  {
    seq(|s|, o requires 0 <= o < |s| => Moved(n, s, |n.latches|, o))
  }

  lemma {:induction false} MovedOwner(n: Net, s: seq<Info>, k: nat, o: nat, j: nat)
    requires |s| == n.Size() && j < k <= |n.latches| && o < |s| && Owns(n, j, o)
    ensures Moved(n, s, k, o) == Follow(s[o], s[n.latches[j].driver])
    decreases k
  {
    if j < k - 1 {
      OwnedOnce(n, j, k - 1, o);
      MovedOwner(n, s, k - 1, o, j);
    }
  }

  /** A latch may read the output of an earlier one only if that one holds its own value. */
  ghost predicate ChainFreeBelow(n: Net, k: nat)
    requires k <= |n.latches|
  {
    forall i: nat, j: nat | i < j < k && n.latches[j].driver == n.latches[i].output ::
      n.latches[i].driver == n.latches[i].output
  }

  ghost predicate ChainFree(n: Net)
  {
    ChainFreeBelow(n, |n.latches|)
  }

  /** The move of latch `k` still finds its driver's old record. */
  lemma {:induction false} DriverUntouched(n: Net, s: seq<Info>, j: nat, k: nat)
    requires |s| == n.Size() && j <= k < |n.latches| && ChainFreeBelow(n, k + 1)
    ensures LatchWired(n, n.latches[k]) && Moved(n, s, j, n.latches[k].driver) == s[n.latches[k].driver]
  {
    if j > 0 {
      DriverUntouched(n, s, j - 1, k);
      assert LatchWired(n, n.latches[j - 1]) && LatchWired(n, n.latches[k]);
    }
  }

  lemma {:induction false} MovedKeepsRest(n: Net, s: seq<Info>, k: nat, o: nat)
    requires |s| == n.Size() && k <= |n.latches| && o < |s|
    ensures forall i: Info :: Follow(Moved(n, s, k, o), i) == Follow(s[o], i)
    decreases k
  {
    if k > 0 {
      MovedKeepsRest(n, s, k - 1, o);
    }
  }

  ghost predicate AllMoved(n: Net, s: seq<Info>, k: nat, t: seq<Info>)
    requires |s| == n.Size() && k <= |n.latches|
  {
    |t| == |s| && forall o: nat | o < |s| :: t[o] == Moved(n, s, k, o)
  }

  lemma MoveOneMore(n: Net, s: seq<Info>, k: nat, t: seq<Info>)
    requires |s| == n.Size() && k < |n.latches| && ChainFreeBelow(n, k + 1)
    requires AllMoved(n, s, k, t)
    ensures AllMoved(n, s, k + 1, LatchStep(n, t, k))
  {
    DriverUntouched(n, s, k, k);
    forall o: nat | o < |s| ensures LatchStep(n, t, k)[o] == Moved(n, s, k + 1, o) {
      MovedKeepsRest(n, s, k, o);
    }
  }

  lemma InPlaceBelow(n: Net, s: seq<Info>, k: nat)
    requires |s| == n.Size() && k <= |n.latches| && ChainFreeBelow(n, k)
    ensures AllMoved(n, s, k, LatchStage(n, s, k))
  {
    var inv := (i: nat, u: seq<Info>) => i <= |n.latches| && AllMoved(n, s, i, u);
    forall i: nat, u: seq<Info> | i < k && |u| == n.Size() && inv(i, u) ensures inv(i + 1, LatchStep(n, u, i)) {
      MoveOneMore(n, s, i, u);
    }
    LatchInduction(n, s, 0, k, inv);
  }

  /** A state in which only object `o` is 1. */
  ghost function OnlyOne(n: Net, o: nat): (s: seq<Info>)
    requires o < n.Size()
    ensures |s| == n.Size()
  {
    seq(n.Size(), x => Info(Activity(OLD, if x == o then 1 else 0, 0, 0), 0, 0, None, 0.0, 0.0, 0.0, 0.0, 0.0))
  }

  /** An object of latch `j` keeps what its driver held when the loop reached `j`. */
  lemma {:induction false} LatchOutcome(n: Net, s: seq<Info>, k: nat, j: nat, o: nat)
    requires |s| == n.Size() && j < k <= |n.latches| && o < n.Size() && Owns(n, j, o)
    ensures LatchStage(n, s, k)[o].sim == LatchStage(n, s, j)[n.latches[j].driver].sim
  {
    var a := LatchStage(n, s, j)[n.latches[j].driver].sim;
    var inv := (i: nat, u: seq<Info>) => |u| == n.Size() && u[o].sim == a;
    forall i: nat, u: seq<Info> | j < i < k && |u| == n.Size() && inv(i, u) ensures inv(i + 1, LatchStep(n, u, i)) {
      OwnedOnce(n, j, i, o);
    }
    LatchInduction(n, s, j + 1, k, inv);
  }

  /** A chain that is processed upstream first passes the wrong value through. */
  lemma ChainBreaks(n: Net, i: nat, j: nat)
    requires i < j < |n.latches| && ChainFreeBelow(n, j)
    requires n.latches[j].driver == n.latches[i].output && n.latches[i].driver != n.latches[i].output
    ensures var s := OnlyOne(n, n.latches[i].output);
            LatchStage(n, s, |n.latches|)[n.latches[j].output] != Simultaneous(n, s)[n.latches[j].output]
  {
    var s := OnlyOne(n, n.latches[i].output);
    var o := n.latches[j].output;
    assert LatchStage(n, s, |n.latches|)[o].sim.value == 0 by {
      LatchOutcome(n, s, |n.latches|, j, o);
      InPlaceBelow(n, s, j);
      MovedOwner(n, s, j, n.latches[i].output, i);
    }
    assert Simultaneous(n, s)[o].sim.value == 1 by {
      MovedOwner(n, s, |n.latches|, o, j);
    }
  }

  /** The least latch that closes a bad chain. */
  lemma {:induction false} FirstBadChain(n: Net, k: nat) returns (i: nat, j: nat)
    requires k <= |n.latches| && !ChainFreeBelow(n, k)
    ensures i < j < k && ChainFreeBelow(n, j)
    ensures n.latches[j].driver == n.latches[i].output && n.latches[i].driver != n.latches[i].output
  {
    if ChainFreeBelow(n, k - 1) {
      i, j :| i < j < k && n.latches[j].driver == n.latches[i].output && n.latches[i].driver != n.latches[i].output;
    } else {
      i, j := FirstBadChain(n, k - 1);
    }
  }

  /** The loop equals the simultaneous assignment in every state, exactly when no latch reads the output of an
      earlier latch (unless that one reads itself). */
  lemma InPlaceIsSimultaneous(n: Net)
    ensures ChainFree(n) <==>
            forall s: seq<Info> | |s| == n.Size() :: LatchStage(n, s, |n.latches|) == Simultaneous(n, s)
  {
    if ChainFree(n) {
      forall s: seq<Info> | |s| == n.Size() ensures LatchStage(n, s, |n.latches|) == Simultaneous(n, s) {
        InPlaceBelow(n, s, |n.latches|);
      }
    } else {
      var i, j := FirstBadChain(n, |n.latches|);
      ChainBreaks(n, i, j);
      var s := OnlyOne(n, n.latches[i].output);
      assert LatchStage(n, s, |n.latches|) != Simultaneous(n, s);
    }
  }

  // ---------------------------------------------------------------- in every network

  lemma {:induction false} LatchesKeepRest(n: Net, s: seq<Info>, k: nat, o: nat)
    requires |s| == n.Size() && k <= |n.latches| && o < n.Size()
    ensures LatchStage(n, s, k)[o] == s[o].(sim := LatchStage(n, s, k)[o].sim)
  {
    if k > 0 {
      LatchesKeepRest(n, s, k - 1, o);
    }
  }

  /** The object is not moved by the first `k` latches. */
  lemma {:induction false} NotYetMoved(n: Net, s: seq<Info>, k: nat, o: nat)
    requires |s| == n.Size() && k <= |n.latches| && o < n.Size() && forall j: nat | j < k :: !Owns(n, j, o)
    ensures LatchStage(n, s, k)[o] == s[o]
  {
    if k > 0 {
      NotYetMoved(n, s, k - 1, o);
    }
  }

  /** The signal that latch `k` ends up showing: its driver, followed through the outputs of earlier latches, which
      the loop has overwritten by the time it reaches `k`. */
  ghost function Source(n: Net, k: nat): (d: nat)
    requires k < |n.latches|
    ensures d < n.Size() && IsSignal(n.kind[d])
  {
    assert LatchWired(n, n.latches[k]);
    var d := n.latches[k].driver;
    if n.kind[d] == BO && LatchOf(n, d) < k then Source(n, LatchOf(n, d)) else d
  }

  /** What the driver of latch `k` holds when the loop reaches it. */
  lemma {:induction false} DriverHolds(n: Net, s: seq<Info>, k: nat)
    requires |s| == n.Size() && k < |n.latches|
    ensures LatchWired(n, n.latches[k])
    ensures LatchStage(n, s, k)[n.latches[k].driver].sim == s[Source(n, k)].sim
  {
    assert LatchWired(n, n.latches[k]);
    var d := n.latches[k].driver;
    if n.kind[d] == BO && LatchOf(n, d) < k {
      var i := LatchOf(n, d);
      DriverHolds(n, s, i);
      LatchOutcome(n, s, k, i, d);
    } else {
      forall j: nat | j < k ensures !Owns(n, j, d) {
        assert LatchWired(n, n.latches[j]);
        if n.kind[d] == BO {
          assert Owns(n, LatchOf(n, d), d);
          OwnedOnce(n, LatchOf(n, d), j, d);
        }
      }
      NotYetMoved(n, s, k, d);
    }
  }

  /** Whatever the wiring, the three objects of a latch take over the record of its source. */
  lemma LatchShowsSource(n: Net, s: seq<Info>, k: nat, o: nat)
    requires |s| == n.Size() && k < |n.latches| && o < n.Size() && Owns(n, k, o)
    ensures LatchStage(n, s, |n.latches|)[o].sim == s[Source(n, k)].sim
  {
    LatchOutcome(n, s, |n.latches|, k, o);
    DriverHolds(n, s, k);
  }

  /** Where the record of an object comes from: the source of its latch, or the object itself. */
  ghost function Origin(n: Net, o: nat): (p: nat)
    requires o < n.Size()
    ensures p < n.Size()
  {
    if k: nat :| k < |n.latches| && Owns(n, k, o) then Source(n, k) else o
  }

  lemma OriginOfLatch(n: Net, k: nat, o: nat)
    requires k < |n.latches| && o < n.Size() && Owns(n, k, o)
    ensures Origin(n, o) == Source(n, k)
  {
    forall j: nat | j < |n.latches| && Owns(n, j, o) ensures j == k {
      if j != k { OwnedOnce(n, j, k, o); }
    }
  }

  lemma OriginOfOther(n: Net, o: nat)
    requires o < n.Size() && (n.kind[o] in {PI, NODE} || forall k: nat | k < |n.latches| :: !Owns(n, k, o))
    ensures Origin(n, o) == o
  {
    forall k: nat | k < |n.latches| ensures n.kind[o] in {PI, NODE} ==> !Owns(n, k, o) {
      assert LatchWired(n, n.latches[k]);
    }
  }

  /** Without chains the source is the driver. */
  lemma {:induction false} SourceIsDriver(n: Net, k: nat)
    requires k < |n.latches| && ChainFree(n)
    ensures Source(n, k) == n.latches[k].driver
  {
    assert LatchWired(n, n.latches[k]);
    var d := n.latches[k].driver;
    if n.kind[d] == BO && LatchOf(n, d) < k {
      var i := LatchOf(n, d);
      assert n.latches[i].driver == n.latches[i].output == d;
    }
  }

  /** What every latch output shows after the loop, by object. */
  ghost function Sources(n: Net): (src: seq<nat>)
    ensures |src| == n.Size()
  {
    seq(n.Size(), o requires 0 <= o < n.Size() => if n.kind[o] == BO then Source(n, LatchOf(n, o)) else 0)
  }

  /** What a simultaneous transfer would show. */
  ghost function Drivers(n: Net): (src: seq<nat>)
    ensures |src| == n.Size()
  {
    seq(n.Size(), o requires 0 <= o < n.Size() => if n.kind[o] == BO then n.latches[LatchOf(n, o)].driver else 0)
  }

  lemma SourcesAreDrivers(n: Net)
    requires ChainFree(n)
    ensures Sources(n) == Drivers(n)
  {
    forall o: nat | o < n.Size() && n.kind[o] == BO
      ensures Source(n, LatchOf(n, o)) == n.latches[LatchOf(n, o)].driver
    {
      SourceIsDriver(n, LatchOf(n, o));
    }
  }

  /** So a latch and its input and output objects end with one and the same activity. */
  lemma LatchObjectsAgree(n: Net, s: seq<Info>, j: nat)
    requires |s| == n.Size() && j < |n.latches|
    ensures var t := LatchStage(n, s, |n.latches|);
            t[n.latches[j].input].sim == t[n.latches[j].self].sim == t[n.latches[j].output].sim
  {
    assert LatchWired(n, n.latches[j]);
    LatchShowsSource(n, s, j, n.latches[j].input);
    LatchShowsSource(n, s, j, n.latches[j].self);
    LatchShowsSource(n, s, j, n.latches[j].output);
  }

  lemma {:induction false} OnlyLatchObjectsMove(n: Net, s: seq<Info>, k: nat, o: nat)
    requires |s| == n.Size() && k <= |n.latches| && o < n.Size()
    requires n.kind[o] !in {BI, BO, LATCH}
    ensures LatchStage(n, s, k)[o] == s[o]
  {
    if k > 0 {
      OnlyLatchObjectsMove(n, s, k - 1, o);
      assert LatchWired(n, n.latches[k - 1]);
    }
  }
}
