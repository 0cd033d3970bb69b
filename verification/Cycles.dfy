/** Which latches feed back to themselves (ace2/cycle.c): a depth-first search over the fanins that stamps every
    object it visits with the number of the pass. */
module Cycles {
  import opened AceInfo
  import opened Network

  // ---------------------------------------------------------------- paths

  /** Each object of `p` is read by the one before it. */
  ghost predicate FaninPath(n: Ntk, p: seq<nat>)
    requires Shaped(n)
  {
    && (forall i | 0 <= i < |p| :: p[i] < n.Size())
    && (forall i | 0 <= i < |p| - 1 :: p[i + 1] in n.fanins[p[i]])
  }

  /** A non-empty fanin path leads from `a` to `b`. */
  ghost predicate Reaches(n: Ntk, a: nat, b: nat)
    requires Shaped(n)
  {
    exists p: seq<nat> :: |p| >= 2 && FaninPath(n, p) && p[0] == a && p[|p| - 1] == b
  }

  ghost predicate OnCycle(n: Ntk, o: nat)
    requires Shaped(n)
  {
    Reaches(n, o, o)
  }

  lemma ReachesFanin(n: Ntk, a: nat, b: nat)
    requires Shaped(n) && a < n.Size() && b in n.fanins[a]
    ensures Reaches(n, a, b)
  {
    assert FaninPath(n, [a, b]);
  }

  lemma ReachesThrough(n: Ntk, a: nat, f: nat, b: nat)
    requires Shaped(n) && a < n.Size() && f in n.fanins[a] && Reaches(n, f, b)
    ensures Reaches(n, a, b)
  {
    var p: seq<nat> :| |p| >= 2 && FaninPath(n, p) && p[0] == f && p[|p| - 1] == b;
    var q := [a] + p;
    forall i | 0 <= i < |q| - 1 ensures q[i + 1] in n.fanins[q[i]] {
      assert i > 0 ==> p[i - 1 + 1] in n.fanins[p[i - 1]];
    }
    assert FaninPath(n, q);
  }

  /** The fanins of the objects in `from` lie in `to`, and none is `target`. */
  ghost predicate Closed(n: Ntk, from: set<nat>, to: set<nat>, target: nat)
    requires Shaped(n)
  {
    forall o: nat, i: nat | o in from && o < n.Size() && i < |n.fanins[o]| ::
      n.fanins[o][i] in to && n.fanins[o][i] != target
  }

  lemma {:induction false} PathStaysInside(n: Ntk, p: seq<nat>, inside: set<nat>, target: nat)
    requires Shaped(n) && FaninPath(n, p) && p != [] && p[0] in inside && Closed(n, inside, inside, target)
    ensures p[|p| - 1] in inside && (|p| >= 2 ==> p[|p| - 1] != target)
  {
    if |p| >= 2 {
      PathStaysInside(n, p[..|p| - 1], inside, target);
      var o, f := p[|p| - 2], p[|p| - 1];
      var i :| 0 <= i < |n.fanins[o]| && n.fanins[o][i] == f;
    }
  }

  lemma NoWayOut(n: Ntk, inside: set<nat>, a: nat, target: nat)
    requires Shaped(n) && a in inside && Closed(n, inside, inside, target)
    ensures !Reaches(n, a, target)
  {
    forall p: seq<nat> | |p| >= 2 && FaninPath(n, p) && p[0] == a ensures p[|p| - 1] != target {
      PathStaysInside(n, p, inside, target);
    }
  }

  // ---------------------------------------------------------------- the search

  ghost function Stamped(s: seq<Info>, pass: int): set<nat> {
    set o: nat | o < |s| && s[o].flag == pass
  }

  ghost function Unstamped(s: seq<Info>, pass: int): set<nat> {
    set o: nat | o < |s| && s[o].flag != pass
  }

  /** The records are as before, except that some now carry the stamp. */
  ghost predicate OnlyStamps(s: seq<Info>, t: seq<Info>, pass: int) {
    |s| == |t| && forall o: nat | o < |s| :: t[o] == s[o] || t[o] == s[o].(flag := pass)
  }

  /** Searches from `start` for an object that reads `target`, past the objects that carry the stamp already.  When
      it fails it has stamped everything that it could reach. */
  method InCycle(n: Ntk, info: array<Info>, target: nat, start: nat, pass: int) returns (found: bool)
    requires Shaped(n) && info.Length == n.Size() && start < n.Size()
    modifies info
    ensures OnlyStamps(old(info[..]), info[..], pass)
    ensures found ==> Reaches(n, start, target)
    ensures !found ==> start in Stamped(info[..], pass)
    ensures !found ==>
              Closed(n, Stamped(info[..], pass) - Stamped(old(info[..]), pass), Stamped(info[..], pass), target)
    ensures !found && Stamped(old(info[..]), pass) == {} ==> !Reaches(n, start, target)
    decreases Unstamped(info[..], pass)
  {
    if info[start].flag == pass {
      return false;
    }
    ghost var before := Stamped(info[..], pass);
    info[start] := info[start].(flag := pass);
    for i := 0 to |n.fanins[start]|
      invariant OnlyStamps(old(info[..]), info[..], pass) && info[start].flag == pass
      invariant Closed(n, Stamped(info[..], pass) - before - {start}, Stamped(info[..], pass), target)
      invariant forall j: nat | j < i :: n.fanins[start][j] in Stamped(info[..], pass) && n.fanins[start][j] != target
    {
      var fanin := n.fanins[start][i];
      if fanin == target {
        ReachesFanin(n, start, target);
        return true;
      }
      ghost var was := info[..];
      assert start in Unstamped(old(info[..]), pass) - Unstamped(was, pass);
      var below := InCycle(n, info, target, fanin, pass);
      if below {
        ReachesThrough(n, start, fanin, target);
        return true;
      }
      assert Stamped(was, pass) <= Stamped(info[..], pass);
    }
    if before == {} {
      NoWayOut(n, Stamped(info[..], pass), start, target);
    }
    return false;
  }

  // ---------------------------------------------------------------- the latches

  /** The latches on a cycle among the first `k`, in network order. */
  ghost function Cyclic(n: Ntk, k: nat): seq<nat>
    requires Shaped(n) && k <= |n.latches|
  {
    if k == 0 then []
    else if OnCycle(n, n.latches[k - 1].self) then Cyclic(n, k - 1) + [n.latches[k - 1].self]
    else Cyclic(n, k - 1)
  }

  /** Only the stamps differ. */
  ghost predicate OnlyFlags(s: seq<Info>, t: seq<Info>) {
    |s| == |t| && forall o: nat | o < |s| :: t[o] == s[o].(flag := t[o].flag)
  }

  ghost predicate FlagsBelow(s: seq<Info>, pass: int) {
    forall o: nat | o < |s| :: s[o].flag < pass
  }

  lemma StampKeepsBelow(s: seq<Info>, t: seq<Info>, u: seq<Info>, pass: int)
    requires OnlyFlags(s, t) && FlagsBelow(t, pass) && OnlyStamps(t, u, pass)
    ensures OnlyFlags(s, u) && FlagsBelow(u, pass + 1)
  {
  }

  method ClearFlags(n: Net, info: array<Info>)
    requires info.Length == n.Size()
    modifies info
    ensures OnlyFlags(old(info[..]), info[..]) && FlagsBelow(info[..], 0)
  {
    for o := 0 to info.Length
      invariant forall j: nat | j < o :: info[j] == old(info[..])[j].(flag := -1)
      invariant forall j: nat | o <= j < info.Length :: info[j] == old(info[..])[j]
    {
      info[o] := info[o].(flag := -1);
    }
  }

  /** One pass: the stamps in the records are older than `pass`, so the search is exact. */
  method FreshPass(n: Net, info: array<Info>, i: nat, pass: int, ghost was: seq<Info>) returns (cyclic: bool)
    requires info.Length == n.Size() && i < |n.latches| && FlagsBelow(info[..], pass) && OnlyFlags(was, info[..])
    modifies info
    ensures Cyclic(n, i + 1) == if cyclic then Cyclic(n, i) + [n.latches[i].self] else Cyclic(n, i)
    ensures FlagsBelow(info[..], pass + 1) && OnlyFlags(was, info[..])
  {
    assert LatchWired(n, n.latches[i]);
    assert Stamped(info[..], pass) == {};
    cyclic := InCycle(n, info, n.latches[i].self, n.latches[i].self, pass);
    StampKeepsBelow(was, old(info[..]), info[..], pass);
  }

  method SearchLatches(n: Net, info: array<Info>, ghost was: seq<Info>) returns (found: seq<nat>)
    requires info.Length == n.Size() && FlagsBelow(info[..], 0) && OnlyFlags(was, info[..])
    modifies info
    ensures found == Cyclic(n, |n.latches|) && OnlyFlags(was, info[..])
  {
    found := [];
    var passNum := 0;
    for i := 0 to |n.latches|
      invariant passNum == i && found == Cyclic(n, i)
      invariant FlagsBelow(info[..], passNum) && OnlyFlags(was, info[..])
    {
      var cyclic := FreshPass(n, info, i, passNum, was);
      if cyclic {
        found := found + [n.latches[i].self];
      }
      passNum := passNum + 1;
    }
  }

  /** The latches that lie on a fanin path back to themselves, in network order.  The passes use different stamps,
      so what an earlier pass visited hides nothing from a later one. */
  method LatchesInCycles(n: Net, info: array<Info>) returns (found: seq<nat>)
    requires info.Length == n.Size()
    modifies info
    ensures found == Cyclic(n, |n.latches|)
    ensures OnlyFlags(old(info[..]), info[..])
  {
    ClearFlags(n, info);
    found := SearchLatches(n, info, old(info[..]));
  }

  /** Which objects the result holds. */
  lemma {:induction false} CyclicExactly(n: Net, k: nat, o: nat)
    requires k <= |n.latches|
    ensures o in Cyclic(n, k) <==> exists i: nat :: i < k && n.latches[i].self == o && OnCycle(n, o)
  {
    if k > 0 {
      CyclicExactly(n, k - 1, o);
    }
  }
}
