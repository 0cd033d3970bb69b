/** Statistics of a stream of 0/1 values: how often it is 1 and how often it changes. */
module Traces {

  ghost predicate Bits(s: seq<int>) {
    forall i | 0 <= i < |s| :: s[i] == 0 || s[i] == 1
  }

  ghost function CountOnes(s: seq<int>): nat {
    if s == [] then 0 else CountOnes(s[..|s| - 1]) + (if s[|s| - 1] == 1 then 1 else 0)
  }

  ghost function Changes(s: seq<int>): nat {
    if |s| < 2 then 0 else Changes(s[..|s| - 1]) + (if s[|s| - 1] != s[|s| - 2] then 1 else 0)
  }

  /** The number of places where `b` is followed by `b`. */
  ghost function Repeats(s: seq<int>, b: int): nat {
    if |s| < 2 then 0 else Repeats(s[..|s| - 1], b) + (if s[|s| - 1] == b && s[|s| - 2] == b then 1 else 0)
  }

  function Is(v: int, b: int): nat {
    if v == b then 1 else 0
  }

  lemma CountOnesAppend(s: seq<int>, v: int)
    ensures CountOnes(s + [v]) == CountOnes(s) + Is(v, 1)
  {
  }

  lemma ChangesAppend(s: seq<int>, v: int)
    requires s != []
    ensures Changes(s + [v]) == Changes(s) + (if v != s[|s| - 1] then 1 else 0)
  {
  }

  /** Exactly what keeps the number of changes below twice the number of zeros, and of ones. */
  lemma {:induction false} ChangeBalance(s: seq<int>)
    requires s != [] && Bits(s)
    ensures CountOnes(s) <= |s|
    ensures 2 * (|s| - CountOnes(s)) == Changes(s) + Is(s[0], 0) + Is(s[|s| - 1], 0) + 2 * Repeats(s, 0)
    ensures 2 * CountOnes(s) == Changes(s) + Is(s[0], 1) + Is(s[|s| - 1], 1) + 2 * Repeats(s, 1)
  {
    if |s| == 1 {
      assert s[..0] == [];
      assert CountOnes(s) == Is(s[0], 1);
    } else {
      var r := s[..|s| - 1];
      ChangeBalance(r);
      assert r[|r| - 1] == s[|s| - 2];
    }
  }

  lemma {:induction false} ChangesBelowLength(s: seq<int>)
    ensures s != [] ==> Changes(s) < |s|
  {
    if |s| >= 2 {
      ChangesBelowLength(s[..|s| - 1]);
    }
  }

  /** Two zeros in a row. */
  ghost predicate HasDoubleZero(s: seq<int>) {
    exists i :: 0 < i < |s| && s[i - 1] == 0 && s[i] == 0
  }

  lemma {:induction false} RepeatsMeansDouble(s: seq<int>)
    ensures Repeats(s, 0) > 0 <==> HasDoubleZero(s)
  {
    if |s| >= 2 {
      var r := s[..|s| - 1];
      RepeatsMeansDouble(r);
      if HasDoubleZero(r) {
        var i :| 0 < i < |r| && r[i - 1] == 0 && r[i] == 0;
        assert s[i - 1] == 0 && s[i] == 0;
      }
      if HasDoubleZero(s) {
        var i :| 0 < i < |s| && s[i - 1] == 0 && s[i] == 0;
        assert i < |r| ==> r[i - 1] == 0 && r[i] == 0;
      }
    }
  }
}
