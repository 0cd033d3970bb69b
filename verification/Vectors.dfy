/** The vector reader's statistics (ace2/io_ace.c) and their agreement with the simulator that replays the vectors. */
module Vectors {
  import opened AceInfo
  import opened LongRuns
  import opened Network
  import opened Sim
  import opened SimCounters
  import opened SimActivities
  import opened SimLatches
  import opened Traces
  import opened VectorFile

  // ---------------------------------------------------------------- what the loop counts

  function BitOf(c: char): int {
    if c == '1' then 1 else 0
  }

  ghost function BitsOf(col: seq<char>): (s: seq<int>)
    ensures |s| == |col| && Bits(s)
  {
    seq(|col|, i requires 0 <= i < |col| => BitOf(col[i]))
  }

  /** A toggle is counted on '0' after a 1 and on '1' after a 0; any other character is stored as 0 uncounted. */
  predicate CountsToggle(c: char, current: int) {
    (c == '0' && current == 1) || (c == '1' && current == 0)
  }

  ghost function CountedToggles(col: seq<char>): nat {
    if |col| < 2 then 0
    else CountedToggles(col[..|col| - 1]) + (if CountsToggle(col[|col| - 1], BitOf(col[|col| - 2])) then 1 else 0)
  }

  ghost function Column(lines: seq<string>, i: nat): (col: seq<char>)
    requires forall l | l in lines :: i < |l|
    ensures |col| == |lines|
  {
    seq(|lines|, k requires 0 <= k < |lines| => lines[k][i])
  }

  lemma BitsStep(col: seq<char>, c: char)
    ensures BitsOf(col + [c]) == BitsOf(col) + [BitOf(c)]
    ensures CountOnes(BitsOf(col + [c])) == CountOnes(BitsOf(col)) + BitOf(c)
  {
  }

  lemma TogglesStep(col: seq<char>, c: char)
    ensures CountedToggles(col + [c]) ==
            CountedToggles(col) + if col != [] && CountsToggle(c, BitOf(col[|col| - 1])) then 1 else 0
  {
  }

  lemma ColumnStep(lines: seq<string>, l: string, i: nat)
    requires (forall k | k in lines :: i < |k|) && i < |l|
    ensures Column(lines + [l], i) == Column(lines, i) + [l[i]]
  {
  }

  /** The state of input `i` once `lines` have been read. */
  ghost predicate Counted(lines: seq<string>, i: nat, high: int, toggles: int, current: int, values: seq<int>)
    requires forall l | l in lines :: i < |l|
  {
    var col := Column(lines, i);
    && high == CountOnes(BitsOf(col)) && toggles == CountedToggles(col) && values == BitsOf(col)
    && current == if col == [] then 0 else BitOf(col[|col| - 1])
  }

  /** The lines before the first one of the wrong length. */
  ghost function GoodLines(lines: seq<string>, numPi: nat): (k: nat)
    ensures k <= |lines| && (forall l | l in lines[..k] :: |l| == numPi) && (k < |lines| ==> |lines[k]| != numPi)
  {
    if lines == [] || |lines[0]| != numPi then 0
    else
      var k := GoodLines(lines[1..], numPi);
      assert lines[..1 + k] == [lines[0]] + lines[1..][..k];
      1 + k
  }

  lemma {:induction false} GoodLinesAre(lines: seq<string>, numPi: nat, k: nat)
    requires k <= |lines| && (forall i | 0 <= i < k :: |lines[i]| == numPi) && (k < |lines| ==> |lines[k]| != numPi)
    ensures GoodLines(lines, numPi) == k
  {
    if k > 0 {
      GoodLinesAre(lines[1..], numPi, k - 1);
    }
  }

  lemma CountedStep(before: seq<string>, l: string, i: nat, high: int, toggles: int, current: int, values: seq<int>)
    requires (forall k | k in before :: i < |k|) && i < |l| && Counted(before, i, high, toggles, current, values)
    ensures var bit := BitOf(l[i]);
            Counted(before + [l], i, high + bit,
                    if before != [] && CountsToggle(l[i], current) then toggles + 1 else toggles, bit, values + [bit])
  {
    ColumnStep(before, l, i);
    BitsStep(Column(before, i), l[i]);
    TogglesStep(Column(before, i), l[i]);
  }

  lemma NothingYet(lines: seq<string>, i: nat, high: int, toggles: int, current: int, values: seq<int>)
    requires (forall l | l in lines :: i < |l|) && Counted(lines, i, high, toggles, current, values)
    ensures lines == [] ==> high == toggles == 0
  {
  }

  method CountLine(ghost before: seq<string>, numVec: nat, vector: string,
                   high: array<int>, toggles: array<int>, current: array<int>, values: array<seq<int>>)
    requires high.Length == toggles.Length == current.Length == values.Length == |vector| && numVec == |before|
    requires high != toggles && high != current && toggles != current
    requires forall l | l in before :: |l| == |vector|
    requires forall i: nat | i < |vector| :: Counted(before, i, high[i], toggles[i], current[i], values[i])
    modifies high, toggles, current, values
    ensures forall i: nat | i < |vector| :: Counted(before + [vector], i, high[i], toggles[i], current[i], values[i])
  {
    for i := 0 to |vector|
      invariant forall j: nat | j < i :: Counted(before + [vector], j, high[j], toggles[j], current[j], values[j])
      invariant forall j: nat | i <= j < |vector| :: Counted(before, j, high[j], toggles[j], current[j], values[j])
    {
      CountedStep(before, vector, i, high[i], toggles[i], current[i], values[i]);
      NothingYet(before, i, high[i], toggles[i], current[i], values[i]);
      CountChar(numVec, vector[i], i, high, toggles, current, values);
    }
  }

  method CountChar(numVec: nat, c: char, i: nat,
                   high: array<int>, toggles: array<int>, current: array<int>, values: array<seq<int>>)
    requires high.Length == toggles.Length == current.Length == values.Length && i < high.Length
    requires high != toggles && high != current && toggles != current
    requires numVec == 0 ==> high[i] == toggles[i] == 0
    modifies high, toggles, current, values
    ensures high[..] == old(high[..])[i := old(high[i]) + BitOf(c)]
    ensures toggles[..] ==
            old(toggles[..])[i := old(toggles[i]) + if numVec != 0 && CountsToggle(c, old(current[i])) then 1 else 0]
    ensures current[..] == old(current[..])[i := BitOf(c)]
    ensures values[..] == old(values[..])[i := old(values[i]) + [BitOf(c)]]
  {
    if numVec == 0 {
      high[i] := BitOf(c);
      toggles[i] := 0;
      current[i] := BitOf(c);
    } else {
      high[i] := high[i] + BitOf(c);
      if CountsToggle(c, current[i]) {
        toggles[i] := toggles[i] + 1;
      }
      current[i] := BitOf(c);
    }
    values[i] := values[i] + [BitOf(c)];
  }

  // ---------------------------------------------------------------- the whole file

  /** The file was read, or a vector had the wrong length, or an assertion of the reader aborted. */
  datatype Outcome = Finished | WrongLength | Aborted

  ghost predicate AllCounted(lines: seq<string>, numPi: nat,
                             high: seq<int>, toggles: seq<int>, current: seq<int>, values: seq<seq<int>>) {
    && |high| == |toggles| == |current| == |values| == numPi && (forall l | l in lines :: |l| == numPi)
    && forall i: nat | i < numPi :: Counted(lines, i, high[i], toggles[i], current[i], values[i])
  }

  /** The vectors that the reader processes. */
  ghost function Processed(text: string, limit: nat, garbage: string): seq<string>
    requires limit > 0
  {
    Words(FullLines(text, limit), garbage)
  }

  /** The vectors up to the first of the wrong length. */
  ghost function Accepted(text: string, limit: nat, garbage: string, numPi: nat): seq<string>
    requires limit > 0
  {
    var lines := Processed(text, limit, garbage);
    lines[..GoodLines(lines, numPi)]
  }

  ghost predicate HasWrongLength(text: string, limit: nat, garbage: string, numPi: nat)
    requires limit > 0
  {
    exists l :: l in Processed(text, limit, garbage) && |l| != numPi
  }

  /** The contents of the buffer. */
  function Buffer(ws: seq<string>, garbage: string): string {
    if ws == [] then garbage else ws[|ws| - 1]
  }

  /** The vectors of all lines, from the point of view of the loop: what it has seen is a prefix. */
  lemma SeenSoFar(all: seq<string>, garbage: string, before: seq<string>, line: string)
    requires before + [line] <= all
    ensures var lines := Words(all, garbage);
            && lines[..|before|] == Words(before, garbage)
            && lines[|before|] == Scan(line, Buffer(Words(before, garbage), garbage))
  {
    assert all == before + [line] + all[|before| + 1..];
    assert all == before + all[|before|..];
    WordsNext(before, line, garbage);
    WordsOfPrefix(before + [line], all[|before| + 1..], garbage);
    WordsOfPrefix(before, all[|before|..], garbage);
    assert Words(all, garbage)[|before|] == Words(before + [line], garbage)[|before|];
  }

  lemma FirstWrong(lines: seq<string>, numPi: nat, k: nat)
    requires k < |lines| && |lines[k]| != numPi && forall w | w in lines[..k] :: |w| == numPi
    ensures GoodLines(lines, numPi) == k && exists l :: l in lines && |l| != numPi
  {
    forall i | 0 <= i < k ensures |lines[i]| == numPi {
      assert lines[..k][i] == lines[i];
    }
    GoodLinesAre(lines, numPi, k);
    assert lines[k] in lines;
  }

  lemma StopsAt(text: string, limit: nat, garbage: string, numPi: nat, before: seq<string>, line: string, rest: string)
    requires limit > 0 && Reading(text, limit, before, line, rest, false) && EndsOpen(text, limit)
    requires forall w | w in Words(before, garbage) :: |w| == numPi
    requires |Scan(line, Buffer(Words(before, garbage), garbage))| != numPi
    ensures HasWrongLength(text, limit, garbage, numPi)
    ensures Accepted(text, limit, garbage, numPi) == Words(before, garbage)
  {
    ReadingPrefix(text, limit, before, line, rest);
    SeenSoFar(FullLines(text, limit), garbage, before, line);
    FirstWrong(Words(FullLines(text, limit), garbage), numPi, |before|);
  }

  lemma ReadsAll(text: string, limit: nat, garbage: string, numPi: nat)
    requires limit > 0 && forall w | w in Processed(text, limit, garbage) :: |w| == numPi
    ensures !HasWrongLength(text, limit, garbage, numPi)
    ensures Accepted(text, limit, garbage, numPi) == Processed(text, limit, garbage)
  {
    var lines := Processed(text, limit, garbage);
    GoodLinesAre(lines, numPi, |lines|);
  }

  lemma EndsAtLast(text: string, limit: nat, garbage: string, numPi: nat, before: seq<string>, line: string,
                   rest: string)
    requires limit > 0 && Reading(text, limit, before, line, rest, true)
    requires forall w | w in Words(before, garbage) :: |w| == numPi
    ensures before == FullLines(text, limit) && !HasWrongLength(text, limit, garbage, numPi)
    ensures Accepted(text, limit, garbage, numPi) == Words(before, garbage)
  {
    ReadingEnds(text, limit, before, line, rest);
    ReadsAll(text, limit, garbage, numPi);
  }

  /** There is room for the line, and its vector is the next one. */
  lemma GoesOn(text: string, limit: nat, garbage: string, before: seq<string>, line: string, rest: string)
    requires limit > 0 && Reading(text, limit, before, line, rest, false) && EndsOpen(text, limit)
    ensures |before| < |FullLines(text, limit)|
    ensures var ws := Words(before, garbage); Words(before + [line], garbage) == ws + [Scan(line, Buffer(ws, garbage))]
  {
    ReadingPrefix(text, limit, before, line, rest);
    WordsNext(before, line, garbage);
  }

  /** One turn of the second pass, which then reads the next line; `capacity` is the number of entries that the first
      pass made room for. */
  method CountNext(stream: Stream, ghost before: seq<string>, ghost last: string, vector: string, numVec: nat,
                   ghost capacity: nat, ghost garbage: string,
                   high: array<int>, toggles: array<int>, current: array<int>, values: array<seq<int>>)
    returns (line: Option<string>)
    requires high != toggles && high != current && toggles != current
    requires stream.Valid() && !stream.eof && EndsOpen(stream.text, stream.limit)
    requires Reading(stream.text, stream.limit, before, last, stream.Rest(), stream.eof)
    requires vector == Scan(last, Buffer(Words(before, garbage), garbage)) && numVec == |before|
    requires capacity == |FullLines(stream.text, stream.limit)|
    requires AllCounted(Words(before, garbage), |vector|, high[..], toggles[..], current[..], values[..])
    modifies stream, high, toggles, current, values
    ensures stream.Valid() && line.Some? && stream.pos > old(stream.pos) && numVec < capacity
    ensures Reading(stream.text, stream.limit, before + [last], line.value, stream.Rest(), stream.eof)
    ensures vector == Buffer(Words(before + [last], garbage), garbage)
    ensures AllCounted(Words(before + [last], garbage), |vector|, high[..], toggles[..], current[..], values[..])
  {
    ghost var ws := Words(before, garbage);
    GoesOn(stream.text, stream.limit, garbage, before, last, stream.Rest());
    CountLine(ws, numVec, vector, high, toggles, current, values);
    line := NextLine(stream, before, last);
  }

  method ReadVectors(stream: Stream, numPi: nat, ghost capacity: nat, garbage: string,
                     high: array<int>, toggles: array<int>, current: array<int>, values: array<seq<int>>)
    returns (outcome: Outcome)
    requires stream.Valid() && stream.pos == 0 && !stream.eof && EndsOpen(stream.text, stream.limit)
    requires capacity == |FullLines(stream.text, stream.limit)|
    requires high != toggles && high != current && toggles != current
    requires AllCounted([], numPi, high[..], toggles[..], current[..], values[..])
    modifies stream, high, toggles, current, values
    ensures stream.Valid()
    ensures outcome == Aborted <==> numPi > 0 && FullLines(stream.text, stream.limit) == []
    ensures outcome == WrongLength <==> HasWrongLength(stream.text, stream.limit, garbage, numPi)
    ensures AllCounted(Accepted(stream.text, stream.limit, garbage, numPi), numPi, high[..], toggles[..], current[..],
            values[..])
  {
    ghost var before := [];
    var numVec, vector := 0, garbage;
    var line := FirstLine(stream);
    while !stream.eof
      invariant stream.Valid() && line.Some? && numVec == |before|
      invariant Reading(stream.text, stream.limit, before, line.value, stream.Rest(), stream.eof)
      invariant vector == Buffer(Words(before, garbage), garbage)
      invariant AllCounted(Words(before, garbage), numPi, high[..], toggles[..], current[..], values[..])
      decreases |stream.text| - stream.pos
    {
      ghost var last := line.value;
      vector := Scan(line.value, vector);
      if |vector| != numPi {
        StopsAt(stream.text, stream.limit, garbage, numPi, before, last, stream.Rest());
        return WrongLength;
      }
      line := CountNext(stream, before, last, vector, numVec, capacity, garbage, high, toggles, current, values);
      before := before + [last];
      numVec := numVec + 1;
    }
    EndsAtLast(stream.text, stream.limit, garbage, numPi, before, line.value, stream.Rest());
    return if numPi > 0 && numVec == 0 then Aborted else Finished;
  }

  /** Reads the file twice, and counts ones and toggles column by column.  It aborts exactly if the last line is
      complete, or is the only one; it processes all lines but the last, up to the first vector of the wrong length.
      `garbage` is what the uninitialised buffer holds. */
  method CountVectors(stream: Stream, numPi: nat, garbage: string,
                      high: array<int>, toggles: array<int>, current: array<int>, values: array<seq<int>>)
    returns (outcome: Outcome)
    requires stream.Valid() && stream.pos == 0 && !stream.eof
    requires high.Length == toggles.Length == current.Length == values.Length == numPi
    requires high != toggles && high != current && toggles != current
    requires forall i | 0 <= i < numPi :: high[i] == toggles[i] == current[i] == 0 && values[i] == []
    modifies stream, high, toggles, current, values
    ensures stream.Valid()
    ensures outcome == Aborted <==>
            !EndsOpen(stream.text, stream.limit) || (numPi > 0 && FullLines(stream.text, stream.limit) == [])
    ensures outcome == WrongLength <==>
            EndsOpen(stream.text, stream.limit) && HasWrongLength(stream.text, stream.limit, garbage, numPi)
    ensures outcome != Aborted ==>
            AllCounted(Accepted(stream.text, stream.limit, garbage, numPi), numPi, high[..], toggles[..], current[..],
              values[..])
  {
    var ok, numLines := CountLines(stream);
    if !ok {
      return Aborted;
    }
    stream.Rewind();
    NothingCounted(numPi, high[..], toggles[..], current[..], values[..]);
    outcome := ReadVectors(stream, numPi, numLines, garbage, high, toggles, current, values);
  }

  lemma NothingCounted(numPi: nat, high: seq<int>, toggles: seq<int>, current: seq<int>, values: seq<seq<int>>)
    requires |high| == |toggles| == |current| == |values| == numPi
    requires forall i | 0 <= i < numPi :: high[i] == toggles[i] == current[i] == 0 && values[i] == []
    ensures AllCounted([], numPi, high, toggles, current, values)
  {
  }

  // ---------------------------------------------------------------- how long the vectors are

  /** What the reader stores for an input has one entry per accepted line; never more than the first pass counted,
      and exactly as many when the file is read to its end. */
  lemma StoredLengths(text: string, limit: nat, garbage: string, numPi: nat,
                      high: seq<int>, toggles: seq<int>, current: seq<int>, values: seq<seq<int>>)
    requires limit > 0 && AllCounted(Accepted(text, limit, garbage, numPi), numPi, high, toggles, current, values)
    ensures forall v | v in values :: |v| <= |FullLines(text, limit)|
    ensures !HasWrongLength(text, limit, garbage, numPi) ==> forall v | v in values :: |v| == |FullLines(text, limit)|
  {
    var lines := Accepted(text, limit, garbage, numPi);
    forall v | v in values ensures |v| == |lines| {
      var i: nat :| i < numPi && values[i] == v;
      assert Counted(lines, i, high[i], toggles[i], current[i], values[i]);
    }
    if !HasWrongLength(text, limit, garbage, numPi) {
      ReadsAll(text, limit, garbage, numPi);
    }
  }

  /** `pis` lists the primary inputs, and each has the vector of its position. */
  ghost predicate HoldsVectors(n: Net, cfg: seq<Info>, pis: seq<nat>, values: seq<seq<int>>) {
    && |cfg| == n.Size() && |pis| == |values|
    && (forall o: nat | o < n.Size() :: n.kind[o] == PI <==> o in pis)
    && forall i: nat | i < |pis| :: pis[i] < n.Size() && cfg[pis[i]].values == Some(values[i])
  }

  /** After a file that was read to its end, a simulation stays inside the vectors exactly if it is no longer than
      the file has complete lines. */
  lemma FileCoversRun(text: string, limit: nat, garbage: string, n: Net, cfg: seq<Info>, pis: seq<nat>, cycles: nat,
                      high: seq<int>, toggles: seq<int>, current: seq<int>, values: seq<seq<int>>)
    requires limit > 0 && !HasWrongLength(text, limit, garbage, |pis|) && HoldsVectors(n, cfg, pis, values)
    requires AllCounted(Accepted(text, limit, garbage, |pis|), |pis|, high, toggles, current, values)
    ensures VectorsCover(n, cfg, cycles) <==> pis == [] || cycles <= |FullLines(text, limit)|
  {
    StoredLengths(text, limit, garbage, |pis|, high, toggles, current, values);
    forall o: nat | o < n.Size() && n.kind[o] == PI
      ensures cfg[o].values.Some? && |cfg[o].values.value| == |FullLines(text, limit)|
    {
      var i: nat :| i < |pis| && pis[i] == o;
      assert values[i] in values;
    }
    if pis != [] {
      assert pis[0] in pis && n.kind[pis[0]] == PI;
    }
  }

  // ---------------------------------------------------------------- what the counts mean

  /** A character other than '0' and '1' directly after a '1'. */
  ghost predicate HidesToggle(col: seq<char>) {
    exists k :: 0 < k < |col| && col[k - 1] == '1' && col[k] != '0' && col[k] != '1'
  }

  /** The counted toggles are the changes of the stored bits exactly when no stray character hides a fall. */
  lemma {:induction false} CountedTogglesExactly(col: seq<char>)
    ensures CountedToggles(col) <= Changes(BitsOf(col))
    ensures CountedToggles(col) == Changes(BitsOf(col)) <==> !HidesToggle(col)
  {
    if |col| >= 2 {
      var r := col[..|col| - 1];
      CountedTogglesExactly(r);
      assert BitsOf(col)[..|col| - 1] == BitsOf(r);
      if HidesToggle(r) {
        var k :| 0 < k < |r| && r[k - 1] == '1' && r[k] != '0' && r[k] != '1';
        assert col[k - 1] == '1' && col[k] != '0' && col[k] != '1';
      }
      if HidesToggle(col) {
        var k :| 0 < k < |col| && col[k - 1] == '1' && col[k] != '0' && col[k] != '1';
        assert k < |r| ==> r[k - 1] == '1' && r[k] != '0' && r[k] != '1';
      }
    }
  }

  /** A stray character after a 1: the stored bit falls, the count does not show it. */
  lemma StrayHidesFall()
    ensures HidesToggle("1x") && CountedToggles("1x") == 0 && Changes(BitsOf("1x")) == 1
  {
    var col := "1x";
    assert col[0] == '1' && col[1] == 'x';
    assert BitsOf(col) == [1, 0];
    assert Changes([1, 0]) == 1;
  }

  /** The probabilities that the reader derives always satisfy the assertions made before the simulation. */
  lemma ReaderIsConsistent(col: seq<char>)
    requires col != []
    ensures var n := |col| as real;
            var high, toggles := CountOnes(BitsOf(col)) as real, CountedToggles(col) as real;
            Consistent(high / n, toggles / n) && 0.0 <= toggles / n <= 1.0
  {
    var s := BitsOf(col);
    ChangeBalance(s);
    ChangesBelowLength(s);
    CountedTogglesExactly(col);
    FractionsConsistent(|col|, CountOnes(s), CountedToggles(col));
  }

  lemma FractionsConsistent(n: nat, high: nat, toggles: nat)
    requires n > 0 && high <= n && toggles <= n && toggles <= 2 * high && toggles <= 2 * (n - high)
    ensures Consistent(high as real / n as real, toggles as real / n as real)
    ensures 0.0 <= toggles as real / n as real <= 1.0
  {
    var c, h, t := n as real, high as real, toggles as real;
    RatioCompare(h, 1.0, c);
    RatioCompare(t, 1.0, c);
    var p := h / c;
    assert p * c == h;
    ScaledBy(p, c);
    RatioCompare(t, 2.0 * p, c);
    RatioCompare(t, 2.0 * (1.0 - p), c);
  }

  lemma ScaledBy(p: real, c: real)
    ensures 2.0 * p * c == 2.0 * (p * c) && 2.0 * (1.0 - p) * c == 2.0 * c - 2.0 * (p * c)
  {
  }

  // ---------------------------------------------------------------- replay

  lemma VectorStays(n: Net, cfg: seq<Info>, draw: (nat, nat) -> real, t: nat)
    requires |cfg| == n.Size()
    ensures forall o: nat | o < n.Size() :: Run(n, cfg, draw, t)[o].values == cfg[o].values
  {
    RunSteady(n, cfg, draw, t);
    forall o: nat | o < n.Size() ensures Run(n, cfg, draw, t)[o].values == cfg[o].values {
      assert Run(n, cfg, draw, t)[o].(sim := cfg[o].sim) == cfg[o];
    }
  }

  lemma VectorShown(n: Net, cfg: seq<Info>, draw: (nat, nat) -> real, t: nat, o: nat, vs: seq<int>)
    requires |cfg| == n.Size() && o < n.Size() && n.kind[o] == PI && cfg[o].values == Some(vs) && Bits(vs) && t < |vs|
    ensures Evaluated(n, cfg, draw, t)[o].sim.value == vs[t]
  {
    var s := Run(n, cfg, draw, t);
    VectorStays(n, cfg, draw, t);
    RunReady(n, cfg, draw, t);
    ReadyAt(n, s, o);
    NodeUntouched(n, PiStage(n, s, t, draw), |n.dfs|, o);
    assert PiStep(s[o], t, draw(t, o)).value == vs[t];
  }

  /** The simulator shows a 0/1 vector as it is. */
  lemma TraceIsVector(n: Net, cfg: seq<Info>, draw: (nat, nat) -> real, t: nat, o: nat, vs: seq<int>)
    requires |cfg| == n.Size() && o < n.Size() && n.kind[o] == PI && cfg[o].values == Some(vs) && Bits(vs) && t <= |vs|
    ensures SimTrace(n, cfg, draw, t, o) == vs[..t]
  {
    forall i: nat | i < t ensures SimTrace(n, cfg, draw, t, o)[i] == vs[i] {
      VectorShown(n, cfg, draw, i, o, vs);
    }
  }

  /** Replaying a column over its whole length gives the counters of its bits. */
  lemma ReplayCounts(n: Net, cfg: seq<Info>, draw: (nat, nat) -> real, o: nat, col: seq<char>)
    requires |cfg| == n.Size() && o < n.Size() && n.kind[o] == PI && col != [] && cfg[o].values == Some(BitsOf(col))
    ensures Matches(PI, Evaluated(n, cfg, draw, |col| - 1)[o].sim, BitsOf(col))
  {
    var t := |col| - 1;
    CountersAreExact(n, cfg, draw, t, o);
    assert SimTrace(n, cfg, draw, t + 1, o) == BitsOf(col) by {
      TraceIsVector(n, cfg, draw, t + 1, o, BitsOf(col));
    }
    SameTrace(Evaluated(n, cfg, draw, t)[o].sim, SimTrace(n, cfg, draw, t + 1, o), BitsOf(col));
  }

  lemma SameTrace(a: Activity, s: seq<int>, r: seq<int>)
    requires Matches(PI, a, s) && s == r
    ensures Matches(PI, a, r)
  {
  }

  /** The same number of ones as the reader counted, and as many toggles plus one exactly when the column starts
      with '1' - provided no stray character hid a fall from the reader. */
  lemma ReplayAgrees(a: Activity, col: seq<char>)
    requires col != [] && Matches(PI, a, BitsOf(col))
    ensures a.numOnes == CountOnes(BitsOf(col))
    ensures a.numToggles == CountedToggles(col) + BitOf(col[0]) <==> !HidesToggle(col)
  {
    CountedTogglesExactly(col);
  }

  /** The vectors on which the closing assertions of the simulation fail, told from the file alone. */
  lemma VectorTripsExactly(n: Net, cfg: seq<Info>, draw: (nat, nat) -> real, cycles: nat, o: nat, col: seq<char>)
    requires |cfg| == n.Size() && o < n.Size() && n.kind[o] == PI && cfg[o].values == Some(BitsOf(col))
    requires cycles <= |col|
    ensures InputTrips(n, cfg, draw, cycles, o) <==> ShortRun(cycles) && ZerosIsolated(BitsOf(col)[..cycles])
  {
    TraceIsVector(n, cfg, draw, cycles, o, BitsOf(col));
  }

  /** And those behind which a clamp of stage 4 aborts in a long run; `o` is the input or a latch output it reaches. */
  lemma VectorFragileExactly(n: Net, cfg: seq<Info>, draw: (nat, nat) -> real, cycles: nat, o: nat, col: seq<char>)
    requires |cfg| == n.Size() && o < n.Size() && n.kind[Origin(n, o)] == PI
    requires cfg[Origin(n, o)].values == Some(BitsOf(col)) && cycles <= |col|
    ensures Fragile(n, cfg, draw, cycles, o) <==>
            ZerosIsolated(BitsOf(col)[..cycles]) && 1 <= Zeros(BitsOf(col)[..cycles]) <= 50000
  {
    TraceIsVector(n, cfg, draw, cycles, Origin(n, o), BitsOf(col));
  }

  /** An input that is always 1, for one. */
  lemma ConstantOneTrips(n: Net, cfg: seq<Info>, draw: (nat, nat) -> real, cycles: nat, o: nat, col: seq<char>)
    requires |cfg| == n.Size() && o < n.Size() && n.kind[o] == PI && cfg[o].values == Some(BitsOf(col))
    requires 0 < cycles <= |col| && ShortRun(cycles) && forall i | 0 <= i < |col| :: col[i] == '1'
    ensures InputTrips(n, cfg, draw, cycles, o)
  {
    var s := BitsOf(col)[..cycles];
    assert s[0] == 1 && s[|s| - 1] == 1 && forall i | 0 <= i < |s| :: s[i] != 0;
    VectorTripsExactly(n, cfg, draw, cycles, o, col);
  }
}
