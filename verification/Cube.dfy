/** Cubes packed two bits per literal into 32-bit words (ace2/cube.h, ace2/cube.c).

    Word 0 of the allocation is never used: element `e` of the bit set lives in word
    `e / 32 + 1`, at bit `e & 31`.  Literal `i` is the pair of elements `2i` and `2i + 1`. */
module Cube {

  datatype Literal = ZERO | ONE | TWO

  // ---------------------------------------------------------------- the macros of cube.h

  const BPI: nat := 32

  function WhichWord(e: nat): nat {
    e / BPI + 1
  }

  function FiveBits(b0: bool, b1: bool, b2: bool, b3: bool, b4: bool): bv32 {
    (if b0 then 1 else 0) | (if b1 then 2 else 0) | (if b2 then 4 else 0) | (if b3 then 8 else 0)
    | (if b4 then 16 else 0)
  }

  /** `e & 31`, as a shift amount: the five low bits of `e`. */
  function WhichBit(e: nat): (k: bv32)
    ensures k < 32
  {
    FiveBits(e % 2 == 1, e / 2 % 2 == 1, e / 4 % 2 == 1, e / 8 % 2 == 1, e / 16 % 2 == 1)
  }

  function SetSize(size: nat): nat {
    if size <= BPI then 2 else WhichWord(size - 1) + 1
  }

  function WithBit(w: bv32, k: bv32): bv32
    requires k < 32
  {
    w | (1 << k)
  }

  function WithoutBit(w: bv32, k: bv32): bv32
    requires k < 32
  {
    w & !(1 << k)
  }

  function TestBit(w: bv32, k: bv32): bool
    requires k < 32
  {
    (w >> k) & 1 == 1
  }

  function Pair(w: bv32, k: bv32): bv32
    requires k < 32
  {
    (w >> k) & 3
  }

  // ---------------------------------------------------------------- bit-vector facts

  lemma FiveBitsInjective(a0: bool, a1: bool, a2: bool, a3: bool, a4: bool, b0: bool, b1: bool, b2: bool, b3: bool,
                          b4: bool)
    requires FiveBits(a0, a1, a2, a3, a4) == FiveBits(b0, b1, b2, b3, b4)
    ensures a0 == b0 && a1 == b1 && a2 == b2 && a3 == b3 && a4 == b4
  {
  }

  lemma FiveBitsSuccessor(a1: bool, a2: bool, a3: bool, a4: bool)
    ensures FiveBits(false, a1, a2, a3, a4) < 31
    ensures FiveBits(true, a1, a2, a3, a4) == FiveBits(false, a1, a2, a3, a4) + 1
  {
  }

  lemma LowDigits(e: nat)
    ensures e == e % 2 + 2 * (e / 2 % 2) + 4 * (e / 4 % 2) + 8 * (e / 8 % 2) + 16 * (e / 16 % 2) + BPI * (e / BPI)
  {
    assert e / 4 == e / 2 / 2;
    assert e / 8 == e / 4 / 2;
    assert e / 16 == e / 8 / 2;
    assert e / 32 == e / 16 / 2;
  }

  /** A word number and a bit number together name one element. */
  lemma {:induction false} ElementsDoNotOverlap(e: nat, f: nat)
    requires WhichWord(e) == WhichWord(f) && WhichBit(e) == WhichBit(f)
    ensures e == f
  {
    FiveBitsInjective(e % 2 == 1, e / 2 % 2 == 1, e / 4 % 2 == 1, e / 8 % 2 == 1, e / 16 % 2 == 1,
                      f % 2 == 1, f / 2 % 2 == 1, f / 4 % 2 == 1, f / 8 % 2 == 1, f / 16 % 2 == 1);
    LowDigits(e);
    LowDigits(f);
  }

  /** The two bits of a literal share a word and are neighbours in it. */
  lemma HalvesOfNext(i: nat)
    ensures var e := 2 * i;
            && e % 2 == 0 && (e + 1) % 2 == 1 && (e + 1) / 2 == e / 2 && (e + 1) / 4 == e / 4
            && (e + 1) / 8 == e / 8 && (e + 1) / 16 == e / 16 && (e + 1) / BPI == e / BPI
  {
    assert 2 * i / 2 == i == (2 * i + 1) / 2;
    assert 2 * i / 4 == i / 2 == (2 * i + 1) / 4;
    assert 2 * i / 8 == i / 4 == (2 * i + 1) / 8;
    assert 2 * i / 16 == i / 8 == (2 * i + 1) / 16;
    assert 2 * i / BPI == i / 16 == (2 * i + 1) / BPI;
  }

  lemma {:induction false} LiteralStaysInOneWord(i: nat)
    ensures WhichWord(2 * i) == WhichWord(2 * i + 1)
    ensures WhichBit(2 * i) < 31 && WhichBit(2 * i + 1) == WhichBit(2 * i) + 1
  {
    var e := 2 * i;
    HalvesOfNext(i);
    FiveBitsSuccessor(e / 2 % 2 == 1, e / 4 % 2 == 1, e / 8 % 2 == 1, e / 16 % 2 == 1);
  }

  lemma SetThenTest(w: bv32, j: bv32, k: bv32)
    requires j < 32 && k < 32
    ensures TestBit(WithBit(w, j), k) == (j == k || TestBit(w, k))
  {
  }

  lemma ClearThenTest(w: bv32, j: bv32, k: bv32)
    requires j < 32 && k < 32
    ensures TestBit(WithoutBit(w, j), k) == (j != k && TestBit(w, k))
  {
  }

  lemma ShiftOnce(w: bv32, k: bv32)
    requires k < 31
    ensures w >> (k + 1) == (w >> k) >> 1
  {
  }

  lemma LowBits(x: bv32)
    ensures x & 3 == (if x & 1 == 1 then 1 else 0) | (if (x >> 1) & 1 == 1 then 2 else 0)
  {
  }

  lemma PairIsTwoBits(w: bv32, k: bv32)
    requires k < 31
    ensures Pair(w, k) == (if TestBit(w, k) then 1 else 0) | (if TestBit(w, k + 1) then 2 else 0)
  {
    ShiftOnce(w, k);
    LowBits(w >> k);
  }

  // ---------------------------------------------------------------- the bit set

  function Holds(s: seq<bv32>, e: nat): bool
    requires WhichWord(e) < |s|
  {
    TestBit(s[WhichWord(e)], WhichBit(e))
  }

  function SetInsert(s: seq<bv32>, e: nat): seq<bv32>
    requires WhichWord(e) < |s|
  {
    s[WhichWord(e) := WithBit(s[WhichWord(e)], WhichBit(e))]
  }

  function SetRemove(s: seq<bv32>, e: nat): seq<bv32>
    requires WhichWord(e) < |s|
  {
    s[WhichWord(e) := WithoutBit(s[WhichWord(e)], WhichBit(e))]
  }

  lemma InsertTouchesOneElement(s: seq<bv32>, e: nat, f: nat)
    requires WhichWord(e) < |s| && WhichWord(f) < |s|
    ensures Holds(SetInsert(s, e), f) == (e == f || Holds(s, f))
  {
    if WhichWord(e) == WhichWord(f) {
      SetThenTest(s[WhichWord(e)], WhichBit(e), WhichBit(f));
      if WhichBit(e) == WhichBit(f) {
        ElementsDoNotOverlap(e, f);
      }
    }
  }

  lemma RemoveTouchesOneElement(s: seq<bv32>, e: nat, f: nat)
    requires WhichWord(e) < |s| && WhichWord(f) < |s|
    ensures Holds(SetRemove(s, e), f) == (e != f && Holds(s, f))
  {
    if WhichWord(e) == WhichWord(f) {
      ClearThenTest(s[WhichWord(e)], WhichBit(e), WhichBit(f));
      if WhichBit(e) == WhichBit(f) {
        ElementsDoNotOverlap(e, f);
      }
    }
  }

  // ---------------------------------------------------------------- literals

  /** What `node_get_literal` finds: a literal, or the pair 00, on which the callers abort. */
  datatype Reading = Good(literal: Literal) | Bad

  function GetInput(s: seq<bv32>, i: nat): bv32
    requires WhichWord(2 * i) < |s|
  {
    Pair(s[WhichWord(2 * i)], WhichBit(2 * i))
  }

  function Decode(code: bv32): Reading {
    if code == 1 then Good(ZERO) else if code == 2 then Good(ONE) else if code == 3 then Good(TWO) else Bad
  }

  function Read(s: seq<bv32>, i: nat): Reading
    requires WhichWord(2 * i) < |s|
  {
    Decode(GetInput(s, i))
  }

  /** The pair of macro calls with which the code stores literal `l`. */
  function Write(s: seq<bv32>, i: nat, l: Literal): (t: seq<bv32>)
    requires WhichWord(2 * i) < |s|
    ensures |t| == |s|
  {
    LiteralStaysInOneWord(i);
    match l
    case ZERO => SetRemove(SetInsert(s, 2 * i), 2 * i + 1)
    case ONE => SetInsert(SetRemove(s, 2 * i), 2 * i + 1)
    case TWO => SetInsert(SetInsert(s, 2 * i), 2 * i + 1)
  }

  /** The literal that two elements stand for. */
  function OfElements(low: bool, high: bool): Reading {
    if low then Good(if high then TWO else ZERO) else if high then Good(ONE) else Bad
  }

  lemma DecodeIsTwoElements(w: bv32, k: bv32)
    requires k < 31
    ensures Decode(Pair(w, k)) == OfElements(TestBit(w, k), TestBit(w, k + 1))
  {
    PairIsTwoBits(w, k);
  }

  lemma ReadIsTwoElements(s: seq<bv32>, i: nat)
    requires WhichWord(2 * i) < |s|
    ensures WhichWord(2 * i + 1) < |s|
    ensures Read(s, i) == OfElements(Holds(s, 2 * i), Holds(s, 2 * i + 1))
  {
    LiteralStaysInOneWord(i);
    DecodeIsTwoElements(s[WhichWord(2 * i)], WhichBit(2 * i));
  }

  lemma ZeroTouchesTwoElements(s: seq<bv32>, e: nat, f: nat)
    requires WhichWord(e) < |s| && WhichWord(e + 1) < |s| && WhichWord(f) < |s|
    ensures Holds(SetRemove(SetInsert(s, e), e + 1), f) == (f == e || (f != e + 1 && Holds(s, f)))
  {
    InsertTouchesOneElement(s, e, f);
    RemoveTouchesOneElement(SetInsert(s, e), e + 1, f);
  }

  lemma OneTouchesTwoElements(s: seq<bv32>, e: nat, f: nat)
    requires WhichWord(e) < |s| && WhichWord(e + 1) < |s| && WhichWord(f) < |s|
    ensures Holds(SetInsert(SetRemove(s, e), e + 1), f) == (f == e + 1 || (f != e && Holds(s, f)))
  {
    RemoveTouchesOneElement(s, e, f);
    InsertTouchesOneElement(SetRemove(s, e), e + 1, f);
  }

  lemma TwoTouchesTwoElements(s: seq<bv32>, e: nat, f: nat)
    requires WhichWord(e) < |s| && WhichWord(e + 1) < |s| && WhichWord(f) < |s|
    ensures Holds(SetInsert(SetInsert(s, e), e + 1), f) == (f == e || f == e + 1 || Holds(s, f))
  {
    InsertTouchesOneElement(s, e, f);
    InsertTouchesOneElement(SetInsert(s, e), e + 1, f);
  }

  /** The element view of `Write`. */
  lemma WriteTouchesTwoElements(s: seq<bv32>, i: nat, l: Literal, f: nat)
    requires WhichWord(2 * i) < |s| && WhichWord(f) < |s|
    ensures Holds(Write(s, i, l), f) ==
            if f == 2 * i then l != ONE else if f == 2 * i + 1 then l != ZERO else Holds(s, f)
  {
    LiteralStaysInOneWord(i);
    match l
    case ZERO => ZeroTouchesTwoElements(s, 2 * i, f);
    case ONE => OneTouchesTwoElements(s, 2 * i, f);
    case TWO => TwoTouchesTwoElements(s, 2 * i, f);
  }

  lemma NewElements(i: nat, l: Literal, j: nat, low: bool, high: bool, newLow: bool, newHigh: bool)
    requires newLow == if 2 * j == 2 * i then l != ONE else if 2 * j == 2 * i + 1 then l != ZERO else low
    requires newHigh == if 2 * j + 1 == 2 * i then l != ONE else if 2 * j + 1 == 2 * i + 1 then l != ZERO else high
    ensures OfElements(newLow, newHigh) == if i == j then Good(l) else OfElements(low, high)
  {
  }

  /** If only the two elements of literal `i` differ, and hold `l`, only literal `i` reads otherwise. */
  lemma ReadsAfter(s: seq<bv32>, t: seq<bv32>, i: nat, l: Literal, j: nat)
    requires |s| == |t| && WhichWord(2 * j) < |s|
    requires forall f: nat | WhichWord(f) < |s| ::
               Holds(t, f) == if f == 2 * i then l != ONE else if f == 2 * i + 1 then l != ZERO else Holds(s, f)
    ensures Read(t, j) == if i == j then Good(l) else Read(s, j)
  {
    ReadIsTwoElements(s, j);
    ReadIsTwoElements(t, j);
    NewElements(i, l, j, Holds(s, 2 * j), Holds(s, 2 * j + 1), Holds(t, 2 * j), Holds(t, 2 * j + 1));
  }

  /** Storing a literal makes it readable and disturbs no other, whatever the memory held before. */
  lemma WriteThenRead(s: seq<bv32>, i: nat, l: Literal, j: nat)
    requires WhichWord(2 * i) < |s| && WhichWord(2 * j) < |s|
    ensures Read(Write(s, i, l), j) == if i == j then Good(l) else Read(s, j)
  {
    forall f: nat | WhichWord(f) < |s|
      ensures Holds(Write(s, i, l), f) ==
              if f == 2 * i then l != ONE else if f == 2 * i + 1 then l != ZERO else Holds(s, f)
    {
      WriteTouchesTwoElements(s, i, l, f);
    }
    ReadsAfter(s, Write(s, i, l), i, l, j);
  }

  /** Every element of an `n`-literal cube is inside the allocation, and word 0 is never used. */
  lemma AccessInBounds(n: nat, e: nat)
    requires e < 2 * n
    ensures 0 < WhichWord(e) < SetSize(2 * n)
  {
  }

  // ---------------------------------------------------------------- whole cubes

  /** Literal `i` of an allocation made for `n` literals. */
  function ReadAt(s: seq<bv32>, n: nat, i: nat): Reading
    requires |s| == SetSize(2 * n) && i < n
  {
    AccessInBounds(n, 2 * i);
    Read(s, i)
  }

  ghost predicate AllGood(s: seq<bv32>, n: nat)
    requires |s| == SetSize(2 * n)
  {
    forall i: nat | i < n :: ReadAt(s, n, i).Good?
  }

  ghost function Unpack(s: seq<bv32>, n: nat): (c: seq<Literal>)
    requires |s| == SetSize(2 * n) && AllGood(s, n)
    ensures |c| == n && forall i: nat | i < n :: ReadAt(s, n, i) == Good(c[i])
  {
    seq(n, i requires 0 <= i < n => ReadAt(s, n, i).literal)
  }

  class AceCube {
    var cube: array<bv32>
    var numLiterals: nat
    var staticProb: real

    constructor (cube: array<bv32>, numLiterals: nat, staticProb: real)
      ensures this.cube == cube && this.numLiterals == numLiterals && this.staticProb == staticProb
    {
      this.cube, this.numLiterals, this.staticProb := cube, numLiterals, staticProb;
    }

    /** The memory has the size the code asks for; its contents are arbitrary. */
    ghost predicate Allocated()
      reads this
    {
      cube.Length == SetSize(2 * numLiterals)
    }

    ghost predicate Valid()
      reads this, cube
    {
      Allocated() && AllGood(cube[..], numLiterals)
    }

    ghost function Literals(): seq<Literal>
      requires Valid()
      reads this, cube
    {
      Unpack(cube[..], numLiterals)
    }
  }

  method InsertElement(words: array<bv32>, e: nat)
    requires WhichWord(e) < words.Length
    modifies words
    ensures words[..] == SetInsert(old(words[..]), e)
  {
    words[WhichWord(e)] := words[WhichWord(e)] | (1 << WhichBit(e));
  }

  method RemoveElement(words: array<bv32>, e: nat)
    requires WhichWord(e) < words.Length
    modifies words
    ensures words[..] == SetRemove(old(words[..]), e)
  {
    words[WhichWord(e)] := words[WhichWord(e)] & !(1 << WhichBit(e));
  }

  /** Stores literal `i`: every literal `j` of the cube reads as before, except `i` itself. */
  method StoreLiteral(words: array<bv32>, ghost n: nat, i: nat, l: Literal)
    requires words.Length == SetSize(2 * n) && i < n
    modifies words
    ensures forall j: nat | j < n ::
              ReadAt(words[..], n, j) == if j == i then Good(l) else ReadAt(old(words[..]), n, j)
  {
    AccessInBounds(n, 2 * i);
    AccessInBounds(n, 2 * i + 1);
    ghost var before := words[..];
    match l {
      case ZERO => InsertElement(words, 2 * i); RemoveElement(words, 2 * i + 1);
      case ONE => RemoveElement(words, 2 * i); InsertElement(words, 2 * i + 1);
      case TWO => InsertElement(words, 2 * i); InsertElement(words, 2 * i + 1);
    }
    forall j: nat | j < n
      ensures ReadAt(words[..], n, j) == if j == i then Good(l) else ReadAt(before, n, j)
    {
      AccessInBounds(n, 2 * j);
      WriteThenRead(before, i, l, j);
    }
  }

  method NodeGetLiteral(cube: AceCube, i: nat) returns (reading: Reading)
    requires cube.Allocated() && i < cube.numLiterals
    ensures reading == ReadAt(cube.cube[..], cube.numLiterals, i)
  {
    AccessInBounds(cube.numLiterals, 2 * i);
    reading := Decode((cube.cube[WhichWord(2 * i)] >> WhichBit(2 * i)) & 3);
  }

  method AceCubeNewDc(numLiterals: nat) returns (c: AceCube)
    ensures fresh(c) && fresh(c.cube) && c.Valid() && c.numLiterals == numLiterals && c.staticProb == 1.0
    ensures c.Literals() == seq(numLiterals, _ => TWO)
  {
    var words := new bv32[SetSize(2 * numLiterals)];
    for i := 0 to numLiterals
      invariant forall j: nat | j < i :: ReadAt(words[..], numLiterals, j) == Good(TWO)
    {
      StoreLiteral(words, numLiterals, i, TWO);
    }
    c := new AceCube(words, numLiterals, 1.0);
  }

  /** Copies `cube` literal by literal into fresh memory; aborts (null) on a bad literal. */
  method AceCubeDup(cube: AceCube) returns (copy: AceCube?)
    requires cube.Allocated() && cube.numLiterals > 0
    ensures copy != null <==> cube.Valid()
    ensures copy != null ==>
              && fresh(copy) && fresh(copy.cube) && copy.Valid() && copy.Literals() == cube.Literals()
              && copy.numLiterals == cube.numLiterals && copy.staticProb == cube.staticProb
  {
    var n := cube.numLiterals;
    var words := new bv32[SetSize(2 * n)];
    ghost var source := cube.cube[..];
    for i := 0 to n
      invariant cube.cube[..] == source
      invariant forall j: nat | j < i :: ReadAt(source, n, j).Good? && ReadAt(words[..], n, j) == ReadAt(source, n, j)
    {
      var reading := NodeGetLiteral(cube, i);
      match reading {
        case Good(l) => StoreLiteral(words, n, i, l);
        case Bad => return null;
      }
    }
    copy := new AceCube(words, n, cube.staticProb);
  }
}
