/** Reading a vector file line by line (ace2/io_ace.c): `fgets` into a buffer, `feof`, `sscanf` of one word. */
module VectorFile {
  import opened AceInfo

  // ---------------------------------------------------------------- lines

  /** How many characters `fgets` takes: up to and including a newline, at most `limit`. */
  function LineLength(rest: string, limit: nat): (k: nat)
    ensures k <= |rest| && k <= limit
  {
    if limit == 0 || rest == "" then 0
    else if rest[0] == '\n' then 1
    else 1 + LineLength(rest[1..], limit - 1)
  }

  /** It stops at the first newline, at the limit or at the end, whichever comes first. */
  lemma {:induction false} LineLengthExactly(rest: string, limit: nat, k: nat)
    ensures LineLength(rest, limit) == k <==>
            && k <= |rest| && k <= limit && (forall i | 0 <= i < k - 1 :: rest[i] != '\n')
            && (k == limit || k == |rest| || (k > 0 && rest[k - 1] == '\n'))
  {
    if limit > 0 && rest != "" && rest[0] != '\n' && k > 0 {
      LineLengthExactly(rest[1..], limit - 1, k - 1);
      assert forall i | 0 <= i < k - 2 && k <= |rest| :: rest[1..][i] == rest[i + 1];
    }
  }

  /** `fgets` did not have to look past the end of the file. */
  predicate Complete(line: string, limit: nat) {
    |line| == limit || (line != "" && line[|line| - 1] == '\n')
  }

  lemma {:induction false} IncompleteIsLast(rest: string, limit: nat)
    requires !Complete(rest[..LineLength(rest, limit)], limit)
    ensures LineLength(rest, limit) == |rest|
  {
    if rest != "" && limit > 0 && rest[0] != '\n' {
      var k := LineLength(rest[1..], limit - 1);
      assert rest[..1 + k] == [rest[0]] + rest[1..][..k];
      IncompleteIsLast(rest[1..], limit - 1);
    }
  }

  /** What successive calls of `fgets` return. */
  function Chunks(rest: string, limit: nat): seq<string>
    requires limit > 0
    decreases |rest|
  {
    if rest == "" then []
    else
      var k := LineLength(rest, limit);
      [rest[..k]] + Chunks(rest[k..], limit)
  }

  function Joined(cs: seq<string>): string {
    if cs == [] then "" else cs[0] + Joined(cs[1..])
  }

  /** Nothing is lost or read twice: the calls return the text piece by piece. */
  lemma {:induction false} ChunksJoined(rest: string, limit: nat)
    requires limit > 0
    ensures Joined(Chunks(rest, limit)) == rest
    decreases |rest|
  {
    if rest != "" {
      var k := LineLength(rest, limit);
      ChunksJoined(rest[k..], limit);
      assert rest == rest[..k] + rest[k..];
      assert Chunks(rest, limit)[1..] == Chunks(rest[k..], limit);
    }
  }

  /** The end of the file is found only by reading past it: the last line lacks its newline. */
  ghost predicate EndsOpen(text: string, limit: nat)
    requires limit > 0
  {
    var cs := Chunks(text, limit);
    cs != [] && !Complete(cs[|cs| - 1], limit)
  }

  /** A file that ends in a newline is never found to be at its end. */
  lemma {:induction false} FinalNewlineIsMissed(text: string, limit: nat)
    requires limit > 0 && text != "" && text[|text| - 1] == '\n'
    ensures Chunks(text, limit) != [] && !EndsOpen(text, limit)
    decreases |text|
  {
    var k := LineLength(text, limit);
    if k < |text| {
      var rest := Chunks(text[k..], limit);
      FinalNewlineIsMissed(text[k..], limit);
      assert Chunks(text, limit)[|rest|] == rest[|rest| - 1];
    }
  }

  // ---------------------------------------------------------------- words

  predicate IsSpace(c: char) {
    c == ' ' || c == '\t' || c == '\n' || c == '\r' || c == '\U{0B}' || c == '\U{0C}'
  }

  function Leading(line: string): string {
    if line == "" || IsSpace(line[0]) then "" else [line[0]] + Leading(line[1..])
  }

  /** `sscanf(line, "%s\n", vector)`: the first word, or nothing, and then the buffer keeps what it held. */
  function Scan(line: string, vector: string): string {
    if line == "" then vector
    else if IsSpace(line[0]) then Scan(line[1..], vector)
    else Leading(line)
  }

  ghost predicate Blank(line: string) {
    forall i | 0 <= i < |line| :: IsSpace(line[i])
  }

  ghost predicate Solid(word: string) {
    word != "" && forall i | 0 <= i < |word| :: !IsSpace(word[i])
  }

  /** The line is `i` characters of white space, then `word`, then nothing or more white space and anything. */
  ghost predicate WordAt(line: string, word: string, i: nat) {
    && i + |word| <= |line| && Blank(line[..i]) && line[i..i + |word|] == word
    && (i + |word| == |line| || IsSpace(line[i + |word|]))
  }

  lemma {:induction false} LeadingIsMaximal(line: string)
    ensures var w := Leading(line);
            && |w| <= |line| && line[..|w|] == w && (forall i | 0 <= i < |w| :: !IsSpace(w[i]))
            && (|w| == |line| || IsSpace(line[|w|]))
  {
    if line != "" && !IsSpace(line[0]) {
      LeadingIsMaximal(line[1..]);
      assert line == [line[0]] + line[1..];
    }
  }

  lemma WordAfterSpace(line: string, word: string, i: nat)
    requires line != "" && IsSpace(line[0]) && WordAt(line[1..], word, i)
    ensures WordAt(line, word, i + 1)
  {
    assert line[..i + 1] == [line[0]] + line[1..][..i];
    assert line[i + 1..i + 1 + |word|] == line[1..][i..i + |word|];
  }

  lemma WordAtStart(line: string)
    requires line != "" && !IsSpace(line[0])
    ensures Solid(Leading(line)) && WordAt(line, Leading(line), 0)
  {
    LeadingIsMaximal(line);
    assert line[0..0 + |Leading(line)|] == line[..|Leading(line)|];
  }

  /** A blank line leaves the buffer as it is, and any other one replaces it by its first word, whole. */
  lemma {:induction false} ScanIsFirstWord(line: string, vector: string) returns (i: nat)
    ensures Blank(line) ==> Scan(line, vector) == vector
    ensures !Blank(line) ==> Solid(Scan(line, vector)) && WordAt(line, Scan(line, vector), i)
  {
    i := 0;
    if line != "" {
      if IsSpace(line[0]) {
        i := ScanIsFirstWord(line[1..], vector);
        BlankTail(line);
        if !Blank(line) {
          WordAfterSpace(line, Scan(line, vector), i);
        }
        i := i + 1;
      } else {
        WordAtStart(line);
        assert !Blank(line);
      }
    }
  }

  lemma BlankTail(line: string)
    requires line != "" && IsSpace(line[0])
    ensures Blank(line) <==> Blank(line[1..])
  {
    assert line == [line[0]] + line[1..];
  }

  /** The contents of the buffer after each line, if it held `vector` before. */
  ghost function Words(lines: seq<string>, vector: string): (ws: seq<string>)
    ensures |ws| == |lines|
  {
    if lines == [] then []
    else
      var front := Words(lines[..|lines| - 1], vector);
      front + [Scan(lines[|lines| - 1], if front == [] then vector else front[|front| - 1])]
  }

  lemma {:induction false} WordsOfPrefix(lines: seq<string>, more: seq<string>, vector: string)
    ensures Words(lines + more, vector)[..|lines|] == Words(lines, vector)
  {
    if more == [] {
      assert lines + more == lines;
    } else {
      var front, last := more[..|more| - 1], more[|more| - 1];
      WordsOfPrefix(lines, front, vector);
      assert lines + more == (lines + front) + [last];
      WordsNext(lines + front, last, vector);
    }
  }

  lemma WordsNext(lines: seq<string>, line: string, vector: string)
    ensures var ws := Words(lines, vector);
            Words(lines + [line], vector) == ws + [Scan(line, if ws == [] then vector else ws[|ws| - 1])]
  {
    assert (lines + [line])[..|lines|] == lines;
  }

  // ---------------------------------------------------------------- the stream

  class Stream {
    const text: string
    const limit: nat      // one less than the size of the buffer, 4096
    var pos: nat
    var eof: bool

    constructor (text: string, limit: nat)
      requires limit > 0
      ensures Valid() && this.text == text && this.limit == limit && pos == 0 && !eof
    {
      this.text, this.limit, pos, eof := text, limit, 0, false;
    }

    ghost predicate Valid()
      reads this
    {
      pos <= |text| && limit > 0
    }

    ghost function Rest(): string
      requires Valid()
      reads this
    {
      text[pos..]
    }

    /** `fseek(..., 0, SEEK_SET)`. */
    method Rewind()
      requires Valid()
      modifies this
      ensures Valid() && pos == 0 && !eof
    {
      pos, eof := 0, false;
    }

    /** None (a null pointer) when there is nothing left. */
    method Fgets() returns (line: Option<string>)
      requires Valid()
      modifies this
      ensures Valid()
      ensures var rest, k := old(Rest()), LineLength(old(Rest()), limit);
              && pos == old(pos) + k && line == (if k == 0 then None else Some(rest[..k]))
              && eof == (old(eof) || !Complete(rest[..k], limit))
              && eof == (old(eof) || (k == |rest| && k < limit && (k == 0 || rest[k - 1] != '\n')))
    {
      var s := "";
      ghost var rest := Rest();
      while |s| < limit && (s == "" || s[|s| - 1] != '\n')
        invariant Valid() && |s| <= limit && pos == old(pos) + |s| && s == rest[..|s|] && eof == old(eof)
        invariant if |s| < limit && (s == "" || s[|s| - 1] != '\n')
                  then LineLength(rest, limit) == |s| + LineLength(rest[|s|..], limit - |s|)
                  else LineLength(rest, limit) == |s|
        decreases limit - |s|
      {
        if pos == |text| {
          eof := true;
          return if s == "" then None else Some(s);
        }
        assert rest[|s|..][0] == text[pos] && rest[|s|..][1..] == rest[|s| + 1..];
        s := s + [text[pos]];
        pos := pos + 1;
      }
      return Some(s);
    }
  }

  // ---------------------------------------------------------------- the reading loop

  /** `line` is the line just read, after the lines `before`; `rest` is still unread. */
  ghost predicate Reading(text: string, limit: nat, before: seq<string>, line: string, rest: string, eof: bool)
    requires limit > 0
  {
    Chunks(text, limit) == before + [line] + Chunks(rest, limit) && eof == !Complete(line, limit)
      && (eof ==> rest == "")
  }

  lemma ReadingStarts(text: string, limit: nat)
    requires limit > 0
    ensures LineLength(text, limit) == 0 ==> !EndsOpen(text, limit)
    ensures var k := LineLength(text, limit);
            k > 0 ==> Reading(text, limit, [], text[..k], text[k..], !Complete(text[..k], limit))
  {
    var k := LineLength(text, limit);
    if k > 0 {
      assert [] + [text[..k]] == [text[..k]];
      if !Complete(text[..k], limit) { IncompleteIsLast(text, limit); }
    }
  }

  lemma ReadingNext(text: string, limit: nat, before: seq<string>, line: string, rest: string)
    requires limit > 0 && Reading(text, limit, before, line, rest, false)
    ensures LineLength(rest, limit) == 0 ==> !EndsOpen(text, limit)
    ensures var k := LineLength(rest, limit);
            k > 0 ==> Reading(text, limit, before + [line], rest[..k], rest[k..], !Complete(rest[..k], limit))
  {
    var k := LineLength(rest, limit);
    if k == 0 {
      assert Chunks(text, limit)[|before|] == line;
    } else {
      assert before + [line] + ([rest[..k]] + Chunks(rest[k..], limit))
        == before + [line] + [rest[..k]] + Chunks(rest[k..], limit);
      if !Complete(rest[..k], limit) { IncompleteIsLast(rest, limit); }
    }
  }

  /** When the loop ends, what it has processed is everything but the last line. */
  lemma ReadingEnds(text: string, limit: nat, before: seq<string>, line: string, rest: string)
    requires limit > 0 && Reading(text, limit, before, line, rest, true)
    ensures EndsOpen(text, limit) && before == FullLines(text, limit)
  {
    assert Chunks(text, limit) == before + [line];
  }

  /** All lines but the last. */
  ghost function FullLines(text: string, limit: nat): seq<string>
    requires limit > 0
  {
    var cs := Chunks(text, limit);
    if cs == [] then [] else cs[..|cs| - 1]
  }

  /** While the loop runs, what it has read so far belongs to the lines it will have processed. */
  lemma ReadingPrefix(text: string, limit: nat, before: seq<string>, line: string, rest: string)
    requires limit > 0 && Reading(text, limit, before, line, rest, false) && EndsOpen(text, limit)
    ensures before + [line] <= FullLines(text, limit)
  {
    assert Chunks(text, limit)[|before|] == line;
    assert Chunks(rest, limit) != [];
  }

  method FirstLine(stream: Stream) returns (line: Option<string>)
    requires stream.Valid() && stream.pos == 0 && !stream.eof
    modifies stream
    ensures stream.Valid()
    ensures line.None? ==> !EndsOpen(stream.text, stream.limit)
    ensures line.Some? ==> Reading(stream.text, stream.limit, [], line.value, stream.Rest(), stream.eof)
  {
    ReadingStarts(stream.text, stream.limit);
    assert stream.Rest() == stream.text;
    line := stream.Fgets();
    assert stream.Rest() == stream.text[LineLength(stream.text, stream.limit)..];
  }

  method NextLine(stream: Stream, ghost before: seq<string>, ghost last: string) returns (line: Option<string>)
    requires stream.Valid() && !stream.eof
    requires Reading(stream.text, stream.limit, before, last, stream.Rest(), stream.eof)
    modifies stream
    ensures stream.Valid()
    ensures line.None? ==> !EndsOpen(stream.text, stream.limit)
    ensures line.Some? ==> stream.pos > old(stream.pos)
    ensures line.Some? ==> Reading(stream.text, stream.limit, before + [last], line.value, stream.Rest(), stream.eof)
  {
    ghost var rest := stream.Rest();
    ReadingNext(stream.text, stream.limit, before, last, rest);
    line := stream.Fgets();
    assert stream.Rest() == rest[LineLength(rest, stream.limit)..];
  }

  /** The first pass, which only counts: it survives exactly if the last line lacks its newline. */
  method CountLines(stream: Stream) returns (ok: bool, numVec: nat)
    requires stream.Valid() && stream.pos == 0 && !stream.eof
    modifies stream
    ensures stream.Valid() && (ok <==> EndsOpen(stream.text, stream.limit))
    ensures ok ==> numVec == |FullLines(stream.text, stream.limit)|
  {
    ghost var before := [];
    numVec := 0;
    var line := FirstLine(stream);
    if line.None? {
      return false, numVec;
    }
    while !stream.eof
      invariant stream.Valid() && numVec == |before| && line.Some?
      invariant Reading(stream.text, stream.limit, before, line.value, stream.Rest(), stream.eof)
      decreases |stream.text| - stream.pos
    {
      ghost var last := line.value;
      line := NextLine(stream, before, last);
      if line.None? {
        return false, numVec;
      }
      before := before + [last];
      numVec := numVec + 1;
    }
    ReadingEnds(stream.text, stream.limit, before, line.value, stream.Rest());
    return true, numVec;
  }
}
