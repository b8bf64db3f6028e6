/**
 * Reading a resource line by line the way src/srcresolver.rs does: bytes
 * are collected into a line buffer, each newline hands the buffer to a line
 * step, and at the end of the resource a non-empty unterminated line gets the
 * step as well. The step is a parameter so that the byte bookkeeping is
 * stated once, apart from what a line means.
 */
module LineReader {
  import opened Wrappers
  import opened Resource

  /** The bytes after the last newline of `d`: the line still being collected. */
  function Pending(d: seq<byte>): seq<byte> {
    if d == [] then []
    else if d[|d| - 1] == NEWLINE then []
    else Pending(d[..|d| - 1]) + [d[|d| - 1]]
  }

  /** The newline-terminated lines of `d`, in order and without their newlines. */
  function CompleteLines(d: seq<byte>): seq<seq<byte>> {
    if d == [] then []
    else if d[|d| - 1] == NEWLINE then CompleteLines(d[..|d| - 1]) + [Pending(d[..|d| - 1])]
    else CompleteLines(d[..|d| - 1])
  }

  /** Lines written back out, each followed by a newline. */
  function Terminated(lines: seq<seq<byte>>): seq<byte> {
    if lines == [] then []
    else Terminated(lines[..|lines| - 1]) + lines[|lines| - 1] + [NEWLINE]
  }

  /**
   * The split loses no byte and invents none: the complete lines, each with
   * its newline, followed by the pending bytes, are the input; and no line
   * holds a newline.
   */
  lemma {:induction false} CompleteLinesRebuild(d: seq<byte>)
    ensures Terminated(CompleteLines(d)) + Pending(d) == d
    ensures forall k :: 0 <= k < |CompleteLines(d)| ==> NEWLINE !in CompleteLines(d)[k]
    ensures NEWLINE !in Pending(d)
  {
    if d != [] {
      var front := d[..|d| - 1];
      CompleteLinesRebuild(front);
      assert d == front + [d[|d| - 1]];
      if d[|d| - 1] == NEWLINE {
        var ls := CompleteLines(front);
        assert (ls + [Pending(front)])[..|ls|] == ls;
      }
    }
  }

  /** Appending one byte either completes the pending line or extends it. */
  lemma AppendByte(before: seq<byte>, b: byte)
    ensures b == NEWLINE ==> CompleteLines(before + [b]) == CompleteLines(before) + [Pending(before)]
    ensures b == NEWLINE ==> Pending(before + [b]) == []
    ensures b != NEWLINE ==> CompleteLines(before + [b]) == CompleteLines(before)
    ensures b != NEWLINE ==> Pending(before + [b]) == Pending(before) + [b]
  {
    assert (before + [b])[..|before|] == before;
  }

  /** The lines handed to `step` in order; the first error stops the rest. */
  function FoldLines<L, S, E>(lines: seq<L>, step: (L, S) -> Result<S, E>, start: S): Result<S, E> {
    if lines == [] then Ok(start)
    else match FoldLines(lines[..|lines| - 1], step, start)
      case Err(e) => Err(e)
      case Ok(s) => step(lines[|lines| - 1], s)
  }

  lemma FoldLinesSnoc<L, S, E>(lines: seq<L>, line: L, step: (L, S) -> Result<S, E>, start: S)
    ensures FoldLines(lines + [line], step, start) ==
            match FoldLines(lines, step, start)
            case Err(e) => Err(e)
            case Ok(s) => step(line, s)
  {
    assert (lines + [line])[..|lines|] == lines;
  }

  /** Once a line has failed, the lines after it change nothing. */
  lemma {:induction false} FoldErrorSticks<L, S, E>(a: seq<L>, b: seq<L>, step: (L, S) -> Result<S, E>, start: S)
    requires FoldLines(a, step, start).Err?
    decreases |b|
    ensures FoldLines(a + b, step, start) == FoldLines(a, step, start)
  {
    if b == [] {
      assert a + b == a;
    } else {
      var front := b[..|b| - 1];
      FoldErrorSticks(a, front, step, start);
      assert a + b == (a + front) + [b[|b| - 1]];
      FoldLinesSnoc(a + front, b[|b| - 1], step, start);
    }
  }

  /** The fold still to run from line `i` on, once the state before it is `s`. */
  function FoldRest<L, S, E>(lines: seq<L>, i: nat, step: (L, S) -> Result<S, E>, s: S): Result<S, E>
    requires i <= |lines|
    decreases |lines| - i
  {
    if i == |lines| then Ok(s)
    else match step(lines[i], s)
      case Err(e) => Err(e)
      case Ok(next) => FoldRest(lines, i + 1, step, next)
  }

  /** Folding the first `i` lines and then the rest is folding them all. */
  lemma {:induction false} FoldSplit<L, S, E>(lines: seq<L>, i: nat, step: (L, S) -> Result<S, E>, start: S, s: S)
    requires i <= |lines| && FoldLines(lines[..i], step, start) == Ok(s)
    decreases |lines| - i
    ensures FoldLines(lines, step, start) == FoldRest(lines, i, step, s)
  {
    if i == |lines| {
      assert lines[..i] == lines;
    } else {
      FoldLinesSnoc(lines[..i], lines[i], step, start);
      assert lines[..i + 1] == lines[..i] + [lines[i]];
      match step(lines[i], s)
      case Ok(next) =>
        FoldSplit(lines, i + 1, step, start, next);
      case Err(e) =>
        FoldErrorSticks(lines[..i + 1], lines[i + 1..], step, start);
        assert lines == lines[..i + 1] + lines[i + 1..];
    }
  }

  /** The `for line in lines` loop with `?` on each step. */
  method FoldEach<L, S, E>(lines: seq<L>, step: (L, S) -> Result<S, E>, start: S) returns (r: Result<S, E>)
    ensures r == FoldLines(lines, step, start)
  {
    var state := start;
    var i := 0;
    assert lines[..0] == [];
    FoldSplit(lines, 0, step, start, start);
    while i < |lines|
      invariant 0 <= i <= |lines|
      invariant FoldLines(lines, step, start) == FoldRest(lines, i, step, state)
    {
      var next := step(lines[i], state);
      if next.Err? {
        return Err(next.error);
      }
      state := next.value;
      i := i + 1;
    }
    return Ok(state);
  }

  /** Once a complete line has failed, no further byte changes the outcome. */
  lemma {:induction false} LineErrorSticks<S, E>(a: seq<byte>, b: seq<byte>, step: (seq<byte>, S) -> Result<S, E>,
                                                 start: S)
    requires FoldLines(CompleteLines(a), step, start).Err?
    decreases |b|
    ensures FoldLines(CompleteLines(a + b), step, start) == FoldLines(CompleteLines(a), step, start)
  {
    if b == [] {
      assert a + b == a;
    } else {
      var front := b[..|b| - 1];
      LineErrorSticks(a, front, step, start);
      assert a + b == (a + front) + [b[|b| - 1]];
      AppendByte(a + front, b[|b| - 1]);
      if b[|b| - 1] == NEWLINE {
        FoldLinesSnoc(CompleteLines(a + front), Pending(a + front), step, start);
      }
    }
  }

  /**
   * What one run of reads delivers: the bytes before the first empty chunk
   * or error, and that error if there was one.
   */
  function Received(chunks: seq<Chunk<byte>>): (seq<byte>, Option<SahneError>) {
    if chunks == [] then ([], None)
    else match chunks[0]
      case ReadFailed(e) => ([], Some(e))
      case Data(d) =>
        if d == [] then ([], None)
        else
          var rest := Received(chunks[1..]);
          (d + rest.0, rest.1)
  }

  /**
   * Reading a whole resource line by line: the complete lines of what was
   * received go through `step` first; then a read error is reported through
   * `fail`, or else a non-empty unterminated last line goes through `step`.
   */
  function ReadLinesSpec<S, E>(chunks: seq<Chunk<byte>>, step: (seq<byte>, S) -> Result<S, E>,
                               fail: SahneError -> E, start: S): Result<S, E>
  {
    var (d, failure) := Received(chunks);
    match FoldLines(CompleteLines(d), step, start)
    case Err(x) => Err(x)
    case Ok(s) =>
      if failure.Some? then Err(fail(failure.value))
      else if Pending(d) == [] then Ok(s)
      else step(Pending(d), s)
  }

  /** A resource whose bytes are newline-terminated lines folds exactly those lines. */
  lemma ReadTerminatedLines<S, E>(lines: seq<seq<byte>>, step: (seq<byte>, S) -> Result<S, E>,
                                  fail: SahneError -> E, start: S)
    requires forall k :: 0 <= k < |lines| ==> NEWLINE !in lines[k]
    requires Terminated(lines) != []
    ensures ReadLinesSpec([Data(Terminated(lines))], step, fail, start) == FoldLines(lines, step, start)
  {
    TerminatedSplits(lines);
    ReceivedOne(Terminated(lines));
    ReadAllReceived([Data(Terminated(lines))], Terminated(lines), step, fail, start);
  }

  /** A single non-empty chunk is received whole, with no error. */
  lemma ReceivedOne(d: seq<byte>)
    requires d != []
    ensures Received([Data(d)]) == (d, None)
  {
    assert [Data(d)][1..] == [];
    assert d + [] == d;
  }

  /** When everything arrives, newline-terminated, the reading is the fold of the complete lines. */
  lemma ReadAllReceived<S, E>(chunks: seq<Chunk<byte>>, d: seq<byte>, step: (seq<byte>, S) -> Result<S, E>,
                              fail: SahneError -> E, start: S)
    requires Received(chunks) == (d, None) && Pending(d) == []
    ensures ReadLinesSpec(chunks, step, fail, start) == FoldLines(CompleteLines(d), step, start)
  {
  }

  lemma {:induction false} TerminatedSplits(lines: seq<seq<byte>>)
    requires forall k :: 0 <= k < |lines| ==> NEWLINE !in lines[k]
    ensures CompleteLines(Terminated(lines)) == lines
    ensures Pending(Terminated(lines)) == []
  {
    if lines != [] {
      var front := lines[..|lines| - 1];
      var last := lines[|lines| - 1];
      TerminatedSplits(front);
      PendingOfLine(Terminated(front), last);
      assert Terminated(lines) == (Terminated(front) + last) + [NEWLINE];
      AppendByte(Terminated(front) + last, NEWLINE);
      assert lines == front + [last];
    }
  }

  /** After a newline, appending newline-free bytes makes them the pending line. */
  lemma {:induction false} PendingOfLine(before: seq<byte>, line: seq<byte>)
    requires Pending(before) == []
    requires NEWLINE !in line
    decreases |line|
    ensures Pending(before + line) == line
    ensures CompleteLines(before + line) == CompleteLines(before)
  {
    if line == [] {
      assert before + line == before;
    } else {
      var front := line[..|line| - 1];
      PendingOfLine(before, front);
      assert before + line == (before + front) + [line[|line| - 1]];
      AppendByte(before + front, line[|line| - 1]);
      assert line == front + [line[|line| - 1]];
    }
  }

  /**
   * The inner byte loop as a function: from byte `j` on, with state `s` and
   * the line collected so far, each newline hands the line to `step` and any
   * other byte extends it. The result is the state and line after the chunk.
   */
  function Feed<S, E>(data: seq<byte>, j: nat, step: (seq<byte>, S) -> Result<S, E>, s: S, line: seq<byte>)
    : Result<(S, seq<byte>), E>
    requires j <= |data|
    decreases |data| - j
  {
    if j == |data| then Ok((s, line))
    else if data[j] == NEWLINE then
      match step(line, s)
      case Err(e) => Err(e)
      case Ok(next) => Feed(data, j + 1, step, next, [])
    else Feed(data, j + 1, step, s, line + [data[j]])
  }

  /** `result` is the fold of the complete lines of `d`, paired with the pending line when it succeeds. */
  ghost predicate SplitBy<S, E>(result: Result<(S, seq<byte>), E>, d: seq<byte>, step: (seq<byte>, S) -> Result<S, E>, start: S) {
    match result
    case Err(e) => FoldLines(CompleteLines(d), step, start) == Err(e)
    case Ok(p) => FoldLines(CompleteLines(d), step, start) == Ok(p.0) && p.1 == Pending(d)
  }

  lemma SliceStep(seen: seq<byte>, data: seq<byte>, j: nat)
    requires j < |data|
    ensures seen + data[..j + 1] == (seen + data[..j]) + [data[j]]
  {
  }

  lemma SliceRest(seen: seq<byte>, data: seq<byte>, j: nat)
    requires j < |data|
    ensures (seen + data[..j]) + [data[j]] + data[j + 1..] == seen + data
  {
    assert data == data[..j] + [data[j]] + data[j + 1..];
  }

  /** One byte of the inner loop: a newline hands the pending line to `step`, another byte extends it. */
  lemma ByteStep<S, E>(before: seq<byte>, b: byte, step: (seq<byte>, S) -> Result<S, E>, start: S,
                       s: S, line: seq<byte>)
    requires FoldLines(CompleteLines(before), step, start) == Ok(s)
    requires line == Pending(before)
    ensures b == NEWLINE ==> FoldLines(CompleteLines(before + [b]), step, start) == step(line, s)
    ensures b == NEWLINE ==> Pending(before + [b]) == []
    ensures b != NEWLINE ==> FoldLines(CompleteLines(before + [b]), step, start) == Ok(s)
    ensures b != NEWLINE ==> Pending(before + [b]) == line + [b]
  {
    AppendByte(before, b);
    if b == NEWLINE {
      FoldLinesSnoc(CompleteLines(before), line, step, start);
    }
  }

  /**
   * Feeding a chunk byte by byte agrees with splitting everything read so
   * far into lines: the state is the fold of the complete lines and the
   * line is the pending one, or the error is the fold's.
   */
  lemma {:induction false} FeedSplits<S, E>(data: seq<byte>, j: nat, step: (seq<byte>, S) -> Result<S, E>,
                                            start: S, seen: seq<byte>, s: S, line: seq<byte>)
    requires j <= |data|
    requires FoldLines(CompleteLines(seen + data[..j]), step, start) == Ok(s)
    requires line == Pending(seen + data[..j])
    decreases |data| - j
    ensures SplitBy(Feed(data, j, step, s, line), seen + data, step, start)
  {
    if j == |data| {
      assert data[..j] == data;
    } else {
      var b := data[j];
      SliceStep(seen, data, j);
      ByteStep(seen + data[..j], b, step, start, s, line);
      if b == NEWLINE {
        match step(line, s)
        case Err(e) =>
          SliceRest(seen, data, j);
          LineErrorSticks(seen + data[..j + 1], data[j + 1..], step, start);
        case Ok(next) =>
          FeedSplits(data, j + 1, step, start, seen, next, []);
      } else {
        FeedSplits(data, j + 1, step, start, seen, s, line + [b]);
      }
    }
  }

  /** The inner byte loop: feed one chunk to the line buffer. */
  method FeedChunk<S, E>(data: seq<byte>, step: (seq<byte>, S) -> Result<S, E>, state: S, currentLine: seq<byte>)
    returns (r: Result<S, E>, line: seq<byte>)
    ensures Feed(data, 0, step, state, currentLine) == if r.Err? then Err(r.error) else Ok((r.value, line))
  {
    var s := state;
    line := currentLine;
    var j := 0;
    while j < |data|
      invariant 0 <= j <= |data|
      invariant Feed(data, 0, step, state, currentLine) == Feed(data, j, step, s, line)
    {
      var b := data[j];
      if b == NEWLINE {
        var next := step(line, s);
        if next.Err? {
          return Err(next.error), line;
        }
        s := next.value;
        line := [];
      } else {
        line := line + [b];
      }
      j := j + 1;
    }
    return Ok(s), line;
  }

  /** What is left once the reads stop: an unterminated last line still goes through `step`. */
  function Finish<S, E>(step: (seq<byte>, S) -> Result<S, E>, s: S, line: seq<byte>): Result<S, E> {
    if line != [] then step(line, s) else Ok(s)
  }

  /** The outer read loop as a function, from chunk `i` on. */
  function ReadFrom<S, E>(chunks: seq<Chunk<byte>>, i: nat, step: (seq<byte>, S) -> Result<S, E>,
                          fail: SahneError -> E, s: S, line: seq<byte>): Result<S, E>
    requires i <= |chunks|
    decreases |chunks| - i
  {
    if i == |chunks| then Finish(step, s, line)
    else match chunks[i]
      case ReadFailed(e) => Err(fail(e))
      case Data(data) =>
        if data == [] then Finish(step, s, line)
        else match Feed(data, 0, step, s, line)
          case Err(e) => Err(e)
          case Ok(p) => ReadFrom(chunks, i + 1, step, fail, p.0, p.1)
  }

  /** `ReadLinesSpec` once the bytes `seen` have already been split. */
  function ReadAfter<S, E>(seen: seq<byte>, chunks: seq<Chunk<byte>>, step: (seq<byte>, S) -> Result<S, E>,
                           fail: SahneError -> E, start: S): Result<S, E>
  {
    var (d, failure) := Received(chunks);
    match FoldLines(CompleteLines(seen + d), step, start)
    case Err(x) => Err(x)
    case Ok(s) =>
      if failure.Some? then Err(fail(failure.value))
      else Finish(step, s, Pending(seen + d))
  }

  /** The outer loop agrees with splitting all received bytes into lines. */
  lemma {:induction false} ReadFromSplits<S, E>(chunks: seq<Chunk<byte>>, i: nat, step: (seq<byte>, S) -> Result<S, E>,
                                                fail: SahneError -> E, start: S, seen: seq<byte>, s: S, line: seq<byte>)
    requires i <= |chunks|
    requires FoldLines(CompleteLines(seen), step, start) == Ok(s) && line == Pending(seen)
    decreases |chunks| - i
    ensures ReadFrom(chunks, i, step, fail, s, line) == ReadAfter(seen, chunks[i..], step, fail, start)
  {
    if i == |chunks| {
      assert seen + [] == seen;
    } else {
      assert chunks[i..][0] == chunks[i] && chunks[i..][1..] == chunks[i + 1..];
      match chunks[i]
      case ReadFailed(e) =>
        assert seen + [] == seen;
      case Data(data) =>
        if data == [] {
          assert seen + [] == seen;
        } else {
          var rest := Received(chunks[i + 1..]).0;
          assert data[..0] == [] && seen + data[..0] == seen;
          FeedSplits(data, 0, step, start, seen, s, line);
          assert seen + (data + rest) == (seen + data) + rest;
          match Feed(data, 0, step, s, line)
          case Err(e) =>
            LineErrorSticks(seen + data, rest, step, start);
          case Ok(p) =>
            ReadFromSplits(chunks, i + 1, step, fail, start, seen + data, p.0, p.1);
        }
    }
  }

  /** The outer read loop: read chunks until an empty one or an error. */
  method ReadLines<S, E>(chunks: seq<Chunk<byte>>, step: (seq<byte>, S) -> Result<S, E>,
                         fail: SahneError -> E, start: S)
    returns (r: Result<S, E>)
    ensures r == ReadLinesSpec(chunks, step, fail, start)
  {
    var state := start;
    var currentLine: seq<byte> := [];
    var i := 0;
    ReadFromSplits(chunks, 0, step, fail, start, [], start, []);
    assert chunks[0..] == chunks;
    assert forall d: seq<byte> :: [] + d == d;
    while i < |chunks|
      invariant 0 <= i <= |chunks|
      invariant ReadLinesSpec(chunks, step, fail, start) == ReadFrom(chunks, i, step, fail, state, currentLine)
    {
      match chunks[i]
      case ReadFailed(e) =>
        return Err(fail(e));
      case Data(data) =>
        if data == [] {
          break;
        }
        var fed, line := FeedChunk(data, step, state, currentLine);
        if fed.Err? {
          return Err(fed.error);
        }
        state, currentLine := fed.value, line;
        i := i + 1;
    }
    if currentLine != [] {
      r := step(currentLine, state);
    } else {
      r := Ok(state);
    }
  }
}
