/** JSON-lines framing: how a byte stream is cut into newline-terminated frames.

    `Lines` and `Rest` say what a stream contains; `IsSplit` says the same thing
    without computing it, and the two are proved to coincide.  `LineReader` is the
    private reader both ends of the bridge have (Go's lineReader, Python's
    _LineReader): it is fed arbitrary chunks and pops complete lines. */
module Framing {
  newtype byte = x: int | 0 <= x < 256
  type bytes = seq<byte>

  const NEWLINE: byte := 10

  datatype Option<+T> = None | Some(value: T)

  function FindNewline(s: bytes): (i: int)
    ensures -1 <= i < |s|
    ensures i >= 0 ==> s[i] == NEWLINE && NEWLINE !in s[..i]
    ensures i < 0 ==> NEWLINE !in s
  {
    if s == [] then -1
    else if s[0] == NEWLINE then 0
    else
      var i := FindNewline(s[1..]);
      if i < 0 then -1 else
        assert forall k | 0 <= k < i + 1 :: s[k] != NEWLINE by {
          assert forall k | 0 < k < i + 1 :: s[k] == s[1..][..i][k - 1];
        }
        i + 1
  }

  function Frame(line: bytes): bytes {
    line + [NEWLINE]
  }

  function Frames(lines: seq<bytes>): bytes {
    if lines == [] then [] else Frame(lines[0]) + Frames(lines[1..])
  }

  ghost predicate NoNewlines(lines: seq<bytes>) {
    forall i | 0 <= i < |lines| :: NEWLINE !in lines[i]
  }

  /** `s` is exactly these complete frames followed by an unfinished one. */
  ghost predicate IsSplit(s: bytes, lines: seq<bytes>, rest: bytes) {
    s == Frames(lines) + rest && NoNewlines(lines) && NEWLINE !in rest
  }

  function Lines(s: bytes): seq<bytes>
    decreases |s|
  {
    var i := FindNewline(s);
    if i < 0 then [] else [s[..i]] + Lines(s[i + 1..])
  }

  function Rest(s: bytes): bytes
    decreases |s|
  {
    var i := FindNewline(s);
    if i < 0 then s else Rest(s[i + 1..])
  }

  lemma Associates(a: bytes, b: bytes, c: bytes)
    ensures (a + b) + c == a + (b + c)
  {
  }

  lemma FramesConcat(a: seq<bytes>, b: seq<bytes>)
    ensures Frames(a + b) == Frames(a) + Frames(b)
  {
    if a == [] {
      assert a + b == b;
    } else {
      assert (a + b)[1..] == a[1..] + b;
      FramesConcat(a[1..], b);
    }
  }

  lemma SplitCons(line: bytes, more: bytes, lines: seq<bytes>, rest: bytes)
    requires NEWLINE !in line && IsSplit(more, lines, rest)
    ensures IsSplit(Frame(line) + more, [line] + lines, rest)
  {
    assert ([line] + lines)[1..] == lines;
    assert Frame(line) + more == Frames([line] + lines) + rest;
  }

  lemma NoFrameYet(s: bytes)
    requires FindNewline(s) < 0
    ensures IsSplit(s, Lines(s), Rest(s))
  {
    assert Frames([]) + s == s;
  }

  lemma CutAt(s: bytes, i: nat)
    requires i < |s| && s[i] == NEWLINE
    ensures s == Frame(s[..i]) + s[i + 1..]
  {
  }

  lemma CutOnce(s: bytes)
    requires FindNewline(s) >= 0
    ensures var i := FindNewline(s);
      && Lines(s) == [s[..i]] + Lines(s[i + 1..]) && Rest(s) == Rest(s[i + 1..])
      && s == Frame(s[..i]) + s[i + 1..]
  {
    CutAt(s, FindNewline(s));
    hide FindNewline, Frame;
  }

  lemma {:induction false} SplitExists(s: bytes)
    ensures IsSplit(s, Lines(s), Rest(s))
    decreases |s|
  {
    hide FindNewline, Lines, Rest, Frames, IsSplit;
    var i := FindNewline(s);
    if i < 0 {
      NoFrameYet(s);
    } else {
      var line, more := s[..i], s[i + 1..];
      CutOnce(s);
      SplitExists(more);
      SplitCons(line, more, Lines(more), Rest(more));
    }
  }

  /** The first newline of `line + newline + more` is the one that ends `line`. */
  lemma FirstFrame(line: bytes, more: bytes)
    requires NEWLINE !in line
    ensures FindNewline(Frame(line) + more) == |line|
    ensures (Frame(line) + more)[..|line|] == line
    ensures (Frame(line) + more)[|line| + 1..] == more
  {
    var s := Frame(line) + more;
    assert s[|line|] == NEWLINE;
    assert forall k | 0 <= k < |line| :: s[k] == line[k];
    assert forall i | |line| < i <= |s| :: s[..i][|line|] == NEWLINE;
  }

  lemma SameFirstFrame(line: bytes, more: bytes, line': bytes, more': bytes)
    requires Frame(line) + more == Frame(line') + more'
    requires NEWLINE !in line && NEWLINE !in line'
    ensures line == line' && more == more'
  {
    FirstFrame(line, more);
    FirstFrame(line', more');
  }

  /** There is only one way to cut a stream into frames. */
  lemma {:induction false} SplitUnique(s: bytes, lines: seq<bytes>, rest: bytes)
    requires IsSplit(s, lines, rest)
    ensures lines == Lines(s) && rest == Rest(s)
    decreases |lines|
  {
    if lines != [] {
      var more := Frames(lines[1..]) + rest;
      assert s == Frame(lines[0]) + more;
      FirstFrame(lines[0], more);
      SplitUnique(more, lines[1..], rest);
    }
  }

  /** Two cuts in a row make one: first `a`, then what it left over with `b`. */
  lemma SplitCompose(a: bytes, b: bytes, la: seq<bytes>, ra: bytes, lb: seq<bytes>, rb: bytes)
    requires IsSplit(a, la, ra) && IsSplit(ra + b, lb, rb)
    ensures IsSplit(a + b, la + lb, rb)
  {
    FramesConcat(la, lb);
    Associates(Frames(la), ra, b);
    Associates(Frames(la), Frames(lb), rb);
  }

  /** Framing does not depend on chunking: cutting what has arrived so far and then
      the leftover with the next chunk gives the frames of the whole stream. */
  lemma SplitConcat(a: bytes, b: bytes)
    ensures Lines(a + b) == Lines(a) + Lines(Rest(a) + b)
    ensures Rest(a + b) == Rest(Rest(a) + b)
  {
    SplitExists(a);
    SplitExists(Rest(a) + b);
    SplitCompose(a, b, Lines(a), Rest(a), Lines(Rest(a) + b), Rest(Rest(a) + b));
    SplitUnique(a + b, Lines(a) + Lines(Rest(a) + b), Rest(Rest(a) + b));
  }

  /** Whole frames at the front of a stream are its first lines. */
  lemma WholeFramesFirst(lines: seq<bytes>, more: bytes)
    requires NoNewlines(lines)
    ensures Lines(Frames(lines) + more) == lines + Lines(more)
    ensures Rest(Frames(lines) + more) == Rest(more)
  {
    SplitUnique(Frames(lines), lines, []);
    SplitConcat(Frames(lines), more);
    assert [] + more == more;
  }

  /** A queue of frames: a frame goes in at the end ... */
  lemma SplitPush(s: bytes, lines: seq<bytes>, line: bytes)
    requires IsSplit(s, lines, []) && NEWLINE !in line
    ensures IsSplit(s + Frame(line), lines + [line], [])
  {
    FramesConcat(lines, [line]);
    assert Frames([line]) == Frame(line);
    assert s + Frame(line) == Frames(lines + [line]) + [];
  }

  /** ... and comes out at the front, as soon as the bytes at hand hold a newline. */
  lemma SplitPop(held: bytes, more: bytes, lines: seq<bytes>, rest: bytes)
    requires IsSplit(held + more, lines, rest) && FindNewline(held) >= 0
    ensures lines != []
    ensures held[..FindNewline(held)] == lines[0]
    ensures IsSplit(held[FindNewline(held) + 1..] + more, lines[1..], rest)
  {
    var i := FindNewline(held);
    var line, left := held[..i], held[i + 1..];
    assert held == Frame(line) + left;
    Associates(Frame(line), left, more);
    assert lines != [] by {
      assert (held + more)[i] == NEWLINE;
      assert Frames([]) + rest == rest;
    }
    Associates(Frame(lines[0]), Frames(lines[1..]), rest);
    SameFirstFrame(line, left + more, lines[0], Frames(lines[1..]) + rest);
  }

  function Concat(chunks: seq<bytes>): bytes {
    if chunks == [] then [] else chunks[0] + Concat(chunks[1..])
  }

  /** What a reader that cuts after every chunk has popped, and what it still holds. */
  function ReadChunks(held: bytes, chunks: seq<bytes>): (seq<bytes>, bytes)
    decreases |chunks|
  {
    if chunks == [] then ([], held)
    else
      var (popped, left) := ReadChunks(Rest(held + chunks[0]), chunks[1..]);
      (Lines(held + chunks[0]) + popped, left)
  }

  lemma {:induction false} ReadChunksSplits(held: bytes, chunks: seq<bytes>)
    requires NEWLINE !in held
    ensures IsSplit(held + Concat(chunks), ReadChunks(held, chunks).0, ReadChunks(held, chunks).1)
    decreases |chunks|
  {
    if chunks == [] {
      assert held + Concat(chunks) == Frames([]) + held;
    } else {
      var h, later := held + chunks[0], Concat(chunks[1..]);
      var lines, rest := Lines(h), Rest(h);
      SplitExists(h);
      ReadChunksSplits(rest, chunks[1..]);
      var tail := ReadChunks(rest, chunks[1..]);
      assert ReadChunks(held, chunks) == (lines + tail.0, tail.1);
      SplitCompose(h, later, lines, rest, tail.0, tail.1);
      Associates(held, chunks[0], later);
    }
  }

  /** However a stream is chunked, its reader pops the stream's lines in order. */
  lemma ChunkingIsInvisible(held: bytes, chunks: seq<bytes>)
    requires NEWLINE !in held
    ensures ReadChunks(held, chunks) == (Lines(held + Concat(chunks)), Rest(held + Concat(chunks)))
  {
    ReadChunksSplits(held, chunks);
    var (popped, left) := ReadChunks(held, chunks);
    SplitUnique(held + Concat(chunks), popped, left);
  }

  lemma PopAccounted(fed: bytes, popped: seq<bytes>, buffer: bytes)
    requires fed == Frames(popped) + buffer && NoNewlines(popped) && FindNewline(buffer) >= 0
    ensures
      var i := FindNewline(buffer);
      var popped' := popped + [buffer[..i]];
      && buffer == Frame(buffer[..i]) + buffer[i + 1..]
      && fed == Frames(popped') + buffer[i + 1..]
      && NoNewlines(popped') && popped' <= Lines(fed)
  {
    var i := FindNewline(buffer);
    var line, left := buffer[..i], buffer[i + 1..];
    assert buffer == Frame(line) + left;
    FramesConcat(popped, [line]);
    assert Frames([line]) == Frame(line);
    assert fed == Frames(popped + [line]) + left;
    WholeFramesFirst(popped + [line], left);
  }

  /** Reassembles chunks into lines.  `fed` and `popped` record the reader's history:
      everything it was given and every line it has handed out. */
  class LineReader {
    var buffer: bytes
    ghost var fed: bytes
    ghost var popped: seq<bytes>

    ghost predicate Valid()
      reads this
    {
      fed == Frames(popped) + buffer && NoNewlines(popped)
    }

    constructor ()
      ensures Valid() && buffer == [] && fed == [] && popped == []
    {
      buffer, fed, popped := [], [], [];
    }

    method Feed(chunk: bytes)
      requires Valid()
      modifies this
      ensures Valid()
      ensures buffer == old(buffer) + chunk
      ensures fed == old(fed) + chunk && popped == old(popped)
    {
      buffer, fed := buffer + chunk, fed + chunk;
    }

    /** Pops the next complete line.  It answers None only when every frame of the
        stream so far has been handed out, whatever chunks it arrived in. */
    method Next() returns (line: Option<bytes>)
      requires Valid()
      modifies this
      ensures Valid() && fed == old(fed)
      ensures line.None? ==> buffer == old(buffer) && popped == old(popped)
      ensures line.None? ==> FindNewline(buffer) < 0 && popped == Lines(fed) && buffer == Rest(fed)
      ensures line.Some? ==> popped == old(popped) + [line.value] && popped <= Lines(fed)
      ensures line.Some? ==>
        var i := FindNewline(old(buffer));
        i >= 0 && line.value == old(buffer)[..i] && buffer == old(buffer)[i + 1..]
    {
      var i := FindNewline(buffer);
      if i < 0 {
        SplitUnique(fed, popped, buffer);
        return None;
      }
      line := Some(buffer[..i]);
      PopAccounted(fed, popped, buffer);
      buffer, popped := buffer[i + 1..], popped + [buffer[..i]];
    }
  }
}
