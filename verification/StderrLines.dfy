/**
 ffmpeg's stderr, read in whatever pieces the pipe yields, put together into lines
 in a fixed buffer.
 */
module StderrLines {

  const LINE_MAX: nat := 512
  const READ_MAX: nat := 1024

  predicate EndsLine(c: char) { c == '\n' || c == '\r' }

  predicate OneLine(s: string) { forall i :: 0 <= i < |s| ==> !EndsLine(s[i]) }

  /** What a line buffer keeps of a line. */
  function Kept(s: string): (r: string)
    ensures |r| < LINE_MAX && r <= s && (|s| < LINE_MAX ==> r == s)
  {
    if |s| < LINE_MAX then s else s[..LINE_MAX - 1]
  }

  // --- the whole stream, split --------------------------------------------------------

  /** The lines a stream completes, with what ended each, and the unfinished rest. */
  datatype Split = Split(lines: seq<string>, ends: seq<char>, rest: string)

  /** Split, then joined again. */
  function Rejoined(lines: seq<string>, ends: seq<char>): string
    requires |lines| == |ends|
  {
    if lines == [] then "" else lines[0] + [ends[0]] + Rejoined(lines[1..], ends[1..])
  }

  ghost predicate IsSplit(stream: string, s: Split) {
    && |s.lines| == |s.ends|
    && stream == Rejoined(s.lines, s.ends) + s.rest
    && (forall i :: 0 <= i < |s.lines| ==> OneLine(s.lines[i]) && EndsLine(s.ends[i]))
    && OneLine(s.rest)
  }

  /** The first place at or after `i` where a line ends. */
  function NextEnd(s: string, i: nat): (j: nat)
    requires i <= |s|
    ensures i <= j <= |s|
    ensures forall k :: i <= k < j ==> !EndsLine(s[k])
    ensures j < |s| ==> EndsLine(s[j])
    decreases |s| - i
  {
    if i == |s| || EndsLine(s[i]) then i else NextEnd(s, i + 1)
  }

  function SplitOf(stream: string): Split
    decreases |stream|
  {
    var j := NextEnd(stream, 0);
    if j == |stream| then Split([], [], stream)
    else
      var more := SplitOf(stream[j + 1..]);
      Split([stream[..j]] + more.lines, [stream[j]] + more.ends, more.rest)
  }

  lemma Prepended(line: string, end: char, tail: string, s: Split)
    requires IsSplit(tail, s) && OneLine(line) && EndsLine(end)
    ensures IsSplit(line + [end] + tail, Split([line] + s.lines, [end] + s.ends, s.rest))
  {
    var lines, ends := [line] + s.lines, [end] + s.ends;
    assert lines[1..] == s.lines && ends[1..] == s.ends;
    var more := Rejoined(s.lines, s.ends);
    assert line + [end] + more + s.rest == line + [end] + (more + s.rest);
  }

  /** The split is one: joined again it is the stream, and no line or rest contains a line end. */
  lemma {:induction false} SplitOfIsSplit(stream: string)
    ensures IsSplit(stream, SplitOf(stream))
    decreases |stream|
  {
    hide IsSplit, OneLine;
    var j := NextEnd(stream, 0);
    assert stream[0..j] == stream[..j];
    if j == |stream| {
      assert stream[..j] == stream;
      OnlyRest(stream);
    } else {
      SplitOfIsSplit(stream[j + 1..]);
      Prepended(stream[..j], stream[j], stream[j + 1..], SplitOf(stream[j + 1..]));
      assert stream == stream[..j] + [stream[j]] + stream[j + 1..];
    }
  }

  lemma OnlyRest(stream: string)
    requires OneLine(stream)
    ensures IsSplit(stream, Split([], [], stream))
  {
    assert "" + stream == stream;
  }

  // --- the buffer, character by character -----------------------------------------------

  /** What the entry holds: the line so far, and the lines handed on. */
  datatype State = State(line: string, lines: seq<string>)

  const START := State("", [])

  function Step(b: State, c: char): State {
    if EndsLine(c) then State("", b.lines + [b.line])
    else if |b.line| + 1 < LINE_MAX then b.(line := b.line + [c])
    else b
  }

  function Fed(b: State, chunk: string): State {
    if chunk == "" then b else Step(Fed(b, chunk[..|chunk| - 1]), chunk[|chunk| - 1])
  }

  /** The reads of any number of polls, one after the other. */
  function FedAll(b: State, chunks: seq<string>): State {
    if chunks == [] then b else Fed(FedAll(b, chunks[..|chunks| - 1]), chunks[|chunks| - 1])
  }

  function Concat(chunks: seq<string>): string {
    if chunks == [] then "" else Concat(chunks[..|chunks| - 1]) + chunks[|chunks| - 1]
  }

  lemma {:induction false} FedTwice(b: State, x: string, y: string)
    ensures Fed(Fed(b, x), y) == Fed(b, x + y)
    decreases |y|
  {
    if y == "" {
      assert x + y == x;
    } else {
      FedTwice(b, x, y[..|y| - 1]);
      assert (x + y)[..|x + y| - 1] == x + y[..|y| - 1];
    }
  }

  lemma {:induction false} FedAllIsFed(b: State, chunks: seq<string>)
    ensures FedAll(b, chunks) == Fed(b, Concat(chunks))
    decreases |chunks|
  {
    if chunks != [] {
      FedAllIsFed(b, chunks[..|chunks| - 1]);
      FedTwice(b, Concat(chunks[..|chunks| - 1]), chunks[|chunks| - 1]);
    }
  }

  function KeptAll(lines: seq<string>): (r: seq<string>)
    ensures |r| == |lines| && forall i :: 0 <= i < |lines| ==> r[i] == Kept(lines[i])
  {
    if lines == [] then [] else KeptAll(lines[..|lines| - 1]) + [Kept(lines[|lines| - 1])]
  }

  lemma {:induction false} FedLine(b: State, s: string)
    requires OneLine(s) && b.line == ""
    ensures Fed(b, s) == State(Kept(s), b.lines)
    decreases |s|
  {
    if s != "" {
      var t := s[..|s| - 1];
      FedLine(b, t);
      assert !EndsLine(s[|s| - 1]);
      assert s == t + [s[|s| - 1]];
    }
  }

  lemma {:induction false} FedSplit(b: State, stream: string)
    requires b.line == ""
    ensures Fed(b, stream) == State(Kept(SplitOf(stream).rest), b.lines + KeptAll(SplitOf(stream).lines))
    decreases |stream|
  {
    assert KeptAll([]) == [];
    hide OneLine, Fed, KeptAll, NextEnd;
    var j := NextEnd(stream, 0);
    FirstPart(stream, j);
    if j == |stream| {
      FedLine(b, stream);
      assert b.lines + [] == b.lines;
    } else {
      var line, tail := stream[..j], stream[j + 1..];
      FedFirst(b, line, stream[j], tail);
      FedSplit(State("", b.lines + [Kept(line)]), tail);
      KeptCons(line, SplitOf(tail).lines);
      assert b.lines + [Kept(line)] + KeptAll(SplitOf(tail).lines)
             == b.lines + ([Kept(line)] + KeptAll(SplitOf(tail).lines));
    }
  }

  lemma FirstPart(stream: string, j: nat)
    requires j <= |stream| && forall k :: 0 <= k < j ==> !EndsLine(stream[k])
    ensures OneLine(stream[..j])
    ensures j == |stream| ==> stream[..j] == stream
    ensures j < |stream| ==> stream == stream[..j] + [stream[j]] + stream[j + 1..]
  {
  }

  lemma {:induction false} FedFirst(b: State, line: string, end: char, tail: string)
    requires OneLine(line) && EndsLine(end) && b.line == ""
    ensures Fed(b, line + [end] + tail) == Fed(State("", b.lines + [Kept(line)]), tail)
  {
    FedLine(b, line);
    FedOne(Fed(b, line), end);
    FedTwice(b, line, [end]);
    FedTwice(b, line + [end], tail);
  }

  lemma FedOne(b: State, c: char)
    ensures Fed(b, [c]) == Step(b, c)
  {
    assert [c][..0] == "";
    assert Fed(b, "") == b;
  }

  lemma KeptCons(line: string, lines: seq<string>)
    ensures KeptAll([line] + lines) == [Kept(line)] + KeptAll(lines)
  {
  }

  /**
   However the stream is cut into reads and polls, the lines handed on are those of the
   whole stream, each cut to what the buffer holds.
   */
  lemma ChunkingDoesNotMatter(chunks: seq<string>)
    ensures var s := SplitOf(Concat(chunks));
            FedAll(START, chunks) == State(Kept(s.rest), KeptAll(s.lines))
  {
    FedAllIsFed(START, chunks);
    FedSplit(START, Concat(chunks));
    assert [] + KeptAll(SplitOf(Concat(chunks)).lines) == KeptAll(SplitOf(Concat(chunks)).lines);
  }

  /** There is only one way to split a stream into lines. */
  lemma {:induction false} SplitIsUnique(stream: string, a: Split, b: Split)
    requires IsSplit(stream, a) && IsSplit(stream, b)
    ensures a == b
    decreases |a.lines|
  {
    HasLine(stream, a);
    HasLine(stream, b);
    if a.lines != [] {
      FirstLine(stream, a);
      FirstLine(stream, b);
      var x := a.lines[0];
      SameFirst(stream, x, b.lines[0]);
      var a', b' := Split(a.lines[1..], a.ends[1..], a.rest), Split(b.lines[1..], b.ends[1..], b.rest);
      SplitIsUnique(stream[|x| + 1..], a', b');
      assert a.lines == [x] + a'.lines && b.lines == [x] + b'.lines;
      assert a.ends == [a.ends[0]] + a'.ends && b.ends == [b.ends[0]] + b'.ends;
    }
  }

  /** A line that ends where the next line end is has no other length. */
  lemma SameFirst(stream: string, x: string, y: string)
    requires |x| < |stream| && |y| < |stream| && stream[..|x|] == x && stream[..|y|] == y
    requires OneLine(x) && OneLine(y) && EndsLine(stream[|x|]) && EndsLine(stream[|y|])
    ensures x == y
  {
    assert forall i :: 0 <= i < |y| ==> stream[i] == y[i] && !EndsLine(stream[i]);
    assert forall i :: 0 <= i < |x| ==> stream[i] == x[i] && !EndsLine(stream[i]);
  }

  lemma HasLine(stream: string, s: Split)
    requires IsSplit(stream, s)
    ensures s.lines == [] <==> OneLine(stream)
    ensures s.lines == [] ==> s == Split([], [], stream)
  {
    if s.lines == [] {
      assert "" + s.rest == s.rest;
    } else {
      FirstLine(stream, s);
    }
  }

  lemma FirstLine(stream: string, s: Split)
    requires IsSplit(stream, s) && s.lines != []
    ensures |s.lines[0]| < |stream| && stream[..|s.lines[0]|] == s.lines[0] && stream[|s.lines[0]|] == s.ends[0]
    ensures IsSplit(stream[|s.lines[0]| + 1..], Split(s.lines[1..], s.ends[1..], s.rest))
  {
    var x := s.lines[0];
    var more := Rejoined(s.lines[1..], s.ends[1..]);
    assert stream == x + [s.ends[0]] + (more + s.rest);
  }

  // --- in place ------------------------------------------------------------------------------

  /** The line buffer of an entry; `lines` is what has been handed on. */
  class LineBuffer {
    const line: array<char>
    var lineLen: nat
    var lines: seq<string>

    ghost predicate Valid()
      reads this, line
    {
      line.Length == LINE_MAX && lineLen < LINE_MAX
    }

    ghost function Contents(): State
      requires Valid()
      reads this, line
    {
      State(line[..lineLen], lines)
    }

    constructor ()
      ensures Valid() && fresh(line) && Contents() == START
    {
      line := new char[LINE_MAX];
      lineLen, lines := 0, [];
    }

    /** The characters of one read. */
    method Feed(chunk: string)
      requires Valid()
      modifies this, line
      ensures Valid() && Contents() == Fed(old(Contents()), chunk)
    {
      ghost var before := Contents();
      for i := 0 to |chunk|
        invariant Valid() && Contents() == Fed(before, chunk[..i])
      {
        assert chunk[..i + 1][..i] == chunk[..i];
        var c := chunk[i];
        if c == '\n' || c == '\r' {
          line[lineLen] := '\0';
          lines := lines + [line[..lineLen]];
          lineLen := 0;
        } else if lineLen + 1 < LINE_MAX {
          line[lineLen] := c;
          lineLen := lineLen + 1;
        }
      }
      assert chunk[..|chunk|] == chunk;
    }

    /** One poll: reads until the pipe is empty; `pieces` is what each read yields. */
    method Drain(pieces: seq<string>)
      requires Valid() && forall i :: 0 <= i < |pieces| ==> 0 < |pieces[i]| <= READ_MAX
      modifies this, line
      ensures Valid() && Contents() == FedAll(old(Contents()), pieces)
    {
      ghost var before := Contents();
      for i := 0 to |pieces|
        invariant Valid() && Contents() == FedAll(before, pieces[..i])
      {
        assert pieces[..i + 1][..i] == pieces[..i];
        Feed(pieces[i]);
      }
      assert pieces[..|pieces|] == pieces;
    }
  }
}
