/**
 The bounded line reader of the local MCP server: one JSON-RPC message per line, read from a
 buffered stream whose buffers may end anywhere.
 */
module LineReader {
  import opened Bytes

  datatype BoundedLine = Eof | Line(bytes: seq<Byte>) | Oversized

  ghost predicate NonEmptyBuffers(buffers: seq<seq<Byte>>) {
    forall i :: 0 <= i < |buffers| ==> buffers[i] != []
  }

  /** The bytes still to come, whatever the split into buffers. */
  function Joined(buffers: seq<seq<Byte>>): seq<Byte> {
    if buffers == [] then [] else buffers[0] + Joined(buffers[1..])
  }

  /** A buffered byte stream. */
  class Stream {
    var buffers: seq<seq<Byte>>

    ghost predicate Valid()
      reads this
    {
      NonEmptyBuffers(buffers)
    }

    ghost function Rest(): seq<Byte>
      reads this
    {
      Joined(buffers)
    }

    constructor (buffers: seq<seq<Byte>>)
      requires NonEmptyBuffers(buffers)
      ensures Valid() && this.buffers == buffers
    {
      this.buffers := buffers;
    }

    /** Some prefix of the rest, empty exactly at end of stream. */
    method FillBuffer() returns (available: seq<Byte>)
      requires Valid()
      ensures available <= Rest()
      ensures available == [] <==> Rest() == []
      ensures available == if buffers == [] then [] else buffers[0]
    {
      available := if buffers == [] then [] else buffers[0];
    }

    method Consume(count: nat)
      requires Valid() && buffers != [] && count <= |buffers[0]|
      modifies this
      ensures Valid()
      ensures Rest() == old(Rest())[count..]
      ensures count > 0 ==> |Rest()| < old(|Rest()|)
    {
      var head, tail := buffers[0], buffers[1..];
      if count == |head| {
        buffers := tail;
        assert (head + Joined(tail))[count..] == Joined(tail);
      } else {
        buffers := [head[count..]] + tail;
        assert buffers[1..] == tail;
        assert (head + Joined(tail))[count..] == head[count..] + Joined(tail);
      }
    }
  }

  /** Length of the first line: through its newline, or the whole stream if there is none. */
  function FirstLineLength(stream: seq<Byte>): (n: nat)
    ensures n <= |stream|
    ensures n == 0 <==> stream == []
    ensures forall i :: 0 <= i < n - 1 ==> stream[i] != NEWLINE
    ensures n > 0 ==> stream[n - 1] == NEWLINE || n == |stream|
  {
    if stream == [] then 0
    else if stream[0] == NEWLINE then 1
    else 1 + FirstLineLength(stream[1..])
  }

  /** What one call returns, as a function of the bytes alone. */
  function FirstLine(stream: seq<Byte>, limit: nat): BoundedLine {
    var n := FirstLineLength(stream);
    if n == 0 then Eof else if n <= limit + 1 then Line(stream[..n]) else Oversized
  }

  /** A buffer without newline belongs to the first line; one with a newline ends it. */
  lemma {:induction false} FirstLineLengthIs(stream: seq<Byte>, n: nat)
    requires 0 < n <= |stream|
    requires forall i :: 0 <= i < n - 1 ==> stream[i] != NEWLINE
    ensures stream[n - 1] == NEWLINE || n == |stream| ==> FirstLineLength(stream) == n
    ensures stream[n - 1] != NEWLINE ==> FirstLineLength(stream) == n + FirstLineLength(stream[n..])
  {
    if n == 1 {
      assert stream[1..] == stream[n..];
    } else {
      assert stream[0] != NEWLINE;
      assert stream[1..][n - 1..] == stream[n..];
      FirstLineLengthIs(stream[1..], n - 1);
    }
  }

  /** One turn of the loop: `end` bytes of the current buffer join the line. */
  lemma Advance(stream: seq<Byte>, taken: nat, available: seq<Byte>, end: nat)
    requires taken <= |stream| && available <= stream[taken..] && 0 < end <= |available|
    requires forall i :: 0 <= i < end - 1 ==> available[i] != NEWLINE
    requires FirstLineLength(stream) == taken + FirstLineLength(stream[taken..])
    ensures taken + end <= |stream|
    ensures stream[..taken] + available[..end] == stream[..taken + end]
    ensures stream[taken..][end..] == stream[taken + end..]
    ensures available[end - 1] == NEWLINE ==> FirstLineLength(stream) == taken + end
    ensures available[end - 1] != NEWLINE
            ==> FirstLineLength(stream) == taken + end + FirstLineLength(stream[taken + end..])
  {
    hide FirstLineLength;
    PrefixOf(stream[taken..], available, end);
    Slices(stream, taken, end);
    FirstLineLengthIs(stream[taken..], end);
  }

  lemma PrefixOf(rest: seq<Byte>, available: seq<Byte>, end: nat)
    requires available <= rest && end <= |available|
    ensures end <= |rest| && available[..end] == rest[..end]
    ensures forall i :: 0 <= i < end ==> rest[i] == available[i]
  {
  }

  lemma Slices(stream: seq<Byte>, taken: nat, end: nat)
    requires taken + end <= |stream|
    ensures stream[..taken] + stream[taken..][..end] == stream[..taken + end]
    ensures stream[taken..][end..] == stream[taken + end..]
  {
  }

  method FindNewline(available: seq<Byte>) returns (end: nat)
    requires available != []
    ensures 0 < end <= |available|
    ensures forall i :: 0 <= i < end - 1 ==> available[i] != NEWLINE
    ensures available[end - 1] == NEWLINE || end == |available|
  {
    end := 1;
    while end < |available| && available[end - 1] != NEWLINE
      invariant 0 < end <= |available|
      invariant forall i :: 0 <= i < end - 1 ==> available[i] != NEWLINE
    {
      end := end + 1;
    }
  }

  /** What is held of a line after `taken` of its bytes: nothing once it is too long. */
  function Held(stream: seq<Byte>, taken: nat, limit: nat): seq<Byte>
    requires taken <= |stream|
  {
    if taken > limit + 1 then [] else stream[..taken]
  }

  lemma HeldGrows(stream: seq<Byte>, taken: nat, chunk: seq<Byte>, limit: nat)
    requires taken + |chunk| <= |stream| && stream[..taken] + chunk == stream[..taken + |chunk|]
    ensures |Held(stream, taken, limit)| == if taken > limit + 1 then 0 else taken
    ensures Held(stream, taken + |chunk|, limit)
         == if taken + |chunk| > limit + 1 then [] else Held(stream, taken, limit) + chunk
  {
  }

  lemma LineEnds(stream: seq<Byte>, taken: nat, limit: nat)
    requires taken <= |stream|
    requires FirstLineLength(stream) == taken || FirstLineLength(stream) == taken + FirstLineLength([])
    ensures taken == FirstLineLength(stream) && |Held(stream, taken, limit)| <= taken
    ensures Held(stream, taken, limit) == [] <==> taken == 0 || taken > limit + 1
    ensures FirstLine(stream, limit)
         == if taken == 0 then Eof else if taken > limit + 1 then Oversized else Line(Held(stream, taken, limit))
  {
  }

  /** Consumes the next buffer up to a newline, if it has one. */
  method NextChunk(reader: Stream, ghost stream: seq<Byte>, ghost taken: nat) returns (chunk: seq<Byte>, newline: bool)
    requires reader.Valid() && taken <= |stream| && reader.Rest() == stream[taken..]
    requires FirstLineLength(stream) == taken + FirstLineLength(stream[taken..])
    modifies reader
    ensures reader.Valid()
    ensures chunk == [] <==> taken == |stream|
    ensures taken + |chunk| <= |stream| && stream[..taken] + chunk == stream[..taken + |chunk|]
    ensures reader.Rest() == stream[taken + |chunk|..]
    ensures newline ==> chunk != [] && FirstLineLength(stream) == taken + |chunk|
    ensures !newline ==> FirstLineLength(stream) == taken + |chunk| + FirstLineLength(stream[taken + |chunk|..])
  {
    hide Joined, FirstLineLength;
    var available := reader.FillBuffer();
    if available == [] {
      return [], false;
    }
    var end := FindNewline(available);
    Advance(stream, taken, available, end);
    chunk, newline := available[..end], available[end - 1] == NEWLINE;
    reader.Consume(end);
  }

  /**
   Reads one line. The result and the bytes left depend only on the bytes that were left, not on the
   buffers; `peak` is the largest number of line bytes held at any moment.
   */
  method ReadBoundedLine(reader: Stream, limit: nat) returns (result: BoundedLine, ghost peak: nat)
    requires reader.Valid()
    modifies reader
    ensures reader.Valid()
    ensures result == FirstLine(old(reader.Rest()), limit)
    ensures reader.Rest() == old(reader.Rest())[FirstLineLength(old(reader.Rest()))..]
    ensures peak <= limit + 1
  {
    hide Joined, FirstLineLength, FirstLine, Held;
    ghost var stream := reader.Rest();
    ghost var taken: nat := 0;
    var line: seq<Byte> := [];
    var oversized := false;
    peak := 0;
    NothingHeld(stream, limit);
    while true
      invariant reader.Valid()
      invariant taken <= |stream| && reader.Rest() == stream[taken..]
      invariant FirstLineLength(stream) == taken + FirstLineLength(stream[taken..])
      invariant oversized <==> taken > limit + 1
      invariant line == Held(stream, taken, limit)
      invariant |line| <= peak <= limit + 1
      decreases |stream| - taken
    {
      var chunk, newline := NextChunk(reader, stream, taken);
      if chunk == [] {
        result := if line == [] && !oversized then Eof else if oversized then Oversized else Line(line);
        LineEnds(stream, taken, limit);
        return;
      }
      HeldGrows(stream, taken, chunk, limit);
      if !oversized {
        if |line| + |chunk| > limit + 1 {
          oversized := true;
          line := [];
        } else {
          line := line + chunk;
        }
      }
      if |line| > peak { peak := |line|; }
      taken := taken + |chunk|;
      if newline {
        result := if oversized then Oversized else Line(line);
        LineEnds(stream, taken, limit);
        return;
      }
    }
  }

  lemma NothingHeld(stream: seq<Byte>, limit: nat)
    ensures Held(stream, 0, limit) == [] && stream[0..] == stream
  {
  }

  // Successive calls.

  /** The results of calling the reader until end of stream. */
  function AllLines(stream: seq<Byte>, limit: nat): seq<BoundedLine>
    decreases |stream|
  {
    if stream == [] then [] else [FirstLine(stream, limit)] + AllLines(stream[FirstLineLength(stream)..], limit)
  }

  method ReadAll(reader: Stream, limit: nat) returns (lines: seq<BoundedLine>)
    requires reader.Valid()
    modifies reader
    ensures lines == AllLines(old(reader.Rest()), limit)
    ensures reader.Rest() == []
  {
    hide Joined, FirstLineLength;
    lines := [];
    ghost var stream := reader.Rest();
    while true
      invariant reader.Valid()
      invariant AllLines(stream, limit) == lines + AllLines(reader.Rest(), limit)
      decreases |reader.Rest()|
    {
      ghost var rest := reader.Rest();
      var line, _ := ReadBoundedLine(reader, limit);
      if line == Eof { return; }
      lines := lines + [line];
    }
  }

  /** `line` is what the first `n` bytes read as, and those bytes are one line. */
  ghost predicate IsFirstLine(stream: seq<Byte>, n: nat, line: BoundedLine, limit: nat) {
    && 0 < n <= |stream|
    && (stream[n - 1] == NEWLINE || n == |stream|)
    && (forall i :: 0 <= i < n - 1 ==> stream[i] != NEWLINE)
    && line == if n <= limit + 1 then Line(stream[..n]) else Oversized
  }

  /** The results cut the stream into lines, an oversized line standing for its bytes. */
  ghost predicate Reassembles(stream: seq<Byte>, lines: seq<BoundedLine>, limit: nat)
    decreases |lines|
  {
    if lines == [] then stream == []
    else
      exists n: nat :: n <= |stream| && IsFirstLine(stream, n, lines[0], limit)
                       && Reassembles(stream[n..], lines[1..], limit)
  }

  lemma FirstLineIs(stream: seq<Byte>, n: nat, line: BoundedLine, limit: nat)
    requires IsFirstLine(stream, n, line, limit)
    ensures n == FirstLineLength(stream) && line == FirstLine(stream, limit) && stream != []
  {
    hide FirstLineLength;
    FirstLineLengthIs(stream, n);
  }

  /**
   No byte is lost or read twice: the results cut the stream into its newline-terminated lines, in
   order, and replace exactly the lines longer than the limit.
   */
  lemma {:induction false} AllLinesReassemble(stream: seq<Byte>, limit: nat)
    ensures Reassembles(stream, AllLines(stream, limit), limit)
    decreases |stream|
  {
    hide FirstLineLength;
    if stream != [] {
      var n := FirstLineLength(stream);
      AllLinesReassemble(stream[n..], limit);
      assert AllLines(stream, limit)[1..] == AllLines(stream[n..], limit);
      assert IsFirstLine(stream, n, AllLines(stream, limit)[0], limit);
    }
  }

  /** There is only one such cut, so the results are a function of the bytes and the limit. */
  lemma {:induction false} ReassemblyIsUnique(stream: seq<Byte>, lines: seq<BoundedLine>, limit: nat)
    requires Reassembles(stream, lines, limit)
    ensures lines == AllLines(stream, limit)
    decreases |lines|
  {
    hide FirstLine, FirstLineLength, IsFirstLine;
    if lines != [] {
      var n: nat :| n <= |stream| && IsFirstLine(stream, n, lines[0], limit)
                    && Reassembles(stream[n..], lines[1..], limit);
      FirstLineIs(stream, n, lines[0], limit);
      ReassemblyIsUnique(stream[n..], lines[1..], limit);
      assert lines == [lines[0]] + lines[1..];
    }
  }
}
