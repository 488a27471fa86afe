/** Splitting a byte stream into lines as its chunks arrive. */
module Lines {
  import opened Bytes

  predicate IsLine(s: bytes) {
    NEWLINE !in s
  }

  /** The complete lines of a stream, without their newlines. */
  function Split(s: bytes): seq<bytes>
    decreases |s|
  {
    var i := IndexByte(s, NEWLINE);
    if i == |s| then [] else [s[..i]] + Split(s[i + 1..])
  }

  /** What stands after the last newline. */
  function Remainder(s: bytes): (r: bytes)
    ensures IsLine(r)
    decreases |s|
  {
    var i := IndexByte(s, NEWLINE);
    if i == |s| then s else Remainder(s[i + 1..])
  }

  function Flat(chunks: seq<bytes>): bytes {
    if chunks == [] then [] else chunks[0] + Flat(chunks[1..])
  }

  function Joined(lines: seq<bytes>): bytes {
    if lines == [] then [] else lines[0] + ([NEWLINE] + Joined(lines[1..]))
  }

  lemma Reached(a: bytes, b: bytes)
    requires IsLine(a)
    ensures Split(a + ([NEWLINE] + b)) == [a] + Split(b) && Remainder(a + ([NEWLINE] + b)) == Remainder(b)
  {
    var s := a + ([NEWLINE] + b);
    assert s[|a|] == NEWLINE;
    assert s[..|a|] == a && s[|a| + 1..] == b;
    assert IndexByte(s, NEWLINE) == |a| by {
      assert forall k | 0 <= k < |a| :: s[k] == a[k];
    }
  }

  lemma NotReached(s: bytes)
    requires IsLine(s)
    ensures Split(s) == [] && Remainder(s) == s
  {
  }

  /** A stream up to its first newline and after it. */
  lemma FirstLine(s: bytes) returns (i: nat)
    requires !IsLine(s)
    ensures i == IndexByte(s, NEWLINE) < |s| && IsLine(s[..i]) && s == s[..i] + ([NEWLINE] + s[i + 1..])
  {
    i := IndexByte(s, NEWLINE);
  }

  /** Lines and remainder are the stream: joined again they give it back. */
  lemma {:induction false} SplitLosesNothing(s: bytes)
    ensures Joined(Split(s)) + Remainder(s) == s
    decreases |s|
  {
    if IsLine(s) {
      NotReached(s);
      assert [] + s == s;
    } else {
      var i := FirstLine(s);
      Reached(s[..i], s[i + 1..]);
      SplitLosesNothing(s[i + 1..]);
      Regrouped(s[..i], Joined(Split(s[i + 1..])), Remainder(s));
    }
  }

  lemma Regrouped(line: bytes, lines: bytes, rest: bytes)
    ensures line + ([NEWLINE] + lines) + rest == line + ([NEWLINE] + (lines + rest))
  {
  }

  /** A stream that goes on: its lines are those so far, and those of the remainder with what came. */
  lemma {:induction false} SplitGoesOn(a: bytes, b: bytes)
    ensures Split(a + b) == Split(a) + Split(Remainder(a) + b)
    ensures Remainder(a + b) == Remainder(Remainder(a) + b)
    decreases |a|
  {
    if IsLine(a) {
      NotReached(a);
    } else {
      var i := FirstLine(a);
      var line, rest := a[..i], a[i + 1..];
      Regrouped(line, rest, b);
      Reached(line, rest);
      Reached(line, rest + b);
      SplitGoesOn(rest, b);
      Appended(line, Split(rest), Split(Remainder(rest) + b));
    }
  }

  lemma Appended(line: bytes, more: seq<bytes>, rest: seq<bytes>)
    ensures [line] + (more + rest) == ([line] + more) + rest
  {
  }

  // ---- The splitters ----

  /** The state pusher's splitter: it appends to the pending line up to each newline. */
  class StateLines {
    var pending: bytes
    var handled: seq<bytes>

    ghost predicate Valid()
      reads this
    {
      IsLine(pending)
    }

    constructor ()
      ensures Valid() && pending == [] && handled == []
    {
      pending, handled := [], [];
    }

    method HandleChunk(chunk: bytes)
      requires Valid()
      modifies this
      ensures Valid()
      ensures pending == Remainder(old(pending) + chunk)
      ensures handled == old(handled) + Split(old(pending) + chunk)
    {
      var left := chunk;
      while |left| > 0
        invariant Valid()
        invariant Remainder(old(pending) + chunk) == Remainder(pending + left)
        invariant old(handled) + Split(old(pending) + chunk) == handled + Split(pending + left)
        decreases |left|
      {
        var index := IndexByte(left, NEWLINE);
        if index == |left| {
          pending := pending + left;
          NotReached(pending);
          return;
        }
        PieceIsALine(pending, left, index);
        AppendLine(handled, pending + left[..index], Split(left[index + 1..]));
        pending := pending + left[..index];
        handled := handled + [pending];
        pending := [];
        left := left[index + 1..];
        assert [] + left == left;
      }
      assert pending + left == pending;
      NotReached(pending);
    }

    /** The end of the stream: what is pending is handled as a line. */
    method Close()
      requires Valid()
      modifies this
      ensures Valid() && handled == old(handled) + if old(pending) == [] then [] else [old(pending)]
    {
      if |pending| > 0 {
        handled := handled + [pending];
      }
    }
  }

  lemma PieceIsALine(pending: bytes, left: bytes, index: nat)
    requires IsLine(pending) && index == IndexByte(left, NEWLINE) < |left|
    ensures Split(pending + left) == [pending + left[..index]] + Split(left[index + 1..])
    ensures Remainder(pending + left) == Remainder(left[index + 1..])
  {
    var line, rest := pending + left[..index], left[index + 1..];
    assert pending + left == line + ([NEWLINE] + rest);
    Reached(line, rest);
  }

  lemma AppendLine(handled: seq<bytes>, line: bytes, rest: seq<bytes>)
    ensures handled + ([line] + rest) == (handled + [line]) + rest
  {
  }

  /** The debug log's splitter: it numbers the lines it emits. */
  class DebugLines {
    var pending: bytes
    var emitted: seq<bytes>
    var lineNo: nat

    ghost predicate Valid()
      reads this
    {
      IsLine(pending) && lineNo == |emitted|
    }

    constructor ()
      ensures Valid() && pending == [] && emitted == []
    {
      pending, emitted, lineNo := [], [], 0;
    }

    method Emit(line: bytes)
      modifies `emitted, `lineNo
      ensures emitted == old(emitted) + [line] && lineNo == old(lineNo) + 1
    {
      emitted := emitted + [line];
      lineNo := lineNo + 1;
    }

    method Consume(chunk: bytes)
      requires Valid()
      modifies this
      ensures Valid()
      ensures pending == Remainder(old(pending) + chunk)
      ensures emitted == old(emitted) + Split(old(pending) + chunk)
    {
      var left := chunk;
      while |left| > 0
        invariant Valid()
        invariant Remainder(old(pending) + chunk) == Remainder(pending + left)
        invariant old(emitted) + Split(old(pending) + chunk) == emitted + Split(pending + left)
        decreases |left|
      {
        var index := IndexByte(left, NEWLINE);
        if index == |left| {
          pending := pending + left;
          NotReached(pending);
          return;
        }
        PieceIsALine(pending, left, index);
        AppendLine(emitted, pending + left[..index], Split(left[index + 1..]));
        pending := pending + left[..index];
        Emit(pending);
        pending := [];
        left := left[index + 1..];
        assert [] + left == left;
      }
      assert pending + left == pending;
      NotReached(pending);
    }

    method Flush()
      requires Valid()
      modifies this
      ensures Valid() && pending == [] && emitted == old(emitted) + if old(pending) == [] then [] else [old(pending)]
    {
      if |pending| == 0 {
        return;
      }
      Emit(pending);
      pending := [];
    }
  }

  // ---- Any chunking gives the same ----

  /** What a splitter has after some chunks, by what one call does: lines and remainder. */
  function Fed(chunks: seq<bytes>, pending: bytes): (seq<bytes>, bytes)
    decreases |chunks|
  {
    if chunks == [] then ([], pending)
    else
      var rest := Fed(chunks[1..], Remainder(pending + chunks[0]));
      (Split(pending + chunks[0]) + rest.0, rest.1)
  }

  lemma {:induction false} FedIsSplit(chunks: seq<bytes>, pending: bytes)
    requires IsLine(pending)
    ensures Fed(chunks, pending) == (Split(pending + Flat(chunks)), Remainder(pending + Flat(chunks)))
    decreases |chunks|
  {
    if chunks == [] {
      assert pending + [] == pending;
      NotReached(pending);
    } else {
      var first, more := pending + chunks[0], Flat(chunks[1..]);
      assert pending + (chunks[0] + more) == first + more;
      SplitGoesOn(first, more);
      FedIsSplit(chunks[1..], Remainder(first));
    }
  }

  /** Two ways to cut one stream into chunks give the same lines and the same remainder. */
  lemma ChunkingDoesNotMatter(a: seq<bytes>, b: seq<bytes>)
    requires Flat(a) == Flat(b)
    ensures Fed(a, []) == Fed(b, [])
  {
    FedIsSplit(a, []);
    FedIsSplit(b, []);
  }

  /** The two splitters agree over a whole stream, whatever its chunks. */
  method BothSplit(chunks: seq<bytes>) returns (state: StateLines, debug: DebugLines)
    ensures state.handled == debug.emitted == Split(Flat(chunks))
    ensures state.pending == debug.pending == Remainder(Flat(chunks))
  {
    state := new StateLines();
    debug := new DebugLines();
    assert [] + Fed(chunks, []).0 == Fed(chunks, []).0;
    for i := 0 to |chunks|
      invariant fresh(state) && fresh(debug) && state.Valid() && debug.Valid()
      invariant state.handled == debug.emitted && state.pending == debug.pending
      invariant Fed(chunks, [])
                == (state.handled + Fed(chunks[i..], state.pending).0, Fed(chunks[i..], state.pending).1)
    {
      assert chunks[i..][0] == chunks[i] && chunks[i..][1..] == chunks[i + 1..];
      ghost var lines := Split(state.pending + chunks[i]);
      ghost var rest := Fed(chunks[i + 1..], Remainder(state.pending + chunks[i])).0;
      assert state.handled + (lines + rest) == (state.handled + lines) + rest;
      state.HandleChunk(chunks[i]);
      debug.Consume(chunks[i]);
    }
    assert chunks[|chunks|..] == [] && state.handled + [] == state.handled;
    FedIsSplit(chunks, []);
    assert [] + Flat(chunks) == Flat(chunks);
  }
}
