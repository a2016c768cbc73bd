/** The pseudo-terminal filter of agent/providers/process/src/session.rs: cursor-position
    queries (DSR, section 8.3.35 of ECMA-48) are cut out of the output stream and answered
    with a cursor report (CPR, section 8.3.14 of ECMA-48), however the stream is cut into reads.
 */
module PtyFilter {
  import opened Wrappers
  import opened OutputLog

  // ---------- The whole-stream specification ----------

  /** The query ESC [ 6 n starts at `i`. */
  predicate QueryAt(s: seq<byte>, i: int) {
    0 <= i <= |s| - 4 && s[i] == 0x1b && s[i + 1] == 0x5b && s[i + 2] == 0x36 && s[i + 3] == 0x6e
  }

  lemma QueryShift(a: seq<byte>, b: seq<byte>, j: nat)
    ensures QueryAt(a + b, |a| + j) <==> QueryAt(b, j)
  {}

  lemma QueryPrefix(a: seq<byte>, b: seq<byte>, j: int)
    requires j + 4 <= |a|
    ensures QueryAt(a + b, j) <==> QueryAt(a, j)
  {}

  /** The leftmost occurrence at or after `from`. */
  function FindFrom(s: seq<byte>, from: nat): (r: Option<nat>)
    requires from <= |s|
    ensures r.Some? ==> from <= r.value && QueryAt(s, r.value)
    ensures forall i | from <= i < (if r.Some? then r.value else |s|) :: !QueryAt(s, i)
    decreases |s| - from
  {
    if |s| - from < 4 then None
    else if QueryAt(s, from) then Some(from)
    else FindFrom(s, from + 1)
  }

  function FindBytes(s: seq<byte>): (r: Option<nat>)
    ensures r.Some? ==> QueryAt(s, r.value) && forall i | 0 <= i < r.value :: !QueryAt(s, i)
    ensures r.None? ==> forall i :: !QueryAt(s, i)
  {
    FindFrom(s, 0)
  }

  /** What is left after removing queries from left to right; removed text is not rescanned. */
  function Strip(s: seq<byte>): seq<byte>
    decreases |s|
  {
    match FindBytes(s)
    case None => s
    case Some(i) => s[..i] + Strip(s[i + 4..])
  }

  function Count(s: seq<byte>): nat
    decreases |s|
  {
    match FindBytes(s)
    case None => 0
    case Some(i) => 1 + Count(s[i + 4..])
  }

  lemma {:induction false} StripConservesBytes(s: seq<byte>)
    ensures |Strip(s)| + 4 * Count(s) == |s|
    decreases |s|
  {
    if FindBytes(s).Some? {
      StripConservesBytes(s[FindBytes(s).value + 4..]);
    }
  }

  lemma FirstQueryIsUnique(s: seq<byte>, i: nat)
    requires QueryAt(s, i) && forall j | 0 <= j < i :: !QueryAt(s, j)
    ensures FindBytes(s) == Some(i)
  {}

  /** A query found in what has arrived stays the leftmost one, whatever follows. */
  lemma CutQuery(s: seq<byte>, rest: seq<byte>)
    requires FindBytes(s).Some?
    ensures var i := FindBytes(s).value;
            && Strip(s + rest) == s[..i] + Strip(s[i + 4..] + rest)
            && Count(s + rest) == 1 + Count(s[i + 4..] + rest)
  {
    var i := FindBytes(s).value;
    forall j | 0 <= j <= i ensures QueryAt(s + rest, j) <==> QueryAt(s, j) {
      QueryPrefix(s, rest, j);
    }
    FirstQueryIsUnique(s + rest, i);
    assert (s + rest)[i + 4..] == s[i + 4..] + rest;
    assert (s + rest)[..i] == s[..i];
  }

  /** With no query in `head + tail` and three bytes held back, none can start in `head`. */
  lemma FindSkipsHead(head: seq<byte>, tail: seq<byte>, rest: seq<byte>)
    requires FindBytes(head + tail).None?
    requires |tail| >= 3 || head == []
    ensures FindBytes(head + (tail + rest))
         == match FindBytes(tail + rest) case None => None case Some(i) => Some(|head| + i)
  {
    var t := head + (tail + rest);
    assert t == (head + tail) + rest;
    forall j | 0 <= j < |head| ensures !QueryAt(t, j) {
      QueryPrefix(head + tail, rest, j);
    }
    forall j: nat ensures QueryAt(t, |head| + j) <==> QueryAt(tail + rest, j) {
      QueryShift(head, tail + rest, j);
    }
    match FindBytes(tail + rest) {
      case Some(i) =>
        forall j | |head| <= j < |head| + i ensures !QueryAt(t, j) {
          assert !QueryAt(tail + rest, j - |head|);
          assert QueryAt(t, |head| + (j - |head|)) <==> QueryAt(tail + rest, j - |head|);
        }
        assert QueryAt(t, |head| + i);
        FirstQueryIsUnique(t, |head| + i);
      case None =>
        forall j | |head| <= j ensures !QueryAt(t, j) {
          assert !QueryAt(tail + rest, j - |head|);
          assert QueryAt(t, |head| + (j - |head|)) <==> QueryAt(tail + rest, j - |head|);
        }
    }
  }

  lemma {:induction false} StripAt(s: seq<byte>, i: nat, front: seq<byte>, back: seq<byte>)
    requires FindBytes(s) == Some(i) && front == s[..i] && back == s[i + 4..]
    ensures Strip(s) == front + Strip(back)
    ensures Count(s) == 1 + Count(back)
  {}

  lemma SplitShifts(a: seq<byte>, b: seq<byte>, i: nat)
    requires i + 4 <= |b|
    ensures (a + b)[..|a| + i] == a + b[..i]
    ensures (a + b)[|a| + i + 4..] == b[i + 4..]
  {}

  lemma {:induction false} StripShifts(a: seq<byte>, b: seq<byte>)
    requires FindBytes(a + b) == match FindBytes(b) case None => None case Some(i) => Some(|a| + i)
    ensures Strip(a + b) == a + Strip(b)
    ensures Count(a + b) == Count(b)
  {
    if FindBytes(b).Some? {
      var i := FindBytes(b).value;
      SplitShifts(a, b, i);
      StripAt(b, i, b[..i], b[i + 4..]);
      StripAt(a + b, |a| + i, a + b[..i], b[i + 4..]);
    }
  }

  lemma EmitHead(head: seq<byte>, tail: seq<byte>, rest: seq<byte>)
    requires FindBytes(head + tail).None?
    requires |tail| >= 3 || head == []
    ensures Strip(head + (tail + rest)) == head + Strip(tail + rest)
    ensures Count(head + (tail + rest)) == Count(tail + rest)
  {
    FindSkipsHead(head, tail, rest);
    StripShifts(head, tail + rest);
  }

  ghost predicate Agrees(
    input: seq<byte>, emitted: seq<byte>, pending: seq<byte>, answered: nat, rest: seq<byte>)
  {
    && Strip(input + rest) == emitted + Strip(pending + rest)
    && Count(input + rest) == answered + Count(pending + rest)
  }

  /** `emitted` has been written and `pending` is held: whatever comes next, stripping the
      whole input is the same as stripping what is held plus what comes. */
  ghost predicate Represents(input: seq<byte>, emitted: seq<byte>, pending: seq<byte>, answered: nat) {
    forall rest: seq<byte> :: Agrees(input, emitted, pending, answered, rest)
  }

  lemma RepresentsNow(input: seq<byte>, emitted: seq<byte>, pending: seq<byte>, answered: nat)
    requires Represents(input, emitted, pending, answered)
    ensures Strip(input) == emitted + Strip(pending)
    ensures Count(input) == answered + Count(pending)
  {
    assert Agrees(input, emitted, pending, answered, []);
    assert input + [] == input && pending + [] == pending;
  }

  lemma ReadMore(input: seq<byte>, emitted: seq<byte>, pending: seq<byte>, answered: nat, chunk: seq<byte>)
    requires Represents(input, emitted, pending, answered)
    ensures Represents(input + chunk, emitted, pending + chunk, answered)
  {
    forall rest: seq<byte> ensures Agrees(input + chunk, emitted, pending + chunk, answered, rest) {
      assert Agrees(input, emitted, pending, answered, chunk + rest);
      assert input + chunk + rest == input + (chunk + rest);
      assert pending + chunk + rest == pending + (chunk + rest);
    }
  }

  lemma RemoveQuery(input: seq<byte>, emitted: seq<byte>, pending: seq<byte>, answered: nat)
    requires Represents(input, emitted, pending, answered)
    requires FindBytes(pending).Some?
    ensures var i := FindBytes(pending).value;
            Represents(input, emitted + pending[..i], pending[i + 4..], answered + 1)
  {
    var i := FindBytes(pending).value;
    var written, left, now := emitted + pending[..i], pending[i + 4..], answered + 1;
    forall rest: seq<byte> ensures Agrees(input, written, left, now, rest) {
      assert Agrees(input, emitted, pending, answered, rest);
      CutQuery(pending, rest);
    }
  }

  lemma HoldBack(input: seq<byte>, emitted: seq<byte>, pending: seq<byte>, answered: nat, emit: nat)
    requires Represents(input, emitted, pending, answered)
    requires FindBytes(pending).None?
    requires emit <= |pending| && (emit == 0 || |pending| - emit >= 3)
    ensures Represents(input, emitted + pending[..emit], pending[emit..], answered)
  {
    var written, left := emitted + pending[..emit], pending[emit..];
    forall rest: seq<byte> ensures Agrees(input, written, left, answered, rest) {
      assert Agrees(input, emitted, pending, answered, rest);
      assert pending == pending[..emit] + pending[emit..];
      assert pending + rest == pending[..emit] + (pending[emit..] + rest);
      EmitHead(pending[..emit], pending[emit..], rest);
    }
  }

  lemma HeldTailHasNoQuery(pending: seq<byte>, emit: nat)
    requires emit <= |pending| && FindBytes(pending).None?
    ensures FindBytes(pending[emit..]).None?
  {
    if FindBytes(pending[emit..]).Some? {
      var i := FindBytes(pending[emit..]).value;
      assert pending == pending[..emit] + pending[emit..];
      QueryShift(pending[..emit], pending[emit..], i);
    }
  }

  ghost predicate Precedes(emitted: seq<byte>, input: seq<byte>, rest: seq<byte>) {
    emitted <= Strip(input + rest)
  }

  /** `emitted` is right whatever follows `input`. */
  ghost predicate Emitted(input: seq<byte>, emitted: seq<byte>) {
    forall rest: seq<byte> :: Precedes(emitted, input, rest)
  }

  lemma RepresentsEmitted(input: seq<byte>, emitted: seq<byte>, pending: seq<byte>, answered: nat)
    requires Represents(input, emitted, pending, answered)
    ensures Emitted(input, emitted)
  {
    forall rest: seq<byte> ensures Precedes(emitted, input, rest) {
      assert Agrees(input, emitted, pending, answered, rest);
    }
  }

  // ---------- The pump ----------

  function Flatten(chunks: seq<seq<byte>>): seq<byte> {
    if chunks == [] then []
    else Flatten(chunks[..|chunks| - 1]) + chunks[|chunks| - 1]
  }

  lemma {:induction false} FlattenSplit(chunks: seq<seq<byte>>, n: nat)
    requires n <= |chunks|
    ensures exists rest :: Flatten(chunks) == Flatten(chunks[..n]) + rest
  {
    if n == |chunks| {
      assert chunks[..n] == chunks;
      assert Flatten(chunks) == Flatten(chunks[..n]) + [];
    } else {
      var front := chunks[..|chunks| - 1];
      FlattenSplit(front, n);
      assert front[..n] == chunks[..n];
      var rest :| Flatten(front) == Flatten(chunks[..n]) + rest;
      assert Flatten(chunks) == Flatten(chunks[..n]) + (rest + chunks[|chunks| - 1]);
    }
  }

  datatype Ending = EndOfFile | ReadError

  datatype Pumped = Finished | ReadFailed | WriteFailed

  class PtyPump {
    const output: OutputBuffer
    var pending: seq<byte>
    /** Another thread may take the writer away at any time; it never comes back. */
    var writerOpen: bool
    /** Replies written, and queries met after the writer was taken. */
    var replies: nat
    var unanswered: nat
    /** Nobody takes the writer away, and writing to it never fails. */
    const undisturbed: bool
    ghost var input: seq<byte>

    ghost predicate Valid()
      reads this, output
    {
      && output.Valid()
      && Represents(input, output.log, pending, replies + unanswered)
      && (writerOpen ==> unanswered == 0)
    }

    /** What holds between two reads. */
    ghost predicate Settled()
      reads this, output
    {
      Valid() && |pending| <= 3 && FindBytes(pending).None?
    }

    constructor (output: OutputBuffer, undisturbed: bool)
      requires output.Valid() && output.log == []
      ensures Settled() && this.output == output && input == [] && writerOpen
      ensures replies == 0 && unanswered == 0 && this.undisturbed == undisturbed
    {
      this.output, this.undisturbed := output, undisturbed;
      pending, input := [], [];
      writerOpen, replies, unanswered := true, 0, 0;
    }

    /** Answers one query under the writer lock; `ok` is false when the write fails. */
    method Answer() returns (ok: bool)
      modifies this`writerOpen, this`replies, this`unanswered
      ensures writerOpen ==> old(writerOpen)
      ensures ok && writerOpen ==> replies == old(replies) + 1 && unanswered == old(unanswered)
      ensures ok && !writerOpen ==> replies == old(replies) && unanswered == old(unanswered) + 1
      ensures !ok ==> old(writerOpen) && replies == old(replies) && unanswered == old(unanswered)
      ensures undisturbed ==> ok && writerOpen == old(writerOpen)
    {
      var taken: bool := *;
      if taken && !undisturbed {
        writerOpen := false;
      }
      if writerOpen {
        var failed: bool := *;
        if failed && !undisturbed {
          return false;
        }
        replies := replies + 1;
      } else {
        unanswered := unanswered + 1;
      }
      return true;
    }

    /** Appends the first `count` bytes held, unless there are none. */
    method Emit(count: nat)
      requires output.Valid() && count <= |pending|
      modifies output
      ensures output.Valid() && output.log == old(output.log) + pending[..count]
    {
      if count > 0 {
        output.Append(pending[..count]);
      } else {
        assert output.log + pending[..count] == output.log;
      }
    }

    method ProcessPtyBytes() returns (ok: bool)
      requires Valid()
      modifies this`pending, this`writerOpen, this`replies, this`unanswered, output
      ensures ok ==> Settled()
      ensures !ok ==> output.Valid() && Emitted(input, output.log) && old(writerOpen)
      ensures writerOpen ==> old(writerOpen)
      ensures undisturbed ==> ok && writerOpen == old(writerOpen)
      ensures old(output.log) <= output.log
    {
      while FindBytes(pending).Some?
        invariant Valid()
        invariant writerOpen ==> old(writerOpen)
        invariant undisturbed ==> writerOpen == old(writerOpen)
        invariant old(output.log) <= output.log
        decreases |pending|
      {
        var index := FindBytes(pending).value;
        RemoveQuery(input, output.log, pending, replies + unanswered);
        RepresentsEmitted(input, output.log + pending[..index], pending[index + 4..], replies + unanswered + 1);
        Emit(index);
        var answered := Answer();
        if !answered {
          return false;
        }
        pending := pending[index + 4..];
      }
      var keep := if |pending| < 3 then |pending| else 3;
      var emit := |pending| - keep;
      HoldBack(input, output.log, pending, replies + unanswered, emit);
      HeldTailHasNoQuery(pending, emit);
      Emit(emit);
      pending := pending[emit..];
      return true;
    }

    /** Reads until the end of the stream or a failure.  `chunks` are the reads the operating
        system happens to deliver. */
    method PumpPtyOutput(chunks: seq<seq<byte>>, ending: Ending) returns (r: Pumped)
      requires Settled() && input == [] && output.log == [] && replies == 0 && unanswered == 0
      modifies this, output
      ensures output.Valid() && output.log <= Strip(Flatten(chunks))
      ensures r.Finished? ==>
        && ending == EndOfFile
        && output.log == Strip(Flatten(chunks))
        && replies + unanswered == Count(Flatten(chunks))
        && (writerOpen ==> replies == Count(Flatten(chunks)))
      ensures r.ReadFailed? ==>
        && ending == ReadError
        && output.log + pending == Strip(Flatten(chunks)) && |pending| <= 3
      ensures r.WriteFailed? ==> old(writerOpen)
      ensures undisturbed ==>
        && (if ending == EndOfFile then r == Finished else r == ReadFailed)
        && writerOpen == old(writerOpen)
    {
      var next := 0;
      while next < |chunks|
        invariant next <= |chunks|
        invariant Settled()
        invariant input == Flatten(chunks[..next])
        invariant writerOpen ==> old(writerOpen)
        invariant undisturbed ==> writerOpen == old(writerOpen)
      {
        ReadMore(input, output.log, pending, replies + unanswered, chunks[next]);
        pending := pending + chunks[next];
        input := input + chunks[next];
        assert chunks[..next + 1][..next] == chunks[..next];
        var ok := ProcessPtyBytes();
        next := next + 1;
        if !ok {
          FlattenSplit(chunks, next);
          ghost var rest :| Flatten(chunks) == Flatten(chunks[..next]) + rest;
          assert Precedes(output.log, input, rest);
          return WriteFailed;
        }
      }
      assert chunks[..next] == chunks;
      RepresentsNow(input, output.log, pending, replies + unanswered);
      if ending == ReadError {
        return ReadFailed;
      }
      if pending != [] {
        output.Append(pending);
      }
      return Finished;
    }
  }

  // ---------- What stripping means ----------

  const QUERY: seq<byte> := [0x1b, 0x5b, 0x36, 0x6e]

  /** The pieces with a query between each and the next. */
  function Interleaved(pieces: seq<seq<byte>>): seq<byte> {
    if pieces == [] then []
    else if |pieces| == 1 then pieces[0]
    else pieces[0] + QUERY + Interleaved(pieces[1..])
  }

  /** The query does not occur in the bytes. */
  ghost predicate QueryFree(s: seq<byte>) {
    forall before, after :: s != before + QUERY + after
  }

  lemma OccurrenceIsQueryAt(before: seq<byte>, after: seq<byte>)
    ensures QueryAt(before + QUERY + after, |before|)
  {}

  lemma NoneFoundIsFree(s: seq<byte>)
    requires forall i :: !QueryAt(s, i)
    ensures QueryFree(s)
  {
    forall before: seq<byte>, after: seq<byte> ensures s != before + QUERY + after {
      OccurrenceIsQueryAt(before, after);
    }
  }

  lemma HeadIsFree(s: seq<byte>, i: nat)
    requires QueryAt(s, i) && forall j | 0 <= j < i :: !QueryAt(s, j)
    ensures QueryFree(s[..i]) && s == s[..i] + QUERY + s[i + 4..]
  {
    forall j ensures !QueryAt(s[..i], j) {
      assert s == s[..i] + s[i..];
      if j + 4 <= i {
        QueryPrefix(s[..i], s[i..], j);
      }
    }
    NoneFoundIsFree(s[..i]);
  }

  lemma OnePieceMore(piece: seq<byte>, pieces: seq<seq<byte>>)
    requires pieces != []
    ensures Interleaved([piece] + pieces) == piece + QUERY + Interleaved(pieces)
    ensures Flatten([piece] + pieces) == piece + Flatten(pieces)
  {
    assert ([piece] + pieces)[1..] == pieces;
    FlattenPrepend(piece, pieces);
  }

  lemma {:induction false} FlattenPrepend(piece: seq<byte>, pieces: seq<seq<byte>>)
    ensures Flatten([piece] + pieces) == piece + Flatten(pieces)
    decreases |pieces|
  {
    if pieces == [] {
      assert [piece][..0] == [];
    } else {
      var n := |pieces| - 1;
      FlattenPrepend(piece, pieces[..n]);
      assert ([piece] + pieces)[..n + 1] == [piece] + pieces[..n];
    }
  }

  /** The stream falls into pieces without a query, one more than there are queries counted, with a
      query between each and the next; stripping leaves the pieces. */
  lemma {:induction false} StripLeavesPieces(s: seq<byte>) returns (pieces: seq<seq<byte>>)
    ensures |pieces| == Count(s) + 1
    ensures s == Interleaved(pieces) && Strip(s) == Flatten(pieces)
    ensures forall k | 0 <= k < |pieces| :: QueryFree(pieces[k])
    decreases |s|
  {
    match FindBytes(s) {
      case None =>
        NoneFoundIsFree(s);
        pieces := [s];
        FlattenPrepend(s, []);
        assert [s] + [] == [s];
      case Some(i) =>
        var rest := StripLeavesPieces(s[i + 4..]);
        HeadIsFree(s, i);
        OnePieceMore(s[..i], rest);
        pieces := [s[..i]] + rest;
    }
  }

  // ---------- What a client reads ----------

  /** The appends of a pump never leave the stripped stream, and at the end of the stream they
      are all of it (`PumpPtyOutput`).  So reads that are not flagged return, one after the
      other, the beginning of the stripped stream, and after the last append all of it. */
  lemma UnflaggedReadsAreStripped(chunks: seq<seq<byte>>, ops: seq<Op>, max: nat)
    requires Appended(ops) <= Strip(Flatten(chunks))
    requires forall r | r in Run(ops, max).segments :: !r.dropped
    ensures Delivered(Run(ops, max).segments) <= Strip(Flatten(chunks))
    ensures Appended(ops) == Strip(Flatten(chunks)) && ops != [] && ops[|ops| - 1].Read? ==>
      Delivered(Run(ops, max).segments) == Strip(Flatten(chunks))
  {
    LogIsWhatWasAppended(ops, max);
    UnflaggedReadsAreLossless(ops, max);
  }
}
