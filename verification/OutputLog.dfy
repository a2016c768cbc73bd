/** The bounded output buffer of agent/providers/process/src/output.rs and the read cursors
    that agent/providers/process/src/session.rs keeps over it.

    The buffer is a window onto an unbounded log that only the proof remembers.
 */
module OutputLog {
  import opened Wrappers

  const DEFAULT_BUFFER_BYTES: nat := 256 * 1024

  function Least(a: nat, b: nat): nat {
    if a < b then a else b
  }

  /** How many bytes of a log a buffer of `max` bytes has evicted. */
  function Evicted(log: seq<byte>, max: nat): nat {
    if |log| <= max then 0 else |log| - max
  }

  /** A read of what follows `from`: all of it, or its newest `max` bytes and a warning that the
      rest is gone. */
  predicate IsRead(log: seq<byte>, max: nat, from: nat, data: seq<byte>, dropped: bool) {
    if from > |log| then data == [] && !dropped
    else
      && (dropped <==> |log| - from > max)
      && data == log[(if dropped then |log| - max else from)..]
  }

  class OutputBuffer {
    var bytes: seq<byte>
    var baseOffset: nat
    const maxBytes: nat
    ghost var log: seq<byte>

    /** The window is exactly the newest `maxBytes` bytes, at its absolute offset. */
    ghost predicate Valid()
      reads this
    {
      && baseOffset == Evicted(log, maxBytes)
      && bytes == log[baseOffset..]
    }

    constructor ()
      ensures Valid() && log == [] && maxBytes == 262144
    {
      bytes, baseOffset, maxBytes := [], 0, DEFAULT_BUFFER_BYTES;
      log := [];
    }

    method Append(chunk: seq<byte>)
      requires Valid()
      modifies this
      ensures Valid() && log == old(log) + chunk
      ensures |bytes| == Least(maxBytes, |log|)
      ensures baseOffset + |bytes| == |log| && bytes == log[baseOffset..]
    {
      log := log + chunk;
      bytes := bytes + chunk;
      if |bytes| > maxBytes {
        var overflow := |bytes| - maxBytes;
        bytes := bytes[overflow..];
        baseOffset := baseOffset + overflow;
      }
    }

    method EndOffset() returns (end: nat)
      requires Valid()
      ensures end == |log|
    {
      end := baseOffset + |bytes|;
    }

    /** An offset past the end reads nothing; an offset before the window reads what is left
        and says that something is missing. */
    method TextSince(requested: nat) returns (text: seq<byte>, end: nat, dropped: bool)
      requires Valid()
      ensures end == |log|
      ensures IsRead(log, maxBytes, requested, text, dropped)
    {
      var start := if requested > baseOffset then requested else baseOffset;
      var relative := if start - baseOffset < |bytes| then start - baseOffset else |bytes|;
      text, end, dropped := bytes[relative..], baseOffset + |bytes|, requested < baseOffset;
    }

    method TextTail(tailBytes: nat) returns (text: seq<byte>)
      requires Valid()
      ensures |text| <= |log| && text == log[|log| - |text|..]
      ensures |text| == Least(tailBytes, Least(maxBytes, |log|))
    {
      var start := if |bytes| < tailBytes then 0 else |bytes| - tailBytes;
      text := bytes[start..];
    }
  }

  class ProcessSession {
    const stdout: OutputBuffer
    const stderr: OutputBuffer
    var stdoutCursor: nat
    var stderrCursor: nat

    ghost predicate Valid()
      reads this, stdout, stderr
    {
      && stdout != stderr && stdout.Valid() && stderr.Valid()
      && stdoutCursor <= |stdout.log| && stderrCursor <= |stderr.log|
    }

    constructor (stdout: OutputBuffer, stderr: OutputBuffer)
      requires stdout != stderr && stdout.Valid() && stderr.Valid()
      ensures Valid() && this.stdout == stdout && this.stderr == stderr
      ensures stdoutCursor == 0 && stderrCursor == 0
    {
      this.stdout, this.stderr := stdout, stderr;
      stdoutCursor, stderrCursor := 0, 0;
    }

    ghost function StdoutView(): View
      reads this, stdout
    {
      View(stdout.log, stdoutCursor, [])
    }

    ghost function StderrView(): View
      reads this, stderr
    {
      View(stderr.log, stderrCursor, [])
    }

    method TakeUnseenOutput() returns (out: seq<byte>, err: seq<byte>, dropped: bool)
      requires Valid()
      modifies this
      ensures Valid()
      ensures var o := Take(old(StdoutView()), stdout.maxBytes);
              var e := Take(old(StderrView()), stderr.maxBytes);
              && stdoutCursor == o.cursor && stderrCursor == e.cursor
              && out == o.segments[0].data && err == e.segments[0].data
              && dropped == (o.segments[0].dropped || e.segments[0].dropped)
      ensures stdoutCursor == |stdout.log| && stderrCursor == |stderr.log|
      ensures exists outDropped, errDropped ::
        && IsRead(stdout.log, stdout.maxBytes, old(stdoutCursor), out, outDropped)
        && IsRead(stderr.log, stderr.maxBytes, old(stderrCursor), err, errDropped)
        && dropped == (outDropped || errDropped)
    {
      var next: nat;
      var outDropped, errDropped;
      out, next, outDropped := stdout.TextSince(stdoutCursor);
      stdoutCursor := next;
      err, next, errDropped := stderr.TextSince(stderrCursor);
      stderrCursor := next;
      dropped := outDropped || errDropped;
    }

    /** Reading from a given offset moves no cursor. */
    method OutputFrom(offset: nat) returns (out: seq<byte>, err: seq<byte>, dropped: bool)
      requires Valid()
      ensures exists outDropped, errDropped ::
        && IsRead(stdout.log, stdout.maxBytes, offset, out, outDropped)
        && IsRead(stderr.log, stderr.maxBytes, offset, err, errDropped)
        && dropped == (outDropped || errDropped)
    {
      var end: nat;
      var outDropped, errDropped;
      out, end, outDropped := stdout.TextSince(offset);
      err, end, errDropped := stderr.TextSince(offset);
      dropped := outDropped || errDropped;
    }

    /** There is unseen output exactly when the next read would return something. */
    method HasUnseenOutput() returns (unseen: bool)
      requires Valid()
      ensures unseen <==> stdoutCursor < |stdout.log| || stderrCursor < |stderr.log|
      ensures stdout.maxBytes > 0 && stderr.maxBytes > 0 ==>
        (unseen <==>
          || Take(StdoutView(), stdout.maxBytes).segments[0].data != []
          || Take(StderrView(), stderr.maxBytes).segments[0].data != [])
    {
      var outEnd := stdout.EndOffset();
      var errEnd := stderr.EndOffset();
      unseen := outEnd > stdoutCursor || errEnd > stderrCursor;
    }
  }

  // ---------- One stream, over whole runs ----------

  /** A read returned `data`, the log from `from` to `to`. */
  datatype Segment = Segment(from: nat, to: nat, data: seq<byte>, dropped: bool)

  datatype View = View(log: seq<byte>, cursor: nat, segments: seq<Segment>)

  datatype Op = Append(chunk: seq<byte>) | Read

  function Take(v: View, max: nat): (w: View)
    requires v.cursor <= |v.log|
    ensures w.cursor == |w.log| && |w.segments| == |v.segments| + 1
  {
    var lost := Evicted(v.log, max);
    var from := if v.cursor > lost then v.cursor else lost;
    View(v.log, |v.log|, v.segments + [Segment(from, |v.log|, v.log[from..], v.cursor < lost)])
  }

  function Run(ops: seq<Op>, max: nat): (v: View)
    ensures v.cursor <= |v.log|
  {
    if ops == [] then View([], 0, [])
    else
      var v := Run(ops[..|ops| - 1], max);
      match ops[|ops| - 1]
      case Append(chunk) => v.(log := v.log + chunk)
      case Read => Take(v, max)
  }

  function Delivered(segments: seq<Segment>): seq<byte> {
    if segments == [] then []
    else Delivered(segments[..|segments| - 1]) + segments[|segments| - 1].data
  }

  /** Where the read before the `i`-th one ended. */
  function Before(segments: seq<Segment>, i: nat): nat
    requires i <= |segments|
  {
    if i == 0 then 0 else segments[i - 1].to
  }

  /** Read `i` returned what was appended since the read before it: all of it, or its newest `max`
      bytes and a warning. */
  ghost predicate ReadOk(v: View, i: nat, max: nat)
    requires i < |v.segments|
  {
    var r := v.segments[i];
    var prior := Before(v.segments, i);
    && prior <= r.to <= |v.log|
    && (r.dropped <==> r.to - prior > max)
    && r.from == (if r.dropped then r.to - max else prior)
    && r.data == v.log[r.from..r.to]
  }

  /** However appends and reads alternate, successive reads return consecutive disjoint
      segments of the log; a read is flagged exactly when more bytes came since the last one than
      the buffer holds, and then it returns as many as that, the newest. */
  lemma {:induction false} ReadsAreConsecutive(ops: seq<Op>, max: nat)
    ensures var v := Run(ops, max);
            && v.cursor == Before(v.segments, |v.segments|)
            && forall i | 0 <= i < |v.segments| :: ReadOk(v, i, max)
  {
    if ops != [] {
      var u := Run(ops[..|ops| - 1], max);
      var v := Run(ops, max);
      ReadsAreConsecutive(ops[..|ops| - 1], max);
      assert u.log <= v.log;
      forall i | 0 <= i < |v.segments| ensures ReadOk(v, i, max) {
        if i < |u.segments| {
          assert ReadOk(u, i, max);
          assert v.segments[i] == u.segments[i] && Before(v.segments, i) == Before(u.segments, i);
          assert v.log[..v.segments[i].to] == u.log[..v.segments[i].to];
          assert v.log[v.segments[i].from..v.segments[i].to] == u.log[v.segments[i].from..v.segments[i].to];
        } else {
          assert v.log[..|v.log|] == v.log;
          assert Before(v.segments, i) == u.cursor;
        }
      }
    }
  }

  lemma DeliveredStep(segments: seq<Segment>, n: nat)
    requires 0 < n <= |segments|
    ensures Delivered(segments[..n]) == Delivered(segments[..n - 1]) + segments[n - 1].data
  {
    assert segments[..n][..n - 1] == segments[..n - 1];
  }

  /** Read `i` returned what follows the read before it, with no gap. */
  ghost predicate Gapless(v: View, i: nat) {
    && i < |v.segments|
    && var r := v.segments[i];
    && Before(v.segments, i) == r.from <= r.to <= |v.log|
    && r.data == v.log[r.from..r.to]
  }

  lemma SliceExtends(log: seq<byte>, from: nat, to: nat)
    requires from <= to <= |log|
    ensures log[..from] + log[from..to] == log[..to]
  {}

  lemma {:induction false} DeliveredIsPrefix(v: View, n: nat)
    requires n <= |v.segments|
    requires forall i: nat | i < n :: Gapless(v, i)
    ensures Before(v.segments, n) <= |v.log|
    ensures Delivered(v.segments[..n]) == v.log[..Before(v.segments, n)]
  {
    if n > 0 {
      DeliveredIsPrefix(v, n - 1);
      assert Gapless(v, n - 1);
      DeliveredStep(v.segments, n);
      SliceExtends(v.log, v.segments[n - 1].from, v.segments[n - 1].to);
    }
  }

  /** A run of reads none of which is flagged has returned the log without a gap. */
  lemma UnflaggedReadsAreLossless(ops: seq<Op>, max: nat)
    requires forall r | r in Run(ops, max).segments :: !r.dropped
    ensures Delivered(Run(ops, max).segments) == Run(ops, max).log[..Run(ops, max).cursor]
  {
    var v := Run(ops, max);
    ReadsAreConsecutive(ops, max);
    forall i: nat | i < |v.segments| ensures Gapless(v, i) {
      assert ReadOk(v, i, max);
      assert !v.segments[i].dropped;
    }
    DeliveredIsPrefix(v, |v.segments|);
    assert v.segments[..|v.segments|] == v.segments;
  }

  /** Everything the writer of the stream has appended, in order. */
  function Appended(ops: seq<Op>): seq<byte> {
    if ops == [] then []
    else
      Appended(ops[..|ops| - 1])
      + match ops[|ops| - 1] case Append(chunk) => chunk case Read => []
  }

  /** The log is what was appended, and a read leaves nothing of it unread. */
  lemma {:induction false} LogIsWhatWasAppended(ops: seq<Op>, max: nat)
    ensures Run(ops, max).log == Appended(ops)
    ensures ops != [] && ops[|ops| - 1].Read? ==> Run(ops, max).cursor == |Appended(ops)|
  {
    if ops != [] {
      LogIsWhatWasAppended(ops[..|ops| - 1], max);
    }
  }

  function Lost(segments: seq<Segment>): int {
    if segments == [] then 0
    else Lost(segments[..|segments| - 1]) + segments[|segments| - 1].from - Before(segments, |segments| - 1)
  }

  ghost predicate Flagged(segments: seq<Segment>) {
    exists r :: r in segments && r.dropped
  }

  lemma OneMoreSegment(segments: seq<Segment>, r: Segment)
    ensures Flagged(segments + [r]) <==> Flagged(segments) || r.dropped
    ensures Delivered(segments + [r]) == Delivered(segments) + r.data
    ensures Lost(segments + [r]) == Lost(segments) + r.from - Before(segments, |segments|)
  {
    assert (segments + [r])[..|segments|] == segments;
    assert forall x :: x in segments + [r] <==> x in segments || x == r;
  }

  /** Every byte up to the cursor was either delivered once or fell in a flagged gap. */
  lemma {:induction false} ReadsConserveBytes(ops: seq<Op>, max: nat)
    ensures var v := Run(ops, max);
            |Delivered(v.segments)| + Lost(v.segments) == v.cursor
            && (Lost(v.segments) > 0 <==> Flagged(v.segments))
    ensures Lost(Run(ops, max).segments) >= 0
  {
    if ops != [] {
      ReadsConserveBytes(ops[..|ops| - 1], max);
      if ops[|ops| - 1].Read? {
        ReadsAreConsecutive(ops, max);
        ReadsAreConsecutive(ops[..|ops| - 1], max);
        var u := Run(ops[..|ops| - 1], max);
        var v := Run(ops, max);
        var n := |u.segments|;
        assert ReadOk(v, n, max);
        assert v.segments == u.segments + [v.segments[n]];
        OneMoreSegment(u.segments, v.segments[n]);
      }
    }
  }
}
