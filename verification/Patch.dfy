/** Exact replacement in a file: agent/providers/filesystem/src/patch.rs.

    Contents and arguments are byte sequences; a Rust string is well-formed UTF-8.
 */
module Patch {
  import opened Wrappers
  import opened Utf8

  type Path = string
  type Text = seq<byte>

  const NEWLINE: byte := 10

  predicate OccursAt(s: Text, target: Text, i: int) {
    0 <= i <= i + |target| <= |s| && s[i..i + |target|] == target
  }

  /** The text starts at `i`. */
  lemma OccurrenceMeans(s: Text, target: Text, i: nat)
    ensures OccursAt(s, target, i) <==> exists before, after :: |before| == i && s == before + target + after
  {
    if OccursAt(s, target, i) {
      assert s == s[..i] + target + s[i + |target|..];
    }
  }

  // ---------- The matches ----------

  /** `str::match_indices` from `from` on: the leftmost match, and then from its end. */
  function Matches(s: Text, target: Text, from: nat): seq<nat>
    requires target != []
    decreases |s| - from
  {
    if from + |target| > |s| then []
    else if OccursAt(s, target, from) then [from] + Matches(s, target, from + |target|)
    else Matches(s, target, from + 1)
  }

  function Occurrences(s: Text, target: Text): set<nat> {
    set i: nat | i <= |s| && OccursAt(s, target, i)
  }

  /** Starts of ranges of length `len`, in order and without overlap, from `from` on. */
  predicate Disjoint(m: seq<nat>, len: nat, from: nat) {
    && (forall k | 0 <= k < |m| :: from <= m[k])
    && (forall j, k | 0 <= j < k < |m| :: m[j] + len <= m[k])
  }

  ghost predicate Covers(m: seq<nat>, len: nat, i: int) {
    exists k | 0 <= k < |m| :: m[k] <= i < m[k] + len
  }

  /** Disjoint occurrences in order such that no occurrence from `from` on starts outside them. */
  ghost predicate IsGreedy(occurrences: set<nat>, len: nat, from: nat, m: seq<nat>) {
    && Disjoint(m, len, from)
    && (forall k | 0 <= k < |m| :: m[k] in occurrences)
    && (forall i {:trigger Covers(m, len, i)} | i in occurrences && from <= i :: Covers(m, len, i))
  }

  lemma CoversPrepend(x: nat, rest: seq<nat>, len: nat, i: nat)
    requires Covers(rest, len, i)
    ensures Covers([x] + rest, len, i)
  {
    var k :| 0 <= k < |rest| && rest[k] <= i < rest[k] + len;
    assert ([x] + rest)[k + 1] == rest[k];
  }

  lemma DisjointPrepend(x: nat, rest: seq<nat>, len: nat)
    requires Disjoint(rest, len, x + len)
    ensures Disjoint([x] + rest, len, x)
  {}

  lemma GreedyPrepend(occurrences: set<nat>, len: nat, from: nat, rest: seq<nat>)
    requires len > 0 && from in occurrences && IsGreedy(occurrences, len, from + len, rest)
    ensures IsGreedy(occurrences, len, from, [from] + rest)
  {
    var m := [from] + rest;
    DisjointPrepend(from, rest, len);
    forall i | i in occurrences && from <= i ensures Covers(m, len, i) {
      if from + len <= i {
        CoversPrepend(from, rest, len, i);
      } else {
        assert m[0] <= i < m[0] + len;
      }
    }
  }

  lemma DisjointTail(m: seq<nat>, len: nat, from: nat)
    requires m != [] && Disjoint(m, len, from)
    ensures Disjoint(m[1..], len, m[0] + len)
  {}

  /** Two greedy choices that agree on their first `k` members: the next of `a` is no earlier than that of `b`. */
  lemma NextIsNoEarlier(occurrences: set<nat>, len: nat, from: nat, a: seq<nat>, b: seq<nat>, k: nat)
    requires IsGreedy(occurrences, len, from, a) && IsGreedy(occurrences, len, from, b)
    requires k < |a| && k <= |b| && forall j | 0 <= j < k :: a[j] == b[j]
    ensures k < |b| && b[k] <= a[k]
  {
    assert Covers(b, len, a[k]);
    var j :| 0 <= j < |b| && b[j] <= a[k] < b[j] + len;
  }

  lemma {:induction false} GreedyAgree(occurrences: set<nat>, len: nat, from: nat, a: seq<nat>, b: seq<nat>, k: nat)
    requires IsGreedy(occurrences, len, from, a) && IsGreedy(occurrences, len, from, b)
    requires k <= |a| && k <= |b| && forall j | 0 <= j < k :: a[j] == b[j]
    ensures a == b
    decreases |a| - k
  {
    if k < |b| {
      NextIsNoEarlier(occurrences, len, from, b, a, k);
    }
    if k < |a| {
      NextIsNoEarlier(occurrences, len, from, a, b, k);
      GreedyAgree(occurrences, len, from, a, b, k + 1);
    }
  }

  lemma {:induction false} MatchesAreGreedy(s: Text, target: Text, from: nat)
    requires target != []
    ensures IsGreedy(Occurrences(s, target), |target|, from, Matches(s, target, from))
    decreases |s| - from
  {
    var occurrences := Occurrences(s, target);
    if from + |target| > |s| {
    } else if OccursAt(s, target, from) {
      MatchesAreGreedy(s, target, from + |target|);
      GreedyPrepend(occurrences, |target|, from, Matches(s, target, from + |target|));
    } else {
      MatchesAreGreedy(s, target, from + 1);
      assert from !in occurrences;
    }
  }

  /** The reported starts are the only ones that are in order, disjoint, occurrences of the
      text to replace, and leave no occurrence starting outside them. */
  lemma MatchesCharacterized(s: Text, target: Text, m: seq<nat>)
    requires target != []
    ensures m == Matches(s, target, 0) <==> IsGreedy(Occurrences(s, target), |target|, 0, m)
  {
    MatchesAreGreedy(s, target, 0);
    if IsGreedy(Occurrences(s, target), |target|, 0, m) {
      GreedyAgree(Occurrences(s, target), |target|, 0, m, Matches(s, target, 0), 0);
    }
  }

  /** No choice of disjoint occurrences has more members: the count compared with
      `expected_replacements` is the most replacements there can be. */
  lemma {:induction false} MatchesAreMost(s: Text, target: Text, from: nat, m: seq<nat>)
    requires target != [] && Disjoint(m, |target|, from) && forall k | 0 <= k < |m| :: m[k] in Occurrences(s, target)
    ensures |m| <= |Matches(s, target, from)|
    decreases |s| - from
  {
    if m == [] {
    } else {
      assert m[0] in Occurrences(s, target);
      if OccursAt(s, target, from) {
        DisjointTail(m, |target|, from);
        MatchesAreMost(s, target, from + |target|, m[1..]);
      } else {
        MatchesAreMost(s, target, from + 1, m);
      }
    }
  }

  /** In well-formed text a match starts and ends at character boundaries, so `line_at` may
      cut the content there. */
  lemma MatchIsOnBoundaries(s: Text, target: Text, i: nat)
    requires WellFormed(s) && WellFormed(target) && target != [] && OccursAt(s, target, i)
    ensures IsCharBoundary(s, i) && IsCharBoundary(s, i + |target|)
  {
    assert s[i] == s[i..i + |target|][0] == target[0];
    SplitAtBoundary(s, i);
    var rest := s[i + |target|..];
    assert s[i..] == target + rest;
    DropWellFormed(target, rest);
    if rest != [] {
      assert !Tail(rest[0]);
    }
  }

  // ---------- The replacement ----------

  /** `str::replace`. */
  function Replace(s: Text, target: Text, replacement: Text): Text
    requires target != []
    decreases |s|
  {
    if s == [] then []
    else if OccursAt(s, target, 0) then replacement + Replace(s[|target|..], target, replacement)
    else [s[0]] + Replace(s[1..], target, replacement)
  }

  /** The ranges lie within a text of `size` bytes. */
  predicate Ranges(m: seq<nat>, len: nat, size: nat) {
    Disjoint(m, len, 0) && forall k | 0 <= k < |m| :: m[k] + len <= size
  }

  lemma RangesTail(m: seq<nat>, len: nat, size: nat)
    requires Ranges(m, len, size) && m != []
    ensures Ranges(m[1..], len, size) && Disjoint(m[1..], len, m[0] + len)
  {}

  /** Puts `replacement` in the place of each range, last range first. */
  function Splice(s: Text, m: seq<nat>, len: nat, replacement: Text): (t: Text)
    requires Ranges(m, len, |s|)
    ensures var kept := if m == [] then |s| else m[0]; s[..kept] <= t
    decreases |m|
  {
    if m == [] then s
    else
      RangesTail(m, len, |s|);
      var t := Splice(s, m[1..], len, replacement);
      t[..m[0]] + replacement + t[m[0] + len..]
  }

  lemma CutOut(s: Text, t: Text, at: nat, len: nat, replacement: Text, tail: Text)
    requires at + len <= |s| && t == s[..at + len] + tail
    ensures t[..at] + replacement + t[at + len..] == s[..at] + replacement + tail
  {
    assert t[..at] == s[..at] && t[at + len..] == tail;
  }

  lemma SpliceFirst(s: Text, m: seq<nat>, len: nat, replacement: Text, tail: Text)
    requires Ranges(m, len, |s|) && m != [] && Ranges(m[1..], len, |s|)
    requires Splice(s, m[1..], len, replacement) == s[..m[0] + len] + tail
    ensures Splice(s, m, len, replacement) == s[..m[0]] + replacement + tail
  {
    CutOut(s, Splice(s, m[1..], len, replacement), m[0], len, replacement, tail);
  }

  lemma MatchesAreRanges(s: Text, target: Text, from: nat)
    requires target != []
    ensures Ranges(Matches(s, target, from), |target|, |s|)
  {
    MatchesAreGreedy(s, target, from);
  }

  lemma ReplaceAt(s: Text, target: Text, replacement: Text, from: nat)
    requires target != [] && from < |s|
    ensures OccursAt(s, target, from) ==>
              Replace(s[from..], target, replacement)
              == replacement + Replace(s[from + |target|..], target, replacement)
    ensures !OccursAt(s, target, from) ==>
              Replace(s[from..], target, replacement) == [s[from]] + Replace(s[from + 1..], target, replacement)
  {}

  lemma SpliceMatch(s: Text, target: Text, replacement: Text, from: nat)
    requires target != [] && OccursAt(s, target, from)
    ensures s[..from] + replacement + Replace(s[from + |target|..], target, replacement)
         == s[..from] + Replace(s[from..], target, replacement)
  {
    ReplaceAt(s, target, replacement, from);
  }

  lemma SpliceMismatch(s: Text, target: Text, replacement: Text, from: nat)
    requires target != [] && from < |s| && !OccursAt(s, target, from)
    ensures s[..from] + Replace(s[from..], target, replacement)
         == s[..from + 1] + Replace(s[from + 1..], target, replacement)
  {}

  /** From `from` on, splicing into the ranges `m` is replacing. */
  predicate Replaces(s: Text, target: Text, replacement: Text, from: nat, m: seq<nat>) {
    && target != [] && from <= |s|
    && Ranges(m, |target|, |s|)
    && Splice(s, m, |target|, replacement) == s[..from] + Replace(s[from..], target, replacement)
  }

  lemma ReplacesAtMatch(s: Text, target: Text, replacement: Text, from: nat, rest: seq<nat>)
    requires target != [] && OccursAt(s, target, from) && Ranges([from] + rest, |target|, |s|)
    requires Replaces(s, target, replacement, from + |target|, rest)
    ensures Replaces(s, target, replacement, from, [from] + rest)
  {
    var m := [from] + rest;
    assert m[1..] == rest;
    SpliceFirst(s, m, |target|, replacement, Replace(s[from + |target|..], target, replacement));
    SpliceMatch(s, target, replacement, from);
  }

  lemma ReplacesAtMismatch(s: Text, target: Text, replacement: Text, from: nat, m: seq<nat>)
    requires from < |s| && !OccursAt(s, target, from) && Replaces(s, target, replacement, from + 1, m)
    ensures Replaces(s, target, replacement, from, m)
  {
    SpliceMismatch(s, target, replacement, from);
  }

  lemma ReplacesAtEnd(s: Text, target: Text, replacement: Text, from: nat)
    requires from <= |s| < from + |target|
    ensures Replaces(s, target, replacement, from, [])
  {
    ShortTextUnchanged(s[from..], target, replacement);
  }

  lemma {:induction false} SpliceFrom(s: Text, target: Text, replacement: Text, from: nat)
    requires target != [] && from <= |s|
    ensures Replaces(s, target, replacement, from, Matches(s, target, from))
    decreases |s| - from
  {
    if from + |target| > |s| {
      ReplacesAtEnd(s, target, replacement, from);
    } else if OccursAt(s, target, from) {
      SpliceFrom(s, target, replacement, from + |target|);
      MatchesAreRanges(s, target, from);
      ReplacesAtMatch(s, target, replacement, from, Matches(s, target, from + |target|));
    } else {
      SpliceFrom(s, target, replacement, from + 1);
      ReplacesAtMismatch(s, target, replacement, from, Matches(s, target, from + 1));
    }
  }

  lemma {:induction false} ShortTextUnchanged(s: Text, target: Text, replacement: Text)
    requires |s| < |target|
    ensures Replace(s, target, replacement) == s
    decreases |s|
  {
    if s != [] {
      ShortTextUnchanged(s[1..], target, replacement);
    }
  }

  /** The reported ranges are in order, disjoint and each holds the text to replace; putting the
      replacement into them from the last to the first gives exactly what is written. */
  lemma ReportedRangesGiveContent(s: Text, target: Text, replacement: Text)
    requires target != []
    ensures var m := Matches(s, target, 0);
            && Ranges(m, |target|, |s|)
            && (forall k | 0 <= k < |m| :: OccursAt(s, target, m[k]))
            && Splice(s, m, |target|, replacement) == Replace(s, target, replacement)
  {
    MatchesAreGreedy(s, target, 0);
    SpliceFrom(s, target, replacement, 0);
    assert s[0..] == s;
  }

  lemma OneMore(n: int, d: int)
    ensures n * d == (n - 1) * d + d
  {}

  /** Each replacement changes the length by the same amount. */
  lemma {:induction false} SpliceLength(s: Text, m: seq<nat>, len: nat, replacement: Text)
    requires Ranges(m, len, |s|)
    ensures |Splice(s, m, len, replacement)| == |s| + |m| * (|replacement| - len)
    decreases |m|
  {
    if m != [] {
      RangesTail(m, len, |s|);
      SpliceLength(s, m[1..], len, replacement);
      OneMore(|m|, |replacement| - len);
    }
  }

  lemma ReplacementLength(s: Text, target: Text, replacement: Text)
    requires target != []
    ensures |Replace(s, target, replacement)| == |s| + |Matches(s, target, 0)| * (|replacement| - |target|)
  {
    ReportedRangesGiveContent(s, target, replacement);
    SpliceLength(s, Matches(s, target, 0), |target|, replacement);
  }

  lemma {:induction false} SkipUnmatched(s: Text, target: Text, replacement: Text, n: nat)
    requires target != [] && n <= |s| && forall i | 0 <= i < n :: !OccursAt(s, target, i)
    ensures Replace(s, target, replacement) == s[..n] + Replace(s[n..], target, replacement)
    decreases n
  {
    if n == 0 {
      assert s[0..] == s;
    } else {
      SkipUnmatched(s, target, replacement, n - 1);
      ReplaceAt(s, target, replacement, n - 1);
      assert s[..n] == s[..n - 1] + [s[n - 1]];
    }
  }

  lemma NoMatchInsideCharacter(s: Text, target: Text, i: nat)
    requires target != [] && WellFormed(target) && i < |s| && Tail(s[i])
    ensures !OccursAt(s, target, i)
  {}

  /** What is written is well-formed text, so the file can be patched again. */
  lemma {:induction false} ReplacementIsWellFormed(s: Text, target: Text, replacement: Text)
    requires target != [] && WellFormed(s) && WellFormed(target) && WellFormed(replacement)
    ensures WellFormed(Replace(s, target, replacement))
    decreases |s|
  {
    if s == [] {
    } else if OccursAt(s, target, 0) {
      var rest := s[|target|..];
      assert s == target + rest;
      DropWellFormed(target, rest);
      ReplacementIsWellFormed(rest, target, replacement);
      JoinWellFormed(replacement, Replace(rest, target, replacement));
    } else {
      var n := CharLen(s);
      forall i | 0 < i < n ensures !OccursAt(s, target, i) {
        NoMatchInsideCharacter(s, target, i);
      }
      SkipUnmatched(s, target, replacement, n);
      ReplacementIsWellFormed(s[n..], target, replacement);
      CharLenDependsOnHead(s, s[..n]);
      assert s[..n][n..] == [];
      JoinWellFormed(s[..n], Replace(s[n..], target, replacement));
    }
  }

  // ---------- The report ----------

  /** The number of newlines before `offset`. */
  function LineAt(s: Text, offset: nat): (n: nat) {
    if offset == 0 || s == [] then 0
    else (if s[0] == NEWLINE then 1 else 0) + LineAt(s[1..], offset - 1)
  }

  datatype Change = Change(startByte: nat, endByte: nat, startLine: nat, endLine: nat)

  function ChangeAt(s: Text, len: nat, start: nat): Change {
    Change(start, start + len, LineAt(s, start), LineAt(s, start + len))
  }

  /** The positions of the newlines before `offset`. */
  function NewlinesBefore(s: Text, offset: nat): set<nat> {
    set i: nat | i < offset && i < |s| && s[i] == 10
  }

  lemma NewlinesOneMore(s: Text, n: nat)
    requires n < |s|
    ensures NewlinesBefore(s, n + 1) == NewlinesBefore(s, n) + if s[n] == 10 then {n} else {}
  {}

  lemma LineAtOneMore(s: Text, n: nat)
    requires n < |s|
    ensures LineAt(s, n + 1) == LineAt(s, n) + if s[n] == 10 then 1 else 0
  {
    LineAtAdds(s, n, 1);
    assert s[n..][0] == s[n] && LineAt(s[n..][1..], 0) == 0;
  }

  /** The line of an offset is the number of newlines before it. */
  lemma {:induction false} LineAtCounts(s: Text, offset: nat)
    requires offset <= |s|
    ensures LineAt(s, offset) == |NewlinesBefore(s, offset)|
  {
    if offset > 0 {
      LineAtCounts(s, offset - 1);
      LineAtOneMore(s, offset - 1);
      NewlinesOneMore(s, offset - 1);
    } else {
      assert NewlinesBefore(s, 0) == {};
    }
  }

  lemma {:induction false} LineAtAdds(s: Text, i: nat, j: nat)
    requires i <= |s|
    ensures LineAt(s, i + j) == LineAt(s, i) + LineAt(s[i..], j)
    decreases i
  {
    if i == 0 {
      assert s[0..] == s;
    } else {
      LineAtAdds(s[1..], i - 1, j);
      assert s[1..][i - 1..] == s[i..];
    }
  }

  lemma {:induction false} LineAtPrefix(s: Text, t: Text)
    requires t <= s
    ensures LineAt(s, |t|) == LineAt(t, |t|)
    decreases |t|
  {
    if t != [] {
      LineAtPrefix(s[1..], t[1..]);
    }
  }

  lemma LineAtAcross(s: Text, i: nat, t: Text)
    requires i <= |s| && t <= s[i..]
    ensures LineAt(s, i + |t|) - LineAt(s, i) == LineAt(t, |t|)
  {
    LineAtAdds(s, i, |t|);
    LineAtPrefix(s[i..], t);
  }

  /** The change is reported where it is. */
  predicate Locates(c: Change, s: Text, start: nat, end: nat) {
    && c.startByte == start && c.endByte == end
    && c.startLine == |NewlinesBefore(s, start)| && c.endLine == |NewlinesBefore(s, end)|
  }

  lemma ChangeLocates(s: Text, len: nat, start: nat)
    requires start + len <= |s|
    ensures Locates(ChangeAt(s, len, start), s, start, start + len)
  {
    LineAtCounts(s, start);
    LineAtCounts(s, start + len);
  }

  lemma ChangesLocate(s: Text, target: Text)
    requires target != []
    ensures forall start | start in Matches(s, target, 0) ::
      Locates(ChangeAt(s, |target|, start), s, start, start + |target|)
  {
    MatchesAreRanges(s, target, 0);
    forall start | start in Matches(s, target, 0)
      ensures Locates(ChangeAt(s, |target|, start), s, start, start + |target|)
    {
      ChangeLocates(s, |target|, start);
    }
  }

  /** The lines a reported change spans are exactly the newlines inside the text it replaces. */
  lemma ChangeSpansLinesOfTarget(s: Text, target: Text, start: nat)
    requires OccursAt(s, target, start)
    ensures var c := ChangeAt(s, |target|, start); c.endLine - c.startLine == LineAt(target, |target|)
  {
    assert target <= s[start..] by {
      assert s[start..start + |target|] == s[start..][..|target|];
    }
    LineAtAcross(s, start, target);
  }

  // ---------- The file ----------

  datatype Error =
    | InvalidArguments
    | IoError
    | ParentMissing
    | CountMismatch(expected: nat, actual: nat)

  /** Where the operating system refuses, if it does: nothing the code decides. */
  datatype Fault = Never | OnRead | OnCreate | OnWrite(written: nat) | OnFlush | OnSync | OnPersist

  datatype Report = Report(replacements: nat, changes: seq<Change>)

  class Filesystem {
    var files: map<Path, Text>

    /** Every state the files have been in since this was created, the present one last. */
    ghost var trail: seq<map<Path, Text>>

    ghost predicate Valid()
      reads this
    {
      trail != [] && trail[|trail| - 1] == files
    }

    constructor (files: map<Path, Text>)
      ensures Valid() && this.files == files && trail == [files]
    {
      this.files := files;
      trail := [files];
    }

    method Put(path: Path, content: Text)
      modifies this
      ensures Valid() && files == old(files)[path := content] && trail == old(trail) + [files]
    {
      files := files[path := content];
      trail := trail + [files];
    }

    method Remove(path: Path)
      requires Valid()
      modifies this
      ensures Valid() && files == old(files) - {path} && trail == old(trail) + [files]
    {
      files := files - {path};
      trail := trail + [files];
    }

    /** Rename over whatever was there. */
    method Rename(from: Path, to: Path)
      requires Valid() && from in files
      modifies this
      ensures Valid() && files == (old(files) - {from})[to := old(files)[from]] && trail == old(trail) + [files]
    {
      files := (files - {from})[to := files[from]];
      trail := trail + [files];
    }

    /** In every state since `since`, `path` has held its old content or all of the new one, and
        nothing else but the temporary file has differed from `before`. */
    ghost predicate Atomic(since: nat, before: map<Path, Text>, path: Path, temp: Path, content: Text)
      reads this
    {
      && since <= |trail|
      && forall i | since <= i < |trail| ::
           && trail[i] - {temp} in {before - {temp}, (before - {temp})[path := content]}
    }

    /** Writes a temporary file beside the target and renames it over it; a temporary file that
        is not renamed is removed when its handle is dropped. */
    method AtomicReplace(path: Path, parentExists: bool, temp: Path, content: Text, fault: Fault)
      returns (r: Result<(), Error>)
      requires Valid() && temp !in files && temp != path
      modifies this
      ensures Valid() && old(trail) <= trail
      ensures r == (if !parentExists then Err(ParentMissing)
                    else if fault.Never? || fault.OnRead? then Ok(()) else Err(IoError))
      ensures files == if r.Ok? then old(files)[path := content] else old(files)
      ensures Atomic(|old(trail)|, old(files), path, temp, content)
    {
      if !parentExists {
        return Err(ParentMissing);
      }
      if fault.OnCreate? {
        return Err(IoError);
      }
      ghost var before := files;
      Put(temp, []);
      assert files - {temp} == before - {temp};
      if fault.OnWrite? {
        Put(temp, content[..if fault.written < |content| then fault.written else |content|]);
        assert files - {temp} == before - {temp};
        Remove(temp);
        assert files == before;
        return Err(IoError);
      }
      Put(temp, content);
      assert files - {temp} == before - {temp};
      if fault.OnFlush? || fault.OnSync? || fault.OnPersist? {
        Remove(temp);
        assert files == before;
        return Err(IoError);
      }
      Rename(temp, path);
      assert files == before[path := content];
      assert files - {temp} == (before - {temp})[path := content];
      return Ok(());
    }

    /** `patch`. The file is read, every check is made, and only then is it replaced. */
    method Patch(path: Path, target: Text, replacement: Text, expected: nat, parentExists: bool, temp: Path,
                 fault: Fault)
      returns (r: Result<Report, Error>)
      requires Valid() && temp !in files && temp != path && WellFormed(target) && WellFormed(replacement)
      modifies this
      ensures Valid() && old(trail) <= trail
      ensures r.Err? ==> files == old(files)
      ensures target == [] ==> r == Err(InvalidArguments)
      ensures r == Err(InvalidArguments) ==> target == []
      ensures target != [] && (path !in old(files) || !WellFormed(old(files)[path])) ==> r == Err(IoError)
      ensures (target != [] && !fault.OnRead? && path in old(files) && WellFormed(old(files)[path])
               && |Matches(old(files)[path], target, 0)| != expected) ==>
                r == Err(CountMismatch(expected, |Matches(old(files)[path], target, 0)|))
      ensures r.Err? && r.error.CountMismatch? ==>
                && path in old(files) && target != []
                && r.error.actual == |Matches(old(files)[path], target, 0)| != expected == r.error.expected
      ensures r.Ok? ==>
                && path in old(files) && WellFormed(old(files)[path]) && target != []
                && |Matches(old(files)[path], target, 0)| == expected == r.value.replacements == |r.value.changes|
                && files == old(files)[path := Replace(old(files)[path], target, replacement)]
                && WellFormed(files[path])
                && (forall k | 0 <= k < expected ::
                      var start := Matches(old(files)[path], target, 0)[k];
                      Locates(r.value.changes[k], old(files)[path], start, start + |target|))
                && Atomic(|old(trail)|, old(files), path, temp, Replace(old(files)[path], target, replacement))
      ensures r == Err(ParentMissing) <==>
                && !parentExists && target != [] && !fault.OnRead? && path in old(files) && WellFormed(old(files)[path])
                && |Matches(old(files)[path], target, 0)| == expected
      ensures (fault.Never? && parentExists && target != [] && path in old(files) && WellFormed(old(files)[path])
               && |Matches(old(files)[path], target, 0)| == expected) ==> r.Ok?
    {
      if target == [] {
        return Err(InvalidArguments);
      }
      if fault.OnRead? || path !in files || !WellFormed(files[path]) {
        return Err(IoError);
      }
      var current := files[path];
      var matches := Matches(current, target, 0);
      if |matches| != expected {
        return Err(CountMismatch(expected, |matches|));
      }
      var changes := seq(|matches|, k requires 0 <= k < |matches| => ChangeAt(current, |target|, matches[k]));
      ChangesLocate(current, target);
      var replaced := Replace(current, target, replacement);
      ReplacementIsWellFormed(current, target, replacement);
      var written := AtomicReplace(path, parentExists, temp, replaced, fault);
      if written.Err? {
        return Err(written.error);
      }
      return Ok(Report(expected, changes));
    }
  }
}
