/** Well-formed UTF-8 as sections 3 and 4 of RFC 3629 define it, and character boundaries. */
module Utf8 {
  import opened Wrappers

  predicate Tail(b: byte) {
    0x80 <= b <= 0xBF
  }

  /** The length of the character `s` starts with; 0 if it starts with none. */
  function CharLen(s: seq<byte>): (n: nat)
    ensures n <= 4 && n <= |s|
    ensures forall i | 1 <= i < n :: Tail(s[i])
    ensures n > 0 ==> !Tail(s[0])
  {
    if |s| >= 1 && s[0] <= 0x7F then 1
    else if |s| >= 2 && 0xC2 <= s[0] <= 0xDF && Tail(s[1]) then 2
    else if |s| >= 3 && Tail(s[1]) && Tail(s[2]) && 0xE0 <= s[0] <= 0xEF
            && (s[0] == 0xE0 ==> 0xA0 <= s[1]) && (s[0] == 0xED ==> s[1] <= 0x9F) then 3
    else if |s| >= 4 && Tail(s[1]) && Tail(s[2]) && Tail(s[3]) && 0xF0 <= s[0] <= 0xF4
            && (s[0] == 0xF0 ==> 0x90 <= s[1]) && (s[0] == 0xF4 ==> s[1] <= 0x8F) then 4
    else 0
  }

  predicate WellFormed(s: seq<byte>)
    decreases |s|
  {
    s == [] || (CharLen(s) > 0 && WellFormed(s[CharLen(s)..]))
  }

  predicate IsCharBoundary(s: seq<byte>, i: int) {
    i == 0 || i == |s| || (0 < i < |s| && !Tail(s[i]))
  }

  lemma CharLenDependsOnHead(s: seq<byte>, t: seq<byte>)
    requires CharLen(s) > 0 && CharLen(s) <= |t| && t[..CharLen(s)] == s[..CharLen(s)]
    ensures CharLen(t) == CharLen(s)
  {}

  /** A boundary other than the start lies past the first character and is one of the rest. */
  lemma BoundaryPastHead(s: seq<byte>, i: int)
    requires CharLen(s) > 0 && 0 < i && IsCharBoundary(s, i)
    ensures CharLen(s) <= i && IsCharBoundary(s[CharLen(s)..], i - CharLen(s))
  {}

  lemma CutPastHead(s: seq<byte>, n: nat, i: nat)
    requires n <= i <= |s|
    ensures s[..i][..n] == s[..n]
    ensures s[..i][n..] == s[n..][..i - n]
    ensures s[i..] == s[n..][i - n..]
  {}

  lemma SplitPastHead(s: seq<byte>, n: nat, i: nat)
    requires CharLen(s) == n && 0 < n <= i <= |s|
    requires WellFormed(s[n..][..i - n]) && WellFormed(s[n..][i - n..])
    ensures WellFormed(s[..i]) && WellFormed(s[i..])
  {
    CutPastHead(s, n, i);
    CharLenDependsOnHead(s, s[..i]);
  }

  /** Cutting well-formed text at a boundary gives two well-formed texts. */
  lemma {:induction false} SplitAtBoundary(s: seq<byte>, i: nat)
    requires WellFormed(s) && i <= |s| && IsCharBoundary(s, i)
    ensures WellFormed(s[..i]) && WellFormed(s[i..])
    decreases |s|
  {
    if i == 0 {
      assert s[0..] == s;
    } else {
      var n := CharLen(s);
      BoundaryPastHead(s, i);
      SplitAtBoundary(s[n..], i - n);
      SplitPastHead(s, n, i);
    }
  }

  /** What lies between two boundaries is well-formed. */
  lemma SliceWellFormed(s: seq<byte>, i: nat, j: nat)
    requires WellFormed(s) && i <= j <= |s| && IsCharBoundary(s, i) && IsCharBoundary(s, j)
    ensures WellFormed(s[i..j])
  {
    SplitAtBoundary(s, j);
    var head := s[..j];
    assert IsCharBoundary(head, i);
    SplitAtBoundary(head, i);
    assert head[i..] == s[i..j];
  }

  lemma HeadOfJoin(a: seq<byte>, b: seq<byte>)
    requires CharLen(a) > 0
    ensures CharLen(a + b) == CharLen(a) && (a + b)[CharLen(a)..] == a[CharLen(a)..] + b
  {}

  lemma {:induction false} JoinWellFormed(a: seq<byte>, b: seq<byte>)
    requires WellFormed(a) && WellFormed(b)
    ensures WellFormed(a + b)
    decreases |a|
  {
    if a == [] {
      assert a + b == b;
    } else {
      var n := CharLen(a);
      JoinWellFormed(a[n..], b);
      HeadOfJoin(a, b);
    }
  }

  /** Removing a well-formed prefix from well-formed text leaves well-formed text. */
  lemma {:induction false} DropWellFormed(a: seq<byte>, b: seq<byte>)
    requires WellFormed(a) && WellFormed(a + b)
    ensures WellFormed(b)
    decreases |a|
  {
    if a == [] {
      assert a + b == b;
    } else {
      var n := CharLen(a);
      HeadOfJoin(a, b);
      DropWellFormed(a[n..], b);
    }
  }

  /** From a boundary before the end, the next one is exactly one character further on. */
  lemma NextBoundary(s: seq<byte>, start: nat)
    requires WellFormed(s) && start < |s| && IsCharBoundary(s, start)
    ensures var n := CharLen(s[start..]);
            && 1 <= n <= 4 && start + n <= |s|
            && IsCharBoundary(s, start + n)
            && forall i | start < i < start + n :: !IsCharBoundary(s, i)
  {
    SplitAtBoundary(s, start);
    var rest := s[start..];
    var n := CharLen(rest);
    forall i | start < i < start + n ensures !IsCharBoundary(s, i) {
      assert Tail(rest[i - start]);
    }
    if start + n < |s| {
      assert rest[n..] != [] && WellFormed(rest[n..]);
      assert !Tail(rest[n..][0]);
      assert s[start + n] == rest[n..][0];
    }
  }

  /** A position is a boundary exactly if the text falls into two well-formed texts there. */
  lemma BoundaryExactly(s: seq<byte>, i: nat)
    requires WellFormed(s) && i <= |s|
    ensures IsCharBoundary(s, i) <==> WellFormed(s[..i]) && WellFormed(s[i..])
  {
    if IsCharBoundary(s, i) {
      SplitAtBoundary(s, i);
    } else {
      assert s[i..] != [] && s[i..][0] == s[i];
    }
  }

  // ---------- Characters ----------

  /** A Unicode scalar value: any code point but the surrogates. */
  predicate IsScalar(c: nat) {
    c <= 0x10FFFF && !(0xD800 <= c <= 0xDFFF)
  }

  /** A continuation byte with these six bits. */
  function Six(n: nat): byte {
    (0x80 + n % 64) as byte
  }

  /** The encoding of a scalar value, section 3 of RFC 3629: each division takes six bits off. */
  function Encoded(c: nat): seq<byte>
    requires IsScalar(c)
  {
    if c < 0x80 then [c as byte]
    else if c < 0x800 then [(0xC0 + c / 64) as byte, Six(c)]
    else if c < 0x10000 then [(0xE0 + c / 64 / 64) as byte, Six(c / 64), Six(c)]
    else [(0xF0 + c / 64 / 64 / 64) as byte, Six(c / 64 / 64), Six(c / 64), Six(c)]
  }

  lemma EncodedIsChar(c: nat, rest: seq<byte>)
    requires IsScalar(c)
    ensures CharLen(Encoded(c) + rest) == |Encoded(c)|
  {}

  /** The bits of `high` with the six bits of a continuation byte behind them. */
  function Joined(high: nat, tail: byte): nat
    requires Tail(tail)
  {
    high * 64 + (tail as nat - 0x80)
  }

  lemma JoinedSplits(high: nat, tail: byte)
    requires Tail(tail)
    ensures Joined(high, tail) / 64 == high && Six(Joined(high, tail)) == tail
  {}

  lemma TwoAreEncoded(s: seq<byte>) returns (c: nat)
    requires CharLen(s) == 2
    ensures IsScalar(c) && s[..2] == Encoded(c)
  {
    c := Joined(s[0] as nat - 0xC0, s[1]);
    JoinedSplits(s[0] as nat - 0xC0, s[1]);
  }

  lemma ThreeAreEncoded(s: seq<byte>) returns (c: nat)
    requires CharLen(s) == 3
    ensures IsScalar(c) && s[..3] == Encoded(c)
  {
    var high := Joined(s[0] as nat - 0xE0, s[1]);
    c := Joined(high, s[2]);
    JoinedSplits(s[0] as nat - 0xE0, s[1]);
    JoinedSplits(high, s[2]);
  }

  lemma FourSplit(top: nat, a: byte, b: byte, lead: nat, c: byte)
    requires Tail(a) && Tail(b) && Tail(c) && top == Joined(lead, a) && 16 <= top < 272
    ensures var n := Joined(Joined(top, b), c);
            IsScalar(n) && Encoded(n) == [(0xF0 + lead) as byte, a, b, c]
  {
    JoinedSplits(lead, a);
    JoinedSplits(top, b);
    JoinedSplits(Joined(top, b), c);
  }

  lemma FourAreEncoded(s: seq<byte>) returns (c: nat)
    requires CharLen(s) == 4
    ensures IsScalar(c) && s[..4] == Encoded(c)
  {
    var lead := s[0] as nat - 0xF0;
    var top := Joined(lead, s[1]);
    FourSplit(top, s[1], s[2], lead, s[3]);
    c := Joined(Joined(top, s[2]), s[3]);
    assert s[..4] == [s[0], s[1], s[2], s[3]];
  }

  /** Whatever is taken for a character encodes a scalar value. */
  lemma CharIsEncoded(s: seq<byte>) returns (c: nat)
    requires CharLen(s) > 0
    ensures IsScalar(c) && s[..CharLen(s)] == Encoded(c)
  {
    match CharLen(s) {
      case 1 => c := s[0] as nat;
      case 2 => c := TwoAreEncoded(s);
      case 3 => c := ThreeAreEncoded(s);
      case _ => c := FourAreEncoded(s);
    }
  }

  function EncodedText(text: seq<nat>): seq<byte>
    requires forall i | 0 <= i < |text| :: IsScalar(text[i])
  {
    if text == [] then [] else Encoded(text[0]) + EncodedText(text[1..])
  }

  /** Well-formed bytes are the encodings of sequences of scalar values: every one of them, ... */
  lemma {:induction false} WellFormedIsText(s: seq<byte>) returns (text: seq<nat>)
    requires WellFormed(s)
    ensures (forall i | 0 <= i < |text| :: IsScalar(text[i])) && s == EncodedText(text)
    decreases |s|
  {
    if s == [] {
      text := [];
    } else {
      var c := CharIsEncoded(s);
      var rest := WellFormedIsText(s[CharLen(s)..]);
      text := [c] + rest;
      assert text[1..] == rest;
    }
  }

  /** ... and nothing else. */
  lemma {:induction false} TextIsWellFormed(text: seq<nat>)
    requires forall i | 0 <= i < |text| :: IsScalar(text[i])
    ensures WellFormed(EncodedText(text))
  {
    if text != [] {
      TextIsWellFormed(text[1..]);
      EncodedIsChar(text[0], EncodedText(text[1..]));
    }
  }
}
