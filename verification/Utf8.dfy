/**
 UTF-8 as RFC 3629 defines it (sections 3 and 4), and the cut the result stream and the grid
 make in a value that is too long to keep or to draw.
 */
module Utf8 {

  type byte = b: int | 0 <= b < 256

  type bytes = seq<byte>

  /** A byte of the form 10xxxxxx. */
  predicate Continuation(b: byte) {
    b / 64 == 2
  }

  /**
   The length of the well-formed character `b` starts with, or 0 when it starts with none:
   the UTF8-1 to UTF8-4 productions of RFC 3629 section 4.
   */
  function HeadLen(b: bytes): (n: nat)
    ensures n <= 4 && n <= |b|
    ensures n > 0 ==> !Continuation(b[0]) && forall k :: 1 <= k < n ==> Continuation(b[k])
  {
    if |b| == 0 then 0
    else if b[0] < 0x80 then 1
    else if |b| < 2 || !Continuation(b[1]) then 0
    else if 0xC2 <= b[0] <= 0xDF then 2
    else if |b| < 3 || !Continuation(b[2]) then 0
    else if b[0] == 0xE0 && b[1] >= 0xA0 then 3
    else if b[0] == 0xED && b[1] <= 0x9F then 3
    else if 0xE1 <= b[0] <= 0xEF && b[0] != 0xED then 3
    else if |b| < 4 || !Continuation(b[3]) then 0
    else if b[0] == 0xF0 && b[1] >= 0x90 then 4
    else if b[0] == 0xF4 && b[1] <= 0x8F then 4
    else if 0xF1 <= b[0] <= 0xF3 then 4
    else 0
  }

  /** `b` is a sequence of well-formed characters. */
  predicate Valid(b: bytes) {
    b == [] || (HeadLen(b) > 0 && Valid(b[HeadLen(b)..]))
  }

  /** The source's test for a place where a value may be cut. */
  predicate IsBoundary(b: bytes, i: nat) {
    i == 0 || i >= |b| || !Continuation(b[i])
  }

  /** A character that is cut is none, and what follows one does not matter to it. */
  lemma HeadCut(b: bytes, i: nat)
    requires 0 < i <= |b|
    ensures i < HeadLen(b) ==> HeadLen(b[..i]) == 0
    ensures 0 < HeadLen(b) <= i ==> HeadLen(b[..i]) == HeadLen(b)
  {
    hide Continuation;
  }

  /** In valid text the byte test finds exactly the cuts that leave valid text. */
  lemma {:induction false} BoundaryIffValidPrefix(b: bytes, i: nat)
    requires Valid(b) && i <= |b|
    ensures IsBoundary(b, i) <==> Valid(b[..i])
  {
    if 0 < i {
      var n := HeadLen(b);
      HeadCut(b, i);
      hide HeadLen;
      if i >= n {
        assert b[..i][n..] == b[n..][..i - n];
        BoundaryIffValidPrefix(b[n..], i - n);
      }
    }
  }

  /** Among any four neighbouring places of valid text one is a boundary. */
  lemma {:induction false} BoundaryNear(b: bytes, i: nat)
    requires Valid(b) && i < |b|
    ensures exists e: nat :: i - 3 <= e <= i && IsBoundary(b, e)
  {
    var n := HeadLen(b);
    if i < n {
      assert IsBoundary(b, 0);
    } else {
      BoundaryNear(b[n..], i - n);
      var e: nat :| i - n - 3 <= e <= i - n && IsBoundary(b[n..], e);
      assert HeadLen(b[n..]) > 0;
      assert IsBoundary(b, e + n);
    }
  }

  /** `r` is the longest valid text of at most `cap` bytes that `b` begins with. */
  ghost predicate LongestValidPrefix(r: bytes, b: bytes, cap: nat) {
    && r <= b && |r| <= cap && Valid(r)
    && forall e: nat :: |r| < e <= cap && e <= |b| ==> !Valid(b[..e])
  }

  /** The last boundary of `b` at or before `end`. */
  function CutEnd(b: bytes, end: nat): (e: nat)
    ensures e <= end && IsBoundary(b, e) && forall k: nat :: e < k <= end ==> !IsBoundary(b, k)
  {
    if IsBoundary(b, end) then end else CutEnd(b, end - 1)
  }

  /** `b` as it is left when it may be no longer than `cap`. */
  function Cut(b: bytes, cap: nat): (r: bytes)
    ensures r <= b && |r| <= |b|
    ensures |b| <= cap ==> r == b
    ensures |b| > cap ==> |r| <= cap
  {
    if |b| <= cap then b else b[..CutEnd(b, cap)]
  }

  lemma CutValid(b: bytes, cap: nat)
    requires Valid(b)
    ensures Valid(Cut(b, cap))
  {
    if |b| > cap { BoundaryIffValidPrefix(b, CutEnd(b, cap)); }
  }

  /**
   The walk back to a character boundary, in both places the source makes it: `decode_cell_with_cap`
   (cap 64 KiB) and `format_cell` (cap 2048).
   */
  method Truncate(b: bytes, cap: nat) returns (r: bytes)
    requires |b| > cap
    ensures r == Cut(b, cap) && r <= b && |r| <= cap
    ensures forall e: nat :: |r| < e <= cap ==> Continuation(b[e])
    ensures Valid(b) ==> LongestValidPrefix(r, b, cap) && cap - |r| <= 3
  {
    var end := cap;
    while end > 0 && !IsBoundary(b, end)
      invariant 0 <= end <= cap && CutEnd(b, end) == CutEnd(b, cap)
      invariant forall e: nat :: end < e <= cap ==> Continuation(b[e])
    {
      end := end - 1;
    }
    if end == 0 {
      r := [];
    } else {
      r := b[..end];
    }
    if Valid(b) {
      forall e: nat | end <= e <= cap
        ensures Valid(b[..e]) <==> e == end
      {
        BoundaryIffValidPrefix(b, e);
      }
      BoundaryNear(b, cap);
    }
  }

  // ---- characters -------------------------------------------------------------------------

  /** The code point a well-formed head of `n` octets stands for. */
  function CodePoint(b: bytes): (cp: int)
    requires HeadLen(b) > 0
    ensures 0 <= cp < 0xD800 || 0xE000 <= cp < 0x110000
  {
    var n := HeadLen(b);
    var b0: int := b[0];
    if n == 1 then b0
    else
      var b1: int := b[1];
      if n == 2 then (b0 - 0xC0) * 64 + (b1 - 0x80)
      else
        var b2: int := b[2];
        if n == 3 then (b0 - 0xE0) * 4096 + (b1 - 0x80) * 64 + (b2 - 0x80)
        else
          var b3: int := b[3];
          (b0 - 0xF0) * 262144 + (b1 - 0x80) * 4096 + (b2 - 0x80) * 64 + (b3 - 0x80)
  }

  const REPLACEMENT: char := '\U{FFFD}'

  /** Text of a byte sequence; a byte that starts no character reads as U+FFFD. */
  function Decode(b: bytes): string
    decreases |b|
  {
    if b == [] then ""
    else if HeadLen(b) == 0 then [REPLACEMENT] + Decode(b[1..])
    else [CodePoint(b) as char] + Decode(b[HeadLen(b)..])
  }

  /** The octets of one character (RFC 3629 section 3). */
  function EncodeChar(c: char): bytes {
    var n := c as int;
    if n < 0x80 then [n]
    else if n < 0x800 then [0xC0 + n / 64, 0x80 + n % 64]
    else if n < 0x10000 then [0xE0 + n / 4096, 0x80 + n / 64 % 64, 0x80 + n % 64]
    else [0xF0 + n / 262144, 0x80 + n / 4096 % 64, 0x80 + n / 64 % 64, 0x80 + n % 64]
  }

  function Encode(s: string): bytes {
    if s == "" then [] else EncodeChar(s[0]) + Encode(s[1..])
  }

  lemma {:induction false} EncodeAppend(s: string, t: string)
    ensures Encode(s + t) == Encode(s) + Encode(t)
  {
    hide EncodeChar;
    if s == "" {
      assert s + t == t;
    } else {
      assert (s + t)[1..] == s[1..] + t;
      EncodeAppend(s[1..], t);
    }
  }

  lemma CharIsSome(c: char)
    ensures |EncodeChar(c)| > 0
  {
  }

  lemma DigitSplit(hi: int, lo: int)
    requires 0 <= lo < 64
    ensures (hi * 64 + lo) / 64 == hi && (hi * 64 + lo) % 64 == lo
  {
  }

  lemma EncodeHead3(b: bytes)
    requires HeadLen(b) == 3
    ensures EncodeChar(CodePoint(b) as char) == b[..3]
  {
    var b0: int, b1: int, b2: int := b[0], b[1], b[2];
    DigitSplit((b0 - 0xE0) * 64 + (b1 - 0x80), b2 - 0x80);
    DigitSplit(b0 - 0xE0, b1 - 0x80);
    assert CodePoint(b) / 4096 == b0 - 0xE0;
  }

  lemma EncodeHead4(b: bytes)
    requires HeadLen(b) == 4
    ensures EncodeChar(CodePoint(b) as char) == b[..4]
  {
    var b0: int, b1: int, b2: int, b3: int := b[0], b[1], b[2], b[3];
    DigitSplit((b0 - 0xF0) * 4096 + (b1 - 0x80) * 64 + (b2 - 0x80), b3 - 0x80);
    DigitSplit((b0 - 0xF0) * 64 + (b1 - 0x80), b2 - 0x80);
    DigitSplit(b0 - 0xF0, b1 - 0x80);
    assert CodePoint(b) / 4096 == (b0 - 0xF0) * 64 + (b1 - 0x80);
    assert CodePoint(b) / 262144 == b0 - 0xF0;
  }

  lemma EncodeHead(b: bytes)
    requires HeadLen(b) > 0
    ensures EncodeChar(CodePoint(b) as char) == b[..HeadLen(b)]
  {
    if HeadLen(b) == 2 {
      DigitSplit(b[0] as int - 0xC0, b[1] as int - 0x80);
    } else if HeadLen(b) == 3 {
      EncodeHead3(b);
    } else if HeadLen(b) == 4 {
      EncodeHead4(b);
    }
  }

  /** Valid text survives being read as characters and written back. */
  lemma {:induction false} EncodeDecode(b: bytes)
    requires Valid(b)
    ensures Encode(Decode(b)) == b
  {
    if b != [] {
      var n := HeadLen(b);
      calc {
        Encode(Decode(b));
        { assert Decode(b)[0] == CodePoint(b) as char && Decode(b)[1..] == Decode(b[n..]); }
        EncodeChar(CodePoint(b) as char) + Encode(Decode(b[n..]));
        { EncodeHead(b); EncodeDecode(b[n..]); }
        b[..n] + b[n..];
        b;
      }
    }
  }

  lemma EncodedHead(c: char, rest: bytes)
    ensures HeadLen(EncodeChar(c) + rest) == |EncodeChar(c)|
    ensures (EncodeChar(c) + rest)[|EncodeChar(c)|..] == rest
  {
    var e, b := EncodeChar(c), EncodeChar(c) + rest;
    assert forall k :: 0 <= k < |e| ==> b[k] == e[k];
    var n := c as int;
    if n < 0x800 {
      EncodedShort(b, n);
    } else if n < 0x10000 {
      EncodedThree(b, n);
    } else {
      EncodedFour(b, n);
    }
  }

  lemma EncodedShort(b: bytes, n: int)
    requires n < 0x80 ==> |b| >= 1 && b[0] as int == n
    requires n >= 0x80 ==> |b| >= 2 && b[0] as int == 0xC0 + n / 64 && b[1] as int == 0x80 + n % 64
    requires 0 <= n < 0x800
    ensures HeadLen(b) == if n < 0x80 then 1 else 2
  {
  }

  lemma EncodedThree(b: bytes, n: int)
    requires 0x800 <= n < 0x10000 && !(0xD800 <= n < 0xE000) && |b| >= 3
    requires b[0] as int == 0xE0 + n / 4096 && b[1] as int == 0x80 + n / 64 % 64 && b[2] as int == 0x80 + n % 64
    ensures HeadLen(b) == 3
  {
  }

  lemma EncodedFour(b: bytes, n: int)
    requires 0x10000 <= n < 0x110000 && |b| >= 4
    requires b[0] as int == 0xF0 + n / 262144 && b[1] as int == 0x80 + n / 4096 % 64
    requires b[2] as int == 0x80 + n / 64 % 64 && b[3] as int == 0x80 + n % 64
    ensures HeadLen(b) == 4
  {
  }

  /** What is written for a text is well formed. */
  lemma {:induction false} EncodeValid(s: string)
    ensures Valid(Encode(s))
  {
    if s != "" {
      EncodeValid(s[1..]);
      EncodedHead(s[0], Encode(s[1..]));
    }
  }
}
