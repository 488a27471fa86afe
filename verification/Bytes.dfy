/** Bytes, byte strings and the two notions of white space the program uses. */
module Bytes {
  newtype byte = b: int | 0 <= b < 256
  type bytes = seq<byte>

  datatype Option<+T> = None | Some(value: T)

  const TAB: byte := 9
  const NEWLINE: byte := 10
  const RETURN: byte := 13
  const SPACE: byte := 32
  const QUOTE: byte := 34
  const PLUS: byte := 43
  const COMMA: byte := 44
  const MINUS: byte := 45
  const PERIOD: byte := 46
  const COLON: byte := 58
  const BACKSLASH: byte := 92
  const OPEN_SQUARE: byte := 91
  const CLOSE_SQUARE: byte := 93
  const OPEN_BRACE: byte := 123
  const CLOSE_BRACE: byte := 125

  /** The four white-space bytes of section 2 of RFC 8259. */
  predicate IsSpace(b: byte) {
    b == SPACE || b == TAB || b == NEWLINE || b == RETURN
  }

  predicate AllSpace(s: bytes) {
    forall k | 0 <= k < |s| :: IsSpace(s[k])
  }

  /** The suffix of `s` that starts at its first byte that is not white space. */
  function SkipSpace(s: bytes): (r: bytes)
    ensures |r| <= |s|
    ensures r != [] ==> !IsSpace(r[0])
  {
    if s != [] && IsSpace(s[0]) then SkipSpace(s[1..]) else s
  }

  lemma SkipSpaceIsSuffix(s: bytes) returns (w: bytes)
    ensures AllSpace(w) && s == w + SkipSpace(s)
  {
    if s != [] && IsSpace(s[0]) {
      var v := SkipSpaceIsSuffix(s[1..]);
      w := [s[0]] + v;
    } else {
      w := [];
    }
  }

  lemma SkipSpaceOver(w: bytes, r: bytes)
    requires AllSpace(w)
    requires r == [] || !IsSpace(r[0])
    ensures SkipSpace(w + r) == r
  {
    if w == [] {
      assert w + r == r;
    } else {
      assert (w + r)[1..] == w[1..] + r;
      SkipSpaceOver(w[1..], r);
    }
  }

  /** The number of bytes of the UTF-8 white-space character at the front of `s`
      (0 when there is none): what bytes.TrimSpace removes, one character at a time. */
  function LeadingBlank(s: bytes): (n: nat)
    ensures n <= |s|
  {
    if |s| >= 1 && (9 <= s[0] <= 13 || s[0] == SPACE) then 1
    else if |s| >= 2 && s[0] == 0xC2 && (s[1] == 0x85 || s[1] == 0xA0) then 2
    else if |s| >= 3 && s[0] == 0xE1 && s[1] == 0x9A && s[2] == 0x80 then 3
    else if |s| >= 3 && s[0] == 0xE2 && s[1] == 0x80
            && (0x80 <= s[2] <= 0x8A || s[2] == 0xA8 || s[2] == 0xA9 || s[2] == 0xAF) then 3
    else if |s| >= 3 && s[0] == 0xE2 && s[1] == 0x81 && s[2] == 0x9F then 3
    else if |s| >= 3 && s[0] == 0xE3 && s[1] == 0x80 && s[2] == 0x80 then 3
    else 0
  }

  /** bytes.TrimSpace leaves nothing of `s`. */
  predicate IsBlank(s: bytes) {
    s == [] || (LeadingBlank(s) > 0 && IsBlank(s[LeadingBlank(s)..]))
  }

  lemma AllSpaceIsBlank(s: bytes)
    requires AllSpace(s)
    ensures IsBlank(s)
  {
    if s != [] {
      AllSpaceIsBlank(s[1..]);
    }
  }

  /** bytes.IndexByte: the first position of `b`, or the length of `s` when it does not occur. */
  function IndexByte(s: bytes, b: byte): (i: nat)
    ensures i <= |s|
    ensures i < |s| ==> s[i] == b
    ensures forall k | 0 <= k < i :: s[k] != b
  {
    if s == [] || s[0] == b then 0 else 1 + IndexByte(s[1..], b)
  }

  /** bytes.LastIndexByte, as the number of bytes up to and including the last `b` (0 when it does not occur). */
  function PastLastByte(s: bytes, b: byte): (n: nat)
    ensures n <= |s|
    ensures n > 0 ==> s[n - 1] == b
    ensures forall k | n <= k < |s| :: s[k] != b
  {
    if s == [] then 0
    else if s[|s| - 1] == b then |s|
    else PastLastByte(s[..|s| - 1], b)
  }

  lemma IndexByteAt(s: bytes, b: byte, k: nat)
    requires k < |s| && s[k] == b && forall i | 0 <= i < k :: s[i] != b
    ensures IndexByte(s, b) == k
  {
    var i := IndexByte(s, b);
    assert i <= k;
  }

  lemma PastLastByteAt(s: bytes, b: byte, n: nat)
    requires 0 < n <= |s| && s[n - 1] == b && forall k | n <= k < |s| :: s[k] != b
    ensures PastLastByte(s, b) == n
  {
    var i := PastLastByte(s, b);
    assert i <= n;
  }

  /** bytes.Index: the first position at which `t` occurs in `s`, or None. */
  function IndexOf(s: bytes, t: bytes): Option<nat> {
    if |s| < |t| then None
    else if s[..|t|] == t then Some(0)
    else match IndexOf(s[1..], t)
      case None => None
      case Some(i) => Some(i + 1)
  }

  /** A first byte that occurs nowhere in `a` keeps a pattern from matching before the end of `a`. */
  lemma IndexOfAfter(a: bytes, t: bytes, b: bytes)
    requires t != []
    requires forall k | 0 <= k < |a| :: a[k] != t[0]
    ensures IndexOf(a + t + b, t) == Some(|a|)
  {
    var s := a + t + b;
    if a == [] {
      assert s[..|t|] == t;
    } else {
      assert s[0] == a[0] != t[0];
      assert s[..|t|][0] != t[0];
      assert s[1..] == a[1..] + t + b;
      IndexOfAfter(a[1..], t, b);
    }
  }

  lemma FirstAndRest<T>(s: seq<T>)
    requires s != []
    ensures [s[0]] + s[1..] == s
  {
  }

  lemma Regroup3(a: bytes, b: bytes, c: bytes, d: bytes)
    ensures (a + b + c) + d == a + b + (c + d)
  {
  }

  lemma Regroup(a: bytes, b: bytes, c: bytes, d: bytes)
    ensures a + b + c + d == a + (b + (c + d))
  {
  }

  lemma Reassociate(a: bytes, b: bytes, c: bytes, d: bytes, e: bytes)
    ensures a + b + c + d + e == a + (b + (c + (d + e)))
  {
  }
}
