/** Where a string, a value and a run of white space end: the flat scanners of the editor.

    Each scanner is a function from the bytes at the cursor to the bytes left over, None standing for the
    index panic that only invalid input can cause. The methods below it are the loops over a byte slice. */
module Scanner {
  import opened Bytes
  import opened Grammar

  /** What follows the closing quote; `s` starts just after the opening one. */
  function AfterString(s: bytes): (r: Option<bytes>)
    ensures r.Some? ==> |r.value| < |s|
  {
    if s == [] then None
    else if s[0] == QUOTE then Some(s[1..])
    else if s[0] == BACKSLASH then (if |s| < 2 then None else AfterString(s[2..]))
    else AfterString(s[1..])
  }

  /** What follows the bracket that brings `depth` back to 0. The counter treats braces and square brackets alike. */
  function AfterNest(s: bytes, depth: int): (r: Option<bytes>)
    ensures r.Some? ==> |r.value| < |s|
    decreases |s|
  {
    if s == [] then None
    else if s[0] == QUOTE then
      (match AfterString(s[1..])
       case None => None
       case Some(rest) => AfterNest(rest, depth))
    else if s[0] == OPEN_BRACE || s[0] == OPEN_SQUARE then AfterNest(s[1..], depth + 1)
    else if s[0] == CLOSE_BRACE || s[0] == CLOSE_SQUARE then
      (if depth == 1 then Some(s[1..]) else AfterNest(s[1..], depth - 1))
    else AfterNest(s[1..], depth)
  }

  /** What follows a number or a literal name. */
  function AfterBare(s: bytes): (r: bytes)
    ensures |r| <= |s|
  {
    if s == [] || IsDelimiter(s[0]) then s else AfterBare(s[1..])
  }

  function AfterValue(s: bytes): (r: Option<bytes>)
    ensures r.Some? ==> |r.value| <= |s|
  {
    if s == [] then None
    else if s[0] == QUOTE then AfterString(s[1..])
    else if s[0] == OPEN_BRACE || s[0] == OPEN_SQUARE then AfterNest(s, 0)
    else Some(AfterBare(s))
  }

  // ---- The flat scanners agree with the recursive grammar ----

  lemma {:induction false} StringEnds(chars: bytes, rest: bytes)
    requires IsChars(chars)
    ensures AfterString(chars + [QUOTE] + rest) == Some(rest)
  {
    var s := chars + [QUOTE] + rest;
    if chars == [] {
      assert s[1..] == rest;
    } else if IsUnescaped(chars[0]) && IsChars(chars[1..]) {
      assert s[1..] == chars[1..] + [QUOTE] + rest;
      StringEnds(chars[1..], rest);
    } else if |chars| >= 2 && IsEscapee(chars[1]) && IsChars(chars[2..]) {
      assert s[2..] == chars[2..] + [QUOTE] + rest;
      StringEnds(chars[2..], rest);
    } else {
      assert s[2..] == chars[2..] + [QUOTE] + rest;
      assert s[2..][1..][1..][1..][1..] == chars[6..] + [QUOTE] + rest;
      StringEnds(chars[6..], rest);
      HexIsOrdinary(s[2..]);
    }
  }

  lemma HexIsOrdinary(s: bytes)
    requires |s| >= 4 && IsHex(s[0]) && IsHex(s[1]) && IsHex(s[2]) && IsHex(s[3])
    ensures AfterString(s) == AfterString(s[1..][1..][1..][1..])
  {
    assert AfterString(s) == AfterString(s[1..]);
    assert AfterString(s[1..]) == AfterString(s[1..][1..]);
    assert AfterString(s[1..][1..]) == AfterString(s[1..][1..][1..]);
  }

  lemma QuotedEnds(text: bytes, rest: bytes)
    requires IsString(text)
    ensures (text + rest)[0] == QUOTE
    ensures AfterString((text + rest)[1..]) == Some(rest)
  {
    BetweenQuotes(text, rest);
    StringEnds(text[1..|text| - 1], rest);
  }

  lemma BetweenQuotes(text: bytes, rest: bytes)
    requires |text| >= 2 && text[|text| - 1] == QUOTE
    ensures (text + rest)[1..] == text[1..|text| - 1] + [QUOTE] + rest
  {
    assert text[1..] == text[1..|text| - 1] + [QUOTE];
    assert (text + rest)[1..] == text[1..] + rest;
  }

  lemma {:induction false} InertIsSkipped(w: bytes, rest: bytes, depth: int)
    requires AllInert(w)
    ensures AfterNest(w + rest, depth) == AfterNest(rest, depth)
  {
    if w == [] {
      assert w + rest == rest;
    } else {
      assert (w + rest)[1..] == w[1..] + rest;
      InertIsSkipped(w[1..], rest, depth);
    }
  }

  lemma StringIsSkipped(text: bytes, rest: bytes, depth: int)
    requires IsString(text)
    ensures AfterNest(text + rest, depth) == AfterNest(rest, depth)
  {
    QuotedEnds(text, rest);
  }

  /** Inside an open bracket, a whole value leaves the counter where it was. */
  lemma {:induction false} ValueIsSkipped(v: Value, rest: bytes, depth: int)
    requires Good(v) && depth >= 1
    ensures AfterNest(Print(v) + rest, depth) == AfterNest(rest, depth)
    decreases v
  {
    match v {
      case Bare(text) =>
        BareBytes(text);
        InertIsSkipped(text, rest, depth);
      case Quoted(text) =>
        StringIsSkipped(text, rest, depth);
      case Nest(braces, children) =>
        NestIsSkipped(braces, children, rest, depth);
        assert depth + 1 != 1;
        assert ([Close(braces)] + rest)[1..] == rest;
    }
  }

  lemma {:induction false} NestIsSkipped(braces: bool, children: Children, rest: bytes, depth: int)
    requires GoodChildren(children, braces, true) && depth >= 0
    ensures AfterNest(Print(Nest(braces, children)) + rest, depth) == AfterNest([Close(braces)] + rest, depth + 1)
    decreases children, 1
  {
    var s := Print(Nest(braces, children)) + rest;
    assert s[1..] == PrintChildren(children) + ([Close(braces)] + rest);
    ChildrenAreSkipped(children, braces, true, [Close(braces)] + rest, depth + 1);
  }

  lemma {:induction false} ChildrenAreSkipped(c: Children, braces: bool, first: bool, rest: bytes, depth: int)
    requires GoodChildren(c, braces, first) && depth >= 1
    ensures AfterNest(PrintChildren(c) + rest, depth) == AfterNest(rest, depth)
    decreases c, 0
  {
    match c {
      case End(pad) =>
        InertIsSkipped(pad, rest, depth);
      case Child(lead, key, colon, value, more) =>
        var tail := PrintChildren(more) + rest;
        assert PrintChildren(c) + rest == (lead + key + colon) + (Print(value) + tail);
        IntroIsSkipped(lead, key, colon, braces, first, Print(value) + tail, depth);
        ValueIsSkipped(value, tail, depth);
        ChildrenAreSkipped(more, braces, false, rest, depth);
    }
  }

  lemma IntroIsSkipped(lead: bytes, key: bytes, colon: bytes, braces: bool, first: bool, rest: bytes, depth: int)
    requires IsLead(lead, first)
    requires if braces then IsString(key) && IsColon(colon) else key == [] && colon == []
    ensures AfterNest((lead + key + colon) + rest, depth) == AfterNest(rest, depth)
  {
    LeadBytes(lead, first);
    if braces {
      assert (lead + key + colon) + rest == lead + (key + (colon + rest));
      InertIsSkipped(lead, key + (colon + rest), depth);
      StringIsSkipped(key, colon + rest, depth);
      ColonBytes(colon);
      InertIsSkipped(colon, rest, depth);
    } else {
      assert lead + key + colon == lead;
      InertIsSkipped(lead, rest, depth);
    }
  }

  lemma {:induction false} BareEnds(text: bytes, rest: bytes)
    requires forall k | 0 <= k < |text| :: !IsDelimiter(text[k])
    requires rest == [] || IsDelimiter(rest[0])
    ensures AfterBare(text + rest) == rest
  {
    if text == [] {
      assert text + rest == rest;
    } else {
      assert (text + rest)[1..] == text[1..] + rest;
      BareEnds(text[1..], rest);
    }
  }

  /** On every JSON value the flat scanner stops exactly where the grammar says the value ends. */
  lemma ScannerAgreesWithGrammar(text: bytes, rest: bytes)
    requires IsValue(text)
    requires rest == [] || IsDelimiter(rest[0])
    ensures AfterValue(text + rest) == Some(rest)
  {
    var v :| Good(v) && Print(v) == text;
    match v {
      case Bare(_) =>
        BareBytes(text);
        BareEnds(text, rest);
        assert (text + rest)[0] == text[0];
      case Quoted(_) =>
        QuotedEnds(text, rest);
      case Nest(braces, children) =>
        NestIsSkipped(braces, children, rest, 0);
        assert (text + rest)[0] == Open(braces);
        assert ([Close(braces)] + rest)[1..] == rest;
    }
  }

  /** Two values that start the same text and are both followed by a delimiter are the same value. */
  lemma ValuesAreDelimited(a: bytes, restA: bytes, b: bytes, restB: bytes)
    requires IsValue(a) && IsValue(b)
    requires restA == [] || IsDelimiter(restA[0])
    requires restB == [] || IsDelimiter(restB[0])
    requires a + restA == b + restB
    ensures a == b && restA == restB
  {
    ScannerAgreesWithGrammar(a, restA);
    ScannerAgreesWithGrammar(b, restB);
    assert a == (a + restA)[..|a|];
    assert b == (b + restB)[..|b|];
  }

  // ---- The loops ----

  /** A value fills data[i..end] and a delimiter, or nothing, follows it. */
  ghost predicate ValueAt(data: bytes, i: nat, end: nat) {
    i <= end <= |data| && IsValue(data[i..end]) && (end == |data| || IsDelimiter(data[end]))
  }

  method SkipSpaceFrom(data: bytes, i: nat) returns (r: nat)
    requires i <= |data|
    ensures i <= r <= |data| && data[r..] == SkipSpace(data[i..]) && AllSpace(data[i..r])
    ensures r < |data| ==> !IsSpace(data[r])
  {
    r := i;
    while r < |data| && IsSpace(data[r])
      invariant i <= r <= |data|
      invariant SkipSpace(data[r..]) == SkipSpace(data[i..])
    {
      assert data[r..][1..] == data[r + 1..];
      r := r + 1;
    }
    var w := SkipSpaceIsSuffix(data[i..]);
    assert data[i..r] == w;
  }

  lemma SuffixLength(data: bytes, i: nat, j: nat)
    requires i <= |data| && j <= |data| && data[i..] == data[j..]
    ensures i == j
  {
    assert |data[i..]| == |data| - i && |data[j..]| == |data| - j;
  }

  /** The precondition says that the string literal at `start` is closed, so that the loop indexes nothing beyond the
      data. */
  method ScanString(data: bytes, start: nat) returns (end: nat)
    requires start < |data| && AfterString(data[start + 1..]).Some?
    ensures start + 1 < end <= |data| && Some(data[end..]) == AfterString(data[start + 1..])
  {
    var i := start + 1;
    while data[i] != QUOTE
      invariant start + 1 <= i < |data|
      invariant AfterString(data[i..]).Some? && AfterString(data[i..]) == AfterString(data[start + 1..])
      decreases |data| - i
    {
      assert data[i..][1..] == data[i + 1..];
      if data[i] == BACKSLASH {
        assert data[i..][2..] == data[i + 2..];
        i := i + 1;
      }
      i := i + 1;
    }
    assert data[i..][1..] == data[i + 1..];
    end := i + 1;
  }

  /** The value scanner. Whatever value of the grammar starts here and is followed by a delimiter, `end` is its end. */
  method ScanValue(data: bytes, start: nat) returns (end: nat)
    requires start < |data| && AfterValue(data[start..]).Some?
    ensures start <= end <= |data| && Some(data[end..]) == AfterValue(data[start..])
    ensures forall e | ValueAt(data, start, e) :: end == e
  {
    var i := start;
    if data[i] == QUOTE {
      assert data[i..][1..] == data[i + 1..];
      end := ScanString(data, i);
    } else if data[i] == OPEN_BRACE || data[i] == OPEN_SQUARE {
      end := ScanNest(data, i);
    } else {
      while i < |data| && !IsDelimiter(data[i])
        invariant start <= i <= |data| && AfterBare(data[i..]) == AfterBare(data[start..])
      {
        assert data[i..][1..] == data[i + 1..];
        i := i + 1;
      }
      end := i;
    }
    forall e | ValueAt(data, start, e) ensures end == e {
      ValueEnd(data, start, e);
      SuffixLength(data, end, e);
    }
  }

  lemma ValueEnd(data: bytes, start: nat, e: nat)
    requires ValueAt(data, start, e)
    ensures AfterValue(data[start..]) == Some(data[e..])
  {
    ScannerAgreesWithGrammar(data[start..e], data[e..]);
    assert data[start..e] + data[e..] == data[start..];
  }

  /** The bracket-counting loop of the value scanner. */
  method ScanNest(data: bytes, start: nat) returns (end: nat)
    requires start <= |data| && AfterNest(data[start..], 0).Some?
    ensures start < end <= |data| && Some(data[end..]) == AfterNest(data[start..], 0)
  {
    var i, depth := start, 0;
    while true
      invariant start <= i < |data|
      invariant AfterNest(data[i..], depth).Some? && AfterNest(data[i..], depth) == AfterNest(data[start..], 0)
      decreases |data| - i
    {
      assert data[i..][1..] == data[i + 1..];
      if data[i] == QUOTE {
        i := ScanString(data, i);
        continue;
      }
      if data[i] == OPEN_BRACE || data[i] == OPEN_SQUARE {
        depth := depth + 1;
      } else if data[i] == CLOSE_BRACE || data[i] == CLOSE_SQUARE {
        depth := depth - 1;
        if depth == 0 {
          return i + 1;
        }
      }
      i := i + 1;
    }
  }
}
