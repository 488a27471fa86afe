/** json.Compact: a value without the white space between its tokens. */
module Compaction {
  import opened Bytes
  import opened Grammar
  import opened Scanner

  function Compact(s: bytes): bytes
    decreases |s|
  {
    if s == [] then []
    else if IsSpace(s[0]) then Compact(s[1..])
    else if s[0] == QUOTE then
      (match AfterString(s[1..])
       case None => s
       case Some(rest) => s[..|s| - |rest|] + Compact(rest))
    else [s[0]] + Compact(s[1..])
  }

  /** The same on syntax trees. */
  function Squeeze(v: Value): Value {
    match v
    case Bare(_) => v
    case Quoted(_) => v
    case Nest(braces, children) => Nest(braces, SqueezeChildren(children, true))
  }

  function SqueezeChildren(c: Children, first: bool): Children {
    match c
    case End(_) => End([])
    case Child(_, key, colon, value, rest) =>
      Child(if first then [] else [COMMA], key, if colon == [] then [] else [COLON], Squeeze(value),
            SqueezeChildren(rest, false))
  }

  lemma {:induction false} SqueezeIsGood(v: Value)
    requires Good(v)
    ensures Good(Squeeze(v))
    decreases v
  {
    match v {
      case Bare(_) =>
      case Quoted(_) =>
      case Nest(braces, children) => SqueezeChildrenIsGood(children, braces, true);
    }
  }

  lemma {:induction false} SqueezeChildrenIsGood(c: Children, braces: bool, first: bool)
    requires GoodChildren(c, braces, first)
    ensures GoodChildren(SqueezeChildren(c, first), braces, first)
    decreases c
  {
    match c {
      case End(_) =>
      case Child(_, _, _, value, rest) =>
        SqueezeIsGood(value);
        SqueezeChildrenIsGood(rest, braces, false);
    }
  }

  lemma {:induction false} CompactSpace(w: bytes, r: bytes)
    requires AllSpace(w)
    ensures Compact(w + r) == Compact(r)
  {
    if w == [] {
      assert w + r == r;
    } else {
      assert (w + r)[1..] == w[1..] + r;
      CompactSpace(w[1..], r);
    }
  }

  lemma {:induction false} CompactBare(s: bytes, r: bytes)
    requires forall k | 0 <= k < |s| :: !IsSpace(s[k]) && s[k] != QUOTE
    ensures Compact(s + r) == s + Compact(r)
  {
    if s == [] {
      assert s + r == r;
    } else {
      assert (s + r)[1..] == s[1..] + r;
      CompactBare(s[1..], r);
    }
  }

  lemma CompactString(s: bytes, r: bytes)
    requires IsString(s)
    ensures Compact(s + r) == s + Compact(r)
  {
    QuotedEnds(s, r);
    assert (s + r)[..|s + r| - |r|] == s;
  }

  /** White space around one separator byte goes, the separator stays. */
  lemma CompactSeparator(s: bytes, b: byte, r: bytes)
    requires IndexByte(s, b) < |s| && AllSpace(s[..IndexByte(s, b)]) && AllSpace(s[IndexByte(s, b) + 1..])
    requires !IsSpace(b) && b != QUOTE
    ensures Compact(s + r) == [b] + Compact(r)
  {
    var i := IndexByte(s, b);
    var t := [b] + (s[i + 1..] + r);
    assert s + r == s[..i] + t;
    CompactSpace(s[..i], t);
    assert t[1..] == s[i + 1..] + r;
    CompactSpace(s[i + 1..], r);
  }

  lemma CompactLead(lead: bytes, first: bool, r: bytes)
    requires IsLead(lead, first)
    ensures Compact(lead + r) == (if first then [] else [COMMA]) + Compact(r)
  {
    if first {
      CompactSpace(lead, r);
    } else {
      CompactSeparator(lead, COMMA, r);
    }
  }

  lemma CompactIntro(lead: bytes, key: bytes, colon: bytes, braces: bool, first: bool, r: bytes)
    requires IsLead(lead, first)
    requires if braces then IsString(key) && IsColon(colon) else key == [] && colon == []
    ensures Compact(lead + key + colon + r)
         == (if first then [] else [COMMA]) + key + (if colon == [] then [] else [COLON]) + Compact(r)
  {
    assert lead + key + colon + r == lead + (key + (colon + r));
    CompactLead(lead, first, key + (colon + r));
    if braces {
      CompactString(key, colon + r);
      CompactSeparator(colon, COLON, r);
    } else {
      assert key + (colon + r) == r;
    }
  }

  lemma NestPieces(open: byte, inner: bytes, close: byte, r: bytes)
    ensures ([open] + inner + [close]) + r == [open] + (inner + ([close] + r))
  {
  }

  lemma {:induction false} CompactValue(v: Value, r: bytes)
    requires Good(v)
    ensures Compact(Print(v) + r) == Print(Squeeze(v)) + Compact(r)
    decreases v
  {
    match v {
      case Bare(text) =>
        BareBytes(text);
        assert forall k | 0 <= k < |text| :: IsInert(text[k]) && !IsDelimiter(text[k]);
        CompactBare(text, r);
      case Quoted(text) =>
        CompactString(text, r);
      case Nest(braces, children) =>
        var close := [Close(braces)] + r;
        NestPieces(Open(braces), PrintChildren(children), Close(braces), r);
        assert ([Open(braces)] + (PrintChildren(children) + close))[1..] == PrintChildren(children) + close;
        CompactChildren(children, braces, true, close);
        assert close[1..] == r;
        NestPieces(Open(braces), PrintChildren(SqueezeChildren(children, true)), Close(braces), Compact(r));
    }
  }

  lemma {:induction false} CompactChildren(c: Children, braces: bool, first: bool, r: bytes)
    requires GoodChildren(c, braces, first)
    ensures Compact(PrintChildren(c) + r) == PrintChildren(SqueezeChildren(c, first)) + Compact(r)
    decreases c
  {
    match c {
      case End(pad) =>
        CompactSpace(pad, r);
      case Child(lead, key, colon, value, rest) =>
        var more := PrintChildren(rest) + r;
        Regroup(lead + key + colon, Print(value), PrintChildren(rest), r);
        CompactIntro(lead, key, colon, braces, first, Print(value) + more);
        CompactValue(value, more);
        CompactChildren(rest, braces, false, r);
        var intro := (if first then [] else [COMMA]) + key + (if colon == [] then [] else [COLON]);
        Regroup(intro, Print(Squeeze(value)), PrintChildren(SqueezeChildren(rest, false)), Compact(r));
    }
  }

  /** Compacting a value gives a value; a string, a number or a literal name stays as it is. */
  lemma CompactKeepsValue(s: bytes)
    requires IsValue(s)
    ensures IsValue(Compact(s))
    ensures IsString(s) ==> Compact(s) == s
    ensures IsBare(s) ==> Compact(s) == s
  {
    var v :| Good(v) && Print(v) == s;
    CompactValue(v, []);
    SqueezeIsGood(v);
    assert s + [] == s && Print(Squeeze(v)) + [] == Print(Squeeze(v));
    if IsString(s) {
      CompactString(s, []);
    } else if IsBare(s) {
      BareBytes(s);
      assert forall k | 0 <= k < |s| :: IsInert(s[k]) && !IsDelimiter(s[k]);
      CompactBare(s, []);
    }
  }

  // ---- What is left of a value ----

  /** The same tree, whatever the white space: kinds, texts, keys and children in order. */
  predicate SameTree(a: Value, b: Value) {
    match a
    case Bare(text) => b == Bare(text)
    case Quoted(text) => b == Quoted(text)
    case Nest(braces, children) => b.Nest? && b.braces == braces && SameChildren(children, b.children)
  }

  predicate SameChildren(a: Children, b: Children) {
    match a
    case End(_) => b.End?
    case Child(_, key, _, value, rest) =>
      b.Child? && b.key == key && SameTree(value, b.value) && SameChildren(rest, b.rest)
  }

  /** There is no white space between the tokens. */
  predicate IsSqueezed(v: Value) {
    v.Nest? ==> AreSqueezed(v.children)
  }

  predicate AreSqueezed(c: Children) {
    match c
    case End(pad) => pad == []
    case Child(lead, _, colon, value, rest) =>
      lead in {[], [COMMA]} && colon in {[], [COLON]} && IsSqueezed(value) && AreSqueezed(rest)
  }

  lemma {:induction false} SqueezeIsSame(v: Value)
    ensures SameTree(v, Squeeze(v)) && IsSqueezed(Squeeze(v))
    decreases v
  {
    if v.Nest? { SqueezeChildrenAreSame(v.children, true); }
  }

  lemma {:induction false} SqueezeChildrenAreSame(c: Children, first: bool)
    ensures SameChildren(c, SqueezeChildren(c, first)) && AreSqueezed(SqueezeChildren(c, first))
    decreases c
  {
    if c.Child? {
      SqueezeIsSame(c.value);
      SqueezeChildrenAreSame(c.rest, false);
    }
  }

  /** Compacting a value gives the same tree without white space. */
  lemma CompactIsSame(s: bytes, v: Value) returns (compact: Value)
    requires Good(v) && Print(v) == s
    ensures Good(compact) && Print(compact) == Compact(s) && SameTree(v, compact) && IsSqueezed(compact)
  {
    compact := Squeeze(v);
    CompactValue(v, []);
    SqueezeIsGood(v);
    SqueezeIsSame(v);
    assert s + [] == s && Print(compact) + [] == Print(compact);
  }
}
