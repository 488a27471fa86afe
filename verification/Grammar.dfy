/** The grammar of section 2 to section 7 of RFC 8259, as syntax trees and the text each tree prints.

    White space is kept where the editor keeps it: the bytes between two members belong to the later one,
    and the bytes before a closing bracket belong to the bracket. */
module Grammar {
  import opened Bytes

  datatype Value =
    | Bare(text: bytes)    // a number, true, false or null
    | Quoted(text: bytes)  // a string
    | Nest(braces: bool, children: Children)

  /** The children of an array or an object. `lead` is everything before the child (with its comma unless it
      is the first); `key` and `colon` are empty in an array. */
  datatype Children =
    | End(pad: bytes)
    | Child(lead: bytes, key: bytes, colon: bytes, value: Value, rest: Children)

  function Open(braces: bool): byte {
    if braces then OPEN_BRACE else OPEN_SQUARE
  }

  function Close(braces: bool): byte {
    if braces then CLOSE_BRACE else CLOSE_SQUARE
  }

  function Print(v: Value): bytes {
    match v
    case Bare(text) => text
    case Quoted(text) => text
    case Nest(braces, children) => [Open(braces)] + PrintChildren(children) + [Close(braces)]
  }

  function PrintChildren(c: Children): bytes {
    match c
    case End(pad) => pad
    case Child(lead, key, colon, value, rest) => lead + key + colon + Print(value) + PrintChildren(rest)
  }

  // ---- Strings (section 7) ----

  predicate IsHex(b: byte) {
    48 <= b <= 57 || 65 <= b <= 70 || 97 <= b <= 102
  }

  /** `"`, `\`, `/`, `b`, `f`, `n`, `r` or `t` after a backslash. */
  predicate IsEscapee(b: byte) {
    b == 34 || b == 92 || b == 47 || b == 98 || b == 102 || b == 110 || b == 114 || b == 116
  }

  predicate IsUnescaped(b: byte) {
    b >= 0x20 && b != QUOTE && b != BACKSLASH
  }

  /** What may stand between the quotes of a string. */
  predicate IsChars(s: bytes) {
    s == []
    || (IsUnescaped(s[0]) && IsChars(s[1..]))
    || (|s| >= 2 && s[0] == BACKSLASH && IsEscapee(s[1]) && IsChars(s[2..]))
    || (|s| >= 6 && s[0] == BACKSLASH && s[1] == 117 && IsHex(s[2]) && IsHex(s[3]) && IsHex(s[4]) && IsHex(s[5])
        && IsChars(s[6..]))
  }

  predicate IsString(s: bytes) {
    |s| >= 2 && s[0] == QUOTE && s[|s| - 1] == QUOTE && IsChars(s[1..|s| - 1])
  }

  // ---- Numbers and literal names (sections 3 and 6) ----

  predicate IsDigits(s: bytes) {
    s != [] && forall k | 0 <= k < |s| :: 48 <= s[k] <= 57
  }

  predicate IsInt(s: bytes) {
    IsDigits(s) && (s[0] == 48 ==> |s| == 1)
  }

  predicate IsFraction(s: bytes) {
    s == [] || (s[0] == PERIOD && IsDigits(s[1..]))
  }

  predicate IsExponent(s: bytes) {
    s == []
    || ((s[0] == 101 || s[0] == 69)
        && (IsDigits(s[1..]) || (|s| >= 2 && (s[1] == PLUS || s[1] == MINUS) && IsDigits(s[2..]))))
  }

  predicate IsNumberOf(s: bytes, sign: bytes, int_: bytes, frac: bytes, exp: bytes) {
    (sign == [] || sign == [MINUS]) && IsInt(int_) && IsFraction(frac) && IsExponent(exp)
    && s == sign + int_ + frac + exp
  }

  ghost predicate IsNumber(s: bytes) {
    exists sign, int_, frac, exp :: IsNumberOf(s, sign, int_, frac, exp)
  }

  const NULL: bytes := [110, 117, 108, 108]
  const TRUE: bytes := [116, 114, 117, 101]
  const FALSE: bytes := [102, 97, 108, 115, 101]

  ghost predicate IsBare(s: bytes) {
    s == NULL || s == TRUE || s == FALSE || IsNumber(s)
  }

  // ---- Structure (sections 2, 4 and 5) ----

  /** What precedes a child: white space, with one comma in it unless the child is the first. */
  predicate IsLead(s: bytes, first: bool) {
    if first then AllSpace(s)
    else
      var i := IndexByte(s, COMMA);
      i < |s| && AllSpace(s[..i]) && AllSpace(s[i + 1..])
  }

  predicate IsColon(s: bytes) {
    var i := IndexByte(s, COLON);
    i < |s| && AllSpace(s[..i]) && AllSpace(s[i + 1..])
  }

  ghost predicate Good(v: Value) {
    match v
    case Bare(text) => IsBare(text)
    case Quoted(text) => IsString(text)
    case Nest(braces, children) => GoodChildren(children, braces, true)
  }

  ghost predicate GoodChildren(c: Children, braces: bool, first: bool) {
    match c
    case End(pad) => AllSpace(pad)
    case Child(lead, key, colon, value, rest) =>
      IsLead(lead, first)
      && (if braces then IsString(key) && IsColon(colon) else key == [] && colon == [])
      && Good(value)
      && GoodChildren(rest, braces, false)
  }

  /** `s` is exactly one JSON value, with no white space around it. */
  ghost predicate IsValue(s: bytes) {
    exists v :: Good(v) && Print(v) == s
  }

  ghost predicate IsTextOf(s: bytes, before: bytes, v: Value, after: bytes) {
    AllSpace(before) && Good(v) && AllSpace(after) && s == before + Print(v) + after
  }

  /** `s` is a JSON text: one value with white space around it. */
  ghost predicate IsText(s: bytes) {
    exists before, v, after :: IsTextOf(s, before, v, after)
  }

  // ---- Facts about the bytes each token may hold ----

  /** Not a quote, a bracket or a brace: a byte the bracket counter walks over. */
  predicate IsInert(b: byte) {
    b != QUOTE && b != OPEN_BRACE && b != CLOSE_BRACE && b != OPEN_SQUARE && b != CLOSE_SQUARE
  }

  predicate AllInert(s: bytes) {
    forall k | 0 <= k < |s| :: IsInert(s[k])
  }

  predicate IsDelimiter(b: byte) {
    b == COMMA || b == CLOSE_BRACE || b == CLOSE_SQUARE || IsSpace(b)
  }

  predicate IsNumberByte(b: byte) {
    b == PLUS || b == MINUS || b == PERIOD || 48 <= b <= 57 || b == 101 || b == 69
  }

  predicate AllNumberBytes(s: bytes) {
    forall k | 0 <= k < |s| :: IsNumberByte(s[k])
  }

  lemma NumberTailBytes(s: bytes)
    requires IsDigits(s) || IsFraction(s) || IsExponent(s)
    ensures AllNumberBytes(s)
  {
    forall k | 0 <= k < |s| ensures IsNumberByte(s[k]) {
      if k >= 1 { assert s[k] == s[1..][k - 1]; }
      if k >= 2 { assert s[k] == s[2..][k - 2]; }
    }
  }

  lemma NumberBytes(s: bytes)
    requires IsNumber(s)
    ensures s != [] && AllNumberBytes(s)
  {
    var sign, int_, frac, exp :| IsNumberOf(s, sign, int_, frac, exp);
    NumberTailBytes(int_);
    NumberTailBytes(frac);
    NumberTailBytes(exp);
    assert AllNumberBytes(sign + int_);
    assert AllNumberBytes(sign + int_ + frac);
  }

  lemma BareBytes(s: bytes)
    requires IsBare(s)
    ensures s != [] && AllInert(s)
    ensures forall k | 0 <= k < |s| :: !IsDelimiter(s[k])
  {
    if IsNumber(s) {
      NumberBytes(s);
    }
  }

  lemma LeadBytes(s: bytes, first: bool)
    requires IsLead(s, first)
    ensures forall k | 0 <= k < |s| :: IsSpace(s[k]) || s[k] == COMMA
  {
    if !first {
      var i := IndexByte(s, COMMA);
      forall k | 0 <= k < |s| ensures IsSpace(s[k]) || s[k] == COMMA {
        if k < i { assert s[k] == s[..i][k]; }
        if k > i { assert s[k] == s[i + 1..][k - i - 1]; }
      }
    }
  }

  lemma ColonBytes(s: bytes)
    requires IsColon(s)
    ensures forall k | 0 <= k < |s| :: IsSpace(s[k]) || s[k] == COLON
  {
    var i := IndexByte(s, COLON);
    forall k | 0 <= k < |s| ensures IsSpace(s[k]) || s[k] == COLON {
      if k < i { assert s[k] == s[..i][k]; }
      if k > i { assert s[k] == s[i + 1..][k - i - 1]; }
    }
  }

  /** A value is not empty and starts with neither white space nor a closing bracket, comma or colon. */
  lemma ValueStart(s: bytes)
    requires IsValue(s)
    ensures s != [] && !IsDelimiter(s[0])
  {
    var v :| Good(v) && Print(v) == s;
    if v.Bare? {
      BareBytes(s);
    }
  }
}
