/** The lossless object editor as functions on values: splitting a document into members, printing it back,
    and the edits. JsonObject in Document.dfy is the object that performs these edits in place. */
module Editor {
  import opened Bytes
  import opened Grammar
  import opened Scanner
  import opened Library

  /** One `"key": value` pair with the bytes that introduce it. */
  datatype Member = Member(name: string, head: bytes, key: bytes, value: bytes)

  datatype Object = Object(prefix: bytes, members: seq<Member>, tail: bytes)

  datatype ParseError = InvalidJson | NotObject
  datatype Result<+T, +E> = Ok(value: T) | Err(error: E)

  function PrintMembers(ms: seq<Member>): bytes {
    if ms == [] then [] else ms[0].head + ms[0].value + PrintMembers(ms[1..])
  }

  function PrintObject(o: Object): bytes {
    o.prefix + PrintMembers(o.members) + o.tail
  }

  // ---- Well-formed objects ----

  ghost predicate HeadSplits(m: Member, lead: bytes, colon: bytes, first: bool) {
    IsLead(lead, first) && IsColon(colon) && m.head == lead + m.key + colon
  }

  ghost predicate MemberOk(j: Json, m: Member, first: bool) {
    IsString(m.key) && m.name == j.decode(m.key) && IsValue(m.value)
    && exists lead, colon :: HeadSplits(m, lead, colon, first)
  }

  ghost predicate MembersOk(j: Json, ms: seq<Member>, first: bool) {
    forall i | 0 <= i < |ms| :: MemberOk(j, ms[i], first && i == 0)
  }

  predicate IsPrefix(s: bytes) {
    s != [] && s[|s| - 1] == OPEN_BRACE && AllSpace(s[..|s| - 1])
  }

  predicate IsTail(s: bytes) {
    var i := IndexByte(s, CLOSE_BRACE);
    i < |s| && AllSpace(s[..i]) && AllSpace(s[i + 1..])
  }

  /** An object as parsing leaves it: exactly the pieces of a valid document. */
  ghost predicate WellFormed(j: Json, o: Object) {
    IsPrefix(o.prefix) && MembersOk(j, o.members, true) && IsTail(o.tail)
  }

  // ---- Parsing ----

  /** Past the comma and white space in front of a key. */
  function AfterLead(s: bytes): (r: bytes)
    ensures |r| <= |s|
  {
    var t := SkipSpace(s);
    if t != [] && t[0] == COMMA then SkipSpace(t[1..]) else t
  }

  /** Past the colon and the white space around it. */
  function AfterColon(s: bytes): (r: bytes)
    ensures |r| <= |s|
  {
    var t := SkipSpace(s);
    if t == [] then t else SkipSpace(t[1..])
  }

  /** One round of the member loop: the closing brace, or one member and the bytes after its value. Stuck stands
      for an index panic. */
  datatype Round = Stuck | Closed | Read(member: Member, rest: bytes)

  function SplitMember(j: Json, s: bytes): (r: Round)
    ensures r.Read? ==> |r.rest| < |s|
  {
    var space := SkipSpace(s);
    if space == [] then Stuck
    else if space[0] == CLOSE_BRACE then Closed
    else
      var s2 := AfterLead(s);
      if s2 == [] then Stuck else
      match AfterString(s2[1..])
      case None => Stuck
      case Some(s3) =>
        var s5 := AfterColon(s3);
        match AfterValue(s5)
        case None => Stuck
        case Some(s6) =>
          var key := s2[..|s2| - |s3|];
          Read(Member(j.decode(key), s[..|s| - |s5|], key, s5[..|s5| - |s6|]), s6)
  }

  /** The member loop, from the bytes after the opening brace or after a value. */
  function SplitMembers(j: Json, s: bytes): Option<(seq<Member>, bytes)>
    decreases |s|
  {
    match SplitMember(j, s)
    case Stuck => None
    case Closed => Some(([], s))
    case Read(m, rest) =>
      match SplitMembers(j, rest)
      case None => None
      case Some((more, tail)) => Some(([m] + more, tail))
  }

  function Parse(j: Json, data: bytes): Result<Object, ParseError> {
    if !j.valid(data) then Err(InvalidJson) else
    var s := SkipSpace(data);
    if s == [] || s[0] != OPEN_BRACE then Err(NotObject) else
    match SplitMembers(j, s[1..])
    case None => Err(InvalidJson)  // does not happen: see ParseIsExact
    case Some((members, tail)) => Ok(Object(data[..|data| - |s| + 1], members, tail))
  }

  // ---- Parsing undoes printing ----

  lemma LeadSplits(lead: bytes, first: bool, s2: bytes)
    requires IsLead(lead, first)
    requires s2 != [] && s2[0] == QUOTE
    ensures SkipSpace(lead + s2) != [] && SkipSpace(lead + s2)[0] != CLOSE_BRACE
    ensures AfterLead(lead + s2) == s2
  {
    if first {
      SkipSpaceOver(lead, s2);
    } else {
      var i := IndexByte(lead, COMMA);
      var t := [COMMA] + (lead[i + 1..] + s2);
      assert lead + s2 == lead[..i] + t;
      SkipSpaceOver(lead[..i], t);
      assert t[1..] == lead[i + 1..] + s2;
      SkipSpaceOver(lead[i + 1..], s2);
    }
  }

  lemma ColonSplits(colon: bytes, s5: bytes)
    requires IsColon(colon)
    requires s5 != [] && !IsSpace(s5[0])
    ensures AfterColon(colon + s5) == s5
  {
    var i := IndexByte(colon, COLON);
    var t := [COLON] + (colon[i + 1..] + s5);
    assert colon + s5 == colon[..i] + t;
    SkipSpaceOver(colon[..i], t);
    assert t[1..] == colon[i + 1..] + s5;
    SkipSpaceOver(colon[i + 1..], s5);
  }

  lemma RoundReads(j: Json, lead: bytes, key: bytes, colon: bytes, value: bytes, rest: bytes,
                   s: bytes, s2: bytes, s3: bytes, s5: bytes)
    requires s == lead + s2 && s2 == key + s3 && s3 == colon + s5 && s5 == value + rest
    requires SkipSpace(s) != [] && SkipSpace(s)[0] != CLOSE_BRACE && AfterLead(s) == s2 != []
    requires AfterString(s2[1..]) == Some(s3) && AfterColon(s3) == s5 && AfterValue(s5) == Some(rest)
    ensures SplitMember(j, s) == Read(Member(j.decode(key), lead + key + colon, key, value), rest)
  {
    hide SkipSpace, AfterLead, AfterString, AfterColon, AfterValue;
    assert s2[..|s2| - |s3|] == key;
    assert s5[..|s5| - |rest|] == value;
    assert s[..|s| - |s5|] == lead + key + colon;
  }

  lemma MemberSplits(j: Json, m: Member, first: bool, rest: bytes)
    requires MemberOk(j, m, first)
    requires rest != [] && IsDelimiter(rest[0])
    ensures SplitMember(j, m.head + m.value + rest) == Read(m, rest)
  {
    var lead, colon :| HeadSplits(m, lead, colon, first);
    PartsSplit(j, lead, first, m.key, colon, m.value, rest);
    Reassociate(lead, m.key, colon, m.value, rest);
  }

  lemma PartsSplit(j: Json, lead: bytes, first: bool, key: bytes, colon: bytes, value: bytes, rest: bytes)
    requires IsLead(lead, first) && IsString(key) && IsColon(colon) && IsValue(value)
    requires rest != [] && IsDelimiter(rest[0])
    ensures SplitMember(j, lead + (key + (colon + (value + rest))))
         == Read(Member(j.decode(key), lead + key + colon, key, value), rest)
  {
    var s5 := value + rest;
    var s3 := colon + s5;
    QuotedEnds(key, s3);
    LeadSplits(lead, first, key + s3);
    assert s5 != [] && !IsSpace(s5[0]) by { ValueStart(value); }
    ColonSplits(colon, s5);
    ScannerAgreesWithGrammar(value, rest);
    RoundReads(j, lead, key, colon, value, rest, lead + (key + s3), key + s3, s3, s5);
  }

  /** What follows a value in a well-formed object is a delimiter. */
  lemma AfterMember(j: Json, ms: seq<Member>, tail: bytes)
    requires MembersOk(j, ms, false) && IsTail(tail)
    ensures PrintMembers(ms) + tail != [] && IsDelimiter((PrintMembers(ms) + tail)[0])
  {
    var i := IndexByte(tail, CLOSE_BRACE);
    if ms == [] {
      if i > 0 { assert tail[0] == tail[..i][0]; }
    } else {
      assert MemberOk(j, ms[0], false);
      var lead, colon :| HeadSplits(ms[0], lead, colon, false);
      LeadBytes(lead, false);
      assert (PrintMembers(ms) + tail)[0] == lead[0];
    }
  }

  lemma {:induction false} MembersSplit(j: Json, ms: seq<Member>, tail: bytes, first: bool)
    requires MembersOk(j, ms, first) && IsTail(tail)
    ensures SplitMembers(j, PrintMembers(ms) + tail) == Some((ms, tail))
    decreases |ms|
  {
    if ms == [] {
      assert PrintMembers(ms) + tail == tail;
      TailIsClosed(j, tail);
    } else {
      var rest := PrintMembers(ms[1..]) + tail;
      assert MemberOk(j, ms[0], first);
      assert MembersOk(j, ms[1..], false);
      AfterMember(j, ms[1..], tail);
      MembersSplit(j, ms[1..], tail, false);
      MemberSplits(j, ms[0], first, rest);
      Regroup3(ms[0].head, ms[0].value, PrintMembers(ms[1..]), tail);
      FirstAndRest(ms);
    }
  }

  lemma TailIsClosed(j: Json, tail: bytes)
    requires IsTail(tail)
    ensures SplitMember(j, tail) == Closed
  {
    var i := IndexByte(tail, CLOSE_BRACE);
    assert tail == tail[..i] + tail[i..];
    SkipSpaceOver(tail[..i], tail[i..]);
  }

  // ---- Objects and syntax trees ----

  function Pad(c: Children): bytes {
    match c
    case End(pad) => pad
    case Child(_, _, _, _, rest) => Pad(rest)
  }

  function MembersOf(j: Json, c: Children): seq<Member> {
    match c
    case End(_) => []
    case Child(lead, key, colon, value, rest) =>
      [Member(j.decode(key), lead + key + colon, key, Print(value))] + MembersOf(j, rest)
  }

  lemma {:induction false} MembersOfPrints(j: Json, c: Children)
    ensures PrintChildren(c) == PrintMembers(MembersOf(j, c)) + Pad(c)
  {
    match c {
      case End(_) =>
      case Child(lead, key, colon, value, rest) =>
        MembersOfPrints(j, rest);
        var ms := MembersOf(j, c);
        assert ms[1..] == MembersOf(j, rest);
        assert PrintMembers(ms) == lead + key + colon + Print(value) + PrintMembers(ms[1..]);
    }
  }

  lemma {:induction false} MembersOfOk(j: Json, c: Children, first: bool)
    requires GoodChildren(c, true, first)
    ensures MembersOk(j, MembersOf(j, c), first) && AllSpace(Pad(c))
  {
    match c {
      case End(_) =>
      case Child(lead, key, colon, value, rest) =>
        MembersOfOk(j, rest, false);
        var ms := MembersOf(j, c);
        assert HeadSplits(ms[0], lead, colon, first);
        assert MemberOk(j, ms[0], first);
        forall i | 1 <= i < |ms| ensures MemberOk(j, ms[i], false) {
          assert ms[i] == MembersOf(j, rest)[i - 1];
        }
    }
  }

  lemma {:induction false} ChildrenOf(j: Json, ms: seq<Member>, pad: bytes, first: bool) returns (c: Children)
    requires MembersOk(j, ms, first) && AllSpace(pad)
    ensures GoodChildren(c, true, first) && PrintChildren(c) == PrintMembers(ms) + pad
    decreases |ms|
  {
    if ms == [] {
      c := End(pad);
    } else {
      assert MemberOk(j, ms[0], first);
      assert MembersOk(j, ms[1..], false);
      var lead, colon :| HeadSplits(ms[0], lead, colon, first);
      var v :| Good(v) && Print(v) == ms[0].value;
      var rest := ChildrenOf(j, ms[1..], pad, false);
      c := Child(lead, ms[0].key, colon, v, rest);
      assert PrintChildren(c) == ms[0].head + ms[0].value + (PrintMembers(ms[1..]) + pad);
    }
  }

  /** A well-formed object prints a JSON text whose value is an object. */
  lemma ObjectIsText(j: Json, o: Object)
    requires WellFormed(j, o)
    ensures IsText(PrintObject(o))
  {
    var i := IndexByte(o.tail, CLOSE_BRACE);
    var k := |o.prefix| - 1;
    var before, pad, after := o.prefix[..k], o.tail[..i], o.tail[i + 1..];
    var c := ChildrenOf(j, o.members, pad, true);
    var v := Nest(true, c);
    TextPieces(before, PrintMembers(o.members), pad, after);
    assert o.prefix == before + [OPEN_BRACE];
    assert o.tail == pad + [CLOSE_BRACE] + after;
    assert IsTextOf(PrintObject(o), before, v, after);
  }

  lemma TextPieces(before: bytes, ms: bytes, pad: bytes, after: bytes)
    ensures before + ([OPEN_BRACE] + (ms + pad) + [CLOSE_BRACE]) + after
         == before + [OPEN_BRACE] + ms + (pad + [CLOSE_BRACE] + after)
  {
  }

  /** Printing a well-formed object and parsing it again gives exactly that object. */
  lemma ParsePrinted(j: Json, o: Object)
    requires WellFormed(j, o)
    ensures Parse(j, PrintObject(o)) == Ok(o)
  {
    assert j.valid(PrintObject(o)) by { ObjectIsText(j, o); assert ValidIsText(j, PrintObject(o)); }
    PrintedStart(o);
    MembersSplit(j, o.members, o.tail, true);
    ParseFrom(j, PrintObject(o), o.prefix, PrintMembers(o.members) + o.tail, o.members, o.tail);
  }

  lemma PrintedStart(o: Object)
    requires IsPrefix(o.prefix)
    ensures SkipSpace(PrintObject(o)) == [OPEN_BRACE] + (PrintMembers(o.members) + o.tail)
    ensures PrintObject(o) == o.prefix + (PrintMembers(o.members) + o.tail)
  {
    var k := |o.prefix| - 1;
    assert o.prefix == o.prefix[..k] + [OPEN_BRACE];
    ObjectPieces(o.prefix[..k], PrintMembers(o.members), o.tail);
    SkipSpaceOver(o.prefix[..k], [OPEN_BRACE] + (PrintMembers(o.members) + o.tail));
  }

  lemma ParseFrom(j: Json, data: bytes, prefix: bytes, s: bytes, members: seq<Member>, tail: bytes)
    requires j.valid(data) && prefix != [] && data == prefix + s && SkipSpace(data) == [OPEN_BRACE] + s
    requires SplitMembers(j, s) == Some((members, tail))
    ensures Parse(j, data) == Ok(Object(prefix, members, tail))
  {
    assert ([OPEN_BRACE] + s)[1..] == s;
    assert data[..|data| - |[OPEN_BRACE] + s| + 1] == prefix;
  }

  lemma ObjectPieces(before: bytes, ms: bytes, tail: bytes)
    ensures before + [OPEN_BRACE] + ms + tail == before + ([OPEN_BRACE] + (ms + tail))
  {
  }

  /** The two ways a text can be no object: `parseObject` reports exactly these. */
  ghost predicate IsObjectText(data: bytes) {
    exists before, c, after :: IsTextOf(data, before, Nest(true, c), after)
  }

  /** The object a syntax tree stands for. */
  function ObjectOf(j: Json, before: bytes, c: Children, after: bytes): Object {
    Object(before + [OPEN_BRACE], MembersOf(j, c), Pad(c) + [CLOSE_BRACE] + after)
  }

  lemma TailOk(pad: bytes, after: bytes)
    requires AllSpace(pad) && AllSpace(after)
    ensures IsTail(pad + [CLOSE_BRACE] + after)
  {
    var tail := pad + [CLOSE_BRACE] + after;
    var i := IndexByte(tail, CLOSE_BRACE);
    assert tail[|pad|] == CLOSE_BRACE;
    assert forall k | 0 <= k < |pad| :: tail[k] == pad[k] && IsSpace(tail[k]);
    assert tail[..i] == pad && tail[i + 1..] == after;
  }

  lemma ObjectOfTree(j: Json, data: bytes, before: bytes, c: Children, after: bytes)
    requires IsTextOf(data, before, Nest(true, c), after)
    ensures WellFormed(j, ObjectOf(j, before, c, after)) && PrintObject(ObjectOf(j, before, c, after)) == data
  {
    var o := ObjectOf(j, before, c, after);
    MembersOfOk(j, c, true);
    MembersOfPrints(j, c);
    TextPieces(before, PrintMembers(o.members), Pad(c), after);
    assert o.prefix[..|o.prefix| - 1] == before;
    TailOk(Pad(c), after);
  }

  lemma TextIsObjectOrNot(data: bytes, before: bytes, v: Value, after: bytes)
    requires IsTextOf(data, before, v, after)
    ensures if v.Nest? && v.braces then IsObjectText(data)
            else SkipSpace(data) != [] && SkipSpace(data)[0] != OPEN_BRACE
  {
    if v.Nest? && v.braces {
      assert IsTextOf(data, before, Nest(true, v.children), after);
    } else {
      if v.Bare? { BareBytes(v.text); }
      assert data == before + (Print(v) + after);
      SkipSpaceOver(before, Print(v) + after);
    }
  }

  /** Parsing is exact: it succeeds on the texts whose value is an object and no others, and what it returns is
      well formed and prints the same bytes. */
  lemma ParseIsExact(j: Json, data: bytes)
    ensures Parse(j, data).Ok? <==> IsObjectText(data)
    ensures Parse(j, data) == Err(InvalidJson) <==> !IsText(data)
    ensures Parse(j, data).Ok? ==> WellFormed(j, Parse(j, data).value) && PrintObject(Parse(j, data).value) == data
  {
    assert ValidIsText(j, data);
    if IsObjectText(data) {
      var before, c, after :| IsTextOf(data, before, Nest(true, c), after);
      ObjectOfTree(j, data, before, c, after);
      ParsePrinted(j, ObjectOf(j, before, c, after));
      assert IsText(data);
    } else if IsText(data) {
      var before, v, after :| IsTextOf(data, before, v, after);
      TextIsObjectOrNot(data, before, v, after);
    }
  }
}
