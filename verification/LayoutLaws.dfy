/** How edits lay out what they write, in terms of the white space, commas and colons around the keys. */
module LayoutLaws {
  import opened Bytes
  import opened Grammar
  import opened Library
  import opened Editor
  import opened Edits
  import opened EditLaws
  import opened Builders
  import opened Preservation

  /** A member's head splits at its key in one way. */
  lemma HeadIsSplit(m: Member, lead: bytes, colon: bytes, first: bool)
    requires HeadSplits(m, lead, colon, first) && IsString(m.key)
    ensures SplitHead(m) == (lead, colon)
  {
    LeadBytes(lead, first);
    IndexOfAfter(lead, m.key, colon);
    assert m.head[..|lead|] == lead && m.head[|lead| + |m.key|..] == colon;
  }

  /** A member appended behind others has the lead and the colon of the last one, with one comma in front when that was
      the first: it starts its own line where the last one did. */
  lemma AppendedLikeLast(j: Json, o: Object, name: string, value: bytes, lead: bytes, colon: bytes)
    requires WellFormed(j, o) && o.members != []
    requires HeadSplits(o.members[|o.members| - 1], lead, colon, |o.members| == 1)
    ensures var key := j.encode(name);
            var head := (if |o.members| == 1 then [COMMA] + lead else lead) + key + colon;
            Append(j, o, name, value) == o.(members := o.members + [Member(name, head, key, value)])
  {
    var n := |o.members|;
    assert MemberOk(j, o.members[n - 1], true && n - 1 == 0);
    HeadIsSplit(o.members[n - 1], lead, colon, n == 1);
  }

  lemma LineOf(before: bytes, pad: bytes)
    requires NEWLINE !in pad
    ensures var lead := before + ([NEWLINE] + pad);
            PastLastByte(lead, NEWLINE) == |before| + 1 <= |lead| && lead[|before| + 1..] == pad
  {
    hide PastLastByte;
    var lead := before + ([NEWLINE] + pad);
    assert lead[|before|] == NEWLINE && forall k | |before| + 1 <= k < |lead| :: lead[k] == pad[k - |before| - 1];
    PastLastByteAt(lead, NEWLINE, |before| + 1);
  }

  /** The first member of an object whose closing brace starts a line is put on a line of its own, two spaces deeper
      than that brace. */
  lemma AppendedDeeper(j: Json, o: Object, name: string, value: bytes, before: bytes, pad: bytes, after: bytes)
    requires o.members == [] && o.tail == before + ([NEWLINE] + (pad + ([CLOSE_BRACE] + after)))
    requires NEWLINE !in pad && CLOSE_BRACE !in pad && NEWLINE !in after
    ensures var key := j.encode(name);
            var head := [NEWLINE] + pad + [SPACE, SPACE] + key + [COLON, SPACE];
            Append(j, o, name, value) == o.(members := [Member(name, head, key, value)])
  {
    var closing := pad + ([CLOSE_BRACE] + after);
    LineOf(before, closing);
    IndexByteAt(closing, CLOSE_BRACE, |pad|);
    assert closing[..|pad|] == pad;
  }

  /** So is one whose closing brace is followed by line breaks; it is as deep as the text behind the last of them, even
      when the object itself is on one line. */
  lemma AppendedBehindBreak(j: Json, o: Object, name: string, value: bytes, before: bytes, pad: bytes)
    requires o.members == [] && o.tail == before + ([NEWLINE] + pad)
    requires NEWLINE !in pad && CLOSE_BRACE !in pad
    ensures var key := j.encode(name);
            var head := [NEWLINE] + pad + [SPACE, SPACE] + key + [COLON, SPACE];
            Append(j, o, name, value) == o.(members := [Member(name, head, key, value)])
  {
    LineOf(before, pad);
    assert pad[..IndexByte(pad, CLOSE_BRACE)] == pad;
  }

  /** Without a line break there is no white space at all. */
  lemma AppendedCompact(j: Json, o: Object, name: string, value: bytes)
    requires o.members == [] && NEWLINE !in o.tail
    ensures var key := j.encode(name);
            Append(j, o, name, value) == o.(members := [Member(name, key + [COLON], key, value)])
  {
    assert PastLastByte(o.tail, NEWLINE) == 0;
  }

  /** A member that is there is set in its place: the first of its name keeps its key and its head. */
  lemma SetInPlace(j: Json, o: Object, name: string, value: bytes, i: nat)
    requires i < |o.members| && o.members[i].name == name && forall k | 0 <= k < i :: o.members[k].name != name
    ensures var p := Set(j, o, name, value);
            && |p.members| > i && p.members[..i] == o.members[..i] && p.members[i] == o.members[i].(value := value)
            && forall m | m in p.members[i + 1..] :: m.name != name
  {
    assert Index(o.members, name) == i;
    var rest := o.members[i + 1..];
    var p := Set(j, o, name, value);
    assert p.members[i + 1..] == Without(rest, {name});
    WithoutNames(rest, name);
  }

  lemma {:induction false} WithoutNames(ms: seq<Member>, name: string)
    ensures forall m | m in Without(ms, {name}) :: m.name != name && m in ms
  {
    if ms != [] {
      WithoutNames(ms[1..], name);
    }
  }

  /** A member that becomes the first when those in front of it are deleted loses its comma and nothing else. */
  lemma LedLosesComma(j: Json, o: Object, names: set<string>, i: nat, pad: bytes, more: bytes, colon: bytes)
    requires WellFormed(j, o) && 0 < i < |o.members| && o.members[i].name !in names
    requires forall k | 0 <= k < i :: o.members[k].name in names
    requires HeadSplits(o.members[i], pad + [COMMA] + more, colon, false) && COMMA !in pad
    ensures var p := DeleteAll(o, names).members;
            p != [] && p[0] == o.members[i].(head := pad + more + o.members[i].key + colon)
  {
    var lead := pad + [COMMA] + more;
    IndexByteAt(lead, COMMA, |pad|);
    assert lead[..|pad|] == pad && lead[|pad| + 1..] == more;
    UnleadSplits(o.members[i], lead, colon);
    FirstLeft(o.members, names, i);
  }

  lemma {:induction false} FirstLeft(ms: seq<Member>, names: set<string>, i: nat)
    requires i < |ms| && ms[i].name !in names && forall k | 0 <= k < i :: ms[k].name in names
    ensures Without(ms, names) != [] && Without(ms, names)[0] == ms[i]
  {
    if i > 0 {
      FirstLeft(ms[1..], names, i - 1);
    }
  }

  // ---- A new section ----

  /** The member starts a line, with `pad` in front of it there. */
  ghost predicate StartsLine(m: Member, pad: bytes, first: bool) {
    exists before, colon :: HeadSplits(m, before + ([NEWLINE] + pad), colon, first) && NEWLINE !in pad
  }

  ghost predicate StaysOnLine(m: Member, first: bool) {
    exists lead, colon :: HeadSplits(m, lead, colon, first) && NEWLINE !in lead
  }

  lemma IndentOfLine(m: Member, pad: bytes, first: bool)
    requires IsString(m.key) && StartsLine(m, pad, first)
    ensures var before := SplitHead(m).0; var line := PastLastByte(before, NEWLINE); line > 0 && before[line..] == pad
  {
    hide HeadSplits, SplitHead, IsString, PastLastByte;
    var before, colon :| HeadSplits(m, before + ([NEWLINE] + pad), colon, first) && NEWLINE !in pad;
    HeadIsSplit(m, before + ([NEWLINE] + pad), colon, first);
    LineOf(before, pad);
  }

  lemma NoIndent(m: Member, first: bool)
    requires IsString(m.key) && StaysOnLine(m, first)
    ensures PastLastByte(SplitHead(m).0, NEWLINE) == 0
  {
    var lead, colon :| HeadSplits(m, lead, colon, first) && NEWLINE !in lead;
    HeadIsSplit(m, lead, colon, first);
    assert PastLastByte(lead, NEWLINE) == 0;
  }

  lemma {:induction false} IndentIsFirst(j: Json, ms: seq<Member>, first: bool, i: nat, pad: bytes)
    requires MembersOk(j, ms, first) && i <= |ms| && forall k | 0 <= k < i :: StaysOnLine(ms[k], first && k == 0)
    requires if i < |ms| then StartsLine(ms[i], pad, first && i == 0) else pad == [SPACE, SPACE]
    ensures MemberIndent(ms) == pad
  {
    hide SplitHead, PastLastByte, StartsLine, StaysOnLine;
    if ms != [] {
      assert MemberOk(j, ms[0], first && 0 == 0);
      if i == 0 {
        IndentOfLine(ms[0], pad, first);
      } else {
        NoIndent(ms[0], first);
        var rest := ms[1..];
        forall k | 0 <= k < |rest| ensures MemberOk(j, rest[k], false && k == 0) {
          assert MemberOk(j, ms[k + 1], first && k + 1 == 0);
        }
        forall k | 0 <= k < i - 1 ensures StaysOnLine(rest[k], false && k == 0) {
          assert StaysOnLine(ms[k + 1], first && k + 1 == 0);
        }
        IndentIsFirst(j, rest, false, i - 1, pad);
      }
    }
  }

  /** A section that a document of several lines lacks is laid out over two lines, its closing brace as deep as the
      first member that starts a line, two spaces when none does. */
  lemma SectionLikeMembers(j: Json, doc: Object, i: nat, pad: bytes)
    requires WellFormed(j, doc) && NEWLINE in PrintObject(doc) && AllSpace(pad)
    requires i <= |doc.members| && forall k | 0 <= k < i :: StaysOnLine(doc.members[k], true && k == 0)
    requires if i < |doc.members| then StartsLine(doc.members[i], pad, true && i == 0) else pad == [SPACE, SPACE]
    ensures EmptyObject(j, doc) == Some(Object([OPEN_BRACE], [], [NEWLINE] + pad + [CLOSE_BRACE]))
  {
    IndentIsFirst(j, doc.members, true, i, pad);
    SpacedObjectParses(j, [NEWLINE] + pad);
  }

  /** In a document of one line it is compact. */
  lemma SectionIsCompact(j: Json, doc: Object)
    requires NEWLINE !in PrintObject(doc)
    ensures EmptyObject(j, doc) == Some(Object([OPEN_BRACE], [], [CLOSE_BRACE]))
  {
    SpacedObjectParses(j, []);
    assert [OPEN_BRACE] + [] + [CLOSE_BRACE] == COMPACT_OBJECT && [] + [CLOSE_BRACE] == [CLOSE_BRACE];
  }
}
