/** What the builders leave alone, and the one layout on which they fail. */
module Preservation {
  import opened Bytes
  import opened Grammar
  import opened Library
  import opened Editor
  import opened Edits
  import opened EditLaws
  import opened Builders
  import opened SectionLaws
  import opened BuilderLaws

  /** `t` is `s` with members called by `names` set, added or removed: every other member keeps its place, its key
      and value bytes and its head, except for the comma in front of one that becomes the first. */
  ghost predicate Kept(j: Json, s: Object, t: Object, names: set<string>) {
    WellFormed(j, t) && t.prefix == s.prefix && t.tail == s.tail
    && SameButComma(Without(s.members, names), Without(t.members, names))
  }

  lemma {:induction false} QuoteIsNotBlank(w: bytes, r: bytes)
    requires AllSpace(w) && r != [] && r[0] == QUOTE
    ensures !IsBlank(w + r)
  {
    if w == [] {
      assert w + r == r;
    } else {
      assert (w + r)[1..] == w[1..] + r;
      QuoteIsNotBlank(w[1..], r);
    }
  }

  /** A first member has no comma to lose. */
  lemma UnleadFixed(j: Json, m: Member)
    requires MemberOk(j, m, true)
    ensures Unlead(m) == m
  {
    var lead, colon :| HeadSplits(m, lead, colon, true);
    var k := IndexByte(m.head, COMMA);
    if k < |m.head| {
      assert forall i | 0 <= i < |lead| :: m.head[i] == lead[i] && m.head[i] != COMMA;
      assert m.head[|lead|] == m.key[0] == QUOTE;
      assert m.head[..k] == lead + m.head[|lead|..k];
      QuoteIsNotBlank(lead, m.head[|lead|..k]);
    }
  }

  lemma {:induction false} WithoutElements(ms: seq<Member>, names: set<string>)
    ensures forall m | m in Without(ms, names) :: m in ms
  {
    if ms != [] {
      WithoutElements(ms[1..], names);
    }
  }

  lemma KeptTrans(j: Json, s: Object, t: Object, u: Object, names: set<string>)
    requires WellFormed(j, s) && Kept(j, s, t, names) && Kept(j, t, u, names)
    ensures Kept(j, s, u, names)
  {
    var a := Without(s.members, names);
    if a != [] {
      WithoutElements(s.members, names);
      assert a[0] in s.members;
      var i :| 0 <= i < |s.members| && s.members[i] == a[0];
      assert MemberOk(j, s.members[i], true && i == 0);
      if i == 0 {
        UnleadFixed(j, a[0]);
      } else {
        UnleadMakesFirst(j, a[0]);
        UnleadFixed(j, Unlead(a[0]));
      }
    }
  }

  lemma WithoutMore(a: seq<Member>, b: seq<Member>, names: set<string>, more: set<string>)
    requires names <= more && Without(a, names) == Without(b, names)
    ensures Without(a, more) == Without(b, more)
  {
    WithoutUnion(a, names, more);
    WithoutUnion(b, names, more);
    assert names + more == more;
  }

  lemma KeptSet(j: Json, s: Object, name: string, value: bytes, names: set<string>)
    requires WellFormed(j, s) && IsValue(value) && name in names
    ensures Kept(j, s, Set(j, s, name, value), names)
  {
    SetKeepsWellFormed(j, s, name, value);
    SetKeepsOthers(j, s, name, value);
    WithoutMore(Set(j, s, name, value).members, s.members, {name}, names);
  }

  lemma KeptDelete(j: Json, s: Object, gone: set<string>, names: set<string>)
    requires WellFormed(j, s) && gone <= names
    ensures Kept(j, s, DeleteAll(s, gone), names)
  {
    DeleteKeepsWellFormed(j, s, gone);
    DeleteKeepsOthers(s, gone, names);
  }

  lemma {:induction false} KeptManage(j: Json, s: Object, managed: seq<string>, fields: map<string, bytes>,
                                      names: set<string>)
    requires WellFormed(j, s) && FieldsOk(fields) && forall n | n in managed :: n in names
    ensures Kept(j, s, Manage(j, s, managed, fields), names)
    decreases |managed|
  {
    if managed != [] {
      var n := managed[0];
      var t := if n in fields then Set(j, s, n, fields[n]) else Delete(s, n);
      if n in fields { KeptSet(j, s, n, fields[n], names); } else { KeptDelete(j, s, {n}, names); }
      KeptManage(j, t, managed[1..], fields, names);
      KeptTrans(j, s, t, Manage(j, s, managed, fields), names);
    }
  }

  lemma {:induction false} KeptSetFields(j: Json, s: Object, extras: seq<string>, fields: map<string, bytes>,
                                         names: set<string>)
    requires WellFormed(j, s) && FieldsOk(fields) && forall n | n in extras :: n in names && n in fields
    ensures Kept(j, s, SetFields(j, s, extras, fields), names)
    decreases |extras|
  {
    if extras != [] {
      var t := Set(j, s, extras[0], fields[extras[0]]);
      KeptSet(j, s, extras[0], fields[extras[0]], names);
      KeptSetFields(j, t, extras[1..], fields, names);
      KeptTrans(j, s, t, SetFields(j, s, extras, fields), names);
    }
  }

  lemma {:induction false} KeptDeleteEach(j: Json, s: Object, gone: seq<string>, names: set<string>)
    requires WellFormed(j, s) && forall n | n in gone :: n in names
    ensures Kept(j, s, DeleteEach(s, gone), names)
    decreases |gone|
  {
    if gone != [] {
      var t := Delete(s, gone[0]);
      KeptDelete(j, s, {gone[0]}, names);
      KeptDeleteEach(j, t, gone[1..], names);
      KeptTrans(j, s, t, DeleteEach(s, gone), names);
    }
  }

  // ---- What a build owns ----

  function DocumentOwned(tool: Tool): set<string> {
    if tool == Claude then {CLAUDE_SECTION, CLAUDE_LEGACY} else {CODEX_AUTH_MODE, CODEX_TOKENS, CODEX_LAST_REFRESH}
  }

  function ClaudeSectionOwned(fields: map<string, bytes>): set<string> {
    fields.Keys + (set n | n in CLAUDE_MANAGED) + (set n | n in CLAUDE_REFRESH)
  }

  /** The section and legacy names of a tool. */
  function SectionName(tool: Tool): string {
    if tool == Claude then CLAUDE_SECTION else CODEX_TOKENS
  }

  function LegacyName(tool: Tool): string {
    if tool == Claude then CLAUDE_LEGACY else ""
  }

  const CODEX_SECTION_OWNED := CODEX_ALIASES.Keys + (set n | n in CODEX_MANAGED) + {CODEX_REFRESH}

  /** Inside the claude section a build keeps every field that is neither managed, nor a field of the credential,
      nor a refresh token. */
  lemma ClaudeSectionKept(j: Json, s: Object, fields: map<string, bytes>)
    requires WellFormed(j, s) && FieldsOk(fields)
    ensures Kept(j, s, ClaudeSection(j, s, fields), ClaudeSectionOwned(fields))
  {
    var names := ClaudeSectionOwned(fields);
    var managed := Manage(j, s, CLAUDE_MANAGED, fields);
    var set_ := SetFields(j, managed, Extras(fields), fields);
    KeptManage(j, s, CLAUDE_MANAGED, fields, names);
    KeptSetFields(j, managed, Extras(fields), fields, names);
    KeptDeleteEach(j, set_, CLAUDE_REFRESH, names);
    KeptTrans(j, s, managed, set_, names);
    KeptTrans(j, s, set_, ClaudeSection(j, s, fields), names);
  }

  lemma CodexSectionKept(j: Json, s: Object, fields: map<string, bytes>)
    requires WellFormed(j, s) && FieldsOk(fields)
    ensures Kept(j, s, CodexSection(j, s, fields), CODEX_SECTION_OWNED)
  {
    var names := CODEX_SECTION_OWNED;
    var bare := DeleteAll(s, CODEX_ALIASES.Keys);
    var managed := Manage(j, bare, CODEX_MANAGED, fields);
    KeptDelete(j, s, CODEX_ALIASES.Keys, names);
    KeptManage(j, bare, CODEX_MANAGED, fields, names);
    EmptyStringIsValue();
    KeptSet(j, managed, CODEX_REFRESH, EMPTY_STRING, names);
    KeptTrans(j, s, bare, managed, names);
    KeptTrans(j, s, managed, CodexSection(j, s, fields), names);
  }

  function SectionOwned(j: Json, tool: Tool, full: bytes): set<string> {
    if tool == Codex then CODEX_SECTION_OWNED
    else
      match ClaudeFields(j, full)
      case Err(_) => {}
      case Ok(fields) => ClaudeSectionOwned(fields)
  }

  /** `data` opens with a section that is kept from the section a build finds in `existing`, or lays out for it. */
  ghost predicate SectionKept(j: Json, tool: Tool, existing: bytes, data: bytes, names: set<string>) {
    var before := OpenDocument(j, existing, SectionName(tool), LegacyName(tool));
    var after := OpenDocument(j, data, SectionName(tool), LegacyName(tool));
    && before.Ok? && after.Ok? && after.value.base.Some? && Section(j, before.value).Some?
    && Kept(j, Section(j, before.value).value, after.value.base.value, names)
  }

  lemma ClaudeBuildKeepsSection(j: Json, existing: bytes, full: bytes)
    requires BuildClaude(j, existing, full).Ok?
    ensures SectionKept(j, Claude, existing, BuildClaude(j, existing, full).value,
                        ClaudeSectionOwned(ClaudeFields(j, full).value))
  {
    hide ClaudeSection, Parse, Values;
    var doc, s := ClaudeBuilt(j, existing, full);
    CredentialFieldsOk(j, full, CLAUDE_SECTION, CLAUDE_LEGACY, CLAUDE_ALIASES, CLAUDE_REFRESH);
    SectionIsGood(j, existing, CLAUDE_SECTION, CLAUDE_LEGACY);
    OpenPrinted(j, doc, CLAUDE_SECTION, CLAUDE_LEGACY, s);
    ClaudeSectionKept(j, Section(j, OpenDocument(j, existing, CLAUDE_SECTION, CLAUDE_LEGACY).value).value,
                      ClaudeFields(j, full).value);
  }

  lemma CodexBuildKeepsSection(j: Json, existing: bytes, full: bytes)
    requires BuildCodex(j, existing, full).Ok?
    ensures SectionKept(j, Codex, existing, BuildCodex(j, existing, full).value, CODEX_SECTION_OWNED)
  {
    hide Section, CodexSection, CodexDocument, Parse, CodexFields, Values;
    var doc, s := CodexBuilt(j, existing, full);
    OpenPrinted(j, doc, CODEX_TOKENS, "", s);
    CodexTokensKept(j, existing, full);
  }

  lemma CodexTokensKept(j: Json, existing: bytes, full: bytes)
    requires CodexFields(j, full).Ok? && OpenDocument(j, existing, CODEX_TOKENS, "").Ok?
    requires Section(j, OpenDocument(j, existing, CODEX_TOKENS, "").value).Some?
    ensures var base := Section(j, OpenDocument(j, existing, CODEX_TOKENS, "").value).value;
            Kept(j, base, CodexSection(j, base, CodexFields(j, full).value.0), CODEX_SECTION_OWNED)
  {
    CredentialFieldsOk(j, full, CODEX_TOKENS, CODEX_TOKENS, CODEX_ALIASES, [CODEX_REFRESH]);
    SectionIsGood(j, existing, CODEX_TOKENS, "");
    CodexSectionKept(j, Section(j, OpenDocument(j, existing, CODEX_TOKENS, "").value).value,
                     CodexFields(j, full).value.0);
  }

  /** Over a file with a section, every field of it that the server does not own is kept in the section of the built
      file. */
  lemma BuildKeepsSection(j: Json, tool: Tool, existing: bytes, full: bytes)
    requires BuildTarget(j, tool, existing, full).Ok?
    ensures var data := BuildTarget(j, tool, existing, full).value;
            SectionKept(j, tool, existing, data, SectionOwned(j, tool, full))
  {
    if tool == Claude {
      ClaudeBuildKeepsSection(j, existing, full);
    } else {
      CodexBuildKeepsSection(j, existing, full);
    }
  }

  /** Every top-level member the server does not own keeps its bytes when a target is built over an existing file. */
  lemma BuildKeepsUnowned(j: Json, tool: Tool, existing: bytes, full: bytes)
    requires BuildTarget(j, tool, existing, full).Ok? && !IsBlank(existing)
    ensures Parse(j, existing).Ok? && Parse(j, BuildTarget(j, tool, existing, full).value).Ok?
    ensures Kept(j, Parse(j, existing).value, Parse(j, BuildTarget(j, tool, existing, full).value).value,
                 DocumentOwned(tool))
  {
    if tool == Claude {
      ClaudeBuildKeeps(j, existing, full);
    } else {
      CodexBuildKeeps(j, existing, full);
    }
  }

  lemma ClaudeBuildKeeps(j: Json, existing: bytes, full: bytes)
    requires BuildClaude(j, existing, full).Ok? && !IsBlank(existing)
    ensures Parse(j, existing).Ok? && Parse(j, BuildClaude(j, existing, full).value).Ok?
    ensures Kept(j, Parse(j, existing).value, Parse(j, BuildClaude(j, existing, full).value).value,
                 DocumentOwned(Claude))
  {
    hide ClaudeSection, Parse;
    var names := DocumentOwned(Claude);
    var fields := ClaudeFields(j, full).value;
    var file := OpenDocument(j, existing, CLAUDE_SECTION, CLAUDE_LEGACY).value;
    var base := Section(j, file).value;
    CredentialFieldsOk(j, full, CLAUDE_SECTION, CLAUDE_LEGACY, CLAUDE_ALIASES, CLAUDE_REFRESH);
    OpenIsGood(j, existing, CLAUDE_SECTION, CLAUDE_LEGACY);
    SectionIsGood(j, existing, CLAUDE_SECTION, CLAUDE_LEGACY);
    ClaudeSectionKeeps(j, base, fields);
    var s := ClaudeSection(j, base, fields);
    TightIsValue(j, s);
    KeptSet(j, file.doc, CLAUDE_SECTION, PrintObject(s), names);
    var d := Set(j, file.doc, CLAUDE_SECTION, PrintObject(s));
    if file.hasLegacy {
      KeptDelete(j, d, {CLAUDE_LEGACY}, names);
      KeptTrans(j, file.doc, d, Delete(d, CLAUDE_LEGACY), names);
    }
    ParsePrinted(j, if file.hasLegacy then Delete(d, CLAUDE_LEGACY) else d);
  }

  lemma CodexBuildKeeps(j: Json, existing: bytes, full: bytes)
    requires BuildCodex(j, existing, full).Ok? && !IsBlank(existing)
    ensures Parse(j, existing).Ok? && Parse(j, BuildCodex(j, existing, full).value).Ok?
    ensures Kept(j, Parse(j, existing).value, Parse(j, BuildCodex(j, existing, full).value).value, DocumentOwned(Codex))
  {
    hide Section, CodexSection, Parse, Lookup, Append;
    var (fields, last) := CodexFields(j, full).value;
    var file := OpenDocument(j, existing, CODEX_TOKENS, "").value;
    var base := Section(j, file).value;
    CredentialFieldsOk(j, full, CODEX_TOKENS, CODEX_TOKENS, CODEX_ALIASES, [CODEX_REFRESH]);
    OpenIsGood(j, existing, CODEX_TOKENS, "");
    SectionIsGood(j, existing, CODEX_TOKENS, "");
    CodexSectionKeeps(j, base, fields);
    var s := CodexSection(j, base, fields);
    TightIsValue(j, s);
    LastRefreshIsValue(j, full);
    CodexDocumentKept(j, file.doc, PrintObject(s), last);
    ParsePrinted(j, CodexDocument(j, file.doc, PrintObject(s), last));
  }

  lemma CodexDocumentKept(j: Json, doc: Object, tokens: bytes, last: Option<bytes>)
    requires WellFormed(j, doc) && IsValue(tokens) && (last.Some? ==> IsValue(last.value))
    ensures Kept(j, doc, CodexDocument(j, doc, tokens, last), DocumentOwned(Codex))
  {
    var names := DocumentOwned(Codex);
    var d1 := Set(j, doc, CODEX_AUTH_MODE, CODEX_MODE_VALUE);
    var d2 := Set(j, d1, CODEX_TOKENS, tokens);
    ModeIsValue(j);
    KeptSet(j, doc, CODEX_AUTH_MODE, CODEX_MODE_VALUE, names);
    KeptSet(j, d1, CODEX_TOKENS, tokens, names);
    KeptTrans(j, doc, d1, d2, names);
    match last {
      case Some(v) => KeptSet(j, d2, CODEX_LAST_REFRESH, v, names);
      case None => KeptDelete(j, d2, {CODEX_LAST_REFRESH}, names);
    }
    KeptTrans(j, doc, d2, CodexDocument(j, doc, tokens, last), names);
  }

  // ---- The layout that breaks the builders ----

  /** The document spans several lines, and the first member that starts a line has its comma after the line break. */
  predicate IsCommaFirst(doc: Object) {
    NEWLINE in PrintObject(doc) && COMMA in MemberIndent(doc.members)
  }

  lemma {:induction false} MemberIndentBytes(j: Json, ms: seq<Member>, first: bool)
    requires MembersOk(j, ms, first)
    ensures forall k | 0 <= k < |MemberIndent(ms)| :: IsSpace(MemberIndent(ms)[k]) || MemberIndent(ms)[k] == COMMA
  {
    if ms != [] {
      assert MemberOk(j, ms[0], first);
      HeadParts(j, ms[0], first);
      LeadBytes(SplitHead(ms[0]).0, first);
      assert MembersOk(j, ms[1..], false);
      MemberIndentBytes(j, ms[1..], false);
    }
  }

  lemma SpacedObjectParses(j: Json, pad: bytes)
    requires AllSpace(pad)
    ensures Parse(j, [OPEN_BRACE] + pad + [CLOSE_BRACE]) == Ok(Object([OPEN_BRACE], [], pad + [CLOSE_BRACE]))
  {
    var o := Object([OPEN_BRACE], [], pad + [CLOSE_BRACE]);
    TailOk(pad, []);
    assert pad + [CLOSE_BRACE] + [] == pad + [CLOSE_BRACE];
    assert PrintObject(o) == [OPEN_BRACE] + pad + [CLOSE_BRACE];
    ParsePrinted(j, o);
  }

  /** A well-formed object without quotes has no members. */
  lemma NoQuoteNoMembers(j: Json, o: Object)
    requires WellFormed(j, o)
    ensures o.members == [] || QUOTE in PrintObject(o)
  {
    if o.members != [] {
      var m := o.members[0];
      assert MemberOk(j, m, true && 0 == 0);
      var lead, colon :| HeadSplits(m, lead, colon, true);
      assert m.head[|lead|] == QUOTE;
      var at := |o.prefix| + |lead|;
      assert PrintMembers(o.members)[|lead|] == QUOTE;
      assert PrintObject(o)[at] == QUOTE;
    }
  }

  /** Between the braces of an empty object there is only white space. */
  lemma EmptyObjectParses(j: Json, pad: bytes)
    requires QUOTE !in pad
    requires Parse(j, [OPEN_BRACE] + pad + [CLOSE_BRACE]).Ok?
    ensures CLOSE_BRACE !in pad ==> AllSpace(pad)
  {
    var text := [OPEN_BRACE] + pad + [CLOSE_BRACE];
    var o := Parse(j, text).value;
    ParseIsExact(j, text);
    TightFromEnds(j, o);
    NoQuoteNoMembers(j, o);
    PaddedTail(o, pad);
  }

  lemma PaddedTail(o: Object, pad: bytes)
    requires o.prefix == [OPEN_BRACE] && o.members == [] && IsTail(o.tail)
    requires PrintObject(o) == [OPEN_BRACE] + pad + [CLOSE_BRACE]
    ensures CLOSE_BRACE !in pad ==> AllSpace(pad)
  {
    assert PrintObject(o) == [OPEN_BRACE] + o.tail;
    assert o.tail == PrintObject(o)[1..] == pad + [CLOSE_BRACE];
    assert o.tail[..|o.tail| - 1] == pad;
    if CLOSE_BRACE !in pad {
      IndexByteAt(o.tail, CLOSE_BRACE, |pad|);
    }
  }

  lemma EmptyTextParses(j: Json, pad: bytes)
    requires forall k | 0 <= k < |pad| :: IsSpace(pad[k]) || pad[k] == COMMA
    ensures Parse(j, [OPEN_BRACE] + pad + [CLOSE_BRACE]).Ok? <==> COMMA !in pad
  {
    if COMMA !in pad {
      SpacedObjectParses(j, pad);
    } else if Parse(j, [OPEN_BRACE] + pad + [CLOSE_BRACE]).Ok? {
      EmptyObjectParses(j, pad);
    }
  }

  /** The program's own literal for an empty section is valid exactly when the document is not comma-first. */
  lemma EmptyObjectFails(j: Json, doc: Object)
    requires WellFormed(j, doc)
    ensures EmptyObject(j, doc) == None <==> IsCommaFirst(doc)
  {
    if NEWLINE in PrintObject(doc) {
      MemberIndentBytes(j, doc.members, true);
      EmptyTextParses(j, [NEWLINE] + MemberIndent(doc.members));
    } else {
      SpacedObjectParses(j, []);
      assert [OPEN_BRACE] + [] + [CLOSE_BRACE] == COMPACT_OBJECT;
    }
  }

  /** With a usable credential and a readable file, a build fails exactly when the file has no section yet and is
      laid out comma-first; the failure is a nil dereference. */
  lemma BuildFailsIffCommaFirst(j: Json, tool: Tool, existing: bytes, full: bytes)
    requires tool != OtherTool
    requires if tool == Claude then ClaudeFields(j, full).Ok? else CodexFields(j, full).Ok?
    requires OpenDocument(j, existing, SectionName(tool), LegacyName(tool)).Ok?
    ensures var file := OpenDocument(j, existing, SectionName(tool), LegacyName(tool)).value;
            var built := BuildTarget(j, tool, existing, full);
            && (built.Err? <==> file.base == None && IsCommaFirst(file.doc))
            && (built.Err? ==> built.error == NilObject)
  {
    OpenIsGood(j, existing, SectionName(tool), LegacyName(tool));
    EmptyObjectFails(j, OpenDocument(j, existing, SectionName(tool), LegacyName(tool)).value.doc);
  }

  // ---- The document {"a":1\n , "b":2} ----

  const COMMA_FIRST_LEAD: bytes := [NEWLINE, SPACE, COMMA, SPACE]

  function ExampleMember(j: Json, name: string, lead: bytes, value: bytes): Member {
    Member(name, lead + j.encode(name) + [COLON], j.encode(name), value)
  }

  function CommaFirstExample(j: Json): Object {
    var ms := [ExampleMember(j, "a", [], [49]), ExampleMember(j, "b", COMMA_FIRST_LEAD, [50])];
    Object([OPEN_BRACE], ms, [CLOSE_BRACE])
  }

  lemma DigitIsValue(b: byte)
    requires 49 <= b <= 57
    ensures IsValue([b])
  {
    assert IsNumberOf([b], [], [b], [], []);
    assert Good(Bare([b])) && Print(Bare([b])) == [b];
  }

  lemma ExampleMemberIsOk(j: Json, name: string, lead: bytes, value: bytes, first: bool)
    requires IsLead(lead, first) && IsValue(value)
    ensures MemberOk(j, ExampleMember(j, name, lead, value), first)
    ensures SplitHead(ExampleMember(j, name, lead, value)).0 == lead
  {
    var m := ExampleMember(j, name, lead, value);
    assert EncodeIsExact(j, name);
    assert [COLON][..0] == [] && [COLON][1..] == [];
    assert HeadSplits(m, lead, [COLON], first);
    LeadBytes(lead, first);
    IndexOfAfter(lead, m.key, [COLON]);
  }

  lemma CommaFirstExampleIsOk(j: Json)
    ensures WellFormed(j, CommaFirstExample(j))
    ensures SplitHead(CommaFirstExample(j).members[0]).0 == []
    ensures SplitHead(CommaFirstExample(j).members[1]).0 == COMMA_FIRST_LEAD
  {
    DigitIsValue(49);
    DigitIsValue(50);
    CommaFirstLeadIsLead();
    ExampleMemberIsOk(j, "a", [], [49], true);
    ExampleMemberIsOk(j, "b", COMMA_FIRST_LEAD, [50], false);
    TailOk([], []);
    assert [] + [CLOSE_BRACE] + [] == [CLOSE_BRACE];
  }

  lemma CommaFirstLeadIsLead()
    ensures IsLead(COMMA_FIRST_LEAD, false)
  {
    IndexByteAt(COMMA_FIRST_LEAD, COMMA, 2);
    assert COMMA_FIRST_LEAD[..2] == [NEWLINE, SPACE] && COMMA_FIRST_LEAD[3..] == [SPACE];
  }

  lemma CommaFirstIndent(j: Json)
    ensures IsCommaFirst(CommaFirstExample(j))
  {
    var o := CommaFirstExample(j);
    CommaFirstExampleIsOk(j);
    CommaFirstMemberIndent(o.members, o.members[0], o.members[1]);
    NewlineInside(o, o.members[0], o.members[1]);
  }

  lemma CommaFirstMemberIndent(ms: seq<Member>, first: Member, second: Member)
    requires ms == [first, second] && SplitHead(first).0 == [] && SplitHead(second).0 == COMMA_FIRST_LEAD
    ensures COMMA in MemberIndent(ms)
  {
    PastLastByteAt(COMMA_FIRST_LEAD, NEWLINE, 1);
    assert ms[1..] == [second];
    assert MemberIndent([second]) == COMMA_FIRST_LEAD[1..];
    assert COMMA_FIRST_LEAD[1..][1] == COMMA;
    assert PastLastByte([], NEWLINE) == 0;
  }

  lemma NewlineInside(o: Object, first: Member, second: Member)
    requires o.members == [first, second] && second.head != [] && second.head[0] == NEWLINE
    ensures NEWLINE in PrintObject(o)
  {
    assert o.members[1..] == [second] && [second][1..] == [];
    var before := o.prefix + (first.head + first.value);
    assert PrintMembers([second]) == second.head + second.value + PrintMembers([]);
    assert PrintMembers(o.members) == first.head + first.value + PrintMembers([second]);
    assert PrintObject(o)[|before|] == second.head[0];
  }

  lemma ExampleHasNo(j: Json, name: string)
    requires name != "a" && name != "b"
    ensures Lookup(CommaFirstExample(j), name) == None
  {
    var o := CommaFirstExample(j);
    assert o.members[0].name != name && o.members[1].name != name;
  }

  /** A file that every build fails on, whatever the credential. */
  lemma CommaFirstExampleFails(j: Json, tool: Tool, full: bytes)
    requires tool != OtherTool
    requires if tool == Claude then ClaudeFields(j, full).Ok? else CodexFields(j, full).Ok?
    ensures BuildTarget(j, tool, PrintObject(CommaFirstExample(j)), full) == Err(NilObject)
  {
    var o := CommaFirstExample(j);
    CommaFirstExampleIsOk(j);
    CommaFirstIndent(j);
    ParsePrinted(j, o);
    PrintedIsNotBlank(j, o);
    ExampleHasNo(j, SectionName(tool));
    ExampleHasNo(j, LegacyName(tool));
    ExampleOpens(j, tool, o);
    BuildFailsIffCommaFirst(j, tool, PrintObject(o), full);
  }

  lemma ExampleOpens(j: Json, tool: Tool, o: Object)
    requires Parse(j, PrintObject(o)) == Ok(o) && !IsBlank(PrintObject(o))
    requires Lookup(o, SectionName(tool)) == None && Lookup(o, LegacyName(tool)) == None
    ensures OpenDocument(j, PrintObject(o), SectionName(tool), LegacyName(tool)) == Ok(OpenFile(o, None, false))
  {
    var section, legacy := SectionName(tool), LegacyName(tool);
    assert [section][1..] == [] && [legacy][1..] == [] && [section, legacy][1..] == [legacy];
    assert FirstSection(j, o, [legacy]) == Ok(None) && FirstSection(j, o, [section]) == Ok(None);
    assert FirstSection(j, o, [section, legacy]) == Ok(None);
  }
}
