/** How the two readers and the builders fit together. */
module ReaderLaws {
  import opened Bytes
  import opened Grammar
  import opened Library
  import opened Editor
  import opened Edits
  import opened EditLaws
  import opened Builders
  import opened SectionLaws
  import opened BuilderLaws
  import opened Readers

  // ---- The guard is at least as strict as the detector ----

  predicate Once(ms: seq<Member>, name: string) {
    |Values(ms, name)| <= 1
  }

  predicate SectionOnce(j: Json, root: Object, name: string, keys: seq<string>) {
    && Once(root.members, name)
    && (Lookup(root, name).Some? && Parse(j, Lookup(root, name).value).Ok? ==>
          forall k | k in keys :: Once(Parse(j, Lookup(root, name).value).value.members, k))
  }

  /** Of the members the readers look at, none is repeated. */
  predicate NoRepeats(j: Json, tool: Tool, data: bytes) {
    Parse(j, data).Ok? ==>
      forall n | n in GuardSections(tool) :: SectionOnce(j, Parse(j, data).value, n, GuardKeys(tool))
  }

  /** On a name that is not repeated the two readers agree. */
  lemma ReadersAgree(o: Object, name: string)
    requires Once(o.members, name)
    ensures MapValue(o.members, name) == Lookup(o, name)
  {
    LookupIsFirst(o, name);
  }

  lemma {:induction false} FirstStringFound(j: Json, ms: seq<Member>, keys: seq<string>) returns (k: nat)
    requires FirstString(j, ms, keys) != ""
    ensures k < |keys| && IsNonEmptyString(j, MapValue(ms, keys[k]))
  {
    var raw := MapValue(ms, keys[0]);
    if raw.Some? && StringOf(j, raw.value).Some? && Trim(StringOf(j, raw.value).value) != "" {
      k := 0;
    } else {
      k := FirstStringFound(j, ms, keys[1..]);
      k := k + 1;
    }
  }

  /** A refresh token the claude reader reports comes from one of the sections. */
  lemma {:induction false} RefreshFromSection(j: Json, root: seq<Member>, names: seq<string>, cred: Credential)
    returns (k: nat)
    requires cred.refresh == "" && ReadSections(j, root, names, cred).refresh != ""
    ensures k < |names| && MapValue(root, names[k]).Some? && MapOf(j, MapValue(root, names[k]).value).Some?
    ensures FirstString(j, MapOf(j, MapValue(root, names[k]).value).value, CLAUDE_REFRESH) != ""
    decreases |names|
  {
    hide ReadSections, MapValue, MapOf, FirstString;
    SectionsAreRead(j, root, names, cred);
    var tokens := RestOfSections(j, root, names, cred);
    if tokens.Some? && FirstString(j, tokens.value, CLAUDE_REFRESH) != "" {
      return 0;
    }
    var read := if tokens.Some? then ReadSection(j, tokens.value, cred) else cred;
    k := RefreshFromSection(j, root, names[1..],
                            if tokens.Some? && read.access == "" && cred.access == "" then read else cred);
    k := k + 1;
  }

  lemma SectionsAreRead(j: Json, root: seq<Member>, names: seq<string>, cred: Credential)
    requires ReadSections(j, root, names, cred) != cred
    ensures names != []
  {
  }

  /** What the claude reader does with the first of the sections. */
  lemma RestOfSections(j: Json, root: seq<Member>, names: seq<string>, cred: Credential)
    returns (tokens: Option<seq<Member>>)
    requires names != []
    ensures tokens.Some? ==> MapValue(root, names[0]).Some? && MapOf(j, MapValue(root, names[0]).value) == tokens
    ensures var read := if tokens.Some? then ReadSection(j, tokens.value, cred) else cred;
            || (tokens.Some? && read.access != "" && ReadSections(j, root, names, cred) == read)
            || ((tokens.Some? ==> read.access == "")
                && ReadSections(j, root, names, cred)
                   == ReadSections(j, root, names[1..], if tokens.Some? && cred.access == "" then read else cred))
  {
    var raw := MapValue(root, names[0]);
    tokens := if raw.Some? then MapOf(j, raw.value) else None;
  }

  lemma SectionSeen(j: Json, root: Object, name: string, keys: seq<string>)
    requires SectionOnce(j, root, name, keys) && MapValue(root.members, name).Some?
    requires MapOf(j, MapValue(root.members, name).value).Some?
    requires FirstString(j, MapOf(j, MapValue(root.members, name).value).value, keys) != ""
    ensures SectionHoldsToken(j, root, name, keys)
  {
    ReadersAgree(root, name);
    var raw := Lookup(root, name).value;
    var tokens := MapOf(j, raw).value;
    var k := FirstStringFound(j, tokens, keys);
    assert Parse(j, raw).Ok?;
    assert keys[k] in keys;
    ReadersAgree(Parse(j, raw).value, keys[k]);
  }

  /** The section a reported refresh token comes from. */
  lemma SectionOfLogin(j: Json, tool: Tool, root: seq<Member>, data: bytes) returns (n: string)
    requires MapOf(j, data) == Some(root) && HasRefreshToken(j, tool, data)
    ensures n in GuardSections(tool) && MapValue(root, n).Some? && MapOf(j, MapValue(root, n).value).Some?
    ensures FirstString(j, MapOf(j, MapValue(root, n).value).value, GuardKeys(tool)) != ""
  {
    if tool == Claude {
      var k := RefreshFromSection(j, root, CLAUDE_SECTIONS, NO_CREDENTIAL);
      n := CLAUDE_SECTIONS[k];
    } else {
      n := CODEX_TOKENS;
      FirstStringNone(j, [], GuardKeys(tool));
    }
  }

  /** Every document without repeated members that the reconciler takes for a login is one the writer refuses to
      overwrite. */
  lemma GuardIsStrictEnough(j: Json, tool: Tool, data: bytes)
    requires NoRepeats(j, tool, data) && HasRefreshToken(j, tool, data)
    ensures RefreshTokenOnDisk(j, tool, data)
  {
    var n := SectionOfLogin(j, tool, MapOf(j, data).value, data);
    assert MapOf(j, data).value != [];
    var root := Parse(j, data).value;
    ParseIsExact(j, data);
    PrintedIsNotBlank(j, root);
    SectionSeen(j, root, n, GuardKeys(tool));
  }

  /** The guard passes a document none of whose sections holds a token. */
  lemma GuardPasses(j: Json, tool: Tool, doc: Object)
    requires WellFormed(j, doc)
    requires forall n | n in GuardSections(tool) :: !SectionHoldsToken(j, doc, n, GuardKeys(tool))
    ensures !RefreshTokenOnDisk(j, tool, PrintObject(doc))
  {
    ParsePrinted(j, doc);
  }

  lemma SectionIsFree(j: Json, doc: Object, name: string, s: Object, keys: seq<string>)
    requires Values(doc.members, name) == [PrintObject(s)] && WellFormed(j, s)
    requires forall k | k in keys :: Values(s.members, k) == [] || !IsNonEmptyString(j, Some(Values(s.members, k)[0]))
    ensures !SectionHoldsToken(j, doc, name, keys)
  {
    LookupIsFirst(doc, name);
    ParsePrinted(j, s);
    forall k | k in keys ensures !IsNonEmptyString(j, Lookup(s, k)) {
      LookupIsFirst(s, k);
    }
  }

  lemma SectionIsMissing(j: Json, doc: Object, name: string, keys: seq<string>)
    requires Values(doc.members, name) == []
    ensures !SectionHoldsToken(j, doc, name, keys)
  {
    LookupIsFirst(doc, name);
  }

  // ---- Without the condition the guard can miss a login ----

  const EMPTY_OBJECT := Object([OPEN_BRACE], [], [CLOSE_BRACE])

  lemma EmptyObjectIsTight(j: Json)
    ensures WellFormed(j, EMPTY_OBJECT) && IsTight(EMPTY_OBJECT)
  {
    assert EMPTY_OBJECT.tail[..0] == [] && EMPTY_OBJECT.tail[1..] == [];
  }

  lemma EncodedIsValue(j: Json, n: string)
    ensures IsValue(j.encode(n)) && IsString(j.encode(n)) && j.decode(j.encode(n)) == n
  {
    assert EncodeIsExact(j, n);
    assert Good(Quoted(j.encode(n))) && Print(Quoted(j.encode(n))) == j.encode(n);
  }

  /** The section {"refreshToken":"","refreshToken":"x"}, which the first reader takes for empty. */
  function RepeatedSection(j: Json): Object {
    Append(j, Append(j, EMPTY_OBJECT, "refreshToken", EMPTY_STRING), "refreshToken", j.encode("x"))
  }

  function RepeatedDocument(j: Json): Object {
    Append(j, EMPTY_OBJECT, CLAUDE_SECTION, PrintObject(RepeatedSection(j)))
  }

  lemma RepeatedParses(j: Json)
    ensures Parse(j, PrintObject(RepeatedSection(j))) == Ok(RepeatedSection(j))
    ensures Parse(j, PrintObject(RepeatedDocument(j))) == Ok(RepeatedDocument(j))
    ensures WellFormed(j, RepeatedDocument(j)) && WellFormed(j, RepeatedSection(j)) && IsTight(RepeatedSection(j))
  {
    EmptyObjectIsTight(j);
    EmptyStringIsValue();
    EncodedIsValue(j, "x");
    var one := Append(j, EMPTY_OBJECT, "refreshToken", EMPTY_STRING);
    AppendKeepsWellFormed(j, EMPTY_OBJECT, "refreshToken", EMPTY_STRING);
    AppendKeepsWellFormed(j, one, "refreshToken", j.encode("x"));
    ParsePrinted(j, RepeatedSection(j));
    TightIsValue(j, RepeatedSection(j));
    AppendKeepsWellFormed(j, EMPTY_OBJECT, CLAUDE_SECTION, PrintObject(RepeatedSection(j)));
    ParsePrinted(j, RepeatedDocument(j));
  }

  lemma RepeatedValues(j: Json)
    ensures Values(RepeatedSection(j).members, "refreshToken") == [EMPTY_STRING, j.encode("x")]
    ensures forall n | n != "refreshToken" :: Values(RepeatedSection(j).members, n) == []
    ensures Values(RepeatedDocument(j).members, CLAUDE_SECTION) == [PrintObject(RepeatedSection(j))]
    ensures Values(RepeatedDocument(j).members, CLAUDE_LEGACY) == []
  {
    var one := Append(j, EMPTY_OBJECT, "refreshToken", EMPTY_STRING);
    forall n
      ensures Values(RepeatedSection(j).members, n) == if n == "refreshToken" then [EMPTY_STRING, j.encode("x")] else []
    {
      ValuesAppend(j, EMPTY_OBJECT, "refreshToken", EMPTY_STRING, n);
      ValuesAppend(j, one, "refreshToken", j.encode("x"), n);
    }
    ValuesAppend(j, EMPTY_OBJECT, CLAUDE_SECTION, PrintObject(RepeatedSection(j)), CLAUDE_SECTION);
    ValuesAppend(j, EMPTY_OBJECT, CLAUDE_SECTION, PrintObject(RepeatedSection(j)), CLAUDE_LEGACY);
  }

  lemma EmptyDecodes(j: Json)
    ensures StringOf(j, EMPTY_STRING) == Some("") && !IsNonEmptyString(j, Some(EMPTY_STRING))
  {
    EmptyStringIsValue();
    assert IsPlain("") && EncodeIsExact(j, "") && j.encode("") == [QUOTE] + Ascii("") + [QUOTE];
    assert Ascii("") == [] && j.encode("") == EMPTY_STRING;
  }

  lemma RepeatedSectionReads(j: Json)
    ensures FirstString(j, RepeatedSection(j).members, CLAUDE_REFRESH) == "x"
    ensures FirstString(j, RepeatedSection(j).members, CLAUDE_ACCESS_KEYS) == ""
  {
    RepeatedValues(j);
    EncodedIsValue(j, "x");
    assert MapValue(RepeatedSection(j).members, CLAUDE_REFRESH[0]) == Some(j.encode("x"));
    assert TrimLeft("x") == "x" && TrimRight("x") == "x";
    FirstStringNone(j, RepeatedSection(j).members, CLAUDE_ACCESS_KEYS);
  }

  lemma RepeatedIsALogin(j: Json)
    ensures HasRefreshToken(j, Claude, PrintObject(RepeatedDocument(j)))
  {
    RepeatedParses(j);
    RepeatedValues(j);
    RepeatedSectionReads(j);
    var s := RepeatedSection(j);
    ReadsOnlySection(j, RepeatedDocument(j), s);
  }

  /** A login with a repeated refresh token: the detector sees it, the writer's guard does not. */
  lemma GuardMissesRepeated(j: Json)
    ensures var data := PrintObject(RepeatedDocument(j));
            HasRefreshToken(j, Claude, data) && !RefreshTokenOnDisk(j, Claude, data)
  {
    hide Parse, Lookup, Values, WellFormed, ParseCodex, ReadSections, Append;
    RepeatedIsALogin(j);
    RepeatedParses(j);
    RepeatedValues(j);
    EmptyDecodes(j);
    SectionIsFree(j, RepeatedDocument(j), CLAUDE_SECTION, RepeatedSection(j), CLAUDE_REFRESH);
    SectionIsMissing(j, RepeatedDocument(j), CLAUDE_LEGACY, CLAUDE_REFRESH);
    GuardPasses(j, Claude, RepeatedDocument(j));
  }

  // ---- No built target holds a refresh token ----

  function Text(j: Json, raw: bytes): string {
    match StringOf(j, raw)
    case None => ""
    case Some(s) => Trim(s)
  }

  lemma ReadOne(j: Json, ms: seq<Member>, a: string, b: string)
    ensures FirstString(j, ms, [a, b])
         == var x := MapValue(ms, a);
            if x.Some? && Text(j, x.value) != "" then Text(j, x.value)
            else var y := MapValue(ms, b); if y.Some? then Text(j, y.value) else ""
  {
    assert [a, b][1..] == [b] && [b][1..] == [];
    assert FirstString(j, ms, [b]) == (var y := MapValue(ms, b); if y.Some? then Text(j, y.value) else "");
  }

  lemma {:induction false} FirstStringNone(j: Json, ms: seq<Member>, keys: seq<string>)
    requires forall k | k in keys :: forall v | v in Values(ms, k) :: !IsNonEmptyString(j, Some(v))
    ensures FirstString(j, ms, keys) == ""
  {
    if keys != [] {
      var raw := MapValue(ms, keys[0]);
      assert raw.Some? ==> raw.value in Values(ms, keys[0]);
      FirstStringNone(j, ms, keys[1..]);
    }
  }

  /** A document whose sections hold no usable refresh token under either reader. */
  ghost predicate TokenFree(j: Json, tool: Tool, data: bytes) {
    !HasRefreshToken(j, tool, data) && !RefreshTokenOnDisk(j, tool, data)
  }

  lemma BuiltHoldsNoRefreshToken(j: Json, tool: Tool, existing: bytes, full: bytes)
    requires BuildTarget(j, tool, existing, full).Ok?
    ensures TokenFree(j, tool, BuildTarget(j, tool, existing, full).value)
  {
    if tool == Claude {
      var doc, s := ClaudeBuilt(j, existing, full);
      ClaudeBuiltIsTokenFree(j, doc, s, ClaudeFields(j, full).value);
    } else {
      var doc, s := CodexBuilt(j, existing, full);
      CodexBuiltIsTokenFree(j, doc, s, CodexFields(j, full).value.0);
    }
  }

  lemma FirstSectionReads(j: Json, root: seq<Member>, a: string, b: string, raw: bytes, tokens: seq<Member>)
    requires MapValue(root, a) == Some(raw) && MapOf(j, raw) == Some(tokens) && MapValue(root, b) == None
    ensures ReadSections(j, root, [a, b], NO_CREDENTIAL) == ReadSection(j, tokens, NO_CREDENTIAL)
  {
    var read := ReadSection(j, tokens, NO_CREDENTIAL);
    assert [a, b][1..] == [b] && [b][1..] == [];
    assert ReadSections(j, root, [b], read) == read;
  }

  lemma SecondSectionReads(j: Json, root: seq<Member>, a: string, b: string, raw: bytes, tokens: seq<Member>)
    requires MapValue(root, a) == None && MapValue(root, b) == Some(raw) && MapOf(j, raw) == Some(tokens)
    ensures ReadSections(j, root, [a, b], NO_CREDENTIAL) == ReadSection(j, tokens, NO_CREDENTIAL)
  {
    var read := ReadSection(j, tokens, NO_CREDENTIAL);
    assert [a, b][1..] == [b] && [b][1..] == [];
    assert ReadSections(j, root, [], read) == read;
    assert ReadSections(j, root, [b], NO_CREDENTIAL) == read;
  }

  /** What the claude reader makes of a document with one login section under either name. */
  lemma ReadsOnlySection(j: Json, doc: Object, s: Object)
    requires WellFormed(j, doc) && WellFormed(j, s)
    requires (Values(doc.members, CLAUDE_SECTION) == [PrintObject(s)] && Values(doc.members, CLAUDE_LEGACY) == [])
          || (Values(doc.members, CLAUDE_LEGACY) == [PrintObject(s)] && Values(doc.members, CLAUDE_SECTION) == [])
    ensures ParseClaude(j, PrintObject(doc)) == Some(ReadSection(j, s.members, NO_CREDENTIAL))
  {
    ParsePrinted(j, doc);
    ParsePrinted(j, s);
    if Values(doc.members, CLAUDE_LEGACY) == [] {
      FirstSectionReads(j, doc.members, CLAUDE_SECTION, CLAUDE_LEGACY, PrintObject(s), s.members);
    } else {
      SecondSectionReads(j, doc.members, CLAUDE_SECTION, CLAUDE_LEGACY, PrintObject(s), s.members);
    }
  }

  lemma ClaudeBuiltIsTokenFree(j: Json, doc: Object, s: Object, fields: map<string, bytes>)
    requires ClaudeHolds(j, PrintObject(doc), fields, doc, s)
    ensures TokenFree(j, Claude, PrintObject(doc))
  {
    hide Parse, Lookup, Values, WellFormed, ParseCodex, FirstString;
    ReadsOnlySection(j, doc, s);
    SettledValues(s, fields);
    FirstStringNone(j, s.members, CLAUDE_REFRESH);
    SectionIsFree(j, doc, CLAUDE_SECTION, s, CLAUDE_REFRESH);
    SectionIsMissing(j, doc, CLAUDE_LEGACY, CLAUDE_REFRESH);
    GuardPasses(j, Claude, doc);
  }

  lemma ReadsHeldTokens(j: Json, doc: Object, s: Object)
    requires Holds(j, PrintObject(doc), doc, CODEX_TOKENS, s)
    ensures ParseCodex(j, PrintObject(doc)) == Some(ReadTokens(j, s.members))
  {
    ParsePrinted(j, doc);
    ParsePrinted(j, s);
  }

  lemma CodexReadsNoRefresh(j: Json, s: Object, fields: map<string, bytes>)
    requires CodexSettled(s, fields)
    ensures Values(s.members, "refresh_token") == [EMPTY_STRING] && Values(s.members, "refreshToken") == []
    ensures FirstString(j, s.members, ["refresh_token", "refreshToken"]) == ""
  {
    assert "refreshToken" in CODEX_ALIASES && "refreshToken" !in CODEX_MANAGED;
    assert CodexName(s, fields, CODEX_REFRESH) && CodexName(s, fields, "refreshToken");
    EmptyDecodes(j);
    ReadOne(j, s.members, "refresh_token", "refreshToken");
  }

  lemma CodexBuiltIsTokenFree(j: Json, doc: Object, s: Object, fields: map<string, bytes>)
    requires Holds(j, PrintObject(doc), doc, CODEX_TOKENS, s) && CodexSettled(s, fields)
    ensures TokenFree(j, Codex, PrintObject(doc))
  {
    hide Parse, Values, WellFormed, ParseClaude, ParseCodex, FirstString;
    ReadsHeldTokens(j, doc, s);
    CodexReadsNoRefresh(j, s, fields);
    EmptyDecodes(j);
    SectionIsFree(j, doc, CODEX_TOKENS, s, GuardKeys(Codex));
    GuardPasses(j, Codex, doc);
  }
}
