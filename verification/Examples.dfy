/** Usable credentials of both tools, as witnesses that the conditions of the laws can be met together. */
module Examples {
  import opened Bytes
  import opened Grammar
  import opened Library
  import opened Editor
  import opened Edits
  import opened EditLaws
  import opened Builders
  import opened BuilderLaws
  import opened Preservation
  import opened Readers
  import opened ReaderLaws
  import opened ReadBack
  import opened Writing

  /** {"access_token":"a","refresh_token":"r","account_id":"c"} */
  function ExampleTokens(j: Json): Object {
    var access := Append(j, EMPTY_OBJECT, "access_token", j.encode("a"));
    Append(j, Append(j, access, "refresh_token", j.encode("r")), "account_id", j.encode("c"))
  }

  /** {"tokens":…} around them */
  function ExampleCredential(j: Json): Object {
    Append(j, EMPTY_OBJECT, CODEX_TOKENS, PrintObject(ExampleTokens(j)))
  }

  lemma TokensAreOk(j: Json)
    ensures WellFormed(j, ExampleTokens(j)) && IsTight(ExampleTokens(j))
  {
    EmptyObjectIsTight(j);
    var access := Append(j, EMPTY_OBJECT, "access_token", j.encode("a"));
    var refresh := Append(j, access, "refresh_token", j.encode("r"));
    EncodedIsValue(j, "a");
    EncodedIsValue(j, "r");
    EncodedIsValue(j, "c");
    AppendKeepsWellFormed(j, EMPTY_OBJECT, "access_token", j.encode("a"));
    AppendKeepsWellFormed(j, access, "refresh_token", j.encode("r"));
    AppendKeepsWellFormed(j, refresh, "account_id", j.encode("c"));
  }

  lemma TokenValues(j: Json, n: string)
    ensures Values(ExampleTokens(j).members, n)
         == if n == "access_token" then [j.encode("a")] else if n == "refresh_token" then [j.encode("r")]
            else if n == "account_id" then [j.encode("c")] else []
  {
    var access := Append(j, EMPTY_OBJECT, "access_token", j.encode("a"));
    var refresh := Append(j, access, "refresh_token", j.encode("r"));
    ValuesAppend(j, EMPTY_OBJECT, "access_token", j.encode("a"), n);
    ValuesAppend(j, access, "refresh_token", j.encode("r"), n);
    ValuesAppend(j, refresh, "account_id", j.encode("c"), n);
  }

  lemma CredentialIsOk(j: Json)
    ensures Parse(j, PrintObject(ExampleCredential(j))) == Ok(ExampleCredential(j))
    ensures Values(ExampleCredential(j).members, CODEX_TOKENS) == [PrintObject(ExampleTokens(j))]
    ensures CredentialSection(j, PrintObject(ExampleCredential(j)), CODEX_TOKENS, CODEX_TOKENS) == Ok(ExampleTokens(j))
  {
    TokensAreOk(j);
    TightIsValue(j, ExampleTokens(j));
    EmptyObjectIsTight(j);
    AppendKeepsWellFormed(j, EMPTY_OBJECT, CODEX_TOKENS, PrintObject(ExampleTokens(j)));
    ParsePrinted(j, ExampleTokens(j));
    ParsePrinted(j, ExampleCredential(j));
    ValuesAppend(j, EMPTY_OBJECT, CODEX_TOKENS, PrintObject(ExampleTokens(j)), CODEX_TOKENS);
    LookupIsFirst(ExampleCredential(j), CODEX_TOKENS);
  }

  lemma OneLetter(j: Json, c: char)
    requires !IsWhite(c)
    ensures StringOf(j, j.encode([c])) == Some([c]) && Text(j, j.encode([c])) == [c]
  {
    EncodedIsValue(j, [c]);
    assert TrimLeft([c]) == [c] && TrimRight([c]) == [c];
  }

  lemma TokensSpelledOnce(j: Json)
    ensures CodexSpelledOnce(ExampleTokens(j).members)
  {
    TokenFields(j);
    TokenValues(j, "id_token");
    TokenValues(j, "idToken");
    SpelledOnceIn(ExampleTokens(j).members);
  }

  lemma SpelledOnceIn(ms: seq<Member>)
    requires |Values(ms, "access_token")| == |Values(ms, "refresh_token")| == |Values(ms, "account_id")| == 1
    requires Values(ms, "accessToken") == Values(ms, "refreshToken") == Values(ms, "accountId") == []
    requires Values(ms, "id_token") == Values(ms, "idToken") == []
    ensures CodexSpelledOnce(ms)
  {
  }

  /** The example is a full credential with one spelling per field, with the tokens and the account it spells. */
  lemma ExampleIsFull(j: Json)
    ensures var full := PrintObject(ExampleCredential(j));
            && OneSpelling(j, Codex, full) && ParseFull(j, Codex, full).Some?
            && ParseFull(j, Codex, full).value.access == "a" && ParseFull(j, Codex, full).value.refresh == "r"
            && ParseFull(j, Codex, full).value.account == "c"
  {
    CredentialIsOk(j);
    TokensSpelledOnce(j);
    TokensRead(j);
    CredentialReads(j, PrintObject(ExampleCredential(j)), ExampleCredential(j), ExampleTokens(j));
  }

  /** What the map-based reader finds among the tokens. */
  lemma TokensRead(j: Json)
    ensures FirstString(j, ExampleTokens(j).members, ["access_token", "accessToken"]) == "a"
    ensures FirstString(j, ExampleTokens(j).members, ["refresh_token", "refreshToken"]) == "r"
    ensures FirstString(j, ExampleTokens(j).members, ["account_id", "accountId"]) == "c"
  {
    TokenFields(j);
    TokenTexts(j, ExampleTokens(j).members);
  }

  lemma TokenTexts(j: Json, ms: seq<Member>)
    requires Values(ms, "access_token") == [j.encode("a")] && Values(ms, "accessToken") == []
    requires Values(ms, "refresh_token") == [j.encode("r")] && Values(ms, "refreshToken") == []
    requires Values(ms, "account_id") == [j.encode("c")] && Values(ms, "accountId") == []
    ensures FirstString(j, ms, ["access_token", "accessToken"]) == "a"
    ensures FirstString(j, ms, ["refresh_token", "refreshToken"]) == "r"
    ensures FirstString(j, ms, ["account_id", "accountId"]) == "c"
  {
    OneLetter(j, 'a');
    OneLetter(j, 'r');
    OneLetter(j, 'c');
    ReadSpelledOnce(j, ms, "access_token", "accessToken");
    ReadSpelledOnce(j, ms, "refresh_token", "refreshToken");
    ReadSpelledOnce(j, ms, "account_id", "accountId");
  }

  lemma CredentialReads(j: Json, full: bytes, doc: Object, s: Object)
    requires Parse(j, full) == Ok(doc) && CredentialSection(j, full, CODEX_TOKENS, CODEX_TOKENS) == Ok(s)
    requires |Values(doc.members, CODEX_TOKENS)| == 1 && CodexSpelledOnce(s.members)
    ensures OneSpelling(j, Codex, full) && ParseCodex(j, full) == Some(ReadTokens(j, s.members))
  {
    CodexCredentialReads(j, full, s);
  }

  lemma TokenFields(j: Json)
    ensures Values(ExampleTokens(j).members, "access_token") == [j.encode("a")]
    ensures Values(ExampleTokens(j).members, "refresh_token") == [j.encode("r")]
    ensures Values(ExampleTokens(j).members, "account_id") == [j.encode("c")]
    ensures Values(ExampleTokens(j).members, "accessToken") == []
    ensures Values(ExampleTokens(j).members, "refreshToken") == []
    ensures Values(ExampleTokens(j).members, "accountId") == []
  {
    TokenValues(j, "access_token");
    TokenValues(j, "refresh_token");
    TokenValues(j, "account_id");
    TokenValues(j, "accessToken");
    TokenValues(j, "refreshToken");
    TokenValues(j, "accountId");
  }

  lemma ExampleHasFields(j: Json)
    ensures CodexFields(j, PrintObject(ExampleCredential(j))).Ok?
    ensures CodexRefresh(j, PrintObject(ExampleCredential(j))).Ok?
  {
    hide Parse, Append;
    CredentialIsOk(j);
    TokensSpelledOnce(j);
    TokenFields(j);
    var ms := ExampleTokens(j).members;
    forall x ensures Canonical(x, CODEX_ALIASES) == "access_token" <==> x == "access_token" || x == "accessToken" {
      CodexCanonical(x);
    }
    FieldSpelledOnce(ms, CODEX_ALIASES, [CODEX_REFRESH], "access_token", "accessToken");
    EncodedIsValue(j, "a");
    CompactReads(j, j.encode("a"));
    OneLetter(j, 'a');
    OneLetter(j, 'r');
    LookupIsFirst(ExampleTokens(j), CODEX_REFRESH);
  }

  /** From that credential a missing target can be built, in both forms. */
  lemma ExampleBuilds(j: Json)
    ensures var full := PrintObject(ExampleCredential(j));
            BuildTarget(j, Codex, [], full).Ok? && BuildFullTarget(j, Codex, [], full).Ok?
  {
    var full := PrintObject(ExampleCredential(j));
    ExampleHasFields(j);
    NewDocumentIsEmpty(j);
    NewIndent();
    BuildFailsIffCommaFirst(j, Codex, [], full);
    var doc, s := CodexBuilt(j, [], full);
    RefreshIsValue(j, Codex, full);
    FullIsBuiltAndSet(j, PrintObject(doc), doc, CODEX_TOKENS, s, CODEX_REFRESH, CodexRefresh(j, full).value);
  }

  lemma NewIndent()
    ensures COMMA !in MemberIndent([])
  {
  }

  // ---- A claude credential ----

  const ONE: bytes := [49]

  /** {"accessToken":"a","refreshToken":"r","expiresAt":1} */
  function ExampleSection(j: Json): Object {
    var access := Append(j, EMPTY_OBJECT, "accessToken", j.encode("a"));
    Append(j, Append(j, access, "refreshToken", j.encode("r")), "expiresAt", ONE)
  }

  /** {"claudeAiOauth":…} around it */
  function ExampleLogin(j: Json): Object {
    Append(j, EMPTY_OBJECT, CLAUDE_SECTION, PrintObject(ExampleSection(j)))
  }

  lemma SectionIsOk(j: Json)
    ensures WellFormed(j, ExampleSection(j)) && IsTight(ExampleSection(j))
  {
    EmptyObjectIsTight(j);
    var access := Append(j, EMPTY_OBJECT, "accessToken", j.encode("a"));
    var refresh := Append(j, access, "refreshToken", j.encode("r"));
    EncodedIsValue(j, "a");
    EncodedIsValue(j, "r");
    DigitIsValue(49);
    AppendKeepsWellFormed(j, EMPTY_OBJECT, "accessToken", j.encode("a"));
    AppendKeepsWellFormed(j, access, "refreshToken", j.encode("r"));
    AppendKeepsWellFormed(j, refresh, "expiresAt", ONE);
  }

  lemma SectionValues(j: Json, n: string)
    ensures Values(ExampleSection(j).members, n)
         == if n == "accessToken" then [j.encode("a")] else if n == "refreshToken" then [j.encode("r")]
            else if n == "expiresAt" then [ONE] else []
  {
    var access := Append(j, EMPTY_OBJECT, "accessToken", j.encode("a"));
    var refresh := Append(j, access, "refreshToken", j.encode("r"));
    ValuesAppend(j, EMPTY_OBJECT, "accessToken", j.encode("a"), n);
    ValuesAppend(j, access, "refreshToken", j.encode("r"), n);
    ValuesAppend(j, refresh, "expiresAt", ONE, n);
  }

  lemma SectionFields(j: Json)
    ensures Values(ExampleSection(j).members, "accessToken") == [j.encode("a")]
    ensures Values(ExampleSection(j).members, "refreshToken") == [j.encode("r")]
    ensures Values(ExampleSection(j).members, "expiresAt") == [ONE]
    ensures Values(ExampleSection(j).members, "access_token") == []
    ensures Values(ExampleSection(j).members, "refresh_token") == []
    ensures Values(ExampleSection(j).members, "expires_at") == []
  {
    SectionValues(j, "accessToken");
    SectionValues(j, "refreshToken");
    SectionValues(j, "expiresAt");
    SectionValues(j, "access_token");
    SectionValues(j, "refresh_token");
    SectionValues(j, "expires_at");
  }

  lemma LoginIsOk(j: Json)
    ensures Parse(j, PrintObject(ExampleLogin(j))) == Ok(ExampleLogin(j))
    ensures Values(ExampleLogin(j).members, CLAUDE_SECTION) == [PrintObject(ExampleSection(j))]
    ensures Values(ExampleLogin(j).members, CLAUDE_LEGACY) == []
    ensures CredentialSection(j, PrintObject(ExampleLogin(j)), CLAUDE_SECTION, CLAUDE_LEGACY) == Ok(ExampleSection(j))
  {
    SectionIsOk(j);
    TightIsValue(j, ExampleSection(j));
    EmptyObjectIsTight(j);
    AppendKeepsWellFormed(j, EMPTY_OBJECT, CLAUDE_SECTION, PrintObject(ExampleSection(j)));
    ParsePrinted(j, ExampleSection(j));
    ParsePrinted(j, ExampleLogin(j));
    ValuesAppend(j, EMPTY_OBJECT, CLAUDE_SECTION, PrintObject(ExampleSection(j)), CLAUDE_SECTION);
    ValuesAppend(j, EMPTY_OBJECT, CLAUDE_SECTION, PrintObject(ExampleSection(j)), CLAUDE_LEGACY);
    LookupIsFirst(ExampleLogin(j), CLAUDE_SECTION);
  }

  /** What the map-based reader finds in the section. */
  lemma SectionReads(j: Json)
    ensures FirstString(j, ExampleSection(j).members, ["accessToken", "access_token"]) == "a"
    ensures FirstString(j, ExampleSection(j).members, ["refreshToken", "refresh_token"]) == "r"
    ensures j.millis(ONE).Some?
            ==> FirstMillis(j, ExampleSection(j).members, ["expiresAt", "expires_at"]) == j.millis(ONE)
    ensures ClaudeSpelledOnce(ExampleSection(j).members)
  {
    SectionFields(j);
    FieldsRead(j, ExampleSection(j).members);
  }

  lemma FieldsRead(j: Json, ms: seq<Member>)
    requires Values(ms, "accessToken") == [j.encode("a")] && Values(ms, "access_token") == []
    requires Values(ms, "refreshToken") == [j.encode("r")] && Values(ms, "refresh_token") == []
    requires Values(ms, "expiresAt") == [ONE] && Values(ms, "expires_at") == []
    ensures FirstString(j, ms, ["accessToken", "access_token"]) == "a"
    ensures FirstString(j, ms, ["refreshToken", "refresh_token"]) == "r"
    ensures j.millis(ONE).Some? ==> FirstMillis(j, ms, ["expiresAt", "expires_at"]) == j.millis(ONE)
    ensures ClaudeSpelledOnce(ms)
  {
    OneLetter(j, 'a');
    OneLetter(j, 'r');
    ReadSpelledOnce(j, ms, "accessToken", "access_token");
    ReadSpelledOnce(j, ms, "refreshToken", "refresh_token");
    MillisSpelledOnce(j, ms, "expiresAt", "expires_at");
  }

  /** With a library that answers on the number, the example is a full credential with one spelling per field. */
  lemma LoginIsFull(j: Json)
    requires j.millis(ONE).Some?
    ensures var full := PrintObject(ExampleLogin(j));
            && OneSpelling(j, Claude, full) && ParseFull(j, Claude, full).Some?
            && ParseFull(j, Claude, full).value.access == "a" && ParseFull(j, Claude, full).value.refresh == "r"
  {
    LoginIsOk(j);
    SectionReads(j);
    LoginReads(j, PrintObject(ExampleLogin(j)), ExampleLogin(j), ExampleSection(j));
  }

  lemma LoginReads(j: Json, full: bytes, doc: Object, s: Object)
    requires Parse(j, full) == Ok(doc) && CredentialSection(j, full, CLAUDE_SECTION, CLAUDE_LEGACY) == Ok(s)
    requires |Values(doc.members, CLAUDE_SECTION)| == 1 && Values(doc.members, CLAUDE_LEGACY) == []
    requires ClaudeSpelledOnce(s.members)
    ensures OneSpelling(j, Claude, full)
    ensures ParseClaude(j, full) == Some(ReadSection(j, s.members, NO_CREDENTIAL))
  {
    ClaudeCredentialReads(j, full, s);
  }

  /** There is a library that answers on the number. */
  lemma ExampleAnswers() returns (j: Json)
    ensures j.millis(ONE).Some?
  {
    j := Example();
    assert IsDigits(ONE) && IsInt(ONE);
    assert ONE == [] + ONE + [] + [] && IsNumberOf(ONE, [], ONE, [], []);
  }

  /** Targets can be built from the example, with any library and in both forms. */
  lemma LoginBuilds(j: Json)
    ensures var full := PrintObject(ExampleLogin(j));
            && HasFields(j, Claude, full) && BuildTarget(j, Claude, [], full).Ok?
            && BuildFullTarget(j, Claude, [], full).Ok?
  {
    var full := PrintObject(ExampleLogin(j));
    LoginHasFields(j);
    NewDocumentIsEmpty(j);
    NewIndent();
    BuildOkIff(j, Claude, [], full);
    var doc, s := ClaudeBuilt(j, [], full);
    RefreshIsValue(j, Claude, full);
    FullIsBuiltAndSet(j, PrintObject(doc), doc, CLAUDE_SECTION, s, "refreshToken", ClaudeRefresh(j, full).value);
  }

  lemma LoginHasFields(j: Json)
    ensures ClaudeFields(j, PrintObject(ExampleLogin(j))).Ok?
    ensures ClaudeRefresh(j, PrintObject(ExampleLogin(j))).Ok?
  {
    hide Parse, Collect, Lookup, Values, WellFormed, Append;
    LoginIsOk(j);
    SectionIsOk(j);
    SectionReads(j);
    SectionFields(j);
    AccessField(j, ExampleSection(j));
    LookupIsFirst(ExampleSection(j), "refreshToken");
    OneLetter(j, 'r');
  }

  lemma AccessField(j: Json, s: Object)
    requires WellFormed(j, s) && ClaudeSpelledOnce(s.members)
    requires FirstString(j, s.members, ["accessToken", "access_token"]) != ""
    ensures IsNonEmptyString(j, Field(Collect(s.members, CLAUDE_ALIASES, CLAUDE_REFRESH), "accessToken"))
  {
    forall x ensures Canonical(x, CLAUDE_ALIASES) == "accessToken" <==> x == "accessToken" || x == "access_token" {
      ClaudeCanonical(x);
    }
    AccessIsText(j, s, CLAUDE_ALIASES, CLAUDE_REFRESH, "accessToken", "access_token");
  }

  // ---- Both tools ----

  function ExampleOf(j: Json, tool: Tool): bytes {
    if tool == Claude then PrintObject(ExampleLogin(j)) else PrintObject(ExampleCredential(j))
  }

  lemma ExampleOfHasFields(j: Json, tool: Tool)
    requires tool != OtherTool
    ensures HasFields(j, tool, ExampleOf(j, tool))
  {
    if tool == Claude {
      LoginHasFields(j);
    } else {
      ExampleHasFields(j);
    }
  }
}
