/** What a built target holds, name by name, in terms of the parsed texts of the existing file and the credential. */
module TargetLaws {
  import opened Bytes
  import opened Grammar
  import opened Compaction
  import opened Library
  import opened Editor
  import opened Edits
  import opened Builders
  import opened SectionLaws
  import opened BuilderLaws
  import opened Preservation
  import opened ReadBack

  // ---- Texts as members ----

  /** The members of an object text; none when it is no such text. */
  function MembersIn(j: Json, data: bytes): seq<Member> {
    match Parse(j, data)
    case Ok(o) => o.members
    case Err(_) => []
  }

  function TopOf(j: Json, data: bytes): seq<Member> {
    if IsBlank(data) then [] else MembersIn(j, data)
  }

  /** The section a build starts from: the first value of its name, or of the legacy one, that is not null. */
  function BaseOf(j: Json, data: bytes, section: string, legacy: string): seq<Member> {
    var a, b := Values(TopOf(j, data), section), Values(TopOf(j, data), legacy);
    if a != [] && a[0] != NULL then MembersIn(j, a[0])
    else if legacy != "" && b != [] && b[0] != NULL then MembersIn(j, b[0])
    else []
  }

  /** The section of a full credential: the first value of its name, else of the legacy one. */
  function CredentialOf(j: Json, full: bytes, section: string, legacy: string): seq<Member> {
    var a, b := Values(MembersIn(j, full), section), Values(MembersIn(j, full), legacy);
    if a != [] then MembersIn(j, a[0]) else if b != [] then MembersIn(j, b[0]) else []
  }

  /** The values of the members called by one of two spellings, in order. */
  function Spelled(ms: seq<Member>, a: string, b: string): seq<bytes> {
    if ms == [] then []
    else (if ms[0].name == a || ms[0].name == b then [ms[0].value] else []) + Spelled(ms[1..], a, b)
  }

  function LastOf(vs: seq<bytes>): seq<bytes> {
    if vs == [] then [] else [Compact(vs[|vs| - 1])]
  }

  // ---- What a target should hold ----

  function Snake(n: string): string {
    match n
    case "accessToken" => "access_token"
    case "expiresAt" => "expires_at"
    case "subscriptionType" => "subscription_type"
    case "rateLimitTier" => "rate_limit_tier"
    case "refreshTokenExpiresAt" => "refresh_token_expires_at"
    case _ => n
  }

  predicate IsSnake(n: string) {
    n in {"access_token", "expires_at", "subscription_type", "rate_limit_tier", "refresh_token_expires_at"}
  }

  predicate IsClaudeManaged(n: string) {
    n in {"accessToken", "expiresAt", "scopes", "subscriptionType", "rateLimitTier", "refreshTokenExpiresAt"}
  }

  /** Under a name of the claude section: no refresh token; what the credential says last in either spelling; nothing
      for a managed name it does not have; and else what was there. */
  function ClaudeValues(base: seq<Member>, cred: seq<Member>, n: string): seq<bytes> {
    var own := if IsSnake(n) then [] else Spelled(cred, n, Snake(n));
    if n == "refreshToken" || n == "refresh_token" then []
    else if own != [] then LastOf(own)
    else if IsClaudeManaged(n) then []
    else Values(base, n)
  }

  function Camel(n: string): string {
    match n
    case "id_token" => "idToken"
    case "access_token" => "accessToken"
    case "account_id" => "accountId"
    case _ => n
  }

  /** Under a name of the codex tokens: an empty refresh token; no second spellings; the id, access token and account
      that the credential says last in either spelling, or nothing; and else what was there. */
  function TokenValues(base: seq<Member>, cred: seq<Member>, n: string): seq<bytes> {
    if n == "refresh_token" then [[QUOTE, QUOTE]]
    else if n in {"idToken", "accessToken", "accountId", "refreshToken"} then []
    else if n in {"id_token", "access_token", "account_id"} then LastOf(Spelled(cred, n, Camel(n)))
    else Values(base, n)
  }

  /** Under a top-level name of a codex target other than the tokens: the mode; the credential's first last refresh, if
      it has one that is not null; and else what was there. */
  function CodexTopValues(top: seq<Member>, full: seq<Member>, n: string): seq<bytes> {
    if n == "auth_mode" then [[QUOTE] + Ascii("chatgptAuthTokens") + [QUOTE]]
    else if n == "last_refresh" then
      var vs := Values(full, n);
      if vs == [] || vs[0] == NULL then [] else [Compact(vs[0])]
    else Values(top, n)
  }

  // ---- Opening and reading ----

  lemma EmptyIsEmpty(j: Json, doc: Object)
    requires WellFormed(j, doc) && EmptyObject(j, doc).Some?
    ensures EmptyObject(j, doc).value.members == []
  {
    EmptyObjectFails(j, doc);
    if NEWLINE in PrintObject(doc) {
      MemberIndentBytes(j, doc.members, true);
      SpacedObjectParses(j, [NEWLINE] + MemberIndent(doc.members));
    } else {
      SpacedObjectParses(j, []);
      assert [OPEN_BRACE] + [] + [CLOSE_BRACE] == COMPACT_OBJECT;
    }
  }

  /** What a build opens is what the texts say. */
  lemma OpenTells(j: Json, existing: bytes, section: string, legacy: string)
    requires OpenDocument(j, existing, section, legacy).Ok?
    ensures var file := OpenDocument(j, existing, section, legacy).value;
            && file.doc.members == TopOf(j, existing)
            && (Section(j, file).Some? ==> Section(j, file).value.members == BaseOf(j, existing, section, legacy))
  {
    var file := OpenDocument(j, existing, section, legacy).value;
    OpenIsGood(j, existing, section, legacy);
    if IsBlank(existing) {
      NewDocumentIsEmpty(j);
    }
    if Section(j, file).Some? && file.base.None? {
      EmptyIsEmpty(j, file.doc);
    }
    BaseTells(j, existing, file, section, legacy);
  }

  predicate IsThere(o: Object, name: string) {
    Lookup(o, name).Some? && Lookup(o, name) != Some(NULL)
  }

  /** The first of one or two sections that is there. */
  lemma FirstTells(j: Json, doc: Object, section: string, legacy: string)
    requires FirstSection(j, doc, if legacy == "" then [section] else [section, legacy]).Ok?
    ensures var base := FirstSection(j, doc, if legacy == "" then [section] else [section, legacy]).value;
            if IsThere(doc, section) then base.Some? && Parse(j, Lookup(doc, section).value) == Ok(base.value)
            else if legacy != "" && IsThere(doc, legacy) then
              base.Some? && Parse(j, Lookup(doc, legacy).value) == Ok(base.value)
            else base.None?
  {
    hide Parse, Lookup;
    var one, two := [section], [section, legacy];
    assert one[1..] == [] && two[1..] == [legacy] && [legacy][1..] == [];
    assert FirstSection(j, doc, []) == Ok(None);
  }

  lemma BaseTells(j: Json, existing: bytes, file: OpenFile, section: string, legacy: string)
    requires OpenDocument(j, existing, section, legacy) == Ok(file) && file.doc.members == TopOf(j, existing)
    ensures file.base.Some? ==> file.base.value.members == BaseOf(j, existing, section, legacy)
    ensures file.base.None? ==> BaseOf(j, existing, section, legacy) == []
  {
    hide Parse, Lookup, FirstSection, Values;
    LookupIsFirst(file.doc, section);
    LookupIsFirst(file.doc, legacy);
    if !IsBlank(existing) {
      FirstTells(j, file.doc, section, legacy);
    } else {
      NoValues(section);
      NoValues(legacy);
    }
  }

  lemma NoValues(name: string)
    ensures Values([], name) == []
  {
  }

  lemma CredentialTells(j: Json, full: bytes, section: string, legacy: string)
    requires CredentialSection(j, full, section, legacy).Ok?
    ensures CredentialSection(j, full, section, legacy).value.members == CredentialOf(j, full, section, legacy)
  {
    LookupIsFirst(Parse(j, full).value, section);
    LookupIsFirst(Parse(j, full).value, legacy);
  }

  // ---- Reading fields ----

  lemma {:induction false} SpelledMore(ms: seq<Member>, m: Member, a: string, b: string)
    ensures Spelled(ms + [m], a, b) == Spelled(ms, a, b) + if m.name == a || m.name == b then [m.value] else []
  {
    if ms == [] {
      assert [m][1..] == [] && ms + [m] == [m];
    } else {
      assert (ms + [m])[0] == ms[0] && (ms + [m])[1..] == ms[1..] + [m];
      SpelledMore(ms[1..], m, a, b);
    }
  }

  lemma {:induction false} CanonicalIsSpelled(ms: seq<Member>, aliases: map<string, string>, a: string, b: string)
    requires forall x :: Canonical(x, aliases) == a <==> x == a || x == b
    ensures CanonicalValues(ms, aliases, a) == Spelled(ms, a, b)
  {
    if ms != [] {
      CanonicalIsSpelled(ms[..|ms| - 1], aliases, a, b);
      SpelledMore(ms[..|ms| - 1], ms[|ms| - 1], a, b);
      assert ms[..|ms| - 1] + [ms[|ms| - 1]] == ms;
    }
  }

  lemma {:induction false} NoCanonical(ms: seq<Member>, aliases: map<string, string>, a: string)
    requires forall x :: Canonical(x, aliases) != a
    ensures CanonicalValues(ms, aliases, a) == []
  {
    if ms != [] {
      NoCanonical(ms[..|ms| - 1], aliases, a);
    }
  }

  lemma ClaudeSpellings(n: string)
    requires n != "refreshToken" && n != "refresh_token"
    ensures n !in CLAUDE_REFRESH
    ensures if IsSnake(n) then forall x :: Canonical(x, CLAUDE_ALIASES) != n
            else forall x :: Canonical(x, CLAUDE_ALIASES) == n <==> x == n || x == Snake(n)
  {
  }

  /** The field of a claude credential under a name is what it says last in either spelling. */
  lemma ClaudeFieldIs(ms: seq<Member>, n: string)
    requires n != "refreshToken" && n != "refresh_token"
    ensures var own := if IsSnake(n) then [] else Spelled(ms, n, Snake(n));
            var field := Field(Collect(ms, CLAUDE_ALIASES, CLAUDE_REFRESH), n);
            if own == [] then field == None else field.Some? && LastOf(own) == [field.value]
  {
    hide IsSnake, Snake, Collect, Spelled, Canonical;
    ClaudeSpellings(n);
    CollectField(ms, CLAUDE_ALIASES, CLAUDE_REFRESH, n);
    if IsSnake(n) {
      NoCanonical(ms, CLAUDE_ALIASES, n);
    } else {
      CanonicalIsSpelled(ms, CLAUDE_ALIASES, n, Snake(n));
    }
  }

  lemma CodexSpellings(n: string)
    requires n in {"id_token", "access_token", "account_id"}
    ensures n != CODEX_REFRESH && forall x :: Canonical(x, CODEX_ALIASES) == n <==> x == n || x == Camel(n)
  {
  }

  lemma CodexFieldIs(ms: seq<Member>, n: string)
    requires n in {"id_token", "access_token", "account_id"}
    ensures var own := Spelled(ms, n, Camel(n));
            var field := Field(Collect(ms, CODEX_ALIASES, [CODEX_REFRESH]), n);
            if own == [] then field == None else field.Some? && LastOf(own) == [field.value]
  {
    hide Camel, Collect, Spelled, Canonical;
    CodexSpellings(n);
    CollectField(ms, CODEX_ALIASES, [CODEX_REFRESH], n);
    CanonicalIsSpelled(ms, CODEX_ALIASES, n, Camel(n));
  }

  // ---- Claude targets ----

  /** A claude target: one section under the new spelling that holds what it should, with the given refresh token, and
      around it what was there. */
  ghost predicate IsClaudeTarget(j: Json, existing: bytes, full: bytes, refresh: seq<bytes>, out: bytes) {
    var top := MembersIn(j, out);
    && Parse(j, out).Ok? && Values(top, "claude_ai_oauth") == [] && |Values(top, "claudeAiOauth")| == 1
    && Parse(j, Values(top, "claudeAiOauth")[0]).Ok?
    && forall n :: IsClaudeName(j, existing, full, refresh, top, MembersIn(j, Values(top, "claudeAiOauth")[0]), n)
  }

  predicate IsClaudeName(j: Json, existing: bytes, full: bytes, refresh: seq<bytes>, top: seq<Member>,
                         section: seq<Member>, n: string) {
    && (n != "claudeAiOauth" && n != "claude_ai_oauth" ==> Values(top, n) == Values(TopOf(j, existing), n))
    && (var base, cred := BaseOf(j, existing, "claudeAiOauth", "claude_ai_oauth"),
                          CredentialOf(j, full, "claudeAiOauth", "claude_ai_oauth");
        Values(section, n) == if n == "refreshToken" then refresh else ClaudeValues(base, cred, n))
  }

  /** The refresh token that the full form of a claude target gets: the first non-empty one of the two spellings. */
  function ClaudeToken(j: Json, full: bytes): seq<bytes> {
    var cred := CredentialOf(j, full, "claudeAiOauth", "claude_ai_oauth");
    var a, b := Values(cred, "refreshToken"), Values(cred, "refresh_token");
    if a != [] && IsNonEmptyString(j, Some(a[0])) then [a[0]]
    else if b != [] && IsNonEmptyString(j, Some(b[0])) then [b[0]]
    else []
  }

  lemma ClaudeSectionTells(j: Json, base: Object, cred: Object, n: string)
    ensures var fields := Collect(cred.members, CLAUDE_ALIASES, CLAUDE_REFRESH);
            (forall k | k in CLAUDE_REFRESH :: k !in fields) ==>
              Values(ClaudeSection(j, base, fields).members, n) == ClaudeValues(base.members, cred.members, n)
  {
    hide Collect, ClaudeSection, Spelled, IsSnake, Snake, Values;
    var fields := Collect(cred.members, CLAUDE_ALIASES, CLAUDE_REFRESH);
    if forall k | k in CLAUDE_REFRESH :: k !in fields {
      ClaudeSectionValues(j, base, fields, n);
      if n != "refreshToken" && n != "refresh_token" {
        ClaudeFieldIs(cred.members, n);
      } else {
        assert CLAUDE_REFRESH[0] == "refreshToken" && CLAUDE_REFRESH[1] == "refresh_token";
      }
    }
  }

  lemma ClaudeTopTells(j: Json, file: OpenFile, section: bytes, n: string)
    requires n != CLAUDE_SECTION && n != CLAUDE_LEGACY
    ensures Values(ClaudeDocument(j, file, section).members, n) == Values(file.doc.members, n)
  {
    hide Values;
    ValuesSet(j, file.doc, CLAUDE_SECTION, section, n);
    ValuesDelete(Set(j, file.doc, CLAUDE_SECTION, section), {CLAUDE_LEGACY}, n);
  }

  lemma ClaudeNameIs(j: Json, existing: bytes, full: bytes, file: OpenFile, base: Object, section: bytes, n: string)
    requires ClaudeFields(j, full).Ok? && OpenDocument(j, existing, CLAUDE_SECTION, CLAUDE_LEGACY) == Ok(file)
    requires Section(j, file) == Some(base)
    ensures IsClaudeName(j, existing, full, [], ClaudeDocument(j, file, section).members,
                         ClaudeSection(j, base, ClaudeFields(j, full).value).members, n)
  {
    hide Collect, ClaudeSection, ClaudeDocument, Values, Section, BaseOf, CredentialOf, TopOf, Spelled, IsSnake,
      OpenDocument, CredentialSection;
    OpenTells(j, existing, CLAUDE_SECTION, CLAUDE_LEGACY);
    CredentialTells(j, full, CLAUDE_SECTION, CLAUDE_LEGACY);
    CredentialFieldsOk(j, full, CLAUDE_SECTION, CLAUDE_LEGACY, CLAUDE_ALIASES, CLAUDE_REFRESH);
    ClaudeSectionTells(j, base, CredentialSection(j, full, CLAUDE_SECTION, CLAUDE_LEGACY).value, n);
    if n != CLAUDE_SECTION && n != CLAUDE_LEGACY {
      ClaudeTopTells(j, file, section, n);
    }
  }

  lemma PrintedTells(j: Json, out: bytes, doc: Object, name: string, s: Object)
    requires Holds(j, out, doc, name, s)
    ensures Parse(j, out) == Ok(doc) && MembersIn(j, out) == doc.members
    ensures Values(doc.members, name) == [PrintObject(s)] && Parse(j, PrintObject(s)) == Ok(s)
    ensures MembersIn(j, PrintObject(s)) == s.members
  {
    hide Parse, Values;
    ParsePrinted(j, doc);
    ParsePrinted(j, s);
  }

  /** Everything a token-only claude target holds. */
  lemma ClaudeTargetIs(j: Json, existing: bytes, full: bytes)
    requires BuildTarget(j, Claude, existing, full).Ok?
    ensures IsClaudeTarget(j, existing, full, [], BuildTarget(j, Claude, existing, full).value)
  {
    hide Values, Section, IsClaudeName, ClaudeSection, ClaudeDocument, OpenDocument, Parse, MembersIn;
    var doc, s := ClaudeBuilt(j, existing, full);
    PrintedTells(j, BuildClaude(j, existing, full).value, doc, CLAUDE_SECTION, s);
    var file := OpenDocument(j, existing, CLAUDE_SECTION, CLAUDE_LEGACY).value;
    forall n ensures IsClaudeName(j, existing, full, [], doc.members, s.members, n) {
      ClaudeNameIs(j, existing, full, file, Section(j, file).value, PrintObject(s), n);
    }
  }

  lemma ClaudeTokenIs(j: Json, full: bytes)
    requires ClaudeRefresh(j, full).Ok?
    ensures ClaudeToken(j, full) == [ClaudeRefresh(j, full).value]
  {
    hide Values, Parse, CredentialSection, CredentialOf, Lookup;
    CredentialTells(j, full, CLAUDE_SECTION, CLAUDE_LEGACY);
    var cred := CredentialSection(j, full, CLAUDE_SECTION, CLAUDE_LEGACY).value;
    LookupIsFirst(cred, "refreshToken");
    LookupIsFirst(cred, "refresh_token");
  }

  /** Setting a field of the section changes nothing else. */
  lemma FieldIsSet(j: Json, doc: Object, section: string, s: Object, key: string, value: bytes, n: string)
    ensures var p := Set(j, s, key, value);
            && Values(p.members, n) == (if n == key then [value] else Values(s.members, n))
            && (n != section ==> Values(Set(j, doc, section, PrintObject(p)).members, n) == Values(doc.members, n))
  {
    hide Values;
    ValuesSet(j, s, key, value, n);
    ValuesSet(j, doc, section, PrintObject(Set(j, s, key, value)), n);
  }

  /** Everything the full form holds: the same, with the credential's refresh token. */
  lemma FullClaudeTargetIs(j: Json, existing: bytes, full: bytes)
    requires BuildFullTarget(j, Claude, existing, full).Ok?
    ensures |ClaudeToken(j, full)| == 1
    ensures IsClaudeTarget(j, existing, full, ClaudeToken(j, full), BuildFullTarget(j, Claude, existing, full).value)
  {
    hide Values, Section, IsClaudeName, ClaudeSection, ClaudeDocument, OpenDocument, Parse, MembersIn, Set, BuildClaude,
      ClaudeRefresh, ClaudeToken, SetInSection;
    var built := BuildClaude(j, existing, full).value;
    var doc, s := ClaudeBuilt(j, existing, full);
    ClaudeTokenIs(j, full);
    RefreshIsValue(j, Claude, full);
    var token := ClaudeRefresh(j, full).value;
    FullIsBuiltAndSet(j, built, doc, CLAUDE_SECTION, s, "refreshToken", token);
    var p := Set(j, s, "refreshToken", token);
    var d := Set(j, doc, CLAUDE_SECTION, PrintObject(p));
    PrintedTells(j, PrintObject(d), d, CLAUDE_SECTION, p);
    FieldIsSet(j, doc, CLAUDE_SECTION, s, "refreshToken", token, CLAUDE_LEGACY);
    forall n ensures IsClaudeName(j, existing, full, [token], d.members, p.members, n) {
      ClaudeBuiltName(j, existing, full, doc, s, n);
      FieldIsSet(j, doc, CLAUDE_SECTION, s, "refreshToken", token, n);
      ClaudeNameSet(j, existing, full, doc.members, s.members, d.members, p.members, token, n);
    }
  }

  lemma ClaudeBuiltName(j: Json, existing: bytes, full: bytes, doc: Object, s: Object, n: string)
    requires BuildTarget(j, Claude, existing, full).Ok?
    requires Holds(j, BuildTarget(j, Claude, existing, full).value, doc, CLAUDE_SECTION, s)
    ensures IsClaudeName(j, existing, full, [], doc.members, s.members, n)
  {
    hide Values, IsClaudeName, Parse, MembersIn, BuildClaude, WellFormed;
    ClaudeTargetIs(j, existing, full);
    PrintedTells(j, BuildTarget(j, Claude, existing, full).value, doc, CLAUDE_SECTION, s);
  }

  lemma ClaudeNameSet(j: Json, existing: bytes, full: bytes, top: seq<Member>, section: seq<Member>,
                      newTop: seq<Member>, newSection: seq<Member>, token: bytes, n: string)
    requires IsClaudeName(j, existing, full, [], top, section, n)
    requires Values(newSection, n) == if n == "refreshToken" then [token] else Values(section, n)
    requires n != "claudeAiOauth" ==> Values(newTop, n) == Values(top, n)
    ensures IsClaudeName(j, existing, full, [token], newTop, newSection, n)
  {
    hide Values, BaseOf, CredentialOf, TopOf, ClaudeValues;
  }

  // ---- Codex targets ----

  /** A codex target: one object of tokens that holds what it should, with the given refresh token, and around it the
      mode, the credential's last refresh, and what was there. */
  ghost predicate IsCodexTarget(j: Json, existing: bytes, full: bytes, refresh: bytes, out: bytes) {
    var top := MembersIn(j, out);
    && Parse(j, out).Ok? && |Values(top, "tokens")| == 1 && Parse(j, Values(top, "tokens")[0]).Ok?
    && forall n :: IsCodexName(j, existing, full, refresh, top, MembersIn(j, Values(top, "tokens")[0]), n)
  }

  predicate IsCodexName(j: Json, existing: bytes, full: bytes, refresh: bytes, top: seq<Member>, tokens: seq<Member>,
                        n: string) {
    && (n != "tokens" ==> Values(top, n) == CodexTopValues(TopOf(j, existing), MembersIn(j, full), n))
    && (var base, cred := BaseOf(j, existing, "tokens", ""), CredentialOf(j, full, "tokens", "tokens");
        Values(tokens, n) == if n == "refresh_token" then [refresh] else TokenValues(base, cred, n))
  }

  lemma TokensTell(j: Json, base: Object, cred: Object, n: string)
    ensures Values(CodexSection(j, base, Collect(cred.members, CODEX_ALIASES, [CODEX_REFRESH])).members, n)
         == TokenValues(base.members, cred.members, n)
  {
    hide Collect, CodexSection, Spelled, Camel, Values;
    CodexSectionValues(j, base, Collect(cred.members, CODEX_ALIASES, [CODEX_REFRESH]), n);
    if n in {"id_token", "access_token", "account_id"} {
      CodexFieldIs(cred.members, n);
    }
  }

  lemma CodexTopTells(j: Json, doc: Object, tokens: bytes, full: bytes, n: string)
    requires n != CODEX_TOKENS && Parse(j, full).Ok?
    ensures Values(CodexDocument(j, doc, tokens, LastRefresh(j, full)).members, n)
         == CodexTopValues(doc.members, MembersIn(j, full), n)
  {
    hide Values, Parse, CodexDocument, Lookup;
    CodexDocumentValues(j, doc, tokens, LastRefresh(j, full), n);
    LookupIsFirst(Parse(j, full).value, CODEX_LAST_REFRESH);
  }

  lemma CodexNameIs(j: Json, existing: bytes, full: bytes, file: OpenFile, base: Object, tokens: bytes, n: string)
    requires CodexFields(j, full).Ok? && OpenDocument(j, existing, CODEX_TOKENS, "") == Ok(file)
    requires Section(j, file) == Some(base)
    ensures var (fields, last) := CodexFields(j, full).value;
            IsCodexName(j, existing, full, EMPTY_STRING, CodexDocument(j, file.doc, tokens, last).members,
                        CodexSection(j, base, fields).members, n)
  {
    hide Collect, CodexSection, CodexDocument, Values, Section, BaseOf, CredentialOf, TopOf, Spelled, OpenDocument,
      CodexTopValues, LastRefresh;
    OpenTells(j, existing, CODEX_TOKENS, "");
    CredentialTells(j, full, CODEX_TOKENS, CODEX_TOKENS);
    TokensTell(j, base, CredentialSection(j, full, CODEX_TOKENS, CODEX_TOKENS).value, n);
    if n != CODEX_TOKENS {
      CodexTopTells(j, file.doc, tokens, full, n);
    }
  }

  /** Everything a token-only codex target holds. */
  lemma CodexTargetIs(j: Json, existing: bytes, full: bytes)
    requires BuildTarget(j, Codex, existing, full).Ok?
    ensures IsCodexTarget(j, existing, full, [QUOTE, QUOTE], BuildTarget(j, Codex, existing, full).value)
  {
    hide Values, Section, IsCodexName, CodexSection, CodexDocument, OpenDocument, Parse, MembersIn;
    var doc, s := CodexBuilt(j, existing, full);
    PrintedTells(j, BuildCodex(j, existing, full).value, doc, CODEX_TOKENS, s);
    var file := OpenDocument(j, existing, CODEX_TOKENS, "").value;
    forall n ensures IsCodexName(j, existing, full, EMPTY_STRING, doc.members, s.members, n) {
      CodexNameIs(j, existing, full, file, Section(j, file).value, PrintObject(s), n);
    }
  }

  lemma CodexTokenIs(j: Json, full: bytes)
    requires CodexRefresh(j, full).Ok?
    ensures var vs := Values(CredentialOf(j, full, "tokens", "tokens"), "refresh_token");
            vs != [] && CodexRefresh(j, full).value == vs[0] && IsNonEmptyString(j, Some(vs[0]))
  {
    hide Values, Parse, CredentialSection, CredentialOf, Lookup;
    CredentialTells(j, full, CODEX_TOKENS, CODEX_TOKENS);
    LookupIsFirst(CredentialSection(j, full, CODEX_TOKENS, CODEX_TOKENS).value, CODEX_REFRESH);
  }

  /** Everything the full form holds: the same, with the first refresh token of the credential. */
  lemma FullCodexTargetIs(j: Json, existing: bytes, full: bytes)
    requires BuildFullTarget(j, Codex, existing, full).Ok?
    ensures var vs := Values(CredentialOf(j, full, "tokens", "tokens"), "refresh_token");
            vs != [] && IsCodexTarget(j, existing, full, vs[0], BuildFullTarget(j, Codex, existing, full).value)
  {
    hide Values, Section, IsCodexName, CodexSection, CodexDocument, OpenDocument, Parse, MembersIn, Set, BuildCodex,
      CodexRefresh, SetInSection, CredentialOf;
    var built := BuildCodex(j, existing, full).value;
    var doc, s := CodexBuilt(j, existing, full);
    CodexTokenIs(j, full);
    RefreshIsValue(j, Codex, full);
    var token := CodexRefresh(j, full).value;
    FullIsBuiltAndSet(j, built, doc, CODEX_TOKENS, s, CODEX_REFRESH, token);
    var p := Set(j, s, CODEX_REFRESH, token);
    var d := Set(j, doc, CODEX_TOKENS, PrintObject(p));
    PrintedTells(j, PrintObject(d), d, CODEX_TOKENS, p);
    forall n ensures IsCodexName(j, existing, full, token, d.members, p.members, n) {
      CodexBuiltName(j, existing, full, doc, s, n);
      FieldIsSet(j, doc, CODEX_TOKENS, s, CODEX_REFRESH, token, n);
      CodexNameSet(j, existing, full, doc.members, s.members, d.members, p.members, token, n);
    }
  }

  lemma CodexBuiltName(j: Json, existing: bytes, full: bytes, doc: Object, s: Object, n: string)
    requires BuildTarget(j, Codex, existing, full).Ok?
    requires Holds(j, BuildTarget(j, Codex, existing, full).value, doc, CODEX_TOKENS, s)
    ensures IsCodexName(j, existing, full, EMPTY_STRING, doc.members, s.members, n)
  {
    hide Values, IsCodexName, Parse, MembersIn, BuildCodex, WellFormed;
    CodexTargetIs(j, existing, full);
    PrintedTells(j, BuildTarget(j, Codex, existing, full).value, doc, CODEX_TOKENS, s);
  }

  lemma CodexNameSet(j: Json, existing: bytes, full: bytes, top: seq<Member>, tokens: seq<Member>, newTop: seq<Member>,
                     newTokens: seq<Member>, token: bytes, n: string)
    requires IsCodexName(j, existing, full, EMPTY_STRING, top, tokens, n)
    requires Values(newTokens, n) == if n == "refresh_token" then [token] else Values(tokens, n)
    requires n != "tokens" ==> Values(newTop, n) == Values(top, n)
    ensures IsCodexName(j, existing, full, token, newTop, newTokens, n)
  {
    hide Values, BaseOf, CredentialOf, TopOf, TokenValues, CodexTopValues;
  }

  // ---- When there is a target ----

  /** Some section of a claude credential, or its codex tokens, is an object whose last access token is a string that is
      not empty. */
  predicate HasAccess(j: Json, tool: Tool, full: bytes) {
    match tool
    case Claude => HasText(j, full, "claudeAiOauth", "claude_ai_oauth", "accessToken", "access_token")
    case Codex => HasText(j, full, "tokens", "tokens", "access_token", "accessToken")
    case OtherTool => false
  }

  predicate HasText(j: Json, full: bytes, section: string, legacy: string, a: string, b: string) {
    var own := Spelled(CredentialOf(j, full, section, legacy), a, b);
    own != [] && IsNonEmptyString(j, Some(Compact(own[|own| - 1])))
  }

  lemma NoMembers(j: Json, full: bytes, section: string, legacy: string)
    requires CredentialSection(j, full, section, legacy).Err?
    ensures CredentialOf(j, full, section, legacy) == []
  {
    hide Values;
    if Parse(j, full).Ok? {
      LookupIsFirst(Parse(j, full).value, section);
      LookupIsFirst(Parse(j, full).value, legacy);
    } else {
      NoValues(section);
      NoValues(legacy);
    }
  }

  /** A credential has the fields of a target exactly when it has an access token. */
  lemma FieldsIff(j: Json, tool: Tool, full: bytes)
    ensures (tool == Claude ==> (ClaudeFields(j, full).Ok? <==> HasAccess(j, tool, full)))
         && (tool == Codex ==> (CodexFields(j, full).Ok? <==> HasAccess(j, tool, full)))
  {
    hide Collect, CredentialOf, Spelled, IsNonEmptyString, LastRefresh, CredentialSection;
    var section, legacy := if tool == Claude then CLAUDE_SECTION else CODEX_TOKENS,
                           if tool == Claude then CLAUDE_LEGACY else CODEX_TOKENS;
    var found := CredentialSection(j, full, section, legacy);
    if found.Ok? {
      CredentialTells(j, full, section, legacy);
      ClaudeFieldIs(found.value.members, "accessToken");
      CodexFieldIs(found.value.members, "access_token");
    } else {
      NoMembers(j, full, section, legacy);
      NothingSpelled("accessToken", "access_token");
      NothingSpelled("access_token", "accessToken");
    }
    NothingIsEmpty(j);
  }

  lemma NothingSpelled(a: string, b: string)
    ensures Spelled([], a, b) == []
  {
  }

  lemma NothingIsEmpty(j: Json)
    ensures !IsNonEmptyString(j, None)
  {
  }

  /** The credential has a refresh token that is a string and not empty. */
  predicate HasRefresh(j: Json, tool: Tool, full: bytes) {
    if tool == Claude then ClaudeToken(j, full) != []
    else
      var vs := Values(CredentialOf(j, full, "tokens", "tokens"), "refresh_token");
      vs != [] && IsNonEmptyString(j, Some(vs[0]))
  }

  /** The full form can be built exactly when the token-only one can and the credential has a refresh token. */
  lemma FullBuildIff(j: Json, tool: Tool, existing: bytes, full: bytes)
    requires tool != OtherTool
    ensures BuildFullTarget(j, tool, existing, full).Ok?
       <==> BuildTarget(j, tool, existing, full).Ok? && HasRefresh(j, tool, full)
  {
    hide BuildClaude, BuildCodex, ClaudeRefresh, CodexRefresh, SetInSection, ClaudeToken, Values, CredentialOf;
    ClaudeTokenIff(j, full);
    CodexTokenIff(j, full);
    if BuildTarget(j, tool, existing, full).Ok? && HasRefresh(j, tool, full) {
      FullBuilds(j, tool, existing, full);
    }
  }

  lemma FullBuilds(j: Json, tool: Tool, existing: bytes, full: bytes)
    requires tool != OtherTool && BuildTarget(j, tool, existing, full).Ok?
    requires if tool == Claude then ClaudeRefresh(j, full).Ok? else CodexRefresh(j, full).Ok?
    ensures BuildFullTarget(j, tool, existing, full).Ok?
  {
    hide BuildClaude, BuildCodex, ClaudeRefresh, CodexRefresh, SetInSection;
    RefreshIsValue(j, tool, full);
    if tool == Claude {
      var doc, s := ClaudeBuilt(j, existing, full);
      FullIsBuiltAndSet(j, BuildClaude(j, existing, full).value, doc, CLAUDE_SECTION, s, "refreshToken",
                        ClaudeRefresh(j, full).value);
    } else {
      var doc, s := CodexBuilt(j, existing, full);
      FullIsBuiltAndSet(j, BuildCodex(j, existing, full).value, doc, CODEX_TOKENS, s, CODEX_REFRESH,
                        CodexRefresh(j, full).value);
    }
  }

  lemma ClaudeTokenIff(j: Json, full: bytes)
    ensures ClaudeRefresh(j, full).Ok? <==> ClaudeToken(j, full) != []
  {
    hide Values, Parse, CredentialSection, CredentialOf, Lookup;
    var found := CredentialSection(j, full, CLAUDE_SECTION, CLAUDE_LEGACY);
    if found.Ok? {
      CredentialTells(j, full, CLAUDE_SECTION, CLAUDE_LEGACY);
      LookupIsFirst(found.value, "refreshToken");
      LookupIsFirst(found.value, "refresh_token");
    } else {
      NoMembers(j, full, CLAUDE_SECTION, CLAUDE_LEGACY);
      NoValues("refreshToken");
      NoValues("refresh_token");
    }
  }

  lemma CodexTokenIff(j: Json, full: bytes)
    ensures var vs := Values(CredentialOf(j, full, "tokens", "tokens"), "refresh_token");
            CodexRefresh(j, full).Ok? <==> vs != [] && IsNonEmptyString(j, Some(vs[0]))
  {
    hide Values, Parse, CredentialSection, CredentialOf, Lookup;
    var found := CredentialSection(j, full, CODEX_TOKENS, CODEX_TOKENS);
    if found.Ok? {
      CredentialTells(j, full, CODEX_TOKENS, CODEX_TOKENS);
      LookupIsFirst(found.value, CODEX_REFRESH);
    } else {
      NoMembers(j, full, CODEX_TOKENS, CODEX_TOKENS);
      NoValues("refresh_token");
    }
  }
}
