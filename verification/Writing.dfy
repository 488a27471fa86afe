/** When a target can be written: what decides it is on the disk before the write. */
module Writing {
  import opened Bytes
  import opened Library
  import opened Editor
  import opened Edits
  import opened Builders
  import opened BuilderLaws
  import opened Preservation
  import opened Readers
  import opened ReaderLaws
  import opened ReadBack
  import opened GuardLaws
  import opened Targets

  /** A credential that targets can be built from: a login section with an access token, for the editor. */
  predicate HasFields(j: Json, tool: Tool, full: bytes) {
    match tool
    case Claude => ClaudeFields(j, full).Ok?
    case Codex => CodexFields(j, full).Ok?
    case OtherTool => false
  }

  /** A file that a target can be built over: its document and section parse, or it has no section yet and is not laid
      out comma-first. */
  predicate Openable(j: Json, tool: Tool, existing: bytes) {
    var file := OpenDocument(j, existing, SectionName(tool), LegacyName(tool));
    file.Ok? && !(file.value.base == None && IsCommaFirst(file.value.doc))
  }

  /** A build succeeds exactly when the credential has the fields and the file can be opened. */
  lemma BuildOkIff(j: Json, tool: Tool, existing: bytes, full: bytes)
    ensures BuildTarget(j, tool, existing, full).Ok? <==> HasFields(j, tool, full) && Openable(j, tool, existing)
  {
    if HasFields(j, tool, full) && OpenDocument(j, existing, SectionName(tool), LegacyName(tool)).Ok? {
      BuildFailsIffCommaFirst(j, tool, existing, full);
    }
  }

  lemma SectionOpens(j: Json, full: bytes, name: string, legacy: string)
    requires CredentialSection(j, full, name, legacy).Ok?
    ensures Parse(j, full).Ok? && !IsBlank(full)
    ensures FirstSection(j, Parse(j, full).value, [name, legacy])
            == Ok(Some(CredentialSection(j, full, name, legacy).value))
    ensures Lookup(Parse(j, full).value, name).Some? ==>
      FirstSection(j, Parse(j, full).value, [name]) == Ok(Some(CredentialSection(j, full, name, legacy).value))
  {
    hide Parse, Lookup, WellFormed, IsBlank;
    var doc := Parse(j, full).value;
    ParseIsExact(j, full);
    PrintedIsNotBlank(j, doc);
    var raw := LookupEither(doc, name, legacy).value;
    ParseIsExact(j, raw);
    PrintedIsNotBlank(j, Parse(j, raw).value);
    assert [name, legacy][0] == name && [name, legacy][1..] == [legacy];
    assert [name][0] == name && [legacy][0] == legacy;
  }

  /** A credential with the fields can itself be opened, so a login with them can be stripped. */
  lemma FieldsOpen(j: Json, tool: Tool, full: bytes)
    requires HasFields(j, tool, full)
    ensures Openable(j, tool, full)
  {
    if tool == Claude {
      SectionOpens(j, full, CLAUDE_SECTION, CLAUDE_LEGACY);
    } else {
      SectionOpens(j, full, CODEX_TOKENS, CODEX_TOKENS);
    }
  }

  // ---- Full credentials have the fields ----

  /** A full credential with one spelling per field has the fields. */
  lemma FullHasFields(j: Json, tool: Tool, full: bytes)
    requires ParseFull(j, tool, full).Some? && OneSpelling(j, tool, full)
    ensures HasFields(j, tool, full)
  {
    if tool == Claude {
      ClaudeFullHasFields(j, full);
    } else {
      CodexFullHasFields(j, full);
    }
  }

  lemma AccessIsText(j: Json, s: Object, aliases: map<string, string>, refresh: seq<string>, a: string, b: string)
    requires WellFormed(j, s) && a != b && SpelledOnce(s.members, a, b) && a !in refresh
    requires forall x :: Canonical(x, aliases) == a <==> x == a || x == b
    requires FirstString(j, s.members, [a, b]) != ""
    ensures IsNonEmptyString(j, Field(Collect(s.members, aliases, refresh), a))
  {
    FieldReads(j, s, aliases, refresh, a, b);
    assert TrimLeft("") == "" && TrimRight("") == "";
  }

  /** The one login section of a claude credential that reads with an access token parses. */
  lemma ClaudeSectionIsThere(j: Json, full: bytes)
    requires ParseFull(j, Claude, full).Some? && OneSpelling(j, Claude, full)
    ensures CredentialSection(j, full, CLAUDE_SECTION, CLAUDE_LEGACY).Ok?
  {
    var root := MapOf(j, full).value;
    OneSectionReads(j, root);
    var doc := Parse(j, full).value;
    LookupIsFirst(doc, CLAUDE_SECTION);
    LookupIsFirst(doc, CLAUDE_LEGACY);
  }

  /** A map-based reader that finds an access token finds it in a section that parses. */
  lemma OneSectionReads(j: Json, root: seq<Member>)
    requires SpelledOnce(root, CLAUDE_SECTION, CLAUDE_LEGACY)
    requires ReadSections(j, root, CLAUDE_SECTIONS, NO_CREDENTIAL).access != ""
    ensures root != []
    ensures var vs := Values(root, CLAUDE_SECTION) + Values(root, CLAUDE_LEGACY); |vs| == 1 && Parse(j, vs[0]).Ok?
  {
    TwoSectionsRead(j, root, CLAUDE_SECTION, CLAUDE_LEGACY);
  }

  lemma TwoSectionsRead(j: Json, root: seq<Member>, first: string, second: string)
    requires SpelledOnce(root, first, second) && ReadSections(j, root, [first, second], NO_CREDENTIAL).access != ""
    ensures root != []
    ensures var vs := Values(root, first) + Values(root, second); |vs| == 1 && Parse(j, vs[0]).Ok?
  {
    NothingRead(j, root, first, second);
    OneValue(root, first, second);
    if MapValue(root, first).Some? {
      FirstRead(j, root, first, second);
    } else {
      SecondRead(j, root, first, second);
    }
  }

  lemma OneValue(root: seq<Member>, first: string, second: string)
    requires SpelledOnce(root, first, second)
    ensures var a, b, vs := MapValue(root, first), MapValue(root, second), Values(root, first) + Values(root, second);
            && (a.Some? ==> b.None? && vs == [a.value] && root != [])
            && (b.Some? ==> a.None? && vs == [b.value] && root != [])
  {
  }

  lemma FirstRead(j: Json, root: seq<Member>, first: string, second: string)
    requires MapValue(root, first).Some? && MapValue(root, second).None?
    requires ReadSections(j, root, [first, second], NO_CREDENTIAL).access != ""
    ensures Parse(j, MapValue(root, first).value).Ok?
  {
    var raw := MapValue(root, first).value;
    NothingRead(j, root, first, second);
    if MapOf(j, raw).Some? {
      FirstSectionReads(j, root, first, second, raw, MapOf(j, raw).value);
      AccessParses(j, raw);
    }
  }

  lemma SecondRead(j: Json, root: seq<Member>, first: string, second: string)
    requires MapValue(root, first).None? && MapValue(root, second).Some?
    requires ReadSections(j, root, [first, second], NO_CREDENTIAL).access != ""
    ensures Parse(j, MapValue(root, second).value).Ok?
  {
    var raw := MapValue(root, second).value;
    NothingRead(j, root, first, second);
    if MapOf(j, raw).Some? {
      SecondSectionReads(j, root, first, second, raw, MapOf(j, raw).value);
      AccessParses(j, raw);
    }
  }


  lemma NothingRead(j: Json, root: seq<Member>, first: string, second: string)
    ensures Reads(j, root, first) || Reads(j, root, second)
         || ReadSections(j, root, [first, second], NO_CREDENTIAL) == NO_CREDENTIAL
  {
    assert [first, second][1..] == [second] && [second][1..] == [];
    assert Reads(j, root, second) || ReadSections(j, root, [second], NO_CREDENTIAL) == NO_CREDENTIAL;
  }

  lemma AccessParses(j: Json, raw: bytes)
    requires MapOf(j, raw).Some? && FirstString(j, MapOf(j, raw).value, CLAUDE_ACCESS_KEYS) != ""
    ensures Parse(j, raw).Ok?
  {
    FirstStringNone(j, [], CLAUDE_ACCESS_KEYS);
  }

  lemma ClaudeFullHasFields(j: Json, full: bytes)
    requires ParseFull(j, Claude, full).Some? && OneSpelling(j, Claude, full)
    ensures ClaudeFields(j, full).Ok?
  {
    ClaudeSectionIsThere(j, full);
    var s := CredentialSection(j, full, CLAUDE_SECTION, CLAUDE_LEGACY).value;
    ClaudeCredentialReads(j, full, s);
    forall x ensures Canonical(x, CLAUDE_ALIASES) == "accessToken" <==> x == "accessToken" || x == "access_token" {
      ClaudeCanonical(x);
    }
    AccessIsText(j, s, CLAUDE_ALIASES, CLAUDE_REFRESH, "accessToken", "access_token");
  }

  lemma CodexSectionIsThere(j: Json, full: bytes)
    requires ParseFull(j, Codex, full).Some? && OneSpelling(j, Codex, full)
    ensures CredentialSection(j, full, CODEX_TOKENS, CODEX_TOKENS).Ok?
  {
    CodexAccessIsRead(j, full);
    TokensAreThere(j, MapOf(j, full).value);
    TokensOpen(j, full, Parse(j, full).value);
  }

  lemma CodexAccessIsRead(j: Json, full: bytes)
    requires ParseFull(j, Codex, full).Some?
    ensures MapOf(j, full).Some?
    ensures FirstString(j, TokensOf(j, MapOf(j, full).value, CODEX_TOKENS), ["access_token", "accessToken"]) != ""
  {
  }

  lemma TokensOpen(j: Json, full: bytes, doc: Object)
    requires Parse(j, full) == Ok(doc) && Once(doc.members, CODEX_TOKENS)
    requires MapValue(doc.members, CODEX_TOKENS).Some? && Parse(j, MapValue(doc.members, CODEX_TOKENS).value).Ok?
    ensures CredentialSection(j, full, CODEX_TOKENS, CODEX_TOKENS).Ok?
  {
    ReadersAgree(doc, CODEX_TOKENS);
  }

  /** A map-based reader that finds an access token among the codex tokens finds tokens that parse. */
  lemma TokensAreThere(j: Json, root: seq<Member>)
    requires FirstString(j, TokensOf(j, root, CODEX_TOKENS), ["access_token", "accessToken"]) != ""
    ensures root != [] && MapValue(root, CODEX_TOKENS).Some? && Parse(j, MapValue(root, CODEX_TOKENS).value).Ok?
  {
    FirstStringNone(j, [], ["access_token", "accessToken"]);
  }

  lemma CodexFullHasFields(j: Json, full: bytes)
    requires ParseFull(j, Codex, full).Some? && OneSpelling(j, Codex, full)
    ensures CodexFields(j, full).Ok?
  {
    CodexSectionIsThere(j, full);
    var s := CredentialSection(j, full, CODEX_TOKENS, CODEX_TOKENS).value;
    CodexCredentialReads(j, full, s);
    forall x ensures Canonical(x, CODEX_ALIASES) == "access_token" <==> x == "access_token" || x == "accessToken" {
      CodexCanonical(x);
    }
    AccessIsText(j, s, CODEX_ALIASES, [CODEX_REFRESH], "access_token", "accessToken");
  }

  // ---- The writer ----

  /** A file the writer writes over: it shows the guard no token, and can be opened. */
  predicate Writable(w: Setup, existing: bytes) {
    !RefreshTokenOnDisk(w.j, w.tool, existing) && Openable(w.j, w.tool, existing)
  }

  /** The writer has new content exactly for a writable file and a credential with the fields. */
  lemma NewContentIff(w: Setup, existing: bytes, full: bytes)
    ensures NewContent(w, existing, full, false).Some? <==> HasFields(w.j, w.tool, full) && Writable(w, existing)
    ensures NewContent(w, existing, full, true).Some?
            <==> HasFields(w.j, w.tool, full) && Openable(w.j, w.tool, existing)
  {
    BuildOkIff(w.j, w.tool, existing, full);
  }

  /** A file that is written token-only: neither reader finds a token in it, and it can be written again. */
  predicate Clean(w: Setup, content: bytes) {
    !HasRefreshToken(w.j, w.tool, content) && Writable(w, content)
  }

  lemma NewContentIsClean(w: Setup, existing: bytes, full: bytes, imported: bool)
    ensures var c := NewContent(w, existing, full, imported); c.Some? ==> Clean(w, c.value)
  {
    var built := BuildTarget(w.j, w.tool, existing, full);
    if built.Ok? {
      BuiltHoldsNoRefreshToken(w.j, w.tool, existing, full);
      BuildIsIdempotent(w.j, w.tool, existing, full);
      BuildOkIff(w.j, w.tool, built.value, full);
    }
  }

  /** Writing a target again from the same credential writes the same bytes. */
  lemma WriteIsIdempotent(w: Setup, existing: bytes, full: bytes)
    requires NewContent(w, existing, full, false).Some?
    ensures var built := NewContent(w, existing, full, false).value; NewContent(w, built, full, false) == Some(built)
  {
    BuildIsIdempotent(w.j, w.tool, existing, full);
    NewContentIsClean(w, existing, full, false);
  }
}
