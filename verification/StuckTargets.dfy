/** Targets that no pass ever brings in order: the guard sees a token in them that the detector overlooks. */
module StuckTargets {
  import opened Bytes
  import opened Grammar
  import opened Library
  import opened Editor
  import opened Edits
  import opened EditLaws
  import opened Builders
  import opened BuilderLaws
  import opened Readers
  import opened ReaderLaws
  import opened ImportChoice
  import opened Targets
  import opened Writing
  import opened Passes
  import opened Examples

  /** A due heal of a file that cannot be written fails and changes nothing, so every later pass does the same. */
  lemma DueIsStuck(w: Setup, lookup: AccountLookup, d: Disk, t: Target)
    requires HealDue(w, d, t) && !HasRefreshToken(w.j, w.tool, d.files[t.path]) && !Writable(w, d.files[t.path])
    ensures QuietPass(w, lookup, [t], d) == Outcome(d, false)
  {
    NewContentIff(w, d.files[t.path], d.profiles[Followed(d.active, t)].data);
    assert HealOne(w, d, t) == Outcome(d, false);
    assert ReconcileOne(w, lookup, [t], d, t) == Outcome(d, false);
    assert [t][1..] == [];
    assert PassOver(w, lookup, [t], d, [t][1..]) == Outcome(d, true);
  }

  /** A look at a login without the fields reports an error and changes no file: the login can be stored, but not
      stripped. */
  lemma UnfitLoginIsStuck(w: Setup, lookup: AccountLookup, targets: seq<Target>, d: Disk, t: Target)
    requires HoldsLoginAt(w, d.files, t.path) && !HasFields(w.j, w.tool, d.files[t.path])
    ensures var o := ReconcileOne(w, lookup, targets, d, t); !o.ok && o.disk.files == d.files
  {
    NewContentIff(w, d.files[t.path], d.files[t.path]);
  }

  /** The document and section around one key. */
  function OneKey(j: Json, key: string, value: string): Object {
    Append(j, EMPTY_OBJECT, key, j.encode(value))
  }

  lemma OneKeyIsOk(j: Json, key: string, value: string)
    ensures WellFormed(j, OneKey(j, key, value)) && IsTight(OneKey(j, key, value))
            && IsValue(PrintObject(OneKey(j, key, value)))
    ensures Parse(j, PrintObject(OneKey(j, key, value))) == Ok(OneKey(j, key, value))
    ensures forall n :: Values(OneKey(j, key, value).members, n) == if n == key then [j.encode(value)] else []
  {
    EmptyObjectIsTight(j);
    EncodedIsValue(j, value);
    AppendKeepsWellFormed(j, EMPTY_OBJECT, key, j.encode(value));
    TightIsValue(j, OneKey(j, key, value));
    ParsePrinted(j, OneKey(j, key, value));
    forall n ensures Values(OneKey(j, key, value).members, n) == if n == key then [j.encode(value)] else [] {
      ValuesAppend(j, EMPTY_OBJECT, key, j.encode(value), n);
    }
  }

  /** The key reads as its value, and every other key as nothing. */
  lemma OneKeyReads(j: Json, key: string, value: string, a: string, b: string)
    ensures a == key && b != key ==> FirstString(j, OneKey(j, key, value).members, [a, b]) == Trim(value)
    ensures a != key && b != key ==> FirstString(j, OneKey(j, key, value).members, [a, b]) == ""
  {
    OneKeyIsOk(j, key, value);
    EncodedIsValue(j, value);
    ReadOne(j, OneKey(j, key, value).members, a, b);
  }

  lemma OneKeyIsSeen(j: Json, key: string, value: string)
    requires value != ""
    ensures IsNonEmptyString(j, Lookup(OneKey(j, key, value), key))
  {
    OneKeyIsOk(j, key, value);
    EncodedIsValue(j, value);
    LookupIsFirst(OneKey(j, key, value), key);
  }

  // ---- A blank refresh token ----

  /** {"tokens":{"refresh_token":" "}} */
  function BlankToken(j: Json): Object {
    Append(j, EMPTY_OBJECT, CODEX_TOKENS, PrintObject(OneKey(j, "refresh_token", " ")))
  }

  lemma BlankTokenIsOk(j: Json)
    ensures Parse(j, PrintObject(BlankToken(j))) == Ok(BlankToken(j)) && !IsBlank(PrintObject(BlankToken(j)))
    ensures Values(BlankToken(j).members, CODEX_TOKENS) == [PrintObject(OneKey(j, "refresh_token", " "))]
    ensures Lookup(BlankToken(j), CODEX_TOKENS) == Some(PrintObject(OneKey(j, "refresh_token", " ")))
  {
    OneKeyIsOk(j, "refresh_token", " ");
    EmptyObjectIsTight(j);
    AppendKeepsWellFormed(j, EMPTY_OBJECT, CODEX_TOKENS, PrintObject(OneKey(j, "refresh_token", " ")));
    ParsePrinted(j, BlankToken(j));
    PrintedIsNotBlank(j, BlankToken(j));
    ValuesAppend(j, EMPTY_OBJECT, CODEX_TOKENS, PrintObject(OneKey(j, "refresh_token", " ")), CODEX_TOKENS);
    LookupIsFirst(BlankToken(j), CODEX_TOKENS);
  }

  /** The detector finds no login in it and no access token either; the guard sees a token. */
  lemma BlankTokenIsOverlooked(j: Json)
    ensures var data := PrintObject(BlankToken(j));
            && !HasRefreshToken(j, Codex, data) && RefreshTokenOnDisk(j, Codex, data)
            && ParseTarget(j, Codex, data).Unusable?
  {
    BlankTokenIsOk(j);
    BlankTokenIsSeen(j);
    OneKeyIsOk(j, "refresh_token", " ");
    TokensRead(j, PrintObject(BlankToken(j)), BlankToken(j), PrintObject(OneKey(j, "refresh_token", " ")),
               OneKey(j, "refresh_token", " "));
    BlankKeyReads(j);
  }

  lemma TokensRead(j: Json, data: bytes, doc: Object, raw: bytes, s: Object)
    requires Parse(j, data) == Ok(doc) && Values(doc.members, CODEX_TOKENS) == [raw] && Parse(j, raw) == Ok(s)
    ensures ParseCodex(j, data) == Some(ReadTokens(j, s.members))
  {
  }

  lemma BlankKeyReads(j: Json)
    ensures FirstString(j, OneKey(j, "refresh_token", " ").members, ["refresh_token", "refreshToken"]) == ""
    ensures FirstString(j, OneKey(j, "refresh_token", " ").members, ["access_token", "accessToken"]) == ""
  {
    OneKeyReads(j, "refresh_token", " ", "refresh_token", "refreshToken");
    OneKeyReads(j, "refresh_token", " ", "access_token", "accessToken");
    assert TrimLeft(" ") == "" by { assert " "[1..] == ""; }
  }

  lemma BlankTokenIsSeen(j: Json)
    ensures RefreshTokenOnDisk(j, Codex, PrintObject(BlankToken(j)))
  {
    BlankTokenIsOk(j);
    OneKeyIsOk(j, "refresh_token", " ");
    OneKeyIsSeen(j, "refresh_token", " ");
    assert CODEX_REFRESH in GuardKeys(Codex);
    assert SectionHoldsToken(j, BlankToken(j), CODEX_TOKENS, GuardKeys(Codex));
    assert CODEX_TOKENS in GuardSections(Codex);
  }

  /** With a usable active profile and nobody else acting, every pass reports an error at such a live file and leaves
      it. */
  lemma BlankTokenIsStuck(w: Setup, lookup: AccountLookup, path: Path) returns (d: Disk)
    requires w.tool == Codex
    ensures d.active in d.profiles && d.profiles[d.active] == Has(PrintObject(ExampleCredential(w.j)))
    ensures d.files == map[path := PrintObject(BlankToken(w.j))]
    ensures QuietPass(w, lookup, [Live(path)], d) == Outcome(d, false)
  {
    hide BuildTarget, ParseFull, ParseTarget, RefreshTokenOnDisk, HasRefreshToken, StorePlan, Parse, Append;
    d := Disk(map[path := PrintObject(BlankToken(w.j))], map["p" := Has(PrintObject(ExampleCredential(w.j)))], "p");
    ExampleIsFull(w.j);
    BlankTokenIsOverlooked(w.j);
    DueIsStuck(w, lookup, d, Live(path));
  }

  // ---- A refresh token behind an access token ----

  /** {"claudeAiOauth":{"accessToken":"b"},"claude_ai_oauth":{"refresh_token":"r"}} */
  function HiddenToken(j: Json): Object {
    Append(j, Append(j, EMPTY_OBJECT, CLAUDE_SECTION, PrintObject(OneKey(j, "accessToken", "b"))),
           CLAUDE_LEGACY, PrintObject(OneKey(j, "refresh_token", "r")))
  }

  lemma HiddenTokenIsOk(j: Json)
    ensures Parse(j, PrintObject(HiddenToken(j))) == Ok(HiddenToken(j)) && !IsBlank(PrintObject(HiddenToken(j)))
    ensures Values(HiddenToken(j).members, CLAUDE_SECTION) == [PrintObject(OneKey(j, "accessToken", "b"))]
    ensures Lookup(HiddenToken(j), CLAUDE_LEGACY) == Some(PrintObject(OneKey(j, "refresh_token", "r")))
  {
    var section, legacy := PrintObject(OneKey(j, "accessToken", "b")), PrintObject(OneKey(j, "refresh_token", "r"));
    var one := Append(j, EMPTY_OBJECT, CLAUDE_SECTION, section);
    OneKeyIsOk(j, "accessToken", "b");
    OneKeyIsOk(j, "refresh_token", "r");
    EmptyObjectIsTight(j);
    AppendKeepsWellFormed(j, EMPTY_OBJECT, CLAUDE_SECTION, section);
    AppendKeepsWellFormed(j, one, CLAUDE_LEGACY, legacy);
    ParsePrinted(j, HiddenToken(j));
    PrintedIsNotBlank(j, HiddenToken(j));
    forall n | n == CLAUDE_SECTION || n == CLAUDE_LEGACY
      ensures Values(HiddenToken(j).members, n) == [if n == CLAUDE_SECTION then section else legacy]
    {
      ValuesAppend(j, EMPTY_OBJECT, CLAUDE_SECTION, section, n);
      ValuesAppend(j, one, CLAUDE_LEGACY, legacy, n);
    }
    LookupIsFirst(HiddenToken(j), CLAUDE_LEGACY);
  }

  lemma FirstAccessEnds(j: Json, root: seq<Member>, a: string, b: string, raw: bytes, tokens: seq<Member>)
    requires MapValue(root, a) == Some(raw) && MapOf(j, raw) == Some(tokens)
             && FirstString(j, tokens, CLAUDE_ACCESS_KEYS) != ""
    ensures ReadSections(j, root, [a, b], NO_CREDENTIAL) == ReadSection(j, tokens, NO_CREDENTIAL)
  {
  }

  /** The detector takes it for a token-only file with the access token of the first section; the guard sees a token. */
  lemma HiddenTokenIsOverlooked(j: Json)
    ensures var data := PrintObject(HiddenToken(j));
            && !HasRefreshToken(j, Claude, data) && RefreshTokenOnDisk(j, Claude, data)
            && ParseTarget(j, Claude, data).TokenOnly? && ParseTarget(j, Claude, data).cred.access == "b"
  {
    HiddenTokenIsSeen(j);
    var cred := HiddenTokenReads(j);
    ReadAsTokenOnly(j, PrintObject(HiddenToken(j)), cred);
  }

  lemma ReadAsTokenOnly(j: Json, data: bytes, cred: Credential)
    requires ParseClaude(j, data) == Some(cred) && cred.access != "" && cred.refresh == ""
    ensures !HasRefreshToken(j, Claude, data) && ParseTarget(j, Claude, data) == TokenOnly(cred)
  {
  }

  lemma HiddenTokenReads(j: Json) returns (cred: Credential)
    ensures ParseClaude(j, PrintObject(HiddenToken(j))) == Some(cred) && cred.access == "b" && cred.refresh == ""
  {
    HiddenTokenIsOk(j);
    OneKeyIsOk(j, "accessToken", "b");
    var s := OneKey(j, "accessToken", "b");
    SectionReadFirst(j, PrintObject(HiddenToken(j)), HiddenToken(j), PrintObject(s), s);
    cred := ReadSection(j, s.members, NO_CREDENTIAL);
    AccessKeyReads(j);
  }

  lemma AccessKeyReads(j: Json)
    ensures FirstString(j, OneKey(j, "accessToken", "b").members, CLAUDE_ACCESS_KEYS) == "b"
    ensures FirstString(j, OneKey(j, "accessToken", "b").members, CLAUDE_REFRESH) == ""
  {
    OneKeyReads(j, "accessToken", "b", "accessToken", "access_token");
    OneKeyReads(j, "accessToken", "b", "refreshToken", "refresh_token");
    assert TrimLeft("b") == "b" && TrimRight("b") == "b";
  }

  lemma SectionReadFirst(j: Json, data: bytes, doc: Object, raw: bytes, s: Object)
    requires Parse(j, data) == Ok(doc) && Values(doc.members, CLAUDE_SECTION) == [raw] && Parse(j, raw) == Ok(s)
    ensures FirstString(j, s.members, CLAUDE_ACCESS_KEYS) != "" ==>
      ParseClaude(j, data) == Some(ReadSection(j, s.members, NO_CREDENTIAL))
  {
    if FirstString(j, s.members, CLAUDE_ACCESS_KEYS) == "" {
      return;
    }
    FirstAccessEnds(j, doc.members, CLAUDE_SECTION, CLAUDE_LEGACY, raw, s.members);
  }

  lemma HiddenTokenIsSeen(j: Json)
    ensures RefreshTokenOnDisk(j, Claude, PrintObject(HiddenToken(j)))
  {
    HiddenTokenIsOk(j);
    OneKeyIsOk(j, "refresh_token", "r");
    OneKeyIsSeen(j, "refresh_token", "r");
    assert "refresh_token" in GuardKeys(Claude) by { assert CLAUDE_REFRESH[1] == "refresh_token"; }
    assert SectionHoldsToken(j, HiddenToken(j), CLAUDE_LEGACY, GuardKeys(Claude));
    assert CLAUDE_LEGACY in GuardSections(Claude) by { assert CLAUDE_SECTIONS[1] == CLAUDE_LEGACY; }
  }

  /** With a usable active profile and nobody else acting, every pass reports an error at such a live file and leaves
      the refresh token in it. */
  lemma HiddenTokenIsStuck(w: Setup, lookup: AccountLookup, path: Path) returns (d: Disk)
    requires w.tool == Claude && w.j.millis(ONE).Some?
    ensures d.active in d.profiles && d.profiles[d.active] == Has(PrintObject(ExampleLogin(w.j)))
    ensures d.files == map[path := PrintObject(HiddenToken(w.j))]
    ensures QuietPass(w, lookup, [Live(path)], d) == Outcome(d, false)
  {
    hide BuildTarget, ParseFull, ParseTarget, RefreshTokenOnDisk, HasRefreshToken, StorePlan, Parse, Append;
    d := Disk(map[path := PrintObject(HiddenToken(w.j))], map["p" := Has(PrintObject(ExampleLogin(w.j)))], "p");
    LoginIsFull(w.j);
    HiddenTokenIsOverlooked(w.j);
    DueIsStuck(w, lookup, d, Live(path));
  }
}
