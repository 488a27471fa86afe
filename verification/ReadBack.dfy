/** A built target reads back as the credential it was built from. */
module ReadBack {
  import opened Bytes
  import opened Grammar
  import opened Compaction
  import opened Library
  import opened Editor
  import opened Edits
  import opened Builders
  import opened SectionLaws
  import opened BuilderLaws
  import opened Readers
  import opened ReaderLaws

  // ---- One spelling per field ----

  /** At most one member in all is called `a` or `b`. */
  predicate SpelledOnce(ms: seq<Member>, a: string, b: string) {
    |Values(ms, a)| + |Values(ms, b)| <= 1
  }

  predicate ClaudeSpelledOnce(ms: seq<Member>) {
    && SpelledOnce(ms, "accessToken", "access_token")
    && SpelledOnce(ms, "expiresAt", "expires_at")
    && SpelledOnce(ms, "refreshToken", "refresh_token")
  }

  predicate CodexSpelledOnce(ms: seq<Member>) {
    && SpelledOnce(ms, "access_token", "accessToken")
    && SpelledOnce(ms, "refresh_token", "refreshToken")
    && SpelledOnce(ms, "id_token", "idToken")
    && SpelledOnce(ms, "account_id", "accountId")
  }

  /** The credential holds one login section, and every field of it in one spelling. */
  predicate OneSpelling(j: Json, tool: Tool, full: bytes) {
    Parse(j, full).Ok? ==>
      var root := Parse(j, full).value.members;
      match tool
      case Claude =>
        SpelledOnce(root, CLAUDE_SECTION, CLAUDE_LEGACY)
        && (var s := CredentialSection(j, full, CLAUDE_SECTION, CLAUDE_LEGACY);
            s.Ok? ==> ClaudeSpelledOnce(s.value.members))
      case Codex =>
        Once(root, CODEX_TOKENS)
        && (var s := CredentialSection(j, full, CODEX_TOKENS, CODEX_TOKENS);
            s.Ok? ==> CodexSpelledOnce(s.value.members))
      case OtherTool => true
  }

  // ---- Collecting fields ----

  /** The values of all members whose canonical name is `n`. */
  function CanonicalValues(ms: seq<Member>, aliases: map<string, string>, n: string): seq<bytes> {
    if ms == [] then []
    else CanonicalValues(ms[..|ms| - 1], aliases, n)
         + if Canonical(ms[|ms| - 1].name, aliases) == n then [ms[|ms| - 1].value] else []
  }

  lemma {:induction false} CollectField(ms: seq<Member>, aliases: map<string, string>, refresh: seq<string>, n: string)
    requires n !in refresh
    ensures var vs := CanonicalValues(ms, aliases, n);
            Field(Collect(ms, aliases, refresh), n) == if vs == [] then None else Some(Compact(vs[|vs| - 1]))
  {
    if ms != [] {
      CollectField(ms[..|ms| - 1], aliases, refresh, n);
    }
  }

  lemma ValuesLast(ms: seq<Member>, n: string)
    requires ms != []
    ensures var m := ms[|ms| - 1];
            Values(ms, n) == Values(ms[..|ms| - 1], n) + if m.name == n then [m.value] else []
  {
    var m := ms[|ms| - 1];
    assert ms == ms[..|ms| - 1] + [m];
    ValuesConcat(ms[..|ms| - 1], [m], n);
    assert [m][1..] == [];
  }

  lemma {:induction false} CanonicalOfTwo(ms: seq<Member>, aliases: map<string, string>, a: string, b: string)
    requires a != b && SpelledOnce(ms, a, b) && forall x :: Canonical(x, aliases) == a <==> x == a || x == b
    ensures CanonicalValues(ms, aliases, a) == Values(ms, a) + Values(ms, b)
  {
    if ms != [] {
      ValuesLast(ms, a);
      ValuesLast(ms, b);
      CanonicalOfTwo(ms[..|ms| - 1], aliases, a, b);
    }
  }

  /** A field spelled once is collected from the one member that spells it. */
  lemma FieldSpelledOnce(ms: seq<Member>, aliases: map<string, string>, refresh: seq<string>, a: string, b: string)
    requires a != b && SpelledOnce(ms, a, b) && forall x :: Canonical(x, aliases) == a <==> x == a || x == b
    requires a !in refresh
    ensures var vs := Values(ms, a) + Values(ms, b);
            Field(Collect(ms, aliases, refresh), a) == if vs == [] then None else Some(Compact(vs[0]))
  {
    CanonicalOfTwo(ms, aliases, a, b);
    CollectField(ms, aliases, refresh, a);
  }

  // ---- Reading one field ----

  /** A field spelled once reads as its one value. */
  lemma ReadSpelledOnce(j: Json, ms: seq<Member>, a: string, b: string)
    requires SpelledOnce(ms, a, b)
    ensures var vs := Values(ms, a) + Values(ms, b);
            FirstString(j, ms, [a, b]) == if vs == [] then "" else Text(j, vs[0])
  {
    ReadOne(j, ms, a, b);
  }

  lemma MillisSpelledOnce(j: Json, ms: seq<Member>, a: string, b: string)
    requires SpelledOnce(ms, a, b)
    ensures var vs := Values(ms, a) + Values(ms, b);
            FirstMillis(j, ms, [a, b]) == if vs == [] then None else j.millis(vs[0])
  {
    assert [a, b][1..] == [b] && [b][1..] == [];
    assert FirstMillis(j, ms, [b]) == (var y := MapValue(ms, b); if y.Some? then j.millis(y.value) else None);
  }

  /** Compacting changes neither the string nor the number a value denotes. */
  lemma CompactReads(j: Json, raw: bytes)
    requires IsValue(raw)
    ensures StringOf(j, Compact(raw)) == StringOf(j, raw) && Text(j, Compact(raw)) == Text(j, raw)
    ensures j.millis(raw).Some? ==> j.millis(Compact(raw)) == j.millis(raw)
  {
    CompactKeepsValue(raw);
    assert MillisIsNumber(j, raw);
    var v :| Good(v) && Print(v) == raw;
    if v.Nest? {
      CompactValue(v, []);
      assert raw + [] == raw && Print(Squeeze(v)) + [] == Print(Squeeze(v));
      assert Compact(raw)[0] == Open(v.braces) && raw[0] == Open(v.braces);
    }
  }

  lemma MemberValues(j: Json, o: Object, n: string)
    requires WellFormed(j, o)
    ensures forall v | v in Values(o.members, n) :: IsValue(v)
  {
    assert forall i | 0 <= i < |o.members| :: MemberOk(j, o.members[i], true && i == 0);
    ValuesAreValues(o.members, n);
  }

  lemma {:induction false} ValuesAreValues(ms: seq<Member>, n: string)
    requires forall i | 0 <= i < |ms| :: IsValue(ms[i].value)
    ensures forall v | v in Values(ms, n) :: IsValue(v)
  {
    if ms != [] {
      ValuesAreValues(ms[1..], n);
    }
  }

  /** What the section of a target reads for a field of the credential, given the credential's one spelling of it. */
  lemma FieldReads(j: Json, cred: Object, aliases: map<string, string>, refresh: seq<string>, a: string, b: string)
    requires WellFormed(j, cred) && a != b && SpelledOnce(cred.members, a, b) && a !in refresh
    requires forall x :: Canonical(x, aliases) == a <==> x == a || x == b
    ensures var field := Field(Collect(cred.members, aliases, refresh), a);
            && FirstString(j, cred.members, [a, b]) == (if field.Some? then Text(j, field.value) else "")
            && (FirstMillis(j, cred.members, [a, b]).Some? ==>
                  field.Some? && j.millis(field.value) == FirstMillis(j, cred.members, [a, b]))
  {
    var vs := Values(cred.members, a) + Values(cred.members, b);
    FieldSpelledOnce(cred.members, aliases, refresh, a, b);
    ReadSpelledOnce(j, cred.members, a, b);
    MillisSpelledOnce(j, cred.members, a, b);
    MemberValues(j, cred, a);
    MemberValues(j, cred, b);
    if vs != [] {
      CompactReads(j, vs[0]);
    }
  }

  // ---- Claude ----

  /** The pieces of a credential that has a section. */
  lemma CredentialParts(j: Json, full: bytes, name: string, legacy: string)
    requires CredentialSection(j, full, name, legacy).Ok?
    ensures var s := CredentialSection(j, full, name, legacy).value;
            && Parse(j, full).Ok?
            && var root := Parse(j, full).value;
            && WellFormed(j, root) && PrintObject(root) == full && WellFormed(j, s)
            && LookupEither(root, name, legacy) == Some(PrintObject(s))
  {
    ParseIsExact(j, full);
    ParseIsExact(j, LookupEither(Parse(j, full).value, name, legacy).value);
  }

  /** Of two names spelled once in all, the one that is there has the value. */
  lemma EitherValue(o: Object, a: string, b: string, raw: bytes)
    requires SpelledOnce(o.members, a, b) && LookupEither(o, a, b) == Some(raw)
    ensures (Values(o.members, a) == [raw] && Values(o.members, b) == [])
         || (Values(o.members, b) == [raw] && Values(o.members, a) == [])
  {
    LookupIsFirst(o, a);
    LookupIsFirst(o, b);
  }

  /** The section of a claude credential with one section is the one the map-based reader reads. */
  lemma ClaudeCredentialReads(j: Json, full: bytes, s: Object)
    requires CredentialSection(j, full, CLAUDE_SECTION, CLAUDE_LEGACY) == Ok(s)
    requires Parse(j, full).Ok? ==> SpelledOnce(Parse(j, full).value.members, CLAUDE_SECTION, CLAUDE_LEGACY)
    ensures WellFormed(j, s) && ParseClaude(j, full) == Some(ReadSection(j, s.members, NO_CREDENTIAL))
  {
    CredentialParts(j, full, CLAUDE_SECTION, CLAUDE_LEGACY);
    var root := Parse(j, full).value;
    EitherValue(root, CLAUDE_SECTION, CLAUDE_LEGACY, PrintObject(s));
    ReadsOnlySection(j, root, s);
  }

  lemma ClaudeCanonical(x: string)
    ensures Canonical(x, CLAUDE_ALIASES) == "accessToken" <==> x == "accessToken" || x == "access_token"
    ensures Canonical(x, CLAUDE_ALIASES) == "expiresAt" <==> x == "expiresAt" || x == "expires_at"
  {
  }

  /** A section that holds a field of the credential reads it like the credential's own section. */
  lemma HeldFieldReads(j: Json, s: Object, p: Object, aliases: map<string, string>, refresh: seq<string>, a: string,
                       b: string)
    requires WellFormed(j, s) && a != b && SpelledOnce(s.members, a, b) && a !in refresh
    requires forall x :: Canonical(x, aliases) == a <==> x == a || x == b
    requires var field := Field(Collect(s.members, aliases, refresh), a);
             field.Some? ==> Values(p.members, a) == [field.value]
    ensures FirstString(j, s.members, [a, b]) != ""
            ==> FirstString(j, p.members, [a, b]) == FirstString(j, s.members, [a, b])
    ensures FirstMillis(j, s.members, [a, b]).Some?
            ==> FirstMillis(j, p.members, [a, b]) == FirstMillis(j, s.members, [a, b])
  {
    FieldReads(j, s, aliases, refresh, a, b);
    ReadOne(j, p.members, a, b);
  }

  /** A section that holds the credential's fields once each reads like the credential's own. */
  lemma ClaudeSectionReads(j: Json, s: Object, p: Object)
    requires WellFormed(j, s) && ClaudeSpelledOnce(s.members)
    requires var fields := Collect(s.members, CLAUDE_ALIASES, CLAUDE_REFRESH);
             forall n | n in fields :: Values(p.members, n) == [fields[n]]
    ensures var access := FirstString(j, s.members, CLAUDE_ACCESS_KEYS);
            access != "" ==> FirstString(j, p.members, CLAUDE_ACCESS_KEYS) == access
    ensures var expires := FirstMillis(j, s.members, CLAUDE_EXPIRY_KEYS);
            expires.Some? ==> FirstMillis(j, p.members, CLAUDE_EXPIRY_KEYS) == expires
  {
    forall x
      ensures Canonical(x, CLAUDE_ALIASES) == "accessToken" <==> x == "accessToken" || x == "access_token"
      ensures Canonical(x, CLAUDE_ALIASES) == "expiresAt" <==> x == "expiresAt" || x == "expires_at"
    {
      ClaudeCanonical(x);
    }
    HeldFieldReads(j, s, p, CLAUDE_ALIASES, CLAUDE_REFRESH, "accessToken", "access_token");
    HeldFieldReads(j, s, p, CLAUDE_ALIASES, CLAUDE_REFRESH, "expiresAt", "expires_at");
  }

  /** The credential a claude document is read as, when its section is `p`. */
  lemma ClaudeReadsLike(j: Json, full: bytes, s: Object, p: Object)
    requires CredentialSection(j, full, CLAUDE_SECTION, CLAUDE_LEGACY) == Ok(s) && OneSpelling(j, Claude, full)
    requires ParseFull(j, Claude, full).Some?
    requires var fields := Collect(s.members, CLAUDE_ALIASES, CLAUDE_REFRESH);
             forall n | n in fields :: Values(p.members, n) == [fields[n]]
    ensures ReadSection(j, p.members, NO_CREDENTIAL)
         == ParseFull(j, Claude, full).value.(refresh := FirstString(j, p.members, CLAUDE_REFRESH))
    ensures ParseFull(j, Claude, full).value.refresh == FirstString(j, s.members, CLAUDE_REFRESH)
  {
    CredentialParts(j, full, CLAUDE_SECTION, CLAUDE_LEGACY);
    ClaudeCredentialReads(j, full, s);
    ClaudeSectionReads(j, s, p);
  }

  lemma ClaudeReadsBack(j: Json, existing: bytes, full: bytes)
    requires BuildClaude(j, existing, full).Ok? && OneSpelling(j, Claude, full)
    requires ParseFull(j, Claude, full).Some?
    ensures ParseClaude(j, BuildClaude(j, existing, full).value)
            == Some(ParseFull(j, Claude, full).value.(refresh := ""))
  {
    var cred := CredentialSection(j, full, CLAUDE_SECTION, CLAUDE_LEGACY).value;
    var doc, s := ClaudeBuilt(j, existing, full);
    ReadsOnlySection(j, doc, s);
    SettledValues(s, ClaudeFields(j, full).value);
    FirstStringNone(j, s.members, CLAUDE_REFRESH);
    ClaudeReadsLike(j, full, cred, s);
  }

  /** The refresh token a full build puts back is the one the map-based reader finds in the credential. */
  lemma ClaudeRefreshReads(j: Json, full: bytes, s: Object)
    requires CredentialSection(j, full, CLAUDE_SECTION, CLAUDE_LEGACY) == Ok(s)
    requires SpelledOnce(s.members, "refreshToken", "refresh_token") && ClaudeRefresh(j, full).Ok?
    ensures Text(j, ClaudeRefresh(j, full).value) == FirstString(j, s.members, CLAUDE_REFRESH)
  {
    ReadSpelledOnce(j, s.members, "refreshToken", "refresh_token");
    LookupIsFirst(s, "refreshToken");
    LookupIsFirst(s, "refresh_token");
  }

  lemma ClaudeFullReadsBack(j: Json, existing: bytes, full: bytes)
    requires BuildFullTarget(j, Claude, existing, full).Ok? && OneSpelling(j, Claude, full)
    requires ParseFull(j, Claude, full).Some?
    ensures ParseClaude(j, BuildFullTarget(j, Claude, existing, full).value) == ParseFull(j, Claude, full)
  {
    hide BuildCodex, ClaudeSection, Parse, Collect, Lookup, WellFormed;
    var cred := CredentialSection(j, full, CLAUDE_SECTION, CLAUDE_LEGACY).value;
    var fields := ClaudeFields(j, full).value;
    var doc, s := ClaudeBuilt(j, existing, full);
    var refresh := ClaudeRefresh(j, full).value;
    var p := Set(j, s, "refreshToken", refresh);
    RefreshIsValue(j, Claude, full);
    FullIsBuiltAndSet(j, BuildClaude(j, existing, full).value, doc, CLAUDE_SECTION, s, "refreshToken", refresh);
    ValuesSet(j, doc, CLAUDE_SECTION, PrintObject(p), CLAUDE_LEGACY);
    ReadsOnlySection(j, Set(j, doc, CLAUDE_SECTION, PrintObject(p)), p);
    SettledValues(s, fields);
    assert "refreshToken" in CLAUDE_REFRESH;
    forall n | n in fields ensures Values(p.members, n) == [fields[n]] {
      ValuesSet(j, s, "refreshToken", refresh, n);
    }
    CredentialParts(j, full, CLAUDE_SECTION, CLAUDE_LEGACY);
    ClaudeReadsLike(j, full, cred, p);
    ClaudeRefreshReads(j, full, cred);
    ValuesSet(j, s, "refreshToken", refresh, "refreshToken");
    ReadOne(j, p.members, "refreshToken", "refresh_token");
  }

  // ---- Codex ----

  lemma CodexCanonical(x: string)
    ensures Canonical(x, CODEX_ALIASES) == "access_token" <==> x == "access_token" || x == "accessToken"
    ensures Canonical(x, CODEX_ALIASES) == "id_token" <==> x == "id_token" || x == "idToken"
    ensures Canonical(x, CODEX_ALIASES) == "account_id" <==> x == "account_id" || x == "accountId"
  {
  }

  /** Tokens that hold a field under its canonical name and not under its alias read it like the credential. */
  lemma ExactFieldReads(j: Json, s: Object, p: Object, aliases: map<string, string>, refresh: seq<string>, a: string,
                        b: string)
    requires WellFormed(j, s) && a != b && SpelledOnce(s.members, a, b) && a !in refresh
    requires forall x :: Canonical(x, aliases) == a <==> x == a || x == b
    requires var field := Field(Collect(s.members, aliases, refresh), a);
             Values(p.members, a) == if field.Some? then [field.value] else []
    requires Values(p.members, b) == []
    ensures FirstString(j, p.members, [a, b]) == FirstString(j, s.members, [a, b])
  {
    FieldReads(j, s, aliases, refresh, a, b);
    ReadOne(j, p.members, a, b);
  }

  predicate IsAliasPair(aliases: map<string, string>, a: string, b: string, x: string) {
    Canonical(x, aliases) == a <==> x == a || x == b
  }

  lemma CodexFieldReads(j: Json, s: Object, p: Object, a: string, b: string)
    requires WellFormed(j, s) && SpelledOnce(s.members, a, b)
    requires forall n | n != CODEX_REFRESH :: CodexName(p, Collect(s.members, CODEX_ALIASES, [CODEX_REFRESH]), n)
    requires forall x :: IsAliasPair(CODEX_ALIASES, a, b, x)
    requires a in CODEX_MANAGED && b in CODEX_ALIASES && b !in CODEX_MANAGED && a != CODEX_REFRESH && b != CODEX_REFRESH
    ensures FirstString(j, p.members, [a, b]) == FirstString(j, s.members, [a, b])
  {
    var fields := Collect(s.members, CODEX_ALIASES, [CODEX_REFRESH]);
    assert CodexName(p, fields, a) && CodexName(p, fields, b);
    assert forall x :: IsAliasPair(CODEX_ALIASES, a, b, x) ==> (Canonical(x, CODEX_ALIASES) == a <==> x == a || x == b);
    ExactFieldReads(j, s, p, CODEX_ALIASES, [CODEX_REFRESH], a, b);
  }

  lemma CodexTokensRead(j: Json, s: Object, p: Object)
    requires WellFormed(j, s) && CodexSpelledOnce(s.members)
    requires forall n | n != CODEX_REFRESH :: CodexName(p, Collect(s.members, CODEX_ALIASES, [CODEX_REFRESH]), n)
    ensures ReadTokens(j, p.members)
         == ReadTokens(j, s.members).(refresh := FirstString(j, p.members, ["refresh_token", "refreshToken"]))
  {
    forall x
      ensures IsAliasPair(CODEX_ALIASES, "access_token", "accessToken", x)
      ensures IsAliasPair(CODEX_ALIASES, "id_token", "idToken", x)
      ensures IsAliasPair(CODEX_ALIASES, "account_id", "accountId", x)
    {
      CodexCanonical(x);
    }
    CodexFieldReads(j, s, p, "access_token", "accessToken");
    CodexFieldReads(j, s, p, "id_token", "idToken");
    CodexFieldReads(j, s, p, "account_id", "accountId");
  }

  lemma CodexCredentialReads(j: Json, full: bytes, s: Object)
    requires CredentialSection(j, full, CODEX_TOKENS, CODEX_TOKENS) == Ok(s)
    requires Parse(j, full).Ok? ==> Once(Parse(j, full).value.members, CODEX_TOKENS)
    ensures WellFormed(j, s) && ParseCodex(j, full) == Some(ReadTokens(j, s.members))
  {
    CredentialParts(j, full, CODEX_TOKENS, CODEX_TOKENS);
    ReadersAgree(Parse(j, full).value, CODEX_TOKENS);
    ParsePrinted(j, s);
  }

  lemma CodexReadsBack(j: Json, existing: bytes, full: bytes)
    requires BuildCodex(j, existing, full).Ok? && OneSpelling(j, Codex, full)
    requires ParseFull(j, Codex, full).Some?
    ensures ParseCodex(j, BuildCodex(j, existing, full).value) == Some(ParseFull(j, Codex, full).value.(refresh := ""))
  {
    var cred := CredentialSection(j, full, CODEX_TOKENS, CODEX_TOKENS).value;
    var doc, s := CodexBuilt(j, existing, full);
    CodexCredentialReads(j, full, cred);
    ReadsHeldTokens(j, doc, s);
    CodexReadsNoRefresh(j, s, CodexFields(j, full).value.0);
    CodexTokensRead(j, cred, s);
  }

  lemma CodexFullReadsBack(j: Json, existing: bytes, full: bytes)
    requires BuildFullTarget(j, Codex, existing, full).Ok? && OneSpelling(j, Codex, full)
    requires ParseFull(j, Codex, full).Some?
    ensures ParseCodex(j, BuildFullTarget(j, Codex, existing, full).value) == ParseFull(j, Codex, full)
  {
    hide CodexSection, ClaudeFields, Collect, Lookup, WellFormed, ReadSections;
    var cred := CredentialSection(j, full, CODEX_TOKENS, CODEX_TOKENS).value;
    var fields := CodexFields(j, full).value.0;
    var doc, s := CodexBuilt(j, existing, full);
    var refresh := CodexRefresh(j, full).value;
    var p := Set(j, s, CODEX_REFRESH, refresh);
    RefreshIsValue(j, Codex, full);
    FullIsBuiltAndSet(j, BuildCodex(j, existing, full).value, doc, CODEX_TOKENS, s, CODEX_REFRESH, refresh);
    CodexCredentialReads(j, full, cred);
    ReadsHeldTokens(j, Set(j, doc, CODEX_TOKENS, PrintObject(p)), p);
    forall n | n != CODEX_REFRESH ensures CodexName(p, fields, n) {
      ValuesSet(j, s, CODEX_REFRESH, refresh, n);
      assert CodexName(s, fields, n);
    }
    CodexTokensRead(j, cred, p);
    ValuesSet(j, s, CODEX_REFRESH, refresh, CODEX_REFRESH);
    CodexRefreshReads(j, cred, p, refresh);
  }

  lemma CodexRefreshReads(j: Json, s: Object, p: Object, refresh: bytes)
    requires SpelledOnce(s.members, "refresh_token", "refreshToken") && Lookup(s, CODEX_REFRESH) == Some(refresh)
    requires FirstString(j, s.members, ["refresh_token", "refreshToken"]) != ""
    requires Values(p.members, "refresh_token") == [refresh]
    ensures FirstString(j, p.members, ["refresh_token", "refreshToken"])
            == FirstString(j, s.members, ["refresh_token", "refreshToken"])
  {
    LookupIsFirst(s, CODEX_REFRESH);
    ReadSpelledOnce(j, s.members, "refresh_token", "refreshToken");
    ReadOne(j, p.members, "refresh_token", "refreshToken");
  }

  // ---- Both tools ----

  /** The token-only form of a target reads as the credential without its refresh token; it is usable as a target
      unless a codex credential names no account. */
  lemma TargetReadsBack(j: Json, tool: Tool, existing: bytes, full: bytes)
    requires BuildTarget(j, tool, existing, full).Ok? && OneSpelling(j, tool, full) && ParseFull(j, tool, full).Some?
    ensures var c := ParseFull(j, tool, full).value;
            ParseTarget(j, tool, BuildTarget(j, tool, existing, full).value)
            == if tool == Codex && c.account == "" then Unusable else TokenOnly(c.(refresh := ""))
  {
    if tool == Claude {
      ClaudeReadsBack(j, existing, full);
    } else {
      CodexReadsBack(j, existing, full);
    }
  }

  /** The full form of a target reads as the whole credential. */
  lemma FullTargetReadsBack(j: Json, tool: Tool, existing: bytes, full: bytes)
    requires BuildFullTarget(j, tool, existing, full).Ok? && OneSpelling(j, tool, full)
             && ParseFull(j, tool, full).Some?
    ensures ParseFull(j, tool, BuildFullTarget(j, tool, existing, full).value) == ParseFull(j, tool, full)
  {
    if tool == Claude {
      ClaudeFullReadsBack(j, existing, full);
    } else {
      CodexFullReadsBack(j, existing, full);
    }
  }
}
