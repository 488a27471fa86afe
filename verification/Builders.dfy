/** The target builders as functions: what each of them makes of an existing file and a full credential. */
module Builders {
  import opened Bytes
  import opened Grammar
  import opened Compaction
  import opened Library
  import opened Ordering
  import opened Editor
  import opened Edits

  datatype Tool = Claude | Codex | OtherTool

  /** NilObject is the nil dereference the program runs into when `emptyObject` could not parse its own text. */
  datatype BuildError =
    | UnknownTool
    | BadCredential(error: ParseError)
    | BadCredentialSection(error: ParseError)
    | NoSection
    | NoAccessToken
    | NoRefreshToken
    | BadExisting(error: ParseError)
    | BadExistingSection(error: ParseError)
    | NilObject

  type Built = Result<bytes, BuildError>

  const CLAUDE_SECTION := "claudeAiOauth"
  const CLAUDE_LEGACY := "claude_ai_oauth"
  const CLAUDE_MANAGED := ["accessToken", "expiresAt", "scopes", "subscriptionType", "rateLimitTier",
                           "refreshTokenExpiresAt"]
  const CLAUDE_ALIASES := map[
    "access_token" := "accessToken", "expires_at" := "expiresAt", "subscription_type" := "subscriptionType",
    "rate_limit_tier" := "rateLimitTier", "refresh_token_expires_at" := "refreshTokenExpiresAt"]
  const CLAUDE_REFRESH := ["refreshToken", "refresh_token"]

  const CODEX_MODE := "chatgptAuthTokens"
  const CODEX_MODE_VALUE: bytes := [QUOTE] + Ascii(CODEX_MODE) + [QUOTE]
  const CODEX_AUTH_MODE := "auth_mode"
  const CODEX_TOKENS := "tokens"
  const CODEX_REFRESH := "refresh_token"
  const CODEX_LAST_REFRESH := "last_refresh"
  const CODEX_MANAGED := ["id_token", "access_token", "account_id"]
  const CODEX_ALIASES := map[
    "idToken" := "id_token", "accessToken" := "access_token", "accountId" := "account_id",
    "refreshToken" := "refresh_token"]

  const EMPTY_STRING: bytes := [QUOTE, QUOTE]

  // ---- Reading the full credential ----

  /** A raw value decoded into a Go string: None when it is neither a string nor null. */
  function StringOf(j: Json, raw: bytes): Option<string> {
    if IsString(raw) then Some(j.decode(raw)) else if raw == NULL then Some("") else None
  }

  predicate IsNonEmptyString(j: Json, raw: Option<bytes>) {
    raw.Some? && StringOf(j, raw.value).Some? && StringOf(j, raw.value).value != ""
  }

  function Canonical(name: string, aliases: map<string, string>): string {
    if name in aliases then aliases[name] else name
  }

  /** The fields of a section under their canonical names, without the refresh tokens; the last spelling of a name
      wins. */
  function Collect(ms: seq<Member>, aliases: map<string, string>, refresh: seq<string>): map<string, bytes> {
    if ms == [] then map[]
    else
      var before := Collect(ms[..|ms| - 1], aliases, refresh);
      var m := ms[|ms| - 1];
      var name := Canonical(m.name, aliases);
      if name in refresh then before else before[name := Compact(m.value)]
  }

  function Field(fields: map<string, bytes>, name: string): Option<bytes> {
    if name in fields then Some(fields[name]) else None
  }

  /** The value of the first of two names an object has. */
  function LookupEither(o: Object, first: string, second: string): Option<bytes> {
    match Lookup(o, first)
    case Some(raw) => Some(raw)
    case None => Lookup(o, second)
  }

  /** The login section of a full credential: the member called `name`, else `legacy`. */
  function CredentialSection(j: Json, full: bytes, name: string, legacy: string): Result<Object, BuildError> {
    match Parse(j, full)
    case Err(e) => Err(BadCredential(e))
    case Ok(doc) =>
      match LookupEither(doc, name, legacy)
      case None => Err(NoSection)
      case Some(raw) =>
        match Parse(j, raw)
        case Err(e) => Err(BadCredentialSection(e))
        case Ok(section) => Ok(section)
  }

  function ClaudeFields(j: Json, full: bytes): Result<map<string, bytes>, BuildError> {
    match CredentialSection(j, full, CLAUDE_SECTION, CLAUDE_LEGACY)
    case Err(e) => Err(e)
    case Ok(section) =>
      var fields := Collect(section.members, CLAUDE_ALIASES, CLAUDE_REFRESH);
      if IsNonEmptyString(j, Field(fields, "accessToken")) then Ok(fields) else Err(NoAccessToken)
  }

  function CodexFields(j: Json, full: bytes): Result<(map<string, bytes>, Option<bytes>), BuildError> {
    match CredentialSection(j, full, CODEX_TOKENS, CODEX_TOKENS)
    case Err(e) => Err(e)
    case Ok(section) =>
      var fields := Collect(section.members, CODEX_ALIASES, [CODEX_REFRESH]);
      if IsNonEmptyString(j, Field(fields, "access_token")) then Ok((fields, LastRefresh(j, full)))
      else Err(NoAccessToken)
  }

  function LastRefresh(j: Json, full: bytes): Option<bytes> {
    match Parse(j, full)
    case Err(_) => None
    case Ok(doc) =>
      match Lookup(doc, CODEX_LAST_REFRESH)
      case None => None
      case Some(raw) => if raw == NULL then None else Some(Compact(raw))
  }

  // ---- Opening the existing file ----

  /** A new document, and the section layouts of `emptyObject`, as the literals the program parses. */
  const NEW_DOCUMENT: bytes := [OPEN_BRACE, NEWLINE, CLOSE_BRACE]
  const COMPACT_OBJECT: bytes := [OPEN_BRACE, CLOSE_BRACE]

  datatype OpenFile = OpenFile(doc: Object, base: Option<Object>, hasLegacy: bool)

  /** The first of the named members that is present and not null, parsed as an object. */
  function FirstSection(j: Json, doc: Object, names: seq<string>): Result<Option<Object>, BuildError> {
    if names == [] then Ok(None)
    else
      var raw := Lookup(doc, names[0]);
      if raw == None || raw == Some(NULL) then FirstSection(j, doc, names[1..])
      else
        match Parse(j, raw.value)
        case Err(e) => Err(BadExistingSection(e))
        case Ok(o) => Ok(Some(o))
  }

  function OpenDocument(j: Json, existing: bytes, section: string, legacy: string): Result<OpenFile, BuildError> {
    if IsBlank(existing) then
      match Parse(j, NEW_DOCUMENT)
      case Err(_) => Err(NilObject)
      case Ok(doc) => Ok(OpenFile(doc, None, false))
    else
      match Parse(j, existing)
      case Err(e) => Err(BadExisting(e))
      case Ok(doc) =>
        match FirstSection(j, doc, if legacy == "" then [section] else [section, legacy])
        case Err(e) => Err(e)
        case Ok(base) => Ok(OpenFile(doc, base, legacy != "" && Lookup(doc, legacy).Some?))
  }

  /** The bytes in front of the members of a document on their line, two spaces when no member starts a line. */
  function MemberIndent(ms: seq<Member>): bytes {
    if ms == [] then [SPACE, SPACE]
    else
      var before := SplitHead(ms[0]).0;
      var line := PastLastByte(before, NEWLINE);
      if line > 0 then before[line..] else MemberIndent(ms[1..])
  }

  /** The literal of an empty section laid out like the document. */
  function EmptyText(doc: Object): bytes {
    if NEWLINE in PrintObject(doc) then [OPEN_BRACE] + ([NEWLINE] + MemberIndent(doc.members)) + [CLOSE_BRACE]
    else COMPACT_OBJECT
  }

  /** That literal parsed; None when it is not valid. */
  function EmptyObject(j: Json, doc: Object): Option<Object> {
    match Parse(j, EmptyText(doc))
    case Err(_) => None
    case Ok(o) => Some(o)
  }

  function Section(j: Json, file: OpenFile): Option<Object> {
    match file.base
    case Some(o) => Some(o)
    case None => EmptyObject(j, file.doc)
  }

  // ---- Editing the section ----

  /** A managed field follows the credential: it is set to the credential's value or removed. */
  function Manage(j: Json, s: Object, names: seq<string>, fields: map<string, bytes>): Object
    decreases |names|
  {
    if names == [] then s
    else
      var n := names[0];
      Manage(j, if n in fields then Set(j, s, n, fields[n]) else Delete(s, n), names[1..], fields)
  }

  function SetFields(j: Json, s: Object, names: seq<string>, fields: map<string, bytes>): Object
    requires forall n | n in names :: n in fields
    decreases |names|
  {
    if names == [] then s else SetFields(j, Set(j, s, names[0], fields[names[0]]), names[1..], fields)
  }

  function DeleteEach(s: Object, names: seq<string>): Object
    decreases |names|
  {
    if names == [] then s else DeleteEach(Delete(s, names[0]), names[1..])
  }

  function Unmanaged(names: seq<string>): (r: seq<string>)
    ensures forall n :: n in r <==> n in names && n !in CLAUDE_MANAGED
  {
    if names == [] then []
    else (if names[0] in CLAUDE_MANAGED then [] else [names[0]]) + Unmanaged(names[1..])
  }

  /** The fields that are not managed, in the order they are written. */
  ghost function Extras(fields: map<string, bytes>): (r: seq<string>)
    ensures forall n :: n in r <==> n in fields && n !in CLAUDE_MANAGED
  {
    Unmanaged(Ordered(fields.Keys))
  }

  ghost function ClaudeSection(j: Json, s: Object, fields: map<string, bytes>): Object {
    DeleteEach(SetFields(j, Manage(j, s, CLAUDE_MANAGED, fields), Extras(fields), fields), CLAUDE_REFRESH)
  }

  function CodexSection(j: Json, s: Object, fields: map<string, bytes>): Object {
    Set(j, Manage(j, DeleteAll(s, CODEX_ALIASES.Keys), CODEX_MANAGED, fields), CODEX_REFRESH, EMPTY_STRING)
  }

  // ---- The builders ----

  /** The document around the claude section, without its old spelling. */
  function ClaudeDocument(j: Json, file: OpenFile, section: bytes): Object {
    var doc := Set(j, file.doc, CLAUDE_SECTION, section);
    if file.hasLegacy then Delete(doc, CLAUDE_LEGACY) else doc
  }

  ghost function BuildClaude(j: Json, existing: bytes, full: bytes): Built {
    match ClaudeFields(j, full)
    case Err(e) => Err(e)
    case Ok(fields) =>
      match OpenDocument(j, existing, CLAUDE_SECTION, CLAUDE_LEGACY)
      case Err(e) => Err(e)
      case Ok(file) =>
        match Section(j, file)
        case None => Err(NilObject)
        case Some(section) => Ok(PrintObject(ClaudeDocument(j, file, PrintObject(ClaudeSection(j, section, fields)))))
  }

  /** The document around the codex tokens. */
  function CodexDocument(j: Json, doc: Object, tokens: bytes, lastRefresh: Option<bytes>): Object {
    var d := Set(j, Set(j, doc, CODEX_AUTH_MODE, CODEX_MODE_VALUE), CODEX_TOKENS, tokens);
    match lastRefresh
    case Some(v) => Set(j, d, CODEX_LAST_REFRESH, v)
    case None => Delete(d, CODEX_LAST_REFRESH)
  }

  function BuildCodex(j: Json, existing: bytes, full: bytes): Built {
    match CodexFields(j, full)
    case Err(e) => Err(e)
    case Ok((fields, lastRefresh)) =>
      match OpenDocument(j, existing, CODEX_TOKENS, "")
      case Err(e) => Err(e)
      case Ok(file) =>
        match Section(j, file)
        case None => Err(NilObject)
        case Some(tokens) =>
          Ok(PrintObject(CodexDocument(j, file.doc, PrintObject(CodexSection(j, tokens, fields)), lastRefresh)))
  }

  ghost function BuildTarget(j: Json, tool: Tool, existing: bytes, full: bytes): Built {
    match tool
    case Claude => BuildClaude(j, existing, full)
    case Codex => BuildCodex(j, existing, full)
    case OtherTool => Err(UnknownTool)
  }

  /** The refresh token of a full claude credential, as written. */
  function ClaudeRefresh(j: Json, full: bytes): Result<bytes, BuildError> {
    match CredentialSection(j, full, CLAUDE_SECTION, CLAUDE_LEGACY)
    case Err(e) => Err(e)
    case Ok(section) =>
      if IsNonEmptyString(j, Lookup(section, "refreshToken")) then Ok(Lookup(section, "refreshToken").value)
      else if IsNonEmptyString(j, Lookup(section, "refresh_token")) then Ok(Lookup(section, "refresh_token").value)
      else Err(NoRefreshToken)
  }

  function CodexRefresh(j: Json, full: bytes): Result<bytes, BuildError> {
    match CredentialSection(j, full, CODEX_TOKENS, CODEX_TOKENS)
    case Err(e) => Err(e)
    case Ok(tokens) =>
      var raw := Lookup(tokens, CODEX_REFRESH);
      if IsNonEmptyString(j, raw) then Ok(raw.value) else Err(NoRefreshToken)
  }

  /** Opens a built document again and sets one field of its section. */
  function SetInSection(j: Json, built: bytes, section: string, key: string, value: bytes): Built {
    match OpenDocument(j, built, section, "")
    case Err(e) => Err(e)
    case Ok(file) =>
      match file.base
      case None => Err(NilObject)
      case Some(s) => Ok(PrintObject(Set(j, file.doc, section, PrintObject(Set(j, s, key, value)))))
  }

  ghost function BuildFullTarget(j: Json, tool: Tool, existing: bytes, full: bytes): Built {
    match BuildTarget(j, tool, existing, full)
    case Err(e) => Err(e)
    case Ok(built) =>
      match if tool == Claude then ClaudeRefresh(j, full) else CodexRefresh(j, full)
      case Err(e) => Err(e)
      case Ok(refresh) =>
        if tool == Claude then SetInSection(j, built, CLAUDE_SECTION, "refreshToken", refresh)
        else SetInSection(j, built, CODEX_TOKENS, CODEX_REFRESH, refresh)
  }

  /** Removes the refresh keys from each of the named sections that is there. */
  function StripSections(j: Json, doc: Object, names: seq<string>): Result<Object, BuildError>
    decreases |names|
  {
    if names == [] then Ok(doc)
    else
      match Lookup(doc, names[0])
      case None => StripSections(j, doc, names[1..])
      case Some(raw) =>
        match Parse(j, raw)
        case Err(e) => Err(BadCredentialSection(e))
        case Ok(section) =>
          StripSections(j, Set(j, doc, names[0], PrintObject(DeleteEach(section, CLAUDE_REFRESH))), names[1..])
  }

  function StripClaude(j: Json, data: bytes): Built {
    match Parse(j, data)
    case Err(e) => Err(BadCredential(e))
    case Ok(doc) =>
      match StripSections(j, doc, [CLAUDE_SECTION, CLAUDE_LEGACY])
      case Err(e) => Err(e)
      case Ok(stripped) => Ok(PrintObject(stripped))
  }

  function StripCodex(j: Json, data: bytes): Built {
    match Parse(j, data)
    case Err(e) => Err(BadCredential(e))
    case Ok(doc) =>
      match Lookup(doc, CODEX_TOKENS)
      case None => Ok(PrintObject(doc))
      case Some(raw) =>
        match Parse(j, raw)
        case Err(e) => Err(BadCredentialSection(e))
        case Ok(tokens) =>
          var stripped := Set(j, Delete(tokens, "refreshToken"), CODEX_REFRESH, EMPTY_STRING);
          Ok(PrintObject(Set(j, doc, CODEX_TOKENS, PrintObject(stripped))))
  }

  function StripRefreshToken(j: Json, tool: Tool, data: bytes): Built {
    match tool
    case Claude => StripClaude(j, data)
    case Codex => StripCodex(j, data)
    case OtherTool => Err(UnknownTool)
  }
}
