/** The second reader of a credential file: it decodes objects into maps, so the last member of a name wins. */
module Readers {
  import opened Bytes
  import opened Grammar
  import opened Library
  import opened Editor
  import opened Edits
  import opened Builders

  // ---- strings.TrimSpace ----

  predicate IsWhite(c: char) {
    '\t' <= c <= '\r' || c == ' ' || c == '\U{85}' || c == '\U{A0}' || c == '\U{1680}' || '\U{2000}' <= c <= '\U{200A}'
    || c == '\U{2028}' || c == '\U{2029}' || c == '\U{202F}' || c == '\U{205F}' || c == '\U{3000}'
  }

  function TrimLeft(s: string): string {
    if s != "" && IsWhite(s[0]) then TrimLeft(s[1..]) else s
  }

  function TrimRight(s: string): string {
    if s != "" && IsWhite(s[|s| - 1]) then TrimRight(s[..|s| - 1]) else s
  }

  function Trim(s: string): string {
    TrimRight(TrimLeft(s))
  }

  // ---- Objects as maps ----

  predicate IsNullText(data: bytes) {
    var s := SkipSpace(data);
    |s| >= 4 && s[..4] == NULL && AllSpace(s[4..])
  }

  /** Decoding into a map: an object gives its members, null an empty map, anything else an error. */
  function MapOf(j: Json, data: bytes): Option<seq<Member>> {
    match Parse(j, data)
    case Ok(o) => Some(o.members)
    case Err(_) => if IsNullText(data) then Some([]) else None
  }

  /** What a map holds for a name: the value of the last member of that name. */
  function MapValue(ms: seq<Member>, name: string): Option<bytes> {
    var vs := Values(ms, name);
    if vs == [] then None else Some(vs[|vs| - 1])
  }

  /** The first of the keys that holds a string that is not blank, trimmed; "" when none does. */
  function FirstString(j: Json, ms: seq<Member>, keys: seq<string>): string {
    if keys == [] then "" else
      var raw := MapValue(ms, keys[0]);
      if raw.Some? && StringOf(j, raw.value).Some? && Trim(StringOf(j, raw.value).value) != ""
      then Trim(StringOf(j, raw.value).value)
      else FirstString(j, ms, keys[1..])
  }

  function FirstMillis(j: Json, ms: seq<Member>, keys: seq<string>): Option<int> {
    if keys == [] then None else
      var raw := MapValue(ms, keys[0]);
      if raw.Some? && j.millis(raw.value).Some? then j.millis(raw.value) else FirstMillis(j, ms, keys[1..])
  }

  // ---- Credentials ----

  datatype Credential = Credential(access: string, refresh: string, account: string, expires: Option<int>)

  const NO_CREDENTIAL := Credential("", "", "", None)
  const CLAUDE_SECTIONS := [CLAUDE_SECTION, CLAUDE_LEGACY]
  const CLAUDE_ACCESS_KEYS := ["accessToken", "access_token"]
  const CLAUDE_EXPIRY_KEYS := ["expiresAt", "expires_at"]

  function ReadSection(j: Json, tokens: seq<Member>, cred: Credential): Credential {
    var expires := FirstMillis(j, tokens, CLAUDE_EXPIRY_KEYS);
    Credential(FirstString(j, tokens, CLAUDE_ACCESS_KEYS), FirstString(j, tokens, CLAUDE_REFRESH), "",
               if expires.Some? then expires else cred.expires)
  }

  /** The claude reader: the first section with an access token, else what the last readable section holds. */
  function ReadSections(j: Json, root: seq<Member>, names: seq<string>, cred: Credential): Credential
    decreases |names|
  {
    if names == [] then cred else
      match MapValue(root, names[0])
      case None => ReadSections(j, root, names[1..], cred)
      case Some(raw) =>
        match MapOf(j, raw)
        case None => ReadSections(j, root, names[1..], cred)
        case Some(tokens) =>
          var read := ReadSection(j, tokens, cred);
          if read.access != "" then read
          else if cred.access != "" then ReadSections(j, root, names[1..], cred)
          else ReadSections(j, root, names[1..], read)
  }

  function ParseClaude(j: Json, data: bytes): Option<Credential> {
    match MapOf(j, data)
    case None => None
    case Some(root) => Some(ReadSections(j, root, CLAUDE_SECTIONS, NO_CREDENTIAL))
  }

  function CodexAccountOf(j: Json, tokens: seq<Member>, access: string): string {
    var account := FirstString(j, tokens, ["account_id", "accountId"]);
    if account != "" then account else
      var fromId := j.jwtAccount(FirstString(j, tokens, ["id_token", "idToken"]));
      if fromId != "" then fromId else j.jwtAccount(access)
  }

  function ReadTokens(j: Json, tokens: seq<Member>): Credential {
    var access := FirstString(j, tokens, ["access_token", "accessToken"]);
    Credential(access, FirstString(j, tokens, ["refresh_token", "refreshToken"]), CodexAccountOf(j, tokens, access),
               j.jwtExpiry(access))
  }

  function ParseCodex(j: Json, data: bytes): Option<Credential> {
    match MapOf(j, data)
    case None => None
    case Some(root) =>
      var raw := MapValue(root, CODEX_TOKENS);
      var tokens := if raw.Some? && MapOf(j, raw.value).Some? then MapOf(j, raw.value).value else [];
      Some(ReadTokens(j, tokens))
  }

  function ParseCredential(j: Json, tool: Tool, data: bytes): Option<Credential> {
    match tool
    case Claude => ParseClaude(j, data)
    case Codex => ParseCodex(j, data)
    case OtherTool => None
  }

  /** A store credential: an access token, a refresh token and, for claude, an expiry. */
  function ParseFull(j: Json, tool: Tool, data: bytes): Option<Credential> {
    var cred := ParseCredential(j, tool, data);
    if cred.Some? && cred.value.access != "" && cred.value.refresh != ""
       && (tool == Claude ==> cred.value.expires.Some?)
    then cred else None
  }

  /** What a live file turns out to be. */
  datatype TargetView = Unusable | TokenOnly(cred: Credential) | HoldsLogin(cred: Credential)

  function ParseTarget(j: Json, tool: Tool, data: bytes): TargetView {
    match ParseCredential(j, tool, data)
    case None => Unusable
    case Some(cred) =>
      if cred.access == "" || (tool == Codex && cred.account == "") then Unusable
      else if cred.refresh != "" then HoldsLogin(cred)
      else TokenOnly(cred)
  }

  predicate HasRefreshToken(j: Json, tool: Tool, data: bytes) {
    var cred := ParseCredential(j, tool, data);
    cred.Some? && cred.value.refresh != ""
  }

  // ---- The writer's guard, on the first reader ----

  predicate SectionHoldsToken(j: Json, doc: Object, name: string, keys: seq<string>) {
    var raw := Lookup(doc, name);
    raw.Some? && Parse(j, raw.value).Ok?
    && exists k | k in keys :: IsNonEmptyString(j, Lookup(Parse(j, raw.value).value, k))
  }

  function GuardSections(tool: Tool): seq<string> {
    if tool == Claude then CLAUDE_SECTIONS else [CODEX_TOKENS]
  }

  function GuardKeys(tool: Tool): seq<string> {
    if tool == Claude then CLAUDE_REFRESH else [CODEX_REFRESH, "refreshToken"]
  }

  /** The file holds a refresh token that the writer refuses to overwrite. */
  predicate RefreshTokenOnDisk(j: Json, tool: Tool, data: bytes) {
    !IsBlank(data) && Parse(j, data).Ok?
    && exists n | n in GuardSections(tool) :: SectionHoldsToken(j, Parse(j, data).value, n, GuardKeys(tool))
  }
}
