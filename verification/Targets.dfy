/** The files the server keeps in step with its profiles, and what a single write does to them. */
module Targets {
  import opened Bytes
  import opened Library
  import opened Builders
  import opened Readers
  import opened ImportChoice

  type Path = string

  /** A file that receives token-only rewrites. An external file follows the active profile when its own is "". */
  datatype Target = Live(path: Path) | External(path: Path, profile: string)

  /** The libraries and the tool this is about. */
  datatype Setup = Setup(j: Json, fold: string -> string, tool: Tool)

  /** What is on disk: the target files, the profile store and the pointer to the active profile. */
  datatype Disk = Disk(files: map<Path, bytes>, profiles: map<string, Stored>, active: string)

  /** The profile a target follows. */
  function Followed(active: string, t: Target): string {
    if t.External? && t.profile != "" then t.profile else active
  }

  /** A live file, or an external one that names no profile: what a switch rewrites. */
  predicate FollowsActive(t: Target) {
    t.External? ==> t.profile == ""
  }

  /** The targets the fan-out of a profile reaches: the live files when it is the active profile, and the externals
      that name it. */
  predicate Reaches(active: string, profile: string, t: Target) {
    if t.Live? then active != "" && active == profile else t.profile == profile
  }

  predicate HoldsLoginAt(w: Setup, files: map<Path, bytes>, path: Path) {
    path in files && HasRefreshToken(w.j, w.tool, files[path])
  }

  // ---- The writer ----

  function Existing(files: map<Path, bytes>, path: Path): bytes {
    if path in files then files[path] else []
  }

  /** What the writer puts into a file: None when it refuses, because the file holds a login that was not imported, or
      cannot build the new content. */
  ghost function NewContent(w: Setup, existing: bytes, full: bytes, imported: bool): Option<bytes> {
    if !imported && RefreshTokenOnDisk(w.j, w.tool, existing) then None
    else
      match BuildTarget(w.j, w.tool, existing, full)
      case Err(_) => None
      case Ok(built) => Some(built)
  }

  ghost function GuardedWrite(w: Setup, files: map<Path, bytes>, path: Path, full: bytes): map<Path, bytes> {
    match NewContent(w, Existing(files, path), full, false)
    case None => files
    case Some(built) => files[path := built]
  }

  // ---- Comparing logins ----

  /** The tokens two copies of a file are compared by; None when the file is no usable target. */
  function LoginTokens(w: Setup, data: bytes): Option<Credential> {
    match ParseTarget(w.j, w.tool, data)
    case Unusable => None
    case TokenOnly(cred) => Some(cred)
    case HoldsLogin(cred) => Some(cred)
  }

  predicate SameLogin(w: Setup, a: bytes, b: bytes) {
    var x, y := LoginTokens(w, a), LoginTokens(w, b);
    if x.None? || y.None? then a == b
    else x.value.access == y.value.access && x.value.refresh == y.value.refresh
  }

  datatype StripResult = Stripped(files: map<Path, bytes>) | Moved | StripFailed

  /** The locked strip of a login whose stored bytes are `data`. */
  ghost function StripLogin(w: Setup, files: map<Path, bytes>, path: Path, data: bytes): StripResult {
    if !HoldsLoginAt(w, files, path) then Stripped(files)
    else if !SameLogin(w, data, files[path]) then Moved
    else
      match NewContent(w, files[path], data, true)
      case None => StripFailed
      case Some(built) => Stripped(files[path := built])
  }

  // ---- The store of a login ----

  /** The names tried for a new profile when its own is taken. */
  const SUFFIXES := ["", "-2", "-3", "-4", "-5", "-6", "-7", "-8", "-9", "-10"]

  /** The name a login can be stored under at some attempt: a free one when a profile is created, and the picked one,
      if it exists, otherwise. */
  predicate MayStore(profiles: map<string, Stored>, profile: string, create: bool, attempt: nat) {
    && attempt < |SUFFIXES| && (attempt == 0 || create)
    && (profile + SUFFIXES[attempt] in profiles <==> !create)
  }
}
