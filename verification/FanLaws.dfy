/** Which files a quiet look rewrites, and which it leaves alone. */
module FanLaws {
  import opened Bytes
  import opened Editor
  import opened Builders
  import opened Readers
  import opened ReadBack
  import opened ImportChoice
  import opened Targets
  import opened Writing
  import opened Passes
  import opened Convergence

  // ---- What a fan-out reaches ----

  /** A live file of the active profile, or an external one that names the profile. */
  predicate IsBound(active: string, profile: string, t: Target) {
    match t
    case Live(_) => profile == active && active != ""
    case External(_, own) => own == profile
  }

  lemma {:induction false} ReachedAreBound(active: string, profile: string, targets: seq<Target>)
    ensures forall t :: t in Reached(active, profile, targets) <==> t in targets && IsBound(active, profile, t)
  {
    if targets != [] {
      ReachedAreBound(active, profile, targets[1..]);
      assert forall t :: t in targets <==> t == targets[0] || t in targets[1..];
    }
  }

  /** The file holds a target built from this credential. */
  ghost predicate IsBuiltFrom(w: Setup, files: map<Path, bytes>, path: Path, full: bytes) {
    path in files && exists before :: BuildTarget(w.j, w.tool, before, full) == Ok(files[path])
  }

  lemma WriteKeepsBuilt(w: Setup, files: map<Path, bytes>, path: Path, full: bytes, q: Path)
    requires IsBuiltFrom(w, files, q, full)
    ensures IsBuiltFrom(w, GuardedWrite(w, files, path, full), q, full)
  {
    hide BuildTarget, RefreshTokenOnDisk;
  }

  lemma WriteBuilds(w: Setup, files: map<Path, bytes>, path: Path, full: bytes)
    requires HasFields(w.j, w.tool, full) && Writable(w, Existing(files, path))
    ensures IsBuiltFrom(w, GuardedWrite(w, files, path, full), path, full)
  {
    hide RefreshTokenOnDisk, HasFields, Writable;
    NewContentIff(w, Existing(files, path), full);
  }

  lemma {:induction false} FanOutKeepsBuilt(w: Setup, files: map<Path, bytes>, full: bytes, todo: seq<Target>, q: Path)
    requires IsBuiltFrom(w, files, q, full)
    ensures IsBuiltFrom(w, WriteEach(w, files, full, todo), q, full)
    decreases |todo|
  {
    hide GuardedWrite, IsBuiltFrom;
    if todo != [] {
      WriteKeepsBuilt(w, files, todo[0].path, full, q);
      FanOutKeepsBuilt(w, GuardedWrite(w, files, todo[0].path, full), full, todo[1..], q);
    }
  }

  lemma WriteElsewhere(w: Setup, files: map<Path, bytes>, path: Path, full: bytes, q: Path)
    requires path != q
    ensures SameAt(files, GuardedWrite(w, files, path, full), q)
  {
    hide NewContent;
  }

  /** A fan-out writes every target it is given that is missing or can be written. */
  lemma {:induction false} FanOutBuilds(w: Setup, files: map<Path, bytes>, full: bytes, todo: seq<Target>, t: Target)
    requires HasFields(w.j, w.tool, full) && t in todo && Writable(w, Existing(files, t.path))
    ensures IsBuiltFrom(w, WriteEach(w, files, full, todo), t.path, full)
    decreases |todo|
  {
    hide GuardedWrite, IsBuiltFrom, Writable, HasFields;
    var next := GuardedWrite(w, files, todo[0].path, full);
    if todo[0].path == t.path {
      WriteBuilds(w, files, t.path, full);
      FanOutKeepsBuilt(w, next, full, todo[1..], t.path);
    } else {
      WriteElsewhere(w, files, todo[0].path, full, t.path);
      FanOutBuilds(w, next, full, todo[1..], t);
    }
  }

  /** And no other file. */
  lemma {:induction false} FanOutElsewhere(w: Setup, files: map<Path, bytes>, full: bytes, todo: seq<Target>, q: Path)
    requires forall t | t in todo :: t.path != q
    ensures SameAt(files, WriteEach(w, files, full, todo), q)
    decreases |todo|
  {
    hide GuardedWrite;
    if todo != [] {
      WriteElsewhere(w, files, todo[0].path, full, q);
      FanOutElsewhere(w, GuardedWrite(w, files, todo[0].path, full), full, todo[1..], q);
    }
  }

  // ---- The name of a new profile ----

  predicate IsTaken(profiles: map<string, Stored>, profile: string, k: nat)
    requires k < |SUFFIXES|
  {
    profile + SUFFIXES[k] in profiles
  }

  /** The first of the ten names that is not taken. */
  predicate IsFirstFree(profiles: map<string, Stored>, profile: string, name: string) {
    exists k | 0 <= k < |SUFFIXES| ::
      name == profile + SUFFIXES[k] && !IsTaken(profiles, profile, k)
      && forall m | 0 <= m < k :: IsTaken(profiles, profile, m)
  }

  lemma {:induction false} NameIsFree(profiles: map<string, Stored>, profile: string, attempt: nat)
    requires attempt <= |SUFFIXES| && forall m | 0 <= m < attempt :: IsTaken(profiles, profile, m)
    ensures var name := FreeName(profiles, profile, attempt);
            if name.Some? then IsFirstFree(profiles, profile, name.value)
            else forall m | 0 <= m < |SUFFIXES| :: IsTaken(profiles, profile, m)
    decreases |SUFFIXES| - attempt
  {
    if attempt < |SUFFIXES| && IsTaken(profiles, profile, attempt) {
      NameIsFree(profiles, profile, attempt + 1);
    }
  }

  // ---- What an import writes ----

  /** Some target at this path is bound to the active profile p. */
  predicate IsServedBy(p: string, targets: seq<Target>, q: Path) {
    exists t | t in targets :: t.path == q && IsBound(p, p, t)
  }

  /** A quiet import that goes without an error leaves its file built from the login, and so every target of the profile
      the login went to that is missing or can be written; no other file changes. */
  lemma ImportFansOut(w: Setup, lookup: AccountLookup, targets: seq<Target>, d: Disk, path: Path, q: Path)
    requires HoldsLoginAt(w, d.files, path) && ImportOne(w, lookup, targets, d, path).ok
    ensures var o, full := ImportOne(w, lookup, targets, d, path).disk, d.files[path];
            && IsBuiltFrom(w, o.files, path, full)
            && (IsServedBy(o.active, targets, q) && q != path && Writable(w, Existing(d.files, q)) ==>
                  IsBuiltFrom(w, o.files, q, full))
            && (!IsServedBy(o.active, targets, q) && q != path ==> SameAt(d.files, o.files, q))
  {
    hide StorePlan, IsBuiltFrom, Writable, HasFields, BuildTarget, IsBound;
    var full := d.files[path];
    var p := StorePlan(w, lookup, d, path, full).value;
    StripFansOut(w, targets, Disk(d.files, d.profiles[p := Has(full)], p), path, p, q);
  }

  lemma StripFansOut(w: Setup, targets: seq<Target>, d: Disk, path: Path, p: string, q: Path)
    requires path in d.files && d.active == p && StripOne(w, targets, d, path, p).ok
    ensures var o, full := StripOne(w, targets, d, path, p).disk, d.files[path];
            && o.active == p && IsBuiltFrom(w, o.files, path, full)
            && (IsServedBy(p, targets, q) && q != path && Writable(w, Existing(d.files, q)) ==>
                  IsBuiltFrom(w, o.files, q, full))
            && (!IsServedBy(p, targets, q) && q != path ==> SameAt(d.files, o.files, q))
  {
    hide Writable, HasFields, IsBound, RefreshTokenOnDisk;
    var full := d.files[path];
    var built := NewContent(w, full, full, true).value;
    var files, todo := d.files[path := built], Reached(p, p, targets);
    assert BuildTarget(w.j, w.tool, full, full) == Ok(built);
    assert IsBuiltFrom(w, files, path, full);
    BuildOkIff(w.j, w.tool, full, full);
    FanOutKeepsBuilt(w, files, full, todo, path);
    ReachedAreBound(p, p, targets);
    if q != path {
      assert Existing(files, q) == Existing(d.files, q);
      if !IsServedBy(p, targets, q) {
        FanOutElsewhere(w, files, full, todo, q);
      } else if Writable(w, Existing(d.files, q)) {
        var t :| t in targets && t.path == q && IsBound(p, p, t);
        FanOutBuilds(w, files, full, todo, t);
      }
    }
  }

  /** A target built from a usable credential is token-only and carries its access token. */
  lemma BuiltCarries(w: Setup, files: map<Path, bytes>, path: Path, full: bytes)
    requires IsBuiltFrom(w, files, path, full) && IsUsable(w, full)
    ensures var view := ParseTarget(w.j, w.tool, files[path]);
            view.TokenOnly? && view.cred.access == ParseFull(w.j, w.tool, full).value.access
  {
    hide ParseTarget, ParseFull, BuildTarget;
    var before :| BuildTarget(w.j, w.tool, before, full) == Ok(files[path]);
    TargetReadsBack(w.j, w.tool, before, full);
  }

  // ---- What a look leaves alone ----

  /** A file that is missing stays so; and one without a login stays as it is when it follows no profile, or one without
      a full credential, or is token-only with the access token of that credential. */
  lemma LookLeavesAlone(w: Setup, lookup: AccountLookup, targets: seq<Target>, d: Disk, t: Target)
    requires !HoldsLoginAt(w, d.files, t.path)
    requires var p := if t.External? && t.profile != "" then t.profile else d.active;
             var stored := if p in d.profiles && d.profiles[p].Has? then ParseFull(w.j, w.tool, d.profiles[p].data)
                           else None;
             || t.path !in d.files || p == "" || stored.None?
             || (var view := ParseTarget(w.j, w.tool, d.files[t.path]);
                 view.TokenOnly? && view.cred.access == stored.value.access)
    ensures ReconcileOne(w, lookup, targets, d, t) == Outcome(d, true)
  {
    hide ParseFull, ParseTarget, ImportOne;
  }

  /** Any other file without a login is rewritten from the credential of the profile it follows, if it can be. */
  lemma LookHeals(w: Setup, lookup: AccountLookup, targets: seq<Target>, d: Disk, t: Target)
    requires t.path in d.files && !HoldsLoginAt(w, d.files, t.path)
    requires var p := if t.External? && t.profile != "" then t.profile else d.active;
             && p != "" && p in d.profiles && d.profiles[p].Has?
             && var stored := ParseFull(w.j, w.tool, d.profiles[p].data);
             && stored.Some? && HasFields(w.j, w.tool, d.profiles[p].data)
             && (var view := ParseTarget(w.j, w.tool, d.files[t.path]);
                 view.TokenOnly? ==> view.cred.access != stored.value.access)
    requires Writable(w, d.files[t.path])
    ensures var p, o := if t.External? && t.profile != "" then t.profile else d.active,
                        ReconcileOne(w, lookup, targets, d, t);
            && o.ok && IsBuiltFrom(w, o.disk.files, t.path, d.profiles[p].data)
            && o.disk.profiles == d.profiles && o.disk.active == d.active
            && forall q | q != t.path :: SameAt(d.files, o.disk.files, q)
  {
    hide ParseFull, ParseTarget, ImportOne, IsBuiltFrom, Writable, HasFields, RefreshTokenOnDisk, BuildTarget;
    var p := if t.External? && t.profile != "" then t.profile else d.active;
    NewContentIff(w, d.files[t.path], d.profiles[p].data);
    WriteBuilds(w, d.files, t.path, d.profiles[p].data);
  }
}
