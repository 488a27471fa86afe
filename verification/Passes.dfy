/** What one pass of the reconciler makes of the disk when nobody else acts and no call fails, as a function, and why
    such passes settle. */
module Passes {
  import opened Bytes
  import opened Builders
  import opened Readers
  import opened ImportChoice
  import opened Ordering
  import opened Targets
  import opened Writing

  /** What the choice of a profile learns from outside the store, for a login at a path. */
  type AccountLookup = (Path, bytes, map<string, Stored>) -> Accounts

  /** The disk after some work, and whether all of it went without an error. */
  datatype Outcome = Outcome(disk: Disk, ok: bool)

  // ---- One target ----

  /** A target is rewritten when its access token is not that of the profile it follows. */
  predicate HealDue(w: Setup, d: Disk, t: Target) {
    var p := Followed(d.active, t);
    && p != "" && p in d.profiles && d.profiles[p].Has? && t.path in d.files
    && var full, view := ParseFull(w.j, w.tool, d.profiles[p].data), ParseTarget(w.j, w.tool, d.files[t.path]);
    full.Some? && match view case TokenOnly(cred) => cred.access != full.value.access case _ => true
  }

  ghost function WriteOne(w: Setup, d: Disk, path: Path, full: bytes): Outcome {
    Outcome(d.(files := GuardedWrite(w, d.files, path, full)),
            NewContent(w, Existing(d.files, path), full, false).Some?)
  }

  ghost function HealOne(w: Setup, d: Disk, t: Target): Outcome {
    if HealDue(w, d, t) then WriteOne(w, d, t.path, d.profiles[Followed(d.active, t)].data) else Outcome(d, true)
  }

  /** The targets the fan-out of a profile reaches, in order. */
  function Reached(active: string, profile: string, targets: seq<Target>): seq<Target> {
    if targets == [] then []
    else (if Reaches(active, profile, targets[0]) then [targets[0]] else []) + Reached(active, profile, targets[1..])
  }

  /** A fan-out writes one target after the other; an error at one does not stop the others. */
  ghost function WriteEach(w: Setup, files: map<Path, bytes>, full: bytes, todo: seq<Target>): map<Path, bytes>
    decreases |todo|
  {
    if todo == [] then files else WriteEach(w, GuardedWrite(w, files, todo[0].path, full), full, todo[1..])
  }

  /** The first of the names for a new profile, from some attempt on, that is free. */
  function FreeName(profiles: map<string, Stored>, profile: string, attempt: nat): Option<string>
    decreases |SUFFIXES| - attempt
  {
    if attempt >= |SUFFIXES| then None
    else if profile + SUFFIXES[attempt] !in profiles then Some(profile + SUFFIXES[attempt])
    else FreeName(profiles, profile, attempt + 1)
  }

  /** The name a login is stored under: None when the picked profile is gone, or all names of a new one are taken. */
  function StoreName(profiles: map<string, Stored>, profile: string, create: bool): Option<string> {
    if create then FreeName(profiles, profile, 0) else if profile in profiles then Some(profile) else None
  }

  /** A login that has been stored in profile `p`: it is stripped, and then fanned out. */
  ghost function StripOne(w: Setup, targets: seq<Target>, d: Disk, path: Path, p: string): Outcome
    requires path in d.files
  {
    match NewContent(w, d.files[path], d.files[path], true)
    case None => Outcome(d, false)
    case Some(built) => Outcome(d.(files := WriteEach(w, d.files[path := built], d.files[path],
                                                      Reached(d.active, p, targets))), true)
  }

  /** The profile a login is stored in: None when there is none for it. */
  ghost function StorePlan(w: Setup, lookup: AccountLookup, d: Disk, path: Path, data: bytes): Option<string> {
    match PickPlan(w, lookup, d, path, data)
    case None => None
    case Some((profile, create)) => StoreName(d.profiles, profile, create)
  }

  /** The profile picked for a login, and whether it is to be created. */
  ghost function PickPlan(w: Setup, lookup: AccountLookup, d: Disk, path: Path, data: bytes): Option<(string, bool)> {
    match Decide(w.j, w.fold, w.tool, Store(d.profiles, d.active), data, lookup(path, data, d.profiles))
    case Refuse(_) => None
    case Go(decision) => Some((decision.profile, decision.create))
  }

  ghost function ImportOne(w: Setup, lookup: AccountLookup, targets: seq<Target>, d: Disk, path: Path): Outcome
    requires path in d.files
  {
    if AnyLinked(d.profiles) then Outcome(d, false)
    else
      match StorePlan(w, lookup, d, path, d.files[path])
      case None => Outcome(d, false)
      case Some(p) => StripOne(w, targets, Disk(d.files, d.profiles[p := Has(d.files[path])], p), path, p)
  }

  ghost function ReconcileOne(w: Setup, lookup: AccountLookup, targets: seq<Target>, d: Disk, t: Target): Outcome {
    if t.path !in d.files then Outcome(d, true)
    else if HoldsLoginAt(w, d.files, t.path) then ImportOne(w, lookup, targets, d, t.path)
    else HealOne(w, d, t)
  }

  /** The targets in order; an error at one does not stop the others. */
  ghost function PassOver(w: Setup, lookup: AccountLookup, targets: seq<Target>, d: Disk, todo: seq<Target>): Outcome
    decreases |todo|
  {
    if todo == [] then Outcome(d, true)
    else
      var first := ReconcileOne(w, lookup, targets, d, todo[0]);
      var rest := PassOver(w, lookup, targets, first.disk, todo[1..]);
      Outcome(rest.disk, first.ok && rest.ok)
  }

  ghost function QuietPass(w: Setup, lookup: AccountLookup, targets: seq<Target>, d: Disk): Outcome {
    PassOver(w, lookup, targets, d, targets)
  }

  // ---- When a target is reconciled without an error ----

  /** The accounts learned about a login name only profiles that exist, and a new name that is free in some spelling. */
  predicate WellKept(a: Accounts, profiles: map<string, Stored>) {
    a.profiles.Keys <= profiles.Keys && a.newName != "" && FreeName(profiles, a.newName, 0).Some?
  }

  /** There is a profile for a login: the active one, if any is named, exists and can be read, or some profile holds the
      login's bytes or refresh token. */
  predicate CanStore(w: Setup, d: Disk, data: bytes) {
    || d.active == "" || (d.active in d.profiles && d.profiles[d.active] != Unreadable)
    || exists n | n in d.profiles :: HoldsGrantIn(w, d, n, data)
  }

  predicate HoldsGrantIn(w: Setup, d: Disk, name: string, data: bytes) {
    && name in d.profiles && d.profiles[name].Has?
    && (d.profiles[name].data == data || SameRefreshToken(w.j, w.tool, d.profiles[name].data, data))
  }

  lemma {:induction false} FreeNameIsNamed(profiles: map<string, Stored>, profile: string, attempt: nat)
    requires profile != ""
    ensures FreeName(profiles, profile, attempt).Some? ==> FreeName(profiles, profile, attempt).value != ""
    decreases |SUFFIXES| - attempt
  {
    if attempt < |SUFFIXES| {
      FreeNameIsNamed(profiles, profile, attempt + 1);
    }
  }

  /** What a search says about the profiles. */
  predicate IsSearched(w: Setup, d: Disk, data: bytes, search: Search) {
    match search
    case LinkedFound => false
    case SameBytes(name) => HoldsGrantIn(w, d, name, data)
    case Tokens(names) =>
      && (forall n | n in names :: HoldsGrantIn(w, d, n, data))
      && (names == [] ==> forall m | m in d.profiles :: !HoldsGrantIn(w, d, m, data))
  }

  lemma SearchTells(w: Setup, d: Disk, data: bytes)
    requires !AnyLinked(d.profiles)
    ensures IsSearched(w, d, data,
                       SearchStore(SharesToken(w.j, w.tool, data), Store(d.profiles, d.active),
                                   Ordered(d.profiles.Keys), data))
  {
    SearchInOrder(SharesToken(w.j, w.tool, data), Store(d.profiles, d.active), Ordered(d.profiles.Keys), data);
  }

  /** A login has a profile to go to exactly when the store as it stands has one for it. */
  lemma StorePlanIff(w: Setup, lookup: AccountLookup, d: Disk, path: Path, data: bytes)
    requires w.tool != OtherTool && !AnyLinked(d.profiles) && "" !in d.profiles
    requires WellKept(lookup(path, data, d.profiles), d.profiles)
    ensures StorePlan(w, lookup, d, path, data).Some? <==> CanStore(w, d, data)
    ensures StorePlan(w, lookup, d, path, data).Some? ==> StorePlan(w, lookup, d, path, data).value != ""
  {
    SearchTells(w, d, data);
    var search := SearchStore(SharesToken(w.j, w.tool, data), Store(d.profiles, d.active), Ordered(d.profiles.Keys),
                              data);
    match search
    case SameBytes(name) => assert HoldsGrantIn(w, d, name, data);
    case Tokens(names) =>
      if names == [] {
        ChosenPlan(w, lookup, d, path, data);
      } else {
        assert HoldsGrantIn(w, d, PickToken(names, d.active), data);
      }
  }

  /** When no profile holds the login's grant. */
  lemma ChosenPlan(w: Setup, lookup: AccountLookup, d: Disk, path: Path, data: bytes)
    requires w.tool != OtherTool && !AnyLinked(d.profiles) && "" !in d.profiles
    requires WellKept(lookup(path, data, d.profiles), d.profiles)
    requires SearchStore(SharesToken(w.j, w.tool, data), Store(d.profiles, d.active), Ordered(d.profiles.Keys), data)
             == Tokens([])
    ensures StorePlan(w, lookup, d, path, data).Some?
       <==> d.active == "" || (d.active in d.profiles && d.profiles[d.active] != Unreadable)
    ensures StorePlan(w, lookup, d, path, data).Some? ==> StorePlan(w, lookup, d, path, data).value != ""
  {
    var accounts, store := lookup(path, data, d.profiles), Store(d.profiles, d.active);
    FreeNameIsNamed(d.profiles, accounts.newName, 0);
    var empty := ActiveIsEmpty(w.j, w.tool, store);
    ActiveTells(w, store);
    if empty.Some? {
      ChosenIsKept(w, store, accounts, empty.value);
    }
  }

  lemma ActiveTells(w: Setup, store: Store)
    requires !AnyLinked(store.profiles)
    ensures var empty := ActiveIsEmpty(w.j, w.tool, store);
            && (empty.None?
                <==> store.active != "" && store.active in store.profiles && store.profiles[store.active] == Unreadable)
            && (store.active == "" ==> empty == Some(false))
            && (store.active != "" && store.active !in store.profiles ==> empty == Some(true))
  {
  }

  /** Without a grant to go by, the choice is the active profile, a profile that exists, or a new one. */
  lemma ChosenIsKept(w: Setup, store: Store, accounts: Accounts, empty: bool)
    requires w.tool != OtherTool && WellKept(accounts, store.profiles)
    ensures var chosen := Choose(w.fold, w.tool,
                                 Env(store.active, empty, accounts.live, accounts.profiles, accounts.newName));
            && chosen.Go?
            && (store.active != "" && empty ==> chosen.decision.profile == store.active && !chosen.decision.create)
            && (if chosen.decision.create then chosen.decision.profile == accounts.newName
                else (chosen.decision.profile == store.active != "") || chosen.decision.profile in store.profiles)
  {
  }

  /** What the disk has to hold for a target to be reconciled without an error. */
  predicate CanReconcile(w: Setup, d: Disk, t: Target) {
    t.path in d.files ==>
      if HoldsLoginAt(w, d.files, t.path) then
        !AnyLinked(d.profiles) && CanStore(w, d, d.files[t.path]) && HasFields(w.j, w.tool, d.files[t.path])
      else CanHeal(w, d, t)
  }

  /** A heal is not due, or the profile's credential has the fields and the file can be written. */
  predicate CanHeal(w: Setup, d: Disk, t: Target) {
    HealDue(w, d, t) ==>
      HasFields(w.j, w.tool, d.profiles[Followed(d.active, t)].data) && Writable(w, d.files[t.path])
  }

  lemma HealOneOkIff(w: Setup, d: Disk, t: Target)
    ensures HealOne(w, d, t).ok <==> CanHeal(w, d, t)
  {
    if HealDue(w, d, t) {
      NewContentIff(w, d.files[t.path], d.profiles[Followed(d.active, t)].data);
    }
  }

  lemma StripOneOkIff(w: Setup, targets: seq<Target>, d: Disk, path: Path, p: string)
    requires path in d.files
    ensures StripOne(w, targets, d, path, p).ok <==> HasFields(w.j, w.tool, d.files[path])
  {
    NewContentIff(w, d.files[path], d.files[path]);
    if HasFields(w.j, w.tool, d.files[path]) {
      FieldsOpen(w.j, w.tool, d.files[path]);
    }
  }

  /** One quiet look at a target goes without an error exactly when the disk allows it. */
  lemma ReconcileOneOkIff(w: Setup, lookup: AccountLookup, targets: seq<Target>, d: Disk, t: Target)
    requires "" !in d.profiles
    requires t.path in d.files ==> WellKept(lookup(t.path, d.files[t.path], d.profiles), d.profiles)
    ensures ReconcileOne(w, lookup, targets, d, t).ok <==> CanReconcile(w, d, t)
  {
    hide BuildTarget, ParseFull, RefreshTokenOnDisk, HasFields, Writable, StorePlan, GuardedWrite;
    HealOneOkIff(w, d, t);
    if HoldsLoginAt(w, d.files, t.path) && !AnyLinked(d.profiles) {
      var data := d.files[t.path];
      StorePlanIff(w, lookup, d, t.path, data);
      var plan := StorePlan(w, lookup, d, t.path, data);
      if plan.Some? {
        StripOneOkIff(w, targets, Disk(d.files, d.profiles[plan.value := Has(data)], plan.value), t.path, plan.value);
      }
    }
  }

  // ---- What a pass leaves in a file ----

  predicate SameAt(before: map<Path, bytes>, after: map<Path, bytes>, path: Path) {
    (path in after <==> path in before) && (path in before ==> after[path] == before[path])
  }

  /** A file stays as it is, or is written token-only; and one that is neither a login nor writable stays. */
  predicate Evolved(w: Setup, before: map<Path, bytes>, after: map<Path, bytes>, path: Path) {
    && (SameAt(before, after, path) || (path in after && Clean(w, after[path])))
    && (path in before && !HasRefreshToken(w.j, w.tool, before[path]) && !Writable(w, before[path])
        ==> SameAt(before, after, path))
  }

  lemma EvolvedTwice(w: Setup, a: map<Path, bytes>, b: map<Path, bytes>, c: map<Path, bytes>, path: Path)
    requires Evolved(w, a, b, path) && Evolved(w, b, c, path)
    ensures Evolved(w, a, c, path)
  {
  }

  lemma GuardedWriteMoves(w: Setup, files: map<Path, bytes>, path: Path, full: bytes, q: Path)
    ensures Evolved(w, files, GuardedWrite(w, files, path, full), q)
  {
    NewContentIff(w, Existing(files, path), full);
    NewContentIsClean(w, Existing(files, path), full, false);
  }

  lemma {:induction false} WriteEachMoves(w: Setup, files: map<Path, bytes>, full: bytes, todo: seq<Target>, q: Path)
    ensures Evolved(w, files, WriteEach(w, files, full, todo), q)
    decreases |todo|
  {
    if todo != [] {
      var next := GuardedWrite(w, files, todo[0].path, full);
      GuardedWriteMoves(w, files, todo[0].path, full, q);
      WriteEachMoves(w, next, full, todo[1..], q);
      EvolvedTwice(w, files, next, WriteEach(w, next, full, todo[1..]), q);
    }
  }

  lemma StripOneMoves(w: Setup, targets: seq<Target>, d: Disk, path: Path, p: string, q: Path)
    requires HoldsLoginAt(w, d.files, path)
    ensures var o := StripOne(w, targets, d, path, p);
            && Evolved(w, d.files, o.disk.files, q)
            && (o.ok ==> path in o.disk.files && Clean(w, o.disk.files[path]))
            && o.disk.profiles == d.profiles && o.disk.active == d.active
  {
    var content := NewContent(w, d.files[path], d.files[path], true);
    NewContentIsClean(w, d.files[path], d.files[path], true);
    if content.Some? {
      var stripped := d.files[path := content.value];
      var todo := Reached(d.active, p, targets);
      WriteEachMoves(w, stripped, d.files[path], todo, q);
      WriteEachMoves(w, stripped, d.files[path], todo, path);
      EvolvedTwice(w, d.files, stripped, WriteEach(w, stripped, d.files[path], todo), q);
    }
  }

  lemma ReconcileOneMoves(w: Setup, lookup: AccountLookup, targets: seq<Target>, d: Disk, t: Target, q: Path)
    ensures var o := ReconcileOne(w, lookup, targets, d, t);
            && Evolved(w, d.files, o.disk.files, q)
            && (HoldsLoginAt(w, d.files, t.path) && o.ok ==> t.path in o.disk.files && Clean(w, o.disk.files[t.path]))
  {
    if HoldsLoginAt(w, d.files, t.path) {
      var plan := StorePlan(w, lookup, d, t.path, d.files[t.path]);
      if !AnyLinked(d.profiles) && plan.Some? {
        StripOneMoves(w, targets, Disk(d.files, d.profiles[plan.value := Has(d.files[t.path])], plan.value), t.path,
                      plan.value, q);
      }
    } else if HealDue(w, d, t) {
      GuardedWriteMoves(w, d.files, t.path, d.profiles[Followed(d.active, t)].data, q);
    }
  }
}
