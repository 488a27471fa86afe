/** Quiet passes settle: what two of them make of a disk, target by target. */
module Convergence {
  import opened Bytes
  import opened Builders
  import opened Readers
  import opened ReadBack
  import opened ImportChoice
  import opened Targets
  import opened Writing
  import opened Passes

  // ---- The disks that passes are about ----

  /** What is learned about logins fits the store, whatever it holds. */
  ghost predicate IsWellKept(lookup: AccountLookup) {
    forall path, data, profiles :: WellKept(lookup(path, data, profiles), profiles)
  }

  /** The store can be read: nothing is linked, and the active profile, if any is named, exists and is readable. */
  predicate Ready(d: Disk) {
    && !AnyLinked(d.profiles) && "" !in d.profiles
    && (d.active == "" || (d.active in d.profiles && d.profiles[d.active] != Unreadable))
  }

  /** Targets can be built from every stored credential that reads as full. */
  predicate IsFit(w: Setup, stored: Stored) {
    stored.Has? && ParseFull(w.j, w.tool, stored.data).Some? ==> HasFields(w.j, w.tool, stored.data)
  }

  predicate StoreIsFit(w: Setup, d: Disk) {
    forall p | p in d.profiles :: IsFit(w, d.profiles[p])
  }

  /** A login that is found has an access token that targets can be built with. */
  predicate LoginIsFit(w: Setup, d: Disk, t: Target) {
    HoldsLoginAt(w, d.files, t.path) ==> HasFields(w.j, w.tool, d.files[t.path])
  }

  predicate Good(w: Setup, d: Disk, targets: seq<Target>) {
    Ready(d) && StoreIsFit(w, d) && forall t | t in targets :: LoginIsFit(w, d, t)
  }

  /** A target that passes can bring in order: its file is missing, is a login, or can be written. */
  predicate Recoverable(w: Setup, d: Disk, t: Target) {
    t.path in d.files ==> HasRefreshToken(w.j, w.tool, d.files[t.path]) || Writable(w, d.files[t.path])
  }

  // ---- One look at a target ----

  /** A login of the disk is in the profile that is now active. */
  predicate LoginStored(w: Setup, d: Disk, t: Target, o: Disk) {
    && HoldsLoginAt(w, d.files, t.path) && o.active != ""
    && o.profiles == d.profiles[o.active := Has(d.files[t.path])]
  }

  /** The store after a look: the same, or with a login of the disk in the profile that is now active. */
  predicate StoreMoved(w: Setup, d: Disk, t: Target, o: Disk) {
    (o.profiles == d.profiles && o.active == d.active) || LoginStored(w, d, t, o)
  }

  lemma StoreMoves(w: Setup, lookup: AccountLookup, targets: seq<Target>, d: Disk, t: Target)
    requires "" !in d.profiles && IsWellKept(lookup)
    ensures var o := ReconcileOne(w, lookup, targets, d, t);
            StoreMoved(w, d, t, o.disk)
            && (HoldsLoginAt(w, d.files, t.path) && o.ok ==> LoginStored(w, d, t, o.disk))
  {
    if HoldsLoginAt(w, d.files, t.path) {
      var data := d.files[t.path];
      var plan := StorePlan(w, lookup, d, t.path, data);
      if !AnyLinked(d.profiles) && plan.Some? {
        assert WellKept(lookup(t.path, data, d.profiles), d.profiles);
        StorePlanIff(w, lookup, d, t.path, data);
        var stored := Disk(d.files, d.profiles[plan.value := Has(data)], plan.value);
        StripOneMoves(w, targets, stored, t.path, plan.value, t.path);
      }
    }
  }

  lemma EvolvedKeepsLoginFit(w: Setup, before: map<Path, bytes>, after: map<Path, bytes>, q: Path)
    requires Evolved(w, before, after, q)
    requires q in before && HasRefreshToken(w.j, w.tool, before[q]) ==> HasFields(w.j, w.tool, before[q])
    ensures q in after && HasRefreshToken(w.j, w.tool, after[q]) ==> HasFields(w.j, w.tool, after[q])
  {
  }

  /** A look keeps a disk good. */
  lemma OneKeepsGood(w: Setup, lookup: AccountLookup, targets: seq<Target>, d: Disk, t: Target)
    requires Good(w, d, targets) && IsWellKept(lookup) && t in targets
    ensures Good(w, ReconcileOne(w, lookup, targets, d, t).disk, targets)
  {
    hide ParseFull, ParseTarget, HasRefreshToken, NewContent, HasFields, Writable, StorePlan, GuardedWrite;
    var o := ReconcileOne(w, lookup, targets, d, t).disk;
    StoreMoves(w, lookup, targets, d, t);
    assert LoginIsFit(w, d, t);
    forall u | u in targets ensures LoginIsFit(w, o, u) {
      assert LoginIsFit(w, d, u);
      ReconcileOneMoves(w, lookup, targets, d, t, u.path);
      EvolvedKeepsLoginFit(w, d.files, o.files, u.path);
    }
    forall p | p in o.profiles ensures IsFit(w, o.profiles[p]) {
      assert p in d.profiles ==> IsFit(w, d.profiles[p]);
    }
  }

  /** On a good disk a look goes without an error at every recoverable target. */
  lemma RecoverableIsOk(w: Setup, lookup: AccountLookup, targets: seq<Target>, d: Disk, t: Target)
    requires Good(w, d, targets) && IsWellKept(lookup) && t in targets && Recoverable(w, d, t)
    ensures ReconcileOne(w, lookup, targets, d, t).ok
  {
    assert t.path in d.files ==> WellKept(lookup(t.path, d.files[t.path], d.profiles), d.profiles);
    ReconcileOneOkIff(w, lookup, targets, d, t);
    assert LoginIsFit(w, d, t);
    if HealDue(w, d, t) {
      assert IsFit(w, d.profiles[Followed(d.active, t)]);
    }
  }

  lemma LoginIsOk(w: Setup, lookup: AccountLookup, targets: seq<Target>, d: Disk, t: Target)
    requires Good(w, d, targets) && IsWellKept(lookup) && t in targets && HoldsLoginAt(w, d.files, t.path)
    ensures ReconcileOne(w, lookup, targets, d, t).ok
  {
    RecoverableIsOk(w, lookup, targets, d, t);
  }

  lemma EvolvedKeepsRecoverable(w: Setup, d: Disk, o: Disk, t: Target)
    requires Evolved(w, d.files, o.files, t.path) && Recoverable(w, d, t)
    ensures Recoverable(w, o, t)
  {
  }

  // ---- A pass ----

  lemma {:induction false} PassMoves(w: Setup, lookup: AccountLookup, targets: seq<Target>, d: Disk, todo: seq<Target>,
                                     q: Path)
    ensures Evolved(w, d.files, PassOver(w, lookup, targets, d, todo).disk.files, q)
    decreases |todo|
  {
    if todo != [] {
      var first := ReconcileOne(w, lookup, targets, d, todo[0]).disk;
      ReconcileOneMoves(w, lookup, targets, d, todo[0], q);
      PassMoves(w, lookup, targets, first, todo[1..], q);
      EvolvedTwice(w, d.files, first.files, PassOver(w, lookup, targets, first, todo[1..]).disk.files, q);
    }
  }

  /** A pass keeps a disk good, takes every login out of the targets it looks at, and reports no error when they are
      recoverable. A login is what the detector sees: a token that it overlooks can stay, see
      GuardLaws.GuardSeesMore. */
  lemma {:induction false} PassFrees(w: Setup, lookup: AccountLookup, targets: seq<Target>, d: Disk, todo: seq<Target>)
    requires Good(w, d, targets) && IsWellKept(lookup) && forall t | t in todo :: t in targets
    ensures var o := PassOver(w, lookup, targets, d, todo);
            && Good(w, o.disk, targets)
            && (forall t | t in todo :: !HoldsLoginAt(w, o.disk.files, t.path))
            && ((forall t | t in todo :: Recoverable(w, d, t)) ==> o.ok)
    decreases |todo|
  {
    hide ParseFull, ParseTarget, HasRefreshToken, NewContent, HasFields, Writable, StorePlan;
    if todo != [] {
      var t := todo[0];
      var first := ReconcileOne(w, lookup, targets, d, t);
      var o := PassOver(w, lookup, targets, d, todo);
      OneKeepsGood(w, lookup, targets, d, t);
      PassFrees(w, lookup, targets, first.disk, todo[1..]);
      LookFrees(w, lookup, targets, d, t);
      PassMoves(w, lookup, targets, first.disk, todo[1..], t.path);
      if forall u | u in todo :: Recoverable(w, d, u) {
        assert Recoverable(w, d, t);
        RecoverableIsOk(w, lookup, targets, d, t);
        forall u | u in todo[1..] ensures Recoverable(w, first.disk, u) {
          assert u in todo;
          ReconcileOneMoves(w, lookup, targets, d, t, u.path);
          EvolvedKeepsRecoverable(w, d, first.disk, u);
        }
      }
      assert forall u | u in todo :: u == t || u in todo[1..];
    }
  }

  lemma LookFrees(w: Setup, lookup: AccountLookup, targets: seq<Target>, d: Disk, t: Target)
    requires Good(w, d, targets) && IsWellKept(lookup) && t in targets
    ensures !HoldsLoginAt(w, ReconcileOne(w, lookup, targets, d, t).disk.files, t.path)
  {
    ReconcileOneMoves(w, lookup, targets, d, t, t.path);
    if HoldsLoginAt(w, d.files, t.path) {
      LoginIsOk(w, lookup, targets, d, t);
    }
  }

  // ---- A pass over targets without logins ----

  /** A target without a login that is as its profile would write it, if a heal is due at all. */
  ghost predicate Settled(w: Setup, d: Disk, t: Target) {
    && !HoldsLoginAt(w, d.files, t.path)
    && (HealDue(w, d, t) ==>
          NewContent(w, d.files[t.path], d.profiles[Followed(d.active, t)].data, false) == Some(d.files[t.path]))
  }

  /** A target without a login that a heal leaves as it is: it is settled, or the heal cannot be made. */
  ghost predicate Rested(w: Setup, d: Disk, t: Target) {
    !HoldsLoginAt(w, d.files, t.path) && (CanHeal(w, d, t) ==> Settled(w, d, t))
  }

  lemma RestedStays(w: Setup, d: Disk, t: Target)
    requires Rested(w, d, t)
    ensures HealOne(w, d, t).disk == d && (HealOne(w, d, t).ok <==> Settled(w, d, t))
  {
    hide ParseFull, ParseTarget, HasFields, Writable, HasRefreshToken, NewContent;
    HealOneOkIff(w, d, t);
    if HealDue(w, d, t) {
      NewContentIff(w, d.files[t.path], d.profiles[Followed(d.active, t)].data);
      if CanHeal(w, d, t) {
        assert d.files[t.path := d.files[t.path]] == d.files;
      }
    }
  }

  /** After a heal the target rests, and it is settled exactly when it could be healed. */
  lemma HealRests(w: Setup, d: Disk, t: Target)
    requires !HoldsLoginAt(w, d.files, t.path)
    ensures Rested(w, HealOne(w, d, t).disk, t)
    ensures Settled(w, HealOne(w, d, t).disk, t) <==> CanHeal(w, d, t)
  {
    if HealDue(w, d, t) {
      var full := d.profiles[Followed(d.active, t)].data;
      NewContentIff(w, d.files[t.path], full);
      if CanHeal(w, d, t) {
        NewContentIsClean(w, d.files[t.path], full, false);
        WriteIsIdempotent(w, d.files[t.path], full);
        assert HealOne(w, d, t).disk.files[t.path] == NewContent(w, d.files[t.path], full, false).value;
      }
    }
  }

  /** Two targets at one path follow the same profile. */
  predicate Agree(targets: seq<Target>) {
    forall t, u | t in targets && u in targets && t.path == u.path :: SameFollow(t, u)
  }

  predicate SameFollow(t: Target, u: Target) {
    Followed("", t) == Followed("", u)
  }

  lemma SameFollowed(t: Target, u: Target, active: string)
    requires SameFollow(t, u)
    ensures Followed(active, t) == Followed(active, u)
  {
  }

  /** A heal of another target leaves a resting one as it is. */
  lemma HealKeepsRested(w: Setup, d: Disk, t: Target, u: Target)
    requires Rested(w, d, t) && (t.path == u.path ==> SameFollow(t, u))
    ensures Rested(w, HealOne(w, d, u).disk, t)
    ensures Settled(w, HealOne(w, d, u).disk, t) <==> Settled(w, d, t)
  {
    if t.path == u.path {
      SameFollowed(t, u, d.active);
      RestedStays(w, d, t);
      assert HealOne(w, d, u) == HealOne(w, d, t);
    } else {
      HealKeepsOthers(w, d, u, t.path);
    }
  }

  lemma HealKeepsOthers(w: Setup, d: Disk, u: Target, path: Path)
    requires path != u.path
    ensures var after := HealOne(w, d, u).disk;
            after.profiles == d.profiles && after.active == d.active && SameAt(d.files, after.files, path)
  {
  }

  /** A pass over targets without logins moves no pointer and changes no profile, brings every target to rest, and
      reports an error exactly when one of them is not settled. */
  lemma {:induction false} LoginFreePassRests(w: Setup, lookup: AccountLookup, targets: seq<Target>, d: Disk,
                                              todo: seq<Target>, done: seq<Target>)
    requires Agree(done + todo)
    requires forall t | t in todo :: !HoldsLoginAt(w, d.files, t.path)
    requires forall t | t in done :: Rested(w, d, t)
    ensures var o := PassOver(w, lookup, targets, d, todo);
            && o.disk.profiles == d.profiles && o.disk.active == d.active
            && (forall t | t in done + todo :: Rested(w, o.disk, t))
            && (forall t | t in done :: Settled(w, o.disk, t) <==> Settled(w, d, t))
            && (o.ok <==> forall t | t in todo :: Settled(w, o.disk, t))
    decreases |todo|
  {
    hide ParseFull, ParseTarget, HasRefreshToken, NewContent, HasFields, Writable, StorePlan, GuardedWrite;
    if todo == [] {
      assert done + todo == done;
    } else {
      var t := todo[0];
      var first := HealOne(w, d, t);
      HealRests(w, d, t);
      HealOneOkIff(w, d, t);
      forall u | u in done ensures Rested(w, first.disk, u) && (Settled(w, first.disk, u) <==> Settled(w, d, u)) {
        assert u in done + todo && t in done + todo;
        HealKeepsRested(w, d, u, t);
      }
      forall u | u in todo[1..] ensures !HoldsLoginAt(w, first.disk.files, u.path) {
        ReconcileOneMoves(w, lookup, targets, d, t, u.path);
      }
      assert done + todo == (done + [t]) + todo[1..];
      LoginFreePassRests(w, lookup, targets, first.disk, todo[1..], done + [t]);
      assert t in done + [t];
      assert forall u | u in todo :: u == t || u in todo[1..];
    }
  }

  lemma {:induction false} RestedPassDoesNothing(w: Setup, lookup: AccountLookup, targets: seq<Target>, d: Disk,
                                                 todo: seq<Target>)
    requires forall t | t in todo :: Rested(w, d, t)
    ensures PassOver(w, lookup, targets, d, todo).disk == d
    ensures PassOver(w, lookup, targets, d, todo).ok <==> forall t | t in todo :: Settled(w, d, t)
    decreases |todo|
  {
    if todo != [] {
      RestedStays(w, d, todo[0]);
      RestedPassDoesNothing(w, lookup, targets, d, todo[1..]);
      assert forall u | u in todo :: u == todo[0] || u in todo[1..];
    }
  }

  // ---- What a settled target carries ----

  /** A full credential with one spelling per field that a target can be read from. */
  predicate IsUsable(w: Setup, data: bytes) {
    var full := ParseFull(w.j, w.tool, data);
    full.Some? && OneSpelling(w.j, w.tool, data) && (w.tool == Codex ==> full.value.account != "")
  }

  predicate Usable(w: Setup, d: Disk, p: string) {
    p != "" && p in d.profiles && d.profiles[p].Has? && IsUsable(w, d.profiles[p].data)
  }

  /** The target is token-only and carries the access token of the profile it follows. */
  predicate Carries(w: Setup, d: Disk, t: Target) {
    var p := Followed(d.active, t);
    && t.path in d.files && p in d.profiles && d.profiles[p].Has?
    && var full, view := ParseFull(w.j, w.tool, d.profiles[p].data), ParseTarget(w.j, w.tool, d.files[t.path]);
    full.Some? && view.TokenOnly? && view.cred.access == full.value.access
  }

  lemma SettledCarries(w: Setup, d: Disk, t: Target)
    requires Settled(w, d, t) && t.path in d.files && Usable(w, d, Followed(d.active, t))
    ensures Carries(w, d, t)
  {
    if HealDue(w, d, t) {
      TargetReadsBack(w.j, w.tool, d.files[t.path], d.profiles[Followed(d.active, t)].data);
    }
  }

  /** On a good disk a target at rest is settled when it is recoverable, and else exactly when no heal is due. */
  lemma RestedIsSettled(w: Setup, d: Disk, t: Target)
    requires Rested(w, d, t) && StoreIsFit(w, d)
    ensures Recoverable(w, d, t) ==> Settled(w, d, t)
    ensures !Recoverable(w, d, t) ==> (Settled(w, d, t) <==> !HealDue(w, d, t))
  {
    if HealDue(w, d, t) {
      assert IsFit(w, d.profiles[Followed(d.active, t)]);
      NewContentIff(w, d.files[t.path], d.profiles[Followed(d.active, t)].data);
    }
  }

  // ---- Usable profiles stay usable ----

  predicate LoginIsUsable(w: Setup, d: Disk, t: Target) {
    HoldsLoginAt(w, d.files, t.path) ==> IsUsable(w, d.files[t.path])
  }

  predicate LoginsAreUsable(w: Setup, d: Disk, targets: seq<Target>) {
    forall t | t in targets :: LoginIsUsable(w, d, t)
  }

  lemma OneKeepsUsable(w: Setup, lookup: AccountLookup, targets: seq<Target>, d: Disk, t: Target, u: Target)
    requires "" !in d.profiles && IsWellKept(lookup) && t in targets && LoginsAreUsable(w, d, targets)
    requires Usable(w, d, Followed(d.active, u))
    ensures var o := ReconcileOne(w, lookup, targets, d, t).disk;
            LoginsAreUsable(w, o, targets) && Usable(w, o, Followed(o.active, u))
  {
    var o := ReconcileOne(w, lookup, targets, d, t).disk;
    StoreMoves(w, lookup, targets, d, t);
    assert LoginIsUsable(w, d, t);
    forall x | x in targets ensures LoginIsUsable(w, o, x) {
      assert LoginIsUsable(w, d, x);
      ReconcileOneMoves(w, lookup, targets, d, t, x.path);
    }
  }

  lemma {:induction false} PassKeepsUsable(w: Setup, lookup: AccountLookup, targets: seq<Target>, d: Disk,
                                           todo: seq<Target>, u: Target)
    requires Good(w, d, targets) && IsWellKept(lookup) && LoginsAreUsable(w, d, targets)
    requires forall t | t in todo :: t in targets
    requires Usable(w, d, Followed(d.active, u))
    ensures var o := PassOver(w, lookup, targets, d, todo).disk; Usable(w, o, Followed(o.active, u))
    decreases |todo|
  {
    if todo != [] {
      OneKeepsUsable(w, lookup, targets, d, todo[0], u);
      OneKeepsGood(w, lookup, targets, d, todo[0]);
      PassKeepsUsable(w, lookup, targets, ReconcileOne(w, lookup, targets, d, todo[0]).disk, todo[1..], u);
    }
  }

  // ---- A login that is found is the one that is followed ----

  predicate FindsLogin(w: Setup, d: Disk, targets: seq<Target>) {
    exists u :: u in targets && HoldsLoginAt(w, d.files, u.path)
  }

  /** The active profile holds a login that was in a target before. */
  predicate FollowsLogin(w: Setup, targets: seq<Target>, before: Disk, after: Disk) {
    exists u :: u in targets && HoldsLoginAt(w, before.files, u.path) && IsFollowed(after, before.files[u.path])
  }

  predicate IsFollowed(d: Disk, data: bytes) {
    d.active != "" && d.active in d.profiles && d.profiles[d.active] == Has(data)
  }

  /** Every login in a target was in it before. */
  predicate NoNewLogin(w: Setup, targets: seq<Target>, before: Disk, d: Disk) {
    forall t | t in targets :: Evolved(w, before.files, d.files, t.path)
  }

  lemma EvolvedLogin(w: Setup, before: map<Path, bytes>, after: map<Path, bytes>, path: Path)
    requires Evolved(w, before, after, path) && HoldsLoginAt(w, after, path)
    ensures HoldsLoginAt(w, before, path) && after[path] == before[path]
  {
  }

  lemma LookKeepsNoNewLogin(w: Setup, lookup: AccountLookup, targets: seq<Target>, before: Disk, d: Disk, t: Target)
    requires NoNewLogin(w, targets, before, d)
    ensures NoNewLogin(w, targets, before, ReconcileOne(w, lookup, targets, d, t).disk)
  {
    var o := ReconcileOne(w, lookup, targets, d, t).disk;
    forall u | u in targets ensures Evolved(w, before.files, o.files, u.path) {
      ReconcileOneMoves(w, lookup, targets, d, t, u.path);
      EvolvedTwice(w, before.files, d.files, o.files, u.path);
    }
  }

  /** A look at a login makes it the one that is followed; any other look leaves pointer and profiles. */
  lemma LookFollowsLogin(w: Setup, lookup: AccountLookup, targets: seq<Target>, before: Disk, d: Disk, t: Target)
    requires Good(w, d, targets) && IsWellKept(lookup) && t in targets && NoNewLogin(w, targets, before, d)
    ensures var o := ReconcileOne(w, lookup, targets, d, t).disk;
            if HoldsLoginAt(w, d.files, t.path) then FollowsLogin(w, targets, before, o)
            else o.profiles == d.profiles && o.active == d.active
  {
    hide ParseFull, ParseTarget, HasRefreshToken, NewContent, HasFields, Writable, StorePlan;
    StoreMoves(w, lookup, targets, d, t);
    if HoldsLoginAt(w, d.files, t.path) {
      LoginIsOk(w, lookup, targets, d, t);
      EvolvedLogin(w, before.files, d.files, t.path);
    }
  }

  lemma LookKeepsOtherLogin(w: Setup, lookup: AccountLookup, targets: seq<Target>, d: Disk, t: Target, u: Target)
    requires !HoldsLoginAt(w, d.files, t.path) && HoldsLoginAt(w, d.files, u.path)
    ensures HoldsLoginAt(w, ReconcileOne(w, lookup, targets, d, t).disk.files, u.path)
  {
    HealKeepsOthers(w, d, t, u.path);
  }

  /** A pass over a target with a login ends with the active profile holding a login that was in a target. */
  lemma {:induction false} PassFollowsLogin(w: Setup, lookup: AccountLookup, targets: seq<Target>, before: Disk,
                                            d: Disk, todo: seq<Target>)
    requires Good(w, d, targets) && IsWellKept(lookup) && NoNewLogin(w, targets, before, d)
    requires forall t | t in todo :: t in targets
    requires FollowsLogin(w, targets, before, d) || FindsLogin(w, d, todo)
    ensures FollowsLogin(w, targets, before, PassOver(w, lookup, targets, d, todo).disk)
    decreases |todo|
  {
    hide ParseFull, ParseTarget, HasRefreshToken, NewContent, HasFields, Writable, StorePlan;
    if todo != [] {
      var t := todo[0];
      var first := ReconcileOne(w, lookup, targets, d, t).disk;
      OneKeepsGood(w, lookup, targets, d, t);
      LookKeepsNoNewLogin(w, lookup, targets, before, d, t);
      LookFollowsLogin(w, lookup, targets, before, d, t);
      if !HoldsLoginAt(w, d.files, t.path) && FindsLogin(w, d, todo) {
        var u :| u in todo && HoldsLoginAt(w, d.files, u.path);
        LookKeepsOtherLogin(w, lookup, targets, d, t, u);
        assert u in todo[1..];
      }
      PassFollowsLogin(w, lookup, targets, before, first, todo[1..]);
    }
  }

  lemma FollowedIsUsable(w: Setup, targets: seq<Target>, before: Disk, after: Disk)
    requires FollowsLogin(w, targets, before, after) && LoginsAreUsable(w, before, targets)
    ensures Usable(w, after, after.active)
  {
    var u :| u in targets && HoldsLoginAt(w, before.files, u.path) && IsFollowed(after, before.files[u.path]);
    assert LoginIsUsable(w, before, u);
  }

  // ---- Convergence ----

  /** From any good disk two quiet passes leave no login in a target and bring every target to rest, so that a third
      changes no byte. A recoverable target is settled. Any other keeps the file it had, and is settled exactly when no
      heal is due; the third pass reports an error exactly when some target is not settled. */
  lemma QuietPassesRest(w: Setup, first: AccountLookup, second: AccountLookup, third: AccountLookup,
                        targets: seq<Target>, d: Disk)
    requires Agree(targets) && Good(w, d, targets) && IsWellKept(first)
    ensures var one := QuietPass(w, first, targets, d).disk;
            var two := QuietPass(w, second, targets, one).disk;
            && QuietPass(w, third, targets, two).disk == two
            && (QuietPass(w, third, targets, two).ok <==> forall t | t in targets :: Settled(w, two, t))
            && two.active == one.active && two.profiles == one.profiles
            && forall t | t in targets :: ComesToRest(w, d, two, t)
  {
    hide ParseFull, ParseTarget, HasRefreshToken, NewContent, HasFields, Writable, StorePlan;
    var one := QuietPass(w, first, targets, d).disk;
    PassFrees(w, first, targets, d, targets);
    assert [] + targets == targets;
    LoginFreePassRests(w, second, targets, one, targets, []);
    var two := QuietPass(w, second, targets, one).disk;
    RestedPassDoesNothing(w, third, targets, two, targets);
    forall t | t in targets ensures ComesToRest(w, d, two, t) {
      PassMoves(w, first, targets, d, targets, t.path);
      PassMoves(w, second, targets, one, targets, t.path);
      EvolvedTwice(w, d.files, one.files, two.files, t.path);
      RestedIsSettled(w, two, t);
      if Recoverable(w, d, t) {
        EvolvedKeepsRecoverable(w, d, two, t);
      }
    }
  }

  /** What becomes of a target. */
  ghost predicate ComesToRest(w: Setup, before: Disk, after: Disk, t: Target) {
    && Rested(w, after, t)
    && (Recoverable(w, before, t) ==> Settled(w, after, t))
    && (!Recoverable(w, before, t) ==>
          SameAt(before.files, after.files, t.path) && (Settled(w, after, t) <==> !HealDue(w, after, t)))
  }

  /** From a good disk whose targets are all recoverable, every quiet pass goes without an error, two of them settle
      every target, and the third changes nothing. */
  lemma QuietPassesConverge(w: Setup, first: AccountLookup, second: AccountLookup, third: AccountLookup,
                            targets: seq<Target>, d: Disk)
    requires Agree(targets) && Good(w, d, targets) && IsWellKept(first)
    requires forall t | t in targets :: Recoverable(w, d, t)
    ensures var one := QuietPass(w, first, targets, d);
            var two := QuietPass(w, second, targets, one.disk);
            && one.ok && two.ok && QuietPass(w, third, targets, two.disk) == Outcome(two.disk, true)
            && forall t | t in targets :: Settled(w, two.disk, t)
  {
    var one := QuietPass(w, first, targets, d).disk;
    QuietPassesRest(w, first, second, third, targets, d);
    PassFrees(w, first, targets, d, targets);
    assert [] + targets == targets;
    LoginFreePassRests(w, second, targets, one, targets, []);
    forall t | t in targets ensures Settled(w, QuietPass(w, second, targets, one).disk, t) {
      assert ComesToRest(w, d, QuietPass(w, second, targets, one).disk, t);
    }
  }

  /** The target follows a usable profile before; or some target holds a login, and this one follows the active profile
      or names the profile that is active after. */
  predicate HasSource(w: Setup, targets: seq<Target>, before: Disk, after: Disk, t: Target) {
    || Usable(w, before, Followed(before.active, t))
    || (FindsLogin(w, before, targets) && Followed(after.active, t) == after.active)
  }

  /** A target with such a source follows a usable profile after. And whenever it does, a recoverable target is there,
      if it was there, and carries the access token of that profile. */
  predicate IsServed(w: Setup, targets: seq<Target>, before: Disk, after: Disk, t: Target) {
    && (HasSource(w, targets, before, after, t) ==> Usable(w, after, Followed(after.active, t)))
    && (Recoverable(w, before, t) ==>
          && (t.path in before.files ==> t.path in after.files)
          && (t.path in after.files && Usable(w, after, Followed(after.active, t)) ==> Carries(w, after, t)))
  }

  /** After two quiet passes the profile that a target with such a source follows is usable; and when a target held a
      login, the active profile holds a login that was in a target. */
  lemma SourceIsUsable(w: Setup, first: AccountLookup, second: AccountLookup, targets: seq<Target>, d: Disk, t: Target)
    requires Agree(targets) && Good(w, d, targets) && IsWellKept(first) && LoginsAreUsable(w, d, targets)
    ensures var two := QuietPass(w, second, targets, QuietPass(w, first, targets, d).disk).disk;
            && (FindsLogin(w, d, targets) ==> FollowsLogin(w, targets, d, two))
            && (HasSource(w, targets, d, two, t) ==> Usable(w, two, Followed(two.active, t)))
  {
    hide ParseFull, ParseTarget, HasRefreshToken, NewContent, HasFields, Writable, StorePlan;
    var two := QuietPass(w, second, targets, QuietPass(w, first, targets, d).disk).disk;
    QuietPassesRest(w, first, second, second, targets, d);
    if FindsLogin(w, d, targets) {
      PassFollowsLogin(w, first, targets, d, d, targets);
      FollowedIsUsable(w, targets, d, two);
    }
    if Usable(w, d, Followed(d.active, t)) {
      PassKeepsUsable(w, first, targets, d, targets, t);
    }
  }

  /** Whatever the other targets are like: on a good disk whose logins are usable, two quiet passes serve every
      recoverable target, also when the profile it follows was empty or missing and a login was found for it. */
  lemma RecoverableIsServed(w: Setup, first: AccountLookup, second: AccountLookup, targets: seq<Target>, d: Disk,
                            t: Target)
    requires Agree(targets) && Good(w, d, targets) && IsWellKept(first) && LoginsAreUsable(w, d, targets)
             && t in targets
    ensures var two := QuietPass(w, second, targets, QuietPass(w, first, targets, d).disk).disk;
            && IsServed(w, targets, d, two, t)
            && (FindsLogin(w, d, targets) ==> FollowsLogin(w, targets, d, two))
  {
    var one := QuietPass(w, first, targets, d).disk;
    var two := QuietPass(w, second, targets, one).disk;
    QuietPassesRest(w, first, second, second, targets, d);
    assert ComesToRest(w, d, two, t);
    PassMoves(w, first, targets, d, targets, t.path);
    PassMoves(w, second, targets, one, targets, t.path);
    SourceIsUsable(w, first, second, targets, d, t);
    if t.path in two.files && Recoverable(w, d, t) && Usable(w, two, Followed(two.active, t)) {
      SettledCarries(w, two, t);
    }
  }

  /** Where no profile was usable, the one login there is ends up in the active profile, and its target carries its
      access token. */
  lemma OnlyLoginIsServed(w: Setup, first: AccountLookup, second: AccountLookup, targets: seq<Target>, d: Disk,
                          t: Target)
    requires Agree(targets) && Good(w, d, targets) && IsWellKept(first) && LoginsAreUsable(w, d, targets)
    requires t in targets && FollowsActive(t) && HoldsLoginAt(w, d.files, t.path)
    requires forall u | u in targets && HoldsLoginAt(w, d.files, u.path) :: u.path == t.path
    ensures var two := QuietPass(w, second, targets, QuietPass(w, first, targets, d).disk).disk;
            && IsFollowed(two, d.files[t.path]) && t.path in two.files
            && ParseTarget(w.j, w.tool, two.files[t.path]).TokenOnly?
            && ParseTarget(w.j, w.tool, two.files[t.path]).cred.access
               == ParseFull(w.j, w.tool, d.files[t.path]).value.access
  {
    var two := QuietPass(w, second, targets, QuietPass(w, first, targets, d).disk).disk;
    assert FindsLogin(w, d, targets);
    RecoverableIsServed(w, first, second, targets, d, t);
    var u :| u in targets && HoldsLoginAt(w, d.files, u.path) && IsFollowed(two, d.files[u.path]);
  }

  /** What three quiet passes come to: the third reports an error exactly when a target is not settled, no pass does
      when every target is recoverable, and each target comes to rest and is served. */
  ghost predicate Converges(w: Setup, targets: seq<Target>, before: Disk, after: Disk, first: bool, second: bool,
                            third: bool) {
    && (third <==> forall t | t in targets :: Settled(w, after, t))
    && ((forall t | t in targets :: Recoverable(w, before, t)) ==> first && second && third)
    && (forall t | t in targets :: ComesToRest(w, before, after, t))
    && (LoginsAreUsable(w, before, targets) ==> AllServed(w, targets, before, after))
  }

  /** Every target is served, and when one held a login the active profile holds a login that was in a target. */
  predicate AllServed(w: Setup, targets: seq<Target>, before: Disk, after: Disk) {
    && (forall t | t in targets :: IsServed(w, targets, before, after, t))
    && (FindsLogin(w, before, targets) ==> FollowsLogin(w, targets, before, after))
  }

  lemma QuietPassesServe(w: Setup, first: AccountLookup, second: AccountLookup, targets: seq<Target>, d: Disk)
    requires Agree(targets) && Good(w, d, targets) && IsWellKept(first) && LoginsAreUsable(w, d, targets)
    ensures AllServed(w, targets, d, QuietPass(w, second, targets, QuietPass(w, first, targets, d).disk).disk)
  {
    var two := QuietPass(w, second, targets, QuietPass(w, first, targets, d).disk).disk;
    forall t | t in targets ensures IsServed(w, targets, d, two, t) {
      RecoverableIsServed(w, first, second, targets, d, t);
    }
    if FindsLogin(w, d, targets) {
      var u :| u in targets && HoldsLoginAt(w, d.files, u.path);
      RecoverableIsServed(w, first, second, targets, d, u);
    }
  }

  lemma ThreeQuietPasses(w: Setup, lookup: AccountLookup, targets: seq<Target>, d: Disk)
    requires Agree(targets) && Good(w, d, targets) && IsWellKept(lookup)
    ensures var one := QuietPass(w, lookup, targets, d);
            var two := QuietPass(w, lookup, targets, one.disk);
            var three := QuietPass(w, lookup, targets, two.disk);
            three.disk == two.disk && Converges(w, targets, d, two.disk, one.ok, two.ok, three.ok)
  {
    QuietPassesRest(w, lookup, lookup, lookup, targets, d);
    if forall t | t in targets :: Recoverable(w, d, t) {
      QuietPassesConverge(w, lookup, lookup, lookup, targets, d);
    }
    if LoginsAreUsable(w, d, targets) {
      QuietPassesServe(w, lookup, lookup, targets, d);
    }
  }

  lemma TicksConverge(w: Setup, lookup: AccountLookup, targets: seq<Target>, d: Disk, one: Disk, first: bool, two: Disk,
                      second: bool, three: Disk, third: bool)
    requires Agree(targets) && Good(w, d, targets) && IsWellKept(lookup)
    requires Outcome(one, first) == QuietPass(w, lookup, targets, d)
    requires Outcome(two, second) == QuietPass(w, lookup, targets, one)
    requires Outcome(three, third) == QuietPass(w, lookup, targets, two)
    ensures three == two && Converges(w, targets, d, two, first, second, third)
  {
    ThreeQuietPasses(w, lookup, targets, d);
  }

  // ---- Usable credentials make a good disk ----

  lemma UsableIsGood(w: Setup, d: Disk, targets: seq<Target>)
    requires Ready(d) && LoginsAreUsable(w, d, targets)
    requires forall p | p in d.profiles && d.profiles[p].Has? :: OneSpelling(w.j, w.tool, d.profiles[p].data)
    ensures Good(w, d, targets)
  {
    forall t | t in targets ensures LoginIsFit(w, d, t) {
      assert LoginIsUsable(w, d, t);
      if HoldsLoginAt(w, d.files, t.path) {
        FullHasFields(w.j, w.tool, d.files[t.path]);
      }
    }
    forall p | p in d.profiles ensures IsFit(w, d.profiles[p]) {
      if d.profiles[p].Has? && ParseFull(w.j, w.tool, d.profiles[p].data).Some? {
        FullHasFields(w.j, w.tool, d.profiles[p].data);
      }
    }
  }
}
