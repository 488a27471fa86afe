/** The reconciliation protocol: command-line tools, the user, a switcher, refresh fan-outs and the reconciler acting
    on the same files, one step at a time.

    The state machine is for one tool. A write by the server reads, checks and renames in one step, and so does the
    strip of an imported login. The holder of the switcher lock and the reconciler's import each have a program
    counter, and steps of everyone else may come in between. The command-line tools and the user may change files,
    stored credentials and the registry at any time and in any way. */
module Protocol {
  import opened Bytes
  import opened ImportChoice
  import opened Targets

  /** Whoever holds the switcher lock, and how far it has got. */
  datatype Holder =
    | Free
    | Healing(target: Target)
    | HealReady(target: Target, profile: string, full: bytes)
    | Fanning(profile: string, full: bytes)
    | FanReady(profile: string, full: bytes, reach: set<Target>)
    | Switching(next: string)

  /** One login on its way into the store: its file, its bytes, the round, and the profile it has to go to. */
  datatype Login = Login(path: Path, data: bytes, round: nat, forced: Option<string>)

  /** How far the reconciler has got with a target, outside the lock. */
  datatype Counter =
    | Idle
    | ToHeal(target: Target)
    | ToRescue(login: Login)
    | ToDecide(login: Login)
    | ToStore(login: Login, profile: string, create: bool)
    | ToReread(login: Login, profile: string)
    | ToStrip(login: Login, profile: string)
    | ToRetry(login: Login, profile: string)
    | ToFan(profile: string, data: bytes)

  /** `rescued` and `kept` are what was ever saved as a rescue copy, and what each profile ever held. */
  datatype State = State(
    files: map<Path, bytes>,
    profiles: map<string, Stored>,
    active: string,
    targets: set<Target>,
    rescued: set<bytes>,
    kept: set<(string, bytes)>,
    holder: Holder,
    counter: Counter,
    lastStored: Option<(string, bytes)>
  )

  datatype Step =
    | Cli(path: Path, content: Option<bytes>)
    | ChangeProfile(profile: string, stored: Stored)
    | ChangeTargets(targets: set<Target>)
    | Look(target: Target)
    | Rescue
    | PickProfile(accounts: Accounts)
    | StoreLogin(attempt: nat)
    | Reread
    | Strip
    | Retry
    | GiveUp
    | StartHeal
    | PlanHeal
    | WriteHeal
    | StartFan
    | StartRefresh(profile: string, full: bytes)
    | PlanFan
    | WriteFan(target: Target)
    | StartSwitch(next: string)
    | MovePointer
    | WriteSwitch(target: Target, full: bytes)
    | Release

  // ---- The steps ----

  function ForProfile(s: State, profile: string): set<Target> {
    set t | t in s.targets && Reaches(s.active, profile, t)
  }

  ghost function Decision(w: Setup, s: State, data: bytes, accounts: Accounts): Chosen {
    Decide(w.j, w.fold, w.tool, Store(s.profiles, s.active), data, accounts)
  }

  ghost predicate Enabled(w: Setup, s: State, step: Step) {
    match step
    case Cli(_, _) => true
    case ChangeProfile(_, _) => true
    case ChangeTargets(_) => true
    case Look(t) => s.counter.Idle? && t.path in s.files
    case Rescue => s.counter.ToRescue?
    case PickProfile(accounts) =>
      s.counter.ToDecide? && (s.counter.login.forced.None? ==> Decision(w, s, s.counter.login.data, accounts).Go?)
    case StoreLogin(attempt) =>
      s.counter.ToStore? && s.holder.Free? && MayStore(s.profiles, s.counter.profile, s.counter.create, attempt)
    case Reread => s.counter.ToReread?
    case Strip => s.counter.ToStrip? && s.holder.Free?
    case Retry => s.counter.ToRetry?
    case GiveUp => !s.counter.Idle?
    case StartHeal => s.counter.ToHeal? && s.holder.Free?
    case PlanHeal =>
      s.holder.Healing? && var p := Followed(s.active, s.holder.target); p in s.profiles && s.profiles[p].Has?
    case WriteHeal => s.holder.HealReady?
    case StartFan => s.counter.ToFan? && s.holder.Free?
    case StartRefresh(p, full) => s.holder.Free? && (p, full) in s.kept
    case PlanFan => s.holder.Fanning?
    case WriteFan(t) => s.holder.FanReady? && t in s.holder.reach
    case StartSwitch(_) => s.holder.Free?
    case MovePointer => s.holder.Switching?
    case WriteSwitch(t, full) =>
      s.holder.Switching? && FollowsActive(t) && (s.holder.next, full) in s.kept
    case Release => !s.holder.Free?
  }

  /** What follows the second look at a target: nothing to strip, the same login, or one whose tokens changed. */
  function AfterReread(w: Setup, s: State, login: Login, profile: string, moved: bool): Counter {
    if !HoldsLoginAt(w, s.files, login.path) then Idle
    else if !moved && SameLogin(w, login.data, s.files[login.path]) then ToStrip(login, profile)
    else if login.round >= 2 then Idle
    else ToRescue(Login(login.path, s.files[login.path], login.round + 1, Some(profile)))
  }

  ghost function Next(w: Setup, s: State, step: Step): State
    requires Enabled(w, s, step)
  {
    match step
    case Cli(path, content) => s.(files := if content.Some? then s.files[path := content.value] else s.files - {path})
    case ChangeProfile(p, stored) =>
      s.(profiles := s.profiles[p := stored], kept := s.kept + if stored.Has? then {(p, stored.data)} else {})
    case ChangeTargets(targets) => s.(targets := targets)
    case Look(t) =>
      s.(counter := if HoldsLoginAt(w, s.files, t.path) then ToRescue(Login(t.path, s.files[t.path], 0, None))
                    else ToHeal(t))
    case Rescue => s.(rescued := s.rescued + {s.counter.login.data}, counter := ToDecide(s.counter.login))
    case PickProfile(accounts) =>
      var login := s.counter.login;
      s.(counter :=
        if login.forced.Some? then ToStore(login, login.forced.value, false)
        else var d := Decision(w, s, login.data, accounts).decision; ToStore(login, d.profile, d.create))
    case StoreLogin(attempt) =>
      var login, p := s.counter.login, s.counter.profile + SUFFIXES[attempt];
      s.(profiles := s.profiles[p := Has(login.data)], kept := s.kept + {(p, login.data)}, active := p,
         lastStored := Some((p, login.data)),
         counter := ToReread(login, p))
    case Reread => s.(counter := AfterReread(w, s, s.counter.login, s.counter.profile, false))
    case Strip =>
      (match StripLogin(w, s.files, s.counter.login.path, s.counter.login.data)
       case Stripped(files) => s.(files := files, counter := ToFan(s.counter.profile, s.counter.login.data))
       case Moved => s.(counter := ToRetry(s.counter.login, s.counter.profile))
       case StripFailed => s.(counter := Idle))
    case Retry => s.(counter := AfterReread(w, s, s.counter.login, s.counter.profile, true))
    case GiveUp => s.(counter := Idle)
    case StartHeal => s.(holder := Healing(s.counter.target), counter := Idle)
    case PlanHeal =>
      var p := Followed(s.active, s.holder.target);
      s.(holder := HealReady(s.holder.target, p, s.profiles[p].data))
    case WriteHeal => s.(files := GuardedWrite(w, s.files, s.holder.target.path, s.holder.full))
    case StartFan => s.(holder := Fanning(s.counter.profile, s.counter.data), counter := Idle)
    case StartRefresh(p, full) => s.(holder := Fanning(p, full))
    case PlanFan => s.(holder := FanReady(s.holder.profile, s.holder.full, ForProfile(s, s.holder.profile)))
    case WriteFan(t) => s.(files := GuardedWrite(w, s.files, t.path, s.holder.full))
    case StartSwitch(p) => s.(holder := Switching(p))
    case MovePointer => s.(active := s.holder.next)
    case WriteSwitch(t, full) => s.(files := GuardedWrite(w, s.files, t.path, full))
    case Release => s.(holder := Free)
  }

  // ---- The invariant ----

  /** A login that has not reached this round's store; after the first round it goes where it was stored last. */
  predicate WaitingOk(s: State, login: Login) {
    && login.round <= 2
    && if login.round == 0 then login.forced.None?
       else s.lastStored.Some? && login.forced == Some(s.lastStored.value.0)
  }

  /** A login that has been rescued and stored: it is what was stored last. */
  ghost predicate ImportedOk(s: State, login: Login, p: string) {
    && login.round <= 2
    && login.data in s.rescued && (p, login.data) in s.kept && s.lastStored == Some((p, login.data))
  }

  ghost predicate CounterOk(s: State) {
    match s.counter
    case Idle => true
    case ToHeal(_) => true
    case ToRescue(login) => WaitingOk(s, login)
    case ToDecide(login) => WaitingOk(s, login) && login.data in s.rescued
    case ToStore(login, p, create) =>
      WaitingOk(s, login) && login.data in s.rescued && (login.round > 0 ==> !create && login.forced == Some(p))
    case ToReread(login, p) => ImportedOk(s, login, p)
    case ToStrip(login, p) => ImportedOk(s, login, p)
    case ToRetry(login, p) => ImportedOk(s, login, p)
    case ToFan(p, data) => (p, data) in s.kept
  }

  /** The lock holder writes from a credential of the profile it names, and that profile is the one its targets
      follow. */
  ghost predicate HolderOk(s: State) {
    match s.holder
    case HealReady(t, p, full) => (p, full) in s.kept && p == Followed(s.active, t)
    case Fanning(p, full) => (p, full) in s.kept
    case FanReady(p, full, reach) =>
      (p, full) in s.kept && forall t | t in reach :: if t.Live? then p == s.active else p == t.profile
    case _ => true
  }

  ghost predicate Inv(s: State) {
    && CounterOk(s) && HolderOk(s)
    && forall p | p in s.profiles && s.profiles[p].Has? :: (p, s.profiles[p].data) in s.kept
  }

  /** A start: nobody is at work, and the history is what the profiles hold. */
  ghost predicate Init(s: State) {
    && s.holder.Free? && s.counter.Idle?
    && forall p | p in s.profiles && s.profiles[p].Has? :: (p, s.profiles[p].data) in s.kept
  }

  lemma NextKeepsInv(w: Setup, s: State, step: Step)
    requires Inv(s) && Enabled(w, s, step)
    ensures Inv(Next(w, s, step))
  {
    NextKeepsCounter(w, s, step);
    NextKeepsHolder(w, s, step);
    NextKeepsKept(w, s, step);
  }

  lemma NextKeepsKept(w: Setup, s: State, step: Step)
    requires Inv(s) && Enabled(w, s, step)
    ensures var n := Next(w, s, step);
            forall p | p in n.profiles && n.profiles[p].Has? :: (p, n.profiles[p].data) in n.kept
  {
    hide Decide, HoldsLoginAt, SameLogin, StripLogin, GuardedWrite;
    var n := Next(w, s, step);
    forall p | p in n.profiles && n.profiles[p].Has? ensures (p, n.profiles[p].data) in n.kept {
      assert p in s.profiles && s.profiles[p].Has? ==> (p, s.profiles[p].data) in s.kept;
    }
  }

  /** The steps before a login is stored. */
  predicate IsEarly(step: Step) {
    step.Look? || step.Rescue? || step.PickProfile? || step.StoreLogin?
  }

  /** The steps after that. */
  predicate IsLate(step: Step) {
    step.Reread? || step.Strip? || step.Retry? || step.GiveUp?
  }

  lemma EarlyKeepsCounter(w: Setup, s: State, step: Step)
    requires Inv(s) && Enabled(w, s, step) && IsEarly(step)
    ensures CounterOk(Next(w, s, step))
  {
  }

  lemma LateKeepsCounter(w: Setup, s: State, step: Step)
    requires Inv(s) && Enabled(w, s, step) && IsLate(step)
    ensures CounterOk(Next(w, s, step))
  {
    hide Decide, HoldsLoginAt, SameLogin, NewContent, GuardedWrite;
  }

  /** Every other step leaves the counter as it is, or idle. */
  lemma OtherKeepsCounter(w: Setup, s: State, step: Step)
    requires Inv(s) && Enabled(w, s, step) && !IsEarly(step) && !IsLate(step)
    ensures CounterOk(Next(w, s, step))
  {
    hide Decide, StripLogin, GuardedWrite, Enabled;
  }

  lemma NextKeepsCounter(w: Setup, s: State, step: Step)
    requires Inv(s) && Enabled(w, s, step)
    ensures CounterOk(Next(w, s, step))
  {
    if IsEarly(step) {
      EarlyKeepsCounter(w, s, step);
    } else if IsLate(step) {
      LateKeepsCounter(w, s, step);
    } else {
      OtherKeepsCounter(w, s, step);
    }
  }

  /** The pointer moves only under the lock, and only by a step of its holder or of an import that found it free. */
  lemma NextKeepsHolder(w: Setup, s: State, step: Step)
    requires Inv(s) && Enabled(w, s, step)
    ensures HolderOk(Next(w, s, step))
  {
    hide Decide, StripLogin, GuardedWrite;
  }

  lemma HistoryGrows(w: Setup, s: State, step: Step)
    requires Enabled(w, s, step)
    ensures s.rescued <= Next(w, s, step).rescued && s.kept <= Next(w, s, step).kept
  {
  }
}
