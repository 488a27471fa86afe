/** What an import has to do over every run: not only how often it may store a login, but when it has to go on. */
module ImportLaws {
  import opened Bytes
  import opened Builders
  import opened Readers
  import opened ReaderLaws
  import opened ImportChoice
  import opened ChoiceLaws
  import opened Targets
  import opened Protocol
  import opened ProtocolLaws

  // ---- Logins and their pairs ----

  lemma HeldHasPair(w: Setup, files: map<Path, bytes>, path: Path)
    ensures HoldsLoginAt(w, files, path) <==> PairAt(w, files, path).Some?
  {
  }

  /** Two usable copies of a file are the same login exactly when they hold the same pair. */
  lemma SameLoginIff(w: Setup, a: bytes, b: bytes)
    requires PairOf(w, b).Some? && !ParseTarget(w.j, w.tool, a).Unusable? && !ParseTarget(w.j, w.tool, b).Unusable?
    ensures SameLogin(w, a, b) <==> PairOf(w, a) == PairOf(w, b)
  {
  }

  // ---- An import ----

  predicate InImport(c: Counter) {
    c.ToRescue? || c.ToDecide? || c.ToStore? || c.ToReread? || c.ToStrip? || c.ToRetry?
  }

  /** From the look at step `i` the import of a login goes on up to the state `k`, and is not given up. */
  ghost predicate IsImport(run: seq<State>, steps: seq<Step>, i: nat, k: nat) {
    && i < k <= |steps| < |run| && steps[i].Look?
    && forall x {:trigger steps[x]} | i < x < k :: InImport(run[x].counter) && !steps[x].GiveUp?
  }

  lemma StepGoesOn(w: Setup, s: State, step: Step)
    requires Inv(s) && Enabled(w, s, step) && InImport(s.counter) && !step.GiveUp?
    ensures var n := Next(w, s, step);
            InImport(n.counter) ==>
              && n.counter.login.path == s.counter.login.path
              && StoresLeft(n.counter) + (if step.StoreLogin? then 1 else 0) == StoresLeft(s.counter)
  {
    hide Decide, HasRefreshToken, SameLogin, StripLogin, GuardedWrite;
  }

  lemma LookStarts(w: Setup, s: State, step: Step)
    requires Enabled(w, s, step) && step.Look? && InImport(Next(w, s, step).counter)
    ensures var c := Next(w, s, step).counter;
            c == ToRescue(Login(step.target.path, s.files[step.target.path], 0, None))
  {
    hide Decide, HasRefreshToken, SameLogin, StripLogin, GuardedWrite;
  }

  /** As long as an import goes on, its stores and those it may still make come to three. */
  lemma {:induction false} ImportCounts(w: Setup, run: seq<State>, steps: seq<Step>, i: nat, k: nat)
    requires IsRun(w, run, steps) && IsImport(run, steps, i, k) && InImport(run[k].counter)
    ensures run[k].counter.login.path == steps[i].target.path
    ensures StoresLeft(run[k].counter) + StoreCount(steps, i, k) == 3
  {
    hide Decide, Enabled, Next;
    assert IsStep(w, run[k - 1], steps[k - 1], run[k]);
    if k == i + 1 {
      LookStarts(w, run[i], steps[i]);
      assert StoreCount(steps, i, i) == 0;
    } else {
      assert IsImport(run, steps, i, k - 1);
      var _ := steps[k - 1];
      ImportCounts(w, run, steps, i, k - 1);
      RunHasInv(w, run, steps, k - 1);
      StepGoesOn(w, run[k - 1], steps[k - 1]);
    }
  }

  // ---- When it may end ----

  /** Nothing of a login is left in a file, or what is left is the login stored last. */
  predicate IsFiled(w: Setup, s: State, path: Path) {
    PairAt(w, s.files, path).None?
    || (s.lastStored.Some? && PairOf(w, s.lastStored.value.1) == PairAt(w, s.files, path))
  }

  lemma LookEnds(w: Setup, s: State, step: Step)
    requires Inv(s) && Enabled(w, s, step) && (step.Reread? || step.Retry?) && !InImport(Next(w, s, step).counter)
    ensures PairAt(w, Next(w, s, step).files, s.counter.login.path).None? || StoresLeft(s.counter) == 0
  {
    hide Decide, StripLogin, GuardedWrite, SameLogin, ParseCredential;
    HeldHasPair(w, s.files, s.counter.login.path);
  }

  lemma StripEnds(w: Setup, s: State, step: Step)
    requires Inv(s) && Enabled(w, s, step) && step.Strip? && !InImport(Next(w, s, step).counter)
    ensures IsFiled(w, Next(w, s, step), s.counter.login.path)
  {
    hide Decide, GuardedWrite, SameLogin, BuildTarget;
    var login := s.counter.login;
    if HoldsLoginAt(w, s.files, login.path) && SameLogin(w, login.data, s.files[login.path]) {
      SameLoginSamePair(w, login.data, s.files[login.path]);
      if BuildTarget(w.j, w.tool, s.files[login.path], login.data).Ok? {
        BuiltHoldsNoRefreshToken(w.j, w.tool, s.files[login.path], login.data);
      }
    }
  }

  lemma StepEnds(w: Setup, s: State, step: Step)
    requires Inv(s) && Enabled(w, s, step) && InImport(s.counter) && !step.GiveUp?
    requires !InImport(Next(w, s, step).counter)
    ensures IsFiled(w, Next(w, s, step), s.counter.login.path) || StoresLeft(s.counter) == 0
    ensures !step.StoreLogin?
  {
    hide Decide, StripLogin, GuardedWrite, SameLogin, HoldsLoginAt, ParseCredential, IsFiled;
    if step.Reread? || step.Retry? {
      LookEnds(w, s, step);
      NoneIsFiled(w, Next(w, s, step), s.counter.login.path);
    } else if step.Strip? {
      StripEnds(w, s, step);
    }
  }

  lemma NoneIsFiled(w: Setup, s: State, path: Path)
    ensures PairAt(w, s.files, path).None? ==> IsFiled(w, s, path)
  {
  }

  /** In every run, an import that is not given up ends only when its file holds no login any more, or the one stored
      last; or after three stores. */
  lemma ImportIsFinished(w: Setup, run: seq<State>, steps: seq<Step>, i: nat, k: nat)
    requires IsRun(w, run, steps) && IsImport(run, steps, i, k) && i + 1 < k && !InImport(run[k].counter)
    ensures IsFiled(w, run[k], steps[i].target.path) || StoreCount(steps, i, k) == 3
  {
    hide Decide, Enabled, Next, IsFiled;
    assert IsImport(run, steps, i, k - 1);
    var _ := steps[k - 1];
    ImportCounts(w, run, steps, i, k - 1);
    RunHasInv(w, run, steps, k - 1);
    assert IsStep(w, run[k - 1], steps[k - 1], run[k]);
    StepEnds(w, run[k - 1], steps[k - 1]);
  }

  // ---- When it has to go on ----

  /** A login of these bytes is on its way into this profile, and no other. */
  predicate IsPending(s: State, path: Path, data: bytes, p: string) {
    match s.counter
    case ToRescue(login) => IsForced(login, path, data, p)
    case ToDecide(login) => IsForced(login, path, data, p) && data in s.rescued
    case ToStore(login, q, create) => IsForced(login, path, data, p) && data in s.rescued && q == p && !create
    case _ => false
  }

  predicate IsForced(login: Login, path: Path, data: bytes, p: string) {
    login.path == path && login.data == data && login.forced == Some(p)
  }

  /** They have been rescued, and are in the profile, which is active. */
  predicate IsStored(s: State, data: bytes, p: string) {
    && data in s.rescued && (p, data) in s.kept && s.lastStored == Some((p, data)) && s.active == p
    && p in s.profiles && s.profiles[p] == Has(data)
  }

  /** A second look that finds a login other than the one stored last, or any after a strip that found another one. */
  predicate FindsChange(w: Setup, s: State, step: Step, path: Path) {
    && (step.Reread? || step.Retry?) && PairAt(w, s.files, path).Some? && s.lastStored.Some?
    && (step.Reread? ==> PairAt(w, s.files, path) != PairOf(w, s.lastStored.value.1))
  }

  lemma ChangeGoesOn(w: Setup, s: State, step: Step, path: Path)
    requires Inv(s) && Enabled(w, s, step) && (step.Reread? || step.Retry?) && s.counter.login.path == path
    requires FindsChange(w, s, step, path) && StoresLeft(s.counter) > 0
    ensures path in s.files && IsPending(Next(w, s, step), path, s.files[path], s.lastStored.value.0)
  {
    hide Decide, StripLogin, GuardedWrite, SameLogin, ParseCredential;
    HeldHasPair(w, s.files, path);
    if SameLogin(w, s.counter.login.data, s.files[path]) {
      SameLoginSamePair(w, s.counter.login.data, s.files[path]);
    }
  }

  lemma PendingStays(w: Setup, s: State, step: Step, path: Path, data: bytes, p: string)
    requires Inv(s) && Enabled(w, s, step) && IsPending(s, path, data, p) && !step.GiveUp?
    ensures var n := Next(w, s, step);
            if step.StoreLogin? then IsStored(n, data, p) else IsPending(n, path, data, p)
  {
    hide Decide, HasRefreshToken, SameLogin, StripLogin, GuardedWrite;
    assert p + SUFFIXES[0] == p;
  }

  lemma {:induction false} PendingAlong(w: Setup, run: seq<State>, steps: seq<Step>, j: nat, k: nat, path: Path,
                                        data: bytes, p: string)
    requires IsRun(w, run, steps) && j <= k <= |steps| && IsPending(run[j], path, data, p)
    requires forall x | j <= x < k :: !steps[x].GiveUp? && !steps[x].StoreLogin?
    ensures IsPending(run[k], path, data, p)
  {
    hide Decide, Enabled, Next, IsPending;
    if j < k {
      PendingAlong(w, run, steps, j, k - 1, path, data, p);
      RunHasInv(w, run, steps, k - 1);
      assert IsStep(w, run[k - 1], steps[k - 1], run[k]);
      PendingStays(w, run[k - 1], steps[k - 1], path, data, p);
    }
  }

  /** The second look at step `j` of an import that has made fewer than three stores finds another login. Then that
      login is on its way until it is stored, and the next store puts it, rescued, into the profile of the last one,
      unless the import is given up. */
  lemma ChangedIsImported(w: Setup, run: seq<State>, steps: seq<Step>, i: nat, j: nat, k: nat) returns (data: bytes)
    requires IsRun(w, run, steps) && IsImport(run, steps, i, j + 1) && i < j < k <= |steps|
    requires FindsChange(w, run[j], steps[j], steps[i].target.path) && StoreCount(steps, i, j) < 3
    requires forall x | j < x < k :: !steps[x].GiveUp? && (x < k - 1 ==> !steps[x].StoreLogin?)
    ensures PairOf(w, data) == PairAt(w, run[j].files, steps[i].target.path)
    ensures var p := run[j].lastStored.value.0;
            if k - 1 > j && steps[k - 1].StoreLogin? then IsStored(run[k], data, p)
            else IsPending(run[k], steps[i].target.path, data, p)
  {
    hide Decide, Enabled, Next, IsPending, IsStored, FindsChange;
    var path := steps[i].target.path;
    assert IsImport(run, steps, i, j);
    var _ := steps[j];
    RunHasInv(w, run, steps, j);
    ImportCounts(w, run, steps, i, j);
    assert IsStep(w, run[j], steps[j], run[j + 1]);
    ChangeIsLook(w, run[j], steps[j], path);
    ChangeGoesOn(w, run[j], steps[j], path);
    data := run[j].files[path];
    var p := run[j].lastStored.value.0;
    if k - 1 > j {
      PendingAlong(w, run, steps, j + 1, k - 1, path, data, p);
      RunHasInv(w, run, steps, k - 1);
      assert IsStep(w, run[k - 1], steps[k - 1], run[k]);
      PendingStays(w, run[k - 1], steps[k - 1], path, data, p);
    }
  }

  lemma ChangeIsLook(w: Setup, s: State, step: Step, path: Path)
    requires FindsChange(w, s, step, path)
    ensures (step.Reread? || step.Retry?) && path in s.files && s.lastStored.Some?
  {
  }

  // ---- The profile of an import ----

  lemma StepKeepsProfile(w: Setup, s: State, step: Step)
    requires Inv(s) && Enabled(w, s, step) && InImport(s.counter) && StoresLeft(s.counter) < 3
    ensures s.lastStored.Some? && Next(w, s, step).lastStored.Some?
    ensures Next(w, s, step).lastStored.value.0 == s.lastStored.value.0
  {
    hide Decide, HasRefreshToken, SameLogin, StripLogin, GuardedWrite;
  }

  /** Every store of an import goes to the profile of its first one. */
  lemma {:induction false} StoresAgree(w: Setup, run: seq<State>, steps: seq<Step>, i: nat, f: nat, k: nat)
    requires IsRun(w, run, steps) && IsImport(run, steps, i, k) && i < f < k && steps[f].StoreLogin?
    ensures run[f + 1].lastStored.Some? && run[k].lastStored.Some?
    ensures run[k].lastStored.value.0 == run[f + 1].lastStored.value.0
  {
    hide Decide, Next, IsRun;
    if k == f + 1 {
      StoreIsLast(w, run, steps, f);
    } else {
      assert IsImport(run, steps, i, k - 1);
      StoresAgree(w, run, steps, i, f, k - 1);
      var _ := steps[k - 1];
      ImportCounts(w, run, steps, i, k - 1);
      StoredIsCounted(steps, i, f, k - 1);
      RunHasInv(w, run, steps, k - 1);
      RunSteps(w, run, steps, k - 1);
      StepKeepsProfile(w, run[k - 1], steps[k - 1]);
    }
  }

  lemma RunSteps(w: Setup, run: seq<State>, steps: seq<Step>, x: nat)
    requires IsRun(w, run, steps) && x < |steps|
    ensures |run| == |steps| + 1 && Enabled(w, run[x], steps[x]) && run[x + 1] == Next(w, run[x], steps[x])
  {
    hide Decide, Enabled, Next;
    assert IsStep(w, run[x], steps[x], run[x + 1]);
  }

  lemma StoreIsLast(w: Setup, run: seq<State>, steps: seq<Step>, f: nat)
    requires IsRun(w, run, steps) && f < |steps| && steps[f].StoreLogin?
    ensures |run| == |steps| + 1 && run[f + 1].lastStored.Some?
  {
    hide Decide, HasRefreshToken, SameLogin, StripLogin, GuardedWrite, IsRun;
    RunSteps(w, run, steps, f);
  }

  lemma {:induction false} StoredIsCounted(steps: seq<Step>, i: nat, f: nat, k: nat)
    requires i <= f < k <= |steps| && steps[f].StoreLogin?
    ensures StoreCount(steps, i, k) > 0
  {
    if f < k - 1 {
      StoredIsCounted(steps, i, f, k - 1);
    }
  }

  // ---- The profile of the first round ----

  /** In every run, the profile picked in the first round is the one that the store and the accounts determine. */
  lemma PickIsExact(w: Setup, run: seq<State>, steps: seq<Step>, k: nat) returns (d: ImportChoice.Decision)
    requires IsRun(w, run, steps) && k < |steps| && steps[k].PickProfile? && w.fold("") == "" && w.tool != OtherTool
    requires run[k].counter.ToDecide? && run[k].counter.login.round == 0
    ensures run[k + 1].counter == ToStore(run[k].counter.login, d.profile, d.create)
    ensures IsChoice(w.j, w.fold, w.tool, Store(run[k].profiles, run[k].active), run[k].counter.login.data,
                     steps[k].accounts, Go(d))
  {
    hide Decide, HasRefreshToken, SameLogin, StripLogin, GuardedWrite, IsRun, IsChoice;
    RunSteps(w, run, steps, k);
    RunHasInv(w, run, steps, k);
    var s := run[k];
    var c := Protocol.Decision(w, s, s.counter.login.data, steps[k].accounts);
    DecisionIsExact(w.j, w.fold, w.tool, Store(s.profiles, s.active), s.counter.login.data, steps[k].accounts, c);
    d := c.decision;
  }
}
