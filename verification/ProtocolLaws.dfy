/** What holds over every run of the protocol. */
module ProtocolLaws {
  import opened Bytes
  import opened Library
  import Edits
  import BuilderLaws
  import opened Editor
  import opened Builders
  import opened Readers
  import opened ReaderLaws
  import opened Writing
  import opened Examples
  import opened ImportChoice
  import opened Targets
  import opened Protocol

  // ---- Runs ----

  ghost predicate IsStep(w: Setup, s: State, step: Step, n: State) {
    Enabled(w, s, step) && n == Next(w, s, step)
  }

  ghost predicate IsRun(w: Setup, run: seq<State>, steps: seq<Step>) {
    |run| == |steps| + 1 && Init(run[0]) && forall i | 0 <= i < |steps| :: IsStep(w, run[i], steps[i], run[i + 1])
  }

  lemma {:induction false} RunHasInv(w: Setup, run: seq<State>, steps: seq<Step>, k: nat)
    requires IsRun(w, run, steps) && k < |run|
    ensures Inv(run[k])
  {
    hide Decide, Enabled, Next;
    if k > 0 {
      RunHasInv(w, run, steps, k - 1);
      assert IsStep(w, run[k - 1], steps[k - 1], run[k]);
      NextKeepsInv(w, run[k - 1], steps[k - 1]);
    }
  }

  // ---- No login is lost ----

  /** The token pair of a login: access and refresh token. */
  function PairOf(w: Setup, data: bytes): Option<(string, string)> {
    var cred := ParseCredential(w.j, w.tool, data);
    if cred.Some? && cred.value.refresh != "" then Some((cred.value.access, cred.value.refresh)) else None
  }

  function PairAt(w: Setup, files: map<Path, bytes>, path: Path): Option<(string, string)> {
    if path in files then PairOf(w, files[path]) else None
  }

  /** A pair that a rescue copy and a profile have held. */
  ghost predicate Saved(w: Setup, s: State, pair: (string, string)) {
    exists p, d :: (p, d) in s.kept && d in s.rescued && PairOf(w, d) == Some(pair)
  }

  lemma SameLoginSamePair(w: Setup, a: bytes, b: bytes)
    requires SameLogin(w, a, b) && PairOf(w, b).Some?
    ensures PairOf(w, a) == PairOf(w, b)
  {
  }

  /** A guarded write takes a login out of a file exactly when the guard does not see the login and the new content
      can be built. */
  lemma GuardedWriteLosesLogin(w: Setup, files: map<Path, bytes>, path: Path, full: bytes)
    requires PairAt(w, files, path).Some?
    ensures PairAt(w, GuardedWrite(w, files, path, full), path) != PairAt(w, files, path)
        <==> !RefreshTokenOnDisk(w.j, w.tool, files[path]) && BuildTarget(w.j, w.tool, files[path], full).Ok?
  {
    if BuildTarget(w.j, w.tool, files[path], full).Ok? {
      BuiltHoldsNoRefreshToken(w.j, w.tool, files[path], full);
    }
  }

  /** The file holds a login, and the writer does not write over it: the guard sees a token, or the file cannot be
      opened. */
  predicate HasPair(w: Setup, s: State, path: Path, pair: (string, string)) {
    PairAt(w, s.files, path) == Some(pair) && !Writable(w, s.files[path])
  }

  /** In a document without repeated members the guard sees every login. */
  lemma UnrepeatedIsGuarded(w: Setup, data: bytes)
    requires PairOf(w, data).Some? && NoRepeats(w.j, w.tool, data)
    ensures !Writable(w, data)
  {
    GuardIsStrictEnough(w.j, w.tool, data);
  }

  lemma StripKeepsLogin(w: Setup, s: State, path: Path, pair: (string, string))
    requires Inv(s) && s.counter.ToStrip? && HasPair(w, s, path, pair)
    ensures var r := StripLogin(w, s.files, s.counter.login.path, s.counter.login.data);
            (r.Stripped? ==> path in r.files && r.files[path] == s.files[path]) || Saved(w, s, pair)
  {
    var login := s.counter.login;
    if login.path == path && SameLogin(w, login.data, s.files[path]) {
      StrippedIsSaved(w, s, pair);
    }
  }

  /** The pair that a strip takes away has been saved. */
  lemma StrippedIsSaved(w: Setup, s: State, pair: (string, string))
    requires Inv(s) && s.counter.ToStrip? && PairAt(w, s.files, s.counter.login.path) == Some(pair)
    requires SameLogin(w, s.counter.login.data, s.files[s.counter.login.path])
    ensures Saved(w, s, pair)
  {
    var login := s.counter.login;
    SameLoginSamePair(w, login.data, s.files[login.path]);
    assert (s.counter.profile, login.data) in s.kept;
  }

  lemma GuardedWriteKeepsFile(w: Setup, files: map<Path, bytes>, path: Path, full: bytes, kept: Path)
    requires kept in files && !Writable(w, files[kept])
    ensures var after := GuardedWrite(w, files, path, full); kept in after && after[kept] == files[kept]
  {
    NewContentIff(w, Existing(files, path), full);
    assert path == kept ==> NewContent(w, Existing(files, path), full, false).None?;
  }

  predicate IsGuarded(step: Step) {
    step.WriteHeal? || step.WriteFan? || step.WriteSwitch?
  }

  lemma GuardedStepKeepsFile(w: Setup, s: State, step: Step, path: Path)
    requires Enabled(w, s, step) && IsGuarded(step) && path in s.files && !Writable(w, s.files[path])
    ensures path in Next(w, s, step).files && Next(w, s, step).files[path] == s.files[path]
  {
    match step
    case WriteHeal => GuardedWriteKeepsFile(w, s.files, s.holder.target.path, s.holder.full, path);
    case WriteFan(t) => GuardedWriteKeepsFile(w, s.files, t.path, s.holder.full, path);
    case WriteSwitch(t, full) => GuardedWriteKeepsFile(w, s.files, t.path, full, path);
  }

  lemma OtherStepKeepsFile(w: Setup, s: State, step: Step, path: Path)
    requires Enabled(w, s, step) && !IsGuarded(step) && !step.Strip? && !(step.Cli? && step.path == path)
             && path in s.files
    ensures path in Next(w, s, step).files && Next(w, s, step).files[path] == s.files[path]
  {
    hide Decide, HasRefreshToken, SameLogin, StripLogin, GuardedWrite, Enabled;
  }

  lemma StepKeepsLogin(w: Setup, s: State, step: Step, path: Path, pair: (string, string))
    requires Inv(s) && Enabled(w, s, step) && HasPair(w, s, path, pair)
    requires !(step.Cli? && step.path == path)
    ensures HasPair(w, Next(w, s, step), path, pair) || Saved(w, Next(w, s, step), pair)
  {
    hide Decide, SameLogin, StripLogin, Writable, GuardedWrite;
    if step.Strip? {
      StripKeepsLogin(w, s, path, pair);
      if Saved(w, s, pair) {
        SavedStays(w, s, step, pair);
      }
    } else if IsGuarded(step) {
      GuardedStepKeepsFile(w, s, step, path);
    } else {
      OtherStepKeepsFile(w, s, step, path);
    }
  }

  lemma SavedStays(w: Setup, s: State, step: Step, pair: (string, string))
    requires Enabled(w, s, step) && Saved(w, s, pair)
    ensures Saved(w, Next(w, s, step), pair)
  {
    HistoryGrows(w, s, step);
    var p, d :| (p, d) in s.kept && d in s.rescued && PairOf(w, d) == Some(pair);
    assert (p, d) in Next(w, s, step).kept;
  }

  /** A command-line tool that finds the login at the path leaves it there. */
  predicate CliLeaves(w: Setup, s: State, step: Step, n: State, path: Path, pair: (string, string)) {
    step.Cli? && step.path == path && HasPair(w, s, path, pair) ==> HasPair(w, n, path, pair)
  }

  /** A login that is where it was, or saved. */
  ghost predicate IsHeld(w: Setup, s: State, path: Path, pair: (string, string)) {
    HasPair(w, s, path, pair) || Saved(w, s, pair)
  }

  lemma StepHolds(w: Setup, s: State, step: Step, n: State, path: Path, pair: (string, string))
    requires Inv(s) && IsStep(w, s, step, n) && CliLeaves(w, s, step, n, path, pair) && IsHeld(w, s, path, pair)
    ensures IsHeld(w, n, path, pair)
  {
    if Saved(w, s, pair) {
      SavedStays(w, s, step, pair);
    } else if !(step.Cli? && step.path == path) {
      StepKeepsLogin(w, s, step, path, pair);
    }
  }

  /** What every step keeps holds along a run. */
  lemma {:induction false} KeptAlong(run: seq<State>, holds: State -> bool, i: nat, k: nat)
    requires i <= k < |run| && holds(run[i])
    requires forall x {:trigger holds(run[x])} | i <= x < k :: holds(run[x]) ==> holds(run[x + 1])
    ensures holds(run[k])
  {
    if i < k {
      KeptAlong(run, holds, i, k - 1);
    }
  }

  /** No command-line tool takes the login away between two moments. */
  predicate AllCliLeave(w: Setup, run: seq<State>, steps: seq<Step>, i: nat, k: nat, path: Path, pair: (string, string))
    requires i <= k <= |steps| < |run|
  {
    forall x {:trigger steps[x]} | i <= x < k :: CliLeaves(w, run[x], steps[x], run[x + 1], path, pair)
  }

  lemma RunStepHolds(w: Setup, run: seq<State>, steps: seq<Step>, x: nat, path: Path, pair: (string, string))
    requires IsRun(w, run, steps) && x < |steps| && CliLeaves(w, run[x], steps[x], run[x + 1], path, pair)
    ensures IsHeld(w, run[x], path, pair) ==> IsHeld(w, run[x + 1], path, pair)
  {
    if IsHeld(w, run[x], path, pair) {
      RunHasInv(w, run, steps, x);
      assert IsStep(w, run[x], steps[x], run[x + 1]);
      StepHolds(w, run[x], steps[x], run[x + 1], path, pair);
    }
  }

  /** In every run, a login that no command-line tool takes away is still in its file or has been rescued and stored
      in a profile. */
  lemma NoLoginLost(w: Setup, run: seq<State>, steps: seq<Step>, i: nat, k: nat, path: Path, pair: (string, string))
    requires IsRun(w, run, steps) && i <= k < |run| && HasPair(w, run[i], path, pair)
    requires AllCliLeave(w, run, steps, i, k, path, pair)
    ensures HasPair(w, run[k], path, pair) || Saved(w, run[k], pair)
  {
    var holds := s => IsHeld(w, s, path, pair);
    forall x | i <= x < k ensures holds(run[x]) ==> holds(run[x + 1]) {
      var _ := steps[x];
      RunStepHolds(w, run, steps, x, path, pair);
    }
    KeptAlong(run, holds, i, k);
  }

  /** The same from the last state of an earlier history to that of a later one. */
  lemma NoLoginLostAfter(w: Setup, was: seq<State>, made: seq<Step>, run: seq<State>, steps: seq<Step>, path: Path,
                         pair: (string, string))
    requires IsRun(w, was, made) && IsRun(w, run, steps) && was <= run && made <= steps
    requires HasPair(w, was[|was| - 1], path, pair) && AllCliLeave(w, run, steps, |made|, |steps|, path, pair)
    ensures IsHeld(w, run[|run| - 1], path, pair)
  {
    assert run[|made|] == was[|was| - 1];
    NoLoginLost(w, run, steps, |made|, |steps|, path, pair);
  }

  // ---- Exactly the logins that are never lost ----

  /** A run that starts with the document in a file, in which no command-line tool touches that file, and at whose end
      the login is neither there nor saved. */
  ghost predicate Loses(w: Setup, run: seq<State>, steps: seq<Step>, path: Path, data: bytes) {
    && IsRun(w, run, steps) && path in run[0].files && run[0].files[path] == data && PairOf(w, data).Some?
    && (forall x | 0 <= x < |steps| :: !(steps[x].Cli? && steps[x].path == path))
    && var last := run[|run| - 1];
       PairAt(w, last.files, path) != PairOf(w, data) && !Saved(w, last, PairOf(w, data).value)
  }

  ghost predicate IsNeverLost(w: Setup, data: bytes) {
    forall run, steps, path :: !Loses(w, run, steps, path, data)
  }

  /** A login is safe in every run exactly when the writer does not write over the document it is in. */
  lemma NeverLostIff(w: Setup, data: bytes)
    requires PairOf(w, data).Some?
    ensures IsNeverLost(w, data) <==> !Writable(w, data)
  {
    if Writable(w, data) {
      var run, steps := WritableIsLost(w, data);
      assert Loses(w, run, steps, "f", data);
    } else {
      forall run, steps, path ensures !Loses(w, run, steps, path, data) {
        UnwritableIsKept(w, run, steps, path, data);
      }
    }
  }

  lemma UnwritableIsKept(w: Setup, run: seq<State>, steps: seq<Step>, path: Path, data: bytes)
    requires !Writable(w, data)
    ensures !Loses(w, run, steps, path, data)
  {
    if Loses(w, run, steps, path, data) {
      var pair := PairOf(w, data).value;
      NoLoginLost(w, run, steps, 0, |steps|, path, pair);
    }
  }

  /** The smallest start of a losing run: one live file, and one profile that targets can be built from. */
  lemma WritableIsLost(w: Setup, data: bytes) returns (run: seq<State>, steps: seq<Step>)
    requires PairOf(w, data).Some? && Writable(w, data)
    ensures Loses(w, run, steps, "f", data)
  {
    ExampleOfHasFields(w.j, w.tool);
    run, steps := StartLoses(w, data, ExampleOf(w.j, w.tool));
  }

  lemma StartLoses(w: Setup, data: bytes, full: bytes) returns (run: seq<State>, steps: seq<Step>)
    requires PairOf(w, data).Some? && Writable(w, data) && HasFields(w.j, w.tool, full)
    ensures Loses(w, run, steps, "f", data)
  {
    var s := SmallStart("f", data, full);
    OverwrittenIsGone(w, s.files, "f", full);
    run, steps := FanOutFrom(w, s, "f", data, full);
  }

  lemma SmallStart(path: Path, data: bytes, full: bytes) returns (s: State)
    ensures Init(s) && s.active in s.profiles && s.active != "" && s.profiles[s.active] == Has(full)
            && Live(path) in s.targets
    ensures path in s.files && s.files[path] == data && s.rescued == {}
  {
    s := State(map[path := data], map["p" := Has(full)], "p", {Live(path)}, {}, {("p", full)}, Free, Idle, None);
  }

  lemma FanOutFrom(w: Setup, s: State, path: Path, data: bytes, full: bytes) returns (run: seq<State>, steps: seq<Step>)
    requires Init(s) && s.active in s.profiles && s.active != "" && s.profiles[s.active] == Has(full)
             && Live(path) in s.targets
    requires path in s.files && s.files[path] == data && PairOf(w, data).Some?
    requires PairAt(w, GuardedWrite(w, s.files, path, full), path).None? && s.rescued == {}
    ensures Loses(w, run, steps, path, data)
  {
    run, steps := FanOutLoses(w, s, path, full);
  }

  lemma OverwrittenIsGone(w: Setup, files: map<Path, bytes>, path: Path, full: bytes)
    requires path in files && Writable(w, files[path]) && HasFields(w.j, w.tool, full)
    ensures PairAt(w, GuardedWrite(w, files, path, full), path).None?
  {
    NewContentIff(w, files[path], full);
    NewContentIsClean(w, files[path], full, false);
  }

  /** The condition on repeated members is needed: from any start, a fan-out of the active profile to a live file that
      holds a login with a repeated refresh token ends with that login gone and nowhere saved. */
  lemma RepeatedLoginIsLost(w: Setup, s: State, path: Path, full: bytes) returns (run: seq<State>, steps: seq<Step>)
    requires w.tool == Claude && Init(s) && s.active in s.profiles && s.active != ""
             && s.profiles[s.active] == Has(full)
    requires ClaudeFields(w.j, full).Ok? && Live(path) in s.targets && s.rescued == {}
    requires path in s.files && s.files[path] == PrintObject(RepeatedDocument(w.j))
    ensures IsRun(w, run, steps) && run[0] == s && forall x | 0 <= x < |steps| :: !steps[x].Cli?
    ensures var pair := PairAt(w, s.files, path);
            var last := run[|run| - 1];
            pair.Some? && PairAt(w, last.files, path).None? && !Saved(w, last, pair.value)
  {
    RepeatedIsOverwritten(w, s.files, path, full);
    run, steps := FanOutLoses(w, s, path, full);
  }

  lemma FanOutLoses(w: Setup, s: State, path: Path, full: bytes) returns (run: seq<State>, steps: seq<Step>)
    requires Init(s) && s.active in s.profiles && s.active != "" && s.profiles[s.active] == Has(full)
             && Live(path) in s.targets
    requires PairAt(w, s.files, path).Some? && PairAt(w, GuardedWrite(w, s.files, path, full), path).None?
             && s.rescued == {}
    ensures IsRun(w, run, steps) && run[0] == s && forall x | 0 <= x < |steps| :: !steps[x].Cli?
    ensures var last := run[|run| - 1];
            PairAt(w, last.files, path).None? && !Saved(w, last, PairAt(w, s.files, path).value)
  {
    hide GuardedWrite, Enabled, Next;
    run, steps := FanOutRun(w, s, path, full);
    NothingIsSaved(w, run[3], PairAt(w, s.files, path).value);
  }

  lemma NothingIsSaved(w: Setup, s: State, pair: (string, string))
    requires s.rescued == {}
    ensures !Saved(w, s, pair)
  {
  }

  /** The run of a refresh fan-out to one live file, with nobody else about. */
  lemma FanOutRun(w: Setup, s: State, path: Path, full: bytes) returns (run: seq<State>, steps: seq<Step>)
    requires Init(s) && s.active in s.profiles && s.active != "" && s.profiles[s.active] == Has(full)
             && Live(path) in s.targets
    ensures IsRun(w, run, steps) && run[0] == s
            && steps == [StartRefresh(s.active, full), PlanFan, WriteFan(Live(path))]
    ensures run[3].files == GuardedWrite(w, s.files, path, full) && run[3].rescued == s.rescued
  {
    hide Decide, HasRefreshToken, SameLogin, StripLogin, GuardedWrite;
    var t := Live(path);
    var a := s.(holder := Fanning(s.active, full));
    var b := a.(holder := FanReady(s.active, full, ForProfile(s, s.active)));
    assert ForProfile(a, s.active) == ForProfile(s, s.active) && t in b.holder.reach;
    assert IsStep(w, s, StartRefresh(s.active, full), a);
    assert IsStep(w, a, PlanFan, b);
    var c := Next(w, b, WriteFan(t));
    run, steps := [s, a, b, c], [StartRefresh(s.active, full), PlanFan, WriteFan(t)];
    RunOfThree(w, run, steps);
  }

  lemma RunOfThree(w: Setup, run: seq<State>, steps: seq<Step>)
    requires |run| == 4 && |steps| == 3 && Init(run[0])
    requires IsStep(w, run[0], steps[0], run[1]) && IsStep(w, run[1], steps[1], run[2])
             && IsStep(w, run[2], steps[2], run[3])
    ensures IsRun(w, run, steps)
  {
    forall i | 0 <= i < |steps| ensures IsStep(w, run[i], steps[i], run[i + 1]) {
      assert i == 0 || i == 1 || i == 2;
    }
  }

  lemma RepeatedIsOverwritten(w: Setup, files: map<Path, bytes>, path: Path, full: bytes)
    requires w.tool == Claude && ClaudeFields(w.j, full).Ok?
    requires path in files && files[path] == PrintObject(RepeatedDocument(w.j))
    ensures PairAt(w, files, path).Some? && PairAt(w, GuardedWrite(w, files, path, full), path).None?
  {
    GuardMissesRepeated(w.j);
    RepeatedBuilds(w.j, full);
    BuiltHoldsNoRefreshToken(w.j, Claude, files[path], full);
  }

  lemma RepeatedBuilds(j: Json, full: bytes)
    requires ClaudeFields(j, full).Ok?
    ensures BuildTarget(j, Claude, PrintObject(RepeatedDocument(j)), full).Ok?
  {
    RepeatedParses(j);
    RepeatedValues(j);
    Edits.LookupIsFirst(RepeatedDocument(j), CLAUDE_SECTION);
    BuilderLaws.PrintedIsNotBlank(j, RepeatedDocument(j));
  }

  // ---- Who may write a live file ----

  /** The target a heal or a fan-out is about to write. */
  function Written(s: State, step: Step): Target
    requires (step.WriteHeal? && s.holder.HealReady?) || step.WriteFan?
  {
    if step.WriteHeal? then s.holder.target else step.target
  }

  /** In every run, a heal or a fan-out writes a live file, or an external one it heals, from a credential of the
      profile that the target follows at the moment of the write, however often the pointer moved before. */
  lemma WritesFollowActive(w: Setup, run: seq<State>, steps: seq<Step>, k: nat) returns (full: bytes)
    requires IsRun(w, run, steps) && k < |steps| && (steps[k].WriteHeal? || steps[k].WriteFan?)
    ensures Enabled(w, run[k], steps[k])
    ensures var t := Written(run[k], steps[k]);
            && run[k + 1].files == GuardedWrite(w, run[k].files, t.path, full)
            && (t.Live? || steps[k].WriteHeal? ==> (Followed(run[k].active, t), full) in run[k].kept)
            && (t.External? && steps[k].WriteFan? ==> (t.profile, full) in run[k].kept)
  {
    RunHasInv(w, run, steps, k);
    assert IsStep(w, run[k], steps[k], run[k + 1]);
    full := run[k].holder.full;
  }

  // ---- Bounds of an import ----

  /** How many stores an import may still make, and how many of them may create a profile. */
  function StoresLeft(c: Counter): int {
    match c
    case ToRescue(login) => 3 - login.round
    case ToDecide(login) => 3 - login.round
    case ToStore(login, _, _) => 3 - login.round
    case ToReread(login, _) => 2 - login.round
    case ToStrip(login, _) => 2 - login.round
    case ToRetry(login, _) => 2 - login.round
    case _ => 0
  }

  function CreatesLeft(c: Counter): nat {
    match c
    case ToRescue(login) => if login.round == 0 then 1 else 0
    case ToDecide(login) => if login.round == 0 then 1 else 0
    case ToStore(login, _, create) => if create then 1 else 0
    case _ => 0
  }

  predicate Creates(s: State, step: Step) {
    step.StoreLogin? && s.counter.ToStore? && s.counter.create
  }

  /** How many steps from `i` up to `k` store a login, and how many create a profile for one. */
  function StoreCount(steps: seq<Step>, i: nat, k: nat): nat
    requires i <= k <= |steps|
  {
    if i == k then 0 else StoreCount(steps, i, k - 1) + if steps[k - 1].StoreLogin? then 1 else 0
  }

  function CreateCount(run: seq<State>, steps: seq<Step>, i: nat, k: nat): nat
    requires i <= k <= |steps| < |run|
  {
    if i == k then 0 else CreateCount(run, steps, i, k - 1) + if Creates(run[k - 1], steps[k - 1]) then 1 else 0
  }

  lemma StepSpends(w: Setup, s: State, step: Step)
    requires Inv(s) && Enabled(w, s, step) && !step.Look?
    ensures StoresLeft(Next(w, s, step).counter) + (if step.StoreLogin? then 1 else 0) <= StoresLeft(s.counter)
    ensures CreatesLeft(Next(w, s, step).counter) + (if Creates(s, step) then 1 else 0) <= CreatesLeft(s.counter)
  {
    hide Decide, HasRefreshToken, SameLogin, StripLogin, GuardedWrite;
  }

  lemma {:induction false} RunSpends(w: Setup, run: seq<State>, steps: seq<Step>, i: nat, k: nat)
    requires IsRun(w, run, steps) && i <= k <= |steps| && forall x | i <= x < k :: !steps[x].Look?
    ensures StoresLeft(run[k].counter) + StoreCount(steps, i, k) <= StoresLeft(run[i].counter)
    ensures CreatesLeft(run[k].counter) + CreateCount(run, steps, i, k) <= CreatesLeft(run[i].counter)
  {
    hide Decide, Enabled, Next;
    if i < k {
      RunSpends(w, run, steps, i, k - 1);
      RunHasInv(w, run, steps, k - 1);
      assert IsStep(w, run[k - 1], steps[k - 1], run[k]);
      StepSpends(w, run[k - 1], steps[k - 1]);
    }
  }

  /** From one look at a target to the next, a login is stored at most three times and at most one profile is made. */
  lemma ImportIsBounded(w: Setup, run: seq<State>, steps: seq<Step>, i: nat, k: nat)
    requires IsRun(w, run, steps) && i <= k <= |steps| && forall x | i <= x < k :: !steps[x].Look?
    ensures StoreCount(steps, i, k) <= 3 && CreateCount(run, steps, i, k) <= 1
  {
    hide Enabled, Next;
    RunSpends(w, run, steps, i, k);
    RunHasInv(w, run, steps, i);
    RunHasInv(w, run, steps, k);
  }

  /** In every run, a strip that changes anything rewrites one file token-only, and the pair it removes is that of the
      login stored last, which has been rescued too. */
  lemma StripsLastStored(w: Setup, run: seq<State>, steps: seq<Step>, k: nat) returns (path: Path, p: string, d: bytes)
    requires IsRun(w, run, steps) && k < |steps| && steps[k].Strip? && run[k + 1].files != run[k].files
    ensures run[k].lastStored == Some((p, d)) && (p, d) in run[k].kept && d in run[k].rescued
    ensures PairAt(w, run[k].files, path).Some? && PairOf(w, d) == PairAt(w, run[k].files, path)
    ensures run[k + 1].files.Keys == run[k].files.Keys
    ensures TokenFree(w.j, w.tool, run[k + 1].files[path])
    ensures BuildTarget(w.j, w.tool, run[k].files[path], d) == Ok(run[k + 1].files[path])
    ensures forall q | q in run[k].files && q != path :: run[k + 1].files[q] == run[k].files[q]
  {
    hide Decide, BuildTarget;
    RunHasInv(w, run, steps, k);
    assert IsStep(w, run[k], steps[k], run[k + 1]);
    var login := run[k].counter.login;
    path, p, d := login.path, run[k].counter.profile, login.data;
    SameLoginSamePair(w, d, run[k].files[path]);
    BuiltHoldsNoRefreshToken(w.j, w.tool, run[k].files[path], d);
  }

  // ---- Which profile a login may replace ----

  /** In every run, the profile picked for a login is a new one, or, in the first round, one that may be replaced as
      the store stands, or, in a later round, the one the login was stored in before. */
  lemma PickIsSafe(w: Setup, run: seq<State>, steps: seq<Step>, k: nat)
    requires IsRun(w, run, steps) && k < |steps| && steps[k].PickProfile? && w.fold("") == ""
    ensures run[k].counter.ToDecide? && run[k + 1].counter.ToStore?
    ensures var s, login, c := run[k], run[k].counter.login, run[k + 1].counter;
            if login.round > 0 then !c.create && s.lastStored.Some? && c.profile == s.lastStored.value.0
            else c.create || MayReplace(w.j, w.fold, w.tool, Store(s.profiles, s.active), login.data, steps[k].accounts,
                                        c.profile)
  {
    RunHasInv(w, run, steps, k);
    assert IsStep(w, run[k], steps[k], run[k + 1]);
    var s := run[k];
    if s.counter.login.round == 0 {
      DecideIsSafe(w.j, w.fold, w.tool, Store(s.profiles, s.active), s.counter.login.data, steps[k].accounts);
    }
  }
}
