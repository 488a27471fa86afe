/** The reconciler as the program runs it. Each method is tied to two things: whatever others do in between, what it
    does is a run of the protocol; and when nobody else acts and no call fails, it does what the pass function says. */
module Reconcilers {
  import opened Bytes
  import opened Builders
  import opened Readers
  import opened Ordering
  import opened ImportChoice
  import opened Targets
  import opened Protocol
  import opened ProtocolLaws
  import opened Passes
  import opened Convergence
  import opened ImportLaws
  import CredentialReader
  import TargetBuilder

  datatype WriteResult = Wrote | NotWritten | LockBusy
  datatype Imported = InStore(profile: string) | RetryLater | ImportFailed
  datatype StripOutcome = StripDone | LoginMoved | StripBusy | StripError

  /** How a round of an import ends: with the whole import, or with a login whose tokens changed. */
  datatype Round = Finished(ok: bool) | Again(login: Login)
  datatype Seen = Unchanged | Ends(round: Round)

  lemma RunGrows(w: Setup, run: seq<State>, steps: seq<Step>, step: Step)
    requires IsRun(w, run, steps) && Enabled(w, run[|run| - 1], step)
    ensures IsRun(w, run + [Next(w, run[|run| - 1], step)], steps + [step])
  {
    var n := Next(w, run[|run| - 1], step);
    var longer, taken := run + [n], steps + [step];
    forall i | 0 <= i < |taken| ensures IsStep(w, longer[i], taken[i], longer[i + 1]) {
      if i < |steps| {
        assert IsStep(w, run[i], steps[i], run[i + 1]);
      }
    }
  }

  lemma {:induction false} ReachedAreReached(active: string, profile: string, targets: seq<Target>)
    ensures forall t :: t in Reached(active, profile, targets) <==> t in targets && Reaches(active, profile, t)
  {
    if targets != [] {
      ReachedAreReached(active, profile, targets[1..]);
      assert forall t :: t in targets <==> t == targets[0] || t in targets[1..];
    }
  }

  /** The new content of a target: the guard first, then the builder. */
  method BuildContent(w: Setup, existing: bytes, full: bytes, imported: bool) returns (content: Option<bytes>)
    ensures content == NewContent(w, existing, full, imported)
  {
    if !imported {
      var guarded := CredentialReader.RefreshTokenOnDisk(w.j, w.tool, existing);
      if guarded {
        return None;
      }
    }
    var built := TargetBuilder.BuildTarget(w.j, w.tool, existing, full);
    content := if built.Ok? then Some(built.value) else None;
  }

  /** The steps that the reconciler makes; command-line tools, the user, the switcher and the refresher make the
      others. */
  predicate IsOwn(step: Step) {
    && !step.Cli? && !step.ChangeProfile? && !step.ChangeTargets?
    && !step.StartSwitch? && !step.MovePointer? && !step.WriteSwitch? && !step.StartRefresh?
  }

  /** Why an import may be given up although no call has failed: the store has not been migrated, the choice refuses, or
      the picked profile is gone or all names of a new one were taken. A heal may be given up when none is due. */
  ghost predicate MayDrop(w: Setup, s: State) {
    match s.counter
    case ToHeal(_) => true
    case ToRescue(login) => login.round == 0 && AnyLinked(s.profiles)
    case ToDecide(login) => login.forced.None? && MayRefuse(w, s, login.data)
    case ToStore(_, profile, create) => create || profile !in s.profiles
    case _ => false
  }

  ghost predicate MayRefuse(w: Setup, s: State, data: bytes) {
    exists accounts :: Protocol.Decision(w, s, data, accounts).Refuse?
  }

  /** How many of the steps give up without such a reason. */
  ghost function Groundless(w: Setup, run: seq<State>, steps: seq<Step>): nat {
    if steps == [] then 0
    else
      var x := |steps| - 1;
      Groundless(w, run, steps[..x]) + if steps[x].GiveUp? && x < |run| && !MayDrop(w, run[x]) then 1 else 0
  }

  lemma {:induction false} GroundlessBefore(w: Setup, run: seq<State>, steps: seq<Step>, n: State)
    requires |steps| <= |run|
    ensures Groundless(w, run + [n], steps) == Groundless(w, run, steps)
  {
    hide MayDrop;
    if steps != [] {
      GroundlessBefore(w, run, steps[..|steps| - 1], n);
    }
  }

  lemma GroundlessGrows(w: Setup, run: seq<State>, steps: seq<Step>, n: State, step: Step)
    requires IsRun(w, run, steps)
    ensures Groundless(w, run + [n], steps + [step])
         == Groundless(w, run, steps) + if step.GiveUp? && !MayDrop(w, run[|run| - 1]) then 1 else 0
  {
    hide MayDrop, Init, IsStep;
    GroundlessBefore(w, run, steps, n);
    assert (steps + [step])[..|steps|] == steps && (run + [n])[|steps|] == run[|run| - 1];
  }

  /** When the count has not grown, every give-up in between had a reason. */
  lemma {:induction false} GroundedDrops(w: Setup, run: seq<State>, steps: seq<Step>, i: nat, x: nat)
    requires i <= x < |steps| < |run| && steps[x].GiveUp?
    requires Groundless(w, run, steps) == Groundless(w, run, steps[..i])
    ensures MayDrop(w, run[x])
  {
    hide MayDrop;
    GroundlessRises(w, run, steps, i);
    var most := steps[..|steps| - 1];
    if x < |most| {
      GroundlessRises(w, run, most, i);
      assert most[..i] == steps[..i];
      GroundedDrops(w, run, most, i, x);
    } else if i < |steps| {
      GroundlessRises(w, run, most, i);
      assert most[..i] == steps[..i];
    }
  }

  lemma {:induction false} GroundlessRises(w: Setup, run: seq<State>, steps: seq<Step>, i: nat)
    requires i <= |steps|
    ensures Groundless(w, run, steps[..i]) <= Groundless(w, run, steps)
  {
    hide MayDrop;
    if i == |steps| {
      assert steps[..i] == steps;
    } else {
      GroundlessRises(w, run, steps[..|steps| - 1], i);
      assert steps[..|steps| - 1][..i] == steps[..i];
    }
  }

  class Reconciler {
    const w: Setup
    const quiet: bool  // nobody else acts, and no call fails
    const lookup: AccountLookup
    var files: map<Path, bytes>
    var profiles: map<string, Stored>
    var active: string
    var targets: seq<Target>
    var locked: bool  // the switcher lock
    ghost var run: seq<State>
    ghost var steps: seq<Step>
    ghost var failures: nat  // how many calls have failed

    ghost function Now(): State
      requires run != []
      reads this
    {
      run[|run| - 1]
    }

    function OnDisk(): Disk
      reads this
    {
      Disk(files, profiles, active)
    }

    /** The history is a run of the protocol that has led to the present. */
    ghost predicate Valid()
      reads this
    {
      && run != [] && IsRun(w, run, steps)
      && Now().files == files && Now().profiles == profiles && Now().active == active
      && Now().targets == (set t | t in targets) && (locked <==> !Now().holder.Free?)
    }

    ghost predicate At(counter: Counter)
      reads this
    {
      Valid() && Now().counter == counter && Now().holder.Free?
    }

    /** The history goes on from an earlier one; when quiet, only by steps that the reconciler itself makes. */
    twostate predicate GoesOn()
      reads this
    {
      && old(run) <= run && old(steps) <= steps && old(failures) <= failures
      && (quiet ==> forall x | |old(steps)| <= x < |steps| :: IsOwn(steps[x]))
    }

    /** And unless a call fails, an import is given up only for a reason. */
    twostate predicate Continues()
      reads this
    {
      GoesOn() && (failures == old(failures) ==> Groundless(w, run, steps) == old(Groundless(w, run, steps)))
    }

    constructor (w: Setup, lookup: AccountLookup, quiet: bool, disk: Disk, targets: seq<Target>)
      ensures At(Idle) && OnDisk() == disk && this.targets == targets && this.quiet == quiet && this.w == w
              && this.lookup == lookup
      ensures steps == [] && failures == 0
    {
      hide Enabled, Next;
      this.w, this.lookup, this.quiet := w, lookup, quiet;
      files, profiles, active, this.targets := disk.files, disk.profiles, disk.active, targets;
      locked := false;
      var kept := set p | p in disk.profiles && disk.profiles[p].Has? :: (p, disk.profiles[p].data);
      run := [State(disk.files, disk.profiles, disk.active, set t | t in targets, {}, kept, Free, Idle, None)];
      steps, failures := [], 0;
    }

    ghost method Record(step: Step)
      requires run != [] && IsRun(w, run, steps) && Enabled(w, Now(), step) && (quiet ==> IsOwn(step))
      requires step.GiveUp? ==> MayDrop(w, Now())
      modifies `run, `steps
      ensures run != [] && IsRun(w, run, steps) && Now() == Next(w, old(Now()), step) && Continues()
    {
      GroundlessGrows(w, run, steps, Next(w, Now(), step), step);
      RunGrows(w, run, steps, step);
      run, steps := run + [Next(w, Now(), step)], steps + [step];
    }

    /** Gives a target up. */
    ghost method Drop()
      requires run != [] && IsRun(w, run, steps) && !Now().counter.Idle?
      modifies `run, `steps
      ensures run != [] && IsRun(w, run, steps) && Now() == old(Now()).(counter := Idle) && GoesOn()
      ensures MayDrop(w, old(Now())) ==> Continues()
    {
      hide Groundless, MayDrop, Decide, HasRefreshToken, NewContent, SameLogin, IsRun;
      GroundlessGrows(w, run, steps, Next(w, Now(), GiveUp), GiveUp);
      RunGrows(w, run, steps, GiveUp);
      run, steps := run + [Next(w, Now(), GiveUp)], steps + [GiveUp];
    }

    method Fails() returns (b: bool)
      modifies `failures
      ensures quiet ==> !b
      ensures failures == if b then old(failures) + 1 else old(failures)
    {
      b := false;
      if !quiet {
        b := *;
      }
      if b {
        failures := failures + 1;
      }
    }

    // ---- The writer ----

    method Write(path: Path, full: bytes, imported: bool) returns (r: WriteResult)
      modifies `files, `failures
      ensures var content := NewContent(w, Existing(old(files), path), full, imported);
              match r
              case Wrote => content.Some? && files == old(files)[path := content.value]
              case NotWritten => content.None? && files == old(files)
              case LockBusy => !quiet && files == old(files)
      ensures if r.LockBusy? then failures > old(failures) else failures == old(failures)
    {
      var busy := Fails();
      if busy {
        return LockBusy;
      }
      var existing := Existing(files, path);
      var content := BuildContent(w, existing, full, imported);
      if content.None? {
        return NotWritten;
      }
      if content.value == existing && path in files {
        assert files[path := existing] == files;
        return Wrote;
      }
      files := files[path := content.value];
      r := Wrote;
    }

    /** A write that refuses a file that holds a login. */
    method WriteTarget(path: Path, full: bytes) returns (r: WriteResult)
      modifies `files, `failures
      ensures r.LockBusy? ==> !quiet && files == old(files)
      ensures if r.LockBusy? then failures > old(failures) else failures == old(failures)
      ensures !r.LockBusy? ==> files == GuardedWrite(w, old(files), path, full)
      ensures !r.LockBusy? ==> (r.Wrote? <==> NewContent(w, Existing(old(files), path), full, false).Some?)
    {
      r := Write(path, full, false);
    }

    // ---- Everybody else ----

    /** Any number of steps of others: they change files, profiles and the registry, and take the lock while it is
        free. */
    method Others()
      requires Valid()
      modifies this
      ensures Valid() && Continues() && Now().counter == old(Now().counter) && Now().holder == old(Now().holder)
      ensures quiet ==> OnDisk() == old(OnDisk()) && targets == old(targets)
    {
      hide Enabled, Next;
      var more: nat := 0;
      if !quiet {
        more := *;
      }
      while more > 0
        invariant Valid() && Continues() && Now().counter == old(Now().counter) && Now().holder == old(Now().holder)
        invariant quiet ==> OnDisk() == old(OnDisk()) && targets == old(targets) && more == 0
      {
        OneOther();
        more := more - 1;
      }
    }

    method OneOther()
      requires !quiet && Valid()
      modifies this
      ensures Valid() && Continues() && Now().counter == old(Now().counter) && Now().holder == old(Now().holder)
    {
      hide Groundless, MayDrop, Decide, HasRefreshToken, NewContent, SameLogin, StripLogin, IsRun;
      var step: Step := *;
      match step
      case Cli(path, content) =>
        files := if content.Some? then files[path := content.value] else files - {path};
        Record(step);
      case ChangeProfile(p, stored) =>
        profiles := profiles[p := stored];
        Record(step);
      case ChangeTargets(_) =>
        targets := *;
        Record(ChangeTargets(set t | t in targets));
      case StartRefresh(p, _) =>
        if !locked && p in profiles && profiles[p].Has? {
          Refresh(p);
        }
      case StartSwitch(next) =>
        if !locked {
          Switch(next);
        }
      case _ =>
    }

    /** Somebody switches to another profile, with or without rewriting a live file. */
    method Switch(next: string)
      requires !quiet && Valid() && !locked
      modifies this
      ensures Valid() && Continues() && Now().counter == old(Now().counter) && !locked
    {
      hide Groundless, Decide, HasRefreshToken, NewContent, SameLogin, StripLogin, Enabled;
      Record(StartSwitch(next));
      locked := true;
      SwitchSome(next);
      PointTo(next);
      Unlock();
    }

    method SwitchSome(next: string)
      requires !quiet && Valid() && Now().holder == Switching(next)
      modifies `files, `run, `steps, `failures
      ensures Valid() && Continues() && Now().counter == old(Now().counter) && Now().holder == old(Now().holder)
    {
      hide IsRun;
      if next in profiles && profiles[next].Has? {
        KeptNow(next);
        var t: Target := *;
        if FollowsActive(t) {
          SwitchLive(t, next, profiles[next].data);
        }
      }
    }

    method PointTo(next: string)
      requires !quiet && Valid() && Now().holder == Switching(next)
      modifies `active, `run, `steps
      ensures Valid() && Continues() && Now().counter == old(Now().counter) && Now().holder == old(Now().holder)
    {
      hide Decide, HasRefreshToken, NewContent, SameLogin, Enabled;
      active := next;
      Record(MovePointer);
    }

    ghost method KeptNow(p: string)
      requires Valid() && p in profiles && profiles[p].Has?
      ensures (p, profiles[p].data) in Now().kept
    {
      RunHasInv(w, run, steps, |run| - 1);
    }

    /** The guarded write of a switch to a file that follows the active profile. */
    method SwitchLive(t: Target, next: string, full: bytes)
      requires !quiet && Valid() && Now().holder == Switching(next) && (next, full) in Now().kept && FollowsActive(t)
      modifies `files, `run, `steps, `failures
      ensures Valid() && Continues() && Now().counter == old(Now().counter) && Now().holder == old(Now().holder)
    {
      hide Decide, HasRefreshToken, NewContent, SameLogin, Enabled;
      var r := WriteTarget(t.path, full);
      if !r.LockBusy? {
        Record(WriteSwitch(t, full));
      }
    }

    method Unlock()
      requires Valid() && locked
      modifies `locked, `run, `steps
      ensures Valid() && Continues() && Now().counter == old(Now().counter) && !locked
    {
      hide Decide, HasRefreshToken, NewContent, SameLogin, Enabled;
      Record(Release);
      locked := false;
    }

    /** Somebody refreshes a profile and rewrites a target it reaches. */
    method Refresh(p: string)
      requires !quiet && Valid() && !locked && p in profiles && profiles[p].Has?
      modifies this
      ensures Valid() && Continues() && Now().counter == old(Now().counter) && !locked
    {
      hide Groundless, MayDrop, Decide, HasRefreshToken, NewContent, SameLogin, StripLogin;
      var full := profiles[p].data;
      KeptNow(p);
      Record(StartRefresh(p, full));
      locked := true;
      RefreshOne(p, full);
      Unlock();
    }

    method RefreshOne(p: string, full: bytes)
      requires Valid() && locked && Now().holder == Fanning(p, full)
      modifies `files, `run, `steps, `failures
      ensures Valid() && Continues() && Now().counter == old(Now().counter) && locked
    {
      hide Groundless, MayDrop, Decide, HasRefreshToken, NewContent, SameLogin, StripLogin;
      Record(PlanFan);
      var t: Target := *;
      if t in targets && Reaches(active, p, t) {
        FanTo(t, full);
      }
    }

    // ---- Fan-out ----

    /** One guarded write of a fan-out. */
    method FanTo(t: Target, full: bytes)
      requires Valid() && Now().holder.FanReady? && Now().holder.full == full && t in Now().holder.reach
      modifies `files, `run, `steps, `failures
      ensures Valid() && Continues() && Now().counter == old(Now().counter) && Now().holder == old(Now().holder)
      ensures quiet ==> files == GuardedWrite(w, old(files), t.path, full)
    {
      hide IsRun, Decide, HasRefreshToken, NewContent, SameLogin, Enabled;
      var r := WriteTarget(t.path, full);
      if !r.LockBusy? {
        Record(WriteFan(t));
      }
    }

    method ReachedTargets(profile: string) returns (reached: seq<Target>)
      ensures reached == Reached(active, profile, targets)
      ensures forall t :: t in reached <==> t in targets && Reaches(active, profile, t)
    {
      reached := [];
      for i := 0 to |targets|
        invariant Reached(active, profile, targets) == reached + Reached(active, profile, targets[i..])
      {
        assert targets[i..][0] == targets[i] && targets[i..][1..] == targets[i + 1..];
        if Reaches(active, profile, targets[i]) {
          reached := reached + [targets[i]];
        }
      }
      ReachedAreReached(active, profile, targets);
    }

    /** Takes the lock for the fan-out of a stored login and reads there which targets the profile reaches. */
    method StartFanOut(profile: string, full: bytes) returns (reached: seq<Target>)
      requires At(ToFan(profile, full))
      modifies this
      ensures Valid() && Continues() && locked && Now().counter == Idle
      ensures Now().holder.FanReady? && Now().holder.full == full && forall t | t in reached :: t in Now().holder.reach
      ensures quiet
              ==> OnDisk() == old(OnDisk()) && targets == old(targets) && reached == Reached(active, profile, targets)
    {
      hide Groundless, MayDrop, Decide, HasRefreshToken, NewContent, SameLogin, StripLogin;
      Record(StartFan);
      locked := true;
      Others();
      reached := PlanFanOut(profile, full);
    }

    method PlanFanOut(profile: string, full: bytes) returns (reached: seq<Target>)
      requires Valid() && locked && Now().counter == Idle && Now().holder == Fanning(profile, full)
      modifies `run, `steps
      ensures Valid() && Continues() && locked && Now().counter == Idle
      ensures Now().holder.FanReady? && Now().holder.full == full && forall t | t in reached :: t in Now().holder.reach
      ensures reached == Reached(active, profile, targets)
    {
      hide Groundless, MayDrop, Decide, HasRefreshToken, NewContent, SameLogin, StripLogin;
      reached := ReachedTargets(profile);
      Record(PlanFan);
    }

    /** Errors at single targets stop nothing, and a failed fan-out is no failure of the import. */
    method FanOut(profile: string, full: bytes)
      requires At(ToFan(profile, full))
      modifies this
      ensures At(Idle) && Continues()
      ensures quiet ==> profiles == old(profiles) && active == old(active) && targets == old(targets)
      ensures quiet ==> files == WriteEach(w, old(files), full, Reached(old(active), profile, old(targets)))
    {
      hide Groundless, MayDrop, IsRun, NewContent, Enabled, Next;
      var failed := Fails();
      if failed {
        Drop();
        return;
      }
      var reached := StartFanOut(profile, full);
      FanOutOver(reached, full);
      Unlock();
    }

    method FanOutOver(reached: seq<Target>, full: bytes)
      requires Valid() && locked && Now().holder.FanReady? && Now().holder.full == full
      requires forall t | t in reached :: t in Now().holder.reach
      modifies this
      ensures Valid() && Continues() && locked && Now().counter == old(Now().counter)
      ensures quiet ==> profiles == old(profiles) && active == old(active) && targets == old(targets)
      ensures quiet ==> files == WriteEach(w, old(files), full, reached)
    {
      hide IsRun, NewContent;
      for i := 0 to |reached|
        invariant Valid() && Continues() && locked && Now().counter == old(Now().counter)
                  && Now().holder == old(Now().holder)
        invariant quiet ==> profiles == old(profiles) && active == old(active) && targets == old(targets)
        invariant quiet ==> WriteEach(w, old(files), full, reached) == WriteEach(w, files, full, reached[i..])
      {
        Others();
        FanTo(reached[i], full);
        assert reached[i..][0] == reached[i] && reached[i..][1..] == reached[i + 1..];
      }
    }

    // ---- Healing ----

    /** Whether a rewrite is due, and from what: the target's bytes may be older than what the store holds. */
    method HealPlan(t: Target, data: bytes) returns (full: Option<bytes>)
      ensures full.Some? ==> var p := Followed(active, t); p in profiles && profiles[p] == Has(full.value)
      ensures t.path in files && data == files[t.path] ==> (full.Some? <==> HealDue(w, OnDisk(), t))
    {
      var name := Followed(active, t);
      if name == "" || name !in profiles || !profiles[name].Has? {
        return None;
      }
      var stored := profiles[name].data;
      var credential := ParseFull(w.j, w.tool, stored);
      if credential.None? {
        return None;
      }
      var view := ParseTarget(w.j, w.tool, data);
      full := if view.TokenOnly? && view.cred.access == credential.value.access then None else Some(stored);
    }

    method Heal(t: Target, data: bytes) returns (ok: bool)
      requires At(ToHeal(t)) && !HasRefreshToken(w.j, w.tool, data)
      modifies this
      ensures At(Idle) && Continues()
      ensures quiet && t.path in old(files) && data == old(files)[t.path] ==>
        targets == old(targets) && Outcome(OnDisk(), ok) == HealOne(w, old(OnDisk()), t)
    {
      hide Groundless, MayDrop, IsRun, ParseFull, ParseTarget, HasRefreshToken, NewContent, Enabled, Next;
      var failed := Fails();
      Others();
      var look := HealPlan(t, data);
      if failed || look.None? {
        DropHeal(t);
        return !failed;
      }
      Others();
      ok := HealAgain(t);
    }

    /** A heal that is not due, or cannot go on, is over. */
    ghost method DropHeal(t: Target)
      requires At(ToHeal(t))
      modifies `run, `steps
      ensures At(Idle) && Continues()
    {
      hide Decide, HasRefreshToken, NewContent, SameLogin, StripLogin, IsRun;
      Drop();
    }

    method HealAgain(t: Target) returns (ok: bool)
      requires At(ToHeal(t))
      modifies this
      ensures At(Idle) && Continues()
      ensures quiet && t.path in old(files) && !HasRefreshToken(w.j, w.tool, old(files)[t.path]) ==>
        targets == old(targets) && Outcome(OnDisk(), ok) == HealOne(w, old(OnDisk()), t)
    {
      hide Groundless, Decide, ParseFull, ParseTarget, HasRefreshToken, NewContent, IsRun, Enabled;
      var failed := Fails();
      if failed {
        Drop();
        return false;
      }
      Record(StartHeal);
      locked := true;
      ok := HealLocked(t);
    }

    /** The second decision, under the lock, and the rewrite. */
    method HealLocked(t: Target) returns (ok: bool)
      requires Valid() && locked && Now().counter == Idle && Now().holder == Healing(t)
      modifies this
      ensures At(Idle) && Continues()
      ensures quiet && t.path in old(files) && !HasRefreshToken(w.j, w.tool, old(files)[t.path]) ==>
        targets == old(targets) && Outcome(OnDisk(), ok) == HealOne(w, old(OnDisk()), t)
    {
      hide MayDrop, IsRun, ParseFull, ParseTarget, HasRefreshToken, NewContent;
      Others();
      if t.path !in files || HasRefreshToken(w.j, w.tool, files[t.path]) {
        Unlock();
        return true;
      }
      ok := HealCurrent(t, files[t.path]);
    }

    method HealCurrent(t: Target, current: bytes) returns (ok: bool)
      requires Valid() && locked && Now().counter == Idle && Now().holder == Healing(t)
      modifies this
      ensures At(Idle) && Continues()
      ensures quiet && t.path in old(files) && current == old(files)[t.path] ==>
        targets == old(targets) && Outcome(OnDisk(), ok) == HealOne(w, old(OnDisk()), t)
    {
      hide Groundless, MayDrop, IsRun, ParseFull, ParseTarget, HasRefreshToken, NewContent, HealOne, Enabled, Next;
      Others();
      ok := HealIfDue(t, current);
    }

    method HealIfDue(t: Target, current: bytes) returns (ok: bool)
      requires Valid() && locked && Now().counter == Idle && Now().holder == Healing(t)
      modifies this
      ensures At(Idle) && Continues()
      ensures quiet && t.path in old(files) && current == old(files)[t.path] ==>
        targets == old(targets) && Outcome(OnDisk(), ok) == HealOne(w, old(OnDisk()), t)
    {
      hide Groundless, MayDrop, Decide, ParseFull, ParseTarget, HasRefreshToken, NewContent, SameLogin, StripLogin;
      var full := HealPlan(t, current);
      if full.None? {
        Unlock();
        return true;
      }
      Record(PlanHeal);
      ok := HealWrite(t, full.value);
    }

    method HealWrite(t: Target, full: bytes) returns (ok: bool)
      requires Valid() && locked && Now().counter == Idle && Now().holder.HealReady?
      requires Now().holder.target == t && Now().holder.full == full
      modifies this
      ensures At(Idle) && Continues()
      ensures quiet ==> targets == old(targets) && Outcome(OnDisk(), ok) == WriteOne(w, old(OnDisk()), t.path, full)
    {
      hide IsRun, NewContent;
      Others();
      var r := HealTo(t, full);
      Unlock();
      ok := !r.NotWritten?;
    }

    /** The guarded write of a heal. */
    method HealTo(t: Target, full: bytes) returns (r: WriteResult)
      requires Valid() && Now().holder.HealReady? && Now().holder.target == t && Now().holder.full == full
      modifies `files, `run, `steps, `failures
      ensures Valid() && Continues() && Now().counter == old(Now().counter) && Now().holder == old(Now().holder)
      ensures r.LockBusy? ==> !quiet
      ensures !r.LockBusy? ==> files == GuardedWrite(w, old(files), t.path, full)
      ensures !r.LockBusy? ==> (r.Wrote? <==> NewContent(w, Existing(old(files), t.path), full, false).Some?)
    {
      hide IsRun, Decide, HasRefreshToken, NewContent, SameLogin, Enabled;
      r := WriteTarget(t.path, full);
      if !r.LockBusy? {
        Record(WriteHeal);
      }
    }

    // ---- Importing a login ----

    method FindAccounts(path: Path, data: bytes) returns (accounts: Accounts)
      ensures quiet ==> accounts == lookup(path, data, profiles)
    {
      if quiet {
        accounts := lookup(path, data, profiles);
      } else {
        accounts := *;
      }
    }

    method PickFor(login: Login) returns (picked: Option<(string, bool)>)
      requires At(ToDecide(login))
      modifies `run, `steps
      ensures Continues() && if picked.Some? then At(ToStore(login, picked.value.0, picked.value.1)) else At(Idle)
      ensures quiet && login.forced.None? ==> picked == PickPlan(w, lookup, OnDisk(), login.path, login.data)
    {
      hide Decide, HasRefreshToken, NewContent, SameLogin;
      var accounts := FindAccounts(login.path, login.data);
      if login.forced.Some? {
        Record(PickProfile(accounts));
        return Some((login.forced.value, false));
      }
      var names := OrderedKeys(profiles);
      var choice := DecideImport(w.j, w.fold, w.tool, Store(profiles, active), names, login.data, accounts);
      if choice.Refuse? {
        assert Protocol.Decision(w, Now(), login.data, accounts) == choice;
        Drop();
        return None;
      }
      Record(PickProfile(accounts));
      picked := Some((choice.decision.profile, choice.decision.create));
    }

    /** Stores the login in the picked profile, or in a new one, and makes it the active one. */
    method StoreAs(login: Login, profile: string, create: bool) returns (r: Imported)
      requires At(ToStore(login, profile, create))
      modifies this
      ensures Continues() && At(if r.InStore? then ToReread(login, r.profile) else Idle)
      ensures quiet ==> var d := old(OnDisk());
        && targets == old(targets) && !r.RetryLater?
        && (match StoreName(d.profiles, profile, create)
            case None => r.ImportFailed? && OnDisk() == d
            case Some(p) => r == InStore(p) && OnDisk() == Disk(d.files, d.profiles[p := Has(login.data)], p))
    {
      hide Decide, Groundless, IsRun, Next;
      if create {
        r := StoreNew(login, profile);
        return;
      }
      var failed := Fails();
      if failed || profile !in profiles {
        Drop();
        return ImportFailed;
      }
      assert profile + SUFFIXES[0] == profile;
      StoreUnder(login, profile, false, 0);
      r := InStore(profile);
    }

    /** Two logins of the same second share a name, so others are tried when it is taken. */
    method StoreNew(login: Login, profile: string) returns (r: Imported)
      requires At(ToStore(login, profile, true))
      modifies this
      ensures Continues() && At(if r.InStore? then ToReread(login, r.profile) else Idle)
      ensures quiet ==> var d := old(OnDisk());
        && targets == old(targets) && !r.RetryLater?
        && (match FreeName(d.profiles, profile, 0)
            case None => r.ImportFailed? && OnDisk() == d
            case Some(p) => r == InStore(p) && OnDisk() == Disk(d.files, d.profiles[p := Has(login.data)], p))
    {
      hide Groundless, MayDrop, IsRun, Enabled, Next;
      var attempt := 0;
      while attempt < |SUFFIXES|
        invariant attempt <= |SUFFIXES|
        invariant At(ToStore(login, profile, true)) && Continues()
        invariant quiet ==> targets == old(targets) && OnDisk() == old(OnDisk())
        invariant quiet ==> FreeName(profiles, profile, 0) == FreeName(profiles, profile, attempt)
      {
        var failed := Fails();
        if failed {
          break;
        }
        var stored := StoreFree(login, profile, attempt);
        if stored {
          return InStore(active);
        }
        attempt := attempt + 1;
      }
      DropStore(login, profile);
      r := ImportFailed;
    }

    /** No name was free, or a call failed. */
    ghost method DropStore(login: Login, profile: string)
      requires At(ToStore(login, profile, true))
      modifies `run, `steps
      ensures At(Idle) && Continues()
    {
      hide Decide, HasRefreshToken, NewContent, SameLogin, StripLogin, IsRun;
      Drop();
    }

    /** Stores the login under one of the names, if that is free. */
    method StoreFree(login: Login, profile: string, attempt: nat) returns (stored: bool)
      requires At(ToStore(login, profile, true)) && attempt < |SUFFIXES|
      modifies this
      ensures Continues() && At(if stored then ToReread(login, active) else ToStore(login, profile, true))
      ensures quiet ==> var p, d := profile + SUFFIXES[attempt], old(OnDisk());
        && targets == old(targets) && (stored <==> p !in d.profiles)
        && OnDisk() == if stored then Disk(d.files, d.profiles[p := Has(login.data)], p) else d
    {
      hide IsRun, Enabled, Next;
      stored := profile + SUFFIXES[attempt] !in profiles;
      if stored {
        StoreUnder(login, profile, true, attempt);
      } else {
        Others();
      }
    }

    method StoreUnder(login: Login, profile: string, create: bool, attempt: nat)
      requires At(ToStore(login, profile, create)) && MayStore(profiles, profile, create, attempt)
      modifies `profiles, `active, `run, `steps
      ensures var p := profile + SUFFIXES[attempt];
        Continues() && At(ToReread(login, p)) && active == p && profiles == old(profiles)[p := Has(login.data)]
    {
      hide Decide, HasRefreshToken, NewContent, SameLogin, StripLogin, Enabled;
      active := profile + SUFFIXES[attempt];
      profiles := profiles[active := Has(login.data)];
      Record(StoreLogin(attempt));
    }

    /** Nothing is imported or stripped that is not safely saved first. */
    method SaveRescue(login: Login) returns (saved: bool)
      requires At(ToRescue(login))
      modifies this
      ensures Continues() && At(if saved then ToDecide(login) else Idle)
      ensures quiet ==> saved && OnDisk() == old(OnDisk()) && targets == old(targets)
    {
      hide Groundless, Decide, HasRefreshToken, NewContent, SameLogin, Enabled;
      var failed := Fails();
      if failed {
        Drop();
        return false;
      }
      Record(Rescue);
      Others();
      saved := true;
    }

    /** Rescues the login and stores it in the profile store. */
    method ImportOnce(login: Login) returns (r: Imported)
      requires At(ToRescue(login))
      modifies this
      ensures Continues() && At(if r.InStore? then ToReread(login, r.profile) else Idle)
      ensures quiet && login.forced.None? ==> var d := old(OnDisk());
        && targets == old(targets) && !r.RetryLater?
        && (match StorePlan(w, lookup, d, login.path, login.data)
            case None => r.ImportFailed? && OnDisk() == d
            case Some(p) => r == InStore(p) && OnDisk() == Disk(d.files, d.profiles[p := Has(login.data)], p))
    {
      hide Groundless, MayDrop, IsRun, Decide, ParseFull, ParseTarget, Enabled, Next, StoreName;
      var saved := SaveRescue(login);
      if !saved {
        return ImportFailed;
      }
      var picked := PickFor(login);
      if picked.None? {
        return ImportFailed;
      }
      r := StorePicked(login, picked.value.0, picked.value.1);
    }

    /** Holds the account lock of a profile that is replaced while the login is stored in it. */
    method StorePicked(login: Login, profile: string, create: bool) returns (r: Imported)
      requires At(ToStore(login, profile, create))
      modifies this
      ensures Continues() && At(if r.InStore? then ToReread(login, r.profile) else Idle)
      ensures quiet ==> var d := old(OnDisk());
        && targets == old(targets) && !r.RetryLater?
        && (match StoreName(d.profiles, profile, create)
            case None => r.ImportFailed? && OnDisk() == d
            case Some(p) => r == InStore(p) && OnDisk() == Disk(d.files, d.profiles[p := Has(login.data)], p))
    {
      hide Groundless, MayDrop, IsRun, Enabled, Next;
      if !create {
        var busy := Fails();
        if busy {
          Drop();
          return RetryLater;
        }
      }
      Others();
      r := StoreAs(login, profile, create);
    }

    // ---- Stripping it ----

    /** Strips a stored login, under the lock, if it is still the login in the file. */
    method StripTarget(login: Login, profile: string) returns (r: StripOutcome)
      requires At(ToStrip(login, profile))
      modifies this
      ensures Continues()
      ensures match r
              case StripDone => At(ToFan(profile, login.data))
              case LoginMoved => At(ToRetry(login, profile))
              case _ => At(Idle)
      ensures quiet && HoldsLoginAt(w, old(files), login.path) && old(files)[login.path] == login.data ==>
        && profiles == old(profiles) && active == old(active) && targets == old(targets)
        && match NewContent(w, login.data, login.data, true)
           case None => r.StripError? && files == old(files)
           case Some(built) => r.StripDone? && files == old(files)[login.path := built]
    {
      hide IsRun, ParseFull, ParseTarget, HasRefreshToken, NewContent, Enabled, Next;
      Others();
      var failed := Fails();
      if failed {
        Drop();
        return StripBusy;
      }
      r := StripLocked(login, profile);
    }

    method StripLocked(login: Login, profile: string) returns (r: StripOutcome)
      requires At(ToStrip(login, profile))
      modifies `files, `run, `steps, `failures
      ensures Continues()
      ensures match r
              case StripDone => At(ToFan(profile, login.data))
              case LoginMoved => At(ToRetry(login, profile))
              case _ => At(Idle)
      ensures quiet && HoldsLoginAt(w, old(files), login.path) && old(files)[login.path] == login.data ==>
        && profiles == old(profiles) && active == old(active) && targets == old(targets)
        && match NewContent(w, login.data, login.data, true)
           case None => r.StripError? && files == old(files)
           case Some(built) => r.StripDone? && files == old(files)[login.path := built]
    {
      hide Decide, BuildTarget, ParseTarget, RefreshTokenOnDisk, HasRefreshToken, Enabled;
      if !HoldsLoginAt(w, files, login.path) {
        Record(Strip);
        return StripDone;
      }
      if !SameLogin(w, login.data, files[login.path]) {
        Record(Strip);
        return LoginMoved;
      }
      r := WriteImportedLogin(login, profile);
    }

    /** Writes over a login that is known to be stored. */
    method WriteImportedLogin(login: Login, profile: string) returns (r: StripOutcome)
      requires At(ToStrip(login, profile)) && HoldsLoginAt(w, files, login.path)
               && SameLogin(w, login.data, files[login.path])
      modifies `files, `run, `steps, `failures
      ensures Continues()
      ensures match r
              case StripDone => At(ToFan(profile, login.data))
              case LoginMoved => false
              case _ => At(Idle)
      ensures quiet ==>
        match NewContent(w, old(files)[login.path], login.data, true)
        case None => r.StripError? && files == old(files)
        case Some(built) => r.StripDone? && files == old(files)[login.path := built]
    {
      hide Groundless, IsRun, Decide, BuildTarget, RefreshTokenOnDisk, HasRefreshToken, SameLogin, Enabled;
      var written := Write(login.path, login.data, true);
      if written.LockBusy? {
        Drop();
        return StripBusy;
      }
      Record(Strip);
      r := if written.Wrote? then StripDone else StripError;
    }

    // ---- The whole import ----

    /** The second look at a target. A login whose tokens changed goes to the profile of the first round, with the bytes
        that the file has now; a third change is an error. */
    method LookAgain(login: Login, profile: string, moved: bool) returns (r: Seen)
      requires At(if moved then ToRetry(login, profile) else ToReread(login, profile))
      modifies `run, `steps
      ensures Continues()
      ensures match r
              case Unchanged => At(ToStrip(login, profile))
              case Ends(Finished(_)) => At(Idle)
              case Ends(Again(next)) =>
                At(ToRescue(next)) && next.path == login.path && next.round == login.round + 1 <= 2
      ensures PairAt(w, files, login.path).None? ==> r == Ends(Finished(true))
      ensures PairAt(w, files, login.path).Some? && (moved || PairAt(w, files, login.path) != PairOf(w, login.data)) ==>
        r == Ends(if login.round >= 2 then Finished(false)
                  else Again(Login(login.path, files[login.path], login.round + 1, Some(profile))))
      ensures !moved && HoldsLoginAt(w, files, login.path) && SameLogin(w, login.data, files[login.path]) ==>
        r.Unchanged?
      ensures !moved && HoldsLoginAt(w, files, login.path) && files[login.path] == login.data ==> r.Unchanged?
    {
      hide Groundless, MayDrop, IsRun, Decide, BuildTarget, ParseTarget, RefreshTokenOnDisk;
      if moved {
        Record(Retry);
      } else {
        Record(Reread);
      }
      HeldHasPair(w, files, login.path);
      if !HoldsLoginAt(w, files, login.path) {
        return Ends(Finished(true));
      }
      var again := files[login.path];
      if SameLogin(w, login.data, again) {
        SameLoginSamePair(w, login.data, again);
      }
      if !moved && SameLogin(w, login.data, again) {
        return Unchanged;
      }
      if login.round >= 2 {
        return Ends(Finished(false));
      }
      r := Ends(Again(Login(login.path, again, login.round + 1, Some(profile))));
    }

    /** Strips a stored login and fans it out; when it changed at the last moment, it is looked at again. */
    method StripRound(login: Login, profile: string) returns (r: Round)
      requires At(ToStrip(login, profile))
      modifies this
      ensures Continues()
      ensures match r
              case Finished(_) => At(Idle)
              case Again(next) => At(ToRescue(next)) && next.path == login.path && next.round == login.round + 1 <= 2
      ensures quiet && HoldsLoginAt(w, old(files), login.path) && old(files)[login.path] == login.data ==>
        && targets == old(targets) && r.Finished?
        && Outcome(OnDisk(), r.ok) == StripOne(w, old(targets), old(OnDisk()), login.path, profile)
    {
      hide MayDrop, PairAt, PairOf, IsRun, HasRefreshToken, NewContent, SameLogin;
      var stripped := StripTarget(login, profile);
      match stripped
      case StripBusy => return Finished(true);
      case StripError => return Finished(false);
      case StripDone =>
        FanOut(profile, login.data);
        return Finished(true);
      case LoginMoved =>
        Others();
        var seen := LookAgain(login, profile, true);
        r := seen.round;
    }

    method ImportRound(login: Login) returns (r: Round)
      requires At(ToRescue(login))
      modifies this
      ensures Continues()
      ensures match r
              case Finished(_) => At(Idle)
              case Again(next) => At(ToRescue(next)) && next.path == login.path && next.round == login.round + 1 <= 2
      ensures quiet && login.forced.None? && HoldsLoginAt(w, old(files), login.path)
              && old(files)[login.path] == login.data ==>
        && targets == old(targets) && r.Finished?
        && (var d := old(OnDisk());
            Outcome(OnDisk(), r.ok)
            == match StorePlan(w, lookup, d, login.path, login.data)
               case None => Outcome(d, false)
               case Some(p) => StripOne(w, targets, Disk(d.files, d.profiles[p := Has(login.data)], p), login.path, p))
    {
      hide IsRun, Decide, HasRefreshToken, NewContent;
      var imported := ImportOnce(login);
      if !imported.InStore? {
        return Finished(imported.RetryLater?);
      }
      r := StoredRound(login, imported.profile);
    }

    /** The rest of a round, once the login is stored. */
    method StoredRound(login: Login, profile: string) returns (r: Round)
      requires At(ToReread(login, profile))
      modifies this
      ensures Continues()
      ensures match r
              case Finished(_) => At(Idle)
              case Again(next) => At(ToRescue(next)) && next.path == login.path && next.round == login.round + 1 <= 2
      ensures quiet && HoldsLoginAt(w, old(files), login.path) && old(files)[login.path] == login.data ==>
        && targets == old(targets) && r.Finished?
        && Outcome(OnDisk(), r.ok) == StripOne(w, old(targets), old(OnDisk()), login.path, profile)
    {
      hide Groundless, PairAt, PairOf, Decide, HasRefreshToken, NewContent, SameLogin, Enabled, Next;
      Others();
      var failed := Fails();
      if failed {
        Drop();
        return Finished(false);
      }
      var seen := LookAgain(login, profile, false);
      if seen.Ends? {
        return seen.round;
      }
      r := StripRound(login, profile);
    }

    /** Moves a login found in a target into the profile store and strips the target, in at most three rounds. */
    method ImportLogin(path: Path, data: bytes) returns (ok: bool)
      requires At(ToRescue(Login(path, data, 0, None)))
      modifies this
      ensures At(Idle) && Continues()
      ensures quiet && HoldsLoginAt(w, old(files), path) && old(files)[path] == data ==>
        targets == old(targets) && Outcome(OnDisk(), ok) == ImportOne(w, lookup, targets, old(OnDisk()), path)
    {
      hide Decide, ParseTarget, Groundless, IsRun, HasRefreshToken, NewContent;
      var linked := FindLinked(profiles);
      var settling := Fails();
      if linked || settling {
        Drop();
        return !linked;
      }
      var login := Login(path, data, 0, None);
      while true
        invariant At(ToRescue(login)) && Continues() && login.round <= 2
        invariant quiet && HoldsLoginAt(w, old(files), path) && old(files)[path] == data ==>
          login == Login(path, data, 0, None) && OnDisk() == old(OnDisk()) && targets == old(targets)
        decreases 2 - login.round
      {
        var round := ImportRound(login);
        if round.Finished? {
          return round.ok;
        }
        login := round.login;
      }
    }

    // ---- A pass ----

    method ReconcileTarget(t: Target) returns (ok: bool)
      requires At(Idle)
      modifies this
      ensures At(Idle) && Continues()
      ensures quiet
              ==> targets == old(targets) && Outcome(OnDisk(), ok) == ReconcileOne(w, lookup, targets, old(OnDisk()), t)
    {
      hide Groundless, Decide, ParseFull, ParseTarget, HasRefreshToken, NewContent, StripLogin, IsRun;
      var failed := Fails();
      if failed || t.path !in files {
        return !failed;
      }
      var data := files[t.path];
      Record(Look(t));
      if HasRefreshToken(w.j, w.tool, data) {
        ok := ImportLogin(t.path, data);
      } else {
        ok := Heal(t, data);
      }
    }

    /** One pass over the targets the registry lists at its start; an error at one does not stop the others. */
    method Pass() returns (ok: bool)
      requires At(Idle)
      modifies this
      ensures At(Idle) && Continues()
      ensures quiet ==> targets == old(targets) && Outcome(OnDisk(), ok) == QuietPass(w, lookup, targets, old(OnDisk()))
    {
      hide MayDrop, IsRun, Decide, HasRefreshToken, NewContent;
      ok := true;
      var list := targets;
      for i := 0 to |list|
        invariant At(Idle) && Continues()
        invariant quiet ==> targets == list
        invariant quiet ==>
          var rest := PassOver(w, lookup, list, OnDisk(), list[i..]);
          QuietPass(w, lookup, list, old(OnDisk())) == Outcome(rest.disk, ok && rest.ok)
      {
        Others();
        var cancelled := Fails();
        if cancelled {
          return false;
        }
        assert list[i..][0] == list[i] && list[i..][1..] == list[i + 1..];
        var fine := ReconcileTarget(list[i]);
        ok := ok && fine;
      }
    }

    /** Three ticks of the reconciler while all is quiet, with what each leaves on the disk. */
    method ThreeTicks() returns (ok: (bool, bool, bool), ghost one: Disk, ghost two: Disk)
      requires At(Idle) && quiet
      modifies this
      ensures At(Idle) && Continues() && targets == old(targets)
      ensures Outcome(one, ok.0) == QuietPass(w, lookup, targets, old(OnDisk()))
      ensures Outcome(two, ok.1) == QuietPass(w, lookup, targets, one)
      ensures Outcome(OnDisk(), ok.2) == QuietPass(w, lookup, targets, two)
    {
      hide IsRun, Decide, ParseFull, ParseTarget, HasRefreshToken, NewContent;
      var first := Pass();
      one := OnDisk();
      var second := Pass();
      two := OnDisk();
      var third := Pass();
      ok := (first, second, third);
    }

    /** From a disk that is good the third tick writes nothing, no tick reports an error when every target is
        recoverable, and each target comes to rest and is served. */
    method SettlingTicks() returns (ok: (bool, bool, bool), ghost before: Disk)
      requires At(Idle) && quiet && Agree(targets) && IsWellKept(lookup) && Good(w, OnDisk(), targets)
      modifies this
      ensures At(Idle) && Continues() && targets == old(targets)
      ensures OnDisk() == before && Converges(w, targets, old(OnDisk()), OnDisk(), ok.0, ok.1, ok.2)
    {
      hide IsRun, Decide, ParseFull, ParseTarget, HasRefreshToken, NewContent;
      ghost var start, list := OnDisk(), targets;
      ghost var one;
      ok, one, before := ThreeTicks();
      TicksConverge(w, lookup, list, start, one, ok.0, before, ok.1, OnDisk(), ok.2);
    }

    /** Whatever happens between two moments of the reconciler's life, a login that is in a file at the first, and that
        no command-line tool takes away, is there at the second too, or has been rescued and stored in a profile. */
    twostate lemma NoLoginLostSince(path: Path, pair: (string, string))
      requires old(Valid()) && Valid() && Continues() && old(HasPair(w, Now(), path, pair))
      requires AllCliLeave(w, run, steps, |old(steps)|, |steps|, path, pair)
      ensures HasPair(w, Now(), path, pair) || Saved(w, Now(), pair)
    {
      NoLoginLostAfter(w, old(run), old(steps), run, steps, path, pair);
    }
  }
}
