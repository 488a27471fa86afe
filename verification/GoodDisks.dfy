/** A disk and a source of accounts on which the laws of quiet passes apply. */
module GoodDisks {
  import opened Bytes
  import opened Builders
  import opened Readers
  import opened ImportChoice
  import opened Targets
  import opened Passes
  import opened Convergence
  import opened Examples

  ghost function Total(names: set<string>): nat {
    if names == {} then 0 else var n :| n in names; |n| + Total(names - {n})
  }

  lemma {:induction false} NoneIsLonger(names: set<string>, name: string)
    requires name in names
    ensures |name| <= Total(names)
    decreases |names|
  {
    var n: string :| n in names && Total(names) == |n| + Total(names - {n});
    var rest: nat := Total(names - {n});
    if n != name {
      NoneIsLonger(names - {n}, name);
      assert |name| <= rest;
    } else {
      assert Total(names) == |name| + rest;
    }
  }

  /** A name longer than all others. */
  ghost function FreshName(names: set<string>): (n: string)
    ensures n != "" && |n| > Total(names)
  {
    seq(Total(names) + 1, _ => 'x')
  }

  ghost function Unknown(profiles: map<string, Stored>): Accounts {
    Accounts("", map[], FreshName(profiles.Keys))
  }

  lemma UnknownIsWellKept(profiles: map<string, Stored>)
    ensures WellKept(Unknown(profiles), profiles)
  {
    var n := FreshName(profiles.Keys);
    if n in profiles {
      NoneIsLonger(profiles.Keys, n);
    }
    assert n + SUFFIXES[0] == n;
  }

  /** A source of accounts that knows none and proposes a name that is free. */
  lemma WellKeptExists() returns (lookup: AccountLookup)
    ensures IsWellKept(lookup)
  {
    lookup := (path, data, profiles) => Unknown(profiles);
    forall path: Path, data: bytes, profiles ensures WellKept(lookup(path, data, profiles), profiles) {
      UnknownIsWellKept(profiles);
    }
  }

  lemma ExampleIsUsable(w: Setup)
    requires w.tool == Codex || (w.tool == Claude && w.j.millis(ONE).Some?)
    ensures IsUsable(w, ExampleOf(w.j, w.tool)) && HasRefreshToken(w.j, w.tool, ExampleOf(w.j, w.tool))
  {
    if w.tool == Claude {
      LoginIsFull(w.j);
    } else {
      ExampleIsFull(w.j);
    }
  }

  /** The example as the active profile's credential and as a login in a live file: the disk is good, the login usable,
      and the target recoverable and following a usable profile. */
  lemma ExampleDiskIsGood(w: Setup, path: Path) returns (d: Disk)
    requires w.tool == Codex || (w.tool == Claude && w.j.millis(ONE).Some?)
    ensures Agree([Live(path)]) && Good(w, d, [Live(path)]) && LoginsAreUsable(w, d, [Live(path)])
    ensures Recoverable(w, d, Live(path)) && HoldsLoginAt(w, d.files, path)
            && Usable(w, d, Followed(d.active, Live(path)))
  {
    var full := ExampleOf(w.j, w.tool);
    ExampleIsUsable(w);
    d := OneProfile(path, full);
    FullDiskIsGood(w, path, full, d);
  }

  lemma OneProfile(path: Path, full: bytes) returns (d: Disk)
    ensures d.files == map[path := full] && d.profiles == map["p" := Has(full)] && d.active == "p"
  {
    d := Disk(map[path := full], map["p" := Has(full)], "p");
  }

  lemma FullDiskIsGood(w: Setup, path: Path, full: bytes, d: Disk)
    requires IsUsable(w, full) && HasRefreshToken(w.j, w.tool, full)
    requires d.files == map[path := full] && d.profiles == map["p" := Has(full)] && d.active == "p"
    ensures Agree([Live(path)]) && Good(w, d, [Live(path)]) && LoginsAreUsable(w, d, [Live(path)])
    ensures Recoverable(w, d, Live(path)) && HoldsLoginAt(w, d.files, path)
            && Usable(w, d, Followed(d.active, Live(path)))
  {
    hide ParseFull, RefreshTokenOnDisk, HasRefreshToken, OpenDocument, CredentialSection, ClaudeFields, CodexFields;
    UsableIsGood(w, d, [Live(path)]);
  }
}
