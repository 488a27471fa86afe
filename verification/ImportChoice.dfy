/** Where a login found in a target may go. */
module ImportChoice {
  import opened Bytes
  import opened Library
  import opened Ordering
  import opened Builders
  import opened Readers

  /** What the profile store holds for a profile. */
  datatype Stored = Empty | Linked | Unreadable | Has(data: bytes)

  datatype Reason = ActiveEmpty | SameAccount | EmailMatch | NewLogin | AlreadyImported | SameToken | Rotated

  datatype Decision = Decision(profile: string, create: bool, reason: Reason)

  datatype ImportError = UnknownToolError | NotMigrated | ReadError | NoProfileName

  datatype Chosen = Go(decision: Decision) | Refuse(error: ImportError)

  /** An account identity prepared for comparison; `fold` is the lower-casing of strings. */
  function AccountKey(fold: string -> string, account: string): string {
    fold(Trim(account))
  }

  /** What the choice looks at, apart from the target's bytes. */
  datatype Env = Env(active: string, activeEmpty: bool, live: string, accounts: map<string, string>, newName: string)

  /** The other profiles that hold the login's account. */
  function Matches(fold: string -> string, env: Env): set<string> {
    set n | n in env.accounts && n != env.active && AccountKey(fold, env.accounts[n]) == AccountKey(fold, env.live)
  }

  function AccountOf(env: Env, name: string): string {
    if name in env.accounts then env.accounts[name] else ""
  }

  ghost function Choose(fold: string -> string, tool: Tool, env: Env): Chosen {
    var live := AccountKey(fold, env.live);
    if tool == OtherTool then Refuse(UnknownToolError)
    else if env.active != "" && env.activeEmpty then Go(Decision(env.active, false, ActiveEmpty))
    else if live != "" && env.active != "" && AccountKey(fold, AccountOf(env, env.active)) == live then
      Go(Decision(env.active, false, SameAccount))
    else if live != "" && |Matches(fold, env)| == 1 then
      var n :| n in Matches(fold, env);
      Go(Decision(n, false, EmailMatch))
    else Go(Decision(env.newName, true, NewLogin))
  }

  /** The choice as the program makes it, walking the account map in any order. */
  method ChooseImport(fold: string -> string, tool: Tool, env: Env) returns (r: Chosen)
    ensures r == Choose(fold, tool, env)
  {
    if tool != Claude && tool != Codex {
      return Refuse(UnknownToolError);
    }
    if env.active != "" && env.activeEmpty {
      return Go(Decision(env.active, false, ActiveEmpty));
    }
    var live := AccountKey(fold, env.live);
    if live != "" {
      if env.active != "" && AccountKey(fold, AccountOf(env, env.active)) == live {
        return Go(Decision(env.active, false, SameAccount));
      }
      var matches: seq<string> := [];
      var left := env.accounts.Keys;
      while left != {}
        invariant left <= env.accounts.Keys
        invariant forall n :: n in matches <==> n in Matches(fold, env) && n !in left
        invariant forall i, k | 0 <= i < k < |matches| :: matches[i] != matches[k]
        decreases |left|
      {
        var name :| name in left;
        left := left - {name};
        if name != env.active && AccountKey(fold, env.accounts[name]) == live {
          matches := matches + [name];
        }
      }
      assert (set n | n in matches) == Matches(fold, env);
      DistinctCount(matches);
      if |matches| == 1 {
        OneElement(Matches(fold, env), matches[0]);
        return Go(Decision(matches[0], false, EmailMatch));
      }
    }
    return Go(Decision(env.newName, true, NewLogin));
  }

  lemma {:induction false} DistinctCount(s: seq<string>)
    requires forall i, k | 0 <= i < k < |s| :: s[i] != s[k]
    ensures |set n | n in s| == |s|
  {
    if s != [] {
      DistinctCount(s[1..]);
      assert (set n | n in s) == (set n | n in s[1..]) + {s[0]};
    }
  }

  lemma OneElement(s: set<string>, x: string)
    requires |s| == 1 && x in s
    ensures s == {x}
  {
    assert |s - {x}| == 0;
  }

  /** The choice names an existing profile only when it is the active one and empty, or holds the login's own,
      known account; two profiles with that account are left alone. */
  lemma ChooseIsSafe(fold: string -> string, tool: Tool, env: Env)
    requires Choose(fold, tool, env).Go? && !Choose(fold, tool, env).decision.create
    ensures var p := Choose(fold, tool, env).decision.profile;
            || (p == env.active != "" && env.activeEmpty)
            || (AccountKey(fold, env.live) != "" && AccountKey(fold, AccountOf(env, p)) == AccountKey(fold, env.live)
                && (p == env.active || Matches(fold, env) == {p}))
  {
    if |Matches(fold, env)| == 1 {
      var n :| n in Matches(fold, env);
      OneElement(Matches(fold, env), n);
    }
  }

  // ---- The whole first choice ----

  predicate SameRefreshToken(j: Json, tool: Tool, stored: bytes, found: bytes) {
    var a, b := ParseFull(j, tool, stored), ParseTarget(j, tool, found);
    a.Some? && !b.Unusable? && a.value.refresh != "" && a.value.refresh == b.cred.refresh
  }

  /** The profile store at the moment of the choice. */
  datatype Store = Store(profiles: map<string, Stored>, active: string)

  /** The first profile, in the order listed, that is linked or holds the login's bytes stops the search; else the
      profiles with the login's refresh token are collected. */
  datatype Search = LinkedFound | SameBytes(name: string) | Tokens(names: seq<string>)

  function SearchStore(same: bytes -> bool, store: Store, names: seq<string>, data: bytes): Search
    requires forall n | n in names :: n in store.profiles
  {
    if names == [] then Tokens([]) else
      match store.profiles[names[0]]
      case Linked => LinkedFound
      case Has(stored) =>
        if stored == data then SameBytes(names[0])
        else
          (match SearchStore(same, store, names[1..], data)
           case Tokens(more) => Tokens((if same(stored) then [names[0]] else []) + more)
           case other => other)
      case _ => SearchStore(same, store, names[1..], data)
  }

  function PickToken(names: seq<string>, active: string): string
    requires names != []
  {
    if active in names then active else names[0]
  }

  /** Whether the active profile holds no usable credential; None when that cannot be told. */
  function ActiveIsEmpty(j: Json, tool: Tool, store: Store): Option<bool> {
    if store.active == "" then Some(false)
    else if store.active !in store.profiles then Some(true)
    else
      match store.profiles[store.active]
      case Empty => Some(true)
      case Has(stored) => Some(ParseFull(j, tool, stored).None?)
      case _ => None
  }

  /** What the choice learns from outside the store: the account of the login, the accounts of the profiles, and a
      name for a new profile. */
  datatype Accounts = Accounts(live: string, profiles: map<string, string>, newName: string)

  /** The store has not been migrated: a profile is still a link to a live file. */
  predicate AnyLinked(profiles: map<string, Stored>) {
    exists n | n in profiles :: profiles[n] == Linked
  }

  method FindLinked(profiles: map<string, Stored>) returns (linked: bool)
    ensures linked <==> AnyLinked(profiles)
  {
    var names := OrderedKeys(profiles);
    for i := 0 to |names|
      invariant forall k | 0 <= k < i :: profiles[names[k]] != Linked
    {
      if profiles[names[i]] == Linked {
        return true;
      }
    }
    assert forall n | n in profiles :: n in names;
    linked := false;
  }

  /** What a stored credential is searched for. */
  function SharesToken(j: Json, tool: Tool, data: bytes): bytes -> bool {
    stored => SameRefreshToken(j, tool, stored, data)
  }

  ghost function Decide(j: Json, fold: string -> string, tool: Tool, store: Store, data: bytes,
                        accounts: Accounts): Chosen {
    match SearchStore(SharesToken(j, tool, data), store, Ordered(store.profiles.Keys), data)
    case LinkedFound => Refuse(NotMigrated)
    case SameBytes(name) => Go(Decision(name, false, AlreadyImported))
    case Tokens(names) =>
      if names != [] then Go(Decision(PickToken(names, store.active), false, SameToken))
      else
        match ActiveIsEmpty(j, tool, store)
        case None => Refuse(if store.profiles[store.active] == Linked then NotMigrated else ReadError)
        case Some(empty) =>
          var chosen := Choose(fold, tool,
                               Env(store.active, empty, accounts.live, accounts.profiles, accounts.newName));
          if chosen.Go? && chosen.decision.profile == "" then Refuse(NoProfileName) else chosen
  }

  /** The search so far, with what is still to come. */
  function Continued(found: seq<string>, rest: Search): Search {
    match rest
    case Tokens(more) => Tokens(found + more)
    case other => other
  }

  /** With `found` so far, the rest of a search comes to `all`. */
  predicate Searching(same: bytes -> bool, store: Store, todo: seq<string>, data: bytes, found: seq<string>,
                      all: Search)
    requires forall n | n in todo :: n in store.profiles
  {
    Continued(found, SearchStore(same, store, todo, data)) == all
  }

  /** What one more profile adds to a search. */
  lemma SearchOne(same: bytes -> bool, store: Store, names: seq<string>, i: nat, data: bytes, found: seq<string>,
                  all: Search)
    requires i < |names| && forall n | n in names :: n in store.profiles
    requires Searching(same, store, names[i..], data, found, all)
    ensures store.profiles[names[i]] == Linked ==> all == LinkedFound
    ensures store.profiles[names[i]] == Has(data) ==> all == SameBytes(names[i])
    ensures store.profiles[names[i]] !in {Linked, Has(data)} ==>
              Searching(same, store, names[i + 1..], data, Shared(same, store.profiles[names[i]], names[i], found), all)
  {
    assert names[i..][0] == names[i] && names[i..][1..] == names[i + 1..];
    var rest := SearchStore(same, store, names[i + 1..], data);
    if rest.Tokens? {
      assert found + ([names[i]] + rest.names) == (found + [names[i]]) + rest.names;
      assert found + ([] + rest.names) == found + rest.names;
    }
  }

  function Shared(same: bytes -> bool, stored: Stored, name: string, found: seq<string>): seq<string> {
    if stored.Has? && same(stored.data) then found + [name] else found
  }

  lemma SearchStarts(same: bytes -> bool, store: Store, names: seq<string>, data: bytes)
    requires forall n | n in names :: n in store.profiles
    ensures Searching(same, store, names[0..], data, [], SearchStore(same, store, names, data))
  {
    assert names[0..] == names;
  }

  lemma SearchEnds(same: bytes -> bool, store: Store, data: bytes, found: seq<string>, all: Search)
    requires Searching(same, store, [], data, found, all)
    ensures all == Tokens(found)
  {
  }

  method SearchProfiles(same: bytes -> bool, store: Store, names: seq<string>, data: bytes) returns (r: Search)
    requires forall n | n in names :: n in store.profiles
    ensures r == SearchStore(same, store, names, data)
  {
    ghost var all := SearchStore(same, store, names, data);
    var sameToken: seq<string> := [];
    SearchStarts(same, store, names, data);
    for i := 0 to |names|
      invariant Searching(same, store, names[i..], data, sameToken, all)
    {
      SearchOne(same, store, names, i, data, sameToken, all);
      var stored := store.profiles[names[i]];
      if stored == Linked {
        return LinkedFound;
      }
      if stored == Has(data) {
        return SameBytes(names[i]);
      }
      if stored.Has? && same(stored.data) {
        sameToken := sameToken + [names[i]];
      }
    }
    assert names[|names|..] == [];
    SearchEnds(same, store, data, sameToken, all);
    r := Tokens(sameToken);
  }

  /** Among duplicated grants the active profile wins, else the first by name. */
  method PickSameToken(names: seq<string>, active: string) returns (pick: string)
    requires names != []
    ensures pick == PickToken(names, active)
  {
    pick := names[0];
    for i := 0 to |names|
      invariant pick == if active in names[..i] then active else names[0]
    {
      if names[i] == active {
        pick := names[i];
      }
    }
    assert names[..|names|] == names;
  }

  /** The choice as the program makes it, over the profiles in the order the store lists them. */
  method DecideImport(j: Json, fold: string -> string, tool: Tool, store: Store, names: seq<string>, data: bytes,
                      accounts: Accounts)
    returns (r: Chosen)
    requires names == Ordered(store.profiles.Keys)
    ensures r == Decide(j, fold, tool, store, data, accounts)
  {
    var search := SearchProfiles(SharesToken(j, tool, data), store, names, data);
    if search.LinkedFound? {
      return Refuse(NotMigrated);
    }
    if search.SameBytes? {
      return Go(Decision(search.name, false, AlreadyImported));
    }
    if |search.names| > 0 {
      var pick := PickSameToken(search.names, store.active);
      return Go(Decision(pick, false, SameToken));
    }
    var empty := ActiveIsEmpty(j, tool, store);
    if empty.None? {
      return Refuse(if store.profiles[store.active] == Linked then NotMigrated else ReadError);
    }
    r := ChooseImport(fold, tool, Env(store.active, empty.value, accounts.live, accounts.profiles, accounts.newName));
    if r.Go? && r.decision.profile == "" {
      r := Refuse(NoProfileName);
    }
  }

  /** The profile ends the search: it is still a link to a live file, or holds the login's bytes. */
  predicate IsStop(store: Store, data: bytes, n: string) {
    n in store.profiles && (store.profiles[n] == Linked || store.profiles[n] == Has(data))
  }

  predicate IsFirstIn(store: Store, names: seq<string>, data: bytes, n: string) {
    && n in names && IsStop(store, data, n)
    && forall m | m in names && IsStop(store, data, m) :: m == n || Less(n, m)
  }

  /** A search ends at the first stop, or collects the holders of the token in order. */
  ghost predicate IsSearch(same: bytes -> bool, store: Store, names: seq<string>, data: bytes, r: Search)
    requires forall n | n in names :: n in store.profiles
  {
    match r
    case LinkedFound => exists n :: IsFirstIn(store, names, data, n) && store.profiles[n] == Linked
    case SameBytes(n) => IsFirstIn(store, names, data, n) && store.profiles[n] == Has(data)
    case Tokens(found) => IsCollected(same, store, names, data, found)
  }

  ghost predicate IsCollected(same: bytes -> bool, store: Store, names: seq<string>, data: bytes, found: seq<string>)
    requires forall n | n in names :: n in store.profiles
  {
    && (forall n | n in names :: !IsStop(store, data, n)) && IsIncreasing(found)
    && (forall n :: n in found <==> n in names && store.profiles[n].Has? && same(store.profiles[n].data))
  }

  lemma {:induction false} SearchInOrder(same: bytes -> bool, store: Store, names: seq<string>, data: bytes)
    requires IsIncreasing(names) && forall n | n in names :: n in store.profiles
    ensures IsSearch(same, store, names, data, SearchStore(same, store, names, data))
  {
    if names != [] {
      var rest := names[1..];
      SearchInOrder(same, store, rest, data);
      if IsStop(store, data, names[0]) {
        assert IsFirstIn(store, names, data, names[0]);
      } else {
        forall n ensures IsFirstIn(store, rest, data, n) ==> IsFirstIn(store, names, data, n) {
          assert forall m :: m in names <==> m == names[0] || m in rest;
        }
        if SearchStore(same, store, rest, data).Tokens? {
          FirstIsLess(names, SearchStore(same, store, rest, data).names);
        }
      }
    }
  }

  lemma FirstIsLess(names: seq<string>, found: seq<string>)
    requires names != [] && IsIncreasing(names) && IsIncreasing(found) && forall n | n in found :: n in names[1..]
    ensures IsIncreasing([names[0]] + found) && [] + found == found
  {
    forall k | 0 <= k < |found| ensures Less(names[0], found[k]) {
      assert found[k] in names[1..];
      var i :| 1 <= i < |names| && names[i] == found[k];
    }
  }

  /** Why an existing profile may be replaced by a login. */
  predicate MayReplace(j: Json, fold: string -> string, tool: Tool, store: Store, data: bytes, accounts: Accounts,
                       p: string) {
    || (p == store.active && ActiveIsEmpty(j, tool, store) == Some(true))
    || (p in store.profiles && store.profiles[p] == Has(data))
    || (p in store.profiles && store.profiles[p].Has? && SameRefreshToken(j, tool, store.profiles[p].data, data))
    || (AccountKey(fold, accounts.live) != ""
        && p in accounts.profiles && AccountKey(fold, accounts.profiles[p]) == AccountKey(fold, accounts.live))
  }

  /** The first choice replaces an existing profile only when it is the active one and unusable, holds the same
      bytes or the same refresh token, or has the same known account. */
  lemma DecideIsSafe(j: Json, fold: string -> string, tool: Tool, store: Store, data: bytes, accounts: Accounts)
    requires fold("") == ""
    requires Decide(j, fold, tool, store, data, accounts).Go?
    ensures var d := Decide(j, fold, tool, store, data, accounts).decision;
            !d.create ==> MayReplace(j, fold, tool, store, data, accounts, d.profile)
  {
    SearchInOrder(SharesToken(j, tool, data), store, Ordered(store.profiles.Keys), data);
    var search := SearchStore(SharesToken(j, tool, data), store, Ordered(store.profiles.Keys), data);
    if search.Tokens? && search.names == [] && ActiveIsEmpty(j, tool, store).Some? {
      var env := Env(store.active, ActiveIsEmpty(j, tool, store).value, accounts.live, accounts.profiles,
                     accounts.newName);
      if Choose(fold, tool, env).Go? && !Choose(fold, tool, env).decision.create {
        ChooseIsSafe(fold, tool, env);
      }
    }
  }
}
