/** The choice of a profile in terms of the accounts and of what the profiles hold: not only when a profile may be
    replaced, but when it has to be, and when a new one is made. */
module ChoiceLaws {
  import opened Bytes
  import opened Library
  import opened Builders
  import opened Readers
  import opened ImportChoice
  import opened Ordering
  import CredentialLaws

  // ---- Accounts and tokens ----

  /** Two accounts are the same when they fold alike without the white space around them. */
  lemma AccountKeyIs(fold: string -> string, account: string, trimmed: string)
    requires CredentialLaws.IsTrimmed(account, trimmed)
    ensures AccountKey(fold, account) == fold(trimmed)
  {
    CredentialLaws.TrimIsUnique(account, trimmed);
  }

  /** A stored full credential and a target that say the same refresh token. */
  predicate IsSameGrant(tool: Tool, stored: Credential, found: Credential) {
    && stored.access != "" && found.access != "" && stored.refresh != "" && stored.refresh == found.refresh
    && (tool == Claude ==> stored.expires.Some?) && (tool == Codex ==> found.account != "")
  }

  lemma SameTokenIff(j: Json, tool: Tool, stored: bytes, found: bytes)
    ensures var a, b := CredentialLaws.Says(j, tool, stored), CredentialLaws.Says(j, tool, found);
            SameRefreshToken(j, tool, stored, found) <==> a.Some? && b.Some? && IsSameGrant(tool, a.value, b.value)
  {
    hide ParseFull, ParseTarget, CredentialLaws.Says;
    var a, b := CredentialLaws.Says(j, tool, stored), CredentialLaws.Says(j, tool, found);
    var full, view := ParseFull(j, tool, stored), ParseTarget(j, tool, found);
    if a.Some? {
      CredentialLaws.FullIff(j, tool, stored, a.value);
    }
    if full.Some? {
      CredentialLaws.FullIff(j, tool, stored, full.value);
    }
    if b.Some? {
      CredentialLaws.TargetIff(j, tool, found, b.value);
    }
    if !view.Unusable? {
      CredentialLaws.TargetIff(j, tool, found, view.cred);
    }
  }

  // ---- The choice by account ----

  /** The profile is known to hold the login's account. */
  predicate HoldsAccount(fold: string -> string, env: Env, name: string) {
    && name in env.accounts && AccountKey(fold, env.live) != ""
    && AccountKey(fold, env.accounts[name]) == AccountKey(fold, env.live)
  }

  /** It is the only profile, apart from the active one, that does. */
  predicate IsOnlyOther(fold: string -> string, env: Env, name: string) {
    && name != env.active && HoldsAccount(fold, env, name)
    && forall m | m in env.accounts && m != env.active && HoldsAccount(fold, env, m) :: m == name
  }

  predicate IsActiveEmpty(env: Env) {
    env.active != "" && env.activeEmpty
  }

  predicate IsActivesAccount(fold: string -> string, env: Env) {
    env.active != "" && HoldsAccount(fold, env, env.active)
  }

  /** What becomes of a login: it goes to the active profile when that is empty or has its account, else to the only
      other profile that has it, else to a new one. */
  ghost predicate IsByAccount(fold: string -> string, env: Env, d: Decision) {
    if IsActiveEmpty(env) then d == Decision(env.active, false, ActiveEmpty)
    else if IsActivesAccount(fold, env) then d == Decision(env.active, false, SameAccount)
    else if exists n :: IsOnlyOther(fold, env, n) then
      IsOnlyOther(fold, env, d.profile) && !d.create && d.reason == EmailMatch
    else d == Decision(env.newName, true, NewLogin)
  }

  lemma OneMatch(fold: string -> string, env: Env, name: string)
    requires AccountKey(fold, env.live) != ""
    ensures IsOnlyOther(fold, env, name) <==> Matches(fold, env) == {name}
  {
    if IsOnlyOther(fold, env, name) {
      assert forall m :: m in Matches(fold, env) <==> m == name;
    } else if Matches(fold, env) == {name} {
      assert name in Matches(fold, env);
      forall m | m in env.accounts && m != env.active && HoldsAccount(fold, env, m) ensures m == name {
        assert m in Matches(fold, env);
      }
    }
  }

  /** The choice is the one decision that the accounts allow. */
  lemma ChoiceIsByAccount(fold: string -> string, tool: Tool, env: Env, d: Decision)
    requires tool != OtherTool && fold("") == ""
    ensures Choose(fold, tool, env) == Go(d) <==> IsByAccount(fold, env, d)
  {
    assert Trim("") == "";
    var ms := Matches(fold, env);
    if AccountKey(fold, env.live) != "" {
      forall n ensures IsOnlyOther(fold, env, n) <==> ms == {n} {
        OneMatch(fold, env, n);
      }
      if |ms| == 1 {
        var n :| n in ms;
        OneElement(ms, n);
        assert IsOnlyOther(fold, env, n);
      }
    }
  }

  /** A profile is made exactly when the active one is not empty, or none is named, and the login's account is unknown,
      or is neither the active profile's nor that of exactly one other. */
  lemma CreatesIff(fold: string -> string, tool: Tool, env: Env)
    requires tool != OtherTool && fold("") == ""
    ensures Choose(fold, tool, env).Go?
    ensures Choose(fold, tool, env).decision.create
       <==> !IsActiveEmpty(env)
            && (AccountKey(fold, env.live) == ""
                || (!IsActivesAccount(fold, env) && !exists n :: IsOnlyOther(fold, env, n)))
  {
    ChoiceIsByAccount(fold, tool, env, Choose(fold, tool, env).decision);
  }

  // ---- The choice by store ----

  predicate IsFirstStop(store: Store, data: bytes, n: string) {
    IsStop(store, data, n) && forall m | m in store.profiles && IsStop(store, data, m) :: m == n || Less(n, m)
  }

  predicate HoldsToken(j: Json, tool: Tool, store: Store, data: bytes, n: string) {
    n in store.profiles && store.profiles[n].Has? && SameRefreshToken(j, tool, store.profiles[n].data, data)
  }

  /** Of the profiles with the login's refresh token the active one, if it is among them, else the first by name. */
  predicate IsTokenPick(j: Json, tool: Tool, store: Store, data: bytes, n: string) {
    && HoldsToken(j, tool, store, data, n)
    && (HoldsToken(j, tool, store, data, store.active) ==> n == store.active)
    && (!HoldsToken(j, tool, store, data, store.active) ==>
          forall m | m in store.profiles && HoldsToken(j, tool, store, data, m) :: m == n || Less(n, m))
  }

  /** The active profile is missing, empty, or holds no full credential. */
  predicate IsActiveUnusable(j: Json, tool: Tool, store: Store) {
    && store.active != ""
    && (store.active in store.profiles ==>
          match store.profiles[store.active]
          case Empty => true
          case Has(stored) => ParseFull(j, tool, stored).None?
          case _ => false)
  }

  predicate IsActiveUnreadable(store: Store) {
    store.active != "" && store.active in store.profiles && store.profiles[store.active] == Unreadable
  }

  function EnvOf(j: Json, tool: Tool, store: Store, accounts: Accounts): Env {
    Env(store.active, IsActiveUnusable(j, tool, store), accounts.live, accounts.profiles, accounts.newName)
  }

  /** What the choice comes to, in the order of its reasons. */
  ghost predicate IsChoice(j: Json, fold: string -> string, tool: Tool, store: Store, data: bytes, accounts: Accounts,
                           c: Chosen) {
    if exists n :: IsStop(store, data, n) then IsStopped(store, data, c)
    else if exists n :: HoldsToken(j, tool, store, data, n) then
      c.Go? && !c.decision.create && c.decision.reason == SameToken
      && IsTokenPick(j, tool, store, data, c.decision.profile)
    else if IsActiveUnreadable(store) then c == Refuse(ReadError)
    else IsAccountChoice(fold, EnvOf(j, tool, store, accounts), c)
  }

  ghost predicate IsStopped(store: Store, data: bytes, c: Chosen) {
    exists n :: IsFirstStop(store, data, n)
                && c == if store.profiles[n] == Linked then Refuse(NotMigrated)
                        else Go(Decision(n, false, AlreadyImported))
  }

  /** The choice by account; a profile has to have a name. */
  ghost predicate IsAccountChoice(fold: string -> string, env: Env, c: Chosen) {
    match c
    case Go(d) => IsByAccount(fold, env, d) && d.profile != ""
    case Refuse(e) => e == NoProfileName && exists d :: IsByAccount(fold, env, d) && d.profile == ""
  }

  /** What a search of the whole store says. */
  ghost predicate IsStoreSearch(j: Json, tool: Tool, store: Store, data: bytes, r: Search) {
    match r
    case LinkedFound => exists n :: IsFirstStop(store, data, n) && store.profiles[n] == Linked
    case SameBytes(n) => IsFirstStop(store, data, n) && store.profiles[n] == Has(data)
    case Tokens(found) => AreHolders(j, tool, store, data, found)
  }

  ghost predicate AreHolders(j: Json, tool: Tool, store: Store, data: bytes, found: seq<string>) {
    && (forall n :: !IsStop(store, data, n)) && (forall n :: n in found <==> HoldsToken(j, tool, store, data, n))
    && (found != [] ==> IsTokenPick(j, tool, store, data, PickToken(found, store.active)))
  }

  lemma SearchTells(j: Json, tool: Tool, store: Store, data: bytes)
    ensures IsStoreSearch(j, tool, store, data,
                          SearchStore(SharesToken(j, tool, data), store, Ordered(store.profiles.Keys), data))
  {
    hide ParseFull, ParseTarget, SameRefreshToken, Less;
    var same, names := SharesToken(j, tool, data), Ordered(store.profiles.Keys);
    SearchInOrder(same, store, names, data);
    match SearchStore(same, store, names, data)
    case LinkedFound =>
      var n :| IsFirstIn(store, names, data, n) && store.profiles[n] == Linked;
      assert IsFirstStop(store, data, n);
    case SameBytes(n) => assert IsFirstStop(store, data, n);
    case Tokens(found) => CollectedAreHolders(j, tool, store, data, found);
  }

  lemma CollectedAreHolders(j: Json, tool: Tool, store: Store, data: bytes, found: seq<string>)
    requires IsCollected(SharesToken(j, tool, data), store, Ordered(store.profiles.Keys), data, found)
    ensures AreHolders(j, tool, store, data, found)
  {
    hide ParseFull, ParseTarget, SameRefreshToken, Less, IsIncreasing;
    forall n ensures n in found <==> HoldsToken(j, tool, store, data, n) {
      assert n in Ordered(store.profiles.Keys) <==> n in store.profiles;
    }
    FirstIsLeast(found);
  }

  lemma FirstIsLeast(found: seq<string>)
    requires IsIncreasing(found)
    ensures found != [] ==> found[0] in found && forall m | m in found :: m == found[0] || Less(found[0], m)
  {
  }

  lemma AccountChooses(fold: string -> string, tool: Tool, env: Env)
    requires tool != OtherTool && fold("") == ""
    ensures Choose(fold, tool, env).Go?
    ensures var c := Choose(fold, tool, env);
            IsAccountChoice(fold, env, if c.decision.profile == "" then Refuse(NoProfileName) else c)
  {
    hide Choose;
    CreatesIff(fold, tool, env);
    ChoiceIsByAccount(fold, tool, env, Choose(fold, tool, env).decision);
  }

  lemma ActiveTells(j: Json, tool: Tool, store: Store, data: bytes)
    requires !IsStop(store, data, store.active)
    ensures ActiveIsEmpty(j, tool, store)
         == if IsActiveUnreadable(store) then None else Some(IsActiveUnusable(j, tool, store))
  {
  }

  lemma DecideChooses(j: Json, fold: string -> string, tool: Tool, store: Store, data: bytes, accounts: Accounts)
    requires tool != OtherTool && fold("") == ""
    ensures IsChoice(j, fold, tool, store, data, accounts, Decide(j, fold, tool, store, data, accounts))
  {
    hide Choose, IsAccountChoice, SearchStore, SameRefreshToken, SharesToken, IsActiveUnusable, ParseFull;
    SearchTells(j, tool, store, data);
    AccountChooses(fold, tool, EnvOf(j, tool, store, accounts));
    if !IsStop(store, data, store.active) {
      ActiveTells(j, tool, store, data);
    }
  }

  lemma ChoiceIsUnique(j: Json, fold: string -> string, tool: Tool, store: Store, data: bytes, accounts: Accounts,
                       a: Chosen, b: Chosen)
    requires tool != OtherTool && fold("") == ""
    requires IsChoice(j, fold, tool, store, data, accounts, a) && IsChoice(j, fold, tool, store, data, accounts, b)
    ensures a == b
  {
    hide ParseFull, ParseTarget, SameRefreshToken, Choose, Less;
    forall x, y | Less(x, y) ensures !Less(y, x) {
      LessIsStrict(x, y);
    }
    forall d ensures Choose(fold, tool, EnvOf(j, tool, store, accounts)) == Go(d)
                <==> IsByAccount(fold, EnvOf(j, tool, store, accounts), d) {
      ChoiceIsByAccount(fold, tool, EnvOf(j, tool, store, accounts), d);
    }
  }

  /** The choice is the one that accounts and store determine. */
  lemma DecisionIsExact(j: Json, fold: string -> string, tool: Tool, store: Store, data: bytes, accounts: Accounts,
                        c: Chosen)
    requires tool != OtherTool && fold("") == ""
    ensures Decide(j, fold, tool, store, data, accounts) == c
       <==> IsChoice(j, fold, tool, store, data, accounts, c)
  {
    DecideChooses(j, fold, tool, store, data, accounts);
    if IsChoice(j, fold, tool, store, data, accounts, c) {
      ChoiceIsUnique(j, fold, tool, store, data, accounts, c, Decide(j, fold, tool, store, data, accounts));
    }
  }
}
