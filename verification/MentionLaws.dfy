/** Whom any list of mentions addresses: groups, full ids, names, known names of absent members, and roles, in terms of
    the tokens and the members alone. */
module MentionLaws {
  import opened Mentions

  // ---- What a token stands for ----

  predicate IsGroup(t: string) {
    t in {"channel", "here", "humans", "ais", "everyone", "all"}
  }

  /** The members a group is meant for: all, those of a kind, or those that wait or were seen within five minutes. */
  predicate IsMeant(ctx: Context, t: string, a: Agent) {
    || t in {"channel", "everyone", "all"}
    || (t == "humans" && a.kind == "human") || (t == "ais" && a.kind == "ai")
    || (t == "here" && (a.waiting || (a.lastSeen != 0 && ctx.now - a.lastSeen < 300_000_000_000)))
  }

  predicate IsNamed(agents: seq<Agent>, name: string) {
    exists a | a in agents :: EqualFold(a.name, name)
  }

  predicate HasTwo(agents: seq<Agent>, name: string) {
    exists i, k | 0 <= i < k < |agents| :: EqualFold(agents[i].name, name) && EqualFold(agents[k].name, name)
  }

  /** A token names `n`: the members a group is meant for, without the sender, by name or, when others share it, by id;
      a member by its full id; the one member of a name, but none of several; a known name of nobody here, or any when
      none is known; and else the holders of a role, without the sender. */
  predicate Names(ctx: Context, t: string, n: string) {
    if IsGroup(t) then GroupNames(ctx, t, n)
    else if '@' in t then n == Lower(t) && exists a | a in ctx.agents :: EqualFold(a.id, t)
    else if IsNamed(ctx.agents, t) then n == Lower(t) && !HasTwo(ctx.agents, t)
    else if ctx.known == {} || t in ctx.known then n == Lower(t)
    else t in ctx.roles && RoleNames(ctx, ctx.roles[t], n)
  }

  predicate GroupNames(ctx: Context, t: string, n: string) {
    exists a | a in ctx.agents ::
      !EqualFold(a.id, ctx.sender) && IsMeant(ctx, t, a)
      && n == Lower(if HasTwo(ctx.agents, a.name) then a.id else a.name)
  }

  predicate RoleNames(ctx: Context, holders: seq<string>, n: string) {
    exists h | h in holders :: !EqualFold(h, ShortName(ctx.sender)) && n == Lower(h)
  }

  /** An id is short for its part before the first '@', when that is not empty. */
  lemma ShortNameIs(name: string, rest: string)
    requires '@' !in name
    ensures ShortName(name) == name
    ensures ShortName(name + ("@" + rest)) == if name == "" then "@" + rest else name
  {
    var id := name + ("@" + rest);
    assert id[|name|] == '@' && forall k | 0 <= k < |name| :: id[k] == name[k];
    assert IndexAt(id) == |name| && id[..|name|] == name;
    assert name == "" ==> id == "@" + rest;
  }

  // ---- The searches ----

  lemma {:induction false} FirstWithIdIs(agents: seq<Agent>, token: string)
    ensures var found := FirstWithId(agents, token);
            if found == [] then forall a | a in agents :: !EqualFold(a.id, token)
            else found[0] in agents && EqualFold(found[0].id, token)
  {
    if agents != [] {
      FirstWithIdIs(agents[1..], token);
      assert forall a :: a in agents <==> a == agents[0] || a in agents[1..];
    }
  }

  lemma {:induction false} BySlugIs(agents: seq<Agent>, slug: string)
    ensures var found := BySlug(agents, slug);
            && (found == [] <==> !IsNamed(agents, slug)) && (|found| > 1 <==> HasTwo(agents, slug))
            && forall a | a in found :: a in agents && EqualFold(a.name, slug)
  {
    if agents != [] {
      var rest := agents[1..];
      BySlugIs(rest, slug);
      assert forall a :: a in agents <==> a == agents[0] || a in rest;
      TwoOfMore(agents, slug);
    }
  }

  lemma TwoOfMore(agents: seq<Agent>, slug: string)
    requires agents != []
    ensures HasTwo(agents, slug)
       <==> HasTwo(agents[1..], slug) || (EqualFold(agents[0].name, slug) && IsNamed(agents[1..], slug))
  {
    var rest := agents[1..];
    if HasTwo(rest, slug) {
      var i, k :| 0 <= i < k < |rest| && EqualFold(rest[i].name, slug) && EqualFold(rest[k].name, slug);
      assert agents[i + 1] == rest[i] && agents[k + 1] == rest[k];
    }
    if EqualFold(agents[0].name, slug) && IsNamed(rest, slug) {
      var k :| 0 <= k < |rest| && EqualFold(rest[k].name, slug);
      assert agents[k + 1] == rest[k];
    }
    if HasTwo(agents, slug) {
      var i, k :| 0 <= i < k < |agents| && EqualFold(agents[i].name, slug) && EqualFold(agents[k].name, slug);
      assert rest[k - 1] == agents[k] && (i > 0 ==> rest[i - 1] == agents[i]);
    }
  }

  lemma {:induction false} SlugCountIs(agents: seq<Agent>, name: string)
    ensures SlugCount(agents, Lower(name)) > 0 <==> IsNamed(agents, name)
    ensures SlugCount(agents, Lower(name)) > 1 <==> HasTwo(agents, name)
  {
    if agents != [] {
      SlugCountIs(agents[1..], name);
      assert forall a :: a in agents <==> a == agents[0] || a in agents[1..];
      TwoOfMore(agents, name);
    }
  }

  lemma {:induction false} AddRoleAdds(names: seq<string>, holders: seq<string>, sender: string, n: string)
    ensures n in AddRole(names, holders, sender)
       <==> n in names || exists h | h in holders :: !EqualFold(h, sender) && n == Lower(h)
    decreases |holders|
  {
    if holders != [] {
      var more := if EqualFold(holders[0], sender) then names else Add(names, holders[0]);
      AddRoleAdds(more, holders[1..], sender, n);
      assert forall h :: h in holders <==> h == holders[0] || h in holders[1..];
    }
  }

  // ---- The names of a message ----

  lemma GroupIs(t: string)
    ensures GroupOf(t) != NoGroup <==> IsGroup(t)
  {
  }

  lemma SenderIs(ctx: Context, a: Agent)
    ensures IsSender(ctx, a) <==> EqualFold(a.id, ctx.sender)
  {
    LowerTwice(ctx.sender);
  }

  lemma GroupAddsNames(names: seq<string>, t: string, ctx: Context, n: string)
    requires GroupOf(t) != NoGroup
    ensures n in AddGroup(names, GroupOf(t), ctx, ctx.agents) <==> n in names || GroupNames(ctx, t, n)
  {
    AddGroupAdds(names, GroupOf(t), ctx, ctx.agents, n);
    forall a | a in ctx.agents
      ensures AddressName(ctx, a) == if HasTwo(ctx.agents, a.name) then a.id else a.name
      ensures Chosen(GroupOf(t), ctx, a) <==> IsMeant(ctx, t, a)
      ensures IsSender(ctx, a) <==> EqualFold(a.id, ctx.sender)
    {
      SlugCountIs(ctx.agents, a.name);
      SenderIs(ctx, a);
    }
  }

  lemma RoleAddsNames(names: seq<string>, holders: seq<string>, ctx: Context, n: string)
    ensures n in AddRole(names, holders, Lower(ShortName(ctx.sender))) <==> n in names || RoleNames(ctx, holders, n)
  {
    AddRoleAdds(names, holders, Lower(ShortName(ctx.sender)), n);
    LowerTwice(ShortName(ctx.sender));
  }

  lemma TokenNames(names: seq<string>, t: string, ctx: Context, n: string)
    ensures n in AddToken(names, t, ctx) <==> n in names || Names(ctx, t, n)
  {
    hide GroupOf, IsGroup, GroupNames, RoleNames, IsNamed, HasTwo, Lower, ShortName, AddGroup, AddRole, BySlug;
    GroupIs(t);
    if IsGroup(t) {
      GroupAddsNames(names, t, ctx, n);
    } else {
      FirstWithIdIs(ctx.agents, t);
      BySlugIs(ctx.agents, t);
      if t in ctx.roles {
        RoleAddsNames(names, ctx.roles[t], ctx, n);
      }
    }
  }

  lemma {:induction false} TokensName(names: seq<string>, raw: seq<string>, ctx: Context, n: string)
    ensures n in AddTokens(names, raw, ctx) <==> n in names || exists t | t in raw :: Names(ctx, t, n)
    decreases |raw|
  {
    hide Names;
    if raw != [] {
      TokenNames(names, raw[0], ctx, n);
      TokensName(AddToken(names, raw[0], ctx), raw[1..], ctx, n);
      assert forall t :: t in raw <==> t == raw[0] || t in raw[1..];
    }
  }

  /** A message resolves to exactly the names that one of its tokens stands for. */
  lemma ResolveIsExact(raw: seq<string>, ctx: Context, n: string)
    ensures n in Resolve(raw, ctx) <==> exists t | t in raw :: Names(ctx, t, n)
  {
    hide Names;
    TokensName([], raw, ctx, n);
  }

  predicate IsDistinct(names: seq<string>) {
    forall i, k | 0 <= i < k < |names| :: names[i] != names[k]
  }

  /** Later names go behind earlier ones, and none comes twice. */
  predicate Extends(names: seq<string>, more: seq<string>) {
    names <= more && (IsDistinct(names) ==> IsDistinct(more))
  }

  lemma {:induction false} GroupExtends(names: seq<string>, group: Group, ctx: Context, agents: seq<Agent>)
    ensures Extends(names, AddGroup(names, group, ctx, agents))
    decreases |agents|
  {
    if agents != [] {
      var a := agents[0];
      var more := if !IsSender(ctx, a) && Chosen(group, ctx, a) then Add(names, AddressName(ctx, a)) else names;
      GroupExtends(more, group, ctx, agents[1..]);
    }
  }

  lemma {:induction false} RoleExtends(names: seq<string>, holders: seq<string>, sender: string)
    ensures Extends(names, AddRole(names, holders, sender))
    decreases |holders|
  {
    if holders != [] {
      RoleExtends(if EqualFold(holders[0], sender) then names else Add(names, holders[0]), holders[1..], sender);
    }
  }

  lemma {:induction false} TokensExtend(names: seq<string>, raw: seq<string>, ctx: Context)
    ensures Extends(names, AddTokens(names, raw, ctx))
    decreases |raw|
  {
    if raw != [] {
      GroupExtends(names, GroupOf(raw[0]), ctx, ctx.agents);
      if raw[0] in ctx.roles {
        RoleExtends(names, ctx.roles[raw[0]], Lower(ShortName(ctx.sender)));
      }
      TokensExtend(AddToken(names, raw[0], ctx), raw[1..], ctx);
    }
  }

  lemma {:induction false} TokensInTwo(names: seq<string>, a: seq<string>, b: seq<string>, ctx: Context)
    ensures AddTokens(names, a + b, ctx) == AddTokens(AddTokens(names, a, ctx), b, ctx)
    decreases |a|
  {
    if a == [] {
      assert a + b == b;
    } else {
      assert (a + b)[0] == a[0] && (a + b)[1..] == a[1..] + b;
      TokensInTwo(AddToken(names, a[0], ctx), a[1..], b, ctx);
    }
  }

  /** No name comes twice, and the names of earlier tokens come first. */
  lemma ResolveInOrder(a: seq<string>, b: seq<string>, ctx: Context)
    ensures IsDistinct(Resolve(a + b, ctx)) && Resolve(a, ctx) <= Resolve(a + b, ctx)
  {
    TokensInTwo([], a, b, ctx);
    TokensExtend([], a, ctx);
    TokensExtend(Resolve(a, ctx), b, ctx);
  }

  // ---- The members of a message ----

  /** The member that a token addresses. */
  predicate Addresses(ctx: Context, t: string, b: Agent) {
    if IsGroup(t) then
      exists a | a in ctx.agents :: !EqualFold(a.id, ctx.sender) && IsMeant(ctx, t, a) && StandsFor(a, b)
    else if '@' in t then EqualFold(t, b.id)
    else if IsNamed(ctx.agents, t) then !HasTwo(ctx.agents, t) && EqualFold(t, b.name)
    else if ctx.known == {} || t in ctx.known then false
    else t in ctx.roles
         && exists h | h in ctx.roles[t] :: !EqualFold(h, ShortName(ctx.sender)) && AddressedMatches(h, b.id)
  }

  ghost predicate NamesMatch(ctx: Context, t: string, id: string) {
    exists n :: Names(ctx, t, n) && AddressedMatches(n, id)
  }

  lemma GroupMatches(ctx: Context, t: string, b: Agent)
    requires Named(ctx.agents) && b in ctx.agents && IsGroup(t)
    ensures NamesMatch(ctx, t, b.id) <==> Addresses(ctx, t, b)
  {
    hide IsMeant, IsGroup, StandsFor, AddressedMatches, Lower, HasTwo, Named;
    forall a | a in ctx.agents
      ensures AddressedMatches(Lower(if HasTwo(ctx.agents, a.name) then a.id else a.name), b.id) <==> StandsFor(a, b)
    {
      SlugCountIs(ctx.agents, a.name);
      AddressNameIsExact(ctx, a, b);
      MatchFolds(AddressName(ctx, a), b.id);
    }
    forall a | a in ctx.agents && !EqualFold(a.id, ctx.sender) && IsMeant(ctx, t, a) && StandsFor(a, b)
      ensures NamesMatch(ctx, t, b.id)
    {
      assert Names(ctx, t, Lower(if HasTwo(ctx.agents, a.name) then a.id else a.name));
    }
  }

  lemma RoleMatches(ctx: Context, holders: seq<string>, id: string)
    ensures (exists n :: RoleNames(ctx, holders, n) && AddressedMatches(n, id))
       <==> exists h | h in holders :: !EqualFold(h, ShortName(ctx.sender)) && AddressedMatches(h, id)
  {
    hide AddressedMatches, EqualFold, Lower, ShortName;
    forall h | h in holders ensures AddressedMatches(Lower(h), id) == AddressedMatches(h, id) {
      MatchFolds(h, id);
    }
    forall h | h in holders && !EqualFold(h, ShortName(ctx.sender)) && AddressedMatches(h, id)
      ensures exists n :: RoleNames(ctx, holders, n) && AddressedMatches(n, id)
    {
      assert RoleNames(ctx, holders, Lower(h));
    }
  }

  /** A token without '@' matches the members it is the name of, and one with '@' those it is the id of. */
  lemma TokenMatches(t: string, b: Agent)
    requires EqualFold(b.name, ShortName(b.id)) && !Contains(b.name, '@')
    ensures AddressedMatches(Lower(t), b.id) <==> if '@' in t then EqualFold(t, b.id) else EqualFold(t, b.name)
  {
    MatchFolds(t, b.id);
    LowerKeepsAt(t);
    LowerKeepsAt(b.id);
    if EqualFold(t, b.id) && '@' !in t {
      ShortOfBare(b.id);
    }
  }

  lemma OthersMatch(ctx: Context, t: string, b: Agent)
    requires Named(ctx.agents) && b in ctx.agents && !IsGroup(t)
    ensures NamesMatch(ctx, t, b.id) <==> Addresses(ctx, t, b)
  {
    hide IsMeant, IsGroup, AddressedMatches, Lower, HasTwo, ShortName, RoleNames;
    TokenMatches(t, b);
    if t in ctx.roles {
      RoleMatches(ctx, ctx.roles[t], b.id);
    }
    if Names(ctx, t, Lower(t)) && AddressedMatches(Lower(t), b.id) {
      assert NamesMatch(ctx, t, b.id);
    }
  }

  /** A message addresses exactly the members that one of its tokens addresses: groups the members they are meant for,
      without the sender, and their namesakes; a full id its member; a name its one member, and none when several share
      it; a name of nobody here no member; and a role its holders, without the sender. */
  lemma ResolveReaches(raw: seq<string>, ctx: Context, b: Agent)
    requires Named(ctx.agents) && b in ctx.agents
    ensures MatchesAny(Resolve(raw, ctx), b.id) <==> exists t | t in raw :: Addresses(ctx, t, b)
  {
    hide Names, Addresses, AddressedMatches;
    forall n ensures n in Resolve(raw, ctx) <==> exists t | t in raw :: Names(ctx, t, n) {
      ResolveIsExact(raw, ctx, n);
    }
    forall t | t in raw ensures NamesMatch(ctx, t, b.id) <==> Addresses(ctx, t, b) {
      if IsGroup(t) { GroupMatches(ctx, t, b); } else { OthersMatch(ctx, t, b); }
    }
  }
}
