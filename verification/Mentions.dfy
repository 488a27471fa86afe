/** Which room members a message's mentions address. */
module Mentions {

  datatype Agent = Agent(id: string, name: string, kind: string, lastSeen: int, waiting: bool)

  /** Times are nanoseconds; a last-seen time of 0 is not set. */
  datatype Context = Context(sender: string, agents: seq<Agent>, known: set<string>, roles: map<string, seq<string>>,
                             now: int)

  const HERE_WINDOW := 300_000_000_000

  datatype Group = Channel | Here | Humans | Ais | Everyone | NoGroup

  function GroupOf(token: string): Group {
    match token
    case "channel" => Channel
    case "here" => Here
    case "humans" => Humans
    case "ais" => Ais
    case "everyone" => Everyone
    case "all" => Everyone
    case _ => NoGroup
  }

  // ---- Names ----

  function LowerChar(c: char): char {
    if 'A' <= c <= 'Z' then c - 'A' + 'a' else c
  }

  /** Lower case of the ASCII letters that ids and names are made of. */
  function Lower(s: string): string {
    if s == "" then "" else [LowerChar(s[0])] + Lower(s[1..])
  }

  predicate EqualFold(a: string, b: string) {
    Lower(a) == Lower(b)
  }

  lemma {:induction false} LowerTwice(s: string)
    ensures Lower(Lower(s)) == Lower(s)
  {
    if s != "" {
      LowerTwice(s[1..]);
      assert Lower(s)[1..] == Lower(s[1..]);
    }
  }

  lemma {:induction false} LowerKeepsAt(s: string)
    ensures '@' in Lower(s) <==> '@' in s
  {
    if s != "" {
      LowerKeepsAt(s[1..]);
      assert s == [s[0]] + s[1..];
    }
  }

  function IndexAt(s: string): (i: nat)
    ensures i <= |s| && (i < |s| ==> s[i] == '@') && forall k | 0 <= k < i :: s[k] != '@'
  {
    if s == "" || s[0] == '@' then 0 else 1 + IndexAt(s[1..])
  }

  /** The part of an id before its '@', when there is one that does not come first. */
  function ShortName(id: string): string {
    if 0 < IndexAt(id) < |id| then id[..IndexAt(id)] else id
  }

  predicate Contains(s: string, c: char) {
    c in s
  }

  /** Whether a resolved name addresses an agent. */
  predicate AddressedMatches(target: string, id: string) {
    EqualFold(target, id) || (!Contains(target, '@') && EqualFold(target, ShortName(id)))
  }

  // ---- Resolution ----

  predicate IsSender(ctx: Context, a: Agent) {
    EqualFold(a.id, Lower(ctx.sender))
  }

  /** The members a group mention is meant for, whoever sends it. */
  predicate Chosen(group: Group, ctx: Context, a: Agent) {
    match group
    case Channel => true
    case Everyone => true
    case Humans => a.kind == "human"
    case Ais => a.kind == "ai"
    case Here => a.waiting || (a.lastSeen != 0 && ctx.now - a.lastSeen < HERE_WINDOW)
    case NoGroup => false
  }

  function SlugCount(agents: seq<Agent>, slug: string): nat {
    if agents == [] then 0 else (if Lower(agents[0].name) == slug then 1 else 0) + SlugCount(agents[1..], slug)
  }

  function Add(names: seq<string>, name: string): seq<string> {
    if Lower(name) in names then names else names + [Lower(name)]
  }

  /** The name an agent is addressed by: its slug, or its id when the slug is not its own. */
  function AddressName(ctx: Context, a: Agent): string {
    if SlugCount(ctx.agents, Lower(a.name)) > 1 then a.id else a.name
  }

  function AddGroup(names: seq<string>, group: Group, ctx: Context, agents: seq<Agent>): seq<string>
    decreases |agents|
  {
    if agents == [] then names
    else
      var a := agents[0];
      AddGroup(if !IsSender(ctx, a) && Chosen(group, ctx, a) then Add(names, AddressName(ctx, a)) else names,
               group, ctx, agents[1..])
  }

  function FirstWithId(agents: seq<Agent>, token: string): seq<Agent> {
    if agents == [] then []
    else if EqualFold(agents[0].id, token) then [agents[0]]
    else FirstWithId(agents[1..], token)
  }

  function BySlug(agents: seq<Agent>, slug: string): seq<Agent> {
    if agents == [] then []
    else (if EqualFold(agents[0].name, slug) then [agents[0]] else []) + BySlug(agents[1..], slug)
  }

  function AddRole(names: seq<string>, holders: seq<string>, sender: string): seq<string>
    decreases |holders|
  {
    if holders == [] then names
    else AddRole(if EqualFold(holders[0], sender) then names else Add(names, holders[0]), holders[1..], sender)
  }

  function AddToken(names: seq<string>, token: string, ctx: Context): seq<string> {
    if GroupOf(token) != NoGroup then AddGroup(names, GroupOf(token), ctx, ctx.agents)
    else if Contains(token, '@') then
      var found := FirstWithId(ctx.agents, token);
      if found == [] then names else Add(names, found[0].id)
    else
      var matches := BySlug(ctx.agents, token);
      if |matches| == 1 then Add(names, matches[0].name)
      else if |matches| > 1 then names
      else if ctx.known == {} || token in ctx.known then Add(names, token)
      else if token in ctx.roles then AddRole(names, ctx.roles[token], Lower(ShortName(ctx.sender)))
      else names
  }

  function AddTokens(names: seq<string>, raw: seq<string>, ctx: Context): seq<string>
    decreases |raw|
  {
    if raw == [] then names else AddTokens(AddToken(names, raw[0], ctx), raw[1..], ctx)
  }

  /** The names that the tokens of a message resolve to. */
  function Resolve(raw: seq<string>, ctx: Context): seq<string> {
    AddTokens([], raw, ctx)
  }

  // ---- Group mentions ----

  /** Members have distinct ids, and each is called by the short form of its id. */
  predicate Named(agents: seq<Agent>) {
    && (forall a | a in agents :: EqualFold(a.name, ShortName(a.id)) && !Contains(a.name, '@'))
    && (forall i, k | 0 <= i < k < |agents| :: !EqualFold(agents[i].id, agents[k].id))
  }

  /** The id of one member has no '@' and is the slug of another. */
  predicate Namesake(a: Agent, b: Agent) {
    a != b && !Contains(a.id, '@') && EqualFold(a.id, b.name)
  }

  predicate StandsFor(a: Agent, b: Agent) {
    a == b || Namesake(a, b)
  }

  predicate MatchesAny(names: seq<string>, id: string) {
    exists n | n in names :: AddressedMatches(n, id)
  }

  lemma {:induction false} AddGroupAdds(names: seq<string>, group: Group, ctx: Context, agents: seq<Agent>, n: string)
    ensures n in AddGroup(names, group, ctx, agents)
       <==> n in names || exists a | a in agents ::
              !IsSender(ctx, a) && Chosen(group, ctx, a) && n == Lower(AddressName(ctx, a))
    decreases |agents|
  {
    if agents != [] {
      var a := agents[0];
      var more := if !IsSender(ctx, a) && Chosen(group, ctx, a) then Add(names, AddressName(ctx, a)) else names;
      AddGroupAdds(more, group, ctx, agents[1..], n);
      assert forall x :: x in agents <==> x == a || x in agents[1..];
    }
  }

  lemma {:induction false} SlugCountOfTwo(agents: seq<Agent>, i: nat, k: nat)
    requires i < k < |agents| && EqualFold(agents[i].name, agents[k].name)
    ensures SlugCount(agents, Lower(agents[i].name)) > 1
  {
    if i > 0 {
      SlugCountOfTwo(agents[1..], i - 1, k - 1);
    } else {
      SlugCountOfOne(agents[1..], k - 1);
    }
  }

  lemma {:induction false} SlugCountOfOne(agents: seq<Agent>, k: nat)
    requires k < |agents|
    ensures SlugCount(agents, Lower(agents[k].name)) > 0
  {
    if k > 0 {
      SlugCountOfOne(agents[1..], k - 1);
    }
  }

  /** An id that is the slug of a member is the id of that member. */
  lemma ShortOfBare(id: string)
    requires !Contains(id, '@')
    ensures ShortName(id) == id
  {
  }

  lemma MatchFolds(target: string, id: string)
    ensures AddressedMatches(Lower(target), id) == AddressedMatches(target, id)
  {
    LowerTwice(target);
    LowerKeepsAt(target);
  }

  /** The name one member is addressed by addresses that member, and another one only when its id is the other's
      slug. */
  lemma AddressNameIsExact(ctx: Context, a: Agent, b: Agent)
    requires Named(ctx.agents) && a in ctx.agents && b in ctx.agents
    ensures AddressedMatches(AddressName(ctx, a), b.id) <==> StandsFor(a, b)
  {
    if a != b {
      TwoIds(ctx.agents, a, b);
      if EqualFold(a.name, b.name) {
        SameSlug(ctx.agents, a, b);
      } else {
        OtherSlug(a, b);
      }
    }
  }

  lemma TwoIds(agents: seq<Agent>, a: Agent, b: Agent)
    requires Named(agents) && a in agents && b in agents && a != b
    ensures !EqualFold(a.id, b.id)
  {
    var i :| 0 <= i < |agents| && agents[i] == a;
    var k :| 0 <= k < |agents| && agents[k] == b;
  }

  lemma SameSlug(agents: seq<Agent>, a: Agent, b: Agent)
    requires a in agents && b in agents && a != b && EqualFold(a.name, b.name)
    ensures SlugCount(agents, Lower(a.name)) > 1
  {
    var i :| 0 <= i < |agents| && agents[i] == a;
    var k :| 0 <= k < |agents| && agents[k] == b;
    SlugCountOfTwo(agents, if i < k then i else k, if i < k then k else i);
  }

  /** A slug addresses no member of another slug, and neither does an id but by its bare form. */
  lemma OtherSlug(a: Agent, b: Agent)
    requires EqualFold(a.name, ShortName(a.id)) && EqualFold(b.name, ShortName(b.id)) && !EqualFold(a.name, b.name)
    requires !Contains(a.name, '@')
    ensures !AddressedMatches(a.name, b.id) && !Namesake(a, b)
  {
    if !Contains(a.id, '@') {
      ShortOfBare(a.id);
    }
    if EqualFold(a.name, b.id) {
      LowerKeepsAt(a.name);
      LowerKeepsAt(b.id);
      ShortOfBare(b.id);
    }
  }

  /** A group reaches a member through the name of some chosen one. */
  predicate Reaches(ctx: Context, group: Group, b: Agent) {
    exists a | a in ctx.agents :: !IsSender(ctx, a) && Chosen(group, ctx, a) && StandsFor(a, b)
  }

  /** A message whose mentions are group mentions addresses exactly the members that one of them reaches: those it is
      meant for, without the sender, and those whose slug is the id of such a member. */
  lemma GroupMentionsReach(raw: seq<string>, ctx: Context, b: Agent)
    requires Named(ctx.agents) && b in ctx.agents && forall t | t in raw :: GroupOf(t) != NoGroup
    ensures MatchesAny(Resolve(raw, ctx), b.id) <==> exists t | t in raw :: Reaches(ctx, GroupOf(t), b)
  {
    GroupTokensAdd([], raw, ctx, b);
  }

  /** When no id is the slug of another member, these are exactly the members one of the groups is meant for, without
      the sender. */
  lemma GroupMentionsAreExact(raw: seq<string>, ctx: Context, b: Agent)
    requires Named(ctx.agents) && b in ctx.agents && forall t | t in raw :: GroupOf(t) != NoGroup
    requires forall a | a in ctx.agents :: !Namesake(a, b)
    ensures MatchesAny(Resolve(raw, ctx), b.id)
            <==> !IsSender(ctx, b) && exists t | t in raw :: Chosen(GroupOf(t), ctx, b)
  {
    GroupMentionsReach(raw, ctx, b);
    forall t | t in raw ensures Reaches(ctx, GroupOf(t), b) <==> !IsSender(ctx, b) && Chosen(GroupOf(t), ctx, b) {
      assert StandsFor(b, b);
    }
  }

  lemma {:induction false} GroupTokensAdd(names: seq<string>, raw: seq<string>, ctx: Context, b: Agent)
    requires Named(ctx.agents) && b in ctx.agents && forall t | t in raw :: GroupOf(t) != NoGroup
    ensures MatchesAny(AddTokens(names, raw, ctx), b.id)
       <==> MatchesAny(names, b.id) || exists t | t in raw :: Reaches(ctx, GroupOf(t), b)
    decreases |raw|
  {
    if raw != [] {
      GroupTokenAdds(names, GroupOf(raw[0]), ctx, b);
      GroupTokensAdd(AddToken(names, raw[0], ctx), raw[1..], ctx, b);
      assert forall t :: t in raw <==> t == raw[0] || t in raw[1..];
    }
  }

  lemma GroupTokenAdds(names: seq<string>, group: Group, ctx: Context, b: Agent)
    requires Named(ctx.agents) && b in ctx.agents
    ensures MatchesAny(AddGroup(names, group, ctx, ctx.agents), b.id)
            <==> MatchesAny(names, b.id) || Reaches(ctx, group, b)
  {
    var more := AddGroup(names, group, ctx, ctx.agents);
    forall n | n in names ensures n in more {
      AddGroupAdds(names, group, ctx, ctx.agents, n);
    }
    forall a | a in ctx.agents && !IsSender(ctx, a) && Chosen(group, ctx, a)
      ensures Lower(AddressName(ctx, a)) in more
      ensures AddressedMatches(Lower(AddressName(ctx, a)), b.id) <==> StandsFor(a, b)
    {
      AddGroupAdds(names, group, ctx, ctx.agents, Lower(AddressName(ctx, a)));
      MatchFolds(AddressName(ctx, a), b.id);
      AddressNameIsExact(ctx, a, b);
    }
    if MatchesAny(more, b.id) && !MatchesAny(names, b.id) {
      var n :| n in more && AddressedMatches(n, b.id);
      AddGroupAdds(names, group, ctx, ctx.agents, n);
    }
  }

  // ---- A namesake ----

  const ALICE := Agent("alice", "alice", "human", 0, false)
  const HER_BOT := Agent("alice@p", "alice", "ai", 0, false)
  const TWO_ALICES := Context("eve", [ALICE, HER_BOT], {}, map[], 0)

  lemma {:induction false} LowerLength(s: string)
    ensures |Lower(s)| == |s|
  {
    if s != "" {
      LowerLength(s[1..]);
    }
  }

  lemma DifferentLengths(a: string, b: string)
    requires |a| != |b|
    ensures !EqualFold(a, b) && !EqualFold(a, Lower(b))
  {
    LowerLength(a);
    LowerLength(b);
    LowerLength(Lower(b));
  }

  lemma ShortOfBot()
    ensures ShortName("alice@p") == "alice" && ShortName("alice") == "alice"
  {
    assert "alice@p"[5] == '@' && "alice@p"[..5] == "alice";
    assert IndexAt("alice@p") == 5;
    assert IndexAt("alice") == 5;
  }

  lemma AlicesAreNamed()
    ensures Named(TWO_ALICES.agents)
  {
    ShortOfBot();
    DifferentLengths("alice", "alice@p");
    assert !Contains("alice", '@');
  }

  lemma NamesakeIsReached(token: string, ctx: Context, a: Agent, b: Agent)
    requires Named(ctx.agents) && a in ctx.agents && b in ctx.agents && GroupOf(token) != NoGroup
    requires !IsSender(ctx, a) && Chosen(GroupOf(token), ctx, a) && Namesake(a, b)
    ensures MatchesAny(Resolve([token], ctx), b.id)
  {
    assert StandsFor(a, b) && Reaches(ctx, GroupOf(token), b);
    assert token in [token];
    GroupMentionsReach([token], ctx, b);
  }

  lemma AliceHasNamesake()
    ensures Namesake(ALICE, HER_BOT) && !IsSender(TWO_ALICES, ALICE)
  {
    DifferentLengths("alice", "eve");
    assert !Contains("alice", '@');
  }

  lemma HumansAreMentioned()
    ensures GroupOf("humans") == Humans
    ensures Chosen(Humans, TWO_ALICES, ALICE) && !Chosen(Humans, TWO_ALICES, HER_BOT)
  {
    assert GroupOf("humans") == Humans;
    DifferentLengths("human", "ai");
  }

  /** The humans of a room with a member alice and her bot alice@p: the bot is addressed too, though it is not one. */
  lemma NamesakeIsAddressed()
    ensures MatchesAny(Resolve(["humans"], TWO_ALICES), HER_BOT.id) && !Chosen(Humans, TWO_ALICES, HER_BOT)
  {
    AlicesAreNamed();
    AliceHasNamesake();
    HumansAreMentioned();
    NamesakeIsReached("humans", TWO_ALICES, ALICE, HER_BOT);
  }

  // ---- The resolver as the program runs it ----

  /** The names so far, and which they are. */
  class Resolver {
    const ctx: Context
    var names: seq<string>
    var seen: set<string>

    ghost predicate Valid()
      reads this
    {
      forall n :: n in seen <==> n in names
    }

    constructor (ctx: Context)
      ensures Valid() && names == [] && this.ctx == ctx
    {
      this.ctx, names, seen := ctx, [], {};
    }

    method Include(name: string)
      requires Valid()
      modifies this
      ensures Valid() && names == Add(old(names), name)
    {
      var lower := Lower(name);
      if lower !in seen {
        seen := seen + {lower};
        names := names + [lower];
      }
    }

    method IncludeAgent(a: Agent)
      requires Valid()
      modifies this
      ensures Valid() && names == Add(old(names), AddressName(ctx, a))
    {
      if SlugCount(ctx.agents, Lower(a.name)) > 1 {
        Include(a.id);
        return;
      }
      Include(a.name);
    }

    method IncludeGroup(group: Group)
      requires Valid()
      modifies this
      ensures Valid() && names == AddGroup(old(names), group, ctx, ctx.agents)
    {
      for i := 0 to |ctx.agents|
        invariant Valid()
                  && AddGroup(old(names), group, ctx, ctx.agents) == AddGroup(names, group, ctx, ctx.agents[i..])
      {
        var a := ctx.agents[i];
        assert ctx.agents[i..][0] == a && ctx.agents[i..][1..] == ctx.agents[i + 1..];
        if IsSender(ctx, a) || !Chosen(group, ctx, a) {
          continue;
        }
        IncludeAgent(a);
      }
    }

    method IncludeId(token: string)
      requires Valid()
      modifies this
      ensures Valid()
      ensures var found := FirstWithId(ctx.agents, token);
              names == if found == [] then old(names) else Add(old(names), found[0].id)
    {
      for i := 0 to |ctx.agents|
        invariant Valid() && names == old(names)
                  && FirstWithId(ctx.agents, token) == FirstWithId(ctx.agents[i..], token)
      {
        assert ctx.agents[i..][0] == ctx.agents[i] && ctx.agents[i..][1..] == ctx.agents[i + 1..];
        if EqualFold(ctx.agents[i].id, token) {
          Include(ctx.agents[i].id);
          break;
        }
      }
    }

    method IncludeHolders(holders: seq<string>)
      requires Valid()
      modifies this
      ensures Valid() && names == AddRole(old(names), holders, Lower(ShortName(ctx.sender)))
    {
      var sender := Lower(ShortName(ctx.sender));
      for i := 0 to |holders|
        invariant Valid() && AddRole(old(names), holders, sender) == AddRole(names, holders[i..], sender)
      {
        assert holders[i..][0] == holders[i] && holders[i..][1..] == holders[i + 1..];
        if EqualFold(holders[i], sender) {
          continue;
        }
        Include(holders[i]);
      }
    }

    method IncludeToken(token: string)
      requires Valid()
      modifies this
      ensures Valid() && names == AddToken(old(names), token, ctx)
    {
      if GroupOf(token) != NoGroup {
        IncludeGroup(GroupOf(token));
        return;
      }
      if Contains(token, '@') {
        IncludeId(token);
        return;
      }
      var matches := BySlug(ctx.agents, token);
      if |matches| == 1 {
        Include(matches[0].name);
      } else if |matches| == 0 {
        if ctx.known == {} || token in ctx.known {
          Include(token);
        } else if token in ctx.roles {
          IncludeHolders(ctx.roles[token]);
        }
      }
    }
  }

  method ResolveAddressedTokens(raw: seq<string>, ctx: Context) returns (names: seq<string>)
    ensures names == Resolve(raw, ctx)
  {
    var r := new Resolver(ctx);
    for i := 0 to |raw|
      invariant fresh(r) && r.Valid() && r.ctx == ctx && Resolve(raw, ctx) == AddTokens(r.names, raw[i..], ctx)
    {
      assert raw[i..][0] == raw[i] && raw[i..][1..] == raw[i + 1..];
      r.IncludeToken(raw[i]);
    }
    names := r.names;
  }
}
