/** Exactly where the writer's guard and the reconciler's detector differ. */
module GuardLaws {
  import opened Bytes
  import opened Library
  import opened Editor
  import opened Edits
  import opened Builders
  import opened Readers
  import opened ReaderLaws

  /** A section that the map-based reader can read. */
  predicate Reads(j: Json, root: seq<Member>, name: string) {
    MapValue(root, name).Some? && MapOf(j, MapValue(root, name).value).Some?
  }

  function TokensOf(j: Json, root: seq<Member>, name: string): seq<Member> {
    if Reads(j, root, name) then MapOf(j, MapValue(root, name).value).value else []
  }

  /** The section that reader ends on: the first if it has an access token, else the last that can be read. */
  function SectionRead(j: Json, tool: Tool, root: seq<Member>): Option<string> {
    match tool
    case Claude =>
      if Reads(j, root, CLAUDE_SECTION)
         && (FirstString(j, TokensOf(j, root, CLAUDE_SECTION), CLAUDE_ACCESS_KEYS) != ""
             || !Reads(j, root, CLAUDE_LEGACY))
      then Some(CLAUDE_SECTION)
      else if Reads(j, root, CLAUDE_LEGACY) then Some(CLAUDE_LEGACY)
      else None
    case Codex => if Reads(j, root, CODEX_TOKENS) then Some(CODEX_TOKENS) else None
    case OtherTool => None
  }

  function RefreshRead(j: Json, tool: Tool, root: seq<Member>): string {
    match SectionRead(j, tool, root)
    case None => ""
    case Some(n) => FirstString(j, TokensOf(j, root, n), GuardKeys(tool))
  }

  lemma SectionsRead(j: Json, root: seq<Member>, a: string, b: string)
    ensures ReadSections(j, root, [a, b], NO_CREDENTIAL).refresh
         == if Reads(j, root, a)
            && (FirstString(j, TokensOf(j, root, a), CLAUDE_ACCESS_KEYS) != "" || !Reads(j, root, b))
            then FirstString(j, TokensOf(j, root, a), CLAUDE_REFRESH)
            else if Reads(j, root, b) then FirstString(j, TokensOf(j, root, b), CLAUDE_REFRESH)
            else ""
  {
    var one := if Reads(j, root, a) then ReadSection(j, TokensOf(j, root, a), NO_CREDENTIAL) else NO_CREDENTIAL;
    assert [a, b][1..] == [b] && [b][1..] == [];
    LastSectionRead(j, root, b, one);
    LastSectionRead(j, root, b, NO_CREDENTIAL);
  }

  lemma LastSectionRead(j: Json, root: seq<Member>, b: string, cred: Credential)
    ensures cred.access == "" ==>
      ReadSections(j, root, [b], cred).refresh
      == if Reads(j, root, b) then FirstString(j, TokensOf(j, root, b), CLAUDE_REFRESH) else cred.refresh
  {
    assert [b][1..] == [];
  }

  /** The detector sees a login exactly when the section it ends on has a refresh token that is not blank. */
  lemma DetectorIff(j: Json, tool: Tool, data: bytes)
    requires tool != OtherTool
    ensures HasRefreshToken(j, tool, data) <==> MapOf(j, data).Some? && RefreshRead(j, tool, MapOf(j, data).value) != ""
  {
    if MapOf(j, data).Some? {
      var root := MapOf(j, data).value;
      if tool == Claude {
        SectionsRead(j, root, CLAUDE_SECTION, CLAUDE_LEGACY);
      } else {
        FirstStringNone(j, [], GuardKeys(Codex));
      }
    }
  }

  // ---- Tokens one by one ----

  /** What the map-based reader makes of a key. */
  function KeyText(j: Json, ms: seq<Member>, key: string): string {
    var raw := MapValue(ms, key);
    if raw.Some? then Text(j, raw.value) else ""
  }

  lemma {:induction false} FirstStringIff(j: Json, ms: seq<Member>, keys: seq<string>)
    ensures FirstString(j, ms, keys) != "" <==> exists k | k in keys :: KeyText(j, ms, k) != ""
  {
    if keys != [] {
      FirstStringIff(j, ms, keys[1..]);
      assert forall k :: k in keys <==> k == keys[0] || k in keys[1..];
      assert KeyText(j, ms, keys[0]) != "" ==> FirstString(j, ms, keys) != "";
    }
  }

  /** The guard sees a token under a key of a section. */
  predicate SeesToken(j: Json, doc: Object, name: string, key: string) {
    var raw := Lookup(doc, name);
    raw.Some? && Parse(j, raw.value).Ok? && IsNonEmptyString(j, Lookup(Parse(j, raw.value).value, key))
  }

  /** The detector overlooks it: it does not end on that section, or the token is blank. */
  predicate Overlooks(j: Json, tool: Tool, root: seq<Member>, name: string, key: string) {
    SectionRead(j, tool, root) != Some(name) || KeyText(j, TokensOf(j, root, name), key) == ""
  }

  predicate OverlooksAll(j: Json, tool: Tool, doc: Object) {
    forall n, k | n in GuardSections(tool) && k in GuardKeys(tool) && SeesToken(j, doc, n, k) ::
      Overlooks(j, tool, doc.members, n, k)
  }

  /** In a document without repeated members the detector misses what the guard sees exactly when every token the guard
      sees is blank or in a section that the reader does not end on. */
  lemma GuardSeesMore(j: Json, tool: Tool, data: bytes)
    requires tool != OtherTool && NoRepeats(j, tool, data) && RefreshTokenOnDisk(j, tool, data)
    ensures !HasRefreshToken(j, tool, data) <==> OverlooksAll(j, tool, Parse(j, data).value)
  {
    var doc := Parse(j, data).value;
    DetectorIff(j, tool, data);
    match SectionRead(j, tool, doc.members)
    case None =>
    case Some(n) =>
      FirstStringIff(j, TokensOf(j, doc.members, n), GuardKeys(tool));
      if RefreshRead(j, tool, doc.members) != "" {
        var k :| k in GuardKeys(tool) && KeyText(j, TokensOf(j, doc.members, n), k) != "";
        NonBlankIsSeen(j, doc, n, k, GuardKeys(tool));
        assert n in GuardSections(tool);
      }
  }

  lemma NonBlankIsSeen(j: Json, doc: Object, n: string, k: string, keys: seq<string>)
    requires SectionOnce(j, doc, n, keys) && k in keys && KeyText(j, TokensOf(j, doc.members, n), k) != ""
    ensures SeesToken(j, doc, n, k)
  {
    ReadersAgree(doc, n);
    var raw := Lookup(doc, n).value;
    assert TokensOf(j, doc.members, n) != [];
    ReadersAgree(Parse(j, raw).value, k);
    assert TrimLeft("") == "" && TrimRight("") == "";
  }
}
