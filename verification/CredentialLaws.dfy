/** What a credential file says to the reader that decodes objects into maps, in terms of the values under its names. */
module CredentialLaws {
  import opened Bytes
  import opened Grammar
  import opened Library
  import opened Editor
  import opened Edits
  import opened Builders
  import opened Readers

  // ---- Texts and numbers ----

  predicate AllWhite(s: string) {
    forall k | 0 <= k < |s| :: IsWhite(s[k])
  }

  /** `t` is `s` without the white space around it. */
  predicate IsTrimmed(s: string, t: string) {
    (exists i, k | 0 <= i <= k <= |s| :: AllWhite(s[..i]) && t == s[i..k] && AllWhite(s[k..]))
    && (t != "" ==> !IsWhite(t[0]) && !IsWhite(t[|t| - 1]))
  }

  lemma {:induction false} TrimLeftIs(s: string) returns (i: nat)
    ensures i <= |s| && TrimLeft(s) == s[i..] && AllWhite(s[..i]) && (i < |s| ==> !IsWhite(s[i]))
  {
    if s != "" && IsWhite(s[0]) {
      i := TrimLeftIs(s[1..]);
      i := i + 1;
      assert forall k | 1 <= k < i :: s[k] == s[1..][..i - 1][k - 1];
      assert s[1..][i - 1..] == s[i..];
    } else {
      i := 0;
    }
  }

  lemma {:induction false} TrimRightIs(s: string) returns (k: nat)
    ensures k <= |s| && TrimRight(s) == s[..k] && AllWhite(s[k..]) && (k > 0 ==> !IsWhite(s[k - 1]))
  {
    if s != "" && IsWhite(s[|s| - 1]) {
      var most := s[..|s| - 1];
      k := TrimRightIs(most);
      assert s[..k] == most[..k];
      forall x | 0 <= x < |s[k..]| ensures IsWhite(s[k..][x]) {
        assert x < |most[k..]| ==> s[k..][x] == most[k..][x];
      }
    } else {
      k := |s|;
      assert s[..k] == s && s[k..] == "";
    }
  }

  lemma TrimIsExact(s: string)
    ensures IsTrimmed(s, Trim(s))
  {
    hide TrimLeft, TrimRight, IsWhite;
    var i := TrimLeftIs(s);
    var rest := s[i..];
    var n := TrimRightIs(rest);
    var k := i + n;
    assert rest[..n] == s[i..k] && rest[n..] == s[k..];
    assert AllWhite(s[..i]) && Trim(s) == s[i..k] && AllWhite(s[k..]);
  }

  predicate IsCut(s: string, i: nat, k: nat) {
    i <= k <= |s| && AllWhite(s[..i]) && AllWhite(s[k..]) && (i < k ==> !IsWhite(s[i]) && !IsWhite(s[k - 1]))
  }

  lemma WhiteAt(s: string, x: nat)
    requires AllWhite(s) && x < |s|
    ensures IsWhite(s[x])
  {
  }

  /** What is left of one trimming is not cut off by another one. */
  lemma CutsAgree(s: string, i: nat, k: nat, m: nat, n: nat)
    requires IsCut(s, i, k) && IsCut(s, m, n) && m < n
    ensures i <= m && n <= k
  {
    hide IsWhite, AllWhite;
    if m < i {
      WhiteAt(s[..i], m);
    }
    if k < n {
      WhiteAt(s[k..], n - 1 - k);
    }
  }

  lemma CutOf(s: string, t: string) returns (i: nat, k: nat)
    requires IsTrimmed(s, t)
    ensures IsCut(s, i, k) && t == s[i..k]
  {
    hide IsWhite, AllWhite;
    i, k :| 0 <= i <= k <= |s| && AllWhite(s[..i]) && t == s[i..k] && AllWhite(s[k..]);
    assert i < k ==> t[0] == s[i] && t[|t| - 1] == s[k - 1];
  }

  /** There is only one such text. */
  lemma TrimIsUnique(s: string, t: string)
    requires IsTrimmed(s, t)
    ensures t == Trim(s)
  {
    hide IsTrimmed, Trim, AllWhite, IsWhite;
    TrimIsExact(s);
    var i, k := CutOf(s, t);
    var m, n := CutOf(s, Trim(s));
    if i < k {
      CutsAgree(s, m, n, i, k);
    }
    if m < n {
      CutsAgree(s, i, k, m, n);
    }
  }

  // ---- Maps ----

  /** The literal null between white space. */
  ghost predicate IsNull(data: bytes) {
    exists before, after :: AllSpace(before) && AllSpace(after) && data == before + (NULL + after)
  }

  lemma NullIff(data: bytes)
    ensures IsNullText(data) <==> IsNull(data)
  {
    hide AllSpace, SkipSpace;
    if IsNullText(data) {
      var before := SkipSpaceIsSuffix(data);
      var s := SkipSpace(data);
      assert s == NULL + s[4..];
    }
    if IsNull(data) {
      var before, after :| AllSpace(before) && AllSpace(after) && data == before + (NULL + after);
      var s := NULL + after;
      assert s[0] == NULL[0] && s[..4] == NULL && s[4..] == after;
      SkipSpaceOver(before, s);
    }
  }

  /** A map is read from the texts of objects, and from null, which gives an empty one. */
  lemma MapOfIff(j: Json, data: bytes)
    ensures MapOf(j, data).Some? <==> IsObjectText(data) || IsNull(data)
    ensures IsObjectText(data) ==> Parse(j, data).Ok? && MapOf(j, data) == Some(Parse(j, data).value.members)
    ensures !IsObjectText(data) && IsNull(data) ==> MapOf(j, data) == Some([])
  {
    hide Parse, IsNullText;
    ParseIsExact(j, data);
    NullIff(data);
  }

  // ---- Texts under a name ----

  /** The text under a name, trimmed; "" when the last value of the name is not a string. */
  function Text(j: Json, ms: seq<Member>, name: string): string {
    var vs := Values(ms, name);
    if vs == [] || StringOf(j, vs[|vs| - 1]).None? then "" else Trim(StringOf(j, vs[|vs| - 1]).value)
  }

  function EitherText(j: Json, ms: seq<Member>, a: string, b: string): string {
    if Text(j, ms, a) != "" then Text(j, ms, a) else Text(j, ms, b)
  }

  function Number(j: Json, ms: seq<Member>, name: string): Option<int> {
    var vs := Values(ms, name);
    if vs == [] then None else j.millis(vs[|vs| - 1])
  }

  function EitherNumber(j: Json, ms: seq<Member>, a: string, b: string): Option<int> {
    if Number(j, ms, a).Some? then Number(j, ms, a) else Number(j, ms, b)
  }

  lemma FirstOfTwo(j: Json, ms: seq<Member>, a: string, b: string)
    ensures FirstString(j, ms, [a, b]) == EitherText(j, ms, a, b)
    ensures FirstMillis(j, ms, [a, b]) == EitherNumber(j, ms, a, b)
  {
    hide Values, StringOf, Trim;
    assert [a, b][1..] == [b] && [b][1..] == [];
    assert FirstString(j, ms, [b]) == Text(j, ms, b) && FirstMillis(j, ms, [b]) == Number(j, ms, b);
  }

  // ---- Claude ----

  /** The map under a name: None when the last value of the name is neither an object nor null. */
  function Section(j: Json, ms: seq<Member>, name: string): Option<seq<Member>> {
    var vs := Values(ms, name);
    if vs == [] then None else MapOf(j, vs[|vs| - 1])
  }

  function AccessOf(j: Json, tokens: seq<Member>): string {
    EitherText(j, tokens, "accessToken", "access_token")
  }

  function RefreshOf(j: Json, tokens: seq<Member>): string {
    EitherText(j, tokens, "refreshToken", "refresh_token")
  }

  function ExpiryOf(j: Json, tokens: seq<Member>): Option<int> {
    EitherNumber(j, tokens, "expiresAt", "expires_at")
  }

  /** What a claude file says: its first section when that has an access token, else its second one, with the expiry of
      the first when it has none itself, else the first; and nothing when it has no section. */
  function ClaudeSays(j: Json, root: seq<Member>): Credential {
    match (Section(j, root, "claudeAiOauth"), Section(j, root, "claude_ai_oauth"))
    case (None, None) => Credential("", "", "", None)
    case (None, Some(b)) => Credential(AccessOf(j, b), RefreshOf(j, b), "", ExpiryOf(j, b))
    case (Some(a), None) => Credential(AccessOf(j, a), RefreshOf(j, a), "", ExpiryOf(j, a))
    case (Some(a), Some(b)) =>
      if AccessOf(j, a) != "" then Credential(AccessOf(j, a), RefreshOf(j, a), "", ExpiryOf(j, a))
      else
        Credential(AccessOf(j, b), RefreshOf(j, b), "",
                   if ExpiryOf(j, b).Some? then ExpiryOf(j, b) else ExpiryOf(j, a))
  }

  lemma SectionSays(j: Json, tokens: seq<Member>, cred: Credential)
    ensures ReadSection(j, tokens, cred)
         == Credential(AccessOf(j, tokens), RefreshOf(j, tokens), "",
                       if ExpiryOf(j, tokens).Some? then ExpiryOf(j, tokens) else cred.expires)
  {
    hide FirstString, FirstMillis, EitherText, EitherNumber;
    FirstOfTwo(j, tokens, "accessToken", "access_token");
    FirstOfTwo(j, tokens, "refreshToken", "refresh_token");
    FirstOfTwo(j, tokens, "expiresAt", "expires_at");
  }

  lemma OneSection(j: Json, root: seq<Member>, name: string, cred: Credential)
    requires cred.access == ""
    ensures ReadSections(j, root, [name], cred)
         == if Section(j, root, name).Some? then ReadSection(j, Section(j, root, name).value, cred) else cred
  {
    hide ReadSection, MapOf, Values;
    assert [name][1..] == [];
    assert forall c :: ReadSections(j, root, [], c) == c;
  }

  lemma TwoSections(j: Json, root: seq<Member>, a: string, b: string, cred: Credential)
    requires cred.access == ""
    ensures var first := Section(j, root, a);
            ReadSections(j, root, [a, b], cred)
            == if first.None? then ReadSections(j, root, [b], cred)
               else if ReadSection(j, first.value, cred).access != "" then ReadSection(j, first.value, cred)
               else ReadSections(j, root, [b], ReadSection(j, first.value, cred))
  {
    hide ReadSection, MapOf, Values;
    assert [a, b][1..] == [b];
  }

  lemma ClaudeReads(j: Json, data: bytes)
    ensures ParseClaude(j, data)
         == if MapOf(j, data).None? then None else Some(ClaudeSays(j, MapOf(j, data).value))
  {
    hide ReadSections, ReadSection, MapOf, AccessOf, RefreshOf, ExpiryOf, Section;
    if MapOf(j, data).Some? {
      var root := MapOf(j, data).value;
      var a, b := Section(j, root, "claudeAiOauth"), Section(j, root, "claude_ai_oauth");
      TwoSections(j, root, CLAUDE_SECTION, CLAUDE_LEGACY, NO_CREDENTIAL);
      OneSection(j, root, CLAUDE_LEGACY, NO_CREDENTIAL);
      if a.Some? {
        SectionSays(j, a.value, NO_CREDENTIAL);
        if AccessOf(j, a.value) == "" {
          OneSection(j, root, CLAUDE_LEGACY, ReadSection(j, a.value, NO_CREDENTIAL));
        }
        if b.Some? {
          SectionSays(j, b.value, ReadSection(j, a.value, NO_CREDENTIAL));
        }
      }
      if b.Some? {
        SectionSays(j, b.value, NO_CREDENTIAL);
      }
    }
  }

  // ---- Codex ----

  /** What a codex file says: the texts of its tokens; the account is the one written there, else that of the id token,
      else that of the access token. */
  function CodexSays(j: Json, root: seq<Member>): Credential {
    var found := Section(j, root, "tokens");
    var tokens := if found.Some? then found.value else [];
    var access := EitherText(j, tokens, "access_token", "accessToken");
    var id := EitherText(j, tokens, "id_token", "idToken");
    var account := EitherText(j, tokens, "account_id", "accountId");
    Credential(access, EitherText(j, tokens, "refresh_token", "refreshToken"),
               if account != "" then account
               else if j.jwtAccount(id) != "" then j.jwtAccount(id)
               else j.jwtAccount(access),
               j.jwtExpiry(access))
  }

  lemma CodexReads(j: Json, data: bytes)
    ensures ParseCodex(j, data)
         == if MapOf(j, data).None? then None else Some(CodexSays(j, MapOf(j, data).value))
  {
    hide FirstString, EitherText, MapOf;
    if MapOf(j, data).Some? {
      var root := MapOf(j, data).value;
      var found := Section(j, root, "tokens");
      var tokens := if found.Some? then found.value else [];
      FirstOfTwo(j, tokens, "access_token", "accessToken");
      FirstOfTwo(j, tokens, "refresh_token", "refreshToken");
      FirstOfTwo(j, tokens, "id_token", "idToken");
      FirstOfTwo(j, tokens, "account_id", "accountId");
    }
  }

  // ---- Full credentials and targets ----

  /** What a file says; None when it is neither an object nor null, or the tool is unknown. */
  function Says(j: Json, tool: Tool, data: bytes): Option<Credential> {
    if tool == OtherTool || MapOf(j, data).None? then None
    else Some(if tool == Claude then ClaudeSays(j, MapOf(j, data).value) else CodexSays(j, MapOf(j, data).value))
  }

  /** A full credential is one with an access and a refresh token, and for claude a readable expiry that is not zero. */
  lemma FullIff(j: Json, tool: Tool, data: bytes, cred: Credential)
    ensures ParseFull(j, tool, data) == Some(cred)
       <==> Says(j, tool, data) == Some(cred) && cred.access != "" && cred.refresh != ""
            && (tool == Claude ==> cred.expires.Some?)
  {
    hide ClaudeSays, CodexSays, MapOf, ParseClaude, ParseCodex;
    ClaudeReads(j, data);
    CodexReads(j, data);
  }

  /** A target has an access token, and for codex an account; it holds a login when it has a refresh token too. */
  lemma TargetIff(j: Json, tool: Tool, data: bytes, cred: Credential)
    ensures var usable := Says(j, tool, data) == Some(cred) && cred.access != ""
                          && (tool == Codex ==> cred.account != "");
            && (ParseTarget(j, tool, data) == TokenOnly(cred) <==> usable && cred.refresh == "")
            && (ParseTarget(j, tool, data) == HoldsLogin(cred) <==> usable && cred.refresh != "")
    ensures HasRefreshToken(j, tool, data) <==> Says(j, tool, data).Some? && Says(j, tool, data).value.refresh != ""
  {
    hide ClaudeSays, CodexSays, MapOf, ParseClaude, ParseCodex;
    ClaudeReads(j, data);
    CodexReads(j, data);
  }
}
