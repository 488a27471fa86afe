/** What a strip makes of any document: the refresh tokens go, and nothing else. */
module StripLaws {
  import opened Bytes
  import opened Library
  import opened Editor
  import opened Edits
  import opened EditLaws
  import opened Builders
  import opened SectionLaws
  import opened BuilderLaws
  import opened TargetLaws

  // ---- One section ----

  /** The section called `name` holds `p`, and every other name of the document what it held. */
  ghost predicate IsReplaced(j: Json, doc: Object, d: Object, name: string, p: Object) {
    && WellFormed(j, d) && Parse(j, PrintObject(p)) == Ok(p)
    && forall n :: Values(d.members, n) == if n == name then [PrintObject(p)] else Values(doc.members, n)
  }

  lemma SectionIsReplaced(j: Json, doc: Object, name: string, p: Object)
    requires WellFormed(j, doc) && WellFormed(j, p) && IsTight(p)
    ensures IsReplaced(j, doc, Set(j, doc, name, PrintObject(p)), name, p)
  {
    hide WellFormed, Values, Parse, PrintObject, IsTight;
    TightIsValue(j, p);
    ParsePrinted(j, p);
    SetKeepsWellFormed(j, doc, name, PrintObject(p));
    forall n
      ensures Values(Set(j, doc, name, PrintObject(p)).members, n)
           == if n == name then [PrintObject(p)] else Values(doc.members, n)
    {
      ValuesSet(j, doc, name, PrintObject(p), n);
    }
  }

  lemma FoundIsGood(j: Json, doc: Object, name: string)
    requires WellFormed(j, doc) && Lookup(doc, name).Some? && Parse(j, Lookup(doc, name).value).Ok?
    ensures WellFormed(j, Parse(j, Lookup(doc, name).value).value) && IsTight(Parse(j, Lookup(doc, name).value).value)
  {
    LookupIsValue(j, doc, name);
    ParsedValueIsTight(j, Lookup(doc, name).value);
  }

  // ---- Claude ----

  /** Under a section name: nothing when there was nothing, else one object with the fields of the first value, without
      the refresh tokens. */
  predicate IsBare(j: Json, was: seq<bytes>, now: seq<bytes>, n: string) {
    if was == [] then now == []
    else
      |now| == 1 && Parse(j, now[0]).Ok?
      && Values(MembersIn(j, now[0]), n)
         == if n == "refreshToken" || n == "refresh_token" then [] else Values(MembersIn(j, was[0]), n)
  }

  ghost predicate IsStripped(j: Json, data: bytes, out: bytes) {
    var was, now := MembersIn(j, data), MembersIn(j, out);
    && Parse(j, out).Ok?
    && (forall n | n != "claudeAiOauth" && n != "claude_ai_oauth" :: Values(now, n) == Values(was, n))
    && (forall n :: IsBare(j, Values(was, "claudeAiOauth"), Values(now, "claudeAiOauth"), n))
    && (forall n :: IsBare(j, Values(was, "claude_ai_oauth"), Values(now, "claude_ai_oauth"), n))
  }

  /** A value that, if it is there, is an object. */
  predicate CanStrip(j: Json, vs: seq<bytes>) {
    vs != [] ==> Parse(j, vs[0]).Ok?
  }

  /** One section stripped, if it is there. */
  function StripNamed(j: Json, doc: Object, name: string): Object
    requires CanStrip(j, Values(doc.members, name))
  {
    var vs := Values(doc.members, name);
    if vs == [] then doc
    else Set(j, doc, name, PrintObject(DeleteEach(Parse(j, vs[0]).value, CLAUDE_REFRESH)))
  }

  lemma NamedIsStripped(j: Json, doc: Object, name: string)
    requires WellFormed(j, doc) && CanStrip(j, Values(doc.members, name))
    ensures var d := StripNamed(j, doc, name);
            && WellFormed(j, d) && (forall n | n != name :: Values(d.members, n) == Values(doc.members, n))
            && (forall n :: IsBare(j, Values(doc.members, name), Values(d.members, name), n))
  {
    hide WellFormed, Values, Parse, PrintObject, IsTight, DeleteEach, Set;
    LookupIsFirst(doc, name);
    if Values(doc.members, name) != [] {
      FoundIsGood(j, doc, name);
      var section := Parse(j, Lookup(doc, name).value).value;
      var p := DeleteEach(section, CLAUDE_REFRESH);
      DeleteEachKeeps(j, section, CLAUDE_REFRESH);
      SameEndsTight(section, p);
      SectionIsReplaced(j, doc, name, p);
      forall n ensures Values(p.members, n) == if n in CLAUDE_REFRESH then [] else Values(section.members, n) {
        DeleteEachValues(section, CLAUDE_REFRESH, n);
      }
      assert forall n :: n in CLAUDE_REFRESH <==> n == "refreshToken" || n == "refresh_token";
    }
  }

  lemma SameEndsTight(a: Object, b: Object)
    requires IsTight(a) && a.prefix == b.prefix && a.tail == b.tail
    ensures IsTight(b)
  {
  }

  /** What is stripped, section by section. */
  lemma StripIsTwo(j: Json, doc: Object)
    requires WellFormed(j, doc)
    ensures var r := StripSections(j, doc, [CLAUDE_SECTION, CLAUDE_LEGACY]);
            && (r.Ok? <==> CanStrip(j, Values(doc.members, CLAUDE_SECTION))
                           && CanStrip(j, Values(doc.members, CLAUDE_LEGACY)))
            && (r.Ok? ==> CanStrip(j, Values(StripNamed(j, doc, CLAUDE_SECTION).members, CLAUDE_LEGACY))
                          && r.value == StripNamed(j, StripNamed(j, doc, CLAUDE_SECTION), CLAUDE_LEGACY))
  {
    hide WellFormed, Values, Parse, PrintObject, DeleteEach, Set, Lookup;
    var names := [CLAUDE_SECTION, CLAUDE_LEGACY];
    assert names[1..] == [CLAUDE_LEGACY] && [CLAUDE_LEGACY][1..] == [];
    LookupIsFirst(doc, CLAUDE_SECTION);
    if CanStrip(j, Values(doc.members, CLAUDE_SECTION)) {
      NamedIsStripped(j, doc, CLAUDE_SECTION);
      var d := StripNamed(j, doc, CLAUDE_SECTION);
      LookupIsFirst(d, CLAUDE_LEGACY);
      OneIsStripped(j, d, CLAUDE_LEGACY);
    }
  }

  lemma OneIsStripped(j: Json, d: Object, name: string)
    ensures var r := StripSections(j, d, [name]);
            if CanStrip(j, Values(d.members, name)) then r == Ok(StripNamed(j, d, name)) else r.Err?
  {
    hide Values, Parse, PrintObject, DeleteEach, Set, Lookup;
    LookupIsFirst(d, name);
    assert [name][1..] == [];
    assert forall o :: StripSections(j, o, []) == Ok(o);
  }

  /** A claude document can be stripped when it is an object and so are its sections; what comes out is it without the
      refresh tokens of either section. */
  lemma ClaudeStripIs(j: Json, data: bytes)
    ensures var r, ms := StripRefreshToken(j, Claude, data), MembersIn(j, data);
            && (r.Ok? <==> Parse(j, data).Ok? && CanStrip(j, Values(ms, "claudeAiOauth"))
                           && CanStrip(j, Values(ms, "claude_ai_oauth")))
            && (r.Ok? ==> IsStripped(j, data, r.value))
  {
    hide Values, Parse, PrintObject, WellFormed, StripNamed, StripSections, CanStrip, IsBare;
    if Parse(j, data).Ok? {
      ParseIsExact(j, data);
      var doc := Parse(j, data).value;
      StripIsTwo(j, doc);
      if StripSections(j, doc, [CLAUDE_SECTION, CLAUDE_LEGACY]).Ok? {
        var d := StripNamed(j, doc, CLAUDE_SECTION);
        NamedIsStripped(j, doc, CLAUDE_SECTION);
        NamedIsStripped(j, d, CLAUDE_LEGACY);
        ParsePrinted(j, StripNamed(j, d, CLAUDE_LEGACY));
      }
    }
  }

  // ---- Codex ----

  /** The tokens, if there are any, have an empty refresh token and no second spelling of it. */
  predicate IsEmptied(j: Json, was: seq<bytes>, now: seq<bytes>, n: string) {
    if was == [] then now == []
    else
      |now| == 1 && Parse(j, now[0]).Ok?
      && Values(MembersIn(j, now[0]), n)
         == if n == "refresh_token" then [[QUOTE, QUOTE]] else if n == "refreshToken" then []
            else Values(MembersIn(j, was[0]), n)
  }

  lemma TokensAreEmptied(j: Json, doc: Object, raw: bytes)
    requires WellFormed(j, doc) && Lookup(doc, CODEX_TOKENS) == Some(raw) && Parse(j, raw).Ok?
    ensures var p := Set(j, Delete(Parse(j, raw).value, "refreshToken"), CODEX_REFRESH, EMPTY_STRING);
            && IsReplaced(j, doc, Set(j, doc, CODEX_TOKENS, PrintObject(p)), CODEX_TOKENS, p)
            && forall n :: Values(p.members, n)
                           == if n == "refresh_token" then [[QUOTE, QUOTE]] else if n == "refreshToken" then []
                              else Values(Parse(j, raw).value.members, n)
  {
    hide WellFormed, Values, Parse, PrintObject, IsTight, IsReplaced;
    FoundIsGood(j, doc, CODEX_TOKENS);
    var tokens := Parse(j, raw).value;
    var bare := Delete(tokens, "refreshToken");
    var p := Set(j, bare, CODEX_REFRESH, EMPTY_STRING);
    EmptyStringIsValue();
    DeleteKeepsWellFormed(j, tokens, {"refreshToken"});
    SetKeepsWellFormed(j, bare, CODEX_REFRESH, EMPTY_STRING);
    SetKeepsOthers(j, bare, CODEX_REFRESH, EMPTY_STRING);
    SameEndsTight(tokens, p);
    SectionIsReplaced(j, doc, CODEX_TOKENS, p);
    forall n ensures Values(p.members, n)
                     == if n == "refresh_token" then [[QUOTE, QUOTE]] else if n == "refreshToken" then []
                        else Values(tokens.members, n)
    {
      ValuesDelete(tokens, {"refreshToken"}, n);
      ValuesSet(j, bare, CODEX_REFRESH, EMPTY_STRING, n);
    }
  }

  /** A codex document can be stripped when it is an object and so are its tokens. */
  lemma CodexStripIs(j: Json, data: bytes)
    ensures var r, ms := StripRefreshToken(j, Codex, data), MembersIn(j, data);
            && (r.Ok? <==> Parse(j, data).Ok? && CanStrip(j, Values(ms, "tokens")))
            && (r.Ok? ==>
                  && Parse(j, r.value).Ok? && (Values(ms, "tokens") == [] ==> r.value == data)
                  && (forall n | n != "tokens" :: Values(MembersIn(j, r.value), n) == Values(ms, n))
                  && (forall n :: IsEmptied(j, Values(ms, "tokens"), Values(MembersIn(j, r.value), "tokens"), n)))
  {
    hide Values, Parse, PrintObject, WellFormed, Set, Delete, Lookup;
    if Parse(j, data).Ok? {
      ParseIsExact(j, data);
      var doc := Parse(j, data).value;
      LookupIsFirst(doc, CODEX_TOKENS);
      if Lookup(doc, CODEX_TOKENS).Some? && Parse(j, Lookup(doc, CODEX_TOKENS).value).Ok? {
        var raw := Lookup(doc, CODEX_TOKENS).value;
        TokensAreEmptied(j, doc, raw);
        var p := Set(j, Delete(Parse(j, raw).value, "refreshToken"), CODEX_REFRESH, EMPTY_STRING);
        ParsePrinted(j, Set(j, doc, CODEX_TOKENS, PrintObject(p)));
      }
    }
  }
}
