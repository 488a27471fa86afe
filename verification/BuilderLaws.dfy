/** The laws of the builders: building again changes nothing, and stripping or rebuilding undoes a full build. */
module BuilderLaws {
  import opened Bytes
  import opened Grammar
  import opened Compaction
  import opened Library
  import opened Editor
  import opened Edits
  import opened EditLaws
  import opened Builders
  import opened SectionLaws

  // ---- Objects that are values of a member ----

  /** Nothing stands outside the braces. */
  predicate IsTight(o: Object) {
    o.prefix == [OPEN_BRACE] && o.tail != [] && IndexByte(o.tail, CLOSE_BRACE) == |o.tail| - 1
  }

  lemma TightIsValue(j: Json, o: Object)
    requires WellFormed(j, o) && IsTight(o)
    ensures IsValue(PrintObject(o))
  {
    var k := |o.tail| - 1;
    var c := ChildrenOf(j, o.members, o.tail[..k], true);
    var v := Nest(true, c);
    assert Good(v);
    assert o.tail == o.tail[..k] + [CLOSE_BRACE];
    BracePieces(PrintMembers(o.members), o.tail[..k]);
  }

  lemma BracePieces(ms: bytes, pad: bytes)
    ensures [OPEN_BRACE] + (ms + pad) + [CLOSE_BRACE] == [OPEN_BRACE] + ms + (pad + [CLOSE_BRACE])
  {
  }

  lemma PrefixStart(p: bytes)
    requires IsPrefix(p)
    ensures p == [OPEN_BRACE] || IsSpace(p[0])
  {
    if |p| > 1 { assert p[0] == p[..|p| - 1][0]; }
  }

  lemma TailEnd(t: bytes)
    requires IsTail(t)
    ensures IndexByte(t, CLOSE_BRACE) == |t| - 1 || IsSpace(t[|t| - 1])
  {
    var i := IndexByte(t, CLOSE_BRACE);
    if i < |t| - 1 { assert t[|t| - 1] == t[i + 1..][|t| - i - 2]; }
  }

  lemma TightFromEnds(j: Json, o: Object)
    requires WellFormed(j, o)
    requires PrintObject(o)[0] == OPEN_BRACE && PrintObject(o)[|PrintObject(o)| - 1] == CLOSE_BRACE
    ensures IsTight(o)
  {
    var s := PrintObject(o);
    PrefixStart(o.prefix);
    TailEnd(o.tail);
    assert s[0] == o.prefix[0] && s[|s| - 1] == o.tail[|o.tail| - 1];
  }

  /** A value that parses as an object starts and ends with its braces. */
  lemma ParsedValueEnds(j: Json, raw: bytes, v: Value)
    requires Good(v) && Print(v) == raw && Parse(j, raw).Ok?
    ensures raw != [] && raw[0] == OPEN_BRACE && raw[|raw| - 1] == CLOSE_BRACE
  {
    assert [] + raw + [] == raw;
    assert IsTextOf(raw, [], v, []);
    TextIsObjectOrNot(raw, [], v, []);
  }

  lemma ParsedValueIsTight(j: Json, raw: bytes)
    requires IsValue(raw) && Parse(j, raw).Ok?
    ensures WellFormed(j, Parse(j, raw).value) && IsTight(Parse(j, raw).value)
  {
    var v :| Good(v) && Print(v) == raw;
    ParsedValueEnds(j, raw, v);
    ParseIsExact(j, raw);
    TightFromEnds(j, Parse(j, raw).value);
  }

  lemma LookupIsValue(j: Json, o: Object, name: string)
    requires WellFormed(j, o) && Lookup(o, name).Some?
    ensures IsValue(Lookup(o, name).value)
  {
    var i := Index(o.members, name);
    assert MemberOk(j, o.members[i], true && i == 0);
  }

  // ---- Documents ----

  lemma {:induction false} BraceIsNotBlank(w: bytes, r: bytes)
    requires AllSpace(w) && r != [] && r[0] == OPEN_BRACE
    ensures !IsBlank(w + r)
  {
    if w == [] {
      assert w + r == r;
    } else {
      assert (w + r)[1..] == w[1..] + r;
      BraceIsNotBlank(w[1..], r);
    }
  }

  lemma PrintedIsNotBlank(j: Json, o: Object)
    requires WellFormed(j, o)
    ensures !IsBlank(PrintObject(o)) && PrintObject(o) != NULL
  {
    var k := |o.prefix| - 1;
    ObjectPieces(o.prefix[..k], PrintMembers(o.members), o.tail);
    assert o.prefix == o.prefix[..k] + [OPEN_BRACE];
    BraceIsNotBlank(o.prefix[..k], [OPEN_BRACE] + (PrintMembers(o.members) + o.tail));
    assert PrintObject(o)[k] == OPEN_BRACE;
  }

  /** Opening a file gives well-formed objects. */
  lemma OpenIsGood(j: Json, existing: bytes, section: string, legacy: string)
    requires OpenDocument(j, existing, section, legacy).Ok?
    ensures var file := OpenDocument(j, existing, section, legacy).value;
            && WellFormed(j, file.doc)
            && (file.base.Some? ==> WellFormed(j, file.base.value) && IsTight(file.base.value))
            && (legacy != "" && !file.hasLegacy ==> Values(file.doc.members, legacy) == [])
            && (IsBlank(existing) ==> file.base.None?)
            && (!IsBlank(existing) ==> PrintObject(file.doc) == existing)
  {
    if IsBlank(existing) {
      ParseIsExact(j, NEW_DOCUMENT);
      NewDocumentIsEmpty(j);
    } else {
      ParseIsExact(j, existing);
      var doc := Parse(j, existing).value;
      FirstSectionIsGood(j, doc, if legacy == "" then [section] else [section, legacy]);
      LookupIsFirst(doc, legacy);
    }
  }

  lemma NewDocumentIsEmpty(j: Json)
    ensures Parse(j, NEW_DOCUMENT) == Ok(Object([OPEN_BRACE], [], [NEWLINE, CLOSE_BRACE]))
  {
    var o := Object([OPEN_BRACE], [], [NEWLINE, CLOSE_BRACE]);
    assert o.tail[..1] == [NEWLINE] && o.tail[2..] == [];
    assert IndexByte(o.tail, CLOSE_BRACE) == 1;
    assert PrintObject(o) == NEW_DOCUMENT;
    ParsePrinted(j, o);
  }

  lemma {:induction false} FirstSectionIsGood(j: Json, doc: Object, names: seq<string>)
    requires WellFormed(j, doc) && FirstSection(j, doc, names).Ok?
    ensures var base := FirstSection(j, doc, names).value;
            base.Some? ==> WellFormed(j, base.value) && IsTight(base.value)
  {
    if names != [] {
      var raw := Lookup(doc, names[0]);
      if raw == None || raw == Some(NULL) {
        FirstSectionIsGood(j, doc, names[1..]);
      } else {
        LookupIsValue(j, doc, names[0]);
        ParsedValueIsTight(j, raw.value);
      }
    }
  }

  lemma SectionIsGood(j: Json, existing: bytes, section: string, legacy: string)
    requires OpenDocument(j, existing, section, legacy).Ok?
    requires Section(j, OpenDocument(j, existing, section, legacy).value).Some?
    ensures var s := Section(j, OpenDocument(j, existing, section, legacy).value).value;
            WellFormed(j, s) && IsTight(s)
  {
    var file := OpenDocument(j, existing, section, legacy).value;
    OpenIsGood(j, existing, section, legacy);
    if file.base.None? {
      var text := EmptyText(file.doc);
      ParseIsExact(j, text);
      TightFromEnds(j, Parse(j, text).value);
    }
  }

  /** Opening a printed document whose section is a printed object finds both again. */
  lemma OpenPrinted(j: Json, doc: Object, section: string, legacy: string, p: Object)
    requires WellFormed(j, doc) && WellFormed(j, p)
    requires Values(doc.members, section) == [PrintObject(p)]
    requires legacy != "" ==> Values(doc.members, legacy) == []
    ensures OpenDocument(j, PrintObject(doc), section, legacy) == Ok(OpenFile(doc, Some(p), false))
  {
    PrintedIsNotBlank(j, doc);
    PrintedIsNotBlank(j, p);
    ParsePrinted(j, doc);
    ParsePrinted(j, p);
    LookupIsFirst(doc, section);
    LookupIsFirst(doc, legacy);
  }

  // ---- What a build leaves ----

  /** `doc` prints `data`, and its only section is the printed object `s`. */
  ghost predicate Holds(j: Json, data: bytes, doc: Object, section: string, s: Object) {
    WellFormed(j, doc) && WellFormed(j, s) && IsTight(s)
    && PrintObject(doc) == data && Values(doc.members, section) == [PrintObject(s)]
  }

  lemma HoldsAfterSet(j: Json, doc: Object, section: string, s: Object)
    requires WellFormed(j, doc) && WellFormed(j, s) && IsTight(s)
    ensures var d := Set(j, doc, section, PrintObject(s)); Holds(j, PrintObject(d), d, section, s)
  {
    TightIsValue(j, s);
    SetKeepsWellFormed(j, doc, section, PrintObject(s));
    ValuesSet(j, doc, section, PrintObject(s), section);
  }

  lemma CredentialFieldsOk(j: Json, full: bytes, name: string, legacy: string, aliases: map<string, string>,
                           refresh: seq<string>)
    requires CredentialSection(j, full, name, legacy).Ok?
    ensures var fields := Collect(CredentialSection(j, full, name, legacy).value.members, aliases, refresh);
            FieldsOk(fields) && forall n | n in refresh :: n !in fields
  {
    ParseIsExact(j, full);
    var doc := Parse(j, full).value;
    var raw := LookupEither(doc, name, legacy).value;
    ParseIsExact(j, raw);
    var ms := Parse(j, raw).value.members;
    forall i | 0 <= i < |ms| ensures IsValue(ms[i].value) {
      assert MemberOk(j, ms[i], true && i == 0);
    }
    CollectIsOk(j, ms, true, aliases, refresh);
  }

  ghost predicate ClaudeHolds(j: Json, data: bytes, fields: map<string, bytes>, doc: Object, s: Object) {
    && Holds(j, data, doc, CLAUDE_SECTION, s) && Values(doc.members, CLAUDE_LEGACY) == []
    && ClaudeSettled(s, fields) && (forall n | n in CLAUDE_REFRESH :: n !in fields)
  }

  /** What a claude build leaves: one section, settled, and no legacy section. */
  lemma ClaudeBuilt(j: Json, existing: bytes, full: bytes) returns (doc: Object, s: Object)
    requires BuildClaude(j, existing, full).Ok?
    ensures ClaudeHolds(j, BuildClaude(j, existing, full).value, ClaudeFields(j, full).value, doc, s)
    ensures var file := OpenDocument(j, existing, CLAUDE_SECTION, CLAUDE_LEGACY).value;
            && Section(j, file).Some? && s == ClaudeSection(j, Section(j, file).value, ClaudeFields(j, full).value)
            && doc == ClaudeDocument(j, file, PrintObject(s))
  {
    var fields := ClaudeFields(j, full).value;
    var file := OpenDocument(j, existing, CLAUDE_SECTION, CLAUDE_LEGACY).value;
    var base := Section(j, file).value;
    CredentialFieldsOk(j, full, CLAUDE_SECTION, CLAUDE_LEGACY, CLAUDE_ALIASES, CLAUDE_REFRESH);
    OpenIsGood(j, existing, CLAUDE_SECTION, CLAUDE_LEGACY);
    SectionIsGood(j, existing, CLAUDE_SECTION, CLAUDE_LEGACY);
    s := ClaudeSection(j, base, fields);
    ClaudeSectionKeeps(j, base, fields);
    ClaudeSectionSettles(j, base, fields);
    HoldsAfterSet(j, file.doc, CLAUDE_SECTION, s);
    var d := Set(j, file.doc, CLAUDE_SECTION, PrintObject(s));
    doc := if file.hasLegacy then Delete(d, CLAUDE_LEGACY) else d;
    ValuesSet(j, file.doc, CLAUDE_SECTION, PrintObject(s), CLAUDE_LEGACY);
    HoldsAfterDelete(j, d, CLAUDE_SECTION, s, CLAUDE_LEGACY);
  }

  lemma HoldsAfterDelete(j: Json, d: Object, section: string, s: Object, legacy: string)
    requires Holds(j, PrintObject(d), d, section, s) && section != legacy
    ensures var doc := Delete(d, legacy);
            Holds(j, PrintObject(doc), doc, section, s) && Values(doc.members, legacy) == []
  {
    DeleteKeepsWellFormed(j, d, {legacy});
    ValuesDelete(d, {legacy}, section);
    ValuesDelete(d, {legacy}, legacy);
  }

  /** Building over a document that holds section `p` where the build makes `s` of `p`. */
  lemma ClaudeAgain(j: Json, full: bytes, doc: Object, p: Object, s: Object)
    requires ClaudeFields(j, full).Ok?
    requires Holds(j, PrintObject(doc), doc, CLAUDE_SECTION, p) && Values(doc.members, CLAUDE_LEGACY) == []
    requires ClaudeSection(j, p, ClaudeFields(j, full).value) == s
    ensures BuildClaude(j, PrintObject(doc), full) == Ok(PrintObject(Set(j, doc, CLAUDE_SECTION, PrintObject(s))))
  {
    OpenPrinted(j, doc, CLAUDE_SECTION, CLAUDE_LEGACY, p);
  }

  ghost predicate CodexHolds(j: Json, data: bytes, fields: map<string, bytes>, lastRefresh: Option<bytes>, doc: Object,
                             s: Object) {
    && Holds(j, data, doc, CODEX_TOKENS, s) && CodexSettled(s, fields)
    && Values(doc.members, CODEX_AUTH_MODE) == [CODEX_MODE_VALUE]
    && Values(doc.members, CODEX_LAST_REFRESH) == if lastRefresh.Some? then [lastRefresh.value] else []
  }

  lemma ModeIsValue(j: Json)
    ensures IsString(CODEX_MODE_VALUE) && IsValue(CODEX_MODE_VALUE)
  {
    assert IsPlain(CODEX_MODE) && EncodeIsExact(j, CODEX_MODE) && j.encode(CODEX_MODE) == CODEX_MODE_VALUE;
    assert Good(Quoted(CODEX_MODE_VALUE)) && Print(Quoted(CODEX_MODE_VALUE)) == CODEX_MODE_VALUE;
  }

  lemma LastRefreshIsValue(j: Json, full: bytes)
    ensures LastRefresh(j, full).Some? ==> IsValue(LastRefresh(j, full).value)
  {
    if LastRefresh(j, full).Some? {
      ParseIsExact(j, full);
      LookupIsValue(j, Parse(j, full).value, CODEX_LAST_REFRESH);
      CompactKeepsValue(Lookup(Parse(j, full).value, CODEX_LAST_REFRESH).value);
    }
  }

  function CodexValues(doc: Object, tokens: bytes, lastRefresh: Option<bytes>, n: string): seq<bytes> {
    if n == CODEX_LAST_REFRESH then (if lastRefresh.Some? then [lastRefresh.value] else [])
    else if n == CODEX_TOKENS then [tokens]
    else if n == CODEX_AUTH_MODE then [CODEX_MODE_VALUE]
    else Values(doc.members, n)
  }

  /** Each of the three names the server writes around the tokens has its one value, every other name what it had. */
  lemma CodexDocumentValues(j: Json, doc: Object, tokens: bytes, lastRefresh: Option<bytes>, n: string)
    ensures Values(CodexDocument(j, doc, tokens, lastRefresh).members, n) == CodexValues(doc, tokens, lastRefresh, n)
  {
    var d1 := Set(j, doc, CODEX_AUTH_MODE, CODEX_MODE_VALUE);
    var d2 := Set(j, d1, CODEX_TOKENS, tokens);
    ValuesSet(j, doc, CODEX_AUTH_MODE, CODEX_MODE_VALUE, n);
    ValuesSet(j, d1, CODEX_TOKENS, tokens, n);
    match lastRefresh {
      case Some(v) => ValuesSet(j, d2, CODEX_LAST_REFRESH, v, n);
      case None => ValuesDelete(d2, {CODEX_LAST_REFRESH}, n);
    }
  }

  lemma CodexDocumentKeeps(j: Json, doc: Object, tokens: bytes, lastRefresh: Option<bytes>)
    requires WellFormed(j, doc) && IsValue(tokens)
    requires lastRefresh.Some? ==> IsValue(lastRefresh.value)
    ensures WellFormed(j, CodexDocument(j, doc, tokens, lastRefresh))
  {
    var d1 := Set(j, doc, CODEX_AUTH_MODE, CODEX_MODE_VALUE);
    var d2 := Set(j, d1, CODEX_TOKENS, tokens);
    ModeIsValue(j);
    SetKeepsWellFormed(j, doc, CODEX_AUTH_MODE, CODEX_MODE_VALUE);
    SetKeepsWellFormed(j, d1, CODEX_TOKENS, tokens);
    match lastRefresh {
      case Some(v) => SetKeepsWellFormed(j, d2, CODEX_LAST_REFRESH, v);
      case None => DeleteKeepsWellFormed(j, d2, {CODEX_LAST_REFRESH});
    }
  }

  lemma CodexBuilt(j: Json, existing: bytes, full: bytes) returns (doc: Object, s: Object)
    requires BuildCodex(j, existing, full).Ok?
    ensures var (fields, last) := CodexFields(j, full).value;
            CodexHolds(j, BuildCodex(j, existing, full).value, fields, last, doc, s)
    ensures var file := OpenDocument(j, existing, CODEX_TOKENS, "").value;
            && Section(j, file).Some? && s == CodexSection(j, Section(j, file).value, CodexFields(j, full).value.0)
            && doc == CodexDocument(j, file.doc, PrintObject(s), CodexFields(j, full).value.1)
  {
    var (fields, lastRefresh) := CodexFields(j, full).value;
    var file := OpenDocument(j, existing, CODEX_TOKENS, "").value;
    var base := Section(j, file).value;
    CredentialFieldsOk(j, full, CODEX_TOKENS, CODEX_TOKENS, CODEX_ALIASES, [CODEX_REFRESH]);
    OpenIsGood(j, existing, CODEX_TOKENS, "");
    SectionIsGood(j, existing, CODEX_TOKENS, "");
    s := CodexSection(j, base, fields);
    CodexSectionKeeps(j, base, fields);
    CodexSectionSettles(j, base, fields);
    LastRefreshIsValue(j, full);
    TightIsValue(j, s);
    CodexDocumentKeeps(j, file.doc, PrintObject(s), lastRefresh);
    doc := CodexDocument(j, file.doc, PrintObject(s), lastRefresh);
    CodexDocumentValues(j, file.doc, PrintObject(s), lastRefresh, CODEX_TOKENS);
    CodexDocumentValues(j, file.doc, PrintObject(s), lastRefresh, CODEX_AUTH_MODE);
    CodexDocumentValues(j, file.doc, PrintObject(s), lastRefresh, CODEX_LAST_REFRESH);
  }

  /** Around a document that already has the mode and the last refresh, only the tokens are set. */
  lemma CodexDocumentAgain(j: Json, doc: Object, tokens: bytes, last: Option<bytes>)
    requires Values(doc.members, CODEX_AUTH_MODE) == [CODEX_MODE_VALUE]
    requires Values(doc.members, CODEX_LAST_REFRESH) == if last.Some? then [last.value] else []
    ensures CodexDocument(j, doc, tokens, last) == Set(j, doc, CODEX_TOKENS, tokens)
  {
    SetNothing(j, doc, CODEX_AUTH_MODE, CODEX_MODE_VALUE);
    var d := Set(j, doc, CODEX_TOKENS, tokens);
    ValuesSet(j, doc, CODEX_TOKENS, tokens, CODEX_LAST_REFRESH);
    match last {
      case Some(v) => SetNothing(j, d, CODEX_LAST_REFRESH, v);
      case None => DeleteNothing(d, {CODEX_LAST_REFRESH});
    }
  }

  lemma CodexAgain(j: Json, full: bytes, doc: Object, p: Object, s: Object)
    requires CodexFields(j, full).Ok?
    requires Holds(j, PrintObject(doc), doc, CODEX_TOKENS, p)
    requires CodexSection(j, p, CodexFields(j, full).value.0) == s
    requires Values(doc.members, CODEX_AUTH_MODE) == [CODEX_MODE_VALUE]
    requires var last := CodexFields(j, full).value.1;
             Values(doc.members, CODEX_LAST_REFRESH) == if last.Some? then [last.value] else []
    ensures BuildCodex(j, PrintObject(doc), full) == Ok(PrintObject(Set(j, doc, CODEX_TOKENS, PrintObject(s))))
  {
    OpenPrinted(j, doc, CODEX_TOKENS, "", p);
    CodexDocumentAgain(j, doc, PrintObject(s), CodexFields(j, full).value.1);
  }

  // ---- The laws ----

  /** Building a target from its own output and the same credential gives the same bytes. */
  lemma BuildIsIdempotent(j: Json, tool: Tool, existing: bytes, full: bytes)
    requires BuildTarget(j, tool, existing, full).Ok?
    ensures var built := BuildTarget(j, tool, existing, full); BuildTarget(j, tool, built.value, full) == built
  {
    if tool == Claude {
      var doc, s := ClaudeBuilt(j, existing, full);
      ClaudeSectionIsFixed(j, s, ClaudeFields(j, full).value);
      ClaudeAgain(j, full, doc, s, s);
      SetNothing(j, doc, CLAUDE_SECTION, PrintObject(s));
    } else {
      var doc, s := CodexBuilt(j, existing, full);
      CodexSectionIsFixed(j, s, CodexFields(j, full).value.0);
      CodexAgain(j, full, doc, s, s);
      SetNothing(j, doc, CODEX_TOKENS, PrintObject(s));
    }
  }

  lemma RefreshIsValue(j: Json, tool: Tool, full: bytes)
    ensures ClaudeRefresh(j, full).Ok? ==> IsValue(ClaudeRefresh(j, full).value)
    ensures CodexRefresh(j, full).Ok? ==> IsValue(CodexRefresh(j, full).value)
  {
    if ClaudeRefresh(j, full).Ok? {
      RefreshFieldIsValue(j, full, CLAUDE_SECTION, CLAUDE_LEGACY, "refreshToken");
      RefreshFieldIsValue(j, full, CLAUDE_SECTION, CLAUDE_LEGACY, "refresh_token");
    }
    if CodexRefresh(j, full).Ok? {
      RefreshFieldIsValue(j, full, CODEX_TOKENS, CODEX_TOKENS, CODEX_REFRESH);
    }
  }

  lemma RefreshFieldIsValue(j: Json, full: bytes, name: string, legacy: string, key: string)
    requires CredentialSection(j, full, name, legacy).Ok?
    ensures var raw := Lookup(CredentialSection(j, full, name, legacy).value, key); raw.Some? ==> IsValue(raw.value)
  {
    ParseIsExact(j, LookupEither(Parse(j, full).value, name, legacy).value);
    if Lookup(CredentialSection(j, full, name, legacy).value, key).Some? {
      LookupIsValue(j, CredentialSection(j, full, name, legacy).value, key);
    }
  }

  /** A full build is the token-only build with one field set in its section. */
  lemma FullIsBuiltAndSet(j: Json, built: bytes, doc: Object, section: string, s: Object, key: string, refresh: bytes)
    requires Holds(j, built, doc, section, s) && IsValue(refresh)
    ensures var p := Set(j, s, key, refresh);
            var d := Set(j, doc, section, PrintObject(p));
            && SetInSection(j, built, section, key, refresh) == Ok(PrintObject(d))
            && Holds(j, PrintObject(d), d, section, p)
            && Set(j, d, section, PrintObject(s)) == doc
  {
    OpenPrinted(j, doc, section, "", s);
    var p := Set(j, s, key, refresh);
    SetKeepsWellFormed(j, s, key, refresh);
    SetKeepsOthers(j, s, key, refresh);
    HoldsAfterSet(j, doc, section, p);
    SetTwice(j, doc, section, PrintObject(p), PrintObject(s));
    SetNothing(j, doc, section, PrintObject(s));
  }

  /** Building token-only over the full form gives the bytes of the token-only form, for both tools. */
  lemma RebuildUndoesFull(j: Json, tool: Tool, existing: bytes, full: bytes)
    requires BuildFullTarget(j, tool, existing, full).Ok?
    ensures BuildTarget(j, tool, BuildFullTarget(j, tool, existing, full).value, full)
            == BuildTarget(j, tool, existing, full)
  {
    RefreshIsValue(j, tool, full);
    var built := BuildTarget(j, tool, existing, full).value;
    if tool == Claude {
      var doc, s := ClaudeBuilt(j, existing, full);
      var refresh := ClaudeRefresh(j, full).value;
      var p := Set(j, s, "refreshToken", refresh);
      FullIsBuiltAndSet(j, built, doc, CLAUDE_SECTION, s, "refreshToken", refresh);
      ClaudeRefreshIsUndone(j, s, ClaudeFields(j, full).value, refresh);
      ValuesSet(j, doc, CLAUDE_SECTION, PrintObject(p), CLAUDE_LEGACY);
      ClaudeAgain(j, full, Set(j, doc, CLAUDE_SECTION, PrintObject(p)), p, s);
    } else {
      var doc, s := CodexBuilt(j, existing, full);
      var refresh := CodexRefresh(j, full).value;
      var p := Set(j, s, CODEX_REFRESH, refresh);
      FullIsBuiltAndSet(j, built, doc, CODEX_TOKENS, s, CODEX_REFRESH, refresh);
      CodexRefreshIsUndone(j, s, CodexFields(j, full).value.0, refresh);
      ValuesSet(j, doc, CODEX_TOKENS, PrintObject(p), CODEX_AUTH_MODE);
      ValuesSet(j, doc, CODEX_TOKENS, PrintObject(p), CODEX_LAST_REFRESH);
      CodexAgain(j, full, Set(j, doc, CODEX_TOKENS, PrintObject(p)), p, s);
    }
  }

  lemma StripHeldClaude(j: Json, doc: Object, p: Object)
    requires Holds(j, PrintObject(doc), doc, CLAUDE_SECTION, p) && Values(doc.members, CLAUDE_LEGACY) == []
    ensures StripClaude(j, PrintObject(doc))
         == Ok(PrintObject(Set(j, doc, CLAUDE_SECTION, PrintObject(DeleteEach(p, CLAUDE_REFRESH)))))
  {
    hide Parse, PrintObject, Set, DeleteEach, Lookup, WellFormed;
    ParsePrinted(j, doc);
    ParsePrinted(j, p);
    LookupIsFirst(doc, CLAUDE_SECTION);
    var stripped := PrintObject(DeleteEach(p, CLAUDE_REFRESH));
    ValuesSet(j, doc, CLAUDE_SECTION, stripped, CLAUDE_LEGACY);
    LookupIsFirst(Set(j, doc, CLAUDE_SECTION, stripped), CLAUDE_LEGACY);
    StripFirstOfTwo(j, doc, p, CLAUDE_SECTION, CLAUDE_LEGACY);
  }

  /** When only the first of two sections is there, it is stripped. */
  lemma StripFirstOfTwo(j: Json, doc: Object, p: Object, section: string, legacy: string)
    requires Lookup(doc, section) == Some(PrintObject(p)) && Parse(j, PrintObject(p)) == Ok(p)
    requires Lookup(Set(j, doc, section, PrintObject(DeleteEach(p, CLAUDE_REFRESH))), legacy) == None
    ensures StripSections(j, doc, [section, legacy])
         == Ok(Set(j, doc, section, PrintObject(DeleteEach(p, CLAUDE_REFRESH))))
  {
    hide Parse, PrintObject, Set, DeleteEach, Lookup;
    var names := [section, legacy];
    var d := Set(j, doc, section, PrintObject(DeleteEach(p, CLAUDE_REFRESH)));
    assert names[1..] == [legacy] && [legacy][1..] == [];
    assert StripSections(j, d, [legacy]) == Ok(d);
  }

  lemma StripHeldCodex(j: Json, doc: Object, p: Object)
    requires Holds(j, PrintObject(doc), doc, CODEX_TOKENS, p)
    ensures StripCodex(j, PrintObject(doc)) == Ok(PrintObject(
              Set(j, doc, CODEX_TOKENS, PrintObject(Set(j, Delete(p, "refreshToken"), CODEX_REFRESH, EMPTY_STRING)))))
  {
    ParsePrinted(j, doc);
    ParsePrinted(j, p);
    LookupIsFirst(doc, CODEX_TOKENS);
  }

  /** Stripping the full form of a target gives the bytes of its token-only form, for both tools. */
  lemma StripUndoesFull(j: Json, tool: Tool, existing: bytes, full: bytes)
    requires BuildFullTarget(j, tool, existing, full).Ok?
    ensures StripRefreshToken(j, tool, BuildFullTarget(j, tool, existing, full).value)
            == BuildTarget(j, tool, existing, full)
  {
    RefreshIsValue(j, tool, full);
    var built := BuildTarget(j, tool, existing, full).value;
    if tool == Claude {
      var doc, s := ClaudeBuilt(j, existing, full);
      var refresh := ClaudeRefresh(j, full).value;
      var p := Set(j, s, "refreshToken", refresh);
      FullIsBuiltAndSet(j, built, doc, CLAUDE_SECTION, s, "refreshToken", refresh);
      ClaudeRefreshIsUndone(j, s, ClaudeFields(j, full).value, refresh);
      ValuesSet(j, doc, CLAUDE_SECTION, PrintObject(p), CLAUDE_LEGACY);
      StripHeldClaude(j, Set(j, doc, CLAUDE_SECTION, PrintObject(p)), p);
    } else {
      var doc, s := CodexBuilt(j, existing, full);
      var refresh := CodexRefresh(j, full).value;
      var p := Set(j, s, CODEX_REFRESH, refresh);
      FullIsBuiltAndSet(j, built, doc, CODEX_TOKENS, s, CODEX_REFRESH, refresh);
      CodexRefreshIsUndone(j, s, CodexFields(j, full).value.0, refresh);
      StripHeldCodex(j, Set(j, doc, CODEX_TOKENS, PrintObject(p)), p);
    }
  }

  /** Stripping a token-only target changes nothing. */
  lemma StripKeepsBuilt(j: Json, tool: Tool, existing: bytes, full: bytes)
    requires BuildTarget(j, tool, existing, full).Ok?
    ensures var built := BuildTarget(j, tool, existing, full); StripRefreshToken(j, tool, built.value) == built
  {
    if tool == Claude {
      var doc, s := ClaudeBuilt(j, existing, full);
      ClaudeSectionIsFixed(j, s, ClaudeFields(j, full).value);
      StripHeldClaude(j, doc, s);
      SetNothing(j, doc, CLAUDE_SECTION, PrintObject(s));
    } else {
      var doc, s := CodexBuilt(j, existing, full);
      CodexSectionIsFixed(j, s, CodexFields(j, full).value.0);
      StripHeldCodex(j, doc, s);
      SetNothing(j, doc, CODEX_TOKENS, PrintObject(s));
    }
  }
}
