/** What the edits of a section leave in it, and when they leave it alone. */
module SectionLaws {
  import opened Bytes
  import opened Grammar
  import opened Compaction
  import opened Library
  import opened Editor
  import opened Edits
  import opened EditLaws
  import opened Builders

  ghost predicate FieldsOk(fields: map<string, bytes>) {
    forall n | n in fields :: IsValue(fields[n])
  }

  /** The fields of a credential section are values, and none of them is a refresh token. */
  lemma {:induction false} CollectIsOk(j: Json, ms: seq<Member>, first: bool, aliases: map<string, string>,
                                       refresh: seq<string>)
    requires forall i | 0 <= i < |ms| :: IsValue(ms[i].value)
    ensures FieldsOk(Collect(ms, aliases, refresh))
    ensures forall n | n in refresh :: n !in Collect(ms, aliases, refresh)
  {
    if ms != [] {
      CollectIsOk(j, ms[..|ms| - 1], first, aliases, refresh);
      CompactKeepsValue(ms[|ms| - 1].value);
    }
  }

  // ---- The values of every name after each group of edits ----

  lemma {:induction false} ManageValues(j: Json, s: Object, names: seq<string>, fields: map<string, bytes>,
                                        other: string)
    ensures Values(Manage(j, s, names, fields).members, other)
         == if other in names then (if other in fields then [fields[other]] else []) else Values(s.members, other)
    decreases |names|
  {
    if names != [] {
      var n := names[0];
      var t := if n in fields then Set(j, s, n, fields[n]) else Delete(s, n);
      ManageValues(j, t, names[1..], fields, other);
      if n in fields { ValuesSet(j, s, n, fields[n], other); } else { ValuesDelete(s, {n}, other); }
    }
  }

  lemma {:induction false} SetFieldsValues(j: Json, s: Object, names: seq<string>, fields: map<string, bytes>,
                                           other: string)
    requires forall n | n in names :: n in fields
    ensures Values(SetFields(j, s, names, fields).members, other)
         == if other in names then [fields[other]] else Values(s.members, other)
    decreases |names|
  {
    if names != [] {
      var n := names[0];
      SetFieldsValues(j, Set(j, s, n, fields[n]), names[1..], fields, other);
      ValuesSet(j, s, n, fields[n], other);
    }
  }

  lemma {:induction false} DeleteEachValues(s: Object, names: seq<string>, other: string)
    ensures Values(DeleteEach(s, names).members, other) == if other in names then [] else Values(s.members, other)
    decreases |names|
  {
    if names != [] {
      DeleteEachValues(Delete(s, names[0]), names[1..], other);
      ValuesDelete(s, {names[0]}, other);
    }
  }

  // ---- Well-formedness and layout ----

  /** `t` is a well-formed object with the outer bytes of `s`. */
  ghost predicate EditOf(j: Json, s: Object, t: Object) {
    WellFormed(j, t) && t.prefix == s.prefix && t.tail == s.tail
  }

  lemma {:induction false} ManageKeeps(j: Json, s: Object, names: seq<string>, fields: map<string, bytes>)
    requires WellFormed(j, s) && FieldsOk(fields)
    ensures EditOf(j, s, Manage(j, s, names, fields))
    decreases |names|
  {
    if names != [] {
      var n := names[0];
      if n in fields { SetKeepsWellFormed(j, s, n, fields[n]); } else { DeleteKeepsWellFormed(j, s, {n}); }
      ManageKeeps(j, if n in fields then Set(j, s, n, fields[n]) else Delete(s, n), names[1..], fields);
    }
  }

  lemma {:induction false} SetFieldsKeeps(j: Json, s: Object, names: seq<string>, fields: map<string, bytes>)
    requires WellFormed(j, s) && FieldsOk(fields) && forall n | n in names :: n in fields
    ensures EditOf(j, s, SetFields(j, s, names, fields))
    decreases |names|
  {
    if names != [] {
      SetKeepsWellFormed(j, s, names[0], fields[names[0]]);
      SetFieldsKeeps(j, Set(j, s, names[0], fields[names[0]]), names[1..], fields);
    }
  }

  lemma {:induction false} DeleteEachKeeps(j: Json, s: Object, names: seq<string>)
    requires WellFormed(j, s)
    ensures EditOf(j, s, DeleteEach(s, names))
    decreases |names|
  {
    if names != [] {
      DeleteKeepsWellFormed(j, s, {names[0]});
      DeleteEachKeeps(j, Delete(s, names[0]), names[1..]);
    }
  }

  // ---- Edits that change nothing ----

  lemma {:induction false} ManageNothing(j: Json, s: Object, names: seq<string>, fields: map<string, bytes>)
    requires forall n | n in names :: Values(s.members, n) == if n in fields then [fields[n]] else []
    ensures Manage(j, s, names, fields) == s
    decreases |names|
  {
    if names != [] {
      var n := names[0];
      if n in fields { SetNothing(j, s, n, fields[n]); } else { DeleteNothing(s, {n}); }
      ManageNothing(j, s, names[1..], fields);
    }
  }

  lemma {:induction false} SetFieldsNothing(j: Json, s: Object, names: seq<string>, fields: map<string, bytes>)
    requires forall n | n in names :: n in fields && Values(s.members, n) == [fields[n]]
    ensures SetFields(j, s, names, fields) == s
    decreases |names|
  {
    if names != [] {
      SetNothing(j, s, names[0], fields[names[0]]);
      SetFieldsNothing(j, s, names[1..], fields);
    }
  }

  lemma {:induction false} DeleteEachNothing(s: Object, names: seq<string>)
    requires forall n | n in names :: Values(s.members, n) == []
    ensures DeleteEach(s, names) == s
    decreases |names|
  {
    if names != [] {
      DeleteNothing(s, {names[0]});
      DeleteEachNothing(s, names[1..]);
    }
  }

  lemma DeleteEachAppended(j: Json, s: Object, names: seq<string>, value: bytes)
    requires names != [] && forall n | n in names :: Values(s.members, n) == []
    ensures DeleteEach(Set(j, s, names[0], value), names) == s
  {
    ValuesNone(s.members, names[0]);
    DeleteAppended(j, s, names[0], value);
    DeleteEachNothing(s, names[1..]);
  }

  // ---- The claude section ----

  /** What a settled section holds for one name: no refresh token, the credential's fields once each, no managed
      field besides. */
  predicate ClaudeName(s: Object, fields: map<string, bytes>, n: string) {
    if n in CLAUDE_REFRESH then Values(s.members, n) == []
    else if n in fields then Values(s.members, n) == [fields[n]]
    else n in CLAUDE_MANAGED ==> Values(s.members, n) == []
  }

  ghost predicate ClaudeSettled(s: Object, fields: map<string, bytes>) {
    forall n :: ClaudeName(s, fields, n)
  }

  lemma ClaudeSectionValues(j: Json, s: Object, fields: map<string, bytes>, n: string)
    requires forall k | k in CLAUDE_REFRESH :: k !in fields
    ensures Values(ClaudeSection(j, s, fields).members, n)
         == if n in CLAUDE_REFRESH then [] else if n in fields then [fields[n]]
            else if n in CLAUDE_MANAGED then [] else Values(s.members, n)
  {
    var managed := Manage(j, s, CLAUDE_MANAGED, fields);
    ManageValues(j, s, CLAUDE_MANAGED, fields, n);
    SetFieldsValues(j, managed, Extras(fields), fields, n);
    DeleteEachValues(SetFields(j, managed, Extras(fields), fields), CLAUDE_REFRESH, n);
  }

  lemma ClaudeSectionSettles(j: Json, s: Object, fields: map<string, bytes>)
    requires forall k | k in CLAUDE_REFRESH :: k !in fields
    ensures ClaudeSettled(ClaudeSection(j, s, fields), fields)
  {
    forall n ensures ClaudeName(ClaudeSection(j, s, fields), fields, n) {
      ClaudeSectionValues(j, s, fields, n);
    }
  }

  lemma ClaudeSectionKeeps(j: Json, s: Object, fields: map<string, bytes>)
    requires WellFormed(j, s) && FieldsOk(fields)
    ensures EditOf(j, s, ClaudeSection(j, s, fields))
  {
    var managed := Manage(j, s, CLAUDE_MANAGED, fields);
    ManageKeeps(j, s, CLAUDE_MANAGED, fields);
    SetFieldsKeeps(j, managed, Extras(fields), fields);
    DeleteEachKeeps(j, SetFields(j, managed, Extras(fields), fields), CLAUDE_REFRESH);
  }

  /** On a section that already holds the credential's fields, building only removes the refresh keys. */
  lemma ClaudeSectionOfCurrent(j: Json, s: Object, fields: map<string, bytes>)
    requires forall n | n in fields || n in CLAUDE_MANAGED ::
               Values(s.members, n) == if n in fields then [fields[n]] else []
    ensures ClaudeSection(j, s, fields) == DeleteEach(s, CLAUDE_REFRESH)
  {
    ManageNothing(j, s, CLAUDE_MANAGED, fields);
    SetFieldsNothing(j, s, Extras(fields), fields);
  }

  lemma SettledValues(s: Object, fields: map<string, bytes>)
    requires ClaudeSettled(s, fields) && forall k | k in CLAUDE_REFRESH :: k !in fields
    ensures forall n | n in CLAUDE_REFRESH :: Values(s.members, n) == []
    ensures forall n | n in fields || n in CLAUDE_MANAGED ::
              Values(s.members, n) == if n in fields then [fields[n]] else []
  {
    forall n | n in CLAUDE_REFRESH ensures Values(s.members, n) == [] {
      assert ClaudeName(s, fields, n);
    }
    forall n | n in fields || n in CLAUDE_MANAGED
      ensures Values(s.members, n) == if n in fields then [fields[n]] else []
    {
      assert ClaudeName(s, fields, n);
    }
  }

  /** Building a settled section again changes nothing. */
  lemma ClaudeSectionIsFixed(j: Json, s: Object, fields: map<string, bytes>)
    requires ClaudeSettled(s, fields) && forall k | k in CLAUDE_REFRESH :: k !in fields
    ensures DeleteEach(s, CLAUDE_REFRESH) == s && ClaudeSection(j, s, fields) == s
  {
    SettledValues(s, fields);
    DeleteEachNothing(s, CLAUDE_REFRESH);
    ClaudeSectionOfCurrent(j, s, fields);
  }

  /** Removing the refresh keys, or building again, takes a refresh token back out of a settled section. */
  lemma ClaudeRefreshIsUndone(j: Json, s: Object, fields: map<string, bytes>, refresh: bytes)
    requires ClaudeSettled(s, fields) && forall k | k in CLAUDE_REFRESH :: k !in fields
    ensures DeleteEach(Set(j, s, "refreshToken", refresh), CLAUDE_REFRESH) == s
    ensures ClaudeSection(j, Set(j, s, "refreshToken", refresh), fields) == s
  {
    var p := Set(j, s, "refreshToken", refresh);
    SettledValues(s, fields);
    DeleteEachAppended(j, s, CLAUDE_REFRESH, refresh);
    assert "refreshToken" in CLAUDE_REFRESH && "refreshToken" !in CLAUDE_MANAGED;
    forall n | n in fields || n in CLAUDE_MANAGED
      ensures Values(p.members, n) == if n in fields then [fields[n]] else []
    {
      ValuesSet(j, s, "refreshToken", refresh, n);
    }
    ClaudeSectionOfCurrent(j, p, fields);
  }

  // ---- The codex tokens ----

  /** What settled tokens hold for one name. */
  predicate CodexName(s: Object, fields: map<string, bytes>, n: string) {
    if n == CODEX_REFRESH then Values(s.members, n) == [EMPTY_STRING]
    else if n in CODEX_MANAGED then Values(s.members, n) == if n in fields then [fields[n]] else []
    else n in CODEX_ALIASES ==> Values(s.members, n) == []
  }

  ghost predicate CodexSettled(s: Object, fields: map<string, bytes>) {
    forall n :: CodexName(s, fields, n)
  }

  lemma CodexSectionValues(j: Json, s: Object, fields: map<string, bytes>, n: string)
    ensures Values(CodexSection(j, s, fields).members, n)
         == if n == CODEX_REFRESH then [EMPTY_STRING]
            else if n in CODEX_MANAGED then (if n in fields then [fields[n]] else [])
            else if n in CODEX_ALIASES then [] else Values(s.members, n)
  {
    var bare := DeleteAll(s, CODEX_ALIASES.Keys);
    ValuesDelete(s, CODEX_ALIASES.Keys, n);
    ManageValues(j, bare, CODEX_MANAGED, fields, n);
    ValuesSet(j, Manage(j, bare, CODEX_MANAGED, fields), CODEX_REFRESH, EMPTY_STRING, n);
  }

  lemma CodexSectionSettles(j: Json, s: Object, fields: map<string, bytes>)
    ensures CodexSettled(CodexSection(j, s, fields), fields)
  {
    forall n ensures CodexName(CodexSection(j, s, fields), fields, n) {
      CodexSectionValues(j, s, fields, n);
    }
  }

  lemma EmptyStringIsValue()
    ensures IsString(EMPTY_STRING) && IsValue(EMPTY_STRING)
  {
    assert EMPTY_STRING[1..1] == [];
    assert Good(Quoted(EMPTY_STRING)) && Print(Quoted(EMPTY_STRING)) == EMPTY_STRING;
  }

  lemma CodexSectionKeeps(j: Json, s: Object, fields: map<string, bytes>)
    requires WellFormed(j, s) && FieldsOk(fields)
    ensures EditOf(j, s, CodexSection(j, s, fields))
  {
    var bare := DeleteAll(s, CODEX_ALIASES.Keys);
    DeleteKeepsWellFormed(j, s, CODEX_ALIASES.Keys);
    ManageKeeps(j, bare, CODEX_MANAGED, fields);
    EmptyStringIsValue();
    SetKeepsWellFormed(j, Manage(j, bare, CODEX_MANAGED, fields), CODEX_REFRESH, EMPTY_STRING);
  }

  /** Tokens that are settled but for the value of the refresh token. */
  lemma CodexSectionOfCurrent(j: Json, q: Object, fields: map<string, bytes>)
    requires forall n | n != CODEX_REFRESH :: CodexName(q, fields, n)
    ensures CodexSection(j, q, fields) == Set(j, q, CODEX_REFRESH, EMPTY_STRING)
    ensures Delete(q, "refreshToken") == q
  {
    assert "refreshToken" in CODEX_ALIASES && "refreshToken" !in CODEX_MANAGED;
    assert CODEX_REFRESH !in CODEX_ALIASES && CODEX_REFRESH !in CODEX_MANAGED;
    assert forall n | n in CODEX_ALIASES :: n != CODEX_REFRESH && n !in CODEX_MANAGED && CodexName(q, fields, n);
    assert forall n | n in CODEX_MANAGED :: n != CODEX_REFRESH && CodexName(q, fields, n);
    DeleteNothing(q, CODEX_ALIASES.Keys);
    DeleteNothing(q, {"refreshToken"});
    ManageNothing(j, q, CODEX_MANAGED, fields);
  }

  /** Building settled tokens again, or stripping them, changes nothing. */
  lemma CodexSectionIsFixed(j: Json, s: Object, fields: map<string, bytes>)
    requires CodexSettled(s, fields)
    ensures CodexSection(j, s, fields) == s
    ensures Set(j, Delete(s, "refreshToken"), CODEX_REFRESH, EMPTY_STRING) == s
  {
    assert CodexName(s, fields, CODEX_REFRESH);
    CodexSectionOfCurrent(j, s, fields);
    SetNothing(j, s, CODEX_REFRESH, EMPTY_STRING);
  }

  /** Whatever refresh token is put into settled tokens, building again or stripping takes it out and nothing else. */
  lemma CodexRefreshIsUndone(j: Json, s: Object, fields: map<string, bytes>, refresh: bytes)
    requires CodexSettled(s, fields)
    ensures CodexSection(j, Set(j, s, CODEX_REFRESH, refresh), fields) == s
    ensures Set(j, Delete(Set(j, s, CODEX_REFRESH, refresh), "refreshToken"), CODEX_REFRESH, EMPTY_STRING) == s
  {
    var p := Set(j, s, CODEX_REFRESH, refresh);
    forall n | n != CODEX_REFRESH ensures CodexName(p, fields, n) {
      ValuesSet(j, s, CODEX_REFRESH, refresh, n);
      assert CodexName(s, fields, n);
    }
    CodexSectionOfCurrent(j, p, fields);
    SetTwice(j, s, CODEX_REFRESH, refresh, EMPTY_STRING);
    assert CodexName(s, fields, CODEX_REFRESH);
    SetNothing(j, s, CODEX_REFRESH, EMPTY_STRING);
  }
}
