/** The builders as the program runs them: over objects that are edited in place. */
module TargetBuilder {
  import opened Bytes
  import opened Grammar
  import opened Compaction
  import opened Library
  import opened Ordering
  import opened Editor
  import opened Document
  import E = Edits
  import B = Builders

  /** The field map of a credential section. */
  method CollectFields(ms: seq<Member>, aliases: map<string, string>, refresh: seq<string>)
    returns (fields: map<string, bytes>)
    ensures fields == B.Collect(ms, aliases, refresh)
  {
    fields := map[];
    for k := 0 to |ms|
      invariant fields == B.Collect(ms[..k], aliases, refresh)
    {
      assert ms[..k + 1][..k] == ms[..k];
      var name := ms[k].name;
      if name in aliases {
        name := aliases[name];
      }
      if name in refresh {
        continue;
      }
      fields := fields[name := Compact(ms[k].value)];
    }
    assert ms[..|ms|] == ms;
  }

  /** The section of a full credential as an object. */
  method OpenCredential(j: Json, full: bytes, name: string, legacy: string)
    returns (doc: Option<JsonObject>, r: Result<JsonObject, B.BuildError>)
    ensures var section := B.CredentialSection(j, full, name, legacy);
            if section.Err? then r == Err(section.error) else r.Ok? && fresh(r.value) && r.value.View() == section.value
    ensures r.Ok? ==> Parse(j, full).Ok? && doc.Some? && doc.value.View() == Parse(j, full).value
  {
    doc := None;
    var parsed := ParseObject(j, full);
    if parsed.Err? {
      return doc, Err(B.BadCredential(parsed.error));
    }
    doc := Some(parsed.value);
    var raw := parsed.value.Value(name);
    if raw.None? {
      raw := parsed.value.Value(legacy);
    }
    if raw.None? {
      return doc, Err(B.NoSection);
    }
    var section := ParseObject(j, raw.value);
    if section.Err? {
      return doc, Err(B.BadCredentialSection(section.error));
    }
    return doc, Ok(section.value);
  }

  method ReadClaudeFields(j: Json, full: bytes) returns (r: Result<map<string, bytes>, B.BuildError>)
    ensures r == B.ClaudeFields(j, full)
  {
    var _, section := OpenCredential(j, full, B.CLAUDE_SECTION, B.CLAUDE_LEGACY);
    if section.Err? {
      return Err(section.error);
    }
    var fields := CollectFields(section.value.members, B.CLAUDE_ALIASES, B.CLAUDE_REFRESH);
    if !B.IsNonEmptyString(j, B.Field(fields, "accessToken")) {
      return Err(B.NoAccessToken);
    }
    return Ok(fields);
  }

  method ReadCodexFields(j: Json, full: bytes) returns (r: Result<(map<string, bytes>, Option<bytes>), B.BuildError>)
    ensures r == B.CodexFields(j, full)
  {
    var doc, section := OpenCredential(j, full, B.CODEX_TOKENS, B.CODEX_TOKENS);
    if section.Err? {
      return Err(section.error);
    }
    var fields := CollectFields(section.value.members, B.CODEX_ALIASES, [B.CODEX_REFRESH]);
    if !B.IsNonEmptyString(j, B.Field(fields, "access_token")) {
      return Err(B.NoAccessToken);
    }
    var last := doc.value.Value(B.CODEX_LAST_REFRESH);
    if last.Some? && last.value != NULL {
      return Ok((fields, Some(Compact(last.value))));
    }
    return Ok((fields, None));
  }

  /** An existing file and its login section, if it has one; fresh objects that share nothing. */
  method OpenFile(j: Json, existing: bytes, section: string, legacy: string)
    returns (doc: JsonObject, base: JsonObject?, hasLegacy: bool, error: Option<B.BuildError>)
    ensures fresh(doc) && (base != null ==> fresh(base) && base != doc)
    ensures var file := B.OpenDocument(j, existing, section, legacy);
            if file.Err? then error == Some(file.error)
            else error == None && hasLegacy == file.value.hasLegacy && doc.View() == file.value.doc
                 && (base == null <==> file.value.base == None)
                 && (base != null ==> Some(base.View()) == file.value.base)
  {
    hide Parse, IsBlank;
    base, hasLegacy, error := null, false, None;
    doc := new JsonObject([], [], []);
    if IsBlank(existing) {
      var made := ParseObject(j, B.NEW_DOCUMENT);
      if made.Err? {
        error := Some(B.NilObject);
      } else {
        doc := made.value;
      }
      return;
    }
    var parsed := ParseObject(j, existing);
    if parsed.Err? {
      error := Some(B.BadExisting(parsed.error));
      return;
    }
    doc := parsed.value;
    var found := doc.Value(legacy);
    hasLegacy := legacy != "" && found.Some?;
    var names := [section];
    if legacy != "" {
      names := names + [legacy];
    }
    assert names == if legacy == "" then [section] else [section, legacy];
    for k := 0 to |names|
      invariant base == null && error == None && doc.View() == Parse(j, existing).value
      invariant B.FirstSection(j, doc.View(), names) == B.FirstSection(j, doc.View(), names[k..])
    {
      assert names[k..][1..] == names[k + 1..];
      var raw := doc.Value(names[k]);
      if raw.None? || raw.value == NULL {
        continue;
      }
      var o := ParseObject(j, raw.value);
      if o.Err? {
        error := Some(B.BadExistingSection(o.error));
      } else {
        base := o.value;
      }
      return;
    }
  }

  /** The section to edit: the one found, or an empty one; null when the program's literal does not parse. */
  method SectionToEdit(j: Json, doc: JsonObject, base: JsonObject?) returns (section: JsonObject?)
    requires base != doc
    ensures base != null ==> section == base
    ensures base == null ==> (section == null <==> B.EmptyObject(j, doc.View()) == None)
    ensures base == null && section != null ==> fresh(section) && Some(section.View()) == B.EmptyObject(j, doc.View())
  {
    if base != null {
      return base;
    }
    var o := ParseObject(j, B.EmptyText(doc.View()));
    section := if o.Ok? then o.value else null;
  }

  method ManageFields(j: Json, section: JsonObject, names: seq<string>, fields: map<string, bytes>)
    modifies section
    ensures section.View() == B.Manage(j, old(section.View()), names, fields)
  {
    for k := 0 to |names|
      invariant B.Manage(j, section.View(), names[k..], fields) == B.Manage(j, old(section.View()), names, fields)
    {
      assert names[k..][1..] == names[k + 1..];
      if names[k] in fields {
        section.Set(j, names[k], fields[names[k]]);
      } else {
        var _ := section.Delete(names[k]);
      }
    }
    assert names[|names|..] == [];
  }

  lemma UnmanagedStep(keys: seq<string>, k: nat)
    requires k < |keys|
    ensures B.Unmanaged(keys[k..])
            == (if keys[k] in B.CLAUDE_MANAGED then [] else [keys[k]]) + B.Unmanaged(keys[k + 1..])
  {
    assert keys[k..][1..] == keys[k + 1..];
  }

  lemma SetFieldsStep(j: Json, s: Object, n: string, rest: seq<string>, fields: map<string, bytes>)
    requires n in fields && forall k | k in rest :: k in fields
    ensures B.SetFields(j, s, [n] + rest, fields) == B.SetFields(j, E.Set(j, s, n, fields[n]), rest, fields)
  {
    assert ([n] + rest)[1..] == rest;
  }

  method SetExtras(j: Json, section: JsonObject, fields: map<string, bytes>)
    modifies section
    ensures section.View() == B.SetFields(j, old(section.View()), B.Extras(fields), fields)
  {
    var keys := OrderedKeys(fields);
    ghost var rest := B.Extras(fields);
    assert keys[0..] == keys;
    for k := 0 to |keys|
      invariant rest == B.Unmanaged(keys[k..]) && forall n | n in rest :: n in fields
      invariant B.SetFields(j, section.View(), rest, fields)
                == B.SetFields(j, old(section.View()), B.Extras(fields), fields)
    {
      UnmanagedStep(keys, k);
      rest := B.Unmanaged(keys[k + 1..]);
      if keys[k] !in B.CLAUDE_MANAGED {
        SetFieldsStep(j, section.View(), keys[k], rest, fields);
        section.Set(j, keys[k], fields[keys[k]]);
      } else {
        assert [] + rest == rest;
      }
    }
    assert keys[|keys|..] == [];
  }

  method DeleteKeys(section: JsonObject, names: seq<string>)
    modifies section
    ensures section.View() == B.DeleteEach(old(section.View()), names)
  {
    for k := 0 to |names|
      invariant B.DeleteEach(section.View(), names[k..]) == B.DeleteEach(old(section.View()), names)
    {
      assert names[k..][1..] == names[k + 1..];
      var _ := section.Delete(names[k]);
    }
    assert names[|names|..] == [];
  }

  method EditClaudeSection(j: Json, section: JsonObject, fields: map<string, bytes>)
    modifies section
    ensures section.View() == B.ClaudeSection(j, old(section.View()), fields)
  {
    ManageFields(j, section, B.CLAUDE_MANAGED, fields);
    SetExtras(j, section, fields);
    DeleteKeys(section, B.CLAUDE_REFRESH);
  }

  method BuildClaudeTarget(j: Json, existing: bytes, full: bytes) returns (r: B.Built)
    ensures r == B.BuildClaude(j, existing, full)
  {
    hide Parse, PrintObject, B.ClaudeFields, B.OpenDocument, B.ClaudeSection, E.Set;
    var fields := ReadClaudeFields(j, full);
    if fields.Err? {
      return Err(fields.error);
    }
    var doc, base, legacy, error := OpenFile(j, existing, B.CLAUDE_SECTION, B.CLAUDE_LEGACY);
    if error.Some? {
      return Err(error.value);
    }
    var section := SectionToEdit(j, doc, base);
    if section == null {
      return Err(B.NilObject);
    }
    EditClaudeSection(j, section, fields.value);
    var text := section.Bytes();
    doc.Set(j, B.CLAUDE_SECTION, text);
    if legacy {
      var _ := doc.Delete(B.CLAUDE_LEGACY);
    }
    var out := doc.Bytes();
    return Ok(out);
  }

  /** Deletes every alias, in whatever order the alias map is walked. */
  method DeleteAliases(tokens: JsonObject)
    modifies tokens
    ensures tokens.View() == E.DeleteAll(old(tokens.View()), B.CODEX_ALIASES.Keys)
  {
    var left := B.CODEX_ALIASES.Keys;
    ghost var gone: set<string> := {};
    E.DeleteNothing(tokens.View(), {});
    while left != {}
      invariant gone + left == B.CODEX_ALIASES.Keys
      invariant tokens.View() == E.DeleteAll(old(tokens.View()), gone)
      decreases |left|
    {
      var alias :| alias in left;
      E.DeleteUnion(old(tokens.View()), gone, {alias});
      var _ := tokens.Delete(alias);
      left, gone := left - {alias}, gone + {alias};
    }
    assert gone == B.CODEX_ALIASES.Keys;
  }

  method BuildCodexTarget(j: Json, existing: bytes, full: bytes) returns (r: B.Built)
    ensures r == B.BuildCodex(j, existing, full)
  {
    hide Parse, PrintObject, B.CodexFields, B.OpenDocument, B.Manage, E.Set;
    var fields := ReadCodexFields(j, full);
    if fields.Err? {
      return Err(fields.error);
    }
    var doc, base, _, error := OpenFile(j, existing, B.CODEX_TOKENS, "");
    if error.Some? {
      return Err(error.value);
    }
    var tokens := SectionToEdit(j, doc, base);
    if tokens == null {
      return Err(B.NilObject);
    }
    DeleteAliases(tokens);
    ManageFields(j, tokens, B.CODEX_MANAGED, fields.value.0);
    tokens.Set(j, B.CODEX_REFRESH, B.EMPTY_STRING);
    doc.Set(j, B.CODEX_AUTH_MODE, B.CODEX_MODE_VALUE);
    var text := tokens.Bytes();
    doc.Set(j, B.CODEX_TOKENS, text);
    if fields.value.1.Some? {
      doc.Set(j, B.CODEX_LAST_REFRESH, fields.value.1.value);
    } else {
      var _ := doc.Delete(B.CODEX_LAST_REFRESH);
    }
    var out := doc.Bytes();
    return Ok(out);
  }

  method BuildTarget(j: Json, tool: B.Tool, existing: bytes, full: bytes) returns (r: B.Built)
    ensures r == B.BuildTarget(j, tool, existing, full)
  {
    match tool {
      case Claude => r := BuildClaudeTarget(j, existing, full);
      case Codex => r := BuildCodexTarget(j, existing, full);
      case OtherTool => r := Err(B.UnknownTool);
    }
  }

  /** The value of the first of the keys that holds a non-empty string. */
  method FirstNonEmpty(j: Json, section: JsonObject, keys: seq<string>) returns (value: Option<bytes>)
    ensures value == None ==> forall k | k in keys :: !B.IsNonEmptyString(j, E.Lookup(section.View(), k))
    ensures value.Some? ==> exists k | 0 <= k < |keys| ::
              && value == E.Lookup(section.View(), keys[k]) && B.IsNonEmptyString(j, value)
              && forall h | 0 <= h < k :: !B.IsNonEmptyString(j, E.Lookup(section.View(), keys[h]))
  {
    for k := 0 to |keys|
      invariant forall h | 0 <= h < k :: !B.IsNonEmptyString(j, E.Lookup(section.View(), keys[h]))
    {
      value := section.Value(keys[k]);
      if B.IsNonEmptyString(j, value) {
        return value;
      }
    }
    return None;
  }

  method FirstNonEmptyOf(j: Json, section: JsonObject, a: string, b: string) returns (value: Option<bytes>)
    ensures var o := section.View();
            value == if B.IsNonEmptyString(j, E.Lookup(o, a)) then E.Lookup(o, a)
                     else if B.IsNonEmptyString(j, E.Lookup(o, b)) then E.Lookup(o, b)
                     else None
  {
    var keys := [a, b];
    value := FirstNonEmpty(j, section, keys);
    assert keys[0] in keys && keys[1] in keys;
  }

  method ReadClaudeRefresh(j: Json, full: bytes) returns (r: Result<bytes, B.BuildError>)
    ensures r == B.ClaudeRefresh(j, full)
  {
    var _, section := OpenCredential(j, full, B.CLAUDE_SECTION, B.CLAUDE_LEGACY);
    if section.Err? {
      return Err(section.error);
    }
    var value := FirstNonEmptyOf(j, section.value, "refreshToken", "refresh_token");
    return if value.Some? then Ok(value.value) else Err(B.NoRefreshToken);
  }

  method ReadCodexRefresh(j: Json, full: bytes) returns (r: Result<bytes, B.BuildError>)
    ensures r == B.CodexRefresh(j, full)
  {
    var _, section := OpenCredential(j, full, B.CODEX_TOKENS, B.CODEX_TOKENS);
    if section.Err? {
      return Err(section.error);
    }
    var value := section.value.Value(B.CODEX_REFRESH);
    return if B.IsNonEmptyString(j, value) then Ok(value.value) else Err(B.NoRefreshToken);
  }

  method BuildFullTarget(j: Json, tool: B.Tool, existing: bytes, full: bytes) returns (r: B.Built)
    ensures r == B.BuildFullTarget(j, tool, existing, full)
  {
    var built := BuildTarget(j, tool, existing, full);
    if built.Err? {
      return built;
    }
    var refresh: Result<bytes, B.BuildError>;
    var name, key := B.CODEX_TOKENS, B.CODEX_REFRESH;
    if tool == B.Claude {
      name, key := B.CLAUDE_SECTION, "refreshToken";
      refresh := ReadClaudeRefresh(j, full);
    } else {
      refresh := ReadCodexRefresh(j, full);
    }
    if refresh.Err? {
      return Err(refresh.error);
    }
    var doc, section, _, error := OpenFile(j, built.value, name, "");
    if error.Some? {
      return Err(error.value);
    }
    if section == null {
      return Err(B.NilObject);
    }
    section.Set(j, key, refresh.value);
    var text := section.Bytes();
    doc.Set(j, name, text);
    var out := doc.Bytes();
    return Ok(out);
  }

  method StripRefreshToken(j: Json, tool: B.Tool, data: bytes) returns (r: B.Built)
    ensures r == B.StripRefreshToken(j, tool, data)
  {
    match tool {
      case Claude => r := StripClaude(j, data);
      case Codex => r := StripCodex(j, data);
      case OtherTool => r := Err(B.UnknownTool);
    }
  }

  method StripClaude(j: Json, data: bytes) returns (r: B.Built)
    ensures r == B.StripClaude(j, data)
  {
    var parsed := ParseObject(j, data);
    if parsed.Err? {
      return Err(B.BadCredential(parsed.error));
    }
    var doc := parsed.value;
    var names := [B.CLAUDE_SECTION, B.CLAUDE_LEGACY];
    for k := 0 to |names|
      invariant fresh(doc)
      invariant B.StripSections(j, doc.View(), names[k..]) == B.StripSections(j, Parse(j, data).value, names)
    {
      assert names[k..][1..] == names[k + 1..];
      var raw := doc.Value(names[k]);
      if raw.None? {
        continue;
      }
      var section := ParseObject(j, raw.value);
      if section.Err? {
        return Err(B.BadCredentialSection(section.error));
      }
      DeleteKeys(section.value, B.CLAUDE_REFRESH);
      var text := section.value.Bytes();
      doc.Set(j, names[k], text);
    }
    assert names[|names|..] == [];
    var out := doc.Bytes();
    return Ok(out);
  }

  method StripCodex(j: Json, data: bytes) returns (r: B.Built)
    ensures r == B.StripCodex(j, data)
  {
    var parsed := ParseObject(j, data);
    if parsed.Err? {
      return Err(B.BadCredential(parsed.error));
    }
    var doc := parsed.value;
    var raw := doc.Value(B.CODEX_TOKENS);
    if raw.None? {
      var same := doc.Bytes();
      return Ok(same);
    }
    var tokens := ParseObject(j, raw.value);
    if tokens.Err? {
      return Err(B.BadCredentialSection(tokens.error));
    }
    var _ := tokens.value.Delete("refreshToken");
    tokens.value.Set(j, B.CODEX_REFRESH, B.EMPTY_STRING);
    var text := tokens.value.Bytes();
    doc.Set(j, B.CODEX_TOKENS, text);
    var out := doc.Bytes();
    return Ok(out);
  }
}
