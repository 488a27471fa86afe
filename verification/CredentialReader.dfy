/** The credential readers as the program runs them: loops over sections and keys that fill a credential. */
module CredentialReader {
  import opened Bytes
  import opened Library
  import opened Editor
  import R = Readers
  import B = Builders
  import D = Document
  import Edits

  method FirstString(j: Json, tokens: seq<Member>, keys: seq<string>) returns (r: string)
    ensures r == R.FirstString(j, tokens, keys)
  {
    for i := 0 to |keys|
      invariant R.FirstString(j, tokens, keys) == R.FirstString(j, tokens, keys[i..])
    {
      assert keys[i..][0] == keys[i] && keys[i..][1..] == keys[i + 1..];
      var raw := R.MapValue(tokens, keys[i]);
      if raw.Some? {
        var v := B.StringOf(j, raw.value);
        if v.Some? && R.Trim(v.value) != "" {
          return R.Trim(v.value);
        }
      }
    }
    r := "";
  }

  method FirstMillis(j: Json, tokens: seq<Member>, keys: seq<string>) returns (r: Option<int>)
    ensures r == R.FirstMillis(j, tokens, keys)
  {
    for i := 0 to |keys|
      invariant R.FirstMillis(j, tokens, keys) == R.FirstMillis(j, tokens, keys[i..])
    {
      assert keys[i..][0] == keys[i] && keys[i..][1..] == keys[i + 1..];
      var raw := R.MapValue(tokens, keys[i]);
      if raw.Some? && j.millis(raw.value).Some? {
        return j.millis(raw.value);
      }
    }
    r := None;
  }

  /** The claude sections in turn: one without an access token never replaces one with, and the first with one ends
      the search. */
  method ParseSections(j: Json, root: seq<Member>, names: seq<string>) returns (cred: R.Credential)
    ensures cred == R.ReadSections(j, root, names, R.NO_CREDENTIAL)
  {
    cred := R.NO_CREDENTIAL;
    for i := 0 to |names|
      invariant R.ReadSections(j, root, names, R.NO_CREDENTIAL) == R.ReadSections(j, root, names[i..], cred)
    {
      assert names[i..][0] == names[i] && names[i..][1..] == names[i + 1..];
      var raw := R.MapValue(root, names[i]);
      if raw.None? {
        continue;
      }
      var tokens := R.MapOf(j, raw.value);
      if tokens.None? {
        continue;
      }
      var access := FirstString(j, tokens.value, R.CLAUDE_ACCESS_KEYS);
      if access == "" && cred.access != "" {
        continue;
      }
      var refresh := FirstString(j, tokens.value, B.CLAUDE_REFRESH);
      var expires := FirstMillis(j, tokens.value, R.CLAUDE_EXPIRY_KEYS);
      cred := R.Credential(access, refresh, "", if expires.Some? then expires else cred.expires);
      if access != "" {
        return;
      }
    }
  }

  method ParseClaude(j: Json, data: bytes) returns (r: Option<R.Credential>)
    ensures r == R.ParseClaude(j, data)
  {
    var root := R.MapOf(j, data);
    if root.None? {
      return None;
    }
    var cred := ParseSections(j, root.value, R.CLAUDE_SECTIONS);
    r := Some(cred);
  }

  /** Whether an object holds one of the keys as a non-empty string. */
  method HoldsToken(j: Json, section: D.JsonObject, keys: seq<string>) returns (held: bool)
    ensures held <==> exists k | k in keys :: B.IsNonEmptyString(j, Edits.Lookup(section.View(), k))
  {
    ghost var o := section.View();
    for i := 0 to |keys|
      invariant forall k | 0 <= k < i :: !B.IsNonEmptyString(j, Edits.Lookup(o, keys[k]))
    {
      var value := section.Value(keys[i]);
      assert value == Edits.Lookup(o, keys[i]);
      if B.IsNonEmptyString(j, value) {
        assert keys[i] in keys;
        return true;
      }
    }
    held := false;
  }

  /** The same for a section of a document, by the editor's own parser. */
  method SectionHoldsToken(j: Json, doc: D.JsonObject, name: string, keys: seq<string>) returns (held: bool)
    ensures held <==> R.SectionHoldsToken(j, doc.View(), name, keys)
  {
    var raw := doc.Value(name);
    if raw.None? {
      return false;
    }
    var section := D.ParseObject(j, raw.value);
    if section.Err? {
      return false;
    }
    held := HoldsToken(j, section.value, keys);
  }

  /** None of the first sections holds one of the keys. */
  ghost predicate NoneHolds(j: Json, o: Object, sections: seq<string>, i: nat, keys: seq<string>)
    requires i <= |sections|
  {
    forall n | n in sections[..i] :: !R.SectionHoldsToken(j, o, n, keys)
  }

  lemma NoneHoldsMore(j: Json, o: Object, sections: seq<string>, i: nat, keys: seq<string>)
    requires i < |sections| && NoneHolds(j, o, sections, i, keys) && !R.SectionHoldsToken(j, o, sections[i], keys)
    ensures NoneHolds(j, o, sections, i + 1, keys)
  {
    assert sections[..i + 1] == sections[..i] + [sections[i]];
  }

  /** The first section that holds one of the keys, or the number of sections. */
  method FirstSection(j: Json, doc: D.JsonObject, sections: seq<string>, keys: seq<string>) returns (i: nat)
    ensures i <= |sections| && NoneHolds(j, doc.View(), sections, i, keys)
    ensures i < |sections| ==> R.SectionHoldsToken(j, doc.View(), sections[i], keys)
  {
    ghost var o := doc.View();
    i := 0;
    while i < |sections|
      invariant doc.View() == o
      invariant i <= |sections| && NoneHolds(j, o, sections, i, keys)
    {
      var found := SectionHoldsToken(j, doc, sections[i], keys);
      if found {
        return;
      }
      NoneHoldsMore(j, o, sections, i, keys);
      i := i + 1;
    }
  }

  /** The writer's guard. */
  method RefreshTokenOnDisk(j: Json, tool: B.Tool, data: bytes) returns (held: bool)
    ensures held <==> R.RefreshTokenOnDisk(j, tool, data)
  {
    if IsBlank(data) {
      return false;
    }
    var doc := D.ParseObject(j, data);
    if doc.Err? {
      return false;
    }
    var sections := R.GuardSections(tool);
    var i := FirstSection(j, doc.value, sections, R.GuardKeys(tool));
    held := i < |sections|;
    assert sections[..|sections|] == sections;
  }
}
