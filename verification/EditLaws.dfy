/** What the edits keep: an edited object is still exactly the pieces of a valid document, so printing and
    parsing it again returns it, and no edit touches the members it does not name. */
module EditLaws {
  import opened Bytes
  import opened Grammar
  import opened Library
  import opened Editor
  import opened Edits

  /** The head of a parsed member splits at its key into the lead and the colon. */
  lemma HeadParts(j: Json, m: Member, first: bool)
    requires MemberOk(j, m, first)
    ensures var (before, after) := SplitHead(m); HeadSplits(m, before, after, first)
  {
    var lead, colon :| HeadSplits(m, lead, colon, first);
    LeadBytes(lead, first);
    IndexOfAfter(lead, m.key, colon);
    assert m.head[..|lead|] == lead && m.head[|lead| + |m.key|..] == colon;
  }

  /** The lead and the colon that `NewHead` puts around a key. */
  lemma NewHeadParts(j: Json, o: Object, key: bytes) returns (lead: bytes, colon: bytes)
    requires WellFormed(j, o)
    ensures NewHead(o, key) == lead + key + colon
    ensures IsLead(lead, o.members == []) && IsColon(colon)
  {
    var n := |o.members|;
    if n > 0 {
      assert MemberOk(j, o.members[n - 1], n == 1);
      HeadParts(j, o.members[n - 1], n == 1);
      var (before, after) := SplitHead(o.members[n - 1]);
      lead, colon := if n == 1 then [COMMA] + before else before, after;
      if n == 1 {
        assert lead[1..] == before && lead[..0] == [];
      }
    } else {
      var line := PastLastByte(o.tail, NEWLINE);
      if line > 0 {
        var closing := o.tail[line..];
        lead := [NEWLINE] + closing[..IndexByte(closing, CLOSE_BRACE)] + [SPACE, SPACE];
        colon := [COLON, SPACE];
        assert colon[1..] == [SPACE];
        ClosingIsSpace(o.tail, line);
        assert NewHead(o, key) == lead + key + colon;
      } else {
        lead, colon := [], [COLON];
        assert [] + key + [COLON] == key + [COLON];
      }
    }
  }

  lemma ClosingIsSpace(tail: bytes, line: nat)
    requires IsTail(tail) && line <= |tail|
    ensures var closing := tail[line..]; AllSpace(closing[..IndexByte(closing, CLOSE_BRACE)])
  {
    var i := IndexByte(tail, CLOSE_BRACE);
    var closing := tail[line..];
    var k := IndexByte(closing, CLOSE_BRACE);
    forall x | 0 <= x < k ensures IsSpace(closing[x]) {
      var y := line + x;
      assert closing[x] == tail[y];
      if y < i { assert tail[..i][y] == tail[y]; }
      if y > i { assert tail[i + 1..][y - i - 1] == tail[y]; }
    }
  }

  lemma AppendKeepsWellFormed(j: Json, o: Object, name: string, value: bytes)
    requires WellFormed(j, o) && IsValue(value)
    ensures WellFormed(j, Append(j, o, name, value))
  {
    assert EncodeIsExact(j, name);
    var lead, colon := NewHeadParts(j, o, j.encode(name));
    var p := Append(j, o, name, value);
    var n := |o.members|;
    assert HeadSplits(p.members[n], lead, colon, n == 0);
    forall i | 0 <= i < n + 1 ensures MemberOk(j, p.members[i], i == 0) {
      if i < n { assert MemberOk(j, o.members[i], true && i == 0); }
    }
  }

  lemma {:induction false} WithoutMembersOk(j: Json, ms: seq<Member>, names: set<string>)
    requires MembersOk(j, ms, false)
    ensures MembersOk(j, Without(ms, names), false)
  {
    if ms != [] {
      assert MemberOk(j, ms[0], false);
      assert MembersOk(j, ms[1..], false);
      WithoutMembersOk(j, ms[1..], names);
    }
  }

  lemma NewValueOk(j: Json, m: Member, value: bytes, first: bool)
    requires MemberOk(j, m, first) && IsValue(value)
    ensures MemberOk(j, m.(value := value), first)
  {
    var lead, colon :| HeadSplits(m, lead, colon, first);
    assert HeadSplits(m.(value := value), lead, colon, first);
  }

  lemma MembersJoin(j: Json, a: seq<Member>, m: Member, b: seq<Member>)
    requires MembersOk(j, a, true) && MemberOk(j, m, a == []) && MembersOk(j, b, false)
    ensures MembersOk(j, a + [m] + b, true)
  {
    var ps := a + [m] + b;
    forall k | 0 <= k < |ps| ensures MemberOk(j, ps[k], true && k == 0) {
      if k > |a| {
        assert ps[k] == b[k - |a| - 1];
        assert MemberOk(j, b[k - |a| - 1], false && k - |a| - 1 == 0);
      }
    }
  }

  lemma SetKeepsWellFormed(j: Json, o: Object, name: string, value: bytes)
    requires WellFormed(j, o) && IsValue(value)
    ensures WellFormed(j, Set(j, o, name, value))
  {
    hide MembersOk, MemberOk, Without, Append;
    var i, ms := Index(o.members, name), o.members;
    if i == |ms| {
      AppendKeepsWellFormed(j, o, name, value);
    } else {
      SplitMembersOk(j, ms, i);
      WithoutMembersOk(j, ms[i + 1..], {name});
      NewValueOk(j, ms[i], value, i == 0);
      MembersJoin(j, ms[..i], ms[i].(value := value), Without(ms[i + 1..], {name}));
    }
  }

  lemma SplitMembersOk(j: Json, ms: seq<Member>, i: nat)
    requires i < |ms| && MembersOk(j, ms, true)
    ensures MembersOk(j, ms[..i], true) && MemberOk(j, ms[i], i == 0) && MembersOk(j, ms[i + 1..], false)
  {
    assert MemberOk(j, ms[i], true && i == 0);
    var before, after := ms[..i], ms[i + 1..];
    forall k | 0 <= k < |after| ensures MemberOk(j, after[k], false && k == 0) {
      assert MemberOk(j, ms[i + 1 + k], true && i + 1 + k == 0);
    }
    forall k | 0 <= k < |before| ensures MemberOk(j, before[k], true && k == 0) {
      assert MemberOk(j, ms[k], true && k == 0);
    }
  }

  lemma UnleadSplits(m: Member, lead: bytes, colon: bytes)
    requires HeadSplits(m, lead, colon, false)
    ensures var k := IndexByte(lead, COMMA); Unlead(m) == m.(head := lead[..k] + lead[k + 1..] + m.key + colon)
  {
    var k := IndexByte(lead, COMMA);
    CommaOfHead(lead, m.key, colon);
    AllSpaceIsBlank(lead[..k]);
    DropOne(lead, k, m.key, colon);
  }

  lemma DropOne(a: bytes, k: nat, b: bytes, c: bytes)
    requires k < |a|
    ensures var s := a + b + c; s[..k] == a[..k] && s[..k] + s[k + 1..] == a[..k] + a[k + 1..] + b + c
  {
    var s := a + b + c;
    assert s[..k] == a[..k];
    assert s[k + 1..] == a[k + 1..] + b + c;
    assert a[..k] + (a[k + 1..] + b + c) == a[..k] + a[k + 1..] + b + c;
  }

  lemma UnleadMakesFirst(j: Json, m: Member)
    requires MemberOk(j, m, false)
    ensures MemberOk(j, Unlead(m), true)
    ensures Unlead(m).value == m.value && Unlead(m).key == m.key
  {
    var lead, colon :| HeadSplits(m, lead, colon, false);
    var k := IndexByte(lead, COMMA);
    UnleadSplits(m, lead, colon);
    assert HeadSplits(Unlead(m), lead[..k] + lead[k + 1..], colon, true);
  }

  lemma {:induction false} CommaOfHead(lead: bytes, key: bytes, colon: bytes)
    requires IndexByte(lead, COMMA) < |lead|
    ensures IndexByte(lead + key + colon, COMMA) == IndexByte(lead, COMMA)
  {
    if lead[0] != COMMA {
      assert (lead + key + colon)[1..] == lead[1..] + key + colon;
      CommaOfHead(lead[1..], key, colon);
    }
  }

  lemma DeleteKeepsWellFormed(j: Json, o: Object, names: set<string>)
    requires WellFormed(j, o)
    ensures WellFormed(j, DeleteAll(o, names))
  {
    var ms := o.members;
    if ms != [] {
      var more := Without(ms[1..], names);
      assert MembersOk(j, ms[1..], false);
      assert MemberOk(j, ms[0], true && 0 == 0);
      WithoutMembersOk(j, ms[1..], names);
      if ms[0].name in names {
        assert Without(ms, names) == more;
        LedIsOk(j, more);
      } else {
        assert Without(ms, names) == [ms[0]] + more;
        MembersJoin(j, [], ms[0], more);
        assert [] + [ms[0]] + more == [ms[0]] + more;
      }
    }
  }

  /** Members that follow others, the first of which loses its comma. */
  lemma LedIsOk(j: Json, ms: seq<Member>)
    requires MembersOk(j, ms, false)
    ensures ms != [] ==> MembersOk(j, [Unlead(ms[0])] + ms[1..], true)
  {
    if ms != [] {
      assert MemberOk(j, ms[0], false && 0 == 0);
      UnleadMakesFirst(j, ms[0]);
      var led := [Unlead(ms[0])] + ms[1..];
      forall k | 0 <= k < |led| ensures MemberOk(j, led[k], true && k == 0) {
        if k > 0 {
          assert led[k] == ms[k] && MemberOk(j, ms[k], false && k == 0);
        }
      }
    }
  }

  // ---- Any series of edits ----

  datatype Edit = SetEdit(name: string, value: bytes) | DeleteEdit(name: string)

  function Apply(j: Json, o: Object, edits: seq<Edit>): Object
    decreases |edits|
  {
    if edits == [] then o else
    match edits[0]
    case SetEdit(name, value) => Apply(j, Set(j, o, name, value), edits[1..])
    case DeleteEdit(name) => Apply(j, Delete(o, name), edits[1..])
  }

  ghost predicate ValidEdits(edits: seq<Edit>) {
    forall k | 0 <= k < |edits| && edits[k].SetEdit? :: IsValue(edits[k].value)
  }

  lemma {:induction false} ApplyKeepsWellFormed(j: Json, o: Object, edits: seq<Edit>)
    requires WellFormed(j, o) && ValidEdits(edits)
    ensures WellFormed(j, Apply(j, o, edits))
    decreases |edits|
  {
    if edits != [] {
      assert ValidEdits(edits[1..]);
      match edits[0] {
        case SetEdit(name, value) =>
          SetKeepsWellFormed(j, o, name, value);
          ApplyKeepsWellFormed(j, Set(j, o, name, value), edits[1..]);
        case DeleteEdit(name) =>
          DeleteKeepsWellFormed(j, o, {name});
          ApplyKeepsWellFormed(j, Delete(o, name), edits[1..]);
      }
    }
  }

  /** Parsing a document, editing it any number of times and printing it gives a valid document that parses to
      exactly the edited object: members, heads and tail. */
  lemma EditedDocumentReparses(j: Json, data: bytes, edits: seq<Edit>)
    requires Parse(j, data).Ok? && ValidEdits(edits)
    ensures var o := Apply(j, Parse(j, data).value, edits); Parse(j, PrintObject(o)) == Ok(o)
  {
    ParseIsExact(j, data);
    ApplyKeepsWellFormed(j, Parse(j, data).value, edits);
    ParsePrinted(j, Apply(j, Parse(j, data).value, edits));
  }

  // ---- The members an edit does not name ----

  /** A set changes no byte of any other member. */
  lemma SetKeepsOthers(j: Json, o: Object, name: string, value: bytes)
    ensures Without(Set(j, o, name, value).members, {name}) == Without(o.members, {name})
    ensures Set(j, o, name, value).prefix == o.prefix && Set(j, o, name, value).tail == o.tail
  {
    var i, ms := Index(o.members, name), o.members;
    if i == |ms| {
      var m := Append(j, o, name, value).members[i];
      WithoutConcat(ms, [m], {name});
      assert Without([m], {name}) == [];
    } else {
      assert ms == ms[..i] + [ms[i]] + ms[i + 1..];
      SetOneKeepsOthers(ms[..i], ms[i], ms[i].(value := value), ms[i + 1..], name);
    }
  }

  lemma SetOneKeepsOthers(before: seq<Member>, m: Member, new_: Member, after: seq<Member>, name: string)
    requires m.name == name == new_.name
    ensures Without(before + [new_] + Without(after, {name}), {name}) == Without(before + [m] + after, {name})
  {
    WithoutAround(before, new_, Without(after, {name}), {name});
    WithoutUnion(after, {name}, {name});
    assert {name} + {name} == {name};
    WithoutAround(before, m, after, {name});
  }

  /** Two member lists that differ at most in the comma in front of their first member. */
  predicate SameButComma(before: seq<Member>, after: seq<Member>) {
    before == after || (before != [] && after == [Unlead(before[0])] + before[1..])
  }

  /** A delete changes no byte of any other member except the comma in front of a member that becomes the first. */
  lemma DeleteKeepsOthers(o: Object, names: set<string>, others: set<string>)
    requires names <= others
    ensures SameButComma(Without(o.members, others), Without(DeleteAll(o, names).members, others))
    ensures DeleteAll(o, names).prefix == o.prefix && DeleteAll(o, names).tail == o.tail
  {
    var ms := o.members;
    WithoutUnion(ms, names, others);
    assert names + others == others;
    var rest := Without(ms, names);
    if rest != [] {
      var led := [Unlead(rest[0])] + rest[1..];
      assert led[1..] == rest[1..];
    }
  }
}
