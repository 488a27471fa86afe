/** The object that is edited in place: the parser's loop and the editing methods over its member slice. */
module Document {
  import opened Bytes
  import opened Scanner
  import opened Library
  import opened Editor
  import E = Edits

  /** Dropping member `i` together with its comma. */
  function RemovedAt(ms: seq<Member>, i: nat): seq<Member>
    requires i < |ms|
  {
    var rest := ms[..i] + ms[i + 1..];
    if i == 0 && rest != [] then [E.Unlead(rest[0])] + rest[1..] else rest
  }

  /** Removing the members called `name` from index `from` on. */
  function DeletedFrom(ms: seq<Member>, name: string, from: nat): seq<Member>
    requires from <= |ms|
  {
    if from == 0 then E.WithoutLed(ms, {name}) else ms[..from] + E.Without(ms[from..], {name})
  }

  /** What replacing a value and deleting from the next position on comes to. */
  lemma ReplacedAt(ms: seq<Member>, i: nat, name: string, value: bytes)
    requires i < |ms|
    ensures var m := ms[i].(value := value);
            DeletedFrom(ms[i := m], name, i + 1) == ms[..i] + [m] + E.Without(ms[i + 1..], {name})
  {
    var m := ms[i].(value := value);
    assert ms[i := m][..i + 1] == ms[..i] + [m] && ms[i := m][i + 1..] == ms[i + 1..];
  }

  lemma WithoutOne(ms: seq<Member>, name: string, i: nat)
    requires i < |ms| && ms[i].name == name
    ensures E.Without(ms[..i] + ms[i + 1..], {name}) == E.Without(ms, {name})
  {
    AroundOne(ms, i);
    WithoutMiddle(ms[..i], ms[i], ms[i + 1..], name);
  }

  lemma AroundOne(ms: seq<Member>, i: nat)
    requires i < |ms|
    ensures ms[..i] + [ms[i]] + ms[i + 1..] == ms
  {
  }

  lemma WithoutMiddle(before: seq<Member>, m: Member, after: seq<Member>, name: string)
    requires m.name == name
    ensures E.Without(before + after, {name}) == E.Without(before + [m] + after, {name})
  {
    E.WithoutAround(before, m, after, {name});
    E.WithoutConcat(before, after, {name});
  }

  lemma RemoveOne(ms: seq<Member>, name: string, i: nat)
    requires i < |ms| && ms[i].name == name && forall k | 0 <= k < i :: ms[k].name != name
    ensures E.WithoutLed(RemovedAt(ms, i), {name}) == E.WithoutLed(ms, {name})
  {
    var rest := ms[..i] + ms[i + 1..];
    WithoutOne(ms, name, i);
    if i == 0 && rest != [] {
      var led := [E.Unlead(rest[0])] + rest[1..];
      assert led[1..] == rest[1..] && rest[0] == ms[1];
    }
  }

  lemma RemoveOneFrom(ms: seq<Member>, name: string, from: nat, i: nat)
    requires from <= i < |ms| && ms[i].name == name && NoneIn(ms, name, from, i)
    ensures DeletedFrom(RemovedAt(ms, i), name, from) == DeletedFrom(ms, name, from)
  {
    if from == 0 {
      RemoveOne(ms, name, i);
    } else {
      WithoutOne(ms[from..], name, i - from);
      RemovedAbove(ms, from, i);
    }
  }

  lemma RemovedAbove(ms: seq<Member>, from: nat, i: nat)
    requires 0 < from <= i < |ms|
    ensures RemovedAt(ms, i)[..from] == ms[..from]
    ensures RemovedAt(ms, i)[from..] == ms[from..][..i - from] + ms[from..][i - from + 1..]
  {
  }

  predicate NoneIn(ms: seq<Member>, name: string, from: nat, to: nat)
    requires to <= |ms|
  {
    forall k | from <= k < to :: ms[k].name != name
  }

  lemma NoneYet(ms: seq<Member>, name: string, from: nat)
    requires from <= |ms|
    ensures NoneIn(ms, name, from, from)
  {
  }

  lemma NoneMore(ms: seq<Member>, name: string, from: nat, i: nat)
    requires i < |ms| && NoneIn(ms, name, from, i) && ms[i].name != name
    ensures NoneIn(ms, name, from, i + 1)
  {
  }

  /** What removing the first member of the name after others leaves. */
  lemma NoneBefore(ms: seq<Member>, name: string, from: nat, i: nat)
    requires from <= i < |ms| && NoneIn(ms, name, from, i) && ms[i].name == name
    ensures !NoneIn(ms, name, from, |ms|) && NoneIn(RemovedAt(ms, i), name, from, i)
  {
  }

  lemma DeleteNone(ms: seq<Member>, name: string, from: nat)
    requires from <= |ms| && NoneIn(ms, name, from, |ms|)
    ensures DeletedFrom(ms, name, from) == ms
  {
    var rest := ms[from..];
    forall k | 0 <= k < |rest| ensures rest[k].name !in {name} {
      assert rest[k] == ms[from + k];
    }
    E.WithoutNone(rest, {name});
    if from == 0 {
      assert rest == ms;
    } else {
      assert ms[..from] + rest == ms;
    }
  }

  /** What holds at the head of the loop below stays when it removes a member. */
  lemma RemoveOneNext(ms: seq<Member>, name: string, from: nat, i: nat)
    requires from <= i < |ms| && NoneIn(ms, name, from, i) && ms[i].name == name
    ensures DeletedFrom(RemovedAt(ms, i), name, from) == DeletedFrom(ms, name, from)
    ensures |RemovedAt(ms, i)| == |ms| - 1 && NoneIn(RemovedAt(ms, i), name, from, i)
    ensures !NoneIn(ms, name, from, |ms|)
  {
    NoneBefore(ms, name, from, i);
    RemoveOneFrom(ms, name, from, i);
  }

  /** Setting a value that is there: it is replaced, and later members of the name go. */
  lemma SetIsReplaced(j: Json, o: Object, name: string, value: bytes, i: nat)
    requires i == E.Index(o.members, name) < |o.members|
    ensures E.Set(j, o, name, value)
         == o.(members := DeletedFrom(o.members[i := o.members[i].(value := value)], name, i + 1))
  {
    ReplacedAt(o.members, i, name, value);
  }

  class JsonObject {
    var prefix: bytes
    var members: seq<Member>
    var tail: bytes

    function View(): Object
      reads this
    {
      Object(prefix, members, tail)
    }

    constructor (prefix: bytes, members: seq<Member>, tail: bytes)
      ensures View() == Object(prefix, members, tail)
    {
      this.prefix, this.members, this.tail := prefix, members, tail;
    }

    method Bytes() returns (out: bytes)
      ensures out == PrintObject(View())
    {
      out := prefix;
      for k := 0 to |members|
        invariant out + PrintMembers(members[k..]) == prefix + PrintMembers(members)
      {
        ghost var before := out;
        assert members[k..][1..] == members[k + 1..];
        out := out + members[k].head;
        out := out + members[k].value;
        assert out + PrintMembers(members[k + 1..])
            == before + (members[k].head + members[k].value + PrintMembers(members[k + 1..]));
      }
      assert members[|members|..] == [];
      out := out + tail;
    }

    method IndexOf(name: string) returns (i: int)
      ensures i == if E.Index(members, name) < |members| then E.Index(members, name) else -1
    {
      for k := 0 to |members|
        invariant forall h | 0 <= h < k :: members[h].name != name
      {
        if members[k].name == name {
          return k;
        }
      }
      return -1;
    }

    /** The raw value of the first member called `name`. */
    method Value(name: string) returns (value: Option<bytes>)
      ensures value == E.Lookup(View(), name)
    {
      var i := IndexOf(name);
      value := if i >= 0 then Some(members[i].value) else None;
    }

    method AppendMember(j: Json, name: string, value: bytes)
      modifies this
      ensures View() == E.Append(j, old(View()), name, value)
    {
      var key := j.encode(name);
      var head := E.NewHead(View(), key);
      members := members + [Member(name, head, key, value)];
    }

    method Set(j: Json, name: string, value: bytes)
      modifies this
      ensures View() == E.Set(j, old(View()), name, value)
    {
      var i := IndexOf(name);
      if i < 0 {
        AppendMember(j, name, value);
        return;
      }
      SetIsReplaced(j, View(), name, value, i);
      members := members[i := members[i].(value := value)];
      var _ := DeleteFrom(name, i + 1);
    }

    method Delete(name: string) returns (removed: bool)
      modifies this
      ensures View() == E.Delete(old(View()), name)
      ensures removed <==> exists m :: m in old(members) && m.name == name
    {
      removed := DeleteFrom(name, 0);
      assert !NoneIn(old(members), name, 0, |old(members)|) <==> exists m :: m in old(members) && m.name == name;
    }

    method DeleteFrom(name: string, from: nat) returns (removed: bool)
      requires from <= |members|
      modifies this
      ensures prefix == old(prefix) && tail == old(tail)
      ensures members == DeletedFrom(old(members), name, from)
      ensures removed <==> !NoneIn(old(members), name, from, |old(members)|)
    {
      hide NoneIn, DeletedFrom, RemovedAt;
      removed := false;
      var i := from;
      NoneYet(members, name, from);
      while i < |members|
        invariant from <= i <= |members| && prefix == old(prefix) && tail == old(tail)
        invariant NoneIn(members, name, from, i)
        invariant DeletedFrom(members, name, from) == DeletedFrom(old(members), name, from)
        invariant if removed then !NoneIn(old(members), name, from, |old(members)|) else members == old(members)
        decreases |members| - i
      {
        if members[i].name != name {
          NoneMore(members, name, from, i);
          i := i + 1;
          continue;
        }
        RemoveOneNext(members, name, from, i);
        removed := true;
        RemoveAt(i);
      }
      DeleteNone(members, name, from);
    }

    method RemoveAt(i: nat)
      requires i < |members|
      modifies this
      ensures prefix == old(prefix) && tail == old(tail)
      ensures members == RemovedAt(old(members), i)
    {
      members := members[..i] + members[i + 1..];
      if i == 0 && |members| > 0 {
        var head := members[0].head;
        var k := IndexByte(head, COMMA);
        if k < |head| && IsBlank(head[..k]) {
          members := members[0 := members[0].(head := head[..k] + head[k + 1..])];
        }
      }
    }
  }

  /** Splits a document into members, or says why it cannot be. */
  method ParseObject(j: Json, data: bytes) returns (r: Result<JsonObject, ParseError>)
    ensures Parse(j, data).Err? ==> r == Err(Parse(j, data).error)
    ensures Parse(j, data).Ok? ==> r.Ok? && fresh(r.value) && r.value.View() == Parse(j, data).value
  {
    if !j.valid(data) {
      return Err(InvalidJson);
    }
    ParseIsExact(j, data);
    assert ValidIsText(j, data);
    var i := SkipSpaceFrom(data, 0);
    assert data[0..] == data;
    if i >= |data| || data[i] != OPEN_BRACE {
      return Err(NotObject);
    }
    assert data[i..][1..] == data[i + 1..];
    assert data[..|data| - |data[i..]| + 1] == data[..i + 1];
    var members, tail := ParseMembers(j, data, i + 1);
    var o := new JsonObject(data[..i + 1], members, tail);
    return Ok(o);
  }

  /** The member loop. The precondition says that it meets no index panic, which `ParseIsExact` promises of valid
      texts. */
  method ParseMembers(j: Json, data: bytes, first: nat) returns (members: seq<Member>, tail: bytes)
    requires first <= |data| && SplitMembers(j, data[first..]).Some?
    ensures Some((members, tail)) == SplitMembers(j, data[first..])
  {
    var start := first;
    members := [];
    ghost var more, end := SplitMembers(j, data[first..]).value.0, SplitMembers(j, data[first..]).value.1;
    assert members + more == more;
    while true
      invariant start <= |data| && SplitMembers(j, data[start..]) == Some((more, end))
      invariant SplitMembers(j, data[first..]) == Some((members + more, end))
      decreases |data| - start
    {
      var i := SkipSpaceFrom(data, start);
      assert data[i..] != [];
      if data[i] == CLOSE_BRACE {
        assert members + more == members;
        return members, data[start..];
      }
      var m, next := ParseMember(j, data, start, i);
      RoundLeaves(j, data[start..], m, data[next..], members, more, end);
      members := members + [m];
      more := more[1..];
      start := next;
    }
  }

  /** What is left to read after a member, and what has been read with it. */
  lemma RoundLeaves(j: Json, s: bytes, m: Member, rest: bytes, read: seq<Member>, more: seq<Member>, end: bytes)
    requires SplitMember(j, s) == Read(m, rest) && SplitMembers(j, s) == Some((more, end))
    ensures more != [] && more[0] == m && SplitMembers(j, rest) == Some((more[1..], end))
    ensures read + more == (read + [m]) + more[1..]
  {
    var tail := SplitMembers(j, rest).value.0;
    assert ([m] + tail)[1..] == tail;
  }

  /** What one round of the loop finds when it reads a member. */
  lemma ReadRound(j: Json, s: bytes)
    requires SplitMember(j, s).Read?
    ensures AfterLead(s) != [] && AfterString(AfterLead(s)[1..]).Some?
    ensures SkipSpace(AfterString(AfterLead(s)[1..]).value) != []
    ensures AfterColon(AfterString(AfterLead(s)[1..]).value) != []
    ensures AfterValue(AfterColon(AfterString(AfterLead(s)[1..]).value)).Some?
  {
  }

  lemma RoundAt(j: Json, data: bytes, start: nat, keyStart: nat, end: nat, i: nat, next: nat)
    requires start <= i <= next <= |data| && keyStart < end <= |data|
    requires SplitMember(j, data[start..]).Read?
    requires data[keyStart..] == AfterLead(data[start..])
    requires Some(data[end..]) == AfterString(data[keyStart + 1..])
    requires data[i..] == AfterColon(data[end..])
    requires Some(data[next..]) == AfterValue(data[i..])
    ensures SplitMember(j, data[start..])
         == Read(Member(j.decode(data[keyStart..end]), data[start..i], data[keyStart..end], data[i..next]),
                 data[next..])
  {
    hide SkipSpace, AfterLead, AfterString, AfterColon, AfterValue;
    assert data[keyStart..][1..] == data[keyStart + 1..];
    Slices(data, start, i);
    Slices(data, keyStart, end);
    Slices(data, i, next);
  }

  /** One round of the loop above, after the white space in front of a member. */
  method ParseMember(j: Json, data: bytes, start: nat, space: nat) returns (m: Member, next: nat)
    requires start <= space < |data| && data[space..] == SkipSpace(data[start..])
    requires SplitMember(j, data[start..]).Read?
    ensures start < next <= |data| && SplitMember(j, data[start..]) == Read(m, data[next..])
  {
    ReadRound(j, data[start..]);
    var keyStart := SkipComma(data, start, space);
    assert data[keyStart..][1..] == data[keyStart + 1..];
    var end, i := ScanKey(data, keyStart);
    next := ScanValue(data, i);
    m := Member(j.decode(data[keyStart..end]), data[start..i], data[keyStart..end], data[i..next]);
    RoundAt(j, data, start, keyStart, end, i, next);
  }

  /** Past a key literal, and past the colon after it. */
  method ScanKey(data: bytes, keyStart: nat) returns (end: nat, i: nat)
    requires keyStart < |data| && AfterString(data[keyStart + 1..]).Some?
    requires SkipSpace(AfterString(data[keyStart + 1..]).value) != []
    ensures keyStart < end <= i <= |data|
    ensures Some(data[end..]) == AfterString(data[keyStart + 1..]) && data[i..] == AfterColon(data[end..])
  {
    end := ScanString(data, keyStart);
    i := SkipSpaceFrom(data, end);
    assert data[i..][1..] == data[i + 1..];
    i := SkipSpaceFrom(data, i + 1);
  }

  method SkipComma(data: bytes, start: nat, space: nat) returns (i: nat)
    requires start <= space < |data| && data[space..] == SkipSpace(data[start..])
    ensures space <= i <= |data| && data[i..] == AfterLead(data[start..])
  {
    i := space;
    if data[i] == COMMA {
      assert data[i..][1..] == data[i + 1..];
      i := SkipSpaceFrom(data, i + 1);
    }
  }

  lemma Slices(data: bytes, a: nat, b: nat)
    requires a <= b <= |data|
    ensures data[a..b] == data[a..][..|data[a..]| - |data[b..]|]
  {
  }
}
