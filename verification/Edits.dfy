/** The edits of an object, what they do to the ordered names and values it holds, and to its bytes. */
module Edits {
  import opened Bytes
  import opened Library
  import opened Editor

  /** The index of the first member called `name`, or the number of members. */
  function Index(ms: seq<Member>, name: string): (i: nat)
    ensures i <= |ms|
    ensures i < |ms| ==> ms[i].name == name
    ensures forall k | 0 <= k < i :: ms[k].name != name
  {
    if ms == [] || ms[0].name == name then 0 else 1 + Index(ms[1..], name)
  }

  /** The value the editor reads for `name`: that of the first member with this name. */
  function Lookup(o: Object, name: string): Option<bytes> {
    var i := Index(o.members, name);
    if i < |o.members| then Some(o.members[i].value) else None
  }

  /** The bytes of a head before and after the key literal. */
  function SplitHead(m: Member): (bytes, bytes) {
    match IndexOf(m.head, m.key)
    case None => ([], [COLON])
    case Some(i) => if i + |m.key| <= |m.head| then (m.head[..i], m.head[i + |m.key|..]) else ([], [COLON])
  }

  /** The bytes that introduce a member appended with this key literal, in the style of the members before it. */
  function NewHead(o: Object, key: bytes): bytes {
    var n := |o.members|;
    if n > 0 then
      var (before, after) := SplitHead(o.members[n - 1]);
      (if n == 1 then [COMMA] + before else before) + key + after
    else
      var line := PastLastByte(o.tail, NEWLINE);
      if line > 0 then
        var closing := o.tail[line..];
        [NEWLINE] + closing[..IndexByte(closing, CLOSE_BRACE)] + [SPACE, SPACE] + key + [COLON, SPACE]
      else
        key + [COLON]
  }

  function Append(j: Json, o: Object, name: string, value: bytes): Object {
    var key := j.encode(name);
    o.(members := o.members + [Member(name, NewHead(o, key), key, value)])
  }

  /** The members not called by any of `names`. */
  function Without(ms: seq<Member>, names: set<string>): seq<Member> {
    if ms == [] then []
    else (if ms[0].name in names then [] else [ms[0]]) + Without(ms[1..], names)
  }

  /** A member whose head has lost the comma it starts with. */
  function Unlead(m: Member): Member {
    var k := IndexByte(m.head, COMMA);
    if k < |m.head| && IsBlank(m.head[..k]) then m.(head := m.head[..k] + m.head[k + 1..]) else m
  }

  /** Removing members: the others stay as they are, except that a member that becomes the first loses its comma. */
  function WithoutLed(ms: seq<Member>, names: set<string>): seq<Member> {
    var rest := Without(ms, names);
    if rest != [] && ms != [] && ms[0].name in names then [Unlead(rest[0])] + rest[1..] else rest
  }

  function DeleteAll(o: Object, names: set<string>): Object {
    o.(members := WithoutLed(o.members, names))
  }

  function Delete(o: Object, name: string): Object {
    DeleteAll(o, {name})
  }

  /** Replacing the value of a name, or appending it; later members of that name go. */
  function Set(j: Json, o: Object, name: string, value: bytes): Object {
    var i := Index(o.members, name);
    if i == |o.members| then Append(j, o, name, value)
    else o.(members := o.members[..i] + [o.members[i].(value := value)] + Without(o.members[i + 1..], {name}))
  }

  // ---- Edits on the ordered names and values ----

  /** The values of all members called `name`, in order. The first is what the editor reads, the last what a
      map-based reader keeps. */
  function Values(ms: seq<Member>, name: string): seq<bytes> {
    if ms == [] then []
    else (if ms[0].name == name then [ms[0].value] else []) + Values(ms[1..], name)
  }

  lemma {:induction false} ValuesConcat(a: seq<Member>, b: seq<Member>, name: string)
    ensures Values(a + b, name) == Values(a, name) + Values(b, name)
  {
    if a == [] {
      assert a + b == b;
    } else {
      assert (a + b)[1..] == a[1..] + b;
      ValuesConcat(a[1..], b, name);
    }
  }

  lemma {:induction false} WithoutConcat(a: seq<Member>, b: seq<Member>, names: set<string>)
    ensures Without(a + b, names) == Without(a, names) + Without(b, names)
  {
    if a == [] {
      assert a + b == b;
    } else {
      assert (a + b)[1..] == a[1..] + b;
      WithoutConcat(a[1..], b, names);
    }
  }

  lemma WithoutAround(a: seq<Member>, m: Member, b: seq<Member>, names: set<string>)
    ensures Without(a + [m] + b, names) == Without(a, names) + (if m.name in names then [] else [m]) + Without(b, names)
  {
    WithoutConcat(a + [m], b, names);
    WithoutConcat(a, [m], names);
    assert [m][1..] == [];
  }

  lemma {:induction false} ValuesWithout(ms: seq<Member>, names: set<string>, name: string)
    ensures Values(Without(ms, names), name) == if name in names then [] else Values(ms, name)
  {
    if ms != [] {
      ValuesWithout(ms[1..], names, name);
      var kept := if ms[0].name in names then [] else [ms[0]];
      ValuesConcat(kept, Without(ms[1..], names), name);
      if kept != [] {
        assert kept[1..] == [];
      }
    }
  }

  lemma {:induction false} ValuesNone(ms: seq<Member>, name: string)
    ensures Values(ms, name) == [] <==> forall k | 0 <= k < |ms| :: ms[k].name != name
  {
    if ms != [] {
      ValuesNone(ms[1..], name);
      assert forall k | 1 <= k < |ms| :: ms[k] == ms[1..][k - 1];
    }
  }

  lemma {:induction false} WithoutNone(ms: seq<Member>, names: set<string>)
    requires forall k | 0 <= k < |ms| :: ms[k].name !in names
    ensures Without(ms, names) == ms
  {
    if ms != [] {
      WithoutNone(ms[1..], names);
    }
  }

  /** The editor reads the first of the values of a name. */
  lemma LookupIsFirst(o: Object, name: string)
    ensures Lookup(o, name) == if Values(o.members, name) == [] then None else Some(Values(o.members, name)[0])
  {
    var i, ms := Index(o.members, name), o.members;
    ValuesNone(ms[..i], name);
    assert ms == ms[..i] + ms[i..];
    ValuesConcat(ms[..i], ms[i..], name);
  }

  lemma ValuesAppend(j: Json, o: Object, name: string, value: bytes, other: string)
    ensures Values(Append(j, o, name, value).members, other)
         == Values(o.members, other) + if other == name then [value] else []
  {
    var m := Append(j, o, name, value).members[|o.members|];
    ValuesConcat(o.members, [m], other);
    assert [m][1..] == [];
  }

  lemma ValuesAround(a: seq<Member>, m: Member, b: seq<Member>, name: string)
    ensures Values(a + [m] + b, name) == Values(a, name) + (if m.name == name then [m.value] else []) + Values(b, name)
  {
    ValuesConcat(a + [m], b, name);
    ValuesConcat(a, [m], name);
    assert [m][1..] == [];
  }

  /** The members before, at and after the first one called `name`. */
  lemma ValuesAtIndex(ms: seq<Member>, name: string, other: string)
    requires Index(ms, name) < |ms|
    ensures var i := Index(ms, name);
            && Values(ms, other)
               == Values(ms[..i], other) + (if other == name then [ms[i].value] else []) + Values(ms[i + 1..], other)
            && Values(ms[..i], name) == []
  {
    var i := Index(ms, name);
    ValuesNone(ms[..i], name);
    assert ms == ms[..i] + [ms[i]] + ms[i + 1..];
    ValuesAround(ms[..i], ms[i], ms[i + 1..], other);
  }

  /** After a set the name has exactly the new value and every other name the values it had. */
  lemma ValuesSet(j: Json, o: Object, name: string, value: bytes, other: string)
    ensures Values(Set(j, o, name, value).members, other)
         == if other == name then [value] else Values(o.members, other)
  {
    var i, ms := Index(o.members, name), o.members;
    if i == |ms| {
      ValuesNone(ms, name);
      ValuesAppend(j, o, name, value, other);
    } else {
      ValuesAtIndex(ms, name, other);
      ValuesAround(ms[..i], ms[i].(value := value), Without(ms[i + 1..], {name}), other);
      ValuesWithout(ms[i + 1..], {name}, other);
    }
  }

  lemma ValuesUnlead(ms: seq<Member>, name: string)
    requires ms != []
    ensures Values([Unlead(ms[0])] + ms[1..], name) == Values(ms, name)
  {
    assert ([Unlead(ms[0])] + ms[1..])[1..] == ms[1..];
  }

  /** After a delete the names are gone and every other name has the values it had. */
  lemma ValuesDelete(o: Object, names: set<string>, other: string)
    ensures Values(DeleteAll(o, names).members, other) == if other in names then [] else Values(o.members, other)
  {
    ValuesWithout(o.members, names, other);
    var rest := Without(o.members, names);
    if rest != [] {
      ValuesUnlead(rest, other);
    }
  }

  lemma {:induction false} IndexAt(a: seq<Member>, m: Member, b: seq<Member>, name: string)
    requires m.name == name && forall k | 0 <= k < |a| :: a[k].name != name
    ensures Index(a + [m] + b, name) == |a|
  {
    var ms := a + [m] + b;
    if a == [] {
      assert ms[0] == m;
    } else {
      assert ms[1..] == a[1..] + [m] + b && ms[0] == a[0];
      IndexAt(a[1..], m, b, name);
    }
  }

  /** A set, seen from the member it changes. */
  lemma SetMiddle(j: Json, o: Object, a: seq<Member>, m: Member, b: seq<Member>, name: string, value: bytes)
    requires o.members == a + [m] + b && m.name == name && forall k | 0 <= k < |a| :: a[k].name != name
    ensures Set(j, o, name, value) == o.(members := a + [m.(value := value)] + Without(b, {name}))
  {
    IndexAt(a, m, b, name);
    assert o.members[..|a|] == a && o.members[|a| + 1..] == b;
  }

  /** Setting a name to the only value it has changes nothing. */
  lemma SetNothing(j: Json, o: Object, name: string, value: bytes)
    requires Values(o.members, name) == [value]
    ensures Set(j, o, name, value) == o
  {
    var i, ms := Index(o.members, name), o.members;
    ValuesNone(ms, name);
    ValuesAtIndex(ms, name, name);
    assert ms == ms[..i] + [ms[i]] + ms[i + 1..];
    SetMiddle(j, o, ms[..i], ms[i], ms[i + 1..], name, value);
    OnlyValue(ms[i].value, Values(ms[i + 1..], name), value);
    ValuesNone(ms[i + 1..], name);
    WithoutNone(ms[i + 1..], {name});
  }

  lemma OnlyValue(v: bytes, more: seq<bytes>, value: bytes)
    requires [] + [v] + more == [value]
    ensures v == value && more == []
  {
    assert ([] + [v] + more)[0] == v && |[] + [v] + more| == 1 + |more|;
  }

  /** Deleting names no member has changes nothing. */
  lemma DeleteNothing(o: Object, names: set<string>)
    requires forall n | n in names :: Values(o.members, n) == []
    ensures DeleteAll(o, names) == o
  {
    forall k | 0 <= k < |o.members| ensures o.members[k].name !in names {
      ValuesNone(o.members, o.members[k].name);
    }
    WithoutNone(o.members, names);
  }

  /** The second of two sets wins, whatever the first one wrote. */
  lemma SetTwice(j: Json, o: Object, name: string, first: bytes, second: bytes)
    ensures Set(j, Set(j, o, name, first), name, second) == Set(j, o, name, second)
  {
    var p := Set(j, o, name, first);
    var i, ms := Index(o.members, name), o.members;
    if i == |ms| {
      var m := p.members[i];
      assert p.members == ms + [m] + [];
      SetMiddle(j, p, ms, m, [], name, second);
      assert ms + [m.(value := second)] + [] == ms + [m.(value := second)];
    } else {
      assert ms == ms[..i] + [ms[i]] + ms[i + 1..];
      SetMiddle(j, o, ms[..i], ms[i], ms[i + 1..], name, first);
      SetMiddle(j, p, ms[..i], ms[i].(value := first), Without(ms[i + 1..], {name}), name, second);
      SetMiddle(j, o, ms[..i], ms[i], ms[i + 1..], name, second);
      WithoutUnion(ms[i + 1..], {name}, {name});
      assert {name} + {name} == {name};
    }
  }

  /** A delete undoes the append of a new name exactly. */
  lemma DeleteAppended(j: Json, o: Object, name: string, value: bytes)
    requires Values(o.members, name) == []
    ensures Delete(Append(j, o, name, value), name) == o
  {
    ValuesNone(o.members, name);
    WithoutNone(o.members, {name});
    var m := Append(j, o, name, value).members[|o.members|];
    WithoutConcat(o.members, [m], {name});
    assert [m][1..] == [];
    assert Without([m], {name}) == [];
  }

  /** Deleting sets of names one after the other is deleting their union: the order does not matter. */
  lemma DeleteUnion(o: Object, a: set<string>, b: set<string>)
    ensures DeleteAll(DeleteAll(o, a), b) == DeleteAll(o, a + b)
  {
    var ms := o.members;
    WithoutUnion(ms, a, b);
    var rest := Without(ms, a);
    if rest != [] {
      var led := [Unlead(rest[0])] + rest[1..];
      assert led[1..] == rest[1..];
      if ms[0].name !in a {
        assert rest[0] == ms[0];
      }
    }
  }

  lemma {:induction false} WithoutUnion(ms: seq<Member>, a: set<string>, b: set<string>)
    ensures Without(Without(ms, a), b) == Without(ms, a + b)
  {
    if ms != [] {
      WithoutUnion(ms[1..], a, b);
      var kept := if ms[0].name in a then [] else [ms[0]];
      WithoutConcat(kept, Without(ms[1..], a), b);
      if kept != [] {
        assert kept[1..] == [];
        assert Without(kept, b) == if ms[0].name in b then [] else [ms[0]];
      }
    }
  }
}
