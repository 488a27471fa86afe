/** The order of field names, and the in-place insertion sort that puts map keys into it. */
module Ordering {

  /** The order of Go's `<` on strings. */
  predicate Less(a: string, b: string) {
    b != [] && (a == [] || a[0] < b[0] || (a[0] == b[0] && Less(a[1..], b[1..])))
  }

  /** The first text ends where the second goes on, or is smaller at the first character in which they differ. */
  predicate IsBelow(a: string, b: string) {
    exists n | 0 <= n <= |a| && n <= |b| :: IsBelowAt(a, b, n)
  }

  predicate IsBelowAt(a: string, b: string, n: nat) {
    n <= |a| && n < |b| && a[..n] == b[..n] && (n == |a| || a[n] < b[n])
  }

  lemma {:induction false} LessIff(a: string, b: string)
    ensures Less(a, b) <==> IsBelow(a, b)
  {
    if a == [] || b == [] || a[0] != b[0] {
      assert Less(a, b) ==> IsBelowAt(a, b, 0);
      assert forall n | 0 < n <= |a| && n < |b| && a[..n] == b[..n] :: a[..n][0] == b[..n][0];
    } else {
      LessIff(a[1..], b[1..]);
      forall n | 0 <= n < |a| && n < |b| ensures IsBelowAt(a, b, n + 1) <==> IsBelowAt(a[1..], b[1..], n) {
        assert n + 1 <= |b| ==> a[..n + 1] == [a[0]] + a[1..][..n] && b[..n + 1] == [b[0]] + b[1..][..n];
        assert a[..n + 1] == b[..n + 1] ==> a[..n + 1][1..] == b[..n + 1][1..];
      }
      if IsBelow(a, b) {
        var n :| 0 <= n <= |a| && n <= |b| && IsBelowAt(a, b, n);
        assert IsBelowAt(a[1..], b[1..], n - 1);
      }
    }
  }

  lemma {:induction false} LessIsTransitive(a: string, b: string, c: string)
    requires Less(a, b) && Less(b, c)
    ensures Less(a, c)
  {
    if a != [] && a[0] == b[0] == c[0] {
      LessIsTransitive(a[1..], b[1..], c[1..]);
    }
  }

  lemma {:induction false} LessIsTotal(a: string, b: string)
    ensures a == b || Less(a, b) || Less(b, a)
  {
    if a != [] && b != [] && a[0] == b[0] {
      LessIsTotal(a[1..], b[1..]);
      assert a == [a[0]] + a[1..] && b == [b[0]] + b[1..];
    }
  }

  lemma {:induction false} LessIsStrict(a: string, b: string)
    requires Less(a, b)
    ensures !Less(b, a) && a != b
  {
    if a != [] && a[0] == b[0] {
      LessIsStrict(a[1..], b[1..]);
    }
  }

  predicate IsIncreasing(s: seq<string>) {
    forall i, k | 0 <= i < k < |s| :: Less(s[i], s[k])
  }

  ghost predicate IsOrderingOf(s: seq<string>, keys: set<string>) {
    IsIncreasing(s) && (forall k :: k in s <==> k in keys)
  }

  lemma FirstIsIn(s: seq<string>)
    ensures s != [] ==> exists k :: k in s
  {
    if s != [] { assert s[0] in s; }
  }

  /** Two orderings of the same names are equal: the order does not depend on how a map is walked. */
  lemma OrderingIsUnique(a: seq<string>, b: seq<string>)
    requires IsIncreasing(a) && IsIncreasing(b) && forall k :: k in a <==> k in b
    ensures a == b
  {
    FirstIsIn(a);
    FirstIsIn(b);
    if a != [] {
      assert a[0] in b && b != [];
      assert b[0] in a;
      var i :| 0 <= i < |b| && b[i] == a[0];
      var k :| 0 <= k < |a| && a[k] == b[0];
      if a[0] != b[0] {
        LessIsStrict(a[0], b[0]);
      }
      forall x ensures x in a[1..] <==> x in b[1..] {
        SplitFirst(a, x);
        SplitFirst(b, x);
      }
      OrderingIsUnique(a[1..], b[1..]);
      assert a == [a[0]] + a[1..] && b == [b[0]] + b[1..];
    }
  }

  lemma SplitFirst(s: seq<string>, x: string)
    requires IsIncreasing(s) && s != []
    ensures x in s[1..] <==> x in s && x != s[0]
  {
    if x in s[1..] {
      var i :| 1 <= i < |s| && s[i] == x;
      LessIsStrict(s[0], s[i]);
    }
  }

  function Insert(x: string, s: seq<string>): seq<string> {
    if s == [] || Less(x, s[0]) then [x] + s else [s[0]] + Insert(x, s[1..])
  }

  lemma {:induction false} InsertIsIncreasing(x: string, s: seq<string>)
    requires IsIncreasing(s) && x !in s
    ensures IsIncreasing(Insert(x, s))
    ensures forall k :: k in Insert(x, s) <==> k == x || k in s
  {
    if s == [] || Less(x, s[0]) {
      forall k | 0 <= k < |s| ensures Less(x, s[k]) {
        if k > 0 { LessIsTransitive(x, s[0], s[k]); }
      }
    } else {
      InsertIsIncreasing(x, s[1..]);
      LessIsTotal(x, s[0]);
      var r := Insert(x, s[1..]);
      forall k | 0 <= k < |r| ensures Less(s[0], r[k]) {
        assert r[k] in r;
        if r[k] in s[1..] { var i :| 1 <= i < |s| && s[i] == r[k]; }
      }
    }
  }

  ghost function Ordered(keys: set<string>): (s: seq<string>)
    ensures IsOrderingOf(s, keys)
  {
    if keys == {} then [] else
      var x :| x in keys;
      var rest := Ordered(keys - {x});
      InsertIsIncreasing(x, rest);
      Insert(x, rest)
  }

  /** The insertion sort: whatever order the keys arrive in, they leave in the one order of their set. */
  method SortKeys(keys: array<string>)
    requires forall i, k | 0 <= i < k < keys.Length :: keys[i] != keys[k]
    modifies keys
    ensures IsOrderingOf(keys[..], set k | k in old(keys[..]))
    ensures keys[..] == Ordered(set k | k in old(keys[..]))
  {
    hide Less, Ordered;
    ghost var names := set k | k in keys[..];
    var i := 1;
    while i < keys.Length
      invariant 1 <= i && (i <= keys.Length || keys.Length == 0)
      invariant forall a, b | 0 <= a < b < keys.Length :: keys[a] != keys[b]
      invariant keys.Length > 0 ==> IsIncreasing(keys[..i])
      invariant forall k :: k in keys[..] <==> k in names
    {
      var k := i;
      while k > 0 && Less(keys[k], keys[k - 1])
        invariant 0 <= k <= i < keys.Length
        invariant forall a, b | 0 <= a < b < keys.Length :: keys[a] != keys[b]
        invariant forall a, b | 0 <= a < b <= i && b != k :: Less(keys[a], keys[b])
        invariant forall x :: x in keys[..] <==> x in names
      {
        Swap(keys, k);
        k := k - 1;
      }
      SinkDone(keys[..i + 1], k);
      i := i + 1;
    }
    assert keys[..] == keys[..keys.Length];
    OrderingIsUnique(keys[..], Ordered(names));
  }

  method Swap(keys: array<string>, k: nat)
    requires 0 < k < keys.Length
    modifies keys
    ensures keys[k] == old(keys[k - 1]) && keys[k - 1] == old(keys[k])
    ensures forall a | 0 <= a < keys.Length && a != k && a != k - 1 :: keys[a] == old(keys[a])
    ensures forall x :: x in keys[..] <==> x in old(keys[..])
  {
    ghost var was := keys[..];
    keys[k], keys[k - 1] := keys[k - 1], keys[k];
    forall x ensures x in keys[..] <==> x in was {
      if x in was {
        var a :| 0 <= a < |was| && was[a] == x;
        var b := if a == k then k - 1 else if a == k - 1 then k else a;
        assert keys[..][b] == x;
      }
      if x in keys[..] {
        var a :| 0 <= a < keys.Length && keys[..][a] == x;
        var b := if a == k then k - 1 else if a == k - 1 then k else a;
        assert was[b] == x;
      }
    }
  }

  lemma SinkDone(s: seq<string>, k: nat)
    requires k < |s|
    requires forall a, b | 0 <= a < b < |s| && b != k :: Less(s[a], s[b])
    requires forall a, b | 0 <= a < b < |s| :: s[a] != s[b]
    requires k > 0 ==> !Less(s[k], s[k - 1])
    ensures IsIncreasing(s)
  {
    if k > 0 {
      LessIsTotal(s[k], s[k - 1]);
      forall a | 0 <= a < k ensures Less(s[a], s[k]) {
        if a < k - 1 { LessIsTransitive(s[a], s[k - 1], s[k]); }
      }
    }
  }

  /** The map keys in sorted order, whatever order the map is walked in. */
  method OrderedKeys<V>(fields: map<string, V>) returns (keys: seq<string>)
    ensures keys == Ordered(fields.Keys)
  {
    keys := [];
    var left := fields.Keys;
    while left != {}
      invariant forall k :: k in keys <==> k in fields.Keys && k !in left
      invariant forall i, k | 0 <= i < k < |keys| :: keys[i] != keys[k]
      invariant left <= fields.Keys
      decreases |left|
    {
      var name :| name in left;
      left := left - {name};
      keys := keys + [name];
    }
    var sorted := new string[|keys|](i requires 0 <= i < |keys| => keys[i]);
    assert sorted[..] == keys;
    assert (set k | k in keys) == fields.Keys;
    SortKeys(sorted);
    keys := sorted[..];
  }
}
