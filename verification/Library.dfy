/** What the program takes from outside: the JSON library, and the claims hidden in a JWT.

    These calls are parameters of the model. `Json` is any library that accepts exactly the texts of the
    grammar and whose string encoder and decoder undo each other. */
module Library {
  import opened Bytes
  import opened Grammar

  datatype Functions = Functions(
    valid: bytes -> bool,             // json.Valid
    decode: bytes -> string,          // a string literal to the string it denotes
    encode: string -> bytes,          // json.Marshal of a string
    millis: bytes -> Option<int>,     // a number literal other than zero, as whole milliseconds
    jwtAccount: string -> string,     // the account id in a token's claims, "" when there is none
    jwtExpiry: string -> Option<int>  // the expiry in a token's claims
  )

  /** Letters, digits and underscores: names whose literal is the name between quotes. */
  predicate IsPlain(n: string) {
    forall k | 0 <= k < |n| :: '0' <= n[k] <= '9' || 'A' <= n[k] <= 'Z' || n[k] == '_' || 'a' <= n[k] <= 'z'
  }

  function Ascii(n: string): bytes
    requires IsPlain(n)
  {
    seq(|n|, k requires 0 <= k < |n| => n[k] as int as byte)
  }

  ghost predicate ValidIsText(f: Functions, d: bytes) {
    f.valid(d) <==> IsText(d)
  }

  ghost predicate EncodeIsExact(f: Functions, n: string) {
    IsString(f.encode(n)) && f.decode(f.encode(n)) == n && (IsPlain(n) ==> f.encode(n) == [QUOTE] + Ascii(n) + [QUOTE])
  }

  ghost predicate MillisIsNumber(f: Functions, d: bytes) {
    f.millis(d).Some? ==> IsNumber(d)
  }

  ghost predicate IsFaithful(f: Functions) {
    (forall d :: ValidIsText(f, d)) && (forall n :: EncodeIsExact(f, n)) && (forall d :: MillisIsNumber(f, d))
  }

  type Json = f: Functions | IsFaithful(f) ghost witness Example()

  // ---- Such libraries exist ----

  /** A literal for every string: a plain name as it is, any other string as three bytes above 127 for each
      character. */
  function ExampleEncode(n: string): bytes {
    if IsPlain(n) then [QUOTE] + Ascii(n) + [QUOTE] else [QUOTE] + Wide(n) + [QUOTE]
  }

  function Wide(n: string): bytes {
    if n == [] then [] else
      var c := n[0] as int;
      [(128 + c / 16384) as byte, (128 + c / 128 % 128) as byte, (128 + c % 128) as byte] + Wide(n[1..])
  }

  ghost function ExampleDecode(s: bytes): string {
    if exists n :: ExampleEncode(n) == s then var n :| ExampleEncode(n) == s; n else ""
  }

  /** One millisecond for every number literal but 0. */
  ghost function ExampleMillis(d: bytes): Option<int> {
    if IsNumber(d) && d != [48] then Some(1) else None
  }

  /** Some such library. Its functions are kept out of sight: only what it is chosen for is known of it. */
  ghost function Example(): (f: Functions)
    ensures IsFaithful(f) && forall d :: f.millis(d) == ExampleMillis(d)
  {
    ExampleIsFaithful();
    var e := Functions(d => IsText(d), s => ExampleDecode(s), n => ExampleEncode(n), ExampleMillis, _ => "", _ => None);
    assert forall n :: EncodeIsExact(e, n);
    assert IsFaithful(e);
    var f :| IsFaithful(f) && forall d :: f.millis(d) == ExampleMillis(d);
    f
  }

  lemma ExampleIsFaithful()
    ensures forall n :: IsString(ExampleEncode(n)) && ExampleDecode(ExampleEncode(n)) == n
  {
    hide ExampleEncode, ExampleDecode, IsString;
    forall n: string ensures IsString(ExampleEncode(n)) && ExampleDecode(ExampleEncode(n)) == n {
      ExampleIsString(n);
      ExampleIsDecoded(n);
    }
  }

  lemma ExampleIsString(n: string)
    ensures IsString(ExampleEncode(n))
  {
    var inner := if IsPlain(n) then Ascii(n) else Wide(n);
    if !IsPlain(n) { WideIsHigh(n); }
    AllUnescaped(inner);
    assert ExampleEncode(n)[1..|inner| + 1] == inner;
  }

  lemma ExampleIsDecoded(n: string)
    ensures ExampleDecode(ExampleEncode(n)) == n
  {
    hide ExampleEncode;
    var m :| ExampleEncode(m) == ExampleEncode(n) && ExampleDecode(ExampleEncode(n)) == m;
    ExampleIsInjective(n, m);
  }

  lemma AllUnescaped(s: bytes)
    requires forall k | 0 <= k < |s| :: IsUnescaped(s[k])
    ensures IsChars(s)
  {
    if s != [] { AllUnescaped(s[1..]); }
  }

  lemma WideIsHigh(n: string)
    ensures |Wide(n)| == 3 * |n| && forall k | 0 <= k < |Wide(n)| :: Wide(n)[k] >= 128
  {
    if n != [] { WideIsHigh(n[1..]); }
  }

  lemma ThreeBytes(c: nat, d: nat)
    requires c / 16384 == d / 16384 && c / 128 % 128 == d / 128 % 128 && c % 128 == d % 128
    ensures c == d
  {
  }

  lemma WideIsInjective(a: string, b: string)
    requires Wide(a) == Wide(b)
    ensures a == b
  {
    WideIsHigh(a);
    WideIsHigh(b);
    if a != [] {
      assert Wide(a)[0] == Wide(b)[0] && Wide(a)[1] == Wide(b)[1] && Wide(a)[2] == Wide(b)[2];
      ThreeBytes(a[0] as int, b[0] as int);
      assert Wide(a)[3..] == Wide(a[1..]) && Wide(b)[3..] == Wide(b[1..]);
      WideIsInjective(a[1..], b[1..]);
      assert a == [a[0]] + a[1..] && b == [b[0]] + b[1..];
    }
  }

  lemma ExampleIsInjective(a: string, b: string)
    requires ExampleEncode(a) == ExampleEncode(b)
    ensures a == b
  {
    var x := if IsPlain(a) then Ascii(a) else Wide(a);
    var y := if IsPlain(b) then Ascii(b) else Wide(b);
    assert x == ExampleEncode(a)[1..|x| + 1] && y == ExampleEncode(b)[1..|y| + 1] && |x| == |y|;
    if IsPlain(a) && IsPlain(b) {
      forall k | 0 <= k < |a| ensures a[k] == b[k] {
        assert x[k] == y[k];
      }
    } else if !IsPlain(a) && !IsPlain(b) {
      WideIsInjective(a, b);
    } else if IsPlain(a) {
      WideIsHigh(b);
      assert false;
    } else {
      WideIsHigh(a);
      assert false;
    }
  }
}
