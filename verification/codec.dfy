/** The textual encodings inside tokens and cookies: unpadded base64url (section 5 of RFC 4648)
    and decimal int64. */
module Codec {
  import opened Prelude

  type Bytes = seq<bv8>

  // ----- base64url -----

  function Symbol(n: int): char
    requires 0 <= n < 64
  {
    if n < 26 then 'A' + n as char
    else if n < 52 then 'a' + (n - 26) as char
    else if n < 62 then '0' + (n - 52) as char
    else if n == 62 then '-' else '_'
  }

  predicate InAlphabet(c: char) {
    'A' <= c <= 'Z' || 'a' <= c <= 'z' || '0' <= c <= '9' || c == '-' || c == '_'
  }

  predicate AllInAlphabet(s: string) {
    forall i :: 0 <= i < |s| ==> InAlphabet(s[i])
  }

  function Val(x: bv8): (v: int)
    ensures 0 <= v < 256
  {
    x as int
  }

  /** The symbols of one group of three bytes, given as numbers. */
  function Group(x: int, y: int, z: int): (s: string)
    requires 0 <= x < 256 && 0 <= y < 256 && 0 <= z < 256
    ensures |s| == 4 && AllInAlphabet(s)
  {
    [Symbol(x / 4), Symbol(x % 4 * 16 + y / 16), Symbol(y % 16 * 4 + z / 64), Symbol(z % 64)]
  }

  function EncodeURL(b: Bytes): string {
    if b == [] then ""
    else if |b| == 1 then Group(Val(b[0]), 0, 0)[..2]
    else if |b| == 2 then Group(Val(b[0]), Val(b[1]), 0)[..3]
    else Group(Val(b[0]), Val(b[1]), Val(b[2])) + EncodeURL(b[3..])
  }

  /** An encoding is never empty and has no dot. */
  lemma {:induction false} EncodingAlphabet(b: Bytes)
    ensures AllInAlphabet(EncodeURL(b)) && '.' !in EncodeURL(b)
    ensures EncodeURL(b) == "" <==> b == []
  {
    if |b| >= 3 {
      EncodingAlphabet(b[3..]);
    }
    forall i | 0 <= i < |EncodeURL(b)| ensures InAlphabet(EncodeURL(b)[i]) {
    }
  }

  lemma SymbolInjective(m: int, n: int)
    requires 0 <= m < 64 && 0 <= n < 64
    ensures Symbol(m) == Symbol(n) <==> m == n
  {
  }

  lemma FirstByte(x: int, y: int, x': int, y': int)
    requires 0 <= x < 256 && 0 <= y < 256 && 0 <= x' < 256 && 0 <= y' < 256
    requires x / 4 == x' / 4 && x % 4 * 16 + y / 16 == x' % 4 * 16 + y' / 16
    ensures x == x'
  {
  }

  lemma SecondByte(x: int, y: int, z: int, x': int, y': int, z': int)
    requires 0 <= x < 256 && 0 <= y < 256 && 0 <= z < 256
    requires 0 <= x' < 256 && 0 <= y' < 256 && 0 <= z' < 256
    requires x % 4 * 16 + y / 16 == x' % 4 * 16 + y' / 16 && y % 16 * 4 + z / 64 == y' % 16 * 4 + z' / 64
    ensures y == y'
  {
  }

  lemma ThirdByte(y: int, z: int, y': int, z': int)
    requires 0 <= y < 256 && 0 <= z < 256 && 0 <= y' < 256 && 0 <= z' < 256
    requires y % 16 * 4 + z / 64 == y' % 16 * 4 + z' / 64 && z % 64 == z' % 64
    ensures z == z'
  {
  }

  /** The symbols of a group give back its bytes: the first two the first, and so on. */
  lemma GroupInjective(x: int, y: int, z: int, x': int, y': int, z': int)
    requires 0 <= x < 256 && 0 <= y < 256 && 0 <= z < 256
    requires 0 <= x' < 256 && 0 <= y' < 256 && 0 <= z' < 256
    ensures var g, h := Group(x, y, z), Group(x', y', z');
      && (g[0] == h[0] && g[1] == h[1] ==> x == x')
      && (g[1] == h[1] && g[2] == h[2] ==> y == y')
      && (g[2] == h[2] && g[3] == h[3] ==> z == z')
  {
    var g, h := Group(x, y, z), Group(x', y', z');
    SymbolInjective(x / 4, x' / 4);
    SymbolInjective(x % 4 * 16 + y / 16, x' % 4 * 16 + y' / 16);
    SymbolInjective(y % 16 * 4 + z / 64, y' % 16 * 4 + z' / 64);
    SymbolInjective(z % 64, z' % 64);
    if g[0] == h[0] && g[1] == h[1] { FirstByte(x, y, x', y'); }
    if g[1] == h[1] && g[2] == h[2] { SecondByte(x, y, z, x', y', z'); }
    if g[2] == h[2] && g[3] == h[3] { ThirdByte(y, z, y', z'); }
  }

  lemma SameByte(x: bv8, y: bv8)
    requires Val(x) == Val(y)
    ensures x == y
  {
    assert Val(x) as bv8 == x && Val(y) as bv8 == y;
  }

  lemma {:induction false} EncodedLength(b: Bytes)
    ensures |EncodeURL(b)| == 4 * (|b| / 3) + (if |b| % 3 == 0 then 0 else |b| % 3 + 1)
  {
    if |b| >= 3 {
      EncodedLength(b[3..]);
    }
  }

  /** Different bytes have different encodings. */
  lemma {:induction false} EncodingInjective(a: Bytes, b: Bytes)
    requires EncodeURL(a) == EncodeURL(b)
    ensures a == b
  {
    EncodedLength(a);
    EncodedLength(b);
    assert |a| == |b|;
    if |a| >= 3 {
      FirstGroups(a, b);
      EncodingInjective(a[3..], b[3..]);
      assert a == [a[0], a[1], a[2]] + a[3..] && b == [b[0], b[1], b[2]] + b[3..];
    } else if |a| > 0 {
      ShortInjective(a, b);
    }
  }

  lemma SplitGroup(a: Bytes)
    requires |a| >= 3
    ensures |EncodeURL(a)| >= 4 && EncodeURL(a)[..4] == Group(Val(a[0]), Val(a[1]), Val(a[2]))
    ensures EncodeURL(a)[4..] == EncodeURL(a[3..])
  {
  }

  lemma FirstGroups(a: Bytes, b: Bytes)
    requires |a| == |b| >= 3 && EncodeURL(a) == EncodeURL(b)
    ensures a[0] == b[0] && a[1] == b[1] && a[2] == b[2] && EncodeURL(a[3..]) == EncodeURL(b[3..])
  {
    SplitGroup(a);
    SplitGroup(b);
    GroupInjective(Val(a[0]), Val(a[1]), Val(a[2]), Val(b[0]), Val(b[1]), Val(b[2]));
    SameByte(a[0], b[0]);
    SameByte(a[1], b[1]);
    SameByte(a[2], b[2]);
  }

  lemma ShortInjective(a: Bytes, b: Bytes)
    requires 0 < |a| == |b| < 3 && EncodeURL(a) == EncodeURL(b)
    ensures a == b
  {
    var e, f := EncodeURL(a), EncodeURL(b);
    assert e[0] == f[0] && e[1] == f[1];
    var y, y' := if |a| == 1 then 0 else Val(a[1]), if |a| == 1 then 0 else Val(b[1]);
    GroupInjective(Val(a[0]), y, 0, Val(b[0]), y', 0);
    SameByte(a[0], b[0]);
    if |a| == 2 {
      assert e[2] == f[2];
      SameByte(a[1], b[1]);
    }
  }

  // ----- decimal int64 -----

  predicate IsInt64(n: int) {
    -0x8000_0000_0000_0000 <= n < 0x8000_0000_0000_0000
  }

  predicate IsDigit(c: char) {
    '0' <= c <= '9'
  }

  predicate AllDigits(s: string) {
    forall i :: 0 <= i < |s| ==> IsDigit(s[i])
  }

  function Digits(n: nat): (s: string)
    ensures s != "" && AllDigits(s)
  {
    var d := '0' + (n % 10) as char;
    if n < 10 then [d] else Digits(n / 10) + [d]
  }

  function FormatInt(n: int): string {
    if n < 0 then "-" + Digits(-n) else Digits(n)
  }

  function DigitsValue(s: string): nat
    requires AllDigits(s)
  {
    if s == "" then 0 else 10 * DigitsValue(s[..|s| - 1]) + (s[|s| - 1] - '0') as int
  }

  /** ParseInt(s, 10, 64): an optional sign, then at least one digit, in range. */
  function ParseInt64(s: string): Option<int> {
    var signed := s != "" && (s[0] == '+' || s[0] == '-');
    var digits := if signed then s[1..] else s;
    if digits == "" || !AllDigits(digits) then None
    else
      var v: int := DigitsValue(digits);
      var n := if signed && s[0] == '-' then -v else v;
      if IsInt64(n) then Some(n) else None
  }

  lemma {:induction false} DigitsRoundTrip(n: nat)
    ensures DigitsValue(Digits(n)) == n
  {
    if n >= 10 {
      DigitsRoundTrip(n / 10);
      var s := Digits(n);
      assert s[..|s| - 1] == Digits(n / 10);
    }
  }

  lemma FormatRoundTrip(n: int)
    requires IsInt64(n)
    ensures ParseInt64(FormatInt(n)) == Some(n)
    ensures forall i :: 0 <= i < |FormatInt(n)| ==> FormatInt(n)[i] != '.'
  {
    DigitsRoundTrip(if n < 0 then -n else n);
    if n < 0 {
      assert FormatInt(n)[1..] == Digits(-n);
    } else {
      assert IsDigit(FormatInt(n)[0]);
    }
  }
}
