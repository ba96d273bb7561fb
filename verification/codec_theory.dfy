/** The textual encodings against their definitions: base64url bit by bit, and which texts are
    decimal numbers. */
module CodecTheory {
  import opened Prelude
  import opened Codec

  // ----- base64url -----

  /** The six-bit value of a symbol, by its ASCII code (table 2 of RFC 4648). */
  function SymbolValue(c: char): int {
    var n := c as int;
    if 65 <= n < 91 then n - 65
    else if 97 <= n < 123 then n - 97 + 26
    else if 48 <= n < 58 then n - 48 + 52
    else if c == '-' then 62
    else if c == '_' then 63
    else 64
  }

  lemma SymbolHasValue(n: int)
    requires 0 <= n < 64
    ensures SymbolValue(Symbol(n)) == n
  {
  }

  function ByteAt(b: Bytes, i: nat): int {
    if i < |b| then Val(b[i]) else 0
  }

  function ValueAt(s: string, i: nat): int {
    if i < |s| then SymbolValue(s[i]) else 0
  }

  function Drop<T>(s: seq<T>, n: nat): (r: seq<T>)
    ensures |r| == if |s| <= n then 0 else |s| - n
  {
    if |s| <= n then [] else s[n..]
  }

  function ByteNumber(b: Bytes): int {
    65536 * ByteAt(b, 0) + 256 * ByteAt(b, 1) + ByteAt(b, 2)
  }

  function SymbolNumber(s: string): int {
    262144 * ValueAt(s, 0) + 4096 * ValueAt(s, 1) + 64 * ValueAt(s, 2) + ValueAt(s, 3)
  }

  /** The bytes three by three as 24-bit numbers, with zeros for what is missing at the end. */
  function ByteGroups(b: Bytes): seq<int>
    decreases |b|
  {
    if b == [] then [] else [ByteNumber(b)] + ByteGroups(Drop(b, 3))
  }

  /** The symbols four by four as 24-bit numbers, with zeros for what is missing at the end. */
  function SymbolGroups(s: string): seq<int>
    decreases |s|
  {
    if s == "" then [] else [SymbolNumber(s)] + SymbolGroups(Drop(s, 4))
  }

  lemma Bits24(x: int, y: int, z: int)
    ensures 65536 * x + 256 * y + z == 262144 * (x / 4) + 4096 * (x % 4 * 16 + y / 16) + 64 * (y % 16 * 4 + z / 64) + z % 64
  {
    assert x == 4 * (x / 4) + x % 4 && y == 16 * (y / 16) + y % 16 && z == 64 * (z / 64) + z % 64;
  }

  /** The value of each symbol of a group. */
  lemma GroupValues(x: int, y: int, z: int)
    requires 0 <= x < 256 && 0 <= y < 256 && 0 <= z < 256
    ensures var g := Group(x, y, z);
      && SymbolValue(g[0]) == x / 4 && SymbolValue(g[1]) == x % 4 * 16 + y / 16
      && SymbolValue(g[2]) == y % 16 * 4 + z / 64 && SymbolValue(g[3]) == z % 64
  {
    SymbolHasValue(x / 4);
    SymbolHasValue(x % 4 * 16 + y / 16);
    SymbolHasValue(y % 16 * 4 + z / 64);
    SymbolHasValue(z % 64);
  }

  lemma FirstValues(b: Bytes)
    requires b != []
    ensures var s, x, y, z := EncodeURL(b), ByteAt(b, 0), ByteAt(b, 1), ByteAt(b, 2);
      && ValueAt(s, 0) == x / 4 && ValueAt(s, 1) == x % 4 * 16 + y / 16
      && ValueAt(s, 2) == y % 16 * 4 + z / 64 && ValueAt(s, 3) == z % 64
  {
    GroupValues(ByteAt(b, 0), ByteAt(b, 1), ByteAt(b, 2));
  }

  lemma LaterSymbols(b: Bytes)
    requires b != []
    ensures EncodeURL(b) != "" && Drop(EncodeURL(b), 4) == EncodeURL(Drop(b, 3))
  {
    EncodedLength(b);
    if |b| >= 3 {
      SplitGroup(b);
    }
  }

  /** Encoding keeps the bits: three bytes and their four symbols are the same 24-bit number, with
      zeros for what is missing at the end; and there are as many symbols as it takes to cover
      all bits, each from the alphabet. */
  lemma {:induction false} EncodingKeepsBits(b: Bytes)
    ensures |EncodeURL(b)| == (8 * |b| + 5) / 6
    ensures forall i :: 0 <= i < |EncodeURL(b)| ==> SymbolValue(EncodeURL(b)[i]) < 64
    ensures SymbolGroups(EncodeURL(b)) == ByteGroups(b)
  {
    EncodedLength(b);
    EncodingAlphabet(b);
    forall i | 0 <= i < |EncodeURL(b)| ensures SymbolValue(EncodeURL(b)[i]) < 64 {
      assert InAlphabet(EncodeURL(b)[i]);
    }
    SameGroups(b);
  }

  lemma SameNumber(b: Bytes)
    requires b != []
    ensures SymbolNumber(EncodeURL(b)) == ByteNumber(b)
  {
    FirstValues(b);
    Bits24(ByteAt(b, 0), ByteAt(b, 1), ByteAt(b, 2));
  }

  lemma GroupsLonger(b: Bytes, s: string)
    requires b != [] && s != "" && SymbolNumber(s) == ByteNumber(b) && SymbolGroups(Drop(s, 4)) == ByteGroups(Drop(b, 3))
    ensures SymbolGroups(s) == ByteGroups(b)
  {
  }

  lemma {:induction false} SameGroups(b: Bytes)
    ensures SymbolGroups(EncodeURL(b)) == ByteGroups(b)
    decreases |b|
  {
    if b != [] {
      SameGroups(Drop(b, 3));
      LaterSymbols(b);
      SameNumber(b);
      GroupsLonger(b, EncodeURL(b));
    }
  }

  // ----- decimal int64 -----

  function Zeros(n: nat): string {
    seq(n, _ => '0')
  }

  /** One more digit. */
  lemma DigitsGrow(v: nat, d: nat)
    requires d < 10
    ensures Digits(10 * v + d) == if v == 0 then ['0' + d as char] else Digits(v) + ['0' + d as char]
  {
    assert (10 * v + d) / 10 == v && (10 * v + d) % 10 == d;
  }

  lemma OneMoreZero(z: nat)
    ensures Zeros(z) + Digits(0) == Zeros(z + 1)
  {
    assert Digits(0) == "0";
  }

  /** The digits of a padded number, and one more. */
  lemma PaddedGrows(init: string, v: nat, z: nat, d: nat) returns (z': nat)
    requires d < 10 && init == Zeros(z) + Digits(v)
    ensures init + ['0' + d as char] == Zeros(z') + Digits(10 * v + d)
  {
    DigitsGrow(v, d);
    if v == 0 {
      OneMoreZero(z);
      z' := z + 1;
    } else {
      z' := z;
    }
  }

  lemma OneDigit(s: string)
    requires |s| == 1 && AllDigits(s)
    ensures s == Zeros(0) + Digits(DigitsValue(s))
  {
    var d := (s[0] - '0') as int;
    assert IsDigit(s[0]) && s[..0] == "";
    DigitsGrow(0, d);
  }

  lemma ValueGrows(s: string)
    requires s != "" && AllDigits(s)
    ensures var init, d := s[..|s| - 1], (s[|s| - 1] - '0') as int;
      0 <= d < 10 && s == init + ['0' + d as char] && AllDigits(init) && DigitsValue(s) == 10 * DigitsValue(init) + d
  {
    assert IsDigit(s[|s| - 1]);
  }

  lemma {:induction false} PaddedDigits(s: string) returns (z: nat)
    requires s != "" && AllDigits(s)
    ensures s == Zeros(z) + Digits(DigitsValue(s))
  {
    if |s| == 1 {
      OneDigit(s);
      return 0;
    }
    ValueGrows(s);
    var init, d := s[..|s| - 1], (s[|s| - 1] - '0') as int;
    z := PaddedDigits(init);
    z := PaddedGrows(init, DigitsValue(init), z, d);
  }

  lemma {:induction false} PaddingIsZero(z: nat, s: string)
    requires AllDigits(s)
    ensures AllDigits(Zeros(z) + s) && DigitsValue(Zeros(z) + s) == DigitsValue(s)
  {
    var t := Zeros(z) + s;
    if s == "" {
      ZerosAreZero(z);
      assert t == Zeros(z);
    } else {
      assert t[..|t| - 1] == Zeros(z) + s[..|s| - 1];
      PaddingIsZero(z, s[..|s| - 1]);
    }
  }

  lemma {:induction false} ZerosAreZero(z: nat)
    ensures AllDigits(Zeros(z)) && DigitsValue(Zeros(z)) == 0
  {
    if z != 0 {
      assert Zeros(z)[..z - 1] == Zeros(z - 1);
      ZerosAreZero(z - 1);
    }
  }

  /** `s` is the number `n` in decimal: a sign, which may be missing for a number that is not
      negative, any zeros, and its digits. */
  ghost predicate Numeral(s: string, n: int, z: nat) {
    || (n >= 0 && (s == Zeros(z) + Digits(n) || s == "+" + (Zeros(z) + Digits(n))))
    || (n <= 0 && s == "-" + (Zeros(z) + Digits(-n)))
  }

  lemma NumeralParses(digits: string, v: nat, z: nat)
    requires digits == Zeros(z) + Digits(v)
    ensures digits != "" && AllDigits(digits) && DigitsValue(digits) == v && IsDigit(digits[0])
  {
    PaddingIsZero(z, Digits(v));
    DigitsRoundTrip(v);
    assert AllDigits(digits);
  }

  lemma ParsedIsNumeral(s: string, n: int)
    requires ParseInt64(s) == Some(n)
    ensures exists z :: Numeral(s, n, z)
  {
    var signed := s[0] == '+' || s[0] == '-';
    var digits := if signed then s[1..] else s;
    if signed {
      assert s == [s[0]] + digits;
    }
    var z := PaddedDigits(digits);
    WrittenIsNumeral(s, digits, n, z);
  }

  lemma WrittenIsNumeral(s: string, digits: string, n: int, z: nat)
    requires digits == Zeros(z) + Digits(if n < 0 then -n else n)
    requires (n >= 0 && (s == digits || s == "+" + digits)) || (n <= 0 && s == "-" + digits)
    ensures Numeral(s, n, z)
  {
  }

  lemma NumeralIsParsed(s: string, n: int, z: nat)
    requires Numeral(s, n, z) && IsInt64(n)
    ensures ParseInt64(s) == Some(n)
  {
    var v := if n < 0 then -n else n;
    var digits := Zeros(z) + Digits(v);
    NumeralParses(digits, v, z);
    if s != digits {
      SignedParses(s, digits);
    }
  }

  lemma SignedParses(s: string, digits: string)
    requires s != "" && digits != "" && AllDigits(digits) && (s == "+" + digits || s == "-" + digits)
    ensures var v: int := DigitsValue(digits); var n := if s[0] == '-' then -v else v;
      ParseInt64(s) == if IsInt64(n) then Some(n) else None
  {
    assert s[1..] == digits;
  }

  /** A text parses as a number exactly when it is a numeral for it and the number fits 64 bits. */
  lemma ParsesIff(s: string, n: int)
    ensures ParseInt64(s) == Some(n) <==>
            -9_223_372_036_854_775_808 <= n <= 9_223_372_036_854_775_807 && exists z :: Numeral(s, n, z)
  {
    if ParseInt64(s) == Some(n) {
      ParsedIsNumeral(s, n);
    }
    if IsInt64(n) {
      if z :| Numeral(s, n, z) {
        NumeralIsParsed(s, n, z);
      }
    }
  }
}
