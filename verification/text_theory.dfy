/** What the text operations mean, letter by letter and code point by code point. */
module TextTheory {
  import opened Prelude
  import opened Text

  // ----- letter case -----

  /** The same character, or the two cases of one ASCII letter. */
  predicate SameLetter(a: char, b: char) {
    || a == b
    || ('A' <= a <= 'Z' && b as int == a as int + 32)
    || ('A' <= b <= 'Z' && a as int == b as int + 32)
  }

  predicate SameText(a: string, b: string) {
    |a| == |b| && forall i :: 0 <= i < |a| ==> SameLetter(a[i], b[i])
  }

  predicate Capital(c: char) {
    'A' <= c <= 'Z'
  }

  predicate Small(c: char) {
    'a' <= c <= 'z'
  }

  lemma LowerMeans(s: string)
    ensures SameText(Lower(s), s) && forall i :: 0 <= i < |Lower(s)| ==> !Capital(Lower(s)[i])
  {
  }

  lemma UpperMeans(s: string)
    ensures SameText(Upper(s), s) && forall i :: 0 <= i < |Upper(s)| ==> !Small(Upper(s)[i])
  {
  }

  /** Lower-casing decides equality up to case. */
  lemma FoldMeans(a: string, b: string)
    ensures EqualFold(a, b) <==> SameText(a, b)
  {
    if EqualFold(a, b) {
      assert |Lower(a)| == |a| && |Lower(b)| == |b|;
      forall i | 0 <= i < |a| ensures SameLetter(a[i], b[i]) {
        assert Lower(a)[i] == Lower(b)[i];
      }
    }
    if SameText(a, b) {
      forall i | 0 <= i < |a| ensures LowerChar(a[i]) == LowerChar(b[i]) {
        assert SameLetter(a[i], b[i]);
      }
      assert Lower(a) == Lower(b);
    }
  }

  ghost predicate InAnyCaseAt(hay: string, w: string, i: int) {
    0 <= i <= |hay| - |w| && SameText(hay[i..i + |w|], w)
  }

  /** Searching the lowered text for the lowered word finds it in any mix of cases. */
  lemma FoldedSearch(hay: string, w: string)
    ensures Contains(Lower(hay), Lower(w)) <==> exists i :: InAnyCaseAt(hay, w, i)
  {
    forall i ensures OccursAt(Lower(hay), Lower(w), i) <==> InAnyCaseAt(hay, w, i) {
      if 0 <= i <= |hay| - |w| {
        FoldMeans(hay[i..i + |w|], w);
        assert Lower(hay)[i..i + |w|] == Lower(hay[i..i + |w|]);
      }
    }
  }

  // ----- UTF-8 -----

  /** A Unicode scalar value: a code point that is not a surrogate. */
  predicate Scalar(cp: int) {
    0 <= cp < 0xD800 || 0xE000 <= cp < 0x11_0000
  }

  /** Section 3 of RFC 3629. */
  function Encoded(cp: int): (s: string)
    requires Scalar(cp)
    ensures s != "" && |s| <= 4
  {
    if cp < 0x80 then [cp as char]
    else if cp < 0x800 then [(0xC0 + cp / 64) as char, Cont(cp)]
    else if cp < 0x1_0000 then [(0xE0 + cp / 4096) as char, Cont(cp / 64), Cont(cp)]
    else [(0xF0 + cp / 262144) as char, Cont(cp / 4096), Cont(cp / 64), Cont(cp)]
  }

  function Cont(n: int): char {
    (0x80 + n % 64) as char
  }

  /** The text begins with the encoding of a scalar value. */
  ghost predicate BeginsWith(s: string, cp: int) {
    Scalar(cp) && Encoded(cp) <= s
  }

  lemma EncodedIsRune(s: string, cp: int)
    requires BeginsWith(s, cp)
    ensures RuneLen(s) == |Encoded(cp)|
  {
    var e := Encoded(cp);
    assert forall i :: 0 <= i < |e| ==> s[i] == e[i];
  }

  function Six(c: char): int {
    c as int - 128
  }

  /** The code point of a sequence of one to four bytes. */
  function Decoded(s: string, k: nat): int
    requires k <= |s|
  {
    if k == 2 then (s[0] as int - 192) * 64 + Six(s[1])
    else if k == 3 then (s[0] as int - 224) * 4096 + Six(s[1]) * 64 + Six(s[2])
    else if k == 4 then (s[0] as int - 240) * 262144 + Six(s[1]) * 4096 + Six(s[2]) * 64 + Six(s[3])
    else if k == 1 then s[0] as int
    else 0
  }

  lemma TwoBytes(s: string)
    requires |s| == 2 && RuneLen(s) == 2
    ensures BeginsWith(s, Decoded(s, 2)) && Encoded(Decoded(s, 2)) == s
  {
    var x, y := s[0] as int - 192, Six(s[1]);
    assert (x * 64 + y) / 64 == x && (x * 64 + y) % 64 == y;
  }

  lemma ThreeBytes(s: string)
    requires |s| == 3 && RuneLen(s) == 3
    ensures BeginsWith(s, Decoded(s, 3)) && Encoded(Decoded(s, 3)) == s
  {
    var x, y, z := s[0] as int - 224, Six(s[1]), Six(s[2]);
    var cp, high := Decoded(s, 3), x * 64 + y;
    assert 0 <= x < 16 && 0 <= y < 64 && 0 <= z < 64;
    assert cp == high * 64 + z;
    assert cp / 64 == high && cp % 64 == z && high % 64 == y && cp / 4096 == x;
  }

  lemma FourBytes(s: string)
    requires |s| == 4 && RuneLen(s) == 4
    ensures BeginsWith(s, Decoded(s, 4)) && Encoded(Decoded(s, 4)) == s
  {
    var w, x, y, z := s[0] as int - 240, Six(s[1]), Six(s[2]), Six(s[3]);
    var cp, high := Decoded(s, 4), w * 4096 + x * 64 + y;
    assert 0 <= w < 5 && 0 <= x < 64 && 0 <= y < 64 && 0 <= z < 64;
    assert cp == high * 64 + z;
    assert cp / 64 == high && cp % 64 == z && high % 64 == y;
    assert cp / 4096 == w * 64 + x && (w * 64 + x) % 64 == x && cp / 262144 == w;
  }

  lemma RuneIsEncoded(s: string)
    requires s != "" && RuneLen(s) > 0 && s[0] as int < 256
    ensures var k := RuneLen(s); BeginsWith(s, Decoded(s, k)) && Encoded(Decoded(s, k)) == s[..k]
  {
    var k := RuneLen(s);
    var t := s[..k];
    RuneAt(s, t);
    assert Decoded(s, k) == Decoded(t, k);
    if k == 2 {
      TwoBytes(t);
    } else if k == 3 {
      ThreeBytes(t);
    } else if k == 4 {
      FourBytes(t);
    }
  }

  ghost function EncodedAll(cps: seq<int>): string
    requires forall i :: 0 <= i < |cps| ==> Scalar(cps[i])
  {
    if cps == [] then "" else Encoded(cps[0]) + EncodedAll(cps[1..])
  }

  ghost predicate Encodes(cps: seq<int>, s: string) {
    (forall i :: 0 <= i < |cps| ==> Scalar(cps[i])) && s == EncodedAll(cps)
  }

  predicate Bytes(s: string) {
    forall i :: 0 <= i < |s| ==> s[i] as int < 256
  }

  lemma {:induction false} EncodingIsValid(cps: seq<int>, s: string)
    requires Encodes(cps, s)
    ensures ValidUtf8(s)
  {
    if cps != [] {
      var e, rest := Encoded(cps[0]), EncodedAll(cps[1..]);
      assert s == e + rest && e <= s;
      EncodedIsRune(s, cps[0]);
      assert s[|e|..] == rest;
      EncodingIsValid(cps[1..], rest);
    }
  }

  lemma {:induction false} ValidIsEncoding(s: string) returns (cps: seq<int>)
    requires Bytes(s) && ValidUtf8(s)
    ensures Encodes(cps, s)
  {
    if s == "" {
      cps := [];
    } else {
      var k := RuneLen(s);
      RuneIsEncoded(s);
      var rest := ValidIsEncoding(s[k..]);
      cps := [Decoded(s, k)] + rest;
      assert cps[1..] == rest && s == s[..k] + s[k..];
    }
  }

  /** Bytes are well-formed UTF-8 exactly when they encode some sequence of scalar values. */
  lemma ValidUtf8Iff(s: string)
    requires Bytes(s)
    ensures ValidUtf8(s) <==> exists cps :: Encodes(cps, s)
  {
    if ValidUtf8(s) {
      var cps := ValidIsEncoding(s);
    }
    if cps :| Encodes(cps, s) {
      EncodingIsValid(cps, s);
    }
  }
}
