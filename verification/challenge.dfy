/** Challenge tokens, their proof of work, and the session cookie. HMAC-SHA256 and SHA-256 are
    arbitrary functions to 32 bytes. */
module Challenge {
  import opened Prelude
  import opened Codec

  type Digest = b: seq<bv8> | |b| == 32 witness seq(32, _ => 0)

  /** The keyed and the plain hash. */
  datatype Crypto = Crypto(hmac: string -> Digest, sha256: string -> Digest)

  const VERIFY_PATH := "/_smoker/verify"

  /** Seconds since the Unix epoch of a reading in nanoseconds since Go's zero time. */
  function Unix(t: Time): int {
    t / 1_000_000_000 - 62_135_596_800
  }

  // ----- tokens -----

  function Sign(c: Crypto, msg: string): string {
    EncodeURL(c.hmac(msg))
  }

  function IssueToken(c: Crypto, bits: int, now: Time, ttl: Time): string {
    var exp := FormatInt(Unix(now + ttl));
    exp + "." + FormatInt(bits) + "." + Sign(c, exp + "|" + FormatInt(bits))
  }

  /** The text before the first dot and the text after it. */
  function CutDot(s: string): (r: Option<(string, string)>)
    ensures r.Some? ==> s == r.value.0 + "." + r.value.1 && '.' !in r.value.0
    ensures r.None? ==> '.' !in s
  {
    if s == "" then None
    else if s[0] == '.' then Some(("", s[1..]))
    else
      var r := CutDot(s[1..]);
      if r.None? then None else Some(([s[0]] + r.value.0, r.value.1))
  }

  function ValidateToken(c: Crypto, token: string, now: Time): Option<int> {
    var first := CutDot(token);
    if first.None? then None
    else
      var second := CutDot(first.value.1);
      if second.None? then None
      else
        var expStr, bitsStr, mac := first.value.0, second.value.0, second.value.1;
        var exp, bits := ParseInt64(expStr), ParseInt64(bitsStr);
        if exp.None? || bits.None? || Unix(now) > exp.value then None
        else if mac != Sign(c, expStr + "|" + bitsStr) then None
        else bits
  }

  lemma {:induction false} CutDotUnique(a: string, rest: string)
    requires '.' !in a
    ensures CutDot(a + "." + rest) == Some((a, rest))
  {
    var s := a + "." + rest;
    if a != "" {
      CutDotUnique(a[1..], rest);
      assert s[1..] == a[1..] + "." + rest && a == [a[0]] + a[1..];
    } else {
      assert s[1..] == rest;
    }
  }

  /** The text `e.b.mac`, where the mac is the encoded keyed hash of `e|b`. */
  ghost predicate IsToken(c: Crypto, token: string, e: string, b: string) {
    token == e + "." + (b + "." + EncodeURL(c.hmac(e + "|" + b)))
  }

  /** Seconds since the Unix epoch, which is 719162 days after Go's zero time. */
  function EpochSeconds(now: Time): int {
    (now - 719_162 * 86_400_000_000_000) / 1_000_000_000
  }

  lemma UnixIsEpoch(t: Time)
    ensures Unix(t) == EpochSeconds(t)
  {
  }

  ghost predicate WellSigned(c: Crypto, token: string, now: Time, bits: int, e: string, b: string) {
    && '.' !in e && '.' !in b && IsToken(c, token, e, b)
    && ParseInt64(b) == Some(bits) && ParseInt64(e).Some? && EpochSeconds(now) <= ParseInt64(e).value
  }

  /** The accepted tokens are exactly e.b.mac(e|b) with both fields decimal and e not past. */
  lemma AcceptedTokens(c: Crypto, token: string, now: Time, bits: int)
    ensures ValidateToken(c, token, now) == Some(bits) <==> exists e, b :: WellSigned(c, token, now, bits, e, b)
  {
    if ValidateToken(c, token, now) == Some(bits) {
      var first := CutDot(token).value;
      var second := CutDot(first.1).value;
      UnixIsEpoch(now);
      assert WellSigned(c, token, now, bits, first.0, second.0);
    }
    if e, b :| WellSigned(c, token, now, bits, e, b) {
      UnixIsEpoch(now);
      assert token == e + "." + b + "." + Sign(c, e + "|" + b);
      SignedIsValid(c, e, b, now);
    }
  }

  /** A token gives back its difficulty until its expiry second has passed, and nothing after. */
  lemma TokenRoundTrip(c: Crypto, bits: int, issued: Time, ttl: Time, now: Time)
    requires IsInt64(bits) && IsInt64(Unix(issued + ttl))
    ensures ValidateToken(c, IssueToken(c, bits, issued, ttl), now)
         == if EpochSeconds(now) <= EpochSeconds(issued + ttl) then Some(bits) else None
  {
    UnixIsEpoch(now);
    UnixIsEpoch(issued + ttl);
    FormatRoundTrip(Unix(issued + ttl));
    FormatRoundTrip(bits);
    SignedIsValid(c, FormatInt(Unix(issued + ttl)), FormatInt(bits), now);
  }

  lemma SignedIsValid(c: Crypto, e: string, b: string, now: Time)
    requires '.' !in e && '.' !in b && ParseInt64(e).Some? && ParseInt64(b).Some?
    ensures ValidateToken(c, e + "." + b + "." + Sign(c, e + "|" + b), now)
         == if Unix(now) <= ParseInt64(e).value then ParseInt64(b) else None
  {
    var mac := Sign(c, e + "|" + b);
    TwoDots(e, b, mac);
    CutDotUnique(e, b + "." + mac);
    CutDotUnique(b, mac);
  }

  lemma TwoDots(e: string, b: string, mac: string)
    ensures e + "." + b + "." + mac == e + "." + (b + "." + mac)
  {
  }

  // ----- proof of work -----

  function ByteZeros(x: bv8): (z: int)
    ensures 0 <= z <= 8
  {
    if x >= 128 then 0 else if x >= 64 then 1 else if x >= 32 then 2 else if x >= 16 then 3
    else if x >= 8 then 4 else if x >= 4 then 5 else if x >= 2 then 6 else if x >= 1 then 7 else 8
  }

  function ZeroBits(b: seq<bv8>): nat {
    if b == [] then 0
    else if b[0] == 0 then 8 + ZeroBits(b[1..])
    else ByteZeros(b[0])
  }

  /** For a mask bit above which `x` has none, the bit is set exactly when x reaches the mask. */
  lemma MaskTest(x: bv8, m: bv8)
    requires m == 128 || m == 64 || m == 32 || m == 16 || m == 8 || m == 4 || m == 2 || m == 1
    requires m == 128 || x < m << 1
    ensures x & m != 0 <==> x >= m
  {
  }

  method LeadingZeroBits(b: seq<bv8>) returns (n: nat)
    ensures n == ZeroBits(b)
  {
    n := 0;
    for i := 0 to |b|
      invariant ZeroBits(b) == n + ZeroBits(b[i..])
    {
      var x := b[i];
      assert b[i..][1..] == b[i + 1..];
      if x == 0 {
        n := n + 8;
        continue;
      }
      var m: bv8 := 128;
      ghost var start := n;
      while m > 0
        invariant m == 128 || m == 64 || m == 32 || m == 16 || m == 8 || m == 4 || m == 2 || m == 1 || m == 0
        invariant m == 0 ==> x == 0
        invariant 0 < m < 128 ==> x < m << 1
        invariant n == start + (if m == 0 then 8 else ByteZeros(m))
        decreases m
      {
        MaskTest(x, m);
        if x & m != 0 {
          return n;
        }
        n := n + 1;
        m := m >> 1;
      }
      return n;
    }
  }

  ghost function Pow2(n: nat): (p: nat)
    ensures p >= 1
  {
    if n == 0 then 1 else 2 * Pow2(n - 1)
  }

  /** The bytes read as one big-endian number. */
  ghost function BigEndian(b: seq<bv8>): nat {
    if b == [] then 0 else Val(b[0]) * Pow2(8 * (|b| - 1)) + BigEndian(b[1..])
  }

  lemma {:induction false} Pow2Add(a: nat, b: nat)
    ensures Pow2(a + b) == Pow2(a) * Pow2(b)
  {
    if a != 0 {
      Pow2Add(a - 1, b);
    }
  }

  lemma {:induction false} Pow2Monotone(a: nat, b: nat)
    requires a <= b
    ensures Pow2(a) <= Pow2(b)
  {
    if a < b {
      Pow2Monotone(a, b - 1);
    }
  }

  lemma {:induction false} BigEndianBound(b: seq<bv8>)
    ensures BigEndian(b) < Pow2(8 * |b|)
  {
    if b != [] {
      BigEndianBound(b[1..]);
      var p := Pow2(8 * (|b| - 1));
      Pow2Add(8, 8 * (|b| - 1));
      assert Pow2(8) == 256;
      Scale(Val(b[0]), 255, p);
    }
  }

  /** The highest set bit of a non-zero byte. */
  lemma ByteRange(x: bv8)
    requires x != 0
    ensures var z := ByteZeros(x); z <= 7 && Pow2(7 - z) <= Val(x) < Pow2(8 - z)
  {
    assert Pow2(0) == 1 && Pow2(1) == 2 && Pow2(2) == 4 && Pow2(3) == 8 && Pow2(4) == 16;
    assert Pow2(5) == 32 && Pow2(6) == 64 && Pow2(7) == 128 && Pow2(8) == 256;
  }

  lemma Scale(a: int, b: int, p: nat)
    requires a <= b
    ensures a * p <= b * p && (a + 1) * p == a * p + p
  {
  }

  /** A leading non-zero byte decides. */
  lemma LeadingByteDecides(x: int, z: int, n: nat, tail: nat, k: nat)
    requires 0 <= z <= 7 && Pow2(7 - z) <= x < Pow2(8 - z) && tail < Pow2(n) && k <= n + 8
    ensures z >= k <==> x * Pow2(n) + tail < Pow2(n + 8 - k)
  {
    var p := Pow2(n);
    if z >= k {
      Pow2Add(8 - z, n);
      Scale(x + 1, Pow2(8 - z), p);
      Scale(x, x, p);
      Pow2Monotone(n + 8 - z, n + 8 - k);
    } else {
      Pow2Add(7 - z, n);
      Scale(Pow2(7 - z), x, p);
      Pow2Monotone(n + 8 - k, n + 7 - z);
    }
  }

  lemma NonZeroHead(b: seq<bv8>, k: nat)
    requires b != [] && b[0] != 0 && k <= 8 * |b|
    ensures ZeroBits(b) >= k <==> BigEndian(b) < Pow2(8 * |b| - k)
  {
    var x, tail := b[0], b[1..];
    BigEndianBound(tail);
    ByteRange(x);
    LeadingByteDecides(Val(x), ByteZeros(x), 8 * |tail|, BigEndian(tail), k);
    assert 8 * |tail| + 8 - k == 8 * |b| - k;
  }

  lemma ZeroHead(b: seq<bv8>)
    requires b != [] && b[0] == 0
    ensures ZeroBits(b) == 8 + ZeroBits(b[1..]) && BigEndian(b) == BigEndian(b[1..])
  {
  }

  /** At least k leading zero bits means a big-endian value below 2^(8|b|-k). */
  lemma {:induction false} ZeroBitsMeansSmall(b: seq<bv8>, k: nat)
    requires k <= 8 * |b|
    ensures ZeroBits(b) >= k <==> BigEndian(b) < Pow2(8 * |b| - k)
  {
    if b == [] {
      assert Pow2(0) == 1;
    } else if b[0] != 0 {
      NonZeroHead(b, k);
    } else {
      ZeroHead(b);
      if k > 8 {
        ZeroBitsMeansSmall(b[1..], k - 8);
        assert 8 * |b[1..]| - (k - 8) == 8 * |b| - k;
      } else {
        BigEndianBound(b[1..]);
        Pow2Monotone(8 * |b[1..]|, 8 * |b| - k);
      }
    }
  }

  predicate VerifyPoW(c: Crypto, token: string, nonce: string, bits: int) {
    bits <= 0 || (nonce != "" && ZeroBits(c.sha256(token + ":" + nonce)) >= bits)
  }

  lemma {:induction false} ZeroBitsBound(b: seq<bv8>)
    ensures ZeroBits(b) <= 8 * |b|
  {
    if b != [] {
      ZeroBitsBound(b[1..]);
    }
  }

  /** Nothing is demanded by a difficulty that is not positive; one of up to 256 bits is met
      exactly by a non-empty nonce whose hash is below 2^(256-bits), and one above by none. So a
      solution also solves every easier demand. */
  lemma PoWMeansSmallHash(c: Crypto, token: string, nonce: string, bits: int, easier: int)
    requires easier <= bits
    ensures VerifyPoW(c, token, nonce, bits) <==>
              || bits <= 0
              || (bits <= 256 && nonce != "" && BigEndian(c.sha256(token + ":" + nonce)) < Pow2(256 - bits))
    ensures VerifyPoW(c, token, nonce, bits) ==> VerifyPoW(c, token, nonce, easier)
  {
    var hash := c.sha256(token + ":" + nonce);
    ZeroBitsBound(hash);
    if 0 < bits <= 256 {
      ZeroBitsMeansSmall(hash, bits);
    }
  }

  // ----- the session cookie -----

  function MacSID(c: Crypto, id: string): string {
    EncodeURL(c.hmac(id)[..16])
  }

  /** A fresh cookie value from 16 random bytes. */
  function NewSignedSID(c: Crypto, random: seq<bv8>): string {
    EncodeURL(random) + "." + MacSID(c, EncodeURL(random))
  }

  function LastDot(s: string): (i: int)
    ensures -1 <= i < |s|
    ensures i >= 0 ==> s[i] == '.'
    ensures forall j :: i < j < |s| ==> s[j] != '.'
  {
    if s == "" then -1
    else if s[|s| - 1] == '.' then |s| - 1
    else
      var i := LastDot(s[..|s| - 1]);
      i
  }

  function VerifySID(c: Crypto, cookie: string): Option<string> {
    var dot := LastDot(cookie);
    if dot <= 0 || dot == |cookie| - 1 then None
    else
      var id, mac := cookie[..dot], cookie[dot + 1..];
      if mac == MacSID(c, id) then Some(id) else None
  }

  lemma LastDotUnique(id: string, mac: string)
    requires '.' !in mac
    ensures LastDot(id + "." + mac) == |id|
  {
    var s := id + "." + mac;
    DotAt(s, |id|, mac);
  }

  lemma DotAt(s: string, n: nat, mac: string)
    requires n < |s| && s[n] == '.' && s[n + 1..] == mac && '.' !in mac
    ensures LastDot(s) == n
  {
    forall j | n < j < |s| ensures s[j] == mac[j - n - 1] {
    }
  }

  /** A minted cookie gives back its id. */
  lemma CookieRoundTrip(c: Crypto, random: seq<bv8>)
    requires |random| == 16
    ensures VerifySID(c, NewSignedSID(c, random)) == Some(EncodeURL(random))
  {
    EncodingAlphabet(random);
    MacIsAccepted(c, EncodeURL(random));
  }

  /** Accepted cookies are exactly those of a non-empty id followed by the encoding of the first
      16 bytes of its keyed hash. */
  lemma AcceptedCookies(c: Crypto, cookie: string, id: string)
    ensures VerifySID(c, cookie) == Some(id) <==> id != "" && cookie == id + "." + EncodeURL(c.hmac(id)[..16])
  {
    if id != "" && cookie == id + "." + MacSID(c, id) {
      MacIsAccepted(c, id);
    }
    if VerifySID(c, cookie) == Some(id) {
      var dot := LastDot(cookie);
      assert cookie == cookie[..dot] + "." + cookie[dot + 1..];
    }
  }

  lemma MacIsAccepted(c: Crypto, id: string)
    requires id != ""
    ensures VerifySID(c, id + "." + MacSID(c, id)) == Some(id)
  {
    var mac := MacSID(c, id);
    var cookie := id + "." + mac;
    EncodingAlphabet(c.hmac(id)[..16]);
    LastDotUnique(id, mac);
    assert cookie[..|id|] == id && cookie[|id| + 1..] == mac;
  }

  /** The mac of a minted cookie serves another id exactly when the first 16 bytes of the keyed
      hashes of both ids are the same. */
  lemma MacServesOtherIff(c: Crypto, random: seq<bv8>, mac: string, id: string)
    requires |random| == 16 && id != "" && NewSignedSID(c, random) == EncodeURL(random) + "." + mac
    ensures VerifySID(c, id + "." + mac) == Some(id) <==> c.hmac(id)[..16] == c.hmac(EncodeURL(random))[..16]
  {
    var own := EncodeURL(random);
    CookieRoundTrip(c, random);
    AcceptedCookies(c, own + "." + mac, own);
    SameEnd(own + ".", mac, EncodeURL(c.hmac(own)[..16]));
    AcceptedCookies(c, id + "." + mac, id);
    if id + "." + mac == id + "." + EncodeURL(c.hmac(id)[..16]) {
      SameEnd(id + ".", mac, EncodeURL(c.hmac(id)[..16]));
      EncodingInjective(c.hmac(id)[..16], c.hmac(own)[..16]);
    }
  }

  lemma SameEnd(front: string, a: string, b: string)
    requires front + a == front + b
    ensures a == b
  {
    assert a == (front + a)[|front|..] == (front + b)[|front|..] == b;
  }

  /** The behavioural identity of a request. */
  function SessionKey(c: Crypto, cookie: Option<string>, ip: string): string {
    var id := if cookie.Some? && cookie.value != "" then VerifySID(c, cookie.value) else None;
    if id.Some? then "sid:" + id.value else "ip:" + ip
  }

  /** Cookies that do not verify cannot move a client off the key of its address. */
  lemma RotationKeepsKey(c: Crypto, cookie: Option<string>, ip: string)
    ensures SessionKey(c, cookie, ip) == "ip:" + ip <==>
            !(cookie.Some? && exists id :: id != "" && cookie.value == id + "." + EncodeURL(c.hmac(id)[..16]))
  {
    if cookie.Some? {
      if id :| id != "" && cookie.value == id + "." + EncodeURL(c.hmac(id)[..16]) {
        AcceptedCookies(c, cookie.value, id);
        assert SessionKey(c, cookie, ip)[0] == 's';
      }
      var v := VerifySID(c, cookie.value);
      if v.Some? {
        AcceptedCookies(c, cookie.value, v.value);
      }
    }
  }

  /** A cookie that verifies keys the session by its id. */
  lemma AcceptedIsKey(c: Crypto, cookie: string, id: string, ip: string)
    requires id != "" && cookie == id + "." + EncodeURL(c.hmac(id)[..16])
    ensures SessionKey(c, Some(cookie), ip) == "sid:" + id
  {
    AcceptedCookies(c, cookie, id);
  }

  /** Sessions keyed by a cookie and clients keyed by an address never share a key, and two
      freshly minted cookies share one only if their random bytes are the same. */
  lemma KeysStayApart(c: Crypto, random: seq<bv8>, random': seq<bv8>, cookie: Option<string>, ip: string, ip': string)
    requires |random| == 16 && |random'| == 16
    ensures SessionKey(c, Some(NewSignedSID(c, random)), ip) != "ip:" + ip'
    ensures SessionKey(c, Some(NewSignedSID(c, random)), ip) == SessionKey(c, Some(NewSignedSID(c, random')), ip')
       <==> random == random'
    ensures SessionKey(c, cookie, ip) == SessionKey(c, None, ip') ==> ip == ip'
  {
    MintedKey(c, random, ip);
    MintedKey(c, random', ip');
    var a, b := EncodeURL(random), EncodeURL(random');
    assert ("sid:" + a)[0] == 's' && ("ip:" + ip')[0] == 'i';
    if "sid:" + a == "sid:" + b {
      assert a == ("sid:" + a)[4..] == ("sid:" + b)[4..] == b;
      EncodingInjective(random, random');
    }
    if SessionKey(c, cookie, ip) == "ip:" + ip' {
      assert SessionKey(c, cookie, ip)[0] == 'i';
      assert ip == ("ip:" + ip)[3..] && ip' == ("ip:" + ip')[3..];
    }
  }

  lemma MintedKey(c: Crypto, random: seq<bv8>, ip: string)
    requires |random| == 16
    ensures SessionKey(c, Some(NewSignedSID(c, random)), ip) == "sid:" + EncodeURL(random)
  {
    CookieRoundTrip(c, random);
  }
}
