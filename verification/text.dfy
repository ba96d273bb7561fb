/** The byte-string operations the template compiler and the matchers use. A string is a
    sequence of bytes; case mapping is the ASCII one. */
module Text {
  import opened Prelude

  predicate OccursAt(s: string, sub: string, i: int) {
    0 <= i && i + |sub| <= |s| && s[i..i + |sub|] == sub
  }

  predicate Contains(s: string, sub: string) {
    exists i :: 0 <= i <= |s| && OccursAt(s, sub, i)
  }

  /** The first occurrence of `sub` at or after `i`. */
  function IndexFrom(s: string, sub: string, i: nat): (r: Option<nat>)
    requires i <= |s|
    ensures r.Some? ==> i <= r.value && r.value + |sub| <= |s|
    decreases |s| - i
  {
    if OccursAt(s, sub, i) then Some(i)
    else if i == |s| then None
    else IndexFrom(s, sub, i + 1)
  }

  function Index(s: string, sub: string): Option<nat> {
    IndexFrom(s, sub, 0)
  }

  lemma {:induction false} IndexFromIsFirst(s: string, sub: string, i: nat)
    requires i <= |s|
    ensures var r := IndexFrom(s, sub, i);
      if r.Some? then OccursAt(s, sub, r.value) && forall j :: i <= j < r.value ==> !OccursAt(s, sub, j)
      else forall j :: i <= j ==> !OccursAt(s, sub, j)
    decreases |s| - i
  {
    if !OccursAt(s, sub, i) && i < |s| {
      IndexFromIsFirst(s, sub, i + 1);
    }
  }

  function LowerChar(c: char): char {
    if 'A' <= c <= 'Z' then c + ' ' else c
  }

  function UpperChar(c: char): char {
    if 'a' <= c <= 'z' then c - ' ' else c
  }

  function Lower(s: string): string {
    seq(|s|, i requires 0 <= i < |s| => LowerChar(s[i]))
  }

  function Upper(s: string): string {
    seq(|s|, i requires 0 <= i < |s| => UpperChar(s[i]))
  }

  predicate EqualFold(a: string, b: string) {
    Lower(a) == Lower(b)
  }

  predicate IsSpace(c: char) {
    c == ' ' || '\t' <= c <= '\r'
  }

  predicate IsNewline(c: char) {
    c == '\r' || c == '\n'
  }

  /** The longest prefix without whitespace. */
  function Word(s: string): (r: string)
    ensures r <= s
  {
    if s == "" || IsSpace(s[0]) then "" else [s[0]] + Word(s[1..])
  }

  function SkipSpace(s: string): (r: string)
    ensures |r| <= |s|
  {
    if s == "" || !IsSpace(s[0]) then s else SkipSpace(s[1..])
  }

  /** The text before the first line break. */
  function Line(s: string): string {
    if s == "" || IsNewline(s[0]) then "" else [s[0]] + Line(s[1..])
  }

  // ----- UTF-8 (RFC 3629); a character stands for a byte, and anything above for itself -----

  predicate IsCont(c: char) {
    128 <= c as int < 192
  }

  predicate ContAt(s: string, i: nat) {
    i < |s| && IsCont(s[i])
  }

  predicate ByteIn(s: string, i: nat, lo: int, hi: int) {
    i < |s| && lo <= s[i] as int <= hi
  }

  /** The length of the well-formed sequence `s` begins with, or 0 if there is none. */
  function RuneLen(s: string): (k: nat)
    requires s != ""
    ensures k <= 4 && k <= |s|
  {
    var c := s[0] as int;
    if c < 128 || c >= 256 then 1
    else if 0xC2 <= c <= 0xDF then if ContAt(s, 1) then 2 else 0
    else if c == 0xE0 then if ByteIn(s, 1, 0xA0, 0xBF) && ContAt(s, 2) then 3 else 0
    else if c == 0xED then if ByteIn(s, 1, 0x80, 0x9F) && ContAt(s, 2) then 3 else 0
    else if 0xE1 <= c <= 0xEF then if ContAt(s, 1) && ContAt(s, 2) then 3 else 0
    else if c == 0xF0 then if ByteIn(s, 1, 0x90, 0xBF) && ContAt(s, 2) && ContAt(s, 3) then 4 else 0
    else if c == 0xF4 then if ByteIn(s, 1, 0x80, 0x8F) && ContAt(s, 2) && ContAt(s, 3) then 4 else 0
    else if 0xF1 <= c <= 0xF3 then if ContAt(s, 1) && ContAt(s, 2) && ContAt(s, 3) then 4 else 0
    else 0
  }

  predicate ValidUtf8(s: string) {
    s == "" || (RuneLen(s) > 0 && ValidUtf8(s[RuneLen(s)..]))
  }

  /** All but the first byte of a sequence are continuation bytes. */
  lemma RuneTail(s: string)
    requires s != ""
    ensures forall i :: 1 <= i < RuneLen(s) ==> IsCont(s[i])
  {
  }

  /** Only the sequence itself matters. */
  lemma RuneAt(s: string, t: string)
    requires s != "" && t != "" && 0 < RuneLen(s) <= |t| && forall i :: 0 <= i < RuneLen(s) ==> s[i] == t[i]
    ensures RuneLen(t) == RuneLen(s)
  {
  }

  lemma {:induction false} AppendValid(a: string, b: string)
    requires ValidUtf8(a)
    ensures ValidUtf8(a + b) <==> ValidUtf8(b)
  {
    if a == "" {
      assert a + b == b;
    } else {
      var k := RuneLen(a);
      RuneAt(a, a + b);
      assert (a + b)[k..] == a[k..] + b;
      AppendValid(a[k..], b);
    }
  }

  /** An ASCII character at the end neither breaks nor repairs anything. */
  lemma {:induction false} AsciiEnd(s: string, c: char)
    requires c as int < 128
    ensures ValidUtf8(s + [c]) <==> ValidUtf8(s)
  {
    if s == "" {
      assert (s + [c])[1..] == "";
    } else {
      AsciiEndsRune(s, c);
      if RuneLen(s) > 0 {
        var k := RuneLen(s);
        assert (s + [c])[k..] == s[k..] + [c];
        AsciiEnd(s[k..], c);
      }
    }
  }

  lemma AsciiEndsRune(s: string, c: char)
    requires s != "" && c as int < 128
    ensures RuneLen(s + [c]) == RuneLen(s)
  {
    var t := s + [c];
    RuneTail(t);
    assert !IsCont(t[|s|]);
    if RuneLen(t) > 0 {
      RuneAt(t, s);
    } else if RuneLen(s) > 0 {
      RuneAt(s, t);
    }
  }
}
