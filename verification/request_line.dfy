/** The first line of a raw request, said of its text: a method and a path between blanks. */
module RequestLines {
  import opened Prelude
  import opened Text
  import opened Signature

  /** ASCII white space. */
  predicate White(c: char) {
    c == ' ' || 9 <= c as int <= 13
  }

  predicate Breaks(c: char) {
    c as int == 10 || c as int == 13
  }

  /** Blanks and line breaks that are trimmed in front. */
  predicate Trimmed(s: string) {
    forall i :: 0 <= i < |s| ==> Breaks(s[i]) || s[i] == ' ' || s[i] as int == 9
  }

  /** White space within a line. */
  predicate Gap(s: string) {
    forall i :: 0 <= i < |s| ==> White(s[i]) && !Breaks(s[i])
  }

  predicate Solid(s: string) {
    s != "" && forall i :: 0 <= i < |s| ==> !White(s[i])
  }

  predicate Ends(s: string) {
    s == "" || White(s[0])
  }

  ghost predicate LineParts(raw: string, lead: string, indent: string, m: string, gap: string, p: string, rest: string) {
    && raw == lead + (indent + (m + (gap + (p + rest))))
    && Trimmed(lead) && Gap(indent) && Solid(m) && gap != "" && Gap(gap) && Solid(p) && Ends(rest)
  }

  /** The first two words of the first line that is not blank. */
  ghost predicate Requests(raw: string, m: string, p: string) {
    exists lead, indent, gap, rest :: LineParts(raw, lead, indent, m, gap, p, rest)
  }

  // ----- taking a text apart -----

  lemma {:induction false} SkipBlankSplits(s: string) returns (lead: string)
    ensures s == lead + SkipBlank(s) && Trimmed(lead)
  {
    if s != "" && (s[0] == '\r' || s[0] == '\n' || s[0] == ' ' || s[0] == '\t') {
      var more := SkipBlankSplits(s[1..]);
      lead := [s[0]] + more;
    } else {
      lead := "";
    }
  }

  lemma {:induction false} LineSplits(s: string) returns (rest: string)
    ensures s == Line(s) + rest && (rest == "" || Breaks(rest[0]))
    ensures Unbroken(Line(s))
  {
    if s == "" || IsNewline(s[0]) {
      rest := s;
    } else {
      rest := LineSplits(s[1..]);
    }
  }

  lemma {:induction false} SkipSpaceSplits(s: string) returns (gap: string)
    ensures s == gap + SkipSpace(s) && (SkipSpace(s) == "" || !White(SkipSpace(s)[0]))
    ensures forall i :: 0 <= i < |gap| ==> White(gap[i])
  {
    if s == "" || !IsSpace(s[0]) {
      gap := "";
    } else {
      var more := SkipSpaceSplits(s[1..]);
      gap := [s[0]] + more;
    }
  }

  lemma {:induction false} WordSplits(s: string) returns (rest: string)
    ensures s == Word(s) + rest && Ends(rest) && rest == s[|Word(s)|..]
    ensures forall i :: 0 <= i < |Word(s)| ==> !White(Word(s)[i])
  {
    if s == "" || IsSpace(s[0]) {
      rest := s;
    } else {
      rest := WordSplits(s[1..]);
    }
  }

  predicate Unbroken(s: string) {
    forall i :: 0 <= i < |s| ==> !Breaks(s[i])
  }

  lemma UnbrokenParts(a: string, b: string, s: string)
    requires s == a + b && Unbroken(s)
    ensures Unbroken(a) && Unbroken(b)
  {
    assert forall i :: 0 <= i < |a| ==> a[i] == s[i];
    assert forall i :: 0 <= i < |b| ==> b[i] == s[|a| + i];
  }

  /** White space and a word are taken off a line. */
  lemma OneWord(line: string) returns (gap: string, rest: string)
    requires Unbroken(line)
    ensures var w := Word(SkipSpace(line)); line == gap + (w + rest) && (w == "" || Solid(w))
    ensures Gap(gap) && Ends(rest) && Unbroken(rest) && rest == SkipSpace(line)[|Word(SkipSpace(line))|..]
    ensures Ends(line) && Word(SkipSpace(line)) != "" ==> gap != ""
  {
    var first := SkipSpace(line);
    gap := SkipSpaceSplits(line);
    rest := WordSplits(first);
    UnbrokenParts(gap, first, line);
    UnbrokenParts(Word(first), rest, first);
  }

  lemma FoundIsRequested(raw: string)
    requires RequestLine(raw).Some?
    ensures Requests(raw, RequestLine(raw).value.0, RequestLine(raw).value.1)
  {
    var lead := SkipBlankSplits(raw);
    var line := Line(SkipBlank(raw));
    var after := LineSplits(SkipBlank(raw));
    var m, p := RequestLine(raw).value.0, RequestLine(raw).value.1;
    var indent, more := OneWord(line);
    var gap, last := OneWord(more);
    LineSpelled(line, indent, m, gap, p, last, after);
    assert LineParts(raw, lead, indent, m, gap, p, last + after);
  }

  lemma LineSpelled(line: string, indent: string, m: string, gap: string, p: string, last: string, after: string)
    requires line == indent + (m + (gap + (p + last)))
    ensures line + after == indent + (m + (gap + (p + (last + after))))
  {
  }

  // ----- putting it together -----

  lemma {:induction false} SkipBlankThrough(lead: string, t: string)
    requires Trimmed(lead)
    ensures SkipBlank(lead + t) == SkipBlank(t)
  {
    if lead == "" {
      assert lead + t == t;
    } else {
      assert (lead + t)[1..] == lead[1..] + t;
      SkipBlankThrough(lead[1..], t);
    }
  }

  lemma {:induction false} SkipBlankInto(indent: string, t: string) returns (left: string)
    requires Gap(indent) && t != "" && !White(t[0])
    ensures SkipBlank(indent + t) == left + t && Gap(left)
  {
    var s := indent + t;
    if indent == "" {
      assert s == t;
      left := "";
    } else if indent[0] == ' ' || indent[0] == '\t' {
      assert s[1..] == indent[1..] + t;
      left := SkipBlankInto(indent[1..], t);
    } else {
      left := indent;
    }
  }

  lemma {:induction false} LineThrough(a: string, b: string)
    requires Unbroken(a)
    ensures Line(a + b) == a + Line(b)
  {
    if a == "" {
      assert a + b == b;
    } else {
      assert (a + b)[1..] == a[1..] + b;
      LineThrough(a[1..], b);
    }
  }

  lemma {:induction false} SkipSpaceThrough(gap: string, t: string)
    requires Gap(gap) && t != "" && !White(t[0])
    ensures SkipSpace(gap + t) == t
  {
    if gap == "" {
      assert gap + t == t;
    } else {
      assert (gap + t)[1..] == gap[1..] + t;
      SkipSpaceThrough(gap[1..], t);
    }
  }

  lemma {:induction false} WordOf(w: string, t: string)
    requires (forall i :: 0 <= i < |w| ==> !White(w[i])) && Ends(t)
    ensures Word(w + t) == w && (w + t)[|w|..] == t
  {
    if w == "" {
      assert w + t == t;
    } else {
      assert (w + t)[1..] == w[1..] + t;
      WordOf(w[1..], t);
    }
  }

  lemma EndsInLine(rest: string)
    requires Ends(rest)
    ensures Ends(Line(rest))
  {
  }

  lemma RequestedIsFound(raw: string, lead: string, indent: string, m: string, gap: string, p: string, rest: string)
    requires LineParts(raw, lead, indent, m, gap, p, rest)
    ensures RequestLine(raw) == Some((m, p))
  {
    var text := m + (gap + (p + rest));
    SkipBlankThrough(lead, indent + text);
    var left := SkipBlankInto(indent, text);
    var tail := Line(rest);
    EndsInLine(rest);
    LineThrough(p, rest);
    LineThrough(gap, p + rest);
    LineThrough(m, gap + (p + rest));
    LineThrough(left, text);
    var first, second := m + (gap + (p + tail)), p + tail;
    assert Line(SkipBlank(raw)) == left + first;
    SkipSpaceThrough(left, first);
    WordOf(m, gap + second);
    SkipSpaceThrough(gap, second);
    WordOf(p, tail);
  }

  /** A raw request is read as a method and a path exactly when its first line that is not blank
      begins with these two words. */
  lemma RequestLineIff(raw: string, m: string, p: string)
    ensures RequestLine(raw) == Some((m, p)) <==> Requests(raw, m, p)
  {
    if RequestLine(raw) == Some((m, p)) {
      FoundIsRequested(raw);
    }
    if lead, indent, gap, rest :| LineParts(raw, lead, indent, m, gap, p, rest) {
      RequestedIsFound(raw, lead, indent, m, gap, p, rest);
    }
  }

  /** The requests of a block are those of its raw requests that can be read. */
  lemma {:induction false} RawRequestsAre(raws: seq<string>, m: string, p: string)
    ensures (m, p) in RawRequests(raws) <==> exists i :: 0 <= i < |raws| && Requests(raws[i], m, p)
  {
    if raws != [] {
      var init, last := raws[..|raws| - 1], raws[|raws| - 1];
      RawRequestsAre(init, m, p);
      RequestLineIff(last, m, p);
      if RequestLine(last).Some? {
        PushMember(RawRequests(init), RequestLine(last).value, (m, p));
      }
      assert forall i :: 0 <= i < |init| ==> init[i] == raws[i];
    }
  }
}
