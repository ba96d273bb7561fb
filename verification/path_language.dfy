/** What a template path means, said of its text: what is left of it once the site is taken off,
    and which targets its holes admit. The compiler's own functions are shown to agree. */
module PathLanguage {
  import opened Prelude
  import opened Text
  import opened Signature

  // ----- first occurrences -----

  /** `sep` first occurs in `s` after `before`, and `after` follows it. */
  ghost predicate SplitAt(s: string, before: string, sep: string, after: string) {
    s == before + sep + after && forall i :: 0 <= i < |before| ==> !OccursAt(s, sep, i)
  }

  lemma IndexSplits(s: string, sep: string)
    ensures var i := Index(s, sep);
      if i.None? then !Contains(s, sep) else Contains(s, sep) && SplitAt(s, s[..i.value], sep, s[i.value + |sep|..])
  {
    IndexFromIsFirst(s, sep, 0);
    var i := Index(s, sep);
    if i.Some? {
      assert OccursAt(s, sep, i.value);
      assert s == s[..i.value] + s[i.value..i.value + |sep|] + s[i.value + |sep|..];
    }
  }

  lemma SplitIsIndex(s: string, before: string, sep: string, after: string)
    requires SplitAt(s, before, sep, after)
    ensures Contains(s, sep) && Index(s, sep) == Some(|before|)
    ensures s[..|before|] == before && s[|before| + |sep|..] == after
  {
    assert s[|before|..|before| + |sep|] == sep;
    assert OccursAt(s, sep, |before|);
    IndexFromIsFirst(s, sep, 0);
    var i := Index(s, sep);
    assert i.Some? && OccursAt(s, sep, i.value);
  }

  // ----- the path relative to the site -----

  /** The path begins with a placeholder for the site. */
  predicate NamesSite(p: string) {
    "{{BaseURL}}" <= p || "{{RootURL}}" <= p || "{{Hostname}}" <= p
  }

  ghost predicate Absolute(p: string, scheme: string, host: string, path: string) {
    SplitAt(p, scheme, "://", host + path) && '/' !in host && (path == "" || path[0] == '/')
  }

  /** What is left of a path without its placeholder, or without its scheme and host. */
  ghost predicate Relative(p: string, rel: string) {
    || p == "{{BaseURL}}" + rel || p == "{{RootURL}}" + rel || p == "{{Hostname}}" + rel
    || (!NamesSite(p) && exists scheme, host, path :: Absolute(p, scheme, host, path) && rel == if path == "" then "/" else path)
    || (!NamesSite(p) && !Contains(p, "://") && rel == p)
  }

  /** The first slash of a text, or where it ends. */
  lemma FirstSlash(rest: string) returns (n: nat)
    ensures n <= |rest| && (forall j :: 0 <= j < n ==> rest[j] != '/') && (n < |rest| ==> rest[n] == '/')
    ensures Index(rest, "/") == if n < |rest| then Some(n) else None
  {
    IndexSplits(rest, "/");
    var i := Index(rest, "/");
    n := if i.None? then |rest| else i.value;
    forall j | 0 <= j < n ensures rest[j] != '/' {
      assert !OccursAt(rest, "/", j) && rest[j..j + 1] == [rest[j]];
    }
  }

  lemma AbsoluteParts(p: string) returns (scheme: string, host: string, path: string)
    requires !NamesSite(p) && Contains(p, "://")
    ensures Absolute(p, scheme, host, path) && StripBaseURL(p) == if path == "" then "/" else path
  {
    IndexSplits(p, "://");
    var i := Index(p, "://").value;
    scheme := p[..i];
    host, path := HostAndPath(p[i + 3..]);
    AbsoluteIsStripped(p, scheme, host, path);
  }

  lemma HostAndPath(rest: string) returns (host: string, path: string)
    ensures rest == host + path && '/' !in host && (path == "" || path[0] == '/')
  {
    var n := FirstSlash(rest);
    host, path := rest[..n], rest[n..];
  }

  lemma AbsoluteIsStripped(p: string, scheme: string, host: string, path: string)
    requires !NamesSite(p) && Absolute(p, scheme, host, path)
    ensures StripBaseURL(p) == if path == "" then "/" else path
  {
    var rest := host + path;
    SplitIsIndex(p, scheme, "://", rest);
    var n := FirstSlash(rest);
    assert forall j :: 0 <= j < |host| ==> rest[j] == host[j];
    assert path != "" ==> rest[|host|] == '/';
    assert rest[|host|..] == path;
  }

  lemma PlaceholderIsStripped(p: string, rel: string)
    requires p == "{{BaseURL}}" + rel || p == "{{RootURL}}" + rel || p == "{{Hostname}}" + rel
    ensures NamesSite(p) && StripBaseURL(p) == rel
  {
    assert p[2] == 'B' || p[2] == 'R' || p[2] == 'H';
    if p == "{{BaseURL}}" + rel {
      assert p[..11] == "{{BaseURL}}" && p[11..] == rel;
    } else if p == "{{RootURL}}" + rel {
      assert p[..11] == "{{RootURL}}" && p[11..] == rel;
    } else {
      assert p[..12] == "{{Hostname}}" && p[12..] == rel;
    }
  }

  lemma PlaceholderParts(p: string)
    requires NamesSite(p)
    ensures var rel := StripBaseURL(p); p == "{{BaseURL}}" + rel || p == "{{RootURL}}" + rel || p == "{{Hostname}}" + rel
  {
  }

  /** Every path is relative to the site in exactly one way, the compiler's. */
  lemma RelativeIsStripped(p: string, rel: string)
    ensures Relative(p, rel) <==> rel == StripBaseURL(p)
  {
    if NamesSite(p) {
      PlaceholderParts(p);
    } else {
      IndexSplits(p, "://");
      if Contains(p, "://") {
        var scheme, host, path := AbsoluteParts(p);
      }
    }
    if Relative(p, rel) {
      RelativeIsUnique(p, rel);
    }
  }

  lemma RelativeIsUnique(p: string, rel: string)
    requires Relative(p, rel)
    ensures rel == StripBaseURL(p)
  {
    IndexSplits(p, "://");
    if p == "{{BaseURL}}" + rel || p == "{{RootURL}}" + rel || p == "{{Hostname}}" + rel {
      PlaceholderIsStripped(p, rel);
    } else if Contains(p, "://") {
      var scheme, host, path :| Absolute(p, scheme, host, path) && rel == if path == "" then "/" else path;
      AbsoluteIsStripped(p, scheme, host, path);
    } else if scheme, host, path :| Absolute(p, scheme, host, path) {
      SplitIsIndex(p, scheme, "://", host + path);
    }
  }

  // ----- its language -----

  /** Text as the compiler writes it, each character on its own. */
  function Written(code: char -> string, t: string): string {
    if t == "" then "" else code(t[0]) + Written(code, t[1..])
  }

  function Itself(c: char): string {
    [c]
  }

  /** No hole, and nothing that a regexp would read as more than a character. */
  predicate PlainText(rel: string) {
    !Contains(rel, "{{") && forall i :: 0 <= i < |rel| ==> rel[i] !in "[](){}.*+?^$|\\"
  }

  /** The target is `w`, a filling and then something in `more`. */
  ghost predicate Fills(w: string, target: string, more: string -> bool) {
    exists fill, after :: NoNewline(fill) && target == w + fill + after && more(after)
  }

  /** The target spells out the text, with newline-free strings for the holes "{{...}}"; a hole
      that is not closed stands for itself. */
  ghost predicate Spells(code: char -> string, rel: string, target: string)
    decreases |rel|, 1
  {
    || (!Contains(rel, "{{") && target == Written(code, rel))
    || (exists before, tail :: SpellsOpen(code, rel, before, tail, target))
    || (exists before, name, rest :: SpellsHole(code, rel, before, name, rest, target))
  }

  ghost predicate SpellsOpen(code: char -> string, rel: string, before: string, tail: string, target: string) {
    SplitAt(rel, before, "{{", tail) && !Contains(tail, "}}") && target == Written(code, before) + "{{" + tail
  }

  /** The first hole of `rel` comes after `before`, and `rest` follows it. */
  ghost predicate HoleAt(rel: string, before: string, name: string, rest: string) {
    SplitAt(rel, before, "{{", name + "}}" + rest) && SplitAt(name + "}}" + rest, name, "}}", rest)
  }

  ghost predicate SpellsHole(code: char -> string, rel: string, before: string, name: string, rest: string, target: string)
    decreases |rel|, 0
  {
    && HoleAt(rel, before, name, rest)
    && Fills(Written(code, before), target, after => Spells(code, rest, after))
  }

  /** What a path that is not empty accepts. */
  ghost predicate Reads(rel: string, target: string) {
    if PlainText(rel) then target == rel else Spells(Utf8, rel, target)
  }

  // ----- the compiler's tokens say the same -----

  /** The tokens with every scanned character written as `code` says. */
  function Coded(code: char -> string, ts: seq<Token>): seq<Token> {
    if ts == [] then []
    else if ts[0].Char? then TailTokens(code(ts[0].c)) + Coded(code, ts[1..])
    else [ts[0]] + Coded(code, ts[1..])
  }

  lemma {:induction false} RecodedIsCoded(ts: seq<Token>)
    ensures Recoded(ts) == Coded(Utf8, ts)
  {
    if ts != [] {
      RecodedIsCoded(ts[1..]);
    }
  }

  ghost predicate Matches(code: char -> string, rel: string, target: string) {
    MatchPieces(PiecesOf(Coded(code, Tokens(rel))), target)
  }

  lemma {:induction false} MatchText(s: string, ts: seq<Token>, target: string)
    ensures MatchPieces(PiecesOf(TailTokens(s) + ts), target) <==>
            s <= target && MatchPieces(PiecesOf(ts), target[|s|..])
  {
    var all := TailTokens(s) + ts;
    if s == "" {
      assert all == ts && target[0..] == target;
    } else {
      assert all[1..] == TailTokens(s[1..]) + ts;
      assert PiecesOf(all)[1..] == PiecesOf(all[1..]) && PiecesOf(all)[0] == Lit(s[0]);
      if target != "" {
        MatchText(s[1..], ts, target[1..]);
        if |s| <= |target| {
          assert target[1..][|s| - 1..] == target[|s|..];
          assert s == [s[0]] + s[1..] && target[..|s|] == [target[0]] + target[1..][..|s| - 1];
        }
      }
    }
  }

  lemma MatchHole(ts: seq<Token>, target: string)
    ensures MatchPieces(PiecesOf([Hole] + ts), target) <==>
            exists k :: 0 <= k <= |target| && NoNewline(target[..k]) && MatchPieces(PiecesOf(ts), target[k..])
  {
    var ps := PiecesOf([Hole] + ts);
    assert ([Hole] + ts)[1..] == ts && ps[1..] == PiecesOf(ts) && ps[0] == AnyRun;
    assert forall k :: 0 <= k <= |target| ==>
      (Skips(ps, target, k) <==> NoNewline(target[..k]) && MatchPieces(PiecesOf(ts), target[k..]));
  }

  /** Scanning the text before the first hole. */
  lemma {:induction false} CodedText(code: char -> string, rel: string, before: string, rest: string)
    requires rel == before + rest && forall i :: 0 <= i < |before| ==> !OccursAt(rel, "{{", i)
    ensures Coded(code, Tokens(rel)) == TailTokens(Written(code, before)) + Coded(code, Tokens(rest))
    ensures UnclosedTail(rel) == UnclosedTail(rest)
  {
    if before == "" {
      assert rel == rest;
    } else {
      var rel', before' := rel[1..], before[1..];
      assert rel' == before' + rest;
      CodedChar(code, rel);
      forall i | 0 <= i < |before'| ensures !OccursAt(rel', "{{", i) {
        assert !OccursAt(rel, "{{", i + 1);
        assert i + 2 <= |rel'| ==> rel'[i..i + 2] == rel[i + 1..i + 3];
      }
      CodedText(code, rel', before', rest);
      TailTokensChain(code(rel[0]), Written(code, before'));
    }
  }

  lemma CodedChar(code: char -> string, rel: string)
    requires rel != "" && !OccursAt(rel, "{{", 0)
    ensures Coded(code, Tokens(rel)) == TailTokens(code(rel[0])) + Coded(code, Tokens(rel[1..]))
    ensures UnclosedTail(rel) == UnclosedTail(rel[1..])
  {
    assert Tokens(rel)[1..] == Tokens(rel[1..]);
  }

  lemma TailTokensChain(a: string, b: string)
    ensures TailTokens(a + b) == TailTokens(a) + TailTokens(b)
  {
  }

  lemma Shifted(tail: string, k: nat)
    ensures OccursAt("{{" + tail, "}}", k + 2) <==> OccursAt(tail, "}}", k)
  {
    var s := "{{" + tail;
    if k + 2 <= |tail| {
      assert s[k + 2..k + 4] == tail[k..k + 2];
    }
  }

  lemma NotInBraces(tail: string, k: nat)
    requires k < 2
    ensures !OccursAt("{{" + tail, "}}", k)
  {
    var s := "{{" + tail;
    if k + 2 <= |s| {
      assert s[k..k + 2][0] == '{' && "}}"[0] == '}';
    }
  }

  /** The end of a hole is the first "}}" after its beginning. */
  lemma HoleEnds(tail: string)
    ensures var i, j := Index("{{" + tail, "}}"), Index(tail, "}}");
      if j.None? then i.None? else i == Some(j.value + 2)
  {
    var i, j := Index("{{" + tail, "}}"), Index(tail, "}}");
    IndexFromIsFirst("{{" + tail, "}}", 0);
    IndexFromIsFirst(tail, "}}", 0);
    NotInBraces(tail, 0);
    NotInBraces(tail, 1);
    if i.Some? {
      Shifted(tail, i.value - 2);
    }
    if j.Some? {
      Shifted(tail, j.value);
    }
  }

  lemma CodedOpen(code: char -> string, tail: string)
    requires !Contains(tail, "}}")
    ensures var s := "{{" + tail; Coded(code, Tokens(s)) == TailTokens(s) && UnclosedTail(s) == s
  {
    var s := "{{" + tail;
    IndexSplits(tail, "}}");
    HoleEnds(tail);
    assert s[..2] == "{{" && Tokens(s) == TailTokens(s);
    CodedTail(code, s);
  }

  lemma {:induction false} CodedTail(code: char -> string, s: string)
    ensures Coded(code, TailTokens(s)) == TailTokens(s)
  {
    if s != "" {
      assert TailTokens(s)[1..] == TailTokens(s[1..]);
      CodedTail(code, s[1..]);
    }
  }

  lemma CodedHole(code: char -> string, name: string, rest: string)
    requires SplitAt(name + "}}" + rest, name, "}}", rest)
    ensures var s := "{{" + (name + "}}" + rest);
      Coded(code, Tokens(s)) == [Hole] + Coded(code, Tokens(rest)) && UnclosedTail(s) == UnclosedTail(rest)
  {
    var tail := name + "}}" + rest;
    var s := "{{" + tail;
    SplitIsIndex(tail, name, "}}", rest);
    HoleEnds(tail);
    assert s[..2] == "{{" && s[|name| + 4..] == rest;
    assert Tokens(s) == [Hole] + Tokens(rest) && Tokens(s)[1..] == Tokens(rest);
  }

  lemma MatchesNoHole(code: char -> string, rel: string, target: string)
    requires !Contains(rel, "{{")
    ensures Matches(code, rel, target) <==> target == Written(code, rel)
  {
    assert rel == rel + "";
    CodedText(code, rel, rel, "");
    MatchText(Written(code, rel), [], target);
    assert Coded(code, Tokens("")) == [] && PiecesOf([]) == [];
  }

  lemma MatchesOpen(code: char -> string, rel: string, before: string, tail: string, target: string)
    requires SplitAt(rel, before, "{{", tail) && !Contains(tail, "}}")
    ensures Matches(code, rel, target) <==> target == Written(code, before) + "{{" + tail
  {
    var t, w := "{{" + tail, Written(code, before);
    assert rel == before + t;
    CodedText(code, rel, before, t);
    CodedOpen(code, tail);
    TailTokensChain(w, t);
    assert TailTokens(w) + TailTokens(t) == TailTokens(w + t) + [];
    MatchText(w + t, [], target);
    assert PiecesOf([]) == [] && w + t == w + "{{" + tail;
  }

  lemma MatchesHole(code: char -> string, rel: string, before: string, name: string, rest: string, target: string)
    requires HoleAt(rel, before, name, rest)
    ensures Matches(code, rel, target) <==> Fills(Written(code, before), target, after => Matches(code, rest, after))
  {
    var w, t := Written(code, before), "{{" + (name + "}}" + rest);
    assert rel == before + t;
    CodedText(code, rel, before, t);
    CodedHole(code, name, rest);
    MatchTextHole(w, Coded(code, Tokens(rest)), target, after => Matches(code, rest, after));
  }

  lemma MatchTextHole(w: string, ts: seq<Token>, target: string, more: string -> bool)
    requires forall after :: more(after) <==> MatchPieces(PiecesOf(ts), after)
    ensures MatchPieces(PiecesOf(TailTokens(w) + ([Hole] + ts)), target) <==> Fills(w, target, more)
  {
    if MatchPieces(PiecesOf(TailTokens(w) + ([Hole] + ts)), target) {
      MatchText(w, [Hole] + ts, target);
      MatchHole(ts, target[|w|..]);
      HoleFills(w, target, more);
    }
    if fill, after :| NoNewline(fill) && target == w + fill + after && more(after) {
      HoleFilled(w, fill, after, ts);
    }
  }

  lemma HoleFills(w: string, target: string, more: string -> bool)
    requires w <= target
    requires var rest := target[|w|..]; exists k :: 0 <= k <= |rest| && NoNewline(rest[..k]) && more(rest[k..])
    ensures Fills(w, target, more)
  {
    var rest := target[|w|..];
    var k :| 0 <= k <= |rest| && NoNewline(rest[..k]) && more(rest[k..]);
    assert target == w + rest[..k] + rest[k..];
  }

  lemma HoleFilled(w: string, fill: string, after: string, ts: seq<Token>)
    requires NoNewline(fill) && MatchPieces(PiecesOf(ts), after)
    ensures MatchPieces(PiecesOf(TailTokens(w) + ([Hole] + ts)), w + fill + after)
  {
    var target, more := w + fill + after, fill + after;
    assert target[|w|..] == more;
    assert more[..|fill|] == fill && more[|fill|..] == after;
    MatchText(w, [Hole] + ts, target);
    MatchHole(ts, more);
  }

  /** The first "{{", if there is one, is not closed or begins a hole. */
  lemma FirstHole(rel: string) returns (before: string, name: string, rest: string, open: bool)
    requires Contains(rel, "{{")
    ensures if open then SplitAt(rel, before, "{{", rest) && !Contains(rest, "}}") else HoleAt(rel, before, name, rest)
  {
    IndexSplits(rel, "{{");
    var i := Index(rel, "{{");
    assert i.Some?;
    before, name := rel[..i.value], "";
    var tail := rel[i.value + 2..];
    IndexSplits(tail, "}}");
    var j := Index(tail, "}}");
    if j.None? {
      return before, "", tail, true;
    }
    return before, tail[..j.value], tail[j.value + 2..], false;
  }

  /** A first hole is the only one, and an open one is not closed. */
  lemma SameHole(rel: string, before: string, name: string, rest: string, before': string, name': string, rest': string)
    requires HoleAt(rel, before, name, rest) && HoleAt(rel, before', name', rest')
    ensures before == before' && name == name' && rest == rest'
  {
    SplitIsIndex(rel, before, "{{", name + "}}" + rest);
    SplitIsIndex(rel, before', "{{", name' + "}}" + rest');
    SplitIsIndex(name + "}}" + rest, name, "}}", rest);
    SplitIsIndex(name' + "}}" + rest', name', "}}", rest');
  }

  lemma HoleIsClosed(rel: string, before: string, name: string, rest: string, before': string, tail: string)
    requires HoleAt(rel, before, name, rest) && SplitAt(rel, before', "{{", tail)
    ensures Contains(tail, "}}")
  {
    SplitIsIndex(rel, before, "{{", name + "}}" + rest);
    SplitIsIndex(rel, before', "{{", tail);
    SplitIsIndex(name + "}}" + rest, name, "}}", rest);
  }

  lemma SameFilling(w: string, target: string, a: string -> bool, b: string -> bool)
    requires forall after :: a(after) <==> b(after)
    ensures Fills(w, target, a) <==> Fills(w, target, b)
  {
  }

  lemma {:induction false} MatchesSpells(code: char -> string, rel: string, target: string)
    ensures Matches(code, rel, target) <==> Spells(code, rel, target)
    decreases |rel|
  {
    if !Contains(rel, "{{") {
      MatchesNoHole(code, rel, target);
      NothingOpened(code, rel, target);
    } else {
      var before, name, rest, open := FirstHole(rel);
      if open {
        MatchesOpen(code, rel, before, rest, target);
        OnlyOpened(code, rel, before, rest, target);
      } else {
        MatchesHole(code, rel, before, name, rest, target);
        OnlyHole(code, rel, before, name, rest, target);
        forall after ensures Matches(code, rest, after) <==> Spells(code, rest, after) {
          MatchesSpells(code, rest, after);
        }
        SameFilling(Written(code, before), target, after => Matches(code, rest, after), after => Spells(code, rest, after));
      }
    }
  }

  lemma NothingOpened(code: char -> string, rel: string, target: string)
    requires !Contains(rel, "{{")
    ensures Spells(code, rel, target) <==> target == Written(code, rel)
  {
    if before, tail :| SpellsOpen(code, rel, before, tail, target) {
      SplitIsIndex(rel, before, "{{", tail);
    }
    if before, name, rest :| SpellsHole(code, rel, before, name, rest, target) {
      SplitIsIndex(rel, before, "{{", name + "}}" + rest);
    }
  }

  lemma OnlyOpened(code: char -> string, rel: string, before: string, tail: string, target: string)
    requires SplitAt(rel, before, "{{", tail) && !Contains(tail, "}}")
    ensures Spells(code, rel, target) <==> SpellsOpen(code, rel, before, tail, target)
  {
    SplitIsIndex(rel, before, "{{", tail);
    if before', tail' :| SpellsOpen(code, rel, before', tail', target) {
      SplitIsIndex(rel, before', "{{", tail');
    }
    if before', name, rest :| SpellsHole(code, rel, before', name, rest, target) {
      HoleIsClosed(rel, before', name, rest, before, tail);
    }
  }

  lemma OnlyHole(code: char -> string, rel: string, before: string, name: string, rest: string, target: string)
    requires HoleAt(rel, before, name, rest)
    ensures Spells(code, rel, target) <==> SpellsHole(code, rel, before, name, rest, target)
  {
    SplitIsIndex(rel, before, "{{", name + "}}" + rest);
    if before', tail :| SpellsOpen(code, rel, before', tail, target) {
      HoleIsClosed(rel, before, name, rest, before', tail);
    }
    if before', name', rest' :| SpellsHole(code, rel, before', name', rest', target) {
      SameHole(rel, before, name, rest, before', name', rest');
    }
  }

  // ----- which paths compile -----

  /** A hole that is not closed is left open in `rel`, and is the text `u`. */
  ghost predicate LeftOpen(rel: string, u: string)
    decreases |rel|
  {
    || (exists before, tail :: SplitAt(rel, before, "{{", tail) && !Contains(tail, "}}") && u == "{{" + tail)
    || (exists before, name, rest :: HoleAt(rel, before, name, rest) && LeftOpen(rest, u))
  }

  lemma {:induction false} LeftOpenIsTail(rel: string, u: string)
    ensures LeftOpen(rel, u) <==> u != "" && u == UnclosedTail(rel)
    decreases |rel|
  {
    if !Contains(rel, "{{") {
      CodedText(Itself, rel, rel, "");
      if before, tail :| SplitAt(rel, before, "{{", tail) && !Contains(tail, "}}") && u == "{{" + tail {
        SplitIsIndex(rel, before, "{{", tail);
      }
      if before, name, rest :| HoleAt(rel, before, name, rest) && LeftOpen(rest, u) {
        SplitIsIndex(rel, before, "{{", name + "}}" + rest);
      }
    } else {
      var before, name, rest, open := FirstHole(rel);
      if open {
        OpenIsTail(rel, before, rest, u);
      } else {
        HoleThenTail(rel, before, name, rest, u);
        LeftOpenIsTail(rest, u);
      }
    }
  }

  lemma OpenIsTail(rel: string, before: string, tail: string, u: string)
    requires SplitAt(rel, before, "{{", tail) && !Contains(tail, "}}")
    ensures UnclosedTail(rel) == "{{" + tail && (LeftOpen(rel, u) <==> u == "{{" + tail)
  {
    assert rel == before + ("{{" + tail);
    CodedText(Itself, rel, before, "{{" + tail);
    CodedOpen(Itself, tail);
    SplitIsIndex(rel, before, "{{", tail);
    if before', tail' :| SplitAt(rel, before', "{{", tail') && !Contains(tail', "}}") && u == "{{" + tail' {
      SplitIsIndex(rel, before', "{{", tail');
    }
    if before', name, rest :| HoleAt(rel, before', name, rest) && LeftOpen(rest, u) {
      HoleIsClosed(rel, before', name, rest, before, tail);
    }
  }

  lemma HoleThenTail(rel: string, before: string, name: string, rest: string, u: string)
    requires HoleAt(rel, before, name, rest)
    ensures UnclosedTail(rel) == UnclosedTail(rest) && (LeftOpen(rel, u) <==> LeftOpen(rest, u))
  {
    assert rel == before + ("{{" + (name + "}}" + rest));
    CodedText(Itself, rel, before, "{{" + (name + "}}" + rest));
    CodedHole(Itself, name, rest);
    if before', tail :| SplitAt(rel, before', "{{", tail) && !Contains(tail, "}}") && u == "{{" + tail {
      HoleIsClosed(rel, before, name, rest, before', tail);
    }
    if before', name', rest' :| HoleAt(rel, before', name', rest') && LeftOpen(rest', u) {
      SameHole(rel, before, name, rest, before', name', rest');
    }
  }

  /** A path compiles exactly when the text of a hole that is left open is well-formed UTF-8. */
  lemma PathCompilesIff(p: string, rel: string)
    requires Relative(p, rel)
    ensures PathCompiles(p) <==> forall u :: LeftOpen(rel, u) ==> ValidUtf8(u)
  {
    RelativeIsStripped(p, rel);
    LeftOpenIsTail(rel, UnclosedTail(rel));
    forall u | LeftOpen(rel, u) ensures u == UnclosedTail(rel) {
      LeftOpenIsTail(rel, u);
    }
    if Static(rel) {
      CodedText(Itself, rel, rel, "");
    }
  }
}
