/** Compilation preserves meaning: compiled paths and blocks accept exactly what the template
    says. */
module SignatureTheory {
  import opened Text
  import opened Signature
  import opened PathLanguage

  // ----- the compiled path accepts the template's language -----

  lemma {:induction false} MatchSound(ts: seq<Token>, target: string) returns (fills: seq<string>)
    requires MatchPieces(PiecesOf(ts), target)
    ensures Renders(ts, fills, target)
  {
    if ts == [] {
      fills := [];
    } else {
      var ps := PiecesOf(ts);
      assert ps[1..] == PiecesOf(ts[1..]);
      if ts[0].Hole? {
        var k :| 0 <= k <= |target| && Skips(ps, target, k);
        var rest := MatchSound(ts[1..], target[k..]);
        fills := [target[..k]] + rest;
        assert fills[1..] == rest;
        assert target == target[..k] + target[k..];
      } else {
        fills := MatchSound(ts[1..], target[1..]);
        assert target == [target[0]] + target[1..];
      }
    }
  }

  lemma {:induction false} MatchComplete(ts: seq<Token>, fills: seq<string>, target: string)
    requires Renders(ts, fills, target)
    ensures MatchPieces(PiecesOf(ts), target)
  {
    if ts != [] {
      var ps := PiecesOf(ts);
      assert ps[1..] == PiecesOf(ts[1..]);
      if ts[0].Hole? {
        var k := |fills[0]|;
        assert target[..k] == fills[0];
        MatchComplete(ts[1..], fills[1..], target[k..]);
        assert Skips(ps, target, k);
      } else {
        MatchComplete(ts[1..], fills, target[1..]);
      }
    }
  }

  lemma MatchIsLanguage(ts: seq<Token>, target: string)
    ensures MatchPieces(PiecesOf(ts), target) <==> InLanguage(ts, target)
  {
    if MatchPieces(PiecesOf(ts), target) {
      var fills := MatchSound(ts, target);
    }
    if InLanguage(ts, target) {
      var fills :| Renders(ts, fills, target);
      MatchComplete(ts, fills, target);
    }
  }

  lemma RecodedSpells(rel: string, target: string)
    ensures InLanguage(Recoded(Tokens(rel)), target) <==> Spells(Utf8, rel, target)
  {
    RecodedIsCoded(Tokens(rel));
    MatchIsLanguage(Recoded(Tokens(rel)), target);
    MatchesSpells(Utf8, rel, target);
  }

  lemma PiecesLonger(first: Token, ts: seq<Token>)
    ensures PiecesOf([first] + ts) == [PieceOf(first)] + PiecesOf(ts)
  {
  }

  /** A character that is written as it stands is the same piece, scanned or not. */
  lemma {:induction false} SamePieces(code: char -> string, ts: seq<Token>)
    requires forall i :: 0 <= i < |ts| && ts[i].Char? ==> code(ts[i].c) == [ts[i].c]
    ensures PiecesOf(Coded(code, ts)) == PiecesOf(ts)
  {
    if ts != [] {
      var first, rest := ts[0], ts[1..];
      assert forall i :: 0 <= i < |rest| ==> rest[i] == ts[i + 1];
      SamePieces(code, rest);
      var written := if first.Char? then Tail(first.c) else first;
      assert first.Char? ==> TailTokens([first.c]) == [written];
      PiecesLonger(written, Coded(code, rest));
      PiecesLonger(first, rest);
      assert ts == [first] + rest;
    }
  }

  lemma TokensSpell(rel: string, target: string)
    ensures InLanguage(Tokens(rel), target) <==> Spells(Itself, rel, target)
  {
    SamePieces(Itself, Tokens(rel));
    MatchIsLanguage(Tokens(rel), target);
    MatchesSpells(Itself, rel, target);
  }

  lemma PlainIsStatic(rel: string)
    ensures PlainText(rel) <==> Static(rel)
  {
    if i :| 0 <= i < |rel| && MetaAt(rel, i) {
      assert rel[i] in "[](){}.*+?^$|\\";
    }
    if Static(rel) {
      forall i | 0 <= i < |rel| ensures rel[i] !in "[](){}.*+?^$|\\" {
        assert !MetaAt(rel, i);
      }
    }
  }

  /** For every template path the compiled matcher accepts exactly what the path reads, taken
      relative to the site; a path of which nothing is left accepts nothing. */
  lemma PathMeaning(p: string, rel: string, target: string)
    requires Relative(p, rel)
    ensures Accepts(PathOf(p), target) <==> rel != "" && Reads(rel, target)
  {
    RelativeIsStripped(p, rel);
    PlainIsStatic(rel);
    if !Static(rel) {
      MatchIsLanguage(Recoded(Tokens(rel)), target);
      RecodedSpells(rel, target);
    }
  }

  /** The placeholders of the site are stripped, as are a scheme and host; other paths stay. */
  lemma SiteIsStripped(rel: string, target: string)
    ensures forall v :: v in ["{{BaseURL}}", "{{RootURL}}", "{{Hostname}}"] ==>
              (Accepts(PathOf(v + rel), target) <==> rel != "" && Reads(rel, target))
    ensures !NamesSite(rel) && !Contains(rel, "://") ==> (Accepts(PathOf(rel), target) <==> rel != "" && Reads(rel, target))
  {
    PathMeaning("{{BaseURL}}" + rel, rel, target);
    PathMeaning("{{RootURL}}" + rel, rel, target);
    PathMeaning("{{Hostname}}" + rel, rel, target);
    if !NamesSite(rel) && !Contains(rel, "://") {
      PathMeaning(rel, rel, target);
    }
  }

  lemma HostIsStripped(p: string, scheme: string, host: string, path: string, target: string)
    requires !NamesSite(p) && Absolute(p, scheme, host, path)
    ensures Accepts(PathOf(p), target) <==> Reads(if path == "" then "/" else path, target)
  {
    PathMeaning(p, if path == "" then "/" else path, target);
  }

  // ----- which templates keep their exact language -----

  /** An ASCII byte (or a character that is not a byte). */
  predicate AsItStands(c: char) {
    c as int < 128 || c as int >= 256
  }

  /** The scanned text is ASCII. */
  predicate AsciiChars(ts: seq<Token>) {
    forall i :: 0 <= i < |ts| && ts[i].Char? ==> AsItStands(ts[i].c)
  }

  /** How many tokens stand for themselves. */
  ghost function Plain(ts: seq<Token>): int {
    |ts| - Holes(ts)
  }

  lemma {:induction false} HolesBound(ts: seq<Token>)
    ensures Holes(ts) <= |ts|
  {
    if ts != [] {
      HolesBound(ts[1..]);
    }
  }

  lemma AsciiUnfold(ts: seq<Token>)
    requires ts != []
    ensures AsciiChars(ts) <==> AsciiChars(ts[1..]) && (ts[0].Char? ==> AsItStands(ts[0].c))
  {
    assert forall i :: 0 <= i < |ts[1..]| ==> ts[1..][i] == ts[i + 1];
    assert forall i :: 0 < i < |ts| ==> ts[i] == ts[1..][i - 1];
  }

  lemma {:induction false} RecodedShape(ts: seq<Token>)
    ensures Holes(Recoded(ts)) == Holes(ts) && |Recoded(ts)| >= |ts|
    ensures !AsciiChars(ts) ==> |Recoded(ts)| > |ts|
  {
    if ts != [] {
      RecodedShape(ts[1..]);
      AsciiUnfold(ts);
      if ts[0].Char? {
        TailHoles(Utf8(ts[0].c), Recoded(ts[1..]));
      } else {
        assert Recoded(ts)[1..] == Recoded(ts[1..]);
      }
    }
  }

  lemma RecodedPieces(ts: seq<Token>)
    requires AsciiChars(ts)
    ensures PiecesOf(Recoded(ts)) == PiecesOf(ts)
  {
    RecodedIsCoded(ts);
    SamePieces(Utf8, ts);
  }

  lemma {:induction false} TailHoles(s: string, rest: seq<Token>)
    ensures Holes(TailTokens(s) + rest) == Holes(rest)
  {
    if s == "" {
      assert TailTokens(s) + rest == rest;
    } else {
      assert (TailTokens(s) + rest)[1..] == TailTokens(s[1..]) + rest;
      TailHoles(s[1..], rest);
    }
  }

  lemma {:induction false} RenderLength(ts: seq<Token>, fills: seq<string>)
    requires |fills| == Holes(ts)
    ensures |Render(ts, fills)| >= Plain(ts)
    ensures (forall i :: 0 <= i < |fills| ==> fills[i] == "") ==> |Render(ts, fills)| == Plain(ts)
  {
    HolesBound(ts);
    if ts != [] {
      HolesBound(ts[1..]);
      RenderLength(ts[1..], if ts[0].Hole? then fills[1..] else fills);
    }
  }

  /** Without an ASCII-only text the compiled path misses the template's shortest member. */
  lemma ShortestIsLost(ts: seq<Token>) returns (target: string)
    requires !AsciiChars(ts)
    ensures InLanguage(ts, target) && !InLanguage(Recoded(ts), target)
  {
    var fills := seq(Holes(ts), _ => "");
    target := Render(ts, fills);
    RenderLength(ts, fills);
    RecodedShape(ts);
    HolesBound(ts);
    assert Renders(ts, fills, target);
    if InLanguage(Recoded(ts), target) {
      var other :| Renders(Recoded(ts), other, target);
      RenderLength(Recoded(ts), other);
    }
  }

  lemma AsciiKeepsLanguage(ts: seq<Token>, target: string)
    requires AsciiChars(ts)
    ensures InLanguage(Recoded(ts), target) <==> InLanguage(ts, target)
  {
    RecodedPieces(ts);
    MatchIsLanguage(ts, target);
    MatchIsLanguage(Recoded(ts), target);
  }

  lemma {:induction false} WrittenAsIs(rel: string)
    ensures Written(Itself, rel) == rel
  {
    if rel != "" {
      WrittenAsIs(rel[1..]);
      assert [rel[0]] + rel[1..] == rel;
    }
  }

  /** The compiled path accepts what the template spells, each character standing for itself,
      and nothing else, exactly when the path is not empty and is plain or scans as ASCII. */
  lemma PathExactIff(p: string, rel: string)
    requires Relative(p, rel)
    ensures (forall target :: Accepts(PathOf(p), target) <==> Spells(Itself, rel, target))
       <==> rel != "" && (PlainText(rel) || AsciiChars(Tokens(rel)))
  {
    var ts := Tokens(rel);
    WrittenAsIs(rel);
    if rel == "" {
      PathMeaning(p, rel, "");
      NothingOpened(Itself, rel, "");
    } else if PlainText(rel) {
      forall target ensures Accepts(PathOf(p), target) <==> Spells(Itself, rel, target) {
        PathMeaning(p, rel, target);
        NothingOpened(Itself, rel, target);
      }
    } else if AsciiChars(ts) {
      forall target ensures Accepts(PathOf(p), target) <==> Spells(Itself, rel, target) {
        PathMeaning(p, rel, target);
        RecodedSpells(rel, target);
        AsciiKeepsLanguage(ts, target);
        TokensSpell(rel, target);
      }
    } else {
      var target := ShortestIsLost(ts);
      PathMeaning(p, rel, target);
      RecodedSpells(rel, target);
      TokensSpell(rel, target);
    }
  }

  /** On plain ASCII paths the exact comparison and the regexp agree. */
  lemma FastPathAgrees(rel: string, target: string)
    requires PlainText(rel) && AsciiChars(Tokens(rel))
    ensures target == rel <==> MatchPieces(PiecesOf(Recoded(Tokens(rel))), target)
  {
    AsciiKeepsLanguage(Tokens(rel), target);
    TokensSpell(rel, target);
    NothingOpened(Itself, rel, target);
    WrittenAsIs(rel);
    MatchIsLanguage(Recoded(Tokens(rel)), target);
  }
}
