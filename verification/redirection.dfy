/** The redirect after a solved challenge: the requested path is checked, and the standard
    library's redirect cleans it up and writes it into the Location header. */
module Redirection {
  import opened Prelude
  import opened Text

  /** The path that is asked for, or the root if it is not a path or names a host outright. */
  function SafeReturn(ret: string): string {
    if ret == "" || ret[0] != '/' then "/"
    else if |ret| > 1 && (ret[1] == '/' || ret[1] == '\\') then "/"
    else ret
  }

  // ----- the redirect's clean-up of a rooted path -----

  /** The text before the first question mark. */
  function PathPart(s: string): (p: string)
    ensures p <= s && '?' !in p
    ensures p == s || s[|p|] == '?'
  {
    if s == "" || s[0] == '?' then "" else [s[0]] + PathPart(s[1..])
  }

  /** The texts between the slashes. */
  function Segments(s: string): (segs: seq<string>)
    ensures segs != []
  {
    if s == "" then [""]
    else
      var rest := Segments(s[1..]);
      if s[0] == '/' then [""] + rest else [[s[0]] + rest[0]] + rest[1..]
  }

  /** The stack of segments that a path cleaner keeps: empty segments and dots are dropped, and
      a double dot drops the segment before it. */
  function Kept(segs: seq<string>): seq<string> {
    if segs == [] then []
    else
      var k, last := Kept(segs[..|segs| - 1]), segs[|segs| - 1];
      if last == "" || last == "." then k
      else if last != ".." then Push(k, last)
      else if k == [] then []
      else k[..|k| - 1]
  }

  function Joined(k: seq<string>): string {
    if k == [] then "" else "/" + k[0] + Joined(k[1..])
  }

  predicate Trailing(p: string) {
    p != "" && p[|p| - 1] == '/'
  }

  /** A rooted path made of segments, with a slash at the end if the given one has one. */
  function Rooted(k: seq<string>, trailing: bool): string {
    if k == [] then "/" else if trailing then Joined(k) + "/" else Joined(k)
  }

  /** A path followed by a query, which may be missing. */
  function WithQuery(path: string, query: string): (s: string)
    ensures |s| == |path| + |query|
  {
    if query == "" then path else path + query
  }

  function KeptOf(s: string): seq<string> {
    Kept(Segments(PathPart(s)))
  }

  /** path.Clean on the text before the query, which keeps a slash at the end. */
  function Cleaned(s: string): string
    requires s != "" && s[0] == '/'
  {
    WithQuery(Rooted(KeptOf(s), Trailing(PathPart(s))), s[|PathPart(s)|..])
  }

  // ----- the header, and what a browser makes of it -----

  function HexDigit(n: int): char
    requires 0 <= n < 16
  {
    if n < 10 then '0' + n as char else 'a' + (n - 10) as char
  }

  /** Bytes above ASCII are percent-encoded, and newlines are written as spaces. */
  function SentChar(c: char): string {
    var b := c as int;
    if c == '\n' || c == '\r' then " "
    else if 128 <= b < 256 then ['%', HexDigit(b / 16), HexDigit(b % 16)]
    else [c]
  }

  function Sent(s: string): string {
    if s == "" then "" else SentChar(s[0]) + Sent(s[1..])
  }

  /** The Location header. Which texts parse as URLs is left open (those with a control
      character before any '#' do not); a text that does not parse is not cleaned up. */
  function Location(parses: string -> bool, ret: string): string {
    var r := SafeReturn(ret);
    Sent(if parses(r) then Cleaned(r) else r)
  }

  /** What a browser deletes from a location before it looks for a host in it (the URL
      standard's parser removes every tab and newline). */
  predicate Dropped(c: char) {
    c == '\t' || c == '\n' || c == '\r'
  }

  function AsParsed(s: string): string {
    if s == "" then ""
    else if Dropped(s[0]) then AsParsed(s[1..])
    else [s[0]] + AsParsed(s[1..])
  }

  predicate SlashLike(s: string) {
    s != "" && (s[0] == '/' || s[0] == '\\')
  }

  /** A browser stays on the site: the location it parses is a path, and names no host. */
  predicate OnSite(s: string) {
    var t := AsParsed(s);
    t != "" && t[0] == '/' && !SlashLike(t[1..])
  }

  // ----- when the browser leaves the site -----

  function SkipTabs(s: string): (r: string)
    ensures |r| <= |s| && (r != "" ==> r[0] != '\t')
  {
    if s != "" && s[0] == '\t' then SkipTabs(s[1..]) else s
  }

  /** A cleaned path names a host: its first segment is, after tabs, a backslash or nothing
      before a further slash. */
  predicate SegmentsLeave(k: seq<string>, trailing: bool) {
    k != [] &&
    var first := SkipTabs(k[0]);
    if first == "" then |k| > 1 || trailing else first[0] == '\\'
  }

  predicate Leaves(parses: string -> bool, ret: string) {
    var r := SafeReturn(ret);
    if parses(r) then SegmentsLeave(KeptOf(r), Trailing(PathPart(r))) else SlashLike(SkipTabs(r[1..]))
  }

  /** What is sent and then parsed begins like the text without its leading tabs. */
  lemma {:induction false} SentBegins(s: string)
    ensures SlashLike(AsParsed(Sent(s))) <==> SlashLike(SkipTabs(s))
  {
    if s != "" {
      var x, rest := SentChar(s[0]), Sent(s[1..]);
      assert (x + rest)[0] == x[0];
      if s[0] == '\t' {
        assert (x + rest)[1..] == rest;
        SentBegins(s[1..]);
      }
    }
  }

  lemma RootedOnSite(s: string)
    requires s != "" && s[0] == '/'
    ensures OnSite(Sent(s)) <==> !SlashLike(SkipTabs(s[1..]))
  {
    var rest := Sent(s[1..]);
    assert Sent(s) == "/" + rest && (("/" + rest)[1..]) == rest;
    assert AsParsed("/" + rest) == "/" + AsParsed(rest);
    assert ("/" + AsParsed(rest))[1..] == AsParsed(rest);
    SentBegins(s[1..]);
  }

  lemma {:induction false} SkipTabsThrough(a: string, b: string)
    ensures SkipTabs(a + b) == if SkipTabs(a) == "" then SkipTabs(b) else SkipTabs(a) + b
  {
    if a == "" {
      assert a + b == b;
    } else if a[0] == '\t' {
      assert (a + b)[1..] == a[1..] + b;
      SkipTabsThrough(a[1..], b);
    }
  }

  predicate NoSlash(segs: seq<string>) {
    forall i :: 0 <= i < |segs| ==> '/' !in segs[i]
  }

  lemma {:induction false} SegmentsHaveNoSlash(s: string)
    ensures NoSlash(Segments(s))
  {
    if s != "" {
      SegmentsHaveNoSlash(s[1..]);
    }
  }

  /** A segment that is no path of its own. */
  predicate Proper(seg: string) {
    seg != "" && seg != "." && seg != ".."
  }

  lemma {:induction false} KeptAreProper(segs: seq<string>)
    ensures forall i :: 0 <= i < |Kept(segs)| ==> Proper(Kept(segs)[i])
    ensures NoSlash(segs) ==> NoSlash(Kept(segs))
  {
    if segs != [] {
      KeptAreProper(segs[..|segs| - 1]);
    }
  }

  lemma SkippedHasNoSlash(s: string)
    requires '/' !in s
    ensures '/' !in SkipTabs(s)
  {
    if s != "" && s[0] == '\t' {
      SkippedHasNoSlash(s[1..]);
    }
  }

  lemma FirstSegment(first: string, more: string)
    requires '/' !in first && (more == "" || more[0] == '/' || more[0] == '?')
    ensures SlashLike(SkipTabs(first + more)) <==>
            var t := SkipTabs(first); if t == "" then more != "" && more[0] == '/' else t[0] == '\\'
  {
    SkipTabsThrough(first, more);
    SkippedHasNoSlash(first);
  }

  /** What follows the first segment of a joined path. */
  lemma RootedFrom(k: seq<string>, trailing: bool) returns (rest: string)
    requires k != []
    ensures var p := Rooted(k, trailing); p != "" && p[0] == '/' && p[1..] == k[0] + rest
    ensures if |k| > 1 || trailing then rest != "" && rest[0] == '/' else rest == ""
  {
    var tail := Joined(k[1..]);
    assert Joined(k)[0] == '/' && Joined(k)[1..] == k[0] + tail;
    rest := if trailing then tail + "/" else tail;
    if trailing {
      assert (Joined(k) + "/")[1..] == k[0] + rest;
    }
  }

  lemma JoinedFrom(k: seq<string>, trailing: bool, query: string) returns (more: string)
    requires k != [] && (query == "" || query[0] == '?')
    ensures var s := WithQuery(Rooted(k, trailing), query); s != "" && s[0] == '/' && s[1..] == k[0] + more
    ensures more == "" || more[0] == '/' || more[0] == '?'
    ensures more != "" && more[0] == '/' <==> |k| > 1 || trailing
  {
    var rest := RootedFrom(k, trailing);
    more := WithQuery(rest, query);
    if query != "" {
      assert (Rooted(k, trailing) + query)[1..] == Rooted(k, trailing)[1..] + query;
      assert k[0] + rest + query == k[0] + more;
    }
  }

  /** What follows the first slash of a cleaned path. */
  lemma AfterFirstSlash(k: seq<string>, trailing: bool, query: string)
    requires NoSlash(k) && (query == "" || query[0] == '?')
    ensures var s := WithQuery(Rooted(k, trailing), query);
      s != "" && s[0] == '/' && (SlashLike(SkipTabs(s[1..])) <==> SegmentsLeave(k, trailing))
  {
    var s := WithQuery(Rooted(k, trailing), query);
    if k == [] {
      assert s[1..] == query;
    } else {
      var more := JoinedFrom(k, trailing, query);
      FirstSegment(k[0], more);
    }
  }

  /** The browser stays on the site exactly when the requested path does not leave it: if it
      parses, when the first segment that the clean-up keeps does not, after tabs, begin with a
      backslash or end before a further slash; else when no slash or backslash comes after the
      first slash and some tabs. */
  lemma RedirectOnSiteIff(parses: string -> bool, ret: string)
    ensures OnSite(Location(parses, ret)) <==> !Leaves(parses, ret)
  {
    var r := SafeReturn(ret);
    if parses(r) {
      var path := PathPart(r);
      SegmentsHaveNoSlash(path);
      KeptAreProper(Segments(path));
      AfterFirstSlash(KeptOf(r), Trailing(path), r[|path|..]);
      RootedOnSite(Cleaned(r));
    } else {
      RootedOnSite(r);
    }
  }

  predicate NoTabs(s: string) {
    '\t' !in s
  }

  lemma {:induction false} SegmentsHaveNoTabs(s: string)
    requires NoTabs(s)
    ensures forall i :: 0 <= i < |Segments(s)| ==> NoTabs(Segments(s)[i])
  {
    if s != "" {
      SegmentsHaveNoTabs(s[1..]);
    }
  }

  lemma {:induction false} KeptComeFrom(segs: seq<string>)
    ensures forall i :: 0 <= i < |Kept(segs)| ==> Kept(segs)[i] in segs
  {
    if segs != [] {
      var init := segs[..|segs| - 1];
      KeptComeFrom(init);
      assert forall x :: x in init ==> x in segs;
    }
  }

  /** Without tabs a redirect leaves the site exactly when the path parses and the first segment
      that the clean-up keeps begins with a backslash. */
  lemma PlainRedirectOnSiteIff(parses: string -> bool, ret: string)
    requires NoTabs(ret)
    ensures var r := SafeReturn(ret);
      OnSite(Location(parses, ret)) <==> !(parses(r) && KeptOf(r) != [] && SlashLike(KeptOf(r)[0]))
  {
    var r := SafeReturn(ret);
    var path := PathPart(r);
    RedirectOnSiteIff(parses, ret);
    SegmentsHaveNoTabs(path);
    SegmentsHaveNoSlash(path);
    KeptAreProper(Segments(path));
    KeptComeFrom(Segments(path));
    if parses(r) && KeptOf(r) != [] {
      var first := KeptOf(r)[0];
      assert first[0] in first && SkipTabs(first) == first;
    } else if |r| > 1 {
      assert r[1] in r && SkipTabs(r[1..]) == r[1..];
    }
  }

  /** Both cases occur: a tab after the slash, in a text that does not parse, as in
      "/<tab>/evil.example"; and a backslash that the clean-up moves behind the first slash, as in
      "/./\evil.example". */
  lemma TabLeaves(parses: string -> bool, host: string)
    requires !parses("/\t/" + host)
    ensures !OnSite(Location(parses, "/\t/" + host))
  {
    var r := "/\t/" + host;
    var rest, path := "\t/" + host, "/" + host;
    assert r[0] == '/' && r[1] == '\t' && r[1..] == rest && rest[1..] == path;
    assert SkipTabs(rest) == SkipTabs(path) == path;
    RedirectOnSiteIff(parses, r);
  }

  lemma CleanUpLeaves(parses: string -> bool, seg: string)
    requires seg != "" && seg[0] == '\\' && '/' !in seg && '?' !in seg && parses("/./" + seg)
    ensures OnSite(Sent("/./" + seg)) && !OnSite(Location(parses, "/./" + seg))
  {
    var r := "/./" + seg;
    assert r[0] == '/' && r[1] == '.' && r[1..][0] == '.';
    assert SafeReturn(r) == r;
    RootedOnSite(r);
    assert '?' !in r;
    NoQuery(r);
    DotSegment(seg);
    RedirectOnSiteIff(parses, r);
  }

  /** A dot in front of a segment is cleaned away. */
  lemma DotSegment(seg: string)
    requires '/' !in seg && Proper(seg)
    ensures Segments("/./" + seg) == ["", ".", seg] && Kept(["", ".", seg]) == [seg]
  {
    var s, dotted := "/./" + seg, "./" + seg;
    OneSegment(seg);
    assert dotted == "." + "/" + seg;
    SegmentsGlue(".", seg);
    assert s[0] == '/' && s[1..] == dotted;
    SegmentsAfterSlash(s);
    var segs := ["", ".", seg];
    assert [""][..0] == [] && Kept([""]) == [];
    assert ["", "."][..1] == [""] && Kept(["", "."]) == [];
    assert segs[..2] == ["", "."] && Kept(segs) == Push([], seg);
  }

  lemma {:induction false} NoQuery(s: string)
    requires '?' !in s
    ensures PathPart(s) == s
  {
    if s != "" {
      NoQuery(s[1..]);
    }
  }

  lemma {:induction false} OneSegment(s: string)
    requires '/' !in s
    ensures Segments(s) == [s]
  {
    if s != "" {
      assert s[0] in s;
      OneSegment(s[1..]);
      assert [s[0]] + s[1..] == s;
    }
  }

  // ----- a clean path is kept -----

  lemma {:induction false} SegmentsGlue(a: string, b: string)
    requires '/' !in a
    ensures Segments(a + "/" + b) == [a] + Segments(b)
  {
    var s := a + "/" + b;
    if a == "" {
      assert s[1..] == b;
    } else {
      assert s[1..] == a[1..] + "/" + b;
      SegmentsGlue(a[1..], b);
      assert [s[0]] + a[1..] == a;
    }
  }

  /** A slash puts an empty segment in front. */
  lemma SegmentsAfterSlash(s: string)
    requires s != "" && s[0] == '/'
    ensures Segments(s) == [""] + Segments(s[1..])
  {
  }

  /** Splitting what was joined gives back the segments, after an empty one. */
  lemma {:induction false} SegmentsOfJoined(k: seq<string>)
    requires NoSlash(k)
    ensures Segments(Joined(k)) == [""] + k
    decreases |k|
  {
    if k != [] {
      var s, tail := Joined(k), Joined(k[1..]);
      assert s[0] == '/' && s[1..] == k[0] + tail;
      SegmentsAfterSlash(s);
      SegmentsOfJoined(k[1..]);
      SegmentsOfFirst(k[0], tail, k[1..]);
      assert k == [k[0]] + k[1..];
    }
  }

  lemma SegmentsOfFirst(first: string, tail: string, k: seq<string>)
    requires '/' !in first && (tail == "" || tail[0] == '/') && Segments(tail) == [""] + k
    ensures Segments(first + tail) == [first] + k
  {
    if tail == "" {
      assert first + tail == first && k == [];
      OneSegment(first);
    } else {
      assert first + tail == first + "/" + tail[1..];
      SegmentsGlue(first, tail[1..]);
      SegmentsAfterSlash(tail);
      assert ([""] + k)[1..] == k && ([""] + Segments(tail[1..]))[1..] == Segments(tail[1..]);
    }
  }

  lemma {:induction false} SegmentsClosed(s: string)
    ensures Segments(s + "/") == Segments(s) + [""]
  {
    if s == "" {
      assert s + "/" == "/" && "/"[1..] == "";
    } else {
      assert (s + "/")[1..] == s[1..] + "/";
      SegmentsClosed(s[1..]);
      var rest := Segments(s[1..]);
      assert (rest + [""])[1..] == rest[1..] + [""];
    }
  }

  lemma {:induction false} ProperAreKept(k: seq<string>)
    requires forall i :: 0 <= i < |k| ==> Proper(k[i])
    ensures Kept([""] + k) == k && Kept([""] + k + [""]) == k
  {
    var all := [""] + k;
    assert (all + [""])[..|all|] == all;
    if k == [] {
      assert all == [""] && all[..0] == [];
    } else {
      var init := k[..|k| - 1];
      assert all[..|all| - 1] == [""] + init;
      ProperAreKept(init);
      assert Push(init, k[|k| - 1]) == k;
    }
  }

  lemma {:induction false} JoinedHasNoQuery(k: seq<string>)
    requires forall i :: 0 <= i < |k| ==> '?' !in k[i]
    ensures '?' !in Joined(k)
  {
    if k != [] {
      JoinedHasNoQuery(k[1..]);
    }
  }

  lemma {:induction false} SegmentsHaveNoQuery(s: string)
    requires '?' !in s
    ensures forall i :: 0 <= i < |Segments(s)| ==> '?' !in Segments(s)[i]
  {
    if s != "" {
      SegmentsHaveNoQuery(s[1..]);
    }
  }

  lemma {:induction false} PathPartOf(p: string, query: string)
    requires '?' !in p && (query == "" || query[0] == '?')
    ensures var s := WithQuery(p, query); PathPart(s) == p && s[|p|..] == query
  {
    var s := WithQuery(p, query);
    if p != "" {
      assert s[0] == p[0] && s[0] in p && s[1..] == WithQuery(p[1..], query);
      PathPartOf(p[1..], query);
      assert [s[0]] + p[1..] == p;
    }
  }

  lemma {:induction false} JoinedEnds(k: seq<string>)
    requires k != [] && NoSlash(k) && forall i :: 0 <= i < |k| ==> Proper(k[i])
    ensures Joined(k) != "" && !Trailing(Joined(k))
  {
    if |k| == 1 {
      assert Joined(k) == "/" + k[0];
    } else {
      JoinedEnds(k[1..]);
    }
  }

  lemma RootedIsClean(k: seq<string>, trailing: bool)
    requires NoSlash(k) && forall i :: 0 <= i < |k| ==> Proper(k[i])
    ensures var p := Rooted(k, trailing); p != "" && Kept(Segments(p)) == k && Rooted(k, Trailing(p)) == p
  {
    ProperAreKept(k);
    SegmentsOfJoined(k);
    SegmentsClosed(Joined(k));
    if k == [] {
      assert Joined(k) + "/" == "/";
    } else {
      JoinedEnds(k);
    }
  }

  /** Cleaning up a clean path changes nothing more. */
  lemma CleanedTwice(s: string)
    requires s != "" && s[0] == '/'
    ensures var c := Cleaned(s); c != "" && c[0] == '/' && Cleaned(c) == c
  {
    var path, k := PathPart(s), KeptOf(s);
    var p, query := Rooted(k, Trailing(path)), s[|path|..];
    SegmentsHaveNoSlash(path);
    SegmentsHaveNoQuery(path);
    KeptAreProper(Segments(path));
    KeptComeFrom(Segments(path));
    JoinedHasNoQuery(k);
    RootedIsClean(k, Trailing(path));
    PathPartOf(p, query);
  }

  /** ASCII without newlines. */
  predicate Printable(s: string) {
    forall i :: 0 <= i < |s| ==> s[i] as int < 128 && s[i] != '\n' && s[i] != '\r'
  }

  lemma {:induction false} SentAsIs(s: string)
    requires Printable(s)
    ensures Sent(s) == s
  {
    if s != "" {
      SentAsIs(s[1..]);
    }
  }

  // ----- cleaning, said of the text -----

  /** The segments of a path are those of its parts around any slash. */
  lemma {:induction false} SegmentsAround(a: string, b: string)
    ensures Segments(a + "/" + b) == Segments(a) + Segments(b)
  {
    var s := a + "/" + b;
    if a == "" {
      assert s[1..] == b;
    } else {
      assert s[1..] == a[1..] + "/" + b;
      SegmentsAround(a[1..], b);
    }
  }

  /** An empty segment, a dot, or a segment and the double dot after it can be left out. */
  lemma {:induction false} KeptWithout(before: seq<string>, out: seq<string>, after: seq<string>)
    requires CanGo(out)
    ensures Kept(before + out + after) == Kept(before + after)
  {
    if after != [] {
      var n := |after| - 1;
      KeptWithout(before, out, after[..n]);
      KeptLast(before + out, after);
      KeptLast(before, after);
    } else if |out| == 1 {
      KeptLast(before, out);
      assert before + out[..0] == before && before + after == before && before + out + after == before + out;
    } else {
      KeptLast(before, out[..1]);
      KeptLast(before, out);
      assert before + out[..1][..0] == before && out[..1] == [out[0]];
      assert before + after == before && before + out + after == before + out;
    }
  }

  function Stacked(k: seq<string>, seg: string): seq<string> {
    if seg == "" || seg == "." then k
    else if seg != ".." then Push(k, seg)
    else if k == [] then []
    else k[..|k| - 1]
  }

  lemma KeptUnfold(all: seq<string>)
    requires all != []
    ensures Kept(all) == Stacked(Kept(all[..|all| - 1]), all[|all| - 1])
  {
  }

  lemma KeptLast(before: seq<string>, after: seq<string>)
    requires after != []
    ensures Kept(before + after) == Stacked(Kept(before + after[..|after| - 1]), after[|after| - 1])
  {
    KeptUnfold(before + after);
    LastOfBoth(before, after);
  }

  lemma LastOfBoth<T>(before: seq<T>, after: seq<T>)
    requires after != []
    ensures var all := before + after; all != [] && all[..|all| - 1] == before + after[..|after| - 1] && all[|all| - 1] == after[|after| - 1]
  {
  }

  /** Cleaning depends on the kept segments, the slash at the end and the query. */
  lemma CleanedAlike(p: string, q: string, query: string)
    requires p != "" && p[0] == '/' && '?' !in p && q != "" && q[0] == '/' && '?' !in q
    requires query == "" || query[0] == '?'
    requires Kept(Segments(p)) == Kept(Segments(q)) && Trailing(p) == Trailing(q)
    ensures Cleaned(WithQuery(p, query)) == Cleaned(WithQuery(q, query))
  {
    PathPartOf(p, query);
    PathPartOf(q, query);
  }

  lemma PathAround(a: string, b: string)
    requires (a == "" || a[0] == '/') && '?' !in a && '?' !in b
    ensures var p := a + "/" + b; p != "" && p[0] == '/' && '?' !in p && (Trailing(p) <==> b == "" || Trailing(b))
  {
    var p := a + "/" + b;
    assert p[|p| - 1] == if b == "" then '/' else b[|b| - 1];
  }

  /** The two texts are clean-ups of each other. */
  ghost predicate CleanAlike(s: string, t: string) {
    s != "" && s[0] == '/' && t != "" && t[0] == '/' && Cleaned(s) == Cleaned(t)
  }

  /** Cleaning takes out a doubled slash, a dot, a segment followed by a double dot, and a double
      dot at the root. */
  lemma CleaningTakesOut(a: string, seg: string, b: string, query: string)
    requires (a == "" || a[0] == '/') && '?' !in a && '?' !in b && (query == "" || query[0] == '?')
    requires seg != "" && seg != "." && seg != ".." && '/' !in seg && '?' !in seg
    ensures var t := WithQuery(a + "/" + b, query);
      && CleanAlike(WithQuery(a + "//" + b, query), t)
      && CleanAlike(WithQuery(a + "/./" + b, query), t)
      && CleanAlike(WithQuery(a + "/" + seg + "/../" + b, query), t)
    ensures CleanAlike(WithQuery("/../" + b, query), WithQuery("/" + b, query))
  {
    EmptyTakenOut(a, b, query);
    DotTakenOut(a, b, query);
    SegmentTakenOut(a, seg, b, query);
    DoubleDotAtRoot(b, query);
  }

  predicate CanGo(out: seq<string>) {
    out == [""] || out == ["."] || (|out| == 2 && Proper(out[0]) && out[1] == "..")
  }

  lemma TakenOut(a: string, mid: string, b: string, query: string, p: string)
    requires (a == "" || a[0] == '/') && '?' !in a && '?' !in b && '?' !in mid && (query == "" || query[0] == '?')
    requires p == a + "/" + (mid + "/" + b) && CanGo(Segments(mid))
    ensures CleanAlike(WithQuery(p, query), WithQuery(a + "/" + b, query))
  {
    PathAround(a, b);
    PathWithin(a, mid, b, p);
    SegmentsAround(a, b);
    SegmentsWithin(a, mid, b, p);
    KeptWithout(Segments(a), Segments(mid), Segments(b));
    CleanedAlike(p, a + "/" + b, query);
  }

  lemma PathWithin(a: string, mid: string, b: string, p: string)
    requires (a == "" || a[0] == '/') && '?' !in a && '?' !in mid && '?' !in b && p == a + "/" + (mid + "/" + b)
    ensures p != "" && p[0] == '/' && '?' !in p && (Trailing(p) <==> b == "" || Trailing(b))
  {
    assert p[|p| - 1] == if b == "" then '/' else b[|b| - 1];
  }

  lemma SegmentsWithin(a: string, mid: string, b: string, p: string)
    requires p == a + "/" + (mid + "/" + b)
    ensures Segments(p) == Segments(a) + Segments(mid) + Segments(b)
  {
    SegmentsAround(a, mid + "/" + b);
    SegmentsAround(mid, b);
    Regrouped(Segments(a), Segments(mid), Segments(b));
  }

  lemma Regrouped<T>(x: seq<T>, y: seq<T>, z: seq<T>)
    ensures x + (y + z) == x + y + z
  {
  }

  lemma EmptyTakenOut(a: string, b: string, query: string)
    requires (a == "" || a[0] == '/') && '?' !in a && '?' !in b && (query == "" || query[0] == '?')
    ensures CleanAlike(WithQuery(a + "//" + b, query), WithQuery(a + "/" + b, query))
  {
    var mid := "";
    assert a + "//" + b == a + "/" + (mid + "/" + b);
    TakenOut(a, mid, b, query, a + "//" + b);
  }

  lemma DotTakenOut(a: string, b: string, query: string)
    requires (a == "" || a[0] == '/') && '?' !in a && '?' !in b && (query == "" || query[0] == '?')
    ensures CleanAlike(WithQuery(a + "/./" + b, query), WithQuery(a + "/" + b, query))
  {
    OneSegment(".");
    assert a + "/./" + b == a + "/" + ("." + "/" + b);
    TakenOut(a, ".", b, query, a + "/./" + b);
  }

  lemma SegmentTakenOut(a: string, seg: string, b: string, query: string)
    requires (a == "" || a[0] == '/') && '?' !in a && '?' !in b && (query == "" || query[0] == '?')
    requires Proper(seg) && '/' !in seg && '?' !in seg
    ensures CleanAlike(WithQuery(a + "/" + seg + "/../" + b, query), WithQuery(a + "/" + b, query))
  {
    OneSegment(seg);
    OneSegment("..");
    SegmentsAround(seg, "..");
    var mid := seg + "/" + "..";
    assert a + "/" + seg + "/../" + b == a + "/" + (mid + "/" + b);
    TakenOut(a, mid, b, query, a + "/" + seg + "/../" + b);
  }

  lemma {:induction false} RootDots(after: seq<string>)
    ensures Kept(["", ".."] + after) == Kept([""] + after)
  {
    if after == [] {
      assert [""][..0] == [] && ["", ".."][..1] == [""];
      assert ["", ".."] + after == ["", ".."] && [""] + after == [""];
    } else {
      RootDots(after[..|after| - 1]);
      KeptLast(["", ".."], after);
      KeptLast([""], after);
    }
  }

  lemma DoubleDotAtRoot(b: string, query: string)
    requires '?' !in b && (query == "" || query[0] == '?')
    ensures CleanAlike(WithQuery("/../" + b, query), WithQuery("/" + b, query))
  {
    var dots, none := "..", "";
    OneSegment(dots);
    assert "/../" + b == none + "/" + (dots + "/" + b) && "/" + b == none + "/" + b;
    DotsLeftOut(none, dots, b, query);
  }

  lemma DotsLeftOut(none: string, dots: string, b: string, query: string)
    requires '?' !in b && (query == "" || query[0] == '?') && '?' !in dots
    requires none == "" && Segments(dots) == [".."]
    ensures CleanAlike(WithQuery(none + "/" + (dots + "/" + b), query), WithQuery(none + "/" + b, query))
  {
    var p, q := none + "/" + (dots + "/" + b), none + "/" + b;
    PathAround(none, b);
    PathWithin(none, dots, b, p);
    SegmentsWithin(none, dots, b, p);
    SegmentsAround(none, b);
    RootDots(Segments(b));
    assert [""] + [".."] == ["", ".."];
    CleanedAlike(p, q, query);
  }

  /** A path in which nothing is to be cleaned up. */
  ghost predicate Plain(p: string) {
    && p != "" && p[0] == '/' && '?' !in p
    && !Contains(p, "//") && !Contains(p + "/", "/./") && !Contains(p + "/", "/../")
  }

  /** A segment after the first one stands between two slashes (one of them, for the last, added). */
  lemma {:induction false} SegmentOccurs(s: string, i: nat) returns (j: nat)
    requires 1 <= i < |Segments(s)|
    ensures var seg := Segments(s)[i];
      OccursAt(s + "/", "/" + (seg + "/"), j) && (i < |Segments(s)| - 1 ==> j + |seg| + 2 <= |s|)
  {
    assert s + "/" == [s[0]] + (s[1..] + "/");
    if s[0] == '/' && i == 1 {
      FirstBegins(s[1..]);
      j := 0;
      InFront(s[1..] + "/", Segments(s[1..])[0] + "/");
    } else {
      var i' := if s[0] == '/' then i - 1 else i;
      j := SegmentOccurs(s[1..], i');
      OneFurther(s[0], s[1..] + "/", "/" + (Segments(s[1..])[i'] + "/"), j);
      j := j + 1;
    }
  }

  lemma InFront(text: string, front: string)
    requires front <= text
    ensures OccursAt("/" + text, "/" + front, 0)
  {
    assert ("/" + text)[..|front| + 1] == "/" + text[..|front|];
  }

  lemma OneFurther(c: char, text: string, sub: string, j: nat)
    requires OccursAt(text, sub, j)
    ensures OccursAt([c] + text, sub, j + 1)
  {
    assert ([c] + text)[j + 1..j + 1 + |sub|] == text[j..j + |sub|];
  }

  lemma {:induction false} FirstBegins(s: string)
    ensures var seg := Segments(s)[0];
      |seg| <= |s| && (s + "/")[..|seg| + 1] == seg + "/" && (|Segments(s)| > 1 ==> |seg| + 1 <= |s|)
  {
    if s == "" || s[0] == '/' {
      assert (s + "/")[..1] == "/";
    } else {
      FirstBegins(s[1..]);
      assert s + "/" == [s[0]] + (s[1..] + "/");
      LongerPrefix(s[0], s[1..] + "/", Segments(s[1..])[0], Segments(s)[0]);
    }
  }

  lemma LongerPrefix(c: char, text: string, seg: string, longer: string)
    requires longer == [c] + seg && |seg| < |text| && text[..|seg| + 1] == seg + "/"
    ensures ([c] + text)[..|longer| + 1] == longer + "/"
  {
    assert ([c] + text)[..|longer| + 1] == [c] + text[..|seg| + 1];
  }

  lemma PlainSegments(p: string, i: nat)
    requires Plain(p) && 1 <= i < |Segments(p)|
    ensures var seg := Segments(p)[i]; seg != "." && seg != ".." && (i < |Segments(p)| - 1 ==> seg != "")
  {
    var seg := Segments(p)[i];
    var j := SegmentOccurs(p, i);
    assert "/" + ("." + "/") == "/./" && "/" + (".." + "/") == "/../" && "/" + ("" + "/") == "//";
    assert j + 2 <= |p| ==> (p + "/")[j..j + 2] == p[j..j + 2];
    assert seg == "" && i < |Segments(p)| - 1 ==> OccursAt(p, "//", j);
  }

  lemma {:induction false} JoinedSegments(s: string)
    ensures Joined(Segments(s)) == "/" + s
  {
    if s != "" {
      var rest := Segments(s[1..]);
      JoinedSegments(s[1..]);
      if s[0] == '/' {
        assert ([""] + rest)[1..] == rest;
        assert "/" + "" + Joined(rest) == "/" + s;
      } else {
        FirstLonger(s[0], rest, s[1..]);
        assert [s[0]] + s[1..] == s;
      }
    }
  }

  lemma JoinedFirst(seg: string, rest: seq<string>)
    ensures Joined([seg] + rest) == "/" + (seg + Joined(rest))
  {
    assert ([seg] + rest)[1..] == rest;
    assert "/" + seg + Joined(rest) == "/" + (seg + Joined(rest));
  }

  lemma SameAfterSlash(a: string, b: string)
    requires "/" + a == "/" + b
    ensures a == b
  {
    assert ("/" + a)[1..] == a && ("/" + b)[1..] == b;
  }

  lemma FirstLonger(c: char, segs: seq<string>, s: string)
    requires segs != [] && Joined(segs) == "/" + s
    ensures Joined([[c] + segs[0]] + segs[1..]) == "/" + ([c] + s)
  {
    var first, rest := segs[0], segs[1..];
    assert segs == [first] + rest;
    JoinedFirst(first, rest);
    JoinedFirst([c] + first, rest);
    SameAfterSlash(first + Joined(rest), s);
    assert [c] + first + Joined(rest) == [c] + (first + Joined(rest));
  }

  lemma {:induction false} JoinedLast(k: seq<string>, seg: string)
    ensures Joined(k + [seg]) == Joined(k) + ("/" + seg)
  {
    if k == [] {
      assert [seg][1..] == [];
    } else {
      assert (k + [seg])[1..] == k[1..] + [seg];
      JoinedLast(k[1..], seg);
    }
  }

  /** The segments of a plain path, between the empty ones before its first slash and after its
      last. */
  lemma PlainParts(p: string) returns (k: seq<string>)
    requires Plain(p)
    ensures forall i :: 0 <= i < |k| ==> Proper(k[i])
    ensures if Trailing(p) then Segments(p) == [""] + k + [""] else Segments(p) == [""] + k
    ensures p == Rooted(k, Trailing(p))
  {
    SegmentsAfterSlash(p);
    var segs, n := Segments(p), |Segments(p)|;
    forall i | 1 <= i < n ensures segs[i] != "." && segs[i] != ".." && (i < n - 1 ==> segs[i] != "") {
      PlainSegments(p, i);
    }
    JoinedSegments(p);
    JoinedLast(segs[..n - 1], segs[n - 1]);
    assert segs == segs[..n - 1] + [segs[n - 1]];
    SegmentsHaveNoSlash(p);
    var full := Joined(segs);
    assert full == Joined(segs[..n - 1]) + ("/" + segs[n - 1]);
    assert full[|full| - 1] == p[|p| - 1];
    k := if segs[n - 1] == "" then segs[1..n - 1] else segs[1..];
    if segs[n - 1] == "" {
      assert segs[..n - 1] == [""] + k && segs == [""] + k + [""];
      assert ([""] + k)[1..] == k;
    } else {
      assert segs == [""] + k && ([""] + k)[1..] == k;
    }
    PlainIsJoined(p, k);
  }

  lemma PlainIsJoined(p: string, k: seq<string>)
    requires p != "" && (Segments(p) == [""] + k + [""] || Segments(p) == [""] + k)
    ensures Segments(p) == [""] + k + [""] ==> p == Joined(k) + "/"
    ensures Segments(p) == [""] + k ==> p == Joined(k)
  {
    JoinedSegments(p);
    JoinedLast([""] + k, "");
    assert ([""] + k)[1..] == k;
    assert Joined([""] + k) == "/" + "" + Joined(k);
    assert ("/" + p)[1..] == p && ("/" + "" + Joined(k))[1..] == Joined(k);
    assert ("/" + "" + Joined(k) + ("/" + ""))[1..] == Joined(k) + "/";
  }

  /** A plain path, with whatever query, is clean. */
  lemma PlainIsClean(p: string, query: string)
    requires Plain(p) && (query == "" || query[0] == '?')
    ensures Cleaned(WithQuery(p, query)) == WithQuery(p, query)
  {
    var k := PlainParts(p);
    ProperAreKept(k);
    PathPartOf(p, query);
  }

  /** The value of a hexadecimal digit, by its ASCII code. */
  function HexValue(c: char): int {
    var n := c as int;
    if 48 <= n < 58 then n - 48 else if 97 <= n < 103 then n - 87 else 16
  }

  /** A byte above ASCII is sent as a percent sign and its two hexadecimal digits. */
  lemma HighBytesArePercentCoded(s: string, i: nat) returns (x: char, y: char)
    requires i < |s| && 128 <= s[i] as int < 256
    ensures Sent(s) == Sent(s[..i]) + (['%', x, y] + Sent(s[i + 1..])) && 16 * HexValue(x) + HexValue(y) == s[i] as int
  {
    SentThrough(s, i);
    x, y := HexDigit(s[i] as int / 16), HexDigit(s[i] as int % 16);
    assert s[i..][0] == s[i] && s[i..][1..] == s[i + 1..];
    assert SentChar(s[i]) == ['%', x, y];
  }

  lemma {:induction false} SentThrough(s: string, i: nat)
    requires i <= |s|
    ensures Sent(s) == Sent(s[..i]) + Sent(s[i..])
  {
    if i == 0 {
      assert s[..0] == "" && s[0..] == s;
      assert "" + Sent(s) == Sent(s);
    } else {
      SentThrough(s[1..], i - 1);
      assert s[..i][1..] == s[1..][..i - 1] && s[1..][i - 1..] == s[i..];
      Regrouped(SentChar(s[0]), Sent(s[1..][..i - 1]), Sent(s[i..]));
    }
  }

  /** A requested path that needs no cleaning and names no host outright is the redirect's target,
      with its query. */
  lemma PlainPathIsKept(parses: string -> bool, path: string, query: string)
    requires Plain(path) && !SlashLike(path[1..]) && (query == "" || query[0] == '?')
    requires Printable(WithQuery(path, query))
    ensures Location(parses, WithQuery(path, query)) == WithQuery(path, query)
  {
    PlainIsClean(path, query);
    SentAsIs(WithQuery(path, query));
  }

  /** A request for anything but a path, or for one that names a host outright, leads home. */
  lemma HostsLeadHome(parses: string -> bool, ret: string)
    requires ret == "" || ret[0] != '/' || (|ret| > 1 && (ret[1] == '/' || ret[1] == '\\'))
    ensures Location(parses, ret) == "/"
  {
    assert PathPart("/") == "/" && Segments("/") == ["", ""];
    ProperAreKept([]);
    assert [""] + [] + [""] == ["", ""];
    assert Sent("/") == "/" + Sent("");
  }
}
