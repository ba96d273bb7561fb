/** The template compiler: paths and matchers of a template become fast matchers. */
module Signature {
  import opened Prelude
  import opened Text
  import Tracker

  // ----- templates and requests -----

  datatype Action = Block | Challenge | LogOnly | RateLimit | Ban | Unknown(name: string)

  datatype Matcher = Matcher(
    part: string, words: seq<string>, regex: seq<string>, condition: string, negative: bool, caseInsensitive: bool)

  datatype Http = Http(
    method_: string, path: seq<string>, raw: seq<string>, matchersCondition: string, matchers: seq<Matcher>)

  datatype Template = Template(
    id: string, http: seq<Http>, session: Option<Tracker.SessionMatchers>, action: Option<Action>, respCode: int)

  datatype RequestView = RequestView(
    method_: string, path: string, pathNorm: string, fullURI: string, fullURINorm: string,
    headers: map<string, string>, headersText: string, body: string)

  /** The regular expressions of templates: which compile, and what they match. */
  datatype Regexp = Regexp(compiles: string -> bool, matches: (string, string) -> bool)

  // ----- compiled form -----

  /** One element of the regexp fragment that path compilation emits. */
  datatype Piece = Lit(c: char) | AnyRun

  datatype PathMatcher = PathMatcher(exact: string, prefix: string, re: Option<seq<Piece>>, matchQuery: bool)

  datatype CompiledMatcher = CompiledMatcher(
    part: string, words: seq<string>, res: seq<string>, condAnd: bool, negative: bool, caseFold: bool)

  datatype CompiledBlock = CompiledBlock(
    methods: set<string>, paths: seq<PathMatcher>, matchers: seq<CompiledMatcher>, matchersAnd: bool)

  datatype Signature = Signature(
    id: string, action: Action, respCode: int, session: Option<Tracker.SessionMatchers>, blocks: seq<CompiledBlock>)

  // ----- the regexp fragment -----

  predicate IsMeta(c: char) {
    || c == '\\' || c == '.' || c == '+' || c == '*' || c == '?' || c == '(' || c == ')'
    || c == '|' || c == '[' || c == ']' || c == '{' || c == '}' || c == '^' || c == '$'
  }

  function QuoteChar(c: char): string {
    if IsMeta(c) then ['\\', c] else [c]
  }

  function QuoteMeta(s: string): string {
    if s == "" then "" else QuoteChar(s[0]) + QuoteMeta(s[1..])
  }

  /** string(b) for a byte b: the UTF-8 form of the code point b. */
  function Utf8(c: char): string {
    var b := c as int;
    if b < 128 || b >= 256 then [c] else [(192 + b / 64) as char, (128 + b % 64) as char]
  }

  /** The characters that do not stand for themselves in a regexp. */
  const OPERATORS := "[](){}.*+?^$|\\"

  /** Parsing of the emitted fragment after its '^', up to its final '$'. */
  function ParseFragment(s: string): Option<seq<Piece>> {
    if s == "$" then Some([])
    else if s == "" then None
    else if s[0] == '\\' then
      if |s| < 2 then None else Prepend(Lit(s[1]), ParseFragment(s[2..]))
    else if s[0] == '.' then
      if |s| < 2 || s[1] != '*' then None else Prepend(AnyRun, ParseFragment(s[2..]))
    else if s[0] in OPERATORS then None
    else Prepend(Lit(s[0]), ParseFragment(s[1..]))
  }

  function Prepend(p: Piece, rest: Option<seq<Piece>>): Option<seq<Piece>> {
    if rest.None? then None else Some([p] + rest.value)
  }

  predicate NoNewline(s: string) {
    '\n' !in s
  }

  /** The anchored match: '.*' is any run without a newline. */
  predicate MatchPieces(ps: seq<Piece>, target: string)
    decreases |ps|
  {
    if ps == [] then target == ""
    else if ps[0].Lit? then target != "" && target[0] == ps[0].c && MatchPieces(ps[1..], target[1..])
    else exists k :: 0 <= k <= |target| && Skips(ps, target, k)
  }

  predicate Skips(ps: seq<Piece>, target: string, k: int)
    requires ps != [] && 0 <= k <= |target|
    decreases |ps|, 0
  {
    NoNewline(target[..k]) && MatchPieces(ps[1..], target[k..])
  }

  // ----- what a path template says -----

  /** A template path: holes `{{...}}`, literal text, and the text from an unclosed `{{` on. */
  datatype Token = Hole | Char(c: char) | Tail(c: char)

  function TailTokens(s: string): seq<Token> {
    seq(|s|, i requires 0 <= i < |s| => Tail(s[i]))
  }

  function Tokens(s: string): seq<Token> {
    if s == "" then []
    else if "{{" <= s then
      var end := Index(s, "}}");
      if end.None? then TailTokens(s) else [Hole] + Tokens(s[end.value + 2..])
    else [Char(s[0])] + Tokens(s[1..])
  }

  ghost function Holes(ts: seq<Token>): nat {
    if ts == [] then 0 else (if ts[0].Hole? then 1 else 0) + Holes(ts[1..])
  }

  /** The template with its holes filled in. */
  ghost function Render(ts: seq<Token>, fills: seq<string>): string
    requires |fills| == Holes(ts)
  {
    if ts == [] then ""
    else if ts[0].Hole? then fills[0] + Render(ts[1..], fills[1..])
    else [ts[0].c] + Render(ts[1..], fills)
  }

  ghost predicate Renders(ts: seq<Token>, fills: seq<string>, target: string) {
    && |fills| == Holes(ts) && (forall i :: 0 <= i < |fills| ==> NoNewline(fills[i]))
    && Render(ts, fills) == target
  }

  /** Each hole stands for any newline-free string, everything else for itself. */
  ghost predicate InLanguage(ts: seq<Token>, target: string) {
    exists fills :: Renders(ts, fills, target)
  }

  // ----- path compilation -----

  function StripBaseURL(p: string): string {
    if "{{BaseURL}}" <= p then p[11..]
    else if "{{RootURL}}" <= p then p[11..]
    else if "{{Hostname}}" <= p then p[12..]
    else
      var i := Index(p, "://");
      if i.None? then p
      else
        var rest := p[i.value + 3..];
        var slash := Index(rest, "/");
        if slash.Some? then rest[slash.value..] else "/"
  }

  predicate HasRegexMeta(s: string) {
    exists i :: 0 <= i < |s| && MetaAt(s, i)
  }

  predicate MetaAt(s: string, i: nat)
    requires i < |s|
  {
    s[i] in OPERATORS
  }

  predicate Static(rel: string) {
    !Contains(rel, "{{") && !HasRegexMeta(rel)
  }

  /** What the compiler emits for one token. */
  function EmitToken(t: Token): string {
    match t
    case Hole => ".*"
    case Char(c) => QuoteMeta(Utf8(c))
    case Tail(c) => QuoteChar(c)
  }

  function Emit(ts: seq<Token>): string {
    if ts == [] then "" else EmitToken(ts[0]) + Emit(ts[1..])
  }

  /** The tokens with every byte of the scanned text in the encoding the compiler gives it. */
  function Recoded(ts: seq<Token>): seq<Token> {
    if ts == [] then []
    else if ts[0].Char? then TailTokens(Utf8(ts[0].c)) + Recoded(ts[1..])
    else [ts[0]] + Recoded(ts[1..])
  }

  function PiecesOf(ts: seq<Token>): seq<Piece> {
    seq(|ts|, i requires 0 <= i < |ts| => if ts[i].Hole? then AnyRun else Lit(ts[i].c))
  }

  /** The text from an unclosed hole on, which is emitted byte by byte as it stands. */
  function UnclosedTail(s: string): string {
    if s == "" then ""
    else if "{{" <= s then
      var end := Index(s, "}}");
      if end.None? then s else UnclosedTail(s[end.value + 2..])
    else UnclosedTail(s[1..])
  }

  /** The emitted regexp is well-formed UTF-8. */
  predicate PathCompiles(p: string) {
    var rel := StripBaseURL(p);
    Static(rel) || ValidUtf8(UnclosedTail(rel))
  }

  /** The matcher of a path that compiles. */
  function PathOf(p: string): PathMatcher {
    var rel := StripBaseURL(p);
    var matchQuery := '?' in rel;
    if Static(rel) then PathMatcher(rel, "", None, matchQuery)
    else PathMatcher("", "", Some(PiecesOf(Recoded(Tokens(rel)))), matchQuery)
  }

  predicate Accepts(pm: PathMatcher, target: string) {
    if pm.exact != "" then target == pm.exact
    else if pm.prefix != "" then pm.prefix <= target
    else pm.re.Some? && MatchPieces(pm.re.value, target)
  }

  lemma {:induction false} EmitConcat(a: seq<Token>, b: seq<Token>)
    ensures Emit(a + b) == Emit(a) + Emit(b)
  {
    if a == [] {
      assert a + b == b;
    } else {
      assert (a + b)[1..] == a[1..] + b;
      EmitConcat(a[1..], b);
    }
  }

  lemma {:induction false} EmitTail(s: string)
    ensures Emit(TailTokens(s)) == QuoteMeta(s)
  {
    if s != "" {
      assert TailTokens(s)[1..] == TailTokens(s[1..]);
      EmitTail(s[1..]);
    }
  }

  lemma {:induction false} EmitRecoded(ts: seq<Token>)
    ensures Emit(Recoded(ts)) == Emit(ts)
  {
    if ts != [] {
      EmitRecoded(ts[1..]);
      if ts[0].Char? {
        EmitConcat(TailTokens(Utf8(ts[0].c)), Recoded(ts[1..]));
        EmitTail(Utf8(ts[0].c));
      } else {
        assert Recoded(ts)[1..] == Recoded(ts[1..]);
      }
    }
  }

  predicate NoChars(ts: seq<Token>) {
    forall i :: 0 <= i < |ts| ==> !ts[i].Char?
  }

  lemma {:induction false} RecodedHasNoChars(ts: seq<Token>)
    ensures NoChars(Recoded(ts))
  {
    if ts != [] {
      RecodedHasNoChars(ts[1..]);
    }
  }

  function PieceOf(t: Token): Piece {
    if t.Hole? then AnyRun else Lit(t.c)
  }

  lemma MetasAreOperators(c: char)
    ensures IsMeta(c) <==> c in OPERATORS
  {
    assert OPERATORS == ['[', ']', '(', ')', '{', '}', '.', '*', '+', '?', '^', '$', '|', '\\'];
  }

  lemma ParseQuoted(c: char, rest: string)
    ensures ParseFragment(QuoteChar(c) + rest) == Prepend(Lit(c), ParseFragment(rest))
  {
    var s := QuoteChar(c) + rest;
    MetasAreOperators(c);
    if IsMeta(c) {
      assert s[0] == '\\' && s[1] == c && s[2..] == rest;
    } else {
      assert s[0] == c && s[1..] == rest;
    }
  }

  lemma ParseHole(rest: string)
    ensures ParseFragment(".*" + rest) == Prepend(AnyRun, ParseFragment(rest))
  {
    var s := ".*" + rest;
    assert s[0] == '.' && s[1] == '*' && s[2..] == rest;
  }

  lemma ParseToken(t: Token, rest: string)
    requires !t.Char?
    ensures ParseFragment(EmitToken(t) + rest) == Prepend(PieceOf(t), ParseFragment(rest))
  {
    if t.Hole? {
      ParseHole(rest);
    } else {
      ParseQuoted(t.c, rest);
    }
  }

  /** Escaped literals and wildcards parse back to themselves. */
  lemma {:induction false} ParseEmitted(ts: seq<Token>)
    requires NoChars(ts)
    ensures ParseFragment(Emit(ts) + "$") == Some(PiecesOf(ts))
  {
    if ts == [] {
      assert Emit(ts) + "$" == "$";
      assert PiecesOf(ts) == [];
    } else {
      ParseEmitted(ts[1..]);
      ParseToken(ts[0], Emit(ts[1..]) + "$");
      assert Emit(ts) + "$" == EmitToken(ts[0]) + (Emit(ts[1..]) + "$");
      assert PiecesOf(ts) == [PieceOf(ts[0])] + PiecesOf(ts[1..]);
    }
  }

  /** What is still to be emitted when the scan stands at `i`. */
  ghost function Remaining(rel: string, i: nat): string
    requires i <= |rel|
  {
    Emit(Tokens(rel[i..]))
  }

  /** `b` is the beginning of `full` and `rest` is what follows it. */
  ghost predicate Split(full: string, b: string, rest: string) {
    b <= full && full[|b|..] == rest
  }

  lemma SplitHere(full: string, x: string, rest: string)
    requires full == x + rest
    ensures Split(full, x, rest)
  {
  }

  lemma RemainingTail(rel: string, i: nat)
    requires i < |rel| && "{{" <= rel[i..] && Index(rel[i..], "}}").None?
    ensures Split(Remaining(rel, i), QuoteMeta(rel[i..]), Remaining(rel, |rel|))
  {
    EmitTail(rel[i..]);
    assert Tokens(rel[i..]) == TailTokens(rel[i..]);
    assert rel[|rel|..] == "";
  }

  lemma RemainingHole(rel: string, i: nat)
    requires i < |rel| && "{{" <= rel[i..] && Index(rel[i..], "}}").Some?
    ensures var j := i + Index(rel[i..], "}}").value + 2;
      j <= |rel| && Split(Remaining(rel, i), ".*", Remaining(rel, j))
  {
    var end := Index(rel[i..], "}}").value;
    assert rel[i..][end + 2..] == rel[i + end + 2..];
    assert Tokens(rel[i..])[1..] == Tokens(rel[i + end + 2..]);
    SplitHere(Remaining(rel, i), ".*", Remaining(rel, i + end + 2));
  }

  lemma RemainingChar(rel: string, i: nat)
    requires i < |rel| && !("{{" <= rel[i..])
    ensures Split(Remaining(rel, i), QuoteMeta(Utf8(rel[i])), Remaining(rel, i + 1))
  {
    assert rel[i..][1..] == rel[i + 1..];
    assert Tokens(rel[i..])[1..] == Tokens(rel[i + 1..]);
    SplitHere(Remaining(rel, i), QuoteMeta(Utf8(rel[i])), Remaining(rel, i + 1));
  }

  /** The emitted text, without its '^', compiles to the pieces of the recoded tokens. */
  lemma EmittedCompiles(rel: string)
    ensures ParseFragment(Emit(Tokens(rel)) + "$") == Some(PiecesOf(Recoded(Tokens(rel))))
  {
    EmitRecoded(Tokens(rel));
    RecodedHasNoChars(Tokens(rel));
    ParseEmitted(Recoded(Tokens(rel)));
  }

  lemma {:induction false} QuoteKeepsPlain(s: string, k: nat)
    requires k <= |s| && forall i :: 0 <= i < k ==> !IsMeta(s[i])
    ensures QuoteMeta(s) == s[..k] + QuoteMeta(s[k..])
  {
    if k != 0 {
      QuoteKeepsPlain(s[1..], k - 1);
      assert s[1..][k - 1..] == s[k..] && s[..k] == [s[0]] + s[1..][..k - 1];
    } else {
      assert s[0..] == s;
    }
  }

  /** Continuation bytes that quoting shows were there before. */
  lemma {:induction false} QuotePrefix(s: string, k: nat)
    requires k <= |QuoteMeta(s)| && forall i :: 0 <= i < k ==> IsCont(QuoteMeta(s)[i])
    ensures k <= |s| && forall i :: 0 <= i < k ==> s[i] == QuoteMeta(s)[i]
  {
    if k != 0 {
      assert QuoteMeta(s)[0] == QuoteChar(s[0])[0];
      assert IsCont(QuoteMeta(s)[0]);
      assert QuoteMeta(s)[1..] == QuoteMeta(s[1..]);
      forall i | 0 <= i < k - 1 ensures QuoteMeta(s[1..])[i] == QuoteMeta(s)[i + 1] {
      }
      QuotePrefix(s[1..], k - 1);
      forall i | 1 <= i < k ensures s[i] == QuoteMeta(s)[i] {
        assert s[i] == s[1..][i - 1];
      }
    }
  }

  lemma QuotedRune(s: string)
    requires s != "" && !IsMeta(s[0]) && RuneLen(s) > 0
    ensures QuoteMeta(s) != "" && RuneLen(QuoteMeta(s)) == RuneLen(s)
    ensures QuoteMeta(s)[RuneLen(s)..] == QuoteMeta(s[RuneLen(s)..])
  {
    RuneTail(s);
    QuoteKeepsPlain(s, RuneLen(s));
    RuneAt(s, QuoteMeta(s));
  }

  lemma UnquotedBytes(s: string, m: nat)
    requires s != "" && !IsMeta(s[0]) && 1 <= m <= |QuoteMeta(s)|
    requires forall i :: 1 <= i < m ==> IsCont(QuoteMeta(s)[i])
    ensures m <= |s| && forall i :: 0 <= i < m ==> QuoteMeta(s)[i] == s[i]
  {
    var t, rest := QuoteMeta(s), s[1..];
    assert t == [s[0]] + QuoteMeta(rest);
    forall i | 0 <= i < m - 1 ensures IsCont(QuoteMeta(rest)[i]) {
      assert QuoteMeta(rest)[i] == t[i + 1];
    }
    QuotePrefix(rest, m - 1);
    forall i | 1 <= i < m ensures t[i] == s[i] {
      assert t[i] == QuoteMeta(rest)[i - 1] == rest[i - 1];
    }
  }

  lemma UnquotedRune(s: string)
    requires s != "" && !IsMeta(s[0]) && QuoteMeta(s) != "" && RuneLen(QuoteMeta(s)) > 0
    ensures RuneLen(s) > 0
  {
    RuneTail(QuoteMeta(s));
    UnquotedBytes(s, RuneLen(QuoteMeta(s)));
    RuneAt(QuoteMeta(s), s);
  }

  lemma {:induction false} QuoteValid(s: string)
    ensures ValidUtf8(QuoteMeta(s)) <==> ValidUtf8(s)
  {
    if s != "" {
      if IsMeta(s[0]) {
        AppendValid(QuoteChar(s[0]), QuoteMeta(s[1..]));
        QuoteValid(s[1..]);
      } else {
        if RuneLen(s) > 0 {
          QuotedRune(s);
          QuoteValid(s[RuneLen(s)..]);
        } else if RuneLen(QuoteMeta(s)) > 0 {
          UnquotedRune(s);
        }
      }
    }
  }

  lemma Utf8Valid(c: char)
    ensures ValidUtf8(QuoteMeta(Utf8(c)))
  {
    var u := Utf8(c);
    assert RuneLen(u) == |u|;
    assert u[|u|..] == "";
    QuoteValid(u);
  }

  /** All that is emitted is well-formed UTF-8 exactly when the unclosed tail is. */
  lemma {:induction false} EmittedValid(rel: string)
    ensures ValidUtf8(Emit(Tokens(rel))) <==> ValidUtf8(UnclosedTail(rel))
  {
    if rel != "" {
      if "{{" <= rel {
        var end := Index(rel, "}}");
        if end.None? {
          EmitTail(rel);
          QuoteValid(rel);
        } else {
          var rest := rel[end.value + 2..];
          assert Tokens(rel)[1..] == Tokens(rest);
          AppendValid(".*", Emit(Tokens(rest)));
          EmittedValid(rest);
        }
      } else {
        assert Tokens(rel)[1..] == Tokens(rel[1..]);
        Utf8Valid(rel[0]);
        AppendValid(QuoteMeta(Utf8(rel[0])), Emit(Tokens(rel[1..])));
        EmittedValid(rel[1..]);
      }
    }
  }

  lemma SplitFurther(full: string, b: string, rest: string, x: string, rest': string)
    requires Split(full, b, rest) && Split(rest, x, rest')
    ensures Split(full, b + x, rest')
  {
    assert full[|b|..][|x|..] == full[|b + x|..];
  }

  /** What the scan emits at `i`, and where it goes on. */
  method EmitAt(rel: string, i: nat) returns (x: string, j: nat)
    requires i < |rel|
    ensures i < j <= |rel| && Split(Remaining(rel, i), x, Remaining(rel, j))
  {
    if "{{" <= rel[i..] {
      var end := Index(rel[i..], "}}");
      if end.None? {
        RemainingTail(rel, i);
        return QuoteMeta(rel[i..]), |rel|;
      }
      RemainingHole(rel, i);
      return ".*", i + end.value + 2;
    }
    RemainingChar(rel, i);
    return QuoteMeta(Utf8(rel[i])), i + 1;
  }

  /** Builds the regexp text, after its '^', byte by byte. */
  method EmitRegexp(rel: string) returns (b: string)
    ensures b == Emit(Tokens(rel)) + "$"
  {
    b := "";
    var i := 0;
    ghost var full := Emit(Tokens(rel));
    assert rel[0..] == rel;
    while i < |rel|
      invariant i <= |rel| && Split(full, b, Remaining(rel, i))
    {
      var x, j := EmitAt(rel, i);
      SplitFurther(full, b, Remaining(rel, i), x, Remaining(rel, j));
      b, i := b + x, j;
    }
    assert b == full;
    b := b + "$";
  }

  /** regexp.Compile on the emitted text, which must be UTF-8. */
  method CompileRegexp(rel: string) returns (re: Option<seq<Piece>>)
    ensures re == if ValidUtf8(UnclosedTail(rel)) then Some(PiecesOf(Recoded(Tokens(rel)))) else None
  {
    var b := EmitRegexp(rel);
    EmittedCompiles(rel);
    EmittedValid(rel);
    AsciiEnd(Emit(Tokens(rel)), '$');
    if !ValidUtf8(b) {
      return None;
    }
    re := ParseFragment(b);
  }

  method CompilePath(p: string) returns (pm: Option<PathMatcher>)
    ensures pm == if PathCompiles(p) then Some(PathOf(p)) else None
  {
    var rel := StripBaseURL(p);
    var matchQuery := '?' in rel;
    if Static(rel) {
      return Some(PathMatcher(rel, "", None, matchQuery));
    }
    var re := CompileRegexp(rel);
    if re.None? {
      return None;
    }
    return Some(PathMatcher("", "", re, matchQuery));
  }

  // ----- matchers, raw requests and whole templates -----

  function DefaultPart(p: string): string {
    if p == "" then "request" else Lower(p)
  }

  /** The method and path of a raw request block: the first two words of its first line. */
  function RequestLine(raw: string): Option<(string, string)> {
    var line := Line(SkipBlank(raw));
    var first := SkipSpace(line);
    var method_ := Word(first);
    var second := SkipSpace(first[|method_|..]);
    var path := Word(second);
    if method_ == "" || path == "" then None else Some((method_, path))
  }

  /** TrimLeft of carriage returns, line feeds, blanks and tabs. */
  function SkipBlank(s: string): string {
    if s != "" && (s[0] == '\r' || s[0] == '\n' || s[0] == ' ' || s[0] == '\t') then SkipBlank(s[1..]) else s
  }

  /** The raw requests of a block that have a request line. */
  function RawRequests(raws: seq<string>): seq<(string, string)> {
    if raws == [] then []
    else
      var init, last := RawRequests(raws[..|raws| - 1]), RequestLine(raws[|raws| - 1]);
      if last.Some? then Push(init, last.value) else init
  }

  function MethodsOf(h: Http): set<string> {
    (if h.method_ != "" then {Upper(h.method_)} else {}) + set r | r in RawRequests(h.raw) :: Upper(r.0)
  }

  function PathIn(line: (string, string)): string {
    line.1
  }

  /** The paths of raw requests that compile; the others are passed over. */
  function RawPaths(lines: seq<(string, string)>): seq<string> {
    Filter(PathCompiles, Map(PathIn, lines))
  }

  /** The template paths of a block: the listed ones, then those of its raw requests. */
  function PooledPaths(h: Http): seq<string> {
    Chain(h.path, RawPaths(RawRequests(h.raw)))
  }

  function PathsOf(h: Http): seq<PathMatcher> {
    Map(PathOf, PooledPaths(h))
  }

  function MatcherOf(m: Matcher): CompiledMatcher {
    CompiledMatcher(
      DefaultPart(m.part),
      seq(|m.words|, i requires 0 <= i < |m.words| => if m.caseInsensitive then Lower(m.words[i]) else m.words[i]),
      m.regex, EqualFold(m.condition, "and"), m.negative, m.caseInsensitive)
  }

  function MatchersOf(ms: seq<Matcher>): seq<CompiledMatcher> {
    Map(MatcherOf, ms)
  }

  predicate MatcherCompiles(m: Matcher, rx: Regexp) {
    forall i :: 0 <= i < |m.regex| ==> rx.compiles(m.regex[i])
  }

  function BlockOf(h: Http): CompiledBlock {
    CompiledBlock(MethodsOf(h), PathsOf(h),
                  MatchersOf(h.matchers),
                  EqualFold(h.matchersCondition, "and"))
  }

  predicate AllPathsCompile(paths: seq<string>) {
    All(PathCompiles, paths)
  }

  function BlocksOf(hs: seq<Http>): seq<CompiledBlock> {
    Map(BlockOf, hs)
  }

  predicate BlockCompiles(h: Http, rx: Regexp) {
    AllPathsCompile(h.path) && All(m => MatcherCompiles(m, rx), h.matchers)
  }

  function EffectiveAction(t: Template): Action {
    if t.action.Some? then t.action.value
    else if t.session.Some? then LogOnly
    else Block
  }

  function SignatureOf(t: Template): Signature {
    Signature(t.id, EffectiveAction(t), if t.respCode != 0 then t.respCode else 403, t.session,
              BlocksOf(t.http))
  }

  predicate AllBlocksCompile(hs: seq<Http>, rx: Regexp) {
    All(h => BlockCompiles(h, rx), hs)
  }

  predicate TemplateCompiles(t: Template, rx: Regexp) {
    AllBlocksCompile(t.http, rx)
  }

  method CompileMatcher(m: Matcher, rx: Regexp) returns (cm: Option<CompiledMatcher>)
    ensures cm == if MatcherCompiles(m, rx) then Some(MatcherOf(m)) else None
  {
    var words: seq<string> := [];
    for i := 0 to |m.words|
      invariant |words| == i
      invariant forall j :: 0 <= j < i ==> words[j] == MatcherOf(m).words[j]
    {
      var w := m.words[i];
      if m.caseInsensitive {
        w := Lower(w);
      }
      words := Push(words, w);
    }
    for i := 0 to |m.regex|
      invariant forall j :: 0 <= j < i ==> rx.compiles(m.regex[j])
    {
      if !rx.compiles(m.regex[i]) {
        return None;
      }
    }
    assert words == MatcherOf(m).words;
    return Some(CompiledMatcher(
      DefaultPart(m.part), words, m.regex, EqualFold(m.condition, "and"), m.negative, m.caseInsensitive));
  }

  method ParseRaws(raws: seq<string>) returns (lines: seq<(string, string)>)
    ensures lines == RawRequests(raws)
  {
    lines := [];
    for i := 0 to |raws|
      invariant lines == RawRequests(raws[..i])
    {
      assert raws[..i + 1][..i] == raws[..i];
      var line := RequestLine(raws[i]);
      if line.Some? {
        lines := Push(lines, line.value);
      }
    }
    assert raws[..|raws|] == raws;
  }

  /** Pooling the templates pools their matchers. */
  lemma MapChain<A, B>(f: A -> B, a: seq<A>, b: seq<A>)
    ensures Chain(Map(f, a), Map(f, b)) == Map(f, Chain(a, b))
  {
  }

  method CompilePaths(templates: seq<string>) returns (paths: Option<seq<PathMatcher>>)
    ensures paths == if AllPathsCompile(templates) then Some(Map(PathOf, templates)) else None
  {
    var done: seq<PathMatcher> := [];
    for i := 0 to |templates|
      invariant done == Map(PathOf, templates[..i]) && All(PathCompiles, templates[..i])
    {
      var pm := CompilePath(templates[i]);
      if pm.None? {
        AllAt(PathCompiles, templates, i);
        return None;
      }
      PrefixPush(templates, i);
      MapPush(PathOf, templates[..i], templates[i]);
      AllPush(PathCompiles, templates[..i], templates[i]);
      done := Push(done, pm.value);
    }
    assert templates[..|templates|] == templates;
    return Some(done);
  }

  method CompileRawPaths(lines: seq<(string, string)>) returns (paths: seq<PathMatcher>)
    ensures paths == Map(PathOf, RawPaths(lines))
  {
    paths := [];
    ghost var all := Map(PathIn, lines);
    for i := 0 to |lines|
      invariant paths == Map(PathOf, Filter(PathCompiles, all[..i]))
    {
      assert all[..i + 1][..i] == all[..i] && all[i] == lines[i].1;
      var pm := CompilePath(lines[i].1);
      if pm.Some? {
        MapPush(PathOf, Filter(PathCompiles, all[..i]), lines[i].1);
        paths := Push(paths, pm.value);
      }
    }
    assert all[..|lines|] == all;
  }

  method CompileMethods(h: Http, lines: seq<(string, string)>) returns (methods: set<string>)
    requires lines == RawRequests(h.raw)
    ensures methods == MethodsOf(h)
  {
    methods := {};
    if h.method_ != "" {
      methods := {Upper(h.method_)};
    }
    ghost var given := methods;
    for i := 0 to |lines|
      invariant methods == given + set j | 0 <= j < i :: Upper(lines[j].0)
    {
      methods := methods + {Upper(lines[i].0)};
    }
  }

  /** The listed paths, which must compile, then those of the raw requests. */
  method CompilePooled(h: Http, lines: seq<(string, string)>) returns (paths: Option<seq<PathMatcher>>)
    requires lines == RawRequests(h.raw)
    ensures paths == if AllPathsCompile(h.path) then Some(PathsOf(h)) else None
  {
    var listed := CompilePaths(h.path);
    if listed.None? {
      return None;
    }
    var raws := CompileRawPaths(lines);
    MapChain(PathOf, h.path, RawPaths(lines));
    return Some(Chain(listed.value, raws));
  }

  method CompileMatchers(ms: seq<Matcher>, rx: Regexp) returns (cms: Option<seq<CompiledMatcher>>)
    ensures cms == if All(m => MatcherCompiles(m, rx), ms) then Some(MatchersOf(ms)) else None
  {
    var done: seq<CompiledMatcher> := [];
    ghost var compiles := m => MatcherCompiles(m, rx);
    for i := 0 to |ms|
      invariant done == Map(MatcherOf, ms[..i]) && All(compiles, ms[..i])
    {
      var cm := CompileMatcher(ms[i], rx);
      if cm.None? {
        AllAt(compiles, ms, i);
        return None;
      }
      PrefixPush(ms, i);
      MapPush(MatcherOf, ms[..i], ms[i]);
      AllPush(compiles, ms[..i], ms[i]);
      done := Push(done, cm.value);
    }
    assert ms[..|ms|] == ms;
    return Some(done);
  }

  method CompileBlock(h: Http, rx: Regexp) returns (cb: Option<CompiledBlock>)
    ensures cb == if BlockCompiles(h, rx) then Some(BlockOf(h)) else None
  {
    var lines := ParseRaws(h.raw);
    var methods := CompileMethods(h, lines);
    var paths := CompilePooled(h, lines);
    if paths.None? {
      return None;
    }
    var matchers := CompileMatchers(h.matchers, rx);
    if matchers.None? {
      return None;
    }
    return Some(CompiledBlock(methods, paths.value, matchers.value, EqualFold(h.matchersCondition, "and")));
  }

  method CompileBlocks(hs: seq<Http>, rx: Regexp) returns (blocks: Option<seq<CompiledBlock>>)
    ensures blocks == if AllBlocksCompile(hs, rx) then Some(BlocksOf(hs)) else None
  {
    var done: seq<CompiledBlock> := [];
    ghost var compiles := h => BlockCompiles(h, rx);
    for i := 0 to |hs|
      invariant done == Map(BlockOf, hs[..i]) && All(compiles, hs[..i])
    {
      var cb := CompileBlock(hs[i], rx);
      if cb.None? {
        AllAt(compiles, hs, i);
        return None;
      }
      PrefixPush(hs, i);
      MapPush(BlockOf, hs[..i], hs[i]);
      AllPush(compiles, hs[..i], hs[i]);
      done := Push(done, cb.value);
    }
    assert hs[..|hs|] == hs;
    return Some(done);
  }

  method Compile(t: Template, rx: Regexp) returns (sig: Option<Signature>)
    ensures sig == if TemplateCompiles(t, rx) then Some(SignatureOf(t)) else None
  {
    var blocks := CompileBlocks(t.http, rx);
    if blocks.None? {
      return None;
    }
    return Some(Signature(t.id, EffectiveAction(t), if t.respCode != 0 then t.respCode else 403, t.session, blocks.value));
  }
}
