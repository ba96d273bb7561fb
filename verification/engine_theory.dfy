/** Compiled templates mean what the templates say, and the scan finds the strongest action. */
module EngineTheory {
  import opened Prelude
  import opened Text
  import opened Signature
  import opened SignatureTheory
  import opened PathLanguage
  import opened RequestLines
  import opened TextTheory
  import opened Engine
  import Tracker
  import Lru

  // ----- what a template says of a request -----

  /** The targets a path is tried on: as sent, and normalized. */
  ghost predicate IsTarget(rel: string, view: RequestView, target: string) {
    if '?' in rel then target == view.fullURI || (target == view.fullURINorm && target != "")
    else target == view.path || (target == view.pathNorm && target != "")
  }

  /** The path, taken relative to the site, reads one of its targets. */
  ghost predicate PathReads(p: string, view: RequestView) {
    exists rel, target :: Relative(p, rel) && rel != "" && IsTarget(rel, view, target) && Reads(rel, target)
  }

  /** The methods a block names, itself or in its raw requests. */
  ghost predicate NamesMethod(h: Http, m: string) {
    || (h.method_ != "" && m == Upper(h.method_))
    || exists i, named, p :: 0 <= i < |h.raw| && Requests(h.raw[i], named, p) && m == Upper(named)
  }

  /** No hole of the path is left open before ill-formed text. */
  ghost predicate Compilable(p: string) {
    forall rel, u :: Relative(p, rel) && LeftOpen(rel, u) ==> ValidUtf8(u)
  }

  /** The paths a block names; raw requests whose path does not compile only name their method. */
  ghost predicate NamesPath(h: Http, p: string) {
    p in h.path || (Compilable(p) && exists i, m :: 0 <= i < |h.raw| && Requests(h.raw[i], m, p))
  }

  ghost predicate TargetReads(h: Http, view: RequestView) {
    && ((exists m :: NamesMethod(h, m)) ==> NamesMethod(h, Upper(view.method_)))
    && ((exists p :: NamesPath(h, p)) ==> exists p :: NamesPath(h, p) && PathReads(p, view))
  }

  /** The text a matcher looks at. A part that is none of the known ones is the name of a header,
      taken in lower case. */
  ghost function Haystack(part: string, view: RequestView): string {
    if SameText(part, "path") then view.fullURI
    else if SameText(part, "body") then view.body
    else if SameText(part, "header") then view.headersText
    else if part == "" || SameText(part, "all") || SameText(part, "request")
    then view.method_ + " " + view.fullURI + "\n" + view.headersText + "\n" + view.body
    else if Lower(part) in view.headers then view.headers[Lower(part)] else ""
  }

  ghost predicate FindsWord(m: Matcher, hay: string, w: string) {
    if m.caseInsensitive then exists i :: InAnyCaseAt(hay, w, i) else Contains(hay, w)
  }

  ghost predicate FindsRegex(m: Matcher, hay: string, r: string, rx: Regexp) {
    rx.matches(r, if m.caseInsensitive then Lower(hay) else hay)
  }

  /** All of the words (or regexes), or one of them; an empty list asks nothing. */
  ghost predicate Group<T>(items: seq<T>, all: bool, hit: T -> bool) {
    items == [] ||
    if all then forall i :: 0 <= i < |items| ==> hit(items[i]) else exists i :: 0 <= i < |items| && hit(items[i])
  }

  ghost predicate MatcherReads(m: Matcher, view: RequestView, rx: Regexp) {
    var all, hay := SameText(m.condition, "and"), Haystack(m.part, view);
    var found := Group(m.words, all, (w: string) => FindsWord(m, hay, w))
              && Group(m.regex, all, (r: string) => FindsRegex(m, hay, r, rx));
    if m.negative then !found else found
  }

  ghost predicate BlockReads(h: Http, view: RequestView, rx: Regexp) {
    && TargetReads(h, view)
    && Group(h.matchers, SameText(h.matchersCondition, "and"), (m: Matcher) => MatcherReads(m, view, rx))
  }

  /** Some block of the template reads on the request. */
  ghost predicate TemplateReads(t: Template, view: RequestView, rx: Regexp) {
    exists i :: 0 <= i < |t.http| && BlockReads(t.http[i], view, rx)
  }

  lemma PathHitReads(p: string, view: RequestView)
    ensures PathHit(PathOf(p), view) <==> PathReads(p, view)
  {
    var rel := StripBaseURL(p);
    RelativeIsStripped(p, rel);
    forall target ensures Accepts(PathOf(p), target) <==> rel != "" && Reads(rel, target) {
      PathMeaning(p, rel, target);
    }
    if PathHit(PathOf(p), view) {
      HitHasTarget(p, rel, view);
    }
    if rel', target :| Relative(p, rel') && rel' != "" && IsTarget(rel', view, target) && Reads(rel', target) {
      RelativeIsStripped(p, rel');
      TargetIsHit(p, rel, view, target);
    }
  }

  lemma HitHasTarget(p: string, rel: string, view: RequestView)
    requires rel == StripBaseURL(p) && PathHit(PathOf(p), view)
    ensures exists target :: IsTarget(rel, view, target) && Accepts(PathOf(p), target)
  {
    var raw, norm := if '?' in rel then view.fullURI else view.path, if '?' in rel then view.fullURINorm else view.pathNorm;
    assert IsTarget(rel, view, raw) && (norm != "" ==> IsTarget(rel, view, norm));
  }

  lemma TargetIsHit(p: string, rel: string, view: RequestView, target: string)
    requires rel == StripBaseURL(p) && IsTarget(rel, view, target) && Accepts(PathOf(p), target)
    ensures PathHit(PathOf(p), view)
  {
  }

  lemma MethodsMean(h: Http, m: string)
    ensures m in MethodsOf(h) <==> NamesMethod(h, m)
  {
    var raws := RawRequests(h.raw);
    if m in MethodsOf(h) && !(h.method_ != "" && m == Upper(h.method_)) {
      var r :| r in raws && m == Upper(r.0);
      RawRequestsAre(h.raw, r.0, r.1);
    }
    if i, named, p :| 0 <= i < |h.raw| && Requests(h.raw[i], named, p) && m == Upper(named) {
      RawRequestsAre(h.raw, named, p);
    }
  }

  lemma RawPathsAre(lines: seq<(string, string)>, p: string)
    ensures p in Map(PathIn, lines) <==> exists m :: (m, p) in lines
  {
    MapMember(PathIn, lines, p);
    if i :| 0 <= i < |lines| && p == PathIn(lines[i]) {
      assert (lines[i].0, p) in lines;
    }
    if m :| (m, p) in lines {
      var i :| 0 <= i < |lines| && lines[i] == (m, p);
      assert p == PathIn(lines[i]);
    }
  }

  lemma CompilableIff(p: string)
    ensures PathCompiles(p) <==> Compilable(p)
  {
    var own := StripBaseURL(p);
    RelativeIsStripped(p, own);
    PathCompilesIff(p, own);
    if PathCompiles(p) {
      forall rel, u | Relative(p, rel) && LeftOpen(rel, u) ensures ValidUtf8(u) {
        RelativeIsStripped(p, rel);
        assert LeftOpen(own, u);
      }
    }
  }

  lemma NamedInRaw(raws: seq<string>, p: string)
    ensures p in Map(PathIn, RawRequests(raws)) <==> exists i, m :: 0 <= i < |raws| && Requests(raws[i], m, p)
  {
    RawPathsAre(RawRequests(raws), p);
    if m :| (m, p) in RawRequests(raws) {
      RawRequestsAre(raws, m, p);
    }
    if i, m :| 0 <= i < |raws| && Requests(raws[i], m, p) {
      RawRequestsAre(raws, m, p);
    }
  }

  lemma PathsMean(h: Http, p: string)
    ensures p in PooledPaths(h) <==> NamesPath(h, p)
  {
    FilterMember(PathCompiles, Map(PathIn, RawRequests(h.raw)), p);
    NamedInRaw(h.raw, p);
    CompilableIff(p);
    InChain(h.path, RawPaths(RawRequests(h.raw)), p);
  }

  lemma InChain(a: seq<string>, b: seq<string>, p: string)
    ensures p in Chain(a, b) <==> p in a || p in b
  {
  }

  lemma PathsHitRead(h: Http, view: RequestView)
    ensures (exists i :: 0 <= i < |PathsOf(h)| && PathHit(PathsOf(h)[i], view))
       <==> exists p :: NamesPath(h, p) && PathReads(p, view)
  {
    var pooled, paths := PooledPaths(h), PathsOf(h);
    if i :| 0 <= i < |paths| && PathHit(paths[i], view) {
      assert paths[i] == PathOf(pooled[i]);
      PathHitReads(pooled[i], view);
      PathsMean(h, pooled[i]);
    }
    if p :| NamesPath(h, p) && PathReads(p, view) {
      PathsMean(h, p);
      var i :| 0 <= i < |pooled| && pooled[i] == p;
      PathHitReads(p, view);
      assert paths[i] == PathOf(p);
      assert PathHit(paths[i], view);
    }
  }

  lemma TargetHitReads(h: Http, view: RequestView)
    ensures TargetHit(BlockOf(h), view) <==> TargetReads(h, view)
  {
    MethodsMean(h, Upper(view.method_));
    if m :| m in MethodsOf(h) { MethodsMean(h, m); }
    if m :| NamesMethod(h, m) { MethodsMean(h, m); }
    PathsHitRead(h, view);
    if |PooledPaths(h)| > 0 { PathsMean(h, PooledPaths(h)[0]); }
    if p :| NamesPath(h, p) { PathsMean(h, p); }
  }

  lemma PartIsHaystack(part: string, view: RequestView)
    ensures PartValue(DefaultPart(part), view) == Haystack(part, view)
  {
    assert Lower("path") == "path" && Lower("body") == "body" && Lower("header") == "header";
    assert Lower("all") == "all" && Lower("request") == "request";
    FoldMeans(part, "path");
    FoldMeans(part, "body");
    FoldMeans(part, "header");
    FoldMeans(part, "all");
    FoldMeans(part, "request");
  }

  lemma MatcherHitReads(m: Matcher, view: RequestView, rx: Regexp)
    ensures MatcherHit(MatcherOf(m), view, rx) <==> MatcherReads(m, view, rx)
  {
    PartIsHaystack(m.part, view);
    FoldMeans(m.condition, "and");
    WordsHitRead(m, Haystack(m.part, view));
    RegexHitRead(m, Haystack(m.part, view), rx);
  }

  function Folded(m: Matcher, hay: string): string {
    if m.caseInsensitive then Lower(hay) else hay
  }

  lemma WordsHitRead(m: Matcher, hay: string)
    ensures WordsHit(MatcherOf(m), Folded(m, hay))
       <==> Group(m.words, EqualFold(m.condition, "and"), (w: string) => FindsWord(m, hay, w))
  {
    var words, hit := MatcherOf(m).words, (w: string) => FindsWord(m, hay, w);
    forall i | 0 <= i < |m.words| ensures Contains(Folded(m, hay), words[i]) <==> hit(m.words[i]) {
      FoldedSearch(hay, m.words[i]);
    }
  }

  lemma RegexHitRead(m: Matcher, hay: string, rx: Regexp)
    ensures RegexHit(MatcherOf(m), Folded(m, hay), rx)
       <==> Group(m.regex, EqualFold(m.condition, "and"), (r: string) => FindsRegex(m, hay, r, rx))
  {
  }

  /** Two groups of the same size and condition that agree item by item. */
  lemma SameGroup<A, B>(a: seq<A>, b: seq<B>, all: bool, f: A -> bool, g: B -> bool)
    requires |a| == |b| && forall i :: 0 <= i < |a| ==> f(a[i]) == g(b[i])
    ensures Group(a, all, f) <==> Group(b, all, g)
  {
  }

  lemma MatchersHitRead(h: Http, view: RequestView, rx: Regexp)
    ensures MatchersHit(BlockOf(h), view, rx)
       <==> Group(h.matchers, SameText(h.matchersCondition, "and"), (m: Matcher) => MatcherReads(m, view, rx))
  {
    var hit, means := (m: CompiledMatcher) => MatcherHit(m, view, rx), (m: Matcher) => MatcherReads(m, view, rx);
    var cms := MatchersOf(h.matchers);
    forall i | 0 <= i < |h.matchers| ensures hit(cms[i]) == means(h.matchers[i]) {
      MatcherHitReads(h.matchers[i], view, rx);
    }
    FoldMeans(h.matchersCondition, "and");
    SameGroup(cms, h.matchers, EqualFold(h.matchersCondition, "and"), hit, means);
  }

  lemma BlockHitReads(h: Http, view: RequestView, rx: Regexp)
    ensures BlockHit(BlockOf(h), view, rx) <==> BlockReads(h, view, rx)
  {
    TargetHitReads(h, view);
    MatchersHitRead(h, view, rx);
  }

  /** For every template and request, the compiled signature matches exactly when the template
      reads on the request. */
  lemma TemplateMeaning(t: Template, view: RequestView, rx: Regexp)
    ensures HttpHit(SignatureOf(t), view, rx) <==> TemplateReads(t, view, rx)
  {
    forall i | 0 <= i < |t.http|
      ensures BlockHit(SignatureOf(t).blocks[i], view, rx) <==> BlockReads(t.http[i], view, rx)
    {
      assert SignatureOf(t).blocks[i] == BlockOf(t.http[i]);
      BlockHitReads(t.http[i], view, rx);
    }
  }

  // ----- what one word in one part asks -----

  /** The template has one block, which asks for one word in one part of any request. */
  ghost predicate AsksOneWord(t: Template, part: string, w: string) {
    |t.http| == 1 &&
    var h := t.http[0];
    && h.method_ == "" && h.path == [] && h.raw == [] && |h.matchers| == 1
    && var m := h.matchers[0];
      m.part == part && m.words == [w] && m.regex == [] && !m.negative && !m.caseInsensitive
  }

  lemma OneWordReads(t: Template, part: string, w: string, view: RequestView, rx: Regexp)
    requires AsksOneWord(t, part, w)
    ensures HttpHit(SignatureOf(t), view, rx) <==> Contains(Haystack(part, view), w)
  {
    var h := t.http[0];
    var m := h.matchers[0];
    TemplateMeaning(t, view, rx);
    assert TargetReads(h, view);
    var read, found := (m: Matcher) => MatcherReads(m, view, rx), (w: string) => FindsWord(m, Haystack(part, view), w);
    OneOfOne(h.matchers, SameText(h.matchersCondition, "and"), read);
    OneOfOne(m.words, SameText(m.condition, "and"), found);
    assert BlockReads(h, view, rx) <==> read(m);
  }

  lemma OneOfOne<T>(items: seq<T>, all: bool, hit: T -> bool)
    requires |items| == 1
    ensures Group(items, all, hit) <==> hit(items[0])
  {
  }

  predicate ReservedPart(part: string) {
    part == "" || part in ["path", "body", "header", "all", "request"]
  }

  /** What a template asks that looks for one word in one part: of the body, the address, the
      headers, the whole request, or the header with the part's name. */
  lemma PartsMean(t: Template, part: string, w: string, view: RequestView, rx: Regexp)
    requires AsksOneWord(t, part, w)
    ensures var hit := HttpHit(SignatureOf(t), view, rx);
      && (part == "body" ==> (hit <==> Contains(view.body, w)))
      && (part == "path" ==> (hit <==> Contains(view.fullURI, w)))
      && (part == "header" ==> (hit <==> Contains(view.headersText, w)))
      && (part in ["", "all", "request"] ==>
            (hit <==> Contains(view.method_ + " " + view.fullURI + "\n" + view.headersText + "\n" + view.body, w)))
      && (NoCapitals(part) && !ReservedPart(part) && part in view.headers ==> (hit <==> Contains(view.headers[part], w)))
      && (NoCapitals(part) && !ReservedPart(part) && part !in view.headers ==> (hit <==> w == ""))
  {
    OneWordReads(t, part, w, view, rx);
    assert !SameLetter("body"[0], "path"[0]);
    if NoCapitals(part) && !ReservedPart(part) {
      NotReserved(part);
    }
    NothingFound(w);
  }

  predicate NoCapitals(s: string) {
    forall i :: 0 <= i < |s| ==> !Capital(s[i])
  }

  lemma NothingFound(w: string)
    ensures Contains("", w) <==> w == ""
  {
    if w == "" {
      assert OccursAt("", w, 0);
    }
  }

  lemma NotReserved(part: string)
    requires NoCapitals(part) && !ReservedPart(part)
    ensures Lower(part) == part && !SameText(part, "path") && !SameText(part, "body") && !SameText(part, "header")
    ensures !SameText(part, "all") && !SameText(part, "request")
  {
    assert forall i :: 0 <= i < |part| ==> LowerChar(part[i]) == part[i];
    FoldMeans(part, "path");
    FoldMeans(part, "body");
    FoldMeans(part, "header");
    FoldMeans(part, "all");
    FoldMeans(part, "request");
    assert Lower("path") == "path" && Lower("body") == "body" && Lower("header") == "header";
    assert Lower("all") == "all" && Lower("request") == "request";
  }

  predicate SameAsReserved(part: string) {
    || part == "" || SameText(part, "path") || SameText(part, "body") || SameText(part, "header")
    || SameText(part, "all") || SameText(part, "request")
  }

  function OneWordTemplate(part: string, w: string): Template {
    Template("", [Http("", [], [], "", [Matcher(part, [w], [], "", false, false)])], None, None, 0)
  }

  lemma LowerIsName(part: string, name: string)
    requires SameText(part, name)
    ensures Lower(part) == name <==> NoCapitals(name)
  {
    FoldMeans(part, name);
    LowerMeans(part);
    if NoCapitals(name) {
      assert forall i :: 0 <= i < |name| ==> LowerChar(name[i]) == name[i];
      assert Lower(name) == name;
    }
  }

  /** A part that names a header, in any case, finds what is in that header exactly when the
      header arrives under a name without capitals (or is empty). */
  lemma NamedHeaderReadIff(part: string, name: string, value: string, view: RequestView, rx: Regexp)
    requires SameText(part, name) && !SameAsReserved(part) && view.headers == map[name := value]
    ensures (forall t, w :: AsksOneWord(t, part, w) ==> (HttpHit(SignatureOf(t), view, rx) <==> Contains(value, w)))
       <==> NoCapitals(name) || value == ""
  {
    LowerIsName(part, name);
    forall t, w | AsksOneWord(t, part, w) ensures HttpHit(SignatureOf(t), view, rx) <==> Contains(Haystack(part, view), w) {
      OneWordReads(t, part, w, view, rx);
    }
    if !NoCapitals(name) && value != "" {
      var t := OneWordTemplate(part, value);
      assert AsksOneWord(t, part, value);
      assert value[0..|value|] == value && OccursAt(value, value, 0);
      NothingFound(value);
    }
  }

  // ----- strongest action wins -----

  /** The signature applies to the request in the session's state at the start of the scan. */
  ghost predicate Applies(sig: Signature, recs: Tracker.Recs, ttl: Time, q: Query, rx: Regexp)
    requires recs.Valid() && (sig.session.Some? ==> Tracker.Starless(sig.session.value))
  {
    && HttpHit(sig, q.view, rx)
    && (sig.session.Some? ==> Tracker.Fires(sig.session.value, Tracker.Fetch(recs, ttl, q.key, q.now).1, q.view.path, q.now))
  }

  /** Fetching again at the same reading changes nothing more. */
  lemma FetchTwice(recs: Tracker.Recs, ttl: Time, key: string, now: Time)
    requires recs.Valid()
    ensures var f := Tracker.Fetch(recs, ttl, key, now);
      Tracker.Fetch(f.0, ttl, key, now) == f
  {
    Lru.TouchValid(recs, key);
    if key in recs.items && now - recs.items[key].lastSeen <= ttl {
      Lru.Membership(recs);
      Lru.TouchTwice(recs.order, key);
    }
  }

  /** What the scan can have done to the tracker. */
  ghost predicate MayFetch(recs: Tracker.Recs, recs': Tracker.Recs, ttl: Time, q: Query)
    requires recs.Valid()
  {
    recs' == recs || recs' == Tracker.Fetch(recs, ttl, q.key, q.now).0
  }

  lemma TryApplies(sig: Signature, recs: Tracker.Recs, recs': Tracker.Recs, ttl: Time, q: Query, rx: Regexp)
    requires recs.Valid() && recs'.Valid() && MayFetch(recs, recs', ttl, q)
    requires sig.session.Some? ==> Tracker.Starless(sig.session.value)
    ensures Try(sig, recs', ttl, q, rx).1 <==> Applies(sig, recs, ttl, q, rx)
    ensures MayFetch(recs, Try(sig, recs', ttl, q, rx).0, ttl, q)
  {
    FetchTwice(recs, ttl, q.key, q.now);
  }

  /** Which signatures apply, as a predicate on signatures. */
  ghost function Applicable(recs: Tracker.Recs, ttl: Time, q: Query, rx: Regexp): Signature -> bool
    requires recs.Valid()
  {
    (s: Signature) => (s.session.Some? ==> Tracker.Starless(s.session.value)) && Applies(s, recs, ttl, q, rx)
  }

  /** `best` is the first applicable signature of the highest rank among the first `n`. */
  ghost predicate FirstStrongest(best: Option<Signature>, sigs: seq<Signature>, n: nat, applies: Signature -> bool)
    requires n <= |sigs|
  {
    match best
    case None => forall i :: 0 <= i < n ==> !applies(sigs[i])
    case Some(b) => exists w :: 0 <= w < n && sigs[w] == b && FirstStrongestAt(w, sigs, n, applies)
  }

  ghost predicate FirstStrongestAt(w: nat, sigs: seq<Signature>, n: nat, applies: Signature -> bool)
    requires w < n <= |sigs|
  {
    && applies(sigs[w])
    && (forall i :: 0 <= i < n && applies(sigs[i]) ==> ActionRank(sigs[i].action) <= ActionRank(sigs[w].action))
    && (forall i :: 0 <= i < w && applies(sigs[i]) ==> ActionRank(sigs[i].action) < ActionRank(sigs[w].action))
  }

  ghost function NextBest(best: Option<Signature>, sig: Signature, applies: Signature -> bool): Option<Signature> {
    if !Settled(best) && applies(sig) then Stronger(best, sig) else best
  }

  lemma ScanUnfold(sigs: seq<Signature>, n: nat, recs: Tracker.Recs, ttl: Time, q: Query, rx: Regexp)
    requires 0 < n <= |sigs| && Usable(sigs) && recs.Valid()
    requires MayFetch(recs, Scan(sigs, n - 1, recs, ttl, q, rx).0, ttl, q)
    ensures MayFetch(recs, Scan(sigs, n, recs, ttl, q, rx).0, ttl, q)
    ensures var best, sig := Scan(sigs, n - 1, recs, ttl, q, rx).1, sigs[n - 1];
      Scan(sigs, n, recs, ttl, q, rx).1 == NextBest(best, sig, Applicable(recs, ttl, q, rx))
  {
    TryApplies(sigs[n - 1], recs, Scan(sigs, n - 1, recs, ttl, q, rx).0, ttl, q, rx);
  }

  /** One more signature, whether or not the scan had already settled. */
  lemma OneMore(best: Option<Signature>, sigs: seq<Signature>, n: nat, applies: Signature -> bool)
    requires n < |sigs| && FirstStrongest(best, sigs, n, applies)
    ensures FirstStrongest(NextBest(best, sigs[n], applies), sigs, n + 1, applies)
  {
    if best.Some? {
      var w :| 0 <= w < n && sigs[w] == best.value && FirstStrongestAt(w, sigs, n, applies);
      if applies(sigs[n]) && ActionRank(sigs[n].action) > ActionRank(best.value.action) {
        assert FirstStrongestAt(n, sigs, n + 1, applies);
      } else {
        assert FirstStrongestAt(w, sigs, n + 1, applies);
      }
    } else if applies(sigs[n]) {
      assert FirstStrongestAt(n, sigs, n + 1, applies);
    }
  }

  lemma {:induction false} ScanMayFetch(sigs: seq<Signature>, n: nat, recs: Tracker.Recs, ttl: Time, q: Query, rx: Regexp)
    requires n <= |sigs| && Usable(sigs) && recs.Valid()
    ensures MayFetch(recs, Scan(sigs, n, recs, ttl, q, rx).0, ttl, q)
  {
    if n != 0 {
      ScanMayFetch(sigs, n - 1, recs, ttl, q, rx);
      ScanUnfold(sigs, n, recs, ttl, q, rx);
    }
  }

  /** `bests` goes through the signatures one by one. */
  ghost predicate Folds(bests: seq<Option<Signature>>, sigs: seq<Signature>, applies: Signature -> bool) {
    && |bests| == |sigs| + 1 && bests[0] == None
    && forall i :: 0 <= i < |sigs| ==> FoldsAt(bests, sigs, applies, i)
  }

  ghost predicate FoldsAt(bests: seq<Option<Signature>>, sigs: seq<Signature>, applies: Signature -> bool, i: nat)
    requires |bests| == |sigs| + 1 && i < |sigs|
  {
    bests[i + 1] == NextBest(bests[i], sigs[i], applies)
  }

  lemma {:induction false} FoldFinds(bests: seq<Option<Signature>>, sigs: seq<Signature>, n: nat, applies: Signature -> bool)
    requires n <= |sigs| && Folds(bests, sigs, applies)
    ensures FirstStrongest(bests[n], sigs, n, applies)
  {
    if n != 0 {
      FoldFinds(bests, sigs, n - 1, applies);
      assert FoldsAt(bests, sigs, applies, n - 1);
      OneMore(bests[n - 1], sigs, n - 1, applies);
    }
  }

  ghost function Bests(sigs: seq<Signature>, n: nat, recs: Tracker.Recs, ttl: Time, q: Query, rx: Regexp): (bests: seq<Option<Signature>>)
    requires n <= |sigs| && Usable(sigs) && recs.Valid()
    ensures |bests| == n + 1 && forall i :: 0 <= i <= n ==> bests[i] == Scan(sigs, i, recs, ttl, q, rx).1
  {
    seq(n + 1, i requires 0 <= i <= n => Scan(sigs, i, recs, ttl, q, rx).1)
  }

  lemma BestsFoldAt(sigs: seq<Signature>, i: nat, recs: Tracker.Recs, ttl: Time, q: Query, rx: Regexp)
    requires i < |sigs| && Usable(sigs) && recs.Valid()
    ensures FoldsAt(Bests(sigs, |sigs|, recs, ttl, q, rx), sigs, Applicable(recs, ttl, q, rx), i)
  {
    ScanMayFetch(sigs, i, recs, ttl, q, rx);
    ScanUnfold(sigs, i + 1, recs, ttl, q, rx);
  }

  lemma BestsFold(sigs: seq<Signature>, recs: Tracker.Recs, ttl: Time, q: Query, rx: Regexp)
    requires Usable(sigs) && recs.Valid()
    ensures Folds(Bests(sigs, |sigs|, recs, ttl, q, rx), sigs, Applicable(recs, ttl, q, rx))
  {
    forall i | 0 <= i < |sigs| ensures FoldsAt(Bests(sigs, |sigs|, recs, ttl, q, rx), sigs, Applicable(recs, ttl, q, rx), i) {
      BestsFoldAt(sigs, i, recs, ttl, q, rx);
    }
  }

  /** The scan with its early stop returns the first applicable signature of maximal rank, as
      a full scan would, and at most fetches the session's record. */
  lemma StrongestWins(sigs: seq<Signature>, recs: Tracker.Recs, ttl: Time, q: Query, rx: Regexp)
    requires Usable(sigs) && recs.Valid()
    ensures FirstStrongest(Scan(sigs, |sigs|, recs, ttl, q, rx).1, sigs, |sigs|, Applicable(recs, ttl, q, rx))
    ensures MayFetch(recs, Scan(sigs, |sigs|, recs, ttl, q, rx).0, ttl, q)
  {
    BestsFold(sigs, recs, ttl, q, rx);
    FoldFinds(Bests(sigs, |sigs|, recs, ttl, q, rx), sigs, |sigs|, Applicable(recs, ttl, q, rx));
    ScanMayFetch(sigs, |sigs|, recs, ttl, q, rx);
  }

  ghost predicate Included(a: seq<Signature>, b: seq<Signature>) {
    forall s :: s in a ==> s in b
  }

  ghost function Rank(best: Option<Signature>): int {
    if best.None? then 0 else ActionRank(best.value.action)
  }

  lemma BestIsApplicable(best: Option<Signature>, sigs: seq<Signature>, applies: Signature -> bool)
    requires FirstStrongest(best, sigs, |sigs|, applies) && best.Some?
    ensures best.value in sigs && applies(best.value)
  {
  }

  lemma BestDominates(s: Signature, best: Option<Signature>, sigs: seq<Signature>, applies: Signature -> bool)
    requires FirstStrongest(best, sigs, |sigs|, applies) && s in sigs && applies(s)
    ensures best.Some? && ActionRank(s.action) <= Rank(best)
  {
    var v :| 0 <= v < |sigs| && sigs[v] == s;
  }

  lemma StrongerWithMore(
    bestA: Option<Signature>, a: seq<Signature>, bestB: Option<Signature>, b: seq<Signature>, applies: Signature -> bool)
    requires Included(a, b) && FirstStrongest(bestA, a, |a|, applies) && FirstStrongest(bestB, b, |b|, applies)
    ensures Rank(bestA) <= Rank(bestB)
  {
    if bestA.Some? {
      BestIsApplicable(bestA, a, applies);
      BestDominates(bestA.value, bestB, b, applies);
    }
  }

  /** More signatures never weaken the decision. */
  lemma MoreNeverWeaker(a: seq<Signature>, b: seq<Signature>, recs: Tracker.Recs, ttl: Time, q: Query, rx: Regexp)
    requires Usable(a) && Usable(b) && recs.Valid() && Included(a, b)
    ensures Rank(Scan(a, |a|, recs, ttl, q, rx).1) <= Rank(Scan(b, |b|, recs, ttl, q, rx).1)
  {
    StrongestWins(a, recs, ttl, q, rx);
    StrongestWins(b, recs, ttl, q, rx);
    StrongerWithMore(Scan(a, |a|, recs, ttl, q, rx).1, a, Scan(b, |b|, recs, ttl, q, rx).1, b, Applicable(recs, ttl, q, rx));
  }

  ghost predicate SomeApplies(sigs: seq<Signature>, applies: Signature -> bool, action: Action) {
    exists s :: s in sigs && applies(s) && s.action == action
  }

  lemma ApplicableIsReached(best: Option<Signature>, sigs: seq<Signature>, applies: Signature -> bool, action: Action)
    requires FirstStrongest(best, sigs, |sigs|, applies) && SomeApplies(sigs, applies, action)
    ensures best.Some? && ActionRank(action) <= ActionRank(best.value.action)
  {
    var s :| s in sigs && applies(s) && s.action == action;
    BestDominates(s, best, sigs, applies);
  }

  lemma BestApplies(best: Option<Signature>, sigs: seq<Signature>, applies: Signature -> bool)
    requires FirstStrongest(best, sigs, |sigs|, applies)
    ensures best.Some? <==> exists s :: s in sigs && applies(s)
    ensures best.Some? ==> SomeApplies(sigs, applies, best.value.action)
  {
    if best.Some? {
      BestIsApplicable(best, sigs, applies);
    }
    if s :| s in sigs && applies(s) {
      BestDominates(s, best, sigs, applies);
    }
  }

  /** No action above this one applies. */
  ghost predicate Tops(sigs: seq<Signature>, applies: Signature -> bool, action: Action) {
    && SomeApplies(sigs, applies, action)
    && (action != Ban ==> !SomeApplies(sigs, applies, Ban))
    && (action != Ban && action != Block ==> !SomeApplies(sigs, applies, Block))
    && (action == RateLimit ==> !SomeApplies(sigs, applies, Challenge))
  }

  lemma TopIsBest(best: Option<Signature>, sigs: seq<Signature>, applies: Signature -> bool, action: Action)
    requires FirstStrongest(best, sigs, |sigs|, applies) && Tops(sigs, applies, action)
    requires action == Ban || action == Block || action == Challenge || action == RateLimit
    ensures best.Some? && best.value.action == action
  {
    ApplicableIsReached(best, sigs, applies, action);
    BestApplies(best, sigs, applies);
  }

  /** A ban is decided if one applies; else a block, else a challenge, else a rate limit; and a
      decision is made exactly when something applies. */
  lemma DecisionByAction(sigs: seq<Signature>, recs: Tracker.Recs, ttl: Time, q: Query, rx: Regexp)
    requires Usable(sigs) && recs.Valid()
    ensures var best, applies := Scan(sigs, |sigs|, recs, ttl, q, rx).1, Applicable(recs, ttl, q, rx);
      && (best.Some? <==> exists s :: s in sigs && applies(s))
      && forall action :: action in {Ban, Block, Challenge, RateLimit} && Tops(sigs, applies, action) ==>
           best.Some? && best.value.action == action
  {
    StrongestWins(sigs, recs, ttl, q, rx);
    var best, applies := Scan(sigs, |sigs|, recs, ttl, q, rx).1, Applicable(recs, ttl, q, rx);
    BestApplies(best, sigs, applies);
    forall action | action in {Ban, Block, Challenge, RateLimit} && Tops(sigs, applies, action)
      ensures best.Some? && best.value.action == action
    {
      TopIsBest(best, sigs, applies, action);
    }
  }

  predicate Named(sigs: seq<Signature>) {
    forall s :: s in sigs ==> !s.action.Unknown?
  }

  /** Over the five named actions the enforced action does not depend on the order (or the
      multiplicity) of the signatures. */
  lemma OrderIrrelevant(a: seq<Signature>, b: seq<Signature>, recs: Tracker.Recs, ttl: Time, q: Query, rx: Regexp)
    requires Usable(a) && Usable(b) && recs.Valid() && Named(a) && Named(b)
    requires Included(a, b) && Included(b, a)
    ensures var bestA, bestB := Scan(a, |a|, recs, ttl, q, rx).1, Scan(b, |b|, recs, ttl, q, rx).1;
      bestA.Some? == bestB.Some? && (bestA.Some? ==> bestA.value.action == bestB.value.action)
  {
    StrongestWins(a, recs, ttl, q, rx);
    StrongestWins(b, recs, ttl, q, rx);
    SameActionEitherWay(Scan(a, |a|, recs, ttl, q, rx).1, a, Scan(b, |b|, recs, ttl, q, rx).1, b, Applicable(recs, ttl, q, rx));
  }

  lemma SameActionEitherWay(
    bestA: Option<Signature>, a: seq<Signature>, bestB: Option<Signature>, b: seq<Signature>, applies: Signature -> bool)
    requires Included(a, b) && Included(b, a) && Named(a) && Named(b)
    requires FirstStrongest(bestA, a, |a|, applies) && FirstStrongest(bestB, b, |b|, applies)
    ensures bestA.Some? == bestB.Some? && (bestA.Some? ==> bestA.value.action == bestB.value.action)
  {
    StrongerWithMore(bestA, a, bestB, b, applies);
    StrongerWithMore(bestB, b, bestA, a, applies);
    if bestA.Some? { BestIsApplicable(bestA, a, applies); }
    if bestB.Some? { BestIsApplicable(bestB, b, applies); }
  }

  // ----- actions the engine does not know -----

  /** What the proxy does for an action: anything it has no case for is a block. */
  function Enforced(a: Action): Action {
    if a.Unknown? then Block else a
  }

  /** The decision is at least as strong, as enforced, as every applicable signature. */
  ghost predicate Dominates(best: Option<Signature>, sigs: seq<Signature>, applies: Signature -> bool) {
    forall s :: s in sigs && applies(s) ==>
      best.Some? && ActionRank(Enforced(s.action)) <= ActionRank(Enforced(best.value.action))
  }

  ghost predicate NoUnknown(sigs: seq<Signature>, applies: Signature -> bool) {
    forall s :: s in sigs && applies(s) ==> !s.action.Unknown?
  }

  ghost predicate SomeBlocks(sigs: seq<Signature>, applies: Signature -> bool) {
    exists s :: s in sigs && applies(s) && (s.action == Ban || s.action == Block)
  }

  /** Nothing that applies ranks above log-only, and the first that applies is unknown. */
  ghost predicate UnknownLeads(sigs: seq<Signature>, applies: Signature -> bool) {
    && (forall s :: s in sigs && applies(s) ==> ActionRank(s.action) == 1)
    && exists w :: 0 <= w < |sigs| && Leads(sigs, applies, w) && sigs[w].action.Unknown?
  }

  ghost predicate Leads(sigs: seq<Signature>, applies: Signature -> bool, w: nat)
    requires w < |sigs|
  {
    applies(sigs[w]) && forall i :: 0 <= i < w ==> !applies(sigs[i])
  }

  /** Among signatures of rank one the first applicable one wins. */
  lemma LowestRankFirstWins(best: Signature, sigs: seq<Signature>, applies: Signature -> bool, w: nat)
    requires FirstStrongest(Some(best), sigs, |sigs|, applies) && w < |sigs| && Leads(sigs, applies, w)
    requires forall s :: s in sigs && applies(s) ==> ActionRank(s.action) == 1
    ensures best == sigs[w]
  {
    var v :| 0 <= v < |sigs| && sigs[v] == best && FirstStrongestAt(v, sigs, |sigs|, applies);
    assert sigs[w] in sigs && sigs[v] in sigs;
  }

  lemma LowestRankBestLeads(best: Signature, sigs: seq<Signature>, applies: Signature -> bool)
    requires FirstStrongest(Some(best), sigs, |sigs|, applies) && ActionRank(best.action) == 1
    ensures forall s :: s in sigs && applies(s) ==> ActionRank(s.action) == 1
    ensures exists w :: 0 <= w < |sigs| && Leads(sigs, applies, w) && sigs[w] == best
  {
    var v :| 0 <= v < |sigs| && sigs[v] == best && FirstStrongestAt(v, sigs, |sigs|, applies);
    assert Leads(sigs, applies, v);
  }

  lemma DominatesIff(best: Option<Signature>, sigs: seq<Signature>, applies: Signature -> bool)
    requires FirstStrongest(best, sigs, |sigs|, applies)
    ensures Dominates(best, sigs, applies) <==>
            NoUnknown(sigs, applies) || SomeBlocks(sigs, applies) || UnknownLeads(sigs, applies)
  {
    if best.Some? {
      BestIsApplicable(best, sigs, applies);
      forall s | s in sigs && applies(s) ensures ActionRank(s.action) <= ActionRank(best.value.action) {
        BestDominates(s, best, sigs, applies);
      }
      if best.value.action.Unknown? {
        LowestRankBestLeads(best.value, sigs, applies);
      } else if UnknownLeads(sigs, applies) {
        var w :| 0 <= w < |sigs| && Leads(sigs, applies, w) && sigs[w].action.Unknown?;
        LowestRankFirstWins(best.value, sigs, applies, w);
      }
    }
  }

  /** The enforced action is at least as strong as every applicable one exactly when no unknown
      action applies, or a ban or a block does, or an unknown action comes first among
      applicable ones that are all unknown or log-only. */
  lemma StrongestEnforcedIff(sigs: seq<Signature>, recs: Tracker.Recs, ttl: Time, q: Query, rx: Regexp)
    requires Usable(sigs) && recs.Valid()
    ensures var applies := Applicable(recs, ttl, q, rx);
      Dominates(Scan(sigs, |sigs|, recs, ttl, q, rx).1, sigs, applies) <==>
      NoUnknown(sigs, applies) || SomeBlocks(sigs, applies) || UnknownLeads(sigs, applies)
  {
    StrongestWins(sigs, recs, ttl, q, rx);
    DominatesIff(Scan(sigs, |sigs|, recs, ttl, q, rx).1, sigs, Applicable(recs, ttl, q, rx));
  }

  ghost predicate SameSet(a: seq<Signature>, b: seq<Signature>) {
    Included(a, b) && Included(b, a)
  }

  /** Two decisions that are enforced alike. */
  ghost predicate Alike(a: Option<Signature>, b: Option<Signature>) {
    a.Some? == b.Some? && (a.Some? ==> Enforced(a.value.action) == Enforced(b.value.action))
  }

  ghost predicate SomeAboveLogOnly(sigs: seq<Signature>, applies: Signature -> bool) {
    exists s :: s in sigs && applies(s) && ActionRank(s.action) >= 2
  }

  ghost predicate AllEnforcedAlike(sigs: seq<Signature>, applies: Signature -> bool) {
    forall s, t :: s in sigs && t in sigs && applies(s) && applies(t) ==> Enforced(s.action) == Enforced(t.action)
  }

  lemma SameSetAlike(
    bestA: Option<Signature>, a: seq<Signature>, bestB: Option<Signature>, b: seq<Signature>, applies: Signature -> bool)
    requires SameSet(a, b) && FirstStrongest(bestA, a, |a|, applies) && FirstStrongest(bestB, b, |b|, applies)
    requires SomeAboveLogOnly(a, applies) || AllEnforcedAlike(a, applies)
    ensures Alike(bestA, bestB)
  {
    StrongerWithMore(bestA, a, bestB, b, applies);
    StrongerWithMore(bestB, b, bestA, a, applies);
    if bestA.Some? { BestIsApplicable(bestA, a, applies); }
    if bestB.Some? { BestIsApplicable(bestB, b, applies); }
    if SomeAboveLogOnly(a, applies) {
      var s :| s in a && applies(s) && ActionRank(s.action) >= 2;
      BestDominates(s, bestA, a, applies);
    }
  }

  /** In front, an applicable signature wins over equals. */
  lemma FrontWins(best: Option<Signature>, b: seq<Signature>, applies: Signature -> bool)
    requires b != [] && applies(b[0]) && FirstStrongest(best, b, |b|, applies) && !SomeAboveLogOnly(b, applies)
    ensures best == Some(b[0])
  {
    BestDominates(b[0], best, b, applies);
    forall s | s in b && applies(s) ensures ActionRank(s.action) == 1 {
      assert ActionRank(s.action) < 2;
    }
    assert Leads(b, applies, 0);
    LowestRankFirstWins(best.value, b, applies, 0);
  }

  /** `u` is moved to the front. */
  lemma MovedToFront(u: Signature, a: seq<Signature>) returns (b: seq<Signature>)
    requires u in a
    ensures b != [] && b[0] == u && multiset(b) == multiset(a)
  {
    var i :| 0 <= i < |a| && a[i] == u;
    var before, after := a[..i], a[i + 1..];
    assert a == before + [u] + after;
    b := [u] + (before + after);
  }

  /** A permutation is the same set. */
  lemma PermutedIsSame(a: seq<Signature>, b: seq<Signature>)
    requires multiset(a) == multiset(b)
    ensures SameSet(a, b) && (Usable(a) ==> Usable(b))
  {
    forall s ensures s in a <==> s in b {
      assert s in multiset(a) <==> s in multiset(b);
    }
    forall i | 0 <= i < |b| ensures b[i] in a {
      assert b[i] in b;
    }
  }

  ghost predicate ScansAlike(a: seq<Signature>, b: seq<Signature>, recs: Tracker.Recs, ttl: Time, q: Query, rx: Regexp)
    requires Usable(a) && Usable(b) && recs.Valid()
  {
    Alike(Scan(a, |a|, recs, ttl, q, rx).1, Scan(b, |b|, recs, ttl, q, rx).1)
  }

  /** Something applicable that is enforced otherwise than the decision. */
  lemma UnlikeBest(best: Option<Signature>, sigs: seq<Signature>, applies: Signature -> bool) returns (u: Signature)
    requires FirstStrongest(best, sigs, |sigs|, applies)
    requires !SomeAboveLogOnly(sigs, applies) && !AllEnforcedAlike(sigs, applies)
    ensures u in sigs && applies(u)
    ensures best.Some? && Enforced(u.action) != Enforced(best.value.action)
  {
    var s, t :| s in sigs && t in sigs && applies(s) && applies(t) && Enforced(s.action) != Enforced(t.action);
    BestDominates(s, best, sigs, applies);
    u := if Enforced(s.action) != Enforced(best.value.action) then s else t;
  }

  lemma AnyOrderAlike(a: seq<Signature>, b: seq<Signature>, recs: Tracker.Recs, ttl: Time, q: Query, rx: Regexp)
    requires Usable(a) && Usable(b) && recs.Valid() && SameSet(a, b)
    requires var applies := Applicable(recs, ttl, q, rx); SomeAboveLogOnly(a, applies) || AllEnforcedAlike(a, applies)
    ensures ScansAlike(a, b, recs, ttl, q, rx)
  {
    StrongestWins(a, recs, ttl, q, rx);
    StrongestWins(b, recs, ttl, q, rx);
    SameSetAlike(Scan(a, |a|, recs, ttl, q, rx).1, a, Scan(b, |b|, recs, ttl, q, rx).1, b, Applicable(recs, ttl, q, rx));
  }

  lemma SomeOrderUnlike(a: seq<Signature>, recs: Tracker.Recs, ttl: Time, q: Query, rx: Regexp) returns (b: seq<Signature>)
    requires Usable(a) && recs.Valid()
    requires var applies := Applicable(recs, ttl, q, rx); !SomeAboveLogOnly(a, applies) && !AllEnforcedAlike(a, applies)
    ensures multiset(a) == multiset(b) && Usable(b) && !ScansAlike(a, b, recs, ttl, q, rx)
  {
    var applies := Applicable(recs, ttl, q, rx);
    StrongestWins(a, recs, ttl, q, rx);
    var u := UnlikeBest(Scan(a, |a|, recs, ttl, q, rx).1, a, applies);
    b := MovedToFront(u, a);
    PermutedIsSame(a, b);
    StrongestWins(b, recs, ttl, q, rx);
    FrontWins(Scan(b, |b|, recs, ttl, q, rx).1, b, applies);
  }

  /** Order does not matter to what is enforced exactly when something above log-only applies,
      or all that applies is enforced alike; and then multiplicity does not matter either. */
  lemma OrderIrrelevantIff(a: seq<Signature>, recs: Tracker.Recs, ttl: Time, q: Query, rx: Regexp)
    requires Usable(a) && recs.Valid()
    ensures var applies := Applicable(recs, ttl, q, rx);
      && ((forall b: seq<Signature> :: multiset(a) == multiset(b) && Usable(b) ==> ScansAlike(a, b, recs, ttl, q, rx)) <==>
          SomeAboveLogOnly(a, applies) || AllEnforcedAlike(a, applies))
      && ((forall b: seq<Signature> :: SameSet(a, b) && Usable(b) ==> ScansAlike(a, b, recs, ttl, q, rx)) <==>
          SomeAboveLogOnly(a, applies) || AllEnforcedAlike(a, applies))
  {
    var applies := Applicable(recs, ttl, q, rx);
    forall b: seq<Signature> | multiset(a) == multiset(b) ensures SameSet(a, b) {
      PermutedIsSame(a, b);
    }
    if SomeAboveLogOnly(a, applies) || AllEnforcedAlike(a, applies) {
      forall b: seq<Signature> | SameSet(a, b) && Usable(b) ensures ScansAlike(a, b, recs, ttl, q, rx) {
        AnyOrderAlike(a, b, recs, ttl, q, rx);
      }
    } else {
      var b := SomeOrderUnlike(a, recs, ttl, q, rx);
    }
  }

  /** An instance of the failing half: a challenge is chosen over an unknown action, which would
      have been enforced as a block. */
  lemma UnknownActionIsOutranked(x: Signature, y: Signature, recs: Tracker.Recs, ttl: Time, q: Query, rx: Regexp)
    requires Usable([x, y]) && recs.Valid() && x.action.Unknown? && y.action == Challenge
    requires Applicable(recs, ttl, q, rx)(x) && Applicable(recs, ttl, q, rx)(y)
    ensures Scan([x, y], 2, recs, ttl, q, rx).1 == Some(y)
    ensures !Dominates(Some(y), [x, y], Applicable(recs, ttl, q, rx))
  {
    var best, applies := Scan([x, y], 2, recs, ttl, q, rx).1, Applicable(recs, ttl, q, rx);
    StrongestWins([x, y], recs, ttl, q, rx);
    assert x in [x, y] && y in [x, y];
    BestDominates(y, best, [x, y], applies);
    BestIsApplicable(best, [x, y], applies);
  }
}
