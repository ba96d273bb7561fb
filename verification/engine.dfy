/** The detection engine: what compiled signatures match, and the scan for the strongest
    matching action. */
module Engine {
  import opened Prelude
  import opened Text
  import opened Signature
  import Tracker

  // ----- compiled matchers -----

  function PartValue(part: string, view: RequestView): string {
    if part == "path" then view.fullURI
    else if part == "body" then view.body
    else if part == "header" then view.headersText
    else if part == "all" || part == "request" || part == "" then
      view.method_ + " " + view.fullURI + "\n" + view.headersText + "\n" + view.body
    else if part in view.headers then view.headers[part]
    else ""
  }

  predicate WordsHit(m: CompiledMatcher, hay: string) {
    if m.words == [] then true
    else if m.condAnd then forall i :: 0 <= i < |m.words| ==> Contains(hay, m.words[i])
    else exists i :: 0 <= i < |m.words| && Contains(hay, m.words[i])
  }

  predicate RegexHit(m: CompiledMatcher, hay: string, rx: Regexp) {
    if m.res == [] then true
    else if m.condAnd then forall i :: 0 <= i < |m.res| ==> rx.matches(m.res[i], hay)
    else exists i :: 0 <= i < |m.res| && rx.matches(m.res[i], hay)
  }

  predicate MatcherHit(m: CompiledMatcher, view: RequestView, rx: Regexp) {
    var hay := PartValue(m.part, view);
    var folded := if m.caseFold then Lower(hay) else hay;
    (WordsHit(m, folded) && RegexHit(m, folded, rx)) != m.negative
  }

  predicate PathHit(p: PathMatcher, view: RequestView) {
    if p.matchQuery then
      Accepts(p, view.fullURI) ||
      (view.fullURINorm != "" && view.fullURINorm != view.fullURI && Accepts(p, view.fullURINorm))
    else
      Accepts(p, view.path) || (view.pathNorm != "" && view.pathNorm != view.path && Accepts(p, view.pathNorm))
  }

  predicate TargetHit(b: CompiledBlock, view: RequestView) {
    && (b.methods == {} || Upper(view.method_) in b.methods)
    && (b.paths == [] || exists i :: 0 <= i < |b.paths| && PathHit(b.paths[i], view))
  }

  predicate MatchersHit(b: CompiledBlock, view: RequestView, rx: Regexp) {
    if b.matchers == [] then true
    else if b.matchersAnd then forall i :: 0 <= i < |b.matchers| ==> MatcherHit(b.matchers[i], view, rx)
    else exists i :: 0 <= i < |b.matchers| && MatcherHit(b.matchers[i], view, rx)
  }

  predicate BlockHit(b: CompiledBlock, view: RequestView, rx: Regexp) {
    TargetHit(b, view) && MatchersHit(b, view, rx)
  }

  predicate HttpHit(sig: Signature, view: RequestView, rx: Regexp) {
    exists i :: 0 <= i < |sig.blocks| && BlockHit(sig.blocks[i], view, rx)
  }

  method EvalWords(m: CompiledMatcher, hay: string) returns (ok: bool)
    ensures ok == WordsHit(m, hay)
  {
    ok := |m.words| == 0;
    if |m.words| > 0 {
      if m.condAnd {
        ok := true;
        for i := 0 to |m.words|
          invariant ok && forall j :: 0 <= j < i ==> Contains(hay, m.words[j])
        {
          if !Contains(hay, m.words[i]) {
            ok := false;
            break;
          }
        }
      } else {
        for i := 0 to |m.words|
          invariant !ok && forall j :: 0 <= j < i ==> !Contains(hay, m.words[j])
        {
          if Contains(hay, m.words[i]) {
            ok := true;
            break;
          }
        }
      }
    }
  }

  method EvalRegexes(m: CompiledMatcher, hay: string, rx: Regexp) returns (ok: bool)
    ensures ok == RegexHit(m, hay, rx)
  {
    ok := |m.res| == 0;
    if |m.res| > 0 {
      if m.condAnd {
        ok := true;
        for i := 0 to |m.res|
          invariant ok && forall j :: 0 <= j < i ==> rx.matches(m.res[j], hay)
        {
          if !rx.matches(m.res[i], hay) {
            ok := false;
            break;
          }
        }
      } else {
        for i := 0 to |m.res|
          invariant !ok && forall j :: 0 <= j < i ==> !rx.matches(m.res[j], hay)
        {
          if rx.matches(m.res[i], hay) {
            ok := true;
            break;
          }
        }
      }
    }
  }

  method MatchMatcher(m: CompiledMatcher, view: RequestView, rx: Regexp) returns (hit: bool)
    ensures hit == MatcherHit(m, view, rx)
  {
    var hay := PartValue(m.part, view);
    if m.caseFold {
      hay := Lower(hay);
    }
    var words := EvalWords(m, hay);
    var res := EvalRegexes(m, hay, rx);
    hit := words && res;
    if m.negative {
      hit := !hit;
    }
  }

  method MatchTargets(b: CompiledBlock, view: RequestView) returns (hit: bool)
    ensures hit == TargetHit(b, view)
  {
    if b.methods != {} && Upper(view.method_) !in b.methods {
      return false;
    }
    if |b.paths| == 0 {
      return true;
    }
    for i := 0 to |b.paths|
      invariant forall j :: 0 <= j < i ==> !PathHit(b.paths[j], view)
    {
      if PathHit(b.paths[i], view) {
        return true;
      }
    }
    return false;
  }

  method MatchMatchers(b: CompiledBlock, view: RequestView, rx: Regexp) returns (hit: bool)
    ensures hit == MatchersHit(b, view, rx)
  {
    if |b.matchers| == 0 {
      return true;
    }
    for i := 0 to |b.matchers|
      invariant forall j :: 0 <= j < i ==> MatcherHit(b.matchers[j], view, rx) == b.matchersAnd
    {
      var got := MatchMatcher(b.matchers[i], view, rx);
      if b.matchersAnd && !got {
        return false;
      }
      if !b.matchersAnd && got {
        return true;
      }
    }
    return b.matchersAnd;
  }

  method HttpMatch(sig: Signature, view: RequestView, rx: Regexp) returns (hit: bool)
    ensures hit == HttpHit(sig, view, rx)
  {
    for i := 0 to |sig.blocks|
      invariant forall j :: 0 <= j < i ==> !BlockHit(sig.blocks[j], view, rx)
    {
      var targets := MatchTargets(sig.blocks[i], view);
      if targets {
        var matchers := MatchMatchers(sig.blocks[i], view, rx);
        if matchers {
          return true;
        }
      }
    }
    return false;
  }

  // ----- the strongest action -----

  const MAX_ACTION_RANK := 5

  function ActionRank(a: Action): int {
    match a
    case Ban => MAX_ACTION_RANK
    case Block => 4
    case Challenge => 3
    case RateLimit => 2
    case LogOnly => 1
    case Unknown(_) => 1
  }

  predicate Usable(sigs: seq<Signature>) {
    forall i :: 0 <= i < |sigs| && sigs[i].session.Some? ==> Tracker.Starless(sigs[i].session.value)
  }

  /** Who is asking, and when. */
  datatype Query = Query(key: string, view: RequestView, now: Time)

  /** One signature: whether it applies, and the tracker after its session-matchers ran. */
  function Try(sig: Signature, recs: Tracker.Recs, ttl: Time, q: Query, rx: Regexp): (r: (Tracker.Recs, bool))
    requires recs.Valid() && (sig.session.Some? ==> Tracker.Starless(sig.session.value))
    ensures r.0.Valid() && r.0.cap == recs.cap
  {
    if !HttpHit(sig, q.view, rx) then (recs, false)
    else if sig.session.None? then (recs, true)
    else Tracker.Evaluate(recs, ttl, sig.session.value, q.key, q.view.path, q.now)
  }

  function Stronger(best: Option<Signature>, sig: Signature): Option<Signature> {
    if best.None? || ActionRank(sig.action) > ActionRank(best.value.action) then Some(sig) else best
  }

  predicate Settled(best: Option<Signature>) {
    best.Some? && ActionRank(best.value.action) == MAX_ACTION_RANK
  }

  /** The scan over the first `n` signatures, which stops for good at a ban. */
  function Scan(sigs: seq<Signature>, n: nat, recs: Tracker.Recs, ttl: Time, q: Query, rx: Regexp)
    : (r: (Tracker.Recs, Option<Signature>))
    requires n <= |sigs| && Usable(sigs) && recs.Valid()
    ensures r.0.Valid() && r.0.cap == recs.cap
  {
    if n == 0 then (recs, None)
    else
      var (recs', best) := Scan(sigs, n - 1, recs, ttl, q, rx);
      if Settled(best) then (recs', best)
      else
        var (recs'', applies) := Try(sigs[n - 1], recs', ttl, q, rx);
        (recs'', if applies then Stronger(best, sigs[n - 1]) else best)
  }

  lemma {:induction false} ScanStops(sigs: seq<Signature>, i: nat, n: nat, recs: Tracker.Recs, ttl: Time, q: Query, rx: Regexp)
    requires i <= n <= |sigs| && Usable(sigs) && recs.Valid() && Settled(Scan(sigs, i, recs, ttl, q, rx).1)
    ensures Scan(sigs, n, recs, ttl, q, rx) == Scan(sigs, i, recs, ttl, q, rx)
  {
    if i < n {
      ScanStops(sigs, i, n - 1, recs, ttl, q, rx);
    }
  }

  class DetectionEngine {
    const rx: Regexp
    var sigs: seq<Signature>
    const session: Tracker.SessionTracker

    constructor (session: Tracker.SessionTracker, rx: Regexp)
      ensures this.session == session && this.rx == rx && sigs == []
    {
      this.session, this.rx, sigs := session, rx, [];
    }

    method Reload(sigs: seq<Signature>)
      modifies this
      ensures this.sigs == sigs
    {
      this.sigs := sigs;
    }

    method Inspect(q: Query) returns (best: Option<Signature>)
      requires session.Valid() && Usable(sigs)
      modifies session`cache, session`recs
      ensures session.Valid()
      ensures (session.recs, best) == Scan(sigs, |sigs|, old(session.recs), session.ttl, q, rx)
    {
      best := None;
      var bestRank := 0;
      ghost var recs0 := session.recs;
      for i := 0 to |sigs|
        invariant session.Valid()
        invariant (session.recs, best) == Scan(sigs, i, recs0, session.ttl, q, rx)
        invariant bestRank == if best.Some? then ActionRank(best.value.action) else 0
        invariant !Settled(best)
      {
        var sig := sigs[i];
        var applies := TrySignature(sig, q);
        if !applies {
          continue;
        }
        if ActionRank(sig.action) > bestRank {
          bestRank, best := ActionRank(sig.action), Some(sig);
          if bestRank == MAX_ACTION_RANK {
            ScanStops(sigs, i + 1, |sigs|, recs0, session.ttl, q, rx);
            break;
          }
        }
      }
    }

    method TrySignature(sig: Signature, q: Query) returns (applies: bool)
      requires session.Valid() && (sig.session.Some? ==> Tracker.Starless(sig.session.value))
      modifies session`cache, session`recs
      ensures session.Valid()
      ensures (session.recs, applies) == Try(sig, old(session.recs), session.ttl, q, rx)
    {
      var hit := HttpMatch(sig, q.view, rx);
      if !hit {
        return false;
      }
      if sig.session.Some? {
        applies := session.Eval(sig.session.value, q.key, q.view.path, q.now);
        return;
      }
      return true;
    }
  }
}
