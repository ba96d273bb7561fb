/** The endpoint rate limit over whole runs: how many pageviews of one session on one path can
    be let through in a window of time. */
module PacingTheory {
  import opened Prelude
  import opened Pipeline
  import opened PipelineTheory
  import opened VisitorTheory
  import opened AdmissionTheory
  import opened Signature
  import opened EngineTheory
  import Engine
  import Lru
  import Tracker
  import Reputation
  import TT = TrackerTheory

  // ----- the full history of a session -----

  /** Every recorded pageview of the session, which the tracker does not keep. */
  ghost function Pageviews(cfg: Config, st: State, run: Run, key: string): seq<Tracker.Hit>
    requires Engine.Usable(cfg.sigs) && st.Valid()
  {
    match run
    case Start => []
    case Then(before, Restart(_)) => Pageviews(cfg, st, before, key)
    case Then(before, Asks(rq)) => Seen(cfg, After(cfg, st, before), rq, key, Pageviews(cfg, st, before, key))
  }

  ghost function Seen(cfg: Config, st: State, rq: Request, key: string, all: seq<Tracker.Hit>): seq<Tracker.Hit>
    requires Engine.Usable(cfg.sigs) && st.Valid()
  {
    if Key(cfg, rq) == key && Recorded(Serve(cfg, st, rq).1) then Push(all, Tracker.Hit(rq.done, rq.view.path)) else all
  }

  /** The tracker's updates of the session's own record keep it covering the full history. */
  lemma UpdatedCovers(cfg: Config, mid: Tracker.Recs, window: Time, a: Answer, rq: Request, all: seq<Tracker.Hit>, m: nat)
    returns (m': nat)
    requires mid.Valid() && 0 < window <= cfg.sessionTTL && rq.at <= rq.done && Key(cfg, rq) != ""
    requires TT.Covers(mid, window, Key(cfg, rq), all, m, rq.at)
    ensures var all' := if Recorded(a) then Push(all, Tracker.Hit(rq.done, rq.view.path)) else all;
      TT.Covers(Updated(cfg, mid, a, rq), window, Key(cfg, rq), all', m', rq.done)
  {
    var key, ttl := Key(cfg, rq), cfg.sessionTTL;
    if Recorded(a) {
      m' := TT.RecordCovers(mid, ttl, window, key, rq.view.path, all, m, rq.at, rq.done);
    } else if a.Redirect? {
      m' := TT.MarkCovers(mid, ttl, window, key, all, m, rq.at, rq.at);
      TT.OtherCovers(Updated(cfg, mid, a, rq), Updated(cfg, mid, a, rq), window, key, all, m', rq.at, rq.done);
    } else {
      m' := m;
      TT.OtherCovers(mid, mid, window, key, all, m, rq.at, rq.done);
    }
  }

  lemma OwnCovers(cfg: Config, st: State, window: Time, rq: Request, all: seq<Tracker.Hit>, m: nat) returns (m': nat)
    requires Engine.Usable(cfg.sigs) && st.Valid() && 0 < window <= cfg.sessionTTL && rq.at <= rq.done
    requires TT.Covers(st.recs, window, Key(cfg, rq), all, m, rq.at)
    ensures TT.Covers(Serve(cfg, st, rq).0.recs, window, Key(cfg, rq), Seen(cfg, st, rq, Key(cfg, rq), all), m', rq.done)
  {
    ServeEffect(cfg, st, rq);
    var (st', a) := Serve(cfg, st, rq);
    if Listed(cfg, rq) {
      m' := m;
      TT.OtherCovers(st.recs, st.recs, window, Key(cfg, rq), all, m, rq.at, rq.done);
    } else if st'.recs == Updated(cfg, st.recs, a, rq) {
      m' := UpdatedCovers(cfg, st.recs, window, a, rq, all, m);
    } else {
      var m1 := TT.FetchCovers(st.recs, cfg.sessionTTL, window, Key(cfg, rq), all, m, rq.at, rq.at);
      m' := UpdatedCovers(cfg, Tracker.Fetch(st.recs, cfg.sessionTTL, Key(cfg, rq), rq.at).0, window, a, rq, all, m1);
    }
  }

  lemma OwnBehind(cfg: Config, st: State, rq: Request, others: set<string>)
    requires Engine.Usable(cfg.sigs) && st.Valid() && Behind(st.recs, Key(cfg, rq), others)
    ensures var (st', a) := Serve(cfg, st, rq);
      Behind(st'.recs, Key(cfg, rq), if Updates(a) then {} else others)
  {
    ServeEffect(cfg, st, rq);
    if !Listed(cfg, rq) {
      var fetched := Tracker.Fetch(st.recs, cfg.sessionTTL, Key(cfg, rq), rq.at).0;
      FetchedBehind(st.recs, cfg.sessionTTL, Key(cfg, rq), rq.at, others);
      UpdatedBehind(cfg, st.recs, Serve(cfg, st, rq).1, rq, others);
      UpdatedBehind(cfg, fetched, Serve(cfg, st, rq).1, rq, others);
    }
  }

  lemma FetchedBehind(recs: Tracker.Recs, ttl: Time, key: string, now: Time, others: set<string>)
    requires recs.Valid() && Behind(recs, key, others)
    ensures Behind(Tracker.Fetch(recs, ttl, key, now).0, key, others)
  {
    LastIsNewest(recs, key);
  }

  lemma UpdatedBehind(cfg: Config, mid: Tracker.Recs, a: Answer, rq: Request, others: set<string>)
    requires mid.Valid() && Behind(mid, Key(cfg, rq), others)
    ensures Behind(Updated(cfg, mid, a, rq), Key(cfg, rq), if Updates(a) then {} else others)
  {
    var fetched := Tracker.Fetch(mid, cfg.sessionTTL, Key(cfg, rq), UpdateTime(a, rq)).0;
    LastIsNewest(fetched, Key(cfg, rq));
    Lru.Membership(fetched);
    Lru.WithoutProps(fetched.order, Key(cfg, rq));
  }

  /** In every run in which the session is not crowded out, its record covers its history. */
  lemma {:induction false} RunCovers(cfg: Config, st: State, run: Run, key: string, window: Time, now: Time) returns (m: nat)
    requires Engine.Usable(cfg.sigs) && st.Valid() && key !in st.recs.items && 0 < window <= cfg.sessionTTL
    requires Clocked(run) && Uncrowded(cfg, st, run, key) && (run.Then? ==> Ends(run.last) <= now)
    ensures TT.Covers(After(cfg, st, run).recs, window, key, Pageviews(cfg, st, run, key), m, now)
    ensures Behind(After(cfg, st, run).recs, key, Others(cfg, st, run, key))
  {
    if run.Start? {
      return 0;
    }
    var before, rq := After(cfg, st, run.before), run.last.rq;
    var all, others := Pageviews(cfg, st, run.before, key), Others(cfg, st, run.before, key);
    m := RunCovers(cfg, st, run.before, key, window, rq.at);
    if Key(cfg, rq) == key {
      m := OwnCovers(cfg, before, window, rq, all, m);
      OwnBehind(cfg, before, rq, others);
    } else {
      CapFixed(cfg, st, run.before);
      OtherAsks(cfg, before, rq, key, others);
      TT.OtherCovers(before.recs, After(cfg, st, run).recs, window, key, all, m, rq.at, rq.done);
    }
    TT.OtherCovers(After(cfg, st, run).recs, After(cfg, st, run).recs, window, key,
                   Pageviews(cfg, st, run, key), m, rq.done, now);
  }

  // ----- the rule -----

  /** A rate limit whose only check counts the session's pageviews of the requested path. */
  predicate LimitsEndpoint(r: Signature, v: int, window: Time) {
    && r.action == RateLimit && r.session.Some?
    && r.session.value.checks == [Tracker.Check(Tracker.EndpointRateLimit, false, v, window, "")]
  }

  /** The hits in the session's live record. */
  function Kept(seen: Option<Tracker.Rec>): seq<Tracker.Hit> {
    if seen.Some? then seen.value.pageviews else []
  }

  /** The record and the full history count the same pageviews of the path. */
  lemma KeptCounts(cfg: Config, st: State, run: Run, key: string, path: string, window: Time, now: Time)
    requires Engine.Usable(cfg.sigs) && st.Valid() && key !in st.recs.items && 0 < window <= cfg.sessionTTL
    requires Clocked(run) && Uncrowded(cfg, st, run, key) && (run.Then? ==> Ends(run.last) <= now)
    requires Tracker.Count(Pageviews(cfg, st, run, key), "", window, now) <= 64
    ensures Tracker.Count(Kept(Tracker.Fetch(After(cfg, st, run).recs, cfg.sessionTTL, key, now).1), path, window, now)
         == Tracker.Count(Pageviews(cfg, st, run, key), path, window, now)
  {
    var recs, all := After(cfg, st, run).recs, Pageviews(cfg, st, run, key);
    var m := RunCovers(cfg, st, run, key, window, now);
    m := TT.FetchCovers(recs, cfg.sessionTTL, window, key, all, m, now, now);
    TT.CoveredCount(Tracker.Fetch(recs, cfg.sessionTTL, key, now).1, window, path, all, m, now);
  }

  lemma LimitCounts(cfg: Config, recs: Tracker.Recs, rq: Request, r: Signature, v: int, window: Time)
    requires recs.Valid() && LimitsEndpoint(r, v, window) && Engine.HttpHit(r, rq.view, cfg.rx)
    ensures Matches(cfg, recs, rq, r) <==>
      Tracker.Count(Kept(Tracker.Fetch(recs, cfg.sessionTTL, Key(cfg, rq), rq.at).1), rq.view.path, window, rq.at) + 1 >= v
  {
    SoleCheck(r.session.value, Tracker.Fetch(recs, cfg.sessionTTL, Key(cfg, rq), rq.at).1, rq.view.path, rq.at);
  }

  /** The rule applies exactly when the full history has v-1 pageviews of the path in the
      window that ends now. */
  lemma LimitIsExact(cfg: Config, st: State, run: Run, rq: Request, r: Signature, v: int, window: Time)
    requires Engine.Usable(cfg.sigs) && st.Valid() && Key(cfg, rq) !in st.recs.items
    requires 0 < window <= cfg.sessionTTL && LimitsEndpoint(r, v, window) && Engine.HttpHit(r, rq.view, cfg.rx)
    requires Clocked(Then(run, Asks(rq))) && Uncrowded(cfg, st, run, Key(cfg, rq))
    requires Tracker.Count(Pageviews(cfg, st, run, Key(cfg, rq)), "", window, rq.at) <= 64
    ensures Matches(cfg, After(cfg, st, run).recs, rq, r) <==>
            Tracker.Count(Pageviews(cfg, st, run, Key(cfg, rq)), rq.view.path, window, rq.at) >= v - 1
  {
    KeptCounts(cfg, st, run, Key(cfg, rq), rq.view.path, window, rq.at);
    LimitCounts(cfg, After(cfg, st, run).recs, rq, r, v, window);
  }

  lemma SoleCheck(sm: Tracker.SessionMatchers, seen: Option<Tracker.Rec>, path: string, now: Time)
    requires |sm.checks| == 1
    ensures Tracker.Fires(sm, seen, path, now) <==> Tracker.Holds(sm.checks[0], seen, path, now)
  {
  }

  predicate NoChallengeRule(cfg: Config, view: RequestView) {
    forall s :: s in cfg.sigs && s.action == Challenge ==> !Engine.HttpHit(s, view, cfg.rx)
  }

  lemma InspectRecordsUnmatched(cfg: Config, st: State, rq: Request, s: Signature)
    requires Engine.Usable(cfg.sigs) && st.Valid() && NoChallengeRule(cfg, rq.view) && s in cfg.sigs
    requires Recorded(Inspect(cfg, st, rq).1)
    ensures !Matches(cfg, st.recs, rq, s)
  {
    var best, applies := Best(cfg, st, rq), Applicable(st.recs, cfg.sessionTTL, Asking(cfg, rq), cfg.rx);
    StrongestWins(cfg.sigs, st.recs, cfg.sessionTTL, Asking(cfg, rq), cfg.rx);
    if best.Some? {
      BestIsApplicable(best, cfg.sigs, applies);
    }
  }

  /** Without a challenge rule, a recorded request is one that no signature matches. */
  lemma RecordedIsUnmatched(cfg: Config, st: State, rq: Request, s: Signature)
    requires Engine.Usable(cfg.sigs) && st.Valid() && NoChallengeRule(cfg, rq.view) && s in cfg.sigs
    requires Recorded(Serve(cfg, st, rq).1)
    ensures !Matches(cfg, st.recs, rq, s)
  {
    ServeEffect(cfg, st, rq);
    var (rep, standing) := Reputation.Lookup(st.rep, rq.ip, rq.at);
    var st' := st.(rep := rep);
    if standing == Reputation.Greylisted && cfg.challengeEnabled {
      PassedIsNearby(cfg, st', st', rq);
      var asked := st'.(recs := Tracker.Passed(st'.recs, cfg.sessionTTL, Key(cfg, rq), rq.at).0);
      SameMatches(cfg, st', asked, rq, s);
      InspectRecordsUnmatched(cfg, asked, rq, s);
    } else {
      InspectRecordsUnmatched(cfg, st', rq, s);
    }
  }

  lemma InspectStops(cfg: Config, st: State, rq: Request, r: Signature)
    requires Engine.Usable(cfg.sigs) && st.Valid() && NoChallengeRule(cfg, rq.view)
    requires r in cfg.sigs && r.action == RateLimit && Matches(cfg, st.recs, rq, r)
    ensures Inspect(cfg, st, rq).1.Refused?
  {
    var best, applies := Best(cfg, st, rq), Applicable(st.recs, cfg.sessionTTL, Asking(cfg, rq), cfg.rx);
    StrongestWins(cfg.sigs, st.recs, cfg.sessionTTL, Asking(cfg, rq), cfg.rx);
    BestDominates(r, best, cfg.sigs, applies);
    BestIsApplicable(best, cfg.sigs, applies);
  }

  /** A rate limit that applies stops the request, even where a log-only rule applies as well,
      if no challenge rule matches it. */
  lemma LimitStops(cfg: Config, st: State, rq: Request, r: Signature)
    requires Engine.Usable(cfg.sigs) && st.Valid() && NoChallengeRule(cfg, rq.view)
    requires r in cfg.sigs && r.action == RateLimit && Matches(cfg, st.recs, rq, r)
    ensures !Serve(cfg, st, rq).1.Hit? && (Serve(cfg, st, rq).1.Backend? ==> cfg.whitelisted(rq.ip))
  {
    var st' := st.(rep := Reputation.Lookup(st.rep, rq.ip, rq.at).0);
    InspectStops(cfg, st', rq, r);
    PassedIsNearby(cfg, st', st', rq);
    var asked := st'.(recs := Tracker.Passed(st'.recs, cfg.sessionTTL, Key(cfg, rq), rq.at).0);
    SameMatches(cfg, st', asked, rq, r);
    InspectStops(cfg, asked, rq, r);
  }

  // ----- the bound -----

  predicate Inside(h: Tracker.Hit, path: string, from: Time, window: Time) {
    h.path == path && from <= h.ts < from + window
  }

  /** The pageviews of a path in the half-open interval of length `window` from `from`. */
  function InWindow(hits: seq<Tracker.Hit>, path: string, from: Time, window: Time): nat {
    if hits == [] then 0
    else
      var n := |hits| - 1;
      InWindow(hits[..n], path, from, window) + if Inside(hits[n], path, from, window) then 1 else 0
  }

  /** At a time whose next pageview still falls into the interval, the rule's own window holds
      all of the interval's pageviews so far. */
  lemma {:induction false} IntervalIsCounted(hits: seq<Tracker.Hit>, path: string, from: Time, window: Time, now: Time)
    requires now < from + window
    ensures InWindow(hits, path, from, window) <= Tracker.Count(hits, path, window, now)
  {
    if hits != [] {
      IntervalIsCounted(hits[..|hits| - 1], path, from, window, now);
    }
  }

  /** Requests of the session on the path are matched by the rule's blocks and by no challenge rule. */
  ghost predicate Ruled(cfg: Config, run: Run, key: string, path: string, r: Signature) {
    run.Then? ==>
      && Ruled(cfg, run.before, key, path, r)
      && (run.last.Asks? && Key(cfg, run.last.rq) == key && run.last.rq.view.path == path ==>
            Engine.HttpHit(r, run.last.rq.view, cfg.rx) && NoChallengeRule(cfg, run.last.rq.view))
  }

  /** The session never has more than 64 pageviews in the window. */
  ghost predicate Moderate(cfg: Config, st: State, run: Run, key: string, window: Time)
    requires Engine.Usable(cfg.sigs) && st.Valid()
  {
    run.Then? ==>
      && Moderate(cfg, st, run.before, key, window)
      && Tracker.Count(Pageviews(cfg, st, run.before, key), "", window, Arrives(run.last)) <= 64
  }

  /** A recorded pageview finds fewer than v-1 others in any interval that it falls into. */
  lemma PaceStep(cfg: Config, st: State, run: Run, rq: Request, r: Signature, v: int, window: Time, from: Time)
    requires Engine.Usable(cfg.sigs) && st.Valid() && Key(cfg, rq) !in st.recs.items
    requires 0 < window <= cfg.sessionTTL && LimitsEndpoint(r, v, window) && r in cfg.sigs
    requires Engine.HttpHit(r, rq.view, cfg.rx) && NoChallengeRule(cfg, rq.view)
    requires Clocked(Then(run, Asks(rq))) && Uncrowded(cfg, st, run, Key(cfg, rq))
    requires Tracker.Count(Pageviews(cfg, st, run, Key(cfg, rq)), "", window, rq.at) <= 64
    ensures Recorded(Serve(cfg, After(cfg, st, run), rq).1) && rq.done < from + window ==>
              InWindow(Pageviews(cfg, st, run, Key(cfg, rq)), rq.view.path, from, window) < v - 1
  {
    if Recorded(Serve(cfg, After(cfg, st, run), rq).1) && rq.done < from + window {
      LimitIsExact(cfg, st, run, rq, r, v, window);
      RecordedIsUnmatched(cfg, After(cfg, st, run), rq, r);
      IntervalIsCounted(Pageviews(cfg, st, run, Key(cfg, rq)), rq.view.path, from, window, rq.at);
    }
  }

  /** In every run, under an endpoint rate limit of value v at most v-1 pageviews of one session
      on one path are recorded in any half-open interval of the length of its window: as long as
      the window does not outlast the session TTL, the session's record is not crowded out, it
      has at most 64 pageviews in a window, and no challenge rule matches the same requests. */
  lemma {:induction false} EndpointRateLimit(
    cfg: Config, st: State, run: Run, key: string, path: string, r: Signature, v: int, window: Time, from: Time)
    requires Engine.Usable(cfg.sigs) && st.Valid() && key !in st.recs.items
    requires 1 <= v && 0 < window <= cfg.sessionTTL && LimitsEndpoint(r, v, window) && r in cfg.sigs
    requires Clocked(run) && Uncrowded(cfg, st, run, key)
    requires Moderate(cfg, st, run, key, window) && Ruled(cfg, run, key, path, r)
    ensures InWindow(Pageviews(cfg, st, run, key), path, from, window) <= v - 1
  {
    if run.Then? {
      EndpointRateLimit(cfg, st, run.before, key, path, r, v, window, from);
      var rq, all := run.last.rq, Pageviews(cfg, st, run.before, key);
      if Pageviews(cfg, st, run, key) != all && rq.view.path == path && from <= rq.done < from + window {
        PaceStep(cfg, st, run.before, rq, r, v, window, from);
      }
      assert Push(all, Tracker.Hit(rq.done, rq.view.path))[..|all|] == all;
    }
  }

  // ----- what is let through without being recorded -----

  ghost predicate On(cfg: Config, rq: Request, key: string, path: string, from: Time, window: Time) {
    Key(cfg, rq) == key && rq.view.path == path && from <= rq.done < from + window
  }

  /** How many requests of the session on the path that end in the interval are let through. */
  ghost function Passed(cfg: Config, st: State, run: Run, key: string, path: string, from: Time, window: Time): nat
    requires Engine.Usable(cfg.sigs) && st.Valid()
  {
    match run
    case Start => 0
    case Then(before, Restart(_)) => Passed(cfg, st, before, key, path, from, window)
    case Then(before, Asks(rq)) =>
      Passed(cfg, st, before, key, path, from, window)
      + if On(cfg, rq, key, path, from, window) && LetThrough(Serve(cfg, After(cfg, st, before), rq).1) then 1 else 0
  }

  /** How many of those leave no pageview: by LetThroughIff, those of whitelisted addresses, those
      only logged, and those whose response was cut short. */
  ghost function Unrecorded(cfg: Config, st: State, run: Run, key: string, path: string, from: Time, window: Time): nat
    requires Engine.Usable(cfg.sigs) && st.Valid()
  {
    match run
    case Start => 0
    case Then(before, Restart(_)) => Unrecorded(cfg, st, before, key, path, from, window)
    case Then(before, Asks(rq)) =>
      var a := Serve(cfg, After(cfg, st, before), rq).1;
      Unrecorded(cfg, st, before, key, path, from, window)
      + if On(cfg, rq, key, path, from, window) && LetThrough(a) && !Recorded(a) then 1 else 0
  }

  lemma {:induction false} PassedSplits(cfg: Config, st: State, run: Run, key: string, path: string, from: Time, window: Time)
    requires Engine.Usable(cfg.sigs) && st.Valid()
    ensures Passed(cfg, st, run, key, path, from, window)
         == InWindow(Pageviews(cfg, st, run, key), path, from, window) + Unrecorded(cfg, st, run, key, path, from, window)
  {
    if run.Then? {
      PassedSplits(cfg, st, run.before, key, path, from, window);
      if run.last.Asks? {
        var all, rq := Pageviews(cfg, st, run.before, key), run.last.rq;
        assert Push(all, Tracker.Hit(rq.done, rq.view.path))[..|all|] == all;
      }
    }
  }

  /** So what an endpoint rate limit lets through in an interval is at most v-1 requests and
      those that leave no pageview. */
  lemma LetThroughBound(
    cfg: Config, st: State, run: Run, key: string, path: string, r: Signature, v: int, window: Time, from: Time)
    requires Engine.Usable(cfg.sigs) && st.Valid() && key !in st.recs.items
    requires 1 <= v && 0 < window <= cfg.sessionTTL && LimitsEndpoint(r, v, window) && r in cfg.sigs
    requires Clocked(run) && Uncrowded(cfg, st, run, key)
    requires Moderate(cfg, st, run, key, window) && Ruled(cfg, run, key, path, r)
    ensures Passed(cfg, st, run, key, path, from, window)
         <= v - 1 + Unrecorded(cfg, st, run, key, path, from, window)
  {
    PassedSplits(cfg, st, run, key, path, from, window);
    EndpointRateLimit(cfg, st, run, key, path, r, v, window, from);
  }

  // ----- when requests let through are bounded -----

  predicate NoLogRule(cfg: Config, view: RequestView) {
    forall s :: s in cfg.sigs && s.action == LogOnly ==> !Engine.HttpHit(s, view, cfg.rx)
  }

  /** The guard, if it is on, does not merely log. */
  predicate GuardActs(cfg: Config) {
    cfg.protected ==> cfg.protection.anomalyAction != Some(LogOnly) && cfg.protection.rateAction != Some(LogOnly)
  }

  predicate Accountable(cfg: Config, rq: Request) {
    !cfg.whitelisted(rq.ip) && NoLogRule(cfg, rq.view) && !CopyAborts(rq)
  }

  lemma LetThroughIsRecorded(cfg: Config, st: State, rq: Request)
    requires Engine.Usable(cfg.sigs) && st.Valid() && GuardActs(cfg) && Accountable(cfg, rq)
    ensures LetThrough(Serve(cfg, st, rq).1) ==> Recorded(Serve(cfg, st, rq).1)
  {
    var best := Best(cfg, st, rq);
    LetThroughIff(cfg, st, rq);
    StrongestWins(cfg.sigs, st.recs, cfg.sessionTTL, Asking(cfg, rq), cfg.rx);
    if best.Some? {
      BestIsApplicable(best, cfg.sigs, Applicable(st.recs, cfg.sessionTTL, Asking(cfg, rq), cfg.rx));
    }
  }

  /** All requests of the session on the path are accountable. */
  ghost predicate AllAccountable(cfg: Config, run: Run, key: string, path: string) {
    run.Then? ==>
      && AllAccountable(cfg, run.before, key, path)
      && (run.last.Asks? && Key(cfg, run.last.rq) == key && run.last.rq.view.path == path ==> Accountable(cfg, run.last.rq))
  }

  lemma {:induction false} NoneUnrecorded(cfg: Config, st: State, run: Run, key: string, path: string, from: Time, window: Time)
    requires Engine.Usable(cfg.sigs) && st.Valid() && GuardActs(cfg) && AllAccountable(cfg, run, key, path)
    ensures Unrecorded(cfg, st, run, key, path, from, window) == 0
  {
    if run.Then? {
      NoneUnrecorded(cfg, st, run.before, key, path, from, window);
      if run.last.Asks? && On(cfg, run.last.rq, key, path, from, window) {
        LetThroughIsRecorded(cfg, After(cfg, st, run.before), run.last.rq);
      }
    }
  }

  /** Where no request of the session on the path is cut short, whitelisted or only logged, an
      endpoint rate limit lets at most v-1 of them through in an interval. */
  lemma AccountableBound(
    cfg: Config, st: State, run: Run, key: string, path: string, r: Signature, v: int, window: Time, from: Time)
    requires Engine.Usable(cfg.sigs) && st.Valid() && key !in st.recs.items
    requires 1 <= v && 0 < window <= cfg.sessionTTL && LimitsEndpoint(r, v, window) && r in cfg.sigs
    requires Clocked(run) && Uncrowded(cfg, st, run, key)
    requires Moderate(cfg, st, run, key, window) && Ruled(cfg, run, key, path, r)
    requires GuardActs(cfg) && AllAccountable(cfg, run, key, path)
    ensures Passed(cfg, st, run, key, path, from, window) <= v - 1
  {
    LetThroughBound(cfg, st, run, key, path, r, v, window, from);
    NoneUnrecorded(cfg, st, run, key, path, from, window);
  }

  /** The same request, `k` times. */
  ghost function Repeated(rq: Request, k: nat): Run {
    if k == 0 then Start else Then(Repeated(rq, k - 1), Asks(rq))
  }

  lemma {:induction false} RepeatedIsPlain(cfg: Config, st: State, rq: Request, k: nat)
    requires Engine.Usable(cfg.sigs) && st.Valid() && rq.at == rq.done
    ensures Clocked(Repeated(rq, k)) && (k != 0 ==> Ends(Repeated(rq, k).last) == rq.at)
    ensures Others(cfg, st, Repeated(rq, k), Key(cfg, rq)) == {} && Uncrowded(cfg, st, Repeated(rq, k), Key(cfg, rq))
  {
    if k != 0 {
      RepeatedIsPlain(cfg, st, rq, k - 1);
    }
  }

  predicate OnlyHits(hits: seq<Tracker.Hit>, h: Tracker.Hit) {
    forall i :: 0 <= i < |hits| ==> hits[i] == h
  }

  lemma OnlyHitsPush(hits: seq<Tracker.Hit>, h: Tracker.Hit)
    requires OnlyHits(hits, h)
    ensures OnlyHits(Push(hits, h), h)
  {
    PushAt(hits, h);
  }

  lemma {:induction false} RepeatedPages(cfg: Config, st: State, rq: Request, k: nat)
    requires Engine.Usable(cfg.sigs) && st.Valid()
    ensures OnlyHits(Pageviews(cfg, st, Repeated(rq, k), Key(cfg, rq)), Tracker.Hit(rq.done, rq.view.path))
  {
    if k != 0 {
      RepeatedPages(cfg, st, rq, k - 1);
      OnlyHitsPush(Pageviews(cfg, st, Repeated(rq, k - 1), Key(cfg, rq)), Tracker.Hit(rq.done, rq.view.path));
    }
  }

  lemma {:induction false} AllInWindow(hits: seq<Tracker.Hit>, path: string, now: Time, window: Time)
    requires 0 < window && OnlyHits(hits, Tracker.Hit(now, path))
    ensures Tracker.Count(hits, "", window, now) == InWindow(hits, path, now, window)
  {
    if hits != [] {
      AllInWindow(hits[..|hits| - 1], path, now, window);
    }
  }

  /** The request is under the rule, and under no challenge rule. */
  ghost predicate Limited(cfg: Config, rq: Request, r: Signature, v: int, window: Time) {
    && 0 < window <= cfg.sessionTTL && LimitsEndpoint(r, v, window) && r in cfg.sigs
    && Engine.HttpHit(r, rq.view, cfg.rx) && NoChallengeRule(cfg, rq.view)
  }

  lemma {:induction false} RepeatedIsModerate(cfg: Config, st: State, rq: Request, r: Signature, v: int, window: Time, k: nat)
    requires Engine.Usable(cfg.sigs) && st.Valid() && Key(cfg, rq) !in st.recs.items && rq.at == rq.done
    requires 1 <= v <= 65 && Limited(cfg, rq, r, v, window)
    ensures Moderate(cfg, st, Repeated(rq, k), Key(cfg, rq), window)
    ensures Ruled(cfg, Repeated(rq, k), Key(cfg, rq), rq.view.path, r)
  {
    if k != 0 {
      var before, key, path := Repeated(rq, k - 1), Key(cfg, rq), rq.view.path;
      RepeatedIsModerate(cfg, st, rq, r, v, window, k - 1);
      RepeatedIsPlain(cfg, st, rq, k - 1);
      RepeatedPages(cfg, st, rq, k - 1);
      EndpointRateLimit(cfg, st, before, key, path, r, v, window, rq.done);
      AllInWindow(Pageviews(cfg, st, before, key), path, rq.done, window);
    }
  }

  lemma {:induction false} RepeatedIsAccountable(cfg: Config, rq: Request, k: nat)
    requires Accountable(cfg, rq)
    ensures AllAccountable(cfg, Repeated(rq, k), Key(cfg, rq), rq.view.path)
  {
    if k != 0 {
      RepeatedIsAccountable(cfg, rq, k - 1);
    }
  }

  lemma AbortedChangesNothing(cfg: Config, st: State, st': State, rq: Request)
    requires Engine.Usable(cfg.sigs) && st.Valid() && Nearby(cfg, st, st', rq)
    requires Admissible(cfg, st, rq) && Best(cfg, st, rq).None? && !cfg.protected
    requires CopyAborts(rq) && !Cacheable(cfg, rq) && Reputation.Lookup(st.rep, rq.ip, rq.at).0 == st.rep
    ensures Nearby(cfg, st, Serve(cfg, st', rq).0, rq) && Serve(cfg, st', rq).1 == Backend(false)
  {
    SameBest(cfg, st, st', rq);
    SameVouched(cfg, st, st', rq);
    LetThroughIff(cfg, st', rq);
    ServeEffect(cfg, st', rq);
    FetchTwice(st.recs, cfg.sessionTTL, Key(cfg, rq), rq.at);
  }

  lemma {:induction false} AbortsStayNear(cfg: Config, st: State, rq: Request, k: nat)
    requires Engine.Usable(cfg.sigs) && st.Valid()
    requires Admissible(cfg, st, rq) && Best(cfg, st, rq).None? && !cfg.protected
    requires CopyAborts(rq) && !Cacheable(cfg, rq) && Reputation.Lookup(st.rep, rq.ip, rq.at).0 == st.rep
    ensures Nearby(cfg, st, After(cfg, st, Repeated(rq, k)), rq)
  {
    if k != 0 {
      AbortsStayNear(cfg, st, rq, k - 1);
      AbortedChangesNothing(cfg, st, After(cfg, st, Repeated(rq, k - 1)), rq);
    }
  }

  lemma OneMorePassed(cfg: Config, st: State, rq: Request, window: Time, k: nat)
    requires Engine.Usable(cfg.sigs) && st.Valid() && 0 < window && ForwardedAt(cfg, st, rq, k)
    ensures PassedBy(cfg, st, rq, window, k + 1) == PassedBy(cfg, st, rq, window, k) + 1
    ensures PagesBy(cfg, st, rq, k + 1) == PagesBy(cfg, st, rq, k)
  {
  }

  ghost function PassedBy(cfg: Config, st: State, rq: Request, window: Time, k: nat): nat
    requires Engine.Usable(cfg.sigs) && st.Valid()
  {
    Passed(cfg, st, Repeated(rq, k), Key(cfg, rq), rq.view.path, rq.done, window)
  }

  ghost function PagesBy(cfg: Config, st: State, rq: Request, k: nat): seq<Tracker.Hit>
    requires Engine.Usable(cfg.sigs) && st.Valid()
  {
    Pageviews(cfg, st, Repeated(rq, k), Key(cfg, rq))
  }

  lemma AbortedAgain(cfg: Config, st: State, rq: Request, k: nat)
    requires Engine.Usable(cfg.sigs) && st.Valid()
    requires Admissible(cfg, st, rq) && Best(cfg, st, rq).None? && !cfg.protected
    requires CopyAborts(rq) && !Cacheable(cfg, rq) && Reputation.Lookup(st.rep, rq.ip, rq.at).0 == st.rep
    ensures ForwardedAt(cfg, st, rq, k)
  {
    AbortsStayNear(cfg, st, rq, k);
    AbortedChangesNothing(cfg, st, After(cfg, st, Repeated(rq, k)), rq);
  }

  /** A count that each step raises, and a record that no step changes. */
  lemma {:induction false} CountsUp<T(!new)>(count: nat -> nat, record: nat -> T, k: nat)
    requires count(0) == 0 && forall j: nat :: j < k ==> Rises(count, record, j)
    ensures count(k) == k && record(k) == record(0)
  {
    if k != 0 {
      CountsUp(count, record, k - 1);
      assert Rises(count, record, k - 1);
    }
  }

  ghost predicate Rises<T(!new)>(count: nat -> nat, record: nat -> T, j: nat) {
    count(j + 1) == count(j) + 1 && record(j + 1) == record(j)
  }

  lemma AbortsRepeat(cfg: Config, st: State, rq: Request, window: Time, k: nat)
    requires Engine.Usable(cfg.sigs) && st.Valid() && 0 < window
    requires forall j: nat :: j < k ==> ForwardedAt(cfg, st, rq, j)
    ensures PassedBy(cfg, st, rq, window, k) == k && PagesBy(cfg, st, rq, k) == []
  {
    var count, record := (j: nat) => PassedBy(cfg, st, rq, window, j), (j: nat) => PagesBy(cfg, st, rq, j);
    forall j: nat | j < k ensures Rises(count, record, j) {
      OneMorePassed(cfg, st, rq, window, j);
    }
    CountsUp(count, record, k);
  }

  ghost predicate ForwardedAt(cfg: Config, st: State, rq: Request, k: nat)
    requires Engine.Usable(cfg.sigs) && st.Valid()
  {
    Serve(cfg, After(cfg, st, Repeated(rq, k)), rq).1 == Backend(false)
  }

  /** The address and session of the request, its view and its path get it to the backend, and
      nothing but the rate limit stands in its way. */
  ghost predicate Unhindered(cfg: Config, st: State, rq: Request)
    requires Engine.Usable(cfg.sigs) && st.Valid()
  {
    && Admissible(cfg, st, rq) && Best(cfg, st, rq).None? && !cfg.protected && NoLogRule(cfg, rq.view)
    && !Cacheable(cfg, rq) && (rq.ip in st.rep.mem ==> !Over(st.rep.mem[rq.ip], rq.at))
  }

  /** A request whose response is cut short, repeated at one instant, is let through any number
      of times and never recorded. */
  lemma AbortedEscapes(cfg: Config, st: State, rq: Request, window: Time, k: nat)
    requires Engine.Usable(cfg.sigs) && st.Valid() && 0 < window && rq.at == rq.done
    requires Unhindered(cfg, st, rq) && CopyAborts(rq)
    ensures Clocked(Repeated(rq, k)) && Pageviews(cfg, st, Repeated(rq, k), Key(cfg, rq)) == []
    ensures Passed(cfg, st, Repeated(rq, k), Key(cfg, rq), rq.view.path, rq.done, window) == k
  {
    RepeatedIsPlain(cfg, st, rq, k);
    forall j: nat | j < k ensures ForwardedAt(cfg, st, rq, j) {
      AbortedAgain(cfg, st, rq, j);
    }
    AbortsRepeat(cfg, st, rq, window, k);
  }

  lemma WholeIsBounded(cfg: Config, st: State, rq: Request, r: Signature, v: int, window: Time, k: nat)
    requires Engine.Usable(cfg.sigs) && st.Valid() && Key(cfg, rq) !in st.recs.items && rq.at == rq.done
    requires 1 <= v <= 65 && Limited(cfg, rq, r, v, window) && GuardActs(cfg) && Accountable(cfg, rq)
    ensures Passed(cfg, st, Repeated(rq, k), Key(cfg, rq), rq.view.path, rq.done, window) <= v - 1
  {
    RepeatedIsPlain(cfg, st, rq, k);
    RepeatedIsModerate(cfg, st, rq, r, v, window, k);
    RepeatedIsAccountable(cfg, rq, k);
    AccountableBound(cfg, st, Repeated(rq, k), Key(cfg, rq), rq.view.path, r, v, window, rq.done);
  }

  /** An endpoint rate limit bounds how often an otherwise unhindered request, repeated at one
      instant by a new session, is let through exactly when its response is not cut short. */
  lemma ForwardsBoundedIff(cfg: Config, st: State, rq: Request, r: Signature, v: int, window: Time)
    requires Engine.Usable(cfg.sigs) && st.Valid() && Key(cfg, rq) !in st.recs.items && rq.at == rq.done
    requires 2 <= v <= 65 && Limited(cfg, rq, r, v, window) && Unhindered(cfg, st, rq)
    ensures (forall k: nat :: Passed(cfg, st, Repeated(rq, k), Key(cfg, rq), rq.view.path, rq.done, window) <= v - 1)
       <==> !CopyAborts(rq)
  {
    if CopyAborts(rq) {
      AbortedEscapes(cfg, st, rq, window, v);
    } else {
      forall k: nat ensures Passed(cfg, st, Repeated(rq, k), Key(cfg, rq), rq.view.path, rq.done, window) <= v - 1 {
        WholeIsBounded(cfg, st, rq, r, v, window, k);
      }
    }
  }
}
