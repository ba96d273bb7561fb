/** Exactly which requests the pipeline lets through, said of the state they meet. */
module AdmissionTheory {
  import opened Prelude
  import opened Pipeline
  import opened PipelineTheory
  import opened VisitorTheory
  import opened Signature
  import opened ContentCache
  import opened EngineTheory
  import Challenge
  import Engine
  import Guard
  import Lru
  import Reputation
  import Tracker

  /** The address and the session get the request as far as inspection. */
  ghost predicate Admissible(cfg: Config, st: State, rq: Request) {
    var standing := Reputation.Lookup(st.rep, rq.ip, rq.at).1;
    && !Listed(cfg, rq) && rq.view.path != Challenge.VERIFY_PATH
    && (standing == Reputation.Clean
        || (standing == Reputation.Greylisted && (cfg.challengeEnabled ==> Vouched(cfg, st, rq))))
  }

  /** What the guard decides: an anomaly first, then a request over budget; a challenge and 403
      unless an action and a code are set. */
  ghost function Guarded(cfg: Config, st: State, rq: Request): Option<(Action, int)>
    requires st.Valid()
  {
    var opt := cfg.protection;
    if !cfg.protected then None
    else if opt.anomalyEnabled && rq.score >= opt.threshold
    then Some((if opt.anomalyAction.Some? then opt.anomalyAction.value else Challenge,
               if opt.anomalyCode == 0 then 403 else opt.anomalyCode))
    else if opt.rateEnabled && !Guard.Charge(opt.rate, st.levels, rq.ip, rq.view.path, rq.at).1
    then Some((if opt.rateAction.Some? then opt.rateAction.value else Challenge,
               if opt.rateCode == 0 then 403 else opt.rateCode))
    else None
  }

  /** The action and the code of the strongest matching rule, or else the guard's. */
  ghost function Decision(cfg: Config, st: State, rq: Request): Option<(Action, int)>
    requires Engine.Usable(cfg.sigs) && st.Valid()
  {
    var best := Best(cfg, st, rq);
    if best.Some? then Some((best.value.action, best.value.respCode)) else Guarded(cfg, st, rq)
  }

  ghost function Decided(cfg: Config, st: State, rq: Request): Option<Action>
    requires Engine.Usable(cfg.sigs) && st.Valid()
  {
    ActionOf(Decision(cfg, st, rq))
  }

  ghost function ActionOf(d: Option<(Action, int)>): Option<Action> {
    if d.Some? then Some(d.value.0) else None
  }

  lemma GuardDecides(cfg: Config, st: State, rq: Request)
    requires st.Valid() && cfg.protected
    ensures var dec := Guard.Assessed(cfg.protection, st.levels, rq.ip, rq.view.path, rq.score, rq.at).1;
      Guarded(cfg, st, rq) == if dec.Some? then Some((dec.value.action, dec.value.respCode)) else None
  {
  }

  lemma SameFirstStrongest(
    a: Option<Signature>, b: Option<Signature>, sigs: seq<Signature>, applies: Signature -> bool, applies': Signature -> bool)
    requires forall s :: applies(s) == applies'(s)
    requires FirstStrongest(a, sigs, |sigs|, applies) && FirstStrongest(b, sigs, |sigs|, applies')
    ensures a == b
  {
    if a.Some? && b.Some? {
      var v :| 0 <= v < |sigs| && sigs[v] == a.value && FirstStrongestAt(v, sigs, |sigs|, applies);
      var w :| 0 <= w < |sigs| && sigs[w] == b.value && FirstStrongestAt(w, sigs, |sigs|, applies');
      assert applies(sigs[v]) == applies'(sigs[v]) && applies(sigs[w]) == applies'(sigs[w]);
    }
  }

  /** Fetching the session first does not change what the engine decides. */
  lemma SameBest(cfg: Config, st: State, st': State, rq: Request)
    requires Engine.Usable(cfg.sigs) && st.Valid() && Nearby(cfg, st, st', rq)
    ensures Best(cfg, st, rq) == Best(cfg, st', rq)
  {
    var q := Asking(cfg, rq);
    StrongestWins(cfg.sigs, st.recs, cfg.sessionTTL, q, cfg.rx);
    StrongestWins(cfg.sigs, st'.recs, cfg.sessionTTL, q, cfg.rx);
    forall s ensures Applicable(st.recs, cfg.sessionTTL, q, cfg.rx)(s) == Applicable(st'.recs, cfg.sessionTTL, q, cfg.rx)(s) {
      SameMatches(cfg, st, st', rq, s);
    }
    SameFirstStrongest(Best(cfg, st, rq), Best(cfg, st', rq), cfg.sigs,
                       Applicable(st.recs, cfg.sessionTTL, q, cfg.rx), Applicable(st'.recs, cfg.sessionTTL, q, cfg.rx));
  }

  /** Whether the session passed does not depend on an earlier fetch in the same request. */
  lemma SameVouched(cfg: Config, st: State, st': State, rq: Request)
    requires st.Valid() && Nearby(cfg, st, st', rq)
    ensures Vouched(cfg, st, rq) == Vouched(cfg, st', rq)
  {
    Lru.TouchValid(st.recs, Key(cfg, rq));
  }

  lemma PassedMeansVouched(cfg: Config, st: State, rq: Request)
    requires st.Valid()
    ensures Tracker.Passed(st.recs, cfg.sessionTTL, Key(cfg, rq), rq.at).1 == Vouched(cfg, st, rq)
  {
  }

  ghost predicate LetThrough(a: Answer) {
    a.Backend? || a.Hit?
  }

  /** What a decision does to the reputation of the address. */
  ghost function Punished(cfg: Config, rep: Reputation.Store, action: Option<Action>, vouched: bool, rq: Request): Reputation.Store {
    if action.None? || action.value == LogOnly || (action.value == Challenge && vouched) then rep
    else if action.value == Ban then Reputation.Force(cfg.reputation, rep, rq.ip, Reputation.Blocked, rq.at).0
    else Reputation.RegisterViolation(cfg.reputation, rep, rq.ip, rq.at).0
  }

  /** The cache holds a live answer to the request. */
  ghost predicate Cached(cfg: Config, st: State, rq: Request)
    requires st.Valid()
  {
    Cacheable(cfg, rq) && Get(st.contents, rq.cacheKey, rq.at).1.Some?
  }

  /** The response was copied to its end, to a client that was still there; or the backend was
      unreachable. */
  predicate Finishes(rq: Request) {
    rq.reply.Some? ==>
      var reply := rq.reply.value;
      !reply.clientGone && |reply.body| > 0 && reply.body[|reply.body| - 1].1.Eof?
  }

  /** What an answer says about the decision that led to it. */
  ghost predicate Enforces(cfg: Config, st: State, rq: Request, a: Answer, decision: Option<(Action, int)>)
    requires st.Valid()
  {
    var action, vouched := ActionOf(decision), Vouched(cfg, st, rq);
    && (LetThrough(a) <==> action.None? || action.value == LogOnly || (action.value == Challenge && vouched))
    && (Recorded(a) <==>
          || (action.None? && (Cached(cfg, st, rq) || Finishes(rq)))
          || (action == Some(Challenge) && vouched && Finishes(rq)))
    && (a.Hit? <==> action.None? && Cached(cfg, st, rq))
    && (a.ChallengePage? <==> action == Some(Challenge) && !vouched)
    && (action == Some(RateLimit) ==> a == Refused(429))
    && (action.Some? && (action.value.Block? || action.value.Ban? || action.value.Unknown?) ==> a == Refused(decision.value.1))
  }

  lemma ApplyEnforces(cfg: Config, st: State, rq: Request, action: Action, code: int)
    requires st.Valid()
    ensures Enforces(cfg, st, rq, Apply(cfg, st, rq, action, code).1, Some((action, code)))
    ensures Apply(cfg, st, rq, action, code).0.rep == Punished(cfg, st.rep, Some(action), Vouched(cfg, st, rq), rq)
  {
    PassedMeansVouched(cfg, st, rq);
  }

  lemma ProtectEnforces(cfg: Config, st: State, rq: Request)
    requires st.Valid()
    ensures Enforces(cfg, st, rq, Protect(cfg, st, rq).1, Guarded(cfg, st, rq))
    ensures Protect(cfg, st, rq).0.rep == Punished(cfg, st.rep, ActionOf(Guarded(cfg, st, rq)), Vouched(cfg, st, rq), rq)
  {
    if cfg.protected {
      GuardDecides(cfg, st, rq);
      var (levels, dec) := Guard.Assessed(cfg.protection, st.levels, rq.ip, rq.view.path, rq.score, rq.at);
      if dec.Some? {
        ApplyEnforces(cfg, st.(levels := levels), rq, dec.value.action, dec.value.respCode);
      }
    }
  }

  lemma InspectEnforces(cfg: Config, st: State, rq: Request)
    requires Engine.Usable(cfg.sigs) && st.Valid()
    ensures Enforces(cfg, st, rq, Inspect(cfg, st, rq).1, Decision(cfg, st, rq))
    ensures Inspect(cfg, st, rq).0.rep == Punished(cfg, st.rep, Decided(cfg, st, rq), Vouched(cfg, st, rq), rq)
  {
    var st', best := Inspected(cfg, st, rq), Best(cfg, st, rq);
    InspectedIsNearby(cfg, st, st, rq);
    SameVouched(cfg, st, st', rq);
    if best.Some? {
      ApplyEnforces(cfg, st', rq, best.value.action, best.value.respCode);
    } else {
      ProtectEnforces(cfg, st', rq);
    }
  }

  /** The same, of the state before the session was asked about. */
  lemma AskedEnforces(cfg: Config, st: State, st': State, rq: Request)
    requires Engine.Usable(cfg.sigs) && st.Valid() && Nearby(cfg, st, st', rq)
    requires st'.levels == st.levels && st'.contents == st.contents
    ensures Enforces(cfg, st, rq, Inspect(cfg, st', rq).1, Decision(cfg, st, rq))
    ensures Inspect(cfg, st', rq).0.rep == Punished(cfg, st.rep, Decided(cfg, st, rq), Vouched(cfg, st, rq), rq)
  {
    SameBest(cfg, st, st', rq);
    SameVouched(cfg, st, st', rq);
    InspectEnforces(cfg, st', rq);
  }

  lemma RouteEnforces(cfg: Config, st: State, rq: Request, standing: Reputation.State)
    requires Engine.Usable(cfg.sigs) && st.Valid()
    ensures var (st', a) := Route(cfg, st, rq, standing);
      if standing == Reputation.Blocked || rq.view.path == Challenge.VERIFY_PATH
         || (standing == Reputation.Greylisted && cfg.challengeEnabled && !Vouched(cfg, st, rq))
      then !LetThrough(a)
      else
        && Enforces(cfg, st, rq, a, Decision(cfg, st, rq))
        && st'.rep == Punished(cfg, st.rep, Decided(cfg, st, rq), Vouched(cfg, st, rq), rq)
  {
    var asked := st.(recs := Tracker.Passed(st.recs, cfg.sessionTTL, Key(cfg, rq), rq.at).0);
    PassedMeansVouched(cfg, st, rq);
    PassedIsNearby(cfg, st, st, rq);
    AskedEnforces(cfg, st, asked, rq);
    InspectEnforces(cfg, st, rq);
  }

  /** Exactly which requests reach the backend or the cache, and which of them are recorded as
      pageviews: those of whitelisted addresses, never recorded; and those whose address and
      session get as far as inspection, if nothing is decided against them, or only a log-only
      action (not recorded), or only a challenge and the session passed one. A forwarded request
      whose response is cut short is not recorded either. */
  lemma LetThroughIff(cfg: Config, st: State, rq: Request)
    requires Engine.Usable(cfg.sigs) && st.Valid()
    ensures var a, action := Serve(cfg, st, rq).1, Decided(cfg, st, rq);
      && (LetThrough(a) <==>
            || cfg.whitelisted(rq.ip)
            || (Admissible(cfg, st, rq)
                && (action.None? || action.value == LogOnly || (action.value == Challenge && Vouched(cfg, st, rq)))))
      && (Recorded(a) <==>
            && Admissible(cfg, st, rq)
            && ((action.None? && (Cached(cfg, st, rq) || Finishes(rq)))
                || (action == Some(Challenge) && Vouched(cfg, st, rq) && Finishes(rq))))
  {
    var (rep, standing) := Reputation.Lookup(st.rep, rq.ip, rq.at);
    RouteEnforces(cfg, st.(rep := rep), rq, standing);
  }

  /** How a request that does not get as far as inspection is answered: 403 for a blocked address,
      a redirect for a solved challenge, and otherwise a fresh challenge. */
  lemma TurnedAway(cfg: Config, st: State, rq: Request)
    requires Engine.Usable(cfg.sigs) && st.Valid() && !Listed(cfg, rq) && !Admissible(cfg, st, rq)
    ensures var a := Serve(cfg, st, rq).1;
      if Reputation.Lookup(st.rep, rq.ip, rq.at).1 == Reputation.Blocked then a == Refused(403)
      else if rq.view.path == Challenge.VERIFY_PATH && Solved(cfg, rq) then a.Redirect?
      else a == Page(cfg, rq)
  {
    var st' := st.(rep := Reputation.Lookup(st.rep, rq.ip, rq.at).0);
    PassedMeansVouched(cfg, st', rq);
  }

  /** What a request that gets as far as inspection costs its address: nothing if it is let
      through, a block for a ban, and otherwise a violation; and how it is answered, with the
      code of the decision for a block or a ban. */
  lemma PunishedAsDecided(cfg: Config, st: State, rq: Request)
    requires Engine.Usable(cfg.sigs) && st.Valid() && Admissible(cfg, st, rq)
    ensures var (st', a) := Serve(cfg, st, rq);
      && st'.rep == Punished(cfg, Reputation.Lookup(st.rep, rq.ip, rq.at).0, Decided(cfg, st, rq), Vouched(cfg, st, rq), rq)
      && Enforces(cfg, st, rq, a, Decision(cfg, st, rq))
  {
    var (rep, standing) := Reputation.Lookup(st.rep, rq.ip, rq.at);
    RouteEnforces(cfg, st.(rep := rep), rq, standing);
  }

  /** What a lone template decides: its action, or else a block, or only a log entry if it asks
      about the session; with its code, or else 403. */
  lemma LoneTemplateDecides(cfg: Config, st: State, rq: Request, t: Template)
    requires Engine.Usable(cfg.sigs) && st.Valid() && cfg.sigs == [SignatureOf(t)]
    ensures var seen := Tracker.Fetch(st.recs, cfg.sessionTTL, Key(cfg, rq), rq.at).1;
      var applies := TemplateReads(t, rq.view, cfg.rx)
                  && (t.session.Some? ==> Tracker.Fires(t.session.value, seen, rq.view.path, rq.at));
      var action := if t.action.Some? then t.action.value else if t.session.Some? then LogOnly else Block;
      Decision(cfg, st, rq) ==
        if applies then Some((action, if t.respCode == 0 then 403 else t.respCode)) else Guarded(cfg, st, rq)
  {
    var sig, best := SignatureOf(t), Best(cfg, st, rq);
    var applies := Applicable(st.recs, cfg.sessionTTL, Asking(cfg, rq), cfg.rx);
    TemplateMeaning(t, rq.view, cfg.rx);
    StrongestWins(cfg.sigs, st.recs, cfg.sessionTTL, Asking(cfg, rq), cfg.rx);
    assert cfg.sigs[0] == sig && sig.session == t.session;
    if best.Some? {
      BestIsApplicable(best, cfg.sigs, applies);
    }
  }

  /** A rule that only logs shields the request from the guard: it is forwarded whatever its
      score and its budget, the budget is not charged, and no pageview is recorded. */
  lemma LogOnlyShields(cfg: Config, st: State, rq: Request)
    requires Engine.Usable(cfg.sigs) && st.Valid() && Admissible(cfg, st, rq)
    requires Best(cfg, st, rq).Some? && Best(cfg, st, rq).value.action == LogOnly
    ensures var (st', a) := Serve(cfg, st, rq);
      && a == Backend(false) && st'.levels == st.levels && st'.contents == st.contents
      && MayFetch(st.recs, st'.recs, cfg.sessionTTL, Asking(cfg, rq))
  {
    var st' := st.(rep := Reputation.Lookup(st.rep, rq.ip, rq.at).0);
    var asked := st'.(recs := Tracker.Passed(st'.recs, cfg.sessionTTL, Key(cfg, rq), rq.at).0);
    PassedMeansVouched(cfg, st', rq);
    PassedIsNearby(cfg, st', st', rq);
    SameBest(cfg, st', asked, rq);
    InspectedIsNearby(cfg, st', st', rq);
    InspectedIsNearby(cfg, st', asked, rq);
  }
}
