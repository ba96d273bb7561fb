/** The flood governor inside the pipeline: which requests it sees, and what it lets pass. */
module FloodTheory {
  import opened Prelude
  import opened Pipeline
  import opened PipelineTheory
  import opened VisitorTheory
  import opened AdmissionTheory
  import opened Signature
  import Engine
  import GT = GuardTheory
  import Guard
  import Reputation
  import Tracker

  /** The request gets as far as the governor: inspection is reached, no rule matches, and the
      anomaly check does not decide. */
  ghost predicate Governed(cfg: Config, st: State, rq: Request)
    requires Engine.Usable(cfg.sigs) && st.Valid()
  {
    && Admissible(cfg, st, rq) && Best(cfg, st, rq).None?
    && cfg.protected && cfg.protection.rateEnabled
    && !(cfg.protection.anomalyEnabled && rq.score >= cfg.protection.threshold)
  }

  ghost function CallOf(rq: Request): GT.Call {
    GT.Call(rq.ip, rq.view.path, rq.at)
  }

  /** The governor's calls since the last restart. */
  ghost function Calls(cfg: Config, st: State, run: Run): seq<GT.Call>
    requires Engine.Usable(cfg.sigs) && st.Valid()
  {
    match run
    case Start => []
    case Then(before, Restart(_)) => []
    case Then(before, Asks(rq)) =>
      if Governed(cfg, After(cfg, st, before), rq) then Push(Calls(cfg, st, before), CallOf(rq)) else Calls(cfg, st, before)
  }

  // ----- one request and the levels -----

  ghost function Charged(cfg: Config, st: State, rq: Request): (levels: Guard.Levels)
    requires Engine.Usable(cfg.sigs) && st.Valid()
  {
    if Governed(cfg, st, rq)
    then Guard.Charge(cfg.protection.rate, st.levels, rq.ip, rq.view.path, rq.at).0
    else st.levels
  }

  lemma ProtectCharges(cfg: Config, st: State, rq: Request)
    requires st.Valid()
    ensures Protect(cfg, st, rq).0.levels
         == if cfg.protected then Guard.Assessed(cfg.protection, st.levels, rq.ip, rq.view.path, rq.score, rq.at).0 else st.levels
  {
  }

  lemma InspectCharges(cfg: Config, st: State, rq: Request)
    requires Engine.Usable(cfg.sigs) && st.Valid()
    ensures Inspect(cfg, st, rq).0.levels
         == if Best(cfg, st, rq).None? && cfg.protected
            then Guard.Assessed(cfg.protection, st.levels, rq.ip, rq.view.path, rq.score, rq.at).0 else st.levels
  {
    if Best(cfg, st, rq).None? {
      ProtectCharges(cfg, Inspected(cfg, st, rq), rq);
    }
  }

  lemma RouteCharges(cfg: Config, st: State, rq: Request, standing: Reputation.State)
    requires Engine.Usable(cfg.sigs) && st.Valid()
    requires !Listed(cfg, rq) && standing == Reputation.Lookup(st.rep, rq.ip, rq.at).1
    ensures Route(cfg, st, rq, standing).0.levels == Charged(cfg, st, rq)
  {
    var asked := st.(recs := Tracker.Passed(st.recs, cfg.sessionTTL, Key(cfg, rq), rq.at).0);
    PassedMeansVouched(cfg, st, rq);
    PassedIsNearby(cfg, st, st, rq);
    SameBest(cfg, st, asked, rq);
    InspectCharges(cfg, st, rq);
    InspectCharges(cfg, asked, rq);
  }

  lemma LookupTwice(rep: Reputation.Store, ip: string, now: Time)
    ensures Reputation.Lookup(Reputation.Lookup(rep, ip, now).0, ip, now) == Reputation.Lookup(rep, ip, now)
  {
  }

  /** A request is charged exactly when it gets as far as the governor. */
  lemma ServeCharges(cfg: Config, st: State, rq: Request)
    requires Engine.Usable(cfg.sigs) && st.Valid()
    ensures Serve(cfg, st, rq).0.levels == Charged(cfg, st, rq)
  {
    if !Listed(cfg, rq) {
      var (rep, standing) := Reputation.Lookup(st.rep, rq.ip, rq.at);
      LookupTwice(st.rep, rq.ip, rq.at);
      RouteCharges(cfg, st.(rep := rep), rq, standing);
    }
  }

  // ----- runs -----

  lemma {:induction false} PrefixDecides(opt: Guard.RateOptions, start: Guard.Levels, a: seq<GT.Call>, b: seq<GT.Call>, n: nat)
    requires start.Valid() && n <= |a| && n <= |b| && a[..n] == b[..n]
    ensures GT.After(opt, start, a, n) == GT.After(opt, start, b, n)
  {
    if n != 0 {
      assert a[n - 1] == a[..n][n - 1] == b[..n][n - 1] == b[n - 1];
      assert a[..n - 1] == a[..n][..n - 1] == b[..n][..n - 1] == b[..n - 1];
      PrefixDecides(opt, start, a, b, n - 1);
    }
  }

  lemma OneMoreCall(opt: Guard.RateOptions, start: Guard.Levels, calls: seq<GT.Call>, c: GT.Call)
    requires start.Valid()
    ensures GT.After(opt, start, Push(calls, c), |calls| + 1)
         == Guard.Charge(opt, GT.After(opt, start, calls, |calls|), c.ip, c.path, c.now).0
    ensures GT.Verdict(opt, start, Push(calls, c), |calls|)
         == Guard.Charge(opt, GT.After(opt, start, calls, |calls|), c.ip, c.path, c.now).1
  {
    assert Push(calls, c)[..|calls|] == calls[..|calls|];
    PrefixDecides(opt, start, Push(calls, c), calls, |calls|);
  }

  /** The levels those calls started from. */
  ghost function Began(cfg: Config, st: State, run: Run): (levels: Guard.Levels)
    requires Engine.Usable(cfg.sigs) && st.Valid()
    ensures levels.Valid() && levels.cap == st.levels.cap
  {
    match run
    case Start => st.levels
    case Then(before, Restart(_)) => GT.EmptyGuard(st.levels.cap)
    case Then(before, Asks(_)) => Began(cfg, st, before)
  }

  /** The governor's levels at any point of a run are those of its calls alone. */
  lemma {:induction false} LevelsFollowCalls(cfg: Config, st: State, run: Run)
    requires Engine.Usable(cfg.sigs) && st.Valid()
    ensures var calls := Calls(cfg, st, run);
      After(cfg, st, run).levels == GT.After(cfg.protection.rate, Began(cfg, st, run), calls, |calls|)
  {
    if run.Then? {
      LevelsFollowCalls(cfg, st, run.before);
      var before := After(cfg, st, run.before);
      if run.last.Asks? {
        ServeCharges(cfg, before, run.last.rq);
        OneMoreCall(cfg.protection.rate, Began(cfg, st, run), Calls(cfg, st, run.before), CallOf(run.last.rq));
      } else {
        LevelsCap(cfg, st, run.before);
      }
    }
  }

  lemma LevelsCap(cfg: Config, st: State, run: Run)
    requires Engine.Usable(cfg.sigs) && st.Valid()
    requires var calls := Calls(cfg, st, run);
      After(cfg, st, run).levels == GT.After(cfg.protection.rate, Began(cfg, st, run), calls, |calls|)
    ensures After(cfg, st, run).levels.cap == st.levels.cap
  {
  }

  /** At any point of any run, a request that gets as far as the governor passes it exactly
      when its cost fits, counted from every governed call of its address since its bucket was
      created (and from itself), in the burst plus the refill since, less what was admitted
      since. The run begins in any state in which the address has no bucket, as after an
      eviction; and fewer other addresses than the guard has buckets call in between. */
  lemma PipelineExactAdmission(cfg: Config, st: State, run: Run, rq: Request)
    requires Engine.Usable(cfg.sigs) && st.Valid() && 0 < cfg.protection.rate.burst
    requires Governed(cfg, After(cfg, st, run), rq)
    requires GT.Unevicted(Began(cfg, st, run), Push(Calls(cfg, st, run), CallOf(rq)), rq.ip)
    ensures var calls, n := Push(Calls(cfg, st, run), CallOf(rq)), |Calls(cfg, st, run)|;
      var opt, start := cfg.protection.rate, Began(cfg, st, run);
      Decided(cfg, After(cfg, st, run), rq).None? <==>
      forall i :: 0 <= i <= n && GT.Own(calls, rq.ip, i) ==>
        Guard.Cost(opt, rq.view.path) <= GT.Slack(opt, start, calls, rq.ip, i, n, GT.Clock(calls, rq.ip, n))
  {
    var calls, n := Push(Calls(cfg, st, run), CallOf(rq)), |Calls(cfg, st, run)|;
    LevelsFollowCalls(cfg, st, run);
    OneMoreCall(cfg.protection.rate, Began(cfg, st, run), Calls(cfg, st, run), CallOf(rq));
    assert calls[n] == CallOf(rq);
    GT.ExactAdmission(cfg.protection.rate, Began(cfg, st, run), calls, n);
  }
}
