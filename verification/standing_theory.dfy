/** The reputation of an address over whole runs of the pipeline, with restarts: the calls its
    requests make, and when they block it. */
module StandingTheory {
  import opened Prelude
  import opened Pipeline
  import opened PipelineTheory
  import opened VisitorTheory
  import opened AdmissionTheory
  import opened Signature
  import Challenge
  import Engine
  import RT = ReputationTheory
  import Reputation

  /** What a request costs or earns its address beyond the lookup. */
  ghost function Costs(cfg: Config, st: State, rq: Request): Option<RT.Op>
    requires Engine.Usable(cfg.sigs) && st.Valid()
  {
    var standing := Reputation.Lookup(st.rep, rq.ip, rq.at).1;
    var action := Decided(cfg, st, rq);
    if !Listed(cfg, rq) && standing != Reputation.Blocked && rq.view.path == Challenge.VERIFY_PATH && Solved(cfg, rq)
    then Some(RT.Forgive)
    else if !Admissible(cfg, st, rq) || action.None? || action.value == LogOnly then None
    else if action.value == Challenge && Vouched(cfg, st, rq) then None
    else if action.value == Ban then Some(RT.Ban)
    else Some(RT.Violation)
  }

  ghost function Paid(cfg: Config, rep: Reputation.Store, op: Option<RT.Op>, rq: Request): Reputation.Store {
    if op.None? then rep else RT.Step(cfg.reputation, rep, RT.Act(op.value, rq.ip, rq.at)).0
  }

  lemma UnsolvedOrTurnedAway(cfg: Config, st: State, rq: Request)
    requires Engine.Usable(cfg.sigs) && st.Valid() && !Listed(cfg, rq) && !Admissible(cfg, st, rq)
    ensures var (rep, standing) := Reputation.Lookup(st.rep, rq.ip, rq.at);
      Serve(cfg, st, rq).0.rep ==
        if standing != Reputation.Blocked && rq.view.path == Challenge.VERIFY_PATH && Solved(cfg, rq)
        then Reputation.Force(cfg.reputation, rep, rq.ip, Reputation.Clean, rq.at).0 else rep
  {
    var st' := st.(rep := Reputation.Lookup(st.rep, rq.ip, rq.at).0);
    PassedMeansVouched(cfg, st', rq);
  }

  /** The address of a request is looked up and then charged what the request costs, nothing
      else. */
  lemma ServeCosts(cfg: Config, st: State, rq: Request)
    requires Engine.Usable(cfg.sigs) && st.Valid()
    ensures Serve(cfg, st, rq).0.rep ==
      if Listed(cfg, rq) then st.rep
      else Paid(cfg, Reputation.Lookup(st.rep, rq.ip, rq.at).0, Costs(cfg, st, rq), rq)
  {
    if !Listed(cfg, rq) {
      if Admissible(cfg, st, rq) {
        PunishedAsDecided(cfg, st, rq);
      } else {
        UnsolvedOrTurnedAway(cfg, st, rq);
      }
    }
  }

  // ----- the calls of a run -----

  ghost function CallsFor(cfg: Config, st: State, rq: Request, before: RT.Run): RT.Run
    requires Engine.Usable(cfg.sigs) && st.Valid()
  {
    if Listed(cfg, rq) then before
    else
      var looked, op := RT.Then(before, RT.Look(rq.ip, rq.at)), Costs(cfg, st, rq);
      if op.None? then looked else RT.Then(looked, RT.Act(op.value, rq.ip, rq.at))
  }

  /** The calls of the reputation manager that a run makes. */
  ghost function CallsOf(cfg: Config, st: State, run: Run): RT.Run
    requires Engine.Usable(cfg.sigs) && st.Valid()
  {
    match run
    case Start => RT.Start
    case Then(before, Restart(now)) => RT.Then(CallsOf(cfg, st, before), RT.Restart(now))
    case Then(before, Asks(rq)) => CallsFor(cfg, After(cfg, st, before), rq, CallsOf(cfg, st, before))
  }

  /** The calls are disciplined and lead to this store. */
  ghost predicate Drives(cfg: Config, calls: RT.Run, rep: Reputation.Store, now: Time) {
    && RT.Disciplined(calls) && RT.After(cfg.reputation, calls) == rep
    && (calls.Then? ==> calls.last.now <= now)
  }

  lemma RequestDrives(cfg: Config, st: State, rq: Request, calls: RT.Run)
    requires Engine.Usable(cfg.sigs) && st.Valid() && rq.at <= rq.done && Drives(cfg, calls, st.rep, rq.at)
    ensures Drives(cfg, CallsFor(cfg, st, rq, calls), Serve(cfg, st, rq).0.rep, rq.done)
  {
    ServeCosts(cfg, st, rq);
  }

  ghost predicate NoReputations(st: State) {
    st.rep == Reputation.Store(map[], map[])
  }

  /** The calls of every run from an empty store, restarts included, are as the reputation
      manager's own theorems assume: the clock does not go back, and every action follows a
      lookup of its address at the same reading. So crashes are invisible to it. */
  lemma {:induction false} PipelineIsDisciplined(cfg: Config, st: State, run: Run, now: Time)
    requires Engine.Usable(cfg.sigs) && st.Valid() && NoReputations(st)
    requires Clocked(run) && (run.Then? ==> Ends(run.last) <= now)
    ensures Drives(cfg, CallsOf(cfg, st, run), After(cfg, st, run).rep, now)
  {
    if run.Then? {
      PipelineIsDisciplined(cfg, st, run.before, Arrives(run.last));
      if run.last.Asks? {
        RequestDrives(cfg, After(cfg, st, run.before), run.last.rq, CallsOf(cfg, st, run.before));
      }
    }
  }

  /** At every point of such a run memory and the durable copy agree, up to expired leftovers. */
  lemma PipelineIsCoherent(cfg: Config, st: State, run: Run, now: Time)
    requires Engine.Usable(cfg.sigs) && st.Valid() && NoReputations(st)
    requires Clocked(run) && (run.Then? ==> Ends(run.last) <= now)
    ensures RT.Coherent(After(cfg, st, run).rep, now)
  {
    PipelineIsDisciplined(cfg, st, run, now);
    var calls := CallsOf(cfg, st, run);
    if calls.Then? {
      RT.RunInvariant(cfg.reputation, calls);
      RT.CoherentLater(After(cfg, st, run).rep, calls.last.now, now);
    }
  }

  // ----- when an address is blocked -----

  /** The times of the requests of `ip` that cost it a violation, since it was last forgiven or
      banned. */
  ghost function Violations(cfg: Config, st: State, run: Run, ip: string): seq<Time>
    requires Engine.Usable(cfg.sigs) && st.Valid()
  {
    match run
    case Start => []
    case Then(before, Restart(_)) => Violations(cfg, st, before, ip)
    case Then(before, Asks(rq)) =>
      var vs, op := Violations(cfg, st, before, ip), Costs(cfg, After(cfg, st, before), rq);
      if rq.ip != ip || op.None? then vs
      else if op.value == RT.Violation then Push(vs, rq.at)
      else []
  }

  lemma {:induction false} ViolationsAreHistory(cfg: Config, st: State, run: Run, ip: string)
    requires Engine.Usable(cfg.sigs) && st.Valid() && NoReputations(st) && Clocked(run)
    ensures RT.History(cfg.reputation, CallsOf(cfg, st, run), ip) == Violations(cfg, st, run, ip)
  {
    if run.Then? {
      ViolationsAreHistory(cfg, st, run.before, ip);
      if run.last.Asks? {
        PipelineIsDisciplined(cfg, st, run.before, Arrives(run.last));
        HistoryGrows(cfg, After(cfg, st, run.before), run.last.rq, CallsOf(cfg, st, run.before), ip);
      }
    }
  }

  lemma HistoryGrows(cfg: Config, st: State, rq: Request, calls: RT.Run, ip: string)
    requires Engine.Usable(cfg.sigs) && st.Valid() && RT.After(cfg.reputation, calls) == st.rep
    ensures var h, op := RT.History(cfg.reputation, calls, ip), Costs(cfg, st, rq);
      RT.History(cfg.reputation, CallsFor(cfg, st, rq, calls), ip) ==
        if rq.ip != ip || op.None? then h else if op.value == RT.Violation then Push(h, rq.at) else []
  {
  }

  /** What a request does to a standing that is not blocked. */
  lemma PaidBlocksIff(cfg: Config, rep: Reputation.Store, op: Option<RT.Op>, rq: Request)
    requires !IsBlocked(rep, rq.ip)
    ensures IsBlocked(Paid(cfg, rep, op, rq), rq.ip) <==>
      || op == Some(RT.Ban)
      || (op == Some(RT.Violation) && Reputation.RegisterViolation(cfg.reputation, rep, rq.ip, rq.at).1.to == Reputation.Blocked)
  {
  }

  predicate WindowIsCovered(rep: Reputation.Config) {
    0 < rep.window && (rep.blockThreshold <= 1 || RT.ExpiryCoversWindow(rep))
  }

  /** With one more at `now`, these violations reach the threshold in the window. */
  ghost predicate Reaches(rep: Reputation.Config, vs: seq<Time>, now: Time) {
    |RT.ReadAfter(Push(vs, now), now - rep.window)| >= rep.blockThreshold
  }

  lemma HistoryReaches(rep: Reputation.Config, store: Reputation.Store, h: seq<Time>, ip: string, now: Time)
    requires RT.BlocksByHistory(rep, store, h, ip, now)
    ensures Reputation.RegisterViolation(rep, store, ip, now).1.to == Reputation.Blocked <==> Reaches(rep, h, now)
  {
  }

  /** A violation right after a lookup counts the whole history of the calls. */
  lemma LookedUpIsExact(rep: Reputation.Config, calls: RT.Run, ip: string, now: Time)
    requires WindowIsCovered(rep) && RT.Disciplined(calls) && (calls.Then? ==> calls.last.now <= now)
    requires !IsBlocked(Reputation.Lookup(RT.After(rep, calls), ip, now).0, ip)
    ensures RT.BlocksByHistory(rep, Reputation.Lookup(RT.After(rep, calls), ip, now).0, RT.History(rep, calls, ip), ip, now)
  {
    var looked := RT.Then(calls, RT.Look(ip, now));
    assert RT.After(rep, looked) == Reputation.Lookup(RT.After(rep, calls), ip, now).0;
    RT.SlidingWindowExact(rep, looked, ip, now);
  }

  lemma NotBlockedAfterLookup(store: Reputation.Store, ip: string, now: Time)
    requires Reputation.Lookup(store, ip, now).1 != Reputation.Blocked
    ensures !IsBlocked(Reputation.Lookup(store, ip, now).0, ip)
  {
  }

  /** At any point of any run from an empty store, a request of an address that is neither
      listed nor blocked leaves it blocked exactly when a ban is decided, or when the request
      costs a violation and the address's violations in the window that ends now, this one
      included, reach the threshold. */
  lemma BlocksExactly(cfg: Config, st: State, run: Run, rq: Request)
    requires Engine.Usable(cfg.sigs) && st.Valid() && NoReputations(st) && Clocked(Then(run, Asks(rq)))
    requires WindowIsCovered(cfg.reputation)
    requires !Listed(cfg, rq) && Reputation.Lookup(After(cfg, st, run).rep, rq.ip, rq.at).1 != Reputation.Blocked
    ensures var before := After(cfg, st, run);
      var op := Costs(cfg, before, rq);
      IsBlocked(Serve(cfg, before, rq).0.rep, rq.ip) <==>
        || op == Some(RT.Ban)
        || (op == Some(RT.Violation) && Reaches(cfg.reputation, Violations(cfg, st, run, rq.ip), rq.at))
  {
    var before, calls := After(cfg, st, run), CallsOf(cfg, st, run);
    var looked := Reputation.Lookup(before.rep, rq.ip, rq.at).0;
    PipelineIsDisciplined(cfg, st, run, rq.at);
    ViolationsAreHistory(cfg, st, run, rq.ip);
    NotBlockedAfterLookup(before.rep, rq.ip, rq.at);
    LookedUpIsExact(cfg.reputation, calls, rq.ip, rq.at);
    HistoryReaches(cfg.reputation, looked, RT.History(cfg.reputation, calls, rq.ip), rq.ip, rq.at);
    ServeCosts(cfg, before, rq);
    PaidBlocksIff(cfg, looked, Costs(cfg, before, rq), rq);
  }
}
