/** Runs of the whole pipeline, with restarts: what a request can do to each component, and
    how blocks begin, last and end. */
module PipelineTheory {
  import opened Prelude
  import opened Pipeline
  import opened Signature
  import opened ContentCache
  import opened EngineTheory
  import Challenge
  import Engine
  import Guard
  import Lru
  import Redirection
  import Reputation
  import Tracker

  datatype Event =
    | Asks(rq: Request)
    | Restart(now: Time)

  /** A run, oldest event first. */
  datatype Run = Start | Then(before: Run, last: Event)

  /** A restart loses everything in memory; only the durable copy of the reputations comes back. */
  ghost function Rebooted(st: State, now: Time): (st': State)
    requires st.Valid()
    ensures st'.Valid()
  {
    var recs := Lru.Empty<string, Tracker.Rec>(st.recs.cap);
    var levels := Lru.Empty<string, Guard.Level>(st.levels.cap);
    var contents := Lru.Empty<string, Entry>(st.contents.cap);
    assert (forall k :: recs.Resident(k)) && (forall k :: levels.Resident(k)) && (forall k :: contents.Resident(k));
    State(Reputation.Load(st.rep.db, now), recs, levels, contents)
  }

  ghost function Step(cfg: Config, st: State, e: Event): (st': State)
    requires Engine.Usable(cfg.sigs) && st.Valid()
    ensures st'.Valid()
  {
    match e
    case Asks(rq) => Serve(cfg, st, rq).0
    case Restart(now) => Rebooted(st, now)
  }

  ghost function After(cfg: Config, st: State, run: Run): (st': State)
    requires Engine.Usable(cfg.sigs) && st.Valid()
    ensures st'.Valid()
  {
    match run
    case Start => st
    case Then(before, e) => Step(cfg, After(cfg, st, before), e)
  }

  function Arrives(e: Event): Time {
    match e
    case Asks(rq) => rq.at
    case Restart(now) => now
  }

  function Ends(e: Event): Time {
    match e
    case Asks(rq) => rq.done
    case Restart(now) => now
  }

  /** The clock does not go back, and requests follow one another. */
  predicate Clocked(run: Run) {
    run.Then? ==>
      && Clocked(run.before) && Arrives(run.last) <= Ends(run.last)
      && (run.before.Then? ==> Ends(run.before.last) <= Arrives(run.last))
  }

  predicate Listed(cfg: Config, rq: Request) {
    cfg.whitelisted(rq.ip) || cfg.blocklisted(rq.ip)
  }

  /** The request was let through and counts as a pageview. */
  predicate Recorded(a: Answer) {
    a.Hit? || (a.Backend? && a.recorded)
  }

  // ----- what one request does -----

  /** At most one reputation call, for the address of the request; none if it is let through. */
  ghost predicate Acts(cfg: Config, rep: Reputation.Store, rep': Reputation.Store, a: Answer, rq: Request) {
    var violated := Reputation.RegisterViolation(cfg.reputation, rep, rq.ip, rq.at).0;
    match a
    case Backend(_) => rep' == rep
    case Hit(_, _) => rep' == rep
    case ChallengePage(_) => rep' == rep || rep' == violated
    case Redirect(_) => rep' == Reputation.Force(cfg.reputation, rep, rq.ip, Reputation.Clean, rq.at).0
    case Refused(_) =>
      || rep' == rep || rep' == violated
      || rep' == Reputation.Force(cfg.reputation, rep, rq.ip, Reputation.Blocked, rq.at).0
  }

  /** Only a solved challenge at the verify endpoint redirects; every challenge is a fresh one. */
  ghost predicate Says(cfg: Config, a: Answer, rq: Request) {
    && (a.Redirect? ==> rq.view.path == Challenge.VERIFY_PATH && Solved(cfg, rq) && a.to == Redirection.Location(cfg.urlParses, rq.return_))
    && (a.ChallengePage? ==> a == Page(cfg, rq))
  }

  /** The tracker's own update: a recorded pageview, or a passed challenge. */
  ghost function Updated(cfg: Config, recs: Tracker.Recs, a: Answer, rq: Request): (recs': Tracker.Recs)
    requires recs.Valid()
    ensures recs'.Valid() && recs'.cap == recs.cap
  {
    if Recorded(a) then
      Tracker.Record(recs, cfg.sessionTTL, Tracker.MAX_PAGEVIEW_STAMPS, Key(cfg, rq), rq.view.path, rq.done)
    else if a.Redirect? then Tracker.Mark(recs, cfg.sessionTTL, Key(cfg, rq), rq.at)
    else recs
  }

  /** The session may have been fetched, and then the tracker is updated as the answer says. */
  ghost predicate Tracks(cfg: Config, recs: Tracker.Recs, recs': Tracker.Recs, a: Answer, rq: Request)
    requires recs.Valid()
  {
    || recs' == Updated(cfg, recs, a, rq)
    || recs' == Updated(cfg, Tracker.Fetch(recs, cfg.sessionTTL, Key(cfg, rq), rq.at).0, a, rq)
  }

  ghost predicate Effect(cfg: Config, st: State, r: (State, Answer), rq: Request)
    requires st.Valid()
  {
    Says(cfg, r.1, rq) && Acts(cfg, st.rep, r.0.rep, r.1, rq) && Tracks(cfg, st.recs, r.0.recs, r.1, rq)
  }

  /** A state that differs from `st` at most in a fetch of the session, the levels and the cache. */
  ghost predicate Nearby(cfg: Config, st: State, st': State, rq: Request)
    requires st.Valid()
  {
    st'.Valid() && st'.rep == st.rep && MayFetch(st.recs, st'.recs, cfg.sessionTTL, Asking(cfg, rq))
  }

  lemma PassedIsNearby(cfg: Config, st: State, st': State, rq: Request)
    requires st.Valid() && Nearby(cfg, st, st', rq)
    ensures Nearby(cfg, st, st'.(recs := Tracker.Passed(st'.recs, cfg.sessionTTL, Key(cfg, rq), rq.at).0), rq)
  {
    FetchTwice(st.recs, cfg.sessionTTL, Key(cfg, rq), rq.at);
  }

  lemma ApplyEffect(cfg: Config, st: State, st': State, rq: Request, action: Action, code: int)
    requires st.Valid() && Nearby(cfg, st, st', rq)
    ensures Effect(cfg, st, Apply(cfg, st', rq, action, code), rq)
  {
    PassedIsNearby(cfg, st, st', rq);
  }

  lemma DeliverEffect(cfg: Config, st: State, st': State, rq: Request)
    requires st.Valid() && Nearby(cfg, st, st', rq)
    ensures Effect(cfg, st, Deliver(cfg, st', rq), rq)
    ensures var a := Deliver(cfg, st', rq).1;
      (a.Hit? || a.Backend?) && (Recorded(a) <==> a.Hit? || !CopyAborts(rq))
  {
  }

  lemma ProtectEffect(cfg: Config, st: State, st': State, rq: Request)
    requires st.Valid() && Nearby(cfg, st, st', rq)
    ensures Effect(cfg, st, Protect(cfg, st', rq), rq)
  {
    if !cfg.protected {
      DeliverEffect(cfg, st, st', rq);
    } else {
      var (levels, dec) := Guard.Assessed(cfg.protection, st'.levels, rq.ip, rq.view.path, rq.score, rq.at);
      if dec.Some? {
        ApplyEffect(cfg, st, st'.(levels := levels), rq, dec.value.action, dec.value.respCode);
      } else {
        DeliverEffect(cfg, st, st'.(levels := levels), rq);
      }
    }
  }

  /** The state once the engine has looked at the request. */
  ghost function Inspected(cfg: Config, st: State, rq: Request): (st': State)
    requires Engine.Usable(cfg.sigs) && st.Valid()
    ensures st'.Valid()
  {
    st.(recs := Engine.Scan(cfg.sigs, |cfg.sigs|, st.recs, cfg.sessionTTL, Asking(cfg, rq), cfg.rx).0)
  }

  lemma InspectedIsNearby(cfg: Config, st: State, st': State, rq: Request)
    requires Engine.Usable(cfg.sigs) && st.Valid() && Nearby(cfg, st, st', rq)
    ensures Nearby(cfg, st, Inspected(cfg, st', rq), rq)
  {
    StrongestWins(cfg.sigs, st'.recs, cfg.sessionTTL, Asking(cfg, rq), cfg.rx);
    FetchTwice(st.recs, cfg.sessionTTL, Key(cfg, rq), rq.at);
  }

  lemma InspectEffect(cfg: Config, st: State, st': State, rq: Request)
    requires Engine.Usable(cfg.sigs) && st.Valid() && Nearby(cfg, st, st', rq)
    ensures Effect(cfg, st, Inspect(cfg, st', rq), rq)
  {
    InspectedIsNearby(cfg, st, st', rq);
    var best := Engine.Scan(cfg.sigs, |cfg.sigs|, st'.recs, cfg.sessionTTL, Asking(cfg, rq), cfg.rx).1;
    if best.Some? {
      ApplyEffect(cfg, st, Inspected(cfg, st', rq), rq, best.value.action, best.value.respCode);
    } else {
      ProtectEffect(cfg, st, Inspected(cfg, st', rq), rq);
    }
  }

  lemma RouteEffect(cfg: Config, st: State, rq: Request, standing: Reputation.State)
    requires Engine.Usable(cfg.sigs) && st.Valid()
    ensures Effect(cfg, st, Route(cfg, st, rq, standing), rq)
  {
    PassedIsNearby(cfg, st, st, rq);
    var (recs, passed) := Tracker.Passed(st.recs, cfg.sessionTTL, Key(cfg, rq), rq.at);
    InspectEffect(cfg, st, st.(recs := recs), rq);
    InspectEffect(cfg, st, st, rq);
  }

  /** What a request can do: nothing if its address is listed; otherwise its address is looked
      up, then at most one further reputation call is made for it, and the tracker fetches and
      updates the session of the request, exactly as the answer says. */
  ghost predicate Outcome(cfg: Config, st: State, r: (State, Answer), rq: Request)
    requires st.Valid()
  {
    if Listed(cfg, rq) then r.0 == st && r.1 == if cfg.whitelisted(rq.ip) then Backend(false) else Refused(403)
    else Effect(cfg, st.(rep := Reputation.Lookup(st.rep, rq.ip, rq.at).0), r, rq)
  }

  lemma ServeEffect(cfg: Config, st: State, rq: Request)
    requires Engine.Usable(cfg.sigs) && st.Valid()
    ensures Outcome(cfg, st, Serve(cfg, st, rq), rq)
  {
    if !Listed(cfg, rq) {
      var (rep, standing) := Reputation.Lookup(st.rep, rq.ip, rq.at);
      RouteEffect(cfg, st.(rep := rep), rq, standing);
    }
  }

  // ----- blocked is absorbing -----

  /** The entry of `ip`, in memory and in the durable copy. */
  ghost predicate Stands(rep: Reputation.Store, ip: string, s: Reputation.Standing) {
    && ip in rep.mem && rep.mem[ip] == s
    && ip in rep.db && rep.db[ip] == s
  }

  /** The expiry is past; a standing without one stays. */
  predicate Over(s: Reputation.Standing, now: Time) {
    s.expiry != 0 && s.expiry < now
  }

  /** Every event comes before the standing expires. */
  predicate Within(run: Run, s: Reputation.Standing) {
    run.Then? ==> Within(run.before, s) && !Over(s, Arrives(run.last))
  }

  lemma OthersLeaveEntry(cfg: Config, st: State, r: (State, Answer), rq: Request, ip: string, s: Reputation.Standing)
    requires st.Valid() && Outcome(cfg, st, r, rq) && rq.ip != ip && Stands(st.rep, ip, s)
    ensures Stands(r.0.rep, ip, s)
  {
  }

  lemma BlockedIsRefused(cfg: Config, st: State, rq: Request, s: Reputation.Standing)
    requires Engine.Usable(cfg.sigs) && st.Valid() && Stands(st.rep, rq.ip, s)
    requires s.state == Reputation.Blocked && !Over(s, rq.at)
    ensures Serve(cfg, st, rq) == (st, if cfg.whitelisted(rq.ip) then Backend(false) else Refused(403))
  {
  }

  lemma BlockedStep(cfg: Config, st: State, e: Event, ip: string, s: Reputation.Standing)
    requires Engine.Usable(cfg.sigs) && st.Valid() && Stands(st.rep, ip, s)
    requires s.state == Reputation.Blocked && !Over(s, Arrives(e))
    ensures Stands(Step(cfg, st, e).rep, ip, s)
  {
    if e.Asks? {
      if e.rq.ip == ip {
        BlockedIsRefused(cfg, st, e.rq, s);
      } else {
        ServeEffect(cfg, st, e.rq);
        OthersLeaveEntry(cfg, st, Serve(cfg, st, e.rq), e.rq, ip, s);
      }
    }
  }

  lemma {:induction false} BlockStands(cfg: Config, st: State, run: Run, ip: string, s: Reputation.Standing)
    requires Engine.Usable(cfg.sigs) && st.Valid() && Stands(st.rep, ip, s)
    requires s.state == Reputation.Blocked && Within(run, s)
    ensures Stands(After(cfg, st, run).rep, ip, s)
  {
    if run.Then? {
      BlockStands(cfg, st, run.before, ip, s);
      BlockedStep(cfg, After(cfg, st, run.before), run.last, ip, s);
    }
  }

  /** From a block until its expiry, in every run -- whatever other clients ask, with restarts
      anywhere -- the entry stays as it is, and a request of the address is refused without
      changing any state, unless the address is whitelisted. */
  lemma BlockedIsAbsorbing(cfg: Config, st: State, run: Run, ip: string, s: Reputation.Standing, rq: Request)
    requires Engine.Usable(cfg.sigs) && st.Valid() && Stands(st.rep, ip, s)
    requires s.state == Reputation.Blocked && Within(Then(run, Asks(rq)), s) && rq.ip == ip
    ensures Stands(After(cfg, st, run).rep, ip, s)
    ensures Serve(cfg, After(cfg, st, run), rq)
         == (After(cfg, st, run), if cfg.whitelisted(ip) then Backend(false) else Refused(403))
  {
    BlockStands(cfg, st, run, ip, s);
    BlockedIsRefused(cfg, After(cfg, st, run), rq, s);
  }

  ghost predicate IsBlocked(rep: Reputation.Store, ip: string) {
    ip in rep.mem && rep.mem[ip].state == Reputation.Blocked
  }

  /** A block begins with a request of that very address, which is refused or challenged; it
      lasts exactly the block TTL and is durable at once. */
  lemma BlockBegins(cfg: Config, st: State, rq: Request, ip: string)
    requires Engine.Usable(cfg.sigs) && st.Valid() && !IsBlocked(st.rep, ip)
    ensures IsBlocked(Serve(cfg, st, rq).0.rep, ip) ==> BegunBy(cfg, Serve(cfg, st, rq), rq, ip)
  {
    ServeEffect(cfg, st, rq);
    BlockBeginsBy(cfg, st, Serve(cfg, st, rq), rq, ip);
  }

  ghost predicate BegunBy(cfg: Config, r: (State, Answer), rq: Request, ip: string)
    requires IsBlocked(r.0.rep, ip)
  {
    && ip == rq.ip && !Listed(cfg, rq) && (r.1.Refused? || r.1.ChallengePage?)
    && Stands(r.0.rep, ip, r.0.rep.mem[ip]) && r.0.rep.mem[ip].expiry == rq.at + cfg.reputation.blockTTL
  }

  lemma BlockBeginsBy(cfg: Config, st: State, r: (State, Answer), rq: Request, ip: string)
    requires st.Valid() && !IsBlocked(st.rep, ip) && Outcome(cfg, st, r, rq)
    ensures IsBlocked(r.0.rep, ip) ==> BegunBy(cfg, r, rq, ip)
  {
  }

  /** Once it has expired an entry no longer matters: the request is served as if the address
      had never been seen. */
  lemma ExpiredIsForgotten(cfg: Config, st: State, rq: Request)
    requires Engine.Usable(cfg.sigs) && st.Valid() && !Listed(cfg, rq)
    requires rq.ip in st.rep.mem && Over(st.rep.mem[rq.ip], rq.at)
    ensures var rep := Reputation.Store(st.rep.mem - {rq.ip}, st.rep.db - {rq.ip});
      Serve(cfg, st, rq) == Serve(cfg, st.(rep := rep), rq)
  {
  }

  /** A block ends when it expires: the first request after that is served as if the address
      had never been seen. */
  lemma BlockEnds(cfg: Config, st: State, run: Run, ip: string, s: Reputation.Standing, rq: Request)
    requires Engine.Usable(cfg.sigs) && st.Valid() && Stands(st.rep, ip, s)
    requires s.state == Reputation.Blocked && Within(run, s)
    requires rq.ip == ip && !Listed(cfg, rq) && Over(s, rq.at)
    ensures var before := After(cfg, st, run);
      Serve(cfg, before, rq)
        == Serve(cfg, before.(rep := Reputation.Store(before.rep.mem - {ip}, before.rep.db - {ip})), rq)
  {
    BlockStands(cfg, st, run, ip, s);
    ExpiredIsForgotten(cfg, After(cfg, st, run), rq);
  }
}
