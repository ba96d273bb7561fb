/** The request pipeline: one request as one step over reputation, tracker, guard and cache. */
module Pipeline {
  import opened Prelude
  import opened Signature
  import opened ContentCache
  import Challenge
  import Engine
  import Guard
  import Redirection
  import Reputation
  import Tracker

  /** The configuration snapshot of a request. The access lists are given as verdicts. */
  datatype Config = Config(
    whitelisted: string -> bool, blocklisted: string -> bool,
    reputation: Reputation.Config,
    sigs: seq<Signature>, rx: Regexp, sessionTTL: Time,
    challengeEnabled: bool, powBits: int, challengeTTL: Time, crypto: Challenge.Crypto, urlParses: string -> bool,
    protected: bool, protection: Guard.Options,
    caching: bool, cacheableExt: string -> bool, maxObjectSize: int, cacheTTL: Time)

  /** The backend's response, what the reads of its body return until the copy stops, and
      whether the client went away meanwhile. */
  datatype Reply = Reply(resp: Response, body: seq<(Bytes, ReadError)>, clientGone: bool)

  /** A request, with the readings of the clock when it arrives and when its response is done,
      its anomaly score, and what the backend will answer (nothing when unreachable). */
  datatype Request = Request(
    ip: string, cookie: Option<string>, tls: bool, view: RequestView,
    token: string, nonce: string, return_: string, score: int, range: string, cacheKey: string,
    reply: Option<Reply>, at: Time, done: Time)

  datatype State = State(
    rep: Reputation.Store, recs: Tracker.Recs, levels: Guard.Levels, contents: Contents)
  {
    ghost predicate Valid() {
      recs.Valid() && levels.Valid() && contents.Valid()
    }
  }

  datatype Answer =
    | Backend(recorded: bool)       // forwarded, wholly or in part; as a recorded pageview or not
    | Hit(entry: Entry, age: int)   // served from the cache, and recorded
    | ChallengePage(token: string)  // 503
    | Refused(code: int)
    | Redirect(to: string)          // a solved challenge

  function Key(cfg: Config, rq: Request): string {
    Challenge.SessionKey(cfg.crypto, rq.cookie, rq.ip)
  }

  function Asking(cfg: Config, rq: Request): Engine.Query {
    Engine.Query(Key(cfg, rq), rq.view, rq.at)
  }

  // ----- the ways a request ends -----

  /** A fresh challenge; without TLS a browser cannot compute the proof of work. */
  function Page(cfg: Config, rq: Request): Answer {
    ChallengePage(Challenge.IssueToken(cfg.crypto, if rq.tls then cfg.powBits else 0, rq.at, cfg.challengeTTL))
  }

  function Violating(cfg: Config, st: State, rq: Request): (st': State)
    requires st.Valid()
    ensures st'.Valid()
  {
    st.(rep := Reputation.RegisterViolation(cfg.reputation, st.rep, rq.ip, rq.at).0)
  }

  function Recording(cfg: Config, st: State, rq: Request): (st': State)
    requires st.Valid()
    ensures st'.Valid()
  {
    st.(recs := Tracker.Record(st.recs, cfg.sessionTTL, Tracker.MAX_PAGEVIEW_STAMPS, Key(cfg, rq), rq.view.path, rq.done))
  }

  /** The tee and the cache after the first `n` reads of the response body. */
  function Drain(t: Tee, c: Contents, body: seq<(Bytes, ReadError)>, n: nat, now: Time): (r: (Tee, Contents))
    requires c.Valid() && n <= |body|
    ensures r.1.Valid()
  {
    if n == 0 then (t, c)
    else
      var (t', c') := Drain(t, c, body, n - 1, now);
      TeeRead(t', c', body[n - 1].0, body[n - 1].1, now)
  }

  /** The cache after a cacheable miss was forwarded. */
  function Stored(cfg: Config, c: Contents, rq: Request): (c': Contents)
    requires c.Valid()
    ensures c'.Valid()
  {
    if rq.reply.None? || !Storable(rq.reply.value.resp, cfg.maxObjectSize) then c
    else
      var body := rq.reply.value.body;
      Drain(OpenTee(rq.cacheKey, rq.reply.value.resp, cfg.maxObjectSize, cfg.cacheTTL), c, body, |body|, rq.done).1
  }

  /** The response was cut short: the copy did not read its end, or could not write it. The
      reverse proxy then panics, which ends the request. (An unreachable backend is answered.) */
  predicate CopyAborts(rq: Request) {
    rq.reply.Some? &&
    var r := rq.reply.value;
    r.clientGone || r.body == [] || r.body[|r.body| - 1].1 != Eof
  }

  /** Forwards and then records the pageview, unless the copy is cut short. */
  function Forward(cfg: Config, st: State, rq: Request): (r: (State, Answer))
    requires st.Valid()
    ensures r.0.Valid()
  {
    if CopyAborts(rq) then (st, Backend(false)) else (Recording(cfg, st, rq), Backend(true))
  }

  predicate Cacheable(cfg: Config, rq: Request) {
    cfg.caching && rq.view.method_ == "GET" && rq.range == "" && cfg.cacheableExt(rq.view.path)
  }

  /** The clean passthrough. */
  function Deliver(cfg: Config, st: State, rq: Request): (r: (State, Answer))
    requires st.Valid()
    ensures r.0.Valid()
  {
    if !Cacheable(cfg, rq) then Forward(cfg, st, rq)
    else
      var (c, e) := Get(st.contents, rq.cacheKey, rq.at);
      if e.Some? then (Recording(cfg, st.(contents := c), rq), Hit(e.value, Age(e.value, rq.at)))
      else Forward(cfg, st.(contents := Stored(cfg, c, rq)), rq)
  }

  /** Enforces a decision of the engine or of the guard. */
  function Apply(cfg: Config, st: State, rq: Request, action: Action, code: int): (r: (State, Answer))
    requires st.Valid()
    ensures r.0.Valid()
  {
    match action
    case LogOnly => (st, Backend(false))
    case Challenge =>
      var (recs, passed) := Tracker.Passed(st.recs, cfg.sessionTTL, Key(cfg, rq), rq.at);
      if passed then Forward(cfg, st.(recs := recs), rq)
      else (Violating(cfg, st.(recs := recs), rq), Page(cfg, rq))
    case RateLimit => (Violating(cfg, st, rq), Refused(429))
    case Ban =>
      (st.(rep := Reputation.Force(cfg.reputation, st.rep, rq.ip, Reputation.Blocked, rq.at).0), Refused(code))
    case _ => (Violating(cfg, st, rq), Refused(code))
  }

  predicate Solved(cfg: Config, rq: Request) {
    var bits := Challenge.ValidateToken(cfg.crypto, rq.token, rq.at);
    bits.Some? && Challenge.VerifyPoW(cfg.crypto, rq.token, rq.nonce, bits.value)
  }

  /** The verify endpoint. */
  function Verify(cfg: Config, st: State, rq: Request): (r: (State, Answer))
    requires st.Valid()
    ensures r.0.Valid()
  {
    if !Solved(cfg, rq) then (st, Page(cfg, rq))
    else (st.(rep := Reputation.Force(cfg.reputation, st.rep, rq.ip, Reputation.Clean, rq.at).0,
              recs := Tracker.Mark(st.recs, cfg.sessionTTL, Key(cfg, rq), rq.at)),
          Redirect(Redirection.Location(cfg.urlParses, rq.return_)))
  }

  // ----- the stages -----

  /** The proactive checks, after the engine matched nothing. */
  function Protect(cfg: Config, st: State, rq: Request): (r: (State, Answer))
    requires st.Valid()
    ensures r.0.Valid()
  {
    if !cfg.protected then Deliver(cfg, st, rq)
    else
      var (levels, dec) := Guard.Assessed(cfg.protection, st.levels, rq.ip, rq.view.path, rq.score, rq.at);
      if dec.Some? then Apply(cfg, st.(levels := levels), rq, dec.value.action, dec.value.respCode)
      else Deliver(cfg, st.(levels := levels), rq)
  }

  function Inspect(cfg: Config, st: State, rq: Request): (r: (State, Answer))
    requires Engine.Usable(cfg.sigs) && st.Valid()
    ensures r.0.Valid()
  {
    var (recs, best) := Engine.Scan(cfg.sigs, |cfg.sigs|, st.recs, cfg.sessionTTL, Asking(cfg, rq), cfg.rx);
    if best.Some? then Apply(cfg, st.(recs := recs), rq, best.value.action, best.value.respCode)
    else Protect(cfg, st.(recs := recs), rq)
  }

  /** A greylisted address outside the verify endpoint, with challenges on: challenged unless
      its session passed. */
  function Greylisted(cfg: Config, st: State, rq: Request): (r: (State, Answer))
    requires Engine.Usable(cfg.sigs) && st.Valid()
    ensures r.0.Valid()
  {
    var (recs, passed) := Tracker.Passed(st.recs, cfg.sessionTTL, Key(cfg, rq), rq.at);
    if passed then Inspect(cfg, st.(recs := recs), rq) else (st.(recs := recs), Page(cfg, rq))
  }

  /** What the standing of the address decides. */
  function Route(cfg: Config, st: State, rq: Request, standing: Reputation.State): (r: (State, Answer))
    requires Engine.Usable(cfg.sigs) && st.Valid()
    ensures r.0.Valid()
  {
    if standing == Reputation.Blocked then (st, Refused(403))
    else if rq.view.path == Challenge.VERIFY_PATH then Verify(cfg, st, rq)
    else if standing == Reputation.Greylisted && cfg.challengeEnabled then Greylisted(cfg, st, rq)
    else Inspect(cfg, st, rq)
  }

  function Serve(cfg: Config, st: State, rq: Request): (r: (State, Answer))
    requires Engine.Usable(cfg.sigs) && st.Valid()
    ensures r.0.Valid()
  {
    if cfg.whitelisted(rq.ip) then (st, Backend(false))
    else if cfg.blocklisted(rq.ip) then (st, Refused(403))
    else
      var (rep, standing) := Reputation.Lookup(st.rep, rq.ip, rq.at);
      Route(cfg, st.(rep := rep), rq, standing)
  }

  // ----- the proxy -----

  class Proxy {
    const cfg: Config
    const manager: Reputation.Manager
    const tracker: Tracker.SessionTracker
    const guard: Guard.Guard
    const store: Store
    const engine: Engine.DetectionEngine

    ghost function Repr(): set<object>
      reads manager, tracker, guard
    {
      manager.Repr + tracker.Repr + guard.Repr + {store}
    }

    /** The components have taken on no objects but new ones. */
    twostate predicate Grew()
      reads manager, tracker, guard
    {
      forall o :: o in Repr() && !fresh(o) ==> o in old(Repr())
    }

    /** Everything a request may change is owned by one component. */
    ghost predicate Apart()
      reads manager, tracker, guard
    {
      && manager.Repr !! tracker.Repr && manager.Repr !! guard.Repr && tracker.Repr !! guard.Repr
      && store !in manager.Repr && store !in tracker.Repr && store !in guard.Repr
      && engine !in Repr()
    }

    /** The collaborators work on the proxy's configuration. */
    ghost predicate Wired()
      reads engine
    {
      && manager.cfg == cfg.reputation && tracker.ttl == cfg.sessionTTL
      && engine.session == tracker && engine.rx == cfg.rx && engine.sigs == cfg.sigs && Engine.Usable(cfg.sigs)
    }

    ghost predicate Valid()
      reads manager, tracker, guard, store, engine, manager.Repr, tracker.Repr, guard.Repr
    {
      && Apart() && Wired()
      && manager.Valid() && tracker.Valid() && guard.Valid() && store.lru.Valid()
    }

    ghost function Abs(): State
      reads manager, tracker, guard, store
    {
      State(manager.Abs(), tracker.recs, guard.levels, store.lru)
    }

    constructor (cfg: Config, manager: Reputation.Manager, tracker: Tracker.SessionTracker, guard: Guard.Guard,
                 store: Store, engine: Engine.DetectionEngine)
      requires manager.Valid() && tracker.Valid() && guard.Valid() && store.lru.Valid()
      requires manager.Repr !! tracker.Repr && manager.Repr !! guard.Repr && tracker.Repr !! guard.Repr
      requires store !in manager.Repr + tracker.Repr + guard.Repr && engine !in manager.Repr + tracker.Repr + guard.Repr
      requires manager.cfg == cfg.reputation && tracker.ttl == cfg.sessionTTL && Engine.Usable(cfg.sigs)
      requires engine.session == tracker && engine.rx == cfg.rx && engine.sigs == cfg.sigs
      ensures Valid() && this.cfg == cfg
      ensures Abs() == State(manager.Abs(), tracker.recs, guard.levels, store.lru)
    {
      this.cfg, this.manager, this.tracker := cfg, manager, tracker;
      this.guard, this.store, this.engine := guard, store, engine;
    }

    method ServeHTTP(rq: Request) returns (a: Answer)
      requires Valid()
      modifies Repr()
      ensures Valid() && Grew()
      ensures (Abs(), a) == Serve(cfg, old(Abs()), rq)
    {
      if cfg.whitelisted(rq.ip) {
        return Backend(false);
      }
      if cfg.blocklisted(rq.ip) {
        return Refused(403);
      }
      var key := Challenge.SessionKey(cfg.crypto, rq.cookie, rq.ip);
      var standing := Look(rq);
      a := ServeKnown(rq, key, standing);
    }

    method ServeKnown(rq: Request, key: string, standing: Reputation.State) returns (a: Answer)
      requires Valid() && key == Key(cfg, rq)
      modifies Repr()
      ensures Valid() && Grew()
      ensures (Abs(), a) == Route(cfg, old(Abs()), rq, standing)
    {
      if standing == Reputation.Blocked {
        return Refused(403);
      }
      if rq.view.path == Challenge.VERIFY_PATH {
        a := HandleVerify(rq, key);
        return;
      }
      if standing == Reputation.Greylisted && cfg.challengeEnabled {
        a := ServeGreylisted(rq, key);
        return;
      }
      a := InspectAndServe(rq, key);
    }

    /** A greylisted address outside the verify endpoint, with challenges on. */
    method ServeGreylisted(rq: Request, key: string) returns (a: Answer)
      requires Valid() && key == Key(cfg, rq) && cfg.challengeEnabled
      modifies Repr()
      ensures Valid() && Grew()
      ensures (Abs(), a) == Greylisted(cfg, old(Abs()), rq)
    {
      var passed := AskPassed(rq, key);
      if !passed {
        return Page(cfg, rq);
      }
      a := InspectAndServe(rq, key);
    }

    method InspectAndServe(rq: Request, key: string) returns (a: Answer)
      requires Valid() && key == Key(cfg, rq)
      modifies Repr()
      ensures Valid() && Grew()
      ensures (Abs(), a) == Inspect(cfg, old(Abs()), rq)
    {
      var best := Ask(rq, key);
      if best.Some? {
        a := ApplyAction(rq, key, best.value.action, best.value.respCode);
        return;
      }
      a := ProtectAndServe(rq, key);
    }

    method ProtectAndServe(rq: Request, key: string) returns (a: Answer)
      requires Valid() && key == Key(cfg, rq)
      modifies Repr()
      ensures Valid() && Grew()
      ensures (Abs(), a) == Protect(cfg, old(Abs()), rq)
    {
      if !cfg.protected {
        a := Pass(rq, key);
        return;
      }
      var dec := Assess(rq);
      if dec.Some? {
        a := ApplyAction(rq, key, dec.value.action, dec.value.respCode);
      } else {
        a := Pass(rq, key);
      }
    }

    /** The clean passthrough, from the cache when possible. */
    method Pass(rq: Request, key: string) returns (a: Answer)
      requires Valid() && key == Key(cfg, rq)
      modifies Repr()
      ensures Valid() && Grew()
      ensures (Abs(), a) == Deliver(cfg, old(Abs()), rq)
    {
      if Cacheable(cfg, rq) {
        var e := FindCached(rq);
        if e.Some? {
          Record(rq, key);
          return Hit(e.value, Age(e.value, rq.at));
        }
        TeeBody(rq);
      }
      a := ForwardAndRecord(rq, key);
    }

    /** The pageview is recorded after the response was copied; an aborted copy never gets there. */
    method ForwardAndRecord(rq: Request, key: string) returns (a: Answer)
      requires Valid() && key == Key(cfg, rq)
      modifies tracker.Repr
      ensures Valid() && Grew()
      ensures (Abs(), a) == Forward(cfg, old(Abs()), rq)
    {
      if CopyAborts(rq) {
        return Backend(false);
      }
      Record(rq, key);
      return Backend(true);
    }

    method ApplyAction(rq: Request, key: string, action: Action, code: int) returns (a: Answer)
      requires Valid() && key == Key(cfg, rq)
      modifies Repr()
      ensures Valid() && Grew()
      ensures (Abs(), a) == Apply(cfg, old(Abs()), rq, action, code)
    {
      match action {
        case LogOnly =>
          return Backend(false);
        case Challenge =>
          a := ApplyChallenge(rq, key, code);
        case RateLimit =>
          Violate(rq);
          return Refused(429);
        case Ban =>
          BlockAddress(rq);
          return Refused(code);
        case _ =>
          Violate(rq);
          return Refused(code);
      }
    }

    /** A session that passed a challenge is not challenged again. */
    method ApplyChallenge(rq: Request, key: string, code: int) returns (a: Answer)
      requires Valid() && key == Key(cfg, rq)
      modifies Repr()
      ensures Valid() && Grew()
      ensures (Abs(), a) == Apply(cfg, old(Abs()), rq, Challenge, code)
    {
      var passed := AskPassed(rq, key);
      if passed {
        a := ForwardAndRecord(rq, key);
        return;
      }
      Violate(rq);
      return Page(cfg, rq);
    }

    method HandleVerify(rq: Request, key: string) returns (a: Answer)
      requires Valid() && key == Key(cfg, rq)
      modifies Repr()
      ensures Valid() && Grew()
      ensures (Abs(), a) == Verify(cfg, old(Abs()), rq)
    {
      var bits := Challenge.ValidateToken(cfg.crypto, rq.token, rq.at);
      if bits.None? {
        return Page(cfg, rq);
      }
      if !Challenge.VerifyPoW(cfg.crypto, rq.token, rq.nonce, bits.value) {
        return Page(cfg, rq);
      }
      MarkClean(rq);
      MarkPassed(rq, key);
      return Redirect(Redirection.Location(cfg.urlParses, rq.return_));
    }

    // ----- one call of one component, the others untouched -----

    method Look(rq: Request) returns (s: Reputation.State)
      requires Valid()
      modifies manager
      ensures Valid() && Repr() == old(Repr())
      ensures var (rep, standing) := Reputation.Lookup(old(Abs()).rep, rq.ip, rq.at);
        Abs() == old(Abs()).(rep := rep) && s == standing
    {
      s := manager.Find(rq.ip, rq.at);
    }

    method Violate(rq: Request)
      requires Valid()
      modifies manager.Repr
      ensures Valid() && Grew()
      ensures Abs() == Violating(cfg, old(Abs()), rq)
    {
      var _ := manager.Violate(rq.ip, rq.at);
    }

    method MarkClean(rq: Request)
      requires Valid()
      modifies manager
      ensures Valid() && Grew()
      ensures Abs() == old(Abs()).(rep := Reputation.Force(cfg.reputation, old(Abs()).rep, rq.ip, Reputation.Clean, rq.at).0)
    {
      var _ := manager.MarkClean(rq.ip, rq.at);
    }

    method BlockAddress(rq: Request)
      requires Valid()
      modifies manager
      ensures Valid() && Grew()
      ensures Abs() == old(Abs()).(rep := Reputation.Force(cfg.reputation, old(Abs()).rep, rq.ip, Reputation.Blocked, rq.at).0)
    {
      var _ := manager.Block(rq.ip, rq.at);
    }

    method AskPassed(rq: Request, key: string) returns (passed: bool)
      requires Valid()
      modifies tracker
      ensures Valid() && Repr() == old(Repr())
      ensures var (recs, p) := Tracker.Passed(old(Abs()).recs, cfg.sessionTTL, key, rq.at);
        Abs() == old(Abs()).(recs := recs) && passed == p
    {
      passed := tracker.HasPassed(key, rq.at);
    }

    method MarkPassed(rq: Request, key: string)
      requires Valid()
      modifies tracker.Repr
      ensures Valid() && Grew()
      ensures Abs() == old(Abs()).(recs := Tracker.Mark(old(Abs()).recs, cfg.sessionTTL, key, rq.at))
    {
      tracker.MarkChallengePassed(key, rq.at);
    }

    method Record(rq: Request, key: string)
      requires Valid() && key == Key(cfg, rq)
      modifies tracker.Repr
      ensures Valid() && Grew()
      ensures Abs() == Recording(cfg, old(Abs()), rq)
    {
      tracker.RecordHit(key, rq.view.path, rq.done);
    }

    method Ask(rq: Request, key: string) returns (best: Option<Signature>)
      requires Valid() && key == Key(cfg, rq)
      modifies tracker
      ensures Valid() && Repr() == old(Repr())
      ensures var (recs, b) := Engine.Scan(cfg.sigs, |cfg.sigs|, old(Abs()).recs, cfg.sessionTTL, Asking(cfg, rq), cfg.rx);
        Abs() == old(Abs()).(recs := recs) && best == b
    {
      best := engine.Inspect(Engine.Query(key, rq.view, rq.at));
    }

    method Assess(rq: Request) returns (dec: Option<Guard.Decision>)
      requires Valid()
      modifies guard.Repr
      ensures Valid() && Grew()
      ensures var (levels, d) := Guard.Assessed(cfg.protection, old(Abs()).levels, rq.ip, rq.view.path, rq.score, rq.at);
        Abs() == old(Abs()).(levels := levels) && dec == d
    {
      dec := guard.Assess(rq.ip, rq.view.path, rq.score, cfg.protection, rq.at);
    }

    method FindCached(rq: Request) returns (e: Option<Entry>)
      requires Valid()
      modifies store
      ensures Valid() && Repr() == old(Repr())
      ensures var (c, found) := Get(old(Abs()).contents, rq.cacheKey, rq.at);
        Abs() == old(Abs()).(contents := c) && e == found
    {
      e := store.Find(rq.cacheKey, rq.at);
    }

    /** A cacheable miss: the response body is copied to the client through the tee. */
    method TeeBody(rq: Request)
      requires Valid()
      modifies store
      ensures Valid() && Repr() == old(Repr())
      ensures Abs() == old(Abs()).(contents := Stored(cfg, old(Abs()).contents, rq))
    {
      if rq.reply.None? || !Storable(rq.reply.value.resp, cfg.maxObjectSize) {
        return;
      }
      CopyBody(store, OpenTee(rq.cacheKey, rq.reply.value.resp, cfg.maxObjectSize, cfg.cacheTTL), cfg, rq);
    }
  }

  method CopyBody(store: Store, ghost tee: Tee, cfg: Config, rq: Request)
    requires store.lru.Valid() && rq.reply.Some?
    requires tee == OpenTee(rq.cacheKey, rq.reply.value.resp, cfg.maxObjectSize, cfg.cacheTTL)
    modifies store
    ensures store.lru.Valid()
    ensures store.lru == Drain(tee, old(store.lru), rq.reply.value.body, |rq.reply.value.body|, rq.done).1
  {
    var chunks := rq.reply.value.body;
    var body := new CachingBody(store, rq.cacheKey, rq.reply.value.resp, cfg.maxObjectSize, cfg.cacheTTL);
    for i := 0 to |chunks|
      invariant store.lru.Valid()
      invariant (body.Abs(), store.lru) == Drain(tee, old(store.lru), chunks, i, rq.done)
    {
      var _, _ := body.Read(chunks[i].0, chunks[i].1, rq.done);
    }
  }
}
