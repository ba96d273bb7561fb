/** What a visitor's session experiences over whole runs of the pipeline: a solved challenge is
    remembered, and what it exempts from. */
module VisitorTheory {
  import opened Prelude
  import opened Pipeline
  import opened PipelineTheory
  import opened Signature
  import opened EngineTheory
  import Challenge
  import Codec
  import Engine
  import Lru
  import Redirection
  import Reputation
  import Tracker

  // ----- what a session is -----

  /** A request that presents a cookie with the mac of its id belongs to that id, from whatever
      address it comes; any other belongs to its address. */
  lemma SessionIs(cfg: Config, rq: Request, id: string)
    ensures id != "" && rq.cookie == Some(id + "." + Codec.EncodeURL(cfg.crypto.hmac(id)[..16])) ==> Key(cfg, rq) == "sid:" + id
    ensures (forall x :: x != "" ==> rq.cookie != Some(x + "." + Codec.EncodeURL(cfg.crypto.hmac(x)[..16])))
       <==> Key(cfg, rq) == "ip:" + rq.ip
  {
    if id != "" && rq.cookie == Some(id + "." + Codec.EncodeURL(cfg.crypto.hmac(id)[..16])) {
      Challenge.AcceptedIsKey(cfg.crypto, rq.cookie.value, id, rq.ip);
    }
    Challenge.RotationKeepsKey(cfg.crypto, rq.cookie, rq.ip);
  }

  // ----- sessions do not disturb each other -----

  predicate Updates(a: Answer) {
    Recorded(a) || a.Redirect?
  }

  /** The other sessions that asked since the session `key` was last updated. */
  ghost function Others(cfg: Config, st: State, run: Run, key: string): set<string>
    requires Engine.Usable(cfg.sigs) && st.Valid()
  {
    match run
    case Start => {}
    case Then(before, Restart(_)) => {}
    case Then(before, Asks(rq)) =>
      if Key(cfg, rq) != key then Others(cfg, st, before, key) + {Key(cfg, rq)}
      else if Updates(Serve(cfg, After(cfg, st, before), rq).1) then {}
      else Others(cfg, st, before, key)
  }

  /** No restart, and fewer other sessions than the tracker holds ask between two updates of
      `key`: so its record is never evicted. */
  ghost predicate Uncrowded(cfg: Config, st: State, run: Run, key: string)
    requires Engine.Usable(cfg.sigs) && st.Valid()
  {
    run.Then? ==>
      && Uncrowded(cfg, st, run.before, key) && run.last.Asks?
      && |Others(cfg, st, run, key)| < st.recs.cap
  }

  /** All keys newer than `key` are among `others`. */
  ghost predicate Behind(recs: Tracker.Recs, key: string, others: set<string>) {
    key in recs.items ==> Lru.Newer(recs.order, key) <= others
  }

  ghost predicate SameRecord(recs: Tracker.Recs, recs': Tracker.Recs, key: string) {
    (key in recs.items <==> key in recs'.items) && (key in recs.items ==> recs'.items[key] == recs.items[key])
  }

  lemma FetchOther(recs: Tracker.Recs, ttl: Time, x: string, now: Time, key: string)
    requires recs.Valid() && key != x
    ensures var recs' := Tracker.Fetch(recs, ttl, x, now).0;
      SameRecord(recs, recs', key) && (key in recs.items ==> Lru.Newer(recs'.order, key) <= Lru.Newer(recs.order, key) + {x})
  {
    Lru.Membership(recs);
    if key in recs.items {
      Lru.NewerWithout(recs.order, key, x);
      NewerRemoved(recs.order, key, x);
    }
  }

  lemma {:induction false} NewerRemoved(order: seq<string>, key: string, x: string)
    requires Distinct(order) && key != x
    ensures Lru.Newer(Lru.Without(order, x), key) <= Lru.Newer(order, key)
  {
    if order != [] {
      NewerRemoved(order[1..], key, x);
      Lru.WithoutProps(order[1..], x);
      if order[0] != x {
        assert Lru.Without(order, x)[1..] == Lru.Without(order[1..], x);
      }
    }
  }

  lemma StoreOther(recs: Tracker.Recs, x: string, r: Tracker.Rec, key: string)
    requires recs.Valid() && key != x
    requires key in recs.items ==> |Lru.Newer(recs.order, key) + {x}| < recs.cap
    ensures var recs' := Tracker.Store(recs, x, r);
      SameRecord(recs, recs', key) && (key in recs.items ==> Lru.Newer(recs'.order, key) <= Lru.Newer(recs.order, key) + {x})
  {
    if key in recs.items {
      Lru.OthersSurvive(recs, key, x, r);
    }
  }

  /** What another session does to the tracker. */
  lemma OtherUpdate(cfg: Config, recs: Tracker.Recs, recs': Tracker.Recs, a: Answer, rq: Request, key: string, others: set<string>)
    requires recs.Valid() && Tracks(cfg, recs, recs', a, rq) && Key(cfg, rq) != key
    requires Behind(recs, key, others) && |others + {Key(cfg, rq)}| < recs.cap
    ensures SameRecord(recs, recs', key) && Behind(recs', key, others + {Key(cfg, rq)})
  {
    var x, ttl := Key(cfg, rq), cfg.sessionTTL;
    var fetched := Tracker.Fetch(recs, ttl, x, rq.at).0;
    FetchOther(recs, ttl, x, rq.at, key);
    OtherUpdateFrom(cfg, recs, a, rq, key, others);
    OtherUpdateFrom(cfg, fetched, a, rq, key, others + {x});
  }

  lemma OtherUpdateFrom(cfg: Config, mid: Tracker.Recs, a: Answer, rq: Request, key: string, others: set<string>)
    requires mid.Valid() && Key(cfg, rq) != key
    requires Behind(mid, key, others) && |others + {Key(cfg, rq)}| < mid.cap
    ensures SameRecord(mid, Updated(cfg, mid, a, rq), key) && Behind(Updated(cfg, mid, a, rq), key, others + {Key(cfg, rq)})
  {
    var x, ttl := Key(cfg, rq), cfg.sessionTTL;
    var now := if Recorded(a) then rq.done else rq.at;
    var fetched := Tracker.Fetch(mid, ttl, x, now).0;
    FetchOther(mid, ttl, x, now, key);
    if key in mid.items {
      Lru.SubsetCardinality(Lru.Newer(fetched.order, key) + {x}, others + {x});
    }
    if Recorded(a) {
      StoreOther(fetched, x, Tracker.Recorded(Tracker.Base(mid, ttl, x, now), Tracker.MAX_PAGEVIEW_STAMPS, rq.view.path, now), key);
    } else if a.Redirect? {
      StoreOther(fetched, x, Tracker.Marked(Tracker.Base(mid, ttl, x, now), now), key);
    }
  }

  lemma LastIsNewest(recs: Tracker.Recs, key: string)
    requires recs.Valid()
    ensures Lru.Newer(Lru.Without(recs.order, key) + [key], key) == {}
  {
    Lru.WithoutProps(recs.order, key);
    Lru.NewerLast(Lru.Without(recs.order, key), key);
  }

  lemma CapKept(cfg: Config, st: State, rq: Request)
    requires Engine.Usable(cfg.sigs) && st.Valid()
    ensures Serve(cfg, st, rq).0.recs.cap == st.recs.cap
  {
    ServeEffect(cfg, st, rq);
  }

  lemma {:induction false} CapFixed(cfg: Config, st: State, run: Run)
    requires Engine.Usable(cfg.sigs) && st.Valid()
    ensures After(cfg, st, run).recs.cap == st.recs.cap
  {
    if run.Then? {
      CapFixed(cfg, st, run.before);
      if run.last.Asks? {
        CapKept(cfg, After(cfg, st, run.before), run.last.rq);
      }
    }
  }

  /** A request of another session leaves the record of `key` alone. */
  lemma OtherAsks(cfg: Config, st: State, rq: Request, key: string, others: set<string>)
    requires Engine.Usable(cfg.sigs) && st.Valid() && Key(cfg, rq) != key
    requires Behind(st.recs, key, others) && |others + {Key(cfg, rq)}| < st.recs.cap
    ensures var recs' := Serve(cfg, st, rq).0.recs;
      SameRecord(st.recs, recs', key) && Behind(recs', key, others + {Key(cfg, rq)})
  {
    ServeEffect(cfg, st, rq);
    if !Listed(cfg, rq) {
      var (st', a) := Serve(cfg, st, rq);
      OtherUpdate(cfg, st.recs, st'.recs, a, rq, key, others);
    }
  }

  // ----- a solved challenge is remembered -----

  /** The session has passed, its record was last updated at `last`, and it is still live. */
  ghost predicate PassedLive(recs: Tracker.Recs, ttl: Time, key: string, now: Time) {
    key in recs.items && recs.items[key].passed && now - recs.items[key].lastSeen <= ttl
  }

  ghost predicate PassedAt(recs: Tracker.Recs, key: string, last: Time) {
    key in recs.items && recs.items[key].passed && recs.items[key].lastSeen == last
  }

  lemma PassedSurvivesFetch(recs: Tracker.Recs, ttl: Time, key: string, last: Time, now: Time, others: set<string>)
    requires recs.Valid() && PassedAt(recs, key, last) && now - last <= ttl && Behind(recs, key, others)
    ensures var recs' := Tracker.Fetch(recs, ttl, key, now).0;
      PassedAt(recs', key, last) && Behind(recs', key, others)
  {
    Lru.TouchValid(recs, key);
    LastIsNewest(recs, key);
  }

  ghost function UpdateTime(a: Answer, rq: Request): Time {
    if Recorded(a) then rq.done else rq.at
  }

  lemma PassedSurvivesUpdate(cfg: Config, recs: Tracker.Recs, a: Answer, rq: Request, last: Time, others: set<string>)
    requires recs.Valid() && PassedAt(recs, Key(cfg, rq), last) && Behind(recs, Key(cfg, rq), others)
    requires UpdateTime(a, rq) - last <= cfg.sessionTTL
    ensures var recs', key := Updated(cfg, recs, a, rq), Key(cfg, rq);
      if Updates(a) then PassedAt(recs', key, UpdateTime(a, rq)) && Behind(recs', key, {})
      else PassedAt(recs', key, last) && Behind(recs', key, others)
  {
    var key, ttl, now := Key(cfg, rq), cfg.sessionTTL, UpdateTime(a, rq);
    var fetched := Tracker.Fetch(recs, ttl, key, now).0;
    PassedSurvivesFetch(recs, ttl, key, last, now, others);
    LastIsNewest(fetched, key);
    Lru.Membership(fetched);
    Lru.WithoutProps(fetched.order, key);
  }

  /** A request of the session itself. */
  lemma OwnAsks(cfg: Config, st: State, rq: Request, last: Time, others: set<string>)
    requires Engine.Usable(cfg.sigs) && st.Valid() && rq.at <= rq.done
    requires PassedAt(st.recs, Key(cfg, rq), last) && Behind(st.recs, Key(cfg, rq), others)
    requires UpdateTime(Serve(cfg, st, rq).1, rq) - last <= cfg.sessionTTL
    ensures var (st', a) := Serve(cfg, st, rq); var key := Key(cfg, rq);
      if Updates(a) then PassedAt(st'.recs, key, UpdateTime(a, rq)) && Behind(st'.recs, key, {})
      else PassedAt(st'.recs, key, last) && Behind(st'.recs, key, others)
  {
    ServeEffect(cfg, st, rq);
    if !Listed(cfg, rq) {
      var a := Serve(cfg, st, rq).1;
      var fetched := Tracker.Fetch(st.recs, cfg.sessionTTL, Key(cfg, rq), rq.at).0;
      PassedSurvivesUpdate(cfg, st.recs, a, rq, last, others);
      PassedSurvivesFetch(st.recs, cfg.sessionTTL, Key(cfg, rq), last, rq.at, others);
      PassedSurvivesUpdate(cfg, fetched, a, rq, last, others);
    }
  }

  /** When the record of `key` was last updated, if it was at `start` when the run began. */
  ghost function LastUpdate(cfg: Config, st: State, run: Run, key: string, start: Time): Time
    requires Engine.Usable(cfg.sigs) && st.Valid()
  {
    if run.Start? then start
    else
      var before := LastUpdate(cfg, st, run.before, key, start);
      if !run.last.Asks? || Key(cfg, run.last.rq) != key then before
      else
        var a := Serve(cfg, After(cfg, st, run.before), run.last.rq).1;
        if Updates(a) then UpdateTime(a, run.last.rq) else before
  }

  /** The session comes back, and its pageviews are recorded, within the TTL of its last update. */
  ghost predicate Attended(cfg: Config, st: State, run: Run, key: string, start: Time)
    requires Engine.Usable(cfg.sigs) && st.Valid()
  {
    run.Then? ==>
      && Attended(cfg, st, run.before, key, start)
      && (run.last.Asks? && Key(cfg, run.last.rq) == key ==>
            UpdateTime(Serve(cfg, After(cfg, st, run.before), run.last.rq).1, run.last.rq)
              - LastUpdate(cfg, st, run.before, key, start) <= cfg.sessionTTL)
  }

  lemma {:induction false} PassedIsRemembered(cfg: Config, st: State, run: Run, key: string, start: Time)
    requires Engine.Usable(cfg.sigs) && st.Valid() && Clocked(run)
    requires PassedAt(st.recs, key, start) && Behind(st.recs, key, {})
    requires Uncrowded(cfg, st, run, key) && Attended(cfg, st, run, key, start)
    ensures PassedAt(After(cfg, st, run).recs, key, LastUpdate(cfg, st, run, key, start))
    ensures Behind(After(cfg, st, run).recs, key, Others(cfg, st, run, key))
  {
    if run.Then? {
      PassedIsRemembered(cfg, st, run.before, key, start);
      var before, rq, others := After(cfg, st, run.before), run.last.rq, Others(cfg, st, run.before, key);
      if Key(cfg, rq) == key {
        OwnAsks(cfg, before, rq, LastUpdate(cfg, st, run.before, key, start), others);
      } else {
        CapFixed(cfg, st, run.before);
        OtherAsks(cfg, before, rq, key, others);
      }
    }
  }

  // ----- a passed session is not challenged -----

  ghost predicate Vouched(cfg: Config, st: State, rq: Request) {
    PassedLive(st.recs, cfg.sessionTTL, Key(cfg, rq), rq.at)
  }

  lemma VouchedNearby(cfg: Config, st: State, st': State, rq: Request)
    requires st.Valid() && Vouched(cfg, st, rq) && Nearby(cfg, st, st', rq)
    ensures Vouched(cfg, st', rq)
  {
    Lru.TouchValid(st.recs, Key(cfg, rq));
  }

  lemma ProtectSparesPassed(cfg: Config, st: State, rq: Request)
    requires st.Valid() && Vouched(cfg, st, rq)
    ensures !Protect(cfg, st, rq).1.ChallengePage?
  {
  }

  lemma InspectSparesPassed(cfg: Config, st: State, rq: Request)
    requires Engine.Usable(cfg.sigs) && st.Valid() && Vouched(cfg, st, rq)
    ensures !Inspect(cfg, st, rq).1.ChallengePage?
  {
    InspectedIsNearby(cfg, st, st, rq);
    VouchedNearby(cfg, st, Inspected(cfg, st, rq), rq);
    ProtectSparesPassed(cfg, Inspected(cfg, st, rq), rq);
  }

  /** Neither greylisting, nor a rule, nor the guard challenges a session that passed. */
  lemma PassedIsNotChallenged(cfg: Config, st: State, rq: Request)
    requires Engine.Usable(cfg.sigs) && st.Valid() && Vouched(cfg, st, rq) && rq.view.path != Challenge.VERIFY_PATH
    ensures !Serve(cfg, st, rq).1.ChallengePage?
  {
    if !Listed(cfg, rq) {
      var st' := st.(rep := Reputation.Lookup(st.rep, rq.ip, rq.at).0);
      InspectSparesPassed(cfg, st', rq);
      PassedIsNearby(cfg, st', st', rq);
      var asked := st'.(recs := Tracker.Passed(st'.recs, cfg.sessionTTL, Key(cfg, rq), rq.at).0);
      VouchedNearby(cfg, st', asked, rq);
      InspectSparesPassed(cfg, asked, rq);
    }
  }

  lemma MarkPasses(recs: Tracker.Recs, ttl: Time, key: string, now: Time)
    requires recs.Valid() && key != ""
    ensures var recs' := Tracker.Mark(recs, ttl, key, now); PassedAt(recs', key, now) && Behind(recs', key, {})
  {
    var fetched := Tracker.Fetch(recs, ttl, key, now).0;
    LastIsNewest(fetched, key);
    Lru.Membership(fetched);
    Lru.WithoutProps(fetched.order, key);
  }

  /** A solved challenge cleans the address, marks the session, and leads on to the requested
      path -- on the site, unless that path leaves it. */
  lemma SolvedMarks(cfg: Config, st: State, rq: Request)
    requires Engine.Usable(cfg.sigs) && st.Valid()
    ensures var (st', a) := Serve(cfg, st, rq); a.Redirect? ==>
      && PassedAt(st'.recs, Key(cfg, rq), rq.at) && Behind(st'.recs, Key(cfg, rq), {})
      && rq.ip in st'.rep.mem && st'.rep.mem[rq.ip].state == Reputation.Clean
      && a.to == Redirection.Location(cfg.urlParses, rq.return_)
      && (Redirection.OnSite(a.to) <==> !Redirection.Leaves(cfg.urlParses, rq.return_))
  {
    ServeEffect(cfg, st, rq);
    Redirection.RedirectOnSiteIff(cfg.urlParses, rq.return_);
    MarkPasses(st.recs, cfg.sessionTTL, Key(cfg, rq), rq.at);
    MarkPasses(Tracker.Fetch(st.recs, cfg.sessionTTL, Key(cfg, rq), rq.at).0, cfg.sessionTTL, Key(cfg, rq), rq.at);
  }

  /** A challenge is solved exactly by a request for "/_smoker/verify", from an address that is
      neither listed nor blocked, with a signed token that has not expired and a nonce that does
      its work. */
  lemma SolvedIff(cfg: Config, st: State, rq: Request)
    requires Engine.Usable(cfg.sigs) && st.Valid()
    ensures Serve(cfg, st, rq).1.Redirect? <==>
      && !cfg.whitelisted(rq.ip) && !cfg.blocklisted(rq.ip)
      && Reputation.Lookup(st.rep, rq.ip, rq.at).1 != Reputation.Blocked
      && rq.view.path == "/_smoker/verify"
      && exists bits, e, b :: Challenge.WellSigned(cfg.crypto, rq.token, rq.at, bits, e, b)
                           && Challenge.VerifyPoW(cfg.crypto, rq.token, rq.nonce, bits)
  {
    ServeEffect(cfg, st, rq);
    var bits := Challenge.ValidateToken(cfg.crypto, rq.token, rq.at);
    if bits.Some? {
      Challenge.AcceptedTokens(cfg.crypto, rq.token, rq.at, bits.value);
    }
    if bits', e, b :| Challenge.WellSigned(cfg.crypto, rq.token, rq.at, bits', e, b) && Challenge.VerifyPoW(cfg.crypto, rq.token, rq.nonce, bits') {
      Challenge.AcceptedTokens(cfg.crypto, rq.token, rq.at, bits');
    }
  }

  /** In the run the session keeps coming back within the TTL of its last update, up to `now`,
      and its record is not crowded out. */
  ghost predicate KeepsReturning(cfg: Config, st: State, run: Run, key: string, start: Time, now: Time)
    requires Engine.Usable(cfg.sigs) && st.Valid()
  {
    && Clocked(run) && Uncrowded(cfg, st, run, key) && Attended(cfg, st, run, key, start)
    && now - LastUpdate(cfg, st, run, key, start) <= cfg.sessionTTL
  }

  /** No challenge loop: after a request solved a challenge, no later request of its session
      outside the verify endpoint is answered with a challenge page -- by greylisting, a rule or
      the guard, whatever other sessions do -- as long as the session keeps coming back within
      the TTL and its record is not crowded out. Nor does it cost its address a violation,
      unless it is refused. */
  lemma NoChallengeLoop(cfg: Config, st: State, solving: Request, run: Run, rq: Request)
    requires Engine.Usable(cfg.sigs) && st.Valid()
    requires Key(cfg, rq) == Key(cfg, solving) && rq.view.path != Challenge.VERIFY_PATH
    ensures var (st1, solved) := Serve(cfg, st, solving);
      var before := After(cfg, st1, run);
      var (after, a) := Serve(cfg, before, rq);
      solved.Redirect? && KeepsReturning(cfg, st1, run, Key(cfg, rq), solving.at, rq.at) ==>
        && !a.ChallengePage?
        && (Listed(cfg, rq) || a.Refused? || after.rep == Reputation.Lookup(before.rep, rq.ip, rq.at).0)
  {
    var (st1, solved) := Serve(cfg, st, solving);
    SolvedMarks(cfg, st, solving);
    if solved.Redirect? && KeepsReturning(cfg, st1, run, Key(cfg, rq), solving.at, rq.at) {
      PassedIsRemembered(cfg, st1, run, Key(cfg, rq), solving.at);
      PassedIsNotChallenged(cfg, After(cfg, st1, run), rq);
      ServeEffect(cfg, After(cfg, st1, run), rq);
    }
  }

  /** A challenge page can be solved: at the verify endpoint, from any address that is neither
      listed nor blocked, its token is accepted exactly until its expiry second has passed and
      with a nonce that does the work it asks for. */
  lemma PageCanBeSolved(cfg: Config, st: State, shown: Request, st': State, rq: Request)
    requires Engine.Usable(cfg.sigs) && st.Valid() && st'.Valid() && Serve(cfg, st, shown).1.ChallengePage?
    requires Codec.IsInt64(cfg.powBits) && Codec.IsInt64(Challenge.Unix(shown.at + cfg.challengeTTL))
    requires rq.view.path == Challenge.VERIFY_PATH && !Listed(cfg, rq)
    requires Reputation.Lookup(st'.rep, rq.ip, rq.at).1 != Reputation.Blocked
    requires rq.token == Serve(cfg, st, shown).1.token
    ensures Serve(cfg, st', rq).1.Redirect? <==>
              && Challenge.EpochSeconds(rq.at) <= Challenge.EpochSeconds(shown.at + cfg.challengeTTL)
              && Challenge.VerifyPoW(cfg.crypto, rq.token, rq.nonce, if shown.tls then cfg.powBits else 0)
  {
    ServeEffect(cfg, st, shown);
    Challenge.TokenRoundTrip(cfg.crypto, if shown.tls then cfg.powBits else 0, shown.at, cfg.challengeTTL, rq.at);
  }

  // ----- rate limits under grace -----

  ghost predicate Matches(cfg: Config, recs: Tracker.Recs, rq: Request, s: Signature)
    requires recs.Valid()
  {
    Applicable(recs, cfg.sessionTTL, Asking(cfg, rq), cfg.rx)(s)
  }

  /** Some signature with this action applies to the request. */
  ghost predicate SomeMatches(cfg: Config, recs: Tracker.Recs, rq: Request, action: Action)
    requires recs.Valid()
  {
    exists s :: s in cfg.sigs && s.action == action && Matches(cfg, recs, rq, s)
  }

  lemma SameMatches(cfg: Config, st: State, st': State, rq: Request, s: Signature)
    requires st.Valid() && Nearby(cfg, st, st', rq)
    ensures Matches(cfg, st.recs, rq, s) == Matches(cfg, st'.recs, rq, s)
  {
    FetchTwice(st.recs, cfg.sessionTTL, Key(cfg, rq), rq.at);
  }

  ghost function Best(cfg: Config, st: State, rq: Request): Option<Signature>
    requires Engine.Usable(cfg.sigs) && st.Valid()
  {
    Engine.Scan(cfg.sigs, |cfg.sigs|, st.recs, cfg.sessionTTL, Asking(cfg, rq), cfg.rx).1
  }

  /** The strongest matching action is a challenge exactly when some challenge rule matches and
      no block or ban does -- whatever rate limits match. */
  lemma ChallengeIsBest(cfg: Config, st: State, rq: Request, limit: Signature)
    requires Engine.Usable(cfg.sigs) && st.Valid() && Named(cfg.sigs)
    requires limit in cfg.sigs && limit.action == RateLimit && Matches(cfg, st.recs, rq, limit)
    ensures var best := Best(cfg, st, rq);
      && best.Some? && best.value.action != LogOnly
      && (best.value.action == Challenge <==>
            SomeMatches(cfg, st.recs, rq, Challenge) && !SomeMatches(cfg, st.recs, rq, Block) && !SomeMatches(cfg, st.recs, rq, Ban))
  {
    var best, applies := Best(cfg, st, rq), Applicable(st.recs, cfg.sessionTTL, Asking(cfg, rq), cfg.rx);
    StrongestWins(cfg.sigs, st.recs, cfg.sessionTTL, Asking(cfg, rq), cfg.rx);
    BestDominates(limit, best, cfg.sigs, applies);
    BestIsApplicable(best, cfg.sigs, applies);
    forall s | s in cfg.sigs && Matches(cfg, st.recs, rq, s)
      ensures Engine.ActionRank(s.action) <= Engine.ActionRank(best.value.action)
    {
      BestDominates(s, best, cfg.sigs, applies);
    }
  }

  lemma InspectUnderGrace(cfg: Config, st: State, rq: Request, limit: Signature)
    requires Engine.Usable(cfg.sigs) && st.Valid() && Vouched(cfg, st, rq) && Named(cfg.sigs)
    requires limit in cfg.sigs && limit.action == RateLimit && Matches(cfg, st.recs, rq, limit)
    ensures Inspect(cfg, st, rq).1.Backend? <==>
      SomeMatches(cfg, st.recs, rq, Challenge) && !SomeMatches(cfg, st.recs, rq, Block) && !SomeMatches(cfg, st.recs, rq, Ban)
  {
    ChallengeIsBest(cfg, st, rq, limit);
    InspectedIsNearby(cfg, st, st, rq);
    VouchedNearby(cfg, st, Inspected(cfg, st, rq), rq);
  }

  lemma SomeMatchesNearby(cfg: Config, st: State, st': State, rq: Request, action: Action)
    requires st.Valid() && Nearby(cfg, st, st', rq)
    ensures SomeMatches(cfg, st.recs, rq, action) == SomeMatches(cfg, st'.recs, rq, action)
  {
    forall s ensures Matches(cfg, st.recs, rq, s) == Matches(cfg, st'.recs, rq, s) {
      SameMatches(cfg, st, st', rq, s);
    }
  }

  /** A rate limit that matches does not bind a session that passed a challenge: the request is
      forwarded exactly when a challenge rule matches too and no block or ban rule does. */
  lemma RateLimitUnderGrace(cfg: Config, st: State, rq: Request, limit: Signature)
    requires Engine.Usable(cfg.sigs) && st.Valid() && Vouched(cfg, st, rq) && Named(cfg.sigs)
    requires !Listed(cfg, rq) && rq.view.path != Challenge.VERIFY_PATH
    requires Reputation.Lookup(st.rep, rq.ip, rq.at).1 != Reputation.Blocked
    requires limit in cfg.sigs && limit.action == RateLimit && Matches(cfg, st.recs, rq, limit)
    ensures Serve(cfg, st, rq).1.Backend? <==>
      SomeMatches(cfg, st.recs, rq, Challenge) && !SomeMatches(cfg, st.recs, rq, Block) && !SomeMatches(cfg, st.recs, rq, Ban)
  {
    var st' := st.(rep := Reputation.Lookup(st.rep, rq.ip, rq.at).0);
    InspectUnderGrace(cfg, st', rq, limit);
    PassedIsNearby(cfg, st', st', rq);
    var asked := st'.(recs := Tracker.Passed(st'.recs, cfg.sessionTTL, Key(cfg, rq), rq.at).0);
    VouchedNearby(cfg, st', asked, rq);
    SameMatches(cfg, st', asked, rq, limit);
    InspectUnderGrace(cfg, asked, rq, limit);
    SomeMatchesNearby(cfg, st', asked, rq, Challenge);
    SomeMatchesNearby(cfg, st', asked, rq, Block);
    SomeMatchesNearby(cfg, st', asked, rq, Ban);
  }
}
