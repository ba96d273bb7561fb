/** What the session checks mean, said of the run alone: of the pageviews and solved challenges
    that a session's record lived through. */
module SessionTheory {
  import opened Prelude
  import opened Tracker
  import opened TrackerTheory
  import Lru
  import Text

  // ----- the life of a record -----

  /** The updates that a record has lived through, if it is asked for at `now`. */
  ghost function Live(life: seq<Op>, ttl: Time, now: Time): seq<Op> {
    if life != [] && now - life[|life| - 1].now > ttl then [] else life
  }

  /** The updates of the session's record, oldest first. It ends when the session is asked for
      more than the TTL after its last update, and when it is evicted. */
  ghost function Life(cap: nat, ttl: Time, run: Run, key: string): seq<Op>
    requires 0 < cap
  {
    match run
    case Start => []
    case Then(before, op) =>
      var life := Life(cap, ttl, before, key);
      if op.key != key then (if Evicted(cap, ttl, run, key) then [] else life)
      else if op.Query? then Live(life, ttl, op.now)
      else Push(Live(life, ttl, op.now), op)
  }

  /** The last step, of another session, threw the record out. */
  ghost predicate Evicted(cap: nat, ttl: Time, run: Run, key: string)
    requires 0 < cap && run.Then?
  {
    && run.last.key != key && key in After(cap, ttl, MAX_PAGEVIEW_STAMPS, run.before).items
    && key !in After(cap, ttl, MAX_PAGEVIEW_STAMPS, run).items
  }

  /** The pageviews among some updates. */
  ghost function HitsIn(life: seq<Op>): seq<Hit> {
    if life == [] then []
    else
      var init, last := HitsIn(life[..|life| - 1]), life[|life| - 1];
      if last.Hits? then Push(init, Hit(last.now, last.path)) else init
  }

  ghost predicate SolvedIn(life: seq<Op>) {
    exists i :: 0 <= i < |life| && life[i].Solve?
  }

  /** The path of the last pageview. */
  ghost function LastPath(life: seq<Op>): string {
    var hits := HitsIn(life);
    if hits == [] then "" else hits[|hits| - 1].path
  }

  ghost function Latest64(hits: seq<Hit>): seq<Hit> {
    if |hits| > 64 then hits[|hits| - 64..] else hits
  }

  ghost predicate Tells(r: Rec, life: seq<Op>) {
    && life != [] && r.lastSeen == life[|life| - 1].now
    && (r.passed <==> SolvedIn(life)) && r.lastPath == LastPath(life) && r.pageviews == Latest64(HitsIn(life))
  }

  ghost predicate Known(recs: Recs, key: string, life: seq<Op>) {
    if key in recs.items then Tells(recs.items[key], life) else life == []
  }

  lemma FetchKnows(recs: Recs, ttl: Time, key: string, life: seq<Op>, now: Time)
    requires recs.Valid() && Known(recs, key, life)
    ensures Known(Fetch(recs, ttl, key, now).0, key, Live(life, ttl, now))
    ensures var seen := Fetch(recs, ttl, key, now).1;
      if seen.Some? then Tells(seen.value, Live(life, ttl, now)) else Live(life, ttl, now) == []
  {
    Lru.TouchValid(recs, key);
  }

  lemma {:induction false} SolvedGrows(life: seq<Op>, op: Op)
    ensures SolvedIn(Push(life, op)) <==> SolvedIn(life) || op.Solve?
  {
    PushAt(life, op);
    if i :| 0 <= i < |life| && life[i].Solve? {
      assert Push(life, op)[i].Solve?;
    }
  }

  lemma HitsGrow(life: seq<Op>, op: Op)
    ensures HitsIn(Push(life, op)) == if op.Hits? then Push(HitsIn(life), Hit(op.now, op.path)) else HitsIn(life)
  {
    assert Push(life, op)[..|life|] == life;
  }

  lemma BlankTells(now: Time)
    ensures var r := NewRec(now); !r.passed && r.lastPath == LastPath([]) && r.pageviews == Latest64(HitsIn([]))
    ensures !SolvedIn([])
  {
  }

  lemma UpdateTells(base: Rec, life: seq<Op>, op: Op)
    requires !op.Query?
    requires base.passed <==> SolvedIn(life)
    requires base.lastPath == LastPath(life) && base.pageviews == Latest64(HitsIn(life))
    ensures Tells(if op.Hits? then Recorded(base, MAX_PAGEVIEW_STAMPS, op.path, op.now) else Marked(base, op.now), Push(life, op))
  {
    SolvedGrows(life, op);
    HitsGrow(life, op);
    PushAt(life, op);
    if op.Hits? {
      KeepPush(HitsIn(life), Hit(op.now, op.path));
      PushAt(HitsIn(life), Hit(op.now, op.path));
    }
  }

  lemma OwnKnows(recs: Recs, ttl: Time, key: string, life: seq<Op>, op: Op)
    requires recs.Valid() && Known(recs, key, life) && op.key == key && key != ""
    ensures var live := Live(life, ttl, op.now);
      Known(Step(recs, ttl, MAX_PAGEVIEW_STAMPS, op), key, if op.Query? then live else Push(live, op))
  {
    FetchKnows(recs, ttl, key, life, op.now);
    BlankTells(op.now);
    if !op.Query? {
      UpdateTells(Base(recs, ttl, key, op.now), Live(life, ttl, op.now), op);
    }
  }

  lemma OtherKnows(recs: Recs, ttl: Time, key: string, op: Op)
    requires recs.Valid() && op.key != key
    ensures var recs' := Step(recs, ttl, MAX_PAGEVIEW_STAMPS, op);
      key in recs'.items ==> key in recs.items && recs'.items[key] == recs.items[key]
  {
    var fetched := Fetch(recs, ttl, op.key, op.now).0;
    Lru.TouchValid(recs, op.key);
    if op.key != "" && !op.Query? {
      var base := Base(recs, ttl, op.key, op.now);
      var r := if op.Hits? then Recorded(base, MAX_PAGEVIEW_STAMPS, op.path, op.now) else Marked(base, op.now);
      Lru.MirrorsAdd(fetched, fetched, op.key, r, r);
    }
  }

  /** At every point of every run a session's record says what its life says: nothing is kept
      without an update, and everything else about it follows from the updates. */
  lemma {:induction false} RecordTellsLife(cap: nat, ttl: Time, run: Run, key: string)
    requires 0 < cap && key != ""
    ensures Known(After(cap, ttl, MAX_PAGEVIEW_STAMPS, run), key, Life(cap, ttl, run, key))
  {
    if run.Then? {
      RecordTellsLife(cap, ttl, run.before, key);
      var before := After(cap, ttl, MAX_PAGEVIEW_STAMPS, run.before);
      if run.last.key == key {
        OwnKnows(before, ttl, key, Life(cap, ttl, run.before, key), run.last);
      } else {
        OtherKnows(before, ttl, key, run.last);
      }
    }
  }

  /** Nothing is kept for a session without a name. */
  lemma {:induction false} NamelessIsForgotten(cap: nat, ttl: Time, run: Run)
    requires 0 < cap
    ensures "" !in After(cap, ttl, MAX_PAGEVIEW_STAMPS, run).items
  {
    if run.Then? {
      NamelessIsForgotten(cap, ttl, run.before);
      if run.last.key != "" {
        OtherKnows(After(cap, ttl, MAX_PAGEVIEW_STAMPS, run.before), ttl, "", run.last);
      }
    }
  }

  // ----- the checks -----

  /** The pageviews of the path (of any path, if it is empty) that are later than the window
      before `now` (all of them, without a window). */
  ghost function Recent(hits: seq<Hit>, path: string, window: Time, now: Time): set<nat> {
    set i: nat | i < |hits| && (path != "" ==> hits[i].path == path) && (window > 0 ==> now - hits[i].ts < window)
  }

  lemma {:induction false} CountIsSize(hits: seq<Hit>, path: string, window: Time, now: Time)
    ensures Count(hits, path, window, now) == |Recent(hits, path, window, now)|
  {
    if hits != [] {
      var n := |hits| - 1;
      CountIsSize(hits[..n], path, window, now);
      var init, all := Recent(hits[..n], path, window, now), Recent(hits, path, window, now);
      if Counts(hits[n], path, window, now) {
        assert all == init + {n};
      } else {
        assert all == init;
      }
    }
  }

  /** What a check asks of the pageviews and solved challenges since the record began. */
  ghost predicate Asks(c: Check, live: seq<Op>, path: string, now: Time) {
    var kept := Latest64(HitsIn(live));
    match c.kind
    case SessionSeenBefore => live != []
    case ChallengePassed => exists i :: 0 <= i < |live| && live[i].Solve?
    case MinPriorPageviews => |Recent(kept, "", c.window, now)| >= c.value
    case RateLimit => |Recent(kept, "", c.window, now)| > c.value
    case EndpointRateLimit => |Recent(kept, if c.match_ == "" then path else c.match_, c.window, now)| >= c.value - 1
    case LastPathMatches => HitsIn(live) != [] && LastPath(live) != "" && MatchGlob(c.match_, LastPath(live))
    case Other(_) => false
  }

  lemma CheckAsks(c: Check, seen: Option<Rec>, live: seq<Op>, path: string, now: Time)
    requires if seen.Some? then Tells(seen.value, live) else live == []
    ensures EvalCheck(c, seen, path, now) <==> Asks(c, live, path, now)
  {
    var hits := if seen.Some? then seen.value.pageviews else [];
    assert hits == Latest64(HitsIn(live));
    CountIsSize(hits, "", c.window, now);
    CountIsSize(hits, if c.match_ == "" then path else c.match_, c.window, now);
  }

  /** At every point of every run the session matchers fire exactly when they have checks and all
      of them ("and", or nothing said), or else one of them, hold of the session's life, each
      possibly negated. */
  lemma EvaluateMeans(cap: nat, ttl: Time, run: Run, sm: SessionMatchers, key: string, path: string, now: Time)
    requires 0 < cap && key != ""
    ensures var live := Live(Life(cap, ttl, run, key), ttl, now);
      Evaluate(After(cap, ttl, MAX_PAGEVIEW_STAMPS, run), ttl, sm, key, path, now).1 <==>
        if sm.checks == [] then false
        else if sm.condition in ["", "and"]
        then forall i :: 0 <= i < |sm.checks| ==> Asks(sm.checks[i], live, path, now) != sm.checks[i].negate
        else exists i :: 0 <= i < |sm.checks| && Asks(sm.checks[i], live, path, now) != sm.checks[i].negate
  {
    var recs, live := After(cap, ttl, MAX_PAGEVIEW_STAMPS, run), Live(Life(cap, ttl, run, key), ttl, now);
    RecordTellsLife(cap, ttl, run, key);
    FetchKnows(recs, ttl, key, Life(cap, ttl, run, key), now);
    var seen := Fetch(recs, ttl, key, now).1;
    forall i | 0 <= i < |sm.checks|
      ensures Holds(sm.checks[i], seen, path, now) <==> Asks(sm.checks[i], live, path, now) != sm.checks[i].negate
    {
      CheckAsks(sm.checks[i], seen, live, path, now);
    }
  }

  // ----- seen before -----

  /** The last update of the session, if its record was not evicted since. */
  ghost function LastKept(cap: nat, ttl: Time, run: Run, key: string): Option<Op>
    requires 0 < cap
  {
    match run
    case Start => None
    case Then(before, op) =>
      if op.key == key && !op.Query? then Some(op)
      else if Evicted(cap, ttl, run, key) then None
      else LastKept(cap, ttl, before, key)
  }

  ghost predicate LivesOn(life: seq<Op>, last: Option<Op>, ttl: Time, now: Time) {
    if life != [] then last == Some(life[|life| - 1]) else last.Some? ==> now - last.value.now > ttl
  }

  lemma {:induction false} LifeIsLastKept(cap: nat, ttl: Time, run: Run, key: string, now: Time)
    requires 0 < cap && key != "" && Clocked(run) && (run.Then? ==> run.last.now <= now)
    ensures LivesOn(Life(cap, ttl, run, key), LastKept(cap, ttl, run, key), ttl, now)
  {
    if run.Then? {
      var op := run.last;
      LifeIsLastKept(cap, ttl, run.before, key, op.now);
      RecordTellsLife(cap, ttl, run.before, key);
      if op.key == key && !op.Query? {
        PushAt(Live(Life(cap, ttl, run.before, key), ttl, op.now), op);
      }
    }
  }

  /** With a clock that does not go back, a sole session-seen-before check fires exactly when the
      session had a pageview or solved a challenge, was not evicted since, and the last of these
      was at most the TTL ago. */
  lemma SeenBeforeIff(cap: nat, ttl: Time, run: Run, sm: SessionMatchers, key: string, path: string, now: Time)
    requires 0 < cap && key != "" && Clocked(run) && (run.Then? ==> run.last.now <= now)
    requires |sm.checks| == 1 && sm.checks[0].kind == SessionSeenBefore && !sm.checks[0].negate
    ensures var last := LastKept(cap, ttl, run, key);
      Evaluate(After(cap, ttl, MAX_PAGEVIEW_STAMPS, run), ttl, sm, key, path, now).1 <==>
        last.Some? && now - last.value.now <= ttl
  {
    EvaluateMeans(cap, ttl, run, sm, key, path, now);
    LifeIsLastKept(cap, ttl, run, key, now);
  }

  // ----- patterns -----

  predicate Starless(x: string) {
    x != "" && x[0] != '*' && x[|x| - 1] != '*'
  }

  /** A star in front, at the end or on both sides stands for any text; without one a pattern
      stands for itself, and two stars only for themselves. */
  lemma GlobMeans(x: string, s: string)
    requires Starless(x)
    ensures MatchGlob(x, s) <==> s == x
    ensures MatchGlob(x + "*", s) <==> exists t :: s == x + t
    ensures MatchGlob("*" + x, s) <==> exists t :: s == t + x
    ensures MatchGlob("*" + x + "*", s) <==> exists t, u :: s == t + x + u
    ensures !MatchGlob("", s) && (MatchGlob("**", s) <==> s == "**")
  {
    PrefixGlob(x, s);
    SuffixGlob(x, s);
    InfixGlob(x, s);
  }

  lemma PrefixGlob(x: string, s: string)
    requires Starless(x)
    ensures MatchGlob(x + "*", s) <==> exists t :: s == x + t
  {
    var p := x + "*";
    assert p[..|x|] == x && p[0] == x[0];
    if x <= s {
      assert s == x + s[|x|..];
    }
    if s == p {
      assert s == x + "*";
    }
  }

  lemma SuffixGlob(x: string, s: string)
    requires Starless(x)
    ensures MatchGlob("*" + x, s) <==> exists t :: s == t + x
  {
    var p := "*" + x;
    assert p[1..] == x && p[|x|] == x[|x| - 1];
    if HasSuffix(s, x) {
      assert s == s[..|s| - |x|] + x;
    }
    if t :| s == t + x {
      assert s[|t|..] == x;
    }
    if s == p {
      assert s == "*" + x;
    }
  }

  lemma InfixGlob(x: string, s: string)
    requires Starless(x)
    ensures MatchGlob("*" + x + "*", s) <==> exists t, u :: s == t + x + u
  {
    var p := "*" + x + "*";
    assert p[1..|p| - 1] == x && p[|p| - 1] == '*' && p[0] == '*';
    if i :| 0 <= i <= |s| && Text.OccursAt(s, x, i) {
      assert s == s[..i] + x + s[i + |x|..];
    }
    if t, u :| s == t + x + u {
      assert s[|t|..|t| + |x|] == x && Text.OccursAt(s, x, |t|);
    }
    if s == p {
      assert s == "*" + x + "*";
    }
  }
}
