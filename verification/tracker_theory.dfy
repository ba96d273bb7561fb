/** The bounded record history against the unbounded one, over whole runs of the tracker. */
module TrackerTheory {
  import opened Prelude
  import opened Tracker
  import Lru

  // ----- counting in a truncated, time-ordered history -----

  ghost predicate Sorted(hits: seq<Hit>) {
    forall i, j :: 0 <= i < j < |hits| ==> hits[i].ts <= hits[j].ts
  }

  lemma {:induction false} CountConcat(a: seq<Hit>, b: seq<Hit>, path: string, window: Time, now: Time)
    requires a != []
    ensures Count(a + b, path, window, now) == Count(a, path, window, now) + Count(b, path, window, now)
  {
    if b == [] {
      assert a + b == a;
    } else {
      var n := |b| - 1;
      assert (a + b)[..|a| + n] == a + b[..n];
      CountConcat(a, b[..n], path, window, now);
    }
  }

  lemma CountSplit(hits: seq<Hit>, cut: nat, path: string, window: Time, now: Time)
    requires cut <= |hits|
    ensures Count(hits, path, window, now) == Count(hits[..cut], path, window, now) + Count(hits[cut..], path, window, now)
  {
    if cut == 0 {
      assert hits[..cut] == [] && hits[cut..] == hits;
    } else {
      assert hits == hits[..cut] + hits[cut..];
      CountConcat(hits[..cut], hits[cut..], path, window, now);
    }
  }

  lemma {:induction false} CountSome(hits: seq<Hit>, path: string, window: Time, now: Time)
    ensures Count(hits, path, window, now) <= |hits|
    ensures Count(hits, path, window, now) <= Count(hits, "", window, now)
    ensures Count(hits, path, window, now) == |hits| ||
            exists i :: 0 <= i < |hits| && !Counts(hits[i], path, window, now)
  {
    if hits != [] {
      var n := |hits| - 1;
      CountSome(hits[..n], path, window, now);
      if i :| 0 <= i < n && !Counts(hits[..n][i], path, window, now) {
        assert !Counts(hits[i], path, window, now);
      }
    }
  }

  lemma {:induction false} CountNone(hits: seq<Hit>, path: string, window: Time, now: Time)
    requires forall i :: 0 <= i < |hits| ==> !Counts(hits[i], "", window, now)
    ensures Count(hits, path, window, now) == 0
  {
    if hits != [] {
      CountNone(hits[..|hits| - 1], path, window, now);
    }
  }

  /** The dropped part of a time-ordered history counts nothing, unless the kept part is all
      in the window. */
  lemma DroppedIsOlder(hits: seq<Hit>, cut: nat, window: Time, now: Time)
    requires Sorted(hits) && cut <= |hits| && Count(hits[cut..], "", window, now) < |hits| - cut
    ensures forall i :: 0 <= i < cut ==> !Counts(hits[i], "", window, now)
  {
    CountSome(hits[cut..], "", window, now);
    var j :| 0 <= j < |hits[cut..]| && !Counts(hits[cut..][j], "", window, now);
    assert hits[cut..][j] == hits[cut + j];
    forall i | 0 <= i < cut ensures !Counts(hits[i], "", window, now) {
      assert hits[i].ts <= hits[cut + j].ts;
    }
  }

  /** Counting all paths in the kept hits gives the true count, capped at what is kept; on one
      path it gives the true count whenever the window holds no more hits than are kept, and
      never more. */
  lemma CountKept(hits: seq<Hit>, n: nat, path: string, window: Time, now: Time)
    requires Sorted(hits)
    ensures Count(Keep(Last(n), hits), "", window, now) == Min(n, Count(hits, "", window, now))
    ensures Count(Keep(Last(n), hits), path, window, now) <= Count(hits, path, window, now)
    ensures Count(hits, "", window, now) <= n ==>
              Count(Keep(Last(n), hits), path, window, now) == Count(hits, path, window, now)
  {
    CountSome(hits, "", window, now);
    CountSome(hits, path, window, now);
    if |hits| > n {
      var cut := |hits| - n;
      CountSplit(hits, cut, "", window, now);
      CountSplit(hits, cut, path, window, now);
      DroppedCount(hits, cut, path, window, now);
      CountSome(hits[cut..], "", window, now);
    }
  }

  lemma DroppedCount(hits: seq<Hit>, cut: nat, path: string, window: Time, now: Time)
    requires Sorted(hits) && cut <= |hits|
    ensures Count(hits[cut..], "", window, now) < |hits| - cut ==>
              Count(hits[..cut], "", window, now) == Count(hits[..cut], path, window, now) == 0
    ensures Count(hits[..cut], path, window, now) <= Count(hits[..cut], "", window, now)
  {
    CountSome(hits[..cut], path, window, now);
    if Count(hits[cut..], "", window, now) < |hits| - cut {
      DroppedIsOlder(hits, cut, window, now);
      CountNone(hits[..cut], path, window, now);
      CountNone(hits[..cut], "", window, now);
    }
  }

  /** rate-limit on the 64 kept hits means rate-limit on the full history exactly for values
      up to 63. */
  lemma RateLimitAgreesIff(v: int, window: Time, now: Time)
    ensures v <= 63 <==>
      forall hits :: Sorted(hits) ==>
        (Count(Keep(Last(64), hits), "", window, now) > v <==> Count(hits, "", window, now) > v)
  {
    forall hits | Sorted(hits)
      ensures Count(Keep(Last(64), hits), "", window, now) == Min(64, Count(hits, "", window, now))
    {
      CountKept(hits, 64, "", window, now);
    }
    if v > 63 {
      Crowd(v + 1, window, now);
    }
  }

  /** min-prior-pageviews agrees exactly for values up to 64. */
  lemma MinPriorAgreesIff(v: int, window: Time, now: Time)
    ensures v <= 64 <==>
      forall hits :: Sorted(hits) ==>
        (Count(Keep(Last(64), hits), "", window, now) >= v <==> Count(hits, "", window, now) >= v)
  {
    forall hits | Sorted(hits)
      ensures Count(Keep(Last(64), hits), "", window, now) == Min(64, Count(hits, "", window, now))
    {
      CountKept(hits, 64, "", window, now);
    }
    if v > 64 {
      Crowd(v, window, now);
    }
  }

  /** On a path the kept hits count as the full history exactly when no hit on it that was
      dropped is in the window. */
  lemma PathAgreesIff(hits: seq<Hit>, n: nat, path: string, window: Time, now: Time)
    ensures Count(Keep(Last(n), hits), path, window, now) == Count(hits, path, window, now) <==>
            |hits| <= n || forall i :: 0 <= i < |hits| - n ==> !Counts(hits[i], path, window, now)
  {
    if |hits| > n {
      var cut := |hits| - n;
      CountSplit(hits, cut, path, window, now);
      CountIsZeroIff(hits[..cut], path, window, now);
      assert forall i :: 0 <= i < cut ==> hits[..cut][i] == hits[i];
    }
  }

  lemma {:induction false} CountIsZeroIff(hits: seq<Hit>, path: string, window: Time, now: Time)
    ensures Count(hits, path, window, now) == 0 <==> forall i :: 0 <= i < |hits| ==> !Counts(hits[i], path, window, now)
  {
    if hits != [] {
      var n := |hits| - 1;
      CountIsZeroIff(hits[..n], path, window, now);
      assert forall i :: 0 <= i < n ==> hits[..n][i] == hits[i];
    }
  }

  /** What endpoint-rate-limit asks of a path. */
  ghost predicate Limits(hits: seq<Hit>, path: string, v: int, window: Time, now: Time) {
    Count(hits, path, window, now) + 1 >= v
  }

  /** endpoint-rate-limit on the 64 kept hits agrees with the full history, on all histories,
      only for values that always fire: hits on other paths push those that count out. */
  lemma EndpointAgreesIff(path: string, v: int, window: Time, now: Time)
    requires path != ""
    ensures v <= 1 <==>
      forall hits :: Sorted(hits) ==> (Limits(Keep(Last(64), hits), path, v, window, now) <==> Limits(hits, path, v, window, now))
  {
    if v > 1 {
      var hits := Diluted(path, v - 1, now);
      DilutedCounts(path, v - 1, window, now);
      assert Sorted(hits) && Limits(hits, path, v, window, now) && !Limits(Keep(Last(64), hits), path, v, window, now);
    }
  }

  /** `n` hits on the path, then 64 on another one. */
  ghost function Diluted(path: string, n: nat, now: Time): seq<Hit> {
    seq(n + 64, i => Hit(now, if i < n then path else ""))
  }

  lemma DilutedCounts(path: string, n: nat, window: Time, now: Time)
    requires path != ""
    ensures var hits := Diluted(path, n, now);
      && Sorted(hits) && Count(hits, path, window, now) == n
      && Count(Keep(Last(64), hits), path, window, now) == 0
  {
    var hits := Diluted(path, n, now);
    CountSplit(hits, n, path, window, now);
    AllCount(hits[..n], path, window, now);
    CountIsZeroIff(hits[n..], path, window, now);
    assert Keep(Last(64), hits) == hits[n..];
  }

  lemma {:induction false} AllCount(hits: seq<Hit>, path: string, window: Time, now: Time)
    requires forall i :: 0 <= i < |hits| ==> Counts(hits[i], path, window, now)
    ensures Count(hits, path, window, now) == |hits|
  {
    if hits != [] {
      AllCount(hits[..|hits| - 1], path, window, now);
    }
  }

  /** There are time-ordered histories with any number of hits in the window. */
  lemma {:induction false} Crowd(n: nat, window: Time, now: Time)
    ensures exists hits :: Sorted(hits) && Count(hits, "", window, now) == n
  {
    var hits := seq(n, _ => Hit(now, ""));
    CountSome(hits, "", window, now);
    assert Sorted(hits) && Count(hits, "", window, now) == n;
  }

  // ----- runs -----

  datatype Op =
    | Hits(key: string, path: string, now: Time)  // Record
    | Solve(key: string, now: Time)               // MarkChallengePassed
    | Query(key: string, now: Time)               // ChallengePassed, or Evaluate with checks

  datatype Run = Start | Then(before: Run, last: Op)

  ghost function Step(recs: Recs, ttl: Time, limit: Limit, op: Op): (recs': Recs)
    requires recs.Valid()
    ensures recs'.Valid() && recs'.cap == recs.cap
  {
    match op
    case Hits(key, path, now) => Record(recs, ttl, limit, key, path, now)
    case Solve(key, now) => Mark(recs, ttl, key, now)
    case Query(key, now) => Fetch(recs, ttl, key, now).0
  }

  ghost function EmptyRecs(cap: nat): (recs: Recs)
    requires 0 < cap
    ensures recs.Valid() && recs.cap == cap
  {
    var recs := Lru.Empty<string, Rec>(cap);
    assert forall k :: recs.Resident(k);
    recs
  }

  ghost function After(cap: nat, ttl: Time, limit: Limit, run: Run): (recs: Recs)
    requires 0 < cap
    ensures recs.Valid() && recs.cap == cap
  {
    match run
    case Start => EmptyRecs(cap)
    case Then(before, op) => Step(After(cap, ttl, limit, before), ttl, limit, op)
  }

  /** The clock does not go back. */
  predicate Clocked(run: Run) {
    run.Then? ==> Clocked(run.before) && (run.before.Then? ==> run.before.last.now <= run.last.now)
  }

  // ----- the 64 kept hits refine the full history -----

  ghost function Truncated(r: Rec): Rec {
    r.(pageviews := Keep(MAX_PAGEVIEW_STAMPS, r.pageviews))
  }

  ghost predicate Truncates(b: Recs, f: Recs) {
    && Lru.Mirrors(b, f)
    && forall k :: k in f.items ==> b.items[k] == Truncated(f.items[k])
  }

  lemma KeepPush(hits: seq<Hit>, h: Hit)
    ensures Keep(MAX_PAGEVIEW_STAMPS, Push(Keep(MAX_PAGEVIEW_STAMPS, hits), h))
         == Keep(MAX_PAGEVIEW_STAMPS, Push(hits, h))
  {
  }

  lemma FetchTruncates(b: Recs, f: Recs, ttl: Time, key: string, now: Time)
    requires b.Valid() && f.Valid() && Truncates(b, f)
    ensures Truncates(Fetch(b, ttl, key, now).0, Fetch(f, ttl, key, now).0)
    ensures var rb, rf := Fetch(b, ttl, key, now).1, Fetch(f, ttl, key, now).1;
      rb == if rf.None? then None else Some(Truncated(rf.value))
  {
  }

  lemma StoreTruncates(b: Recs, f: Recs, key: string, rb: Rec, rf: Rec)
    requires b.Valid() && f.Valid() && Truncates(b, f) && rb == Truncated(rf)
    ensures Truncates(Store(b, key, rb), Store(f, key, rf))
  {
    Lru.MirrorsAdd(b, f, key, rb, rf);
  }

  lemma StepTruncates(b: Recs, f: Recs, ttl: Time, op: Op)
    requires b.Valid() && f.Valid() && Truncates(b, f)
    ensures Truncates(Step(b, ttl, MAX_PAGEVIEW_STAMPS, op), Step(f, ttl, Unbounded, op))
  {
    FetchTruncates(b, f, ttl, op.key, op.now);
    if op.key != "" && !op.Query? {
      var b', f' := Fetch(b, ttl, op.key, op.now).0, Fetch(f, ttl, op.key, op.now).0;
      var rb, rf := Base(b, ttl, op.key, op.now), Base(f, ttl, op.key, op.now);
      if op.Hits? {
        KeepPush(rf.pageviews, Hit(op.now, op.path));
        StoreTruncates(b', f', op.key, Recorded(rb, MAX_PAGEVIEW_STAMPS, op.path, op.now), Recorded(rf, Unbounded, op.path, op.now));
      } else {
        StoreTruncates(b', f', op.key, Marked(rb, op.now), Marked(rf, op.now));
      }
    }
  }

  /** In every run the tracker is the unbounded tracker with each history cut to its last 64
      hits: the same sessions, in the same recency order, with the same other fields. */
  lemma {:induction false} BoundedRefinesFull(cap: nat, ttl: Time, run: Run)
    requires 0 < cap
    ensures Truncates(After(cap, ttl, MAX_PAGEVIEW_STAMPS, run), After(cap, ttl, Unbounded, run))
  {
    if run.Then? {
      BoundedRefinesFull(cap, ttl, run.before);
      StepTruncates(After(cap, ttl, MAX_PAGEVIEW_STAMPS, run.before), After(cap, ttl, Unbounded, run.before), ttl, run.last);
    }
  }

  ghost predicate Ordered(recs: Recs, now: Time) {
    forall k :: k in recs.items ==> OrderedRec(recs.items[k], now)
  }

  ghost predicate OrderedRec(r: Rec, now: Time) {
    Sorted(r.pageviews) && (r.pageviews != [] ==> r.pageviews[|r.pageviews| - 1].ts <= now)
  }

  lemma StepOrdered(recs: Recs, ttl: Time, op: Op)
    requires recs.Valid() && Ordered(recs, op.now)
    ensures Ordered(Step(recs, ttl, Unbounded, op), op.now)
  {
    if op.key != "" && !op.Query? {
      var base := Base(recs, ttl, op.key, op.now);
      assert OrderedRec(base, op.now);
      var r := if op.Hits? then Recorded(base, Unbounded, op.path, op.now) else Marked(base, op.now);
      assert OrderedRec(r, op.now);
      Lru.MirrorsAdd(Fetch(recs, ttl, op.key, op.now).0, Fetch(recs, ttl, op.key, op.now).0, op.key, r, r);
    }
  }

  lemma {:induction false} RunOrdered(cap: nat, ttl: Time, run: Run)
    requires 0 < cap && Clocked(run) && run.Then?
    ensures Ordered(After(cap, ttl, Unbounded, run), run.last.now)
  {
    if run.before.Then? {
      RunOrdered(cap, ttl, run.before);
    }
    StepOrdered(After(cap, ttl, Unbounded, run.before), ttl, run.last);
  }

  /** Checks whose answer the last 64 hits determine. */
  predicate WithinMemory(c: Check) {
    match c.kind
    case MinPriorPageviews => c.value <= 64
    case RateLimit => c.value <= 63
    case EndpointRateLimit => false
    case _ => true
  }

  lemma CheckAgrees(c: Check, full: Option<Rec>, path: string, now: Time)
    requires full.Some? ==> Sorted(full.value.pageviews)
    ensures var kept := if full.None? then None else Some(Truncated(full.value));
      && (WithinMemory(c) ==> (EvalCheck(c, kept, path, now) <==> EvalCheck(c, full, path, now)))
      && (c.kind == EndpointRateLimit && EvalCheck(c, kept, path, now) ==> EvalCheck(c, full, path, now))
  {
    if full.Some? {
      CountKept(full.value.pageviews, 64, if c.match_ != "" then c.match_ else path, c.window, now);
    }
  }

  /** The tracker's verdict in any run is the verdict over the full histories, for matchers
      whose checks the memory bound covers. */
  lemma EvaluateAgrees(cap: nat, ttl: Time, run: Run, sm: SessionMatchers, key: string, path: string, now: Time)
    requires 0 < cap && Clocked(run)
    requires forall i :: 0 <= i < |sm.checks| ==> WithinMemory(sm.checks[i])
    ensures Evaluate(After(cap, ttl, MAX_PAGEVIEW_STAMPS, run), ttl, sm, key, path, now).1
        <==> Evaluate(After(cap, ttl, Unbounded, run), ttl, sm, key, path, now).1
  {
    var b, f := After(cap, ttl, MAX_PAGEVIEW_STAMPS, run), After(cap, ttl, Unbounded, run);
    BoundedRefinesFull(cap, ttl, run);
    FetchTruncates(b, f, ttl, key, now);
    if run.Then? {
      RunOrdered(cap, ttl, run);
    }
    var kept, full := Fetch(b, ttl, key, now).1, Fetch(f, ttl, key, now).1;
    forall i | 0 <= i < |sm.checks|
      ensures Holds(sm.checks[i], kept, path, now) <==> Holds(sm.checks[i], full, path, now)
    {
      CheckAgrees(sm.checks[i], full, path, now);
    }
  }

  // ----- nothing in the window is lost to the TTL -----

  /** `all` is every hit ever recorded for `key`; the record holds what came after the first
      `m` of them, and those are out of the window. */
  ghost predicate Covers(recs: Recs, window: Time, key: string, all: seq<Hit>, m: nat, now: Time) {
    && Sorted(all) && m <= |all| && (forall i :: 0 <= i < |all| ==> all[i].ts <= now)
    && (forall i :: 0 <= i < m ==> all[i].ts <= now - window)
    && if key in recs.items then CoversRec(recs.items[key], all, m, now) else m == |all|
  }

  ghost predicate CoversRec(r: Rec, all: seq<Hit>, m: nat, now: Time)
    requires m <= |all|
  {
    && r.pageviews == Keep(MAX_PAGEVIEW_STAMPS, all[m..]) && r.lastSeen <= now
    && forall i :: 0 <= i < |all| ==> all[i].ts <= r.lastSeen
  }

  /** Time passes, and the session's record is fetched: it is dropped only when nothing of it
      is in the window. */
  lemma FetchCovers(recs: Recs, ttl: Time, window: Time, key: string, all: seq<Hit>, m: nat, now: Time, now': Time)
    returns (m': nat)
    requires recs.Valid() && 0 < window <= ttl && now <= now' && Covers(recs, window, key, all, m, now)
    ensures Covers(Fetch(recs, ttl, key, now').0, window, key, all, m', now')
    ensures var r := Fetch(recs, ttl, key, now').1;
      if r.Some? then CoversRec(r.value, all, m', now') else m' == |all|
  {
    var live := Fetch(recs, ttl, key, now').1;
    m' := if live.Some? then m else |all|;
    Lru.TouchValid(recs, key);
  }

  lemma RecordCovers(recs: Recs, ttl: Time, window: Time, key: string, path: string, all: seq<Hit>, m: nat, now: Time, now': Time)
    returns (m': nat)
    requires recs.Valid() && 0 < window <= ttl && now <= now' && Covers(recs, window, key, all, m, now) && key != ""
    ensures Covers(Record(recs, ttl, MAX_PAGEVIEW_STAMPS, key, path, now'), window, key, Push(all, Hit(now', path)), m', now')
  {
    m' := FetchCovers(recs, ttl, window, key, all, m, now, now');
    var h := Hit(now', path);
    assert Push(all, h)[m'..] == Push(all[m'..], h);
    KeepPush(all[m'..], h);
  }

  lemma MarkCovers(recs: Recs, ttl: Time, window: Time, key: string, all: seq<Hit>, m: nat, now: Time, now': Time)
    returns (m': nat)
    requires recs.Valid() && 0 < window <= ttl && now <= now' && Covers(recs, window, key, all, m, now) && key != ""
    ensures Covers(Mark(recs, ttl, key, now'), window, key, all, m', now')
  {
    m' := FetchCovers(recs, ttl, window, key, all, m, now, now');
    assert all[|all|..] == [];
  }

  /** What another session does leaves the record alone, as long as nothing is evicted. */
  lemma OtherCovers(recs: Recs, recs': Recs, window: Time, key: string, all: seq<Hit>, m: nat, now: Time, now': Time)
    requires now <= now' && Covers(recs, window, key, all, m, now)
    requires key in recs.items <==> key in recs'.items
    requires key in recs.items ==> recs'.items[key] == recs.items[key]
    ensures Covers(recs', window, key, all, m, now')
  {
  }

  /** While the window holds at most 64 hits of the session, the record counts each path as
      the full history does. */
  lemma CoveredCount(r: Option<Rec>, window: Time, path: string, all: seq<Hit>, m: nat, now: Time)
    requires 0 < window && Sorted(all) && m <= |all| && (forall i :: 0 <= i < m ==> all[i].ts <= now - window)
    requires if r.Some? then CoversRec(r.value, all, m, now) else m == |all|
    requires Count(all, "", window, now) <= 64
    ensures Count(if r.Some? then r.value.pageviews else [], path, window, now) == Count(all, path, window, now)
  {
    var recent := all[m..];
    CountNone(all[..m], path, window, now);
    CountNone(all[..m], "", window, now);
    CountSplit(all, m, path, window, now);
    CountSplit(all, m, "", window, now);
    CountKept(recent, 64, path, window, now);
    assert r.None? ==> recent == [];
  }
}
