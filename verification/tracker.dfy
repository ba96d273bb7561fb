/** The session tracker: per-session records in a bounded cache with a TTL. A record keeps
    only its most recent hits. */
module Tracker {
  import opened Prelude
  import Lru
  import Text

  datatype Hit = Hit(ts: Time, path: string)

  /** The contents of a session record. */
  datatype Rec = Rec(firstSeen: Time, lastSeen: Time, lastPath: string, passed: bool, pageviews: seq<Hit>)

  type Recs = Lru.Cache<string, Rec>

  /** How many hits a record may keep; the tracker itself always uses `Last(64)`. */
  datatype Limit = Unbounded | Last(n: nat)

  const MAX_PAGEVIEW_STAMPS := Last(64)

  datatype CheckType =
    | SessionSeenBefore
    | ChallengePassed
    | MinPriorPageviews
    | RateLimit
    | EndpointRateLimit
    | LastPathMatches
    | Other(name: string)

  datatype Check = Check(kind: CheckType, negate: bool, value: int, window: Time, match_: string)

  datatype SessionMatchers = SessionMatchers(condition: string, checks: seq<Check>)

  function NewRec(now: Time): Rec {
    Rec(now, 0, "", false, [])
  }

  function Keep(limit: Limit, hits: seq<Hit>): seq<Hit> {
    if limit.Last? && |hits| > limit.n then hits[|hits| - limit.n..] else hits
  }

  /** `get`: a live record, now the most recently used; an expired one is dropped. */
  function Fetch(recs: Recs, ttl: Time, key: string, now: Time): (r: (Recs, Option<Rec>))
    requires recs.Valid()
    ensures r.0.Valid() && r.0.cap == recs.cap
  {
    Lru.TouchValid(recs, key);
    if key !in recs.items then (recs, None)
    else if now - recs.items[key].lastSeen > ttl then
      (recs.Remove(key), None)
    else (recs.Touch(key), Some(recs.items[key]))
  }

  function Recorded(r: Rec, limit: Limit, path: string, now: Time): Rec {
    r.(lastSeen := now, lastPath := path, pageviews := Keep(limit, Push(r.pageviews, Hit(now, path))))
  }

  function Marked(r: Rec, now: Time): Rec {
    r.(lastSeen := now, passed := true)
  }

  /** The record a session's update starts from. */
  function Base(recs: Recs, ttl: Time, key: string, now: Time): Rec
    requires recs.Valid()
  {
    var r := Fetch(recs, ttl, key, now).1;
    if r.Some? then r.value else NewRec(now)
  }

  function Store(recs: Recs, key: string, r: Rec): (recs': Recs)
    requires recs.Valid()
    ensures recs'.Valid() && recs'.cap == recs.cap && key in recs'.items && recs'.items[key] == r
  {
    Lru.AddValid(recs, key, r);
    recs.Add(key, r)
  }

  function Record(recs: Recs, ttl: Time, limit: Limit, key: string, path: string, now: Time): (recs': Recs)
    requires recs.Valid()
    ensures recs'.Valid() && recs'.cap == recs.cap
  {
    if key == "" then recs
    else Store(Fetch(recs, ttl, key, now).0, key, Recorded(Base(recs, ttl, key, now), limit, path, now))
  }

  function Mark(recs: Recs, ttl: Time, key: string, now: Time): (recs': Recs)
    requires recs.Valid()
    ensures recs'.Valid() && recs'.cap == recs.cap
  {
    if key == "" then recs
    else Store(Fetch(recs, ttl, key, now).0, key, Marked(Base(recs, ttl, key, now), now))
  }

  function Passed(recs: Recs, ttl: Time, key: string, now: Time): (r: (Recs, bool))
    requires recs.Valid()
    ensures r.0.Valid() && r.0.cap == recs.cap
  {
    if key == "" then (recs, false)
    else
      var (recs', r) := Fetch(recs, ttl, key, now);
      (recs', r.Some? && r.value.passed)
  }

  // ----- session-matchers -----

  predicate Counts(h: Hit, path: string, window: Time, now: Time) {
    (path == "" || h.path == path) && (window <= 0 || h.ts > now - window)
  }

  function Count(hits: seq<Hit>, path: string, window: Time, now: Time): nat {
    if hits == [] then 0
    else
      var n := |hits| - 1;
      Count(hits[..n], path, window, now) + if Counts(hits[n], path, window, now) then 1 else 0
  }

  /** Slicing out the inside of a lone "*" panics, unless the pattern equals the text. */
  predicate GlobDefined(pattern: string, s: string) {
    pattern == "*" ==> s == "*"
  }

  predicate HasSuffix(s: string, p: string) {
    |s| >= |p| && s[|s| - |p|..] == p
  }

  /** (Where the program would panic this is false, which no method relies on.) */
  predicate MatchGlob(pattern: string, s: string) {
    if pattern == "" then false
    else if pattern == s then true
    else if pattern == "*" then false
    else
      var last := |pattern| - 1;
      if pattern[0] == '*' && pattern[last] == '*' then
        pattern[1..last] != "" && Text.Contains(s, pattern[1..last])
      else if pattern[last] == '*' then pattern[..last] <= s
      else pattern[0] == '*' && HasSuffix(s, pattern[1..])
  }

  /** The check does not slice a lone "*" on this record. */
  predicate Defined(c: Check, seen: Option<Rec>) {
    c.kind == LastPathMatches && seen.Some? && seen.value.lastPath != "" ==> GlobDefined(c.match_, seen.value.lastPath)
  }

  predicate EvalCheck(c: Check, seen: Option<Rec>, path: string, now: Time) {
    var hits := if seen.Some? then seen.value.pageviews else [];
    match c.kind
    case SessionSeenBefore => seen.Some?
    case ChallengePassed => seen.Some? && seen.value.passed
    case MinPriorPageviews => Count(hits, "", c.window, now) >= c.value
    case RateLimit => Count(hits, "", c.window, now) > c.value
    case EndpointRateLimit =>
      Count(hits, if c.match_ != "" then c.match_ else path, c.window, now) + 1 >= c.value
    case LastPathMatches => seen.Some? && seen.value.lastPath != "" && MatchGlob(c.match_, seen.value.lastPath)
    case Other(_) => false
  }

  /** A possibly negated check holds. */
  predicate Holds(c: Check, seen: Option<Rec>, path: string, now: Time) {
    EvalCheck(c, seen, path, now) != c.negate
  }

  /** No check can slice a lone "*", whatever the record. */
  predicate Starless(sm: SessionMatchers) {
    forall i :: 0 <= i < |sm.checks| ==> !(sm.checks[i].kind == LastPathMatches && sm.checks[i].match_ == "*")
  }

  predicate IsAnd(sm: SessionMatchers) {
    sm.condition == "" || sm.condition == "and"
  }

  /** What the matchers mean: all checks, or some check; never anything without checks. */
  predicate Fires(sm: SessionMatchers, seen: Option<Rec>, path: string, now: Time) {
    && sm.checks != []
    && if IsAnd(sm) then forall i :: 0 <= i < |sm.checks| ==> Holds(sm.checks[i], seen, path, now)
       else exists i :: 0 <= i < |sm.checks| && Holds(sm.checks[i], seen, path, now)
  }

  /** The evaluation gets to check `i`. */
  predicate Reached(sm: SessionMatchers, i: nat, seen: Option<Rec>, path: string, now: Time)
    requires i <= |sm.checks|
  {
    forall j :: 0 <= j < i ==> Holds(sm.checks[j], seen, path, now) == IsAnd(sm)
  }

  /** No check that is reached slices a lone "*". */
  predicate Answerable(sm: SessionMatchers, seen: Option<Rec>, path: string, now: Time) {
    forall i :: 0 <= i < |sm.checks| && Reached(sm, i, seen, path, now) ==> Defined(sm.checks[i], seen)
  }

  function Evaluate(recs: Recs, ttl: Time, sm: SessionMatchers, key: string, path: string, now: Time): (r: (Recs, bool))
    requires recs.Valid()
    ensures r.0.Valid() && r.0.cap == recs.cap
  {
    if sm.checks == [] then (recs, false)
    else
      var (recs', seen) := Fetch(recs, ttl, key, now);
      (recs', Fires(sm, seen, path, now))
  }

  method CountWithin(hits: seq<Hit>, path: string, window: Time, now: Time) returns (n: nat)
    ensures n == Count(hits, path, window, now)
  {
    var cutoff := now - window;
    n := 0;
    for i := 0 to |hits|
      invariant n == Count(hits[..i], path, window, now)
    {
      assert hits[..i + 1][..i] == hits[..i];
      var h := hits[i];
      if path != "" && h.path != path {
        continue;
      }
      if window <= 0 || h.ts > cutoff {
        n := n + 1;
      }
    }
    assert hits[..|hits|] == hits;
  }

  method ContainsStr(s: string, sub: string) returns (found: bool)
    ensures found == Text.Contains(s, sub)
  {
    var i := 0;
    while i + |sub| <= |s|
      invariant 0 <= i
      invariant forall j :: 0 <= j < i ==> !Text.OccursAt(s, sub, j)
    {
      if s[i..i + |sub|] == sub {
        assert Text.OccursAt(s, sub, i);
        return true;
      }
      i := i + 1;
    }
    return false;
  }

  method RunGlob(pattern: string, s: string) returns (hit: bool)
    requires GlobDefined(pattern, s)
    ensures hit == MatchGlob(pattern, s)
  {
    if pattern == "" {
      return false;
    }
    if pattern == s {
      return true;
    }
    var last := |pattern| - 1;
    if pattern[0] == '*' && pattern[last] == '*' {
      var inner := pattern[1..last];
      var found := ContainsStr(s, inner);
      return inner != "" && found;
    }
    if pattern[last] == '*' {
      return pattern[..last] <= s;
    }
    return pattern[0] == '*' && |s| >= |pattern| - 1 && s[|s| - (|pattern| - 1)..] == pattern[1..];
  }

  method RunCheck(c: Check, seen: Option<Rec>, path: string, now: Time) returns (got: bool)
    requires Defined(c, seen)
    ensures got == EvalCheck(c, seen, path, now)
  {
    var hits := if seen.Some? then seen.value.pageviews else [];
    match c.kind {
      case SessionSeenBefore =>
        got := seen.Some?;
      case ChallengePassed =>
        got := seen.Some? && seen.value.passed;
      case MinPriorPageviews =>
        var n := CountWithin(hits, "", c.window, now);
        got := n >= c.value;
      case RateLimit =>
        var n := CountWithin(hits, "", c.window, now);
        got := n > c.value;
      case EndpointRateLimit =>
        var n := CountWithin(hits, if c.match_ != "" then c.match_ else path, c.window, now);
        got := n + 1 >= c.value;
      case LastPathMatches =>
        if seen.Some? && seen.value.lastPath != "" {
          got := RunGlob(c.match_, seen.value.lastPath);
        } else {
          got := false;
        }
      case Other(_) =>
        got := false;
    }
  }

  class SessionRecord {
    var firstSeen: Time
    var lastSeen: Time
    var lastPath: string
    var challengePassed: bool
    var pageviews: seq<Hit>
    /** The session the record belongs to. */
    ghost const owner: string

    constructor (now: Time, ghost owner: string)
      ensures Abs() == NewRec(now) && this.owner == owner
    {
      firstSeen, lastSeen, lastPath, challengePassed, pageviews := now, 0, "", false, [];
      this.owner := owner;
    }

    function Abs(): Rec
      reads this
    {
      Rec(firstSeen, lastSeen, lastPath, challengePassed, pageviews)
    }

    method Pass(now: Time)
      modifies this
      ensures Abs() == Marked(old(Abs()), now)
    {
      challengePassed := true;
      lastSeen := now;
    }

    method AddHit(path: string, now: Time)
      modifies this
      ensures Abs() == Recorded(old(Abs()), MAX_PAGEVIEW_STAMPS, path, now)
    {
      lastSeen := now;
      lastPath := path;
      pageviews := Push(pageviews, Hit(now, path));
      if |pageviews| > 64 {
        pageviews := pageviews[|pageviews| - 64..];
      }
    }
  }

  class SessionTracker {
    const ttl: Time
    var cache: Lru.Cache<string, SessionRecord>
    /** The record contents, without the record objects. */
    ghost var recs: Recs
    ghost var Repr: set<object>

    ghost predicate Valid()
      reads this, Repr
      ensures Valid() ==> this in Repr
    {
      && this in Repr
      && cache.Valid() && recs.Valid() && Lru.Mirrors(cache, recs)
      && forall k :: k in cache.items ==> Owns(k)
    }

    ghost predicate Owns(k: string)
      requires k in cache.items && k in recs.items
      reads this, Repr
    {
      cache.items[k] in Repr && cache.items[k].owner == k && recs.items[k] == cache.items[k].Abs()
    }

    constructor (maxEntries: int, ttl: Time)
      ensures Valid() && fresh(Repr) && this.ttl == ttl
      ensures recs == Lru.Empty(if maxEntries <= 0 then 100000 else maxEntries)
    {
      this.ttl := ttl;
      cache := Lru.Empty(if maxEntries <= 0 then 100000 else maxEntries);
      recs := Lru.Empty(if maxEntries <= 0 then 100000 else maxEntries);
      Repr := {this};
    }

    method Get(key: string, now: Time) returns (r: SessionRecord?)
      requires Valid()
      modifies this`cache, this`recs
      ensures Valid()
      ensures recs == Fetch(old(recs), ttl, key, now).0
      ensures Fetch(old(recs), ttl, key, now).1 == if r == null then None else Some(r.Abs())
      ensures r != null ==> key in cache.items && r == cache.items[key]
    {
      if key !in cache.items {
        return null;
      }
      Lru.TouchValid(cache, key);
      Lru.TouchValid(recs, key);
      r := cache.items[key];
      if now - r.lastSeen > ttl {
        cache, recs := cache.Remove(key), recs.Remove(key);
        return null;
      }
      cache, recs := cache.Touch(key), recs.Touch(key);
    }

    /** Adds `r` as the record of `key`; the other records are in order. */
    method Put(key: string, r: SessionRecord)
      requires this in Repr && cache.Valid() && recs.Valid() && Lru.Mirrors(cache, recs) && r.owner == key
      requires forall k :: k in cache.items && k != key ==> Owns(k)
      modifies this`cache, this`recs, this`Repr
      ensures Valid() && Repr == old(Repr) + {r}
      ensures recs == Store(old(recs), key, r.Abs())
    {
      Lru.MirrorsAdd(cache, recs, key, r, r.Abs());
      Lru.AddValid(recs, key, r.Abs());
      cache, recs := cache.Add(key, r), recs.Add(key, r.Abs());
      Repr := Repr + {r};
    }

    method Obtain(key: string, now: Time) returns (r: SessionRecord)
      requires Valid()
      modifies this`cache, this`recs
      ensures Valid() && r.owner == key
      ensures recs == Fetch(old(recs), ttl, key, now).0 && r.Abs() == Base(old(recs), ttl, key, now)
      ensures if key in cache.items then r == cache.items[key] else fresh(r)
    {
      var got := Get(key, now);
      if got == null {
        r := new SessionRecord(now, key);
      } else {
        r := got;
      }
    }

    method RecordHit(key: string, path: string, now: Time)
      requires Valid()
      modifies Repr
      ensures Valid() && fresh(Repr - old(Repr))
      ensures recs == Record(old(recs), ttl, MAX_PAGEVIEW_STAMPS, key, path, now)
    {
      if key == "" {
        return;
      }
      var r := Obtain(key, now);
      r.AddHit(path, now);
      Put(key, r);
    }

    method MarkChallengePassed(key: string, now: Time)
      requires Valid()
      modifies Repr
      ensures Valid() && fresh(Repr - old(Repr))
      ensures recs == Mark(old(recs), ttl, key, now)
    {
      if key == "" {
        return;
      }
      var r := Obtain(key, now);
      r.Pass(now);
      Put(key, r);
    }

    method HasPassed(key: string, now: Time) returns (passed: bool)
      requires Valid()
      modifies this`cache, this`recs
      ensures Valid()
      ensures (recs, passed) == Passed(old(recs), ttl, key, now)
    {
      if key == "" {
        return false;
      }
      var r := Get(key, now);
      return r != null && r.challengePassed;
    }

    method Eval(sm: SessionMatchers, key: string, path: string, now: Time) returns (fires: bool)
      requires Valid() && Answerable(sm, Fetch(recs, ttl, key, now).1, path, now)
      modifies this`cache, this`recs
      ensures Valid()
      ensures (recs, fires) == Evaluate(old(recs), ttl, sm, key, path, now)
    {
      if |sm.checks| == 0 {
        return false;
      }
      var r := Get(key, now);
      var seen := if r == null then None else Some(r.Abs());
      fires := RunChecks(sm, seen, path, now);
    }
  }

  method RunChecks(sm: SessionMatchers, seen: Option<Rec>, path: string, now: Time) returns (fires: bool)
    requires Answerable(sm, seen, path, now) && sm.checks != []
    ensures fires == Fires(sm, seen, path, now)
  {
    var conj := sm.condition == "" || sm.condition == "and";
    for i := 0 to |sm.checks|
      invariant Reached(sm, i, seen, path, now)
    {
      var got := RunCheck(sm.checks[i], seen, path, now);
      if sm.checks[i].negate {
        got := !got;
      }
      if conj {
        if !got {
          return false;
        }
      } else {
        if got {
          return true;
        }
      }
    }
    return conj;
  }
}
