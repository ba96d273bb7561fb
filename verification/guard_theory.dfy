/** Runs of the flood governor over interleaved requests of many addresses. */
module GuardTheory {
  import opened Prelude
  import opened Guard
  import Lru

  datatype Call = Call(ip: string, path: string, now: Time)

  /** The levels after the first `n` calls, from any levels to start with. */
  ghost function After(opt: RateOptions, start: Levels, calls: seq<Call>, n: nat): (levels: Levels)
    requires start.Valid() && n <= |calls|
    ensures levels.Valid() && levels.cap == start.cap
  {
    if n == 0 then start
    else Charge(opt, After(opt, start, calls, n - 1), calls[n - 1].ip, calls[n - 1].path, calls[n - 1].now).0
  }

  ghost function EmptyGuard(cap: nat): (levels: Levels)
    requires 0 < cap
    ensures levels.Valid() && levels.cap == cap
  {
    var levels := Lru.Empty<string, Level>(cap);
    assert forall k :: levels.Resident(k);
    levels
  }

  ghost predicate Verdict(opt: RateOptions, start: Levels, calls: seq<Call>, n: nat)
    requires start.Valid() && n < |calls|
  {
    Charge(opt, After(opt, start, calls, n), calls[n].ip, calls[n].path, calls[n].now).1
  }

  // ----- one address on its own -----

  /** The bucket of `ip` when only its own calls are considered. */
  ghost function Solo(opt: RateOptions, calls: seq<Call>, ip: string, n: nat): Option<Level>
    requires n <= |calls|
  {
    if n == 0 then None
    else
      var c := calls[n - 1];
      var before := Solo(opt, calls, ip, n - 1);
      if c.ip != ip then before
      else Some(Spend(Ready(opt, before, c.now), Cost(opt, c.path)).0)
  }

  /** The bucket a call finds, refilled and about to be charged. */
  ghost function Ready(opt: RateOptions, before: Option<Level>, now: Time): Level {
    Refill(opt, if before.Some? then before.value else Level(Burst(opt), now), now)
  }

  /** The addresses calling strictly between `i` and `j`. */
  ghost function Between(calls: seq<Call>, i: int, j: nat): set<string>
    requires -1 <= i && j <= |calls|
  {
    set m | i < m < j :: calls[m].ip
  }

  /** Fewer than `cap` distinct other addresses call between two consecutive calls of `ip`. */
  ghost predicate Spaced(calls: seq<Call>, ip: string, cap: nat) {
    forall i, j :: 0 <= i < j < |calls| ==> SpacedAt(calls, ip, cap, i, j)
  }

  ghost predicate SpacedAt(calls: seq<Call>, ip: string, cap: nat, i: int, j: int)
    requires 0 <= i < j < |calls|
  {
    calls[i].ip == ip && calls[j].ip == ip && ip !in Between(calls, i, j) ==> |Between(calls, i, j)| < cap
  }

  /** The address has no bucket to start with -- it never called, or was evicted -- and is not
      evicted while it calls: its bucket is created by the first of these calls. */
  ghost predicate Unevicted(start: Levels, calls: seq<Call>, ip: string) {
    ip !in start.items && Spaced(calls, ip, start.cap)
  }

  ghost function LastCall(calls: seq<Call>, ip: string, n: nat): (l: int)
    requires n <= |calls|
    ensures -1 <= l < n
    ensures 0 <= l ==> calls[l].ip == ip
    ensures ip !in Between(calls, l, n)
  {
    if n == 0 then -1
    else if calls[n - 1].ip == ip then n - 1
    else
      LastCall(calls, ip, n - 1)
  }

  lemma OwnCharge(opt: RateOptions, levels: Levels, ip: string, path: string, now: Time)
    requires levels.Valid() && 0 < opt.burst
    ensures var after, before := Charge(opt, levels, ip, path, now).0,
                                 if ip in levels.items then Some(levels.items[ip]) else None;
      && ip in after.items && after.items[ip] == Spend(Ready(opt, before, now), Cost(opt, path)).0
      && Lru.Newer(after.order, ip) == {}
  {
    Lru.WithoutProps(levels.order, ip);
    var w := Lru.Without(levels.order, ip);
    Lru.NewerLast(w, ip);
    if |w| + 1 > levels.cap {
      assert (w + [ip])[1..] == w[1..] + [ip];
      Lru.NewerLast(w[1..], ip);
    }
  }

  lemma OtherCharge(opt: RateOptions, levels: Levels, ip: string, x: string, path: string, now: Time)
    requires levels.Valid() && 0 < opt.burst && ip != x
    ensures var after := Charge(opt, levels, x, path, now).0;
      && (ip in after.items ==> ip in levels.items)
      && (ip in levels.items ==>
            if ip in after.items
            then after.items[ip] == levels.items[ip] && Lru.Newer(after.order, ip) <= Lru.Newer(levels.order, ip) + {x}
            else |Lru.Newer(levels.order, ip) + {x}| >= levels.cap)
  {
    if ip in levels.items {
      Lru.OthersSurvive(levels, ip, x, Found(opt, levels, x, now));
    }
  }

  /** The stored bucket of `ip` is the one its own calls alone produce, as long as it cannot
      have been evicted since its last call, `l`. */
  ghost predicate InStep(levels: Levels, solo: Option<Level>, ip: string, since: set<string>, l: int) {
    if l == -1 then solo == None && ip !in levels.items
    else |since| < levels.cap ==>
      && ip in levels.items && solo == Some(levels.items[ip]) && Lru.Newer(levels.order, ip) <= since
  }

  lemma OtherInStep(opt: RateOptions, levels: Levels, solo: Option<Level>, ip: string, since: set<string>, l: int, c: Call)
    requires levels.Valid() && 0 < opt.burst && c.ip != ip && InStep(levels, solo, ip, since, l)
    ensures InStep(Charge(opt, levels, c.ip, c.path, c.now).0, solo, ip, since + {c.ip}, l)
  {
    OtherCharge(opt, levels, ip, c.ip, c.path, c.now);
    Lru.SubsetCardinality(since, since + {c.ip});
    if ip in levels.items && Lru.Newer(levels.order, ip) <= since {
      Lru.SubsetCardinality(Lru.Newer(levels.order, ip) + {c.ip}, since + {c.ip});
    }
  }

  lemma OwnInStep(opt: RateOptions, levels: Levels, solo: Option<Level>, since: set<string>, l: int, c: Call, l': nat)
    requires levels.Valid() && 0 < opt.burst && InStep(levels, solo, c.ip, since, l)
    requires l != -1 ==> |since| < levels.cap
    ensures InStep(Charge(opt, levels, c.ip, c.path, c.now).0,
                   Some(Spend(Ready(opt, solo, c.now), Cost(opt, c.path)).0), c.ip, {}, l')
  {
    OwnCharge(opt, levels, c.ip, c.path, c.now);
  }

  ghost predicate StoredAt(opt: RateOptions, start: Levels, calls: seq<Call>, ip: string, n: nat, l: int)
    requires start.Valid() && n <= |calls| && -1 <= l
  {
    InStep(After(opt, start, calls, n), Solo(opt, calls, ip, n), ip, Between(calls, l, n), l)
  }

  lemma OwnStored(opt: RateOptions, start: Levels, calls: seq<Call>, ip: string, n: nat, l: int)
    requires start.Valid() && 0 < opt.burst && 0 < n <= |calls| && Unevicted(start, calls, ip) && calls[n - 1].ip == ip
    requires -1 <= l < n - 1 && (0 <= l ==> calls[l].ip == ip) && ip !in Between(calls, l, n - 1)
    requires StoredAt(opt, start, calls, ip, n - 1, l)
    ensures StoredAt(opt, start, calls, ip, n, n - 1)
  {
    assert l != -1 ==> SpacedAt(calls, ip, start.cap, l, n - 1);
    OwnInStep(opt, After(opt, start, calls, n - 1), Solo(opt, calls, ip, n - 1), Between(calls, l, n - 1), l, calls[n - 1], n - 1);
    assert Between(calls, n - 1, n) == {};
  }

  lemma OtherStored(opt: RateOptions, start: Levels, calls: seq<Call>, ip: string, n: nat, l: int)
    requires start.Valid() && 0 < opt.burst && 0 < n <= |calls| && calls[n - 1].ip != ip && -1 <= l < n - 1
    requires StoredAt(opt, start, calls, ip, n - 1, l)
    ensures StoredAt(opt, start, calls, ip, n, l)
  {
    OtherInStep(opt, After(opt, start, calls, n - 1), Solo(opt, calls, ip, n - 1), ip, Between(calls, l, n - 1), l, calls[n - 1]);
    assert Between(calls, l, n) == Between(calls, l, n - 1) + {calls[n - 1].ip};
  }

  lemma {:induction false} StoredIsSolo(opt: RateOptions, start: Levels, calls: seq<Call>, ip: string, n: nat)
    requires start.Valid() && 0 < opt.burst && n <= |calls| && Unevicted(start, calls, ip)
    ensures StoredAt(opt, start, calls, ip, n, LastCall(calls, ip, n))
  {
    if n != 0 {
      StoredIsSolo(opt, start, calls, ip, n - 1);
      if calls[n - 1].ip == ip {
        OwnStored(opt, start, calls, ip, n, LastCall(calls, ip, n - 1));
      } else {
        OtherStored(opt, start, calls, ip, n, LastCall(calls, ip, n - 1));
      }
    }
  }

  // ----- one call in numbers -----

  /** The window in nanoseconds: a minute unless it is set. */
  function WindowNanos(opt: RateOptions): (w: int)
    ensures w > 0
  {
    if opt.window > 0 then opt.window else 60_000_000_000
  }

  /** What a call costs: the weight if it is more than one and the path begins with a sensitive
      prefix, else one. */
  ghost predicate IsCost(opt: RateOptions, path: string, cost: int) {
    if opt.sensitiveWeight > 1 && exists p :: p in opt.sensitivePaths && p != "" && p <= path
    then cost == opt.sensitiveWeight else cost == 1
  }

  lemma CostIs(opt: RateOptions, path: string, cost: int)
    requires IsCost(opt, path, cost)
    ensures Cost(opt, path) == cost as real
  {
    if Sensitive(path, opt.sensitivePaths) {
      var i :| 0 <= i < |opt.sensitivePaths| && opt.sensitivePaths[i] != "" && opt.sensitivePaths[i] <= path;
      assert opt.sensitivePaths[i] in opt.sensitivePaths;
    }
    if p :| p in opt.sensitivePaths && p != "" && p <= path {
      var i :| 0 <= i < |opt.sensitivePaths| && opt.sensitivePaths[i] == p;
    }
  }

  /** The tokens gained in a span of time: in each window the burst, evenly. */
  ghost function Gained(opt: RateOptions, d: Time): real {
    opt.burst as real * d as real / WindowNanos(opt) as real
  }

  lemma GainIs(opt: RateOptions, d: Time)
    ensures Gain(opt, d) == Gained(opt, d)
  {
    var burst, w := opt.burst as real, WindowNanos(opt) as real;
    assert WindowSeconds(opt) == w / 1000000000.0;
    Rescaled(d as real, burst, w);
  }

  lemma Rescaled(d: real, burst: real, w: real)
    requires w > 0.0
    ensures d / 1000000000.0 * (burst / (w / 1000000000.0)) == burst * d / w
  {
    var rate := burst / w;
    assert rate * w == burst;
    assert burst / (w / 1000000000.0) == rate * 1000000000.0;
    assert d / 1000000000.0 * (rate * 1000000000.0) == d * rate;
    assert d * rate * w == d * (rate * w) == burst * d;
  }

  /** The bucket a call finds: the stored one, or a full one. */
  ghost function FoundBy(opt: RateOptions, levels: Levels, ip: string, now: Time): Level {
    if ip in levels.items then levels.items[ip] else Level(opt.burst as real, now)
  }

  /** Its tokens, with what was gained since its last call if the clock moved on, but no more
      than the burst. */
  ghost function Filled(opt: RateOptions, b: Level, now: Time): real {
    if now <= b.last then b.tokens
    else
      var t := b.tokens + Gained(opt, now - b.last);
      if t <= opt.burst as real then t else opt.burst as real
  }

  /** A call finds the stored bucket of its address, or a full one; it is admitted exactly when
      the refilled bucket holds its cost, which is then taken out; the bucket keeps the latest
      reading. */
  lemma ChargeInNumbers(opt: RateOptions, levels: Levels, ip: string, path: string, now: Time, cost: int)
    requires levels.Valid() && 0 < opt.burst && IsCost(opt, path, cost)
    ensures var (levels', ok) := Charge(opt, levels, ip, path, now); var found := FoundBy(opt, levels, ip, now);
      var filled := Filled(opt, found, now);
      && (ok <==> cost as real <= filled)
      && ip in levels'.items
      && levels'.items[ip] == Level(if ok then filled - cost as real else filled, Max(found.last, now))
  {
    CostIs(opt, path, cost);
    GainIs(opt, now - FoundBy(opt, levels, ip, now).last);
  }

  ghost predicate InRange(opt: RateOptions, levels: Levels) {
    forall ip :: ip in levels.items ==> 0.0 <= levels.items[ip].tokens <= Burst(opt)
  }

  /** No bucket ever holds fewer than zero tokens or more than the burst. */
  lemma {:induction false} TokensInRange(opt: RateOptions, start: Levels, calls: seq<Call>, n: nat)
    requires start.Valid() && 0 < opt.burst && n <= |calls| && InRange(opt, start)
    ensures InRange(opt, After(opt, start, calls, n))
  {
    if n != 0 {
      TokensInRange(opt, start, calls, n - 1);
      var c, before := calls[n - 1], After(opt, start, calls, n - 1);
      var found := Found(opt, before, c.ip, c.now);
      GainLinear(opt, c.now - found.last, 0);
      Lru.MirrorsAdd(before, before, c.ip, found, found);
    }
  }

  // ----- isolation: other addresses do not influence the verdicts -----

  /** The calls of `ip` among the first `n`. */
  ghost function Only(calls: seq<Call>, ip: string, n: nat): seq<Call>
    requires n <= |calls|
  {
    if n == 0 then []
    else if calls[n - 1].ip == ip then Only(calls, ip, n - 1) + [calls[n - 1]]
    else Only(calls, ip, n - 1)
  }

  lemma VerdictFromSolo(opt: RateOptions, start: Levels, calls: seq<Call>, n: nat)
    requires start.Valid() && 0 < opt.burst && n < |calls| && Unevicted(start, calls, calls[n].ip)
    ensures var c := calls[n];
      Verdict(opt, start, calls, n) <==> Ready(opt, Solo(opt, calls, c.ip, n), c.now).tokens >= Cost(opt, c.path)
  {
    StoredIsSolo(opt, start, calls, calls[n].ip, n);
    var l := LastCall(calls, calls[n].ip, n);
    assert l != -1 ==> SpacedAt(calls, calls[n].ip, start.cap, l, n);
  }

  lemma {:induction false} OnlyPrefix(calls: seq<Call>, ip: string, n: nat, m: nat)
    requires n <= m <= |calls|
    ensures Only(calls, ip, n) <= Only(calls, ip, m)
    ensures n < m && calls[n].ip == ip ==> |Only(calls, ip, n)| < |Only(calls, ip, m)|
    ensures n < m && calls[n].ip == ip ==> Only(calls, ip, m)[|Only(calls, ip, n)|] == calls[n]
  {
    if n < m {
      OnlyPrefix(calls, ip, n, m - 1);
    }
  }

  lemma {:induction false} SoloOfOnly(opt: RateOptions, calls: seq<Call>, ip: string, n: nat, alone: seq<Call>)
    requires n <= |calls| && Only(calls, ip, n) <= alone
    ensures Solo(opt, alone, ip, |Only(calls, ip, n)|) == Solo(opt, calls, ip, n)
  {
    if n != 0 {
      SoloOfOnly(opt, calls, ip, n - 1, alone);
    }
  }

  lemma {:induction false} OnlyOwn(calls: seq<Call>, ip: string, n: nat)
    requires n <= |calls|
    ensures forall i :: 0 <= i < |Only(calls, ip, n)| ==> Only(calls, ip, n)[i].ip == ip
  {
    if n != 0 {
      OnlyOwn(calls, ip, n - 1);
    }
  }

  lemma LoneCallerIsSpaced(calls: seq<Call>, ip: string, cap: nat)
    requires 0 < cap && forall i :: 0 <= i < |calls| ==> calls[i].ip == ip
    ensures Spaced(calls, ip, cap)
  {
    forall i, j | 0 <= i < j < |calls| ensures SpacedAt(calls, ip, cap, i, j) {
      if i + 1 < j {
        assert calls[i + 1].ip in Between(calls, i, j);
      } else {
        assert Between(calls, i, j) == {};
      }
    }
  }

  /** Each verdict on a call of `ip` in an interleaved run is the verdict the same call gets
      in the run of that address's calls alone. */
  lemma Isolation(opt: RateOptions, start: Levels, calls: seq<Call>, n: nat)
    requires start.Valid() && n < |calls| && Unevicted(start, calls, calls[n].ip)
    ensures var ip := calls[n].ip; var alone := Only(calls, ip, |calls|); var k := |Only(calls, ip, n)|;
      k < |alone| && alone[k] == calls[n] && Verdict(opt, start, calls, n) == Verdict(opt, start, alone, k)
  {
    var ip := calls[n].ip;
    var alone := Only(calls, ip, |calls|);
    var k := |Only(calls, ip, n)|;
    OnlyPrefix(calls, ip, n, |calls|);
    if opt.burst > 0 {
      OnlyOwn(calls, ip, |calls|);
      LoneCallerIsSpaced(alone, ip, start.cap);
      SoloOfOnly(opt, calls, ip, n, alone);
      VerdictFromSolo(opt, start, calls, n);
      VerdictFromSolo(opt, start, alone, k);
    }
  }

  // ----- exact admission and the rate bound -----

  ghost predicate Own(calls: seq<Call>, ip: string, i: int) {
    0 <= i < |calls| && calls[i].ip == ip
  }

  /** The clock of `ip`: the largest reading among its calls up to and including call `n`. */
  ghost function Clock(calls: seq<Call>, ip: string, n: nat): Time
    requires n < |calls|
  {
    if n == 0 then calls[0].now
    else if calls[n].ip != ip then Clock(calls, ip, n - 1)
    else if LastCall(calls, ip, n) == -1 then calls[n].now
    else Max(Clock(calls, ip, n - 1), calls[n].now)
  }

  ghost function Charged(opt: RateOptions, start: Levels, calls: seq<Call>, ip: string, n: nat): (c: real)
    requires start.Valid() && n < |calls|
    ensures 0.0 <= c
  {
    if calls[n].ip == ip && Verdict(opt, start, calls, n) then Cost(opt, calls[n].path) else 0.0
  }

  /** The total cost of the calls of `ip` admitted from call `i` up to but not including call `n`. */
  ghost function Admitted(opt: RateOptions, start: Levels, calls: seq<Call>, ip: string, i: nat, n: nat): real
    requires start.Valid() && n <= |calls|
  {
    if n <= i then 0.0 else Admitted(opt, start, calls, ip, i, n - 1) + Charged(opt, start, calls, ip, n - 1)
  }

  /** What the budget counted from call `i` still allows before call `n` at clock `t`. */
  ghost function Slack(opt: RateOptions, start: Levels, calls: seq<Call>, ip: string, i: nat, n: nat, t: Time): real
    requires start.Valid() && i < |calls| && n <= |calls|
  {
    Burst(opt) + Gain(opt, t - Clock(calls, ip, i)) - Admitted(opt, start, calls, ip, i, n)
  }

  ghost function Slacks(opt: RateOptions, start: Levels, calls: seq<Call>, ip: string, n: nat, t: Time): nat -> real
    requires start.Valid() && n <= |calls|
  {
    (i: nat) => if i < |calls| then Slack(opt, start, calls, ip, i, n, t) else 0.0
  }

  ghost function OwnCalls(calls: seq<Call>, ip: string, n: nat): set<nat> {
    set i: nat | i < n && Own(calls, ip, i)
  }

  ghost predicate Least(x: real, f: nat -> real, s: set<nat>) {
    && (forall i :: i in s ==> x <= f(i))
    && (exists i :: i in s && x == f(i))
  }

  lemma LeastShift(x: real, f: nat -> real, g: nat -> real, s: set<nat>, d: real)
    requires Least(x, f, s) && forall i :: i in s ==> g(i) == f(i) + d
    ensures Least(x + d, g, s)
  {
  }

  lemma LeastInsert(x: real, f: nat -> real, s: set<nat>, n: nat)
    requires Least(x, f, s)
    ensures Least(if x > f(n) then f(n) else x, f, s + {n})
  {
    var w :| w in s && x == f(w);
    assert w in s + {n} && n in s + {n};
  }

  lemma LeastBounds(x: real, f: nat -> real, s: set<nat>, c: real)
    requires Least(x, f, s)
    ensures c <= x <==> forall i :: i in s ==> c <= f(i)
  {
  }

  lemma GainLinear(opt: RateOptions, a: Time, b: Time)
    requires opt.burst > 0
    ensures Gain(opt, a + b) == Gain(opt, a) + Gain(opt, b)
    ensures a >= 0 ==> Gain(opt, a) >= 0.0
    ensures Gain(opt, 0) == 0.0
  {
    var rate := Burst(opt) / WindowSeconds(opt);
    assert rate > 0.0;
    assert Seconds(a + b) == Seconds(a) + Seconds(b);
    assert (Seconds(a) + Seconds(b)) * rate == Seconds(a) * rate + Seconds(b) * rate;
  }

  lemma TimeRaisesSlack(opt: RateOptions, start: Levels, calls: seq<Call>, ip: string, i: nat, n: nat, t: Time, t': Time)
    requires start.Valid() && 0 < opt.burst && n <= |calls| && i < |calls|
    ensures Slack(opt, start, calls, ip, i, n, t') == Slack(opt, start, calls, ip, i, n, t) + Gain(opt, t' - t)
  {
    GainLinear(opt, t' - t, t - Clock(calls, ip, i));
  }

  lemma RefillTokens(opt: RateOptions, b: Level, now: Time)
    requires 0 < opt.burst && b.tokens <= Burst(opt)
    ensures var r := Refill(opt, b, now);
      && r.last == Max(b.last, now)
      && r.tokens == (var t := b.tokens + Gain(opt, r.last - b.last); if t > Burst(opt) then Burst(opt) else t)
  {
    GainLinear(opt, 0, 0);
  }

  lemma OwnSlackIsBurst(opt: RateOptions, start: Levels, calls: seq<Call>, ip: string, n: nat)
    requires start.Valid() && 0 < opt.burst && n < |calls| && calls[n].ip == ip
    ensures Slacks(opt, start, calls, ip, n, Clock(calls, ip, n))(n) == Burst(opt)
    ensures OwnCalls(calls, ip, n + 1) == OwnCalls(calls, ip, n) + {n}
  {
    GainLinear(opt, 0, 0);
  }

  /** A refill at call `n` of `ip`, which finds the least slack `b.tokens`. */
  lemma RefillIsLeastSlack(b: Level, opt: RateOptions, start: Levels, calls: seq<Call>, ip: string, n: nat)
    requires start.Valid() && 0 < opt.burst && n < |calls| && calls[n].ip == ip && b.tokens <= Burst(opt)
    requires Least(b.tokens, Slacks(opt, start, calls, ip, n, b.last), OwnCalls(calls, ip, n))
    requires Clock(calls, ip, n) == Max(b.last, calls[n].now)
    ensures var r := Refill(opt, b, calls[n].now);
      && r.last == Clock(calls, ip, n) && r.tokens <= Burst(opt)
      && Least(r.tokens, Slacks(opt, start, calls, ip, n, r.last), OwnCalls(calls, ip, n + 1))
  {
    var t, own := Clock(calls, ip, n), OwnCalls(calls, ip, n);
    var f, g := Slacks(opt, start, calls, ip, n, b.last), Slacks(opt, start, calls, ip, n, t);
    RefillTokens(opt, b, calls[n].now);
    forall i | i in own ensures g(i) == f(i) + Gain(opt, t - b.last) {
      TimeRaisesSlack(opt, start, calls, ip, i, n, b.last, t);
    }
    LeastShift(b.tokens, f, g, own, Gain(opt, t - b.last));
    LeastInsert(b.tokens + Gain(opt, t - b.last), g, own, n);
    OwnSlackIsBurst(opt, start, calls, ip, n);
  }

  lemma {:induction false} HasCalled(calls: seq<Call>, ip: string, i: nat, n: nat)
    requires i < n <= |calls| && calls[i].ip == ip
    ensures i <= LastCall(calls, ip, n)
  {
    if i < n - 1 {
      HasCalled(calls, ip, i, n - 1);
    }
  }

  /** The bucket before call `n`: none before the first own call, else the least slack. */
  ghost predicate Explained(b: Option<Level>, opt: RateOptions, start: Levels, calls: seq<Call>, ip: string, n: nat)
    requires start.Valid() && n <= |calls|
  {
    match b
    case None => LastCall(calls, ip, n) == -1
    case Some(l) =>
      && LastCall(calls, ip, n) != -1 && l.tokens <= Burst(opt) && l.last == Clock(calls, ip, n - 1)
      && Least(l.tokens, Slacks(opt, start, calls, ip, n, l.last), OwnCalls(calls, ip, n))
  }

  lemma ReadyIsLeastSlack(b: Option<Level>, opt: RateOptions, start: Levels, calls: seq<Call>, ip: string, n: nat)
    requires start.Valid() && 0 < opt.burst && n < |calls| && calls[n].ip == ip && Explained(b, opt, start, calls, ip, n)
    ensures var r := Ready(opt, b, calls[n].now);
      && r.last == Clock(calls, ip, n) && r.tokens <= Burst(opt)
      && Least(r.tokens, Slacks(opt, start, calls, ip, n, r.last), OwnCalls(calls, ip, n + 1))
  {
    match b
    case None =>
      forall i: nat | i < n ensures !Own(calls, ip, i) {
        if calls[i].ip == ip { HasCalled(calls, ip, i, n); }
      }
      OwnSlackIsBurst(opt, start, calls, ip, n);
      assert n in OwnCalls(calls, ip, n + 1);
    case Some(l) =>
      RefillIsLeastSlack(l, opt, start, calls, ip, n);
  }

  /** Every slack drops by what call `n` was charged. */
  lemma ChargeLowersSlack(x: real, opt: RateOptions, start: Levels, calls: seq<Call>, ip: string, n: nat, t: Time)
    requires start.Valid() && n < |calls|
    requires Least(x, Slacks(opt, start, calls, ip, n, t), OwnCalls(calls, ip, n + 1))
    ensures Least(x - Charged(opt, start, calls, ip, n), Slacks(opt, start, calls, ip, n + 1, t), OwnCalls(calls, ip, n + 1))
  {
    LeastShift(x, Slacks(opt, start, calls, ip, n, t), Slacks(opt, start, calls, ip, n + 1, t),
               OwnCalls(calls, ip, n + 1), -Charged(opt, start, calls, ip, n));
  }

  lemma SoloAfterOwnCall(opt: RateOptions, start: Levels, calls: seq<Call>, ip: string, n: nat)
    requires start.Valid() && 0 < opt.burst && n < |calls| && Unevicted(start, calls, ip) && calls[n].ip == ip
    ensures var r := Ready(opt, Solo(opt, calls, ip, n), calls[n].now);
      Solo(opt, calls, ip, n + 1) == Some(Level(r.tokens - Charged(opt, start, calls, ip, n), r.last))
  {
    VerdictFromSolo(opt, start, calls, n);
  }

  lemma OwnCallExplained(b: Option<Level>, opt: RateOptions, start: Levels, calls: seq<Call>, ip: string, n: nat)
    requires start.Valid() && 0 < opt.burst && n < |calls| && calls[n].ip == ip && Explained(b, opt, start, calls, ip, n)
    ensures var r := Ready(opt, b, calls[n].now);
      Explained(Some(Level(r.tokens - Charged(opt, start, calls, ip, n), r.last)), opt, start, calls, ip, n + 1)
  {
    ReadyIsLeastSlack(b, opt, start, calls, ip, n);
    var r := Ready(opt, b, calls[n].now);
    ChargeLowersSlack(r.tokens, opt, start, calls, ip, n, r.last);
  }

  lemma OtherCallExplained(opt: RateOptions, start: Levels, calls: seq<Call>, ip: string, n: nat)
    requires start.Valid() && 0 < opt.burst && n < |calls| && calls[n].ip != ip
    requires Explained(Solo(opt, calls, ip, n), opt, start, calls, ip, n)
    ensures Explained(Solo(opt, calls, ip, n + 1), opt, start, calls, ip, n + 1)
  {
    assert OwnCalls(calls, ip, n + 1) == OwnCalls(calls, ip, n);
    match Solo(opt, calls, ip, n)
    case None =>
    case Some(l) => ChargeLowersSlack(l.tokens, opt, start, calls, ip, n, l.last);
  }

  lemma {:induction false} SoloIsExplained(opt: RateOptions, start: Levels, calls: seq<Call>, ip: string, n: nat)
    requires start.Valid() && 0 < opt.burst && n <= |calls| && Unevicted(start, calls, ip)
    ensures Explained(Solo(opt, calls, ip, n), opt, start, calls, ip, n)
  {
    if n != 0 {
      SoloIsExplained(opt, start, calls, ip, n - 1);
      if calls[n - 1].ip == ip {
        SoloAfterOwnCall(opt, start, calls, ip, n - 1);
        OwnCallExplained(Solo(opt, calls, ip, n - 1), opt, start, calls, ip, n - 1);
      } else {
        OtherCallExplained(opt, start, calls, ip, n - 1);
      }
    }
  }

  /** A request of cost c at clock t is admitted exactly when, counted from every earlier call
      of the same address (and from itself), c fits in the slack: the burst, plus what was
      refilled since, minus the cost admitted since. */
  lemma ExactAdmission(opt: RateOptions, start: Levels, calls: seq<Call>, n: nat)
    requires start.Valid() && 0 < opt.burst && n < |calls| && Unevicted(start, calls, calls[n].ip)
    ensures var ip := calls[n].ip;
      Verdict(opt, start, calls, n) <==>
      forall i :: 0 <= i <= n && Own(calls, ip, i) ==>
        Cost(opt, calls[n].path) <= Slack(opt, start, calls, ip, i, n, Clock(calls, ip, n))
  {
    var ip, t := calls[n].ip, Clock(calls, calls[n].ip, n);
    SoloIsExplained(opt, start, calls, ip, n);
    ReadyIsLeastSlack(Solo(opt, calls, ip, n), opt, start, calls, ip, n);
    VerdictFromSolo(opt, start, calls, n);
    var x, f, own := Ready(opt, Solo(opt, calls, ip, n), calls[n].now).tokens,
                     Slacks(opt, start, calls, ip, n, t), OwnCalls(calls, ip, n + 1);
    LeastBounds(x, f, own, Cost(opt, calls[n].path));
    assert forall i :: 0 <= i <= n && Own(calls, ip, i) ==> i in own && f(i) == Slack(opt, start, calls, ip, i, n, t);
    assert forall i :: i in own ==> 0 <= i <= n && Own(calls, ip, i);
  }

  lemma ClockSteps(calls: seq<Call>, ip: string, i: nat, n: nat)
    requires i < n < |calls| && calls[i].ip == ip
    ensures Clock(calls, ip, n) == if calls[n].ip == ip then Max(Clock(calls, ip, n - 1), calls[n].now)
                                   else Clock(calls, ip, n - 1)
  {
    HasCalled(calls, ip, i, n);
  }

  /** What an address was admitted since call `i` fits in the burst and the refill since. */
  ghost predicate Fits(opt: RateOptions, start: Levels, calls: seq<Call>, ip: string, i: nat, n: nat)
    requires start.Valid() && i < |calls| && n < |calls|
  {
    Admitted(opt, start, calls, ip, i, n + 1) <= Burst(opt) + Gain(opt, Clock(calls, ip, n) - Clock(calls, ip, i))
  }

  lemma AdmittedFits(opt: RateOptions, start: Levels, calls: seq<Call>, i: nat, n: nat)
    requires start.Valid() && 0 < opt.burst && i <= n < |calls| && calls[i].ip == calls[n].ip
    requires Cost(opt, calls[n].path) <= Slack(opt, start, calls, calls[n].ip, i, n, Clock(calls, calls[n].ip, n))
    ensures Fits(opt, start, calls, calls[n].ip, i, n)
  {
    var ip := calls[n].ip;
    assert Admitted(opt, start, calls, ip, i, n + 1) == Admitted(opt, start, calls, ip, i, n) + Charged(opt, start, calls, ip, n);
    assert Charged(opt, start, calls, ip, n) <= Cost(opt, calls[n].path);
  }

  lemma RefusedFits(opt: RateOptions, start: Levels, calls: seq<Call>, ip: string, i: nat, n: nat)
    requires start.Valid() && 0 < opt.burst && i < n < |calls| && calls[i].ip == ip
    requires Charged(opt, start, calls, ip, n) == 0.0 && Fits(opt, start, calls, ip, i, n - 1)
    ensures Fits(opt, start, calls, ip, i, n)
  {
    ClockSteps(calls, ip, i, n);
    GainMonotone(opt, Clock(calls, ip, n - 1) - Clock(calls, ip, i), Clock(calls, ip, n) - Clock(calls, ip, i));
  }

  /** From any call `i` of an address to any later point, at most the burst plus the refill
      over the elapsed clock is admitted, whatever the weights and however the clock moves. */
  lemma {:induction false} RateBound(opt: RateOptions, start: Levels, calls: seq<Call>, ip: string, i: nat, n: nat)
    requires start.Valid() && 0 < opt.burst && i <= n < |calls| && calls[i].ip == ip && Unevicted(start, calls, ip)
    ensures Fits(opt, start, calls, ip, i, n)
  {
    if calls[n].ip == ip && Verdict(opt, start, calls, n) {
      ExactAdmission(opt, start, calls, n);
      assert Own(calls, ip, i);
      AdmittedFits(opt, start, calls, i, n);
    } else if i < n {
      RateBound(opt, start, calls, ip, i, n - 1);
      RefusedFits(opt, start, calls, ip, i, n);
    } else {
      GainLinear(opt, 0, 0);
    }
  }

  lemma GainMonotone(opt: RateOptions, a: Time, b: Time)
    requires opt.burst > 0 && a <= b
    ensures Gain(opt, a) <= Gain(opt, b)
  {
    GainLinear(opt, a, b - a);
    GainLinear(opt, b - a, 0);
  }

  lemma {:induction false} ClockGrows(calls: seq<Call>, ip: string, i: nat, n: nat)
    requires i <= n < |calls| && calls[i].ip == ip
    ensures calls[i].now <= Clock(calls, ip, i) <= Clock(calls, ip, n)
  {
    if i < n {
      ClockGrows(calls, ip, i, n - 1);
      ClockSteps(calls, ip, i, n);
    }
  }

  lemma {:induction false} ClockWithin(calls: seq<Call>, ip: string, i: nat, n: nat, hi: Time)
    requires i <= n < |calls| && calls[i].ip == ip && Clock(calls, ip, i) <= hi
    requires forall j :: i <= j <= n && Own(calls, ip, j) ==> calls[j].now <= hi
    ensures Clock(calls, ip, n) <= hi
  {
    if i < n {
      ClockWithin(calls, ip, i, n - 1, hi);
      ClockSteps(calls, ip, i, n);
      assert calls[n].ip == ip ==> Own(calls, ip, n);
    }
  }

  /** An uninterrupted stretch of an address's calls none of which reads more than `span` past
      the clock at its start, however the clock moves; one window's worth is at most twice the
      burst. */
  lemma StretchBound(opt: RateOptions, start: Levels, calls: seq<Call>, ip: string, i: nat, n: nat, span: Time)
    requires start.Valid() && 0 < opt.burst && i <= n < |calls| && calls[i].ip == ip && Unevicted(start, calls, ip)
    requires 0 <= span
    requires forall j :: i <= j <= n && Own(calls, ip, j) ==> calls[j].now <= Clock(calls, ip, i) + span
    ensures Admitted(opt, start, calls, ip, i, n + 1) <= Burst(opt) + Gain(opt, span)
    ensures span == opt.window && 0 < span ==> Admitted(opt, start, calls, ip, i, n + 1) <= 2.0 * Burst(opt)
  {
    ClockWithin(calls, ip, i, n, Clock(calls, ip, i) + span);
    RateBound(opt, start, calls, ip, i, n);
    GainMonotone(opt, Clock(calls, ip, n) - Clock(calls, ip, i), span);
    if span == opt.window && 0 < span {
      WindowGain(opt);
    }
  }

  lemma WindowGain(opt: RateOptions)
    requires opt.burst > 0 && opt.window > 0
    ensures Gain(opt, opt.window) == Burst(opt)
  {
    var w := Seconds(opt.window);
    assert w * (Burst(opt) / w) == Burst(opt);
  }

  // ----- the bound over an interval of readings -----

  /** A call of the address whose reading lies in the interval. */
  ghost predicate Reads(calls: seq<Call>, ip: string, lo: Time, span: Time, i: int) {
    Own(calls, ip, i) && lo <= calls[i].now <= lo + span
  }

  /** The cost admitted of those calls among the first `n`. */
  ghost function AdmittedWithin(opt: RateOptions, start: Levels, calls: seq<Call>, ip: string, lo: Time, span: Time, n: nat): real
    requires start.Valid() && n <= |calls|
  {
    if n == 0 then 0.0
    else
      AdmittedWithin(opt, start, calls, ip, lo, span, n - 1)
      + if Reads(calls, ip, lo, span, n - 1) then Charged(opt, start, calls, ip, n - 1) else 0.0
  }

  ghost predicate IntervalBounded(opt: RateOptions, start: Levels, calls: seq<Call>, ip: string, lo: Time, span: Time)
    requires start.Valid()
  {
    AdmittedWithin(opt, start, calls, ip, lo, span, |calls|) <= Burst(opt) + Gain(opt, span)
  }

  /** The first and the last of those calls. */
  ghost predicate Ends(calls: seq<Call>, ip: string, lo: Time, span: Time, i: nat, n: nat) {
    && Reads(calls, ip, lo, span, i) && Reads(calls, ip, lo, span, n)
    && forall j :: Reads(calls, ip, lo, span, j) ==> i <= j <= n
  }

  /** The same addresses and readings, whatever the paths. */
  ghost predicate SameReadings(a: seq<Call>, b: seq<Call>) {
    |a| == |b| && forall i :: 0 <= i < |a| ==> SameReading(a[i], b[i])
  }

  ghost predicate SameReading(a: Call, b: Call) {
    a.ip == b.ip && a.now == b.now
  }

  lemma {:induction false} SameLastCall(a: seq<Call>, b: seq<Call>, ip: string, n: nat)
    requires SameReadings(a, b) && n <= |a|
    ensures LastCall(a, ip, n) == LastCall(b, ip, n)
  {
    if n != 0 {
      assert SameReading(a[n - 1], b[n - 1]);
      SameLastCall(a, b, ip, n - 1);
    }
  }

  lemma {:induction false} SameClock(a: seq<Call>, b: seq<Call>, ip: string, n: nat)
    requires SameReadings(a, b) && n < |a|
    ensures Clock(a, ip, n) == Clock(b, ip, n)
  {
    assert SameReading(a[n], b[n]);
    SameLastCall(a, b, ip, n);
    if n != 0 {
      SameClock(a, b, ip, n - 1);
    }
  }

  lemma SameSpaced(a: seq<Call>, b: seq<Call>, ip: string, cap: nat)
    requires SameReadings(a, b) && Spaced(a, ip, cap)
    ensures Spaced(b, ip, cap)
  {
    forall i, j | 0 <= i < j < |b| ensures SpacedAt(b, ip, cap, i, j) {
      assert SpacedAt(a, ip, cap, i, j) && SameReading(a[i], b[i]) && SameReading(a[j], b[j]);
      SameBetween(a, b, i, j);
    }
  }

  lemma SameBetween(a: seq<Call>, b: seq<Call>, i: int, j: nat)
    requires SameReadings(a, b) && -1 <= i && j <= |a|
    ensures Between(a, i, j) == Between(b, i, j)
  {
    assert forall m :: i < m < j ==> SameReading(a[m], b[m]);
    forall x | x in Between(a, i, j) ensures x in Between(b, i, j) {
      var m :| i < m < j && a[m].ip == x;
      assert b[m].ip == x;
    }
    forall x | x in Between(b, i, j) ensures x in Between(a, i, j) {
      var m :| i < m < j && b[m].ip == x;
      assert a[m].ip == x;
    }
  }

  lemma SameEnds(a: seq<Call>, b: seq<Call>, ip: string, lo: Time, span: Time, i: nat, n: nat)
    requires SameReadings(a, b) && Ends(a, ip, lo, span, i, n)
    ensures Ends(b, ip, lo, span, i, n)
  {
    assert SameReading(a[i], b[i]) && SameReading(a[n], b[n]);
    forall j | Reads(b, ip, lo, span, j) ensures i <= j <= n {
      assert SameReading(a[j], b[j]) && Reads(a, ip, lo, span, j);
    }
  }

  /** Calls of the interval are part of the stretch they span. */
  lemma {:induction false} IntervalIsPart(
    opt: RateOptions, start: Levels, calls: seq<Call>, ip: string, lo: Time, span: Time, i: nat, n: nat, k: nat)
    requires start.Valid() && k <= |calls| && n < |calls| && Ends(calls, ip, lo, span, i, n)
    ensures AdmittedWithin(opt, start, calls, ip, lo, span, k) <= Admitted(opt, start, calls, ip, i, Min(k, n + 1))
  {
    if k != 0 {
      IntervalIsPart(opt, start, calls, ip, lo, span, i, n, k - 1);
      assert Reads(calls, ip, lo, span, k - 1) ==> i <= k - 1 <= n;
    }
  }

  lemma IntervalHolds(opt: RateOptions, start: Levels, calls: seq<Call>, ip: string, lo: Time, span: Time, i: nat, n: nat)
    requires start.Valid() && 0 < opt.burst && n < |calls| && Unevicted(start, calls, ip) && Ends(calls, ip, lo, span, i, n)
    requires Clock(calls, ip, n) - Clock(calls, ip, i) <= span
    ensures IntervalBounded(opt, start, calls, ip, lo, span)
  {
    assert Reads(calls, ip, lo, span, n) && i <= n;
    IntervalIsPart(opt, start, calls, ip, lo, span, i, n, |calls|);
    RateBound(opt, start, calls, ip, i, n);
    GainMonotone(opt, Clock(calls, ip, n) - Clock(calls, ip, i), span);
  }

  // ----- and when the clock moved too far in between -----

  /** A burst of one that refills in `window`; the path "/s" costs two. */
  ghost function Tight(window: Time): RateOptions {
    RateOptions(window, 1, 2, ["/s"])
  }

  /** The same readings, affordable at calls `i` and `n` only. */
  ghost function Weighted(calls: seq<Call>, i: nat, n: nat): seq<Call> {
    seq(|calls|, k requires 0 <= k < |calls| => Call(calls[k].ip, if k == i || k == n then "/" else "/s", calls[k].now))
  }

  lemma TightCosts(window: Time)
    ensures Cost(Tight(window), "/") == 1.0 && Cost(Tight(window), "/s") == 2.0
  {
    var opt := Tight(window);
    assert opt.sensitivePaths[0] == "/s";
    assert Sensitive("/s", opt.sensitivePaths);
    assert !Sensitive("/", opt.sensitivePaths);
  }

  lemma HeavyIsRefused(window: Time, start: Levels, calls: seq<Call>, i: nat, n: nat, k: nat)
    requires start.Valid() && k < |calls| && k != i && k != n
    requires Unevicted(start, Weighted(calls, i, n), calls[k].ip)
    ensures !Verdict(Tight(window), start, Weighted(calls, i, n), k)
  {
    var heavy, opt, ip := Weighted(calls, i, n), Tight(window), calls[k].ip;
    TightCosts(window);
    ExactAdmission(opt, start, heavy, k);
    GainLinear(opt, 0, 0);
    assert Own(heavy, ip, k) && Slack(opt, start, heavy, ip, k, k, Clock(heavy, ip, k)) == 1.0;
  }

  /** Before call `n` nothing but call `i` is admitted. */
  lemma {:induction false} OnlyFirstAdmitted(window: Time, start: Levels, calls: seq<Call>, ip: string, i: nat, n: nat, j: nat, k: nat)
    requires start.Valid() && i < n < |calls| && k <= n && calls[i].ip == ip && Unevicted(start, Weighted(calls, i, n), ip)
    requires i < k ==> Verdict(Tight(window), start, Weighted(calls, i, n), i)
    ensures Admitted(Tight(window), start, Weighted(calls, i, n), ip, j, k) == if j <= i < k then 1.0 else 0.0
  {
    if j < k {
      OnlyFirstAdmitted(window, start, calls, ip, i, n, j, k - 1);
      TightCosts(window);
      if k - 1 != i && calls[k - 1].ip == ip {
        HeavyIsRefused(window, start, calls, i, n, k - 1);
      }
    }
  }

  lemma FirstIsAdmitted(window: Time, start: Levels, calls: seq<Call>, ip: string, i: nat, n: nat)
    requires start.Valid() && i < n < |calls| && calls[i].ip == ip && Unevicted(start, Weighted(calls, i, n), ip)
    ensures Verdict(Tight(window), start, Weighted(calls, i, n), i)
  {
    var opt, light := Tight(window), Weighted(calls, i, n);
    TightCosts(window);
    forall j | 0 <= j <= i && Own(light, ip, j) ensures 1.0 <= Slack(opt, start, light, ip, j, i, Clock(light, ip, i)) {
      OnlyFirstAdmitted(window, start, calls, ip, i, n, j, i);
      ClockGrows(light, ip, j, i);
      GainLinear(opt, Clock(light, ip, i) - Clock(light, ip, j), 0);
    }
    ExactAdmission(opt, start, light, i);
  }

  /** Counted from any own call, the refill up to call `n` makes up for call `i`. */
  lemma RefilledAtLast(window: Time, start: Levels, calls: seq<Call>, ip: string, i: nat, n: nat, j: nat)
    requires start.Valid() && i < n < |calls| && calls[i].ip == ip && Unevicted(start, Weighted(calls, i, n), ip)
    requires var light := Weighted(calls, i, n); 0 < window == Clock(light, ip, n) - Clock(light, ip, i)
    requires j <= n && Own(Weighted(calls, i, n), ip, j) && Verdict(Tight(window), start, Weighted(calls, i, n), i)
    ensures var light := Weighted(calls, i, n); 1.0 <= Slack(Tight(window), start, light, ip, j, n, Clock(light, ip, n))
  {
    var opt, light := Tight(window), Weighted(calls, i, n);
    OnlyFirstAdmitted(window, start, calls, ip, i, n, j, n);
    ClockGrows(light, ip, j, n);
    GainMonotone(opt, 0, Clock(light, ip, n) - Clock(light, ip, j));
    GainLinear(opt, 0, 0);
    if j <= i {
      ClockGrows(light, ip, j, i);
      WindowGain(opt);
      GainMonotone(opt, window, Clock(light, ip, n) - Clock(light, ip, j));
    }
  }

  lemma LastIsAdmitted(start: Levels, calls: seq<Call>, ip: string, i: nat, n: nat)
    requires start.Valid() && i < n < |calls| && calls[i].ip == ip && calls[n].ip == ip
    requires Unevicted(start, Weighted(calls, i, n), ip)
    requires var light := Weighted(calls, i, n); Clock(light, ip, n) - Clock(light, ip, i) > 0
    ensures var light := Weighted(calls, i, n);
      Verdict(Tight(Clock(light, ip, n) - Clock(light, ip, i)), start, light, n)
  {
    var light := Weighted(calls, i, n);
    var window := Clock(light, ip, n) - Clock(light, ip, i);
    TightCosts(window);
    FirstIsAdmitted(window, start, calls, ip, i, n);
    forall j | 0 <= j <= n && Own(light, ip, j) ensures 1.0 <= Slack(Tight(window), start, light, ip, j, n, Clock(light, ip, n)) {
      RefilledAtLast(window, start, calls, ip, i, n, j);
    }
    ExactAdmission(Tight(window), start, light, n);
  }

  lemma {:induction false} BothAreWithin(
    opt: RateOptions, start: Levels, calls: seq<Call>, ip: string, lo: Time, span: Time, i: nat, n: nat, k: nat)
    requires start.Valid() && k <= |calls| && i < n < |calls|
    requires Reads(calls, ip, lo, span, i) && Reads(calls, ip, lo, span, n)
    ensures AdmittedWithin(opt, start, calls, ip, lo, span, k)
         >= (if i < k then Charged(opt, start, calls, ip, i) else 0.0) + if n < k then Charged(opt, start, calls, ip, n) else 0.0
  {
    if k != 0 {
      BothAreWithin(opt, start, calls, ip, lo, span, i, n, k - 1);
      OneMoreWithin(opt, start, calls, ip, lo, span, k - 1);
    }
  }

  lemma OneMoreWithin(opt: RateOptions, start: Levels, calls: seq<Call>, ip: string, lo: Time, span: Time, k: nat)
    requires start.Valid() && k < |calls|
    ensures AdmittedWithin(opt, start, calls, ip, lo, span, k + 1) >= AdmittedWithin(opt, start, calls, ip, lo, span, k)
    ensures Reads(calls, ip, lo, span, k) ==>
              AdmittedWithin(opt, start, calls, ip, lo, span, k + 1)
              == AdmittedWithin(opt, start, calls, ip, lo, span, k) + Charged(opt, start, calls, ip, k)
  {
  }

  lemma ShortGain(window: Time, span: Time)
    requires 0 <= span < window
    ensures Gain(Tight(window), span) < 1.0
  {
    WindowGain(Tight(window));
    GainLinear(Tight(window), span, window - span);
    assert Seconds(window - span) > 0.0;
    assert Gain(Tight(window), window - span) > 0.0;
  }

  /** Two calls in the interval that are admitted for all the tokens there are. */
  lemma BothBreak(window: Time, start: Levels, light: seq<Call>, ip: string, lo: Time, span: Time, i: nat, n: nat)
    requires start.Valid() && i < n < |light| && 0 <= span < window
    requires Reads(light, ip, lo, span, i) && Reads(light, ip, lo, span, n)
    requires light[i].path == "/" && light[n].path == "/"
    requires Verdict(Tight(window), start, light, i) && Verdict(Tight(window), start, light, n)
    ensures !IntervalBounded(Tight(window), start, light, ip, lo, span)
  {
    TightCosts(window);
    BothAreWithin(Tight(window), start, light, ip, lo, span, i, n, |light|);
    ShortGain(window, span);
  }

  /** Some options and paths break the bound on these readings. */
  lemma IntervalBreaks(start: Levels, calls: seq<Call>, ip: string, lo: Time, span: Time, i: nat, n: nat)
    returns (opt: RateOptions, light: seq<Call>)
    requires start.Valid() && 0 <= span && n < |calls| && Unevicted(start, calls, ip) && Ends(calls, ip, lo, span, i, n)
    requires Clock(calls, ip, n) - Clock(calls, ip, i) > span
    ensures 0 < opt.burst && SameReadings(calls, light) && !IntervalBounded(opt, start, light, ip, lo, span)
  {
    light := Weighted(calls, i, n);
    opt := Tight(Clock(calls, ip, n) - Clock(calls, ip, i));
    assert Reads(calls, ip, lo, span, n) && i < n;
    SameSpaced(calls, light, ip, start.cap);
    SameClock(calls, light, ip, i);
    SameClock(calls, light, ip, n);
    SameEnds(calls, light, ip, lo, span, i, n);
    FirstIsAdmitted(opt.window, start, calls, ip, i, n);
    LastIsAdmitted(start, calls, ip, i, n);
    BothBreak(opt.window, start, light, ip, lo, span, i, n);
  }

  /** For given readings: whatever the options and the paths, the calls that read a time in
      [lo, lo + span] are admitted at most the burst plus the refill over `span`, exactly when
      the running clock moves by at most `span` from the first of them to the last. With a clock
      that does not step back it always does; the program's own clock readings are monotonic, so
      only an injected clock can break the bound. */
  lemma IntervalBoundIff(start: Levels, calls: seq<Call>, ip: string, lo: Time, span: Time, i: nat, n: nat)
    requires start.Valid() && 0 <= span && n < |calls| && Unevicted(start, calls, ip) && Ends(calls, ip, lo, span, i, n)
    ensures Clock(calls, ip, n) - Clock(calls, ip, i) <= span <==>
      forall opt: RateOptions, paths: seq<Call> :: 0 < opt.burst && SameReadings(calls, paths) ==> IntervalBounded(opt, start, paths, ip, lo, span)
  {
    if Clock(calls, ip, n) - Clock(calls, ip, i) <= span {
      forall opt: RateOptions, paths: seq<Call> | 0 < opt.burst && SameReadings(calls, paths)
        ensures IntervalBounded(opt, start, paths, ip, lo, span)
      {
        SameSpaced(calls, paths, ip, start.cap);
        SameEnds(calls, paths, ip, lo, span, i, n);
        assert Reads(calls, ip, lo, span, n) && i <= n;
        SameClock(calls, paths, ip, i);
        SameClock(calls, paths, ip, n);
        IntervalHolds(opt, start, paths, ip, lo, span, i, n);
      }
    } else {
      var opt, paths := IntervalBreaks(start, calls, ip, lo, span, i, n);
    }
  }

  /** The address's own readings never step back. */
  ghost predicate Forward(calls: seq<Call>, ip: string) {
    forall i, j :: i <= j && Own(calls, ip, i) && Own(calls, ip, j) ==> calls[i].now <= calls[j].now
  }

  lemma {:induction false} ForwardClock(calls: seq<Call>, ip: string, n: nat)
    requires n < |calls| && Forward(calls, ip) && calls[n].ip == ip
    ensures Clock(calls, ip, n) == calls[n].now
  {
    var l := LastCall(calls, ip, n);
    if l != -1 {
      assert Own(calls, ip, l) && Own(calls, ip, n);
      ForwardClock(calls, ip, l);
      ClockRests(calls, ip, l, n - 1);
    }
  }

  lemma {:induction false} ClockRests(calls: seq<Call>, ip: string, l: nat, k: nat)
    requires l <= k < |calls| && calls[l].ip == ip && ip !in Between(calls, l, k + 1)
    ensures Clock(calls, ip, k) == Clock(calls, ip, l)
  {
    if l < k {
      assert calls[k].ip in Between(calls, l, k + 1);
      assert Between(calls, l, k) <= Between(calls, l, k + 1);
      ClockRests(calls, ip, l, k - 1);
    }
  }

  /** With a clock that does not step back the bound holds over every interval. */
  lemma ForwardIntervalBounded(opt: RateOptions, start: Levels, calls: seq<Call>, ip: string, lo: Time, span: Time, i: nat, n: nat)
    requires start.Valid() && 0 < opt.burst && 0 <= span && n < |calls| && Unevicted(start, calls, ip)
    requires Forward(calls, ip) && Ends(calls, ip, lo, span, i, n)
    ensures IntervalBounded(opt, start, calls, ip, lo, span)
  {
    assert Reads(calls, ip, lo, span, n) && i <= n;
    ForwardClock(calls, ip, i);
    ForwardClock(calls, ip, n);
    IntervalHolds(opt, start, calls, ip, lo, span, i, n);
  }

  const TWO_PER_SECOND := RateOptions(1_000_000_000, 2, 1, [])
  const EXCURSION := [Call("a", "/", 0), Call("a", "/", 0), Call("a", "/", 100_000_000_000), Call("a", "/", 0)]

  lemma ExcursionReady(n: nat)
    requires n < 4
    ensures Ready(TWO_PER_SECOND, Solo(TWO_PER_SECOND, EXCURSION, "a", n), EXCURSION[n].now).tokens >= 1.0
    ensures n == 3 ==> Solo(TWO_PER_SECOND, EXCURSION, "a", 3) == Some(Level(1.0, 100_000_000_000))
  {
    assert Cost(TWO_PER_SECOND, "/") == 1.0;
    assert Solo(TWO_PER_SECOND, EXCURSION, "a", 0) == None;
    assert Solo(TWO_PER_SECOND, EXCURSION, "a", 1) == Some(Level(1.0, 0));
    assert Solo(TWO_PER_SECOND, EXCURSION, "a", 2) == Some(Level(0.0, 0));
  }

  /** An instance of the failing half: three unit-cost calls read the same instant 0 and all
      pass a burst of 2, because the clock's excursion to 100 s in between refilled it. */
  lemma SteppingBackRefills()
    ensures forall n :: 0 <= n < 4 ==> Verdict(TWO_PER_SECOND, EmptyGuard(1), EXCURSION, n)
    ensures 3.0 * Cost(TWO_PER_SECOND, "/") > Burst(TWO_PER_SECOND) + Gain(TWO_PER_SECOND, 0)
  {
    forall n: nat | n < 4 ensures Verdict(TWO_PER_SECOND, EmptyGuard(1), EXCURSION, n) {
      LoneCallerIsSpaced(EXCURSION, "a", 1);
      ExcursionReady(n);
      VerdictFromSolo(TWO_PER_SECOND, EmptyGuard(1), EXCURSION, n);
    }
  }
}
