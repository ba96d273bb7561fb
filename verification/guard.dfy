/** The flood governor: one weighted token bucket per client address, kept in a bounded
    cache. The float64 token arithmetic is taken over the reals. */
module Guard {
  import opened Prelude
  import opened Signature
  import Lru

  datatype RateOptions = RateOptions(
    window: Time, burst: int, sensitiveWeight: int, sensitivePaths: seq<string>)

  /** The contents of one bucket. */
  datatype Level = Level(tokens: real, last: Time)

  type Levels = Lru.Cache<string, Level>

  function Seconds(d: Time): real {
    d as real / 1000000000.0
  }

  function WindowSeconds(opt: RateOptions): (s: real)
    ensures s > 0.0
  {
    if opt.window <= 0 then 60.0 else Seconds(opt.window)
  }

  function Burst(opt: RateOptions): real {
    opt.burst as real
  }

  /** Tokens gained over a time span. */
  function Gain(opt: RateOptions, d: Time): real {
    Seconds(d) * (Burst(opt) / WindowSeconds(opt))
  }

  predicate Sensitive(path: string, prefixes: seq<string>) {
    exists i :: 0 <= i < |prefixes| && prefixes[i] != "" && prefixes[i] <= path
  }

  function Cost(opt: RateOptions, path: string): (c: real)
    ensures c >= 1.0
  {
    if opt.sensitiveWeight > 1 && Sensitive(path, opt.sensitivePaths)
    then opt.sensitiveWeight as real else 1.0
  }

  function Refill(opt: RateOptions, b: Level, now: Time): Level {
    if now - b.last > 0 then
      var t := b.tokens + Gain(opt, now - b.last);
      Level(if t > Burst(opt) then Burst(opt) else t, now)
    else b
  }

  function Spend(b: Level, cost: real): (Level, bool) {
    if b.tokens >= cost then (b.(tokens := b.tokens - cost), true) else (b, false)
  }

  /** The bucket a request of `ip` meets: the stored one, or a full one. */
  function Found(opt: RateOptions, levels: Levels, ip: string, now: Time): Level {
    if ip in levels.items then levels.items[ip] else Level(Burst(opt), now)
  }

  /** The levels once the bucket of `ip` is there and most recently used. */
  function Held(opt: RateOptions, levels: Levels, ip: string, now: Time): (held: Levels)
    requires levels.Valid()
    ensures held.Valid() && ip in held.items
  {
    Lru.TouchValid(levels, ip);
    Lru.AddValid(levels, ip, Found(opt, levels, ip, now));
    if ip in levels.items then levels.Touch(ip) else levels.Add(ip, Found(opt, levels, ip, now))
  }

  /** One governed request: the levels after it and whether it was admitted. */
  function Charge(opt: RateOptions, levels: Levels, ip: string, path: string, now: Time): (r: (Levels, bool))
    requires levels.Valid()
    ensures r.0.Valid()
  {
    if opt.burst <= 0 then (levels, true)
    else
      var (b, ok) := Spend(Refill(opt, Found(opt, levels, ip, now), now), Cost(opt, path));
      Lru.SetValid(Held(opt, levels, ip, now), ip, b);
      (Held(opt, levels, ip, now).Set(ip, b), ok)
  }

  // ----- both proactive checks -----

  /** The options of one assessment; a check without an action falls back to a challenge. */
  datatype Options = Options(
    anomalyEnabled: bool, threshold: int, anomalyAction: Option<Action>, anomalyCode: int,
    rateEnabled: bool, rate: RateOptions, rateAction: Option<Action>, rateCode: int)

  datatype Decision = Decision(action: Action, respCode: int)

  function Decide(action: Option<Action>, code: int): Decision {
    Decision(if action.None? then Challenge else action.value, if code == 0 then 403 else code)
  }

  /** The anomaly check decides first and charges nothing; then the flood governor. */
  function Assessed(opt: Options, levels: Levels, ip: string, path: string, score: int, now: Time)
    : (r: (Levels, Option<Decision>))
    requires levels.Valid()
    ensures r.0.Valid()
  {
    if opt.anomalyEnabled && score >= opt.threshold then (levels, Some(Decide(opt.anomalyAction, opt.anomalyCode)))
    else if !opt.rateEnabled then (levels, None)
    else
      var (levels', ok) := Charge(opt.rate, levels, ip, path, now);
      (levels', if ok then None else Some(Decide(opt.rateAction, opt.rateCode)))
  }

  class Bucket {
    var tokens: real
    var last: Time
    /** The address the bucket belongs to. */
    ghost const owner: string

    constructor (tokens: real, last: Time, ghost owner: string)
      ensures this.tokens == tokens && this.last == last && this.owner == owner
    {
      this.tokens, this.last, this.owner := tokens, last, owner;
    }

    ghost function Abs(): Level
      reads this
    {
      Level(tokens, last)
    }

    /** Refills for the elapsed time, then takes `cost` tokens if they are there. */
    method Take(opt: RateOptions, cost: real, now: Time) returns (ok: bool)
      modifies this
      ensures (Abs(), ok) == Spend(Refill(opt, old(Abs()), now), cost)
    {
      var refillPerSec := Burst(opt) / WindowSeconds(opt);
      var elapsed := Seconds(now - last);
      if elapsed > 0.0 {
        tokens := tokens + elapsed * refillPerSec;
        if tokens > Burst(opt) {
          tokens := Burst(opt);
        }
        last := now;
      }
      if tokens >= cost {
        tokens := tokens - cost;
        return true;
      }
      return false;
    }
  }

  method MatchPrefix(path: string, prefixes: seq<string>) returns (hit: bool)
    ensures hit == Sensitive(path, prefixes)
  {
    for i := 0 to |prefixes|
      invariant !Sensitive(path, prefixes[..i])
    {
      if prefixes[i] != "" && prefixes[i] <= path {
        return true;
      }
    }
    assert prefixes[..|prefixes|] == prefixes;
    return false;
  }

  method PathCost(path: string, opt: RateOptions) returns (cost: real)
    ensures cost == Cost(opt, path)
  {
    cost := 1.0;
    if opt.sensitiveWeight > 1 {
      var hit := MatchPrefix(path, opt.sensitivePaths);
      if hit {
        cost := opt.sensitiveWeight as real;
      }
    }
  }

  class Guard {
    var buckets: Lru.Cache<string, Bucket>
    /** The bucket contents, without the bucket objects. */
    ghost var levels: Levels

    ghost var Repr: set<object>

    ghost predicate Valid()
      reads this, Repr
      ensures Valid() ==> this in Repr
    {
      && this in Repr
      && buckets.Valid() && levels.Valid() && Lru.Mirrors(buckets, levels)
      && (forall k :: k in buckets.items ==>
           buckets.items[k] in Repr && buckets.items[k].owner == k && levels.items[k] == buckets.items[k].Abs())
    }

    constructor (maxIPs: int)
      ensures Valid() && fresh(Repr)
      ensures levels == Lru.Empty(if maxIPs <= 0 then 65536 else maxIPs)
    {
      buckets := Lru.Empty(if maxIPs <= 0 then 65536 else maxIPs);
      levels := Lru.Empty(if maxIPs <= 0 then 65536 else maxIPs);
      Repr := {this};
    }

    method Assess(ip: string, path: string, score: int, opt: Options, now: Time) returns (dec: Option<Decision>)
      requires Valid()
      modifies Repr
      ensures Valid() && fresh(Repr - old(Repr))
      ensures (levels, dec) == Assessed(opt, old(levels), ip, path, score, now)
    {
      if opt.anomalyEnabled {
        if score >= opt.threshold {
          return Some(Decide(opt.anomalyAction, opt.anomalyCode));
        }
      }
      if opt.rateEnabled {
        var ok := Allow(ip, path, opt.rate, now);
        if !ok {
          return Some(Decide(opt.rateAction, opt.rateCode));
        }
      }
      return None;
    }

    method Allow(ip: string, path: string, opt: RateOptions, now: Time) returns (ok: bool)
      requires Valid()
      modifies Repr
      ensures Valid() && fresh(Repr - old(Repr))
      ensures (levels, ok) == Charge(opt, old(levels), ip, path, now)
    {
      if opt.burst <= 0 {
        return true;
      }
      var cost := PathCost(path, opt);
      var b := Obtain(opt, ip, now);
      ok := b.Take(opt, cost, now);
      Lru.SetValid(levels, ip, b.Abs());
      levels := levels.Set(ip, b.Abs());
    }

    /** The bucket of `ip`, created full when absent, as the most recently used one. */
    method Obtain(opt: RateOptions, ip: string, now: Time) returns (b: Bucket)
      requires Valid()
      modifies this
      ensures Valid() && fresh(Repr - old(Repr))
      ensures ip in buckets.items && b == buckets.items[ip]
      ensures b.Abs() == Found(opt, old(levels), ip, now)
      ensures levels == Held(opt, old(levels), ip, now)
    {
      if ip in buckets.items {
        Lru.TouchValid(buckets, ip);
        Lru.TouchValid(levels, ip);
        b := buckets.items[ip];
        buckets, levels := buckets.Touch(ip), levels.Touch(ip);
      } else {
        b := new Bucket(Burst(opt), now, ip);
        Lru.MirrorsAdd(buckets, levels, ip, b, b.Abs());
        Lru.AddValid(levels, ip, b.Abs());
        buckets, levels := buckets.Add(ip, b), levels.Add(ip, b.Abs());
        Repr := Repr + {b};
      }
    }
  }
}
