/** The reputation manager: a clean / greylisted / blocked machine per address with a sliding
    window of violations, TTL expiry and a durable copy that is reloaded at start. The bucket
    file is a map of entries, encoded without loss, whose writes succeed. */
module Reputation {
  import opened Prelude

  datatype State = Clean | Greylisted | Blocked

  datatype Config = Config(
    blockThreshold: int, window: Time, greylistTTL: Time, blockTTL: Time, cleanTTL: Time)

  /** The contents of an entry. An expiry of 0 is Go's zero time: it never expires. */
  datatype Standing = Standing(state: State, since: Time, expiry: Time, violations: seq<Time>)

  type Standings = map<string, Standing>

  datatype Store = Store(mem: Standings, db: Standings)

  datatype Transition = Transition(from: State, to: State, changed: bool, expiry: Time)

  predicate Expired(s: Standing, now: Time) {
    s.expiry != 0 && now > s.expiry
  }

  /** The readings of `ts` later than `cutoff`, in order. */
  function Later(ts: seq<Time>, cutoff: Time): (r: seq<Time>)
    ensures |r| <= |ts|
  {
    if ts == [] then []
    else
      var n := |ts| - 1;
      if ts[n] > cutoff then Push(Later(ts[..n], cutoff), ts[n]) else Later(ts[..n], cutoff)
  }

  function Known(mem: Standings, ip: string, now: Time): Standing {
    if ip in mem then mem[ip] else Standing(Clean, now, 0, [])
  }

  function TTL(cfg: Config, s: State): Time {
    match s
    case Clean => cfg.cleanTTL
    case Greylisted => cfg.greylistTTL
    case Blocked => cfg.blockTTL
  }

  function Entered(cfg: Config, s: State, now: Time, violations: seq<Time>): Standing {
    Standing(s, now, now + TTL(cfg, s), violations)
  }

  function Save(st: Store, ip: string, s: Standing): Store {
    Store(st.mem[ip := s], st.db[ip := s])
  }

  function Lookup(st: Store, ip: string, now: Time): (Store, State) {
    if ip !in st.mem then (st, Clean)
    else if Expired(st.mem[ip], now) then (Store(st.mem - {ip}, st.db - {ip}), Clean)
    else (st, st.mem[ip].state)
  }

  function Violated(cfg: Config, s: Standing, now: Time): Standing {
    var vs := Later(Push(s.violations, now), now - cfg.window);
    Entered(cfg, if |vs| >= cfg.blockThreshold then Blocked else Greylisted, now, vs)
  }

  function RegisterViolation(cfg: Config, st: Store, ip: string, now: Time): (Store, Transition) {
    var s := Known(st.mem, ip, now);
    if s.state == Blocked then (st, Transition(Blocked, Blocked, false, s.expiry))
    else
      var s' := Violated(cfg, s, now);
      (Save(st, ip, s'), Transition(s.state, s'.state, s.state != s'.state, s'.expiry))
  }

  /** MarkClean and Block: the entry is replaced, whatever it was. */
  function Force(cfg: Config, st: Store, ip: string, to: State, now: Time): (Store, Transition) {
    var from := Known(st.mem, ip, now).state;
    var s := Entered(cfg, to, now, []);
    (Save(st, ip, s), Transition(from, to, from != to, s.expiry))
  }

  /** A process start: only entries of the durable copy that have not expired are loaded. */
  function Load(db: Standings, now: Time): Store {
    Store(map ip | ip in db && !Expired(db[ip], now) :: db[ip], db)
  }

  /** Drops, in place and in order, the readings not later than `cutoff`. Go reslices and
      appends over the same backing array; here the slice is the whole array. */
  method PruneInPlace(slice: array<Time>, cutoff: Time) returns (kept: nat)
    modifies slice
    ensures kept <= slice.Length && slice[..kept] == Later(old(slice[..]), cutoff)
  {
    kept := 0;
    ghost var was := slice[..];
    for i := 0 to slice.Length
      invariant kept <= i
      invariant slice[..kept] == Later(was[..i], cutoff)
      invariant slice[i..] == was[i..]
    {
      var t := slice[i];
      assert t == slice[i..][0] == was[i];
      assert was[..i + 1][..i] == was[..i];
      ghost var front, rest := slice[..kept], slice[i + 1..];
      assert rest == was[i + 1..];
      if t > cutoff {
        slice[kept] := t;
        kept := kept + 1;
        assert slice[..kept] == Push(front, t);
      }
      assert slice[i + 1..] == rest;
    }
    assert was[..slice.Length] == was;
  }

  class Entry {
    var state: State
    var since: Time
    var expiry: Time
    var violations: seq<Time>
    /** The address the entry belongs to. */
    ghost const owner: string

    constructor (s: Standing, ghost owner: string)
      ensures Abs() == s && this.owner == owner
    {
      state, since, expiry, violations, this.owner := s.state, s.since, s.expiry, s.violations, owner;
    }

    function Abs(): Standing
      reads this
    {
      Standing(state, since, expiry, violations)
    }

    /** Records a violation and moves to greylisted or blocked. */
    method Punish(cfg: Config, now: Time)
      modifies this
      ensures Abs() == Violated(cfg, old(Abs()), now)
    {
      violations := Push(violations, now);
      Prune(now - cfg.window);
      if |violations| >= cfg.blockThreshold {
        state, since, expiry := Blocked, now, now + cfg.blockTTL;
      } else {
        state, since, expiry := Greylisted, now, now + cfg.greylistTTL;
      }
    }

    method Prune(cutoff: Time)
      modifies this`violations
      ensures violations == Later(old(violations), cutoff)
    {
      ghost var was := violations;
      var slice := new Time[|violations|](i requires 0 <= i < |violations| reads this => violations[i]);
      assert slice[..] == was;
      var kept := PruneInPlace(slice, cutoff);
      violations := slice[..kept];
    }
  }

  class Manager {
    const cfg: Config
    var entries: map<string, Entry>
    var db: Standings
    /** The entry contents, without the entry objects. */
    ghost var mem: Standings
    ghost var Repr: set<object>

    ghost predicate Valid()
      reads this, Repr
      ensures Valid() ==> this in Repr
    {
      && this in Repr
      && mem.Keys == entries.Keys
      && forall ip :: ip in entries ==> Holds(ip)
    }

    ghost predicate Holds(ip: string)
      requires ip in entries && ip in mem
      reads this, Repr
    {
      entries[ip] in Repr && entries[ip].owner == ip && mem[ip] == entries[ip].Abs()
    }

    ghost function Abs(): Store
      reads this
    {
      Store(mem, db)
    }

    /** Opens the manager on a durable copy. */
    constructor (cfg: Config, db: Standings, now: Time)
      ensures Valid() && fresh(Repr) && this.cfg == cfg
      ensures Abs() == Load(db, now)
    {
      this.cfg, this.db := cfg, db;
      entries, mem, Repr := map[], map[], {this};
      new;
      var left := db.Keys;
      while left != {}
        invariant left <= db.Keys && this.db == db
        invariant Valid() && fresh(Repr)
        invariant forall ip :: ip in mem <==> ip in db && ip !in left && !Expired(db[ip], now)
        invariant forall ip :: ip in mem ==> mem[ip] == db[ip]
        decreases |left|
      {
        var ip :| ip in left;
        left := left - {ip};
        if !Expired(db[ip], now) {
          LoadEntry(ip);
        }
      }
    }

    method LoadEntry(ip: string)
      requires Valid() && ip in db
      modifies this`entries, this`mem, this`Repr
      ensures Valid() && fresh(Repr - old(Repr)) && mem == old(mem)[ip := db[ip]]
    {
      var e := new Entry(db[ip], ip);
      Install(ip, e);
    }

    /** Makes `e` the entry of `ip`; the other entries are in order. */
    method Install(ip: string, e: Entry)
      requires this in Repr && mem.Keys == entries.Keys && e.owner == ip
      requires forall x :: x in entries && x != ip ==> Holds(x)
      modifies this`entries, this`mem, this`Repr
      ensures Valid() && Repr == old(Repr) + {e}
      ensures entries == old(entries)[ip := e] && mem == old(mem)[ip := e.Abs()]
    {
      entries, mem, Repr := entries[ip := e], mem[ip := e.Abs()], Repr + {e};
    }

    method Find(ip: string, now: Time) returns (s: State)
      requires Valid()
      modifies this
      ensures Valid() && Repr == old(Repr)
      ensures (Abs(), s) == Lookup(old(Abs()), ip, now)
    {
      if ip !in entries {
        return Clean;
      }
      var e := entries[ip];
      if e.expiry != 0 && now > e.expiry {
        entries, mem := entries - {ip}, mem - {ip};
        db := db - {ip};
        return Clean;
      }
      return e.state;
    }

    method Violate(ip: string, now: Time) returns (tr: Transition)
      requires Valid()
      modifies Repr
      ensures Valid() && fresh(Repr - old(Repr))
      ensures (Abs(), tr) == RegisterViolation(cfg, old(Abs()), ip, now)
    {
      var e := Obtain(ip, now);
      var from := e.state;
      if from == Blocked {
        return Transition(from, Blocked, false, e.expiry);
      }
      e.Punish(cfg, now);
      Install(ip, e);
      db := db[ip := e.Abs()];
      tr := Transition(from, e.state, from != e.state, e.expiry);
    }

    method Obtain(ip: string, now: Time) returns (e: Entry)
      requires Valid()
      ensures e.owner == ip && e.Abs() == Known(mem, ip, now)
      ensures if ip in entries then e == entries[ip] else fresh(e)
    {
      if ip in entries {
        return entries[ip];
      }
      e := new Entry(Standing(Clean, now, 0, []), ip);
    }

    method MarkClean(ip: string, now: Time) returns (tr: Transition)
      requires Valid()
      modifies this
      ensures Valid() && fresh(Repr - old(Repr))
      ensures (Abs(), tr) == Force(cfg, old(Abs()), ip, Clean, now)
    {
      var from := if ip in entries then entries[ip].state else Clean;
      var ne := new Entry(Standing(Clean, now, now + cfg.cleanTTL, []), ip);
      Install(ip, ne);
      db := db[ip := ne.Abs()];
      tr := Transition(from, Clean, from != Clean, ne.expiry);
    }

    method Block(ip: string, now: Time) returns (tr: Transition)
      requires Valid()
      modifies this
      ensures Valid() && fresh(Repr - old(Repr))
      ensures (Abs(), tr) == Force(cfg, old(Abs()), ip, Blocked, now)
    {
      var from := if ip in entries then entries[ip].state else Clean;
      var ne := new Entry(Standing(Blocked, now, now + cfg.blockTTL, []), ip);
      Install(ip, ne);
      db := db[ip := ne.Abs()];
      tr := Transition(from, Blocked, from != Blocked, ne.expiry);
    }
  }
}
