/** Runs of the reputation manager: restarts, the sliding window and interleaved lock sections. */
module ReputationTheory {
  import opened Prelude
  import opened Reputation

  datatype Op = Violation | Forgive | Ban

  datatype Event =
    | Look(ip: string, now: Time)
    | Act(op: Op, ip: string, now: Time)
    | Restart(now: Time)

  /** A run, oldest event first. */
  datatype Run = Start | Then(before: Run, last: Event)

  datatype Answer = Seen(state: State) | Moved(tr: Transition)

  /** One call and its answer; a restart answers nothing of interest. */
  ghost function Step(cfg: Config, st: Store, e: Event): (Store, Answer) {
    match e
    case Look(ip, now) => var (st', s) := Lookup(st, ip, now); (st', Seen(s))
    case Act(Violation, ip, now) => var (st', tr) := RegisterViolation(cfg, st, ip, now); (st', Moved(tr))
    case Act(Forgive, ip, now) => var (st', tr) := Force(cfg, st, ip, Clean, now); (st', Moved(tr))
    case Act(Ban, ip, now) => var (st', tr) := Force(cfg, st, ip, Blocked, now); (st', Moved(tr))
    case Restart(now) => (Load(st.db, now), Seen(Clean))
  }

  /** The store a run from an empty store reaches. */
  ghost function After(cfg: Config, run: Run): Store {
    match run
    case Start => Store(map[], map[])
    case Then(before, e) => Step(cfg, After(cfg, before), e).0
  }

  /** All answers given in the run. */
  ghost function Answers(cfg: Config, run: Run): seq<Answer> {
    match run
    case Start => []
    case Then(before, e) =>
      if e.Restart? then Answers(cfg, before)
      else Answers(cfg, before) + [Step(cfg, After(cfg, before), e).1]
  }

  /** The same run without its restarts. */
  ghost function Strip(run: Run): Run {
    match run
    case Start => Start
    case Then(before, e) => if e.Restart? then Strip(before) else Then(Strip(before), e)
  }

  /** The reading of the last event is `now`. */
  predicate AtClock(run: Run, now: Time) {
    run.Then? && run.last.now == now
  }

  /** The addresses looked up at the current clock reading and not acted on since. */
  function Checked(run: Run): set<string> {
    match run
    case Start => {}
    case Then(before, e) =>
      var same := if AtClock(before, e.now) then Checked(before) else {};
      match e
      case Look(ip, _) => same + {ip}
      case Act(_, ip, _) => same - {ip}
      case Restart(_) => same
  }

  /** The clock does not go back, and each mutating call follows a Lookup of its address at
      the same reading. */
  predicate Disciplined(run: Run) {
    match run
    case Start => true
    case Then(before, e) =>
      && Disciplined(before)
      && (before.Then? ==> before.last.now <= e.now)
      && (e.Act? ==> AtClock(before, e.now) && e.ip in Checked(before))
  }

  // ----- one call -----

  function StateOf(entries: Standings, ip: string): State {
    if ip in entries then entries[ip].state else Clean
  }

  /** The transition that a call reports is the one it made, and both copies of the entry are
      written, except that a violation of a blocked address changes nothing. */
  lemma TransitionIsMade(cfg: Config, st: Store, op: Op, ip: string, now: Time)
    ensures var (st', a) := Step(cfg, st, Act(op, ip, now));
      && a.Moved? && a.tr.from == StateOf(st.mem, ip) && a.tr.to == StateOf(st'.mem, ip)
      && (a.tr.changed <==> a.tr.from != a.tr.to)
      && ip in st'.mem && a.tr.expiry == st'.mem[ip].expiry
      && (op == Forgive ==> a.tr.to == Clean) && (op == Ban ==> a.tr.to == Blocked) && (op == Violation ==> a.tr.to != Clean)
      && if op == Violation && a.tr.from == Blocked then st' == st
         else st'.mem == st.mem[ip := st'.mem[ip]] && st'.db == st.db[ip := st'.mem[ip]] && st'.mem[ip].since == now
  {
  }

  // ----- crash transparency -----

  /** Memory is the durable copy, up to durable leftovers that have already expired. */
  ghost predicate Coherent(st: Store, now: Time) {
    && (forall ip :: ip in st.mem ==> ip in st.db && st.db[ip] == st.mem[ip])
    && (forall ip :: ip in st.db && ip !in st.mem ==> Expired(st.db[ip], now))
  }

  /** The addresses in `checked` hold nothing expired. */
  ghost predicate Fresh(st: Store, checked: set<string>, now: Time) {
    forall ip :: ip in checked && ip in st.mem ==> !Expired(st.mem[ip], now)
  }

  /** Two memories that differ in expired entries only. */
  ghost predicate Alike(a: Standings, b: Standings, now: Time) {
    forall ip :: AlikeAt(a, b, ip, now)
  }

  ghost predicate AlikeAt(a: Standings, b: Standings, ip: string, now: Time) {
    || (ip in a && ip in b && a[ip] == b[ip])
    || ((ip in a ==> Expired(a[ip], now)) && (ip in b ==> Expired(b[ip], now)))
  }

  lemma LaterAlike(a: Standings, b: Standings, t: Time, t': Time)
    requires Alike(a, b, t) && t <= t'
    ensures Alike(a, b, t')
  {
    forall ip ensures AlikeAt(a, b, ip, t') {
      assert AlikeAt(a, b, ip, t);
    }
  }

  lemma StepKeepsCoherent(cfg: Config, st: Store, e: Event)
    requires Coherent(st, e.now)
    ensures Coherent(Step(cfg, st, e).0, e.now)
  {
  }

  /** A restart changes expired entries only. */
  lemma RestartAlike(a: Store, b: Store, now: Time)
    requires Coherent(a, now) && Alike(a.mem, b.mem, now)
    ensures Alike(Load(a.db, now).mem, b.mem, now)
  {
    forall ip ensures AlikeAt(Load(a.db, now).mem, b.mem, ip, now) {
      assert AlikeAt(a.mem, b.mem, ip, now);
    }
  }

  lemma AnswersAlike(cfg: Config, a: Store, b: Store, e: Event)
    requires !e.Restart? && AlikeAt(a.mem, b.mem, e.ip, e.now)
    requires e.Act? ==> Fresh(a, {e.ip}, e.now) && Fresh(b, {e.ip}, e.now)
    ensures Step(cfg, a, e).1 == Step(cfg, b, e).1
    ensures AlikeAt(Step(cfg, a, e).0.mem, Step(cfg, b, e).0.mem, e.ip, e.now)
  {
    if e.Act? {
      assert e.ip in {e.ip};
    }
  }

  lemma StepSparesOthers(cfg: Config, st: Store, e: Event, ip: string)
    requires !e.Restart? && ip != e.ip
    ensures var mem := Step(cfg, st, e).0.mem;
      (ip in mem <==> ip in st.mem) && (ip in mem ==> mem[ip] == st.mem[ip])
  {
  }

  /** A call answers the same on two stores that differ in expired entries only. */
  lemma StepAlike(cfg: Config, a: Store, b: Store, e: Event)
    requires !e.Restart? && Alike(a.mem, b.mem, e.now)
    requires e.Act? ==> Fresh(a, {e.ip}, e.now) && Fresh(b, {e.ip}, e.now)
    ensures Step(cfg, a, e).1 == Step(cfg, b, e).1
    ensures Alike(Step(cfg, a, e).0.mem, Step(cfg, b, e).0.mem, e.now)
  {
    assert AlikeAt(a.mem, b.mem, e.ip, e.now);
    AnswersAlike(cfg, a, b, e);
    forall ip ensures AlikeAt(Step(cfg, a, e).0.mem, Step(cfg, b, e).0.mem, ip, e.now) {
      if ip != e.ip {
        assert AlikeAt(a.mem, b.mem, ip, e.now);
        StepSparesOthers(cfg, a, e, ip);
        StepSparesOthers(cfg, b, e, ip);
      }
    }
  }

  lemma {:induction false} RunInvariant(cfg: Config, run: Run)
    requires Disciplined(run) && run.Then?
    ensures Coherent(After(cfg, run), run.last.now)
    ensures Fresh(After(cfg, run), Checked(run), run.last.now)
  {
    if run.before.Then? {
      RunInvariant(cfg, run.before);
    }
    StepKeepsCoherent(cfg, After(cfg, run.before), run.last);
  }

  /** The stripped run stays alike. */
  lemma {:induction false} StrippedRunIsAlike(cfg: Config, run: Run)
    requires Disciplined(run) && run.Then?
    ensures Alike(After(cfg, run).mem, After(cfg, Strip(run)).mem, run.last.now)
    ensures Fresh(After(cfg, Strip(run)), Checked(run), run.last.now)
    decreases run, 0
  {
    var a, b, e := After(cfg, run.before), After(cfg, Strip(run.before)), run.last;
    AlikeBefore(cfg, run);
    if e.Restart? {
      RestartAlike(a, b, e.now);
    } else {
      StepAlike(cfg, a, b, e);
    }
  }

  /** Before the last event of a disciplined run. */
  lemma {:induction false} AlikeBefore(cfg: Config, run: Run)
    requires Disciplined(run) && run.Then?
    ensures var a, b, e := After(cfg, run.before), After(cfg, Strip(run.before)), run.last;
      && Coherent(a, e.now) && Alike(a.mem, b.mem, e.now)
      && (e.Act? ==> Fresh(a, {e.ip}, e.now) && Fresh(b, {e.ip}, e.now))
      && (AtClock(run.before, e.now) ==> Fresh(b, Checked(run.before), e.now))
    decreases run.before, 1
  {
    if run.before.Then? {
      StrippedRunIsAlike(cfg, run.before);
      RunInvariant(cfg, run.before);
      LaterAlike(After(cfg, run.before).mem, After(cfg, Strip(run.before)).mem, run.before.last.now, run.last.now);
    }
  }

  /** Restarts inserted anywhere in a disciplined run change no answer: every Lookup result
      and every returned transition is the one of the run that never crashed. */
  lemma {:induction false} CrashTransparency(cfg: Config, run: Run)
    requires Disciplined(run)
    ensures Answers(cfg, run) == Answers(cfg, Strip(run))
  {
    if run.Then? {
      CrashTransparency(cfg, run.before);
      AlikeBefore(cfg, run);
      if !run.last.Restart? {
        StepAlike(cfg, After(cfg, run.before), After(cfg, Strip(run.before)), run.last);
      }
    }
  }

  lemma LaterSnoc(a: seq<Time>, t: Time, c: Time)
    ensures Later(Push(a, t), c) == if t > c then Push(Later(a, c), t) else Later(a, c)
  {
    assert Push(a, t)[..|a|] == a;
  }

  lemma CoherentLater(st: Store, t: Time, t': Time)
    requires Coherent(st, t) && t <= t'
    ensures Coherent(st, t')
  {
  }

  /** In every run clean entries hold no violations. */
  lemma {:induction false} CleanIsBlank(cfg: Config, run: Run, ip: string)
    ensures var mem := After(cfg, run).mem; ip in mem && mem[ip].state == Clean ==> mem[ip].violations == []
  {
    if run.Then? {
      CleanIsBlank(cfg, run.before, ip);
      if run.last.Restart? {
        StoredCleanIsBlank(cfg, run.before, ip);
      }
    }
  }

  lemma {:induction false} StoredCleanIsBlank(cfg: Config, run: Run, ip: string)
    ensures var db := After(cfg, run).db; ip in db && db[ip].state == Clean ==> db[ip].violations == []
  {
    if run.Then? {
      StoredCleanIsBlank(cfg, run.before, ip);
      CleanIsBlank(cfg, run.before, ip);
    }
  }

  /** The entry is one that a Lookup would drop, and it is not the clean state anyway. */
  ghost predicate Stale(mem: Standings, ip: string, now: Time) {
    ip in mem && mem[ip].expiry != 0 && mem[ip].expiry < now && mem[ip].state != Clean
  }

  /** A call made without a Lookup answers differently after a crash exactly when it finds a
      stale entry. */
  lemma CrashShowsAt(cfg: Config, st: Store, op: Op, ip: string, now: Time)
    requires Coherent(st, now) && (ip in st.mem && st.mem[ip].state == Clean ==> st.mem[ip].violations == [])
    ensures Step(cfg, st, Act(op, ip, now)).1 != Step(cfg, Load(st.db, now), Act(op, ip, now)).1
       <==> Stale(st.mem, ip, now)
  {
  }

  /** After any disciplined run, a crash just before a call shows in its answer exactly when the
      call is not preceded by the Lookup that would have dropped a stale entry. */
  lemma CrashShowsIff(cfg: Config, run: Run, op: Op, ip: string, now: Time)
    requires Disciplined(run) && (run.Then? ==> run.last.now <= now)
    ensures Step(cfg, After(cfg, run), Act(op, ip, now)).1
         != Step(cfg, After(cfg, Then(run, Restart(now))), Act(op, ip, now)).1
       <==> Stale(After(cfg, run).mem, ip, now)
  {
    if run.Then? {
      RunInvariant(cfg, run);
      CoherentLater(After(cfg, run), run.last.now, now);
    }
    CleanIsBlank(cfg, run, ip);
    CrashShowsAt(cfg, After(cfg, run), op, ip, now);
  }

  /** An instance: the second violation finds the expired block in memory, but not after a
      restart. */
  lemma UncheckedCallSeesCrash()
    ensures
      var cfg, calm, again := Config(1, 10, 10, 1, 1), Then(Then(Start, Look("a", 1)), Act(Violation, "a", 1)), Act(Violation, "a", 5);
      && Disciplined(calm)
      && Step(cfg, After(cfg, calm), again).1 != Step(cfg, After(cfg, Then(calm, Restart(5))), again).1
  {
    var cfg, calm := Config(1, 10, 10, 1, 1), Then(Then(Start, Look("a", 1)), Act(Violation, "a", 1));
    LaterSnoc([], 1, -9);
    assert After(cfg, calm).mem["a"] == Standing(Blocked, 1, 2, [1]);
    CrashShowsIff(cfg, calm, Violation, "a", 5);
  }

  // ----- the sliding window -----

  /** The violations of `ip` registered while it was not blocked, since it was last forgiven
      or banned: the full history, which the store does not keep. */
  ghost function History(cfg: Config, run: Run, ip: string): seq<Time> {
    match run
    case Start => []
    case Then(before, e) => NextHistory(After(cfg, before), e, ip, History(cfg, before, ip))
  }

  ghost function NextHistory(st: Store, e: Event, ip: string, h: seq<Time>): seq<Time> {
    if !e.Act? || e.ip != ip then h
    else if e.op != Violation then []
    else if Known(st.mem, ip, e.now).state == Blocked then h
    else Push(h, e.now)
  }

  /** Expiry does not outrun the window. */
  predicate ExpiryCoversWindow(cfg: Config) {
    cfg.window <= cfg.greylistTTL + 1 && cfg.window <= cfg.blockTTL + 1
  }

  lemma {:induction false} LaterTwice(a: seq<Time>, c: Time, c': Time)
    requires c <= c'
    ensures Later(Later(a, c), c') == Later(a, c')
  {
    if a != [] {
      var n := |a| - 1;
      LaterTwice(a[..n], c, c');
      if a[n] > c {
        LaterSnoc(Later(a[..n], c), a[n], c');
      }
    }
  }

  lemma {:induction false} LaterNone(a: seq<Time>, c: Time)
    requires UpTo(a, c)
    ensures Later(a, c) == []
  {
    if a != [] {
      LaterNone(a[..|a| - 1], c);
    }
  }

  lemma {:induction false} LaterAll(a: seq<Time>, c: Time)
    requires forall i :: 0 <= i < |a| ==> a[i] > c
    ensures Later(a, c) == a
  {
    if a != [] {
      LaterAll(a[..|a| - 1], c);
      assert a == a[..|a| - 1] + [a[|a| - 1]];
    }
  }

  lemma {:induction false} LaterAbove(ts: seq<Time>, c: Time)
    ensures forall i :: 0 <= i < |Later(ts, c)| ==> Later(ts, c)[i] > c
  {
    if ts != [] {
      LaterAbove(ts[..|ts| - 1], c);
    }
  }

  ghost predicate UpTo(h: seq<Time>, t: Time) {
    forall i :: 0 <= i < |h| ==> h[i] <= t
  }

  /** The entry keeps the part of the history that was in the window when it last changed. */
  ghost predicate Remembers(cfg: Config, s: Standing, h: seq<Time>) {
    && s.violations == Later(h, s.since - cfg.window) && UpTo(h, s.since)
    && if s.state == Clean then h == [] else s.expiry == s.since + TTL(cfg, s.state)
  }

  ghost predicate Tracks(cfg: Config, mem: Standings, ip: string, h: seq<Time>, now: Time) {
    if ip in mem then Remembers(cfg, mem[ip], h) && mem[ip].since <= now
    else UpTo(h, now - cfg.window)
  }

  /** The pruned entry and the full history count the same violations. */
  lemma PrunedAgrees(cfg: Config, mem: Standings, ip: string, h: seq<Time>, now: Time)
    requires Tracks(cfg, mem, ip, h, now)
    ensures Later(Push(Known(mem, ip, now).violations, now), now - cfg.window) == Later(Push(h, now), now - cfg.window)
  {
    var vs, cutoff := Known(mem, ip, now).violations, now - cfg.window;
    assert Later(vs, cutoff) == Later(h, cutoff) by {
      if ip in mem {
        LaterTwice(h, mem[ip].since - cfg.window, cutoff);
      } else {
        LaterNone(h, cutoff);
      }
    }
    LaterSnoc(vs, now, cutoff);
    LaterSnoc(h, now, cutoff);
  }

  lemma ViolationRemembers(cfg: Config, mem: Standings, ip: string, h: seq<Time>, now: Time)
    requires 0 < cfg.window && Tracks(cfg, mem, ip, h, now)
    ensures Remembers(cfg, Violated(cfg, Known(mem, ip, now), now), Push(h, now))
  {
    PrunedAgrees(cfg, mem, ip, h, now);
    UpToSnoc(h, if ip in mem then mem[ip].since else now - cfg.window, now);
    EnteredRemembers(cfg, Known(mem, ip, now), h, now);
  }

  lemma EnteredRemembers(cfg: Config, s: Standing, h: seq<Time>, now: Time)
    requires Later(Push(s.violations, now), now - cfg.window) == Later(Push(h, now), now - cfg.window)
    requires UpTo(Push(h, now), now)
    ensures Remembers(cfg, Violated(cfg, s, now), Push(h, now))
  {
  }

  lemma UpToSnoc(h: seq<Time>, t: Time, t': Time)
    requires UpTo(h, t) && t <= t'
    ensures UpTo(Push(h, t'), t')
  {
  }

  /** Only entries none of whose violations is still in the window expire. */
  lemma ExpiredIsOutOfWindow(cfg: Config, s: Standing, h: seq<Time>, now: Time)
    requires ExpiryCoversWindow(cfg) && Remembers(cfg, s, h) && Expired(s, now)
    ensures UpTo(h, now - cfg.window)
  {
  }

  lemma ActTracks(cfg: Config, st: Store, e: Event, ip: string, h: seq<Time>)
    requires 0 < cfg.window && e.Act? && Tracks(cfg, st.mem, ip, h, e.now)
    ensures Tracks(cfg, Step(cfg, st, e).0.mem, ip, NextHistory(st, e, ip, h), e.now)
  {
    if e.ip == ip && e.op == Violation && Known(st.mem, ip, e.now).state != Blocked {
      ViolationRemembers(cfg, st.mem, ip, h, e.now);
    }
  }

  lemma StepTracks(cfg: Config, st: Store, e: Event, ip: string, h: seq<Time>)
    requires 0 < cfg.window && ExpiryCoversWindow(cfg)
    requires Coherent(st, e.now) && Tracks(cfg, st.mem, ip, h, e.now)
    ensures Tracks(cfg, Step(cfg, st, e).0.mem, ip, NextHistory(st, e, ip, h), e.now)
  {
    if e.Act? {
      ActTracks(cfg, st, e, ip, h);
    } else if ip in st.mem && Expired(st.mem[ip], e.now) {
      ExpiredIsOutOfWindow(cfg, st.mem[ip], h, e.now);
    }
  }

  lemma {:induction false} RunTracks(cfg: Config, run: Run, ip: string)
    requires 0 < cfg.window && ExpiryCoversWindow(cfg) && Disciplined(run)
    ensures run.Then? ==> Tracks(cfg, After(cfg, run).mem, ip, History(cfg, run, ip), run.last.now)
  {
    if run.Then? {
      RunTracks(cfg, run.before, ip);
      if run.before.Then? {
        RunInvariant(cfg, run.before);
      }
      StepTracks(cfg, After(cfg, run.before), run.last, ip, History(cfg, run.before, ip));
    }
  }

  /** What RegisterViolation decides for an address that is not blocked. */
  lemma BlocksAtThreshold(cfg: Config, st: Store, ip: string, now: Time)
    requires Known(st.mem, ip, now).state != Blocked
    ensures RegisterViolation(cfg, st, ip, now).1.to == Blocked <==>
            |Later(Push(Known(st.mem, ip, now).violations, now), now - cfg.window)| >= cfg.blockThreshold
  {
  }

  /** The violation blocks exactly when the full history has the threshold in the window. */
  ghost predicate Exact(cfg: Config, run: Run, ip: string, now: Time) {
    BlocksByHistory(cfg, After(cfg, run), History(cfg, run, ip), ip, now)
  }

  /** Which of the readings are later than `cutoff`. */
  ghost function ReadAfter(ts: seq<Time>, cutoff: Time): set<nat> {
    set i: nat | i < |ts| && ts[i] > cutoff
  }

  lemma {:induction false} LaterIsSize(ts: seq<Time>, cutoff: Time)
    ensures |Later(ts, cutoff)| == |ReadAfter(ts, cutoff)|
  {
    if ts != [] {
      var n := |ts| - 1;
      LaterIsSize(ts[..n], cutoff);
      var init, all := ReadAfter(ts[..n], cutoff), ReadAfter(ts, cutoff);
      assert all == if ts[n] > cutoff then init + {n} else init;
    }
  }

  ghost predicate BlocksByHistory(cfg: Config, st: Store, h: seq<Time>, ip: string, now: Time) {
    RegisterViolation(cfg, st, ip, now).1.to == Blocked <==>
    |ReadAfter(Push(h, now), now - cfg.window)| >= cfg.blockThreshold
  }

  /** A violation the run can continue with, of an address that is not blocked. */
  ghost predicate Countable(cfg: Config, run: Run, ip: string, now: Time) {
    Disciplined(Then(run, Act(Violation, ip, now))) && Known(After(cfg, run).mem, ip, now).state != Blocked
  }

  /** In every disciplined run, restarts included, a violation of an address that is not
      blocked blocks it exactly when the full history, with this violation, has at least the
      threshold of readings in the window that ends now. */
  lemma SlidingWindowExact(cfg: Config, run: Run, ip: string, now: Time)
    requires 0 < cfg.window && (cfg.blockThreshold <= 1 || ExpiryCoversWindow(cfg))
    requires Countable(cfg, run, ip, now)
    ensures Exact(cfg, run, ip, now)
  {
    var mem, h := After(cfg, run).mem, History(cfg, run, ip);
    BlocksAtThreshold(cfg, After(cfg, run), ip, now);
    LaterIsSize(Push(h, now), now - cfg.window);
    if cfg.blockThreshold <= 1 {
      LaterSnoc(Known(mem, ip, now).violations, now, now - cfg.window);
      LaterSnoc(h, now, now - cfg.window);
    } else {
      RunTracks(cfg, run, ip);
      PrunedAgrees(cfg, mem, ip, h, now);
    }
  }

  // ----- the condition on the TTLs is needed -----

  /** `k` violations of one address at clock 1. */
  ghost function Flood(k: nat): Run {
    if k == 0 then Start else Then(Then(Flood(k - 1), Look("a", 1)), Act(Violation, "a", 1))
  }

  ghost function Ones(k: nat): seq<Time> {
    seq(k, _ => 1)
  }

  lemma OnesGrow(k: nat, c: Time)
    requires c < 1
    ensures Push(Ones(k), 1) == Ones(k + 1) && Later(Push(Ones(k), 1), c) == Ones(k + 1)
  {
    LaterAll(Push(Ones(k), 1), c);
  }

  ghost function FloodMem(cfg: Config, k: nat): Standings {
    var s := if k >= cfg.blockThreshold then Blocked else Greylisted;
    if k == 0 then map[] else map["a" := Entered(cfg, s, 1, Ones(k))]
  }

  lemma OneMore(cfg: Config, st: Store, k: nat)
    requires 0 < cfg.window && k < cfg.blockThreshold && st.mem == FloodMem(cfg, k)
    ensures RegisterViolation(cfg, st, "a", 1).0.mem == FloodMem(cfg, k + 1)
  {
    OnesGrow(k, 1 - cfg.window);
    assert Known(st.mem, "a", 1).violations == Ones(k);
  }

  /** The entry is still there at clock 1. */
  lemma FloodStays(cfg: Config, st: Store, k: nat)
    requires k < cfg.blockThreshold && 0 <= cfg.greylistTTL && st.mem == FloodMem(cfg, k)
    ensures Lookup(st, "a", 1).0 == st && Known(st.mem, "a", 1).state != Blocked
  {
  }

  lemma {:induction false} FloodState(cfg: Config, k: nat)
    requires 0 < cfg.window && k <= cfg.blockThreshold && 0 <= cfg.greylistTTL
    ensures Disciplined(Flood(k)) && (k != 0 ==> AtClock(Flood(k), 1))
    ensures History(cfg, Flood(k), "a") == Ones(k) && After(cfg, Flood(k)).mem == FloodMem(cfg, k)
  {
    if k != 0 {
      FloodState(cfg, k - 1);
      FloodStays(cfg, After(cfg, Flood(k - 1)), k - 1);
      OneMore(cfg, After(cfg, Flood(k - 1)), k - 1);
      OnesGrow(k - 1, 0);
    }
  }

  /** When an entry can expire inside the window, some disciplined run miscounts. */
  lemma ShortExpiryMiscounts(cfg: Config) returns (run: Run, now: Time)
    requires 0 < cfg.window && 2 <= cfg.blockThreshold && 0 <= cfg.greylistTTL && 0 <= cfg.blockTTL
    requires !ExpiryCoversWindow(cfg)
    ensures Countable(cfg, run, "a", now) && !Exact(cfg, run, "a", now)
  {
    var early := cfg.greylistTTL + 1 < cfg.window;
    var k := if early then cfg.blockThreshold - 1 else cfg.blockThreshold;
    now := 2 + if early then cfg.greylistTTL else cfg.blockTTL;
    FloodState(cfg, k);
    ForgottenFlood(cfg, Flood(k), k, now);
    run := Then(Flood(k), Look("a", now));
  }

  /** A Lookup that drops `k` violations still in the window makes the next one count as 1. */
  lemma ForgottenFlood(cfg: Config, flood: Run, k: nat, now: Time)
    requires 0 < k && 0 < cfg.window && 2 <= cfg.blockThreshold <= k + 1 && now <= cfg.window
    requires Disciplined(flood) && flood.Then? && flood.last.now <= now && History(cfg, flood, "a") == Ones(k)
    requires var mem := After(cfg, flood).mem; "a" in mem && Expired(mem["a"], now)
    ensures var run := Then(flood, Look("a", now)); Countable(cfg, run, "a", now) && !Exact(cfg, run, "a", now)
  {
    ForgottenStartsOver(cfg, After(cfg, Then(flood, Look("a", now))), k, now);
  }

  lemma ForgottenStartsOver(cfg: Config, st: Store, k: nat, now: Time)
    requires 0 < cfg.window && 2 <= cfg.blockThreshold <= k + 1 && now <= cfg.window && "a" !in st.mem
    ensures !BlocksByHistory(cfg, st, Ones(k), "a", now)
  {
    LaterSnoc([], now, now - cfg.window);
    StillInWindow(k, now, cfg.window);
    LaterIsSize(Push(Ones(k), now), now - cfg.window);
  }

  lemma StillInWindow(k: nat, now: Time, window: Time)
    requires 0 < window && now <= window
    ensures |Later(Push(Ones(k), now), now - window)| == k + 1
  {
    var h := Ones(k);
    LaterAll(h, now - window);
    LaterSnoc(h, now, now - window);
  }

  /** Exactness in every disciplined run is the same as expiry covering the window (or a
      threshold of one). */
  lemma SlidingWindowExactIff(cfg: Config)
    requires 0 < cfg.window && 0 <= cfg.greylistTTL && 0 <= cfg.blockTTL
    ensures (cfg.blockThreshold <= 1 || ExpiryCoversWindow(cfg)) <==>
            forall run, ip, now :: Countable(cfg, run, ip, now) ==> Exact(cfg, run, ip, now)
  {
    if cfg.blockThreshold <= 1 || ExpiryCoversWindow(cfg) {
      forall run, ip, now | Countable(cfg, run, ip, now) ensures Exact(cfg, run, ip, now) {
        SlidingWindowExact(cfg, run, ip, now);
      }
    } else {
      var run, now := ShortExpiryMiscounts(cfg);
    }
  }

  // ----- interleaved lock sections -----

  /** A durable write that has left its lock section and not yet reached the file. */
  datatype Write = Put(ip: string, s: Standing) | Delete(ip: string)

  /** Each method is one locked update of the entries followed, outside the lock, by one
      durable write; writes of different calls can reach the file in any order. */
  datatype Shared = Shared(mem: Standings, pending: seq<Write>, db: Standings)

  datatype Section =
    | Drop(ip: string)                      // the locked half of an expiring Lookup
    | Enter(op: Op, ip: string, now: Time)  // the locked half of a mutating call
    | Flush(i: nat)                         // one pending write reaches the file
    | Crash(now: Time)                      // pending writes are lost, the file is reloaded

  ghost function Interleave(cfg: Config, sh: Shared, s: Section): Shared {
    match s
    case Drop(ip) => Shared(sh.mem - {ip}, sh.pending + [Delete(ip)], sh.db)
    case Enter(op, ip, now) =>
      var st := Step(cfg, Store(sh.mem, map[]), Act(op, ip, now)).0;
      Shared(st.mem, if ip in st.db then sh.pending + [Put(ip, st.db[ip])] else sh.pending, sh.db)
    case Flush(i) =>
      if i >= |sh.pending| then sh
      else
        var db := match sh.pending[i]
                  case Put(ip, e) => sh.db[ip := e]
                  case Delete(ip) => sh.db - {ip};
        Shared(sh.mem, sh.pending[..i] + sh.pending[i + 1..], db)
    case Crash(now) => Shared(Load(sh.db, now).mem, [], sh.db)
  }

  datatype Schedule = Idle | Next(before: Schedule, last: Section)

  ghost function Interleaved(cfg: Config, sched: Schedule): Shared {
    match sched
    case Idle => Shared(map[], [], map[])
    case Next(before, s) => Interleave(cfg, Interleaved(cfg, before), s)
  }

  /** Clock readings are after the zero time. */
  predicate Clocked(sched: Schedule) {
    sched.Next? ==> Clocked(sched.before) && (sched.last.Enter? ==> 0 < sched.last.now)
  }

  predicate Sensible(cfg: Config) {
    0 < cfg.window && 0 < cfg.blockThreshold && 0 <= cfg.greylistTTL && 0 <= cfg.blockTTL && 0 <= cfg.cleanTTL
  }

  /** What every stored entry satisfies. */
  ghost predicate WellFormed(cfg: Config, s: Standing) {
    && s.expiry != 0 && (forall i :: 0 <= i < |s.violations| ==> s.violations[i] > s.since - cfg.window)
    && match s.state
       case Clean => s.expiry == s.since + cfg.cleanTTL && s.violations == []
       case Greylisted => s.expiry == s.since + cfg.greylistTTL && 1 <= |s.violations| < cfg.blockThreshold
       case Blocked => s.expiry == s.since + cfg.blockTTL && |s.violations| <= cfg.blockThreshold
  }

  ghost predicate AllWellFormed(cfg: Config, sh: Shared) {
    && (forall ip :: ip in sh.mem ==> WellFormed(cfg, sh.mem[ip]))
    && (forall ip :: ip in sh.db ==> WellFormed(cfg, sh.db[ip]))
    && (forall i :: 0 <= i < |sh.pending| && sh.pending[i].Put? ==> WellFormed(cfg, sh.pending[i].s))
  }

  lemma ViolatedWellFormed(cfg: Config, s: Standing, now: Time)
    requires Sensible(cfg) && 0 < now && |s.violations| < cfg.blockThreshold
    ensures WellFormed(cfg, Violated(cfg, s, now))
  {
    LaterAbove(Push(s.violations, now), now - cfg.window);
    LaterSnoc(s.violations, now, now - cfg.window);
  }

  lemma EnterWellFormed(cfg: Config, mem: Standings, op: Op, ip: string, now: Time)
    requires Sensible(cfg) && 0 < now && (ip in mem ==> WellFormed(cfg, mem[ip]))
    ensures var st := Step(cfg, Store(mem, map[]), Act(op, ip, now)).0;
      && (ip in st.mem ==> WellFormed(cfg, st.mem[ip])) && (ip in st.db ==> WellFormed(cfg, st.db[ip]))
      && (forall x :: x in st.mem && x != ip ==> x in mem && st.mem[x] == mem[x])
  {
    if op == Violation && Known(mem, ip, now).state != Blocked {
      ViolatedWellFormed(cfg, Known(mem, ip, now), now);
    }
  }

  lemma InterleaveWellFormed(cfg: Config, sh: Shared, s: Section)
    requires Sensible(cfg) && AllWellFormed(cfg, sh) && (s.Enter? ==> 0 < s.now)
    ensures AllWellFormed(cfg, Interleave(cfg, sh, s))
  {
    if s.Enter? {
      EnterWellFormed(cfg, sh.mem, s.op, s.ip, s.now);
    }
  }

  /** In every interleaving of lock sections, durable writes and crashes, with whatever (even
      stale) clock readings, every entry in memory, in flight and on disk is well formed. */
  lemma {:induction false} EntriesWellFormed(cfg: Config, sched: Schedule)
    requires Sensible(cfg) && Clocked(sched)
    ensures AllWellFormed(cfg, Interleaved(cfg, sched))
  {
    if sched.Next? {
      EntriesWellFormed(cfg, sched.before);
      InterleaveWellFormed(cfg, Interleaved(cfg, sched.before), sched.last);
    }
  }

  // ----- when memory and disk agree under interleaving -----

  /** No crash. */
  predicate Steady(sched: Schedule) {
    sched.Next? ==> Steady(sched.before) && !sched.last.Crash?
  }

  /** What a write leaves at its address. */
  function Left(w: Option<Write>): Option<Standing> {
    if w.Some? && w.value.Put? then Some(w.value.s) else None
  }

  function At(entries: Standings, ip: string): Option<Standing> {
    if ip in entries then Some(entries[ip]) else None
  }

  /** The write that a locked section queues, if any. */
  ghost function Queued(cfg: Config, sh: Shared, s: Section): Option<Write> {
    match s
    case Drop(ip) => Some(Delete(ip))
    case Enter(op, ip, now) =>
      var db := Step(cfg, Store(sh.mem, map[]), Act(op, ip, now)).0.db;
      if ip in db then Some(Put(ip, db[ip])) else None
    case _ => None
  }

  /** The write that reaches the file. */
  ghost function Landed(sh: Shared, s: Section): Option<Write> {
    if s.Flush? && s.i < |sh.pending| then Some(sh.pending[s.i]) else None
  }

  ghost function Newest(ip: string, w: Option<Write>, before: Option<Write>): Option<Write> {
    if w.Some? && w.value.ip == ip then w else before
  }

  /** The write of `ip` that was queued last. */
  ghost function LastQueued(cfg: Config, sched: Schedule, ip: string): Option<Write> {
    match sched
    case Idle => None
    case Next(before, s) => Newest(ip, Queued(cfg, Interleaved(cfg, before), s), LastQueued(cfg, before, ip))
  }

  /** The write of `ip` that reached the file last. */
  ghost function LastLanded(cfg: Config, sched: Schedule, ip: string): Option<Write> {
    match sched
    case Idle => None
    case Next(before, s) => Newest(ip, Landed(Interleaved(cfg, before), s), LastLanded(cfg, before, ip))
  }

  function Written(db: Standings, w: Write): Standings {
    match w
    case Put(ip, s) => db[ip := s]
    case Delete(ip) => db - {ip}
  }

  /** A locked section changes memory exactly as the write it queues will change the file. */
  lemma SectionQueuesItsChange(cfg: Config, sh: Shared, s: Section)
    requires s.Drop? || s.Enter?
    ensures var sh', w := Interleave(cfg, sh, s), Queued(cfg, sh, s);
      && sh'.db == sh.db
      && if w.None? then sh'.mem == sh.mem && sh'.pending == sh.pending
         else sh'.mem == Written(sh.mem, w.value) && sh'.pending == sh.pending + [w.value]
  {
  }

  /** Memory is what the last queued write says, and the file what the last landed one says. */
  lemma {:induction false} MemoryAndFile(cfg: Config, sched: Schedule, ip: string)
    requires Steady(sched)
    ensures At(Interleaved(cfg, sched).mem, ip) == Left(LastQueued(cfg, sched, ip))
    ensures At(Interleaved(cfg, sched).db, ip) == Left(LastLanded(cfg, sched, ip))
  {
    if sched.Next? {
      MemoryAndFile(cfg, sched.before, ip);
      if sched.last.Drop? || sched.last.Enter? {
        SectionQueuesItsChange(cfg, Interleaved(cfg, sched.before), sched.last);
      }
    }
  }

  ghost predicate Waits(pending: seq<Write>, ip: string) {
    exists i :: 0 <= i < |pending| && pending[i].ip == ip
  }

  /** A queued write is on its way until one of its address has reached the file. */
  lemma {:induction false} QueuedOrLanded(cfg: Config, sched: Schedule, ip: string)
    requires Steady(sched)
    ensures LastQueued(cfg, sched, ip).Some? <==>
            LastLanded(cfg, sched, ip).Some? || Waits(Interleaved(cfg, sched).pending, ip)
    ensures LastQueued(cfg, sched, ip).Some? ==> LastQueued(cfg, sched, ip).value.ip == ip
    ensures LastLanded(cfg, sched, ip).Some? ==> LastLanded(cfg, sched, ip).value.ip == ip
  {
    if sched.Next? {
      QueuedOrLanded(cfg, sched.before, ip);
      var sh, s := Interleaved(cfg, sched.before), sched.last;
      if s.Flush? && s.i < |sh.pending| {
        StillWaits(sh.pending, s.i, ip);
      } else if Queued(cfg, sh, s).Some? {
        AlsoWaits(sh.pending, Queued(cfg, sh, s).value, ip);
      }
    }
  }

  lemma StillWaits(pending: seq<Write>, i: nat, ip: string)
    requires i < |pending|
    ensures Waits(pending, ip) <==> pending[i].ip == ip || Waits(pending[..i] + pending[i + 1..], ip)
  {
    var rest := pending[..i] + pending[i + 1..];
    if j :| 0 <= j < |pending| && pending[j].ip == ip {
      assert j < i ==> rest[j] == pending[j];
      assert j > i ==> rest[j - 1] == pending[j];
    }
    if j :| 0 <= j < |rest| && rest[j].ip == ip {
      assert rest[j] == pending[if j < i then j else j + 1];
    }
  }

  lemma AlsoWaits(pending: seq<Write>, w: Write, ip: string)
    ensures Waits(pending + [w], ip) <==> w.ip == ip || Waits(pending, ip)
  {
    var more := pending + [w];
    assert more[|pending|] == w;
    if j :| 0 <= j < |pending| && pending[j].ip == ip {
      assert more[j] == pending[j];
    }
  }

  /** In every interleaving without crashes, once nothing is pending, memory and file agree on
      an address exactly when the write of it that reached the file last is, or equals, the one
      that was queued last. */
  lemma SettledAgreesIff(cfg: Config, sched: Schedule, ip: string)
    requires Steady(sched) && Interleaved(cfg, sched).pending == []
    ensures At(Interleaved(cfg, sched).db, ip) == At(Interleaved(cfg, sched).mem, ip)
       <==> LastLanded(cfg, sched, ip) == LastQueued(cfg, sched, ip)
  {
    MemoryAndFile(cfg, sched, ip);
    QueuedOrLanded(cfg, sched, ip);
  }

  /** Each write that reaches the file is the oldest pending one of its address. */
  ghost predicate InOrder(cfg: Config, sched: Schedule) {
    sched.Next? ==>
      && InOrder(cfg, sched.before)
      && var pending := Interleaved(cfg, sched.before).pending;
         sched.last.Flush? && sched.last.i < |pending| ==> Oldest(pending, sched.last.i)
  }

  ghost predicate Oldest(pending: seq<Write>, i: nat)
    requires i < |pending|
  {
    forall j :: 0 <= j < i ==> pending[j].ip != pending[i].ip
  }

  /** The file once all pending writes have reached it in order. */
  function Replayed(db: Standings, pending: seq<Write>): Standings {
    if pending == [] then db else Written(Replayed(db, pending[..|pending| - 1]), pending[|pending| - 1])
  }

  lemma {:induction false} OldestMayGoFirst(db: Standings, pending: seq<Write>, i: nat)
    requires i < |pending| && Oldest(pending, i)
    ensures Replayed(Written(db, pending[i]), pending[..i] + pending[i + 1..]) == Replayed(db, pending)
  {
    var n, w := |pending| - 1, pending[i];
    var rest := pending[..i] + pending[i + 1..];
    if i < n {
      assert pending[..n][..i] + pending[..n][i + 1..] == rest[..n - 1];
      assert rest[n - 1] == pending[n];
      OldestMayGoFirst(db, pending[..n], i);
    } else {
      assert rest == pending[..n];
      WriteGoesLast(db, rest, w);
    }
  }

  /** A write commutes with writes of other addresses. */
  lemma {:induction false} WriteGoesLast(db: Standings, pending: seq<Write>, w: Write)
    requires forall j :: 0 <= j < |pending| ==> pending[j].ip != w.ip
    ensures Replayed(Written(db, w), pending) == Written(Replayed(db, pending), w)
  {
    if pending != [] {
      WriteGoesLast(db, pending[..|pending| - 1], w);
    }
  }

  lemma QueuedGoesLast(db: Standings, pending: seq<Write>, w: Write)
    ensures Replayed(db, pending + [w]) == Written(Replayed(db, pending), w)
  {
    assert (pending + [w])[..|pending|] == pending;
  }

  lemma StepKeepsDifference(cfg: Config, sh: Shared, s: Section)
    requires Replayed(sh.db, sh.pending) == sh.mem && !s.Crash?
    requires s.Flush? && s.i < |sh.pending| ==> Oldest(sh.pending, s.i)
    ensures var sh' := Interleave(cfg, sh, s); Replayed(sh'.db, sh'.pending) == sh'.mem
  {
    if s.Flush? {
      if s.i < |sh.pending| {
        OldestMayGoFirst(sh.db, sh.pending, s.i);
      }
    } else {
      SectionQueuesItsChange(cfg, sh, s);
      if Queued(cfg, sh, s).Some? {
        QueuedGoesLast(sh.db, sh.pending, Queued(cfg, sh, s).value);
      }
    }
  }

  /** If writes of one address reach the file in order, then in every interleaving without
      crashes the pending writes are all that memory is ahead of the file. */
  lemma {:induction false} PendingIsTheDifference(cfg: Config, sched: Schedule)
    requires Steady(sched) && InOrder(cfg, sched)
    ensures Replayed(Interleaved(cfg, sched).db, Interleaved(cfg, sched).pending) == Interleaved(cfg, sched).mem
  {
    if sched.Next? {
      PendingIsTheDifference(cfg, sched.before);
      StepKeepsDifference(cfg, Interleaved(cfg, sched.before), sched.last);
    }
  }

  const LENIENT := Config(2, 10, 100, 100, 1)

  /** An instance: the greylisting of one call reaches the file after the ban of a later one, so
      nothing is pending, the last landed write is not the last queued one, and a crash now
      would forget the ban. */
  lemma LateWriteForgetsBan()
    ensures
      var sched := Next(Next(Next(Next(Idle, Enter(Violation, "a", 1)), Enter(Ban, "a", 2)), Flush(1)), Flush(0));
      Interleaved(LENIENT, sched)
        == Shared(map["a" := Standing(Blocked, 2, 102, [])], [], map["a" := Standing(Greylisted, 1, 101, [1])])
        && LastLanded(LENIENT, sched, "a") != LastQueued(LENIENT, sched, "a")
  {
    var ban, grey := Standing(Blocked, 2, 102, []), Standing(Greylisted, 1, 101, [1]);
    var first := Next(Idle, Enter(Violation, "a", 1));
    var second := Next(first, Enter(Ban, "a", 2));
    assert Violated(LENIENT, Standing(Clean, 1, 0, []), 1) == grey by { LaterSnoc([], 1, -9); }
    assert Interleaved(LENIENT, first) == Shared(map["a" := grey], [Put("a", grey)], map[]);
    assert Interleaved(LENIENT, second) == Shared(map["a" := ban], [Put("a", grey), Put("a", ban)], map[]);
    assert Interleaved(LENIENT, Next(second, Flush(1))) == Shared(map["a" := ban], [Put("a", grey)], map["a" := ban]);
    SettledAgreesIff(LENIENT, Next(Next(second, Flush(1)), Flush(0)), "a");
  }
}
