/** What clients are served from the cache over whole runs of the pipeline. */
module DeliveryTheory {
  import opened Prelude
  import opened Pipeline
  import opened PipelineTheory
  import opened AdmissionTheory
  import opened VisitorTheory
  import opened Signature
  import opened ContentCache
  import CT = CacheTheory
  import Engine
  import Guard
  import Lru
  import Reputation
  import Tracker

  type Chunks = seq<(Bytes, ReadError)>

  // ----- one response body -----

  predicate EndsBy(chunks: Chunks, n: nat)
    requires n <= |chunks|
  {
    exists i :: 0 <= i < n && chunks[i].1 == Eof
  }

  /** What the first `n` reads deliver, up to the first that reports the end. */
  function Received(chunks: Chunks, n: nat): Bytes
    requires n <= |chunks|
  {
    if n == 0 then []
    else if EndsBy(chunks, n - 1) then Received(chunks, n - 1)
    else Join(Received(chunks, n - 1), chunks[n - 1].0)
  }

  ghost predicate Fresh(open: Tee) {
    open.buf == [] && !open.tooBig && !open.committed
  }

  /** The entry a stream leaves behind. */
  ghost function Leaves(open: Tee, body: Bytes, now: Time): Entry {
    Entry(open.status, open.header, body, now, now + open.ttl)
  }

  lemma EndsByOneMore(chunks: Chunks, n: nat)
    requires n < |chunks|
    ensures EndsBy(chunks, n + 1) <==> EndsBy(chunks, n) || chunks[n].1 == Eof
  {
  }

  /** The cache once the first `n` reads went through the tee. */
  ghost function DrainedTo(open: Tee, c: Contents, body: Bytes, ended: bool, now: Time): (c': Contents)
    requires c.Valid()
    ensures c'.Valid()
  {
    if ended && CT.FitsCap(open.maxSize, body) then Put(c, open.key, Leaves(open, body, now)) else c
  }

  /** One more read. */
  lemma ReadDrains(t: Tee, open: Tee, c: Contents, body: Bytes, ended: bool, chunk: Bytes, err: ReadError, now: Time)
    requires c.Valid() && CT.Follows(t, open, body, ended)
    ensures var body' := if ended then body else Join(body, chunk);
      var (t', c') := TeeRead(t, DrainedTo(open, c, body, ended, now), chunk, err, now);
      && CT.Follows(t', open, body', ended || err == Eof)
      && c' == DrainedTo(open, c, body', ended || err == Eof, now)
  {
    CT.ReadFollows(t, open, body, ended, DrainedTo(open, c, body, ended, now), chunk, err, now);
  }

  lemma {:induction false} DrainFollows(open: Tee, c: Contents, chunks: Chunks, n: nat, now: Time)
    requires c.Valid() && n <= |chunks| && Fresh(open)
    ensures var (t, c') := Drain(open, c, chunks, n, now); var body := Received(chunks, n);
      && CT.Follows(t, open, body, EndsBy(chunks, n))
      && c' == if EndsBy(chunks, n) && CT.FitsCap(open.maxSize, body) then Put(c, open.key, Leaves(open, body, now)) else c
  {
    if n != 0 {
      DrainFollows(open, c, chunks, n - 1, now);
      EndsByOneMore(chunks, n - 1);
      ReadDrains(Drain(open, c, chunks, n - 1, now).0, open, c, Received(chunks, n - 1), EndsBy(chunks, n - 1),
                 chunks[n - 1].0, chunks[n - 1].1, now);
    }
  }

  // ----- where cached answers come from -----

  /** Entry `e` is the whole response to request `q`: a storable 200, read to its end. */
  ghost predicate Supplied(cfg: Config, q: Request, e: Entry) {
    && Cacheable(cfg, q) && q.reply.Some?
    && var resp, chunks := q.reply.value.resp, q.reply.value.body;
      && Storable(resp, cfg.maxObjectSize) && EndsBy(chunks, |chunks|)
      && CT.FitsCap(cfg.maxObjectSize, Received(chunks, |chunks|))
      && e == Entry(200, CacheHeaders(resp.header), Received(chunks, |chunks|), q.done, q.done + cfg.cacheTTL)
  }

  /** What a request does to the cache, and what it may be served from it. */
  ghost predicate Shelves(cfg: Config, c: Contents, r: (State, Answer), rq: Request)
    requires c.Valid()
  {
    var got := Get(c, rq.cacheKey, rq.at);
    && (r.0.contents == c || r.0.contents == got.0 || (Cacheable(cfg, rq) && r.0.contents == Stored(cfg, got.0, rq)))
    && (r.1.Hit? ==> Cacheable(cfg, rq) && got.1 == Some(r.1.entry) && r.1.age == Age(r.1.entry, rq.at))
  }

  lemma ProtectShelves(cfg: Config, st: State, rq: Request)
    requires st.Valid()
    ensures Shelves(cfg, st.contents, Protect(cfg, st, rq), rq)
  {
  }

  lemma InspectShelves(cfg: Config, st: State, rq: Request)
    requires Engine.Usable(cfg.sigs) && st.Valid()
    ensures Shelves(cfg, st.contents, Inspect(cfg, st, rq), rq)
  {
    ProtectShelves(cfg, Inspected(cfg, st, rq), rq);
  }

  lemma RouteShelves(cfg: Config, st: State, rq: Request, standing: Reputation.State)
    requires Engine.Usable(cfg.sigs) && st.Valid()
    ensures Shelves(cfg, st.contents, Route(cfg, st, rq, standing), rq)
  {
    InspectShelves(cfg, st, rq);
    InspectShelves(cfg, st.(recs := Tracker.Passed(st.recs, cfg.sessionTTL, Key(cfg, rq), rq.at).0), rq);
  }

  lemma ServeShelves(cfg: Config, st: State, rq: Request)
    requires Engine.Usable(cfg.sigs) && st.Valid()
    ensures Shelves(cfg, st.contents, Serve(cfg, st, rq), rq)
  {
    if !Listed(cfg, rq) {
      var (rep, standing) := Reputation.Lookup(st.rep, rq.ip, rq.at);
      RouteShelves(cfg, st.(rep := rep), rq, standing);
    }
  }

  lemma StoredAdds(cfg: Config, c: Contents, rq: Request, key: string)
    requires c.Valid() && Cacheable(cfg, rq) && key in Stored(cfg, c, rq).items
    ensures || (key in c.items && Stored(cfg, c, rq).items[key] == c.items[key])
            || (key == rq.cacheKey && Supplied(cfg, rq, Stored(cfg, c, rq).items[key]))
  {
    if rq.reply.Some? && Storable(rq.reply.value.resp, cfg.maxObjectSize) {
      var chunks := rq.reply.value.body;
      var open := OpenTee(rq.cacheKey, rq.reply.value.resp, cfg.maxObjectSize, cfg.cacheTTL);
      DrainFollows(open, c, chunks, |chunks|, rq.done);
      var e := Leaves(open, Received(chunks, |chunks|), rq.done);
      Lru.MirrorsAdd(c, c, rq.cacheKey, e, e);
    }
  }

  /** Every entry was there before, or is the whole response to this request. */
  lemma ServeAdds(cfg: Config, st: State, rq: Request, key: string)
    requires Engine.Usable(cfg.sigs) && st.Valid() && key in Serve(cfg, st, rq).0.contents.items
    ensures var c, c' := st.contents, Serve(cfg, st, rq).0.contents;
      || (key in c.items && c'.items[key] == c.items[key])
      || (key == rq.cacheKey && Supplied(cfg, rq, c'.items[key]))
  {
    ServeShelves(cfg, st, rq);
    var c' := Serve(cfg, st, rq).0.contents;
    var got := Get(st.contents, rq.cacheKey, rq.at).0;
    Lru.TouchValid(st.contents, rq.cacheKey);
    if Cacheable(cfg, rq) && c' == Stored(cfg, got, rq) {
      StoredAdds(cfg, got, rq, key);
    }
  }

  /** The request was made in the run. */
  ghost predicate Asked(run: Run, q: Request) {
    run.Then? && (run.last == Asks(q) || Asked(run.before, q))
  }

  ghost predicate HasSupplier(cfg: Config, run: Run, key: string, e: Entry) {
    exists q :: Asked(run, q) && q.cacheKey == key && Supplied(cfg, q, e)
  }

  lemma {:induction false} EntriesHaveSuppliers(cfg: Config, st: State, run: Run, key: string)
    requires Engine.Usable(cfg.sigs) && st.Valid() && st.contents.items == map[]
    ensures var items := After(cfg, st, run).contents.items; key in items ==> HasSupplier(cfg, run, key, items[key])
  {
    if run.Then? && run.last.Asks? && key in After(cfg, st, run).contents.items {
      var before, rq := After(cfg, st, run.before), run.last.rq;
      var e := After(cfg, st, run).contents.items[key];
      ServeAdds(cfg, before, rq, key);
      if key in before.contents.items && before.contents.items[key] == e {
        EntriesHaveSuppliers(cfg, st, run.before, key);
        var q :| Asked(run.before, q) && q.cacheKey == key && Supplied(cfg, q, e);
        assert Asked(run, q);
      } else {
        assert Asked(run, rq);
      }
    }
  }

  // ----- said of the requests and responses themselves -----

  /** Caching is on, and the request is a GET of a cacheable path without a range. */
  predicate Eligible(cfg: Config, q: Request) {
    cfg.caching && q.view.method_ == "GET" && q.range == "" && cfg.cacheableExt(q.view.path)
  }

  /** The response may be kept, and its body was read to its end and fits the cap. */
  ghost predicate KeptWhole(cfg: Config, q: Request) {
    q.reply.Some? &&
    var resp, chunks := q.reply.value.resp, q.reply.value.body;
    && CT.MayKeep(resp, cfg.maxObjectSize) && EndsBy(chunks, |chunks|)
    && (cfg.maxObjectSize > 0 ==> |Received(chunks, |chunks|)| <= cfg.maxObjectSize)
  }

  /** The entry is the response to the request: its status, body and headers, except those of
      one connection or answer; stored when the response was done, for the cache's TTL. */
  ghost predicate Keeps(cfg: Config, q: Request, e: Entry) {
    && q.reply.Some? && e.status == 200 && CT.Replayed(q.reply.value.resp.header, e.header)
    && e.body == Received(q.reply.value.body, |q.reply.value.body|)
    && e.stored == q.done && e.expires == q.done + cfg.cacheTTL
  }

  lemma SuppliedIsKept(cfg: Config, q: Request, e: Entry)
    requires Supplied(cfg, q, e)
    ensures Eligible(cfg, q) && KeptWhole(cfg, q) && Keeps(cfg, q, e)
  {
    CT.StorableIff(q.reply.value.resp, cfg.maxObjectSize);
    CT.CacheHeadersReplay(q.reply.value.resp.header);
  }

  /** The age in whole seconds, and none if the clock stepped back. */
  predicate IsAge(age: int, stored: Time, now: Time) {
    if now < stored then age == 0 else age * 1_000_000_000 <= now - stored < (age + 1) * 1_000_000_000
  }

  /** Whatever is served from the cache, at any point of any run, is byte for byte the whole
      response that the backend gave to an earlier request with the same key, of which both were
      eligible and which forbade neither storing nor sharing it; it is within its lifetime and
      the size cap, comes with its age in seconds, and carries no cookie. */
  lemma HitsComeWhole(cfg: Config, st: State, run: Run, rq: Request)
    requires Engine.Usable(cfg.sigs) && st.Valid() && st.contents.items == map[]
    ensures var a := Serve(cfg, After(cfg, st, run), rq).1;
      a.Hit? ==>
        && Eligible(cfg, rq) && rq.at <= a.entry.expires && "Set-Cookie" !in a.entry.header
        && IsAge(a.age, a.entry.stored, rq.at)
        && exists q :: Asked(run, q) && q.cacheKey == rq.cacheKey && Eligible(cfg, q) && KeptWhole(cfg, q) && Keeps(cfg, q, a.entry)
  {
    var before := After(cfg, st, run);
    ServeShelves(cfg, before, rq);
    var a := Serve(cfg, before, rq).1;
    if a.Hit? {
      EntriesHaveSuppliers(cfg, st, run, rq.cacheKey);
      var q :| Asked(run, q) && q.cacheKey == rq.cacheKey && Supplied(cfg, q, a.entry);
      SuppliedIsKept(cfg, q, a.entry);
    }
  }

  // ----- what is stored is served -----

  /** A cacheable request that nothing stands against is answered from the cache or passed
      through the tee. */
  ghost predicate Delivered(cfg: Config, c: Contents, r: (State, Answer), rq: Request)
    requires c.Valid()
  {
    var (got, e) := Get(c, rq.cacheKey, rq.at);
    if e.Some? then r.0.contents == got && r.1 == Hit(e.value, Age(e.value, rq.at))
    else r.0.contents == Stored(cfg, got, rq) && r.1.Backend?
  }

  lemma ProtectDelivers(cfg: Config, st: State, rq: Request)
    requires st.Valid() && Cacheable(cfg, rq)
    requires cfg.protected ==> Guard.Assessed(cfg.protection, st.levels, rq.ip, rq.view.path, rq.score, rq.at).1.None?
    ensures Delivered(cfg, st.contents, Protect(cfg, st, rq), rq)
  {
  }

  lemma InspectDelivers(cfg: Config, st: State, rq: Request)
    requires Engine.Usable(cfg.sigs) && st.Valid() && Cacheable(cfg, rq) && Decided(cfg, st, rq).None?
    ensures Delivered(cfg, st.contents, Inspect(cfg, st, rq), rq)
  {
    ProtectDelivers(cfg, Inspected(cfg, st, rq), rq);
  }

  lemma ServeDelivers(cfg: Config, st: State, rq: Request)
    requires Engine.Usable(cfg.sigs) && st.Valid() && Cacheable(cfg, rq)
    requires Admissible(cfg, st, rq) && Decided(cfg, st, rq).None?
    ensures Delivered(cfg, st.contents, Serve(cfg, st, rq), rq)
  {
    var (rep, standing) := Reputation.Lookup(st.rep, rq.ip, rq.at);
    var st' := st.(rep := rep);
    var asked := st'.(recs := Tracker.Passed(st'.recs, cfg.sessionTTL, Key(cfg, rq), rq.at).0);
    PassedMeansVouched(cfg, st', rq);
    PassedIsNearby(cfg, st', st', rq);
    SameBest(cfg, st', asked, rq);
    if standing == Reputation.Greylisted && cfg.challengeEnabled {
      InspectDelivers(cfg, asked, rq);
    } else {
      InspectDelivers(cfg, st', rq);
    }
  }

  /** The cache has no live answer. */
  ghost predicate Misses(st: State, rq: Request) {
    rq.cacheKey in st.contents.items ==> rq.at > st.contents.items[rq.cacheKey].expires
  }

  /** A miss is stored exactly when the response may be kept and was read to an end within the
      cap; and then as it was. */
  lemma MissIsStoredIff(cfg: Config, st: State, rq: Request)
    requires Engine.Usable(cfg.sigs) && st.Valid() && Eligible(cfg, rq) && Misses(st, rq)
    requires Admissible(cfg, st, rq) && Decided(cfg, st, rq).None?
    ensures var items := Serve(cfg, st, rq).0.contents.items;
      && (rq.cacheKey in items <==> KeptWhole(cfg, rq))
      && (rq.cacheKey in items ==> Keeps(cfg, rq, items[rq.cacheKey]))
  {
    ServeDelivers(cfg, st, rq);
    var got := Get(st.contents, rq.cacheKey, rq.at).0;
    Lru.TouchValid(st.contents, rq.cacheKey);
    if rq.reply.Some? {
      var resp, chunks := rq.reply.value.resp, rq.reply.value.body;
      CT.StorableIff(resp, cfg.maxObjectSize);
      CT.CacheHeadersReplay(resp.header);
      DrainFollows(OpenTee(rq.cacheKey, resp, cfg.maxObjectSize, cfg.cacheTTL), got, chunks, |chunks|, rq.done);
    }
  }

  lemma ServedFrom(cfg: Config, c: Contents, r: (State, Answer), rq: Request, stored: Request)
    requires c.Valid() && Delivered(cfg, c, r, rq) && rq.cacheKey in c.items && Keeps(cfg, stored, c.items[rq.cacheKey])
    ensures if rq.at <= stored.done + cfg.cacheTTL then r.1.Hit? && Keeps(cfg, stored, r.1.entry) && IsAge(r.1.age, stored.done, rq.at)
            else r.1.Backend?
  {
  }

  /** What was stored answers the next eligible request with the same key, until its lifetime is
      over, with its age. */
  lemma StoredIsServed(cfg: Config, st: State, rq: Request, next: Request)
    requires Engine.Usable(cfg.sigs) && st.Valid() && Eligible(cfg, rq) && Misses(st, rq)
    requires Admissible(cfg, st, rq) && Decided(cfg, st, rq).None? && KeptWhole(cfg, rq)
    requires var st' := Serve(cfg, st, rq).0; Admissible(cfg, st', next) && Decided(cfg, st', next).None?
    requires Eligible(cfg, next) && next.cacheKey == rq.cacheKey
    ensures var a := Serve(cfg, Serve(cfg, st, rq).0, next).1;
      if next.at <= rq.done + cfg.cacheTTL then a.Hit? && Keeps(cfg, rq, a.entry) && IsAge(a.age, rq.done, next.at)
      else a.Backend?
  {
    MissIsStoredIff(cfg, st, rq);
    var st' := Serve(cfg, st, rq).0;
    ServeDelivers(cfg, st', next);
    ServedFrom(cfg, st'.contents, Serve(cfg, st', next), next, rq);
  }
}
