/** Cache transparency over every interleaving of tees, lookups, evictions and clock moves. */
module CacheTheory {
  import opened Prelude
  import opened ContentCache
  import Lru
  import Text
  import TextTheory

  // ----- which responses may be kept, said of their headers -----

  /** The first value of a header, or the empty text, is as `ok` says. */
  predicate First(h: Header, name: string, ok: string -> bool) {
    ok(if name in h && |h[name]| > 0 then h[name][0] else "")
  }

  /** The text is `core` between blanks. */
  ghost predicate Padded(s: string, core: string) {
    exists before, after :: Padding(before) && Padding(after) && s == before + core + after
  }

  predicate Padding(s: string) {
    forall i :: 0 <= i < |s| ==> s[i] == ' ' || 9 <= s[i] as int <= 13
  }

  predicate Forbids(cc: string, word: string) {
    Text.Contains(Text.Lower(cc), word)
  }

  /** No cookie is set, nothing forbids storing, the response varies on the encoding at most, and
      its length, as far as it is known, is within the cap. */
  ghost predicate MayKeep(resp: Response, maxSize: int) {
    && resp.status == 200
    && First(resp.header, "Set-Cookie", v => v == "")
    && First(resp.header, "Cache-Control", cc => !Forbids(cc, "no-store") && !Forbids(cc, "private") && !Forbids(cc, "no-cache"))
    && First(resp.header, "Vary", v => Padded(v, "") || exists core :: TextTheory.SameText(core, "accept-encoding") && Padded(v, core))
    && (maxSize > 0 ==> resp.contentLength <= maxSize)
  }

  lemma {:induction false} TrimRightPads(s: string) returns (after: string)
    ensures s == TrimRight(s) + after && Padding(after)
    ensures var t := TrimRight(s); t == "" || !Text.IsSpace(t[|t| - 1])
  {
    if s != "" && Text.IsSpace(s[|s| - 1]) {
      var init, last := s[..|s| - 1], [s[|s| - 1]];
      var more := TrimRightPads(init);
      after := more + last;
      OneMorePadding(s, init, last, TrimRight(init), more);
    } else {
      after := "";
    }
  }

  lemma OneMorePadding(s: string, init: string, last: string, core: string, more: string)
    requires s == init + last && init == core + more && Padding(more) && Padding(last)
    ensures s == core + (more + last) && Padding(more + last)
  {
  }

  lemma {:induction false} SkipSpacePads(s: string) returns (before: string)
    ensures s == before + Text.SkipSpace(s) && Padding(before)
    ensures var t := Text.SkipSpace(s); t == "" || !Text.IsSpace(t[0])
  {
    if s == "" || !Text.IsSpace(s[0]) {
      before := "";
    } else {
      var more := SkipSpacePads(s[1..]);
      before := [s[0]] + more;
    }
  }

  /** A text that does not begin or end with a blank. */
  predicate Trim(core: string) {
    core == "" || (!Text.IsSpace(core[0]) && !Text.IsSpace(core[|core| - 1]))
  }

  lemma TrimmedIsCore(s: string)
    ensures Padded(s, TrimSpace(s)) && Trim(TrimSpace(s))
  {
    var before := SkipSpacePads(s);
    var t := Text.SkipSpace(s);
    var after := TrimRightPads(t);
    Between(before, TrimRight(t), after, s);
    TrimStarts(t);
  }

  lemma Between(before: string, core: string, after: string, s: string)
    requires Padding(before) && Padding(after) && s == before + (core + after)
    ensures Padded(s, core)
  {
    assert s == before + core + after;
  }

  lemma TrimStarts(t: string)
    requires t == "" || !Text.IsSpace(t[0])
    ensures Trim(TrimRight(t))
  {
    var after := TrimRightPads(t);
    var core := TrimRight(t);
    assert core != "" ==> core[0] == t[0];
  }

  lemma {:induction false} SkipPadding(before: string, t: string)
    requires Padding(before)
    ensures Text.SkipSpace(before + t) == Text.SkipSpace(t)
  {
    if before == "" {
      assert before + t == t;
    } else {
      assert (before + t)[1..] == before[1..] + t;
      SkipPadding(before[1..], t);
    }
  }

  lemma {:induction false} TrimPadding(t: string, after: string)
    requires Padding(after)
    ensures TrimRight(t + after) == TrimRight(t)
  {
    if after == "" {
      assert t + after == t;
    } else {
      var s := t + after;
      assert s[..|s| - 1] == t + after[..|after| - 1];
      TrimPadding(t, after[..|after| - 1]);
    }
  }

  lemma CoreIsTrimmed(s: string, core: string)
    requires Padded(s, core) && Trim(core)
    ensures TrimSpace(s) == core
  {
    var before, after :| Padding(before) && Padding(after) && s == before + core + after;
    assert s == before + (core + after);
    SkipPadding(before, core + after);
    if core == "" {
      assert core + after == after + "";
      SkipPadding(after, "");
    } else {
      TrimPadding(core, after);
    }
  }

  lemma VariesOnEncoding(v: string)
    ensures TrimSpace(v) == "" || Text.EqualFold(TrimSpace(v), "accept-encoding") <==>
            Padded(v, "") || exists core :: TextTheory.SameText(core, "accept-encoding") && Padded(v, core)
  {
    TrimmedIsCore(v);
    TextTheory.FoldMeans(TrimSpace(v), "accept-encoding");
    if Padded(v, "") {
      CoreIsTrimmed(v, "");
    }
    if core :| TextTheory.SameText(core, "accept-encoding") && Padded(v, core) {
      assert TextTheory.SameLetter(core[0], 'a') && TextTheory.SameLetter(core[|core| - 1], 'g');
      CoreIsTrimmed(v, core);
    }
  }

  /** What the proxy asks of a response before it keeps it. */
  lemma StorableIff(resp: Response, maxSize: int)
    ensures Storable(resp, maxSize) <==> MayKeep(resp, maxSize)
  {
    VariesOnEncoding(FirstValue(resp.header, "Vary"));
  }

  predicate PerConnection(name: string) {
    || name == "Connection" || name == "Keep-Alive" || name == "Proxy-Authenticate" || name == "Proxy-Authorization"
    || name == "Te" || name == "Trailer" || name == "Transfer-Encoding" || name == "Upgrade"
    || name == "Set-Cookie" || name == "X-Cache" || name == "Age"
  }

  /** The headers of `all` without those that belong to one connection or one answer. */
  ghost predicate Replayed(all: Header, kept: Header) {
    forall name :: if PerConnection(name) || name !in all then name !in kept else name in kept && kept[name] == all[name]
  }

  lemma CacheHeadersReplay(h: Header)
    ensures Replayed(h, CacheHeaders(h)) && forall kept :: Replayed(h, kept) ==> kept == CacheHeaders(h)
  {
    forall name ensures PerConnection(name) <==> name in HOP_BY_HOP {
    }
    forall kept | Replayed(h, kept) ensures kept == CacheHeaders(h) {
      assert kept.Keys == CacheHeaders(h).Keys;
    }
  }

  // ----- runs -----

  datatype Event =
    | Open(id: nat, key: string, resp: Response, maxSize: int, ttl: Time)  // modifyResponse, if storable
    | Read(id: nat, chunk: Bytes, err: ReadError, now: Time)
    | Look(key: string, now: Time)
    | Purge

  datatype Run = Start | Then(before: Run, last: Event)

  datatype State = State(contents: Contents, tees: map<nat, Tee>)

  ghost function Step(st: State, e: Event): (st': State)
    requires st.contents.Valid()
    ensures st'.contents.Valid()
  {
    match e
    case Open(id, key, resp, maxSize, ttl) =>
      if id in st.tees || !Storable(resp, maxSize) then st
      else st.(tees := st.tees[id := OpenTee(key, resp, maxSize, ttl)])
    case Read(id, chunk, err, now) =>
      if id !in st.tees then st
      else
        var (t, c) := TeeRead(st.tees[id], st.contents, chunk, err, now);
        State(c, st.tees[id := t])
    case Look(key, now) => st.(contents := Get(st.contents, key, now).0)
    case Purge => st.(contents := EmptyContents(st.contents.cap))
  }

  ghost function EmptyContents(cap: nat): (c: Contents)
    requires 0 < cap
    ensures c.Valid() && c.items == map[]
  {
    var c := Lru.Empty<string, Entry>(cap);
    assert forall k :: c.Resident(k);
    c
  }

  ghost function After(cap: nat, run: Run): (st: State)
    requires 0 < cap
    ensures st.contents.Valid()
  {
    match run
    case Start => State(EmptyContents(cap), map[])
    case Then(before, e) => Step(After(cap, before), e)
  }

  // ----- the streams, without the tee's bookkeeping -----

  /** The Open that started stream `id`, if any. */
  ghost function Opened(run: Run, id: nat): Option<Event> {
    match run
    case Start => None
    case Then(before, e) =>
      var o := Opened(before, id);
      if o.None? && e.Open? && e.id == id && Storable(e.resp, e.maxSize) then Some(e) else o
  }

  /** The source of stream `id` has reported its end. */
  ghost predicate Ended(run: Run, id: nat) {
    run.Then? &&
    (Ended(run.before, id) ||
     (Opened(run.before, id).Some? && run.last.Read? && run.last.id == id && run.last.err == Eof))
  }

  /** The reading at which it first did. */
  ghost function EndedAt(run: Run, id: nat): Option<Time> {
    match run
    case Start => None
    case Then(before, e) =>
      if Ended(before, id) then EndedAt(before, id)
      else if e.Read? && Ended(run, id) then Some(e.now)
      else None
  }

  /** Everything the source of stream `id` delivered, up to its end. */
  ghost function Delivered(run: Run, id: nat): Bytes {
    match run
    case Start => []
    case Then(before, e) =>
      var got := Delivered(before, id);
      if e.Read? && e.id == id && Opened(before, id).Some? && !Ended(before, id) then Join(got, e.chunk) else got
  }

  predicate FitsCap(maxSize: int, body: Bytes) {
    maxSize > 0 ==> |body| <= maxSize
  }

  /** A tee that was opened as `open` knows its stream: what was delivered so far, or that it
      is too big. */
  ghost predicate Follows(t: Tee, open: Tee, body: Bytes, ended: bool) {
    && t.key == open.key && t.status == open.status && t.header == open.header
    && t.maxSize == open.maxSize && t.ttl == open.ttl
    && (!ended ==> !t.committed && t.tooBig == !FitsCap(open.maxSize, body) && (!t.tooBig ==> t.buf == body))
    && (ended ==> t.tooBig || t.committed)
  }

  ghost function TeeOf(o: Event): Tee
    requires o.Open?
  {
    OpenTee(o.key, o.resp, o.maxSize, o.ttl)
  }

  ghost predicate Consistent(st: State, run: Run) {
    && (forall id :: id in st.tees <==> Opened(run, id).Some?)
    && (forall id :: id in st.tees ==> FollowsAt(st, run, id))
  }

  ghost predicate FollowsAt(st: State, run: Run, id: nat)
    requires id in st.tees
  {
    var o := Opened(run, id);
    o.Some? && o.value.Open? && Follows(st.tees[id], TeeOf(o.value), Delivered(run, id), Ended(run, id))
  }

  lemma ReadFollows(t: Tee, open: Tee, body: Bytes, ended: bool, c: Contents, chunk: Bytes, err: ReadError, now: Time)
    requires c.Valid() && Follows(t, open, body, ended)
    ensures var body' := if ended then body else Join(body, chunk);
      Follows(TeeRead(t, c, chunk, err, now).0, open, body', ended || err == Eof)
  {
  }

  lemma {:induction false} RunConsistent(cap: nat, run: Run)
    requires 0 < cap
    ensures Consistent(After(cap, run), run)
  {
    if run.Then? {
      RunConsistent(cap, run.before);
      var st, st', e := After(cap, run.before), After(cap, run), run.last;
      forall id | id in st'.tees ensures FollowsAt(st', run, id) {
        if id in st.tees {
          assert FollowsAt(st, run.before, id);
          if e.Read? && e.id == id {
            var o := Opened(run.before, id).value;
            ReadFollows(st.tees[id], TeeOf(o), Delivered(run.before, id), Ended(run.before, id), st.contents, e.chunk, e.err, e.now);
          }
        } else {
          NothingBeforeOpen(run.before, id);
        }
      }
    }
  }

  lemma {:induction false} NothingBeforeOpen(run: Run, id: nat)
    requires Opened(run, id).None?
    ensures !Ended(run, id) && Delivered(run, id) == []
  {
    if run.Then? {
      NothingBeforeOpen(run.before, id);
    }
  }

  /** A Read commits exactly when it is the first to report the end of a stream whose whole
      body fits the cap; then it stores that body, and otherwise the cache stays as it is. So
      each tee commits at most once, and an aborted or oversize stream commits nothing. */
  lemma TeeCommits(cap: nat, run: Run, id: nat, chunk: Bytes, err: ReadError, now: Time)
    requires 0 < cap
    ensures var c, c' := After(cap, run).contents, After(cap, Then(run, Read(id, chunk, err, now))).contents;
      var o, body := Opened(run, id), Join(Delivered(run, id), chunk);
      c' == if o.Some? && o.value.Open? && err == Eof && !Ended(run, id) && FitsCap(o.value.maxSize, body)
            then Put(c, o.value.key, Entry(o.value.resp.status, CacheHeaders(o.value.resp.header), body, now, now + o.value.ttl))
            else c
  {
    RunConsistent(cap, run);
    var st := After(cap, run);
    if id in st.tees {
      assert FollowsAt(st, run, id);
    }
  }

  /** The entry is the complete body of a stream that was fully read, stored when it ended. */
  ghost predicate Whole(e: Entry, key: string, run: Run, id: nat) {
    var o := Opened(run, id);
    && o.Some? && o.value.Open? && o.value.key == key && Ended(run, id)
    && Storable(o.value.resp, o.value.maxSize) && FitsCap(o.value.maxSize, Delivered(run, id))
    && e.status == 200 && e.header == CacheHeaders(o.value.resp.header)
    && e.body == Delivered(run, id) && EndedAt(run, id) == Some(e.stored) && e.expires == e.stored + o.value.ttl
  }

  lemma WholeStays(e: Entry, key: string, run: Run, id: nat, last: Event)
    requires Whole(e, key, run, id)
    ensures Whole(e, key, Then(run, last), id)
  {
  }

  lemma {:induction false} OpenedIsStorable(run: Run, id: nat)
    ensures var o := Opened(run, id); o.Some? ==> o.value.Open? && Storable(o.value.resp, o.value.maxSize) && o.value.resp.status == 200
  {
    if run.Then? {
      OpenedIsStorable(run.before, id);
    }
  }

  ghost predicate SomeWhole(e: Entry, key: string, run: Run) {
    exists id :: Whole(e, key, run, id)
  }

  lemma {:induction false} EntriesAreWhole(cap: nat, run: Run, key: string)
    requires 0 < cap
    ensures var c := After(cap, run).contents; key in c.items ==> SomeWhole(c.items[key], key, run)
  {
    if run.Then? {
      var c, c' := After(cap, run.before).contents, After(cap, run).contents;
      EntriesAreWhole(cap, run.before, key);
      if key in c'.items {
        if key in c.items && c'.items[key] == c.items[key] {
          var id :| Whole(c.items[key], key, run.before, id);
          WholeStays(c.items[key], key, run.before, id, run.last);
        } else {
          CommittedIsWhole(cap, run, key);
        }
      }
    }
  }

  lemma CommittedIsWhole(cap: nat, run: Run, key: string)
    requires 0 < cap && run.Then?
    requires var c, c' := After(cap, run.before).contents, After(cap, run).contents;
      key in c'.items && !(key in c.items && c'.items[key] == c.items[key])
    ensures SomeWhole(After(cap, run).contents.items[key], key, run)
  {
    var c, e := After(cap, run.before).contents, run.last;
    if e.Look? {
      Lru.TouchValid(c, e.key);
      assert false;
    }
    if e.Read? {
      TeeCommits(cap, run.before, e.id, e.chunk, e.err, e.now);
      OpenedIsStorable(run.before, e.id);
      var o := Opened(run.before, e.id).value;
      var entry := Entry(200, CacheHeaders(o.resp.header), Delivered(run, e.id), e.now, e.now + o.ttl);
      Lru.MirrorsAdd(c, c, o.key, entry, entry);
      assert Whole(After(cap, run).contents.items[key], key, run, e.id);
    }
  }

  /** The response that stream `id` delivered may be kept, and the entry has its headers, except
      those of one connection or answer. */
  ghost predicate Keepable(e: Entry, run: Run, id: nat) {
    var o := Opened(run, id);
    o.Some? && o.value.Open? && MayKeep(o.value.resp, o.value.maxSize) && Replayed(o.value.resp.header, e.header)
  }

  lemma WholeIsKeepable(e: Entry, key: string, run: Run, id: nat)
    requires Whole(e, key, run, id)
    ensures Keepable(e, run, id)
  {
    var o := Opened(run, id).value;
    StorableIff(o.resp, o.maxSize);
    CacheHeadersReplay(o.resp.header);
  }

  /** A hit, at any time in any run, is the complete body of an earlier 200 response under the
      same key, whose headers forbade neither storing nor sharing it, that was read to its end,
      within the lifetime that began then and the size cap; it comes with that response's
      headers, except those of one connection or answer, and so without a cookie. */
  lemma HitIsWhole(cap: nat, run: Run, key: string, now: Time)
    requires 0 < cap
    ensures var hit := Get(After(cap, run).contents, key, now).1;
      hit.Some? ==>
        && (exists id :: Whole(hit.value, key, run, id) && Keepable(hit.value, run, id))
        && now <= hit.value.expires && "Set-Cookie" !in hit.value.header
  {
    EntriesAreWhole(cap, run, key);
    var hit := Get(After(cap, run).contents, key, now).1;
    if hit.Some? {
      var id :| Whole(hit.value, key, run, id);
      WholeIsKeepable(hit.value, key, run, id);
    }
  }
}
