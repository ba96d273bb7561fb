/** The content cache, and the tee that fills it while a response streams to the client. */
module ContentCache {
  import opened Prelude
  import Lru
  import Text

  type Bytes = seq<bv8>

  type Header = map<string, seq<string>>

  /** A stored response. */
  datatype Entry = Entry(status: int, header: Header, body: Bytes, stored: Time, expires: Time)

  type Contents = Lru.Cache<string, Entry>

  datatype Response = Response(status: int, header: Header, contentLength: int)

  // ----- what may be stored -----

  /** Header.Get: the first value of a header. */
  function FirstValue(h: Header, name: string): string {
    if name in h && h[name] != [] then h[name][0] else ""
  }

  function TrimRight(s: string): string {
    if s != "" && Text.IsSpace(s[|s| - 1]) then TrimRight(s[..|s| - 1]) else s
  }

  function TrimSpace(s: string): string {
    TrimRight(Text.SkipSpace(s))
  }

  predicate Storable(resp: Response, maxSize: int) {
    var cc := Text.Lower(FirstValue(resp.header, "Cache-Control"));
    var vary := TrimSpace(FirstValue(resp.header, "Vary"));
    && resp.status == 200
    && FirstValue(resp.header, "Set-Cookie") == ""
    && !(Text.Contains(cc, "no-store") || Text.Contains(cc, "private") || Text.Contains(cc, "no-cache"))
    && (vary == "" || Text.EqualFold(vary, "accept-encoding"))
    && (maxSize > 0 ==> resp.contentLength <= maxSize)
  }

  const HOP_BY_HOP: set<string> := {
    "Connection", "Keep-Alive", "Proxy-Authenticate", "Proxy-Authorization",
    "Te", "Trailer", "Transfer-Encoding", "Upgrade", "Set-Cookie", "X-Cache", "Age"
  }

  function CacheHeaders(h: Header): Header {
    h - HOP_BY_HOP
  }

  // ----- the store -----

  function Get(c: Contents, key: string, now: Time): (r: (Contents, Option<Entry>))
    requires c.Valid()
    ensures r.0.Valid() && r.0.cap == c.cap
  {
    Lru.TouchValid(c, key);
    if key !in c.items then (c, None)
    else if now > c.items[key].expires then (c.Remove(key), None)
    else (c.Touch(key), Some(c.items[key]))
  }

  function Put(c: Contents, key: string, e: Entry): (c': Contents)
    requires c.Valid()
    ensures c'.Valid() && c'.cap == c.cap && key in c'.items && c'.items[key] == e
  {
    Lru.AddValid(c, key, e);
    c.Add(key, e)
  }

  function Age(e: Entry, now: Time): int {
    if now - e.stored < 0 then 0 else (now - e.stored) / 1_000_000_000
  }

  class Store {
    var lru: Contents

    constructor (maxEntries: int)
      ensures lru == Lru.Empty(if maxEntries <= 0 then 1024 else maxEntries) && lru.Valid()
    {
      lru := Lru.Empty(if maxEntries <= 0 then 1024 else maxEntries);
      new;
      assert forall k :: lru.Resident(k);
    }

    method Find(key: string, now: Time) returns (e: Option<Entry>)
      requires lru.Valid()
      modifies this
      ensures (lru, e) == Get(old(lru), key, now) && lru.Valid()
    {
      Lru.TouchValid(lru, key);
      if key !in lru.items {
        return None;
      }
      var found := lru.items[key];
      if now > found.expires {
        lru := lru.Remove(key);
        return None;
      }
      lru := lru.Touch(key);
      return Some(found);
    }

    method Add(key: string, e: Entry)
      requires lru.Valid()
      modifies this
      ensures lru == Put(old(lru), key, e) && lru.Valid()
    {
      Lru.AddValid(lru, key, e);
      lru := lru.Add(key, e);
    }
  }

  // ----- the tee -----

  datatype ReadError = NoError | Eof | Failed

  /** The state of one tee. */
  datatype Tee = Tee(
    key: string, status: int, header: Header, maxSize: int, ttl: Time, buf: Bytes, tooBig: bool, committed: bool)

  function OpenTee(key: string, resp: Response, maxSize: int, ttl: Time): Tee {
    Tee(key, resp.status, CacheHeaders(resp.header), maxSize, ttl, [], false, false)
  }

  function Join(a: Bytes, b: Bytes): (r: Bytes)
    ensures r == a + b
  {
    if a == [] then b else if b == [] then a else a + b
  }

  /** The buffering half of a Read. */
  function Buffer(t: Tee, chunk: Bytes): Tee {
    if |chunk| > 0 && !t.tooBig then
      if t.maxSize > 0 && |t.buf| + |chunk| > t.maxSize then t.(tooBig := true, buf := [])
      else t.(buf := Join(t.buf, chunk))
    else t
  }

  function EntryOf(t: Tee, now: Time): Entry {
    Entry(t.status, t.header, t.buf, now, now + t.ttl)
  }

  /** One Read of the source returned `chunk` and `err`. */
  function TeeRead(t: Tee, c: Contents, chunk: Bytes, err: ReadError, now: Time): (r: (Tee, Contents))
    requires c.Valid()
    ensures r.1.Valid() && r.1.cap == c.cap
  {
    var t' := Buffer(t, chunk);
    if err == Eof && !t'.tooBig && !t'.committed then
      (t'.(committed := true), Put(c, t.key, EntryOf(t', now)))
    else (t', c)
  }

  class CachingBody {
    var buf: Bytes
    const key: string
    const status: int
    const header: Header
    const maxSize: int
    const ttl: Time
    const store: Store
    var tooBig: bool
    var committed: bool

    constructor (store: Store, key: string, resp: Response, maxSize: int, ttl: Time)
      ensures this.store == store && Abs() == OpenTee(key, resp, maxSize, ttl)
    {
      this.store, this.key, this.status, this.header := store, key, resp.status, CacheHeaders(resp.header);
      this.maxSize, this.ttl, buf, tooBig, committed := maxSize, ttl, [], false, false;
    }

    function Abs(): Tee
      reads this
    {
      Tee(key, status, header, maxSize, ttl, buf, tooBig, committed)
    }

    /** What the source's Read returned is passed through unchanged. */
    method Read(chunk: Bytes, err: ReadError, now: Time) returns (p: Bytes, e: ReadError)
      requires store.lru.Valid()
      modifies this, store
      ensures p == chunk && e == err
      ensures (Abs(), store.lru) == TeeRead(old(Abs()), old(store.lru), chunk, err, now)
      ensures store.lru.Valid()
    {
      var n := |chunk|;
      if n > 0 && !tooBig {
        if maxSize > 0 && |buf| + n > maxSize {
          tooBig := true;
          buf := [];
        } else {
          buf := Join(buf, chunk);
        }
      }
      if err == Eof && !tooBig && !committed {
        committed := true;
        store.Add(key, Entry(status, header, buf, now, now + ttl));
      }
      return chunk, err;
    }
  }
}
