/** The bounded cache used by the guard, the tracker and the content cache: a map together
    with the recency order of its keys. Only the least recently used key is ever evicted,
    and only when a new key is added to a full cache. */
module Lru {
  import opened Prelude

  /** `order` lists the keys from the least to the most recently used. */
  datatype Cache<K(==,!new), V> = Cache(cap: nat, order: seq<K>, items: map<K, V>) {

    ghost predicate Valid() {
      && 0 < cap
      && |order| <= cap
      && Distinct(order)
      && (forall k :: Resident(k))
    }

    ghost predicate Resident(k: K) {
      k in order <==> k in items
    }

    /** Get: a hit becomes the most recently used key. */
    function Touch(k: K): Cache<K, V> {
      if k in items then this.(order := Without(order, k) + [k]) else this
    }

    /** Add: replaces the value and touches the key, evicting the oldest key when over capacity. */
    function Add(k: K, v: V): Cache<K, V> {
      var order' := Without(order, k) + [k];
      if |order'| <= cap then
        Cache(cap, order', items[k := v])
      else
        Cache(cap, order'[1..], items[k := v] - {order'[0]})
    }

    function Remove(k: K): Cache<K, V> {
      Cache(cap, Without(order, k), items - {k})
    }

    /** Overwrites a present value in place, as a write through a stored pointer does. */
    function Set(k: K, v: V): Cache<K, V>
      requires k in items
    {
      this.(items := items[k := v])
    }

    /** Adding `k` throws another key out. */
    ghost predicate Evicts(k: K) {
      k !in items && |order| >= cap
    }
  }

  function Empty<K(==,!new), V>(cap: nat): Cache<K, V> {
    Cache(cap, [], map[])
  }

  function Without<K(==)>(order: seq<K>, k: K): seq<K> {
    if order == [] then []
    else if order[0] == k then Without(order[1..], k)
    else [order[0]] + Without(order[1..], k)
  }

  /** The keys used more recently than `k`. */
  ghost function Newer<K(!new)>(order: seq<K>, k: K): set<K> {
    if order == [] then {}
    else if order[0] == k then (set x | x in order[1..])
    else Newer(order[1..], k)
  }

  lemma {:induction false} WithoutAbsent<K>(order: seq<K>, k: K)
    requires k !in order
    ensures Without(order, k) == order
  {
    if order != [] {
      WithoutAbsent(order[1..], k);
    }
  }

  lemma {:induction false} WithoutProps<K>(order: seq<K>, k: K)
    requires Distinct(order)
    ensures Distinct(Without(order, k))
    ensures forall x :: x in Without(order, k) <==> x in order && x != k
    ensures |Without(order, k)| == if k in order then |order| - 1 else |order|
  {
    if order != [] {
      WithoutProps(order[1..], k);
      if order[0] == k {
        WithoutAbsent(order[1..], k);
      } else {
        assert order[0] !in Without(order[1..], k);
      }
    }
  }

  lemma {:induction false} TouchTwice<K>(order: seq<K>, k: K)
    requires Distinct(order)
    ensures Without(Without(order, k) + [k], k) + [k] == Without(order, k) + [k]
  {
    WithoutProps(order, k);
    var w := Without(order, k);
    WithoutSnoc(w, k);
    WithoutAbsent(w, k);
  }

  lemma {:induction false} WithoutSnoc<K>(w: seq<K>, k: K)
    ensures Without(w + [k], k) == Without(w, k)
  {
    if w == [] {
      assert w + [k] == [k];
    } else {
      WithoutSnoc(w[1..], k);
      assert (w + [k])[1..] == w[1..] + [k];
    }
  }

  lemma SnocDistinct<K>(w: seq<K>, k: K)
    requires Distinct(w) && k !in w
    ensures Distinct(w + [k])
    ensures forall x :: x in w + [k] <==> x in w || x == k
  {
  }

  lemma TouchValid<K(!new), V>(c: Cache<K, V>, k: K)
    requires c.Valid()
    ensures c.Touch(k).Valid() && c.Touch(k).items == c.items
    ensures c.Remove(k).Valid()
  {
    Membership(c);
    WithoutProps(c.order, k);
    SnocDistinct(Without(c.order, k), k);
  }

  lemma SetValid<K(!new), V>(c: Cache<K, V>, k: K, v: V)
    requires c.Valid() && k in c.items
    ensures c.Set(k, v).Valid()
  {
    assert forall x :: c.Resident(x) ==> c.Set(k, v).Resident(x);
  }

  lemma AddValid<K(!new), V>(c: Cache<K, V>, k: K, v: V)
    requires c.Valid()
    ensures c.Add(k, v).Valid() && k in c.Add(k, v).items && c.Add(k, v).items[k] == v
    ensures !c.Evicts(k) ==> c.Add(k, v).items == c.items[k := v]
  {
    Membership(c);
    var w := Without(c.order, k);
    WithoutProps(c.order, k);
    SnocDistinct(w, k);
    var order' := w + [k];
    if |order'| > c.cap {
      DropFirst(order');
    }
  }

  lemma DropFirst<K(!new)>(s: seq<K>)
    requires Distinct(s) && s != []
    ensures Distinct(s[1..])
    ensures forall x :: x in s[1..] <==> x in s && x != s[0]
  {
    assert s == [s[0]] + s[1..];
  }

  lemma Membership<K(!new), V>(c: Cache<K, V>)
    requires c.Valid()
    ensures forall k :: k in c.order <==> k in c.items
  {
    forall k ensures k in c.order <==> k in c.items {
      assert c.Resident(k);
    }
  }

  /** The same keys in the same recency order, whatever the values. */
  ghost predicate Mirrors<K(!new), V, W>(c: Cache<K, V>, d: Cache<K, W>) {
    c.cap == d.cap && c.order == d.order && c.items.Keys == d.items.Keys
  }

  lemma MirrorsAdd<K(!new), V, W>(c: Cache<K, V>, d: Cache<K, W>, k: K, v: V, w: W)
    requires c.Valid() && Mirrors(c, d)
    ensures c.Add(k, v).Valid() && Mirrors(c.Add(k, v), d.Add(k, w))
    ensures k in c.Add(k, v).items && c.Add(k, v).items[k] == v && d.Add(k, w).items[k] == w
    ensures forall x :: x in c.Add(k, v).items && x != k ==>
              x in c.items && c.Add(k, v).items[x] == c.items[x] && d.Add(k, w).items[x] == d.items[x]
  {
    AddValid(c, k, v);
    Membership(c);
    assert forall x :: d.Resident(x);
    AddValid(d, k, w);
  }

  lemma {:induction false} NewerWithout<K(!new)>(order: seq<K>, k: K, x: K)
    requires Distinct(order) && k != x && k in order
    ensures Newer(Without(order, x) + [x], k) <= Newer(order, k) + {x}
  {
    if order[0] == k {
      WithoutProps(order[1..], x);
      assert Without(order, x) + [x] == [k] + (Without(order[1..], x) + [x]);
    } else {
      NewerWithout(order[1..], k, x);
      if order[0] != x {
        assert Without(order, x) + [x] == [order[0]] + (Without(order[1..], x) + [x]);
      }
    }
  }

  lemma {:induction false} NewerLast<K(!new)>(w: seq<K>, k: K)
    requires k !in w
    ensures Newer(w + [k], k) == {}
  {
    if w == [] {
      assert w + [k] == [k];
    } else {
      assert (w + [k])[1..] == w[1..] + [k];
      NewerLast(w[1..], k);
    }
  }

  lemma {:induction false} DistinctCardinality<K(!new)>(s: seq<K>)
    requires Distinct(s)
    ensures |set x | x in s| == |s|
  {
    if s != [] {
      DistinctCardinality(s[1..]);
      assert (set x | x in s) == {s[0]} + set x | x in s[1..];
    }
  }

  lemma SubsetCardinality<T>(a: set<T>, b: set<T>)
    requires a <= b
    ensures |a| <= |b|
  {
    assert b == a + (b - a);
  }

  /** Dropping the first of the keys leaves what is newer than another one. */
  lemma NewerRest<K(!new)>(order: seq<K>, k: K)
    requires order != [] && order[0] != k
    ensures Newer(order[1..], k) == Newer(order, k)
  {
  }

  lemma TouchSpares<K(!new), V>(c: Cache<K, V>, k: K, x: K)
    requires c.Valid() && k in c.items && k != x
    ensures k in c.Touch(x).items && Newer(c.Touch(x).order, k) <= Newer(c.order, k) + {x}
  {
    assert c.Resident(k);
    NewerWithout(c.order, k, x);
  }

  lemma RoomyAddSpares<K(!new), V>(c: Cache<K, V>, k: K, x: K, v: V)
    requires c.Valid() && k in c.items && k != x && |Without(c.order, x) + [x]| <= c.cap
    ensures k in c.Add(x, v).items && c.Add(x, v).items[k] == c.items[k]
    ensures Newer(c.Add(x, v).order, k) <= Newer(c.order, k) + {x}
  {
    assert c.Resident(k);
    NewerWithout(c.order, k, x);
  }

  /** A full cache takes a new key: its oldest key goes, the others are spared. */
  lemma FullAddSpares<K(!new), V>(c: Cache<K, V>, k: K, x: K, v: V)
    requires c.Valid() && k in c.items && k != x && |Without(c.order, x) + [x]| > c.cap
    requires (Without(c.order, x) + [x])[0] != k
    ensures k in c.Add(x, v).items && c.Add(x, v).items[k] == c.items[k]
    ensures Newer(c.Add(x, v).order, k) <= Newer(c.order, k) + {x}
  {
    assert c.Resident(k);
    NewerWithout(c.order, k, x);
    NewerRest(Without(c.order, x) + [x], k);
  }

  /** Only the oldest key of a full cache goes: all the others are newer. */
  lemma OldestIsBehindAll<K(!new), V>(c: Cache<K, V>, k: K, x: K)
    requires c.Valid() && k in c.items && k != x && |Without(c.order, x) + [x]| > c.cap
    requires (Without(c.order, x) + [x])[0] == k
    ensures |Newer(c.order, k) + {x}| >= c.cap
  {
    WithoutProps(c.order, x);
    WithoutAbsent(c.order, x);
    assert c.order[0] == k;
    DistinctCardinality(c.order[1..]);
    assert x !in Newer(c.order, k);
  }

  /** What one use of key `x` (a touch or an addition) does to another resident key `k`:
      its value survives and at most `x` becomes newer than it, unless `k` is the oldest key
      of a full cache and `x` is new -- then every other resident key is newer than `k`. */
  lemma OthersSurvive<K(!new), V>(c: Cache<K, V>, k: K, x: K, v: V)
    requires c.Valid() && k in c.items && k != x
    ensures k in c.Touch(x).items && Newer(c.Touch(x).order, k) <= Newer(c.order, k) + {x}
    ensures if k in c.Add(x, v).items
            then c.Add(x, v).items[k] == c.items[k] && Newer(c.Add(x, v).order, k) <= Newer(c.order, k) + {x}
            else |Newer(c.order, k) + {x}| >= c.cap
  {
    TouchSpares(c, k, x);
    if |Without(c.order, x) + [x]| <= c.cap {
      RoomyAddSpares(c, k, x, v);
    } else if (Without(c.order, x) + [x])[0] != k {
      FullAddSpares(c, k, x, v);
    } else {
      OldestIsBehindAll(c, k, x);
    }
  }
}
