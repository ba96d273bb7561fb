/** Small shared vocabulary: optional values and the few facts about sequences that
    several components need. */
module Prelude {

  datatype Option<+T> = None | Some(value: T)

  /** A clock reading or a duration, in nanoseconds. */
  type Time = int

  function Max(a: int, b: int): int {
    if a < b then b else a
  }

  function Min(a: int, b: int): int {
    if a < b then a else b
  }

  /** Appends one element. (Kept apart from `+` so that the solver is not led into
      concatenations with empty sequences.) */
  function Push<T>(s: seq<T>, x: T): (r: seq<T>)
    ensures |r| == |s| + 1
  {
    if s == [] then [x] else s + [x]
  }

  lemma PushAt<T>(s: seq<T>, x: T)
    ensures Push(s, x)[|s|] == x && forall i :: 0 <= i < |s| ==> Push(s, x)[i] == s[i]
  {
  }

  /** `a + b`. (Kept apart from `+` like Push.) */
  function Chain<T>(a: seq<T>, b: seq<T>): (r: seq<T>)
    ensures r == a + b
  {
    if a == [] then b else a + b
  }

  function Map<A, B>(f: A -> B, s: seq<A>): (r: seq<B>)
    ensures |r| == |s|
  {
    seq(|s|, i requires 0 <= i < |s| => f(s[i]))
  }

  lemma MapPush<A, B>(f: A -> B, s: seq<A>, x: A)
    ensures Map(f, Push(s, x)) == Push(Map(f, s), f(x))
  {
  }

  predicate All<T>(p: T -> bool, s: seq<T>) {
    forall i :: 0 <= i < |s| ==> p(s[i])
  }

  lemma AllPush<T>(p: T -> bool, s: seq<T>, x: T)
    ensures All(p, Push(s, x)) <==> All(p, s) && p(x)
  {
    var t := Push(s, x);
    assert t[|s|] == x && forall i :: 0 <= i < |s| ==> t[i] == s[i];
  }

  lemma AllAt<T>(p: T -> bool, s: seq<T>, i: nat)
    requires i < |s| && !p(s[i])
    ensures !All(p, s)
  {
  }

  lemma PrefixPush<T>(s: seq<T>, i: nat)
    requires i < |s|
    ensures s[..i + 1] == Push(s[..i], s[i])
  {
  }

  function Filter<T>(keep: T -> bool, s: seq<T>): seq<T> {
    if s == [] then []
    else
      var init, last := Filter(keep, s[..|s| - 1]), s[|s| - 1];
      if keep(last) then Push(init, last) else init
  }

  lemma PushMember<T>(s: seq<T>, x: T, y: T)
    ensures y in Push(s, x) <==> y in s || y == x
  {
  }

  lemma {:induction false} FilterMember<T>(keep: T -> bool, s: seq<T>, x: T)
    ensures x in Filter(keep, s) <==> keep(x) && x in s
  {
    if s != [] {
      var init, last := s[..|s| - 1], s[|s| - 1];
      FilterMember(keep, init, x);
      PushMember(Filter(keep, init), last, x);
      PushMember(init, last, x);
      assert s == Push(init, last);
    }
  }

  lemma MapMember<A, B>(f: A -> B, s: seq<A>, y: B)
    ensures y in Map(f, s) <==> exists i :: 0 <= i < |s| && y == f(s[i])
  {
    if y in Map(f, s) {
      var i :| 0 <= i < |s| && Map(f, s)[i] == y;
    }
    if i :| 0 <= i < |s| && y == f(s[i]) {
      assert Map(f, s)[i] == y;
    }
  }

  ghost predicate Distinct<T>(s: seq<T>) {
    forall i, j :: 0 <= i < j < |s| ==> s[i] != s[j]
  }
}
