/**
 * The list operations the dashboard applies to its React state arrays:
 * `filter`, `find`, `findIndex`, "replace the element with this id" (`map`
 * with an id test), "remove the element with this id" and prepending.
 */
module Seqs {
  import opened Wrappers

  /** `s.filter(p)`: the elements satisfying `p`, in their original order. */
  function Filter<T>(s: seq<T>, p: T -> bool): (r: seq<T>)
    ensures |r| <= |s|
    ensures forall i :: 0 <= i < |r| ==> r[i] in s && p(r[i])
    ensures forall i :: 0 <= i < |s| && p(s[i]) ==> s[i] in r
  {
    if s == [] then [] else (if p(s[0]) then [s[0]] else []) + Filter(s[1..], p)
  }

  /** `t` is `s` with some elements dropped and the rest kept in order. */
  predicate IsSubsequence<T(==)>(t: seq<T>, s: seq<T>)
    decreases |s|
  {
    t == [] || (s != [] && ((t[0] == s[0] && IsSubsequence(t[1..], s[1..])) || IsSubsequence(t, s[1..])))
  }

  lemma {:induction false} FilterIsSubsequence<T>(s: seq<T>, p: T -> bool)
    ensures IsSubsequence(Filter(s, p), s)
  {
    if s != [] {
      FilterIsSubsequence(s[1..], p);
      var r := Filter(s, p);
      if p(s[0]) {
        assert r[0] == s[0] && r[1..] == Filter(s[1..], p);
      } else {
        assert r == Filter(s[1..], p);
      }
    }
  }

  /** Filter distributes over concatenation. */
  lemma {:induction false} FilterConcat<T>(a: seq<T>, b: seq<T>, p: T -> bool)
    ensures Filter(a + b, p) == Filter(a, p) + Filter(b, p)
  {
    if a != [] {
      assert (a + b)[1..] == a[1..] + b;
      FilterConcat(a[1..], b, p);
    } else {
      assert a + b == b;
    }
  }

  /** Filtering twice is filtering once by the conjunction. */
  lemma {:induction false} FilterFilter<T>(s: seq<T>, p: T -> bool, q: T -> bool)
    ensures Filter(Filter(s, p), q) == Filter(s, x => p(x) && q(x))
  {
    if s != [] {
      FilterFilter(s[1..], p, q);
      var head := if p(s[0]) then [s[0]] else [];
      FilterConcat(head, Filter(s[1..], p), q);
    }
  }

  /** A filter whose predicate holds throughout keeps everything. */
  lemma {:induction false} FilterAll<T>(s: seq<T>, p: T -> bool)
    requires forall i :: 0 <= i < |s| ==> p(s[i])
    ensures Filter(s, p) == s
  {
    if s != [] {
      FilterAll(s[1..], p);
    }
  }

  /** Filters with predicates that agree on `s` give the same result. */
  lemma {:induction false} FilterCongruent<T>(s: seq<T>, p: T -> bool, q: T -> bool)
    requires forall i :: 0 <= i < |s| ==> p(s[i]) == q(s[i])
    ensures Filter(s, p) == Filter(s, q)
  {
    if s != [] {
      FilterCongruent(s[1..], p, q);
    }
  }

  /** The count of elements satisfying `p`. */
  function Count<T>(s: seq<T>, p: T -> bool): (n: nat)
    ensures n <= |s|
  {
    if s == [] then 0 else (if p(s[0]) then 1 else 0) + Count(s[1..], p)
  }

  lemma {:induction false} FilterLength<T>(s: seq<T>, p: T -> bool)
    ensures |Filter(s, p)| == Count(s, p)
  {
    if s != [] {
      FilterLength(s[1..], p);
    }
  }

  /** A subsequence whose elements all pass `p` is no longer than the number of passing elements. */
  lemma {:induction false} SubsequenceCountBound<T>(t: seq<T>, s: seq<T>, p: T -> bool)
    requires IsSubsequence(t, s)
    requires forall i :: 0 <= i < |t| ==> p(t[i])
    ensures |t| <= Count(s, p)
    decreases |s|
  {
    if t != [] {
      if t[0] == s[0] && IsSubsequence(t[1..], s[1..]) {
        SubsequenceCountBound(t[1..], s[1..], p);
      } else {
        SubsequenceCountBound(t, s[1..], p);
      }
    }
  }

  /**
   * `filter` is characterised by its shape: the only subsequence of `s` whose
   * elements all pass `p` and that holds as many elements as pass is `Filter(s, p)`.
   */
  lemma {:induction false} FilterUnique<T>(t: seq<T>, s: seq<T>, p: T -> bool)
    requires IsSubsequence(t, s)
    requires forall i :: 0 <= i < |t| ==> p(t[i])
    requires |t| == Count(s, p)
    ensures t == Filter(s, p)
    decreases |s|
  {
    FilterLength(s, p);
    if s != [] && t != [] {
      if t[0] == s[0] && IsSubsequence(t[1..], s[1..]) {
        FilterUnique(t[1..], s[1..], p);
      } else {
        SubsequenceCountBound(t, s[1..], p);
        FilterUnique(t, s[1..], p);
      }
    }
  }

  lemma {:induction false} FilterMultiset<T>(s: seq<T>, p: T -> bool)
    ensures multiset(Filter(s, p)) <= multiset(s)
  {
    if s != [] {
      FilterMultiset(s[1..], p);
      assert s == [s[0]] + s[1..];
      assert multiset(s) == multiset{s[0]} + multiset(s[1..]);
      var h := if p(s[0]) then [s[0]] else [];
      assert Filter(s, p) == h + Filter(s[1..], p);
      assert multiset(Filter(s, p)) == multiset(h) + multiset(Filter(s[1..], p));
    }
  }

  /** `s.findIndex(p)`: the first index whose element satisfies `p`, or -1. */
  function FindIndex<T>(s: seq<T>, p: T -> bool): (i: int)
    ensures -1 <= i < |s|
    ensures i == -1 <==> forall j :: 0 <= j < |s| ==> !p(s[j])
    ensures i >= 0 ==> p(s[i]) && forall j :: 0 <= j < i ==> !p(s[j])
  {
    if s == [] then -1
    else if p(s[0]) then 0
    else var k := FindIndex(s[1..], p); if k == -1 then -1 else k + 1
  }

  /** `s.find(p)`: the first element satisfying `p`, or nothing. */
  function Find<T>(s: seq<T>, p: T -> bool): (r: Option<T>)
    ensures r.None? <==> forall j :: 0 <= j < |s| ==> !p(s[j])
    ensures r.Some? ==> exists j :: 0 <= j < |s| && s[j] == r.value && p(s[j]) && forall k :: 0 <= k < j ==> !p(s[k])
  {
    var i := FindIndex(s, p);
    if i == -1 then None else Some(s[i])
  }

  /**
   * `s.map(x => idOf(x) === idOf(u) ? u : x)`: every element carrying `u`'s
   * id is replaced by `u`, all others are kept, the length and order do not change.
   */
  function ReplaceById<T, K(==)>(s: seq<T>, idOf: T -> K, u: T): (r: seq<T>)
    ensures |r| == |s|
    ensures forall i :: 0 <= i < |s| ==> r[i] == (if idOf(s[i]) == idOf(u) then u else s[i])
  {
    seq(|s|, i requires 0 <= i < |s| => if idOf(s[i]) == idOf(u) then u else s[i])
  }

  /** `s.filter(x => idOf(x) !== k)` */
  function RemoveById<T, K(==)>(s: seq<T>, idOf: T -> K, k: K): (r: seq<T>)
    ensures forall i :: 0 <= i < |r| ==> r[i] in s && idOf(r[i]) != k
    ensures forall i :: 0 <= i < |s| && idOf(s[i]) != k ==> s[i] in r
  {
    Filter(s, x => idOf(x) != k)
  }

  /** No element carries id `k`. */
  predicate FreshId<T, K(==)>(s: seq<T>, idOf: T -> K, k: K) {
    forall i :: 0 <= i < |s| ==> idOf(s[i]) != k
  }

  /** Replacing with an element that carries the id of an absent id changes nothing. */
  lemma ReplaceByIdFresh<T, K>(s: seq<T>, idOf: T -> K, u: T)
    requires FreshId(s, idOf, idOf(u))
    ensures ReplaceById(s, idOf, u) == s
  {
  }

  /** Replacing twice with the same element is replacing once. */
  lemma ReplaceByIdIdempotent<T, K>(s: seq<T>, idOf: T -> K, u: T)
    ensures ReplaceById(ReplaceById(s, idOf, u), idOf, u) == ReplaceById(s, idOf, u)
  {
  }

  /** After a replace, removing that id gives the same as removing it from the original. */
  lemma {:induction false} RemoveAfterReplace<T, K>(s: seq<T>, idOf: T -> K, u: T)
    ensures RemoveById(ReplaceById(s, idOf, u), idOf, idOf(u)) == RemoveById(s, idOf, idOf(u))
  {
    var r := ReplaceById(s, idOf, u);
    RemoveAgree(s, r, idOf, idOf(u));
  }

  lemma {:induction false} RemoveAgree<T, K>(s: seq<T>, r: seq<T>, idOf: T -> K, k: K)
    requires |s| == |r|
    requires forall i :: 0 <= i < |s| ==> (idOf(s[i]) != k || idOf(r[i]) != k) ==> s[i] == r[i]
    requires forall i :: 0 <= i < |s| ==> (idOf(s[i]) == k) == (idOf(r[i]) == k)
    ensures RemoveById(r, idOf, k) == RemoveById(s, idOf, k)
  {
    if s != [] {
      RemoveAgree(s[1..], r[1..], idOf, k);
    }
  }

  /** Adding a new element at the front and deleting it again restores the list. */
  lemma {:induction false} PrependThenRemove<T, K>(s: seq<T>, idOf: T -> K, x: T)
    requires FreshId(s, idOf, idOf(x))
    ensures RemoveById([x] + s, idOf, idOf(x)) == s
  {
    assert ([x] + s)[1..] == s;
    FilterAll(s, y => idOf(y) != idOf(x));
  }

  /** Removing an id that no element carries changes nothing. */
  lemma RemoveFresh<T, K>(s: seq<T>, idOf: T -> K, k: K)
    requires FreshId(s, idOf, k)
    ensures RemoveById(s, idOf, k) == s
  {
    FilterAll(s, y => idOf(y) != k);
  }

  /** Counting is monotone in the predicate. */
  lemma {:induction false} CountMono<T>(s: seq<T>, p: T -> bool, q: T -> bool)
    requires forall i :: 0 <= i < |s| ==> p(s[i]) ==> q(s[i])
    ensures Count(s, p) <= Count(s, q)
  {
    if s != [] {
      CountMono(s[1..], p, q);
    }
  }

  /** Counts add up over a concatenation. */
  lemma {:induction false} CountConcat<T>(a: seq<T>, b: seq<T>, p: T -> bool)
    ensures Count(a + b, p) == Count(a, p) + Count(b, p)
  {
    if a == [] {
      assert a + b == b;
    } else {
      assert (a + b)[1..] == a[1..] + b;
      CountConcat(a[1..], b, p);
    }
  }

  /** Some element of `d` carries key `k`. */
  predicate HasKey<T, K(==)>(d: seq<T>, key: T -> K, k: K) {
    exists i :: 0 <= i < |d| && key(d[i]) == k
  }

  /**
   * Keeps the first element for every key, in order of first appearance
   * (a `Map` filled with `if (!map.has(key)) map.set(key, ...)`, then read
   * back with `.values()`, or `Array.from(new Set(...))` when the key is the element).
   */
  function DedupeBy<T, K(==)>(s: seq<T>, key: T -> K): (d: seq<T>)
    ensures |d| <= |s|
    ensures forall i :: 0 <= i < |d| ==> d[i] in s
    ensures forall i :: 0 <= i < |s| ==> HasKey(d, key, key(s[i]))
  {
    if s == [] then []
    else
      var d := DedupeBy(s[..|s| - 1], key);
      var x := s[|s| - 1];
      assert forall i :: 0 <= i < |s| - 1 ==> s[..|s| - 1][i] == s[i];
      if HasKey(d, key, key(x)) then d
      else
        var r := d + [x];
        assert forall i :: 0 <= i < |d| ==> r[i] == d[i];
        assert key(r[|d|]) == key(x);
        r
  }

  /** No two kept elements share a key. */
  lemma {:induction false} DedupeByDistinct<T, K>(s: seq<T>, key: T -> K)
    ensures forall i, j :: 0 <= i < j < |DedupeBy(s, key)| ==> key(DedupeBy(s, key)[i]) != key(DedupeBy(s, key)[j])
  {
    if s != [] {
      DedupeByDistinct(s[..|s| - 1], key);
    }
  }

  /** The first occurrence of `k` in `s` is at index `i`. */
  predicate FirstWithKey<T, K(==)>(s: seq<T>, key: T -> K, i: int) {
    0 <= i < |s| && forall j :: 0 <= j < i ==> key(s[j]) != key(s[i])
  }

  /** Every kept element is the first one in `s` with its key: the first occurrence wins. */
  lemma {:induction false} DedupeByFirstWins<T, K>(s: seq<T>, key: T -> K, i: int)
    requires 0 <= i < |DedupeBy(s, key)|
    ensures exists j :: FirstWithKey(s, key, j) && s[j] == DedupeBy(s, key)[i]
  {
    var t := s[..|s| - 1];
    var d := DedupeBy(t, key);
    if i < |d| {
      DedupeByFirstWins(t, key, i);
      var j :| FirstWithKey(t, key, j) && t[j] == d[i];
      FirstWithKeyExtends(s, key, j);
      DedupeByKeepsEarlier(s, key, i);
    } else {
      DedupeByNewKeyIsFirst(s, key);
    }
  }

  /** A first occurrence in `s` minus its last element is a first occurrence in `s`. */
  lemma FirstWithKeyExtends<T, K>(s: seq<T>, key: T -> K, j: int)
    requires s != [] && FirstWithKey(s[..|s| - 1], key, j)
    ensures FirstWithKey(s, key, j) && s[j] == s[..|s| - 1][j]
  {
    var t := s[..|s| - 1];
    forall j' | 0 <= j' < j ensures key(s[j']) != key(s[j]) {
      assert s[j'] == t[j'];
    }
  }

  /** Dropping the last element keeps the elements kept before it. */
  lemma DedupeByKeepsEarlier<T, K>(s: seq<T>, key: T -> K, i: int)
    requires s != [] && 0 <= i < |DedupeBy(s[..|s| - 1], key)|
    ensures i < |DedupeBy(s, key)| && DedupeBy(s, key)[i] == DedupeBy(s[..|s| - 1], key)[i]
  {
  }

  /** An element kept past the earlier ones is the last element, appearing first with its key. */
  lemma DedupeByNewKeyIsFirst<T, K>(s: seq<T>, key: T -> K)
    requires s != [] && |DedupeBy(s, key)| > |DedupeBy(s[..|s| - 1], key)|
    ensures FirstWithKey(s, key, |s| - 1)
    ensures DedupeBy(s, key)[|DedupeBy(s[..|s| - 1], key)|] == s[|s| - 1]
  {
    var t := s[..|s| - 1];
    var d := DedupeBy(t, key);
    var x := s[|s| - 1];
    assert !HasKey(d, key, key(x));
    forall j | 0 <= j < |s| - 1 ensures key(s[j]) != key(x) {
      assert t[j] == s[j];
      assert HasKey(d, key, key(t[j]));
    }
  }

  /** Every element of `s` with key `b` has an element with key `a` before it: `a` is seen first. */
  predicate SeenBefore<T, K(==)>(s: seq<T>, key: T -> K, a: K, b: K) {
    forall k :: 0 <= k < |s| && key(s[k]) == b ==> exists m :: 0 <= m < k && key(s[m]) == a
  }

  /** The kept elements come in the order in which their keys are first seen. */
  lemma {:induction false} DedupeByOrder<T, K>(s: seq<T>, key: T -> K)
    ensures forall i, j :: 0 <= i < j < |DedupeBy(s, key)| ==> SeenBefore(s, key, key(DedupeBy(s, key)[i]), key(DedupeBy(s, key)[j]))
  {
    if s != [] {
      var t := s[..|s| - 1];
      var x := s[|s| - 1];
      assert s == t + [x];
      var d0 := DedupeBy(t, key);
      var d := DedupeBy(s, key);
      DedupeByOrder(t, key);
      forall i, j | 0 <= i < j < |d| ensures SeenBefore(s, key, key(d[i]), key(d[j])) {
        assert i < |d0|;
        DedupeByKeepsEarlier(s, key, i);
        assert d0[i] in t;
        if j < |d0| {
          DedupeByKeepsEarlier(s, key, j);
          assert d0[j] in t;
          SeenBeforeSnoc(t, x, key, key(d0[i]), key(d0[j]));
        } else {
          DedupeByNewKeyIsFirst(s, key);
          SeenBeforeNew(t, x, key, key(d0[i]));
        }
      }
    }
  }

  lemma SeenBeforeSnoc<T, K>(t: seq<T>, x: T, key: T -> K, a: K, b: K)
    requires SeenBefore(t, key, a, b)
    requires exists k :: 0 <= k < |t| && key(t[k]) == b
    ensures SeenBefore(t + [x], key, a, b)
  {
    var s := t + [x];
    var kb :| 0 <= kb < |t| && key(t[kb]) == b;
    forall k | 0 <= k < |s| && key(s[k]) == b ensures exists m :: 0 <= m < k && key(s[m]) == a {
      var k' := if k < |t| then k else kb;
      assert key(t[k']) == b;
      var m :| 0 <= m < k' && key(t[m]) == a;
      assert s[m] == t[m];
    }
  }

  lemma SeenBeforeNew<T, K>(t: seq<T>, x: T, key: T -> K, a: K)
    requires FirstWithKey(t + [x], key, |t|)
    requires exists k :: 0 <= k < |t| && key(t[k]) == a
    ensures SeenBefore(t + [x], key, a, key(x))
  {
    var s := t + [x];
    var ka :| 0 <= ka < |t| && key(t[ka]) == a;
    forall k | 0 <= k < |s| && key(s[k]) == key(x) ensures exists m :: 0 <= m < k && key(s[m]) == a {
      assert k == |t|;
      assert s[ka] == t[ka];
    }
  }

  /** The kept elements appear in `s` in the same order. */
  lemma {:induction false} DedupeByIsSubsequence<T, K>(s: seq<T>, key: T -> K)
    ensures IsSubsequence(DedupeBy(s, key), s)
  {
    if s != [] {
      var t := s[..|s| - 1];
      DedupeByIsSubsequence(t, key);
      var x := s[|s| - 1];
      assert s == t + [x];
      SubsequenceAppend(DedupeBy(t, key), t, x);
    }
  }

  lemma {:induction false} SubsequenceAppend<T>(u: seq<T>, t: seq<T>, x: T)
    requires IsSubsequence(u, t)
    ensures IsSubsequence(u, t + [x])
    ensures IsSubsequence(u + [x], t + [x])
    decreases |t|
  {
    if t == [] {
      assert u == [];
      assert ([] + [x])[1..] == [];
    } else {
      assert (t + [x])[1..] == t[1..] + [x];
      if u == [] {
        SubsequenceAppend(u, t[1..], x);
        assert u + [x] == [x];
      } else if u[0] == t[0] && IsSubsequence(u[1..], t[1..]) {
        SubsequenceAppend(u[1..], t[1..], x);
        assert (u + [x])[1..] == u[1..] + [x];
      } else {
        SubsequenceAppend(u, t[1..], x);
      }
    }
  }

  /** `s.slice(0, n)` for n >= 0: the first `n` elements, or all of them when there are fewer. */
  function Take<T>(s: seq<T>, n: nat): (r: seq<T>)
    ensures |r| == if n <= |s| then n else |s|
    ensures r == s[..|r|]
  {
    if n <= |s| then s[..n] else s
  }

  /** How many elements have key `k`. */
  function CountKey<T, K(==)>(s: seq<T>, key: T -> K, k: K): (n: nat)
    ensures n <= |s|
  {
    Count(s, x => key(x) == k)
  }

  /** Tallying one more element adds one to its own key's count only. */
  lemma CountKeySnoc<T, K>(s: seq<T>, x: T, key: T -> K, k: K)
    ensures CountKey(s + [x], key, k) == CountKey(s, key, k) + (if key(x) == k then 1 else 0)
  {
    CountConcat(s, [x], y => key(y) == k);
    assert [x][1..] == [];
  }

  /** The counts of the keys `ks`, added up. */
  function SumCounts<T, K(==)>(s: seq<T>, key: T -> K, ks: seq<K>): nat {
    if ks == [] then 0 else CountKey(s, key, ks[0]) + SumCounts(s, key, ks[1..])
  }

  predicate DistinctKeys<K(==)>(ks: seq<K>) {
    forall i, j :: 0 <= i < j < |ks| ==> ks[i] != ks[j]
  }

  /** Counting by two predicates that never hold together counts by their disjunction. */
  lemma {:induction false} CountDisjoint<T>(s: seq<T>, p: T -> bool, q: T -> bool, r: T -> bool)
    requires forall i :: 0 <= i < |s| ==> (r(s[i]) <==> p(s[i]) || q(s[i])) && !(p(s[i]) && q(s[i]))
    ensures Count(s, r) == Count(s, p) + Count(s, q)
  {
    if s != [] {
      CountDisjoint(s[1..], p, q, r);
    }
  }

  /**
   * Over distinct keys, the counts add up to the number of elements whose
   * key is among them (`member` says which those are).
   */
  lemma {:induction false} SumCountsIsCountIn<T, K>(s: seq<T>, key: T -> K, ks: seq<K>, member: T -> bool)
    requires DistinctKeys(ks)
    requires forall i :: 0 <= i < |s| ==> member(s[i]) == (key(s[i]) in ks)
    ensures SumCounts(s, key, ks) == Count(s, member)
  {
    if ks == [] {
      CountNone(s, member);
    } else {
      var rest := x => key(x) in ks[1..];
      SumCountsIsCountIn(s, key, ks[1..], rest);
      CountDisjoint(s, x => key(x) == ks[0], rest, member);
    }
  }

  /** Nothing is counted by a predicate that holds nowhere. */
  lemma {:induction false} CountNone<T>(s: seq<T>, p: T -> bool)
    requires forall i :: 0 <= i < |s| ==> !p(s[i])
    ensures Count(s, p) == 0
  {
    if s != [] {
      CountNone(s[1..], p);
    }
  }

  /** Predicates that agree on the elements count the same. */
  lemma {:induction false} CountCongruent<T>(s: seq<T>, p: T -> bool, q: T -> bool)
    requires forall i :: 0 <= i < |s| ==> p(s[i]) == q(s[i])
    ensures Count(s, p) == Count(s, q)
  {
    if s != [] {
      CountCongruent(s[1..], p, q);
    }
  }

  /** A predicate that holds somewhere counts at least one element. */
  lemma {:induction false} CountPositive<T>(s: seq<T>, p: T -> bool, i: int)
    requires 0 <= i < |s| && p(s[i])
    ensures Count(s, p) > 0
  {
    if i > 0 {
      CountPositive(s[1..], p, i - 1);
    }
  }

  /** Everything is counted by a predicate that holds everywhere. */
  lemma {:induction false} CountEvery<T>(s: seq<T>, p: T -> bool)
    requires forall i :: 0 <= i < |s| ==> p(s[i])
    ensures Count(s, p) == |s|
  {
    if s != [] {
      CountEvery(s[1..], p);
    }
  }
}
