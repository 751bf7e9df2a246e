/**
 * `Array.prototype.sort` with a comparator, as the dashboard uses it: every
 * comparator in the application orders by a tuple of numbers, largest first
 * (a later number breaking ties of the earlier ones). The model sorts by a
 * key function into integer tuples, compared lexicographically, and the
 * sort is stable, as ECMAScript 2019 requires of `Array.prototype.sort`.
 */
module Sorting {
  import Seqs

  /** `a` is strictly greater than `b` in lexicographic order (a proper prefix is smaller). */
  predicate LexGt(a: seq<int>, b: seq<int>)
    decreases |a|
  {
    |a| > 0 && (|b| == 0 || a[0] > b[0] || (a[0] == b[0] && LexGt(a[1..], b[1..])))
  }

  /** One step of the lexicographic comparison. */
  lemma LexGtCons(a: seq<int>, b: seq<int>)
    requires |a| > 0 && |b| > 0
    ensures LexGt(a, b) <==> a[0] > b[0] || (a[0] == b[0] && LexGt(a[1..], b[1..]))
  {
  }

  lemma {:induction false} LexGtIrreflexive(a: seq<int>)
    ensures !LexGt(a, a)
  {
    if |a| > 0 {
      LexGtIrreflexive(a[1..]);
    }
  }

  lemma {:induction false} LexGtTransitive(a: seq<int>, b: seq<int>, c: seq<int>)
    requires LexGt(a, b) && LexGt(b, c)
    ensures LexGt(a, c)
    decreases |a|
  {
    if |c| > 0 && a[0] == b[0] && b[0] == c[0] {
      LexGtTransitive(a[1..], b[1..], c[1..]);
    }
  }

  lemma LexGtAsymmetric(a: seq<int>, b: seq<int>)
    requires LexGt(a, b)
    ensures !LexGt(b, a)
  {
    if LexGt(b, a) {
      LexGtTransitive(a, b, a);
      LexGtIrreflexive(a);
    }
  }

  lemma {:induction false} LexGtTotal(a: seq<int>, b: seq<int>)
    requires a != b
    ensures LexGt(a, b) || LexGt(b, a)
    decreases |a|
  {
    if |a| > 0 && |b| > 0 && a[0] == b[0] {
      assert a == [a[0]] + a[1..] && b == [b[0]] + b[1..];
      LexGtTotal(a[1..], b[1..]);
    }
  }

  /** "At least as large": the negation of the strict order with the arguments swapped. */
  predicate LexGe(a: seq<int>, b: seq<int>) {
    !LexGt(b, a)
  }

  lemma LexGeTransitive(a: seq<int>, b: seq<int>, c: seq<int>)
    ensures LexGe(a, b) && LexGe(b, c) ==> LexGe(a, c)
  {
    if LexGe(a, b) && LexGe(b, c) && a != b {
      LexGtTotal(a, b);
      if LexGt(c, a) {
        LexGtTransitive(c, a, b);
      }
    }
  }

  /** Largest key first: no later element has a strictly greater key than an earlier one. */
  predicate SortedDesc<T>(s: seq<T>, key: T -> seq<int>) {
    forall i, j :: 0 <= i < j < |s| ==> LexGe(key(s[i]), key(s[j]))
  }

  /** Places `x` before the first element whose key is not strictly greater than its own. */
  function Insert<T>(x: T, s: seq<T>, key: T -> seq<int>): (r: seq<T>)
    ensures |r| == |s| + 1
  {
    if s == [] then [x]
    else if LexGt(key(s[0]), key(x)) then [s[0]] + Insert(x, s[1..], key)
    else [x] + s
  }

  /** The stable sort: insert each element, last to first, into the sorted rest. */
  function SortDesc<T>(s: seq<T>, key: T -> seq<int>): (r: seq<T>)
    ensures |r| == |s|
  {
    if s == [] then [] else Insert(s[0], SortDesc(s[1..], key), key)
  }

  lemma {:induction false} InsertMultiset<T>(x: T, s: seq<T>, key: T -> seq<int>)
    ensures multiset(Insert(x, s, key)) == multiset(s) + multiset{x}
  {
    if s != [] && LexGt(key(s[0]), key(x)) {
      InsertMultiset(x, s[1..], key);
      assert s == [s[0]] + s[1..];
    }
  }

  /** The sort is a permutation of its input. */
  lemma {:induction false} SortDescMultiset<T>(s: seq<T>, key: T -> seq<int>)
    ensures multiset(SortDesc(s, key)) == multiset(s)
  {
    if s != [] {
      SortDescMultiset(s[1..], key);
      InsertMultiset(s[0], SortDesc(s[1..], key), key);
      assert s == [s[0]] + s[1..];
    }
  }

  lemma {:induction false} InsertSorted<T>(x: T, s: seq<T>, key: T -> seq<int>)
    requires SortedDesc(s, key)
    ensures SortedDesc(Insert(x, s, key), key)
  {
    if s == [] {
    } else if LexGt(key(s[0]), key(x)) {
      var t := s[1..];
      SortedTail(s, key);
      InsertSorted(x, t, key);
      var rt := Insert(x, t, key);
      InsertMultiset(x, t, key);
      forall j | 0 <= j < |rt| ensures LexGe(key(s[0]), key(rt[j])) {
        assert rt[j] in multiset(rt);
        if rt[j] == x {
          LexGtAsymmetric(key(s[0]), key(x));
        } else {
          assert rt[j] in t;
          var k :| 0 <= k < |t| && t[k] == rt[j];
          assert s[k + 1] == rt[j];
        }
      }
      SortedCons(s[0], rt, key);
    } else {
      forall j | 0 <= j < |s| ensures LexGe(key(x), key(s[j])) {
        if j > 0 {
          LexGeTransitive(key(x), key(s[0]), key(s[j]));
        }
      }
      SortedCons(x, s, key);
    }
  }

  lemma SortedTail<T>(s: seq<T>, key: T -> seq<int>)
    requires s != [] && SortedDesc(s, key)
    ensures SortedDesc(s[1..], key)
  {
    var t := s[1..];
    forall i, j | 0 <= i < j < |t| ensures LexGe(key(t[i]), key(t[j])) {
      assert t[i] == s[i + 1] && t[j] == s[j + 1];
    }
  }

  /** A head at least as large as every element of a sorted tail keeps it sorted. */
  lemma SortedCons<T>(h: T, t: seq<T>, key: T -> seq<int>)
    requires SortedDesc(t, key)
    requires forall j :: 0 <= j < |t| ==> LexGe(key(h), key(t[j]))
    ensures SortedDesc([h] + t, key)
  {
    var r := [h] + t;
    forall i, j | 0 <= i < j < |r| ensures LexGe(key(r[i]), key(r[j])) {
      assert r[j] == t[j - 1];
      if i > 0 {
        assert r[i] == t[i - 1];
      }
    }
  }

  /** The output is ordered largest key first. */
  lemma {:induction false} SortDescSorted<T>(s: seq<T>, key: T -> seq<int>)
    ensures SortedDesc(SortDesc(s, key), key)
  {
    if s != [] {
      SortDescSorted(s[1..], key);
      InsertSorted(s[0], SortDesc(s[1..], key), key);
    }
  }

  /** The elements whose key equals `k`, in order. */
  function KeyClass<T>(s: seq<T>, key: T -> seq<int>, k: seq<int>): seq<T> {
    Seqs.Filter(s, x => key(x) == k)
  }

  lemma {:induction false} InsertKeyClass<T>(x: T, s: seq<T>, key: T -> seq<int>, k: seq<int>)
    ensures KeyClass(Insert(x, s, key), key, k) == (if key(x) == k then [x] else []) + KeyClass(s, key, k)
  {
    if s != [] && LexGt(key(s[0]), key(x)) {
      InsertKeyClass(x, s[1..], key, k);
      if key(x) == k {
        assert key(s[0]) != k by {
          LexGtIrreflexive(key(x));
        }
      }
      assert (Insert(x, s, key))[1..] == Insert(x, s[1..], key);
    } else if s != [] {
      assert ([x] + s)[1..] == s;
    }
  }

  /** Stability: elements with equal keys keep their relative order. */
  lemma {:induction false} SortDescStable<T>(s: seq<T>, key: T -> seq<int>, k: seq<int>)
    ensures KeyClass(SortDesc(s, key), key, k) == KeyClass(s, key, k)
  {
    if s != [] {
      SortDescStable(s[1..], key, k);
      InsertKeyClass(s[0], SortDesc(s[1..], key), key, k);
    }
  }

  /** Sorting an already sorted list changes nothing; in particular the sort is idempotent. */
  lemma {:induction false} SortDescOfSorted<T>(s: seq<T>, key: T -> seq<int>)
    requires SortedDesc(s, key)
    ensures SortDesc(s, key) == s
  {
    if s != [] {
      var t := s[1..];
      assert SortedDesc(t, key) by {
        forall i, j | 0 <= i < j < |t| ensures LexGe(key(t[i]), key(t[j])) {
          assert t[i] == s[i + 1] && t[j] == s[j + 1];
        }
      }
      SortDescOfSorted(t, key);
      if t != [] {
        assert LexGe(key(s[0]), key(t[0]));
      }
      assert s == [s[0]] + t;
    }
  }

  lemma SortDescIdempotent<T>(s: seq<T>, key: T -> seq<int>)
    ensures SortDesc(SortDesc(s, key), key) == SortDesc(s, key)
  {
    SortDescSorted(s, key);
    SortDescOfSorted(SortDesc(s, key), key);
  }

  lemma LexGtOne(x: int, y: int)
    ensures LexGt([x], [y]) <==> x > y
  {
    assert [x][1..] == [] && [y][1..] == [];
  }

  /** Sorted by a one-number key means that number never increases along the sequence. */
  lemma SortedDescOneKey<T>(s: seq<T>, key: T -> seq<int>, f: T -> int)
    requires forall x :: key(x) == [f(x)]
    requires SortedDesc(s, key)
    ensures forall i, j :: 0 <= i < j < |s| ==> f(s[i]) >= f(s[j])
  {
    forall i, j | 0 <= i < j < |s| ensures f(s[i]) >= f(s[j]) {
      assert LexGe(key(s[i]), key(s[j]));
      LexGtOne(f(s[j]), f(s[i]));
    }
  }
}
