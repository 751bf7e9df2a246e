/**
 * Client-side pagination as every table of the dashboard computes it:
 * `totalPages = Math.ceil(n / size)`, the page shown is
 * `list.slice((page - 1) * size, (page - 1) * size + size)` and the caption
 * "Mostrando start a end de n" uses `start = (page - 1) * size + 1` and
 * `end = Math.min(start + size - 1, n)`.
 */
module Pagination {

  function Max(a: int, b: int): int { if a >= b then a else b }
  function Min(a: int, b: int): int { if a <= b then a else b }

  /** The index `Array.prototype.slice` uses for an argument: negatives count from the end, then clamped to the length. */
  function SliceIndex(i: int, len: nat): (r: nat)
    ensures r <= len
    ensures 0 <= i <= len ==> r == i
  {
    if i < 0 then Max(len + i, 0) else Min(i, len)
  }

  /** `s.slice(start, end)` with JavaScript's clamping of both arguments. */
  function JsSlice<T>(s: seq<T>, start: int, end: int): (r: seq<T>)
    ensures |r| <= |s|
    ensures 0 <= start <= end <= |s| ==> r == s[start..end]
  {
    var a := SliceIndex(start, |s|);
    var b := SliceIndex(end, |s|);
    if a < b then s[a..b] else []
  }

  /** `Math.ceil(n / size)` */
  function TotalPages(n: nat, size: nat): (t: nat)
    requires size > 0
    ensures (t - 1) * size < n <= t * size || (n == 0 && t == 0)
  {
    (n + size - 1) / size
  }

  lemma TotalPagesZero(n: nat, size: nat)
    requires size > 0
    ensures TotalPages(n, size) == 0 <==> n == 0
  {
  }

  /** `s.slice(start, start + size)` */
  function Window<T>(s: seq<T>, start: int, size: nat): (r: seq<T>)
    ensures |r| <= size
    ensures 0 <= start <= |s| ==> r == s[start..Min(start + size, |s|)]
  {
    JsSlice(s, start, start + size)
  }

  /** The rows on page `page` (numbered from 1). */
  function PageOf<T>(s: seq<T>, page: int, size: nat): (r: seq<T>)
    requires size > 0
    ensures |r| <= size
    ensures 1 <= page && (page - 1) * size <= |s| ==> r == s[(page - 1) * size..Min((page - 1) * size + size, |s|)]
  {
    MulNonNegative(page - 1, size);
    Window(s, (page - 1) * size, size)
  }

  /** A page inside the range is non-empty and holds `size` rows, except perhaps the last. */
  lemma PageOfInRange<T>(s: seq<T>, page: int, size: nat)
    requires size > 0
    requires 1 <= page <= TotalPages(|s|, size)
    ensures |PageOf(s, page, size)| == Min(size, |s| - (page - 1) * size) > 0
    ensures page < TotalPages(|s|, size) ==> |PageOf(s, page, size)| == size
  {
    var t := TotalPages(|s|, size);
    var start := (page - 1) * size;
    MulMono(page - 1, t - 1, size);
    assert start < |s|;
    MulSucc(page - 1, size);
    var r := PageOf(s, page, size);
    assert r == s[start..Min(start + size, |s|)];
    if page < t {
      MulMono(page, t - 1, size);
    }
  }

  lemma MulSucc(a: int, size: nat)
    ensures (a + 1) * size == a * size + size
  {
  }

  lemma MulMono(a: int, b: int, size: nat)
    requires a <= b
    ensures a * size <= b * size
  {
    assert b * size - a * size == (b - a) * size;
  }

  /** A page past the last one shows nothing. */
  lemma PageOfOutOfRange<T>(s: seq<T>, page: int, size: nat)
    requires size > 0
    requires page > TotalPages(|s|, size)
    ensures PageOf(s, page, size) == []
  {
    var t := TotalPages(|s|, size);
    MulMono(t, page - 1, size);
    assert (page - 1) * size >= |s|;
  }

  /** Euclidean division, spelled out for the solver. */
  lemma DivMod(i: nat, size: nat)
    requires size > 0
    ensures (i / size) * size + i % size == i && 0 <= i % size < size && i / size >= 0
  {
  }

  lemma MulNonNegative(a: int, size: nat)
    ensures a >= 0 ==> a * size >= 0
  {
  }

  /** A page whose first row exists is within the page count. */
  lemma StartBelowCount(q: nat, size: nat, n: nat)
    requires size > 0 && q * size < n
    ensures q + 1 <= TotalPages(n, size)
  {
    var t := TotalPages(n, size);
    if t <= q {
      MulMono(t, q, size);
    }
  }

  /** Page `q + 1` starts at row `q * size`. */
  lemma PageAt<T>(s: seq<T>, q: nat, size: nat)
    requires size > 0 && q * size <= |s|
    ensures PageOf(s, q + 1, size) == s[q * size..Min(q * size + size, |s|)]
  {
    assert q + 1 - 1 == q;
  }

  lemma PagePast<T>(s: seq<T>, q: nat, size: nat)
    requires size > 0 && q * size > |s|
    ensures PageOf(s, q + 1, size) == []
  {
    assert q + 1 - 1 == q;
  }

  /** Row `i` of the list is row `i % size` of page `i / size + 1`. */
  lemma {:induction false} PageOfIndex<T>(s: seq<T>, i: nat, size: nat)
    requires size > 0 && i < |s|
    ensures i / size + 1 <= TotalPages(|s|, size)
    ensures i % size < |PageOf(s, i / size + 1, size)|
    ensures PageOf(s, i / size + 1, size)[i % size] == s[i]
  {
    var q, m := i / size, i % size;
    var start := q * size;
    assert start + m == i && m < size && start <= |s| by {
      DivMod(i, size);
    }
    assert q + 1 <= TotalPages(|s|, size) by {
      DivMod(i, size);
      StartBelowCount(q, size, |s|);
    }
    PageAt(s, q, size);
    assert PageOf(s, q + 1, size)[m] == s[start + m];
  }

  /** The first `k` pages, one after another. */
  function Pages<T>(s: seq<T>, k: nat, size: nat): seq<T>
    requires size > 0
  {
    if k == 0 then [] else Pages(s, k - 1, size) + PageOf(s, k, size)
  }

  lemma {:induction false} PagesPrefix<T>(s: seq<T>, k: nat, size: nat)
    requires size > 0
    ensures Pages(s, k, size) == s[..Min(k * size, |s|)]
  {
    if k > 0 {
      var q := k - 1;
      PagesPrefix(s, q, size);
      PagesStep(s, q, size);
      MulSucc(q, size);
    }
  }

  /** Appending page `q + 1` to the rows before it extends the prefix by one page. */
  lemma PagesStep<T>(s: seq<T>, q: nat, size: nat)
    requires size > 0
    ensures s[..Min(q * size, |s|)] + PageOf(s, q + 1, size) == s[..Min(q * size + size, |s|)]
  {
    var lo := q * size;
    if lo <= |s| {
      PageAt(s, q, size);
      assert s[..lo] + s[lo..Min(lo + size, |s|)] == s[..Min(lo + size, |s|)];
    } else {
      PagePast(s, q, size);
    }
  }

  /** Walking through every page shows every row exactly once, in order. */
  lemma AllPages<T>(s: seq<T>, size: nat)
    requires size > 0
    ensures Pages(s, TotalPages(|s|, size), size) == s
  {
    PagesPrefix(s, TotalPages(|s|, size), size);
  }

  /** `handlePageChange`: a requested page is taken only when `0 < page <= totalPages`. */
  function GuardedPage(current: int, requested: int, total: nat): (p: int)
    ensures 0 < requested <= total ==> p == requested
    ensures !(0 < requested <= total) ==> p == current
    ensures (1 <= current <= Max(1, total)) ==> 1 <= p <= Max(1, total)
  {
    if requested > 0 && requested <= total then requested else current
  }

  /** The caption's first row number: `(page - 1) * size + 1`. */
  function StartIndex(page: int, size: nat): int {
    (page - 1) * size + 1
  }

  /** The caption's last row number: `Math.min(startIndex + size - 1, n)`. */
  function EndIndex(page: int, size: nat, n: nat): int {
    Min(StartIndex(page, size) + size - 1, n)
  }

  /** On a page in range the caption counts exactly the rows shown. */
  lemma CaptionMatchesPage<T>(s: seq<T>, page: int, size: nat)
    requires size > 0
    requires 1 <= page <= TotalPages(|s|, size)
    ensures EndIndex(page, size, |s|) - StartIndex(page, size) + 1 == |PageOf(s, page, size)|
    ensures 1 <= StartIndex(page, size) <= EndIndex(page, size, |s|) <= |s|
  {
    PageOfInRange(s, page, size);
  }

  /** The pager (previous / next buttons and "Página x de y") is rendered only when there is more than one page. */
  predicate PagerShown(total: nat) {
    total > 1
  }
}
