/**
 * Array operations the list pages build on: `filter`, the language's stable
 * `sort` with a comparator returning a negative, zero or positive number,
 * `slice` for the visible page, and the asc/desc state of a sortable header.
 */
module ListOps {

  // ---------------------------------------------------------------------------
  // filter

  /** `s.filter(keep)`. */
  function Filter<T>(s: seq<T>, keep: T -> bool): (r: seq<T>)
    ensures |r| <= |s|
    ensures forall x :: x in r ==> x in s && keep(x)
    decreases |s|
  {
    if s == [] then []
    else if keep(s[0]) then [s[0]] + Filter(s[1..], keep)
    else Filter(s[1..], keep)
  }

  /** Filtering a list with one more element at the end. */
  lemma {:induction false} FilterSnoc<T>(s: seq<T>, x: T, keep: T -> bool)
    ensures Filter(s + [x], keep) == Filter(s, keep) + (if keep(x) then [x] else [])
    decreases |s|
  {
    if s != [] {
      assert (s + [x])[1..] == s[1..] + [x];
      FilterSnoc(s[1..], x, keep);
    }
  }

  /** `r` is `s` with some elements left out, the rest in their original order. */
  predicate IsSubsequence<T(==)>(r: seq<T>, s: seq<T>)
    decreases |s|
  {
    r == [] || (s != [] && ((r[0] == s[0] && IsSubsequence(r[1..], s[1..])) || IsSubsequence(r, s[1..])))
  }

  /** The filtered list keeps exactly the elements that pass, in input order. */
  lemma {:induction false} FilterSpec<T>(s: seq<T>, keep: T -> bool)
    ensures IsSubsequence(Filter(s, keep), s)
    ensures forall x :: x in Filter(s, keep) <==> x in s && keep(x)
    decreases |s|
  {
    if s != [] {
      FilterSpec(s[1..], keep);
      assert s == [s[0]] + s[1..];
      var r := Filter(s, keep);
      if keep(s[0]) {
        assert r[1..] == Filter(s[1..], keep);
      }
    }
  }

  /** When every element passes, the filter returns its input unchanged. */
  lemma {:induction false} FilterAll<T>(s: seq<T>, keep: T -> bool)
    requires forall x :: x in s ==> keep(x)
    ensures Filter(s, keep) == s
    decreases |s|
  {
    if s != [] {
      FilterAll(s[1..], keep);
    }
  }

  /** Filtering twice with the same test changes nothing the second time. */
  lemma {:induction false} FilterIdempotent<T>(s: seq<T>, keep: T -> bool)
    ensures Filter(Filter(s, keep), keep) == Filter(s, keep)
  {
    FilterAll(Filter(s, keep), keep);
  }

  /** A weaker test keeps a list that contains everything the stronger one keeps, in the same order. */
  lemma {:induction false} FilterMonotone<T>(s: seq<T>, strong: T -> bool, weak: T -> bool)
    requires forall x :: x in s && strong(x) ==> weak(x)
    ensures IsSubsequence(Filter(s, strong), Filter(s, weak))
    decreases |s|
  {
    if s != [] {
      FilterMonotone(s[1..], strong, weak);
      var a, b := Filter(s, strong), Filter(s, weak);
      if strong(s[0]) {
        assert a[0] == b[0] && a[1..] == Filter(s[1..], strong) && b[1..] == Filter(s[1..], weak);
      } else if weak(s[0]) {
        assert b[1..] == Filter(s[1..], weak);
        SubsequenceOfTail(a, b);
      }
    }
  }

  /** Two tests that agree on every element of the list keep the same elements. */
  lemma {:induction false} FilterSameTest<T>(s: seq<T>, keep: T -> bool, keep': T -> bool)
    requires forall x :: x in s ==> keep(x) == keep'(x)
    ensures Filter(s, keep) == Filter(s, keep')
    decreases |s|
  {
    if s != [] {
      FilterSameTest(s[1..], keep, keep');
    }
  }

  lemma {:induction false} SubsequenceOfTail<T>(r: seq<T>, s: seq<T>)
    requires s != [] && IsSubsequence(r, s[1..])
    ensures IsSubsequence(r, s)
  {
  }

  /** A test no element passes leaves nothing. */
  lemma {:induction false} FilterNone<T>(s: seq<T>, keep: T -> bool)
    requires forall x :: x in s ==> !keep(x)
    ensures Filter(s, keep) == []
    decreases |s|
  {
    if s != [] {
      FilterNone(s[1..], keep);
    }
  }

  // ---------------------------------------------------------------------------
  // duplicates

  /** No value occurs twice, as in a list built from a `Set`. */
  predicate Distinct<T(==)>(s: seq<T>) {
    forall i, j :: 0 <= i < j < |s| ==> s[i] != s[j]
  }

  /** A list is duplicate-free exactly when every value occurs in it at most once. */
  lemma {:induction false} DistinctCounts<T>(s: seq<T>)
    ensures Distinct(s) <==> forall x :: multiset(s)[x] <= 1
    decreases |s|
  {
    if s != [] {
      DistinctCounts(s[1..]);
      assert s == [s[0]] + s[1..];
      assert multiset(s) == multiset{s[0]} + multiset(s[1..]);
      if Distinct(s) {
        assert Distinct(s[1..]) by {
          forall i, j | 0 <= i < j < |s[1..]| ensures s[1..][i] != s[1..][j] {
            assert s[1..][i] == s[i + 1] && s[1..][j] == s[j + 1];
          }
        }
        assert s[0] !in s[1..] by {
          forall k | 0 <= k < |s[1..]| ensures s[1..][k] != s[0] {
            assert s[1..][k] == s[k + 1];
          }
        }
      }
      if forall x :: multiset(s)[x] <= 1 {
        assert forall x :: multiset(s[1..])[x] <= 1 by {
          forall x ensures multiset(s[1..])[x] <= 1 {
            assert multiset(s)[x] >= multiset(s[1..])[x];
          }
        }
        assert multiset(s)[s[0]] == 1 + multiset(s[1..])[s[0]];
        assert multiset(s[1..])[s[0]] == 0;
        forall i, j | 0 <= i < j < |s| ensures s[i] != s[j] {
          if i == 0 {
            assert s[j] == s[1..][j - 1];
            assert s[j] in multiset(s[1..]);
          } else {
            assert s[i] == s[1..][i - 1] && s[j] == s[1..][j - 1];
          }
        }
      }
    }
  }

  /** Rearranging a duplicate-free list keeps it duplicate-free. */
  lemma DistinctPermutation<T>(s: seq<T>, t: seq<T>)
    requires Distinct(s) && multiset(s) == multiset(t)
    ensures Distinct(t)
  {
    DistinctCounts(s);
    DistinctCounts(t);
  }

  /** Keeping some elements of a duplicate-free list keeps it duplicate-free. */
  lemma {:induction false} FilterDistinct<T>(s: seq<T>, keep: T -> bool)
    requires Distinct(s)
    ensures Distinct(Filter(s, keep))
    decreases |s|
  {
    if s != [] {
      assert Distinct(s[1..]) by {
        forall i, j | 0 <= i < j < |s[1..]| ensures s[1..][i] != s[1..][j] {
          assert s[1..][i] == s[i + 1] && s[1..][j] == s[j + 1];
        }
      }
      FilterDistinct(s[1..], keep);
      if keep(s[0]) {
        var r := Filter(s, keep);
        var t := Filter(s[1..], keep);
        assert r == [s[0]] + t;
        assert s[0] !in s[1..] by {
          forall k | 0 <= k < |s[1..]| ensures s[1..][k] != s[0] {
            assert s[1..][k] == s[k + 1];
          }
        }
        forall i, j | 0 <= i < j < |r| ensures r[i] != r[j] {
          if i == 0 {
            assert r[j] == t[j - 1] && r[j] in t;
          } else {
            assert r[i] == t[i - 1] && r[j] == t[j - 1];
          }
        }
      }
    }
  }

  // ---------------------------------------------------------------------------
  // sort

  /**
   * Insertion into an already sorted list: `x` goes in front of the first
   * element that the comparator puts after it, so it stays behind every
   * element it ties with (the sort is stable).
   */
  function Insert<T>(x: T, s: seq<T>, cmp: (T, T) -> int): (r: seq<T>)
    ensures multiset(r) == multiset(s) + multiset{x}
    ensures |r| == |s| + 1
    decreases |s|
  {
    if s == [] then [x]
    else if cmp(s[0], x) > 0 then [x] + s
    else
      assert s == [s[0]] + s[1..];
      [s[0]] + Insert(x, s[1..], cmp)
  }

  /** `[...s].sort(cmp)`: a stable sort that leaves its argument alone. */
  function Sort<T>(s: seq<T>, cmp: (T, T) -> int): (r: seq<T>)
    ensures multiset(r) == multiset(s)
    ensures |r| == |s|
    decreases |s|
  {
    if s == [] then []
    else
      assert s == s[..|s| - 1] + [s[|s| - 1]];
      Insert(s[|s| - 1], Sort(s[..|s| - 1], cmp), cmp)
  }

  /** Every element of the sorted copy comes from the input. */
  lemma SortMembers<T>(s: seq<T>, cmp: (T, T) -> int)
    ensures forall x :: x in Sort(s, cmp) ==> x in s
  {
    var r := Sort(s, cmp);
    forall x | x in r ensures x in s {
      assert x in multiset(r);
    }
  }

  /** The comparator describes a total preorder: its sign flips with its arguments, and "not after" is transitive. */
  ghost predicate Consistent<T(!new)>(cmp: (T, T) -> int) {
    && (forall a, b :: cmp(a, b) > 0 <==> cmp(b, a) < 0)
    && (forall a, b, c :: cmp(a, b) <= 0 && cmp(b, c) <= 0 ==> cmp(a, c) <= 0)
  }

  predicate Sorted<T>(s: seq<T>, cmp: (T, T) -> int) {
    forall i, j :: 0 <= i < j < |s| ==> cmp(s[i], s[j]) <= 0
  }

  lemma {:induction false} InsertSorted<T(!new)>(x: T, s: seq<T>, cmp: (T, T) -> int)
    requires Consistent(cmp) && Sorted(s, cmp)
    ensures Sorted(Insert(x, s, cmp), cmp)
    decreases |s|
  {
    var r := Insert(x, s, cmp);
    if s == [] {
    } else if cmp(s[0], x) > 0 {
      assert cmp(x, s[0]) < 0;
      forall i, j | 0 <= i < j < |r| ensures cmp(r[i], r[j]) <= 0 {
        if i == 0 && j > 1 {
          assert cmp(x, s[0]) <= 0 && cmp(s[0], s[j - 1]) <= 0;
        }
      }
    } else {
      InsertSorted(x, s[1..], cmp);
      var t := Insert(x, s[1..], cmp);
      assert r == [s[0]] + t;
      forall j | 0 <= j < |t| ensures cmp(s[0], t[j]) <= 0 {
        assert t[j] in multiset(t);
        assert t[j] == x || t[j] in s[1..];
      }
    }
  }

  /** With a consistent comparator the result is ordered and is a permutation of the input. */
  lemma {:induction false} SortSorted<T(!new)>(s: seq<T>, cmp: (T, T) -> int)
    requires Consistent(cmp)
    ensures Sorted(Sort(s, cmp), cmp)
    ensures multiset(Sort(s, cmp)) == multiset(s)
    decreases |s|
  {
    if s != [] {
      SortSorted(s[..|s| - 1], cmp);
      InsertSorted(s[|s| - 1], Sort(s[..|s| - 1], cmp), cmp);
    }
  }

  /** The comparator used by the security list pages: `-1` / `1` / `0` from a strict "less". */
  function CmpByLess<T>(less: (T, T) -> bool, descending: bool): (T, T) -> int {
    (a: T, b: T) =>
      if less(a, b) then (if descending then 1 else -1)
      else if less(b, a) then (if descending then -1 else 1)
      else 0
  }

  ghost predicate StrictWeakOrder<T(!new)>(less: (T, T) -> bool) {
    && (forall a :: !less(a, a))
    && (forall a, b, c :: less(a, b) && less(b, c) ==> less(a, c))
    && (forall a, b, c :: less(a, b) ==> less(a, c) || less(c, b))
  }

  /** A strict weak order gives a consistent comparator, in either direction. */
  lemma CmpByLessConsistent<T(!new)>(less: (T, T) -> bool, descending: bool)
    requires StrictWeakOrder(less)
    ensures Consistent(CmpByLess(less, descending))
  {
    var cmp := CmpByLess(less, descending);
    forall a, b, c | cmp(a, b) <= 0 && cmp(b, c) <= 0 ensures cmp(a, c) <= 0 {
      if descending {
        assert !less(a, b) && !less(b, c);
      } else {
        assert !less(b, a) && !less(c, b);
      }
    }
  }

  // ---------------------------------------------------------------------------
  // slice and page state

  /** `s.slice(start, end)` with the language's clamping of out-of-range bounds. */
  function Slice<T>(s: seq<T>, start: nat, end: nat): (r: seq<T>)
    ensures |r| <= |s|
    ensures end <= start ==> r == []
  {
    var lo := if start <= |s| then start else |s|;
    var hi := if end <= |s| then end else |s|;
    if lo < hi then s[lo..hi] else []
  }

  /** The rows shown on page `page` when `rowsPerPage` rows fit on a page. */
  function PageOf<T>(s: seq<T>, page: nat, rowsPerPage: nat): seq<T> {
    Slice(s, page * rowsPerPage, page * rowsPerPage + rowsPerPage)
  }

  /** A page never shows more than `rowsPerPage` rows, and each row is the one at its global index. */
  lemma PageOfSpec<T>(s: seq<T>, page: nat, rowsPerPage: nat)
    ensures |PageOf(s, page, rowsPerPage)| <= rowsPerPage
    ensures forall k :: 0 <= k < |PageOf(s, page, rowsPerPage)| ==>
      page * rowsPerPage + k < |s| && PageOf(s, page, rowsPerPage)[k] == s[page * rowsPerPage + k]
    ensures page * rowsPerPage + rowsPerPage <= |s| ==> |PageOf(s, page, rowsPerPage)| == rowsPerPage
  {
  }

  /** The consecutive pages of a list, laid end to end, give back the list. */
  lemma {:induction false} PagesCover<T>(s: seq<T>, rowsPerPage: nat, pages: nat)
    requires rowsPerPage > 0
    ensures Concat(s, rowsPerPage, pages) == s[..if pages * rowsPerPage <= |s| then pages * rowsPerPage else |s|]
  {
    if pages > 0 {
      PagesCover(s, rowsPerPage, pages - 1);
      var lo := (pages - 1) * rowsPerPage;
      var hi := pages * rowsPerPage;
      assert hi == lo + rowsPerPage;
      var page := PageOf(s, pages - 1, rowsPerPage);
      assert page == Slice(s, lo, hi);
      var before := Concat(s, rowsPerPage, pages - 1);
      assert Concat(s, rowsPerPage, pages) == before + page;
      if lo >= |s| {
        assert page == [];
      } else if hi <= |s| {
        assert before == s[..lo] && page == s[lo..hi];
        assert s[..lo] + s[lo..hi] == s[..hi];
      } else {
        assert before == s[..lo] && page == s[lo..|s|];
        assert s[..lo] + s[lo..|s|] == s[..|s|];
      }
    }
  }

  function Concat<T>(s: seq<T>, rowsPerPage: nat, pages: nat): seq<T> {
    if pages == 0 then [] else Concat(s, rowsPerPage, pages - 1) + PageOf(s, pages - 1, rowsPerPage)
  }

  datatype Direction = Asc | Desc

  /** Clicking a header: the current column flips its direction, another column starts ascending. */
  function ToggleSort<F(==)>(field: F, order: Direction, clicked: F): (r: (F, Direction))
    ensures r.0 == clicked
    ensures r.1 == Desc <==> clicked == field && order == Asc
  {
    if field == clicked then (clicked, if order == Asc then Desc else Asc) else (clicked, Asc)
  }

  /** Clicking the same header twice restores the direction. */
  lemma ToggleSortTwice<F>(field: F, order: Direction)
    ensures var (f, o) := ToggleSort(field, order, field); ToggleSort(f, o, field) == (field, order)
  {
  }

  // ---------------------------------------------------------------------------
  // comparing by a key

  /** `(a, b) => cmp(key(a), key(b))`. */
  function On<T, K>(cmp: (K, K) -> int, key: T -> K): (T, T) -> int {
    (a: T, b: T) => cmp(key(a), key(b))
  }

  /** Comparing by a key under a consistent comparator is consistent. */
  lemma OnConsistent<T(!new), K(!new)>(cmp: (K, K) -> int, key: T -> K)
    requires Consistent(cmp)
    ensures Consistent(On(cmp, key))
  {
    var c := On(cmp, key);
    forall a, b ensures c(a, b) > 0 <==> c(b, a) < 0 {
      assert c(a, b) == cmp(key(a), key(b));
    }
    forall a, b, d | c(a, b) <= 0 && c(b, d) <= 0 ensures c(a, d) <= 0 {
      assert cmp(key(a), key(b)) <= 0 && cmp(key(b), key(d)) <= 0;
    }
  }
}
