/** List operations the screens build their state changes from: the
    JavaScript `Array.prototype.filter` (also used for "remove the item at
    this index"), the select-or-deselect toggle, and client-side paging
    with `Math.ceil` and `slice`. */
module Lists {

  /** `a` is obtained from `b` by deleting elements, keeping the order of
      the rest. */
  ghost predicate IsSubsequence<T>(a: seq<T>, b: seq<T>)
    decreases |b|
  {
    |a| == 0 ||
    (|b| > 0 && ((a[0] == b[0] && IsSubsequence(a[1..], b[1..])) || IsSubsequence(a, b[1..])))
  }

  /** Deleting from a deletion is a deletion. */
  lemma {:induction false} SubsequenceTransitive<T>(a: seq<T>, b: seq<T>, c: seq<T>)
    requires IsSubsequence(a, b) && IsSubsequence(b, c)
    ensures IsSubsequence(a, c)
    decreases |c|
  {
    if |a| > 0 {
      if b[0] == c[0] && IsSubsequence(b[1..], c[1..]) {
        if a[0] == b[0] && IsSubsequence(a[1..], b[1..]) {
          SubsequenceTransitive(a[1..], b[1..], c[1..]);
        } else {
          SubsequenceTransitive(a, b[1..], c[1..]);
        }
      } else {
        SubsequenceTransitive(a, b, c[1..]);
      }
    }
  }

  /** Every list is a subsequence of itself. */
  lemma {:induction false} SubsequenceReflexive<T>(a: seq<T>)
    ensures IsSubsequence(a, a)
    decreases |a|
  {
    if |a| > 0 {
      SubsequenceReflexive(a[1..]);
    }
  }

  /** A subsequence is no longer than its source and holds no element the
      source does not hold, each no more often. */
  lemma {:induction false} SubsequenceContents<T>(a: seq<T>, b: seq<T>)
    requires IsSubsequence(a, b)
    ensures |a| <= |b|
    ensures multiset(a) <= multiset(b)
    ensures forall x :: x in a ==> x in b
    decreases |b|
  {
    if |a| > 0 {
      if a[0] == b[0] && IsSubsequence(a[1..], b[1..]) {
        SubsequenceContents(a[1..], b[1..]);
        assert a == [a[0]] + a[1..];
        assert b == [b[0]] + b[1..];
      } else {
        SubsequenceContents(a, b[1..]);
        assert b == [b[0]] + b[1..];
      }
    }
  }

  /** `s.filter(p)`: the elements of `s` that satisfy `p`, in their order. */
  function Filter<T>(s: seq<T>, p: T -> bool): (r: seq<T>)
    ensures IsSubsequence(r, s)
    ensures forall k :: 0 <= k < |r| ==> p(r[k]) && r[k] in s
    ensures forall k :: 0 <= k < |s| && p(s[k]) ==> s[k] in r
    ensures |r| <= |s|
  {
    if |s| == 0 then []
    else if p(s[0]) then [s[0]] + Filter(s[1..], p)
    else Filter(s[1..], p)
  }

  /** Filtering distributes over concatenation. */
  lemma {:induction false} FilterAppend<T>(a: seq<T>, b: seq<T>, p: T -> bool)
    ensures Filter(a + b, p) == Filter(a, p) + Filter(b, p)
    decreases |a|
  {
    if |a| > 0 {
      assert (a + b)[1..] == a[1..] + b;
      FilterAppend(a[1..], b, p);
    } else {
      assert a + b == b;
    }
  }

  /** Filtering with a test every element passes changes nothing. */
  lemma {:induction false} FilterKeepsAll<T>(s: seq<T>, p: T -> bool)
    requires forall x :: x in s ==> p(x)
    ensures Filter(s, p) == s
    decreases |s|
  {
    if |s| > 0 {
      FilterKeepsAll(s[1..], p);
    }
  }

  /** Filtering by a test no element passes leaves nothing. */
  lemma {:induction false} FilterNone<T>(s: seq<T>, p: T -> bool)
    requires forall x :: x in s ==> !p(x)
    ensures Filter(s, p) == []
    decreases |s|
  {
    if |s| > 0 {
      assert s[0] in s;
      FilterNone(s[1..], p);
    }
  }

  /** Two filters in a row are one filter with both tests. */
  lemma {:induction false} FilterFilter<T>(s: seq<T>, p: T -> bool, q: T -> bool, both: T -> bool)
    requires forall x :: both(x) == (p(x) && q(x))
    ensures Filter(Filter(s, p), q) == Filter(s, both)
    decreases |s|
  {
    if |s| > 0 {
      FilterFilter(s[1..], p, q, both);
    }
  }

  /** Two tests that never agree on an element of `s` split it: every
      element passes exactly one of them, as often as it occurs. */
  lemma {:induction false} FilterPartition<T>(s: seq<T>, p: T -> bool, q: T -> bool)
    requires forall k :: 0 <= k < |s| ==> p(s[k]) != q(s[k])
    ensures multiset(Filter(s, p)) + multiset(Filter(s, q)) == multiset(s)
    decreases |s|
  {
    if |s| > 0 {
      var x, rest := s[0], s[1..];
      assert forall k :: 0 <= k < |rest| ==> rest[k] == s[k + 1];
      FilterPartition(rest, p, q);
      assert s == [x] + rest;
      var a, b := Filter(rest, p), Filter(rest, q);
      ConsMultisets(x, a, b, rest);
      if p(x) {
        assert Filter(s, p) == [x] + a && Filter(s, q) == b;
      } else {
        assert Filter(s, p) == a && Filter(s, q) == [x] + b;
      }
    }
  }

  /** Putting one more element in front of either part of a split puts it
      in front of the whole. */
  lemma ConsMultisets<T>(x: T, a: seq<T>, b: seq<T>, r: seq<T>)
    requires multiset(a) + multiset(b) == multiset(r)
    ensures multiset([x] + a) + multiset(b) == multiset([x] + r)
    ensures multiset(a) + multiset([x] + b) == multiset([x] + r)
  {
    assert multiset([x] + a) == multiset{x} + multiset(a);
    assert multiset([x] + b) == multiset{x} + multiset(b);
    assert multiset([x] + r) == multiset{x} + multiset(r);
  }

  /** A stricter test keeps a subsequence of what a looser test keeps. */
  lemma {:induction false} FilterMonotone<T>(s: seq<T>, p: T -> bool, q: T -> bool)
    requires forall x :: p(x) ==> q(x)
    ensures IsSubsequence(Filter(s, p), Filter(s, q))
    decreases |s|
  {
    if |s| > 0 {
      FilterMonotone(s[1..], p, q);
      var a, b := Filter(s, p), Filter(s, q);
      if p(s[0]) {
        assert a[1..] == Filter(s[1..], p) && b[1..] == Filter(s[1..], q);
      } else if q(s[0]) {
        assert b[1..] == Filter(s[1..], q);
      }
    }
  }

  /** The number of elements of `s` that pass `p`. */
  function Count<T>(s: seq<T>, p: T -> bool): nat
  {
    if |s| == 0 then 0 else (if p(s[0]) then 1 else 0) + Count(s[1..], p)
  }

  /** Filtering keeps exactly the passing elements, counted with multiplicity. */
  lemma {:induction false} FilterLength<T>(s: seq<T>, p: T -> bool)
    ensures |Filter(s, p)| == Count(s, p)
    decreases |s|
  {
    if |s| > 0 {
      FilterLength(s[1..], p);
    }
  }

  /** No element occurs twice. */
  predicate NoDuplicates<T(==)>(s: seq<T>)
  {
    forall i, j :: 0 <= i < j < |s| ==> s[i] != s[j]
  }

  /** In a list without duplicates every element occurs at most once. */
  lemma {:induction false} NoDuplicatesMultiplicity<T>(s: seq<T>, x: T)
    requires NoDuplicates(s)
    ensures multiset(s)[x] <= 1
    ensures x in s ==> multiset(s)[x] == 1
    decreases |s|
  {
    if |s| > 0 {
      NoDuplicatesMultiplicity(s[1..], x);
      assert s == [s[0]] + s[1..];
      if s[0] == x {
        assert x !in s[1..] by {
          forall k | 0 <= k < |s[1..]| ensures s[1..][k] != x {
            assert s[1..][k] == s[k + 1];
          }
        }
      }
    }
  }

  /** A subsequence of a list without duplicates has none either. */
  lemma {:induction false} SubsequenceNoDuplicates<T>(a: seq<T>, b: seq<T>)
    requires IsSubsequence(a, b) && NoDuplicates(b)
    ensures NoDuplicates(a)
    decreases |b|
  {
    if |a| > 0 {
      if a[0] == b[0] && IsSubsequence(a[1..], b[1..]) {
        SubsequenceNoDuplicates(a[1..], b[1..]);
        SubsequenceContents(a[1..], b[1..]);
        assert b[0] !in b[1..] by {
          forall k | 0 <= k < |b[1..]| ensures b[1..][k] != b[0] {
            assert b[1..][k] == b[k + 1];
          }
        }
        forall i, j | 0 <= i < j < |a| ensures a[i] != a[j] {
          if i == 0 {
            assert a[j] == a[1..][j - 1];
            assert a[j] in b[1..];
          } else {
            assert a[i] == a[1..][i - 1] && a[j] == a[1..][j - 1];
          }
        }
      } else {
        SubsequenceNoDuplicates(a, b[1..]);
      }
    }
  }

  /** `s.filter(y => y !== x)`: every occurrence of `x` removed. */
  function RemoveAll<T(==)>(s: seq<T>, x: T): (r: seq<T>)
    ensures x !in r
    ensures IsSubsequence(r, s)
    ensures forall k :: 0 <= k < |r| ==> r[k] in s
    ensures forall k :: 0 <= k < |s| && s[k] != x ==> s[k] in r
  {
    Filter(s, y => y != x)
  }

  /** Removing every `x` removes exactly the copies of `x`. */
  lemma {:induction false} RemoveAllMultiset<T>(s: seq<T>, x: T)
    ensures multiset(RemoveAll(s, x)) == multiset(s)[x := 0]
    decreases |s|
  {
    if |s| > 0 {
      RemoveAllMultiset(s[1..], x);
      assert s == [s[0]] + s[1..];
      if s[0] != x {
        assert RemoveAll(s, x) == [s[0]] + RemoveAll(s[1..], x);
      }
    }
  }

  /** Removing every `x` from a list that already ends in something else
      and does not contain `x` returns it unchanged; appending `x` and then
      removing every `x` gives the list back. */
  lemma RemoveAllAfterAppend<T>(s: seq<T>, x: T)
    requires x !in s
    ensures RemoveAll(s + [x], x) == s
  {
    FilterAppend(s, [x], y => y != x);
    FilterKeepsAll(s, y => y != x);
  }

  /** `s.filter((_, k) => k !== i)`: the list without its element at index
      `i`; an index outside the list removes nothing. */
  function RemoveAt<T>(s: seq<T>, i: int): (r: seq<T>)
    ensures 0 <= i < |s| ==> |r| == |s| - 1
    ensures 0 <= i < |s| ==> forall k :: 0 <= k < i ==> r[k] == s[k]
    ensures 0 <= i < |s| ==> forall k :: i <= k < |r| ==> r[k] == s[k + 1]
    ensures !(0 <= i < |s|) ==> r == s
  {
    if 0 <= i < |s| then s[..i] + s[i + 1..] else s
  }

  /** Removing one element leaves a subsequence. */
  lemma RemoveAtIsSubsequence<T>(s: seq<T>, i: int)
    ensures IsSubsequence(RemoveAt(s, i), s)
  {
    if 0 <= i < |s| {
      assert s == s[..i] + [s[i]] + s[i + 1..];
      SubsequenceDropOne(s[..i], s[i], s[i + 1..]);
    } else {
      SubsequenceReflexive(s);
    }
  }

  /** `a + c` is a subsequence of `a + [x] + c`. */
  lemma {:induction false} SubsequenceDropOne<T>(a: seq<T>, x: T, c: seq<T>)
    ensures IsSubsequence(a + c, a + [x] + c)
    decreases |a|
  {
    if |a| > 0 {
      SubsequenceDropOne(a[1..], x, c);
      assert (a + c)[1..] == a[1..] + c;
      assert (a + [x] + c)[1..] == a[1..] + [x] + c;
    } else {
      assert a + c == c;
      assert a + [x] + c == [x] + c;
      assert ([x] + c)[1..] == c;
      SubsequenceReflexive(c);
    }
  }

  /** Select-or-deselect: drop `x` when it is present, else append it. */
  function Toggle<T(==)>(s: seq<T>, x: T): (r: seq<T>)
    ensures x in r <==> x !in s
    ensures forall k :: 0 <= k < |r| && r[k] != x ==> r[k] in s
    ensures forall k :: 0 <= k < |s| && s[k] != x ==> s[k] in r
  {
    if x in s then RemoveAll(s, x) else s + [x]
  }

  /** Toggling keeps a list free of duplicates. */
  lemma ToggleNoDuplicates<T>(s: seq<T>, x: T)
    requires NoDuplicates(s)
    ensures NoDuplicates(Toggle(s, x))
  {
    if x in s {
      SubsequenceNoDuplicates(RemoveAll(s, x), s);
    }
  }

  /** Toggling an absent element twice gives back the same list. */
  lemma ToggleTwiceAbsent<T>(s: seq<T>, x: T)
    requires x !in s
    ensures Toggle(Toggle(s, x), x) == s
  {
    RemoveAllAfterAppend(s, x);
  }

  /** Toggling a present element twice gives back the same elements, each
      as often as before, with `x` moved to the end. */
  lemma ToggleTwicePresent<T>(s: seq<T>, x: T)
    requires x in s && NoDuplicates(s)
    ensures multiset(Toggle(Toggle(s, x), x)) == multiset(s)
    ensures Toggle(Toggle(s, x), x) == RemoveAll(s, x) + [x]
  {
    RemoveAllMultiset(s, x);
    NoDuplicatesMultiplicity(s, x);
  }

  /** `Math.ceil(n / perPage)`: the number of pages of `perPage` items
      needed for `n` items. */
  function PageCount(n: nat, perPage: nat): (c: nat)
    requires perPage > 0
    ensures c * perPage >= n
    ensures c > 0 ==> (c - 1) * perPage < n
  {
    var c := (n + perPage - 1) / perPage;
    assert c * perPage + (n + perPage - 1) % perPage == n + perPage - 1;
    assert (c - 1) * perPage == c * perPage - perPage;
    c
  }

  /** `s.slice(page * perPage, page * perPage + perPage)`. */
  function PageSlice<T>(s: seq<T>, page: nat, perPage: nat): (r: seq<T>)
    ensures |r| <= perPage
    ensures forall k :: 0 <= k < |r| ==> page * perPage + k < |s| && r[k] == s[page * perPage + k]
    ensures page * perPage < |s| ==> |r| == if |s| - page * perPage < perPage then |s| - page * perPage else perPage
  {
    var start := page * perPage;
    var end := start + perPage;
    if start >= |s| then [] else s[start..if end <= |s| then end else |s|]
  }

  /** Every page before the page count holds at least one item. */
  lemma PageBeforeCountIsNonEmpty<T>(s: seq<T>, page: nat, perPage: nat)
    requires perPage > 0 && page < PageCount(|s|, perPage)
    ensures |PageSlice(s, page, perPage)| > 0
  {
    var c := PageCount(|s|, perPage);
    MultiplyMonotone(page, c - 1, perPage);
  }

  /** No page at or after the page count holds an item. */
  lemma PageAfterCountIsEmpty<T>(s: seq<T>, page: nat, perPage: nat)
    requires perPage > 0 && page >= PageCount(|s|, perPage)
    ensures PageSlice(s, page, perPage) == []
  {
    MultiplyMonotone(PageCount(|s|, perPage), page, perPage);
  }

  /** Item `k` is shown on page `k / perPage`, at row `k % perPage`. */
  lemma PageHoldsItem<T>(s: seq<T>, k: nat, perPage: nat)
    requires perPage > 0 && k < |s|
    ensures k / perPage < PageCount(|s|, perPage)
    ensures k % perPage < |PageSlice(s, k / perPage, perPage)|
    ensures PageSlice(s, k / perPage, perPage)[k % perPage] == s[k]
  {
    var page := k / perPage;
    assert page * perPage + k % perPage == k;
    var c := PageCount(|s|, perPage);
    if page >= c {
      MultiplyMonotone(c, page, perPage);
    }
  }

  /** The rows a table shows on page `page`: a slice of at most `perPage`
      rows, non-empty exactly on the pages before the page count. */
  function PageItems<T>(s: seq<T>, page: nat, perPage: nat): (r: seq<T>)
    requires perPage > 0
    ensures r == PageSlice(s, page, perPage)
    ensures |r| <= perPage
    ensures |r| > 0 <==> page < PageCount(|s|, perPage)
    ensures forall x :: x in r ==> x in s
  {
    if page < PageCount(|s|, perPage) then
      PageBeforeCountIsNonEmpty(s, page, perPage);
      PageSlice(s, page, perPage)
    else
      PageAfterCountIsEmpty(s, page, perPage);
      PageSlice(s, page, perPage)
  }

  lemma MultiplyMonotone(a: nat, b: nat, m: nat)
    requires a <= b
    ensures a * m <= b * m
  {
    assert b * m == a * m + (b - a) * m;
  }
}
