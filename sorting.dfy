/** `sort.Slice` followed by `s[:k]`, the one ordering idiom of the program:
    the library is stood for by an insertion sort whose contract is the
    library's (an ordered permutation), and the truncation by a function
    whose result is characterised by `IsTop`. */
module Sorting {

  /** `ge(a, b)` reads "a may come before b": the negation of the strict
      `less(b, a)` handed to `sort.Slice`. */
  ghost predicate TotalPreorder<T(!new)>(ge: (T, T) -> bool)
  {
    && (forall x, y :: ge(x, y) || ge(y, x))
    && (forall x, y, z :: ge(x, y) && ge(y, z) ==> ge(x, z))
  }

  ghost predicate SortedBy<T>(s: seq<T>, ge: (T, T) -> bool)
  {
    forall i, j :: 0 <= i < j < |s| ==> ge(s[i], s[j])
  }

  /** An element ranked at or above every element of a sorted sequence
      can go in front of it. */
  lemma SortedCons<T>(y: T, s: seq<T>, ge: (T, T) -> bool)
    requires SortedBy(s, ge)
    requires forall z :: z in s ==> ge(y, z)
    ensures SortedBy([y] + s, ge)
  {
    forall i, j | 0 <= i < j < |[y] + s| ensures ge(([y] + s)[i], ([y] + s)[j]) {
      if i > 0 { assert ([y] + s)[i] == s[i - 1]; }
      assert ([y] + s)[j] == s[j - 1];
    }
  }

  function Insert<T(!new)>(x: T, s: seq<T>, ge: (T, T) -> bool): (r: seq<T>)
    requires TotalPreorder(ge) && SortedBy(s, ge)
    ensures SortedBy(r, ge)
    ensures multiset(r) == multiset(s) + multiset{x}
  {
    if s == [] then [x]
    else if ge(x, s[0]) then
      assert forall z :: z in s ==> ge(x, z) by {
        forall z | z in s ensures ge(x, z) {
          var j :| 0 <= j < |s| && s[j] == z;
          if j > 0 { assert ge(s[0], s[j]); }
        }
      }
      SortedCons(x, s, ge);
      [x] + s
    else
      var rest := Insert(x, s[1..], ge);
      assert s == [s[0]] + s[1..];
      assert forall z :: z in rest ==> ge(s[0], z) by {
        forall z | z in rest ensures ge(s[0], z) {
          assert z in multiset(rest);
          if z != x {
            var j :| 0 <= j < |s[1..]| && s[1..][j] == z;
            assert s[j + 1] == z;
          }
        }
      }
      SortedCons(s[0], rest, ge);
      [s[0]] + rest
  }

  /** The library sort: an ordered permutation of its input. */
  function Sort<T(!new)>(s: seq<T>, ge: (T, T) -> bool): (r: seq<T>)
    requires TotalPreorder(ge)
    ensures SortedBy(r, ge)
    ensures multiset(r) == multiset(s)
  {
    if s == [] then []
    else
      assert s == [s[0]] + s[1..];
      Insert(s[0], Sort(s[1..], ge), ge)
  }

  /** The bound applied by `if k > 0 && len(s) > k { s = s[:k] }`. */
  function Bound(k: int, n: nat): nat
  {
    if 0 < k < n then k else n
  }

  function Truncate<T>(s: seq<T>, k: int): (r: seq<T>)
    ensures |r| == Bound(k, |s|)
    ensures r == s[..|r|]
  {
    if k > 0 && |s| > k then s[..k] else s
  }

  /** `r` is a top-`k` selection from `pool` under `ge`: ordered, drawn
      from the pool, as long as the bound allows, and nothing left out of it
      ranks above anything in it. */
  ghost predicate IsTop<T>(r: seq<T>, pool: multiset<T>, k: int, ge: (T, T) -> bool)
  {
    && SortedBy(r, ge)
    && multiset(r) <= pool
    && |r| == Bound(k, |pool|)
    && (forall x, y :: x in pool - multiset(r) && y in r ==> ge(y, x))
  }

  /** A prefix of a sorted sequence is sorted. */
  lemma PrefixSorted<T>(s: seq<T>, n: nat, ge: (T, T) -> bool)
    requires SortedBy(s, ge) && n <= |s|
    ensures SortedBy(s[..n], ge)
  {
    forall i, j | 0 <= i < j < n ensures ge(s[..n][i], s[..n][j]) {
      assert s[..n][i] == s[i] && s[..n][j] == s[j];
    }
  }

  /** In a sorted sequence every element of a prefix ranks at or above
      every element after it. */
  lemma PrefixDominates<T>(s: seq<T>, n: nat, ge: (T, T) -> bool)
    requires SortedBy(s, ge) && n <= |s|
    ensures forall x, y :: x in multiset(s[n..]) && y in s[..n] ==> ge(y, x)
  {
    forall x, y | x in multiset(s[n..]) && y in s[..n] ensures ge(y, x) {
      assert x in s[n..];
      var j :| 0 <= j < |s[n..]| && s[n..][j] == x;
      var i :| 0 <= i < n && s[..n][i] == y;
      assert s[i] == y && s[n + j] == x;
    }
  }

  /** Sorting then truncating a sequence yields a top selection of it. */
  lemma SortTruncateIsTop<T(!new)>(s: seq<T>, k: int, ge: (T, T) -> bool)
    requires TotalPreorder(ge)
    ensures IsTop(Truncate(Sort(s, ge), k), multiset(s), k, ge)
  {
    var sorted := Sort(s, ge);
    var r := Truncate(sorted, k);
    var rest := sorted[|r|..];
    assert sorted == r + rest;
    assert multiset(s) - multiset(r) == multiset(rest) by {
      assert multiset(sorted) == multiset(r) + multiset(rest);
    }
    PrefixSorted(sorted, |r|, ge);
    PrefixDominates(sorted, |r|, ge);
  }

  /** Every element of a top selection comes from the pool. */
  lemma TopFromPool<T>(r: seq<T>, pool: multiset<T>, k: int, ge: (T, T) -> bool, x: T)
    requires IsTop(r, pool, k, ge) && x in r
    ensures x in pool
  {
    assert x in multiset(r);
  }

  /** A top-`k` selection that already holds `k` elements stays one when
      the pool grows by elements ranked below all of the old pool. */
  lemma TopExtends<T>(r: seq<T>, pool: multiset<T>, more: multiset<T>, k: int, ge: (T, T) -> bool)
    requires IsTop(r, pool, k, ge) && 0 < k <= |pool|
    requires forall x, y :: x in more && y in pool ==> ge(y, x)
    ensures IsTop(r, pool + more, k, ge)
  {
    forall x, y | x in pool + more - multiset(r) && y in r ensures ge(y, x) {
      assert y in multiset(r);
      if x !in more {
        assert x in pool - multiset(r);
      }
    }
  }

  /** The elements of `s` that satisfy `p`, in order (a loop that appends
      only what passes a test). */
  function Keep<T>(s: seq<T>, p: T -> bool): (r: seq<T>)
    ensures |r| <= |s|
    ensures forall x :: x in r ==> x in s && p(x)
  {
    if s == [] then []
    else Keep(s[..|s| - 1], p) + (if p(s[|s| - 1]) then [s[|s| - 1]] else [])
  }

  /** Keeping from a sequence extended by one element. */
  lemma KeepSnoc<T>(s: seq<T>, x: T, p: T -> bool)
    ensures Keep(s + [x], p) == Keep(s, p) + (if p(x) then [x] else [])
  {
    assert (s + [x])[..|s|] == s;
  }

  /** Keeping preserves the multiplicity of what passes and drops the rest. */
  lemma {:induction false} KeepCount<T>(s: seq<T>, p: T -> bool, x: T)
    ensures multiset(Keep(s, p))[x] == if p(x) then multiset(s)[x] else 0
  {
    if s != [] {
      KeepCount(s[..|s| - 1], p, x);
      assert s == s[..|s| - 1] + [s[|s| - 1]];
    }
  }

  /** Keeping preserves order. */
  lemma {:induction false} KeepSorted<T>(s: seq<T>, p: T -> bool, ge: (T, T) -> bool)
    requires SortedBy(s, ge)
    ensures SortedBy(Keep(s, p), ge)
  {
    if s != [] {
      var init, last := s[..|s| - 1], s[|s| - 1];
      assert SortedBy(init, ge) by {
        forall i, j | 0 <= i < j < |init| ensures ge(init[i], init[j]) { assert init[i] == s[i] && init[j] == s[j]; }
      }
      KeepSorted(init, p, ge);
      var k := Keep(init, p);
      if p(last) {
        forall i, j | 0 <= i < j < |k + [last]| ensures ge((k + [last])[i], (k + [last])[j]) {
          if j == |k| {
            assert k[i] in init;
            var m :| 0 <= m < |init| && init[m] == k[i];
            assert s[m] == k[i];
          }
        }
      }
    }
  }

  /** Two positions holding one value make its multiplicity at least two. */
  lemma Twice<T>(s: seq<T>, i: nat, j: nat)
    requires i < j < |s| && s[i] == s[j]
    ensures multiset(s)[s[i]] >= 2
  {
    assert s == s[..i] + [s[i]] + s[i + 1..j] + [s[j]] + s[j + 1..];
  }
}
