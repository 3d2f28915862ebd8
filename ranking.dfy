/**
  Ordering and ranking: Python's string order, the stable descending sort
  of `list.sort(reverse=True)` and `sorted(..., reverse=True)`, and the
  prefix `s[:k]` that keeps the best k entries.
*/
module Ranking {

  // ---------------------------------------------------------------------------
  // Python's order on strings: lexicographic by code point
  // ---------------------------------------------------------------------------

  predicate StrLess(a: string, b: string)
    decreases |a|
  {
    if a == [] then b != []
    else if b == [] then false
    else if a[0] != b[0] then a[0] < b[0]
    else StrLess(a[1..], b[1..])
  }

  lemma {:induction false} StrLessIrreflexive(a: string)
    ensures !StrLess(a, a)
    decreases |a|
  {
    if a != [] {
      StrLessIrreflexive(a[1..]);
    }
  }

  lemma {:induction false} StrLessAsymmetric(a: string, b: string)
    ensures !(StrLess(a, b) && StrLess(b, a))
    decreases |a|
  {
    if a != [] && b != [] && a[0] == b[0] {
      StrLessAsymmetric(a[1..], b[1..]);
    }
  }

  lemma {:induction false} StrLessTotal(a: string, b: string)
    ensures a == b || StrLess(a, b) || StrLess(b, a)
    decreases |a|
  {
    if a != [] && b != [] && a[0] == b[0] {
      StrLessTotal(a[1..], b[1..]);
      if a[1..] == b[1..] {
        assert a == [a[0]] + a[1..] && b == [b[0]] + b[1..];
      }
    }
  }

  lemma {:induction false} StrLessTransitive(a: string, b: string, c: string)
    requires StrLess(a, b) && StrLess(b, c)
    ensures StrLess(a, c)
    decreases |a|
  {
    if a != [] && a[0] == b[0] && b[0] == c[0] {
      StrLessTransitive(a[1..], b[1..], c[1..]);
    }
  }

  /** Python's `<` on strings is a strict total order. */
  lemma StrLessOrder()
    ensures forall a :: !StrLess(a, a)
    ensures forall a, b :: a == b || StrLess(a, b) || StrLess(b, a)
    ensures forall a, b :: !(StrLess(a, b) && StrLess(b, a))
    ensures forall a, b, c :: StrLess(a, b) && StrLess(b, c) ==> StrLess(a, c)
  {
    forall a { StrLessIrreflexive(a); }
    forall a, b ensures a == b || StrLess(a, b) || StrLess(b, a) { StrLessTotal(a, b); }
    forall a, b ensures !(StrLess(a, b) && StrLess(b, a)) { StrLessAsymmetric(a, b); }
    forall a, b, c | StrLess(a, b) && StrLess(b, c) { StrLessTransitive(a, b, c); }
  }

  // ---------------------------------------------------------------------------
  // Stable descending sort
  // ---------------------------------------------------------------------------

  /** `ge(a, b)`: `a` ranks at least as high as `b`. */
  ghost predicate TotalPreorder<T(!new)>(ge: (T, T) -> bool) {
    (forall a, b :: ge(a, b) || ge(b, a)) &&
    (forall a, b, c :: ge(a, b) && ge(b, c) ==> ge(a, c))
  }

  predicate SortedDesc<T>(s: seq<T>, ge: (T, T) -> bool) {
    forall i, j :: 0 <= i < j < |s| ==> ge(s[i], s[j])
  }

  /** The number of leading elements of `s` that rank at least as high as `x`. */
  function LeadCount<T>(x: T, s: seq<T>, ge: (T, T) -> bool): (m: nat)
    ensures m <= |s|
    ensures forall i :: 0 <= i < m ==> ge(s[i], x)
    ensures m < |s| ==> !ge(s[m], x)
  {
    if s == [] || !ge(s[0], x) then 0
    else
      var m := 1 + LeadCount(x, s[1..], ge);
      assert forall i :: 1 <= i < m ==> s[i] == s[1..][i - 1];
      m
  }

  /** `x` placed after the leading elements that rank at least as high,
      before the first one that ranks lower. */
  function Insert<T>(x: T, s: seq<T>, ge: (T, T) -> bool): seq<T> {
    var m := LeadCount(x, s, ge);
    s[..m] + [x] + s[m..]
  }

  /** The stable descending sort: each element, taken in order, goes after
      every element already placed that ranks at least as high. */
  function SortDesc<T>(s: seq<T>, ge: (T, T) -> bool): (r: seq<T>)
    ensures |r| == |s|
  {
    if s == [] then [] else Insert(s[|s| - 1], SortDesc(s[..|s| - 1], ge), ge)
  }

  lemma InsertPermutation<T>(x: T, s: seq<T>, ge: (T, T) -> bool)
    ensures multiset(Insert(x, s, ge)) == multiset(s) + multiset{x}
  {
    var m := LeadCount(x, s, ge);
    var a, b := s[..m], s[m..];
    assert s == a + b;
    assert multiset(a + [x] + b) == multiset(a) + multiset([x]) + multiset(b);
  }

  /** The sort rearranges its input: it neither adds nor drops elements. */
  lemma {:induction false} SortDescPermutation<T>(s: seq<T>, ge: (T, T) -> bool)
    ensures multiset(SortDesc(s, ge)) == multiset(s)
  {
    if s != [] {
      var init, x := s[..|s| - 1], s[|s| - 1];
      SortDescPermutation(init, ge);
      InsertPermutation(x, SortDesc(init, ge), ge);
      assert s == init + [x];
    }
  }

  lemma InsertSorted<T(!new)>(x: T, s: seq<T>, ge: (T, T) -> bool)
    requires TotalPreorder(ge)
    requires SortedDesc(s, ge)
    ensures SortedDesc(Insert(x, s, ge), ge)
  {
    var m := LeadCount(x, s, ge);
    var r := Insert(x, s, ge);
    assert |r| == |s| + 1;
    assert forall i :: 0 <= i < m ==> r[i] == s[i];
    assert r[m] == x;
    assert forall i :: m < i < |r| ==> r[i] == s[i - 1];
    if m < |s| {
      assert ge(x, s[m]);
    }
    forall i, j | 0 <= i < j < |r| ensures ge(r[i], r[j]) {
      if j == m {
      } else if i == m {
        assert ge(s[m], s[j - 1]);
      } else if i < m && m < j {
        assert ge(s[i], s[j - 1]);
      }
    }
  }

  /** The sort keeps exactly the elements it is given. */
  lemma SortDescMembers<T>(s: seq<T>, ge: (T, T) -> bool)
    ensures forall x | x in SortDesc(s, ge) :: x in s
    ensures forall x | x in s :: x in SortDesc(s, ge)
  {
    SortDescPermutation(s, ge);
    forall x | x in SortDesc(s, ge) ensures x in s {
      assert x in multiset(SortDesc(s, ge));
    }
    forall x | x in s ensures x in SortDesc(s, ge) {
      assert x in multiset(s);
    }
  }

  /** What the sort returns is sorted, non-increasing. */
  lemma {:induction false} SortDescSorted<T(!new)>(s: seq<T>, ge: (T, T) -> bool)
    requires TotalPreorder(ge)
    ensures SortedDesc(SortDesc(s, ge), ge)
  {
    if s != [] {
      SortDescSorted(s[..|s| - 1], ge);
      InsertSorted(s[|s| - 1], SortDesc(s[..|s| - 1], ge), ge);
    }
  }

  /** The elements of `s` that rank level with `p`, in order. */
  function Tier<T>(s: seq<T>, ge: (T, T) -> bool, p: T): seq<T> {
    if s == [] then []
    else (if ge(s[0], p) && ge(p, s[0]) then [s[0]] else []) + Tier(s[1..], ge, p)
  }

  lemma {:induction false} TierAppend<T>(a: seq<T>, b: seq<T>, ge: (T, T) -> bool, p: T)
    ensures Tier(a + b, ge, p) == Tier(a, ge, p) + Tier(b, ge, p)
  {
    if a == [] {
      assert a + b == b;
    } else {
      assert (a + b)[1..] == a[1..] + b;
      TierAppend(a[1..], b, ge, p);
    }
  }

  lemma TierAround<T>(x: T, a: seq<T>, b: seq<T>, ge: (T, T) -> bool, p: T)
    ensures ge(x, p) && ge(p, x) ==> Tier(a + [x] + b, ge, p) == Tier(a, ge, p) + [x] + Tier(b, ge, p)
    ensures !(ge(x, p) && ge(p, x)) ==> Tier(a + [x] + b, ge, p) == Tier(a, ge, p) + Tier(b, ge, p)
  {
    TierAppend(a + [x], b, ge, p);
    TierAppend(a, [x], ge, p);
    assert [x][1..] == [];
    assert Tier([x], ge, p) == (if ge(x, p) && ge(p, x) then [x] else []) + Tier([], ge, p);
    assert Tier(a, ge, p) + [] == Tier(a, ge, p);
  }

  lemma SortedSuffix<T>(s: seq<T>, m: nat, ge: (T, T) -> bool)
    requires SortedDesc(s, ge) && m <= |s|
    ensures SortedDesc(s[m..], ge)
  {
    assert forall i :: 0 <= i < |s| - m ==> s[m..][i] == s[m + i];
  }

  /** Nothing in a sorted sequence headed by an element below `x` is level
      with `x`. */
  lemma {:induction false} TierOfBelow<T(!new)>(s: seq<T>, ge: (T, T) -> bool, p: T, x: T)
    requires TotalPreorder(ge)
    requires SortedDesc(s, ge)
    requires s != [] && !ge(s[0], x)
    requires ge(x, p) && ge(p, x)
    ensures Tier(s, ge, p) == []
    decreases |s|
  {
    assert !ge(s[0], p);
    if |s| > 1 {
      assert ge(s[0], s[1]);
      SortedSuffix(s, 1, ge);
      TierOfBelow(s[1..], ge, p, x);
    }
  }

  lemma TierInsert<T(!new)>(x: T, s: seq<T>, ge: (T, T) -> bool, p: T)
    requires TotalPreorder(ge)
    requires SortedDesc(s, ge)
    ensures ge(x, p) && ge(p, x) ==> Tier(Insert(x, s, ge), ge, p) == Tier(s, ge, p) + [x]
    ensures !(ge(x, p) && ge(p, x)) ==> Tier(Insert(x, s, ge), ge, p) == Tier(s, ge, p)
  {
    var m := LeadCount(x, s, ge);
    var a, b := s[..m], s[m..];
    assert s == a + b;
    TierAppend(a, b, ge, p);
    TierAround(x, a, b, ge, p);
    if ge(x, p) && ge(p, x) {
      if m < |s| {
        SortedSuffix(s, m, ge);
        TierOfBelow(b, ge, p, x);
      }
      var ta := Tier(a, ge, p);
      assert ta + [] == ta;
      assert ta + [x] + [] == ta + [x];
    }
  }

  /** Stability: the elements that rank level with one another keep the
      order they had before sorting. */
  lemma {:induction false} SortDescStable<T(!new)>(s: seq<T>, ge: (T, T) -> bool, p: T)
    requires TotalPreorder(ge)
    ensures Tier(SortDesc(s, ge), ge, p) == Tier(s, ge, p)
  {
    if s != [] {
      var init := s[..|s| - 1];
      var x := s[|s| - 1];
      SortDescStable(init, ge, p);
      SortDescSorted(init, ge);
      TierInsert(x, SortDesc(init, ge), ge, p);
      assert s == init + [x] + [];
      TierAround(x, init, [], ge, p);
      assert Tier([], ge, p) == [];
      assert Tier(init, ge, p) + [] == Tier(init, ge, p);
    }
  }

  // ---------------------------------------------------------------------------
  // The best k
  // ---------------------------------------------------------------------------

  /** Python's `s[:k]`, for `k >= 0`; a negative `k` keeps nothing here. */
  function Take<T>(s: seq<T>, k: int): (r: seq<T>)
    ensures |r| == if k <= 0 then 0 else if k < |s| then k else |s|
    ensures r <= s
  {
    if k <= 0 then [] else if k < |s| then s[..k] else s
  }

  /** The first k of the descending sort are sorted, as many as there are up
      to k, drawn from `s`, and rank at least as high as every element of
      `s` they leave out. */
  lemma TopOfSorted<T(!new)>(s: seq<T>, ge: (T, T) -> bool, k: int)
    requires TotalPreorder(ge)
    ensures var r := Take(SortDesc(s, ge), k);
            SortedDesc(r, ge) &&
            multiset(r) <= multiset(s) &&
            (forall x :: x in r ==> x in s) &&
            (forall x, y :: x in s && x !in r && y in r ==> ge(y, x))
  {
    var sorted := SortDesc(s, ge);
    SortDescSorted(s, ge);
    SortDescPermutation(s, ge);
    var r := Take(sorted, k);
    assert r == sorted[..|r|];
    PrefixOfSorted(sorted, |r|, ge);
    forall x | x in r ensures x in s {
      assert x in multiset(r);
      assert x in multiset(s);
    }
  }

  lemma PrefixOfSorted<T>(sorted: seq<T>, n: nat, ge: (T, T) -> bool)
    requires SortedDesc(sorted, ge)
    requires n <= |sorted|
    ensures SortedDesc(sorted[..n], ge)
    ensures multiset(sorted[..n]) <= multiset(sorted)
    ensures forall x, y :: x in multiset(sorted) && x !in sorted[..n] && y in sorted[..n] ==> ge(y, x)
  {
    assert sorted == sorted[..n] + sorted[n..];
    assert multiset(sorted) == multiset(sorted[..n]) + multiset(sorted[n..]);
    forall x, y | x in multiset(sorted) && x !in sorted[..n] && y in sorted[..n] ensures ge(y, x) {
      var j :| 0 <= j < |sorted| && sorted[j] == x;
      var i :| 0 <= i < n && sorted[..n][i] == y;
    }
  }

  // ---------------------------------------------------------------------------
  // Filtering in order
  // ---------------------------------------------------------------------------

  /** The elements of `s` that satisfy `f`, in the order of `s`. */
  function Keep<T>(s: seq<T>, f: T -> bool): (r: seq<T>)
    ensures |r| <= |s|
  {
    if s == [] then [] else Keep(s[..|s| - 1], f) + (if f(s[|s| - 1]) then [s[|s| - 1]] else [])
  }

  lemma {:induction false} KeepMembers<T>(s: seq<T>, f: T -> bool)
    ensures forall x | x in Keep(s, f) :: x in s && f(x)
    ensures forall x | x in s && f(x) :: x in Keep(s, f)
  {
    if s != [] {
      assert s == s[..|s| - 1] + [s[|s| - 1]];
      KeepMembers(s[..|s| - 1], f);
    }
  }

  lemma {:induction false} KeepAll<T>(s: seq<T>, f: T -> bool)
    requires forall x | x in s :: f(x)
    ensures Keep(s, f) == s
  {
    if s != [] {
      assert s == s[..|s| - 1] + [s[|s| - 1]];
      KeepAll(s[..|s| - 1], f);
    }
  }

  lemma {:induction false} KeepAppend<T>(a: seq<T>, b: seq<T>, f: T -> bool)
    ensures Keep(a + b, f) == Keep(a, f) + Keep(b, f)
    decreases |b|
  {
    if b == [] {
      assert a + b == a;
    } else {
      var n := |b| - 1;
      assert (a + b)[..|a + b| - 1] == a + b[..n];
      KeepAppend(a, b[..n], f);
    }
  }

  /** Filtering and taking a tier commute. */
  lemma {:induction false} TierKeep<T>(s: seq<T>, f: T -> bool, ge: (T, T) -> bool, p: T)
    ensures Tier(Keep(s, f), ge, p) == Keep(Tier(s, ge, p), f)
    decreases |s|
  {
    if s != [] {
      var n := |s| - 1;
      var x := s[n];
      assert s == s[..n] + [x];
      TierKeep(s[..n], f, ge, p);
      TierAppend(Keep(s[..n], f), if f(x) then [x] else [], ge, p);
      TierAppend(s[..n], [x], ge, p);
      KeepAppend(Tier(s[..n], ge, p), Tier([x], ge, p), f);
      assert [x][1..] == [];
      assert Keep([x], f) == Keep([], f) + (if f(x) then [x] else []) by {
        assert [x][..0] == [];
      }
      if ge(x, p) && ge(p, x) {
        assert Tier([x], ge, p) == [x];
      } else {
        assert Tier([x], ge, p) == [];
      }
    }
  }

  /** Filtering a sorted sequence leaves it sorted. */
  lemma {:induction false} KeepSorted<T>(s: seq<T>, f: T -> bool, ge: (T, T) -> bool)
    requires SortedDesc(s, ge)
    ensures SortedDesc(Keep(s, f), ge)
  {
    if s != [] {
      var n := |s| - 1;
      var p := s[..n];
      assert forall i | 0 <= i < n :: p[i] == s[i];
      KeepSorted(p, f, ge);
      if f(s[n]) {
        KeepSortedStep(p, s[n], f, ge);
      }
    }
  }

  lemma {:induction false} KeepSortedStep<T>(p: seq<T>, x: T, f: T -> bool, ge: (T, T) -> bool)
    requires SortedDesc(Keep(p, f), ge)
    requires forall i | 0 <= i < |p| :: ge(p[i], x)
    ensures SortedDesc(Keep(p, f) + [x], ge)
  {
    var kept := Keep(p, f);
    KeepMembers(p, f);
    var r := kept + [x];
    forall i, j | 0 <= i < j < |r| ensures ge(r[i], r[j]) {
      if j < |kept| {
        assert r[i] == kept[i] && r[j] == kept[j];
      } else {
        assert r[i] == kept[i] && kept[i] in kept;
        var m :| 0 <= m < |p| && p[m] == r[i];
      }
    }
  }

  /** The tier of the first k is a prefix of the tier of the whole. */
  lemma TierTake<T>(s: seq<T>, k: int, ge: (T, T) -> bool, p: T)
    ensures Tier(Take(s, k), ge, p) <= Tier(s, ge, p)
  {
    var m := |Take(s, k)|;
    assert s == Take(s, k) + s[m..];
    TierAppend(Take(s, k), s[m..], ge, p);
  }

  /** Filters that agree on every element keep the same elements. */
  lemma {:induction false} KeepSame<T>(s: seq<T>, f: T -> bool, g: T -> bool)
    requires forall x | x in s :: f(x) == g(x)
    ensures Keep(s, f) == Keep(s, g)
  {
    if s != [] {
      var n := |s| - 1;
      assert forall x | x in s[..n] :: x in s;
      KeepSame(s[..n], f, g);
    }
  }

  // ---------------------------------------------------------------------------
  // Distinct keys
  // ---------------------------------------------------------------------------

  /** No two elements of `s` share a key. */
  ghost predicate KeysDistinct<T, K>(s: seq<T>, key: T -> K) {
    forall i, j | 0 <= i < j < |s| :: key(s[i]) != key(s[j])
  }

  lemma InsertKeysDistinct<T, K>(x: T, s: seq<T>, ge: (T, T) -> bool, key: T -> K)
    requires KeysDistinct(s, key)
    requires forall y | y in s :: key(y) != key(x)
    ensures KeysDistinct(Insert(x, s, ge), key)
  {
    var m := LeadCount(x, s, ge);
    var r := Insert(x, s, ge);
    assert forall i :: 0 <= i < m ==> r[i] == s[i];
    assert r[m] == x;
    assert forall i :: m < i < |r| ==> r[i] == s[i - 1];
    forall i, j | 0 <= i < j < |r| ensures key(r[i]) != key(r[j]) {
      if i == m {
        assert s[j - 1] in s;
      } else if j == m {
        assert s[i] in s;
      } else if j < m {
        assert key(s[i]) != key(s[j]);
      } else if i < m {
        assert key(s[i]) != key(s[j - 1]);
      } else {
        assert key(s[i - 1]) != key(s[j - 1]);
      }
    }
  }

  /** The sort keeps keys distinct. */
  lemma {:induction false} SortDescKeysDistinct<T, K>(s: seq<T>, ge: (T, T) -> bool, key: T -> K)
    requires KeysDistinct(s, key)
    ensures KeysDistinct(SortDesc(s, ge), key)
  {
    if s != [] {
      var n := |s| - 1;
      var init, x := s[..n], s[n];
      assert forall i | 0 <= i < n :: init[i] == s[i];
      SortDescKeysDistinct(init, ge, key);
      SortDescMembers(init, ge);
      forall y | y in SortDesc(init, ge) ensures key(y) != key(x) {
        var i :| 0 <= i < n && init[i] == y;
        assert key(s[i]) != key(s[n]);
      }
      InsertKeysDistinct(x, SortDesc(init, ge), ge, key);
    }
  }

  /** Filtering keeps keys distinct. */
  lemma {:induction false} KeepKeysDistinct<T, K>(s: seq<T>, f: T -> bool, key: T -> K)
    requires KeysDistinct(s, key)
    ensures KeysDistinct(Keep(s, f), key)
  {
    if s != [] {
      var n := |s| - 1;
      var p := s[..n];
      assert forall i | 0 <= i < n :: p[i] == s[i];
      KeepKeysDistinct(p, f, key);
      KeepMembers(p, f);
      var kept := Keep(p, f);
      if f(s[n]) {
        var r := kept + [s[n]];
        forall i, j | 0 <= i < j < |r| ensures key(r[i]) != key(r[j]) {
          if j == |kept| {
            assert r[i] == kept[i] && kept[i] in kept;
            var m :| 0 <= m < n && p[m] == r[i];
            assert key(s[m]) != key(s[n]);
          } else {
            assert r[i] == kept[i] && r[j] == kept[j];
          }
        }
      }
    }
  }

  /** The first k keep keys distinct. */
  lemma TakeKeysDistinct<T, K>(s: seq<T>, k: int, key: T -> K)
    requires KeysDistinct(s, key)
    ensures KeysDistinct(Take(s, k), key)
  {
    var r := Take(s, k);
    assert forall i | 0 <= i < |r| :: r[i] == s[i];
  }
}
