/** The two orderings the source relies on: Python's ordering of `str` values
    (code point by code point, a proper prefix first), used by `sorted` to lay
    out the statistic catalogue, and the stable descending sort by weight used
    by `roles()`. */
module Sorting {

  /** Python's `a < b` on strings. */
  predicate StrBelow(a: string, b: string)
  {
    if a == [] then b != []
    else if b == [] then false
    else a[0] < b[0] || (a[0] == b[0] && StrBelow(a[1..], b[1..]))
  }

  predicate StrAtMost(a: string, b: string) {
    a == b || StrBelow(a, b)
  }

  lemma {:induction false} StrBelowIrreflexive(a: string)
    ensures !StrBelow(a, a)
  {
    if a != [] {
      StrBelowIrreflexive(a[1..]);
    }
  }

  lemma {:induction false} StrBelowTransitive(a: string, b: string, c: string)
    requires StrBelow(a, b) && StrBelow(b, c)
    ensures StrBelow(a, c)
  {
    if a != [] && a[0] == b[0] && b[0] == c[0] {
      StrBelowTransitive(a[1..], b[1..], c[1..]);
    }
  }

  lemma {:induction false} StrBelowTotal(a: string, b: string)
    requires a != b
    ensures StrBelow(a, b) || StrBelow(b, a)
  {
    if a != [] && b != [] && a[0] == b[0] {
      assert a == [a[0]] + a[1..] && b == [b[0]] + b[1..];
      StrBelowTotal(a[1..], b[1..]);
    }
  }

  lemma StrAtMostTransitive(a: string, b: string, c: string)
    requires StrAtMost(a, b) && StrAtMost(b, c)
    ensures StrAtMost(a, c)
  {
    if a != b && b != c {
      StrBelowTransitive(a, b, c);
    }
  }

  /** Every element is listed at most once. */
  predicate Distinct<T(==)>(s: seq<T>) {
    forall i, j :: 0 <= i < j < |s| ==> s[i] != s[j]
  }

  predicate SortedStrings(s: seq<string>) {
    forall i, j :: 0 <= i < j < |s| ==> StrAtMost(s[i], s[j])
  }

  predicate StrictlySortedStrings(s: seq<string>) {
    forall i, j :: 0 <= i < j < |s| ==> StrBelow(s[i], s[j])
  }

  /** Inserts `x` ahead of the first element it does not exceed. */
  function InsertString(x: string, s: seq<string>): (r: seq<string>)
    ensures |r| == |s| + 1
  {
    if s == [] then [x]
    else if StrAtMost(x, s[0]) then [x] + s
    else [s[0]] + InsertString(x, s[1..])
  }

  lemma {:induction false} InsertStringPermutes(x: string, s: seq<string>)
    ensures multiset(InsertString(x, s)) == multiset(s) + multiset{x}
  {
    if s != [] && !StrAtMost(x, s[0]) {
      assert s == [s[0]] + s[1..];
      InsertStringPermutes(x, s[1..]);
    }
  }

  lemma {:induction false} InsertStringSorted(x: string, s: seq<string>)
    requires SortedStrings(s)
    ensures SortedStrings(InsertString(x, s))
  {
    if s == [] {
    } else if StrAtMost(x, s[0]) {
      forall j | 0 <= j < |s| ensures StrAtMost(x, s[j]) {
        if j > 0 { StrAtMostTransitive(x, s[0], s[j]); }
      }
    } else {
      assert s == [s[0]] + s[1..];
      var rest := InsertString(x, s[1..]);
      InsertStringSorted(x, s[1..]);
      InsertStringPermutes(x, s[1..]);
      StrBelowTotal(x, s[0]);
      forall j | 0 <= j < |rest| ensures StrAtMost(s[0], rest[j]) {
        assert rest[j] in multiset(rest);
        if rest[j] != x {
          assert rest[j] in multiset(s[1..]);
          var k :| 0 <= k < |s[1..]| && s[1..][k] == rest[j];
          assert s[k + 1] == rest[j];
        }
      }
    }
  }

  /** `sorted(s)` for a sequence of strings: an insertion sort. Its order and
      its contents are stated by the two lemmas below it. */
  function SortStrings(s: seq<string>): (r: seq<string>)
    ensures |r| == |s|
  {
    if s == [] then [] else InsertString(s[0], SortStrings(s[1..]))
  }

  lemma {:induction false} SortStringsPermutes(s: seq<string>)
    ensures multiset(SortStrings(s)) == multiset(s)
  {
    if s != [] {
      assert s == [s[0]] + s[1..];
      SortStringsPermutes(s[1..]);
      InsertStringPermutes(s[0], SortStrings(s[1..]));
    }
  }

  lemma {:induction false} SortStringsSorted(s: seq<string>)
    ensures SortedStrings(SortStrings(s))
  {
    if s != [] {
      SortStringsSorted(s[1..]);
      InsertStringSorted(s[0], SortStrings(s[1..]));
    }
  }

  lemma {:induction false} DistinctCounts<T>(s: seq<T>)
    requires Distinct(s)
    ensures forall x :: multiset(s)[x] <= 1
  {
    if s != [] {
      assert s == [s[0]] + s[1..];
      DistinctCounts(s[1..]);
      assert forall j :: 0 <= j < |s[1..]| ==> s[1..][j] == s[j + 1];
      assert s[0] !in s[1..];
    }
  }

  lemma {:induction false} CountsDistinct<T>(s: seq<T>)
    requires forall x :: multiset(s)[x] <= 1
    ensures Distinct(s)
  {
    if s != [] {
      assert s == [s[0]] + s[1..];
      assert multiset(s) == multiset{s[0]} + multiset(s[1..]);
      assert forall x :: multiset(s[1..])[x] <= multiset(s)[x];
      CountsDistinct(s[1..]);
      forall i, j | 0 <= i < j < |s| ensures s[i] != s[j] {
        if i == 0 {
          assert s[j] == s[1..][j - 1];
          assert s[j] in multiset(s[1..]);
        } else {
          assert s[i] == s[1..][i - 1] && s[j] == s[1..][j - 1];
        }
      }
    }
  }

  /** Reordering a list of distinct elements keeps them distinct. */
  lemma DistinctPermutation<T>(a: seq<T>, b: seq<T>)
    requires multiset(a) == multiset(b)
    requires Distinct(a)
    ensures Distinct(b)
  {
    DistinctCounts(a);
    CountsDistinct(b);
  }

  /** No element of `a` occurs in `b`. */
  predicate Apart<T(==)>(a: seq<T>, b: seq<T>) {
    forall i, j :: 0 <= i < |a| && 0 <= j < |b| ==> a[i] != b[j]
  }

  /** No repeats among the elements at indices in [lo, hi). */
  predicate DistinctWithin<T(==)>(s: seq<T>, lo: int, hi: int)
    requires 0 <= lo <= hi <= |s|
  {
    forall i, j :: lo <= i < j < hi ==> s[i] != s[j]
  }

  /** The elements of `a` at indices in [lo, hi) differ from those of `b` at
      indices in [blo, bhi). */
  predicate Across<T(==)>(a: seq<T>, b: seq<T>, lo: int, hi: int, blo: int, bhi: int)
    requires 0 <= lo <= hi <= |a| && 0 <= blo <= bhi <= |b|
  {
    forall i, j :: lo <= i < hi && blo <= j < bhi ==> a[i] != b[j]
  }

  lemma DistinctJoin<T>(s: seq<T>, lo: int, mid: int, hi: int)
    requires 0 <= lo <= mid <= hi <= |s|
    requires DistinctWithin(s, lo, mid) && DistinctWithin(s, mid, hi) && Across(s, s, lo, mid, mid, hi)
    ensures DistinctWithin(s, lo, hi)
  {
  }

  lemma AcrossJoin<T>(a: seq<T>, b: seq<T>, lo: int, mid: int, hi: int, blo: int, bhi: int)
    requires 0 <= lo <= mid <= hi <= |a| && 0 <= blo <= bhi <= |b|
    requires Across(a, b, lo, mid, blo, bhi) && Across(a, b, mid, hi, blo, bhi)
    ensures Across(a, b, lo, hi, blo, bhi)
  {
  }

  lemma ApartConcat<T>(a: seq<T>, b: seq<T>, c: seq<T>)
    requires Apart(a, c) && Apart(b, c)
    ensures Apart(a + b, c)
  {
    forall i, j | 0 <= i < |a + b| && 0 <= j < |c| ensures (a + b)[i] != c[j] {
      if i < |a| {
        assert (a + b)[i] == a[i];
      } else {
        assert (a + b)[i] == b[i - |a|];
      }
    }
  }

  /** Four lists each without repeats, no two sharing an element, have no
      repeats between them. */
  lemma DistinctConcat4<T>(a: seq<T>, b: seq<T>, c: seq<T>, d: seq<T>)
    requires Distinct(a) && Distinct(b) && Distinct(c) && Distinct(d)
    requires Apart(a, b) && Apart(a, c) && Apart(b, c)
    requires Apart(a, d) && Apart(b, d) && Apart(c, d)
    ensures Distinct(a + b + c + d)
  {
    DistinctConcat(a, b);
    ApartConcat(a, b, c);
    DistinctConcat(a + b, c);
    ApartConcat(a, b, d);
    ApartConcat(a + b, c, d);
    DistinctConcat(a + b + c, d);
  }

  lemma DistinctConcat<T>(a: seq<T>, b: seq<T>)
    requires Distinct(a) && Distinct(b) && Apart(a, b)
    ensures Distinct(a + b)
  {
    forall i, j | 0 <= i < j < |a + b| ensures (a + b)[i] != (a + b)[j] {
      if j < |a| {
        assert (a + b)[i] == a[i] && (a + b)[j] == a[j];
      } else if i < |a| {
        assert (a + b)[i] == a[i] && (a + b)[j] == b[j - |a|];
      } else {
        assert (a + b)[i] == b[i - |a|] && (a + b)[j] == b[j - |a|];
      }
    }
  }

  /** A sorted list whose elements are distinct is sorted strictly. */
  lemma SortedDistinctIsStrict(s: seq<string>)
    requires SortedStrings(s) && Distinct(s)
    ensures StrictlySortedStrings(s)
  {
  }

  /** `sorted` of a list of distinct strings: ascending without ties, same elements. */
  lemma SortDistinct(s: seq<string>)
    requires Distinct(s)
    ensures StrictlySortedStrings(SortStrings(s))
    ensures forall x :: x in SortStrings(s) <==> x in s
  {
    var r := SortStrings(s);
    SortStringsPermutes(s);
    SortStringsSorted(s);
    DistinctPermutation(s, r);
    SortedDistinctIsStrict(r);
    forall x ensures x in r <==> x in s {
      assert x in r <==> x in multiset(r);
      assert x in s <==> x in multiset(s);
    }
  }

  // ----- the descending, stable sort of roles() -----

  function Weight(w: map<string, real>, k: string): real {
    if k in w then w[k] else 0.0
  }

  predicate SortedByWeightDesc(s: seq<string>, w: map<string, real>) {
    forall i, j :: 0 <= i < j < |s| ==> Weight(w, s[i]) >= Weight(w, s[j])
  }

  /** Inserts `x`, which came before every element of `s` in the input, ahead of
      the first element that does not outweigh it, so ties keep input order. */
  function InsertByWeight(x: string, s: seq<string>, w: map<string, real>): (r: seq<string>)
    ensures |r| == |s| + 1
  {
    if s == [] then [x]
    else if Weight(w, s[0]) <= Weight(w, x) then [x] + s
    else [s[0]] + InsertByWeight(x, s[1..], w)
  }

  lemma {:induction false} InsertByWeightPermutes(x: string, s: seq<string>, w: map<string, real>)
    ensures multiset(InsertByWeight(x, s, w)) == multiset(s) + multiset{x}
  {
    if s != [] && Weight(w, s[0]) > Weight(w, x) {
      InsertByWeightPermutes(x, s[1..], w);
      assert s == [s[0]] + s[1..];
    }
  }

  lemma {:induction false} InsertByWeightSorted(x: string, s: seq<string>, w: map<string, real>)
    requires SortedByWeightDesc(s, w)
    ensures SortedByWeightDesc(InsertByWeight(x, s, w), w)
  {
    if s != [] && Weight(w, s[0]) > Weight(w, x) {
      var rest := InsertByWeight(x, s[1..], w);
      InsertByWeightSorted(x, s[1..], w);
      InsertByWeightPermutes(x, s[1..], w);
      forall j | 0 <= j < |rest| ensures Weight(w, s[0]) >= Weight(w, rest[j]) {
        assert rest[j] in multiset(rest);
        if rest[j] != x {
          assert rest[j] in multiset(s[1..]);
          var k :| 0 <= k < |s[1..]| && s[1..][k] == rest[j];
          assert s[k + 1] == rest[j];
        }
      }
      var r := [s[0]] + rest;
      forall i, j | 0 <= i < j < |r| ensures Weight(w, r[i]) >= Weight(w, r[j]) {
        if i > 0 {
          assert r[i] == rest[i - 1] && r[j] == rest[j - 1];
        } else {
          assert r[j] == rest[j - 1];
        }
      }
    }
  }

  /** `sorted(s, key=lambda k: w[k], reverse=True)`, stable as Python's is. */
  function SortByWeightDesc(s: seq<string>, w: map<string, real>): (r: seq<string>)
    ensures |r| == |s|
  {
    if s == [] then []
    else InsertByWeight(s[0], SortByWeightDesc(s[1..], w), w)
  }

  lemma {:induction false} SortByWeightPermutes(s: seq<string>, w: map<string, real>)
    ensures multiset(SortByWeightDesc(s, w)) == multiset(s)
  {
    if s != [] {
      SortByWeightPermutes(s[1..], w);
      InsertByWeightPermutes(s[0], SortByWeightDesc(s[1..], w), w);
      assert s == [s[0]] + s[1..];
    }
  }

  lemma {:induction false} SortByWeightSorted(s: seq<string>, w: map<string, real>)
    ensures SortedByWeightDesc(SortByWeightDesc(s, w), w)
  {
    if s != [] {
      SortByWeightSorted(s[1..], w);
      InsertByWeightSorted(s[0], SortByWeightDesc(s[1..], w), w);
    }
  }

  /** The elements of `s` of weight `v`, in their order in `s`. */
  function WithWeight(s: seq<string>, w: map<string, real>, v: real): (r: seq<string>)
    ensures |r| <= |s|
  {
    if s == [] then []
    else (if Weight(w, s[0]) == v then [s[0]] else []) + WithWeight(s[1..], w, v)
  }

  lemma {:induction false} InsertByWeightStable(x: string, s: seq<string>, w: map<string, real>, v: real)
    requires SortedByWeightDesc(s, w)
    ensures WithWeight(InsertByWeight(x, s, w), w, v)
      == (if Weight(w, x) == v then [x] else []) + WithWeight(s, w, v)
  {
    if s == [] {
    } else if Weight(w, s[0]) <= Weight(w, x) {
      assert ([x] + s)[1..] == s;
    } else {
      InsertByWeightStable(x, s[1..], w, v);
      assert ([s[0]] + InsertByWeight(x, s[1..], w))[1..] == InsertByWeight(x, s[1..], w);
    }
  }

  /** Elements of equal weight come out in the order they went in: with the
      ordering and the permutation, this is what makes the sort Python's. */
  lemma {:induction false} SortByWeightStable(s: seq<string>, w: map<string, real>, v: real)
    ensures WithWeight(SortByWeightDesc(s, w), w, v) == WithWeight(s, w, v)
  {
    if s != [] {
      SortByWeightStable(s[1..], w, v);
      SortByWeightSorted(s[1..], w);
      InsertByWeightStable(s[0], SortByWeightDesc(s[1..], w), w, v);
    }
  }

  /** `sep.join(parts)` */
  function Join(parts: seq<string>, sep: string): string {
    if parts == [] then ""
    else if |parts| == 1 then parts[0]
    else parts[0] + sep + Join(parts[1..], sep)
  }
}
