/** Sorting indices by value (`np.argsort`) and keeping the indices whose
    value passes a test, as the normal-mode code does after the
    eigensolver.

    `Argsort(f)` lists 0..|f|-1 so that the values read through it
    ascend.  numpy's default sort does not fix the order of equal values;
    this one keeps them in index order.
 */
module Argsort {

  /** 0, 1, ..., n-1. */
  function Indices(n: nat): (r: seq<nat>)
    ensures |r| == n && forall k :: 0 <= k < n ==> r[k] == k
  {
    seq(n, k requires 0 <= k < n => k)
  }

  predicate InBounds(f: seq<real>, s: seq<nat>) {
    forall k :: 0 <= k < |s| ==> s[k] < |f|
  }

  /** No index is listed twice. */
  predicate Distinct(s: seq<nat>) {
    forall a, b :: 0 <= a < b < |s| ==> s[a] != s[b]
  }

  /** The values read through `s` ascend. */
  predicate SortedBy(f: seq<real>, s: seq<nat>)
    requires InBounds(f, s)
  {
    forall a, b :: 0 <= a < b < |s| ==> f[s[a]] <= f[s[b]]
  }

  /** Inserting index i after every index whose value is at most f[i]. */
  function Insert(f: seq<real>, s: seq<nat>, i: nat): (r: seq<nat>)
    requires InBounds(f, s) && i < |f|
    ensures InBounds(f, r) && |r| == |s| + 1
    ensures multiset(r) == multiset(s) + multiset{i}
    decreases |s|
  {
    if |s| == 0 then [i]
    else if f[s[0]] > f[i] then [i] + s
    else
      assert s == [s[0]] + s[1..];
      [s[0]] + Insert(f, s[1..], i)
  }

  /** Inserting into a sorted order keeps it sorted. */
  lemma {:induction false} InsertSorted(f: seq<real>, s: seq<nat>, i: nat)
    requires InBounds(f, s) && i < |f| && SortedBy(f, s)
    ensures SortedBy(f, Insert(f, s, i))
    decreases |s|
  {
    if |s| > 0 && f[s[0]] <= f[i] {
      InsertSorted(f, s[1..], i);
      var rest := Insert(f, s[1..], i);
      forall k | 0 <= k < |rest| ensures f[s[0]] <= f[rest[k]] {
        assert rest[k] in multiset(rest);
        if rest[k] != i {
          assert rest[k] in multiset(s[1..]);
          var j :| 0 <= j < |s[1..]| && s[1..][j] == rest[k];
          assert f[s[0]] <= f[s[j + 1]];
        }
      }
    }
  }

  /** `np.argsort(f)`: the first n indices, inserted one after another. */
  function ArgsortPrefix(f: seq<real>, n: nat): (r: seq<nat>)
    requires n <= |f|
    ensures InBounds(f, r) && SortedBy(f, r)
    ensures multiset(r) == multiset(Indices(n))
    decreases n
  {
    if n == 0 then []
    else
      var s := ArgsortPrefix(f, n - 1);
      var i: nat := n - 1;
      InsertSorted(f, s, i);
      IndicesSnoc(n);
      var r := Insert(f, s, i);
      assert SortedBy(f, r);
      r
  }

  lemma IndicesSnoc(n: nat)
    requires n > 0
    ensures multiset(Indices(n)) == multiset(Indices(n - 1)) + multiset{(n - 1) as nat}
  {
    assert Indices(n) == Indices(n - 1) + [n - 1];
  }

  function ArgsortOf(f: seq<real>): (r: seq<nat>)
    ensures InBounds(f, r) && SortedBy(f, r) && |r| == |f|
    ensures multiset(r) == multiset(Indices(|f|))
  {
    var r := ArgsortPrefix(f, |f|);
    assert |r| == |multiset(r)| == |multiset(Indices(|f|))| == |f|;
    r
  }

  /** The sorted order lists every index exactly once. */
  lemma ArgsortIsPermutation(f: seq<real>)
    ensures var r := ArgsortOf(f);
            && (forall k :: 0 <= k < |f| ==> k in r)
            && Distinct(r)
  {
    var r := ArgsortOf(f);
    forall k | 0 <= k < |f| ensures k in r {
      assert Indices(|f|)[k] == k;
      assert k in multiset(Indices(|f|));
    }
    forall a, b | 0 <= a < b < |r| ensures r[a] != r[b] {
      if r[a] == r[b] {
        IndicesOnce(|f|, r[a]);
        TwiceInMultiset(r, a, b);
        assert false;
      }
    }
  }

  /** Each index occurs once in 0..n-1. */
  lemma IndicesOnce(n: nat, k: nat)
    ensures multiset(Indices(n))[k] <= 1
    decreases n
  {
    if n > 0 {
      IndicesSnoc(n);
      IndicesOnce(n - 1, k);
      if k == n - 1 {
        var s := Indices(n - 1);
        assert forall j :: 0 <= j < |s| ==> s[j] < n - 1;
        assert k !in multiset(s);
      }
    }
  }

  /** A value at two positions occurs at least twice. */
  lemma TwiceInMultiset(s: seq<nat>, a: nat, b: nat)
    requires a < b < |s| && s[a] == s[b]
    ensures multiset(s)[s[a]] >= 2
  {
    assert s == s[..a] + [s[a]] + s[a + 1..b] + [s[b]] + s[b + 1..];
  }

  /** The entries of `s` that pass `keep`, in order. */
  function KeepWhere(s: seq<nat>, keep: nat -> bool): (r: seq<nat>)
    ensures |r| <= |s|
    ensures forall j :: 0 <= j < |r| ==> keep(r[j])
    decreases |s|
  {
    if |s| == 0 then []
    else
      var rest := KeepWhere(s[1..], keep);
      if keep(s[0]) then [s[0]] + rest else rest
  }

  /** An index is kept exactly when it is listed and passes. */
  lemma {:induction false} KeepWhereMembers(s: seq<nat>, keep: nat -> bool, k: nat)
    ensures k in KeepWhere(s, keep) <==> k in s && keep(k)
    decreases |s|
  {
    if |s| > 0 {
      KeepWhereMembers(s[1..], keep, k);
      assert s == [s[0]] + s[1..];
    }
  }

  /** Keeping entries of a sorted order leaves it sorted. */
  lemma {:induction false} KeepWhereSorted(f: seq<real>, s: seq<nat>, keep: nat -> bool)
    requires InBounds(f, s) && SortedBy(f, s)
    ensures InBounds(f, KeepWhere(s, keep)) && SortedBy(f, KeepWhere(s, keep))
    decreases |s|
  {
    if |s| > 0 {
      KeepWhereSorted(f, s[1..], keep);
      var rest := KeepWhere(s[1..], keep);
      forall j | 0 <= j < |rest| ensures f[s[0]] <= f[rest[j]] {
        KeepWhereMembers(s[1..], keep, rest[j]);
        var i :| 0 <= i < |s[1..]| && s[1..][i] == rest[j];
        assert s[i + 1] == rest[j];
      }
      if keep(s[0]) {
        var r := [s[0]] + rest;
        assert KeepWhere(s, keep) == r;
        forall a, b | 0 <= a < b < |r| ensures f[r[a]] <= f[r[b]] {
          if a > 0 {
            assert r[a] == rest[a - 1] && r[b] == rest[b - 1];
          }
        }
      }
    }
  }

  /** Keeping entries never repeats one. */
  lemma {:induction false} KeepWhereDistinct(s: seq<nat>, keep: nat -> bool)
    requires Distinct(s)
    ensures Distinct(KeepWhere(s, keep))
    decreases |s|
  {
    if |s| > 0 {
      KeepWhereDistinct(s[1..], keep);
      var rest := KeepWhere(s[1..], keep);
      KeepWhereMembers(s[1..], keep, s[0]);
      var r := KeepWhere(s, keep);
      if keep(s[0]) {
        assert r == [s[0]] + rest;
        forall a, b | 0 <= a < b < |r| ensures r[a] != r[b] {
          if a == 0 {
            assert r[b] == rest[b - 1] && rest[b - 1] in rest;
          } else {
            assert r[a] == rest[a - 1];
            assert r[b] == rest[b - 1];
            assert rest[a - 1] != rest[b - 1];
          }
        }
      }
    }
  }
}
