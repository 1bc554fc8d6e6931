/** Whole-table steps over a table seen as a sequence of records: a boolean-mask
    selection (`df[mask]`), a row map, and keep-first de-duplication on a key
    (`drop_duplicates(subset=..., keep="first")` and the `seen`-set loops). */
module Rows {

  /** `r` is `s` with some elements left out, the rest in their original order. */
  predicate IsSubsequence<T(==)>(r: seq<T>, s: seq<T>)
    decreases |s|
  {
    if r == [] then true
    else if s == [] then false
    else if r[|r| - 1] == s[|s| - 1] then IsSubsequence(r[..|r| - 1], s[..|s| - 1])
    else IsSubsequence(r, s[..|s| - 1])
  }

  lemma {:induction false} SubsequenceDropLast<T>(r: seq<T>, s: seq<T>)
    requires r != [] && IsSubsequence(r, s)
    ensures IsSubsequence(r[..|r| - 1], s)
    decreases |s|
  {
    var r' := r[..|r| - 1];
    if r' != [] && s != [] {
      var s' := s[..|s| - 1];
      if r[|r| - 1] == s[|s| - 1] {
        if r'[|r'| - 1] == s[|s| - 1] {
          SubsequenceDropLast(r', s');
        } else {
          assert IsSubsequence(r', s');
        }
      } else {
        SubsequenceDropLast(r, s');
        if r'[|r'| - 1] == s[|s| - 1] {
          SubsequenceDropLast(r', s');
        }
      }
    }
  }

  /** Growing the bigger sequence keeps a subsequence a subsequence. */
  lemma {:induction false} SubsequenceExtend<T>(r: seq<T>, s: seq<T>, x: T)
    requires IsSubsequence(r, s)
    ensures IsSubsequence(r, s + [x])
  {
    assert (s + [x])[..|s + [x]| - 1] == s;
    if r != [] && r[|r| - 1] == x {
      SubsequenceDropLast(r, s);
    }
  }

  lemma {:induction false} SubsequenceReflexive<T>(s: seq<T>)
    ensures IsSubsequence(s, s)
    decreases |s|
  {
    if s != [] { SubsequenceReflexive(s[..|s| - 1]); }
  }

  /** Subsequence is transitive: filtering a filtered table keeps the original order. */
  lemma {:induction false} SubsequenceTransitive<T>(a: seq<T>, b: seq<T>, c: seq<T>)
    requires IsSubsequence(a, b) && IsSubsequence(b, c)
    ensures IsSubsequence(a, c)
    decreases |c|
  {
    if a != [] && b != [] && c != [] {
      var c' := c[..|c| - 1];
      if b[|b| - 1] == c[|c| - 1] {
        var b' := b[..|b| - 1];
        if a[|a| - 1] == b[|b| - 1] {
          SubsequenceTransitive(a[..|a| - 1], b', c');
        } else {
          SubsequenceTransitive(a, b', c');
          SubsequenceExtend(a, c', c[|c| - 1]);
          assert c' + [c[|c| - 1]] == c;
        }
      } else {
        SubsequenceTransitive(a, b, c');
        SubsequenceExtend(a, c', c[|c| - 1]);
        assert c' + [c[|c| - 1]] == c;
      }
    }
  }

  /** Membership in a subsequence implies membership in the whole. */
  lemma {:induction false} SubsequenceMembers<T>(r: seq<T>, s: seq<T>, x: T)
    requires IsSubsequence(r, s) && x in r
    ensures x in s
    decreases |s|
  {
    if r[|r| - 1] == s[|s| - 1] {
      if x != r[|r| - 1] {
        assert r == r[..|r| - 1] + [r[|r| - 1]];
        SubsequenceMembers(r[..|r| - 1], s[..|s| - 1], x);
      }
    } else {
      SubsequenceMembers(r, s[..|s| - 1], x);
    }
  }

  /** `s[mask]` where the mask is `p`: the rows satisfying `p`, in order. */
  function Filter<T(==)>(s: seq<T>, p: T -> bool): (r: seq<T>)
    ensures |r| <= |s|
    ensures forall i | 0 <= i < |r| :: r[i] in s && p(r[i])
    ensures forall i | 0 <= i < |s| && p(s[i]) :: s[i] in r
    decreases |s|
  {
    if s == [] then []
    else
      var init := Filter(s[..|s| - 1], p);
      assert s == s[..|s| - 1] + [s[|s| - 1]];
      if p(s[|s| - 1]) then init + [s[|s| - 1]] else init
  }

  /** The rows a filter keeps stay in their original order. */
  lemma {:induction false} FilterIsSubsequence<T>(s: seq<T>, p: T -> bool)
    ensures IsSubsequence(Filter(s, p), s)
    decreases |s|
  {
    if s != [] {
      var s', x := s[..|s| - 1], s[|s| - 1];
      var f, f' := Filter(s, p), Filter(s', p);
      FilterIsSubsequence(s', p);
      if p(x) {
        assert f == f' + [x];
        assert f[..|f| - 1] == f' && f[|f| - 1] == x;
      } else {
        assert f == f';
        SubsequenceExtend(f', s', x);
        assert s' + [x] == s;
      }
    }
  }

  function Count<T>(s: seq<T>, p: T -> bool): (n: nat)
    ensures n <= |s|
  {
    if s == [] then 0 else Count(s[..|s| - 1], p) + (if p(s[|s| - 1]) then 1 else 0)
  }

  /** What a filter drops is exactly the rows failing it. */
  lemma {:induction false} FilterLengthIsCount<T>(s: seq<T>, p: T -> bool)
    ensures |Filter(s, p)| == Count(s, p)
    ensures |s| - |Filter(s, p)| == Count(s, x => !p(x))
    decreases |s|
  {
    if s != [] { FilterLengthIsCount(s[..|s| - 1], p); }
  }

  function KeysOf<T(==), K>(s: seq<T>, key: T -> K): set<K> {
    set x | x in s :: key(x)
  }

  lemma KeysOfAppend<T, K>(s: seq<T>, x: T, key: T -> K)
    ensures KeysOf(s + [x], key) == KeysOf(s, key) + {key(x)}
  {
    assert forall y | y in s + [x] :: y in s || y == x;
  }

  predicate DistinctKeys<T, K(==)>(s: seq<T>, key: T -> K) {
    forall i, j | 0 <= i < j < |s| :: key(s[i]) != key(s[j])
  }

  /** index j holds the first row of `s` with its key */
  predicate IsFirstOfKey<T, K(==)>(s: seq<T>, key: T -> K, j: int)
    requires 0 <= j < |s|
  {
    forall k | 0 <= k < j :: key(s[k]) != key(s[j])
  }

  /** keep-first de-duplication of `s` on `key` */
  function DedupBy<T(==), K(==)>(s: seq<T>, key: T -> K): (r: seq<T>)
    ensures KeysOf(r, key) == KeysOf(s, key)
    ensures DistinctKeys(r, key)
    ensures |r| <= |s|
    decreases |s|
  {
    if s == [] then []
    else
      var init := DedupBy(s[..|s| - 1], key);
      var x := s[|s| - 1];
      assert s == s[..|s| - 1] + [x];
      KeysOfAppend(s[..|s| - 1], x, key);
      KeysOfAppend(init, x, key);
      if key(x) in KeysOf(init, key) then init
      else
        assert forall i | 0 <= i < |init| :: key(init[i]) != key(x);
        init + [x]
  }

  lemma {:induction false} DedupByIsSubsequence<T, K>(s: seq<T>, key: T -> K)
    ensures IsSubsequence(DedupBy(s, key), s)
    decreases |s|
  {
    if s != [] {
      var s' := s[..|s| - 1];
      DedupByIsSubsequence(s', key);
      var r := DedupBy(s, key);
      if r == DedupBy(s', key) {
        SubsequenceExtend(r, s', s[|s| - 1]);
        assert s' + [s[|s| - 1]] == s;
      } else {
        assert r[..|r| - 1] == DedupBy(s', key);
      }
    }
  }

  /** Every kept row is the first row of the input with that key, and every first row is kept. */
  lemma {:induction false} DedupByKeepsFirst<T, K>(s: seq<T>, key: T -> K)
    ensures forall x | x in DedupBy(s, key) ::
      exists j | 0 <= j < |s| :: s[j] == x && IsFirstOfKey(s, key, j)
    ensures forall j | 0 <= j < |s| && IsFirstOfKey(s, key, j) :: s[j] in DedupBy(s, key)
    decreases |s|
  {
    if s != [] {
      var s' := s[..|s| - 1];
      var n := |s| - 1;
      DedupByKeepsFirst(s', key);
      var r' := DedupBy(s', key);
      var r := DedupBy(s, key);
      forall j | 0 <= j < n ensures IsFirstOfKey(s, key, j) == IsFirstOfKey(s', key, j) {
        assert forall k | 0 <= k < j :: s[k] == s'[k];
      }
      forall x | x in r ensures exists j | 0 <= j < |s| :: s[j] == x && IsFirstOfKey(s, key, j) {
        if x in r' {
          var j :| 0 <= j < |s'| && s'[j] == x && IsFirstOfKey(s', key, j);
          assert s[j] == x && IsFirstOfKey(s, key, j);
        } else {
          assert x == s[n] && key(x) !in KeysOf(r', key);
          forall k | 0 <= k < n ensures key(s[k]) != key(s[n]) {
            assert key(s'[k]) in KeysOf(s', key);
          }
          assert IsFirstOfKey(s, key, n);
        }
      }
      forall j | 0 <= j < |s| && IsFirstOfKey(s, key, j) ensures s[j] in r {
        if j < n {
          assert s[j] == s'[j];
          assert s[j] in r';
        } else {
          assert key(s[n]) !in KeysOf(s', key);
        }
      }
    }
  }

  /** Row-by-row map (`series.apply(f)` written back to its column). */
  function Map<T, U>(s: seq<T>, f: T -> U): (r: seq<U>)
    ensures |r| == |s|
    ensures forall i | 0 <= i < |s| :: r[i] == f(s[i])
  {
    seq(|s|, i requires 0 <= i < |s| => f(s[i]))
  }

  /** `df.iloc[:n]` */
  function Take<T>(s: seq<T>, n: nat): (r: seq<T>)
    ensures |r| <= n && |r| <= |s|
    ensures |s| >= n ==> |r| == n
    ensures r == s[..|r|]
  {
    if |s| <= n then s else s[..n]
  }

  lemma MapAppend<T, U>(a: seq<T>, b: seq<T>, f: T -> U)
    ensures Map(a + b, f) == Map(a, f) + Map(b, f)
  {
  }

  /** Python's `s[:stop]`: a negative stop counts from the end */
  function PyPrefix<T>(s: seq<T>, stop: int): (r: seq<T>)
    ensures stop >= 0 ==> |r| == if stop <= |s| then stop else |s|
    ensures stop < 0 ==> |r| == if -stop <= |s| then |s| + stop else 0
    ensures r == s[..|r|]
  {
    if stop >= 0 then Take(s, stop)
    else if -stop <= |s| then s[..|s| + stop]
    else []
  }

  /** Appending to the bigger sequence keeps a subsequence a subsequence. */
  lemma {:induction false} SubsequenceAppend<T>(r: seq<T>, s: seq<T>, d: seq<T>)
    requires IsSubsequence(r, s)
    ensures IsSubsequence(r, s + d)
    decreases |d|
  {
    if d != [] {
      var d' := d[..|d| - 1];
      SubsequenceAppend(r, s, d');
      SubsequenceExtend(r, s + d', d[|d| - 1]);
      assert s + d' + [d[|d| - 1]] == s + d;
    } else {
      assert s + d == s;
    }
  }

  /** Subsequences of two parts concatenate to a subsequence of the whole. */
  lemma {:induction false} SubsequenceConcat<T>(a: seq<T>, b: seq<T>, c: seq<T>, d: seq<T>)
    requires IsSubsequence(a, b) && IsSubsequence(c, d)
    ensures IsSubsequence(a + c, b + d)
    decreases |d|
  {
    if c == [] {
      SubsequenceAppend(a, b, d);
      assert a + c == a;
    } else {
      var d' := d[..|d| - 1];
      assert (b + d)[..|b + d| - 1] == b + d';
      if c[|c| - 1] == d[|d| - 1] {
        var c' := c[..|c| - 1];
        SubsequenceConcat(a, b, c', d');
        assert (a + c)[..|a + c| - 1] == a + c';
      } else {
        SubsequenceConcat(a, b, c, d');
      }
    }
  }

  /** A subsequence of rows with distinct keys has distinct keys. */
  lemma {:induction false} SubsequenceDistinctKeys<T, K>(r: seq<T>, s: seq<T>, key: T -> K)
    requires IsSubsequence(r, s) && DistinctKeys(s, key)
    ensures DistinctKeys(r, key)
    decreases |s|
  {
    if r != [] {
      var s' := s[..|s| - 1];
      assert DistinctKeys(s', key);
      if r[|r| - 1] == s[|s| - 1] {
        var r' := r[..|r| - 1];
        SubsequenceDistinctKeys(r', s', key);
        forall i | 0 <= i < |r'| ensures key(r[i]) != key(r[|r| - 1]) {
          assert r[i] == r'[i];
          SubsequenceMembers(r', s', r'[i]);
          var k :| 0 <= k < |s'| && s'[k] == r'[i];
          assert s[k] == s'[k];
        }
      } else {
        SubsequenceDistinctKeys(r, s', key);
      }
    }
  }
}
