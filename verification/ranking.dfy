/** Ranking of scored results: a stable sort by a real key, largest first, cut to the top n
    (app.py sorts its results by area, largest first, with Python's stable sort and keeps
    the first ten). */
module Ranking {

  /** Keys never increase along the sequence. */
  ghost predicate SortedDesc<T>(s: seq<T>, key: T -> real) {
    forall i, j :: 0 <= i < j < |s| ==> key(s[i]) >= key(s[j])
  }

  /** The elements of s whose key is k, in their order in s. A sort is stable exactly when it
      keeps this subsequence unchanged for every k. */
  function WithKey<T>(s: seq<T>, key: T -> real, k: real): seq<T> {
    if |s| == 0 then []
    else (if key(s[0]) == k then [s[0]] else []) + WithKey(s[1..], key, k)
  }

  /** Places x before the first element whose key is not larger than its own, so that x goes
      ahead of equal keys that came after it in the input. */
  function InsertDesc<T(==)>(x: T, s: seq<T>, key: T -> real): (r: seq<T>)
    ensures multiset(r) == multiset(s) + multiset{x}
  {
    if |s| == 0 || key(s[0]) <= key(x) then [x] + s
    else
      assert s == [s[0]] + s[1..];
      [s[0]] + InsertDesc(x, s[1..], key)
  }

  lemma InsertDescMembers<T>(x: T, s: seq<T>, key: T -> real)
    ensures forall y :: y in InsertDesc(x, s, key) ==> y == x || y in s
  {
    forall y | y in InsertDesc(x, s, key) ensures y == x || y in s {
      assert y in multiset(InsertDesc(x, s, key));
    }
  }

  lemma {:induction false} InsertDescSorted<T>(x: T, s: seq<T>, key: T -> real)
    requires SortedDesc(s, key)
    ensures SortedDesc(InsertDesc(x, s, key), key)
  {
    if |s| > 0 && key(s[0]) > key(x) {
      var rest := InsertDesc(x, s[1..], key);
      var r := InsertDesc(x, s, key);
      InsertDescSorted(x, s[1..], key);
      InsertDescMembers(x, s[1..], key);
      assert r == [s[0]] + rest;
      forall i, j | 0 <= i < j < |r| ensures key(r[i]) >= key(r[j]) {
        if i == 0 {
          assert r[j] == rest[j - 1];
          assert r[j] == x || r[j] in s[1..];
        } else {
          assert r[i] == rest[i - 1] && r[j] == rest[j - 1];
        }
      }
    }
  }

  /** The equal-key subsequence of y followed by t. */
  lemma WithKeyCons<T>(y: T, t: seq<T>, key: T -> real, k: real)
    ensures WithKey([y] + t, key, k) == (if key(y) == k then [y] else []) + WithKey(t, key, k)
  {
    assert ([y] + t)[0] == y && ([y] + t)[1..] == t;
  }

  /** Two prefixes, one of them empty, can be applied in either order. */
  lemma SwapEmpty<T>(a: seq<T>, b: seq<T>, w: seq<T>)
    requires a == [] || b == []
    ensures a + (b + w) == b + (a + w)
  {
    if a == [] {
      assert a + (b + w) == b + w;
      assert a + w == w;
    } else {
      assert b + w == w;
      assert b + (a + w) == a + w;
    }
  }

  /** Inserting x adds it to its key's subsequence in front of the elements already there. */
  lemma {:induction false} InsertDescWithKey<T>(x: T, s: seq<T>, key: T -> real, k: real)
    ensures WithKey(InsertDesc(x, s, key), key, k)
         == (if key(x) == k then [x] else []) + WithKey(s, key, k)
  {
    if |s| == 0 || key(s[0]) <= key(x) {
      assert InsertDesc(x, s, key) == [x] + s;
      WithKeyCons(x, s, key, k);
    } else {
      var rest := InsertDesc(x, s[1..], key);
      var ownX := if key(x) == k then [x] else [];
      var ownHead := if key(s[0]) == k then [s[0]] else [];
      assert InsertDesc(x, s, key) == [s[0]] + rest;
      assert s == [s[0]] + s[1..];
      WithKeyCons(s[0], rest, key, k);
      WithKeyCons(s[0], s[1..], key, k);
      InsertDescWithKey(x, s[1..], key, k);
      assert ownX == [] || ownHead == [];
      SwapEmpty(ownHead, ownX, WithKey(s[1..], key, k));
    }
  }

  /** The input sorted by key, largest first, equal keys in input order. */
  function SortDesc<T(==)>(s: seq<T>, key: T -> real): (r: seq<T>)
    ensures multiset(r) == multiset(s)
    ensures SortedDesc(r, key)
  {
    if |s| == 0 then []
    else
      assert s == [s[0]] + s[1..];
      InsertDescSorted(s[0], SortDesc(s[1..], key), key);
      InsertDesc(s[0], SortDesc(s[1..], key), key)
  }

  /** The sort is stable: for every key value, the elements with that key keep their order. */
  lemma {:induction false} SortDescStable<T>(s: seq<T>, key: T -> real, k: real)
    ensures WithKey(SortDesc(s, key), key, k) == WithKey(s, key, k)
  {
    if |s| > 0 {
      SortDescStable(s[1..], key, k);
      InsertDescWithKey(s[0], SortDesc(s[1..], key), key, k);
    }
  }

  function Min(a: int, b: int): int {
    if a <= b then a else b
  }

  /** The first n elements of the stable descending sort: the n best results, best first. */
  function Rank<T(==)>(s: seq<T>, key: T -> real, n: nat): (r: seq<T>)
    ensures |r| == Min(n, |s|)
    ensures SortedDesc(r, key)
    ensures multiset(r) <= multiset(s)
    ensures forall x, i :: x in multiset(s) - multiset(r) && 0 <= i < |r| ==> key(x) <= key(r[i])
  {
    var sorted := SortDesc(s, key);
    var m := Min(n, |s|);
    assert |sorted| == |multiset(s)|;
    SortedDescPrefix(sorted, key, m);
    PrefixMultiset(sorted, m);
    forall x | x in multiset(s) - multiset(sorted[..m]) ensures exists j :: m <= j < |sorted| && sorted[j] == x {
      DroppedFromSuffix(sorted, m, x);
    }
    sorted[..m]
  }

  /** The first ranked element has the largest key of the whole input. */
  lemma RankHeadIsBest<T>(s: seq<T>, key: T -> real, n: nat)
    requires n > 0 && |s| > 0
    ensures forall x :: x in s ==> key(x) <= key(Rank(s, key, n)[0])
  {
    var r := Rank(s, key, n);
    forall x | x in s ensures key(x) <= key(r[0]) {
      if x in multiset(r) {
        var i :| 0 <= i < |r| && r[i] == x;
        assert i == 0 || key(r[0]) >= key(r[i]);
      } else {
        assert x in multiset(s) - multiset(r);
      }
    }
  }

  /** No element of the input has a larger key than the first ranked one. */
  lemma RankHeadBeats<T>(s: seq<T>, key: T -> real, n: nat, i: int)
    requires n > 0 && 0 <= i < |s|
    ensures |Rank(s, key, n)| > 0 && key(s[i]) <= key(Rank(s, key, n)[0])
  {
    RankHeadIsBest(s, key, n);
  }

  /** What a prefix leaves out of a sequence occurs in the rest of it. */
  lemma DroppedFromSuffix<T>(s: seq<T>, m: nat, x: T)
    requires m <= |s|
    requires x in multiset(s) - multiset(s[..m])
    ensures exists j :: m <= j < |s| && s[j] == x
  {
    assert s == s[..m] + s[m..];
    assert multiset(s) == multiset(s[..m]) + multiset(s[m..]);
    assert x in multiset(s[m..]);
    var k :| 0 <= k < |s[m..]| && s[m..][k] == x;
    assert s[m + k] == x;
  }

  /** A prefix of a descending sequence is descending and dominates everything after it. */
  lemma SortedDescPrefix<T>(s: seq<T>, key: T -> real, m: nat)
    requires SortedDesc(s, key) && m <= |s|
    ensures SortedDesc(s[..m], key)
    ensures forall i, j :: 0 <= i < m <= j < |s| ==> key(s[j]) <= key(s[..m][i])
  {
    assert forall i :: 0 <= i < m ==> s[..m][i] == s[i];
  }

  /** A prefix holds no more of any element than the whole sequence. */
  lemma PrefixMultiset<T>(s: seq<T>, m: nat)
    requires m <= |s|
    ensures multiset(s[..m]) <= multiset(s)
  {
    assert s == s[..m] + s[m..];
  }

  /** Every ranked element comes from the input. */
  lemma RankMember<T>(s: seq<T>, key: T -> real, n: nat, x: T)
    requires x in Rank(s, key, n)
    ensures x in s
  {
    assert x in multiset(Rank(s, key, n));
    assert x in multiset(s);
  }

  /** Keeping a prefix of a sequence keeps a prefix of each of its equal-key subsequences. */
  lemma {:induction false} WithKeyOfPrefix<T>(s: seq<T>, key: T -> real, k: real, m: nat)
    requires m <= |s|
    ensures WithKey(s[..m], key, k) <= WithKey(s, key, k)
  {
    if m > 0 {
      assert s[..m][1..] == s[1..][..m - 1];
      WithKeyOfPrefix(s[1..], key, k, m - 1);
    }
  }

  /** Equal keys in the ranking appear in input order, and they are the first of their key in
      the input: the ranking is a prefix of a stable sort. */
  lemma RankStable<T>(s: seq<T>, key: T -> real, n: nat, k: real)
    ensures WithKey(Rank(s, key, n), key, k) <= WithKey(s, key, k)
  {
    var sorted := SortDesc(s, key);
    assert |sorted| == |multiset(s)|;
    WithKeyOfPrefix(sorted, key, k, Min(n, |s|));
    SortDescStable(s, key, k);
  }
}
