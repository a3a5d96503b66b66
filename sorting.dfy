/** Stable sorting by a collation key. `String.prototype.localeCompare` is
    modelled as the comparison of sort keys (sequences of collation weights)
    that a collation computes for each string; two strings tie exactly when
    their keys are equal. */
module Sorting {
  import opened Sequences

  /** Lexicographic order on sort keys: `a` is a prefix of `b`, or at the
      first position where they differ `a` has the smaller weight. */
  predicate LexLe(a: seq<int>, b: seq<int>)
  {
    a == [] || (b != [] && (a[0] < b[0] || (a[0] == b[0] && LexLe(a[1..], b[1..]))))
  }

  lemma {:induction false} LexLeReflexive(a: seq<int>)
    ensures LexLe(a, a)
  {
    if a != [] {
      LexLeReflexive(a[1..]);
    }
  }

  lemma {:induction false} LexLeTotal(a: seq<int>, b: seq<int>)
    ensures LexLe(a, b) || LexLe(b, a)
  {
    if a != [] && b != [] && a[0] == b[0] {
      LexLeTotal(a[1..], b[1..]);
    }
  }

  lemma {:induction false} LexLeTransitive(a: seq<int>, b: seq<int>, c: seq<int>)
    requires LexLe(a, b) && LexLe(b, c)
    ensures LexLe(a, c)
  {
    if a != [] && a[0] == b[0] && b[0] == c[0] {
      LexLeTransitive(a[1..], b[1..], c[1..]);
    }
  }

  /** Two keys compare equal both ways only when they are the same key, so
      the elements a comparison treats as ties are those with equal keys. */
  lemma {:induction false} LexLeAntisymmetric(a: seq<int>, b: seq<int>)
    requires LexLe(a, b) && LexLe(b, a)
    ensures a == b
  {
    if a != [] {
      LexLeAntisymmetric(a[1..], b[1..]);
    }
  }

  /** `s` is in non-decreasing order of `key`. */
  predicate SortedBy<T>(s: seq<T>, key: T -> seq<int>)
  {
    forall i, j | 0 <= i < j < |s| :: LexLe(key(s[i]), key(s[j]))
  }

  /** The elements whose key is `k`: one class of elements that tie. */
  function SameKey<T>(key: T -> seq<int>, k: seq<int>): T -> bool
  {
    (x: T) => key(x) == k
  }

  /** The first element of a non-empty sequence leads the class of the
      elements that tie with it. */
  lemma KeepHeadTie<T>(s: seq<T>, key: T -> seq<int>)
    ensures s != [] ==>
      var kept := Keep(s, SameKey(key, key(s[0])));
      kept != [] && kept[0] == s[0]
  {
  }

  /** Puts `x` in front of the first element whose key is not below its own. */
  function Insert<T>(x: T, s: seq<T>, key: T -> seq<int>): (r: seq<T>)
    ensures multiset(r) == multiset(s) + multiset{x}
  {
    if s == [] || LexLe(key(x), key(s[0])) then [x] + s
    else
      assert s == [s[0]] + s[1..];
      [s[0]] + Insert(x, s[1..], key)
  }

  /** Insertion sort: a stable sort of `s` by `key`. */
  function SortBy<T>(s: seq<T>, key: T -> seq<int>): (r: seq<T>)
    ensures multiset(r) == multiset(s)
  {
    if s == [] then []
    else
      assert s == [s[0]] + s[1..];
      Insert(s[0], SortBy(s[1..], key), key)
  }

  lemma {:induction false} InsertSorted<T>(x: T, s: seq<T>, key: T -> seq<int>)
    requires SortedBy(s, key)
    ensures SortedBy(Insert(x, s, key), key)
  {
    if s == [] {
    } else if LexLe(key(x), key(s[0])) {
      var r := [x] + s;
      forall i, j | 0 <= i < j < |r|
        ensures LexLe(key(r[i]), key(r[j]))
      {
        if i == 0 && j > 1 {
          LexLeTransitive(key(x), key(s[0]), key(s[j - 1]));
        }
      }
    } else {
      var rest := Insert(x, s[1..], key);
      InsertSorted(x, s[1..], key);
      LexLeTotal(key(x), key(s[0]));
      var r := [s[0]] + rest;
      forall j | 0 < j < |r|
        ensures LexLe(key(s[0]), key(r[j]))
      {
        var y := r[j];
        assert y in multiset(rest);
        if y != x {
          assert y in multiset(s[1..]);
          var m :| 0 <= m < |s[1..]| && s[1..][m] == y;
          assert s[m + 1] == y;
        }
      }
    }
  }

  /** The result of SortBy is in non-decreasing order of `key`. */
  lemma {:induction false} SortSorted<T>(s: seq<T>, key: T -> seq<int>)
    ensures SortedBy(SortBy(s, key), key)
  {
    if s != [] {
      SortSorted(s[1..], key);
      InsertSorted(s[0], SortBy(s[1..], key), key);
    }
  }

  /** Inserting `x` does not reorder it relative to the elements it ties with:
      it lands in front of all of them, where it stood before. */
  lemma {:induction false} InsertStable<T>(x: T, s: seq<T>, key: T -> seq<int>, k: seq<int>)
    ensures Keep(Insert(x, s, key), SameKey(key, k)) == Keep([x] + s, SameKey(key, k))
  {
    if s != [] && !LexLe(key(x), key(s[0])) {
      var rest := Insert(x, s[1..], key);
      InsertStable(x, s[1..], key, k);
      LexLeReflexive(key(x));
      assert ([s[0]] + rest)[1..] == rest;
      assert ([x] + s)[1..] == s;
      assert ([x] + s[1..])[1..] == s[1..];
    }
  }

  /** SortBy is stable: for every key, the elements with that key appear in
      the result in the same relative order as in the input. */
  lemma {:induction false} SortStable<T>(s: seq<T>, key: T -> seq<int>, k: seq<int>)
    ensures Keep(SortBy(s, key), SameKey(key, k)) == Keep(s, SameKey(key, k))
  {
    if s != [] {
      var sorted := SortBy(s[1..], key);
      SortStable(s[1..], key, k);
      InsertStable(s[0], sorted, key, k);
      assert ([s[0]] + sorted)[1..] == sorted;
    }
  }

  /** Two sequences sorted by `key` that agree, key by key, on the order of
      the elements with that key are the same sequence. */
  lemma {:induction false} SortedTiesDetermine<T>(r: seq<T>, t: seq<T>, key: T -> seq<int>)
    requires SortedBy(r, key) && SortedBy(t, key)
    requires forall k :: Keep(r, SameKey(key, k)) == Keep(t, SameKey(key, k))
    ensures r == t
  {
    KeepHeadTie(r, key);
    KeepHeadTie(t, key);
    if r != [] && t != [] {
      var k0 := key(r[0]);
      var kept := Keep(t, SameKey(key, k0));
      KeepFrom(t, SameKey(key, k0), kept[0]);
      var m :| 0 <= m < |t| && t[m] == kept[0];
      assert SameKey(key, k0)(kept[0]);
      if m > 0 {
        assert LexLe(key(t[0]), k0);
      } else {
        LexLeReflexive(k0);
      }
      var k1 := key(t[0]);
      KeepFrom(r, SameKey(key, k1), t[0]);
      var n :| 0 <= n < |r| && r[n] == t[0];
      if n > 0 {
        assert LexLe(k0, k1);
      } else {
        LexLeReflexive(k0);
      }
      LexLeAntisymmetric(k0, k1);
      assert r[0] == t[0];
      forall k
        ensures Keep(r[1..], SameKey(key, k)) == Keep(t[1..], SameKey(key, k))
      {
        var p := SameKey(key, k);
        var head := if p(r[0]) then [r[0]] else [];
        assert Keep(r, p) == head + Keep(r[1..], p);
        assert Keep(t, p) == head + Keep(t[1..], p);
        assert Keep(r, p) == Keep(t, p);
        assert Keep(r[1..], p) == (head + Keep(r[1..], p))[|head|..];
        assert Keep(t[1..], p) == (head + Keep(t[1..], p))[|head|..];
      }
      SortedTiesDetermine(r[1..], t[1..], key);
      assert r == [r[0]] + r[1..] && t == [t[0]] + t[1..];
    }
  }

  /** SortBy is the only stable sort: every sequence that is sorted by `key`
      and keeps the relative order of each class of ties is SortBy's result,
      so any stable sorting algorithm gives the same view. */
  lemma StableSortUnique<T>(s: seq<T>, r: seq<T>, key: T -> seq<int>)
    requires SortedBy(r, key)
    requires forall k :: Keep(r, SameKey(key, k)) == Keep(s, SameKey(key, k))
    ensures r == SortBy(s, key)
  {
    SortSorted(s, key);
    forall k
      ensures Keep(r, SameKey(key, k)) == Keep(SortBy(s, key), SameKey(key, k))
    {
      SortStable(s, key, k);
    }
    SortedTiesDetermine(r, SortBy(s, key), key);
  }
}
