/** Order-preserving selection over sequences: the behaviour of
    JavaScript's `Array.prototype.filter` on a predicate without side effects. */
module Sequences {

  /** The elements of `s` that satisfy `p`, in the order they have in `s`. */
  function Keep<T>(s: seq<T>, p: T -> bool): (r: seq<T>)
    ensures |r| <= |s|
    ensures forall i :: 0 <= i < |r| ==> p(r[i])
  {
    if s == [] then [] else (if p(s[0]) then [s[0]] else []) + Keep(s[1..], p)
  }

  /** Selection distributes over concatenation: what is kept from the front
      stays in front of what is kept from the back, so relative order is kept. */
  lemma {:induction false} KeepConcat<T>(a: seq<T>, b: seq<T>, p: T -> bool)
    ensures Keep(a + b, p) == Keep(a, p) + Keep(b, p)
  {
    if a == [] {
      assert a + b == b;
    } else {
      assert (a + b)[0] == a[0];
      assert (a + b)[1..] == a[1..] + b;
      KeepConcat(a[1..], b, p);
    }
  }

  /** Selection is exact: every element satisfying `p` is kept as often as it
      occurs in `s`, and no other element is kept. */
  lemma {:induction false} KeepCount<T>(s: seq<T>, p: T -> bool, x: T)
    ensures multiset(Keep(s, p))[x] == if p(x) then multiset(s)[x] else 0
  {
    if s != [] {
      KeepCount(s[1..], p, x);
      assert s == [s[0]] + s[1..];
    }
  }

  /** Keeping by a predicate that every element satisfies changes nothing. */
  lemma {:induction false} KeepAll<T>(s: seq<T>, p: T -> bool)
    requires forall i :: 0 <= i < |s| ==> p(s[i])
    ensures Keep(s, p) == s
  {
    if s != [] {
      KeepAll(s[1..], p);
    }
  }

  /** Keeping by `p` and by its complement `q` splits `s` into two parts that
      together hold every element of `s` exactly once. */
  lemma {:induction false} KeepSplit<T>(s: seq<T>, p: T -> bool, q: T -> bool)
    requires forall x :: q(x) == !p(x)
    ensures |Keep(s, p)| + |Keep(s, q)| == |s|
    ensures multiset(Keep(s, p)) + multiset(Keep(s, q)) == multiset(s)
  {
    if s != [] {
      KeepSplit(s[1..], p, q);
      assert s == [s[0]] + s[1..];
    }
  }

  /** Every element that is kept is an element of the input. */
  lemma {:induction false} KeepFrom<T>(s: seq<T>, p: T -> bool, x: T)
    requires x in Keep(s, p)
    ensures x in s
  {
    if s != [] && x != s[0] {
      KeepFrom(s[1..], p, x);
    }
  }
}
