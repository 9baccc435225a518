/** Sums of natural numbers over finite sets and sequences. */
module Sums {

  ghost function Total<K>(s: set<K>, w: K -> nat): nat {
    if s == {} then 0 else var k :| k in s; w(k) + Total(s - {k}, w)
  }

  /** The sum does not depend on the order of summation. */
  lemma {:induction false} TotalRemove<K>(s: set<K>, w: K -> nat, k: K)
    requires k in s
    ensures Total(s, w) == w(k) + Total(s - {k}, w)
    decreases s
  {
    var x :| x in s && Total(s, w) == w(x) + Total(s - {x}, w);
    if x != k {
      TotalRemove(s - {x}, w, k);
      TotalRemove(s - {k}, w, x);
      assert s - {x} - {k} == s - {k} - {x};
    }
  }

  /** Where `w'` exceeds `w` by `v` on the elements of `t`, so does the sum by that of `v`. */
  lemma {:induction false} TotalAdd<K>(s: set<K>, w: K -> nat, w': K -> nat, t: set<K>, v: K -> nat)
    requires t <= s
    requires forall k :: k in s ==> w'(k) == if k in t then w(k) + v(k) else w(k)
    ensures Total(s, w') == Total(s, w) + Total(t, v)
    decreases s
  {
    if s == {} {
      assert t == {};
    } else {
      var k :| k in s;
      TotalRemove(s, w, k);
      TotalRemove(s, w', k);
      TotalAdd(s - {k}, w, w', t - {k}, v);
      if k in t {
        TotalRemove(t, v, k);
      } else {
        assert t - {k} == t;
      }
    }
  }

  /** `x` for each of `n`. */
  function Each(n: nat, x: nat): nat {
    if n == 0 then 0 else x + Each(n - 1, x)
  }

  lemma {:induction false} EachGrows(n: nat, n': nat, x: nat, x': nat)
    requires n <= n' && x <= x'
    ensures Each(n, x) <= Each(n', x')
  {
    if n > 0 { EachGrows(n - 1, n' - 1, x, x'); }
  }

  /** Where `w'` exceeds `w` by `c` at most, so does the sum by that for each element. */
  lemma {:induction false} TotalBound<K>(s: set<K>, w: K -> nat, w': K -> nat, c: nat)
    requires forall k :: k in s ==> w'(k) <= w(k) + c
    ensures Total(s, w') <= Total(s, w) + Each(|s|, c)
    decreases s
  {
    if k :| k in s {
      TotalRemove(s, w, k);
      TotalRemove(s, w', k);
      TotalBound(s - {k}, w, w', c);
    }
  }

  lemma {:induction false} TotalSame<K>(s: set<K>, w: K -> nat, w': K -> nat)
    requires forall k :: k in s ==> w'(k) == w(k)
    ensures Total(s, w') == Total(s, w)
  {
    TotalAdd(s, w, w', {}, w);
  }

  /** Changing the summand of one element. */
  lemma {:induction false} TotalChange<K>(s: set<K>, w: K -> nat, w': K -> nat, k: K)
    requires k in s
    requires forall x :: x in s && x != k ==> w'(x) == w(x)
    ensures Total(s, w') + w(k) == Total(s, w) + w'(k)
  {
    TotalRemove(s, w, k);
    TotalRemove(s, w', k);
    TotalSame(s - {k}, w, w');
  }

  ghost function Sum<T>(q: seq<T>, w: T -> nat): nat {
    if q == [] then 0 else w(q[0]) + Sum(q[1..], w)
  }

  lemma {:induction false} SumAppend<T>(q: seq<T>, m: T, w: T -> nat)
    ensures Sum(q + [m], w) == Sum(q, w) + w(m)
  {
    if q != [] {
      assert (q + [m])[1..] == q[1..] + [m];
      SumAppend(q[1..], m, w);
    }
  }

  lemma {:induction false} SumBound<T>(q: seq<T>, w: T -> nat, w': T -> nat)
    requires forall m :: m in q ==> w'(m) <= w(m)
    ensures Sum(q, w') <= Sum(q, w)
  {
    if q != [] {
      assert q[0] in q && forall m :: m in q[1..] ==> m in q;
      SumBound(q[1..], w, w');
    }
  }

  /** A subset of a finite set is no larger, and a proper one smaller. */
  lemma {:induction false} SubsetSize<K>(s: set<K>, t: set<K>)
    requires s <= t
    ensures |s| <= |t| && (s != t ==> |s| < |t|)
    decreases t
  {
    if k :| k in s {
      SubsetSize(s - {k}, t - {k});
      if x :| x in t && x !in s {
        assert x in t - {k} && x !in s - {k};
      }
    }
  }
}
