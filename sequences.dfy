/** List operations the probe relies on: filtering, `str.startswith` and `str.join`. */
module Sequences {

  /** The elements of `s` that satisfy `p`, in their order in `s`. */
  function Filter<T>(p: T -> bool, s: seq<T>): (r: seq<T>)
    ensures |r| <= |s|
  {
    if s == [] then []
    else Filter(p, s[..|s| - 1]) + (if p(s[|s| - 1]) then [s[|s| - 1]] else [])
  }

  /** The indices of the elements of `s` that satisfy `p`, in increasing order. */
  function Positions<T>(p: T -> bool, s: seq<T>): (r: seq<nat>)
    ensures forall k :: 0 <= k < |r| ==> r[k] < |s|
  {
    if s == [] then []
    else Positions(p, s[..|s| - 1]) + (if p(s[|s| - 1]) then [|s| - 1] else [])
  }

  predicate StrictlyIncreasing(r: seq<nat>) {
    forall k, l :: 0 <= k < l < |r| ==> r[k] < r[l]
  }

  lemma {:induction false} FilterIndexing<T>(p: T -> bool, s: seq<T>)
    ensures |Filter(p, s)| == |Positions(p, s)|
    ensures forall k :: 0 <= k < |Positions(p, s)| ==> Filter(p, s)[k] == s[Positions(p, s)[k]]
  {
    if s != [] {
      var n := |s| - 1;
      var q := s[..n];
      FilterIndexing(p, q);
      var fq, pq := Filter(p, q), Positions(p, q);
      var f, ps := Filter(p, s), Positions(p, s);
      if p(s[n]) {
        assert f == fq + [s[n]] && ps == pq + [n];
      } else {
        assert f == fq && ps == pq;
      }
      forall k | 0 <= k < |ps|
        ensures f[k] == s[ps[k]]
      {
        if k < |pq| {
          assert f[k] == fq[k] && ps[k] == pq[k] && q[pq[k]] == s[pq[k]];
        }
      }
    }
  }

  lemma {:induction false} PositionsExact<T>(p: T -> bool, s: seq<T>)
    ensures StrictlyIncreasing(Positions(p, s))
    ensures forall i :: 0 <= i < |s| ==> (i in Positions(p, s) <==> p(s[i]))
  {
    if s != [] {
      var n := |s| - 1;
      var q := s[..n];
      PositionsExact(p, q);
      var pq, ps := Positions(p, q), Positions(p, s);
      assert ps == pq + (if p(s[n]) then [n] else []);
      forall i | 0 <= i < |s|
        ensures i in ps <==> p(s[i])
      {
        if i < n {
          assert q[i] == s[i];
          assert n !in pq;
        }
      }
    }
  }

  /**
   * `Filter(p, s)` is `s` read at `Positions(p, s)`: the positions are strictly
   * increasing (each element once, in order) and are exactly the indices whose
   * element satisfies `p`.
   */
  lemma FilterAtPositions<T>(p: T -> bool, s: seq<T>)
    ensures |Filter(p, s)| == |Positions(p, s)|
    ensures forall k :: 0 <= k < |Positions(p, s)| ==> Filter(p, s)[k] == s[Positions(p, s)[k]]
    ensures StrictlyIncreasing(Positions(p, s))
    ensures forall i :: 0 <= i < |s| ==> (i in Positions(p, s) <==> p(s[i]))
  {
    FilterIndexing(p, s);
    PositionsExact(p, s);
  }

  /** An element is in a filter exactly when it is in the input and satisfies the predicate. */
  lemma {:induction false} FilterMembers<T>(p: T -> bool, s: seq<T>)
    ensures forall x :: x in Filter(p, s) <==> x in s && p(x)
  {
    if s != [] {
      var t := s[..|s| - 1];
      FilterMembers(p, t);
      assert s == t + [s[|s| - 1]];
    }
  }

  /** Every element of `s` goes to exactly one side of a filter and its complement. */
  lemma {:induction false} FilterPartition<T>(p: T -> bool, q: T -> bool, s: seq<T>)
    requires forall x :: q(x) == !p(x)
    ensures multiset(Filter(p, s)) + multiset(Filter(q, s)) == multiset(s)
    ensures |Filter(p, s)| + |Filter(q, s)| == |s|
  {
    if s != [] {
      var t := s[..|s| - 1];
      FilterPartition(p, q, t);
      var x := s[|s| - 1];
      assert s == t + [x];
      if p(x) {
        assert Filter(p, s) == Filter(p, t) + [x] && Filter(q, s) == Filter(q, t);
      } else {
        assert Filter(q, s) == Filter(q, t) + [x] && Filter(p, s) == Filter(p, t);
      }
    }
  }

  /** A filter is empty exactly when no element satisfies the predicate. */
  lemma {:induction false} FilterEmpty<T>(p: T -> bool, s: seq<T>)
    ensures Filter(p, s) == [] <==> forall i :: 0 <= i < |s| ==> !p(s[i])
  {
    if s != [] {
      var t := s[..|s| - 1];
      FilterEmpty(p, t);
      assert forall i :: 0 <= i < |t| ==> t[i] == s[i];
    }
  }

  /** Filtering by a stronger predicate after a weaker one is filtering by the stronger one. */
  lemma {:induction false} FilterOfFilter<T>(p: T -> bool, q: T -> bool, s: seq<T>)
    requires forall x :: q(x) ==> p(x)
    ensures Filter(q, Filter(p, s)) == Filter(q, s)
  {
    if s != [] {
      var t := s[..|s| - 1];
      var x := s[|s| - 1];
      FilterOfFilter(p, q, t);
      if p(x) {
        var f := Filter(p, t) + [x];
        assert Filter(p, s) == f;
        assert f[..|f| - 1] == Filter(p, t);
        assert Filter(q, f) == Filter(q, Filter(p, t)) + (if q(x) then [x] else []);
      } else {
        assert Filter(p, s) == Filter(p, t);
        assert !q(x);
      }
    }
  }

  /** A filter keeps part of the multiset of its input. */
  lemma {:induction false} FilterSubMultiset<T>(p: T -> bool, s: seq<T>)
    ensures multiset(Filter(p, s)) <= multiset(s)
  {
    if s != [] {
      var t := s[..|s| - 1];
      var x := s[|s| - 1];
      FilterSubMultiset(p, t);
      assert s == t + [x];
      assert multiset(s) == multiset(t) + multiset{x};
      if p(x) {
        assert Filter(p, s) == Filter(p, t) + [x];
        assert multiset(Filter(p, s)) == multiset(Filter(p, t)) + multiset{x};
      } else {
        assert Filter(p, s) == Filter(p, t);
      }
    }
  }

  /** Python's `s.startswith(prefix)`. */
  predicate StartsWith(s: string, prefix: string) {
    |prefix| <= |s| && s[..|prefix|] == prefix
  }

  /** Python's `sep.join(xs)`. */
  function Join(sep: string, xs: seq<string>): (r: string)
    ensures xs == [] ==> r == []
    ensures |xs| == 1 ==> r == xs[0]
  {
    if |xs| == 0 then []
    else if |xs| == 1 then xs[0]
    else Join(sep, xs[..|xs| - 1]) + sep + xs[|xs| - 1]
  }

  /** Where the `k`-th item starts in `Join(sep, xs)`: the items before it, each followed by `sep`. */
  function Offset(sep: string, xs: seq<string>, k: nat): nat
    requires k <= |xs|
  {
    if k == 0 then 0 else Offset(sep, xs, k - 1) + |xs[k - 1]| + |sep|
  }

  lemma {:induction false} OffsetOfPrefix(sep: string, xs: seq<string>, n: nat, k: nat)
    requires k <= n <= |xs|
    ensures Offset(sep, xs[..n], k) == Offset(sep, xs, k)
  {
    if k > 0 {
      OffsetOfPrefix(sep, xs, n, k - 1);
    }
  }

  /*
   * The layout of `sep.join(xs)`, in three lemmas: the length (JoinLength), each
   * item whole at its offset (JoinItemAt), and a separator after every item but
   * the last (JoinSeparatorAt). Together they leave no other character.
   */

  lemma {:induction false} JoinLength(sep: string, xs: seq<string>)
    requires xs != []
    ensures |Join(sep, xs)| + |sep| == Offset(sep, xs, |xs|)
  {
    if |xs| > 1 {
      var n := |xs| - 1;
      JoinLength(sep, xs[..n]);
      OffsetOfPrefix(sep, xs, n, n);
    }
  }

  lemma {:induction false} JoinItemAt(sep: string, xs: seq<string>, k: nat)
    requires k < |xs|
    ensures Offset(sep, xs, k) + |xs[k]| <= |Join(sep, xs)|
    ensures Join(sep, xs)[Offset(sep, xs, k)..Offset(sep, xs, k) + |xs[k]|] == xs[k]
  {
    if |xs| > 1 {
      var n := |xs| - 1;
      var ys := xs[..n];
      var j := Join(sep, ys);
      var r := Join(sep, xs);
      assert r == j + sep + xs[n];
      OffsetOfPrefix(sep, xs, n, k);
      if k == n {
        JoinLength(sep, ys);
        OffsetOfPrefix(sep, xs, n, n);
        assert Offset(sep, xs, k) == |j| + |sep|;
      } else {
        JoinItemAt(sep, ys, k);
        var o := Offset(sep, xs, k);
        assert r[o..o + |xs[k]|] == j[o..o + |xs[k]|];
      }
    }
  }

  lemma {:induction false} JoinSeparatorAt(sep: string, xs: seq<string>, k: nat)
    requires k + 1 < |xs|
    ensures Offset(sep, xs, k) + |xs[k]| + |sep| <= |Join(sep, xs)|
    ensures Join(sep, xs)[Offset(sep, xs, k) + |xs[k]|..Offset(sep, xs, k + 1)] == sep
  {
    var n := |xs| - 1;
    var ys := xs[..n];
    var j := Join(sep, ys);
    var r := Join(sep, xs);
    assert r == j + sep + xs[n];
    OffsetOfPrefix(sep, xs, n, k);
    OffsetOfPrefix(sep, xs, n, k + 1);
    if k + 1 == n {
      JoinLength(sep, ys);
      assert Offset(sep, xs, k) + |xs[k]| == |j|;
    } else {
      JoinSeparatorAt(sep, ys, k);
      var o := Offset(sep, xs, k) + |xs[k]|;
      assert r[o..o + |sep|] == j[o..o + |sep|];
    }
  }

  /** Joining two non-empty lists is joining each and putting one separator between. */
  lemma {:induction false} JoinAppend(sep: string, xs: seq<string>, ys: seq<string>)
    requires xs != [] && ys != []
    ensures Join(sep, xs + ys) == Join(sep, xs) + sep + Join(sep, ys)
    decreases |ys|
  {
    var zs := xs + ys;
    if |ys| == 1 {
      assert zs[..|zs| - 1] == xs;
    } else {
      var ys' := ys[..|ys| - 1];
      JoinAppend(sep, xs, ys');
      assert zs[..|zs| - 1] == xs + ys';
    }
  }
}
