/** Common subsequences of two line sequences.

    A common subsequence is a list of index pairs (x, y), both strictly
    increasing, that pair equal lines.  Indices are 1-based, as they are in
    diffreg.c.  Nothing in this module mentions the algorithm: it is the
    yardstick that `stone`, `unravel` and `prune` are measured against.
  */
module DiffLcs {

  type Pair = (int, int)

  /** p pairs equal elements of a and b, strictly increasing on both sides. */
  ghost predicate Common<T>(a: seq<T>, b: seq<T>, p: seq<Pair>) {
    && (forall t :: 0 <= t < |p| ==> 1 <= p[t].0 <= |a| && 1 <= p[t].1 <= |b| && a[p[t].0 - 1] == b[p[t].1 - 1])
    && (forall s, t :: 0 <= s < t < |p| ==> p[s].0 < p[t].0 && p[s].1 < p[t].1)
  }

  /** p is as long as a common subsequence of a and b can be. */
  ghost predicate Longest<T>(a: seq<T>, b: seq<T>, p: seq<Pair>) {
    && Common(a, b, p)
    && forall q :: Common(a, b, q) ==> |q| <= |p|
  }

  /** The t-th pair sits at least t places from either end, on both sides. */
  lemma {:induction false} PairBounds<T>(a: seq<T>, b: seq<T>, p: seq<Pair>, t: nat)
    requires Common(a, b, p) && t < |p|
    ensures t + 1 <= p[t].0 <= |a| - (|p| - 1 - t)
    ensures t + 1 <= p[t].1 <= |b| - (|p| - 1 - t)
  {
    var s := t;
    while s > 0
      invariant 0 <= s <= t
      invariant p[s].0 <= p[t].0 - (t - s) && p[s].1 <= p[t].1 - (t - s)
    {
      s := s - 1;
    }
    var u := t;
    while u + 1 < |p|
      invariant t <= u < |p|
      invariant p[t].0 <= p[u].0 - (u - t) && p[t].1 <= p[u].1 - (u - t)
    {
      u := u + 1;
    }
  }

  /** The pairs that survive cutting the ends off both files, renumbered. */
  ghost function Middle(p: seq<Pair>, pref: nat, suff: nat): (r: seq<Pair>)
    requires pref + suff <= |p|
    ensures |r| == |p| - pref - suff
    ensures forall t :: 0 <= t < |r| ==> r[t] == (p[t + pref].0 - pref, p[t + pref].1 - pref)
  {
    seq(|p| - pref - suff, t requires 0 <= t < |p| - pref - suff => (p[t + pref].0 - pref, p[t + pref].1 - pref))
  }

  lemma MiddleIsCommon<T>(a: seq<T>, b: seq<T>, pref: nat, suff: nat, q: seq<Pair>)
    requires pref + suff <= |a| && pref + suff <= |b| && pref + suff <= |q|
    requires Common(a, b, q)
    ensures Common(a[pref..|a| - suff], b[pref..|b| - suff], Middle(q, pref, suff))
  {
    var r := Middle(q, pref, suff);
    var a', b' := a[pref..|a| - suff], b[pref..|b| - suff];
    forall t | 0 <= t < |r|
      ensures 1 <= r[t].0 <= |a'| && 1 <= r[t].1 <= |b'| && a'[r[t].0 - 1] == b'[r[t].1 - 1]
    {
      PairBounds(a, b, q, pref + t);
      assert a'[r[t].0 - 1] == a[q[pref + t].0 - 1];
      assert b'[r[t].1 - 1] == b[q[pref + t].1 - 1];
    }
    forall s, t | 0 <= s < t < |r| ensures r[s].0 < r[t].0 && r[s].1 < r[t].1 {
      assert q[pref + s].0 < q[pref + t].0 && q[pref + s].1 < q[pref + t].1;
    }
  }

  /** No common subsequence of the whole files beats a longest one of the
      middles by more than the trimmed lines. */
  lemma PrunedBound<T>(a: seq<T>, b: seq<T>, pref: nat, suff: nat, k: nat, q: seq<Pair>)
    requires pref + suff <= |a| && pref + suff <= |b|
    requires forall r :: Common(a[pref..|a| - suff], b[pref..|b| - suff], r) ==> |r| <= k
    requires Common(a, b, q)
    ensures |q| <= pref + k + suff
  {
    if |q| > pref + suff {
      MiddleIsCommon(a, b, pref, suff, q);
    }
  }
}
