/** What an edit script costs: the old lines it removes and the new lines it adds.

    A script built from a match vector removes and adds exactly the unmatched lines,
    so a longest match gives the cheapest script there can be.
  */
module DiffCost {
  import opened DiffLcs
  import opened DiffMatch
  import opened DiffOutput
  import opened DiffApply

  /** Old lines removed by the changes from, ..., till-1. */
  ghost function Removed(cs: seq<Change>, from: nat, till: nat): int
    requires from <= till <= |cs|
    decreases till
  {
    if from == till then 0 else Removed(cs, from, till - 1) + (cs[till - 1].b - cs[till - 1].a + 1)
  }

  /** New lines added by them. */
  ghost function Added(cs: seq<Change>, from: nat, till: nat): int
    requires from <= till <= |cs|
    decreases till
  {
    if from == till then 0 else Added(cs, from, till - 1) + (cs[till - 1].d - cs[till - 1].c + 1)
  }

  lemma {:induction false} CostSplit(cs: seq<Change>, from: nat, mid: nat, till: nat)
    requires from <= mid <= till <= |cs|
    ensures Removed(cs, from, till) == Removed(cs, from, mid) + Removed(cs, mid, till)
    ensures Added(cs, from, till) == Added(cs, from, mid) + Added(cs, mid, till)
    decreases till
  {
    if mid < till {
      CostSplit(cs, from, mid, till - 1);
    }
  }

  lemma {:induction false} NoMatches(J: seq<int>, lo: int, hi: int)
    requires 0 <= lo <= hi < |J| && forall x :: lo < x <= hi ==> J[x] == 0
    ensures Matches(J, lo, hi) == []
    decreases hi
  {
    if lo < hi {
      NoMatches(J, lo, hi - 1);
    }
  }

  lemma GapMatches(J: seq<int>, p: Pos, q: Pos)
    requires Gap(J, p, q)
    ensures |Matches(J, p.0, q.0)| == q.0 - p.0 == q.1 - p.1
  {
    assert forall i :: p.0 < i <= q.0 ==> J[i] != 0;
  }

  lemma AddMatches(J: seq<int>, mid: int, hi: int)
    requires 0 <= mid <= hi < |J|
    ensures |Matches(J, 0, hi)| == |Matches(J, 0, mid)| + |Matches(J, mid, hi)|
  {
    MatchesSplit(J, 0, mid, hi);
  }

  /** Across a gap and a change only the lines of the gap are matched. */
  lemma ChangeMatches(J: seq<int>, p: Pos, e: Change)
    requires Gap(J, p, Before(e)) && Body(J, e)
    ensures p.0 <= e.a - 1 <= e.b < |J| && e.a - 1 - p.0 == e.c - 1 - p.1
    ensures |Matches(J, 0, e.b)| == |Matches(J, 0, p.0)| + (e.a - 1 - p.0)
  {
    GapMatches(J, p, Before(e));
    AddMatches(J, p.0, e.a - 1);
    NoMatches(J, e.a - 1, e.b);
    AddMatches(J, e.a - 1, e.b);
    hide Matches;
  }

  lemma BodyAt(J: seq<int>, cs: seq<Change>, m: int, n: int, t: nat)
    requires Script(J, cs, m, n) && t < |cs|
    ensures Body(J, cs[t]) && Gap(J, Reached(cs, t), Before(cs[t]))
  {
  }

  /** Up to the end of change t - 1 every line is matched, removed or added. */
  lemma {:induction false} CostReached(J: seq<int>, cs: seq<Change>, m: int, n: int, t: nat)
    requires Script(J, cs, m, n) && t <= |cs|
    ensures 0 <= Reached(cs, t).0 < |J|
    ensures |Matches(J, 0, Reached(cs, t).0)| + Removed(cs, 0, t) == Reached(cs, t).0
    ensures |Matches(J, 0, Reached(cs, t).0)| + Added(cs, 0, t) == Reached(cs, t).1
  {
    if t == 0 {
      NoMatches(J, 0, 0);
    } else {
      CostReached(J, cs, m, n, t - 1);
      BodyAt(J, cs, m, n, t - 1);
      hide Matches, Script, Body, Gap;
      ChangeMatches(J, Reached(cs, t - 1), cs[t - 1]);
    }
  }

  /** A script removes and adds exactly the lines that are not matched. */
  lemma ScriptCost(J: seq<int>, cs: seq<Change>, m: int, n: int)
    requires Script(J, cs, m, n)
    ensures 0 <= m < |J|
    ensures Removed(cs, 0, |cs|) == m - |Matches(J, 0, m)|
    ensures Added(cs, 0, |cs|) == n - |Matches(J, 0, m)|
  {
    hide Matches, Removed, Added;
    CostReached(J, cs, m, n, |cs|);
    ScriptGap(J, cs, m, n, |cs|);
    GapMatches(J, Reached(cs, |cs|), (m, n));
    AddMatches(J, Reached(cs, |cs|).0, m);
  }

  /** No pairing of equal lines in order leaves fewer lines over: removed and added
      are the least any script can do with. */
  ghost predicate Cheapest<T>(src: seq<T>, dst: seq<T>, removed: int, added: int) {
    forall q :: Common(src, dst, q) ==> removed <= |src| - |q| && added <= |dst| - |q|
  }

  lemma LongestIsCheapest<T>(src: seq<T>, dst: seq<T>, p: seq<Pair>)
    requires Longest(src, dst, p)
    ensures Cheapest(src, dst, |src| - |p|, |dst| - |p|)
  {
  }

  /** The changes of one file in the reverse order cost the same. */
  lemma {:induction false} ReversedCost(cs: seq<Change>, k: nat)
    requires k <= |cs|
    ensures Removed(cs, 0, k) == Removed(Reversed(cs), |cs| - k, |cs|)
    ensures Added(cs, 0, k) == Added(Reversed(cs), |cs| - k, |cs|)
  {
    if k > 0 {
      ReversedCost(cs, k - 1);
      CostSplit(Reversed(cs), |cs| - k, |cs| - k + 1, |cs|);
      assert Reversed(cs)[|cs| - k] == cs[k - 1];
    }
  }
}
