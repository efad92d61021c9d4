/** Stone's k-candidate search: `stone`, `newcand`, `search` and `unravel` of
    bsd_diff/diffreg.c.

    `clist` is the growing pot of candidates and `klist` maps a level l to the
    current candidate of a common subsequence of length l.  The thresholds of a
    klist are the new-file serials y of its candidates.
  */
module DiffStone {
  import opened DiffLcs
  import opened DiffClasses

  datatype Cand = Cand(x: int, y: int, pred: int)

  // ------------------------------------------------------------ candidates

  /** Candidate e pairs equal lines and continues an earlier candidate one
      level below its own. */
  ghost predicate Linked(cl: seq<Cand>, lev: seq<int>, e: int, a: seq<int>, b: seq<int>)
    requires 0 <= e < |cl| == |lev|
  {
    && 1 <= cl[e].x <= |a| && 1 <= cl[e].y <= |b| && a[cl[e].x - 1] == b[cl[e].y - 1]
    && 0 <= cl[e].pred < e && cl[cl[e].pred].x < cl[e].x && cl[cl[e].pred].y < cl[e].y
    && lev[e] == lev[cl[e].pred] + 1
  }

  /** Every candidate is linked; lev gives the length of its chain. */
  ghost predicate Sound(cl: seq<Cand>, lev: seq<int>, a: seq<int>, b: seq<int>) {
    && |cl| == |lev| > 0 && cl[0] == Cand(0, 0, 0) && lev[0] == 0
    && forall e :: 0 < e < |cl| ==> Linked(cl, lev, e, a, b)
  }

  /** The matches recorded by candidate e and its predecessors. */
  ghost function Chain(cl: seq<Cand>, e: int): seq<Pair>
    decreases e
  {
    if 0 <= e < |cl| && cl[e].y != 0 && 0 <= cl[e].pred < e
    then Chain(cl, cl[e].pred) + [(cl[e].x, cl[e].y)]
    else []
  }

  /** A chain is a common subsequence, as long as its level says, that ends at
      its candidate. */
  lemma {:induction false} ChainIsCommon(cl: seq<Cand>, lev: seq<int>, e: int, a: seq<int>, b: seq<int>)
    requires Sound(cl, lev, a, b) && 0 <= e < |cl|
    ensures Common(a, b, Chain(cl, e)) && |Chain(cl, e)| == lev[e]
    ensures lev[e] > 0 <==> e > 0
    ensures lev[e] > 0 ==> Chain(cl, e)[lev[e] - 1] == (cl[e].x, cl[e].y)
  {
    if e > 0 {
      assert Linked(cl, lev, e, a, b);
      ChainIsCommon(cl, lev, cl[e].pred, a, b);
      Prolonged(a, b, Chain(cl, cl[e].pred), cl[e].x, cl[e].y);
    }
  }

  lemma Prolonged(a: seq<int>, b: seq<int>, p: seq<Pair>, x: int, y: int)
    requires Common(a, b, p) && 1 <= x <= |a| && 1 <= y <= |b| && a[x - 1] == b[y - 1]
    requires p != [] ==> p[|p| - 1].0 < x && p[|p| - 1].1 < y
    ensures Common(a, b, p + [(x, y)])
  {
    assert forall t :: 0 <= t < |p| ==> p[t].0 < x && p[t].1 < y;
  }

  /** Levels 0 to k of the klist c each hold a candidate of that level, found
      in the first i rows. */
  ghost predicate Levels(cl: seq<Cand>, lev: seq<int>, c: seq<int>, k: nat, i: int) {
    k < |c| && |lev| == |cl| && forall l :: 0 <= l <= k ==> 0 <= c[l] < |cl| && lev[c[l]] == l && cl[c[l]].x <= i
  }

  ghost predicate Candidates(cl: seq<Cand>, lev: seq<int>, c: seq<int>, k: nat, i: int, a: seq<int>, b: seq<int>) {
    Sound(cl, lev, a, b) && Levels(cl, lev, c, k, i)
  }

  ghost function Threshold(cl: seq<Cand>, c: seq<int>, l: int): int {
    if 0 <= l < |c| && 0 <= c[l] < |cl| then cl[c[l]].y else 0
  }

  /** The thresholds of levels 0 to k. */
  ghost function Thresholds(cl: seq<Cand>, c: seq<int>, k: nat): (t: seq<int>)
    ensures |t| == k + 1 && forall l :: 0 <= l <= k ==> t[l] == Threshold(cl, c, l)
  {
    seq(k + 1, l => Threshold(cl, c, l))
  }

  ghost predicate Increasing(t: seq<int>) {
    forall l, m :: 0 <= l < m < |t| ==> t[l] < t[m]
  }

  /** Installing a new candidate at level l keeps every level honest. */
  lemma Install(cl: seq<Cand>, lev: seq<int>, c: seq<int>, k: nat, i: int, y: int, l: nat, pred: int, a: seq<int>, b: seq<int>)
    requires Candidates(cl, lev, c, k, i, a, b) && 1 <= l <= k + 1 < |c|
    requires 1 <= i <= |a| && 1 <= y <= |b| && a[i - 1] == b[y - 1]
    requires 0 <= pred < |cl| && lev[pred] == l - 1 && cl[pred].x < i && cl[pred].y < y
    ensures Candidates(cl + [Cand(i, y, pred)], lev + [l], c[l := |cl|], if l <= k then k else l, i, a, b)
  {
    var cl', lev' := cl + [Cand(i, y, pred)], lev + [l];
    forall e | 0 < e < |cl'| ensures Linked(cl', lev', e, a, b) {
      assert e < |cl| ==> Linked(cl, lev, e, a, b);
    }
  }

  // ------------------------------------------------- one row, as thresholds

  /** Whatever subsequence of length l can be prolonged to y in this row, level
      l + 1 records one that ends no later than y. */
  ghost predicate Covered(t: seq<int>, u: seq<int>, y: int) {
    forall l :: 0 <= l < |t| && t[l] < y ==> l + 1 < |u| && u[l + 1] <= y
  }

  /** Where the row stands before it tries y: t are the thresholds the row began
      with, u the present ones.  Levels above oldl are untouched, and `oldc` is
      the candidate that level q had when the row began. */
  ghost predicate RowState(t: seq<int>, u: seq<int>, oldl: int, q: int, y: int) {
    && |u| == |t| && 0 <= oldl <= q < |t| && t[0] == u[0] == 0
    && Increasing(t) && Increasing(u)
    && (forall l :: oldl < l < |t| ==> u[l] == t[l])
    && (forall l :: 0 <= l < |t| ==> u[l] <= t[l])
    && u[oldl] < y
    && (q == oldl || (q + 1 < |t| && t[q + 1] < y))
  }

  /** `if (y <= clist[oldc].y) continue;` loses nothing. */
  lemma SkipIsCovered(t: seq<int>, u: seq<int>, oldl: int, q: int, y: int)
    requires RowState(t, u, oldl, q, y) && y <= t[q]
    ensures Covered(t, u, y)
  {
    forall l | 0 <= l < |t| && t[l] < y ensures l + 1 < |u| && u[l + 1] <= y {
      assert l < oldl;
      assert u[l + 1] <= u[oldl];
    }
  }

  /** The point of oldc and oldl: whichever branch picks the predecessor, it is
      the level l - 1 candidate from before the row, so no old line is ever
      chained to itself. */
  lemma PredecessorIsOld(t: seq<int>, u: seq<int>, oldl: int, q: int, y: int, l: int)
    requires RowState(t, u, oldl, q, y) && t[q] < y
    requires 1 <= l <= |u| && u[l - 1] < y && (l < |u| ==> y <= u[l])
    ensures oldl + 1 <= l && (l == oldl + 1 ==> q == oldl)
    ensures t[l - 1] < y
  {
    if q > oldl && l <= q + 1 {
      assert false;
    }
    if l <= oldl {
      assert false;
    }
  }

  lemma EqualIsCovered(t: seq<int>, u: seq<int>, oldl: int, q: int, y: int, l: int)
    requires RowState(t, u, oldl, q, y) && t[q] < y
    requires oldl < l < |u| && u[l] == y
    ensures Covered(t, u, y)
  {
    forall m | 0 <= m < |t| && t[m] < y ensures m + 1 < |u| && u[m + 1] <= y {
      assert m < l;
      assert m + 1 < l ==> u[m + 1] < u[l];
    }
  }

  /** After an equal threshold is met, the next serial is past it. */
  lemma EqualKeepsState(t: seq<int>, u: seq<int>, oldl: int, q: int, y: int, l: int)
    requires RowState(t, u, oldl, q, y)
    requires oldl < l < |u| && u[l] == y && (l == oldl + 1 ==> q == oldl)
    ensures RowState(t, u, oldl, if l == oldl + 1 then q else l - 1, y + 1)
  {
  }

  lemma ReplaceIsCovered(t: seq<int>, u: seq<int>, oldl: int, q: int, y: int, l: int)
    requires RowState(t, u, oldl, q, y) && t[q] < y
    requires oldl < l < |u| && u[l - 1] < y < u[l]
    ensures Increasing(u[l := y]) && Covered(t, u[l := y], y)
  {
    var u' := u[l := y];
    forall m, n | 0 <= m < n < |u'| ensures u'[m] < u'[n] {
      assert m < l - 1 ==> u[m] < u[l - 1];
      assert l < n ==> u[l] < u[n];
    }
    forall m | 0 <= m < |t| && t[m] < y ensures m + 1 < |u'| && u'[m + 1] <= y {
      assert m < l;
      assert m + 1 < l ==> u'[m + 1] < u'[l];
    }
  }

  lemma ReplaceKeepsState(t: seq<int>, u: seq<int>, oldl: int, q: int, y: int, l: int)
    requires RowState(t, u, oldl, q, y)
    requires oldl < l < |u| && u[l - 1] < y < u[l] && Increasing(u[l := y])
    ensures RowState(t, u[l := y], l, l, y + 1) && NoWorse(u, u[l := y])
  {
  }

  lemma ExtendIsCovered(t: seq<int>, u: seq<int>, y: int, z: int)
    requires |u| == |t| > 0 && Increasing(u) && u[|u| - 1] < y <= z
    ensures Covered(t, u + [y], z) && Increasing(u + [y])
  {
    assert forall l :: 0 <= l < |u| - 1 ==> u[l] < u[|u| - 1];
  }

  /** u' has every level of u, at no larger threshold. */
  ghost predicate NoWorse(u: seq<int>, u': seq<int>) {
    |u| <= |u'| && forall l :: 0 <= l < |u| ==> u'[l] <= u[l]
  }

  lemma CoveredStays(t: seq<int>, u: seq<int>, u': seq<int>, y: int)
    requires Covered(t, u, y) && NoWorse(u, u')
    ensures Covered(t, u', y)
  {
  }

  // ----------------------------------------------- completeness, row by row

  /** No common subsequence within the first i old lines is missing: its length
      is a level, and that level's threshold is no larger than its last y. */
  ghost predicate Complete(t: seq<int>, a: seq<int>, b: seq<int>, i: int) {
    forall p: seq<Pair> :: Common(a, b, p) && (p != [] ==> p[|p| - 1].0 <= i) ==>
      |p| < |t| && (p != [] ==> t[|p|] <= p[|p| - 1].1)
  }

  lemma LastInRow(t: seq<int>, a: seq<int>, b: seq<int>, i: nat, p: seq<Pair>)
    requires 1 <= i <= |a| && Complete(t, a, b, i - 1) && |t| > 0 && t[0] == 0
    requires Common(a, b, p) && p != [] && p[|p| - 1].0 == i
    ensures |p| - 1 < |t| && t[|p| - 1] < p[|p| - 1].1
  {
    var r := p[..|p| - 1];
    assert Common(a, b, r);
    assert r != [] ==> r[|r| - 1].0 <= i - 1 && r[|r| - 1].1 < p[|p| - 1].1;
  }

  lemma NextRow(t: seq<int>, u: seq<int>, a: seq<int>, b: seq<int>, i: nat)
    requires 1 <= i <= |a| && Complete(t, a, b, i - 1) && NoWorse(t, u)
    requires |t| > 0 && t[0] == 0
    requires forall y :: 0 <= y < |b| && b[y] == a[i - 1] ==> Covered(t, u, y + 1)
    ensures Complete(u, a, b, i)
  {
    forall p: seq<Pair> | Common(a, b, p) && (p != [] ==> p[|p| - 1].0 <= i)
      ensures |p| < |u| && (p != [] ==> u[|p|] <= p[|p| - 1].1)
    {
      if p != [] && p[|p| - 1].0 == i {
        LastInRow(t, a, b, i, p);
        assert Covered(t, u, p[|p| - 1].1 - 1 + 1);
      }
    }
  }

  lemma RunIsShort(mem: seq<int>, j: int, e: int, b: seq<int>, v: int, t: int)
    requires RunLists(mem, j, e, b, v) && j <= t < e
    ensures 1 <= t - j + 1 <= Abs(mem[t]) <= |b| && b[Abs(mem[t]) - 1] == v
    ensures t + 1 < |mem| && (mem[t + 1] > 0 ==> t + 1 < e && mem[t + 1] == Abs(mem[t + 1]) > Abs(mem[t]))
    ensures mem[t + 1] <= 0 ==> t + 1 == e
    ensures Abs(mem[j]) == -mem[j]
  {
    var s := j;
    while s < t
      invariant j <= s <= t && s - j + 1 <= Abs(mem[s])
    {
      s := s + 1;
    }
  }

  lemma RunBounds(mem: seq<int>, j: int, e: int, b: seq<int>, v: int)
    requires RunLists(mem, j, e, b, v)
    ensures 1 <= j < e < |mem| && RunAscends(mem, j, e)
  {
  }

  // -------------------------------------------------------------- the search

  /** The klist half of a row's invariant: c0 is the klist the row began with
      and t its thresholds. */
  ghost predicate RowInv(cl: seq<Cand>, lev: seq<int>, c0: seq<int>, c: seq<int>, k: nat, i: int, a: seq<int>, b: seq<int>,
                         t: seq<int>, oldc: int, oldl: int, q: int)
  {
    && Candidates(cl, lev, c, k, i, a, b)
    && Levels(cl, lev, c0, k, i - 1) && t == Thresholds(cl, c0, k)
    && 0 <= oldl <= q <= k && oldc == c0[q]
    && (forall l :: oldl < l <= k ==> c[l] == c0[l])
  }

  lemma OldLevelsGrow(cl: seq<Cand>, lev: seq<int>, nc: Cand, l: int, c0: seq<int>, k: nat, i: int)
    requires Levels(cl, lev, c0, k, i)
    ensures Levels(cl + [nc], lev + [l], c0, k, i)
    ensures Thresholds(cl + [nc], c0, k) == Thresholds(cl, c0, k)
  {
  }

  lemma InstalledThresholds(cl: seq<Cand>, lev: seq<int>, c: seq<int>, k: nat, i: int, nc: Cand, l: nat)
    requires Levels(cl, lev, c, k, i) && 1 <= l <= k
    requires Levels(cl + [nc], lev + [l], c[l := |cl|], k, i)
    ensures Thresholds(cl + [nc], c[l := |cl|], k) == Thresholds(cl, c, k)[l := nc.y]
  {
  }

  lemma ReplaceInKlist(cl: seq<Cand>, lev: seq<int>, c0: seq<int>, c: seq<int>, k: nat, i: int, a: seq<int>, b: seq<int>, y: int, l: int)
    requires Candidates(cl, lev, c, k, i, a, b) && Levels(cl, lev, c0, k, i - 1)
    requires 1 <= i <= |a| && 1 <= y <= |b| && a[i - 1] == b[y - 1]
    requires 1 <= l <= k && k + 1 < |c| && cl[c0[l - 1]].y < y
    ensures Candidates(cl + [Cand(i, y, c0[l - 1])], lev + [l], c[l := |cl|], k, i, a, b)
    ensures Thresholds(cl + [Cand(i, y, c0[l - 1])], c[l := |cl|], k) == Thresholds(cl, c, k)[l := y]
  {
    Install(cl, lev, c, k, i, y, l, c0[l - 1], a, b);
    InstalledThresholds(cl, lev, c, k, i, Cand(i, y, c0[l - 1]), l);
  }

  /** The replacing branch of the row. */
  lemma RowReplaces(cl: seq<Cand>, lev: seq<int>, c0: seq<int>, c: seq<int>, k: nat, i: int, a: seq<int>, b: seq<int>,
                    t: seq<int>, oldc: int, oldl: int, q: int, y: int, l: int)
    requires RowInv(cl, lev, c0, c, k, i, a, b, t, oldc, oldl, q)
    requires 1 <= i <= |a| && 1 <= y <= |b| && a[i - 1] == b[y - 1] && k + 1 < |c|
    requires oldl < l <= k && t[l - 1] < y
    ensures RowInv(cl + [Cand(i, y, c0[l - 1])], lev + [l], c0, c[l := |cl|], k, i, a, b, t, c[l], l, l)
    ensures Thresholds(cl + [Cand(i, y, c0[l - 1])], c[l := |cl|], k) == Thresholds(cl, c, k)[l := y]
  {
    ReplaceInKlist(cl, lev, c0, c, k, i, a, b, y, l);
    OldLevelsGrow(cl, lev, Cand(i, y, c0[l - 1]), l, c0, k, i - 1);
  }

  lemma RowReplacesThresholds(t: seq<int>, u: seq<int>, oldl: int, q: int, y: int, l: int)
    requires RowState(t, u, oldl, q, y) && t[q] < y
    requires oldl < l < |u| && u[l - 1] < y < u[l]
    ensures RowState(t, u[l := y], l, l, y + 1)
    ensures Covered(t, u[l := y], y) && NoWorse(u, u[l := y])
  {
    ReplaceIsCovered(t, u, oldl, q, y, l);
    ReplaceKeepsState(t, u, oldl, q, y, l);
  }

  /** What one serial did to the row: nothing because it cannot help, nothing
      because level l already ends there, a new candidate for level l, or a new
      level l. */
  datatype Outcome = Skipped | Met(l: int) | Replaced(l: int) | Extended(l: int)

  /** y belongs to level l of the klist. */
  ghost predicate AtLevel(u: seq<int>, y: int, l: int) {
    1 <= l <= |u| && u[l - 1] < y && (l < |u| ==> y <= u[l])
  }

  /** The predecessor `stone` picks for a candidate of level l. */
  ghost function Pred(c: seq<int>, oldc: int, oldl: int, l: int): int {
    if l == oldl + 1 || !(1 <= l <= |c|) then oldc else c[l - 1]
  }

  /** The inner loop body of `stone`, as a relation between the state before
      (cl, c, oldc, oldl) and after (cl', c', oldc', oldl'). */
  ghost predicate Tried(o: Outcome, k: nat, i: int, y: int, cl: seq<Cand>, c: seq<int>, oldc: int, oldl: int,
                        cl': seq<Cand>, c': seq<int>, oldc': int, oldl': int)
    requires 0 <= oldc < |cl| && k + 1 < |c|
  {
    match o
    case Skipped => y <= cl[oldc].y && cl' == cl && c' == c && oldc' == oldc && oldl' == oldl
    case Met(l) =>
      && cl[oldc].y < y && AtLevel(Thresholds(cl, c, k), y, l) && l <= k && Threshold(cl, c, l) <= y
      && cl' == cl && c' == c && oldc' == Pred(c, oldc, oldl, l) && oldl' == oldl
    case Replaced(l) =>
      && cl[oldc].y < y && AtLevel(Thresholds(cl, c, k), y, l) && l <= k && y < Threshold(cl, c, l)
      && cl' == cl + [Cand(i, y, Pred(c, oldc, oldl, l))]
      && c' == c[l := |cl|] && oldc' == c[l] && oldl' == l
    case Extended(l) =>
      && cl[oldc].y < y && AtLevel(Thresholds(cl, c, k), y, l) && l == k + 1
      && cl' == cl + [Cand(i, y, Pred(c, oldc, oldl, l))] && c' == c[l := |cl|]
  }

  /** A row in progress: the candidates, the klist c0 the row began with, the
      present klist c, and the level q that `oldc` stems from. */
  datatype RowView = RowView(cl: seq<Cand>, lev: seq<int>, c0: seq<int>, c: seq<int>, k: nat, oldc: int, oldl: int, q: int)

  /** Both halves of the invariant of row i, before it tries y. */
  ghost predicate InRow(r: RowView, i: int, a: seq<int>, b: seq<int>, t: seq<int>, y: int) {
    match r
    case RowView(cl, lev, c0, c, k, oldc, oldl, q) =>
      && RowInv(cl, lev, c0, c, k, i, a, b, t, oldc, oldl, q)
      && RowState(t, Thresholds(cl, c, k), oldl, q, y)
  }

  lemma RowBegins(cl: seq<Cand>, lev: seq<int>, c: seq<int>, k: nat, i: int, a: seq<int>, b: seq<int>, y: int)
    requires Candidates(cl, lev, c, k, i - 1, a, b) && 1 <= y
    requires Increasing(Thresholds(cl, c, k)) && Threshold(cl, c, 0) == 0
    ensures InRow(RowView(cl, lev, c, c, k, c[0], 0, 0), i, a, b, Thresholds(cl, c, k), y)
    ensures NoWorse(Thresholds(cl, c, k), Thresholds(cl, c, k))
  {
  }

  /** What the row's invariant says about the klist alone. */
  lemma InRowFacts(r: RowView, i: int, a: seq<int>, b: seq<int>, t: seq<int>, y: int)
    requires InRow(r, i, a, b, t, y)
    ensures Candidates(r.cl, r.lev, r.c, r.k, i, a, b)
    ensures Increasing(Thresholds(r.cl, r.c, r.k)) && Threshold(r.cl, r.c, 0) == 0
    ensures r.k < |r.c| && forall m :: 0 <= m <= r.k ==> 0 <= r.c[m] < |r.cl|
    ensures r.cl[r.c[0]].y == 0 && 0 < y
    ensures 0 <= r.oldc < |r.cl| && 0 <= r.oldl <= r.q <= r.k && |t| == r.k + 1 && t[r.q] == r.cl[r.oldc].y
  {
  }

  lemma InRowLater(r: RowView, i: int, a: seq<int>, b: seq<int>, t: seq<int>, y: int, z: int)
    requires InRow(r, i, a, b, t, y) && y <= z
    ensures InRow(r, i, a, b, t, z)
  {
  }

  lemma RowSkips(r: RowView, i: int, a: seq<int>, b: seq<int>, t: seq<int>, y: int)
    requires InRow(r, i, a, b, t, y) && y <= r.cl[r.oldc].y
    ensures InRow(r, i, a, b, t, y + 1) && Covered(t, Thresholds(r.cl, r.c, r.k), y)
  {
    SkipIsCovered(t, Thresholds(r.cl, r.c, r.k), r.oldl, r.q, y);
  }

  lemma RowMeets(r: RowView, i: int, a: seq<int>, b: seq<int>, t: seq<int>, y: int, l: int) returns (r': RowView)
    requires InRow(r, i, a, b, t, y) && r.cl[r.oldc].y < y
    requires AtLevel(Thresholds(r.cl, r.c, r.k), y, l) && l <= r.k && Threshold(r.cl, r.c, l) <= y
    ensures r' == RowView(r.cl, r.lev, r.c0, r.c, r.k, Pred(r.c, r.oldc, r.oldl, l), r.oldl, r'.q)
    ensures InRow(r', i, a, b, t, y + 1)
    ensures Covered(t, Thresholds(r.cl, r.c, r.k), y)
  {
    hide RowInv, RowState, Covered;
    InRowFacts(r, i, a, b, t, y);
    var u := Thresholds(r.cl, r.c, r.k);
    PredecessorIsOld(t, u, r.oldl, r.q, y, l);
    EqualIsCovered(t, u, r.oldl, r.q, y, l);
    EqualKeepsState(t, u, r.oldl, r.q, y, l);
    r' := r.(oldc := Pred(r.c, r.oldc, r.oldl, l), q := if l == r.oldl + 1 then r.q else l - 1);
    RowInvMoves(r.cl, r.lev, r.c0, r.c, r.k, i, a, b, t, r.oldc, r.oldl, r.q, l);
  }

  lemma RowInvMoves(cl: seq<Cand>, lev: seq<int>, c0: seq<int>, c: seq<int>, k: nat, i: int, a: seq<int>, b: seq<int>,
                    t: seq<int>, oldc: int, oldl: int, q: int, l: int)
    requires RowInv(cl, lev, c0, c, k, i, a, b, t, oldc, oldl, q) && oldl < l <= k
    ensures RowInv(cl, lev, c0, c, k, i, a, b, t, Pred(c, oldc, oldl, l), oldl, if l == oldl + 1 then q else l - 1)
  {
  }

  lemma RowTakes(r: RowView, i: int, a: seq<int>, b: seq<int>, t: seq<int>, y: int, l: int)
    requires InRow(r, i, a, b, t, y) && r.cl[r.oldc].y < y
    requires 1 <= i <= |a| && 1 <= y <= |b| && a[i - 1] == b[y - 1] && r.k + 1 < |r.c|
    requires AtLevel(Thresholds(r.cl, r.c, r.k), y, l) && l <= r.k && y < Threshold(r.cl, r.c, l)
    ensures var r' := RowView(r.cl + [Cand(i, y, Pred(r.c, r.oldc, r.oldl, l))], r.lev + [l],
                              r.c0, r.c[l := |r.cl|], r.k, r.c[l], l, l);
            && InRow(r', i, a, b, t, y + 1) && Covered(t, Thresholds(r'.cl, r'.c, r.k), y)
            && NoWorse(Thresholds(r.cl, r.c, r.k), Thresholds(r'.cl, r'.c, r.k))
  {
    var u := Thresholds(r.cl, r.c, r.k);
    PredecessorIsOld(t, u, r.oldl, r.q, y, l);
    RowReplaces(r.cl, r.lev, r.c0, r.c, r.k, i, a, b, t, r.oldc, r.oldl, r.q, y, l);
    RowReplacesThresholds(t, u, r.oldl, r.q, y, l);
  }

  /** A serial that did not open a new level leaves the row's invariant in place
      for every later serial, and is itself covered. */
  lemma RowAdvances(o: Outcome, r: RowView, i: int, a: seq<int>, b: seq<int>, t: seq<int>, y: int,
                    cl': seq<Cand>, lev': seq<int>, c': seq<int>, oldc': int, oldl': int) returns (r': RowView)
    requires InRow(r, i, a, b, t, y)
    requires 1 <= i <= |a| && 1 <= y <= |b| && a[i - 1] == b[y - 1] && r.k + 1 < |r.c|
    requires !o.Extended? && Tried(o, r.k, i, y, r.cl, r.c, r.oldc, r.oldl, cl', c', oldc', oldl')
    requires lev' == r.lev + if o.Replaced? then [o.l] else []
    ensures r' == RowView(cl', lev', r.c0, c', r.k, oldc', oldl', r'.q)
    ensures InRow(r', i, a, b, t, y + 1)
    ensures Covered(t, Thresholds(cl', c', r.k), y)
    ensures NoWorse(Thresholds(r.cl, r.c, r.k), Thresholds(cl', c', r.k))
  {
    assert r.lev + [] == r.lev;
    match o
    case Skipped =>
      RowSkips(r, i, a, b, t, y);
      r' := r;
    case Met(l) =>
      r' := RowMeets(r, i, a, b, t, y, l);
    case Replaced(l) =>
      RowTakes(r, i, a, b, t, y, l);
      r' := RowView(cl', lev', r.c0, c', r.k, oldc', l, l);
  }

  /** A serial past every threshold opens a new level, which covers it and every
      later serial of the row. */
  lemma RowExtends(o: Outcome, r: RowView, i: int, a: seq<int>, b: seq<int>, t: seq<int>, y: int,
                   cl': seq<Cand>, c': seq<int>, oldc': int, oldl': int)
    requires InRow(r, i, a, b, t, y)
    requires 1 <= i <= |a| && 1 <= y <= |b| && a[i - 1] == b[y - 1] && r.k + 1 < |r.c|
    requires o.Extended? && Tried(o, r.k, i, y, r.cl, r.c, r.oldc, r.oldl, cl', c', oldc', oldl')
    ensures Candidates(cl', r.lev + [o.l], c', r.k + 1, i, a, b)
    ensures Thresholds(cl', c', r.k + 1) == Thresholds(r.cl, r.c, r.k) + [y]
    ensures Thresholds(r.cl, r.c, r.k)[r.k] < y && Increasing(Thresholds(r.cl, r.c, r.k))
  {
    var u := Thresholds(r.cl, r.c, r.k);
    PredecessorIsOld(t, u, r.oldl, r.q, y, o.l);
    Install(r.cl, r.lev, r.c, r.k, i, y, o.l, r.c0[r.k], a, b);
    assert Thresholds(cl', c', r.k + 1) == u + [y];
  }

  /** Every serial in places from, ..., to-1 of the run is covered. */
  ghost predicate RowCovered(t: seq<int>, u: seq<int>, mem: seq<int>, from: int, to: int) {
    forall r :: 0 <= from <= r < to <= |mem| ==> Covered(t, u, Abs(mem[r]))
  }

  lemma RowCoveredStep(t: seq<int>, u: seq<int>, u': seq<int>, mem: seq<int>, from: int, j: int)
    requires 0 <= from <= j < |mem| && RowCovered(t, u, mem, from, j) && NoWorse(t, u) && NoWorse(u, u')
    requires Covered(t, u', Abs(mem[j]))
    ensures RowCovered(t, u', mem, from, j + 1) && NoWorse(t, u')
  {
    forall r | from <= r < j ensures Covered(t, u', Abs(mem[r])) {
      CoveredStays(t, u, u', Abs(mem[r]));
    }
  }

  lemma RowCoveredByNewLevel(t: seq<int>, u: seq<int>, mem: seq<int>, from: int, j: int, e: int, y: int)
    requires 0 <= from <= j < e <= |mem| && RowCovered(t, u, mem, from, j) && y == Abs(mem[j])
    requires RunAscends(mem, from, e)
    requires |u| == |t| > 0 && Increasing(u) && u[|u| - 1] < y && NoWorse(t, u)
    ensures RowCovered(t, u + [y], mem, from, e) && Increasing(u + [y]) && NoWorse(t, u + [y])
  {
    ExtendIsCovered(t, u, y, y);
    forall r | from <= r < e ensures Covered(t, u + [y], Abs(mem[r])) {
      if r < j {
        CoveredStays(t, u, u + [y], Abs(mem[r]));
      } else {
        ExtendIsCovered(t, u, y, Abs(mem[r]));
      }
    }
  }

  /** What a finished row leaves: honest, increasing levels that are no worse
      than the thresholds t it began with. */
  ghost predicate RowResult(cl: seq<Cand>, lev: seq<int>, c: seq<int>, k: nat, i: int, a: seq<int>, b: seq<int>, t: seq<int>) {
    && Candidates(cl, lev, c, k, i, a, b)
    && Increasing(Thresholds(cl, c, k)) && Threshold(cl, c, 0) == 0
    && NoWorse(t, Thresholds(cl, c, k))
  }

  /** The whole loop invariant of row i at place j of the run from start to e. */
  ghost predicate RowLoop(r: RowView, i: int, a: seq<int>, b: seq<int>, t: seq<int>, y: int, ms: seq<int>, start: int, j: int, e: int) {
    && 1 <= i <= |a| && RunLists(ms, start, e, b, a[i - 1]) && start <= j < e && y == Abs(ms[j])
    && r.k + 1 < |r.c| && InRow(r, i, a, b, t, y)
    && NoWorse(t, Thresholds(r.cl, r.c, r.k)) && RowCovered(t, Thresholds(r.cl, r.c, r.k), ms, start, j)
  }

  lemma RowLoopBegins(cl: seq<Cand>, lev: seq<int>, c: seq<int>, k: nat, i: int, a: seq<int>, b: seq<int>, ms: seq<int>, start: int, e: int)
    requires 1 <= i <= |a| && RunLists(ms, start, e, b, a[i - 1]) && k + 1 < |c|
    requires Candidates(cl, lev, c, k, i - 1, a, b)
    requires Increasing(Thresholds(cl, c, k)) && Threshold(cl, c, 0) == 0
    ensures 1 <= start < e < |ms|
    ensures RowLoop(RowView(cl, lev, c, c, k, c[0], 0, 0), i, a, b, Thresholds(cl, c, k), -ms[start], ms, start, start, e)
  {
    hide Candidates, Increasing, Thresholds, InRow, Threshold;
    RunIsShort(ms, start, e, b, a[i - 1], start);
    RowBegins(cl, lev, c, k, i, a, b, -ms[start]);
  }

  lemma RowLoopFacts(r: RowView, i: int, a: seq<int>, b: seq<int>, t: seq<int>, y: int, ms: seq<int>, start: int, j: int, e: int)
    requires RowLoop(r, i, a, b, t, y, ms, start, j, e)
    ensures r.k + 1 < |r.c| && forall m :: 0 <= m <= r.k ==> 0 <= r.c[m] < |r.cl|
    ensures Increasing(Thresholds(r.cl, r.c, r.k)) && r.cl[r.c[0]].y < y
    ensures 0 <= r.oldc < |r.cl| && 0 <= r.oldl
    ensures start <= j < e && j + 1 < |ms| && j - start + 1 <= |b|
  {
    hide InRow, Increasing, Thresholds, NoWorse, RowCovered;
    InRowFacts(r, i, a, b, t, y);
    RunIsShort(ms, start, e, b, a[i - 1], j);
  }

  lemma RowLoopStep(o: Outcome, r: RowView, i: int, a: seq<int>, b: seq<int>, t: seq<int>, y: int, ms: seq<int>, start: int, j: int, e: int,
                    cl': seq<Cand>, lev': seq<int>, c': seq<int>, oldc': int, oldl': int) returns (r': RowView)
    requires RowLoop(r, i, a, b, t, y, ms, start, j, e) && j + 1 < |ms|
    requires 0 <= r.oldc < |r.cl|
    requires !o.Extended? && Tried(o, r.k, i, y, r.cl, r.c, r.oldc, r.oldl, cl', c', oldc', oldl')
    requires lev' == r.lev + if o.Replaced? then [o.l] else []
    ensures r' == RowView(cl', lev', r.c0, c', r.k, oldc', oldl', r'.q)
    ensures RowResult(cl', lev', c', r.k, i, a, b, t)
    ensures ms[j + 1] > 0 ==> RowLoop(r', i, a, b, t, ms[j + 1], ms, start, j + 1, e)
    ensures ms[j + 1] <= 0 ==> RowCovered(t, Thresholds(cl', c', r.k), ms, start, e)
  {
    hide InRow, Increasing, Thresholds, NoWorse, RowCovered, Covered, Candidates, Threshold;
    RunIsShort(ms, start, e, b, a[i - 1], j);
    InRowFacts(r, i, a, b, t, y);
    r' := RowAdvances(o, r, i, a, b, t, y, cl', lev', c', oldc', oldl');
    InRowFacts(r', i, a, b, t, y + 1);
    RowCoveredStep(t, Thresholds(r.cl, r.c, r.k), Thresholds(cl', c', r.k), ms, start, j);
    if ms[j + 1] > 0 {
      InRowLater(r', i, a, b, t, y + 1, ms[j + 1]);
    }
  }

  lemma RowLoopExtends(o: Outcome, r: RowView, i: int, a: seq<int>, b: seq<int>, t: seq<int>, y: int, ms: seq<int>, start: int, j: int, e: int,
                       cl': seq<Cand>, lev': seq<int>, c': seq<int>, oldc': int, oldl': int)
    requires RowLoop(r, i, a, b, t, y, ms, start, j, e) && 0 <= r.oldc < |r.cl|
    requires o.Extended? && Tried(o, r.k, i, y, r.cl, r.c, r.oldc, r.oldl, cl', c', oldc', oldl')
    requires lev' == r.lev + [o.l]
    ensures RowResult(cl', lev', c', r.k + 1, i, a, b, t)
    ensures RowCovered(t, Thresholds(cl', c', r.k + 1), ms, start, e)
  {
    hide InRow, Increasing, NoWorse, RowCovered, Covered, Candidates;
    RunBounds(ms, start, e, b, a[i - 1]);
    RunIsShort(ms, start, e, b, a[i - 1], j);
    InRowFacts(r, i, a, b, t, y);
    RowExtends(o, r, i, a, b, t, y, cl', c', oldc', oldl');
    RowCoveredByNewLevel(t, Thresholds(r.cl, r.c, r.k), ms, start, j, e, y);
  }

  // ----------------------------------------------------------- whole search

  /** How many candidates one row may install; sq is the integer square root of
      the old file's length. */
  function TryBound(minimal: bool, sq: nat): nat {
    if minimal then 0xFFFF_FFFF else if sq > 256 then sq else 256
  }

  /** With the minimal flag, or fewer than 256 new lines, or fewer than sq of them, no run
      is cut short. */
  predicate Unlimited(m: nat, minimal: bool, sq: nat) {
    minimal || m < 256 || m < sq
  }

  /** The outer loop invariant of `stone` after i old lines; `full` says that no
      run was cut short. */
  ghost predicate Searched(cl: seq<Cand>, lev: seq<int>, c: seq<int>, k: nat, i: nat, a: seq<int>, b: seq<int>, full: bool) {
    && k <= i && Candidates(cl, lev, c, k, i, a, b)
    && Increasing(Thresholds(cl, c, k)) && Threshold(cl, c, 0) == 0
    && (full ==> Complete(Thresholds(cl, c, k), a, b, i))
  }

  lemma SearchBegins(c: seq<int>, a: seq<int>, b: seq<int>)
    requires |c| > 0 && c[0] == 0
    ensures Searched([Cand(0, 0, 0)], [0], c, 0, 0, a, b, true)
  {
    forall p: seq<Pair> | Common(a, b, p) && (p != [] ==> p[|p| - 1].0 <= 0)
      ensures |p| < 1
    {
      assert p == [];
    }
  }

  lemma SearchSkips(cl: seq<Cand>, lev: seq<int>, c: seq<int>, k: nat, i: nat, a: seq<int>, b: seq<int>, full: bool)
    requires 1 <= i <= |a| && Searched(cl, lev, c, k, i - 1, a, b, full) && a[i - 1] !in b
    ensures Searched(cl, lev, c, k, i, a, b, full)
  {
    if full {
      NextRow(Thresholds(cl, c, k), Thresholds(cl, c, k), a, b, i);
    }
  }

  lemma SearchRow(cl: seq<Cand>, lev: seq<int>, c: seq<int>, k: nat, cl': seq<Cand>, lev': seq<int>, c': seq<int>, k': nat,
                  i: nat, a: seq<int>, b: seq<int>, full: bool, mem: seq<int>, start: int, e: int)
    requires 1 <= i <= |a| && Searched(cl, lev, c, k, i - 1, a, b, full) && k' <= k + 1
    requires RowResult(cl', lev', c', k', i, a, b, Thresholds(cl, c, k))
    requires RunLists(mem, start, e, b, a[i - 1])
    requires full ==> RowCovered(Thresholds(cl, c, k), Thresholds(cl', c', k'), mem, start, e)
    ensures Searched(cl', lev', c', k', i, a, b, full)
  {
    if full {
      hide Candidates, Increasing;
      var t, u := Thresholds(cl, c, k), Thresholds(cl', c', k');
      forall y | 0 <= y < |b| && b[y] == a[i - 1] ensures Covered(t, u, y + 1) {
        assert InRun(mem, start, e, y + 1);
        var r :| start <= r < e && Abs(mem[r]) == y + 1;
      }
      NextRow(t, u, a, b, i);
    }
  }

  /** A complete search ends with a longest common subsequence. */
  lemma SearchFinds(cl: seq<Cand>, lev: seq<int>, c: seq<int>, k: nat, a: seq<int>, b: seq<int>)
    requires Searched(cl, lev, c, k, |a|, a, b, true)
    ensures Longest(a, b, Chain(cl, c[k])) && |Chain(cl, c[k])| == k
  {
    hide Linked;
    ChainIsCommon(cl, lev, c[k], a, b);
    forall q: seq<Pair> | Common(a, b, q) ensures |q| <= k {
      assert q != [] ==> q[|q| - 1].0 <= |a|;
    }
  }

  // ---------------------------------------------------------------- unravel

  /** The match vector before any candidate is entered: the common prefix and
      suffix are matched, the lines between are not. */
  ghost function BaseJ(len0: nat, len1: nat, pref: nat, suff: nat, i: int): int {
    if i <= pref then i else if i > len0 - suff then i + len1 - len0 else 0
  }

  /** J is the base vector with the pairs m, m+1, ... of ch entered. */
  ghost predicate Entered(J: seq<int>, len0: nat, len1: nat, pref: nat, suff: nat, ch: seq<Pair>, m: int) {
    && len0 < |J| && 0 <= m <= |ch|
    && (forall t :: m <= t < |ch| ==> 0 < ch[t].0 + pref <= len0 - suff && J[ch[t].0 + pref] == ch[t].1 + pref)
    && (forall i :: 0 <= i <= len0 && !Taken(ch, m, i - pref) ==> J[i] == BaseJ(len0, len1, pref, suff, i))
  }

  /** One of the pairs m, m+1, ... of ch matches old line x. */
  ghost predicate Taken(ch: seq<Pair>, m: int, x: int) {
    exists t :: 0 <= m <= t < |ch| && ch[t].0 == x
  }

  lemma EnterNext(J: seq<int>, len0: nat, len1: nat, pref: nat, suff: nat, ch: seq<Pair>, m: int, a: seq<int>, b: seq<int>)
    requires Entered(J, len0, len1, pref, suff, ch, m) && 0 < m
    requires Common(a, b, ch) && |a| == len0 - pref - suff
    ensures 0 < ch[m - 1].0 + pref <= len0 - suff
    ensures Entered(J[ch[m - 1].0 + pref := ch[m - 1].1 + pref], len0, len1, pref, suff, ch, m - 1)
  {
    var J' := J[ch[m - 1].0 + pref := ch[m - 1].1 + pref];
    forall i | 0 <= i <= len0 && !Taken(ch, m - 1, i - pref)
      ensures J'[i] == BaseJ(len0, len1, pref, suff, i)
    {
      assert ch[m - 1].0 + pref != i;
      assert !Taken(ch, m, i - pref);
    }
  }

  class Matcher {
    var clist: seq<Cand>
    ghost var lev: seq<int>  // the length of each candidate's chain

    constructor ()
      ensures clist == [] && lev == []
    {
      clist, lev := [], [];
    }

    method NewCand(x: int, y: int, pred: int) returns (r: int)
      modifies this`clist
      ensures clist == old(clist) + [Cand(x, y, pred)] && r == old(|clist|)
    {
      r := |clist|;
      clist := clist + [Cand(x, y, pred)];
    }

    /** Binary search of the klist for the level that y belongs to. */
    method Search(c: array<int>, k: nat, y: int) returns (l: int)
      requires k < c.Length && forall m :: 0 <= m <= k ==> 0 <= c[m] < |clist|
      requires Increasing(Thresholds(clist, c[..], k))
      requires clist[c[0]].y < y
      ensures 1 <= l <= k + 1 && clist[c[l - 1]].y < y
      ensures l <= k ==> y <= clist[c[l]].y
    {
      ghost var t := Thresholds(clist, c[..], k);
      if clist[c[k]].y < y {
        return k + 1;
      }
      var i, j := 0, k + 1;
      while true
        invariant 0 <= i < j <= k + 1
        invariant t[i] < y && (j <= k ==> y < t[j])
        decreases j - i
      {
        l := (i + j) / 2;
        if l <= i {
          break;
        }
        var th := clist[c[l]].y;
        if th > y {
          j := l;
        } else if th < y {
          i := l;
        } else {
          assert t[l - 1] < t[l];
          return l;
        }
      }
      l := l + 1;
    }

    /** The body of the inner loop of `stone` for one serial y. */
    method TryOne(c: array<int>, k: nat, i: int, y: int, oldc0: int, oldl0: int)
      returns (oldc: int, oldl: int, o: Outcome)
      requires k + 1 < c.Length && forall m :: 0 <= m <= k ==> 0 <= c[m] < |clist|
      requires 0 <= oldc0 < |clist| && 0 <= oldl0
      requires Increasing(Thresholds(clist, c[..], k)) && clist[c[0]].y < y
      modifies this, c
      ensures Tried(o, k, i, y, old(clist), old(c[..]), oldc0, oldl0, clist, c[..], oldc, oldl)
      ensures lev == old(lev) + if o.Replaced? || o.Extended? then [o.l] else []
    {
      oldc, oldl, o := oldc0, oldl0, Skipped;
      if y <= clist[oldc].y {
        return;
      }
      var l := Search(c, k, y);
      if l != oldl + 1 {
        oldc := c[l - 1];
      }
      if l <= k {
        if clist[c[l]].y <= y {
          o := Met(l);
          return;
        }
        oldc := Replace(c, l, i, y, oldc);
        oldl, o := l, Replaced(l);
      } else {
        var tc := Replace(c, l, i, y, oldc);
        o := Extended(l);
      }
    }

    /** Installs a new candidate at level l and hands back the one it displaces. */
    method Replace(c: array<int>, l: nat, i: int, y: int, pred: int) returns (tc: int)
      requires l < c.Length
      modifies this, c
      ensures clist == old(clist) + [Cand(i, y, pred)] && lev == old(lev) + [l]
      ensures c[..] == old(c[..])[l := old(|clist|)] && tc == old(c[l])
    {
      tc := c[l];
      lev := lev + [l];
      var r := NewCand(i, y, pred);
      c[l] := r;
    }

    /** One old line: offers every equal new line to the klist, in ascending
        order, until the run ends, a new level opens, or the bound is used up. */
    method Row(mem: array<int>, c: array<int>, k0: nat, i: int, start: int, bound: nat,
               ghost e: int, ghost a: seq<int>, ghost b: seq<int>) returns (k: nat)
      requires mem != c && k0 + 1 < c.Length && 1 <= i <= |a|
      requires RunLists(mem[..], start, e, b, a[i - 1])
      requires Candidates(clist, lev, c[..], k0, i - 1, a, b)
      requires Increasing(Thresholds(clist, c[..], k0)) && Threshold(clist, c[..], 0) == 0
      modifies this, c
      ensures k0 <= k <= k0 + 1
      ensures RowResult(clist, lev, c[..], k, i, a, b, old(Thresholds(clist, c[..], k0)))
      ensures |b| < bound ==> RowCovered(old(Thresholds(clist, c[..], k0)), Thresholds(clist, c[..], k), mem[..], start, e)
    {
      hide RowLoop, RowResult, RowCovered, Candidates, Increasing, Thresholds, Threshold, Tried, RunLists, Abs;
      ghost var t, ms, c0 := Thresholds(clist, c[..], k0), mem[..], c[..];
      RowLoopBegins(clist, lev, c0, k0, i, a, b, ms, start, e);
      var j, y, oldl, oldc, numtries := start, -mem[start], 0, c[0], 0;
      k := k0;
      ghost var r := RowView(clist, lev, c0, c0, k0, oldc, oldl, 0);
      while true
        invariant 0 <= j < mem.Length && mem[..] == ms && k == k0
        invariant r == RowView(clist, lev, r.c0, c[..], k, oldc, oldl, r.q)
        invariant RowLoop(r, i, a, b, t, y, ms, start, j, e)
        invariant 0 <= numtries <= j - start
        decreases e - j
      {
        RowLoopFacts(r, i, a, b, t, y, ms, start, j, e);
        var o;
        oldc, oldl, o := TryOne(c, k, i, y, oldc, oldl);
        if o.Extended? {
          RowLoopExtends(o, r, i, a, b, t, y, ms, start, j, e, clist, lev, c[..], oldc, oldl);
          k := k + 1;
          return;
        }
        if o.Replaced? {
          numtries := numtries + 1;
        }
        r := RowLoopStep(o, r, i, a, b, t, y, ms, start, j, e, clist, lev, c[..], oldc, oldl);
        j := j + 1;
        y := mem[j];
        if !(y > 0 && numtries < bound) {
          break;
        }
      }
    }

    /** The k-candidate search.  With `minimal`, or when the new file has fewer than 256
        lines or fewer than sq, the search is complete; in any case the chains of its
        klist are common subsequences. */
    method Stone(cls: array<int>, n: nat, mem: array<int>, c: array<int>, minimal: bool, sq: nat,
                 ghost a: seq<int>, ghost b: seq<int>) returns (k: nat)
      requires clist == [] && lev == []
      requires n == |a| && n + 1 < c.Length && mem != c && cls != c
      requires |b| < 0x8000_0000
      requires ClassesOf(cls[..], mem[..], a, b)
      modifies this, c
      ensures Searched(clist, lev, c[..], k, n, a, b, Unlimited(|b|, minimal, sq))
    {
      hide Searched, RowResult, RowCovered, RunLists, Thresholds, HasRun;
      var bound := TryBound(minimal, sq);
      ghost var full := Unlimited(|b|, minimal, sq);
      assert full ==> |b| < bound;
      ghost var ms, cs := mem[..], cls[..];
      k := 0;
      lev := [0];
      c[0] := NewCand(0, 0, 0);
      assert clist == [Cand(0, 0, 0)];
      SearchBegins(c[..], a, b);
      SearchWeaker(clist, lev, c[..], k, 0, a, b, full);
      for i := 1 to n + 1
        invariant mem[..] == ms && cls[..] == cs
        invariant Searched(clist, lev, c[..], k, i - 1, a, b, full)
      {
        var j := cls[i];
        assert cs[i] == j;
        if j == 0 {
          SearchSkips(clist, lev, c[..], k, i, a, b, full);
        } else {
          ghost var e := RunEnd(ms, j, b, a[i - 1]);
          ghost var cl0, lev0, c0, k0 := clist, lev, c[..], k;
          SearchedFacts(clist, lev, c[..], k, i - 1, a, b, full);
          k := Row(mem, c, k, i, j, bound, e, a, b);
          SearchRow(cl0, lev0, c0, k0, clist, lev, c[..], k, i, a, b, full, ms, j, e);
        }
      }
    }

    /** Fills the match vector from the chain of candidate p. */
    method Unravel(J: array<int>, p: int, len0: nat, len1: nat, pref: nat, suff: nat,
                   ghost a: seq<int>, ghost b: seq<int>)
      requires len0 < J.Length && Sound(clist, lev, a, b) && 0 <= p < |clist|
      requires |a| == len0 - pref - suff
      modifies J
      ensures Entered(J[..], len0, len1, pref, suff, Chain(clist, p), 0)
    {
      hide Sound, Entered, Chain, Common;
      ghost var ch := Chain(clist, p);
      FillBase(J, len0, len1, pref, suff, ch);
      var q := p;
      ghost var m := |ch|;
      ChainIsCommon(clist, lev, p, a, b);
      assert ch[..m] == ch;
      while clist[q].y != 0
        invariant 0 <= q < |clist|
        invariant 0 <= m <= |ch| && Chain(clist, q) == ch[..m]
        invariant Entered(J[..], len0, len1, pref, suff, ch, m)
        decreases q
      {
        ChainStep(clist, lev, q, a, b);
        ghost var J0 := J[..];
        LastOfPrefix(ch, m, Chain(clist, clist[q].pred), (clist[q].x, clist[q].y));
        EnterNext(J0, len0, len1, pref, suff, ch, m, a, b);
        J[clist[q].x + pref] := clist[q].y + pref;
        assert J[..] == J0[clist[q].x + pref := clist[q].y + pref];
        m := m - 1;
        q := clist[q].pred;
      }
      ChainEnds(clist, lev, q, a, b);
    }

    method FillBase(J: array<int>, len0: nat, len1: nat, pref: nat, suff: nat, ghost ch: seq<Pair>)
      requires len0 < J.Length
      modifies J
      ensures Entered(J[..], len0, len1, pref, suff, ch, |ch|)
    {
      for i := 0 to len0 + 1
        invariant forall t :: 0 <= t < i ==> J[t] == BaseJ(len0, len1, pref, suff, t)
      {
        J[i] := if i <= pref then i else if i > len0 - suff then i + len1 - len0 else 0;
      }
    }
  }

  lemma LastOfPrefix(ch: seq<Pair>, m: int, q: seq<Pair>, last: Pair)
    requires 0 <= m <= |ch| && ch[..m] == q + [last]
    ensures m > 0 && ch[m - 1] == last && ch[..m - 1] == q
  {
    assert ch[m - 1] == ch[..m][m - 1];
    assert ch[..m - 1] == ch[..m][..m - 1];
  }

  lemma ChainStep(cl: seq<Cand>, lev: seq<int>, e: int, a: seq<int>, b: seq<int>)
    requires Sound(cl, lev, a, b) && 0 <= e < |cl| && cl[e].y != 0
    ensures 1 <= cl[e].x <= |a| && 0 <= cl[e].pred < e
    ensures Chain(cl, e) == Chain(cl, cl[e].pred) + [(cl[e].x, cl[e].y)]
  {
    assert Linked(cl, lev, e, a, b);
  }

  lemma ChainEnds(cl: seq<Cand>, lev: seq<int>, e: int, a: seq<int>, b: seq<int>)
    requires Sound(cl, lev, a, b) && 0 <= e < |cl| && cl[e].y == 0
    ensures Chain(cl, e) == []
  {
    assert e != 0 ==> Linked(cl, lev, e, a, b);
  }

  lemma SearchWeaker(cl: seq<Cand>, lev: seq<int>, c: seq<int>, k: nat, i: nat, a: seq<int>, b: seq<int>, full: bool)
    requires Searched(cl, lev, c, k, i, a, b, true)
    ensures Searched(cl, lev, c, k, i, a, b, full)
  {
  }

  lemma SearchedFacts(cl: seq<Cand>, lev: seq<int>, c: seq<int>, k: nat, i: nat, a: seq<int>, b: seq<int>, full: bool)
    requires Searched(cl, lev, c, k, i, a, b, full)
    ensures k <= i && Candidates(cl, lev, c, k, i, a, b)
    ensures Increasing(Thresholds(cl, c, k)) && Threshold(cl, c, 0) == 0
  {
  }

  ghost function RunEnd(mem: seq<int>, j: int, b: seq<int>, v: int): (e: int)
    requires HasRun(mem, j, b, v)
    ensures RunLists(mem, j, e, b, v)
  {
    var e :| RunLists(mem, j, e, b, v); e
  }
}
