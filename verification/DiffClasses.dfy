/** Equivalence classes of lines: `prune`, `sort`, `equiv` and `unsort` of
    bsd_diff/diffreg.c.

    A file is an array of lines, used from index 1; `s` is the offset of the
    pruned window inside it (the C code keeps a pointer `sfile = file + pref`).
    `member` and `class` lie in the storage of the files, as words: a line is two of
    them.
  */
module DiffClasses {

  datatype Line = Line(serial: int, value: int)

  /** Lines from, ..., from+n-1 of a file, as values. */
  ghost function Values(f: seq<Line>, from: nat, n: nat): (r: seq<int>)
    requires from + n <= |f|
    ensures |r| == n && forall i :: 0 <= i < n ==> r[i] == f[from + i].value
  {
    seq(n, i requires 0 <= i < n => f[from + i].value)
  }

  /** The window with serial numbers 1, 2, ... that `prune` leaves behind. */
  ghost function Numbered(a: seq<int>): (r: seq<Line>)
    ensures |r| == |a| && forall i :: 0 <= i < |a| ==> r[i] == Line(i + 1, a[i])
  {
    seq(|a|, i requires 0 <= i < |a| => Line(i + 1, a[i]))
  }

  // ---------------------------------------------------------------- prune

  /** Lengths of the common prefix and of the common suffix of the rest; both
      are as long as they can be. */
  method CommonEnds(f0: array<Line>, f1: array<Line>, len0: nat, len1: nat) returns (pref: nat, suff: nat)
    requires len0 < f0.Length && len1 < f1.Length
    ensures pref + suff <= len0 && pref + suff <= len1
    ensures forall i :: 1 <= i <= pref ==> f0[i].value == f1[i].value
    ensures forall i :: len0 - suff < i <= len0 ==> f0[i].value == f1[i + len1 - len0].value
    ensures pref == len0 || pref == len1 || f0[pref + 1].value != f1[pref + 1].value
    ensures pref + suff == len0 || pref + suff == len1 || f0[len0 - suff].value != f1[len1 - suff].value
  {
    pref := 0;
    while pref < len0 && pref < len1 && f0[pref + 1].value == f1[pref + 1].value
      invariant pref <= len0 && pref <= len1
      invariant forall i :: 1 <= i <= pref ==> f0[i].value == f1[i].value
    {
      pref := pref + 1;
    }
    suff := 0;
    while suff < len0 - pref && suff < len1 - pref && f0[len0 - suff].value == f1[len1 - suff].value
      invariant pref + suff <= len0 && pref + suff <= len1
      invariant forall i :: len0 - suff < i <= len0 ==> f0[i].value == f1[i + len1 - len0].value
    {
      suff := suff + 1;
    }
  }

  method Number(f: array<Line>, pref: nat, slen: nat)
    requires pref + slen < f.Length
    modifies f
    ensures forall i :: 0 <= i < f.Length ==> f[i].value == old(f[i].value)
    ensures forall i :: pref <= i <= pref + slen ==> f[i].serial == i - pref
    ensures forall i :: 0 <= i < pref || pref + slen < i < f.Length ==> f[i] == old(f[i])
  {
    for i := 0 to slen + 1
      invariant forall t :: 0 <= t < f.Length ==> f[t].value == old(f[t].value)
      invariant forall t :: pref <= t < pref + i ==> f[t].serial == t - pref
      invariant forall t :: 0 <= t < pref || pref + i <= t < f.Length ==> f[t] == old(f[t])
    {
      f[pref + i] := Line(i, f[pref + i].value);
    }
  }

  // ----------------------------------------------------------------- sort

  predicate Less(x: Line, y: Line) {
    x.value < y.value || (x.value == y.value && x.serial < y.serial)
  }

  /** f[lo..hi) is in order of value, then serial. */
  ghost predicate Sorted(f: seq<Line>, lo: int, hi: int) {
    forall i, j :: 0 <= lo <= i < j < hi <= |f| ==> !Less(f[j], f[i])
  }

  /** g is a rearrangement of f that leaves everything outside [lo, hi) alone. */
  ghost predicate Rearranged(f: seq<Line>, g: seq<Line>, lo: int, hi: int) {
    && |f| == |g|
    && multiset(f) == multiset(g)
    && forall i :: 0 <= i < |f| && !(lo <= i < hi) ==> f[i] == g[i]
  }

  /** Sorted up to hi except that entry `at` may be too small for its place. */
  ghost predicate SortedBut(f: seq<Line>, lo: int, at: int, hi: int) {
    forall i, j :: 0 <= lo <= i < j < hi <= |f| && j != at ==> !Less(f[j], f[i])
  }

  lemma SortedButSwap(f: seq<Line>, lo: int, at: int, hi: int)
    requires 0 <= lo < at < hi <= |f| && SortedBut(f, lo, at, hi)
    requires !Less(f[at - 1], f[at])
    ensures SortedBut(f[at - 1 := f[at]][at := f[at - 1]], lo, at - 1, hi)
  {
  }

  lemma SortedButDone(f: seq<Line>, lo: int, at: int, hi: int)
    requires 0 <= lo <= at < hi <= |f| && SortedBut(f, lo, at, hi)
    requires at == lo || Less(f[at - 1], f[at])
    ensures Sorted(f, lo, hi)
  {
  }

  /** Where the inner loop is: at the unit gap the line being sunk is the only one that
      may be out of order. */
  ghost predicate Sifting(f0: seq<Line>, f: seq<Line>, s: nat, n: nat, j: nat, m: nat, ai: int) {
    && |f| == |f0| && Rearranged(f0, f, s + 1, s + n + 1)
    && (m == 1 && Sorted(f0, s + 1, s + j + 1) ==> 0 <= ai && SortedBut(f, s + 1, s + ai + 1, s + j + 2))
  }

  lemma SiftingStart(f: seq<Line>, s: nat, n: nat, j: nat, m: nat)
    requires 1 <= j && s + n < |f|
    ensures Sifting(f, f, s, n, j, m, j)
  {
  }

  lemma SiftingSwap(f0: seq<Line>, f: seq<Line>, s: nat, n: nat, j: nat, m: nat, ai: int)
    requires 1 <= m && 1 <= ai <= j && j + m <= n && s + n < |f| && Sifting(f0, f, s, n, j, m, ai)
    requires !Less(f[s + ai], f[s + ai + m])
    ensures Sifting(f0, f[s + ai := f[s + ai + m]][s + ai + m := f[s + ai]], s, n, j, m, ai - m)
  {
    hide Rearranged, Sorted, SortedBut;
    SwapRearranges(f0, f, s + ai, s + ai + m, s + 1, s + n + 1);
    if m == 1 && Sorted(f0, s + 1, s + j + 1) {
      SortedButSwap(f, s + 1, s + ai + 1, s + j + 2);
    }
  }

  lemma SwapRearranges(f0: seq<Line>, f: seq<Line>, i: nat, j: nat, lo: int, hi: int)
    requires Rearranged(f0, f, lo, hi) && lo <= i < j < hi && j < |f|
    ensures Rearranged(f0, f[i := f[j]][j := f[i]], lo, hi)
  {
  }

  lemma SiftingDone(f0: seq<Line>, f: seq<Line>, s: nat, n: nat, j: nat, m: nat, ai: int)
    requires 1 <= m && 1 <= j && ai <= j && j + m <= n && s + n < |f| && Sifting(f0, f, s, n, j, m, ai)
    requires ai <= 0 || Less(f[s + ai], f[s + ai + m])
    ensures Rearranged(f0, f, s + 1, s + n + 1)
    ensures m == 1 && Sorted(f0, s + 1, s + j + 1) ==> Sorted(f, s + 1, s + j + 2)
  {
    hide Rearranged, Sorted, SortedBut;
    if m == 1 && Sorted(f0, s + 1, s + j + 1) {
      SortedButDone(f, s + 1, s + ai + 1, s + j + 2);
    }
  }

  /** One inner loop of the shell sort: sinks line j + m along the gap m. */
  method Sift(f: array<Line>, s: nat, n: nat, j: nat, m: nat)
    requires 1 <= m && 1 <= j && j + m <= n && s + n < f.Length
    modifies f
    ensures Rearranged(old(f[..]), f[..], s + 1, s + n + 1)
    ensures m == 1 && Sorted(old(f[..]), s + 1, s + j + 1) ==> Sorted(f[..], s + 1, s + j + 2)
  {
    hide Sifting, Rearranged, Sorted;
    ghost var f0 := f[..];
    SiftingStart(f0, s, n, j, m);
    var ai: int := j;
    while ai > 0
      invariant ai <= j && Sifting(f0, f[..], s, n, j, m, ai)
    {
      var aim := ai + m;
      if Less(f[s + ai], f[s + aim]) {
        break;
      }
      ghost var g := f[..];
      SiftingSwap(f0, g, s, n, j, m, ai);
      f[s + ai], f[s + aim] := f[s + aim], f[s + ai];
      assert f[..] == g[s + ai := g[s + aim]][s + aim := g[s + ai]];
      ai := ai - m;
    }
    SiftingDone(f0, f[..], s, n, j, m, ai);
  }

  /** One pass of the shell sort with gap m; the unit gap is an insertion sort. */
  method Pass(f: array<Line>, s: nat, n: nat, m: nat)
    requires 1 <= m && s + n < f.Length
    modifies f
    ensures Rearranged(old(f[..]), f[..], s + 1, s + n + 1)
    ensures m == 1 ==> Sorted(f[..], s + 1, s + n + 1)
  {
    var k := n - m;
    var j := 1;
    while j <= k
      invariant 1 <= j
      invariant j <= k + 1 || j == 1
      invariant Rearranged(old(f[..]), f[..], s + 1, s + n + 1)
      invariant m == 1 ==> Sorted(f[..], s + 1, s + j + 1)
    {
      Sift(f, s, n, j, m);
      j := j + 1;
    }
  }

  /** After the last, unit-gap pass the window is sorted by value and then
      serial; the earlier passes only permute it. */
  method Sort(f: array<Line>, s: nat, n: nat)
    requires s + n < f.Length
    modifies f
    ensures Sorted(f[..], s + 1, s + n + 1)
    ensures Rearranged(old(f[..]), f[..], s + 1, s + n + 1)
  {
    if n == 0 {
      return;
    }
    var m, j := 0, 1;
    while j <= n
      invariant j >= 1 && 0 <= m
      invariant (j == 1 && m == 0) || (j >= 2 && m == j - 1)
      decreases n - j
    {
      m := 2 * j - 1;
      j := j * 2;
    }
    m := m / 2;
    while m != 0
      invariant 0 <= m
      invariant Rearranged(old(f[..]), f[..], s + 1, s + n + 1)
      invariant m == 0 ==> Sorted(f[..], s + 1, s + n + 1)
      decreases m
    {
      Pass(f, s, n, m);
      m := m / 2;
    }
  }

  // ------------------------------------------------------- permuted windows

  lemma SplitCount(f: seq<Line>, lo: nat, hi: nat)
    requires lo <= hi <= |f|
    ensures multiset(f) == multiset(f[..lo]) + multiset(f[lo..hi]) + multiset(f[hi..])
  {
    assert f == f[..lo] + f[lo..hi] + f[hi..];
  }

  lemma Cancel(a: multiset<Line>, x: multiset<Line>, y: multiset<Line>, c: multiset<Line>)
    requires a + x + c == a + y + c
    ensures x == y
  {
    forall e ensures x[e] == y[e] {
      assert (a + x + c)[e] == a[e] + x[e] + c[e] && (a + y + c)[e] == a[e] + y[e] + c[e];
    }
  }

  lemma WindowPermuted(o: seq<Line>, f: seq<Line>, lo: nat, hi: nat)
    requires Rearranged(o, f, lo, hi) && lo <= hi <= |f|
    ensures multiset(o[lo..hi]) == multiset(f[lo..hi])
  {
    SplitCount(o, lo, hi);
    SplitCount(f, lo, hi);
    assert o[..lo] == f[..lo] && o[hi..] == f[hi..];
    Cancel(multiset(f[..lo]), multiset(o[lo..hi]), multiset(f[lo..hi]), multiset(f[hi..]));
  }

  lemma DuplicateCounts(w: seq<Line>, i: nat, j: nat)
    requires i < j < |w| && w[i] == w[j]
    ensures multiset(w)[w[i]] >= 2
  {
    assert w == w[..i] + [w[i]] + w[i + 1..j] + [w[j]] + w[j + 1..];
  }

  lemma {:induction false} NumberedCount(a: seq<int>, x: Line)
    ensures multiset(Numbered(a))[x] <= 1
    ensures x in multiset(Numbered(a)) <==> 1 <= x.serial <= |a| && x.value == a[x.serial - 1]
  {
    if 1 <= x.serial <= |a| {
      assert Numbered(a)[x.serial - 1] == Line(x.serial, a[x.serial - 1]);
    }
    if |a| > 0 {
      var k := |a| - 1;
      NumberedCount(a[..k], x);
      assert Numbered(a) == Numbered(a[..k]) + [Line(k + 1, a[k])];
    }
  }

  /** w lists every line of a exactly once, under its own serial number. */
  ghost predicate Lists(w: seq<Line>, a: seq<int>) {
    && (forall t :: 0 <= t < |w| ==> 1 <= w[t].serial <= |a| && w[t].value == a[w[t].serial - 1])
    && (forall t, u :: 0 <= t < u < |w| ==> w[t].serial != w[u].serial)
    && (forall y :: 0 <= y < |a| ==> Line(y + 1, a[y]) in w)
  }

  lemma PermutedLists(w: seq<Line>, a: seq<int>)
    requires multiset(w) == multiset(Numbered(a))
    ensures Lists(w, a)
  {
    forall t | 0 <= t < |w| ensures 1 <= w[t].serial <= |a| && w[t].value == a[w[t].serial - 1] {
      assert w[t] in multiset(w);
      NumberedCount(a, w[t]);
    }
    forall t, u | 0 <= t < u < |w| ensures w[t].serial != w[u].serial {
      if w[t].serial == w[u].serial {
        DuplicateCounts(w, t, u);
        NumberedCount(a, w[t]);
        assert false;
      }
    }
    forall y | 0 <= y < |a| ensures Line(y + 1, a[y]) in w {
      NumberedCount(a, Line(y + 1, a[y]));
      assert Line(y + 1, a[y]) in multiset(w);
    }
  }

  // ---------------------------------------------------------------- equiv

  /** j is where the lines of value v start in the window, or 0 if v is absent. */
  ghost predicate FirstOf(b: seq<Line>, s: nat, m: nat, v: int, j: int)
    requires s + m < |b|
  {
    if j == 0 then
      forall t :: s < t <= s + m ==> b[t].value != v
    else
      1 <= j <= m && b[s + j].value == v && forall t :: s < t < s + j ==> b[t].value < v
  }

  /** Of the lines a0 of the old window, the first i - 1 carry their label. */
  ghost predicate Labelled(a0: seq<Line>, a: seq<Line>, sa: nat, n: nat, i: nat, b: seq<Line>, sb: nat, m: nat)
    requires sa + n < |a0| == |a| && sb + m < |b|
  {
    && (forall t :: sa + i <= t <= sa + n ==> a[t] == a0[t])
    && (forall t :: sa < t < sa + i && t <= sa + n ==>
      a[t].serial == a0[t].serial && FirstOf(b, sb, m, a0[t].value, a[t].value))
  }

  lemma LabelNext(a0: seq<Line>, a: seq<Line>, sa: nat, n: nat, i: nat, b: seq<Line>, sb: nat, m: nat, j: int)
    requires sa + n < |a0| == |a| && sb + m < |b|
    requires 1 <= i <= n && Labelled(a0, a, sa, n, i, b, sb, m)
    requires FirstOf(b, sb, m, a0[sa + i].value, j)
    ensures Labelled(a0, a[sa + i := a[sa + i].(value := j)], sa, n, i + 1, b, sb, m)
  {
  }

  /** The merge loop of `equiv`: replaces each old line's value by the place of
      its first equal new line. */
  method Label(a: array<Line>, sa: nat, n: nat, b: array<Line>, sb: nat, m: nat)
    requires a != b && sa + n < a.Length && sb + m < b.Length
    requires Sorted(a[..], sa + 1, sa + n + 1) && Sorted(b[..], sb + 1, sb + m + 1)
    modifies a
    ensures Labelled(old(a[..]), a[..], sa, n, n + 1, b[..], sb, m)
  {
    var i, j := 1, 1;
    ghost var a0, b0 := a[..], b[..];
    while i <= n && j <= m
      invariant 1 <= i <= n + 1 && 1 <= j <= m + 1
      invariant Labelled(a0, a[..], sa, n, i, b0, sb, m)
      invariant i <= n ==> forall t :: sb < t < sb + j ==> b0[t].value < a0[sa + i].value
      decreases n - i + m - j
    {
      ghost var a1 := a[..];
      ghost var v := a0[sa + i].value;
      if a[sa + i].value < b[sb + j].value {
        assert FirstOf(b0, sb, m, v, 0);
        LabelNext(a0, a1, sa, n, i, b0, sb, m, 0);
        a[sa + i] := a[sa + i].(value := 0);
        assert a[..] == a1[sa + i := a1[sa + i].(value := 0)];
        i := i + 1;
      } else if a[sa + i].value == b[sb + j].value {
        assert FirstOf(b0, sb, m, v, j);
        LabelNext(a0, a1, sa, n, i, b0, sb, m, j);
        a[sa + i] := a[sa + i].(value := j);
        assert a[..] == a1[sa + i := a1[sa + i].(value := j)];
        i := i + 1;
      } else {
        j := j + 1;
      }
    }
    LabelRest(a, sa, n, i, a0, b0, sb, m);
  }

  method LabelRest(a: array<Line>, sa: nat, n: nat, from: nat, ghost a0: seq<Line>, ghost b0: seq<Line>, ghost sb: nat, ghost m: nat)
    requires sa + n < a.Length == |a0| && sb + m < |b0|
    requires 1 <= from <= n + 1 && Sorted(a0, sa + 1, sa + n + 1)
    requires Labelled(a0, a[..], sa, n, from, b0, sb, m)
    requires from <= n ==> forall t :: sb < t <= sb + m ==> b0[t].value < a0[sa + from].value
    modifies a
    ensures Labelled(a0, a[..], sa, n, n + 1, b0, sb, m)
  {
    var i := from;
    while i <= n
      invariant from <= i <= n + 1
      invariant Labelled(a0, a[..], sa, n, i, b0, sb, m)
    {
      ghost var a1 := a[..];
      assert FirstOf(b0, sb, m, a0[sa + i].value, 0);
      LabelNext(a0, a1, sa, n, i, b0, sb, m, 0);
      a[sa + i] := a[sa + i].(value := 0);
      assert a[..] == a1[sa + i := a1[sa + i].(value := 0)];
      i := i + 1;
    }
  }

  /** What `equiv` stores for place j of the sorted new window: the serial,
      negated for the first line of each value. */
  ghost function Flagged(b: seq<Line>, s: nat, j: nat): int
    requires 1 <= j && s + j < |b|
  {
    if j == 1 || b[s + j - 1].value != b[s + j].value then -b[s + j].serial else b[s + j].serial
  }

  /** The words w hold the lines of f from place k on: a line is its serial and its value. */
  ghost predicate Laid(w: seq<int>, f: seq<Line>, k: nat) {
    |w| == 2 * |f| && forall t :: k <= t < |f| ==> w[2 * t] == f[t].serial && w[2 * t + 1] == f[t].value
  }

  /** The cast of a line array to an int array. */
  method AsWords(f: array<Line>) returns (w: array<int>)
    ensures fresh(w) && Laid(w[..], f[..], 0)
  {
    w := new int[2 * f.Length];
    for t := 0 to f.Length
      invariant forall u :: 0 <= u < t ==> w[2 * u] == f[u].serial && w[2 * u + 1] == f[u].value
    {
      w[2 * t] := f[t].serial;
      w[2 * t + 1] := f[t].value;
    }
  }

  /** Storing place j of `member` reaches no line of the window from j on. */
  lemma StoredBehind(w: seq<int>, f: seq<Line>, s: nat, j: nat, x: int)
    requires 1 <= j < |w| && Laid(w, f, s + j)
    ensures Laid(w[j := x], f, s + j)
  {
  }

  /** Places lo to j of `member` are written, and nothing else has changed since c0. */
  ghost predicate Written(c: seq<int>, c0: seq<int>, f: seq<Line>, s: nat, lo: nat, j: nat) {
    && 1 <= lo <= j <= |c| == |c0| && s + j <= |f|
    && (forall t :: lo <= t < j ==> c[t] == Flagged(f, s, t))
    && (forall t :: 0 <= t < |c| && !(lo <= t < j) ==> c[t] == c0[t])
  }

  lemma WrittenNext(c: seq<int>, c0: seq<int>, f: seq<Line>, s: nat, lo: nat, j: nat)
    requires Written(c, c0, f, s, lo, j) && j < |c| && s + j < |f|
    ensures Written(c[j := Flagged(f, s, j)], c0, f, s, lo, j + 1)
  {
    hide Flagged;
  }

  lemma WrittenJoin(c: seq<int>, c0: seq<int>, c1: seq<int>, f: seq<Line>, s: nat, lo: nat, j: nat, k: nat)
    requires Written(c1, c0, f, s, lo, j) && Written(c, c1, f, s, j, k)
    ensures Written(c, c0, f, s, lo, k)
  {
    hide Flagged;
  }

  /** The second half of `equiv`: squeezes the new window, the lines of f behind place s,
      into the front of the memory it lies in. */
  method Squeeze(c: array<int>, s: nat, m: nat, ghost f: seq<Line>)
    requires Laid(c[..], f, s + 1) && s + m + 1 < |f|
    requires forall t :: s < t <= s + m ==> f[t].value != 0
    modifies c
    ensures forall j :: 1 <= j <= m ==> c[j] == Flagged(f, s, j)
    ensures c[m + 1] == -1 && c[0] == old(c[0])
    ensures forall t :: m + 1 < t < c.Length && t != 2 * (s + m + 1) + 1 ==> c[t] == old(c[t])
  {
    ghost var c0 := c[..];
    ghost var g := f[s + m + 1 := f[s + m + 1].(value := 0)];
    c[2 * (s + m + 1) + 1] := 0;
    ghost var c1 := c[..];
    assert c1 == c0[2 * (s + m + 1) + 1 := 0];
    SqueezeAll(c, s, m, f, g);
    c[m + 1] := -1;
  }

  /** Its loop, once the line behind the window is closed. */
  method SqueezeAll(c: array<int>, s: nat, m: nat, ghost f: seq<Line>, ghost g: seq<Line>)
    requires Closed(f, g, s, m) && Laid(c[..], g, s + 1)
    modifies c
    ensures Written(c[..], old(c[..]), f, s, 1, m + 1)
  {
    hide Laid, Written;
    ghost var c0 := c[..];
    var j := 1;
    LaidAt(c0, g, s + 1, s + 1);
    WrittenNone(c0, f, s, 1);
    while j <= m
      invariant 1 <= j <= m + 1 && Laid(c[..], g, s + j)
      invariant j == 1 || g[s + j].value != g[s + j - 1].value
      invariant Written(c[..], c0, f, s, 1, j)
    {
      ghost var from, c1 := j, c[..];
      j := SqueezeRun(c, s, m, j, f, g);
      WrittenJoin(c[..], c0, c1, f, s, 1, from, j);
    }
  }

  /** g is f with the value 0 behind the window, where there is none within. */
  ghost predicate Closed(f: seq<Line>, g: seq<Line>, s: nat, m: nat) {
    && s + m + 1 < |f| && g == f[s + m + 1 := f[s + m + 1].(value := 0)]
    && (forall t :: s < t <= s + m ==> f[t].value != 0)
  }

  lemma WrittenNone(c: seq<int>, f: seq<Line>, s: nat, j: nat)
    requires 1 <= j <= |c| && s + j <= |f|
    ensures Written(c, c, f, s, j, j)
  {
  }

  /** One turn of the loop: the lines of one value. */
  method SqueezeRun(c: array<int>, s: nat, m: nat, from: nat, ghost f: seq<Line>, ghost g: seq<Line>) returns (j: nat)
    requires Closed(f, g, s, m) && 1 <= from <= m && Laid(c[..], g, s + from)
    requires from == 1 || g[s + from].value != g[s + from - 1].value
    modifies c
    ensures from < j <= m + 1 && Laid(c[..], g, s + j) && g[s + j].value != g[s + j - 1].value
    ensures Written(c[..], old(c[..]), f, s, from, j)
  {
    hide Laid, Written;
    ghost var c0 := c[..];
    j := from;
    LaidAt(c[..], g, s + j, s + j);
    WrittenNone(c0, f, s, j);
    Store(c, s, j, -c[2 * (s + j)], from, c0, f, g);
    while c[2 * (s + j + 1) + 1] == c[2 * (s + j) + 1]
      invariant from <= j <= m && Laid(c[..], g, s + j) && c.Length == 2 * |g|
      invariant c[2 * (s + j) + 1] == g[s + j].value && c[2 * (s + j + 1) + 1] == g[s + j + 1].value
      invariant Written(c[..], c0, f, s, from, j + 1)
      decreases m - j
    {
      j := j + 1;
      LaidFrom(c[..], g, s + j - 1, s + j);
      LaidAt(c[..], g, s + j, s + j);
      Store(c, s, j, c[2 * (s + j)], from, c0, f, g);
    }
    LaidFrom(c[..], g, s + j, s + j + 1);
    j := j + 1;
  }

  /** `c[j] = x`. */
  method Store(c: array<int>, s: nat, j: nat, x: int, ghost lo: nat, ghost c0: seq<int>, ghost f: seq<Line>, ghost g: seq<Line>)
    requires 1 <= j && s + j + 1 < |g| == |f| && Laid(c[..], g, s + j)
    requires Written(c[..], c0, f, s, lo, j) && x == Flagged(f, s, j)
    modifies c
    ensures Laid(c[..], g, s + j) && Written(c[..], c0, f, s, lo, j + 1)
    ensures c.Length == 2 * |g|
    ensures c[2 * (s + j) + 1] == g[s + j].value && c[2 * (s + j + 1) + 1] == g[s + j + 1].value
  {
    LaidAt(c[..], g, s + j, s + j);
    hide Laid, Written, Flagged;
    ghost var c1 := c[..];
    StoredBehind(c1, g, s, j, x);
    WrittenNext(c1, c0, f, s, lo, j);
    c[j] := x;
    assert c[..] == c1[j := x];
    LaidAt(c[..], g, s + j, s + j);
    LaidAt(c[..], g, s + j, s + j + 1);
  }

  lemma LaidAt(w: seq<int>, f: seq<Line>, k: nat, t: nat)
    requires Laid(w, f, k) && k <= t < |f|
    ensures |w| == 2 * |f| && w[2 * t] == f[t].serial && w[2 * t + 1] == f[t].value
  {
  }

  lemma LaidFrom(w: seq<int>, f: seq<Line>, k: nat, l: nat)
    requires Laid(w, f, k) && k <= l
    ensures Laid(w, f, l)
  {
  }

  // --------------------------------------------------------------- unsort

  /** Puts the labels of the lines of f behind place s back into the order of the old file,
      at the front of the memory they lie in. */
  method Unsort(b: array<int>, s: nat, l: nat, ghost f: seq<Line>)
    requires Laid(b[..], f, s + 1) && s + l < |f|
    requires forall t :: s < t <= s + l ==> 1 <= f[t].serial <= l
    requires forall t, u :: s < t < u <= s + l ==> f[t].serial != f[u].serial
    modifies b
    ensures forall t :: s < t <= s + l ==> b[f[t].serial] == f[t].value
  {
    ghost var b0 := b[..];
    var a := new int[l + 1];
    for i := 1 to l + 1
      invariant b[..] == b0
      invariant forall t :: s < t < s + i ==> a[f[t].serial] == f[t].value
    {
      LaidAt(b[..], f, s + 1, s + i);
      a[b[2 * (s + i)]] := b[2 * (s + i) + 1];
    }
    ghost var labels := a[..];
    for i := 1 to l + 1
      invariant a[..] == labels
      invariant forall t :: 1 <= t < i ==> b[t] == labels[t]
    {
      b[i] := a[i];
    }
  }

  // -------------------------------------------------- what the classes mean

  function Abs(x: int): int { if x < 0 then -x else x }

  /** The first entry of a run is negative, the others are positive, and a
      negative entry ends it. */
  ghost predicate RunSigns(mem: seq<int>, j: int, e: int) {
    && 1 <= j < e < |mem| && mem[j] < 0 && mem[e] < 0
    && forall t :: j < t < e ==> mem[t] > 0
  }

  ghost predicate RunAscends(mem: seq<int>, j: int, e: int) {
    forall t, u :: 0 <= j <= t < u < e <= |mem| ==> Abs(mem[t]) < Abs(mem[u])
  }

  /** The run lists only lines of b with value v. */
  ghost predicate RunSound(mem: seq<int>, j: int, e: int, b: seq<int>, v: int) {
    forall t :: 0 <= j <= t < e <= |mem| ==> 1 <= Abs(mem[t]) <= |b| && b[Abs(mem[t]) - 1] == v
  }

  /** The run lists every line of b with value v. */
  ghost predicate RunComplete(mem: seq<int>, j: int, e: int, b: seq<int>, v: int) {
    forall y :: 0 <= y < |b| && b[y] == v ==> InRun(mem, j, e, y + 1)
  }

  ghost predicate InRun(mem: seq<int>, j: int, e: int, y: int) {
    exists t :: 0 <= j <= t < e <= |mem| && Abs(mem[t]) == y
  }

  ghost predicate RunLists(mem: seq<int>, j: int, e: int, b: seq<int>, v: int) {
    RunSigns(mem, j, e) && RunAscends(mem, j, e) && RunSound(mem, j, e, b, v) && RunComplete(mem, j, e, b, v)
  }

  /** The run of `member` that starts at j lists, in ascending order, exactly
      the lines of b with value v. */
  ghost predicate HasRun(mem: seq<int>, j: int, b: seq<int>, v: int) {
    exists e :: RunLists(mem, j, e, b, v)
  }

  /** What `stone` is given: each old line's class is 0 exactly when no new line
      equals it, and otherwise the place of the run of its equals. */
  ghost predicate ClassesOf(cls: seq<int>, mem: seq<int>, a: seq<int>, b: seq<int>) {
    && |a| < |cls| && |b| + 1 < |mem|
    && forall i :: 1 <= i <= |a| ==>
      if cls[i] == 0 then a[i - 1] !in b else HasRun(mem, cls[i], b, a[i - 1])
  }

  /** The end of the block of value v that starts at place j of the window. */
  ghost function BlockEnd(w: seq<Line>, s: nat, m: nat, v: int, j: nat): (e: nat)
    requires s + m < |w| && 1 <= j <= m + 1
    ensures j <= e <= m + 1
    ensures forall t :: s + j <= t < s + e ==> w[t].value == v
    ensures e <= m ==> w[s + e].value != v
    decreases m + 1 - j
  {
    if j <= m && w[s + j].value == v then BlockEnd(w, s, m, v, j + 1) else j
  }

  /** mem is what `Squeeze` makes of the window of m lines at s. */
  ghost predicate FlaggedAll(mem: seq<int>, w: seq<Line>, s: nat, m: nat)
    requires s + m < |w|
  {
    && m + 1 < |mem| && mem[m + 1] == -1
    && forall j :: 1 <= j <= m ==> w[s + j].serial >= 1 && mem[j] == Flagged(w, s, j)
  }

  /** mem is what `Squeeze` makes of the sorted window w of b. */
  ghost predicate Squeezed(mem: seq<int>, w: seq<Line>, s: nat, b: seq<int>)
    requires s + |b| < |w|
  {
    && FlaggedAll(mem, w, s, |b|)
    && Sorted(w, s + 1, s + |b| + 1)
    && Lists(w[s + 1..s + |b| + 1], b)
  }

  lemma WindowEntry(mem: seq<int>, w: seq<Line>, s: nat, b: seq<int>, t: int)
    requires s + |b| < |w| && Squeezed(mem, w, s, b) && 1 <= t <= |b|
    ensures Abs(mem[t]) == w[s + t].serial && 1 <= w[s + t].serial <= |b|
    ensures b[w[s + t].serial - 1] == w[s + t].value
  {
    assert w[s + 1..s + |b| + 1][t - 1] == w[s + t];
  }

  lemma WindowAscends(mem: seq<int>, w: seq<Line>, s: nat, b: seq<int>, t: int, u: int)
    requires s + |b| < |w| && Squeezed(mem, w, s, b) && 1 <= t < u <= |b|
    requires w[s + t].value == w[s + u].value
    ensures w[s + t].serial < w[s + u].serial
  {
    assert w[s + 1..s + |b| + 1][t - 1] == w[s + t] && w[s + 1..s + |b| + 1][u - 1] == w[s + u];
  }

  /** In a sorted window nothing after a block has its value. */
  lemma BlockCloses(w: seq<Line>, s: nat, m: nat, v: int, j: nat, t: nat)
    requires s + m < |w| && Sorted(w, s + 1, s + m + 1)
    requires 1 <= j <= m && FirstOf(w, s, m, v, j)
    requires 1 <= t <= m && w[s + t].value == v
    ensures j <= t < BlockEnd(w, s, m, v, j)
  {
    var e := BlockEnd(w, s, m, v, j);
    assert e <= m ==> !Less(w[s + e], w[s + j]);
  }

  lemma WindowFinds(mem: seq<int>, w: seq<Line>, s: nat, b: seq<int>, v: int, j: nat, y: nat)
    requires s + |b| < |w| && Squeezed(mem, w, s, b)
    requires 1 <= j <= |b| && FirstOf(w, s, |b|, v, j)
    requires y < |b| && b[y] == v
    ensures InRun(mem, j, BlockEnd(w, s, |b|, v, j), y + 1)
  {
    var win := w[s + 1..s + |b| + 1];
    assert Line(y + 1, b[y]) in win;
    var u :| 0 <= u < |win| && win[u] == Line(y + 1, b[y]);
    var t := u + 1;
    assert w[s + t] == win[u];
    WindowEntry(mem, w, s, b, t);
    BlockCloses(w, s, |b|, v, j, t);
  }

  lemma BlockSigns(mem: seq<int>, w: seq<Line>, s: nat, m: nat, v: int, j: nat)
    requires s + m < |w| && FlaggedAll(mem, w, s, m)
    requires 1 <= j <= m && FirstOf(w, s, m, v, j)
    ensures RunSigns(mem, j, BlockEnd(w, s, m, v, j))
  {
    var e := BlockEnd(w, s, m, v, j);
    assert mem[j] == Flagged(w, s, j) < 0;
    assert w[s + e - 1].value == v;
    assert e <= m ==> mem[e] == Flagged(w, s, e) < 0;
    forall t | j < t < e ensures mem[t] > 0 {
      assert w[s + t - 1].value == w[s + t].value;
      assert mem[t] == Flagged(w, s, t);
    }
  }

  lemma BlockAscends(mem: seq<int>, w: seq<Line>, s: nat, b: seq<int>, v: int, j: nat)
    requires s + |b| < |w| && Squeezed(mem, w, s, b)
    requires 1 <= j <= |b|
    ensures RunAscends(mem, j, BlockEnd(w, s, |b|, v, j))
  {
    forall t, u | j <= t < u < BlockEnd(w, s, |b|, v, j) ensures Abs(mem[t]) < Abs(mem[u]) {
      WindowEntry(mem, w, s, b, t);
      WindowEntry(mem, w, s, b, u);
      WindowAscends(mem, w, s, b, t, u);
    }
  }

  lemma BlockSound(mem: seq<int>, w: seq<Line>, s: nat, b: seq<int>, v: int, j: nat)
    requires s + |b| < |w| && Squeezed(mem, w, s, b)
    requires 1 <= j <= |b|
    ensures RunSound(mem, j, BlockEnd(w, s, |b|, v, j), b, v)
  {
    forall t | j <= t < BlockEnd(w, s, |b|, v, j) ensures 1 <= Abs(mem[t]) <= |b| && b[Abs(mem[t]) - 1] == v {
      WindowEntry(mem, w, s, b, t);
    }
  }

  lemma BlockComplete(mem: seq<int>, w: seq<Line>, s: nat, b: seq<int>, v: int, j: nat)
    requires s + |b| < |w| && Squeezed(mem, w, s, b)
    requires 1 <= j <= |b| && FirstOf(w, s, |b|, v, j)
    ensures RunComplete(mem, j, BlockEnd(w, s, |b|, v, j), b, v)
  {
    forall y | 0 <= y < |b| && b[y] == v ensures InRun(mem, j, BlockEnd(w, s, |b|, v, j), y + 1) {
      WindowFinds(mem, w, s, b, v, j, y);
    }
  }

  lemma RunFound(mem: seq<int>, j: int, e: int, b: seq<int>, v: int)
    requires RunSigns(mem, j, e) && RunAscends(mem, j, e) && RunSound(mem, j, e, b, v) && RunComplete(mem, j, e, b, v)
    ensures HasRun(mem, j, b, v)
  {
    assert RunLists(mem, j, e, b, v);
  }

  /** A label found by the merge loop points at a complete run. */
  lemma LabelledRun(mem: seq<int>, w: seq<Line>, s: nat, b: seq<int>, v: int, j: nat)
    requires s + |b| < |w| && Squeezed(mem, w, s, b)
    requires 1 <= j <= |b| && FirstOf(w, s, |b|, v, j)
    ensures HasRun(mem, j, b, v)
  {
    BlockSigns(mem, w, s, |b|, v, j);
    BlockAscends(mem, w, s, b, v, j);
    BlockSound(mem, w, s, b, v, j);
    BlockComplete(mem, w, s, b, v, j);
    RunFound(mem, j, BlockEnd(w, s, |b|, v, j), b, v);
  }

  lemma AbsentValue(w: seq<Line>, s: nat, b: seq<int>, v: int)
    requires s + |b| < |w| && Lists(w[s + 1..s + |b| + 1], b)
    requires FirstOf(w, s, |b|, v, 0)
    ensures v !in b
  {
    var win := w[s + 1..s + |b| + 1];
    forall y | 0 <= y < |b| ensures b[y] != v {
      var u :| 0 <= u < |win| && win[u] == Line(y + 1, b[y]);
      assert w[s + 1 + u] == win[u];
    }
  }

  /** Every old line has a labelled entry of its own in the sorted window. */
  lemma LabelsMean(a: seq<int>, b: seq<int>, a0: seq<Line>, a1: seq<Line>, sa: nat, w: seq<Line>, s: nat, cls: seq<int>, mem: seq<int>, i: nat)
    requires sa + |a| < |a0| == |a1| && s + |b| < |w| && |a| < |cls|
    requires Lists(a0[sa + 1..sa + |a| + 1], a)
    requires Labelled(a0, a1, sa, |a|, |a| + 1, w, s, |b|)
    requires Squeezed(mem, w, s, b)
    requires forall t :: sa < t <= sa + |a| ==> 1 <= a1[t].serial <= |a| && cls[a1[t].serial] == a1[t].value
    requires 1 <= i <= |a|
    ensures if cls[i] == 0 then a[i - 1] !in b else HasRun(mem, cls[i], b, a[i - 1])
  {
    var win := a0[sa + 1..sa + |a| + 1];
    assert Line(i - 1 + 1, a[i - 1]) in win;
    var u :| 0 <= u < |win| && win[u] == Line(i, a[i - 1]);
    var t := sa + 1 + u;
    assert a0[t] == win[u];
    assert FirstOf(w, s, |b|, a[i - 1], cls[i]);
    if cls[i] == 0 {
      AbsentValue(w, s, b, a[i - 1]);
    } else {
      LabelledRun(mem, w, s, b, a[i - 1], cls[i]);
    }
  }

  /** The steps of `diffreg` from the pruned files to the input of `stone`. */
  method BuildClasses(f0: array<Line>, f1: array<Line>, pref: nat, ghost a: seq<int>, ghost b: seq<int>, n: nat, m: nat)
    returns (cls: array<int>, mem: array<int>)
    requires f0 != f1 && n == |a| && m == |b|
    requires pref + n < f0.Length && pref + m + 1 < f1.Length
    requires f0[pref + 1..pref + n + 1] == Numbered(a) && f1[pref + 1..pref + m + 1] == Numbered(b)
    requires 0 !in b
    modifies f0, f1
    ensures fresh(cls) && fresh(mem) && ClassesOf(cls[..], mem[..], a, b)
  {
    Sort(f0, pref, n);
    WindowPermuted(old(f0[..]), f0[..], pref + 1, pref + n + 1);
    Sort(f1, pref, m);
    WindowPermuted(old(f1[..]), f1[..], pref + 1, pref + m + 1);
    cls, mem := LabelClasses(f0, f1, pref, a, b, n, m);
  }

  method LabelClasses(f0: array<Line>, f1: array<Line>, pref: nat, ghost a: seq<int>, ghost b: seq<int>, n: nat, m: nat)
    returns (cls: array<int>, mem: array<int>)
    requires f0 != f1 && n == |a| && m == |b|
    requires pref + n < f0.Length && pref + m + 1 < f1.Length
    requires Sorted(f0[..], pref + 1, pref + n + 1) && Sorted(f1[..], pref + 1, pref + m + 1)
    requires multiset(f0[pref + 1..pref + n + 1]) == multiset(Numbered(a))
    requires multiset(f1[pref + 1..pref + m + 1]) == multiset(Numbered(b))
    requires 0 !in b
    modifies f0, f1
    ensures fresh(cls) && fresh(mem) && ClassesOf(cls[..], mem[..], a, b)
  {
    hide Sorted, Lists, Laid, Labelled;
    ghost var a0, w := f0[..], f1[..];
    PermutedLists(a0[pref + 1..pref + n + 1], a);
    PermutedLists(w[pref + 1..pref + m + 1], b);
    WindowFacts(a0, pref, a);
    WindowFacts(w, pref, b);
    Label(f0, pref, n, f1, pref, m);
    ghost var a1 := f0[..];
    mem := AsWords(f1);
    LaidFrom(mem[..], w, 0, pref + 1);
    Squeeze(mem, pref, m, w);
    assert FlaggedAll(mem[..], w, pref, m);
    cls := AsWords(f0);
    LaidFrom(cls[..], a1, 0, pref + 1);
    LabelledSerials(a0, a1, pref, n, w, pref, m);
    Unsort(cls, pref, n, a1);
    ClassesFound(a, b, a0, a1, pref, w, pref, cls[..], mem[..]);
  }

  lemma LabelledSerials(a0: seq<Line>, a: seq<Line>, sa: nat, n: nat, b: seq<Line>, sb: nat, m: nat)
    requires sa + n < |a0| == |a| && sb + m < |b| && Labelled(a0, a, sa, n, n + 1, b, sb, m)
    ensures forall t :: sa < t <= sa + n ==> a[t].serial == a0[t].serial
  {
  }

  lemma WindowFacts(w: seq<Line>, s: nat, a: seq<int>)
    requires s + |a| < |w| && Lists(w[s + 1..s + |a| + 1], a)
    ensures forall t :: s < t <= s + |a| ==> 1 <= w[t].serial <= |a| && w[t].value in a
    ensures forall t, u :: s < t < u <= s + |a| ==> w[t].serial != w[u].serial
  {
    var win := w[s + 1..s + |a| + 1];
    assert forall t :: s < t <= s + |a| ==> w[t] == win[t - s - 1];
  }

  lemma ClassesFound(a: seq<int>, b: seq<int>, a0: seq<Line>, a1: seq<Line>, sa: nat, w: seq<Line>, s: nat, cls: seq<int>, mem: seq<int>)
    requires sa + |a| < |a0| == |a1| && s + |b| < |w| && |a| < |cls|
    requires Lists(a0[sa + 1..sa + |a| + 1], a)
    requires Labelled(a0, a1, sa, |a|, |a| + 1, w, s, |b|)
    requires Squeezed(mem, w, s, b)
    requires forall t :: sa < t <= sa + |a| ==> 1 <= a1[t].serial <= |a| && cls[a1[t].serial] == a1[t].value
    ensures ClassesOf(cls, mem, a, b)
  {
    forall i | 1 <= i <= |a|
      ensures if cls[i] == 0 then a[i - 1] !in b else HasRun(mem, cls[i], b, a[i - 1])
    {
      LabelsMean(a, b, a0, a1, sa, w, s, cls, mem, i);
    }
  }
}
