/** Unified output (`diff -u`): the context_vec branch of `change`, and
    `dump_unified_vec` and `uni_range`, of bsd_diff/diffreg.c.

    A hunk is described by its old lines lowa..upb and new lines lowc..upd, as
    printed in its header, and by the marked lines below the header.
  */
module DiffUnified {
  import opened DiffLcs
  import opened DiffMatch
  import opened DiffOutput
  import opened DiffApply
  import opened DiffCost

  datatype Mark = Context | Minus | Plus

  datatype Marked<T> = Marked(mark: Mark, line: T)

  datatype Hunk<T> = Hunk(lowa: int, upb: int, lowc: int, upd: int, lines: seq<Marked<T>>)

  /** The two numbers `uni_range` prints: a start and a count. */
  function UniRange(a: int, b: int): (int, int) {
    if a < b then (a, b - a + 1) else if a == b then (b, 1) else (b, 0)
  }

  /** The lines a hunk takes from the side that mark `own` belongs to. */
  ghost function Side<T>(ls: seq<Marked<T>>, own: Mark): seq<T> {
    if ls == [] then []
    else Side(ls[..|ls| - 1], own) +
         if ls[|ls| - 1].mark == Context || ls[|ls| - 1].mark == own then [ls[|ls| - 1].line] else []
  }

  function Lines<T>(ls: seq<T>, m: Mark): (r: seq<Marked<T>>)
    ensures |r| == |ls| && forall i :: 0 <= i < |ls| ==> r[i] == Marked(m, ls[i])
  {
    seq(|ls|, i requires 0 <= i < |ls| => Marked(m, ls[i]))
  }

  lemma {:induction false} SideAppend<T>(x: seq<Marked<T>>, y: seq<Marked<T>>, own: Mark)
    ensures Side(x + y, own) == Side(x, own) + Side(y, own)
  {
    if y == [] {
      assert x + y == x;
    } else {
      SideAppend(x, y[..|y| - 1], own);
      assert (x + y)[..|x + y| - 1] == x + y[..|y| - 1];
    }
  }

  lemma {:induction false} SideMarked<T>(ls: seq<T>, m: Mark, own: Mark)
    ensures Side(Lines(ls, m), own) == if m == Context || m == own then ls else []
  {
    if ls != [] {
      SideMarked(ls[..|ls| - 1], m, own);
      assert Lines(ls, m)[..|ls| - 1] == Lines(ls[..|ls| - 1], m);
      assert ls == ls[..|ls| - 1] + [ls[|ls| - 1]];
    }
  }

  /** Adding lines m to what is printed extends the sides m counts for. */
  lemma SideMore<T>(out: seq<Marked<T>>, ls: seq<T>, m: Mark)
    ensures Side(out + Lines(ls, m), Minus) == Side(out, Minus) + if m != Plus then ls else []
    ensures Side(out + Lines(ls, m), Plus) == Side(out, Plus) + if m != Minus then ls else []
  {
    SideAppend(out, Lines(ls, m), Minus);
    SideAppend(out, Lines(ls, m), Plus);
    SideMarked(ls, m, Minus);
    SideMarked(ls, m, Plus);
  }

  /** The number of lines with mark m. */
  ghost function Count<T>(ls: seq<Marked<T>>, m: Mark): int {
    if ls == [] then 0 else Count(ls[..|ls| - 1], m) + if ls[|ls| - 1].mark == m then 1 else 0
  }

  lemma {:induction false} CountMore<T>(out: seq<Marked<T>>, ls: seq<T>, m: Mark, x: Mark)
    ensures Count(out + Lines(ls, m), x) == Count(out, x) + if m == x then |ls| else 0
  {
    if ls == [] {
      assert out + Lines(ls, m) == out;
    } else {
      var k := |ls| - 1;
      CountMore(out, ls[..k], m, x);
      assert (out + Lines(ls, m))[..|out| + k] == out + Lines(ls[..k], m);
    }
  }

  /** How many lines of what is printed are marked as removed and as added. */
  ghost predicate Marks<T>(out: seq<Marked<T>>, minus: int, plus: int) {
    Count(out, Minus) == minus && Count(out, Plus) == plus
  }

  lemma MarksNone<T>()
    ensures Marks<T>([], 0, 0)
  {
  }

  lemma MarksMore<T>(out: seq<Marked<T>>, ls: seq<T>, m: Mark, minus: int, plus: int)
    requires Marks(out, minus, plus)
    ensures Marks(out + Lines(ls, m), minus + (if m == Minus then |ls| else 0), plus + (if m == Plus then |ls| else 0))
  {
    CountMore(out, ls, m, Minus);
    CountMore(out, ls, m, Plus);
  }

  // ------------------------------------------------------------ aligned scripts

  /** Where change t begins, or where the files end. */
  ghost function Next(cs: seq<Change>, t: nat, m: int, n: int): Pos
    requires t <= |cs|
  {
    if t < |cs| then Before(cs[t]) else (m, n)
  }

  /** Before, between and after the changes both files hold the same lines. */
  ghost predicate Aligned<T>(src: seq<T>, dst: seq<T>, cs: seq<Change>) {
    && Fits(cs, |src|, |dst|)
    && forall t :: 0 <= t <= |cs| ==> AlignedAt(src, dst, cs, t)
  }

  ghost predicate AlignedAt<T>(src: seq<T>, dst: seq<T>, cs: seq<Change>, t: nat)
    requires t <= |cs| && Fits(cs, |src|, |dst|)
  {
    var p, q := Reached(cs, t), Next(cs, t, |src|, |dst|);
    0 <= p.0 <= q.0 <= |src| && 0 <= p.1 <= q.1 <= |dst| && q.0 - p.0 == q.1 - p.1 && src[p.0..q.0] == dst[p.1..q.1]
  }

  lemma ScriptAligned<T>(J: seq<int>, src: seq<T>, dst: seq<T>, cs: seq<Change>)
    requires MatchVector(J, src, dst) && Script(J, cs, |src|, |dst|)
    ensures Aligned(src, dst, cs)
  {
    hide MatchVector, Script;
    ScriptFits(J, cs, |src|, |dst|);
    forall t | 0 <= t <= |cs| ensures AlignedAt(src, dst, cs, t) {
      ScriptGap(J, cs, |src|, |dst|, t);
      GapIsEqual(J, src, dst, Reached(cs, t), Next(cs, t, |src|, |dst|));
    }
  }

  /** Pairs of equal lines up to a position. */
  ghost predicate PairedTo<T>(src: seq<T>, dst: seq<T>, q: seq<Pair>, p: Pos) {
    Common(src, dst, q) && forall k :: 0 <= k < |q| ==> q[k].0 <= p.0 && q[k].1 <= p.1
  }

  lemma PairGap<T>(src: seq<T>, dst: seq<T>, q: seq<Pair>, p: Pos, n: nat) returns (q': seq<Pair>)
    requires PairedTo(src, dst, q, p) && 0 <= p.0 && p.0 + n <= |src| && 0 <= p.1 && p.1 + n <= |dst|
    requires src[p.0..p.0 + n] == dst[p.1..p.1 + n]
    ensures PairedTo(src, dst, q', (p.0 + n, p.1 + n)) && |q'| == |q| + n
  {
    var more := seq(n, i => (p.0 + 1 + i, p.1 + 1 + i));
    q' := q + more;
    forall k | 0 <= k < |q'|
      ensures 1 <= q'[k].0 <= |src| && 1 <= q'[k].1 <= |dst| && src[q'[k].0 - 1] == dst[q'[k].1 - 1]
    {
      if k >= |q| {
        var i := k - |q|;
        assert q'[k] == more[i] && src[p.0..p.0 + n][i] == dst[p.1..p.1 + n][i];
      }
    }
  }

  /** Every aligned script leaves a common subsequence: the lines it neither removes nor
      adds. */
  lemma {:induction false} KeptPairs<T>(src: seq<T>, dst: seq<T>, cs: seq<Change>, t: nat) returns (q: seq<Pair>)
    requires Aligned(src, dst, cs) && t <= |cs|
    ensures PairedTo(src, dst, q, Next(cs, t, |src|, |dst|))
    ensures |q| + Removed(cs, 0, t) == Next(cs, t, |src|, |dst|).0
    ensures |q| + Added(cs, 0, t) == Next(cs, t, |src|, |dst|).1
  {
    assert AlignedAt(src, dst, cs, t);
    var before: seq<Pair> := [];
    if t > 0 {
      before := KeptPairs(src, dst, cs, t - 1);
    }
    var p := Reached(cs, t);
    hide Aligned;
    q := PairGap(src, dst, before, p, Next(cs, t, |src|, |dst|).0 - p.0);
  }

  /** So no aligned script is cheaper than a cheapest one. */
  lemma NoScriptCheaper<T>(src: seq<T>, dst: seq<T>, cs: seq<Change>, removed: int, added: int)
    requires Aligned(src, dst, cs) && Cheapest(src, dst, removed, added)
    ensures removed <= Removed(cs, 0, |cs|) && added <= Added(cs, 0, |cs|)
  {
    var q := KeptPairs(src, dst, cs, |cs|);
  }

  /** The number of equal lines before change t. */
  ghost function GapLen<T>(src: seq<T>, cs: seq<Change>, t: nat): int
    requires t <= |cs|
  {
    Next(cs, t, |src|, 0).0 - Reached(cs, t).0
  }

  /** Any stretch inside a gap is equal on both sides. */
  lemma InsideGap<T>(src: seq<T>, dst: seq<T>, cs: seq<Change>, t: nat, x: int, y: int)
    requires Aligned(src, dst, cs) && t <= |cs| && 0 <= x <= y <= GapLen(src, cs, t)
    ensures var p := Reached(cs, t);
            0 <= p.0 && p.0 + y <= |src| && 0 <= p.1 && p.1 + y <= |dst| && src[p.0 + x..p.0 + y] == dst[p.1 + x..p.1 + y]
  {
    assert AlignedAt(src, dst, cs, t);
    var p, q := Reached(cs, t), Next(cs, t, |src|, |dst|);
    SliceOfSlice(src, p.0, q.0, x, y);
    SliceOfSlice(dst, p.1, q.1, x, y);
  }

  lemma SliceOfSlice<T>(s: seq<T>, i: int, j: int, x: int, y: int)
    requires 0 <= i <= j <= |s| && 0 <= x <= y <= j - i
    ensures s[i..j][x..y] == s[i + x..i + y]
  {
    forall t | 0 <= t < y - x ensures s[i..j][x..y][t] == s[i + x..i + y][t] {
      assert s[i..j][x + t] == s[i + x + t];
    }
  }

  // --------------------------------------------------------------------- hunks

  function Min(x: int, y: int): int { if x < y then x else y }

  function Max(x: int, y: int): int { if x > y then x else y }

  /** A hunk may begin or end at gap k: the files do, or the gap is too wide for
      the context on its two sides to meet. */
  ghost predicate Boundary<T>(src: seq<T>, cs: seq<Change>, k: nat, ctx: nat)
    requires k <= |cs|
  {
    k == 0 || k == |cs| || GapLen(src, cs, k) > 2 * ctx
  }

  /** The header describes the lines printed: the context and minus lines are
      the old lines lowa..upb, the context and plus lines the new lines
      lowc..upd. */
  ghost predicate Faithful<T>(h: Hunk<T>, src: seq<T>, dst: seq<T>) {
    && 1 <= h.lowa <= h.upb + 1 <= |src| + 1 && 1 <= h.lowc <= h.upd + 1 <= |dst| + 1
    && Side(h.lines, Minus) == src[h.lowa - 1..h.upb]
    && Side(h.lines, Plus) == dst[h.lowc - 1..h.upd]
  }

  /** What the two numbers of a header say of the lines shown: how many there are, and the
      number of the first, or of the line before them if there are none. */
  ghost predicate Announces<T>(r: (int, int), shown: seq<T>, file: seq<T>, low: int) {
    && r.1 == |shown|
    && (r.1 > 0 ==> r.0 == low && 1 <= r.0 && r.0 - 1 + r.1 <= |file| && shown == file[r.0 - 1..r.0 - 1 + r.1])
    && (r.1 == 0 ==> r.0 == low - 1 && 0 <= r.0 <= |file|)
  }

  /** The header of a hunk announces the lines printed of both files. */
  lemma HeaderCounts<T>(h: Hunk<T>, src: seq<T>, dst: seq<T>)
    requires Faithful(h, src, dst)
    ensures Announces(UniRange(h.lowa, h.upb), Side(h.lines, Minus), src, h.lowa)
    ensures Announces(UniRange(h.lowc, h.upd), Side(h.lines, Plus), dst, h.lowc)
  {
  }

  /** h covers changes s, ..., t-1, with as much context as fits. */
  ghost predicate Covers<T>(h: Hunk<T>, src: seq<T>, cs: seq<Change>, s: nat, t: nat, ctx: nat)
    requires s < t <= |cs|
  {
    && h.lowa == cs[s].a - Min(ctx, GapLen(src, cs, s)) && h.lowc == cs[s].c - Min(ctx, GapLen(src, cs, s))
    && h.upb == cs[t - 1].b + Min(ctx, GapLen(src, cs, t)) && h.upd == cs[t - 1].d + Min(ctx, GapLen(src, cs, t))
  }

  /** `lowa`, `lowc`, `upb` and `upd` as the code computes them take the same
      number of context lines from both files. */
  lemma ContextAgrees<T>(src: seq<T>, dst: seq<T>, cs: seq<Change>, s: nat, t: nat, ctx: nat)
    requires Aligned(src, dst, cs) && s < t <= |cs| && Boundary(src, cs, s, ctx) && Boundary(src, cs, t, ctx)
    ensures Max(1, cs[s].a - ctx) == cs[s].a - Min(ctx, GapLen(src, cs, s))
    ensures Max(1, cs[s].c - ctx) == cs[s].c - Min(ctx, GapLen(src, cs, s))
    ensures Min(|src|, cs[t - 1].b + ctx) == cs[t - 1].b + Min(ctx, GapLen(src, cs, t))
    ensures Min(|dst|, cs[t - 1].d + ctx) == cs[t - 1].d + Min(ctx, GapLen(src, cs, t))
  {
    assert AlignedAt(src, dst, cs, s) && AlignedAt(src, dst, cs, t);
  }

  /** What has been printed of a hunk that starts at (lowa, lowc), up to the
      position (i, j). */
  ghost predicate PrintedTo<T>(out: seq<Marked<T>>, src: seq<T>, dst: seq<T>, lowa: int, lowc: int, i: int, j: int) {
    && 1 <= lowa <= i + 1 <= |src| + 1 && 1 <= lowc <= j + 1 <= |dst| + 1
    && Side(out, Minus) == src[lowa - 1..i] && Side(out, Plus) == dst[lowc - 1..j]
  }

  lemma PrintContext<T>(out: seq<Marked<T>>, src: seq<T>, dst: seq<T>, lowa: int, lowc: int, i: int, j: int, k: nat)
    requires PrintedTo(out, src, dst, lowa, lowc, i, j) && i + k <= |src| && j + k <= |dst|
    requires src[i..i + k] == dst[j..j + k]
    ensures PrintedTo(out + Lines(src[i..i + k], Context), src, dst, lowa, lowc, i + k, j + k)
  {
    SideMore(out, src[i..i + k], Context);
    assert src[lowa - 1..i + k] == src[lowa - 1..i] + src[i..i + k];
    assert dst[lowc - 1..j + k] == dst[lowc - 1..j] + dst[j..j + k];
  }

  lemma PrintMinus<T>(out: seq<Marked<T>>, src: seq<T>, dst: seq<T>, lowa: int, lowc: int, i: int, j: int, k: nat)
    requires PrintedTo(out, src, dst, lowa, lowc, i, j) && i + k <= |src|
    ensures PrintedTo(out + Lines(src[i..i + k], Minus), src, dst, lowa, lowc, i + k, j)
  {
    SideMore(out, src[i..i + k], Minus);
    assert src[lowa - 1..i + k] == src[lowa - 1..i] + src[i..i + k];
  }

  lemma PrintPlus<T>(out: seq<Marked<T>>, src: seq<T>, dst: seq<T>, lowa: int, lowc: int, i: int, j: int, k: nat)
    requires PrintedTo(out, src, dst, lowa, lowc, i, j) && j + k <= |dst|
    ensures PrintedTo(out + Lines(dst[j..j + k], Plus), src, dst, lowa, lowc, i, j + k)
  {
    SideMore(out, dst[j..j + k], Plus);
    assert dst[lowc - 1..j + k] == dst[lowc - 1..j] + dst[j..j + k];
  }

  /** One change of `dump_unified_vec`: the context before it, then its lines. */
  method PrintChange<T>(src: seq<T>, dst: seq<T>, e: Change, lowa: int, lowc: int, out: seq<Marked<T>>,
                        ghost la: int, ghost lc: int, ghost minus: int, ghost plus: int)
    returns (out': seq<Marked<T>>)
    requires 1 <= e.a <= e.b + 1 <= |src| + 1 && 1 <= e.c <= e.d + 1 <= |dst| + 1
    requires 1 <= lowa <= e.a && 1 <= lowc <= e.c && e.a - lowa == e.c - lowc
    requires src[lowa - 1..e.a - 1] == dst[lowc - 1..e.c - 1]
    requires PrintedTo(out, src, dst, la, lc, lowa - 1, lowc - 1) && Marks(out, minus, plus)
    ensures PrintedTo(out', src, dst, la, lc, e.b, e.d) && Marks(out', minus + (e.b - e.a + 1), plus + (e.d - e.c + 1))
  {
    hide PrintedTo, Marks;
    PrintContext(out, src, dst, la, lc, lowa - 1, lowc - 1, e.a - lowa);
    MarksMore(out, src[lowa - 1..e.a - 1], Context, minus, plus);
    if e.a <= e.b && e.c <= e.d {
      out' := out + Lines(src[lowa - 1..e.a - 1], Context);
      PrintMinus(out', src, dst, la, lc, e.a - 1, e.c - 1, e.b - e.a + 1);
      MarksMore(out', src[e.a - 1..e.b], Minus, minus, plus);
      out' := out' + Lines(src[e.a - 1..e.b], Minus);
      PrintPlus(out', src, dst, la, lc, e.b, e.c - 1, e.d - e.c + 1);
      MarksMore(out', dst[e.c - 1..e.d], Plus, minus + (e.b - e.a + 1), plus);
      out' := out' + Lines(dst[e.c - 1..e.d], Plus);
    } else if e.a <= e.b {
      out' := out + Lines(src[lowa - 1..e.a - 1], Context);
      PrintMinus(out', src, dst, la, lc, e.a - 1, e.c - 1, e.b - e.a + 1);
      MarksMore(out', src[e.a - 1..e.b], Minus, minus, plus);
      out' := out' + Lines(src[e.a - 1..e.b], Minus);
    } else {
      out' := out + Lines(dst[lowc - 1..e.c - 1], Context);
      PrintPlus(out', src, dst, la, lc, e.a - 1, e.c - 1, e.d - e.c + 1);
      MarksMore(out', dst[e.c - 1..e.d], Plus, minus, plus);
      out' := out' + Lines(dst[e.c - 1..e.d], Plus);
    }
  }

  lemma PrintedFaithful<T>(h: Hunk<T>, src: seq<T>, dst: seq<T>)
    requires PrintedTo(h.lines, src, dst, h.lowa, h.lowc, h.upb, h.upd)
    ensures Faithful(h, src, dst)
  {
  }

  lemma DumpBegins<T>(src: seq<T>, dst: seq<T>, cs: seq<Change>, s: nat, ctx: nat)
    requires Aligned(src, dst, cs) && s < |cs|
    ensures var k := Min(ctx, GapLen(src, cs, s));
            0 <= k && PrintedTo([], src, dst, cs[s].a - k, cs[s].c - k, cs[s].a - k - 1, cs[s].c - k - 1)
  {
    assert AlignedAt(src, dst, cs, s);
  }

  ghost predicate FitsAt<T>(src: seq<T>, dst: seq<T>, e: Change) {
    1 <= e.a <= e.b + 1 <= |src| + 1 && 1 <= e.c <= e.d + 1 <= |dst| + 1
  }

  /** The context before the first change of a hunk. */
  lemma DumpFirst<T>(src: seq<T>, dst: seq<T>, cs: seq<Change>, t: nat, ctx: nat)
    requires Aligned(src, dst, cs) && t < |cs|
    ensures FitsAt(src, dst, cs[t])
    ensures var k := Min(ctx, GapLen(src, cs, t));
            0 <= k && 1 <= cs[t].a - k && 1 <= cs[t].c - k && src[cs[t].a - k - 1..cs[t].a - 1] == dst[cs[t].c - k - 1..cs[t].c - 1]
  {
    assert AlignedAt(src, dst, cs, t);
    var g := GapLen(src, cs, t);
    InsideGap(src, dst, cs, t, g - Min(ctx, g), g);
  }

  /** The context between two changes of a hunk. */
  lemma DumpNext<T>(src: seq<T>, dst: seq<T>, cs: seq<Change>, t: nat)
    requires Aligned(src, dst, cs) && 0 < t < |cs|
    ensures FitsAt(src, dst, cs[t])
    ensures var (e, p) := (cs[t], cs[t - 1]);
            0 <= p.b < e.a && 0 <= p.d < e.c && e.a - p.b == e.c - p.d && src[p.b..e.a - 1] == dst[p.d..e.c - 1]
  {
    assert AlignedAt(src, dst, cs, t);
  }

  lemma DumpEnds<T>(src: seq<T>, dst: seq<T>, cs: seq<Change>, t: nat, ctx: nat)
    requires Aligned(src, dst, cs) && 0 < t <= |cs|
    ensures var (e, k) := (cs[t - 1], Min(ctx, GapLen(src, cs, t)));
            0 <= k && 0 <= e.b && e.b + k <= |src| && 0 <= e.d && e.d + k <= |dst| && src[e.b..e.b + k] == dst[e.d..e.d + k]
  {
    assert AlignedAt(src, dst, cs, t);
    InsideGap(src, dst, cs, t, 0, Min(ctx, GapLen(src, cs, t)));
  }

  /** `dump_unified_vec` for the accumulated changes s, ..., t-1 of cs. */
  method Dump<T>(src: seq<T>, dst: seq<T>, ctx: nat, vec: seq<Change>, ghost cs: seq<Change>, ghost s: nat, ghost t: nat)
    returns (h: Hunk<T>)
    requires Aligned(src, dst, cs) && s < t <= |cs| && vec == cs[s..t]
    requires Boundary(src, cs, s, ctx) && Boundary(src, cs, t, ctx)
    ensures Faithful(h, src, dst) && Covers(h, src, cs, s, t, ctx)
    ensures Marks(h.lines, Removed(cs, s, t), Added(cs, s, t))
  {
    hide Aligned, PrintedTo, Boundary, GapLen, Faithful, Marks, Removed, Added;
    assert vec[0] == cs[s] && vec[|vec| - 1] == cs[t - 1];
    var lowa, lowc := Max(1, vec[0].a - ctx), Max(1, vec[0].c - ctx);
    var upb, upd := Min(|src|, vec[|vec| - 1].b + ctx), Min(|dst|, vec[|vec| - 1].d + ctx);
    ContextAgrees(src, dst, cs, s, t, ctx);
    var out := PrintAll(src, dst, ctx, vec, lowa, lowc, cs, s, t);
    DumpEnds(src, dst, cs, t, ctx);
    var d := vec[|vec| - 1].d;
    PrintContext(out, src, dst, lowa, lowc, cs[t - 1].b, d, Min(ctx, GapLen(src, cs, t)));
    MarksMore(out, dst[d..upd], Context, Removed(cs, s, t), Added(cs, s, t));
    out := out + Lines(dst[d..upd], Context);
    h := Hunk(lowa, upb, lowc, upd, out);
    PrintedFaithful(h, src, dst);
  }

  /** The loop of `dump_unified_vec` over the changes of the hunk. */
  method PrintAll<T>(src: seq<T>, dst: seq<T>, ctx: nat, vec: seq<Change>, lowa0: int, lowc0: int, ghost cs: seq<Change>, ghost s: nat, ghost t: nat)
    returns (out: seq<Marked<T>>)
    requires Aligned(src, dst, cs) && s < t <= |cs| && vec == cs[s..t]
    requires lowa0 == cs[s].a - Min(ctx, GapLen(src, cs, s)) && lowc0 == cs[s].c - Min(ctx, GapLen(src, cs, s))
    ensures PrintedTo(out, src, dst, lowa0, lowc0, cs[t - 1].b, cs[t - 1].d)
    ensures Marks(out, Removed(cs, s, t), Added(cs, s, t))
  {
    hide Aligned, PrintedTo, GapLen, Marks;
    var lowa, lowc := lowa0, lowc0;
    out := [];
    DumpBegins(src, dst, cs, s, ctx);
    MarksNone<T>();
    for k := 0 to |vec|
      invariant k == 0 ==> lowa == lowa0 && lowc == lowc0
      invariant k > 0 ==> (lowa - 1, lowc - 1) == After(cs[s + k - 1])
      invariant PrintedTo(out, src, dst, lowa0, lowc0, lowa - 1, lowc - 1)
      invariant Marks(out, Removed(cs, s, s + k), Added(cs, s, s + k))
    {
      assert vec[k] == cs[s + k];
      if k == 0 {
        DumpFirst(src, dst, cs, s, ctx);
      } else {
        DumpNext(src, dst, cs, s + k);
      }
      out := PrintChange(src, dst, vec[k], lowa, lowc, out, lowa0, lowc0, Removed(cs, s, s + k), Added(cs, s, s + k));
      lowa, lowc := vec[k].b + 1, vec[k].d + 1;
    }
  }

  // ----------------------------------------------------------------- the output

  /** Reading hunks as patch(1) does: copies the old lines between hunks and
      takes each hunk's context and plus lines for its old lines. */
  ghost function PatchedTo<T>(src: seq<T>, hs: seq<Hunk<T>>): seq<T>
    requires InOrder(src, hs)
  {
    if hs == [] then []
    else
      var h, before := hs[|hs| - 1], hs[..|hs| - 1];
      PatchedTo(src, before) + src[EndOf(before)..h.lowa - 1] + Side(h.lines, Plus)
  }

  ghost function EndOf<T>(hs: seq<Hunk<T>>): int {
    if hs == [] then 0 else hs[|hs| - 1].upb
  }

  /** The hunks lie one behind the other in the old file. */
  ghost predicate InOrder<T>(src: seq<T>, hs: seq<Hunk<T>>) {
    && (forall k :: 0 <= k < |hs| ==> 1 <= hs[k].lowa <= hs[k].upb + 1 <= |src| + 1)
    && (forall k :: 0 < k < |hs| ==> hs[k - 1].upb < hs[k].lowa)
  }

  /** No two hunks overlap or touch: between them lies at least one line that
      neither shows, in either file. */
  ghost predicate Separate<T>(hs: seq<Hunk<T>>) {
    forall k :: 0 < k < |hs| ==> hs[k - 1].upb + 1 < hs[k].lowa && hs[k - 1].upd + 1 < hs[k].lowc
  }

  ghost predicate WellPlaced<T>(hs: seq<Hunk<T>>, src: seq<T>, dst: seq<T>) {
    && (forall k :: 0 <= k < |hs| ==> Faithful(hs[k], src, dst))
    && Separate(hs) && InOrder(src, hs)
  }

  lemma WellPlacedOneMore<T>(hs: seq<Hunk<T>>, h: Hunk<T>, src: seq<T>, dst: seq<T>)
    requires WellPlaced(hs, src, dst) && Faithful(h, src, dst)
    requires hs != [] ==> EndOf(hs) + 1 < h.lowa && EndNew(hs) + 1 < h.lowc
    ensures WellPlaced(hs + [h], src, dst)
  {
    hide Faithful;
    FaithfulFacts(h, src, dst);
    var hs' := hs + [h];
    forall k | 0 < k < |hs'|
      ensures hs'[k - 1].upb + 1 < hs'[k].lowa && hs'[k - 1].upd + 1 < hs'[k].lowc
    {
      assert hs'[k - 1] == hs[k - 1] && (k < |hs| ==> hs'[k] == hs[k]);
    }
  }

  lemma WellPlacedInOrder<T>(hs: seq<Hunk<T>>, src: seq<T>, dst: seq<T>)
    requires WellPlaced(hs, src, dst)
    ensures InOrder(src, hs)
  {
  }

  /** The hunks dumped so far cover the changes before t. */
  ghost predicate Dumped<T>(hs: seq<Hunk<T>>, src: seq<T>, dst: seq<T>, cs: seq<Change>, t: nat, ctx: nat)
    requires t <= |cs|
  {
    && WellPlaced(hs, src, dst)
    && (t == 0 <==> hs == [])
    && (t > 0 ==> EndOf(hs) == cs[t - 1].b + Min(ctx, GapLen(src, cs, t))
                  && EndNew(hs) == cs[t - 1].d + Min(ctx, GapLen(src, cs, t)))
    && 0 <= EndNew(hs) <= |dst| && PatchedTo(src, hs) == dst[..EndNew(hs)]
  }

  lemma DumpedOneMore<T>(hs: seq<Hunk<T>>, h: Hunk<T>, src: seq<T>, dst: seq<T>, cs: seq<Change>, s: nat, t: nat, ctx: nat)
    requires Aligned(src, dst, cs) && s < t <= |cs| && Boundary(src, cs, s, ctx)
    requires Dumped(hs, src, dst, cs, s, ctx) && Faithful(h, src, dst) && Covers(h, src, cs, s, t, ctx)
    ensures Dumped(hs + [h], src, dst, cs, t, ctx)
  {
    hide Faithful, Aligned, Boundary, WellPlaced, PatchedTo, Side, GapLen;
    WellPlacedInOrder(hs, src, dst);
    DumpedGap(hs, h, src, dst, cs, s, t, ctx);
    FaithfulFacts(h, src, dst);
    WellPlacedOneMore(hs, h, src, dst);
    WellPlacedInOrder(hs + [h], src, dst);
    DumpedJoin(hs, h, src, dst);
  }

  lemma FaithfulFacts<T>(h: Hunk<T>, src: seq<T>, dst: seq<T>)
    requires Faithful(h, src, dst)
    ensures 1 <= h.lowa <= h.upb + 1 <= |src| + 1 && 1 <= h.lowc <= h.upd + 1 <= |dst| + 1
    ensures Side(h.lines, Plus) == dst[h.lowc - 1..h.upd]
  {
  }

  /** The new-file line that the hunks so far reach. */
  ghost function EndNew<T>(hs: seq<Hunk<T>>): int {
    if hs == [] then 0 else hs[|hs| - 1].upd
  }

  /** The lines between the last hunk and the next are equal in both files, and
      there is at least one of them. */
  lemma DumpedGap<T>(hs: seq<Hunk<T>>, h: Hunk<T>, src: seq<T>, dst: seq<T>, cs: seq<Change>, s: nat, t: nat, ctx: nat)
    requires Aligned(src, dst, cs) && s < t <= |cs| && Boundary(src, cs, s, ctx)
    requires Dumped(hs, src, dst, cs, s, ctx) && Covers(h, src, cs, s, t, ctx)
    ensures 0 <= EndOf(hs) <= h.lowa - 1 <= |src| && 0 <= EndNew(hs) <= h.lowc - 1 <= |dst|
    ensures src[EndOf(hs)..h.lowa - 1] == dst[EndNew(hs)..h.lowc - 1]
    ensures hs != [] ==> EndOf(hs) + 1 < h.lowa && EndNew(hs) + 1 < h.lowc
  {
    assert AlignedAt(src, dst, cs, s);
    WellPlacedInOrder(hs, src, dst);
    hide WellPlaced, PatchedTo, Side, Aligned;
    var g := GapLen(src, cs, s);
    var from := if s == 0 then 0 else Min(ctx, g);
    InsideGap(src, dst, cs, s, from, g - Min(ctx, g));
  }

  lemma DumpedJoin<T>(hs: seq<Hunk<T>>, h: Hunk<T>, src: seq<T>, dst: seq<T>)
    requires InOrder(src, hs) && InOrder(src, hs + [h])
    requires 0 <= EndOf(hs) <= h.lowa - 1 <= |src| && 0 <= EndNew(hs) <= h.lowc - 1 <= h.upd <= |dst|
    requires src[EndOf(hs)..h.lowa - 1] == dst[EndNew(hs)..h.lowc - 1]
    requires PatchedTo(src, hs) == dst[..EndNew(hs)] && Side(h.lines, Plus) == dst[h.lowc - 1..h.upd]
    ensures PatchedTo(src, hs + [h]) == dst[..h.upd]
  {
    hide InOrder, Side;
    assert (hs + [h])[..|hs + [h]| - 1] == hs;
    Cut(dst, EndNew(hs), h.lowc - 1, h.upd);
  }

  lemma Cut<T>(s: seq<T>, i: int, j: int, k: int)
    requires 0 <= i <= j <= k <= |s|
    ensures s[..k] == s[..i] + s[i..j] + s[j..k]
  {
  }

  lemma DumpedAll<T>(hs: seq<Hunk<T>>, src: seq<T>, dst: seq<T>, cs: seq<Change>, ctx: nat)
    requires Aligned(src, dst, cs) && Dumped(hs, src, dst, cs, |cs|, ctx)
    ensures WellPlaced(hs, src, dst) && InOrder(src, hs)
    ensures 0 <= EndOf(hs) <= |src| && PatchedTo(src, hs) + src[EndOf(hs)..] == dst
  {
    hide WellPlaced, PatchedTo, Aligned;
    WellPlacedInOrder(hs, src, dst);
    LastGap(src, dst, cs, ctx);
    JoinRest(PatchedTo(src, hs), src, dst, EndOf(hs), EndNew(hs));
  }

  /** The files agree from any context after the last change to their ends. */
  lemma LastGap<T>(src: seq<T>, dst: seq<T>, cs: seq<Change>, ctx: nat)
    requires Aligned(src, dst, cs)
    ensures var (p, k) := (Reached(cs, |cs|), if |cs| == 0 then 0 else Min(ctx, GapLen(src, cs, |cs|)));
            0 <= p.0 + k <= |src| && 0 <= p.1 + k <= |dst| && src[p.0 + k..|src|] == dst[p.1 + k..|dst|]
  {
    assert AlignedAt(src, dst, cs, |cs|);
    var g := GapLen(src, cs, |cs|);
    InsideGap(src, dst, cs, |cs|, if |cs| == 0 then 0 else Min(ctx, g), g);
  }

  lemma JoinRest<T>(p: seq<T>, src: seq<T>, dst: seq<T>, i: int, j: int)
    requires 0 <= i <= |src| && 0 <= j <= |dst| && p == dst[..j] && src[i..|src|] == dst[j..|dst|]
    ensures p + src[i..] == dst
  {
    assert src[i..] == src[i..|src|] && dst == dst[..j] + dst[j..|dst|];
  }

  lemma WideGap<T>(src: seq<T>, dst: seq<T>, cs: seq<Change>, t: nat, ctx: nat)
    requires Aligned(src, dst, cs) && 0 < t < |cs|
    ensures cs[t].a > cs[t - 1].b + 2 * ctx + 1 <==> cs[t].c > cs[t - 1].d + 2 * ctx + 1
    ensures Boundary(src, cs, t, ctx) <==> cs[t].a > cs[t - 1].b + 2 * ctx + 1
  {
    assert AlignedAt(src, dst, cs, t);
  }

  // ------------------------------------------------------------- which hunks

  /** The cuts divide the changes into consecutive runs, one per hunk: a hunk shows its
      run with up to ctx lines around it, and a new one begins exactly where the gap
      is wider than the context on its two sides. */
  ghost predicate CutAt<T>(hs: seq<Hunk<T>>, src: seq<T>, cs: seq<Change>, ctx: nat, cuts: seq<nat>) {
    && |cuts| == |hs| + 1 && cuts[0] == 0
    && (forall k :: 0 <= k < |hs| ==> RunOf(hs, src, cs, ctx, cuts, k))
  }

  ghost predicate RunOf<T>(hs: seq<Hunk<T>>, src: seq<T>, cs: seq<Change>, ctx: nat, cuts: seq<nat>, k: nat)
    requires k < |hs| && |cuts| == |hs| + 1
  {
    var from, till := cuts[k], cuts[k + 1];
    && from < till <= |cs| && Boundary(src, cs, from, ctx) && Boundary(src, cs, till, ctx)
    && Covers(hs[k], src, cs, from, till, ctx) && Marks(hs[k].lines, Removed(cs, from, till), Added(cs, from, till))
    && forall u :: from < u < till ==> !Boundary(src, cs, u, ctx)
  }

  ghost predicate Hunked<T>(hs: seq<Hunk<T>>, src: seq<T>, cs: seq<Change>, ctx: nat) {
    exists cuts :: CutAt(hs, src, cs, ctx, cuts) && cuts[|hs|] == |cs|
  }

  lemma CutOneMore<T>(hs: seq<Hunk<T>>, h: Hunk<T>, src: seq<T>, cs: seq<Change>, ctx: nat, cuts: seq<nat>, t: nat)
    requires CutAt(hs, src, cs, ctx, cuts)
    requires cuts[|hs|] < t <= |cs| && Boundary(src, cs, cuts[|hs|], ctx) && Boundary(src, cs, t, ctx)
    requires Covers(h, src, cs, cuts[|hs|], t, ctx)
    requires Marks(h.lines, Removed(cs, cuts[|hs|], t), Added(cs, cuts[|hs|], t))
    requires forall u :: cuts[|hs|] < u < t ==> !Boundary(src, cs, u, ctx)
    ensures CutAt(hs + [h], src, cs, ctx, cuts + [t])
  {
    hide Boundary, Covers, Marks, Removed, Added;
    var hs', cuts' := hs + [h], cuts + [t];
    forall k | 0 <= k < |hs'| ensures RunOf(hs', src, cs, ctx, cuts', k) {
      assert k < |hs| ==> RunOf(hs, src, cs, ctx, cuts, k);
      assert cuts'[k] == cuts[k] && (k < |hs| ==> hs'[k] == hs[k] && cuts'[k + 1] == cuts[k + 1]);
    }
  }

  /** Lines marked m in all the hunks. */
  ghost function CountAll<T>(hs: seq<Hunk<T>>, m: Mark): int {
    if hs == [] then 0 else CountAll(hs[..|hs| - 1], m) + Count(hs[|hs| - 1].lines, m)
  }

  lemma {:induction false} CutCost<T>(hs: seq<Hunk<T>>, src: seq<T>, cs: seq<Change>, ctx: nat, cuts: seq<nat>)
    requires CutAt(hs, src, cs, ctx, cuts)
    ensures cuts[|hs|] <= |cs|
    ensures CountAll(hs, Minus) == Removed(cs, 0, cuts[|hs|]) && CountAll(hs, Plus) == Added(cs, 0, cuts[|hs|])
  {
    hide Boundary, Covers;
    if hs != [] {
      var k := |hs| - 1;
      assert RunOf(hs, src, cs, ctx, cuts, k);
      var hs', cuts' := hs[..k], cuts[..k + 1];
      forall i | 0 <= i < k ensures RunOf(hs', src, cs, ctx, cuts', i) {
        assert RunOf(hs, src, cs, ctx, cuts, i);
      }
      CutCost(hs', src, cs, ctx, cuts');
      CostSplit(cs, 0, cuts[k], cuts[k + 1]);
    }
  }

  /** In all, the hunks mark as many lines as the script removes and adds. */
  lemma HunkedCost<T>(hs: seq<Hunk<T>>, src: seq<T>, cs: seq<Change>, ctx: nat)
    requires Hunked(hs, src, cs, ctx)
    ensures CountAll(hs, Minus) == Removed(cs, 0, |cs|) && CountAll(hs, Plus) == Added(cs, 0, |cs|)
  {
    var cuts: seq<nat> :| CutAt(hs, src, cs, ctx, cuts) && cuts[|hs|] == |cs|;
    hide CutAt;
    CutCost(hs, src, cs, ctx, cuts);
  }

  /** The unified branch of `change`, called for every change of a script, and
      the last dump in `output`. */
  method Unified<T>(src: seq<T>, dst: seq<T>, cs: seq<Change>, ctx: nat) returns (hs: seq<Hunk<T>>)
    requires Aligned(src, dst, cs)
    ensures WellPlaced(hs, src, dst) && Hunked(hs, src, cs, ctx)
    ensures EndOf(hs) <= |src| && PatchedTo(src, hs) + src[EndOf(hs)..] == dst
  {
    hide Aligned, Covers, Boundary, GapLen, PatchedTo, Dumped, WellPlaced, Marks, Removed, Added, CutAt;
    hs := [];
    var vec: seq<Change> := [];
    var anychange := false;
    ghost var s: nat := 0;
    ghost var cuts: seq<nat> := [0];
    DumpedNone(src, dst, cs, ctx);
    CutNone(src, cs, ctx);
    for t := 0 to |cs|
      invariant s <= t && vec == cs[s..t] && anychange == (t > 0) && (t > 0 ==> s < t)
      invariant Boundary(src, cs, s, ctx)
      invariant forall u :: s < u < t ==> !Boundary(src, cs, u, ctx)
      invariant Dumped(hs, src, dst, cs, s, ctx)
      invariant CutAt(hs, src, cs, ctx, cuts) && |cuts| == |hs| + 1 && cuts[|hs|] == s
    {
      if !anychange {
        anychange := true;
      } else {
        WideGap(src, dst, cs, t, ctx);
        assert vec[|vec| - 1] == cs[t - 1];
        if cs[t].a > vec[|vec| - 1].b + 2 * ctx + 1 && cs[t].c > vec[|vec| - 1].d + 2 * ctx + 1 {
          var h := Dump(src, dst, ctx, vec, cs, s, t);
          DumpedOneMore(hs, h, src, dst, cs, s, t, ctx);
          CutOneMore(hs, h, src, cs, ctx, cuts, t);
          hs := hs + [h];
          s, vec, cuts := t, [], cuts + [t];
        } else {
          assert !Boundary(src, cs, t, ctx);
        }
      }
      vec := vec + [cs[t]];
    }
    if anychange {
      BoundaryEnd(src, cs, ctx);
      var h := Dump(src, dst, ctx, vec, cs, s, |cs|);
      DumpedOneMore(hs, h, src, dst, cs, s, |cs|, ctx);
      CutOneMore(hs, h, src, cs, ctx, cuts, |cs|);
      hs := hs + [h];
      cuts := cuts + [|cs|];
    }
    DumpedAll(hs, src, dst, cs, ctx);
  }

  lemma CutNone<T>(src: seq<T>, cs: seq<Change>, ctx: nat)
    ensures CutAt<T>([], src, cs, ctx, [0])
  {
  }

  lemma DumpedNone<T>(src: seq<T>, dst: seq<T>, cs: seq<Change>, ctx: nat)
    ensures Dumped<T>([], src, dst, cs, 0, ctx) && Boundary(src, cs, 0, ctx)
  {
  }

  lemma BoundaryEnd<T>(src: seq<T>, cs: seq<Change>, ctx: nat)
    ensures Boundary(src, cs, |cs|, ctx)
  {
  }

  // ------------------------------------------------------------- which lines are shown

  /** Old line x is in some hunk. */
  ghost predicate Shown<T>(hs: seq<Hunk<T>>, x: int) {
    exists k :: 0 <= k < |hs| && hs[k].lowa <= x <= hs[k].upb
  }

  /** Old line x is changed, or within ctx lines of a change. */
  ghost predicate Near(cs: seq<Change>, x: int, ctx: nat) {
    exists t :: 0 <= t < |cs| && cs[t].a - ctx <= x <= cs[t].b + ctx
  }

  lemma {:induction false} InOrderOfLines<T>(src: seq<T>, dst: seq<T>, cs: seq<Change>, t: nat, u: nat)
    requires Aligned(src, dst, cs) && t <= u < |cs|
    ensures cs[t].a <= cs[u].a && cs[t].b <= cs[u].b && (t < u ==> cs[t].b < cs[u].a)
    decreases u
  {
    if t < u {
      InOrderOfLines(src, dst, cs, t, u - 1);
      assert AlignedAt(src, dst, cs, u);
    }
  }

  /** Between two changes of one run every line is near one of them. */
  lemma {:induction false} InsideRun<T>(src: seq<T>, cs: seq<Change>, ctx: nat, from: nat, till: nat, x: int, n: nat)
    requires Fits(cs, |src|, n) && from < till <= |cs| && cs[from].a <= x <= cs[till - 1].b
    requires forall u :: from < u < till ==> !Boundary(src, cs, u, ctx)
    ensures Near(cs, x, ctx)
    decreases till
  {
    if x >= cs[till - 1].a {
      assert cs[till - 1].a - ctx <= x <= cs[till - 1].b + ctx;
    } else if x <= cs[till - 2].b {
      InsideRun(src, cs, ctx, from, till - 1, x, n);
    } else {
      assert !Boundary(src, cs, till - 1, ctx);
      if x <= cs[till - 2].b + ctx {
        assert cs[till - 2].a - ctx <= x <= cs[till - 2].b + ctx;
      } else {
        assert cs[till - 1].a - ctx <= x <= cs[till - 1].b + ctx;
      }
    }
  }

  lemma ShownIsNear<T>(hs: seq<Hunk<T>>, src: seq<T>, dst: seq<T>, cs: seq<Change>, ctx: nat, cuts: seq<nat>, k: nat, x: int)
    requires Aligned(src, dst, cs) && CutAt(hs, src, cs, ctx, cuts) && k < |hs| && hs[k].lowa <= x <= hs[k].upb
    ensures Near(cs, x, ctx)
  {
    assert RunOf(hs, src, cs, ctx, cuts, k);
    var from, till := cuts[k], cuts[k + 1];
    assert Fits(cs, |src|, |dst|);
    if x < cs[from].a {
      assert cs[from].a - ctx <= x <= cs[from].b + ctx;
    } else if x > cs[till - 1].b {
      assert cs[till - 1].a - ctx <= x <= cs[till - 1].b + ctx;
    } else {
      InsideRun(src, cs, ctx, from, till, x, |dst|);
    }
  }

  /** The run that a change belongs to. */
  lemma {:induction false} RunWith<T>(hs: seq<Hunk<T>>, src: seq<T>, cs: seq<Change>, ctx: nat, cuts: seq<nat>, n: nat, t: nat) returns (k: nat)
    requires CutAt(hs, src, cs, ctx, cuts) && n <= |hs| && t < cuts[n]
    ensures k < |hs| && cuts[k] <= t < cuts[k + 1]
    decreases n
  {
    assert RunOf(hs, src, cs, ctx, cuts, n - 1);
    if cuts[n - 1] <= t {
      k := n - 1;
    } else {
      k := RunWith(hs, src, cs, ctx, cuts, n - 1, t);
    }
  }

  lemma NearIsShown<T>(hs: seq<Hunk<T>>, src: seq<T>, dst: seq<T>, cs: seq<Change>, ctx: nat, cuts: seq<nat>, t: nat, x: int)
    requires Aligned(src, dst, cs) && CutAt(hs, src, cs, ctx, cuts) && cuts[|hs|] == |cs|
    requires t < |cs| && cs[t].a - ctx <= x <= cs[t].b + ctx && 1 <= x <= |src|
    ensures Shown(hs, x)
  {
    var k := RunWith(hs, src, cs, ctx, cuts, |hs|, t);
    assert RunOf(hs, src, cs, ctx, cuts, k);
    var from, till := cuts[k], cuts[k + 1];
    InOrderOfLines(src, dst, cs, from, t);
    InOrderOfLines(src, dst, cs, t, till - 1);
    assert hs[k].lowa <= x <= hs[k].upb;
  }

  /** The hunks show exactly the changed lines of the old file and those within ctx lines of
      a change. */
  lemma ShownExactly<T>(hs: seq<Hunk<T>>, src: seq<T>, dst: seq<T>, cs: seq<Change>, ctx: nat, x: int)
    requires Aligned(src, dst, cs) && Hunked(hs, src, cs, ctx) && 1 <= x <= |src|
    ensures Shown(hs, x) <==> Near(cs, x, ctx)
  {
    var cuts :| CutAt(hs, src, cs, ctx, cuts) && cuts[|hs|] == |cs|;
    hide Aligned, CutAt;
    if Shown(hs, x) {
      var k :| 0 <= k < |hs| && hs[k].lowa <= x <= hs[k].upb;
      ShownIsNear(hs, src, dst, cs, ctx, cuts, k, x);
    }
    if Near(cs, x, ctx) {
      var t :| 0 <= t < |cs| && cs[t].a - ctx <= x <= cs[t].b + ctx;
      NearIsShown(hs, src, dst, cs, ctx, cuts, t, x);
    }
  }
}
