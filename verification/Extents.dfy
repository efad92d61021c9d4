/** The extent list of libutil/ExtentManager.cpp: a sorted list of block ranges
    kept by inserting, merging, erasing and splitting in place, against the plain
    set of blocks it stands for.
  */
module Extents {

  datatype Extent = Extent(addr: int, num: int) {
    function End(): int { addr + num }
  }

  /** BeforeExtent: a ends before b starts, with at least one block between. */
  predicate Before(a: Extent, b: Extent) {
    a.End() < b.addr
  }

  predicate Between(from: int, x: int, to: int) {
    from <= x < to
  }

  ghost function Range(from: int, to: int): iset<int> {
    iset x | Between(from, x, to)
  }

  predicate Covers(e: Extent, x: int) {
    Between(e.addr, x, e.End())
  }

  ghost predicate Listed(es: seq<Extent>, x: int) {
    exists i :: 0 <= i < |es| && Covers(es[i], x)
  }

  /** The blocks a list of extents stands for. */
  ghost function Blocks(es: seq<Extent>): iset<int> {
    iset x | Listed(es, x)
  }

  ghost predicate InBounds(es: seq<Extent>, total: int) {
    forall i :: 0 <= i < |es| ==> 0 <= es[i].addr && 0 <= es[i].num && es[i].End() <= total
  }

  /** Sorted, disjoint and not even touching. */
  ghost predicate Separate(es: seq<Extent>) {
    forall i, j :: 0 <= i < j < |es| ==> Before(es[i], es[j])
  }

  /** MergeExtent: the hull of two extents. */
  function Merge(a: Extent, b: Extent): (c: Extent)
    ensures a.num >= 0 && b.num >= 0 && !Before(a, b) && !Before(b, a) ==>
              c.num >= 0 && forall x :: Covers(c, x) <==> Covers(a, x) || Covers(b, x)
  {
    var start := if a.addr < b.addr then a.addr else b.addr;
    var end := if a.End() > b.End() then a.End() else b.End();
    Extent(start, end - start)
  }

  // -------------------------------------------------------------------- adding

  /** All separate, except that extents after the n-th may touch or overlap it. */
  ghost predicate Loose(es: seq<Extent>, n: nat, total: int) {
    && n < |es| && InBounds(es, total)
    && (forall i, j :: 0 <= i < j < |es| && i != n ==> Before(es[i], es[j]))
    && (forall j :: n < j < |es| ==> es[n].addr <= es[j].addr)
  }

  lemma BlocksSplit(es: seq<Extent>, n: nat)
    requires n <= |es|
    ensures Blocks(es) == Blocks(es[..n]) + Blocks(es[n..])
  {
    hide Covers;
    forall x ensures Listed(es, x) <==> Listed(es[..n], x) || Listed(es[n..], x) {
      if i :| 0 <= i < |es| && Covers(es[i], x) {
        assert i < n ==> es[..n][i] == es[i];
        assert i >= n ==> es[n..][i - n] == es[i];
      }
    }
  }

  lemma BlocksJoin(a: seq<Extent>, b: seq<Extent>)
    ensures Blocks(a + b) == Blocks(a) + Blocks(b)
  {
    BlocksSplit(a + b, |a|);
    assert (a + b)[..|a|] == a && (a + b)[|a|..] == b;
  }

  lemma BlocksOne(e: Extent)
    ensures Blocks([e]) == Range(e.addr, e.End())
  {
    forall x ensures Listed([e], x) <==> Covers(e, x) {
      assert [e][0] == e;
    }
  }

  lemma BlocksAround(a: seq<Extent>, e: Extent, b: seq<Extent>)
    ensures Blocks(a + [e] + b) == Blocks(a) + Range(e.addr, e.End()) + Blocks(b)
  {
    BlocksJoin(a + [e], b);
    BlocksJoin(a, [e]);
    BlocksOne(e);
  }

  /** Inserting ext in front of the first extent it lies before. */
  lemma Inserted(es: seq<Extent>, n: nat, ext: Extent, total: int)
    requires InBounds(es, total) && 0 <= ext.addr && 0 <= ext.num && ext.End() <= total && Separate(es) && n <= |es|
    requires forall k :: 0 <= k < n ==> Before(es[k], ext)
    requires n < |es| ==> Before(ext, es[n])
    ensures Loose(es[..n] + [ext] + es[n..], n, total)
    ensures Blocks(es[..n] + [ext] + es[n..]) == Blocks(es) + Range(ext.addr, ext.End())
  {
    BlocksAround(es[..n], ext, es[n..]);
    BlocksSplit(es, n);
    InsertedLoose(es, n, ext, total);
  }

  lemma InsertedLoose(es: seq<Extent>, n: nat, ext: Extent, total: int)
    requires InBounds(es, total) && 0 <= ext.addr && 0 <= ext.num && ext.End() <= total && Separate(es) && n <= |es|
    requires forall k :: 0 <= k < n ==> Before(es[k], ext)
    requires n < |es| ==> Before(ext, es[n])
    ensures Loose(es[..n] + [ext] + es[n..], n, total)
  {
    var r := es[..n] + [ext] + es[n..];
    forall k | 0 <= k < |r| ensures r[k] == if k < n then es[k] else if k == n then ext else es[k - 1] {
    }
    forall i, j | 0 <= i < j < |r| && i != n ensures Before(r[i], r[j]) {
      if i < n && n < j {
        assert Before(es[i], es[j - 1]);
      }
    }
    forall j | n < j < |r| ensures r[n].addr <= r[j].addr {
      assert n < j - 1 ==> Before(es[n], es[j - 1]);
    }
  }

  /** Merging ext into the first extent it is neither before nor after. */
  lemma MergedInto(es: seq<Extent>, n: nat, ext: Extent, total: int)
    requires InBounds(es, total) && 0 <= ext.addr && 0 <= ext.num && ext.End() <= total && Separate(es) && n < |es|
    requires forall k :: 0 <= k < n ==> Before(es[k], ext)
    requires ext.num >= 0 && es[n].num >= 0 && !Before(ext, es[n]) && !Before(es[n], ext)
    ensures Loose(es[n := Merge(ext, es[n])], n, total)
    ensures Blocks(es[n := Merge(ext, es[n])]) == Blocks(es) + Range(ext.addr, ext.End())
  {
    MergedBlocks(es, n, ext);
  }

  lemma MergedBlocks(es: seq<Extent>, n: nat, ext: Extent)
    requires n < |es|
    requires ext.num >= 0 && es[n].num >= 0 && !Before(ext, es[n]) && !Before(es[n], ext)
    ensures Blocks(es[n := Merge(ext, es[n])]) == Blocks(es) + Range(ext.addr, ext.End())
  {
    hide Blocks;
    var m := Merge(ext, es[n]);
    assert es[n := m] == es[..n] + [m] + es[n + 1..];
    BlocksAround(es[..n], m, es[n + 1..]);
    assert es == es[..n] + [es[n]] + es[n + 1..];
    BlocksAround(es[..n], es[n], es[n + 1..]);
    MergedRange(ext, es[n]);
  }

  lemma MergedRange(a: Extent, b: Extent)
    requires a.num >= 0 && b.num >= 0 && !Before(a, b) && !Before(b, a)
    ensures var m := Merge(a, b); Range(m.addr, m.End()) == Range(a.addr, a.End()) + Range(b.addr, b.End())
  {
    var m := Merge(a, b);
    forall x ensures x in Range(m.addr, m.End()) <==> x in Range(a.addr, a.End()) || x in Range(b.addr, b.End()) {
      assert Covers(m, x) <==> Covers(a, x) || Covers(b, x);
    }
  }

  /** The n-th extent swallows its neighbour. */
  lemma Absorbed(es: seq<Extent>, n: nat, total: int)
    requires Loose(es, n, total) && n + 1 < |es| && !Before(es[n], es[n + 1])
    ensures !Before(es[n + 1], es[n])
    ensures var r := es[..n] + [Merge(es[n + 1], es[n])] + es[n + 2..];
            Loose(r, n, total) && Blocks(r) == Blocks(es)
  {
    var m := Merge(es[n + 1], es[n]);
    var r := es[..n] + [m] + es[n + 2..];
    assert forall k :: n < k < |r| ==> r[k] == es[k + 1];
    AbsorbedBlocks(es, n);
  }

  lemma AbsorbedBlocks(es: seq<Extent>, n: nat)
    requires n + 1 < |es| && es[n].num >= 0 && es[n + 1].num >= 0
    requires !Before(es[n], es[n + 1]) && !Before(es[n + 1], es[n])
    ensures Blocks(es[..n] + [Merge(es[n + 1], es[n])] + es[n + 2..]) == Blocks(es)
  {
    hide Blocks;
    var m := Merge(es[n + 1], es[n]);
    BlocksAround(es[..n], m, es[n + 2..]);
    assert es == es[..n] + [es[n]] + ([es[n + 1]] + es[n + 2..]);
    BlocksAround(es[..n], es[n], [es[n + 1]] + es[n + 2..]);
    BlocksJoin([es[n + 1]], es[n + 2..]);
    BlocksOne(es[n + 1]);
    MergedRange(es[n + 1], es[n]);
  }

  lemma LooseIsSeparate(es: seq<Extent>, n: nat, total: int)
    requires Loose(es, n, total) && (n + 1 < |es| ==> Before(es[n], es[n + 1]))
    ensures Separate(es) && InBounds(es, total)
  {
  }

  /** An extent of negative length that met no other: everything before it lies before
      it, and everything after it behind. */
  ghost predicate Stray(es: seq<Extent>, n: nat) {
    && n < |es| && es[n].num < 0
    && (forall k :: 0 <= k < n ==> Before(es[k], es[n])) && (forall k :: n < k < |es| ==> Before(es[n], es[k]))
  }

  /** Some extent reaches from the end of a backward range to its start. */
  ghost predicate Swallows(es: seq<Extent>, addr: int, num: int) {
    exists i :: 0 <= i < |es| && es[i].addr <= addr + num && addr <= es[i].End()
  }

  /** Some extent reaches from one place to another, both ends included. */
  ghost predicate HeldBy(es: seq<Extent>, from: int, till: int) {
    exists i :: 0 <= i < |es| && es[i].addr <= from && till <= es[i].End()
  }

  lemma FirstListed(es: seq<Extent>, i: nat)
    requires i < |es| && es[i].num > 0
    ensures es[i].addr in Blocks(es)
  {
    assert Covers(es[i], es[i].addr);
  }

  /** In a list that stands for no block, an extent that reaches a place is empty there. */
  lemma EmptyHeld(es: seq<Extent>, x: int)
    requires Blocks(es) == iset{} && HeldBy(es, x, x) && (forall i :: 0 <= i < |es| ==> es[i].num >= 0)
    ensures Extent(x, 0) in es
  {
    var i :| 0 <= i < |es| && es[i].addr <= x && x <= es[i].End();
    if es[i].num > 0 {
      FirstListed(es, i);
      assert false;
    }
  }

  /** What may be added without spoiling the list: a range that does not run backwards,
      or lies outside the volume, or inside an extent. */
  ghost predicate Addable(es: seq<Extent>, addr: int, num: int, total: int) {
    num >= 0 || addr > total || addr + num < 0 || Swallows(es, addr, num)
  }

  /** A backward range that was not merged is in no extent. */
  lemma NotSwallowed(es: seq<Extent>, n: nat, ext: Extent, total: int)
    requires InBounds(es, total) && Separate(es) && n <= |es|
    requires forall k :: 0 <= k < n ==> Before(es[k], ext)
    requires n < |es| ==> Before(ext, es[n])
    ensures !Swallows(es, ext.addr, ext.num)
  {
    forall k | 0 <= k < |es| ensures !(es[k].addr <= ext.End() && ext.addr <= es[k].End()) {
      assert n < k ==> Before(es[n], es[k]);
    }
  }

  /** Inserted, it leaves a list that is not valid, though the blocks are the same. */
  lemma StrayInserted(es: seq<Extent>, n: nat, ext: Extent, total: int)
    requires InBounds(es, total) && Separate(es) && n <= |es| && ext.num < 0
    requires forall k :: 0 <= k < n ==> Before(es[k], ext)
    requires n < |es| ==> Before(ext, es[n])
    ensures var r := es[..n] + [ext] + es[n..];
            Stray(r, n) && !InBounds(r, total) && Blocks(r) == Blocks(es)
  {
    var r := es[..n] + [ext] + es[n..];
    assert r[n] == ext && forall k :: 0 <= k < n ==> r[k] == es[k];
    forall k | n < k < |r| ensures Before(r[n], r[k]) {
      assert r[k] == es[k - 1] && (n < k - 1 ==> Before(es[n], es[k - 1]));
    }
    BlocksAround(es[..n], ext, es[n..]);
    BlocksSplit(es, n);
    assert Range(ext.addr, ext.End()) == iset{};
  }

  lemma LooseStops(es: seq<Extent>, n: nat, cur: nat, total: int)
    requires Loose(es, n, total) && cur < |es| && cur <= n + 1 && (cur == n || Before(es[cur], es[n]))
    ensures cur <= n
  {
  }

  /** Only a loose list has something to absorb, and it is the next extent. */
  lemma MeetsNext(es: seq<Extent>, n: nat, cur: nat, total: int, loose: bool, stray: bool)
    requires n < |es| && cur < |es| && cur != n && !Before(es[cur], es[n]) && !Before(es[n], es[cur])
    requires loose || stray
    requires loose ==> cur <= n + 1 && Loose(es, n, total)
    requires stray ==> Stray(es, n)
    ensures loose && !stray && cur == n + 1
  {
  }

  lemma LooseEnds(es: seq<Extent>, n: nat, cur: nat, total: int)
    requires Loose(es, n, total) && cur <= n + 1
    requires cur >= |es| || (cur != n && !Before(es[cur], es[n]) && Before(es[n], es[cur]))
    ensures Separate(es) && InBounds(es, total)
  {
    LooseIsSeparate(es, n, total);
  }

  lemma LooseFits(es: seq<Extent>, n: nat, total: int)
    requires Loose(es, n, total) || Stray(es, n)
    ensures n < |es|
  {
  }

  lemma LooseIsNotStray(es: seq<Extent>, n: nat, total: int)
    requires Loose(es, n, total)
    ensures !Stray(es, n)
  {
  }

  /** Merging ext into an extent it meets: either way the list is loose there. */
  lemma MergedEither(es: seq<Extent>, n: nat, ext: Extent, total: int)
    requires InBounds(es, total) && Separate(es) && n < |es| && 0 <= ext.addr && ext.End() <= total
    requires forall k :: 0 <= k < n ==> Before(es[k], ext)
    requires !Before(ext, es[n]) && !Before(es[n], ext)
    ensures var r := es[n := Merge(ext, es[n])];
            Loose(r, n, total) && Blocks(r) == Blocks(es) + Range(ext.addr, ext.End())
    ensures ext.num < 0 ==> Swallows(es, ext.addr, ext.num)
  {
    if ext.num >= 0 {
      MergedInto(es, n, ext, total);
    } else {
      assert Merge(ext, es[n]) == es[n] && es[n := es[n]] == es;
      assert Range(ext.addr, ext.End()) == iset{};
    }
  }

  /** Inserting ext where it meets nothing. */
  lemma InsertedEither(es: seq<Extent>, n: nat, ext: Extent, total: int)
    requires InBounds(es, total) && Separate(es) && n <= |es| && 0 <= ext.addr && ext.End() <= total
    requires forall k :: 0 <= k < n ==> Before(es[k], ext)
    requires n < |es| ==> Before(ext, es[n])
    ensures var r := es[..n] + [ext] + es[n..];
            && (ext.num >= 0 ==> Loose(r, n, total)) && (ext.num < 0 ==> Stray(r, n) && !InBounds(r, total))
            && Blocks(r) == Blocks(es) + Range(ext.addr, ext.End())
    ensures ext.num < 0 ==> !Swallows(es, ext.addr, ext.num)
  {
    if ext.num >= 0 {
      Inserted(es, n, ext, total);
    } else {
      StrayInserted(es, n, ext, total);
      NotSwallowed(es, n, ext, total);
      assert Range(ext.addr, ext.End()) == iset{};
    }
  }

  // ------------------------------------------------------------------ removing

  /** What is left of one extent when [at, at + n) is taken away. */
  function Cut(e: Extent, at: int, n: int): seq<Extent> {
    if e.End() < at || at + n < e.addr then [e]
    else if e.addr >= at && e.End() <= at + n then []
    else if e.addr < at && e.End() > at + n then [Extent(e.addr, at - e.addr), Extent(at + n, e.End() - (at + n))]
    else if e.addr >= at then [Extent(at + n, e.End() - (at + n))]
    else [Extent(e.addr, at - e.addr)]
  }

  function Removed(es: seq<Extent>, at: int, n: int): seq<Extent> {
    if es == [] then [] else Removed(es[..|es| - 1], at, n) + Cut(es[|es| - 1], at, n)
  }

  lemma RemovedNext(es: seq<Extent>, k: nat, at: int, n: int)
    requires k < |es|
    ensures Removed(es[..k + 1], at, n) == Removed(es[..k], at, n) + Cut(es[k], at, n)
  {
    assert es[..k + 1][..k] == es[..k];
  }

  /** Extents that all lie after the range are untouched. */
  lemma {:induction false} RemovedRest(es: seq<Extent>, k: nat, j: nat, at: int, n: int)
    requires k <= j <= |es| && forall i :: k <= i < |es| ==> at + n < es[i].addr
    ensures Removed(es[..j], at, n) == Removed(es[..k], at, n) + es[k..j]
    decreases j
  {
    hide Removed;
    if k < j {
      RemovedRest(es, k, j - 1, at, n);
      RemovedNext(es, j - 1, at, n);
      assert Cut(es[j - 1], at, n) == [es[j - 1]];
      assert es[k..j] == es[k..j - 1] + [es[j - 1]];
    }
  }

  /** The removal loop after k extents: done up to cur, untouched from there. */
  ghost predicate Reached(was: seq<Extent>, es: seq<Extent>, k: nat, cur: nat, at: int, n: int) {
    && k <= |was| && cur == |Removed(was[..k], at, n)|
    && es == Removed(was[..k], at, n) + was[k..]
  }

  lemma ReachedNext(was: seq<Extent>, es: seq<Extent>, k: nat, cur: nat, at: int, n: int)
    requires Reached(was, es, k, cur, at, n) && cur < |es|
    ensures k < |was| && es[cur] == was[k]
    ensures var c := Cut(es[cur], at, n); Reached(was, es[..cur] + c + es[cur + 1..], k + 1, cur + |c|, at, n)
  {
    hide Cut, Removed;
    RemovedNext(was, k, at, n);
    assert es[cur + 1..] == was[k + 1..] && es[..cur] == Removed(was[..k], at, n);
  }

  /** An extent clear of the range is passed over. */
  lemma ReachedSkip(was: seq<Extent>, es: seq<Extent>, k: nat, cur: nat, at: int, n: int)
    requires Reached(was, es, k, cur, at, n) && cur < |es|
    requires es[cur].End() < at || at + n < es[cur].addr
    ensures Reached(was, es, k + 1, cur + 1, at, n)
  {
    ReachedNext(was, es, k, cur, at, n);
    assert es == es[..cur] + Cut(es[cur], at, n) + es[cur + 1..];
  }

  /** So is the one after an extent that was split. */
  lemma SplitSkip(was: seq<Extent>, es: seq<Extent>, k: nat, cur: nat, at: int, n: int)
    requires Reached(was, es, k, cur, at, n) && cur < |es|
    requires Separate(was) && 1 <= k <= |was| && at + n < was[k - 1].End()
    ensures k < |was| && Reached(was, es, k + 1, cur + 1, at, n)
  {
    ReachedNext(was, es, k, cur, at, n);
    assert Before(was[k - 1], was[k]);
    ReachedSkip(was, es, k, cur, at, n);
  }

  lemma ReachedEnd(was: seq<Extent>, es: seq<Extent>, k: nat, cur: nat, at: int, n: int, total: int)
    requires Reached(was, es, k, cur, at, n)
    requires cur >= |es| || at + n < es[cur].addr
    requires Separate(was) && InBounds(was, total)
    ensures es == Removed(was, at, n)
  {
    hide Removed;
    assert cur < |es| ==> es[cur] == was[k];
    RemovedRest(was, k, |was|, at, n);
    assert was[..|was|] == was && was[k..|was|] == was[k..];
  }

  lemma CutBlocks(e: Extent, at: int, n: int)
    requires e.num >= 0
    ensures Blocks(Cut(e, at, n)) == Range(e.addr, e.End()) - Range(at, at + n)
  {
    var c := Cut(e, at, n);
    if |c| == 1 {
      BlocksOne(c[0]);
    } else if |c| == 2 {
      assert c == [c[0]] + [c[1]];
      BlocksJoin([c[0]], [c[1]]);
      BlocksOne(c[0]);
      BlocksOne(c[1]);
    }
  }

  /** The blocks left are the old ones without the range. */
  lemma {:induction false} RemovedBlocks(es: seq<Extent>, at: int, n: int, total: int)
    requires InBounds(es, total)
    ensures Blocks(Removed(es, at, n)) == Blocks(es) - Range(at, at + n)
  {
    if es != [] {
      var k := |es| - 1;
      RemovedBlocks(es[..k], at, n, total);
      CutBlocks(es[k], at, n);
      BlocksJoin(Removed(es[..k], at, n), Cut(es[k], at, n));
      assert es == es[..k] + [es[k]];
      BlocksJoin(es[..k], [es[k]]);
      BlocksOne(es[k]);
    }
  }

  /** A removal of no blocks, or a backward one, inside an extent. */
  predicate Touches(e: Extent, at: int, n: int) {
    n <= 0 && e.addr <= at + n && at <= e.End() && e.addr < at && at + n < e.End()
  }

  ghost predicate Within(es: seq<Extent>, from: int, to: int) {
    forall i :: 0 <= i < |es| ==> from <= es[i].addr && 0 <= es[i].num && es[i].End() <= to
  }

  lemma CutWithin(e: Extent, at: int, n: int)
    requires e.num >= 0
    ensures Within(Cut(e, at, n), e.addr, e.End())
    ensures Separate(Cut(e, at, n)) <==> !Touches(e, at, n)
  {
    var c := Cut(e, at, n);
    assert |c| == 2 ==> (Before(c[0], c[1]) <==> n > 0);
  }

  lemma {:induction false} RemovedWithin(es: seq<Extent>, at: int, n: int, total: int)
    requires InBounds(es, total) && Separate(es)
    ensures Within(Removed(es, at, n), 0, if es == [] then 0 else es[|es| - 1].End())
  {
    if es != [] {
      var k := |es| - 1;
      RemovedWithin(es[..k], at, n, total);
      CutWithin(es[k], at, n);
      if k > 0 {
        assert Before(es[k - 1], es[k]);
      }
    }
  }

  /** Lists that lie on either side of a gap are separate together exactly when
      each is. */
  lemma SeparateJoin(a: seq<Extent>, b: seq<Extent>, x: int, y: int, to: int)
    requires Within(a, 0, x) && Within(b, y, to) && x < y
    ensures Separate(a + b) <==> Separate(a) && Separate(b)
  {
    var r := a + b;
    if Separate(r) {
      forall i, j | 0 <= i < j < |a| ensures Before(a[i], a[j]) {
        assert r[i] == a[i] && r[j] == a[j];
      }
      forall i, j | 0 <= i < j < |b| ensures Before(b[i], b[j]) {
        assert r[|a| + i] == b[i] && r[|a| + j] == b[j];
      }
    }
  }

  lemma SeparateFront(es: seq<Extent>, total: int)
    requires InBounds(es, total) && Separate(es) && es != []
    ensures var k := |es| - 1;
            && InBounds(es[..k], total) && Separate(es[..k]) && es[k].num >= 0
            && (k > 0 ==> es[..k] != [] && es[..k][k - 1] == es[k - 1] && es[k - 1].End() < es[k].addr)
  {
    var k := |es| - 1;
    assert k > 0 ==> Before(es[k - 1], es[k]);
  }

  /** The list left by a removal is separate unless a removal of no blocks, or a backward
      one, falls inside an extent, which is then split into two that touch or overlap. */
  lemma {:induction false} RemovedSeparate(es: seq<Extent>, at: int, n: int, total: int)
    requires InBounds(es, total) && Separate(es)
    ensures Separate(Removed(es, at, n)) <==> forall i :: 0 <= i < |es| ==> !Touches(es[i], at, n)
  {
    if es != [] {
      var k := |es| - 1;
      var e := es[k];
      SeparateFront(es, total);
      hide InBounds, Separate, Within, Touches, Cut;
      RemovedSeparate(es[..k], at, n, total);
      CutWithin(e, at, n);
      RemovedWithin(es[..k], at, n, total);
      if k > 0 {
        SeparateJoin(Removed(es[..k], at, n), Cut(e, at, n), es[k - 1].End(), e.addr, e.End());
      } else {
        assert Removed(es, at, n) == Cut(e, at, n);
      }
      assert forall i :: 0 <= i < k ==> es[..k][i] == es[i];
    }
  }

  /** Removing nothing at block 5 of [0, 10) leaves two extents that touch. */
  lemma ZeroRemovalTouches()
    ensures Separate([Extent(0, 10)]) && !Separate(Removed([Extent(0, 10)], 5, 0))
  {
    RemovedSeparate([Extent(0, 10)], 5, 0, 10);
    assert Touches([Extent(0, 10)][0], 5, 0);
  }

  // ------------------------------------------------------------ byte addresses

  const TWO_64: int := 0x1_0000_0000_0000_0000
  const TWO_32: int := 0x1_0000_0000
  const TWO_63: int := 0x8000_0000_0000_0000

  /** Dividing an off_t by the size_t block size: both become unsigned, and the
      quotient is stored in an off_t again. */
  function DivideUnsigned(x: int, size: nat): int
    requires size > 0
  {
    var q := (if x < 0 then x + TWO_64 else x) / size;
    if q < TWO_63 then q else q - TWO_64
  }

  lemma DivideBounds(x: int, size: int)
    requires size > 0
    ensures x / size * size <= x < (x / size + 1) * size
  {
  }

  /** Between consecutive multiples there is only one quotient. */
  lemma QuotientIs(x: int, size: int, q: int)
    requires size > 0 && q * size <= x < (q + 1) * size
    ensures x / size == q
  {
    DivideBounds(x, size);
    if x / size < q {
      ScaleMonotone(x / size + 1, q, size);
      assert false;
    } else if x / size > q {
      ScaleMonotone(q + 1, x / size, size);
      assert false;
    }
  }

  lemma ScaleMonotone(x: int, y: int, size: int)
    requires x <= y && size >= 0
    ensures x * size <= y * size
  {
  }

  lemma DivideMonotone(x: int, y: int, size: int)
    requires x <= y && size > 0
    ensures x / size <= y / size
  {
    var q := y / size;
    DivideBounds(x, size);
    DivideBounds(y, size);
    if q < x / size {
      ScaleMonotone(q + 1, x / size, size);
      assert false;
    }
  }

  /** The blocks that hold a byte of [from, to). */
  ghost function BlocksOfBytes(from: int, to: int, size: nat): iset<int>
    requires size > 0
  {
    iset b | Between(from, b, to) :: b / size
  }

  /** They are the blocks from the first byte's to the last byte's. */
  lemma BlocksOfBytesRange(from: int, to: int, size: nat)
    requires size > 0 && from < to
    ensures BlocksOfBytes(from, to, size) == Range(from / size, (to - 1) / size + 1)
  {
    forall b | Between(from, b, to) ensures b / size in Range(from / size, (to - 1) / size + 1) {
      DivideMonotone(from, b, size);
      DivideMonotone(b, to - 1, size);
    }
    forall k | k in Range(from / size, (to - 1) / size + 1) ensures k in BlocksOfBytes(from, to, size) {
      var b := WitnessByte(from, to, size, k);
      assert Between(from, b, to) && b / size == k;
    }
  }

  /** A byte of the range in each of those blocks. */
  lemma WitnessByte(from: int, to: int, size: nat, k: int) returns (b: int)
    requires size > 0 && from < to && from / size <= k <= (to - 1) / size
    ensures from <= b < to && b / size == k
  {
    b := if from < k * size then k * size else from;
    DivideBounds(from, size);
    DivideBounds(to - 1, size);
    ScaleMonotone(k, (to - 1) / size, size);
    ScaleMonotone(from / size, k, size);
    assert (k + 1) * size == k * size + size;
    if from / size < k {
      ScaleMonotone(from / size + 1, k, size);
    }
    QuotientIs(b, size, k);
  }

  /** The block range that AddByteRangeExtent asks for. */
  function BlockRange(byteAddr: int, numBytes: int, size: nat): Extent
    requires size > 0
  {
    var first := DivideUnsigned(byteAddr, size);
    Extent(first, DivideUnsigned(byteAddr + numBytes - 1, size) - first + 1)
  }

  lemma SmallQuotient(q: int, size: int, x: int)
    requires q >= 0 && size > 0 && q * size <= x
    ensures q <= x
  {
    ScaleMonotone(1, size, q);
  }

  lemma DivideSmall(x: int, size: nat)
    requires size > 0 && 0 <= x < TWO_63
    ensures 0 <= x / size <= x && DivideUnsigned(x, size) == x / size
  {
    QuotientIs(0, size, 0);
    DivideMonotone(0, x, size);
    DivideBounds(x, size);
    SmallQuotient(x / size, size, x);
  }

  /** A byte range in the volume's address space asks for the blocks of its bytes. */
  lemma BytesAsked(byteAddr: int, numBytes: int, size: nat)
    requires size > 0 && byteAddr >= 0 && numBytes > 0 && byteAddr + numBytes <= TWO_63
    ensures var e := BlockRange(byteAddr, numBytes, size);
            e.num > 0 && Range(e.addr, e.End()) == BlocksOfBytes(byteAddr, byteAddr + numBytes, size)
  {
    DivideSmall(byteAddr, size);
    DivideSmall(byteAddr + numBytes - 1, size);
    DivideMonotone(byteAddr, byteAddr + numBytes - 1, size);
    BlocksOfBytesRange(byteAddr, byteAddr + numBytes, size);
  }

  /** An empty byte range past address 0 asks for the block it falls in, unless it
      falls between two blocks. */
  lemma EmptyAsked(byteAddr: int, size: nat)
    requires size > 0 && 0 < byteAddr < TWO_63
    ensures var e := BlockRange(byteAddr, 0, size);
            e == Extent(byteAddr / size, if byteAddr % size == 0 then 0 else 1)
  {
    DivideSmall(byteAddr, size);
    DivideSmall(byteAddr - 1, size);
    DivideBounds(byteAddr, size);
    var q := byteAddr / size;
    assert byteAddr == q * size + byteAddr % size;
    assert (q - 1 + 1) * size == q * size && (q - 1) * size == q * size - size && (q + 1) * size == q * size + size;
    QuotientIs(byteAddr - 1, size, if byteAddr % size == 0 then q - 1 else q);
  }

  /** The empty byte range at address 0 asks for everything, because its last
      byte is number -1, read as unsigned. */
  lemma ZeroAsked(size: nat, totalBytes: nat)
    requires size > 0 && totalBytes < TWO_63
    ensures var e := BlockRange(0, 0, size);
            e.addr == 0 && e.num >= 0 && if size == 1 then e.num == 0 else e.num >= (totalBytes + size - 1) / size
  {
    DivideBounds(TWO_64 - 1, size);
    if size > 1 {
      DivideMonotone(totalBytes + size - 1, TWO_64 - 1 + size, size);
      QuotientIs(TWO_64 - 1 + size, size, (TWO_64 - 1) / size + 1);
      HalfQuotient(size);
    }
  }

  lemma HalfQuotient(size: nat)
    requires size > 1
    ensures (TWO_64 - 1) / size < TWO_63
  {
    var q := (TWO_64 - 1) / size;
    DivideBounds(TWO_64 - 1, size);
    if q >= TWO_63 {
      ScaleMonotone(2, size, q);
      assert false;
    }
  }

  /** With blocks of one byte the division does nothing. */
  lemma OneByteBlocks(x: int)
    requires -TWO_63 <= x < TWO_63
    ensures DivideUnsigned(x, 1) == x
  {
  }

  /** A negative byte address, read as unsigned, lies past the end of the volume. */
  lemma NegativeAsked(byteAddr: int, numBytes: int, size: nat, totalBytes: nat)
    requires size > 1 && -TWO_63 <= byteAddr < 0 && totalBytes + 2 * size <= TWO_63
    ensures BlockRange(byteAddr, numBytes, size).addr > (totalBytes + size - 1) / size
  {
    var x := byteAddr + TWO_64;
    DivideMonotone(totalBytes + size - 1 + size, x, size);
    QuotientIs(totalBytes + size - 1 + size, size, (totalBytes + size - 1) / size + 1) by {
      DivideBounds(totalBytes + size - 1, size);
    }
    DivideMonotone(x, TWO_64 - 1, size);
    HalfQuotient(size);
  }

  /** A byte range that does not run backwards, and whose address is negative only where
      the quotient is sure to lie past the end of the volume. */
  predicate ByteCase(byteAddr: int, numBytes: int, size: nat, totalBytes: nat) {
    numBytes >= 0 && (byteAddr >= 0 || (size > 1 && totalBytes + 2 * size <= TWO_63))
  }

  /** What such a range asks for: the blocks of its bytes; when it is empty, the block it
      falls in, or nothing between two blocks, or at address 0 everything unless blocks are
      single bytes; and nothing at a negative address. */
  ghost function Gained(byteAddr: int, numBytes: int, size: nat): iset<int>
    requires size > 0
  {
    if byteAddr < 0 then iset{}
    else if numBytes > 0 then BlocksOfBytes(byteAddr, byteAddr + numBytes, size)
    else if byteAddr == 0 then (if size == 1 then iset{} else iset x | Between(0, x, TWO_63))
    else if byteAddr % size == 0 then iset{}
    else iset{byteAddr / size}
  }

  lemma GainedEverything(e: Extent, total: int)
    requires e.addr == 0 && total <= e.num && total < TWO_63
    ensures Range(e.addr, e.End()) * Range(0, total) == (iset x | Between(0, x, TWO_63)) * Range(0, total)
  {
  }

  lemma GainedNothing(e: Extent, total: int)
    requires e.addr > total || e.num <= 0
    ensures Range(e.addr, e.End()) * Range(0, total) == iset{} * Range(0, total)
  {
  }

  lemma GainedOne(e: Extent)
    requires e.num == 1
    ensures Range(e.addr, e.End()) == iset{e.addr}
  {
  }

  lemma BlocksFit(totalBytes: nat, size: nat)
    requires 0 < size < TWO_32 && totalBytes < TWO_63
    ensures (totalBytes + size - 1) / size < TWO_63
  {
    var n := totalBytes + size - 1;
    if size == 1 {
      QuotientIs(n, 1, n);
    } else {
      DivideMonotone(n, TWO_64 - 1, size);
      HalfQuotient(size);
    }
  }

  /** What AddByteRange asks for adds the right blocks, and can be added. */
  ghost predicate Asks(es: seq<Extent>, e: Extent, gained: iset<int>, total: int) {
    Addable(es, e.addr, e.num, total) && Range(e.addr, e.End()) * Range(0, total) == gained * Range(0, total)
  }

  lemma NegativeCase(es: seq<Extent>, byteAddr: int, numBytes: int, size: nat, totalBytes: nat, total: int)
    requires 0 < size < TWO_32 && totalBytes < TWO_63 && total == (totalBytes + size - 1) / size
    requires -TWO_63 <= byteAddr < TWO_63 && -TWO_63 <= byteAddr + numBytes - 1 < TWO_63
    requires byteAddr < 0 && ByteCase(byteAddr, numBytes, size, totalBytes)
    ensures Asks(es, BlockRange(byteAddr, numBytes, size), Gained(byteAddr, numBytes, size), total)
  {
    hide BlockRange, Range, Swallows;
    NegativeAsked(byteAddr, numBytes, size, totalBytes);
    GainedNothing(BlockRange(byteAddr, numBytes, size), total);
  }

  lemma ZeroCase(es: seq<Extent>, numBytes: int, size: nat, totalBytes: nat, total: int)
    requires 0 < size < TWO_32 && totalBytes < TWO_63 && total == (totalBytes + size - 1) / size
    requires numBytes <= 0 && ByteCase(0, numBytes, size, totalBytes)
    ensures Asks(es, BlockRange(0, numBytes, size), Gained(0, numBytes, size), total)
  {
    hide BlockRange, Range, Swallows;
    ZeroAsked(size, totalBytes);
    BlocksFit(totalBytes, size);
    if size == 1 {
      GainedNothing(BlockRange(0, numBytes, size), total);
    } else {
      GainedEverything(BlockRange(0, numBytes, size), total);
    }
  }

  lemma EmptyCase(es: seq<Extent>, byteAddr: int, numBytes: int, size: nat, totalBytes: nat, total: int)
    requires 0 < size < TWO_32 && totalBytes < TWO_63 && total == (totalBytes + size - 1) / size
    requires 0 < byteAddr < TWO_63 && -TWO_63 <= byteAddr + numBytes - 1 < TWO_63
    requires numBytes <= 0 && ByteCase(byteAddr, numBytes, size, totalBytes)
    ensures Asks(es, BlockRange(byteAddr, numBytes, size), Gained(byteAddr, numBytes, size), total)
  {
    hide BlockRange, Range, Swallows;
    var e := BlockRange(byteAddr, numBytes, size);
    EmptyAsked(byteAddr, size);
    if e.num == 0 {
      GainedNothing(e, total);
    } else {
      GainedOne(e);
    }
  }

  lemma ForwardCase(es: seq<Extent>, byteAddr: int, numBytes: int, size: nat, totalBytes: nat, total: int)
    requires 0 < size < TWO_32 && totalBytes < TWO_63 && total == (totalBytes + size - 1) / size
    requires 0 <= byteAddr < TWO_63 && -TWO_63 <= byteAddr + numBytes - 1 < TWO_63
    requires numBytes > 0 && ByteCase(byteAddr, numBytes, size, totalBytes)
    ensures Asks(es, BlockRange(byteAddr, numBytes, size), Gained(byteAddr, numBytes, size), total)
  {
    hide BlockRange, BlocksOfBytes, Range, Swallows;
    BytesAsked(byteAddr, numBytes, size);
  }

  lemma ByteCases(es: seq<Extent>, byteAddr: int, numBytes: int, size: nat, totalBytes: nat, total: int)
    requires 0 < size < TWO_32 && totalBytes < TWO_63 && total == (totalBytes + size - 1) / size
    requires -TWO_63 <= byteAddr < TWO_63 && -TWO_63 <= byteAddr + numBytes - 1 < TWO_63
    ensures var e := BlockRange(byteAddr, numBytes, size);
            && (ByteCase(byteAddr, numBytes, size, totalBytes) ==>
                  Addable(es, e.addr, e.num, total)
                  && Range(e.addr, e.End()) * Range(0, total) == Gained(byteAddr, numBytes, size) * Range(0, total))
            && (size == 1 ==> e == Extent(byteAddr, numBytes))
  {
    if size == 1 {
      OneByteBlocks(byteAddr);
      OneByteBlocks(byteAddr + numBytes - 1);
    }
    hide BlockRange, Gained, Range, Addable, ByteCase;
    if ByteCase(byteAddr, numBytes, size, totalBytes) {
      if byteAddr < 0 {
        NegativeCase(es, byteAddr, numBytes, size, totalBytes, total);
      } else if numBytes > 0 {
        ForwardCase(es, byteAddr, numBytes, size, totalBytes, total);
      } else if byteAddr == 0 {
        ZeroCase(es, numBytes, size, totalBytes, total);
      } else {
        EmptyCase(es, byteAddr, numBytes, size, totalBytes, total);
      }
    }
  }

  class ExtentManager {
    var blockSize: nat
    var nativeBlockSize: nat
    var totalBytes: nat
    var totalBlocks: nat
    var extents: seq<Extent>

    ghost predicate Valid()
      reads this
    {
      && 0 < blockSize < TWO_32 && nativeBlockSize > 0 && totalBytes < TWO_63
      && totalBlocks == (totalBytes + blockSize - 1) / blockSize
      && InBounds(extents, totalBlocks) && Separate(extents)
    }

    /** Init: an empty block set, held by two sentry extents. */
    constructor (theBlockSize: nat, theNativeBlockSize: nat, theTotalBytes: nat)
      requires 0 < theBlockSize < TWO_32 && theNativeBlockSize > 0 && theTotalBytes < TWO_63
      ensures Valid() && Blocks(extents) == iset{} && Extent(totalBlocks, 0) in extents
      ensures blockSize == theBlockSize && nativeBlockSize == theNativeBlockSize && totalBytes == theTotalBytes
    {
      blockSize, nativeBlockSize, totalBytes := theBlockSize, theNativeBlockSize, theTotalBytes;
      totalBlocks := (theTotalBytes + theBlockSize - 1) / theBlockSize;
      extents := [];
      new;
      AddBlockRange(0, 0);
      AddBlockRange(totalBlocks, 0);
      EmptyHeld(extents, totalBlocks);
    }

    /** The first loop: where ext goes, and whether it meets the extent there. */
    method Place(ext: Extent) returns (at: nat, merged: bool)
      ensures at <= |extents| && forall k :: 0 <= k < at ==> Before(extents[k], ext)
      ensures merged ==> at < |extents| && !Before(ext, extents[at]) && !Before(extents[at], ext)
      ensures !merged && at < |extents| ==> Before(ext, extents[at])
    {
      at, merged := 0, false;
      while at < |extents|
        invariant at <= |extents| && forall k :: 0 <= k < at ==> Before(extents[k], ext)
      {
        if Before(ext, extents[at]) {
          break;
        }
        if !Before(extents[at], ext) {
          merged := true;
          break;
        }
        at := at + 1;
      }
    }

    /** The second loop: the n-th extent absorbs whatever it now meets. */
    method Coalesce(n: nat)
      requires Loose(extents, n, totalBlocks) || Stray(extents, n)
      modifies `extents
      ensures old(Loose(extents, n, totalBlocks)) ==> InBounds(extents, totalBlocks) && Separate(extents)
      ensures old(Loose(extents, n, totalBlocks)) ==> Blocks(extents) == old(Blocks(extents))
      ensures old(Stray(extents, n)) ==> extents == old(extents)
      ensures n < |extents| && extents[n].addr <= old(extents[n].addr) && old(extents[n].End()) <= extents[n].End()
    {
      hide Blocks, Loose, Stray;
      ghost var loose, stray := Loose(extents, n, totalBlocks), Stray(extents, n);
      LooseFits(extents, n, totalBlocks);
      if loose {
        LooseIsNotStray(extents, n, totalBlocks);
      }
      var cur := 0;
      while cur < |extents|
        invariant 0 <= cur <= |extents| && n < |extents|
        invariant loose ==> cur <= n + 1 && Loose(extents, n, totalBlocks) && Blocks(extents) == old(Blocks(extents))
        invariant stray ==> extents == old(extents)
        invariant extents[n].addr <= old(extents[n].addr) && old(extents[n].End()) <= extents[n].End()
        decreases |extents| - cur
      {
        if cur == n || Before(extents[cur], extents[n]) {
          if loose {
            LooseStops(extents, n, cur, totalBlocks);
          }
          cur := cur + 1;
        } else if Before(extents[n], extents[cur]) {
          break;
        } else {
          MeetsNext(extents, n, cur, totalBlocks, loose, stray);
          Absorbed(extents, n, totalBlocks);
          extents := extents[..n] + [Merge(extents[cur], extents[n])] + extents[cur + 1..];
        }
      }
      if loose {
        LooseEnds(extents, n, cur, totalBlocks);
      }
    }

    /** AddBlockRangeExtent: the block set gains the part of the range that lies in the
        volume.  The list stays valid exactly when the range does not run backwards, or
        lies outside the volume, or inside an extent. */
    method AddBlockRange(blockAddr: int, numBlocks: int)
      requires Valid()
      modifies `extents
      ensures Valid() <==> Addable(old(extents), blockAddr, numBlocks, totalBlocks)
      ensures Blocks(extents) == old(Blocks(extents)) + Range(blockAddr, blockAddr + numBlocks) * Range(0, totalBlocks)
      ensures 0 <= blockAddr && blockAddr + numBlocks <= totalBlocks && numBlocks >= 0 ==>
                HeldBy(extents, blockAddr, blockAddr + numBlocks)
    {
      if blockAddr > totalBlocks || blockAddr + numBlocks < 0 {
        assert Range(blockAddr, blockAddr + numBlocks) * Range(0, totalBlocks) == iset{};
        return;
      }
      var addr, num := blockAddr, numBlocks;
      if addr < 0 {
        num := addr + num;
        addr := 0;
      }
      if addr + num > totalBlocks {
        num := totalBlocks - addr;
      }
      assert Range(addr, addr + num) == Range(blockAddr, blockAddr + numBlocks) * Range(0, totalBlocks);
      hide Blocks, Range, HeldBy;
      AddClipped(Extent(addr, num));
    }

    /** The same for a range already clipped to the volume. */
    method AddClipped(ext: Extent)
      requires Valid() && 0 <= ext.addr && 0 <= ext.End() <= totalBlocks && ext.addr <= totalBlocks
      modifies `extents
      ensures Valid() <==> ext.num >= 0 || Swallows(old(extents), ext.addr, ext.num)
      ensures Blocks(extents) == old(Blocks(extents)) + Range(ext.addr, ext.End())
      ensures HeldBy(extents, ext.addr, ext.End())
    {
      hide Blocks, Swallows;
      ghost var was := extents;
      var at, merged := Place(ext);
      if merged {
        MergedEither(was, at, ext, totalBlocks);
        extents := extents[at := Merge(ext, extents[at])];
      } else {
        InsertedEither(was, at, ext, totalBlocks);
        extents := extents[..at] + [ext] + extents[at..];
      }
      Coalesce(at);
    }

    /** RemoveBlockRangeExtent: the block set loses the range.  The list stays valid
        exactly when no removal of no blocks, or backward one, falls inside an extent. */
    method RemoveBlockRange(blockAddr: int, numBlocks: int)
      requires Valid()
      modifies `extents
      ensures extents == Removed(old(extents), blockAddr, numBlocks)
      ensures Blocks(extents) == old(Blocks(extents)) - Range(blockAddr, blockAddr + numBlocks)
      ensures InBounds(extents, totalBlocks)
      ensures Valid() <==> forall i :: 0 <= i < |old(extents)| ==> !Touches(old(extents)[i], blockAddr, numBlocks)
    {
      RemoveLoop(blockAddr, numBlocks);
      ghost var was := old(extents);
      RemovedBlocks(was, blockAddr, numBlocks, totalBlocks);
      RemovedSeparate(was, blockAddr, numBlocks, totalBlocks);
      RemovedWithin(was, blockAddr, numBlocks, totalBlocks);
    }

    /** The body of the loop for an extent that meets ext: drop it, split it, or
        shorten it at one end; next is the place after what is left. */
    method CutAt(cur: nat, ext: Extent) returns (next: nat, split: bool)
      requires cur < |extents| && !Before(extents[cur], ext) && !Before(ext, extents[cur])
      modifies `extents
      ensures var left := Cut(old(extents)[cur], ext.addr, ext.num);
              && extents == old(extents)[..cur] + left + old(extents)[cur + 1..]
              && next == cur + |left| && split == (|left| == 2)
      ensures split ==> old(extents)[cur].End() > ext.End()
    {
      var e := extents[cur];
      split := false;
      if e.addr >= ext.addr && e.End() <= ext.End() {
        assert extents[..cur] + [] == extents[..cur];
        extents := extents[..cur] + extents[cur + 1..];
        next := cur;
      } else if e.addr < ext.addr && e.End() > ext.End() {
        var right := Extent(ext.End(), e.End() - ext.End());
        extents := extents[..cur] + [Extent(e.addr, ext.addr - e.addr), right] + extents[cur + 1..];
        next, split := cur + 2, true;
      } else if e.addr >= ext.addr {
        extents := extents[..cur] + [Extent(ext.End(), e.End() - ext.End())] + extents[cur + 1..];
        next := cur + 1;
      } else {
        extents := extents[..cur] + [Extent(e.addr, ext.addr - e.addr)] + extents[cur + 1..];
        next := cur + 1;
      }
    }

    /** The loop.  After a split the cursor steps over one more extent, if there
        is one: it lies beyond the range. */
    method RemoveLoop(blockAddr: int, numBlocks: int)
      requires Valid()
      modifies `extents
      ensures extents == Removed(old(extents), blockAddr, numBlocks)
    {
      var ext := Extent(blockAddr, numBlocks);
      ghost var was := extents;
      ghost var k: nat := 0;
      var cur: nat := 0;
      assert Reached(was, extents, k, cur, blockAddr, numBlocks);
      assert Separate(was) && InBounds(was, totalBlocks);
      hide Reached, Removed, Cut, Separate, InBounds;
      while cur < |extents|
        invariant Reached(was, extents, k, cur, blockAddr, numBlocks)
        decreases |was| - k
      {
        ReachedNext(was, extents, k, cur, blockAddr, numBlocks);
        if Before(extents[cur], ext) {
          ReachedSkip(was, extents, k, cur, blockAddr, numBlocks);
          cur, k := cur + 1, k + 1;
        } else if Before(ext, extents[cur]) {
          break;
        } else {
          var split;
          cur, split := CutAt(cur, ext);
          k := k + 1;
          if split && cur < |extents| {
            SplitSkip(was, extents, k, cur, blockAddr, numBlocks);
            cur, k := cur + 1, k + 1;
          }
        }
      }
      ReachedEnd(was, extents, k, cur, blockAddr, numBlocks, totalBlocks);
    }

    /** AddByteRangeExtent: the block set gains what the unsigned division makes of the
        range.  For a range of bytes in the volume's address space that is exactly the
        blocks that hold one of them; empty ranges and negative addresses are told apart. */
    method AddByteRange(byteAddr: int, numBytes: int)
      requires Valid() && -TWO_63 <= byteAddr < TWO_63 && -TWO_63 <= byteAddr + numBytes - 1 < TWO_63
      modifies `extents
      ensures var e := BlockRange(byteAddr, numBytes, blockSize);
              && (Valid() <==> Addable(old(extents), e.addr, e.num, totalBlocks))
              && Blocks(extents) == old(Blocks(extents)) + Range(e.addr, e.End()) * Range(0, totalBlocks)
      ensures ByteCase(byteAddr, numBytes, blockSize, totalBytes) ==>
                Valid() && Blocks(extents) == old(Blocks(extents)) + Gained(byteAddr, numBytes, blockSize) * Range(0, totalBlocks)
      ensures blockSize == 1 ==>
                Blocks(extents) == old(Blocks(extents)) + Range(byteAddr, byteAddr + numBytes) * Range(0, totalBlocks)
    {
      ByteCases(extents, byteAddr, numBytes, blockSize, totalBytes, totalBlocks);
      hide Blocks, Range, BlocksOfBytes, Addable, BlockRange, ByteCase, InBounds, Separate;
      var e := BlockRange(byteAddr, numBytes, blockSize);
      AddBlockRange(e.addr, e.num);
    }
  }
}
