/** What an edit script does to the old file.

    `Patched` reads a script forwards, as patch(1) reads a normal diff; `EdRun`
    applies changes one at a time to a buffer, with the line numbers of the old
    file, as ed(1) does.  Either way a script built from a match vector turns
    the old file into the new one.
  */
module DiffApply {
  import opened DiffMatch
  import opened DiffOutput
  import opened Wrappers

  lemma MatchVectorAscends<T>(J: seq<int>, src: seq<T>, dst: seq<T>)
    requires MatchVector(J, src, dst) && |J| == |src| + 2
    ensures Ascending(J, |src|, |dst|)
  {
  }

  /** `check` compares the matched lines themselves and sets J back to 0 where
      only their hash values a and b agreed; what it leaves matches lines. */
  lemma CheckedMatches<T>(J: seq<int>, J': seq<int>, a: seq<int>, b: seq<int>, src: seq<T>, dst: seq<T>)
    requires MatchVector(J, a, b) && |J'| == |J| && |src| == |a| && |dst| == |b|
    requires forall i :: 1 <= i <= |a| ==> J'[i] == 0 || (J'[i] == J[i] && src[i - 1] == dst[J[i] - 1])
    ensures MatchVector(J', src, dst)
  {
    forall i, j | 1 <= i < j <= |src| && J'[i] != 0 && J'[j] != 0 ensures J'[i] < J'[j] {
      assert J[i] == J'[i] && J[j] == J'[j];
    }
  }

  /** Files of m and n lines hold every line number of the script. */
  ghost predicate Fits(cs: seq<Change>, m: int, n: int) {
    forall t :: 0 <= t < |cs| ==> 1 <= cs[t].a <= cs[t].b + 1 <= m + 1 && 1 <= cs[t].c <= cs[t].d + 1 <= n + 1
  }

  ghost predicate Ordered(cs: seq<Change>) {
    forall t :: 0 < t < |cs| ==> cs[t - 1].b < cs[t].a && cs[t - 1].d < cs[t].c
  }

  /** Positions only move forward through a script. */
  lemma {:induction false} ScriptBounds(J: seq<int>, cs: seq<Change>, m: int, n: int, t: nat)
    requires Script(J, cs, m, n) && t < |cs|
    ensures 1 <= cs[t].a <= cs[t].b + 1 <= m + 1 && 1 <= cs[t].c <= cs[t].d + 1 <= n + 1
    decreases |cs| - t
  {
    assert Body(J, cs[t]);
    if t + 1 < |cs| {
      ScriptBounds(J, cs, m, n, t + 1);
      assert Gap(J, After(cs[t]), Before(cs[t + 1]));
    }
  }

  lemma ScriptFits(J: seq<int>, cs: seq<Change>, m: int, n: int)
    requires Script(J, cs, m, n)
    ensures Fits(cs, m, n) && Ordered(cs)
  {
    forall t | 0 <= t < |cs|
      ensures 1 <= cs[t].a <= cs[t].b + 1 <= m + 1 && 1 <= cs[t].c <= cs[t].d + 1 <= n + 1
    {
      ScriptBounds(J, cs, m, n, t);
    }
    forall t | 0 < t < |cs| ensures cs[t - 1].b < cs[t].a && cs[t - 1].d < cs[t].c {
      assert Gap(J, After(cs[t - 1]), Before(cs[t]));
    }
  }

  /** Matched stretches hold the same lines in both files. */
  lemma GapIsEqual<T>(J: seq<int>, src: seq<T>, dst: seq<T>, p: Pos, q: Pos)
    requires MatchVector(J, src, dst) && Gap(J, p, q) && q.0 <= |src| && q.1 <= |dst|
    ensures src[p.0..q.0] == dst[p.1..q.1]
  {
    var x, y := src[p.0..q.0], dst[p.1..q.1];
    forall i | 0 <= i < |x| ensures x[i] == y[i] {
      assert J[p.0 + i + 1] == p.1 + i + 1;
    }
  }

  // ------------------------------------------------------------------ forward

  /** What changes t, t+1, ... make of old lines i+1, i+2, ...: old lines up to
      each change, then the new lines it brings. */
  ghost function Patched<T>(src: seq<T>, dst: seq<T>, cs: seq<Change>, t: nat, i: int): seq<T>
    requires Fits(cs, |src|, |dst|) && Ordered(cs) && t <= |cs|
    requires 0 <= i <= |src| && (t < |cs| ==> i < cs[t].a)
    decreases |cs| - t
  {
    if t == |cs| then src[i..]
    else src[i..cs[t].a - 1] + dst[cs[t].c - 1..cs[t].d] + Patched(src, dst, cs, t + 1, cs[t].b)
  }

  ghost function Reached(cs: seq<Change>, t: nat): Pos
    requires t <= |cs|
  {
    if t == 0 then (0, 0) else After(cs[t - 1])
  }

  lemma ScriptGap(J: seq<int>, cs: seq<Change>, m: int, n: int, t: nat)
    requires Script(J, cs, m, n) && t <= |cs|
    ensures Gap(J, Reached(cs, t), if t < |cs| then Before(cs[t]) else (m, n))
  {
  }

  lemma {:induction false} PatchedFrom<T>(J: seq<int>, src: seq<T>, dst: seq<T>, cs: seq<Change>, t: nat)
    requires MatchVector(J, src, dst) && Script(J, cs, |src|, |dst|) && t <= |cs|
    requires Fits(cs, |src|, |dst|) && Ordered(cs)
    requires 0 <= Reached(cs, t).0 <= |src| && 0 <= Reached(cs, t).1 <= |dst| && (t < |cs| ==> Reached(cs, t).0 < cs[t].a)
    ensures Patched(src, dst, cs, t, Reached(cs, t).0) == dst[Reached(cs, t).1..]
    decreases |cs| - t
  {
    hide Script, MatchVector, Gap;
    var (i, j) := Reached(cs, t);
    ScriptGap(J, cs, |src|, |dst|, t);
    if t == |cs| {
      GapIsEqual(J, src, dst, (i, j), (|src|, |dst|));
      assert src[i..] == src[i..|src|] && dst[j..] == dst[j..|dst|];
    } else {
      var e := cs[t];
      GapIsEqual(J, src, dst, (i, j), Before(e));
      PatchedFrom(J, src, dst, cs, t + 1);
      GapOrder(J, (i, j), Before(e));
      ThreeParts(dst, j, e.c - 1, e.d);
    }
  }

  lemma ThreeParts<T>(s: seq<T>, i: int, j: int, k: int)
    requires 0 <= i <= j <= k <= |s|
    ensures s[i..] == s[i..j] + s[j..k] + s[k..]
  {
  }

  lemma GapOrder(J: seq<int>, p: Pos, q: Pos)
    requires Gap(J, p, q)
    ensures 0 <= p.0 <= q.0 && 0 <= p.1 <= q.1
  {
  }

  /** The forward script turns the old file into the new one. */
  lemma PatchedIsNew<T>(J: seq<int>, src: seq<T>, dst: seq<T>, cs: seq<Change>)
    requires MatchVector(J, src, dst) && Script(J, cs, |src|, |dst|)
    ensures Fits(cs, |src|, |dst|) && Ordered(cs)
    ensures Patched(src, dst, cs, 0, 0) == dst
  {
    ScriptFits(J, cs, |src|, |dst|);
    PatchedFrom(J, src, dst, cs, 0);
  }

  // ------------------------------------------------------------------ reverse

  /** One change applied to a buffer; it fails if the buffer has no such lines. */
  ghost function EdApply<T>(buf: seq<T>, dst: seq<T>, e: Change): Option<seq<T>>
    requires 1 <= e.c <= e.d + 1 <= |dst| + 1
  {
    if 1 <= e.a <= e.b + 1 <= |buf| + 1
    then Some(buf[..e.a - 1] + dst[e.c - 1..e.d] + buf[e.b..])
    else None
  }

  /** Changes k, k+1, ... of out applied in that order, never renumbered. */
  ghost function EdRun<T>(buf: seq<T>, dst: seq<T>, out: seq<Change>, k: nat): Option<seq<T>>
    requires k <= |out| && forall t :: 0 <= t < |out| ==> 1 <= out[t].c <= out[t].d + 1 <= |dst| + 1
    decreases |out| - k
  {
    if k == |out| then Some(buf)
    else match EdApply(buf, dst, out[k])
      case None => None
      case Some(buf') => EdRun(buf', dst, out, k + 1)
  }

  /** The buffer once changes t, t+1, ... have been applied. */
  ghost function EdBuffer<T>(src: seq<T>, dst: seq<T>, cs: seq<Change>, t: nat): seq<T>
    requires Fits(cs, |src|, |dst|) && t <= |cs|
  {
    if t == |cs| then src else src[..cs[t].a - 1] + dst[cs[t].c - 1..]
  }

  lemma EditAfterGap<T>(src: seq<T>, dst: seq<T>, e: Change, q: Pos)
    requires 1 <= e.a <= e.b + 1 <= q.0 + 1 <= |src| + 1 && 1 <= e.c <= e.d + 1 <= q.1 + 1 <= |dst| + 1
    requires src[e.b..q.0] == dst[e.d..q.1]
    ensures EdApply(src[..q.0] + dst[q.1..], dst, e) == Some(src[..e.a - 1] + dst[e.c - 1..])
  {
    GapMoves(src, dst, e.b, e.d, q);
    SpliceBefore(src, dst, e);
  }

  /** Behind equal lines either file may go on. */
  lemma GapMoves<T>(src: seq<T>, dst: seq<T>, b: int, d: int, q: Pos)
    requires 0 <= b <= q.0 <= |src| && 0 <= d <= q.1 <= |dst| && src[b..q.0] == dst[d..q.1]
    ensures src[..q.0] + dst[q.1..] == src[..b] + dst[d..]
  {
    assert src[..q.0] == src[..b] + src[b..q.0];
    assert dst[d..] == dst[d..q.1] + dst[q.1..];
  }

  lemma SpliceBefore<T>(src: seq<T>, dst: seq<T>, e: Change)
    requires 1 <= e.a <= e.b + 1 <= |src| + 1 && 1 <= e.c <= e.d + 1 <= |dst| + 1
    ensures EdApply(src[..e.b] + dst[e.d..], dst, e) == Some(src[..e.a - 1] + dst[e.c - 1..])
  {
    var buf := src[..e.b] + dst[e.d..];
    assert buf[..e.a - 1] == src[..e.a - 1];
    assert buf[e.b..] == dst[e.d..];
    var x, y, z := src[..e.a - 1], dst[e.c - 1..e.d], dst[e.d..];
    assert dst[e.c - 1..] == y + z;
    assert x + y + z == x + (y + z);
  }

  /** Between two changes both files agree, so the next change to apply finds
      its old line numbers still valid. */
  lemma EdStep<T>(J: seq<int>, src: seq<T>, dst: seq<T>, cs: seq<Change>, t: nat)
    requires MatchVector(J, src, dst) && Script(J, cs, |src|, |dst|) && t < |cs|
    requires Fits(cs, |src|, |dst|)
    ensures EdApply(EdBuffer(src, dst, cs, t + 1), dst, cs[t]) == Some(EdBuffer(src, dst, cs, t))
  {
    hide Script, MatchVector, Gap, EdApply;
    var e, m, n := cs[t], |src|, |dst|;
    ScriptGap(J, cs, m, n, t + 1);
    var q := if t + 1 < |cs| then Before(cs[t + 1]) else (m, n);
    GapIsEqual(J, src, dst, After(e), q);
    GapOrder(J, After(e), q);
    assert EdBuffer(src, dst, cs, t + 1) == src[..q.0] + dst[q.1..];
    EditAfterGap(src, dst, e, q);
  }

  lemma {:induction false} EdRunFrom<T>(J: seq<int>, src: seq<T>, dst: seq<T>, cs: seq<Change>, out: seq<Change>, k: nat)
    requires MatchVector(J, src, dst) && Script(J, cs, |src|, |dst|) && k <= |cs|
    requires Fits(cs, |src|, |dst|) && Fits(out, |src|, |dst|)
    requires |out| == |cs| && forall t :: 0 <= t < |out| ==> out[t] == cs[|out| - 1 - t]
    ensures EdRun(EdBuffer(src, dst, cs, |cs| - k), dst, out, k) == Some(EdBuffer(src, dst, cs, 0))
    decreases |cs| - k
  {
    hide Script, MatchVector, EdBuffer, EdApply;
    if k < |cs| {
      EdStep(J, src, dst, cs, |cs| - k - 1);
      EdRunFrom(J, src, dst, cs, out, k + 1);
    }
  }

  /** The changes in the order the ed loop emits them, each applied with its
      original line numbers, turn the old file into the new one. */
  lemma EdRunIsNew<T>(J: seq<int>, src: seq<T>, dst: seq<T>, out: seq<Change>)
    requires MatchVector(J, src, dst) && Script(J, Reversed(out), |src|, |dst|)
    ensures Fits(out, |src|, |dst|)
    ensures EdRun(src, dst, out, 0) == Some(dst)
  {
    hide Script, MatchVector, Reversed, Gap, EdRun;
    var cs := Reversed(out);
    ScriptFits(J, cs, |src|, |dst|);
    forall t | 0 <= t < |out| ensures out[t] == cs[|out| - 1 - t] {
      assert cs[|out| - 1 - t] == out[|out| - 1 - (|out| - 1 - t)];
    }
    EdRunFrom(J, src, dst, cs, out, 0);
    ScriptGap(J, cs, |src|, |dst|, 0);
    var q := if 0 < |cs| then Before(cs[0]) else (|src|, |dst|);
    GapIsEqual(J, src, dst, (0, 0), q);
    BufferIsNew(src, dst, q);
  }

  lemma BufferIsNew<T>(src: seq<T>, dst: seq<T>, q: Pos)
    requires 0 <= q.0 <= |src| && 0 <= q.1 <= |dst| && src[0..q.0] == dst[0..q.1]
    ensures src[..q.0] + dst[q.1..] == dst
    ensures q == (|src|, |dst|) ==> src == dst
  {
    assert src[0..q.0] == src[..q.0] && dst == dst[0..q.1] + dst[q.1..];
    assert src[0..|src|] == src && dst[0..|dst|] == dst;
  }
}
