/** diff(1) from two files to its output, bsd_diff/diffreg.c `diffreg`: hash the
    lines, match the hashes, check the matches against the lines, print the script.
  */
module DiffMain {
  import opened DiffLcs
  import opened DiffClasses
  import opened DiffStone
  import opened DiffMatch
  import opened DiffOutput
  import opened DiffApply
  import Ed = DiffEd
  import opened DiffUnified
  import opened DiffCost
  import opened Wrappers

  ghost function Hashed(src: seq<string>, hash: string -> int): (r: seq<int>)
    ensures |r| == |src| && forall i :: 0 <= i < |src| ==> r[i] == hash(src[i])
  {
    seq(|src|, i requires 0 <= i < |src| => hash(src[i]))
  }

  /** `prepare`: the hash of every line, from index 1 on, with a place to spare. */
  method Prepare(src: seq<string>, hash: string -> int) returns (f: array<Line>)
    ensures fresh(f) && f.Length == |src| + 2 && Values(f[..], 1, |src|) == Hashed(src, hash)
  {
    f := new Line[|src| + 2](_ => Line(0, 0));
    for i := 0 to |src|
      invariant forall k :: 0 <= k < i ==> f[k + 1].value == hash(src[k])
    {
      f[i + 1] := Line(0, hash(src[i]));
    }
    assert Values(f[..], 1, |src|) == Hashed(src, hash);
  }

  ghost predicate Alike(src: seq<string>, dst: seq<string>, i: int, j: int) {
    1 <= i <= |src| && 1 <= j <= |dst| && src[i - 1] == dst[j - 1]
  }

  /** J1 is J0 without the matches of unequal lines. */
  ghost predicate Rechecked(J0: seq<int>, J1: seq<int>, src: seq<string>, dst: seq<string>) {
    && |J1| == |J0|
    && forall i :: 0 <= i < |J0| ==> J1[i] == if 1 <= i <= |src| && J0[i] != 0 && !Alike(src, dst, i, J0[i]) then 0 else J0[i]
  }

  /** The outcome of `check`: a match of lines that only hash alike is taken back, and
      every other match stays. */
  method Check(J: array<int>, src: seq<string>, dst: seq<string>, ghost a: seq<int>, ghost b: seq<int>)
    requires J.Length == |src| + 2 && |a| == |src| && |b| == |dst| && MatchVector(J[..], a, b)
    modifies J
    ensures MatchVector(J[..], src, dst) && Rechecked(old(J[..]), J[..], src, dst)
  {
    ghost var J0 := J[..];
    for i := 1 to |src| + 1
      invariant forall k :: 0 <= k < J.Length && (k < 1 || i <= k) ==> J[k] == J0[k]
      invariant forall k :: 1 <= k < i ==> J[k] == if J0[k] != 0 && src[k - 1] != dst[J0[k] - 1] then 0 else J0[k]
    {
      if J[i] != 0 && src[i - 1] != dst[J[i] - 1] {
        J[i] := 0;
      }
    }
    CheckedMatches(J0, J[..], a, b, src, dst);
  }

  /** No two different lines of the files hash alike. */
  ghost predicate OneToOne(src: seq<string>, dst: seq<string>, hash: string -> int) {
    forall x, y :: x in src + dst && y in src + dst && hash(x) == hash(y) ==> x == y
  }

  lemma HashesTell(src: seq<string>, dst: seq<string>, hash: string -> int, i: nat, j: nat)
    requires OneToOne(src, dst, hash) && i < |src| && j < |dst|
    ensures Hashed(src, hash)[i] == Hashed(dst, hash)[j] <==> src[i] == dst[j]
  {
    assert (src + dst)[i] == src[i] && (src + dst)[|src| + j] == dst[j];
  }

  lemma CommonHashes(src: seq<string>, dst: seq<string>, hash: string -> int, p: seq<Pair>)
    requires OneToOne(src, dst, hash)
    ensures Common(Hashed(src, hash), Hashed(dst, hash), p) <==> Common(src, dst, p)
  {
    forall t | 0 <= t < |p| && 1 <= p[t].0 <= |src| && 1 <= p[t].1 <= |dst|
      ensures Hashed(src, hash)[p[t].0 - 1] == Hashed(dst, hash)[p[t].1 - 1] <==> src[p[t].0 - 1] == dst[p[t].1 - 1]
    {
      HashesTell(src, dst, hash, p[t].0 - 1, p[t].1 - 1);
    }
  }

  /** A best match of hashes that tell the lines apart is a best match of the lines. */
  lemma LongestHashes(src: seq<string>, dst: seq<string>, hash: string -> int, p: seq<Pair>)
    requires OneToOne(src, dst, hash) && Longest(Hashed(src, hash), Hashed(dst, hash), p)
    ensures Longest(src, dst, p)
  {
    hide Common;
    CommonHashes(src, dst, hash, p);
    forall q | Common(src, dst, q) ensures |q| <= |p| {
      CommonHashes(src, dst, hash, q);
    }
  }

  /** Then `check` has nothing to take back. */
  lemma NothingTaken(J0: seq<int>, J1: seq<int>, src: seq<string>, dst: seq<string>, hash: string -> int)
    requires OneToOne(src, dst, hash) && MatchVector(J0, Hashed(src, hash), Hashed(dst, hash)) && Rechecked(J0, J1, src, dst)
    ensures J1 == J0
  {
    hide OneToOne;
    forall i | 1 <= i <= |src| && J0[i] != 0 ensures Alike(src, dst, i, J0[i]) {
      HashesTell(src, dst, hash, i - 1, J0[i] - 1);
    }
  }

  /** What `check` leaves of the trimmed ends: every end of the lines themselves inside those
      of the hashes. */
  ghost predicate EndsLeft(J: seq<int>, src: seq<string>, dst: seq<string>, pref: nat, suff: nat) {
    forall p: nat, q: nat :: p <= pref && q <= suff && TrimmedEqual(src, dst, p, q) ==> EndsEntered(J, |src|, |dst|, p, q)
  }

  lemma EndLeft(J0: seq<int>, J1: seq<int>, src: seq<string>, dst: seq<string>, pref: nat, suff: nat, p: nat, q: nat)
    requires EndsEntered(J0, |src|, |dst|, pref, suff) && Rechecked(J0, J1, src, dst)
    requires p <= pref && q <= suff && TrimmedEqual(src, dst, p, q)
    ensures EndsEntered(J1, |src|, |dst|, p, q)
  {
    forall i | 1 <= i <= p ensures J1[i] == i {
      assert J0[i] == i && src[i - 1] == dst[i - 1];
    }
    forall i | |src| - q < i <= |src| ensures J1[i] == i + |dst| - |src| {
      assert J0[i] == i + |dst| - |src| && src[i - 1] == dst[i - 1 + |dst| - |src|];
    }
  }

  lemma EndsLeftAll(J0: seq<int>, J1: seq<int>, src: seq<string>, dst: seq<string>, pref: nat, suff: nat)
    requires EndsEntered(J0, |src|, |dst|, pref, suff) && Rechecked(J0, J1, src, dst)
    ensures EndsLeft(J1, src, dst, pref, suff)
  {
    hide EndsEntered, Rechecked, TrimmedEqual;
    forall p: nat, q: nat | p <= pref && q <= suff && TrimmedEqual(src, dst, p, q)
      ensures EndsEntered(J1, |src|, |dst|, p, q)
    {
      EndLeft(J0, J1, src, dst, pref, suff, p, q);
    }
  }

  /** The ends of the hashes are those of the lines if the hash tells the lines apart. */
  lemma TellingEnds(src: seq<string>, dst: seq<string>, hash: string -> int, pref: nat, suff: nat)
    requires OneToOne(src, dst, hash)
    ensures MaximalEnds(Hashed(src, hash), Hashed(dst, hash), pref, suff) <==> MaximalEnds(src, dst, pref, suff)
  {
    hide OneToOne;
    var a, b := Hashed(src, hash), Hashed(dst, hash);
    if pref + suff <= |src| && pref + suff <= |dst| {
      forall i | 0 <= i < |src| && i < |dst| ensures a[i] == b[i] <==> src[i] == dst[i] {
        HashesTell(src, dst, hash, i, i);
      }
      forall i | 0 <= i < |src| && 0 <= i + |dst| - |src|
        ensures a[i] == b[i + |dst| - |src|] <==> src[i] == dst[i + |dst| - |src|]
      {
        HashesTell(src, dst, hash, i, i + |dst| - |src|);
      }
      SameTrimmed(src, dst, a, b, pref, suff);
    }
  }

  lemma SameTrimmed<T, U>(a: seq<T>, b: seq<T>, c: seq<U>, d: seq<U>, pref: nat, suff: nat)
    requires |a| == |c| && |b| == |d| && pref + suff <= |a| && pref + suff <= |b|
    requires forall i :: 0 <= i < |a| && i < |b| ==> (c[i] == d[i] <==> a[i] == b[i])
    requires forall i :: 0 <= i < |a| && 0 <= i + |b| - |a| ==> (c[i] == d[i + |b| - |a|] <==> a[i] == b[i + |b| - |a|])
    ensures MaximalEnds(c, d, pref, suff) <==> MaximalEnds(a, b, pref, suff)
  {
    if pref + suff < |a| && pref + suff < |b| {
      var i := |a| - suff - 1;
      assert i + |b| - |a| == |b| - suff - 1;
      assert c[i] == d[i + |b| - |a|] <==> a[i] == b[i + |b| - |a|];
    }
  }

  /** Whatever the search, of two files no more is removed and added than lies between
      the ends they have in common. */
  ghost predicate Spares(src: seq<string>, dst: seq<string>, pref: nat, suff: nat, removed: int, added: int) {
    forall p: nat, q: nat :: p <= pref && q <= suff && TrimmedEqual(src, dst, p, q) ==>
      removed <= |src| - p - q && added <= |dst| - p - q
  }

  lemma LeftIsSpared(J: seq<int>, src: seq<string>, dst: seq<string>, pref: nat, suff: nat, removed: int, added: int)
    requires |src| < |J| && EndsLeft(J, src, dst, pref, suff)
    requires removed == |src| - |Matches(J, 0, |src|)| && added == |dst| - |Matches(J, 0, |src|)|
    ensures Spares(src, dst, pref, suff, removed, added)
  {
    hide EndsEntered, TrimmedEqual, Matches;
    forall p: nat, q: nat | p <= pref && q <= suff && TrimmedEqual(src, dst, p, q)
      ensures removed <= |src| - p - q && added <= |dst| - p - q
    {
      EndsCount(J, |src|, |dst|, p, q);
    }
  }

  /** The search is complete: the minimal flag, or fewer new lines than are tried. */
  ghost predicate Complete(dst: seq<string>, minimal: bool, sq: nat) {
    minimal || |dst| < 256 || |dst| < sq
  }

  /** Everything up to the output: a match vector of the lines themselves, with the ends
      they have in common as far as the hashes show them, and a longest one if the search
      is complete and the hash tells the lines apart. */
  method Match(src: seq<string>, dst: seq<string>, hash: string -> int, minimal: bool, sq: nat)
    returns (J: array<int>, ghost pref: nat, ghost suff: nat)
    requires |dst| < 0x8000_0000 && forall s :: hash(s) != 0
    ensures fresh(J) && J.Length == |src| + 2 && MatchVector(J[..], src, dst)
    ensures MaximalEnds(Hashed(src, hash), Hashed(dst, hash), pref, suff) && EndsLeft(J[..], src, dst, pref, suff)
    ensures Complete(dst, minimal, sq) && OneToOne(src, dst, hash) ==> Longest(src, dst, Matches(J[..], 0, |src|))
  {
    hide MatchVector, Longest, Matches, OneToOne, Rechecked, MaximalEnds, EndsEntered, EndsLeft;
    var f0 := Prepare(src, hash);
    var f1 := Prepare(dst, hash);
    ghost var a, b := Hashed(src, hash), Hashed(dst, hash);
    J, pref, suff := ComputeJ(f0, f1, |src|, |dst|, minimal, sq, a, b);
    ghost var J0 := J[..];
    Check(J, src, dst, a, b);
    EndsLeftAll(J0, J[..], src, dst, pref, suff);
    if Complete(dst, minimal, sq) && OneToOne(src, dst, hash) {
      NothingTaken(J0, J[..], src, dst, hash);
      LongestHashes(src, dst, hash, Matches(J0, 0, |src|));
    }
  }

  /** `diff -e`: for any two files and any hash function, the script run by ed on the
      old file gives the new one, and it leaves the ends alone that they have in common.
      If the search is complete and the hash tells the lines apart, no script sends or
      takes out fewer lines. */
  method EdDiff(src: seq<string>, dst: seq<string>, hash: string -> int, minimal: bool, sq: nat)
    returns (st: seq<Ed.Out>, ghost pref: nat, ghost suff: nat)
    requires |dst| < 0x8000_0000 && forall s :: hash(s) != 0
    ensures Ed.Ed(src, st) == Some(dst)
    ensures MaximalEnds(Hashed(src, hash), Hashed(dst, hash), pref, suff)
    ensures Spares(src, dst, pref, suff, Ed.Taken(st), Ed.Sent(st))
    ensures Complete(dst, minimal, sq) && OneToOne(src, dst, hash) ==> Cheapest(src, dst, Ed.Taken(st), Ed.Sent(st))
  {
    hide MatchVector, Longest, Matches, OneToOne, EndsLeft, MaximalEnds, Spares, Cheapest, Complete, Hashed;
    hide Ed.Ed, Ed.Sent, Ed.Taken;
    var J;
    J, pref, suff := Match(src, dst, hash, minimal, sq);
    ghost var p := Matches(J[..], 0, |src|);
    LeftIsSpared(J[..], src, dst, pref, suff, |src| - |p|, |dst| - |p|);
    if Complete(dst, minimal, sq) && OneToOne(src, dst, hash) {
      LongestIsCheapest(src, dst, p);
    }
    st := Ed.EdScript(J, src, dst);
  }

  /** `diff -u`: the hunks show the changes of a script in runs with ctx lines around
      them, are faithful to both files, lie apart and in order, and patch the old file to
      the new one; no more lines are marked than lie between the ends the files have in
      common.  Under the same condition no script marks fewer lines. */
  method UnifiedDiff(src: seq<string>, dst: seq<string>, hash: string -> int, minimal: bool, sq: nat, ctx: nat)
    returns (hs: seq<Hunk<string>>, ghost cs: seq<Change>, ghost pref: nat, ghost suff: nat)
    requires |dst| < 0x8000_0000 && forall s :: hash(s) != 0
    ensures Aligned(src, dst, cs) && Hunked(hs, src, cs, ctx) && WellPlaced(hs, src, dst)
    ensures EndOf(hs) <= |src| && PatchedTo(src, hs) + src[EndOf(hs)..] == dst
    ensures MaximalEnds(Hashed(src, hash), Hashed(dst, hash), pref, suff)
    ensures Spares(src, dst, pref, suff, CountAll(hs, Minus), CountAll(hs, Plus))
    ensures Complete(dst, minimal, sq) && OneToOne(src, dst, hash) ==> Cheapest(src, dst, CountAll(hs, Minus), CountAll(hs, Plus))
  {
    var J;
    J, pref, suff := Match(src, dst, hash, minimal, sq);
    hide MatchVector, Longest, Matches, OneToOne, Script, Hunked, Aligned, EndsLeft, MaximalEnds, Spares, Cheapest;
    ghost var J0 := J[..];
    ghost var p := Matches(J0, 0, |src|);
    LeftIsSpared(J0, src, dst, pref, suff, |src| - |p|, |dst| - |p|);
    MatchVectorAscends(J0, src, dst);
    var script := Forward(J, |src|, |dst|);
    ScriptAligned(J0, src, dst, script);
    hs := Unified(src, dst, script, ctx);
    cs := script;
    ScriptCost(J0, cs, |src|, |dst|);
    HunkedCost(hs, src, cs, ctx);
    if Complete(dst, minimal, sq) && OneToOne(src, dst, hash) {
      LongestIsCheapest(src, dst, p);
    }
  }
}
