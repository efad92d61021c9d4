/** The match vector J and the pipeline of `diffreg` that computes it
    (bsd_diff/diffreg.c, lines 451 to 474). */
module DiffMatch {
  import opened DiffLcs
  import opened DiffClasses
  import opened DiffStone

  /** J[i] is 0 or the new line that old line i is matched with: an equal line,
      and a later one for every later old line. */
  ghost predicate MatchVector<T>(J: seq<int>, a: seq<T>, b: seq<T>) {
    && |a| < |J|
    && (forall i :: 1 <= i <= |a| && J[i] != 0 ==> 1 <= J[i] <= |b| && a[i - 1] == b[J[i] - 1])
    && (forall i, j :: 1 <= i < j <= |a| && J[i] != 0 && J[j] != 0 ==> J[i] < J[j])
  }

  /** The matches recorded for old lines lo+1, ..., hi. */
  ghost function Matches(J: seq<int>, lo: int, hi: int): (p: seq<Pair>)
    requires 0 <= lo <= hi < |J|
    ensures forall t :: 0 <= t < |p| ==> lo < p[t].0 <= hi && p[t].1 == J[p[t].0] != 0
    ensures forall s, t :: 0 <= s < t < |p| ==> p[s].0 < p[t].0
    ensures (forall i :: lo < i <= hi ==> J[i] != 0) ==> |p| == hi - lo
    decreases hi - lo
  {
    if lo == hi then [] else Matches(J, lo, hi - 1) + if J[hi] != 0 then [(hi, J[hi])] else []
  }

  lemma {:induction false} MatchesSplit(J: seq<int>, lo: int, mid: int, hi: int)
    requires 0 <= lo <= mid <= hi < |J|
    ensures Matches(J, lo, hi) == Matches(J, lo, mid) + Matches(J, mid, hi)
    decreases hi - mid
  {
    if mid < hi {
      MatchesSplit(J, lo, mid, hi - 1);
    }
  }

  /** The recorded matches of a match vector are a common subsequence. */
  lemma MatchesAreCommon<T>(J: seq<int>, a: seq<T>, b: seq<T>)
    requires MatchVector(J, a, b)
    ensures Common(a, b, Matches(J, 0, |a|))
  {
    hide Matches;
    var p := Matches(J, 0, |a|);
    forall t | 0 <= t < |p| ensures 1 <= p[t].0 <= |a| && 1 <= p[t].1 <= |b| && a[p[t].0 - 1] == b[p[t].1 - 1] {
      assert J[p[t].0] == p[t].1;
    }
    forall s, t | 0 <= s < t < |p| ensures p[s].0 < p[t].0 && p[s].1 < p[t].1 {
      assert J[p[s].0] == p[s].1 && J[p[t].0] == p[t].1;
    }
  }

  /** On lines lo+1, ..., hi, J is non-zero exactly where P says. */
  ghost predicate Records(J: seq<int>, lo: int, hi: int, P: seq<Pair>) {
    && 0 <= lo <= hi < |J|
    && (forall t :: 0 <= t < |P| ==> lo < P[t].0 <= hi && J[P[t].0] == P[t].1 != 0)
    && (forall s, t :: 0 <= s < t < |P| ==> P[s].0 < P[t].0)
    && (forall i :: lo < i <= hi && J[i] != 0 ==> At(P, i))
  }

  ghost predicate At(P: seq<Pair>, i: int) {
    exists t :: 0 <= t < |P| && P[t].0 == i
  }

  lemma RecordsLast(J: seq<int>, lo: int, hi: int, P: seq<Pair>)
    requires Records(J, lo, hi, P) && lo < hi && J[hi] != 0
    ensures P != [] && P[|P| - 1] == (hi, J[hi]) && Records(J, lo, hi - 1, P[..|P| - 1])
  {
    assert At(P, hi);
    var t :| 0 <= t < |P| && P[t].0 == hi;
    assert forall s :: 0 <= s < |P| - 1 ==> P[s].0 < P[|P| - 1].0 <= hi;
    var P' := P[..|P| - 1];
    forall i | lo < i <= hi - 1 && J[i] != 0 ensures At(P', i) {
      assert At(P, i);
      var s :| 0 <= s < |P| && P[s].0 == i;
      assert P'[s].0 == i;
    }
  }

  lemma RecordsRange(J: seq<int>, lo: int, hi: int, P: seq<Pair>)
    requires Records(J, lo, hi, P) && P != []
    ensures lo < hi
  {
    assert lo < P[0].0 <= hi;
  }

  lemma RecordsNotLast(J: seq<int>, lo: int, hi: int, P: seq<Pair>)
    requires Records(J, lo, hi, P) && lo < hi && J[hi] == 0
    ensures Records(J, lo, hi - 1, P)
  {
    forall t | 0 <= t < |P| ensures P[t].0 <= hi - 1 {
      assert J[P[t].0] != 0;
    }
  }

  lemma {:induction false} MatchesRecord(J: seq<int>, lo: int, hi: int, P: seq<Pair>)
    requires 0 <= lo <= hi < |J| && Records(J, lo, hi, P)
    ensures Matches(J, lo, hi) == P
    decreases hi - lo
  {
    hide Records;
    if lo == hi {
      if P != [] {
        RecordsRange(J, lo, hi, P);
        assert false;
      }
    } else if J[hi] == 0 {
      RecordsNotLast(J, lo, hi, P);
      MatchesRecord(J, lo, hi - 1, P);
    } else {
      RecordsLast(J, lo, hi, P);
      MatchesRecord(J, lo, hi - 1, P[..|P| - 1]);
      assert P == P[..|P| - 1] + [(hi, J[hi])];
    }
  }

  // ------------------------------------------------ from candidates to J

  ghost function Shifted(ch: seq<Pair>, pref: nat): (r: seq<Pair>)
    ensures |r| == |ch| && forall t :: 0 <= t < |ch| ==> r[t] == (ch[t].0 + pref, ch[t].1 + pref)
  {
    seq(|ch|, t requires 0 <= t < |ch| => (ch[t].0 + pref, ch[t].1 + pref))
  }

  /** The two files agree on the trimmed ends. */
  ghost predicate TrimmedEqual<T>(a: seq<T>, b: seq<T>, pref: nat, suff: nat) {
    && pref + suff <= |a| && pref + suff <= |b|
    && (forall i :: 0 <= i < pref ==> a[i] == b[i])
    && (forall i :: |a| - suff <= i < |a| ==> a[i] == b[i + |b| - |a|])
  }

  /** The trimmed ends are as long as they can be: the common prefix, and the common suffix
      of the rest. */
  ghost predicate MaximalEnds<T>(a: seq<T>, b: seq<T>, pref: nat, suff: nat) {
    && TrimmedEqual(a, b, pref, suff)
    && (pref == |a| || pref == |b| || a[pref] != b[pref])
    && (pref + suff == |a| || pref + suff == |b| || a[|a| - suff - 1] != b[|b| - suff - 1])
  }

  /** J matches the trimmed ends. */
  ghost predicate EndsEntered(J: seq<int>, len0: nat, len1: nat, pref: nat, suff: nat) {
    && pref + suff <= len0 < |J| && pref + suff <= len1
    && (forall i :: 1 <= i <= pref ==> J[i] == i)
    && (forall i :: len0 - suff < i <= len0 ==> J[i] == i + len1 - len0)
  }

  lemma EndsCount(J: seq<int>, len0: nat, len1: nat, pref: nat, suff: nat)
    requires EndsEntered(J, len0, len1, pref, suff)
    ensures |Matches(J, 0, len0)| >= pref + suff
  {
    MatchesSplit(J, 0, pref, len0);
    MatchesSplit(J, pref, len0 - suff, len0);
    hide Matches;
  }

  lemma EnteredEnds(J: seq<int>, a: seq<int>, b: seq<int>, pref: nat, suff: nat, ch: seq<Pair>)
    requires TrimmedEqual(a, b, pref, suff) && Entered(J, |a|, |b|, pref, suff, ch, 0)
    requires Common(a[pref..|a| - suff], b[pref..|b| - suff], ch)
    ensures EndsEntered(J, |a|, |b|, pref, suff)
  {
    hide Entered;
    EnteredLength(J, a, b, pref, suff, ch);
    forall i | 1 <= i <= pref || |a| - suff < i <= |a|
      ensures (i <= pref ==> J[i] == i) && (i > pref ==> J[i] == i + |b| - |a|)
    {
      EndMatch(J, |a|, |b|, pref, suff, ch, i);
    }
  }

  lemma MiddleMatch(J: seq<int>, len0: nat, len1: nat, pref: nat, suff: nat, ch: seq<Pair>, i: int) returns (t: int)
    requires Entered(J, len0, len1, pref, suff, ch, 0)
    requires pref < i <= len0 - suff && J[i] != 0
    ensures 0 <= t < |ch| && i == ch[t].0 + pref && J[i] == ch[t].1 + pref
  {
    assert BaseJ(len0, len1, pref, suff, i) == 0 && Taken(ch, 0, i - pref);
    t :| 0 <= t < |ch| && ch[t].0 == i - pref;
  }

  lemma EndMatch(J: seq<int>, len0: nat, len1: nat, pref: nat, suff: nat, ch: seq<Pair>, i: int)
    requires Entered(J, len0, len1, pref, suff, ch, 0) && pref + suff <= len0
    requires 1 <= i <= pref || len0 - suff < i <= len0
    requires forall t :: 0 <= t < |ch| ==> 1 <= ch[t].0 <= len0 - pref - suff
    ensures i <= pref ==> J[i] == i
    ensures i > pref ==> J[i] == i + len1 - len0
  {
    assert J[i] == BaseJ(len0, len1, pref, suff, i);
  }

  /** Where a match of old line i can lie, given how J was filled. */
  lemma MatchLies(J: seq<int>, a: seq<int>, b: seq<int>, pref: nat, suff: nat, ch: seq<Pair>, i: int) returns (t: int)
    requires TrimmedEqual(a, b, pref, suff)
    requires Common(a[pref..|a| - suff], b[pref..|b| - suff], ch)
    requires Entered(J, |a|, |b|, pref, suff, ch, 0)
    requires 1 <= i <= |a| < |J| && J[i] != 0
    ensures i <= pref ==> J[i] == i
    ensures i > |a| - suff ==> J[i] == i + |b| - |a|
    ensures pref < i <= |a| - suff ==> 0 <= t < |ch| && i == ch[t].0 + pref && J[i] == ch[t].1 + pref && pref < J[i] <= |b| - suff
    ensures a[i - 1] == b[J[i] - 1]
  {
    hide Entered;
    t := 0;
    var a', b' := a[pref..|a| - suff], b[pref..|b| - suff];
    if pref < i <= |a| - suff {
      t := MiddleMatch(J, |a|, |b|, pref, suff, ch, i);
      assert a'[ch[t].0 - 1] == b'[ch[t].1 - 1];
      assert a'[ch[t].0 - 1] == a[i - 1];
      assert b'[ch[t].1 - 1] == b[J[i] - 1];
    } else {
      EndMatch(J, |a|, |b|, pref, suff, ch, i);
    }
  }

  lemma EnteredIsMatchVector(J: seq<int>, a: seq<int>, b: seq<int>, pref: nat, suff: nat, ch: seq<Pair>)
    requires TrimmedEqual(a, b, pref, suff)
    requires Common(a[pref..|a| - suff], b[pref..|b| - suff], ch)
    requires Entered(J, |a|, |b|, pref, suff, ch, 0)
    ensures MatchVector(J, a, b)
  {
    hide Entered;
    assert |a| < |J| by { EnteredLength(J, a, b, pref, suff, ch); }
    forall i | 1 <= i <= |a| && J[i] != 0 ensures 1 <= J[i] <= |b| && a[i - 1] == b[J[i] - 1] {
      var t := MatchLies(J, a, b, pref, suff, ch, i);
    }
    forall i, j | 1 <= i < j <= |a| && J[i] != 0 && J[j] != 0 ensures J[i] < J[j] {
      var t := MatchLies(J, a, b, pref, suff, ch, i);
      var u := MatchLies(J, a, b, pref, suff, ch, j);
    }
  }

  lemma EnteredLength(J: seq<int>, a: seq<int>, b: seq<int>, pref: nat, suff: nat, ch: seq<Pair>)
    requires Entered(J, |a|, |b|, pref, suff, ch, 0)
    ensures |a| < |J|
  {
  }

  /** Prefix, candidates and suffix are all the matches there are. */
  lemma EnteredCount(J: seq<int>, a: seq<int>, b: seq<int>, pref: nat, suff: nat, ch: seq<Pair>)
    requires TrimmedEqual(a, b, pref, suff)
    requires Common(a[pref..|a| - suff], b[pref..|b| - suff], ch)
    requires Entered(J, |a|, |b|, pref, suff, ch, 0)
    ensures |Matches(J, 0, |a|)| == pref + |ch| + suff
  {
    hide Entered, Matches;
    EnteredLength(J, a, b, pref, suff, ch);
    var n, P := |a|, Shifted(ch, pref);
    forall i | 0 < i <= pref || n - suff < i <= n ensures J[i] != 0 {
      EndMatch(J, n, |b|, pref, suff, ch, i);
    }
    MiddleRecords(J, a, b, pref, suff, ch);
    MatchesRecord(J, pref, n - suff, P);
    MatchesSplit(J, 0, pref, n);
    MatchesSplit(J, pref, n - suff, n);
  }

  lemma MiddleRecords(J: seq<int>, a: seq<int>, b: seq<int>, pref: nat, suff: nat, ch: seq<Pair>)
    requires pref + suff <= |a| && pref + suff <= |b|
    requires Common(a[pref..|a| - suff], b[pref..|b| - suff], ch)
    requires Entered(J, |a|, |b|, pref, suff, ch, 0)
    ensures Records(J, pref, |a| - suff, Shifted(ch, pref))
  {
    hide Entered;
    var P := Shifted(ch, pref);
    EnteredLength(J, a, b, pref, suff, ch);
    forall i | pref < i <= |a| - suff && J[i] != 0 ensures At(P, i) {
      var t := MiddleMatch(J, |a|, |b|, pref, suff, ch, i);
      assert P[t].0 == i;
    }
    forall t | 0 <= t < |P| ensures pref < P[t].0 <= |a| - suff && J[P[t].0] == P[t].1 != 0 {
      EnteredAt(J, a, b, pref, suff, ch, t);
    }
  }

  lemma EnteredAt(J: seq<int>, a: seq<int>, b: seq<int>, pref: nat, suff: nat, ch: seq<Pair>, t: int)
    requires Entered(J, |a|, |b|, pref, suff, ch, 0) && 0 <= t < |ch|
    ensures 0 < ch[t].0 + pref <= |a| - suff && |a| < |J| && J[ch[t].0 + pref] == ch[t].1 + pref
  {
  }

  /** Matching the middles best and keeping the trimmed ends matches the whole
      files best. */
  lemma EnteredIsLongest(J: seq<int>, a: seq<int>, b: seq<int>, pref: nat, suff: nat, ch: seq<Pair>)
    requires TrimmedEqual(a, b, pref, suff)
    requires Longest(a[pref..|a| - suff], b[pref..|b| - suff], ch)
    requires Entered(J, |a|, |b|, pref, suff, ch, 0)
    ensures MatchVector(J, a, b) && Longest(a, b, Matches(J, 0, |a|))
  {
    hide Entered;
    EnteredIsMatchVector(J, a, b, pref, suff, ch);
    MatchesAreCommon(J, a, b);
    EnteredCount(J, a, b, pref, suff, ch);
    forall q | Common(a, b, q) ensures |q| <= |Matches(J, 0, |a|)| {
      PrunedBound(a, b, pref, suff, |ch|, q);
    }
  }

  // ------------------------------------------------------------- the pipeline

  /** Trims and numbers the files: the windows left are the middles of a and b. */
  method Prune(f0: array<Line>, f1: array<Line>, len0: nat, len1: nat, ghost a: seq<int>, ghost b: seq<int>)
    returns (pref: nat, suff: nat)
    requires f0 != f1 && len0 + 1 < f0.Length && len1 + 1 < f1.Length
    requires a == Values(f0[..], 1, len0) && b == Values(f1[..], 1, len1)
    modifies f0, f1
    ensures MaximalEnds(a, b, pref, suff)
    ensures f0[pref + 1..len0 - suff + 1] == Numbered(a[pref..len0 - suff])
    ensures f1[pref + 1..len1 - suff + 1] == Numbered(b[pref..len1 - suff])
  {
    hide TrimmedEqual, Values, Numbered;
    ghost var o0, o1 := f0[..], f1[..];
    pref, suff := CommonEnds(f0, f1, len0, len1);
    EndsTrimmed(o0, o1, len0, len1, pref, suff);
    NumberMiddle(f0, pref, len0, suff);
    NumberMiddle(f1, pref, len1, suff);
  }

  method NumberMiddle(f: array<Line>, pref: nat, len: nat, suff: nat)
    requires pref + suff <= len < f.Length
    modifies f
    ensures f[pref + 1..len - suff + 1] == Numbered(Values(old(f[..]), 1, len)[pref..len - suff])
  {
    hide Values, Numbered;
    ghost var o := f[..];
    Number(f, pref, len - pref - suff);
    NumberedWindow(o, f[..], pref, len - pref - suff, suff);
    assert f[pref + 1..len - suff + 1] == f[..][pref + 1..pref + (len - pref - suff) + 1];
  }

  lemma EndsTrimmed(f0: seq<Line>, f1: seq<Line>, len0: nat, len1: nat, pref: nat, suff: nat)
    requires len0 < |f0| && len1 < |f1| && pref + suff <= len0 && pref + suff <= len1
    requires forall i :: 1 <= i <= pref ==> f0[i].value == f1[i].value
    requires forall i :: len0 - suff < i <= len0 ==> f0[i].value == f1[i + len1 - len0].value
    ensures TrimmedEqual(Values(f0, 1, len0), Values(f1, 1, len1), pref, suff)
  {
    var a, b := Values(f0, 1, len0), Values(f1, 1, len1);
    forall i | 0 <= i < pref ensures a[i] == b[i] {
      assert f0[i + 1].value == f1[i + 1].value;
    }
    forall i | |a| - suff <= i < |a| ensures a[i] == b[i + |b| - |a|] {
      assert f0[i + 1].value == f1[i + 1 + len1 - len0].value;
    }
  }

  lemma NumberedWindow(o: seq<Line>, f: seq<Line>, pref: nat, slen: nat, suff: nat)
    requires |o| == |f| && pref + slen + suff < |f|
    requires forall i :: 0 <= i < |f| ==> f[i].value == o[i].value
    requires forall i :: pref <= i <= pref + slen ==> f[i].serial == i - pref
    ensures f[pref + 1..pref + slen + 1] == Numbered(Values(o, 1, pref + slen + suff)[pref..pref + slen])
  {
    var a := Values(o, 1, pref + slen + suff);
    var w, n := f[pref + 1..pref + slen + 1], Numbered(a[pref..pref + slen]);
    forall i | 0 <= i < slen ensures w[i] == n[i] {
      assert w[i] == f[pref + i + 1] && a[pref..pref + slen][i] == a[pref + i];
    }
  }

  /** From two hashed files to the match vector.  It is always a match vector that has
      the common prefix and the common suffix behind it; with `minimal`, or with fewer than
      256 or than sq new lines, it matches as many lines as can be matched. */
  method ComputeJ(f0: array<Line>, f1: array<Line>, len0: nat, len1: nat, minimal: bool, sq: nat,
                  ghost a: seq<int>, ghost b: seq<int>) returns (J: array<int>, ghost pref: nat, ghost suff: nat)
    requires f0 != f1 && len0 + 1 < f0.Length && len1 + 1 < f1.Length && len1 < 0x8000_0000
    requires a == Values(f0[..], 1, len0) && b == Values(f1[..], 1, len1)
    requires 0 !in a && 0 !in b
    modifies f0, f1
    ensures fresh(J) && J.Length == len0 + 2
    ensures MatchVector(J[..], a, b)
    ensures MaximalEnds(a, b, pref, suff) && EndsEntered(J[..], len0, len1, pref, suff)
    ensures minimal || len1 < 256 || len1 < sq ==> Longest(a, b, Matches(J[..], 0, len0))
  {
    hide Longest, MatchVector, ClassesOf, TrimmedEqual, Common, EndsEntered;
    var before, behind := Prune(f0, f1, len0, len1, a, b);
    pref, suff := before, behind;
    TrimmedFits(a, b, pref, suff);
    ghost var a', b' := a[pref..len0 - suff], b[pref..len1 - suff];
    var cls, mem := BuildClasses(f0, f1, before, a', b', len0 - before - behind, len1 - before - behind);
    J := MatchMiddle(cls, mem, len0, len1, before, behind, minimal, sq, a, b);
  }

  lemma TrimmedFits(a: seq<int>, b: seq<int>, pref: nat, suff: nat)
    requires TrimmedEqual(a, b, pref, suff)
    ensures pref + suff <= |a| && pref + suff <= |b|
  {
  }

  /** The search proper, from the classes of the trimmed files to J. */
  method MatchMiddle(cls: array<int>, mem: array<int>, len0: nat, len1: nat, pref: nat, suff: nat, minimal: bool, sq: nat,
                     ghost a: seq<int>, ghost b: seq<int>) returns (J: array<int>)
    requires |a| == len0 && |b| == len1 < 0x8000_0000 && TrimmedEqual(a, b, pref, suff)
    requires ClassesOf(cls[..], mem[..], a[pref..len0 - suff], b[pref..len1 - suff])
    ensures fresh(J) && J.Length == len0 + 2
    ensures MatchVector(J[..], a, b) && EndsEntered(J[..], len0, len1, pref, suff)
    ensures minimal || len1 < 256 || len1 < sq ==> Longest(a, b, Matches(J[..], 0, len0))
  {
    hide Longest, MatchVector, Searched, ClassesOf, Entered, Common, Sound, Matches, Chain, EndsEntered;
    ghost var a', b' := a[pref..len0 - suff], b[pref..len1 - suff];
    var klist := new int[len0 - pref - suff + 2];
    var m := new Matcher();
    var k := m.Stone(cls, len0 - pref - suff, mem, klist, minimal, sq, a', b');
    SearchedSound(m.clist, m.lev, klist[..], k, a', b', Unlimited(|b'|, minimal, sq));
    J := new int[len0 + 2];
    m.Unravel(J, klist[k], len0, len1, pref, suff, a', b');
    EnteredIsMatchVector(J[..], a, b, pref, suff, Chain(m.clist, klist[k]));
    EnteredEnds(J[..], a, b, pref, suff, Chain(m.clist, klist[k]));
    if minimal || len1 < 256 || len1 < sq {
      EnteredIsLongest(J[..], a, b, pref, suff, Chain(m.clist, klist[k]));
    }
  }

  lemma SearchedSound(cl: seq<Cand>, lev: seq<int>, c: seq<int>, k: nat, a: seq<int>, b: seq<int>, full: bool)
    requires Searched(cl, lev, c, k, |a|, a, b, full)
    ensures k < |c| && 0 <= c[k] < |cl| && Sound(cl, lev, a, b)
    ensures Common(a, b, Chain(cl, c[k])) && |Chain(cl, c[k])| == k
    ensures full ==> Longest(a, b, Chain(cl, c[k]))
  {
    ChainIsCommon(cl, lev, c[k], a, b);
    if full {
      SearchFinds(cl, lev, c, k, a, b);
    }
  }
}
