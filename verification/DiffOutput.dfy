/** From the match vector to an edit script: both loops of `output` in
    bsd_diff/diffreg.c.

    A change (a, b, c, d) replaces old lines a..b by new lines c..d; a == b + 1
    or c == d + 1 stand for an empty side.  `check` only ever sets entries of J
    back to 0, which leaves a match vector a match vector, so everything below
    is stated for an arbitrary match vector.
  */
module DiffOutput {
  import opened DiffMatch

  datatype Change = Change(a: int, b: int, c: int, d: int)

  type Pos = (int, int)

  /** Between two positions every old line is matched, one for one. */
  ghost predicate Gap(J: seq<int>, p: Pos, q: Pos) {
    && 0 <= p.0 <= q.0 < |J| && 0 <= p.1 && q.0 - p.0 == q.1 - p.1
    && forall x :: p.0 < x <= q.0 ==> J[x] == x - p.0 + p.1
  }

  /** The change is not empty, and the old lines it removes are unmatched. */
  ghost predicate Body(J: seq<int>, e: Change) {
    && 1 <= e.a <= e.b + 1 <= |J| && 1 <= e.c <= e.d + 1 && (e.a <= e.b || e.c <= e.d)
    && forall x :: e.a <= x <= e.b ==> J[x] == 0
  }

  function Before(e: Change): Pos { (e.a - 1, e.c - 1) }

  function After(e: Change): Pos { (e.b, e.d) }

  /** The changes in file order, separated by stretches of matched lines. */
  ghost predicate Linked(J: seq<int>, cs: seq<Change>) {
    && (forall t :: 0 <= t < |cs| ==> Body(J, cs[t]))
    && (forall t :: 0 < t < |cs| ==> cs[t - 1].b + 1 < cs[t].a && Gap(J, After(cs[t - 1]), Before(cs[t])))
  }

  function Start(cs: seq<Change>, m: int, n: int): Pos {
    if cs == [] then (m, n) else Before(cs[0])
  }

  function End(cs: seq<Change>): Pos {
    if cs == [] then (0, 0) else After(cs[|cs| - 1])
  }

  /** cs covers exactly the unmatched lines of files of m and n lines: before,
      between and after the changes every line is matched. */
  ghost predicate Script(J: seq<int>, cs: seq<Change>, m: int, n: int) {
    Linked(J, cs) && Gap(J, (0, 0), Start(cs, m, n)) && Gap(J, End(cs), (m, n))
  }

  // ------------------------------------------------------------- forward loop

  /** The changes found so far cover the files up to the position p. */
  ghost predicate CoveredTo(J: seq<int>, cs: seq<Change>, p: Pos) {
    && Linked(J, cs) && Gap(J, End(cs), p)
    && (cs != [] ==> Gap(J, (0, 0), Before(cs[0])))
  }

  lemma CoverMatch(J: seq<int>, cs: seq<Change>, p: Pos)
    requires CoveredTo(J, cs, p) && p.0 + 1 < |J| && J[p.0 + 1] == p.1 + 1
    ensures CoveredTo(J, cs, (p.0 + 1, p.1 + 1))
  {
  }

  lemma CoverChange(J: seq<int>, cs: seq<Change>, p: Pos, e: Change)
    requires CoveredTo(J, cs, p) && Body(J, e) && Before(e) == p
    requires cs != [] ==> cs[|cs| - 1].b + 1 < e.a
    ensures CoveredTo(J, cs + [e], After(e))
  {
  }

  lemma CoverAll(J: seq<int>, cs: seq<Change>, m: int, n: int)
    requires CoveredTo(J, cs, (m, n))
    ensures Script(J, cs, m, n)
  {
  }

  /** J as the loop sees it: entries from i0 on are untouched, and the entry
      before i0 holds how much of the new file is covered. */
  ghost predicate ForwardView(J0: seq<int>, J: seq<int>, m: int, n: int, i0: int) {
    && 1 <= i0 <= m + 1 && |J0| == |J| == m + 2
    && J[m + 1] == n + 1 && 0 <= J[i0 - 1] <= n
    && (forall x :: i0 <= x <= m ==> J[x] == J0[x])
    && (forall x :: i0 <= x <= m && J0[x] != 0 ==> J[i0 - 1] < J0[x] <= n)
  }

  /** What a match vector means when only line numbers count. */
  ghost predicate Ascending(J: seq<int>, m: int, n: int) {
    && |J| == m + 2
    && (forall i :: 1 <= i <= m && J[i] != 0 ==> 1 <= J[i] <= n)
    && (forall i, j :: 1 <= i < j <= m && J[i] != 0 && J[j] != 0 ==> J[i] < J[j])
  }

  lemma ForwardViewNext(J0: seq<int>, J: seq<int>, m: int, n: int, i0: int)
    requires ForwardView(J0, J, m, n, i0) && Ascending(J0, m, n)
    requires i0 <= m && J[i0] == J[i0 - 1] + 1
    ensures ForwardView(J0, J, m, n, i0 + 1)
  {
    assert J[i0] == J0[i0];
  }

  lemma ForwardViewJump(J0: seq<int>, J: seq<int>, m: int, n: int, i0: int, i1: int)
    requires ForwardView(J0, J, m, n, i0) && Ascending(J0, m, n)
    requires i0 - 1 <= i1 <= m && forall x :: i0 <= x <= i1 ==> J[x] == 0
    requires i1 < m ==> J[i1 + 1] != 0
    ensures J[i0 - 1] <= J[i1 + 1] - 1 <= n
    ensures ForwardView(J0, J[i1 := J[i1 + 1] - 1], m, n, i1 + 1)
  {
    var J' := J[i1 := J[i1 + 1] - 1];
    assert i1 < m ==> J[i1 + 1] == J0[i1 + 1];
    forall x | i1 + 1 <= x <= m && J0[x] != 0 ensures J'[i1] < J0[x] <= n {
    }
  }

  method SkipMatched(J: array<int>, m: nat, n: nat, from: nat, ghost cs: seq<Change>, ghost J0: seq<int>) returns (i0: nat)
    requires J.Length == m + 2 && 1 <= from <= m + 1 && Ascending(J0, m, n)
    requires ForwardView(J0, J[..], m, n, from) && CoveredTo(J0, cs, (from - 1, J[from - 1]))
    ensures from <= i0 <= m + 1
    ensures ForwardView(J0, J[..], m, n, i0) && CoveredTo(J0, cs, (i0 - 1, J[i0 - 1]))
    ensures i0 <= m ==> J[i0] != J[i0 - 1] + 1
    ensures from <= m && J[from] == J[from - 1] + 1 ==> from < i0
  {
    hide ForwardView, CoveredTo, Ascending;
    i0 := from;
    while i0 <= m && J[i0] == J[i0 - 1] + 1
      invariant from <= i0 <= m + 1
      invariant ForwardView(J0, J[..], m, n, i0) && CoveredTo(J0, cs, (i0 - 1, J[i0 - 1]))
      invariant from <= m && J[from] == J[from - 1] + 1 && i0 == from ==> J[i0] == J[i0 - 1] + 1
    {
      ForwardViewNext(J0, J[..], m, n, i0);
      ForwardViewFacts(J0, J[..], m, n, i0, i0 - 1);
      CoverMatch(J0, cs, (i0 - 1, J[i0 - 1]));
      i0 := i0 + 1;
    }
  }

  /** Rewrites J at i1 and records the change, unless it is empty. */
  method EmitForward(J: array<int>, m: nat, n: nat, i0: nat, i1: nat, cs: seq<Change>, ghost J0: seq<int>)
    returns (next: nat, cs': seq<Change>)
    requires J.Length == m + 2 && 1 <= i0 <= i1 + 1 <= m + 1 && Ascending(J0, m, n)
    requires ForwardView(J0, J[..], m, n, i0) && CoveredTo(J0, cs, (i0 - 1, J[i0 - 1]))
    requires forall x :: i0 <= x <= i1 ==> J[x] == 0
    requires i1 < m ==> J[i1 + 1] != 0
    requires cs != [] ==> cs[|cs| - 1].b + 1 < i0
    modifies J
    ensures next == i1 + 1 && J[i1 + 1] == old(J[i1 + 1]) == J[i1] + 1
    ensures ForwardView(J0, J[..], m, n, next) && CoveredTo(J0, cs', (i1, J[i1]))
    ensures i1 == m ==> J[i1] == n
  {
    hide CoveredTo, Ascending, ForwardView;
    ForwardViewFacts(J0, J[..], m, n, i0, i1);
    ForwardViewJump(J0, J[..], m, n, i0, i1);
    var j0, j1 := J[i0 - 1] + 1, J[i1 + 1] - 1;
    ghost var J1 := J[..];
    J[i1] := j1;
    assert J[..] == J1[i1 := j1];
    var e := Change(i0, i1, j0, j1);
    next := i1 + 1;
    if i0 > i1 && j0 > j1 {
      cs' := cs;
    } else {
      cs' := cs + [e];
      CoverChange(J0, cs, (i0 - 1, j0 - 1), e);
    }
  }

  lemma ForwardViewFacts(J0: seq<int>, J: seq<int>, m: int, n: int, i0: int, i1: int)
    requires ForwardView(J0, J, m, n, i0) && i0 - 1 <= i1 <= m
    requires forall x :: i0 <= x <= i1 ==> J[x] == 0
    ensures |J0| == m + 2 && J[m + 1] == n + 1 && 0 <= J[i0 - 1]
    ensures forall x :: i0 <= x <= i1 ==> J0[x] == 0
    ensures forall x :: i0 <= x <= m ==> J[x] == J0[x]
  {
  }

  /** The loop of `output` for every format but the ed script. */
  method Forward(J: array<int>, m: nat, n: nat) returns (cs: seq<Change>)
    requires J.Length == m + 2 && Ascending(J[..], m, n)
    modifies J
    ensures Script(old(J[..]), cs, m, n)
  {
    hide ForwardView, CoveredTo, Ascending;
    ghost var J0 := J[..];
    J[0] := 0;
    J[m + 1] := n + 1;
    cs := [];
    ForwardBegins(J0, J[..], m, n);
    var i0 := 1;
    while i0 <= m
      invariant 1 <= i0 <= m + 1 && ForwardView(J0, J[..], m, n, i0)
      invariant CoveredTo(J0, cs, (i0 - 1, J[i0 - 1]))
      invariant cs != [] && i0 <= m && cs[|cs| - 1].b + 1 >= i0 ==> J[i0] == J[i0 - 1] + 1
      invariant i0 == m + 1 && m > 0 ==> J[m] == n
      invariant m == 0 ==> J[0] == 0 && cs == []
      decreases m - i0, if i0 <= m && J[i0] == J[i0 - 1] + 1 then 0 else 1
    {
      if cs != [] {
        CoveredLast(J0, cs, (i0 - 1, J[i0 - 1]));
      }
      i0 := SkipMatched(J, m, n, i0, cs, J0);
      var i1 := i0 - 1;
      while i1 < m && J[i1 + 1] == 0
        invariant i0 - 1 <= i1 <= m && forall x :: i0 <= x <= i1 ==> J[x] == 0
      {
        i1 := i1 + 1;
      }
      i0, cs := EmitForward(J, m, n, i0, i1, cs, J0);
    }
    if m == 0 && n > 0 {
      ForwardEmpty(J0, n);
      cs := [Change(1, 0, 1, n)];
    } else {
      CoverAll(J0, cs, m, n);
    }
  }

  lemma CoveredLast(J: seq<int>, cs: seq<Change>, p: Pos)
    requires CoveredTo(J, cs, p) && cs != []
    ensures cs[|cs| - 1].b <= p.0
  {
  }

  lemma ForwardBegins(J0: seq<int>, J: seq<int>, m: nat, n: nat)
    requires Ascending(J0, m, n) && J == J0[0 := 0][m + 1 := n + 1]
    ensures ForwardView(J0, J, m, n, 1) && CoveredTo(J0, [], (0, 0)) && J[0] == 0
  {
  }

  lemma ForwardEmpty(J0: seq<int>, n: nat)
    requires |J0| == 2 && n > 0
    ensures Script(J0, [Change(1, 0, 1, n)], 0, n)
  {
  }

  // ------------------------------------------------------------- reverse loop

  /** The changes found so far cover the files from the position p on. */
  ghost predicate CoveredFrom(J: seq<int>, cs: seq<Change>, m: int, n: int, p: Pos) {
    && Linked(J, cs) && Gap(J, p, Start(cs, m, n))
    && (cs != [] ==> Gap(J, End(cs), (m, n)))
  }

  lemma CoverMatchBack(J: seq<int>, cs: seq<Change>, m: int, n: int, p: Pos)
    requires CoveredFrom(J, cs, m, n, p) && 0 < p.0 && 0 < p.1 && J[p.0] == p.1
    ensures CoveredFrom(J, cs, m, n, (p.0 - 1, p.1 - 1))
  {
  }

  lemma CoverChangeBack(J: seq<int>, cs: seq<Change>, m: int, n: int, p: Pos, e: Change)
    requires CoveredFrom(J, cs, m, n, p) && Body(J, e) && After(e) == p
    requires cs != [] ==> e.b + 1 < cs[0].a
    ensures CoveredFrom(J, [e] + cs, m, n, Before(e))
  {
    var cs' := [e] + cs;
    forall t | 0 < t < |cs'| ensures cs'[t - 1].b + 1 < cs'[t].a && Gap(J, After(cs'[t - 1]), Before(cs'[t])) {
      assert t > 1 ==> cs'[t - 1] == cs[t - 2] && cs'[t] == cs[t - 1];
    }
    assert cs != [] ==> cs'[|cs'| - 1] == cs[|cs| - 1];
  }

  lemma CoverAllBack(J: seq<int>, cs: seq<Change>, m: int, n: int)
    requires CoveredFrom(J, cs, m, n, (0, 0))
    ensures Script(J, cs, m, n)
  {
  }

  /** J as the reverse loop sees it: entries up to i0 are untouched, and the
      entry after i0 holds where the covered part of the new file begins. */
  ghost predicate ReverseView(J0: seq<int>, J: seq<int>, m: int, n: int, i0: int) {
    && 0 <= i0 <= m && |J0| == |J| == m + 2
    && J[0] == 0 && 1 <= J[i0 + 1] <= n + 1
    && (forall x :: 1 <= x <= i0 ==> J[x] == J0[x])
    && (forall x :: 1 <= x <= i0 && J0[x] != 0 ==> 1 <= J0[x] < J[i0 + 1])
  }

  lemma ReverseViewNext(J0: seq<int>, J: seq<int>, m: int, n: int, i0: int)
    requires ReverseView(J0, J, m, n, i0) && Ascending(J0, m, n)
    requires 1 <= i0 && J[i0] == J[i0 + 1] - 1 && J[i0] != 0
    ensures ReverseView(J0, J, m, n, i0 - 1) && J0[i0] == J[i0]
  {
    assert J[i0] == J0[i0];
  }

  lemma ReverseViewJump(J0: seq<int>, J: seq<int>, m: int, n: int, i0: int, i1: int)
    requires ReverseView(J0, J, m, n, i0) && Ascending(J0, m, n)
    requires 1 <= i1 <= i0 + 1 && forall x :: i1 <= x <= i0 ==> J[x] == 0
    requires i1 > 1 ==> J[i1 - 1] != 0
    ensures 1 <= J[i1 - 1] + 1 <= J[i0 + 1] && (i1 > 1 ==> J0[i1 - 1] == J[i1 - 1])
    ensures ReverseView(J0, J[i1 := J[i1 - 1] + 1], m, n, i1 - 1)
    ensures forall x :: i1 <= x <= i0 ==> J0[x] == 0
  {
    assert i1 > 1 ==> J[i1 - 1] == J0[i1 - 1];
  }

  function Reversed<T>(s: seq<T>): (r: seq<T>)
    ensures |r| == |s| && forall i :: 0 <= i < |s| ==> r[i] == s[|s| - 1 - i]
  {
    if s == [] then [] else [s[|s| - 1]] + Reversed(s[..|s| - 1])
  }

  lemma ReversedAppend<T>(s: seq<T>, x: T)
    ensures Reversed(s + [x]) == [x] + Reversed(s)
  {
    assert (s + [x])[..|s|] == s;
  }

  method SkipMatchedBack(J: array<int>, m: nat, n: nat, from: nat, ghost cs: seq<Change>, ghost J0: seq<int>) returns (i0: nat)
    requires J.Length == m + 2 && from <= m && Ascending(J0, m, n)
    requires ReverseView(J0, J[..], m, n, from) && CoveredFrom(J0, cs, m, n, (from, J[from + 1] - 1))
    ensures i0 <= from
    ensures ReverseView(J0, J[..], m, n, i0) && CoveredFrom(J0, cs, m, n, (i0, J[i0 + 1] - 1))
    ensures i0 >= 1 ==> J[i0] != J[i0 + 1] - 1 || J[i0] == 0
    ensures from >= 1 && J[from] == J[from + 1] - 1 && J[from] != 0 ==> i0 < from
  {
    hide ReverseView, CoveredFrom, Ascending;
    i0 := from;
    while i0 >= 1 && J[i0] == J[i0 + 1] - 1 && J[i0] != 0
      invariant 0 <= i0 <= from
      invariant ReverseView(J0, J[..], m, n, i0) && CoveredFrom(J0, cs, m, n, (i0, J[i0 + 1] - 1))
    {
      ReverseViewNext(J0, J[..], m, n, i0);
      ReverseViewFacts(J0, J[..], m, n, i0);
      CoverMatchBack(J0, cs, m, n, (i0, J[i0 + 1] - 1));
      i0 := i0 - 1;
    }
  }

  lemma ReverseViewFacts(J0: seq<int>, J: seq<int>, m: int, n: int, i0: int)
    requires ReverseView(J0, J, m, n, i0)
    ensures |J0| == m + 2 && J[0] == 0 && J[i0 + 1] >= 1
    ensures forall x :: 1 <= x <= i0 ==> J[x] == J0[x]
  {
  }

  /** Rewrites J at i1 and emits the change, unless it is empty. */
  method EmitReverse(J: array<int>, m: nat, n: nat, i0: nat, i1: nat, out: seq<Change>, ghost J0: seq<int>)
    returns (next: nat, out': seq<Change>)
    requires J.Length == m + 2 && 1 <= i1 <= i0 + 1 <= m + 1 && Ascending(J0, m, n)
    requires ReverseView(J0, J[..], m, n, i0) && CoveredFrom(J0, Reversed(out), m, n, (i0, J[i0 + 1] - 1))
    requires forall x :: i1 <= x <= i0 ==> J[x] == 0
    requires i1 > 1 ==> J[i1 - 1] != 0
    requires out != [] ==> i0 + 1 < out[|out| - 1].a
    modifies J
    ensures next == i1 - 1 && J[i1 - 1] == old(J[i1 - 1]) == J[i1] - 1
    ensures ReverseView(J0, J[..], m, n, next) && CoveredFrom(J0, Reversed(out'), m, n, (i1 - 1, J[i1] - 1))
    ensures i1 == 1 ==> J[i1] == 1
  {
    hide CoveredFrom, Ascending, ReverseView, Reversed;
    ReverseViewFacts(J0, J[..], m, n, i0);
    ReverseViewJump(J0, J[..], m, n, i0, i1);
    var j0, j1 := J[i0 + 1] - 1, J[i1 - 1] + 1;
    ghost var J1 := J[..];
    J[i1] := j1;
    assert J[..] == J1[i1 := j1];
    var e := Change(i1, i0, j1, j0);
    next := i1 - 1;
    if i1 > i0 && j1 > j0 {
      out' := out;
    } else {
      out' := out + [e];
      ReversedAppend(out, e);
      CoverChangeBack(J0, Reversed(out), m, n, (i0, j0), e);
    }
  }

  /** The loop of `output` for the ed script: the same kind of script, emitted
      from the last change to the first. */
  method Reverse(J: array<int>, m: nat, n: nat) returns (out: seq<Change>)
    requires J.Length == m + 2 && Ascending(J[..], m, n)
    modifies J
    ensures Script(old(J[..]), Reversed(out), m, n)
  {
    hide ReverseView, CoveredFrom, Ascending, Reversed;
    ghost var J0 := J[..];
    J[0] := 0;
    J[m + 1] := n + 1;
    out := [];
    ReverseBegins(J0, J[..], m, n);
    var i0 := m;
    while i0 >= 1
      invariant 0 <= i0 <= m && ReverseView(J0, J[..], m, n, i0)
      invariant CoveredFrom(J0, Reversed(out), m, n, (i0, J[i0 + 1] - 1))
      invariant out != [] && i0 >= 1 && out[|out| - 1].a <= i0 + 1 ==> J[i0] == J[i0 + 1] - 1 && J[i0] != 0
      invariant i0 == 0 && m > 0 ==> J[1] == 1
      invariant m == 0 ==> out == []
      decreases i0, if i0 >= 1 && J[i0] == J[i0 + 1] - 1 && J[i0] != 0 then 0 else 1
    {
      if out != [] {
        CoveredFirst(J0, Reversed(out), m, n, (i0, J[i0 + 1] - 1));
      }
      i0 := SkipMatchedBack(J, m, n, i0, Reversed(out), J0);
      var i1 := i0 + 1;
      while i1 > 1 && J[i1 - 1] == 0
        invariant 1 <= i1 <= i0 + 1 && forall x :: i1 <= x <= i0 ==> J[x] == 0
      {
        i1 := i1 - 1;
      }
      i0, out := EmitReverse(J, m, n, i0, i1, out, J0);
    }
    if m == 0 {
      if n > 0 {
        ForwardEmpty(J0, n);
        out := [Change(1, 0, 1, n)];
        ReversedOne(out[0]);
      } else {
        CoverAllBack(J0, Reversed(out), m, n);
      }
    } else {
      CoverAllBack(J0, Reversed(out), m, n);
    }
  }

  lemma ReversedOne(e: Change)
    ensures Reversed([e]) == [e]
  {
  }

  lemma CoveredFirst(J: seq<int>, cs: seq<Change>, m: int, n: int, p: Pos)
    requires CoveredFrom(J, cs, m, n, p) && cs != []
    ensures p.0 < cs[0].a
  {
  }

  lemma ReverseBegins(J0: seq<int>, J: seq<int>, m: nat, n: nat)
    requires Ascending(J0, m, n) && J == J0[0 := 0][m + 1 := n + 1]
    ensures ReverseView(J0, J, m, n, m) && Reversed<Change>([]) == [] && CoveredFrom(J0, [], m, n, (m, n))
    ensures J[0] == 0 && J[m + 1] == n + 1
  {
  }
}
