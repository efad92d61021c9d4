/** The ed script (`diff -e`): the D_EDIT parts of `change` and `fetch` in
    bsd_diff/diffreg.c, and an interpreter for what they print.

    Lines are strings without their newline.  A line that is a bare "." would end
    ed's input mode, so it is sent as "..", the input is closed, the extra dot
    is removed by a substitution, and the change is resumed behind it.
  */
module DiffEd {
  import opened DiffMatch
  import opened DiffOutput
  import opened DiffApply
  import opened DiffCost
  import opened Wrappers

  datatype Kind = Append | Delete | Replace

  /** One line of the script: a command with its addresses, a `Ns/.//`, or a
      line of text. */
  datatype Out = Cmd(lo: int, hi: int, kind: Kind) | Subst(at: int) | Text(line: string)

  // -------------------------------------------------------------- interpreter

  /** Input mode: the text up to a bare "." and what follows it. */
  ghost function ReadText(st: seq<Out>): Option<(seq<string>, seq<Out>)>
  {
    if st == [] || !st[0].Text? then None
    else if st[0].line == "." then Some(([], st[1..]))
    else match ReadText(st[1..])
      case None => None
      case Some(r) => Some(([st[0].line] + r.0, r.1))
  }

  lemma {:induction false} ReadTextShrinks(st: seq<Out>)
    ensures ReadText(st).Some? ==> |ReadText(st).value.1| < |st|
  {
    if st != [] {
      ReadTextShrinks(st[1..]);
    }
  }

  /** ed(1): the buffer after a script, or None if a command fails. */
  ghost function Ed(buf: seq<string>, st: seq<Out>): Option<seq<string>>
    decreases |st|
  {
    if st == [] then Some(buf)
    else match st[0]
      case Text(_) => None
      case Subst(at) =>
        if 1 <= at <= |buf| && buf[at - 1] != ""
        then Ed(buf[at - 1 := buf[at - 1][1..]], st[1..])
        else None
      case Cmd(lo, hi, Delete) =>
        if 1 <= lo <= hi <= |buf| then Ed(buf[..lo - 1] + buf[hi..], st[1..]) else None
      case Cmd(lo, hi, kind) =>
        ReadTextShrinks(st[1..]);
        var ok := if kind == Append then 0 <= lo == hi <= |buf| else 1 <= lo <= hi <= |buf|;
        var keep := if kind == Append then lo else lo - 1;
        match ReadText(st[1..])
        case None => None
        case Some(r) => if ok then Ed(buf[..keep] + r.0 + buf[hi..], r.1) else None
  }

  // ------------------------------------------------------------------- output

  function Texts(ls: seq<string>): (r: seq<Out>)
    ensures |r| == |ls| && forall i :: 0 <= i < |ls| ==> r[i] == Text(ls[i])
  {
    seq(|ls|, i requires 0 <= i < |ls| => Text(ls[i]))
  }

  /** `fetch` for an ed script: prints lines c..d, but stops behind the first
      bare dot, which it prints as ".."; f counts the lines printed then. */
  method Fetch(dst: seq<string>, c: int, d: int) returns (out: seq<Out>, f: int)
    requires 1 <= c <= d + 1 <= |dst| + 1
    ensures f == 0 ==> out == Texts(dst[c - 1..d]) && "." !in dst[c - 1..d]
    ensures f != 0 ==> 1 <= f <= d - c + 1 && dst[c + f - 2] == "." && "." !in dst[c - 1..c + f - 2]
                       && out == Texts(dst[c - 1..c + f - 2]) + [Text("..")]
  {
    out, f := [], 0;
    var i := c;
    while i <= d
      invariant c <= i <= d + 1
      invariant out == Texts(dst[c - 1..i - 1]) && "." !in dst[c - 1..i - 1]
    {
      if dst[i - 1] == "." {
        return out + [Text("..")], i - c + 1;
      }
      assert dst[c - 1..i] == dst[c - 1..i - 1] + [dst[i - 1]];
      out := out + [Text(dst[i - 1])];
      i := i + 1;
    }
  }

  // ------------------------------------------------------ what commands do

  /** Whatever follows it, the script out takes the buffer x to y. */
  ghost predicate Takes(out: seq<Out>, x: seq<string>, y: seq<string>) {
    forall rest :: Ed(x, out + rest) == Ed(y, rest)
  }

  lemma TakesNothing(x: seq<string>)
    ensures Takes([], x, x)
  {
    forall rest: seq<Out> ensures Ed(x, [] + rest) == Ed(x, rest) {
      assert [] + rest == rest;
    }
  }

  lemma TakesBoth(o1: seq<Out>, o2: seq<Out>, x: seq<string>, y: seq<string>, z: seq<string>)
    requires Takes(o1, x, y) && Takes(o2, y, z)
    ensures Takes(o1 + o2, x, z)
  {
    hide Ed;
    forall rest ensures Ed(x, o1 + o2 + rest) == Ed(z, rest) {
      assert o1 + o2 + rest == o1 + (o2 + rest);
      assert Ed(x, o1 + (o2 + rest)) == Ed(y, o2 + rest);
    }
  }

  /** Input mode reads back exactly the lines sent, as long as none is a dot. */
  lemma {:induction false} ReadBack(ls: seq<string>, rest: seq<Out>)
    requires "." !in ls
    ensures ReadText(Texts(ls) + [Text(".")] + rest) == Some((ls, rest))
  {
    var st := Texts(ls) + [Text(".")] + rest;
    if ls == [] {
      assert st[0] == Text(".") && st[1..] == rest;
    } else {
      assert st[0] == Text(ls[0]) && st[1..] == Texts(ls[1..]) + [Text(".")] + rest;
      ReadBack(ls[1..], rest);
      assert [ls[0]] + ls[1..] == ls;
    }
  }

  /** x with lines a..b replaced by ls. */
  ghost function Spliced(x: seq<string>, a: int, b: int, ls: seq<string>): seq<string>
    requires 1 <= a <= b + 1 <= |x| + 1
  {
    x[..a - 1] + ls + x[b..]
  }

  /** The command `change` prints for old lines a..b, when text follows. */
  function TextCmd(a: int, b: int): Out {
    if a > b then Cmd(b, b, Append) else Cmd(a, b, Replace)
  }

  lemma TakesText(x: seq<string>, a: int, b: int, ls: seq<string>)
    requires 1 <= a <= b + 1 <= |x| + 1 && "." !in ls
    ensures Takes([TextCmd(a, b)] + Texts(ls) + [Text(".")], x, Spliced(x, a, b, ls))
  {
    hide Texts;
    var out := [TextCmd(a, b)] + Texts(ls) + [Text(".")];
    forall rest ensures Ed(x, out + rest) == Ed(Spliced(x, a, b, ls), rest) {
      ReadBack(ls, rest);
      assert (out + rest)[1..] == Texts(ls) + [Text(".")] + rest;
    }
  }

  lemma TakesDelete(x: seq<string>, a: int, b: int)
    requires 1 <= a <= b <= |x|
    ensures Takes([Cmd(a, b, Delete)], x, Spliced(x, a, b, []))
  {
    forall rest ensures Ed(x, [Cmd(a, b, Delete)] + rest) == Ed(Spliced(x, a, b, []), rest) {
      assert ([Cmd(a, b, Delete)] + rest)[1..] == rest;
      assert x[..a - 1] + [] + x[b..] == x[..a - 1] + x[b..];
    }
  }

  lemma TakesSubst(x: seq<string>, at: int)
    requires 1 <= at <= |x| && x[at - 1] == ".."
    ensures Takes([Subst(at)], x, x[at - 1 := "."])
  {
    forall rest ensures Ed(x, [Subst(at)] + rest) == Ed(x[at - 1 := "."], rest) {
      assert ([Subst(at)] + rest)[1..] == rest;
      assert ".."[1..] == ".";
    }
  }

  /** The escape: text up to a dot sent as "..", then repaired in place. */
  lemma TakesEscaped(x: seq<string>, a: int, b: int, ls: seq<string>)
    requires 1 <= a <= b + 1 <= |x| + 1 && "." !in ls
    ensures Takes([TextCmd(a, b)] + (Texts(ls) + [Text("..")]) + [Text("."), Subst(a + |ls|)], x, Spliced(x, a, b, ls + ["."]))
  {
    hide Takes;
    var sent := ls + [".."];
    TakesText(x, a, b, sent);
    var y := Spliced(x, a, b, sent);
    assert y[a + |ls| - 1] == "..";
    TakesSubst(y, a + |ls|);
    var o1 := [TextCmd(a, b)] + Texts(sent) + [Text(".")];
    TakesBoth(o1, [Subst(a + |ls|)], x, y, y[a + |ls| - 1 := "."]);
    assert Texts(sent) == Texts(ls) + [Text("..")];
    assert o1 + [Subst(a + |ls|)] == [TextCmd(a, b)] + (Texts(ls) + [Text("..")]) + [Text("."), Subst(a + |ls|)];
    assert y[a + |ls| - 1 := "."] == Spliced(x, a, b, ls + ["."]);
  }

  // ------------------------------------------------------- what commands cost

  /** The lines of text in a script, without the dots that end them. */
  ghost function Sent(st: seq<Out>): int {
    if st == [] then 0 else Sent(st[..|st| - 1]) + if st[|st| - 1].Text? && st[|st| - 1].line != "." then 1 else 0
  }

  /** The lines its commands replace or delete. */
  ghost function Taken(st: seq<Out>): int {
    if st == [] then 0
    else Taken(st[..|st| - 1]) +
         if st[|st| - 1].Cmd? && st[|st| - 1].kind != Append then st[|st| - 1].hi - st[|st| - 1].lo + 1 else 0
  }

  ghost predicate Costs(st: seq<Out>, sent: int, taken: int) {
    Sent(st) == sent && Taken(st) == taken
  }

  lemma CostsNothing()
    ensures Costs([], 0, 0)
  {
  }

  lemma CostsOne(st: seq<Out>, o: Out, sent: int, taken: int)
    requires Costs(st, sent, taken)
    ensures Costs(st + [o], sent + (if o.Text? && o.line != "." then 1 else 0),
                  taken + (if o.Cmd? && o.kind != Append then o.hi - o.lo + 1 else 0))
  {
    assert (st + [o])[..|st|] == st;
  }

  lemma {:induction false} CostsTexts(st: seq<Out>, ls: seq<string>, sent: int, taken: int)
    requires Costs(st, sent, taken) && "." !in ls
    ensures Costs(st + Texts(ls), sent + |ls|, taken)
  {
    hide Costs;
    if ls == [] {
      assert st + Texts(ls) == st;
    } else {
      var k := |ls| - 1;
      CostsTexts(st, ls[..k], sent, taken);
      CostsOne(st + Texts(ls[..k]), Text(ls[k]), sent + k, taken);
      assert st + Texts(ls) == st + Texts(ls[..k]) + [Text(ls[k])];
    }
  }

  /** One round of `change`: its command, its text, and what ends them. */
  lemma CostsRound(st: seq<Out>, a: int, b: int, ls: seq<string>, sent: int, taken: int)
    requires Costs(st, sent, taken) && a <= b + 1 && "." !in ls
    ensures Costs(st + ([TextCmd(a, b)] + Texts(ls) + [Text(".")]), sent + |ls|, taken + (b - a + 1))
  {
    hide Costs, Texts;
    var cmd := TextCmd(a, b);
    CostsOne(st, cmd, sent, taken);
    CostsTexts(st + [cmd], ls, sent, taken + (b - a + 1));
    CostsOne(st + [cmd] + Texts(ls), Text("."), sent + |ls|, taken + (b - a + 1));
    assert st + [cmd] + Texts(ls) + [Text(".")] == st + ([cmd] + Texts(ls) + [Text(".")]);
  }

  lemma CostsEscape(st: seq<Out>, a: int, b: int, ls: seq<string>, at: int, sent: int, taken: int)
    requires Costs(st, sent, taken) && a <= b + 1 && "." !in ls
    ensures Costs(st + ([TextCmd(a, b)] + (Texts(ls) + [Text("..")]) + [Text("."), Subst(at)]), sent + |ls| + 1, taken + (b - a + 1))
  {
    hide Costs;
    var more := ls + [".."];
    CostsRound(st, a, b, more, sent, taken);
    var st' := st + ([TextCmd(a, b)] + Texts(more) + [Text(".")]);
    CostsOne(st', Subst(at), sent + |more|, taken + (b - a + 1));
    assert Texts(more) == Texts(ls) + [Text("..")];
    assert st' + [Subst(at)] == st + ([TextCmd(a, b)] + (Texts(ls) + [Text("..")]) + [Text("."), Subst(at)]);
  }

  lemma {:induction false} CostsJoin(x: seq<Out>, y: seq<Out>)
    ensures Costs(x + y, Sent(x) + Sent(y), Taken(x) + Taken(y))
  {
    if y == [] {
      assert x + y == x;
    } else {
      var k := |y| - 1;
      CostsJoin(x, y[..k]);
      CostsOne(x + y[..k], y[k], Sent(x) + Sent(y[..k]), Taken(x) + Taken(y[..k]));
      assert x + y[..k] + [y[k]] == x + y;
    }
  }

  // ---------------------------------------------------------------- a change

  /** Run on any buffer that has the change's old lines, out makes the change. */
  ghost predicate Performs(out: seq<Out>, dst: seq<string>, e: Change)
    requires 1 <= e.c <= e.d + 1 <= |dst| + 1 && 1 <= e.a <= e.b + 1
  {
    forall x: seq<string> :: e.b <= |x| ==> Takes(out, x, Spliced(x, e.a, e.b, dst[e.c - 1..e.d]))
  }

  /** The buffer when the text up to new line c - 1 has been sent. */
  ghost function Current(x: seq<string>, dst: seq<string>, e: Change, c: int): seq<string>
    requires 1 <= e.c <= c <= e.d + 1 <= |dst| + 1 && 1 <= e.a <= e.b + 1 <= |x| + 1
  {
    if c == e.c then x else Spliced(x, e.a, e.b, dst[e.c - 1..c - 1])
  }

  /** After out, the change e is what the remaining change (a, b, c, e.d) still
      has to complete. */
  ghost predicate Resumes(out: seq<Out>, dst: seq<string>, e: Change, a: int, b: int, c: int)
    requires 1 <= e.c <= c <= e.d + 1 <= |dst| + 1 && 1 <= e.a <= e.b + 1
  {
    && (c == e.c ==> a == e.a && b == e.b)
    && (c > e.c ==> a == b + 1 == e.a + c - e.c)
    && forall x: seq<string> :: e.b <= |x| ==> Takes(out, x, Current(x, dst, e, c))
  }

  lemma CurrentSpliced(x: seq<string>, dst: seq<string>, e: Change, a: int, b: int, c: int, c': int)
    requires 1 <= e.c <= c <= c' <= e.d + 1 <= |dst| + 1 && 1 <= e.a <= e.b + 1 <= |x| + 1
    requires if c == e.c then a == e.a && b == e.b else a == b + 1 == e.a + c - e.c
    ensures b <= |Current(x, dst, e, c)| && 1 <= a <= b + 1
    ensures Spliced(Current(x, dst, e, c), a, b, dst[c - 1..c' - 1]) == Spliced(x, e.a, e.b, dst[e.c - 1..c' - 1])
  {
    var y := Current(x, dst, e, c);
    assert dst[e.c - 1..c' - 1] == dst[e.c - 1..c - 1] + dst[c - 1..c' - 1];
    if c > e.c {
      assert y[..a - 1] == x[..e.a - 1] + dst[e.c - 1..c - 1];
      assert y[b..] == x[e.b..];
      Regroup(x[..e.a - 1], dst[e.c - 1..c - 1], dst[c - 1..c' - 1], x[e.b..]);
    } else {
      assert dst[e.c - 1..c - 1] == [];
    }
  }

  lemma Regroup<T>(p: seq<T>, q: seq<T>, r: seq<T>, s: seq<T>)
    ensures (p + q) + r + s == p + (q + r) + s
  {
  }

  lemma ResumesAtFirst(dst: seq<string>, e: Change)
    requires 1 <= e.c <= e.d + 1 <= |dst| + 1 && 1 <= e.a <= e.b + 1
    ensures Resumes([], dst, e, e.a, e.b, e.c)
  {
    forall x: seq<string> | e.b <= |x| ensures Takes([], x, Current(x, dst, e, e.c)) {
      TakesNothing(x);
    }
  }

  lemma ResumesEscaped(out: seq<Out>, dst: seq<string>, e: Change, a: int, b: int, c: int, f: int)
    requires 1 <= e.c <= c <= e.d + 1 <= |dst| + 1 && 1 <= e.a <= e.b + 1
    requires Resumes(out, dst, e, a, b, c)
    requires 1 <= f <= e.d - c + 1 && dst[c + f - 2] == "." && "." !in dst[c - 1..c + f - 2]
    ensures Resumes(out + ([TextCmd(a, b)] + (Texts(dst[c - 1..c + f - 2]) + [Text("..")]) + [Text("."), Subst(a + f - 1)]), dst, e, a + f, a + f - 1, c + f)
  {
    hide Takes, Texts;
    var ls := dst[c - 1..c + f - 2];
    var more := [TextCmd(a, b)] + (Texts(ls) + [Text("..")]) + [Text("."), Subst(a + f - 1)];
    forall x: seq<string> | e.b <= |x| ensures Takes(out + more, x, Current(x, dst, e, c + f)) {
      CurrentSpliced(x, dst, e, a, b, c, c + f);
      TakesEscaped(Current(x, dst, e, c), a, b, ls);
      assert ls + ["."] == dst[c - 1..c + f - 1];
      TakesBoth(out, more, x, Current(x, dst, e, c), Current(x, dst, e, c + f));
    }
  }

  lemma ResumesToEnd(out: seq<Out>, dst: seq<string>, e: Change, a: int, b: int, c: int)
    requires 1 <= e.c <= c <= e.d + 1 <= |dst| + 1 && 1 <= e.a <= e.b + 1
    requires Resumes(out, dst, e, a, b, c) && (a <= b || c <= e.d)
    requires "." !in dst[c - 1..e.d]
    ensures c <= e.d ==> Performs(out + ([TextCmd(a, b)] + Texts(dst[c - 1..e.d]) + [Text(".")]), dst, e)
    ensures c > e.d ==> Performs(out + [Cmd(a, b, Delete)], dst, e)
  {
    hide Takes, Texts;
    var more := if c > e.d then [Cmd(a, b, Delete)] else [TextCmd(a, b)] + Texts(dst[c - 1..e.d]) + [Text(".")];
    forall x: seq<string> | e.b <= |x| ensures Takes(out + more, x, Spliced(x, e.a, e.b, dst[e.c - 1..e.d])) {
      CurrentSpliced(x, dst, e, a, b, c, e.d + 1);
      if c > e.d {
        TakesDelete(Current(x, dst, e, c), a, b);
        assert dst[c - 1..e.d] == [];
      } else {
        TakesText(Current(x, dst, e, c), a, b, dst[c - 1..e.d]);
      }
      TakesBoth(out, more, x, Current(x, dst, e, c), Spliced(x, e.a, e.b, dst[e.c - 1..e.d]));
    }
  }

  lemma ResumesDone(out: seq<Out>, dst: seq<string>, e: Change, a: int, b: int, c: int)
    requires 1 <= e.c <= c <= e.d + 1 <= |dst| + 1 && 1 <= e.a <= e.b + 1
    requires Resumes(out, dst, e, a, b, c) && a > b && c > e.d
    ensures Performs(out, dst, e)
  {
    hide Takes;
    forall x: seq<string> | e.b <= |x| ensures Takes(out, x, Spliced(x, e.a, e.b, dst[e.c - 1..e.d])) {
      assert c == e.c ==> Spliced(x, e.a, e.b, dst[e.c - 1..e.d]) == x;
    }
  }

  /** `change` for an ed script, with its `goto restart`. */
  method ChangeEd(dst: seq<string>, e: Change) returns (out: seq<Out>)
    requires 1 <= e.c <= e.d + 1 <= |dst| + 1 && 1 <= e.a <= e.b + 1
    ensures Performs(out, dst, e)
    ensures Costs(out, e.d - e.c + 1, e.b - e.a + 1)
  {
    hide Performs, Takes, Current, Texts, Costs;
    out := [];
    var a, b, c := e.a, e.b, e.c;
    ResumesAtFirst(dst, e);
    CostsNothing();
    while !(a > b && c > e.d)
      invariant 1 <= a <= b + 1 && e.c <= c <= e.d + 1
      invariant Resumes(out, dst, e, a, b, c)
      invariant Costs(out, c - e.c, if c == e.c then 0 else e.b - e.a + 1)
      decreases e.d - c
    {
      ghost var out0 := out;
      var cmd := Cmd(if a > b then b else a, b, if a > b then Append else if c > e.d then Delete else Replace);
      var text, f := Fetch(dst, c, e.d);
      if f != 0 {
        out := out + ([cmd] + text + [Text("."), Subst(a + f - 1)]);
        ResumesEscaped(out0, dst, e, a, b, c, f);
        CostsEscape(out0, a, b, dst[c - 1..c + f - 2], a + f - 1, c - e.c, if c == e.c then 0 else e.b - e.a + 1);
        b := a + f - 1;
        a := b + 1;
        c := c + f;
      } else {
        ResumesToEnd(out0, dst, e, a, b, c);
        if c <= e.d {
          out := out + ([cmd] + text + [Text(".")]);
          CostsRound(out0, a, b, dst[c - 1..e.d], c - e.c, if c == e.c then 0 else e.b - e.a + 1);
        } else {
          out := out + ([cmd] + text);
          assert text == Texts([]) == [] && [cmd] + text == [cmd];
          CostsOne(out0, cmd, c - e.c, if c == e.c then 0 else e.b - e.a + 1);
        }
        return;
      }
    }
    ResumesDone(out, dst, e, a, b, c);
  }

  // -------------------------------------------------------------- the script

  /** `diff -e`: the reverse loop of `output`, printing every change. */
  method EdScript(J: array<int>, src: seq<string>, dst: seq<string>) returns (st: seq<Out>)
    requires J.Length == |src| + 2 && MatchVector(J[..], src, dst)
    modifies J
    ensures Ed(src, st) == Some(dst)
    ensures Costs(st, |dst| - |Matches(old(J[..]), 0, |src|)|, |src| - |Matches(old(J[..]), 0, |src|)|)
  {
    hide Performs, Ed, MatchVector, Script, Matches, Costs, Halfway;
    ghost var J0 := J[..];
    MatchVectorAscends(J0, src, dst);
    var cs := Reverse(J, |src|, |dst|);
    EdRunIsNew(J0, src, dst, cs);
    ScriptCost(J0, Reversed(cs), |src|, |dst|);
    ReversedCost(cs, |cs|);
    st := [];
    ghost var buf := src;
    HalfwayNone(src, dst, cs);
    for k := 0 to |cs|
      invariant Halfway(st, src, dst, buf, cs, k)
    {
      HalfwayFits(st, src, dst, buf, cs, k);
      var out := ChangeEd(dst, cs[k]);
      buf := HalfwayNext(st, src, dst, buf, cs, k, out);
      st := st + out;
    }
    HalfwayAll(st, src, dst, buf, cs);
  }

  /** The output st for the first k changes turns src into buf, from which the others lead
      on to dst, at the cost of those changes. */
  ghost predicate Halfway(st: seq<Out>, src: seq<string>, dst: seq<string>, buf: seq<string>, cs: seq<Change>, k: nat) {
    && k <= |cs| && Fits(cs, |src|, |dst|) && Takes(st, src, buf) && EdRun(buf, dst, cs, k) == Some(dst)
    && Costs(st, Added(cs, 0, k), Removed(cs, 0, k))
  }

  lemma HalfwayNone(src: seq<string>, dst: seq<string>, cs: seq<Change>)
    requires Fits(cs, |src|, |dst|) && EdRun(src, dst, cs, 0) == Some(dst)
    ensures Halfway([], src, dst, src, cs, 0)
  {
    hide Takes, Costs, EdRun;
    TakesNothing(src);
    CostsNothing();
  }

  lemma HalfwayFits(st: seq<Out>, src: seq<string>, dst: seq<string>, buf: seq<string>, cs: seq<Change>, k: nat)
    requires Halfway(st, src, dst, buf, cs, k) && k < |cs|
    ensures var e := cs[k];
            && Fits(cs, |src|, |dst|)
            && 1 <= e.c <= e.d + 1 <= |dst| + 1 && 1 <= e.a <= e.b + 1 <= |buf| + 1
            && EdRun(Spliced(buf, e.a, e.b, dst[e.c - 1..e.d]), dst, cs, k + 1) == Some(dst)
  {
    hide Takes, Costs;
    assert EdApply(buf, dst, cs[k]).Some?;
  }

  lemma HalfwayNext(st: seq<Out>, src: seq<string>, dst: seq<string>, buf: seq<string>, cs: seq<Change>, k: nat, out: seq<Out>)
    returns (buf': seq<string>)
    requires Halfway(st, src, dst, buf, cs, k) && k < |cs|
    requires Performs(out, dst, cs[k]) && Costs(out, cs[k].d - cs[k].c + 1, cs[k].b - cs[k].a + 1)
    ensures Halfway(st + out, src, dst, buf', cs, k + 1)
  {
    hide Takes, Costs, Performs, EdRun;
    var e := cs[k];
    HalfwayFits(st, src, dst, buf, cs, k);
    buf' := Spliced(buf, e.a, e.b, dst[e.c - 1..e.d]);
    PerformsOn(out, dst, e, buf);
    TakesBoth(st, out, src, buf, buf');
    CostsBoth(st, out, Added(cs, 0, k), Removed(cs, 0, k), e.d - e.c + 1, e.b - e.a + 1);
  }

  lemma HalfwayAll(st: seq<Out>, src: seq<string>, dst: seq<string>, buf: seq<string>, cs: seq<Change>)
    requires Halfway(st, src, dst, buf, cs, |cs|)
    ensures Ed(src, st) == Some(dst)
    ensures Costs(st, Added(cs, 0, |cs|), Removed(cs, 0, |cs|))
  {
    hide Takes, Costs;
    TakesEnd(st, src, dst);
  }

  lemma CostsBoth(x: seq<Out>, y: seq<Out>, sent: int, taken: int, sent': int, taken': int)
    requires Costs(x, sent, taken) && Costs(y, sent', taken')
    ensures Costs(x + y, sent + sent', taken + taken')
  {
    CostsJoin(x, y);
  }

  lemma PerformsOn(out: seq<Out>, dst: seq<string>, e: Change, x: seq<string>)
    requires 1 <= e.c <= e.d + 1 <= |dst| + 1 && 1 <= e.a <= e.b + 1 <= |x| + 1
    requires Performs(out, dst, e)
    ensures Takes(out, x, Spliced(x, e.a, e.b, dst[e.c - 1..e.d]))
  {
  }

  lemma TakesEnd(st: seq<Out>, x: seq<string>, y: seq<string>)
    requires Takes(st, x, y)
    ensures Ed(x, st) == Some(y)
  {
    assert Ed(x, st + []) == Ed(y, []);
    assert st + [] == st;
  }
}
