/** The passes of bsd_find/operator.c on the linked nodes themselves: nodes are taken off a
    list, hung into one another and linked up again, and never copied.

    The error exits (`errx`) return a flag.  Ghost sequences of trees say what each `PLAN *`
    holds; `allocated` says of cells that a call does not reach that they are not new either.
  */
module FindHeap {
  import opened FindCells
  import opened FindGrammar
  import opened FindPasses
  import opened Wrappers

  /** yanknode: the first node comes off, with its `next` cleared. */
  method YankNode(plan: Cell?, ghost ts: seq<Tree>) returns (node: Cell?, rest: Cell?)
    requires Holds(plan, ts)
    modifies Behind(plan)`next
    ensures Off(node, First(ts), rest, Rest(ts), Cells(ts))
    ensures ts != [] ==> Alone(ts[0])
  {
    hide Cells, Linked, Whole, Apart, ApartT;
    CellsParts(ts);
    node, rest := plan, null;
    if node == null {
      return;
    }
    LinkedTail(ts);
    CellsTail(ts);
    WholeParts(ts[0]);
    rest := plan.next;
    node.next := null;
    HeldAlone(ts[0]);
  }

  // ------------------------------------------------------------ adding to a list

  /** Changing the `next` of a cell that hangs under none of them leaves nodes whole. */
  method SetNext(c: Cell, n: Cell?, ghost ts: seq<Tree>)
    requires NotUnder(c, ts) && WholeAll(ts)
    modifies c`next
    ensures c.next == n && WholeAll(ts)
  {
    hide Whole, Cells;
    c.next := n;
    forall i | 0 <= i < |ts| ensures Whole(ts[i]) {
      assert old(Whole(ts[i]));
    }
  }

  /** Linking a node to the last one of a result plan. */
  method Link(result: Cell?, tail: Cell?, e: Cell, ghost rs: seq<Tree>, ghost t: Tree)
    returns (result': Cell?, tail': Cell?)
    requires Holds(result, rs) && Ends(rs, tail)
    requires e == t.cell && Alone(t) && Cells(rs) !! CellsT(t)
    modifies Behind(tail)`next, e`next
    ensures Holds(result', rs + [t]) && Ends(rs + [t], tail') && Cells(rs + [t]) == Cells(rs) + CellsT(t)
  {
    hide Linked, WholeAll, Whole, Cells, CellsT, Apart, NotUnder, Alone;
    HeldAlone(t);
    CellsOne(t);
    JoinApart(rs, [t]);
    LinkedParts(rs);
    ghost var ts := rs + [t];
    TopsDiffer(ts);
    assert forall i :: 0 <= i < |rs| ==> ts[i] == rs[i];
    assert ts[|rs|] == t;
    if result == null {
      result', tail' := e, e;
    } else {
      SetNext(tail, e, ts);
      result', tail' := result, e;
    }
    SetNext(tail', null, ts);
    ChainSnoc(rs, t);
    LinkedParts(ts);
  }

  /** The end of every loop of the passes: a node is added to the result plan. */
  method Append(result: Cell?, tail: Cell?, node: Cell, ghost rs: seq<Tree>, ghost one: seq<Tree>)
    returns (result': Cell?, tail': Cell?)
    requires Holds(result, rs) && Ends(rs, tail) && Holds(node, one) && |one| <= 1 && Cells(rs) !! Cells(one)
    modifies Cells(rs), Cells(one)
    ensures Holds(result', rs + one) && Ends(rs + one, tail')
    ensures Cells(rs + one) == Cells(rs) + Cells(one) && Nodes(rs + one) == Nodes(rs) + Nodes(one)
  {
    hide Cells, Nodes, NodeOf, Holds, Alone;
    Single(node, one);
    EndsCell(rs, tail);
    NodesJoin(rs, one);
    result', tail' := Link(result, tail, node, rs, one[0]);
  }

  method MakeNode(k: Kind) returns (node: Cell, ghost one: seq<Tree>)
    ensures fresh(node) && |one| == 1 && Holds(node, one) && Cells(one) == {node} && Nodes(one) == [Token(k)]
  {
    node := new Cell(k);
    ghost var t := Tree(node, k, [], []);
    one := [t];
    NothingHeld();
    hide Cells, Holds;
    AloneHeld(t);
  }

  /** A new node at the end of a list. */
  method AddNode(plan: Cell?, tail: Cell?, k: Kind, ghost ts: seq<Tree>)
    returns (plan': Cell?, tail': Cell?, ghost us: seq<Tree>)
    requires Holds(plan, ts) && Ends(ts, tail)
    modifies Cells(ts)
    ensures Holds(plan', us) && Ends(us, tail') && fresh(Cells(us) - Cells(ts)) && Nodes(us) == Nodes(ts) + [Token(k)]
  {
    hide Cells, Holds, Nodes, Token;
    assert allocated(Cells(ts));
    var node, one := MakeNode(k);
    us := ts + one;
    plan', tail' := Append(plan, tail, node, ts, one);
  }

  /** A new node in front of a list. */
  method PutFirst(plan: Cell?, k: Kind, ghost ts: seq<Tree>) returns (plan': Cell, ghost us: seq<Tree>)
    requires Holds(plan, ts)
    ensures Holds(plan', us) && Nodes(us) == [Token(k)] + Nodes(ts) && fresh(Cells(us) - Cells(ts))
    ensures forall tail :: ts != [] && Ends(ts, tail) ==> Ends(us, tail)
  {
    hide Linked, WholeAll, Whole, Cells, Apart, NotUnder, Alone, Nodes, NodeOf, Token;
    assert allocated(Cells(ts));
    ghost var one;
    plan', one := MakeNode(k);
    Single(plan', one);
    us := one + ts;
    NodesJoin(one, ts);
    JoinApart(one, ts);
    TopsDiffer(us);
    TopsAreCells(ts);
    LinkedParts(ts);
    assert us[0] == one[0];
    SetNext(plan', plan, us);
    ChainCons(one[0], ts);
    LinkedParts(us);
  }

  // -------------------------------------------------- hanging a list into a node

  /** `node->p_data[0] = sub`. */
  method SetFirst(node: Cell, sub: Cell?, ghost t: Tree, ghost ss: seq<Tree>)
    requires node == t.cell && AloneButFirst(t) && Holds(sub, ss)
    requires node !in Cells(ss) && Cells(ss) !! Cells(t.sub1)
    modifies node`p0
    ensures Alone(t.(sub0 := ss))
  {
    hide Cells, Holds;
    assert allocated(Cells(ss)) && allocated(Cells(t.sub1));
    node.p0 := sub;
  }

  /** `node->p_data[1] = sub`. */
  method SetSecond(node: Cell, sub: Cell?, ghost t: Tree, ghost ss: seq<Tree>)
    requires node == t.cell && Alone(t) && Holds(sub, ss)
    requires node !in Cells(ss) && Cells(ss) !! Cells(t.sub0)
    modifies node`p1
    ensures Alone(t.(sub1 := ss))
  {
    hide Cells, Holds;
    assert allocated(Cells(ss)) && allocated(Cells(t.sub0));
    node.p1 := sub;
  }

  /** `node->execute = f_expr`. */
  method SetExpr(node: Cell, ghost t: Tree)
    requires node == t.cell && Alone(t)
    modifies node`kind
    ensures Alone(t.(kind := KExpr))
  {
    hide Cells, Holds;
    assert allocated(Cells(t.sub0)) && allocated(Cells(t.sub1));
    node.kind := KExpr;
  }

  /** What a pass makes of a list: the value it computes, from the same cells, or an error. */
  ghost predicate Became(ok: bool, result: Cell?, rs: seq<Tree>, r: Option<seq<Node>>, all: set<Cell>)
    reads Cells(rs)
  {
    (ok <==> r.Some?) && (ok ==> Holds(result, rs) && Nodes(rs) == r.value && Cells(rs) <= all)
  }

  /** What a step of a pass makes of one node. */
  ghost predicate Inside(ok: bool, t': Tree, t: Tree, n: Option<Node>)
    reads t'.cell, Cells(t'.sub0), Cells(t'.sub1)
  {
    && (ok <==> n.Some?) && t'.cell == t.cell && t'.kind == t.kind
    && (ok ==> Alone(t') && NodeOf(t') == n.value && CellsT(t') <= CellsT(t))
  }

  // ---------------------------------------------------------------- paren_squish

  /** yankexpr: one node, or the nodes between brackets hung into the node of the open
      bracket, comes off the list. */
  method YankExpr(plan: Cell?, ghost ts: seq<Tree>)
    returns (ok: bool, node: Cell?, rest: Cell?, ghost one: seq<Tree>, ghost us: seq<Tree>)
    requires Holds(plan, ts)
    modifies Cells(ts)
    ensures var y := FindPasses.YankExpr(Nodes(ts));
            && (ok <==> !y.Fail?)
            && (ok ==> Off(node, one, rest, us, Cells(ts)))
            && (y.End? ==> one == [] && us == [])
            && (y.Got? ==> Nodes(one) == [y.node] && Nodes(us) == y.rest)
    decreases |ts|, 0
  {
    CellsParts(ts);
    hide Cells, CellsT, NodeOf, Collect;
    node, rest := YankNode(plan, ts);
    ok, one, us := true, First(ts), Rest(ts);
    if node == null {
      return;
    }
    NodesTail(ts);
    KindTells(ts[0]);
    if node.kind == KOpen {
      CellsOne(ts[0]);
      ok, rest, one, us := Bracket(node, rest, ts[0], us);
    }
  }

  /** The loop of yankexpr: the nodes up to the closing bracket are hung into `node`. */
  method Bracket(node: Cell, plan: Cell?, ghost t: Tree, ghost ts: seq<Tree>)
    returns (ok: bool, rest: Cell?, ghost one: seq<Tree>, ghost us: seq<Tree>)
    requires node == t.cell && Alone(t) && Holds(plan, ts) && CellsT(t) !! Cells(ts)
    modifies node`kind, node`p0, Cells(ts)
    ensures var y := Collect(Nodes(ts), []);
            && (ok <==> y.Got?)
            && (ok ==> Off(node, one, rest, us, CellsT(t) + Cells(ts)))
            && (ok ==> Nodes(one) == [y.node] && Nodes(us) == y.rest)
    decreases |ts|, 1
  {
    hide Cells, NodeOf, Nodes, Holds, Alone;
    var tail: Cell?, subplan: Cell? := null, null;
    ghost var rs: seq<Tree> := [];
    rest, us := plan, ts;
    NothingHeld();
    while true
      invariant Alone(t) && Holds(rest, us) && Holds(subplan, rs) && Ends(rs, tail)
      invariant Cells(us) <= Cells(ts) && Cells(rs) <= Cells(ts) && Cells(us) !! Cells(rs)
      invariant |us| <= |ts| && Collect(Nodes(us), Nodes(rs)) == Collect(Nodes(ts), [])
      decreases |us|
    {
      var next;
      assert allocated(CellsT(t)) && allocated(Cells(rs));
      ok, next, rest, one, us := YankExpr(rest, us);
      if !ok {
        return;
      }
      HoldsHead(next, one);
      if next == null {
        ok := false;
        return;
      }
      Single(next, one);
      HoldsHead(subplan, rs);
      KindTells(one[0]);
      assert allocated(Cells(us));
      if next.kind == KClose {
        if subplan == null {
          ok := false;
          return;
        }
        AloneParts(t);
        SetFirst(node, subplan, t, rs);
        SetExpr(node, t.(sub0 := rs));
        one := [Tree(node, KExpr, rs, t.sub1)];
        AloneHeld(one[0]);
        return;
      }
      subplan, tail := Append(subplan, tail, next, rs, one);
      rs := rs + one;
    }
  }

  lemma PrependedNothing(r: Option<seq<Node>>)
    ensures Prepended([], r) == r
  {
    if r.Some? {
      assert [] + r.value == r.value;
    }
  }

  lemma PrependedEmpty(p: seq<Node>)
    ensures Prepended(p, Some([])) == Some(p)
  {
    assert p + [] == p;
  }

  lemma PrependedFails(p: seq<Node>)
    ensures Prepended(p, None) == None
  {
  }

  lemma SquishedFirst(p: seq<Node>)
    ensures var y := FindPasses.YankExpr(p);
            y.Got? && !y.node.Close? ==> ParenSquish(p) == Prepended([y.node], ParenSquish(y.rest))
  {
  }

  /** paren_squish. */
  method SquishParens(plan: Cell?, ghost ts: seq<Tree>) returns (ok: bool, result: Cell?, ghost rs: seq<Tree>)
    requires Holds(plan, ts)
    modifies Cells(ts)
    ensures Became(ok, result, rs, ParenSquish(Nodes(ts)), Cells(ts))
  {
    hide Cells, NodeOf, Nodes, Holds, Alone, Prepended;
    var tail: Cell? := null;
    var rest := plan;
    ghost var us := ts;
    ok, result, rs := true, null, [];
    NothingHeld();
    PrependedNothing(ParenSquish(Nodes(ts)));
    while true
      invariant ok && Holds(rest, us) && Holds(result, rs) && Ends(rs, tail)
      invariant Cells(us) <= Cells(ts) && Cells(rs) <= Cells(ts) && Cells(us) !! Cells(rs)
      invariant Prepended(Nodes(rs), ParenSquish(Nodes(us))) == ParenSquish(Nodes(ts))
      decreases |us|
    {
      ghost var us0 := us;
      var expr;
      ghost var one;
      assert allocated(Cells(rs));
      ok, expr, rest, one, us := YankExpr(rest, us);
      PrependedFails(Nodes(rs));
      if !ok {
        return;
      }
      HoldsHead(expr, one);
      if expr == null {
        PrependedEmpty(Nodes(rs));
        return;
      }
      Single(expr, one);
      KindTells(one[0]);
      if expr.kind == KClose {
        ok := false;
        return;
      }
      assert allocated(Cells(us));
      PrependedTwice(Nodes(rs), Nodes(one), ParenSquish(Nodes(us)));
      SquishedFirst(Nodes(us0));
      result, tail := Append(result, tail, expr, rs, one);
      rs := rs + one;
    }
  }

  // ------------------------------------------------------------------ not_squish

  /** The first node of the result of not_squish, and what is left of the list. */
  ghost function NotStep(p: seq<Node>): Option<(Node, seq<Node>)> {
    var k := NotLevel(p);
    if k == |p| || (k > 0 && p[k].Or?) then None
    else match NotOperand(p[k])
      case None => None
      case Some(n) => Some((if k % 2 == 1 then Not([n]) else n, p[k + 1..]))
  }

  lemma NotStepPlain(p: seq<Node>)
    requires p != [] && !p[0].Not?
    ensures NotStep(p) == if NotOperand(p[0]).None? then None else Some((NotOperand(p[0]).value, p[1..]))
  {
    hide NotOperand;
  }

  lemma NotStepBang(p: seq<Node>, q: seq<Node>, k: nat)
    requires p != [] && p[0].Not? && q == p[1..] && k == NotLevel(q)
    ensures k == |q| || q[k].Or? || NotOperand(q[k]).None? ==> NotStep(p) == None
    ensures k < |q| && !q[k].Or? && NotOperand(q[k]).Some? ==>
              var n := NotOperand(q[k]).value;
              NotStep(p) == Some((if k % 2 == 0 then Not([n]) else n, q[k + 1..]))
  {
    hide NotOperand;
    assert NotLevel(p) == k + 1;
    hide NotLevel;
    assert k == |q| <==> k + 1 == |p|;
    if k < |q| {
      assert p[k + 1] == q[k];
      assert p[k + 2..] == q[k + 1..];
    }
  }

  lemma NotSquishNothing()
    ensures NotSquish(Nodes([])) == Some([])
  {
  }

  lemma NotStepFirst(p: seq<Node>)
    requires p != []
    ensures NotStep(p).None? ==> NotSquish(p).None?
    ensures NotStep(p).Some? ==>
              NotSquish(p) == Prepended([NotStep(p).value.0], NotSquish(NotStep(p).value.1))
  {
  }

  /** The `!`-counting loop: the node behind the `!`s, if there is one. */
  method SkipNots(plan: Cell?, ghost us: seq<Tree>) returns (level: nat, node: Cell?, rest: Cell?)
    requires Holds(plan, us)
    modifies Cells(us)
    ensures level == NotLevel(Nodes(us))
    ensures level == |us| ==> node == null
    ensures level < |us| ==> node == us[level].cell && Alone(us[level]) && Holds(rest, us[level + 1..])
  {
    hide Cells, NodeOf, Holds, Alone;
    ghost var p := Nodes(us);
    level := 0;
    CellsParts(us);
    HoldsHead(plan, us);
    node, rest := YankNode(plan, us);
    HoldsHead(node, First(us));
    assert p[0..] == p;
    while node != null && node.kind == KNot
      invariant level <= |us| && (node == null <==> level == |us|)
      invariant level < |us| ==> node == us[level].cell && Alone(us[level]) && Holds(rest, us[level + 1..])
      invariant level + NotLevel(p[level..]) == NotLevel(p)
      decreases |us| - level
    {
      ghost var vs := us[level + 1..];
      AloneParts(us[level]);
      KindTells(us[level]);
      assert p[level..][1..] == p[level + 1..];
      CellsParts(vs);
      CellsDrop(us, level + 1);
      HoldsHead(rest, vs);
      node, rest := YankNode(rest, vs);
      HoldsHead(node, First(vs));
      level := level + 1;
      assert vs != [] ==> vs[0] == us[level] && vs[1..] == us[level + 1..];
    }
    if node != null {
      AloneParts(us[level]);
      KindTells(us[level]);
    }
  }

  /** not_squish on the subplan of a bracketed expression. */
  method NotsInside(next: Cell, ghost t: Tree) returns (ok: bool, ghost t': Tree)
    requires next == t.cell && Alone(t)
    modifies CellsT(t)
    ensures Inside(ok, t', t, NotOperand(NodeOf(t)))
    decreases t
  {
    hide Cells, Holds;
    ok, t' := true, t;
    if next.kind == KExpr {
      var sub;
      ghost var ss;
      assert allocated(Cells(t.sub1));
      ok, sub, ss := SquishNots(next.p0, t.sub0);
      if ok {
        SetFirst(next, sub, t, ss);
        t' := t.(sub0 := ss);
      }
    }
  }

  /** Several `!`s are one or none. */
  method Cancel(first: Cell, node: Cell, notlevel: nat, ghost t: Tree, ghost n: Tree)
    returns (next: Cell, ghost one: seq<Tree>)
    requires first == t.cell && Alone(t) && t.kind == KNot && node == n.cell && Alone(n) && CellsT(t) !! CellsT(n)
    modifies first`p0
    ensures |one| <= 1 && Holds(next, one) && Cells(one) <= CellsT(t) + CellsT(n)
    ensures Nodes(one) == [if notlevel % 2 == 1 then Not([NodeOf(n)]) else NodeOf(n)]
  {
    hide Cells, NodeOf, Nodes, Holds, Alone;
    AloneHeld(n);
    if notlevel % 2 != 1 {
      next, one := node, [n];
    } else {
      next, one := first, [t.(sub0 := [n])];
      AloneParts(t);
      SetFirst(next, node, t, [n]);
      AloneHeld(one[0]);
    }
  }

  /** The part of not_squish behind a `!`: the node after the `!`s goes into the first of
      them, or takes its place if they are even in number. */
  method Negate(first: Cell, plan: Cell?, ghost t: Tree, ghost us: seq<Tree>)
    returns (ok: bool, next: Cell?, rest: Cell?, ghost one: seq<Tree>, ghost vs: seq<Tree>)
    requires first == t.cell && Alone(t) && t.kind == KNot && Holds(plan, us) && CellsT(t) !! Cells(us)
    modifies first`p0, Cells(us)
    ensures var (p, k) := (Nodes(us), NotLevel(Nodes(us)));
            && (ok <==> k < |p| && !p[k].Or? && NotOperand(p[k]).Some?)
            && (ok ==> Off(next, one, rest, vs, CellsT(t) + Cells(us)) && vs == us[k + 1..])
            && (ok ==> var n := NotOperand(p[k]).value; Nodes(one) == [if k % 2 == 0 then Not([n]) else n])
    decreases us, 0
  {
    hide Cells, NodeOf, Nodes, Holds, Alone, Apart;
    HoldsApart(plan, us);
    assert allocated(CellsT(t));
    var notlevel, node;
    notlevel, node, rest := SkipNots(plan, us);
    ok, next, one, vs := false, first, [], [];
    if node == null {
      return;
    }
    Middle(us, notlevel);
    AloneParts(us[notlevel]);
    KindTells(us[notlevel]);
    if node.kind == KOr {
      return;
    }
    vs := us[notlevel + 1..];
    assert allocated(Cells(vs));
    ghost var n;
    ok, n := NotsInside(node, us[notlevel]);
    if !ok {
      return;
    }
    assert allocated(Cells(vs));
    next, one := Cancel(first, node, 1 + notlevel, t, n);
  }

  /** One turn of the loop of not_squish. */
  method NextNot(plan: Cell?, ghost us: seq<Tree>)
    returns (ok: bool, next: Cell?, rest: Cell?, ghost one: seq<Tree>, ghost vs: seq<Tree>)
    requires Holds(plan, us) && us != []
    modifies Cells(us)
    ensures ok <==> NotStep(Nodes(us)).Some?
    ensures ok ==> one != [] && Off(next, one, rest, vs, Cells(us))
    ensures ok ==> |vs| < |us| && IsSuffix(vs, us)
    ensures ok ==> Nodes(one) == [NotStep(Nodes(us)).value.0] && Nodes(vs) == NotStep(Nodes(us)).value.1
    decreases us, 1
  {
    hide Cells, NodeOf, Nodes, Holds, Alone, Apart, NotStep;
    ghost var us1 := us[1..];
    CellsParts(us);
    NodesTail(us);
    HoldsApart(plan, us);
    HoldsHead(plan, us);
    next, rest := YankNode(plan, us);
    HoldsHead(next, First(us));
    one, vs := First(us), us1;
    ghost var t;
    AloneParts(us[0]);
    KindTells(us[0]);
    CellsOne(us[0]);
    if us[0].kind != KNot {
      NotStepPlain(Nodes(us));
    }
    assert allocated(Cells(us1));
    ok, t := NotsInside(next, us[0]);
    if !ok {
      return;
    }
    AloneParts(t);
    if next.kind == KNot {
      ghost var k := NotLevel(Nodes(us1));
      NotStepBang(Nodes(us), Nodes(us1), k);
      ok, next, rest, one, vs := Negate(next, rest, t, us1);
      if ok {
        NodesDrop(us1, k + 1);
      }
    } else {
      one := [t];
      AloneHeld(t);
    }
  }

  /** not_squish. */
  method SquishNots(plan: Cell?, ghost ts: seq<Tree>) returns (ok: bool, result: Cell?, ghost rs: seq<Tree>)
    requires Holds(plan, ts)
    modifies Cells(ts)
    ensures Became(ok, result, rs, NotSquish(Nodes(ts)), Cells(ts))
    decreases ts, 2
  {
    hide Cells, NodeOf, Nodes, Holds, Alone, Prepended, NotSquish, NotStep, IsSuffix;
    var tail: Cell? := null;
    var rest := plan;
    ghost var us := ts;
    ok, result, rs := true, null, [];
    NothingHeld();
    PrependedNothing(NotSquish(Nodes(ts)));
    SuffixWhole(ts);
    while rest != null
      invariant ok && Holds(rest, us) && Holds(result, rs) && Ends(rs, tail)
      invariant Cells(us) <= Cells(ts) && Cells(rs) <= Cells(ts) && Cells(us) !! Cells(rs)
      invariant IsSuffix(us, ts)
      invariant Prepended(Nodes(rs), NotSquish(Nodes(us))) == NotSquish(Nodes(ts))
      decreases |us|
    {
      HoldsHead(rest, us);
      ghost var us0 := us;
      var next;
      ghost var one;
      assert allocated(Cells(rs));
      PrependedFails(Nodes(rs));
      NotStepFirst(Nodes(us));
      SuffixSmaller(us, ts);
      ok, next, rest, one, us := NextNot(rest, us);
      if !ok {
        return;
      }
      HoldsHead(next, one);
      SuffixSuffix(us, us0, ts);
      assert allocated(Cells(us));
      PrependedTwice(Nodes(rs), Nodes(one), NotSquish(Nodes(us)));
      result, tail := Append(result, tail, next, rs, one);
      rs := rs + one;
    }
    HoldsHead(rest, us);
    NotSquishNothing();
    PrependedEmpty(Nodes(rs));
  }

  // ------------------------------------------------------------------- or_squish

  lemma OrFromNothing(gathered: seq<Node>)
    ensures OrFrom(Nodes([]), gathered) == Some(gathered)
  {
  }

  lemma OrFromStep(p: seq<Node>, gathered: seq<Node>)
    requires p != []
    ensures p[0].Or? ==> OrOperand(p[0]) == Some(p[0])
    ensures p[0].Or? ==> 
              var right := OrFrom(p[1..], []);
              OrFrom(p, gathered) ==
              if gathered == [] || right.None? || right.value == [] then None else Some([Or(gathered, right.value)])
    ensures !p[0].Or? ==>
              var n := OrOperand(p[0]);
              OrFrom(p, gathered) == if n.None? then None else OrFrom(p[1..], gathered + [n.value])
  {
  }

  /** or_squish on the subplan of a bracketed expression or of a `!`. */
  method OrsInside(next: Cell, ghost t: Tree) returns (ok: bool, ghost t': Tree)
    requires next == t.cell && Alone(t)
    modifies CellsT(t)
    ensures Inside(ok, t', t, OrOperand(NodeOf(t)))
    decreases t
  {
    hide Cells, Holds;
    ok, t' := true, t;
    if next.kind == KExpr || next.kind == KNot {
      var sub;
      ghost var ss;
      assert allocated(Cells(t.sub1));
      ok, sub, ss := SquishOrs(next.p0, t.sub0);
      if ok {
        SetFirst(next, sub, t, ss);
        t' := t.(sub0 := ss);
      }
    }
  }

  /** or_squish at an -o: the nodes so far and those behind it become its operands. */
  method Divide(next: Cell, result: Cell?, plan: Cell?, ghost t: Tree, ghost rs: seq<Tree>, ghost us: seq<Tree>)
    returns (ok: bool, ghost one: seq<Tree>)
    requires next == t.cell && Alone(t) && t.kind == KOr && Holds(result, rs) && Holds(plan, us)
    requires CellsT(t) !! Cells(rs) && CellsT(t) !! Cells(us) && Cells(rs) !! Cells(us)
    modifies next`p0, next`p1, Cells(us)
    ensures var right := OrFrom(Nodes(us), []);
            && (ok <==> rs != [] && right.Some? && right.value != [])
            && (ok ==> Holds(next, one) && Cells(one) <= {next} + Cells(rs) + Cells(us))
            && (ok ==> Nodes(one) == [Or(Nodes(rs), right.value)])
    decreases us, 3
  {
    hide Cells, NodeOf, Nodes, Holds, Alone, OrFrom;
    HoldsHead(result, rs);
    one := [];
    if result == null {
      return false, one;
    }
    AloneParts(t);
    assert allocated(Cells(us));
    SetFirst(next, result, t, rs);
    ghost var t1, ss := t.(sub0 := rs), [];
    var right;
    assert allocated(CellsT(t1));
    ok, right, ss := SquishOrs(plan, us);
    if !ok {
      return;
    }
    HoldsHead(right, ss);
    if right == null {
      return false, one;
    }
    SetSecond(next, right, t1, ss);
    one := [t1.(sub1 := ss)];
    AloneHeld(one[0]);
  }

  /** or_squish. */
  method SquishOrs(plan: Cell?, ghost ts: seq<Tree>) returns (ok: bool, result: Cell?, ghost rs: seq<Tree>)
    requires Holds(plan, ts)
    modifies Cells(ts)
    ensures Became(ok, result, rs, OrFrom(Nodes(ts), []), Cells(ts))
    decreases ts, 2
  {
    hide Cells, NodeOf, Nodes, Holds, Alone, OrFrom, OrOperand, IsSuffix;
    var tail: Cell? := null;
    var rest := plan;
    ghost var us := ts;
    ok, result, rs := true, null, [];
    NothingHeld();
    SuffixWhole(ts);
    while rest != null
      invariant ok && Holds(rest, us) && Holds(result, rs) && Ends(rs, tail)
      invariant Cells(us) <= Cells(ts) && Cells(rs) <= Cells(ts) && Cells(us) !! Cells(rs)
      invariant IsSuffix(us, ts)
      invariant OrFrom(Nodes(us), Nodes(rs)) == OrFrom(Nodes(ts), [])
      decreases |us|
    {
      HoldsHead(rest, us);
      HoldsApart(rest, us);
      CellsParts(us);
      CellsOne(us[0]);
      NodesTail(us);
      KindTells(us[0]);
      OrFromStep(Nodes(us), Nodes(rs));
      SuffixSmaller(us, ts);
      var next;
      ghost var t;
      assert allocated(Cells(rs)) && allocated(Cells(us[1..]));
      next, rest := YankNode(rest, us);
      HoldsHead(next, First(us));
      ok, t := OrsInside(next, us[0]);
      if !ok {
        return;
      }
      AloneParts(t);
      SuffixFirst(us, ts);
      us := us[1..];
      if next.kind == KOr {
        ok, rs := Divide(next, result, rest, t, rs, us);
        return ok, next, rs;
      }
      AloneHeld(t);
      result, tail := Append(result, tail, next, rs, [t]);
      rs := rs + [t];
    }
    HoldsHead(rest, us);
    OrFromNothing(Nodes(rs));
  }
}
