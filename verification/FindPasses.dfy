/** What the three passes of bsd_find/operator.c compute, on lists of nodes, and
    how the evaluators of bsd_find/function.c run the result.

    `None` stands for the passes' error exits.  Nodes after `paren_squish` hold
    no brackets, after `not_squish` every `Not` holds its operand, and after
    `or_squish` every `Or` holds both of its operands.
  */
module FindPasses {
  import opened FindGrammar
  import opened Wrappers

  // ------------------------------------------------------------ paren_squish

  /** One expression off the front of the list: the node and what is left. */
  datatype Yank = End | Fail | Got(node: Node, rest: seq<Node>)

  ghost function YankExpr(ts: seq<Node>): (y: Yank)
    ensures y.Got? ==> |y.rest| < |ts|
    ensures y.End? ==> ts == []
    decreases |ts|, 0
  {
    if ts == [] then End
    else if ts[0].Open? then Collect(ts[1..], [])
    else Got(ts[0], ts[1..])
  }

  /** The loop that gathers the operands of an open bracket. */
  ghost function Collect(ts: seq<Node>, sub: seq<Node>): (y: Yank)
    ensures y.Got? ==> |y.rest| < |ts|
    ensures !y.End?
    decreases |ts|, 1
  {
    match YankExpr(ts)
    case End => Fail
    case Fail => Fail
    case Got(n, rest) =>
      if !n.Close? then Collect(rest, sub + [n])
      else if sub == [] then Fail
      else Got(Expr(sub), rest)
  }

  ghost function ParenSquish(ts: seq<Node>): Option<seq<Node>>
    decreases |ts|
  {
    match YankExpr(ts)
    case End => Some([])
    case Fail => None
    case Got(n, rest) =>
      if n.Close? then None
      else match ParenSquish(rest)
        case None => None
        case Some(p) => Some([n] + p)
  }

  // -------------------------------------------------------------- not_squish

  /** How many nodes at the front are `!`. */
  ghost function NotLevel(p: seq<Node>): (k: nat)
    ensures k <= |p| && (forall i :: 0 <= i < k ==> p[i].Not?) && (k < |p| ==> !p[k].Not?)
  {
    if p != [] && p[0].Not? then 1 + NotLevel(p[1..]) else 0
  }

  ghost function NotSquish(p: seq<Node>): (r: Option<seq<Node>>)
    decreases p
  {
    if p == [] then Some([])
    else
      var k := NotLevel(p);
      if k == |p| || (k > 0 && p[k].Or?) then None
      else match NotOperand(p[k])
        case None => None
        case Some(n) =>
          match NotSquish(p[k + 1..])
          case None => None
          case Some(q) => Some([if k % 2 == 1 then Not([n]) else n] + q)
  }

  /** A node with the `!`s inside its brackets squished. */
  ghost function NotOperand(n: Node): Option<Node>
    decreases n
  {
    match n
    case Expr(sub) =>
      (match NotSquish(sub)
       case None => None
       case Some(q) => Some(Expr(q)))
    case _ => Some(n)
  }

  // --------------------------------------------------------------- or_squish

  /** The loop of `or_squish`, with the nodes gathered so far. */
  ghost function OrFrom(p: seq<Node>, gathered: seq<Node>): Option<seq<Node>>
    decreases p
  {
    if p == [] then Some(gathered)
    else if p[0].Or? then
      if gathered == [] then None
      else match OrFrom(p[1..], [])
        case None => None
        case Some(right) => if right == [] then None else Some([Or(gathered, right)])
    else match OrOperand(p[0])
      case None => None
      case Some(n) => OrFrom(p[1..], gathered + [n])
  }

  ghost function OrOperand(n: Node): Option<Node>
    decreases n
  {
    match n
    case Expr(sub) =>
      (match OrFrom(sub, [])
       case None => None
       case Some(q) => Some(Expr(q)))
    case Not(arg) =>
      (match OrFrom(arg, [])
       case None => None
       case Some(q) => Some(Not(q)))
    case _ => Some(n)
  }

  /** The passes in the order `find_formplan` applies them. */
  ghost function Passes(ts: seq<Node>): Option<seq<Node>> {
    match ParenSquish(ts)
    case None => None
    case Some(p) =>
      match NotSquish(p)
      case None => None
      case Some(q) => OrFrom(q, [])
  }

  // -------------------------------------------------------------- evaluators

  /** The loop all evaluators share: nodes run while they are true; the state is
      that of the last one run, and false if there was none. */
  ghost function RunList(o: Oracle, p: seq<Node>, log: seq<nat>): Outcome
    decreases p
  {
    if p == [] then (false, log)
    else
      var r := RunNode(o, p[0], log);
      if r.0 && p[1..] != [] then RunList(o, p[1..], r.1) else r
  }

  /** The `execute` function of a node. */
  ghost function RunNode(o: Oracle, n: Node, log: seq<nat>): Outcome
    decreases n
  {
    match n
    case Prim(id) => RunPrimary(o, id, log)
    case Expr(sub) => RunList(o, sub, log)
    case Not(arg) => var r := RunList(o, arg, log); (!r.0, r.1)
    case Or(left, right) =>
      var r := RunList(o, left, log);
      if r.0 then r else RunList(o, right, r.1)
    case _ => (false, log)
  }

  // ------------------------------------------- the passes on a parsed expression

  /** After `paren_squish`. */
  ghost function ParenE(e: E): (p: seq<Node>)
    ensures p != []
  {
    match e
    case One(t) => ParenT(t)
    case OrElse(t, e') => ParenT(t) + [OR] + ParenE(e')
  }

  ghost function ParenT(t: T): (p: seq<Node>)
    ensures p != []
  {
    match t
    case Last(f) => ParenF(f)
    case And(f, t') => ParenF(f) + ParenT(t')
  }

  ghost function ParenF(f: F): (p: seq<Node>)
    ensures p != []
  {
    match f
    case Bang(f') => [NOT] + ParenF(f')
    case Primary(id) => [Prim(id)]
    case Paren(e) => [Expr(ParenE(e))]
  }

  /** After `not_squish`: one node for each factor. */
  ghost function NotE(e: E): (p: seq<Node>)
    ensures p != []
    decreases e, 1
  {
    match e
    case One(t) => NotT(t)
    case OrElse(t, e') => NotT(t) + [OR] + NotE(e')
  }

  ghost function NotT(t: T): (p: seq<Node>)
    ensures p != []
    decreases t, 1
  {
    match t
    case Last(f) => [NotF(f)]
    case And(f, t') => [NotF(f)] + NotT(t')
  }

  ghost function NotF(f: F): Node
    decreases f, 1
  {
    var n := Core(f);
    if Bangs(f) % 2 == 1 then Not([n]) else n
  }

  ghost function Bangs(f: F): nat {
    if f.Bang? then 1 + Bangs(f.f) else 0
  }

  ghost function Core(f: F): (n: Node)
    ensures n.Prim? || n.Expr?
    decreases f, 0
  {
    match f
    case Bang(f') => Core(f')
    case Primary(id) => Prim(id)
    case Paren(e) => Expr(NotE(e))
  }

  /** After `or_squish`. */
  ghost function PlanE(e: E): (p: seq<Node>)
    ensures p != []
    decreases e, 1
  {
    match e
    case One(t) => PlanT(t)
    case OrElse(t, e') => [Or(PlanT(t), PlanE(e'))]
  }

  ghost function PlanT(t: T): (p: seq<Node>)
    ensures p != []
    decreases t, 1
  {
    match t
    case Last(f) => [PlanF(f)]
    case And(f, t') => [PlanF(f)] + PlanT(t')
  }

  ghost function PlanF(f: F): Node
    decreases f, 1
  {
    var n := PlanCore(f);
    if Bangs(f) % 2 == 1 then Not([n]) else n
  }

  ghost function PlanCore(f: F): (n: Node)
    ensures n.Prim? || n.Expr?
    decreases f, 0
  {
    match f
    case Bang(f') => PlanCore(f')
    case Primary(id) => Prim(id)
    case Paren(e) => Expr(PlanE(e))
  }

  // ------------------------------------------------------- first pass, forward

  /** Squishing the tokens of an expression, whatever follows them. */
  lemma {:induction false} CollectE(e: E, rest: seq<Node>, sub: seq<Node>)
    ensures Collect(TokE(e) + rest, sub) == Collect(rest, sub + ParenE(e))
    decreases e, 0
  {
    match e
    case One(t) => CollectT(t, rest, sub);
    case OrElse(t, e') =>
      assert TokE(e) + rest == TokT(t) + ([OR] + (TokE(e') + rest));
      CollectT(t, [OR] + (TokE(e') + rest), sub);
      CollectToken(OR, TokE(e') + rest, sub + ParenT(t));
      CollectE(e', rest, sub + ParenT(t) + [OR]);
      assert sub + ParenT(t) + [OR] + ParenE(e') == sub + ParenE(e);
  }

  lemma CollectToken(n: Node, rest: seq<Node>, sub: seq<Node>)
    requires !n.Open? && !n.Close?
    ensures Collect([n] + rest, sub) == Collect(rest, sub + [n])
  {
    assert ([n] + rest)[1..] == rest;
  }

  lemma {:induction false} CollectT(t: T, rest: seq<Node>, sub: seq<Node>)
    ensures Collect(TokT(t) + rest, sub) == Collect(rest, sub + ParenT(t))
    decreases t, 0
  {
    match t
    case Last(f) => CollectF(f, rest, sub);
    case And(f, t') =>
      assert TokT(t) + rest == TokF(f) + (TokT(t') + rest);
      CollectF(f, TokT(t') + rest, sub);
      CollectT(t', rest, sub + ParenF(f));
      assert sub + ParenF(f) + ParenT(t') == sub + ParenT(t);
  }

  lemma {:induction false} CollectF(f: F, rest: seq<Node>, sub: seq<Node>)
    ensures Collect(TokF(f) + rest, sub) == Collect(rest, sub + ParenF(f))
    decreases f, 0
  {
    match f
    case Bang(f') =>
      assert TokF(f) + rest == [NOT] + (TokF(f') + rest);
      CollectToken(NOT, TokF(f') + rest, sub);
      CollectF(f', rest, sub + [NOT]);
      assert sub + [NOT] + ParenF(f') == sub + ParenF(f);
    case Primary(id) => CollectToken(Prim(id), rest, sub);
    case Paren(e) => YankParen(e, rest);
  }

  lemma {:induction false} YankParen(e: E, rest: seq<Node>)
    ensures YankExpr(TokF(Paren(e)) + rest) == Got(Expr(ParenE(e)), rest)
    decreases e, 1
  {
    var ts := TokF(Paren(e)) + rest;
    assert ts[1..] == TokE(e) + ([Close] + rest);
    CollectE(e, [Close] + rest, []);
    assert [] + ParenE(e) == ParenE(e);
    assert ([Close] + rest)[1..] == rest;
  }

  ghost function Prepended(p: seq<Node>, r: Option<seq<Node>>): Option<seq<Node>> {
    if r.None? then None else Some(p + r.value)
  }

  lemma PrependedTwice(x: seq<Node>, y: seq<Node>, r: Option<seq<Node>>)
    ensures Prepended(x, Prepended(y, r)) == Prepended(x + y, r)
  {
    if r.Some? {
      assert x + (y + r.value) == x + y + r.value;
    }
  }

  lemma SquishToken(n: Node, rest: seq<Node>)
    requires !n.Open? && !n.Close?
    ensures ParenSquish([n] + rest) == Prepended([n], ParenSquish(rest))
  {
    assert ([n] + rest)[1..] == rest;
  }

  lemma {:induction false} SquishE(e: E, rest: seq<Node>)
    ensures ParenSquish(TokE(e) + rest) == Prepended(ParenE(e), ParenSquish(rest))
  {
    hide Prepended;
    match e
    case One(t) => SquishT(t, rest);
    case OrElse(t, e') =>
      assert TokE(e) + rest == TokT(t) + ([OR] + (TokE(e') + rest));
      SquishT(t, [OR] + (TokE(e') + rest));
      SquishToken(OR, TokE(e') + rest);
      SquishE(e', rest);
      PrependedTwice([OR], ParenE(e'), ParenSquish(rest));
      PrependedTwice(ParenT(t), [OR] + ParenE(e'), ParenSquish(rest));
      assert ParenT(t) + ([OR] + ParenE(e')) == ParenE(e);
  }

  lemma {:induction false} SquishT(t: T, rest: seq<Node>)
    ensures ParenSquish(TokT(t) + rest) == Prepended(ParenT(t), ParenSquish(rest))
  {
    hide Prepended;
    match t
    case Last(f) => SquishF(f, rest);
    case And(f, t') =>
      assert TokT(t) + rest == TokF(f) + (TokT(t') + rest);
      SquishF(f, TokT(t') + rest);
      SquishT(t', rest);
      PrependedTwice(ParenF(f), ParenT(t'), ParenSquish(rest));
  }

  lemma {:induction false} SquishF(f: F, rest: seq<Node>)
    ensures ParenSquish(TokF(f) + rest) == Prepended(ParenF(f), ParenSquish(rest))
  {
    match f
    case Bang(f') =>
      assert TokF(f) + rest == [NOT] + (TokF(f') + rest);
      SquishToken(NOT, TokF(f') + rest);
      SquishF(f', rest);
      PrependedTwice([NOT], ParenF(f'), ParenSquish(rest));
    case Primary(id) => SquishToken(Prim(id), rest);
    case Paren(e) => YankParen(e, rest);
  }

  // ------------------------------------------------------ second pass, forward

  /** The operand at the end of a factor's `!`s, before the second pass. */
  ghost function ParenCore(f: F): Node {
    match f
    case Bang(f') => ParenCore(f')
    case Primary(id) => Prim(id)
    case Paren(e) => Expr(ParenE(e))
  }

  lemma {:induction false} FactorShape(f: F, rest: seq<Node>)
    ensures var p := ParenF(f) + rest;
            && NotLevel(p) == Bangs(f) < |p| && p[Bangs(f)] == ParenCore(f) && p[Bangs(f) + 1..] == rest
  {
    var p := ParenF(f) + rest;
    match f
    case Bang(f') =>
      FactorShape(f', rest);
      assert p[1..] == ParenF(f') + rest;
      assert p[Bangs(f) + 1..] == p[1..][Bangs(f') + 1..];
    case _ =>
  }

  lemma {:induction false} NotSquishF(f: F, rest: seq<Node>)
    ensures NotSquish(ParenF(f) + rest) == Prepended([NotF(f)], NotSquish(rest))
    decreases f, 1
  {
    FactorShape(f, rest);
    NotOperandF(f);
  }

  lemma {:induction false} NotOperandF(f: F)
    ensures NotOperand(ParenCore(f)) == Some(Core(f))
    decreases f, 0
  {
    match f
    case Bang(f') => NotOperandF(f');
    case Primary(id) =>
    case Paren(e) =>
      NotSquishE(e, []);
      assert ParenE(e) + [] == ParenE(e) && NotE(e) + [] == NotE(e);
  }

  lemma {:induction false} NotSquishT(t: T, rest: seq<Node>)
    ensures NotSquish(ParenT(t) + rest) == Prepended(NotT(t), NotSquish(rest))
    decreases t, 1
  {
    hide Prepended, NotSquish;
    match t
    case Last(f) => NotSquishF(f, rest);
    case And(f, t') =>
      assert ParenT(t) + rest == ParenF(f) + (ParenT(t') + rest);
      NotSquishF(f, ParenT(t') + rest);
      NotSquishT(t', rest);
      PrependedTwice([NotF(f)], NotT(t'), NotSquish(rest));
  }

  lemma NotSquishOr(rest: seq<Node>)
    ensures NotSquish([OR] + rest) == Prepended([OR], NotSquish(rest))
  {
    assert ([OR] + rest)[1..] == rest;
  }

  lemma {:induction false} NotSquishE(e: E, rest: seq<Node>)
    ensures NotSquish(ParenE(e) + rest) == Prepended(NotE(e), NotSquish(rest))
    decreases e, 1
  {
    hide Prepended, NotSquish;
    match e
    case One(t) => NotSquishT(t, rest);
    case OrElse(t, e') =>
      assert ParenE(e) + rest == ParenT(t) + ([OR] + (ParenE(e') + rest));
      NotSquishT(t, [OR] + (ParenE(e') + rest));
      NotSquishOr(ParenE(e') + rest);
      NotSquishE(e', rest);
      PrependedTwice([OR], NotE(e'), NotSquish(rest));
      PrependedTwice(NotT(t), [OR] + NotE(e'), NotSquish(rest));
      assert NotT(t) + ([OR] + NotE(e')) == NotE(e);
  }

  // ------------------------------------------------------- third pass, forward

  lemma {:induction false} OrOperandF(f: F)
    ensures OrOperand(NotF(f)) == Some(PlanF(f))
    decreases f, 1
  {
    OrOperandCore(f);
    var n := Core(f);
    assert OrFrom([n], []) == Some([PlanCore(f)]) by {
      assert [n][1..] == [] && [] + [PlanCore(f)] == [PlanCore(f)];
    }
  }

  lemma {:induction false} OrOperandCore(f: F)
    ensures OrOperand(Core(f)) == Some(PlanCore(f))
    decreases f, 0
  {
    match f
    case Bang(f') => OrOperandCore(f');
    case Primary(id) =>
    case Paren(e) => OrFromE(e);
  }

  lemma OrNode(n: Node, n': Node, rest: seq<Node>, gathered: seq<Node>)
    requires !n.Or? && OrOperand(n) == Some(n')
    ensures OrFrom([n] + rest, gathered) == OrFrom(rest, gathered + [n'])
  {
    assert ([n] + rest)[1..] == rest;
  }

  lemma {:induction false} OrFromT(t: T, rest: seq<Node>, gathered: seq<Node>)
    ensures OrFrom(NotT(t) + rest, gathered) == OrFrom(rest, gathered + PlanT(t))
    decreases t, 1
  {
    hide OrFrom;
    OrOperandF(t.f);
    match t
    case Last(f) => OrNode(NotF(f), PlanF(f), rest, gathered);
    case And(f, t') =>
      assert NotT(t) + rest == [NotF(f)] + (NotT(t') + rest);
      OrNode(NotF(f), PlanF(f), NotT(t') + rest, gathered);
      OrFromT(t', rest, gathered + [PlanF(f)]);
      assert gathered + [PlanF(f)] + PlanT(t') == gathered + PlanT(t);
  }

  lemma {:induction false} OrFromE(e: E)
    ensures OrFrom(NotE(e), []) == Some(PlanE(e))
    decreases e, 1
  {
    OrFromT(e.t, [], []);
    assert [] + PlanT(e.t) == PlanT(e.t) && NotT(e.t) + [] == NotT(e.t);
    if e.OrElse? {
      var rest := [OR] + NotE(e.e);
      OrFromT(e.t, rest, []);
      assert NotE(e) == NotT(e.t) + rest && rest[1..] == NotE(e.e);
      OrFromE(e.e);
    }
  }

  /** On the tokens of an expression the passes succeed, with its plan. */
  lemma PassesE(e: E)
    ensures Passes(TokE(e)) == Some(PlanE(e))
  {
    SquishE(e, []);
    NotSquishE(e, []);
    OrFromE(e);
    assert TokE(e) + [] == TokE(e) && ParenE(e) + [] == ParenE(e) && NotE(e) + [] == NotE(e);
  }

  // ------------------------------------------------------------------ meaning

  lemma {:induction false} RunE(o: Oracle, e: E, log: seq<nat>)
    ensures RunList(o, PlanE(e), log) == EvalE(o, e, log)
    decreases e, 1
  {
    RunT(o, e.t, log);
    if e.OrElse? {
      var r := RunList(o, PlanT(e.t), log);
      RunE(o, e.e, r.1);
      assert PlanE(e)[1..] == [];
    }
  }

  lemma {:induction false} RunT(o: Oracle, t: T, log: seq<nat>)
    ensures RunList(o, PlanT(t), log) == EvalT(o, t, log)
    decreases t, 1
  {
    RunF(o, t.f, log);
    if t.And? {
      RunT(o, t.t, RunNode(o, PlanF(t.f), log).1);
      assert PlanT(t)[1..] == PlanT(t.t);
    } else {
      assert PlanT(t)[1..] == [];
    }
  }

  lemma {:induction false} RunF(o: Oracle, f: F, log: seq<nat>)
    ensures RunNode(o, PlanF(f), log) == EvalF(o, f, log)
    decreases f, 1
  {
    RunCore(o, f, log);
    assert [PlanCore(f)][1..] == [];
  }

  /** Dropping pairs of `!` does not change what a factor means. */
  lemma {:induction false} RunCore(o: Oracle, f: F, log: seq<nat>)
    ensures var r := RunNode(o, PlanCore(f), log);
            EvalF(o, f, log) == if Bangs(f) % 2 == 1 then (!r.0, r.1) else r
    decreases f, 0
  {
    match f
    case Bang(f') => RunCore(o, f', log);
    case Primary(id) =>
    case Paren(e) => RunE(o, e, log);
  }

  /** The plan of an expression has its truth value and runs its primaries in
      its order. */
  lemma PassesPreserveMeaning(o: Oracle, e: E, log: seq<nat>)
    ensures Passes(TokE(e)).Some? && RunList(o, Passes(TokE(e)).value, log) == EvalE(o, e, log)
  {
    PassesE(e);
    RunE(o, e, log);
  }
}
