/** The expression language of find(1), as the OPERANDS section of the find
    utility in IEEE Std 1003.1 gives it, without any plan:

      E ::= T | T -o E      T ::= F | F T      F ::= ! F | primary | ( E )

    A primary has an effect when it runs, and its outcome may depend on every
    effect before it: a run is a log of the primaries run so far.
  */
module FindGrammar {

  datatype E = One(t: T) | OrElse(t: T, e: E)
  datatype T = Last(f: F) | And(f: F, t: T)
  datatype F = Bang(f: F) | Primary(id: nat) | Paren(e: E)

  /** A plan node: a token until the passes have run, an operator with its
      operands afterwards. */
  datatype Node =
    | Prim(id: nat)
    | Open
    | Close
    | Expr(sub: seq<Node>)
    | Not(arg: seq<Node>)
    | Or(left: seq<Node>, right: seq<Node>)

  const NOT := Not([])
  const OR := Or([], [])

  // ------------------------------------------------------------------ tokens

  ghost function TokE(e: E): seq<Node> {
    match e
    case One(t) => TokT(t)
    case OrElse(t, e') => TokT(t) + [OR] + TokE(e')
  }

  ghost function TokT(t: T): seq<Node> {
    match t
    case Last(f) => TokF(f)
    case And(f, t') => TokF(f) + TokT(t')
  }

  ghost function TokF(f: F): seq<Node> {
    match f
    case Bang(f') => [NOT] + TokF(f')
    case Primary(id) => [Prim(id)]
    case Paren(e) => [Open] + TokE(e) + [Close]
  }

  // --------------------------------------------------------------- semantics

  /** Whether a primary holds, given the log of what ran before it. */
  type Oracle = (nat, seq<nat>) -> bool

  /** A truth value and the log after computing it. */
  type Outcome = (bool, seq<nat>)

  function RunPrimary(o: Oracle, id: nat, log: seq<nat>): Outcome {
    (o(id, log), log + [id])
  }

  /** Short-circuit evaluation of the expression itself. */
  ghost function EvalE(o: Oracle, e: E, log: seq<nat>): Outcome {
    match e
    case One(t) => EvalT(o, t, log)
    case OrElse(t, e') =>
      var r := EvalT(o, t, log);
      if r.0 then r else EvalE(o, e', r.1)
  }

  ghost function EvalT(o: Oracle, t: T, log: seq<nat>): Outcome {
    match t
    case Last(f) => EvalF(o, f, log)
    case And(f, t') =>
      var r := EvalF(o, f, log);
      if r.0 then EvalT(o, t', r.1) else r
  }

  ghost function EvalF(o: Oracle, f: F, log: seq<nat>): Outcome {
    match f
    case Bang(f') => var r := EvalF(o, f', log); (!r.0, r.1)
    case Primary(id) => RunPrimary(o, id, log)
    case Paren(e) => EvalE(o, e, log)
  }

  // ---------------------------------------------------------- nesting depth

  ghost function Weight(n: Node): int {
    if n.Open? then 1 else if n.Close? then -1 else 0
  }

  ghost function Depth(ts: seq<Node>): int {
    if ts == [] then 0 else Depth(ts[..|ts| - 1]) + Weight(ts[|ts| - 1])
  }

  /** No prefix closes more brackets than it opened. */
  ghost predicate NeverNegative(ts: seq<Node>) {
    forall k :: 0 <= k <= |ts| ==> Depth(ts[..k]) >= 0
  }

  lemma {:induction false} DepthAppend(x: seq<Node>, y: seq<Node>)
    ensures Depth(x + y) == Depth(x) + Depth(y)
  {
    if y == [] {
      assert x + y == x;
    } else {
      DepthAppend(x, y[..|y| - 1]);
      assert (x + y)[..|x + y| - 1] == x + y[..|y| - 1];
    }
  }

  ghost predicate Balanced(ts: seq<Node>) {
    NeverNegative(ts) && Depth(ts) == 0
  }

  lemma BalancedAppend(x: seq<Node>, y: seq<Node>)
    requires Balanced(x) && Balanced(y)
    ensures Balanced(x + y)
  {
    DepthAppend(x, y);
    forall k | 0 <= k <= |x + y| ensures Depth((x + y)[..k]) >= 0 {
      if k <= |x| {
        assert (x + y)[..k] == x[..k];
      } else {
        assert (x + y)[..k] == x + y[..k - |x|];
        DepthAppend(x, y[..k - |x|]);
      }
    }
  }

  lemma BalancedOne(n: Node)
    requires Weight(n) == 0
    ensures Balanced([n])
  {
    forall k | 0 <= k <= 1 ensures Depth([n][..k]) >= 0 {
      assert [n][..k] == if k == 0 then [] else [n];
    }
  }

  lemma BalancedBrackets(x: seq<Node>)
    requires Balanced(x)
    ensures Balanced([Open] + x + [Close])
  {
    var ts := [Open] + x + [Close];
    DepthAppend([Open] + x, [Close]);
    DepthAppend([Open], x);
    forall k | 0 <= k <= |ts| ensures Depth(ts[..k]) >= 0 {
      if k == 0 {
        assert ts[..k] == [];
      } else if k < |ts| {
        assert ts[..k] == [Open] + x[..k - 1];
        DepthAppend([Open], x[..k - 1]);
      } else {
        assert ts[..k] == ts;
      }
    }
  }

  lemma {:induction false} BalancedE(e: E)
    ensures Balanced(TokE(e))
  {
    hide Balanced;
    match e
    case One(t) => BalancedT(t);
    case OrElse(t, e') =>
      BalancedT(t);
      BalancedE(e');
      BalancedOne(OR);
      BalancedAppend(TokT(t), [OR]);
      BalancedAppend(TokT(t) + [OR], TokE(e'));
  }

  lemma {:induction false} BalancedT(t: T)
    ensures Balanced(TokT(t))
  {
    hide Balanced;
    match t
    case Last(f) => BalancedF(f);
    case And(f, t') =>
      BalancedF(f);
      BalancedT(t');
      BalancedAppend(TokF(f), TokT(t'));
  }

  lemma {:induction false} BalancedF(f: F)
    ensures Balanced(TokF(f))
  {
    hide Balanced;
    match f
    case Bang(f') =>
      BalancedF(f');
      BalancedOne(NOT);
      BalancedAppend([NOT], TokF(f'));
    case Primary(id) => BalancedOne(Prim(id));
    case Paren(e) =>
      BalancedE(e);
      BalancedBrackets(TokE(e));
  }
}
