/** find(1) from its command line to a file: `find_formplan` and the plan loop of
    `find_execute` in bsd_find/find.c, and the evaluators `f_expr`, `f_not`, `f_or` of
    bsd_find/function.c, on linked nodes.

    The error exits (`errx`) return a flag.
  */
module FindPlan {
  import opened FindCells
  import opened FindGrammar
  import opened FindHeap
  import opened FindPasses
  import opened FindSound
  import opened Wrappers

  // ------------------------------------------------------------ find_formplan

  /** No word makes a bracketed expression. */
  type WordKind = k: Kind | !k.KExpr? witness KOpen

  /** A command-line word: `-a`, for which no node is made, or anything else,
      with whether making its node sets `isoutput`. */
  datatype Arg = AndOperator | Word(kind: WordKind, output: bool)

  ghost function TokensOf(args: seq<Arg>): seq<Node> {
    if args == [] then []
    else TokensOf(args[..|args| - 1]) + if args[|args| - 1].Word? then [Token(args[|args| - 1].kind)] else []
  }

  /** The tokens of the words one after the other; -a is none. */
  lemma {:induction false} TokensInOrder(x: seq<Arg>, y: seq<Arg>, k: WordKind, output: bool)
    ensures TokensOf(x + y) == TokensOf(x) + TokensOf(y)
    ensures TokensOf([AndOperator]) == [] && TokensOf([Word(k, output)]) == [Token(k)]
  {
    hide Token;
    OneToken(k, output);
    if y == [] {
      assert x + y == x;
    } else {
      var n := |y| - 1;
      TokensInOrder(x, y[..n], k, output);
      TokensLast(x + y);
      TokensLast(y);
      hide TokensOf;
      assert (x + y)[..|x + y| - 1] == x + y[..n] && (x + y)[|x + y| - 1] == y[n];
    }
  }

  lemma TokensLast(args: seq<Arg>)
    requires args != []
    ensures var n := |args| - 1;
            TokensOf(args) == TokensOf(args[..n]) + if args[n].Word? then [Token(args[n].kind)] else []
  {
  }

  lemma OneToken(k: WordKind, output: bool)
    ensures TokensOf([AndOperator]) == [] && TokensOf([Word(k, output)]) == [Token(k)]
  {
    assert [AndOperator][..0] == [] && [Word(k, output)][..0] == [];
  }

  ghost predicate HasOutput(args: seq<Arg>) {
    exists i :: 0 <= i < |args| && args[i].Word? && args[i].output
  }

  /** Without an output primary the expression is bracketed and followed by
      -print. */
  ghost function WithPrint(ts: seq<Node>, output: bool, printId: nat): seq<Node> {
    if output then ts
    else if ts == [] then [Prim(printId)]
    else [Open] + ts + [Close, Prim(printId)]
  }

  lemma OneMoreArg(args: seq<Arg>, i: nat)
    requires i < |args|
    ensures TokensOf(args[..i + 1]) == TokensOf(args[..i]) + if args[i].Word? then [Token(args[i].kind)] else []
    ensures HasOutput(args[..i + 1]) <==> HasOutput(args[..i]) || (args[i].Word? && args[i].output)
  {
    assert args[..i + 1][..i] == args[..i];
    assert forall k :: 0 <= k < i ==> args[..i + 1][k] == args[..i][k];
    assert args[..i + 1][i] == args[i];
  }

  /** The loop of `find_formplan` over the command line. */
  method NodesOfArgs(args: seq<Arg>)
    returns (plan: Cell?, tail: Cell?, isoutput: bool, ghost ps: seq<Tree>)
    ensures Holds(plan, ps) && Ends(ps, tail) && fresh(Cells(ps))
    ensures Nodes(ps) == TokensOf(args) && isoutput == HasOutput(args)
  {
    hide Cells, Holds, Nodes, TokensOf, HasOutput, Token;
    plan, tail, isoutput, ps := null, null, false, [];
    NothingHeld();
    NoArgs();
    for i := 0 to |args|
      invariant Holds(plan, ps) && Ends(ps, tail) && fresh(Cells(ps))
      invariant Nodes(ps) == TokensOf(args[..i]) && isoutput == HasOutput(args[..i])
    {
      OneMoreArg(args, i);
      match args[i]
      case AndOperator =>
      case Word(k, output) =>
        plan, tail, ps := AddNode(plan, tail, k, ps);
        if output {
          isoutput := true;
        }
    }
    assert args[..|args|] == args;
  }

  lemma NoArgs()
    ensures TokensOf([]) == [] && !HasOutput([])
  {
  }

  /** `find_formplan`. */
  method FormPlan(args: seq<Arg>, printId: nat) returns (ok: bool, plan: Cell?, ghost ps: seq<Tree>)
    ensures Became(ok, plan, ps, Passes(WithPrint(TokensOf(args), HasOutput(args), printId)), Cells(ps))
  {
    hide Cells, Holds, Nodes, TokensOf, HasOutput, Passes;
    var tail, isoutput;
    plan, tail, isoutput, ps := NodesOfArgs(args);
    if !isoutput {
      HoldsHead(plan, ps);
      if plan == null {
        plan, tail, ps := AddNode(plan, tail, KPrim(printId), ps);
      } else {
        plan, ps := PutFirst(plan, KOpen, ps);
        plan, tail, ps := AddNode(plan, tail, KClose, ps);
        plan, tail, ps := AddNode(plan, tail, KPrim(printId), ps);
      }
    }
    assert Nodes(ps) == WithPrint(TokensOf(args), HasOutput(args), printId);
    ok, plan, ps := Squish(plan, ps);
  }

  /** The three passes. */
  method Squish(plan: Cell?, ghost ts: seq<Tree>) returns (ok: bool, plan': Cell?, ghost ps: seq<Tree>)
    requires Holds(plan, ts)
    modifies Cells(ts)
    ensures Became(ok, plan', ps, Passes(Nodes(ts)), Cells(ts))
  {
    hide Cells, Holds, Nodes, ParenSquish, NotSquish, OrFrom;
    ok, plan', ps := SquishParens(plan, ts);
    if ok {
      ok, plan', ps := SquishNots(plan', ps);
    }
    if ok {
      ok, plan', ps := SquishOrs(plan', ps);
    }
  }

  /** With nothing but output primaries missing, the plan runs the expression and
      then -print exactly if the expression was true. */
  lemma ImplicitPrint(o: Oracle, e: E, printId: nat, log: seq<nat>)
    ensures var (p, r) := (Passes(WithPrint(TokE(e), false, printId)), EvalE(o, e, log));
            p.Some? && RunList(o, p.value, log) == if r.0 then RunPrimary(o, printId, r.1) else r
  {
    var e' := One(And(Paren(e), Last(Primary(printId))));
    PassesPreserveMeaning(o, e', log);
    PassesE(e);
    TokensNonEmpty(e);
    var t := Last(Primary(printId));
    assert TokT(t) == TokF(t.f) == [Prim(printId)];
    assert TokE(e') == TokT(e'.t) == TokF(Paren(e)) + TokT(t);
    assert TokE(e') == WithPrint(TokE(e), false, printId);
    var r := EvalE(o, e, log);
    assert EvalF(o, Paren(e), log) == r;
    assert EvalT(o, t, r.1) == EvalF(o, t.f, r.1) == RunPrimary(o, printId, r.1);
    assert EvalE(o, e', log) == EvalT(o, e'.t, log);
  }

  lemma OnePrimary(a: nat)
    ensures TokF(Paren(One(Last(Primary(a))))) == [Open, Prim(a), Close]
  {
    var e := One(Last(Primary(a)));
    assert TokE(e) == TokT(e.t) == TokF(e.t.f) == [Prim(a)];
  }

  lemma TokensNonEmpty(e: E)
    ensures TokE(e) != []
  {
    FlatE(e);
    var p := ParenE(e);
    assert p == p[..|p| - 1] + [p[|p| - 1]];
    FlatSnoc(p[..|p| - 1], p[|p| - 1]);
  }

  /** The added brackets can also close what the user left open: a list that is
      not an expression is accepted if it closes before it opens. */
  lemma UnbalancedAccepted(a: nat, b: nat, printId: nat)
    ensures var ts := [Prim(a), Close, Open, Prim(b)];
            !InGrammar(ts) && Passes(WithPrint(ts, false, printId)).Some?
  {
    var ts := [Prim(a), Close, Open, Prim(b)];
    var e := One(And(Paren(One(Last(Primary(a)))), And(Paren(One(Last(Primary(b)))), Last(Primary(printId)))));
    PassesE(e);
    OnePrimary(a);
    OnePrimary(b);
    var t := e.t.t;
    assert TokT(t.t) == TokF(t.t.f) == [Prim(printId)];
    assert TokE(e) == TokT(e.t) == TokF(e.t.f) + TokT(t) && TokT(t) == TokF(t.f) + TokT(t.t);
    assert TokE(e) == WithPrint(ts, false, printId);
    forall e' ensures TokE(e') != ts {
      BalancedE(e');
      assert ts[..2] == [Prim(a), Close];
      DepthAppend([Prim(a)], [Close]);
      assert [Prim(a)] + [Close] == [Prim(a), Close];
    }
  }

  /** A factor that begins with an open bracket is a bracketed expression. */
  lemma LeadingBracket(e: E, rest: seq<Node>) returns (inner: E, more: seq<Node>)
    requires TokE(e) == [Open] + rest
    ensures rest == TokE(inner) + [Close] + more
  {
    var f := e.t.f;
    more := if e.t.And? then TokT(e.t.t) else [];
    if e.OrElse? {
      more := more + [OR] + TokE(e.e);
    }
    assert TokE(e) == TokF(f) + more;
    FactorTokens(f);
    assert TokF(f)[0] == (TokF(f) + more)[0] == ([Open] + rest)[0];
    inner := f.e;
    assert ([Open] + TokE(inner) + [Close] + more)[1..] == TokE(inner) + [Close] + more;
    assert ([Open] + rest)[1..] == rest;
  }

  lemma FactorTokens(f: F)
    ensures TokF(f) != [] && (TokF(f)[0] == Open ==> f.Paren?)
  {
  }

  lemma ClosesTooMuch(ts: seq<Node>, x: seq<Node>, end: seq<Node>, more: seq<Node>)
    requires Balanced(x) && |x| < |ts| && ts + end == x + [Close] + more
    ensures !NeverNegative(ts)
  {
    assert (ts + end)[..|x| + 1] == ts[..|x| + 1];
    assert (x + [Close] + more)[..|x| + 1] == x + [Close];
    DepthAppend(x, [Close]);
    assert [Close][..0] == [];
  }

  /** When no prefix of the user's tokens closes more than it opened, the added
      brackets match each other. */
  lemma BracketsMatch(ts: seq<Node>, printId: nat, inner: E, more: seq<Node>)
    requires NeverNegative(ts) && ts + [Close, Prim(printId)] == TokE(inner) + [Close] + more
    ensures TokE(inner) == ts
  {
    var x, whole := TokE(inner), ts + [Close, Prim(printId)];
    BalancedE(inner);
    hide NeverNegative;
    if |x| < |ts| {
      ClosesTooMuch(ts, x, [Close, Prim(printId)], more);
      assert false;
    }
    assert whole[|x|] == Close;
    assert |x| <= |whole| - 1 && whole[|whole| - 1] == Prim(printId);
    assert x == whole[..|x|] && ts == whole[..|ts|];
  }

  /** Exactly when `find_formplan` accepts an expression without an output
      primary: if no prefix of it closes more brackets than it opens, just the
      expressions of the grammar are accepted. */
  lemma AcceptedExactly(ts: seq<Node>, printId: nat)
    requires Raw(ts) && ts != [] && NeverNegative(ts)
    ensures Passes(WithPrint(ts, false, printId)).Some? <==> InGrammar(ts)
  {
    var all := WithPrint(ts, false, printId);
    PassesExactlyGrammar(all);
    if InGrammar(all) {
      var e :| TokE(e) == all;
      var rest := ts + [Close, Prim(printId)];
      assert all == [Open] + rest;
      var inner, more := LeadingBracket(e, rest);
      BracketsMatch(ts, printId, inner, more);
    }
    if InGrammar(ts) {
      var e :| TokE(e) == ts;
      ImplicitPrint((x, y) => true, e, printId, []);
    }
  }

  /** A list that does close too much is never an expression. */
  lemma NegativeRejected(ts: seq<Node>)
    requires InGrammar(ts)
    ensures NeverNegative(ts)
  {
    var e :| TokE(e) == ts;
    BalancedE(e);
  }

  // ----------------------------------------- a trailing primary comes and goes

  ghost function AndThen(t: T, f: F): T {
    match t
    case Last(g) => And(g, Last(f))
    case And(g, t') => And(g, AndThen(t', f))
  }

  lemma {:induction false} AndThenTokens(t: T, f: F)
    ensures TokT(AndThen(t, f)) == TokT(t) + TokF(f)
  {
    if t.And? {
      AndThenTokens(t.t, f);
    }
  }

  /** An expression with a primary behind its last term. */
  ghost function Printed(e: E, p: nat): E {
    match e
    case One(t) => One(AndThen(t, Primary(p)))
    case OrElse(t, rest) => OrElse(t, Printed(rest, p))
  }

  lemma {:induction false} PrintedTokens(e: E, p: nat)
    ensures TokE(Printed(e, p)) == TokE(e) + [Prim(p)]
  {
    AndThenTokens(e.t, Primary(p));
    if e.OrElse? {
      PrintedTokens(e.e, p);
    }
  }

  lemma {:induction false} AndThenEval(o: Oracle, t: T, f: F, log: seq<nat>)
    ensures EvalT(o, AndThen(t, f), log) == var r := EvalT(o, t, log); if r.0 then EvalF(o, f, r.1) else r
  {
    if t.And? {
      AndThenEval(o, t.t, f, EvalF(o, t.f, log).1);
    }
  }

  /** A primary behind an expression belongs to the last alternative: it runs if the others
      were false and that one was true. */
  ghost function PrintLast(o: Oracle, e: E, p: nat, log: seq<nat>): Outcome {
    var r := EvalT(o, e.t, log);
    if e.One? then (if r.0 then RunPrimary(o, p, r.1) else r)
    else if r.0 then r
    else PrintLast(o, e.e, p, r.1)
  }

  lemma {:induction false} PrintedEval(o: Oracle, e: E, p: nat, log: seq<nat>)
    ensures EvalE(o, Printed(e, p), log) == PrintLast(o, e, p, log)
  {
    if e.One? {
      AndThenEval(o, e.t, Primary(p), log);
    } else {
      PrintedEval(o, e.e, p, EvalT(o, e.t, log).1);
    }
  }

  // ------------------------------------------- when that is behind all of it

  /** The expression, and then the primary exactly if the expression was true. */
  ghost function ThenPrint(o: Oracle, e: E, p: nat, log: seq<nat>): Outcome {
    var r := EvalE(o, e, log);
    if r.0 then RunPrimary(o, p, r.1) else r
  }

  /** An oracle that gives its answers in order. */
  ghost function Answers(bits: seq<bool>): Oracle {
    (id, log) => |log| < |bits| && bits[|log|]
  }

  /** Whatever an expression is, there are answers that make it true and answers that make
      it false; later ones do not matter. */
  ghost predicate Settles(e: E, log: seq<nat>, want: bool, bits: seq<bool>, log': seq<nat>) {
    |log'| == |bits| && forall b :: bits <= b ==> EvalE(Answers(b), e, log) == (want, log')
  }

  ghost predicate SettlesT(t: T, log: seq<nat>, want: bool, bits: seq<bool>, log': seq<nat>) {
    |log'| == |bits| && forall b :: bits <= b ==> EvalT(Answers(b), t, log) == (want, log')
  }

  ghost predicate SettlesF(f: F, log: seq<nat>, want: bool, bits: seq<bool>, log': seq<nat>) {
    |log'| == |bits| && forall b :: bits <= b ==> EvalF(Answers(b), f, log) == (want, log')
  }

  lemma {:induction false} CanBe(e: E, log: seq<nat>, want: bool, bits: seq<bool>) returns (bits': seq<bool>, log': seq<nat>)
    requires |log| == |bits|
    ensures bits <= bits' && Settles(e, log, want, bits', log')
    decreases e
  {
    if e.One? || want {
      bits', log' := CanBeT(e.t, log, want, bits);
    } else {
      var b, l := CanBeT(e.t, log, false, bits);
      bits', log' := CanBe(e.e, l, false, b);
    }
  }

  lemma {:induction false} CanBeT(t: T, log: seq<nat>, want: bool, bits: seq<bool>) returns (bits': seq<bool>, log': seq<nat>)
    requires |log| == |bits|
    ensures bits <= bits' && SettlesT(t, log, want, bits', log')
    decreases t
  {
    if t.Last? || !want {
      bits', log' := CanBeF(t.f, log, want, bits);
    } else {
      var b, l := CanBeF(t.f, log, true, bits);
      bits', log' := CanBeT(t.t, l, true, b);
    }
  }

  lemma {:induction false} CanBeF(f: F, log: seq<nat>, want: bool, bits: seq<bool>) returns (bits': seq<bool>, log': seq<nat>)
    requires |log| == |bits|
    ensures bits <= bits' && SettlesF(f, log, want, bits', log')
    decreases f
  {
    match f
    case Primary(id) =>
      bits', log' := bits + [want], log + [id];
      forall b | bits' <= b ensures EvalF(Answers(b), f, log) == (want, log') {
        assert b[|log|] == bits'[|log|];
      }
    case Bang(f') =>
      bits', log' := CanBeF(f', log, !want, bits);
    case Paren(e) =>
      bits', log' := CanBe(e, log, want, bits);
  }

  /** The -print behind an expression runs exactly if the expression was true, whatever its
      primaries say, exactly when the expression has only one alternative. */
  lemma PrintsExactly(e: E, p: nat)
    ensures (forall o, log :: PrintLast(o, e, p, log) == ThenPrint(o, e, p, log)) <==> e.One?
  {
    if e.OrElse? {
      var bits, log := CanBeT(e.t, [], true, []);
      var o := Answers(bits);
      assert EvalT(o, e.t, []) == (true, log);
      assert PrintLast(o, e, p, []) == (true, log);
      assert ThenPrint(o, e, p, []) == RunPrimary(o, p, log);
      assert |RunPrimary(o, p, log).1| == |log| + 1;
    }
  }

  /** In one factor a final primary is only ever preceded by `!`. */
  lemma {:induction false} FactorEnd(f: F)
    ensures |TokF(f)| > 1 && TokF(f)[|TokF(f)| - 1].Prim? ==> TokF(f)[|TokF(f)| - 2] == NOT
  {
    if f.Bang? {
      FactorEnd(f.f);
      FactorTokens(f.f);
    }
  }

  lemma Tail(x: seq<Node>, y: seq<Node>, z: seq<Node>, p: nat)
    requires x + y == z + [Close, Prim(p)] && |y| >= 2
    ensures y == y[..|y| - 2] + [Close, Prim(p)] && x + y[..|y| - 2] == z
  {
    var w := x + y;
    assert w[|w| - 2..] == [Close, Prim(p)] && w[|w| - 2..] == y[|y| - 2..];
    assert w[..|w| - 2] == z && w[..|w| - 2] == x + y[..|y| - 2];
  }

  lemma OneLeft(x: seq<Node>, y: seq<Node>, z: seq<Node>, p: nat)
    requires x + y == z + [Close, Prim(p)] && |y| == 1
    ensures x == z + [Close]
  {
    var w := x + y;
    assert w[..|w| - 1] == x && w[..|w| - 1] == z + [Close];
  }

  lemma {:induction false} PrintDroppedT(t: T, z: seq<Node>, p: nat) returns (t': T)
    requires TokT(t) == z + [Close, Prim(p)]
    ensures TokT(t') == z + [Close]
  {
    FactorTokens(t.f);
    if t.Last? {
      t' := t;
      FactorEnd(t.f);
      assert false;
    } else if |TokT(t.t)| == 1 {
      OneLeft(TokF(t.f), TokT(t.t), z, p);
      t' := Last(t.f);
    } else {
      FactorTokens(t.t.f);
      var y := TokT(t.t);
      Tail(TokF(t.f), y, z, p);
      var rest := PrintDroppedT(t.t, y[..|y| - 2], p);
      t' := And(t.f, rest);
      assert TokF(t.f) + (y[..|y| - 2] + [Close]) == z + [Close];
    }
  }

  lemma NotTheSameEnd(x: seq<Node>, z: seq<Node>)
    ensures x + [OR] != z + [Close]
  {
    assert |x| == |z| ==> (x + [OR])[|x|] != (z + [Close])[|z|];
  }

  /** An expression that ends in a bracketed part and a primary is one without the
      primary too. */
  lemma {:induction false} PrintDropped(e: E, z: seq<Node>, p: nat) returns (e': E)
    requires TokE(e) == z + [Close, Prim(p)]
    ensures TokE(e') == z + [Close]
  {
    if e.One? {
      var t := PrintDroppedT(e.t, z, p);
      e' := One(t);
    } else {
      var x, y := TokT(e.t) + [OR], TokE(e.e);
      TokensNonEmpty(e.e);
      if |y| == 1 {
        OneLeft(x, y, z, p);
        NotTheSameEnd(TokT(e.t), z);
        assert false;
      }
      Tail(x, y, z, p);
      var rest := PrintDropped(e.e, y[..|y| - 2], p);
      e' := OrElse(e.t, rest);
      assert x + (y[..|y| - 2] + [Close]) == z + [Close];
    }
  }

  /** `find_formplan` accepts a non-empty list without an output primary exactly
      when the list in brackets is an expression. */
  lemma AcceptedInBrackets(ts: seq<Node>, printId: nat)
    requires Raw(ts) && ts != []
    ensures Passes(WithPrint(ts, false, printId)).Some? <==> InGrammar([Open] + ts + [Close])
  {
    var all, inBrackets := WithPrint(ts, false, printId), [Open] + ts + [Close];
    PassesExactlyGrammar(all);
    assert all == inBrackets + [Prim(printId)];
    assert all == ([Open] + ts) + [Close, Prim(printId)];
    if InGrammar(inBrackets) {
      var e :| TokE(e) == inBrackets;
      PrintedTokens(e, printId);
      assert TokE(Printed(e, printId)) == all;
    }
    if InGrammar(all) {
      var e :| TokE(e) == all;
      var e' := PrintDropped(e, [Open] + ts, printId);
    }
  }

  /** When the acceptance of such a list agrees with the grammar: unless it closes a
      bracket it did not open and yet is an expression once put in brackets. */
  lemma AgreesExactly(ts: seq<Node>, printId: nat)
    requires Raw(ts) && ts != []
    ensures (Passes(WithPrint(ts, false, printId)).Some? <==> InGrammar(ts))
            <==> NeverNegative(ts) || !InGrammar([Open] + ts + [Close])
  {
    if NeverNegative(ts) {
      AcceptedExactly(ts, printId);
    } else {
      AcceptedInBrackets(ts, printId);
      if InGrammar(ts) {
        NegativeRejected(ts);
        assert false;
      }
    }
  }

  // ------------------------------------------------------------- running a plan

  lemma NothingRun(o: Oracle, log: seq<nat>)
    ensures RunList(o, Nodes([]), log) == (false, log)
  {
  }

  /** One file visited by `find_execute`: the log is what has been run on it. */
  class Runner {
    var log: seq<nat>

    constructor ()
      ensures log == []
    {
      log := [];
    }

    /** The loop shared by `find_execute`, `f_expr`, `f_not` and `f_or`. */
    method Loop(o: Oracle, plan: Cell?, ghost ts: seq<Tree>) returns (state: bool)
      requires plan == Head(ts) && Linked(ts)
      modifies this
      ensures (state, log) == RunList(o, Nodes(ts), old(log))
      decreases ts
    {
      hide Cells, Linked, Whole, Nodes, NodeOf, IsSuffix, RunNode;
      state := false;
      var p := plan;
      ghost var us := ts;
      SuffixWhole(ts);
      NothingRun(o, log);
      while p != null
        invariant p == Head(us) && Linked(us) && IsSuffix(us, ts)
        invariant us != [] ==> RunList(o, Nodes(us), log) == RunList(o, Nodes(ts), old(log))
        invariant us == [] ==> (state, log) == RunList(o, Nodes(ts), old(log))
        decreases |us|
      {
        LinkedTail(us);
        NodesTail(us);
        SuffixFirst(us, ts);
        assert allocated(Cells(us[1..]));
        state := Execute(o, p, us[0]);
        if !state {
          return;
        }
        p := p.next;
        us := us[1..];
      }
    }

    /** A node's `execute` function. */
    method Execute(o: Oracle, p: Cell, ghost t: Tree) returns (state: bool)
      requires p == t.cell && Whole(t)
      modifies this
      ensures (state, log) == RunNode(o, NodeOf(t), old(log))
      decreases t
    {
      hide Cells, Linked;
      assert allocated(Cells(t.sub1));
      match p.kind
      case KPrim(id) =>
        state := o(id, log);
        log := log + [id];
      case KExpr =>
        state := Loop(o, p.p0, t.sub0);
      case KNot =>
        state := Loop(o, p.p0, t.sub0);
        state := !state;
      case KOr =>
        state := Loop(o, p.p0, t.sub0);
        if !state {
          state := Loop(o, p.p1, t.sub1);
        }
      case _ =>
        state := false;
    }
  }

  /** What find does to one file for the expression e: e itself, and -print behind
      it if e has no output primary and was true. */
  ghost function Meaning(o: Oracle, e: E, output: bool, printId: nat): Outcome {
    var r := EvalE(o, e, []);
    if r.0 && !output then RunPrimary(o, printId, r.1) else r
  }

  /** The words find accepts: an expression, or without an output primary nothing at all or
      what is an expression once put in brackets. */
  ghost predicate Accepted(ts: seq<Node>, output: bool) {
    if output then InGrammar(ts) else ts == [] || InGrammar([Open] + ts + [Close])
  }

  lemma {:induction false} TokensRaw(args: seq<Arg>)
    ensures Raw(TokensOf(args)) && (HasOutput(args) ==> TokensOf(args) != [])
  {
    if args != [] {
      var n := |args| - 1;
      TokensRaw(args[..n]);
      OneMoreArg(args, n);
      assert args[..n + 1] == args;
    }
  }

  /** Which words are accepted, in general. */
  lemma AcceptedWords(ts: seq<Node>, output: bool, printId: nat)
    requires Raw(ts) && (output ==> ts != [])
    ensures var all := WithPrint(ts, output, printId);
            && (Passes(all).Some? <==> InGrammar(all))
            && (Passes(all).Some? <==> Accepted(ts, output))
  {
    PassesExactlyGrammar(WithPrint(ts, output, printId));
    if !output && ts == [] {
      var e := One(Last(Primary(printId)));
      assert TokE(e) == TokT(e.t) == TokF(e.t.f) == [Prim(printId)];
    } else if !output {
      AcceptedInBrackets(ts, printId);
    }
  }

  lemma RunsAsParsed(o: Oracle, e: E, all: seq<Node>)
    requires TokE(e) == all
    ensures Passes(all).Some? && RunList(o, Passes(all).value, []) == EvalE(o, e, [])
  {
    PassesPreserveMeaning(o, e, []);
  }

  /** From command line to a visited file: a plan is made exactly for the words that are
      accepted.  Running it is evaluating the words with what was added to them.  If the
      words are themselves an expression, that is the expression and -print behind it if it
      has no output primary and was true; no words at all print; and words that are an
      expression only in brackets have the -print in the last alternative. */
  method FindOn(args: seq<Arg>, printId: nat, o: Oracle) returns (r: Option<(bool, seq<nat>)>)
    ensures r.Some? <==> Accepted(TokensOf(args), HasOutput(args))
    ensures r.Some? <==> InGrammar(WithPrint(TokensOf(args), HasOutput(args), printId))
    ensures forall e :: TokE(e) == WithPrint(TokensOf(args), HasOutput(args), printId) ==> r == Some(EvalE(o, e, []))
    ensures forall e :: TokE(e) == TokensOf(args) ==> r == Some(Meaning(o, e, HasOutput(args), printId))
    ensures TokensOf(args) == [] && !HasOutput(args) ==> r == Some(RunPrimary(o, printId, []))
    ensures !HasOutput(args) ==>
              forall e :: TokE(e) == [Open] + TokensOf(args) + [Close] ==> r == Some(PrintLast(o, e, printId, []))
  {
    hide Passes, RunList, TokE, EvalE, WithPrint, TokensOf, HasOutput, InGrammar, Accepted, Raw;
    ghost var all := WithPrint(TokensOf(args), HasOutput(args), printId);
    TokensRaw(args);
    AcceptedWords(TokensOf(args), HasOutput(args), printId);
    var ok, plan, ps := FormPlan(args, printId);
    r := None;
    if ok {
      assert allocated(Cells(ps));
      var run := new Runner();
      var state := run.Loop(o, plan, ps);
      r := Some((state, run.log));
    }
    forall e | TokE(e) == all ensures r == Some(EvalE(o, e, [])) {
      RunsAsParsed(o, e, all);
    }
    forall e | TokE(e) == TokensOf(args) ensures r == Some(Meaning(o, e, HasOutput(args), printId)) {
      PlanMeans(o, e, HasOutput(args), printId);
    }
    if !HasOutput(args) {
      forall e | TokE(e) == [Open] + TokensOf(args) + [Close] ensures r == Some(PrintLast(o, e, printId, [])) {
        BracketedMeans(o, e, TokensOf(args), printId);
      }
      if TokensOf(args) == [] {
        NoWordsMean(o, printId);
      }
    }
  }

  lemma BracketedMeans(o: Oracle, e: E, ts: seq<Node>, printId: nat)
    requires TokE(e) == [Open] + ts + [Close]
    ensures var p := Passes(WithPrint(ts, false, printId));
            p.Some? && RunList(o, p.value, []) == PrintLast(o, e, printId, [])
  {
    NotEmptyBrackets(e);
    PrintedTokens(e, printId);
    PrintedEval(o, e, printId, []);
    assert WithPrint(ts, false, printId) == TokE(Printed(e, printId));
    RunsAsParsed(o, Printed(e, printId), WithPrint(ts, false, printId));
  }

  lemma NotEmptyBrackets(e: E)
    ensures TokE(e) != [Open] + [] + [Close]
  {
    if TokE(e) == [Open] + [Close] {
      var inner, more := LeadingBracket(e, [Close]);
      TokensNonEmpty(inner);
      assert false;
    }
  }

  /** `a ) -o ( b` on a file for which a is true: a runs, and nothing is printed. */
  lemma PrintSkipped(o: Oracle, a: nat, b: nat, printId: nat)
    requires o(a, [])
    ensures var ts := [Prim(a), Close, OR, Open, Prim(b)];
            var p := Passes(WithPrint(ts, false, printId));
            p.Some? && RunList(o, p.value, []) == (true, [a])
  {
    var ts := [Prim(a), Close, OR, Open, Prim(b)];
    var x, y := One(Last(Primary(a))), One(Last(Primary(b)));
    var e := OrElse(Last(Paren(x)), One(Last(Paren(y))));
    OnePrimary(a);
    OnePrimary(b);
    assert TokE(e) == TokT(e.t) + [OR] + TokE(e.e) && TokT(e.t) == TokF(e.t.f);
    assert TokE(e.e) == TokT(e.e.t) == TokF(e.e.t.f);
    assert TokE(e) == [Open] + ts + [Close];
    BracketedMeans(o, e, ts, printId);
    assert EvalT(o, e.t, []) == EvalF(o, e.t.f, []) == EvalE(o, x, []) == EvalT(o, x.t, []) == EvalF(o, x.t.f, []);
    assert EvalF(o, x.t.f, []) == RunPrimary(o, a, []) == (true, [] + [a]);
    assert [] + [a] == [a];
    assert PrintLast(o, e, printId, []) == EvalT(o, e.t, []);
  }

  lemma NoWordsMean(o: Oracle, printId: nat)
    ensures var p := Passes(WithPrint([], false, printId));
            p.Some? && RunList(o, p.value, []) == RunPrimary(o, printId, [])
  {
    var e := One(Last(Primary(printId)));
    assert TokE(e) == TokT(e.t) == TokF(e.t.f) == [Prim(printId)];
    RunsAsParsed(o, e, [Prim(printId)]);
    assert EvalE(o, e, []) == EvalT(o, e.t, []) == EvalF(o, e.t.f, []);
  }

  lemma PlanMeans(o: Oracle, e: E, output: bool, printId: nat)
    ensures var p := Passes(WithPrint(TokE(e), output, printId));
            p.Some? && RunList(o, p.value, []) == Meaning(o, e, output, printId)
  {
    if output {
      PassesPreserveMeaning(o, e, []);
    } else {
      ImplicitPrint(o, e, printId, []);
    }
    hide Passes, RunList, TokE, EvalE;
  }
}
