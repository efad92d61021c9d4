/** The passes succeed on nothing but the grammar: from a successful run a parse
    of the tokens is recovered. */
module FindSound {
  import opened FindGrammar
  import opened FindPasses
  import opened Wrappers

  /** The nodes `find_create` makes: operators have no operands yet. */
  ghost predicate Raw(ts: seq<Node>) {
    forall i :: 0 <= i < |ts| ==> ts[i].Prim? || ts[i].Open? || ts[i].Close? || ts[i] == NOT || ts[i] == OR
  }

  // --------------------------------------------------------- first pass, back

  /** No brackets are left, and no bracketed expression is empty. */
  ghost predicate Bracketed(p: seq<Node>)
    decreases p
  {
    forall i :: 0 <= i < |p| ==> BracketedNode(p[i])
  }

  ghost predicate BracketedNode(n: Node)
    decreases n
  {
    n.Prim? || n == NOT || n == OR || (n.Expr? && n.sub != [] && Bracketed(n.sub))
  }

  /** The tokens a list of nodes was squished from. */
  ghost function Flat(p: seq<Node>): seq<Node>
    decreases p
  {
    if p == [] then [] else Flat(p[..|p| - 1]) + FlatNode(p[|p| - 1])
  }

  ghost function FlatNode(n: Node): seq<Node>
    decreases n
  {
    if n.Expr? then [Open] + Flat(n.sub) + [Close] else [n]
  }

  lemma FlatSnoc(p: seq<Node>, n: Node)
    ensures Flat(p + [n]) == Flat(p) + FlatNode(n)
  {
    assert (p + [n])[..|p|] == p;
  }

  lemma {:induction false} FlatAppend(p: seq<Node>, q: seq<Node>)
    ensures Flat(p + q) == Flat(p) + Flat(q)
  {
    if q == [] {
      assert p + q == p;
    } else {
      hide Flat, FlatNode;
      var k := |q| - 1;
      FlatAppend(p, q[..k]);
      assert p + q == p + q[..k] + [q[k]] && q == q[..k] + [q[k]];
      FlatSnoc(p + q[..k], q[k]);
      FlatSnoc(q[..k], q[k]);
    }
  }

  lemma OpenFlat(ts: seq<Node>, sub: seq<Node>, rest: seq<Node>)
    requires Flat([]) + ts == Flat(sub) + [Close] + rest
    ensures FlatNode(Expr(sub)) + rest == [Open] + ts
  {
    assert Flat([]) + ts == ts;
    assert [Open] + (Flat(sub) + [Close] + rest) == FlatNode(Expr(sub)) + rest;
  }

  lemma {:induction false} YankFlat(ts: seq<Node>)
    requires Raw(ts) && YankExpr(ts).Got?
    ensures var y := YankExpr(ts);
            FlatNode(y.node) + y.rest == ts && Raw(y.rest) && (y.node.Close? || BracketedNode(y.node))
    decreases |ts|, 0
  {
    assert ts == [ts[0]] + ts[1..];
    if ts[0].Open? {
      CollectFlat(ts[1..], []);
      hide Collect, Bracketed, Flat;
      var y := YankExpr(ts);
      OpenFlat(ts[1..], y.node.sub, y.rest);
    }
  }

  lemma {:induction false} CollectFlat(ts: seq<Node>, sub: seq<Node>)
    requires Raw(ts) && Bracketed(sub) && Collect(ts, sub).Got?
    ensures var y := Collect(ts, sub);
            && y.node.Expr? && BracketedNode(y.node) && Raw(y.rest)
            && Flat(sub) + ts == Flat(y.node.sub) + [Close] + y.rest
    decreases |ts|, 1
  {
    hide YankExpr;
    YankFlat(ts);
    var y := YankExpr(ts);
    if y.node.Close? {
      assert FlatNode(y.node) == [Close];
      hide Flat, FlatNode;
      assert Flat(sub) + ([Close] + y.rest) == Flat(sub) + [Close] + y.rest;
    } else {
      FlatSnoc(sub, y.node);
      BracketedSnoc(sub, y.node);
      hide Flat, FlatNode, Bracketed;
      assert Flat(sub) + (FlatNode(y.node) + y.rest) == Flat(sub) + FlatNode(y.node) + y.rest;
      CollectFlat(y.rest, sub + [y.node]);
    }
  }

  lemma BracketedSnoc(p: seq<Node>, n: Node)
    requires Bracketed(p) && BracketedNode(n)
    ensures Bracketed(p + [n])
  {
  }

  lemma {:induction false} ParenSquishFlat(ts: seq<Node>)
    requires Raw(ts) && ParenSquish(ts).Some?
    ensures Flat(ParenSquish(ts).value) == ts && Bracketed(ParenSquish(ts).value)
    decreases |ts|
  {
    if ts != [] {
      YankFlat(ts);
      var y := YankExpr(ts);
      ParenSquishFlat(y.rest);
      var p := ParenSquish(y.rest).value;
      FlatAppend([y.node], p);
      FlatSnoc([], y.node);
      assert [] + [y.node] == [y.node] && Flat([]) + FlatNode(y.node) == FlatNode(y.node);
    }
  }

  // ------------------------------------------------------------------- parsing

  ghost function Prepend(f: F, e: E): E {
    match e
    case One(t) => One(And(f, t))
    case OrElse(t, e') => OrElse(And(f, t), e')
  }

  lemma PrependParen(f: F, e: E)
    ensures ParenE(Prepend(f, e)) == ParenF(f) + ParenE(e)
  {
    if e.OrElse? {
      assert ParenF(f) + ParenT(e.t) + [OR] + ParenE(e.e) == ParenF(f) + (ParenT(e.t) + [OR] + ParenE(e.e));
    }
  }

  /** p is what `paren_squish` makes of some expression's tokens. */
  ghost predicate Parses(p: seq<Node>) {
    exists e :: ParenE(e) == p
  }

  ghost function Parse(p: seq<Node>): (e: E)
    requires Parses(p)
    ensures ParenE(e) == p
  {
    var e :| ParenE(e) == p; e
  }

  /** The factor at the front of a bracketed list: its operand parses if it is a
      bracketed expression that does. */
  lemma {:induction false} FrontFactor(p: seq<Node>) returns (f: F)
    requires Bracketed(p) && NotLevel(p) < |p| && !p[NotLevel(p)].Or?
    requires p[NotLevel(p)].Expr? ==> Parses(p[NotLevel(p)].sub)
    ensures ParenF(f) + p[NotLevel(p) + 1..] == p
    decreases |p|
  {
    var k := NotLevel(p);
    assert p == [p[0]] + p[1..];
    assert BracketedNode(p[0]);
    if k > 0 {
      assert p[0] == NOT && Bracketed(p[1..]) && NotLevel(p[1..]) == k - 1;
      hide Bracketed, NotLevel;
      var f' := FrontFactor(p[1..]);
      f := Bang(f');
      assert p[1..][k..] == p[k + 1..];
      assert [NOT] + ParenF(f') + p[k + 1..] == [NOT] + (ParenF(f') + p[k + 1..]);
    } else if p[0].Prim? {
      f := Primary(p[0].id);
    } else {
      f := Paren(Parse(p[0].sub));
    }
  }

  /** One factor in front of what follows it is an expression. */
  lemma ParsesFactor(f: F, rest: seq<Node>)
    requires rest == [] || (rest[0] == OR && Parses(rest[1..])) || Parses(rest)
    ensures Parses(ParenF(f) + rest)
  {
    if rest == [] {
      assert ParenE(One(Last(f))) == ParenF(f) + rest;
    } else if rest[0] == OR && Parses(rest[1..]) {
      var e := OrElse(Last(f), Parse(rest[1..]));
      assert rest == [OR] + rest[1..];
      assert ParenE(e) == ParenF(f) + rest;
    } else {
      PrependParen(f, Parse(rest));
    }
  }

  // ------------------------------------------------ second and third pass, back

  /** What the last two passes did with the factor at the front. */
  lemma FrontSquished(p: seq<Node>, gathered: seq<Node>)
    requires p != [] && NotSquish(p).Some? && OrFrom(NotSquish(p).value, gathered).Some?
    requires !(NotLevel(p) == 0 && p[0].Or?)
    ensures NotLevel(p) < |p| && !p[NotLevel(p)].Or?
    ensures var (k, q) := (NotLevel(p), NotSquish(p).value);
            && NotSquish(p[k + 1..]).Some? && q != [] && q[1..] == NotSquish(p[k + 1..]).value
            && OrOperand(q[0]).Some? && OrFrom(q[1..], gathered + [OrOperand(q[0]).value]).Some?
            && (p[k].Expr? ==> NotSquish(p[k].sub).Some? && OrFrom(NotSquish(p[k].sub).value, []).Some?)
  {
    var k, q := NotLevel(p), NotSquish(p).value;
    var n := NotOperand(p[k]).value;
    assert q[0] == if k % 2 == 1 then Not([n]) else n;
    if p[k].Expr? {
      assert k % 2 == 1 ==> OrFrom([n], []).Some?;
      assert OrOperand(n).Some?;
    }
  }

  /** What they did with -o at the front. */
  lemma OrSquished(p: seq<Node>, gathered: seq<Node>)
    requires Bracketed(p) && p != [] && NotLevel(p) == 0 && p[0].Or?
    requires NotSquish(p).Some? && OrFrom(NotSquish(p).value, gathered).Some?
    ensures gathered != [] && p[0] == OR && p[1..] != [] && Bracketed(p[1..])
    ensures NotSquish(p[1..]).Some? && OrFrom(NotSquish(p[1..]).value, []).Some?
  {
    assert BracketedNode(p[0]);
    var q := NotSquish(p).value;
    assert q[0].Or? && q[1..] == NotSquish(p[1..]).value;
  }

  lemma BracketedParts(p: seq<Node>, k: nat)
    requires Bracketed(p) && k < |p|
    ensures BracketedNode(p[k]) && Bracketed(p[k + 1..]) && (p[k].Expr? ==> Bracketed(p[k].sub) && p[k].sub != [])
  {
    assert BracketedNode(p[k]);
  }

  lemma NotLevelFront(p: seq<Node>)
    requires p != []
    ensures p[0].Or? ==> NotLevel(p) == 0
  {
  }

  /** If the last two passes get through a list, it parses: with nothing gathered
      yet it is an expression, otherwise it may also end or go on with -o. */
  lemma {:induction false} BothParse(p: seq<Node>, gathered: seq<Node>)
    requires Bracketed(p) && NotSquish(p).Some? && OrFrom(NotSquish(p).value, gathered).Some?
    ensures p != [] && !p[0].Or? ==> Parses(p)
    ensures p != [] && p[0].Or? ==> gathered != [] && p[0] == OR && Parses(p[1..])
    decreases p
  {
    hide Bracketed, BracketedNode, NotSquish, OrFrom, OrOperand, NotLevel, Parses;
    if p != [] {
      NotLevelFront(p);
      var k := NotLevel(p);
      if k == 0 && p[0].Or? {
        OrSquished(p, gathered);
        BothParse(p[1..], []);
      } else {
        FrontSquished(p, gathered);
        BracketedParts(p, k);
        if p[k].Expr? {
          BothParse(p[k].sub, []);
        }
        var q := NotSquish(p).value;
        BothParse(p[k + 1..], gathered + [OrOperand(q[0]).value]);
        var f := FrontFactor(p);
        ParsesFactor(f, p[k + 1..]);
      }
    }
  }

  /** The tokens of an expression, seen through the first pass. */
  lemma {:induction false} FlatE(e: E)
    ensures Flat(ParenE(e)) == TokE(e)
  {
    FlatT(e.t);
    if e.OrElse? {
      FlatE(e.e);
      FlatSnoc(ParenT(e.t), OR);
      FlatAppend(ParenT(e.t) + [OR], ParenE(e.e));
    }
  }

  lemma {:induction false} FlatT(t: T)
    ensures Flat(ParenT(t)) == TokT(t)
  {
    FlatF(t.f);
    if t.And? {
      FlatT(t.t);
      FlatAppend(ParenF(t.f), ParenT(t.t));
    }
  }

  lemma {:induction false} FlatF(f: F)
    ensures Flat(ParenF(f)) == TokF(f)
  {
    FlatSnoc([], ParenF(f)[0]);
    assert [] + [ParenF(f)[0]] == [ParenF(f)[0]];
    match f
    case Bang(f') =>
      FlatF(f');
      FlatAppend([NOT], ParenF(f'));
    case Primary(id) =>
    case Paren(e) => FlatE(e);
  }

  /** The tokens of some expression. */
  ghost predicate InGrammar(ts: seq<Node>) {
    exists e :: TokE(e) == ts
  }

  /** The passes succeed exactly on the grammar (and on the empty list, which
      yields the empty plan). */
  lemma PassesExactlyGrammar(ts: seq<Node>)
    requires Raw(ts)
    ensures Passes(ts).Some? <==> ts == [] || InGrammar(ts)
  {
    if Passes(ts).Some? && ts != [] {
      ParenSquishFlat(ts);
      var p := ParenSquish(ts).value;
      BothParse(p, []);
      var e := Parse(p);
      FlatE(e);
    }
    if InGrammar(ts) {
      var e :| TokE(e) == ts;
      PassesE(e);
    }
  }
}
