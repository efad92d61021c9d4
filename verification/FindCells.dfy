/** The linked nodes of bsd_find: a node has a `next` and up to two lists of operands, the
    `p_data` of operators.

    A Tree is the shape of what hangs under a node.  A pointer holds a list of trees if the
    cells are linked as the trees say and no cell occurs twice.
  */
module FindCells {
  import opened FindGrammar

  /** Which function `execute` points to. */
  datatype Kind = KPrim(id: nat) | KOpen | KClose | KExpr | KNot | KOr

  class Cell {
    var next: Cell?
    var kind: Kind
    var p0: Cell?
    var p1: Cell?

    /** palloc. */
    constructor (k: Kind)
      ensures kind == k && next == p0 == p1 == null
    {
      next, kind, p0, p1 := null, k, null, null;
    }
  }

  datatype Tree = Tree(cell: Cell, kind: Kind, sub0: seq<Tree>, sub1: seq<Tree>)

  /** The value of a node, and of a list. */
  ghost function NodeOf(t: Tree): Node {
    match t.kind
    case KPrim(id) => Prim(id)
    case KOpen => Open
    case KClose => Close
    case KExpr => Expr(Nodes(t.sub0))
    case KNot => Not(Nodes(t.sub0))
    case KOr => Or(Nodes(t.sub0), Nodes(t.sub1))
  }

  ghost function Nodes(ts: seq<Tree>): (ns: seq<Node>)
    ensures |ns| == |ts| && forall i :: 0 <= i < |ts| ==> ns[i] == NodeOf(ts[i])
  {
    seq(|ts|, i requires 0 <= i < |ts| => NodeOf(ts[i]))
  }

  /** The cells a node is made of, and a list. */
  ghost function CellsT(t: Tree): set<Cell> {
    {t.cell} + Cells(t.sub0) + Cells(t.sub1)
  }

  ghost function Cells(ts: seq<Tree>): set<Cell> {
    set i, c | 0 <= i < |ts| && c in CellsT(ts[i]) :: c
  }

  /** No cell is used twice. */
  ghost predicate ApartT(t: Tree) {
    && t.cell !in Cells(t.sub0) && t.cell !in Cells(t.sub1) && Cells(t.sub0) !! Cells(t.sub1)
    && Apart(t.sub0) && Apart(t.sub1)
  }

  ghost predicate Apart(ts: seq<Tree>) {
    && (forall i :: 0 <= i < |ts| ==> ApartT(ts[i]))
    && (forall i, j :: 0 <= i < j < |ts| ==> CellsT(ts[i]) !! CellsT(ts[j]))
  }

  ghost function Head(ts: seq<Tree>): Cell? {
    if ts == [] then null else ts[0].cell
  }

  ghost function Tops(ts: seq<Tree>): set<Cell> {
    set i | 0 <= i < |ts| :: ts[i].cell
  }

  /** The cells of the list are linked in order. */
  ghost predicate Chain(ts: seq<Tree>)
    reads Tops(ts)`next
  {
    forall i :: 0 <= i < |ts| ==> ts[i].cell.next == NextIn(ts, i)
  }

  ghost function NextIn(ts: seq<Tree>, i: nat): Cell? {
    if i + 1 < |ts| then ts[i + 1].cell else null
  }

  /** What hangs under a node is what its shape says. */
  ghost predicate Whole(t: Tree)
    reads t.cell`kind, t.cell`p0, t.cell`p1, Cells(t.sub0), Cells(t.sub1)
    decreases t, 2
  {
    && t.cell.kind == t.kind && t.cell.p0 == Head(t.sub0) && t.cell.p1 == Head(t.sub1)
    && Linked(t.sub0) && Linked(t.sub1)
  }

  ghost predicate WholeAll(ts: seq<Tree>)
    reads Cells(ts)
    decreases ts, 0
  {
    PartsAreCells(ts);
    forall i :: 0 <= i < |ts| ==> Whole(ts[i])
  }

  ghost predicate Linked(ts: seq<Tree>)
    reads Cells(ts)
    decreases ts, 1
  {
    TopsAreCells(ts);
    Chain(ts) && WholeAll(ts)
  }

  lemma PartsAreCells(ts: seq<Tree>)
    ensures forall i :: 0 <= i < |ts| ==> CellsT(ts[i]) <= Cells(ts)
  {
  }

  lemma TopsAreCells(ts: seq<Tree>)
    ensures Tops(ts) <= Cells(ts)
  {
    forall i | 0 <= i < |ts| ensures ts[i].cell in Cells(ts) {
      assert ts[i].cell in CellsT(ts[i]);
    }
  }

  /** A pointer to the first cell of a list. */
  ghost predicate Holds(c: Cell?, ts: seq<Tree>)
    reads Cells(ts)
  {
    c == Head(ts) && Linked(ts) && Apart(ts)
  }

  /** The cell behind a pointer, if any. */
  ghost function Behind(c: Cell?): set<Cell> {
    if c == null then {} else {c}
  }

  /** A node by itself, with what hangs under it. */
  ghost predicate Alone(t: Tree)
    reads t.cell, Cells(t.sub0), Cells(t.sub1)
  {
    && t.cell.next == null && t.cell.kind == t.kind && Holds(t.cell.p0, t.sub0) && Holds(t.cell.p1, t.sub1)
    && t.cell !in Cells(t.sub0) && t.cell !in Cells(t.sub1) && Cells(t.sub0) !! Cells(t.sub1)
  }

  /** A node by itself, whatever its first operand is. */
  ghost predicate AloneButFirst(t: Tree)
    reads t.cell, Cells(t.sub1)
  {
    t.cell.next == null && t.cell.kind == t.kind && Holds(t.cell.p1, t.sub1) && t.cell !in Cells(t.sub1)
  }

  /** The node that came off a list and what is left of it. */
  ghost predicate Off(node: Cell?, one: seq<Tree>, rest: Cell?, us: seq<Tree>, all: set<Cell>)
    reads Cells(one), Cells(us)
  {
    && Holds(node, one) && Holds(rest, us) && |one| <= 1
    && Cells(one) !! Cells(us) && Cells(one) <= all && Cells(us) <= all
  }

  ghost function First(ts: seq<Tree>): seq<Tree> {
    if ts == [] then [] else [ts[0]]
  }

  ghost function Rest(ts: seq<Tree>): seq<Tree> {
    if ts == [] then [] else ts[1..]
  }

  /** `tail` is the last node of the result plan, if there is one. */
  ghost predicate Ends(ts: seq<Tree>, tail: Cell?) {
    if ts == [] then tail == null else tail == ts[|ts| - 1].cell
  }

  /** What the node of a word of the command line stands for. */
  ghost function Token(k: Kind): Node {
    match k
    case KPrim(id) => Prim(id)
    case KOpen => Open
    case KClose => Close
    case KExpr => Expr([])
    case KNot => NOT
    case KOr => OR
  }

  // ---------------------------------------------------------------------- values

  lemma NodesJoin(a: seq<Tree>, b: seq<Tree>)
    ensures Nodes(a + b) == Nodes(a) + Nodes(b)
  {
  }

  lemma NodesTail(ts: seq<Tree>)
    requires ts != []
    ensures Nodes(ts)[0] == NodeOf(ts[0]) && Nodes(ts)[1..] == Nodes(ts[1..])
  {
  }

  lemma NodesDrop(ts: seq<Tree>, k: nat)
    requires k <= |ts|
    ensures Nodes(ts[k..]) == Nodes(ts)[k..]
  {
  }

  /** What is known of a node by looking at its `execute`. */
  lemma KindTells(t: Tree)
    ensures NodeOf(t).Prim? <==> t.kind.KPrim?
    ensures NodeOf(t).Open? <==> t.kind.KOpen?
    ensures NodeOf(t).Close? <==> t.kind.KClose?
    ensures NodeOf(t).Expr? <==> t.kind.KExpr?
    ensures NodeOf(t).Not? <==> t.kind.KNot?
    ensures NodeOf(t).Or? <==> t.kind.KOr?
  {
  }

  // ----------------------------------------------------------------------- cells

  lemma CellsJoin(a: seq<Tree>, b: seq<Tree>)
    ensures Cells(a + b) == Cells(a) + Cells(b)
  {
    hide CellsT;
    var r := a + b;
    forall c | c in Cells(r) ensures c in Cells(a) + Cells(b) {
      var i :| 0 <= i < |r| && c in CellsT(r[i]);
      assert i < |a| ==> a[i] == r[i];
      assert i >= |a| ==> b[i - |a|] == r[i];
    }
    forall c | c in Cells(a) ensures c in Cells(r) {
      var i :| 0 <= i < |a| && c in CellsT(a[i]);
      assert r[i] == a[i];
    }
    forall c | c in Cells(b) ensures c in Cells(r) {
      var i :| 0 <= i < |b| && c in CellsT(b[i]);
      assert r[|a| + i] == b[i];
    }
  }

  lemma CellsOne(t: Tree)
    ensures Cells([t]) == CellsT(t)
  {
    hide CellsT;
    assert [t][0] == t;
  }

  lemma ApartJoin(a: seq<Tree>, b: seq<Tree>)
    ensures Apart(a + b) <==> Apart(a) && Apart(b) && Cells(a) !! Cells(b)
  {
    hide CellsT, ApartT;
    var r := a + b;
    assert forall i :: 0 <= i < |a| ==> r[i] == a[i];
    assert forall i :: 0 <= i < |b| ==> r[|a| + i] == b[i];
    if Apart(r) {
      ApartFront(a, b);
    }
    if Apart(a) && Apart(b) && Cells(a) !! Cells(b) {
      forall i, j | 0 <= i < j < |r| ensures CellsT(r[i]) !! CellsT(r[j]) {
        if i < |a| && |a| <= j {
          assert CellsT(r[i]) <= Cells(a) && CellsT(r[j]) <= Cells(b) by {
            assert r[j] == b[j - |a|];
          }
        } else if |a| <= i {
          assert r[i] == b[i - |a|] && r[j] == b[j - |a|];
        }
      }
      forall i | 0 <= i < |r| ensures ApartT(r[i]) {
        assert i >= |a| ==> r[i] == b[i - |a|];
      }
    }
  }

  lemma ApartFront(a: seq<Tree>, b: seq<Tree>)
    requires Apart(a + b)
    ensures Apart(a) && Apart(b) && Cells(a) !! Cells(b)
  {
    hide CellsT, ApartT;
    var r := a + b;
    forall i | 0 <= i < |a| ensures r[i] == a[i] {
    }
    forall i | 0 <= i < |b| ensures b[i] == r[|a| + i] && ApartT(b[i]) {
    }
    forall i, j | 0 <= i < j < |b| ensures CellsT(b[i]) !! CellsT(b[j]) {
      assert b[i] == r[|a| + i] && b[j] == r[|a| + j];
    }
    forall c | c in Cells(a) ensures c !in Cells(b) {
      var i :| 0 <= i < |a| && c in CellsT(a[i]);
      forall j | 0 <= j < |b| ensures c !in CellsT(b[j]) {
        assert r[i] == a[i] && r[|a| + j] == b[j];
      }
    }
  }

  lemma CellsTail(ts: seq<Tree>)
    requires ts != []
    ensures Cells(ts) == CellsT(ts[0]) + Cells(ts[1..])
    ensures Apart(ts) ==> Apart(ts[1..]) && ApartT(ts[0]) && CellsT(ts[0]) !! Cells(ts[1..])
  {
    hide CellsT, ApartT;
    assert ts == [ts[0]] + ts[1..];
    CellsJoin([ts[0]], ts[1..]);
    CellsOne(ts[0]);
    ApartJoin([ts[0]], ts[1..]);
  }

  lemma CellsParts(ts: seq<Tree>)
    ensures Behind(Head(ts)) <= Cells(ts) == Cells(First(ts)) + Cells(Rest(ts))
    ensures Apart(ts) ==> Cells(First(ts)) !! Cells(Rest(ts))
  {
    if ts != [] {
      CellsTail(ts);
      CellsOne(ts[0]);
    }
    hide Cells;
  }

  lemma CellsDrop(ts: seq<Tree>, k: nat)
    requires k <= |ts|
    ensures Cells(ts[k..]) <= Cells(ts)
  {
    hide Cells;
    assert ts == ts[..k] + ts[k..];
    CellsJoin(ts[..k], ts[k..]);
  }

  lemma Middle(ts: seq<Tree>, k: nat)
    requires k < |ts| && Apart(ts)
    ensures CellsT(ts[k]) !! Cells(ts[k + 1..]) && CellsT(ts[k]) <= Cells(ts) && Cells(ts[k + 1..]) <= Cells(ts)
  {
    hide Cells, CellsT, Apart;
    CellsDrop(ts, k);
    CellsTail(ts[k..]);
    assert ts[k..][1..] == ts[k + 1..];
    assert Apart(ts[k..]) by {
      assert ts == ts[..k] + ts[k..];
      ApartJoin(ts[..k], ts[k..]);
    }
  }

  lemma EndsCell(ts: seq<Tree>, tail: Cell?)
    requires Ends(ts, tail)
    ensures Behind(tail) <= Cells(ts)
  {
    hide CellsT;
    TopsAreCells(ts);
  }

  /** Where a cell of the list occurs in it: at its own place, and nowhere else. */
  lemma TopOnce(ts: seq<Tree>, k: nat, i: nat)
    requires Apart(ts) && k < |ts| && i < |ts|
    ensures i != k ==> ts[k].cell !in CellsT(ts[i])
    ensures ts[k].cell !in Cells(ts[k].sub0) && ts[k].cell !in Cells(ts[k].sub1)
  {
    assert ts[k].cell in CellsT(ts[k]);
    assert ApartT(ts[k]);
    assert i < k ==> CellsT(ts[i]) !! CellsT(ts[k]);
    assert k < i ==> CellsT(ts[k]) !! CellsT(ts[i]);
  }

  /** c hangs under none of the nodes. */
  ghost predicate NotUnder(c: Cell, ts: seq<Tree>) {
    forall i :: 0 <= i < |ts| ==> c !in Cells(ts[i].sub0) && c !in Cells(ts[i].sub1)
  }

  lemma TopsDiffer(ts: seq<Tree>)
    requires Apart(ts)
    ensures forall i, j :: 0 <= i < j < |ts| ==> ts[i].cell != ts[j].cell
    ensures forall k :: 0 <= k < |ts| ==> NotUnder(ts[k].cell, ts)
  {
    hide Apart;
    forall i, j | 0 <= i < j < |ts| ensures ts[i].cell != ts[j].cell {
      TopOnce(ts, j, i);
    }
    forall k, i | 0 <= k < |ts| && 0 <= i < |ts|
      ensures ts[k].cell !in Cells(ts[i].sub0) && ts[k].cell !in Cells(ts[i].sub1) {
      TopOnce(ts, k, i);
    }
  }

  // ----------------------------------------------------------------------- links

  lemma ChainTail(ts: seq<Tree>)
    requires ts != [] && Chain(ts)
    ensures Chain(ts[1..]) && ts[0].cell.next == Head(ts[1..])
  {
    var us := ts[1..];
    forall i | 0 <= i < |us| ensures us[i].cell.next == NextIn(us, i) {
      assert us[i] == ts[i + 1] && ts[i + 1].cell.next == NextIn(ts, i + 1);
    }
    assert ts[0].cell.next == NextIn(ts, 0);
  }

  lemma ChainOne(t: Tree)
    ensures Chain([t]) <==> t.cell.next == null
  {
    assert [t][0] == t && NextIn([t], 0) == null;
  }

  lemma ChainSnoc(rs: seq<Tree>, t: Tree)
    requires rs != [] ==> rs[|rs| - 1].cell.next == t.cell
    requires forall i :: 0 <= i < |rs| - 1 ==> rs[i].cell.next == NextIn(rs, i)
    requires t.cell.next == null
    ensures Chain(rs + [t])
  {
    var ts := rs + [t];
    forall i | 0 <= i < |ts| ensures ts[i].cell.next == NextIn(ts, i) {
      assert i < |rs| ==> ts[i] == rs[i];
    }
  }

  lemma ChainCons(t: Tree, ts: seq<Tree>)
    requires t.cell.next == Head(ts) && Chain(ts)
    ensures Chain([t] + ts)
  {
    var us := [t] + ts;
    forall i | 0 <= i < |us| ensures us[i].cell.next == NextIn(us, i) {
      assert i > 0 ==> us[i] == ts[i - 1] && ts[i - 1].cell.next == NextIn(ts, i - 1);
    }
  }

  /** A list without its first node is still a list. */
  lemma LinkedTail(ts: seq<Tree>)
    requires ts != [] && Linked(ts)
    ensures Linked(ts[1..]) && Whole(ts[0]) && ts[0].cell.next == Head(ts[1..])
  {
    hide CellsT, Whole;
    ChainTail(ts);
    assert WholeAll(ts[1..]);
  }

  lemma LinkedParts(ts: seq<Tree>)
    ensures Linked(ts) <==> Chain(ts) && WholeAll(ts)
  {
  }

  lemma WholeOne(t: Tree)
    ensures WholeAll([t]) <==> Whole(t)
  {
    hide Whole;
    assert [t][0] == t;
  }

  lemma WholeParts(t: Tree)
    requires Whole(t) && ApartT(t)
    ensures t.cell.kind == t.kind && Holds(t.cell.p0, t.sub0) && Holds(t.cell.p1, t.sub1)
    ensures t.cell !in Cells(t.sub0) && t.cell !in Cells(t.sub1) && Cells(t.sub0) !! Cells(t.sub1)
  {
    hide Cells, Linked, Apart;
  }

  lemma JoinApart(a: seq<Tree>, b: seq<Tree>)
    requires Linked(a) && Apart(a) && Linked(b) && Apart(b) && Cells(a) !! Cells(b)
    ensures Apart(a + b) && WholeAll(a + b) && Cells(a + b) == Cells(a) + Cells(b)
  {
    hide Cells, Whole, Linked, Apart;
    ApartJoin(a, b);
    CellsJoin(a, b);
    LinkedParts(a);
    LinkedParts(b);
  }

  // -------------------------------------------------------------------- pointers

  lemma HoldsHead(c: Cell?, ts: seq<Tree>)
    requires Holds(c, ts)
    ensures c == Head(ts)
  {
  }

  lemma HoldsApart(c: Cell?, ts: seq<Tree>)
    requires Holds(c, ts)
    ensures Apart(ts)
  {
  }

  lemma NothingHeld()
    ensures Holds(null, []) && Cells([]) == {}
  {
  }

  lemma HeldAlone(t: Tree)
    ensures Holds(t.cell, [t]) <==> Alone(t)
  {
    hide Cells, Chain, Linked;
    WholeOne(t);
    ChainOne(t);
    assert Apart([t]) <==> ApartT(t) by {
      assert [t][0] == t;
    }
    assert Linked([t]) <==> Chain([t]) && WholeAll([t]) by {
      LinkedParts([t]);
    }
  }

  lemma AloneParts(t: Tree)
    requires Alone(t)
    ensures t.cell.kind == t.kind && AloneButFirst(t)
  {
  }

  lemma AloneHeld(t: Tree)
    requires Alone(t)
    ensures Holds(t.cell, [t]) && Cells([t]) == CellsT(t) && Nodes([t]) == [NodeOf(t)]
    ensures t.kind == KExpr ==> NodeOf(t) == Expr(Nodes(t.sub0))
    ensures t.kind == KNot ==> NodeOf(t) == Not(Nodes(t.sub0))
    ensures t.kind == KOr ==> NodeOf(t) == Or(Nodes(t.sub0), Nodes(t.sub1))
  {
    HeldAlone(t);
    CellsOne(t);
  }

  lemma Single(c: Cell?, one: seq<Tree>)
    requires Holds(c, one) && |one| <= 1 && c != null
    ensures one != [] && one == [one[0]] && c == one[0].cell && Alone(one[0]) && Cells(one) == CellsT(one[0])
    ensures c.kind == one[0].kind
  {
    assert one == [one[0]];
    HeldAlone(one[0]);
    CellsOne(one[0]);
  }

  // -------------------------------------------------------------------- suffixes

  ghost predicate IsSuffix(us: seq<Tree>, ts: seq<Tree>) {
    |us| <= |ts| && us == ts[|ts| - |us|..]
  }

  lemma SuffixWhole(ts: seq<Tree>)
    ensures IsSuffix(ts, ts)
  {
  }

  lemma SuffixSmaller(us: seq<Tree>, ts: seq<Tree>)
    requires IsSuffix(us, ts)
    ensures us == ts || (ts decreases to us)
  {
  }

  lemma SuffixSuffix(vs: seq<Tree>, us: seq<Tree>, ts: seq<Tree>)
    requires IsSuffix(vs, us) && IsSuffix(us, ts)
    ensures IsSuffix(vs, ts)
  {
  }

  lemma SuffixFirst(us: seq<Tree>, ts: seq<Tree>)
    requires IsSuffix(us, ts) && us != []
    ensures IsSuffix(us[1..], ts) && (ts decreases to us[1..]) && (ts decreases to us[0])
  {
    assert us[0] == ts[|ts| - |us|];
  }
}
