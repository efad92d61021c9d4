/** Block exchange by cycles: `gcd` and `permute_args` of getopt_long.c.

    The range of N arguments holds n non-options followed by p options.  The
    code walks the permutation x -> x - n (for options) or x + p (for
    non-options) one cycle at a time, starting a cycle at each of the first
    gcd(n, p) options.
  */
module GetoptPermute {

  // ---------------------------------------------------------------------- gcd

  /** Euclid's loop, with the certificates it implies: g divides both numbers
      and is a combination of them, so no larger number divides both. */
  method Gcd(a0: int, b0: int) returns (g: int, ghost a': int, ghost b': int, ghost u: int, ghost v: int)
    requires a0 > 0 && b0 > 0
    ensures g > 0 && a0 == g * a' && b0 == g * b'
    ensures g == u * a0 + v * b0
  {
    var a, b := a0, b0;
    var c := a % b;
    // a = ua*a0 + va*b0, b = ub*a0 + vb*b0, a0 = sa*a + ta*b, b0 = sb*a + tb*b
    ghost var ua, va, ub, vb, sa, ta, sb, tb := 1, 0, 0, 1, 1, 0, 0, 1;
    while c != 0
      invariant a > 0 && b > 0 && c == a % b
      invariant a == ua * a0 + va * b0 && b == ub * a0 + vb * b0
      invariant a0 == sa * a + ta * b && b0 == sb * a + tb * b
      decreases c
    {
      ghost var q := a / b;
      Remainder(a, b);
      Combine(a, b, c, q, ua, va, ub, vb, a0, b0);
      Uncombine(a, b, c, q, sa, ta, a0);
      Uncombine(a, b, c, q, sb, tb, b0);
      ua, va, ub, vb := ub, vb, ua - q * ub, va - q * vb;
      sa, ta, sb, tb := sa * q + ta, sa, sb * q + tb, sb;
      a := b;
      b := c;
      c := a % b;
    }
    Remainder(a, b);
    Uncombine(a, b, 0, a / b, sa, ta, a0);
    Uncombine(a, b, 0, a / b, sb, tb, b0);
    g, a', b', u, v := b, sa * (a / b) + ta, sb * (a / b) + tb, ub, vb;
    Commute(g, a');
    Commute(g, b');
  }

  lemma Remainder(a: int, b: int)
    requires a > 0 && b > 0
    ensures a == (a / b) * b + a % b && 0 <= a % b < b
  {
  }

  lemma Commute(x: int, y: int)
    ensures x * y == y * x
  {
  }

  lemma Combine(a: int, b: int, c: int, q: int, ua: int, va: int, ub: int, vb: int, a0: int, b0: int)
    requires a == q * b + c && a == ua * a0 + va * b0 && b == ub * a0 + vb * b0
    ensures c == (ua - q * ub) * a0 + (va - q * vb) * b0
  {
    assert q * b == q * (ub * a0) + q * (vb * b0);
    assert q * (ub * a0) == (q * ub) * a0 && q * (vb * b0) == (q * vb) * b0;
    assert (ua - q * ub) * a0 == ua * a0 - (q * ub) * a0;
    assert (va - q * vb) * b0 == va * b0 - (q * vb) * b0;
  }

  lemma Uncombine(a: int, b: int, c: int, q: int, s: int, t: int, z: int)
    requires a == q * b + c && z == s * a + t * b
    ensures z == (s * q + t) * b + s * c
  {
    assert s * a == s * (q * b) + s * c;
    assert s * (q * b) == (s * q) * b;
    assert (s * q + t) * b == (s * q) * b + t * b;
  }

  /** What the certificates mean: every common divisor is at most g. */
  lemma GcdIsGreatest(a: int, b: int, g: int, u: int, v: int, d: int, a': int, b': int)
    requires a > 0 && b > 0 && g > 0 && g == u * a + v * b
    requires d > 0 && a == d * a' && b == d * b'
    ensures d <= g
  {
    assert u * (d * a') == d * (u * a') && v * (d * b') == d * (v * b');
    assert g == d * (u * a' + v * b');
    var k := u * a' + v * b';
    assert k <= 0 ==> d * k <= 0;
    assert k >= 1 ==> d * k >= d;
  }

  // ------------------------------------------------------------------- cycles

  /** Where the element at x belongs: options move down by n, non-options up by p. */
  function Next(n: int, p: int, x: int): int {
    if x >= n then x - n else x + p
  }

  /** The j-th position of the walk from s. */
  ghost function Orbit(n: int, p: int, s: int, j: nat): (x: int)
    requires n > 0 && p > 0 && 0 <= s < n + p
    ensures 0 <= x < n + p
  {
    if j == 0 then s else Next(n, p, Orbit(n, p, s, j - 1))
  }

  /** How often the first j steps of the walk wrapped around. */
  ghost function Wraps(n: int, p: int, s: int, j: nat): int
    requires n > 0 && p > 0 && 0 <= s < n + p
  {
    if j == 0 then 0 else Wraps(n, p, s, j - 1) + if Orbit(n, p, s, j - 1) >= n then 1 else 0
  }

  lemma {:induction false} OrbitForm(n: int, p: int, s: int, j: nat)
    requires n > 0 && p > 0 && 0 <= s < n + p
    ensures Orbit(n, p, s, j) == s + j * p - Wraps(n, p, s, j) * (n + p)
  {
    if j > 0 {
      OrbitForm(n, p, s, j - 1);
      OneMore(j - 1, p);
      OneMore(Wraps(n, p, s, j - 1), n + p);
    }
  }

  lemma OneMore(x: int, y: int)
    ensures (x + 1) * y == x * y + y
  {
  }

  /** n, p and g with the certificates of `Gcd`, L the cycle length, and a
      number w that steps by g: w * p = g - v * N. */
  datatype Cycles = Cycles(n: int, p: int, g: int, n': int, p': int, len: int, w: int, v: int)

  ghost predicate Good(c: Cycles) {
    && c.n > 0 && c.p > 0 && c.g > 0 && c.n == c.g * c.n' && c.p == c.g * c.p'
    && c.len == c.n' + c.p' && c.len > 0 && c.n + c.p == c.g * c.len
    && c.w * c.p == c.g - c.v * (c.n + c.p)
  }

  lemma MakeGood(n: int, p: int, g: int, n': int, p': int, u: int, v: int) returns (c: Cycles)
    requires n > 0 && p > 0 && g > 0 && n == g * n' && p == g * p' && g == u * n + v * p
    ensures c == Cycles(n, p, g, n', p', n' + p', v - u, u) && Good(c)
    ensures (n + p) / g == c.len
  {
    c := Cycles(n, p, g, n', p', n' + p', v - u, u);
    assert g * (n' + p') == g * n' + g * p';
    assert (v - u) * p == v * p - u * p;
    assert u * (n + p) == u * n + u * p;
    assert n' + p' <= 0 ==> g * (n' + p') <= 0;
    Quotient(g, n' + p');
  }

  lemma Quotient(g: int, k: int)
    requires g > 0
    ensures (g * k) / g == k
  {
    var x := g * k;
    assert x == g * (x / g) + x % g;
    assert g * (k - x / g) == x % g;
    OnlyMultiple(x % g, 0, g, k - x / g);
    CancelFactor(x / g, k, g);
  }

  lemma OnlyMultiple(x: int, y: int, N: int, m: int)
    requires 0 <= x < N && 0 <= y < N && x == y + N * m
    ensures x == y
  {
    assert m >= 1 ==> N * m >= N;
    assert m <= -1 ==> N * m <= -N;
  }

  /** The walk is back at its start after len steps. */
  lemma OrbitReturns(c: Cycles, s: int)
    requires Good(c) && 0 <= s < c.n + c.p
    ensures Orbit(c.n, c.p, s, c.len) == s
  {
    hide Orbit, Wraps;
    var N, t := c.n + c.p, Wraps(c.n, c.p, s, c.len);
    OrbitForm(c.n, c.p, s, c.len);
    assert c.len * c.p == N * c.p' by {
      assert c.len * (c.g * c.p') == (c.g * c.len) * c.p';
    }
    assert N * (c.p' - t) == N * c.p' - t * N;
    OnlyMultiple(Orbit(c.n, c.p, s, c.len), s, N, c.p' - t);
  }

  /** ... and not before: the positions of one round are all different. */
  lemma OrbitDistinct(c: Cycles, s: int, j: nat, k: nat)
    requires Good(c) && 0 <= s < c.n + c.p && j < k < c.len
    ensures Orbit(c.n, c.p, s, j) != Orbit(c.n, c.p, s, k)
  {
    if Orbit(c.n, c.p, s, j) == Orbit(c.n, c.p, s, k) {
      var N, d, t := c.n + c.p, k - j, Wraps(c.n, c.p, s, k) - Wraps(c.n, c.p, s, j);
      OrbitForm(c.n, c.p, s, j);
      OrbitForm(c.n, c.p, s, k);
      assert d * c.p == t * N by {
        assert d * c.p == k * c.p - j * c.p;
        assert t * N == Wraps(c.n, c.p, s, k) * N - Wraps(c.n, c.p, s, j) * N;
      }
      NoMultipleBetween(c.len, d, c.w * t + d * c.v);
      MultipleOfLen(c, d, t);
      assert false;
    }
  }

  lemma MultipleOfLen(c: Cycles, d: int, t: int)
    requires Good(c) && d * c.p == t * (c.n + c.p)
    ensures d == c.len * (c.w * t + d * c.v)
  {
    var N, x := c.n + c.p, c.w * t + d * c.v;
    StepByG(c, d);
    assert (c.w * d) * c.p == c.w * (d * c.p) == (c.w * t) * N;
    assert x * N == (c.w * t) * N + N * (c.v * d);
    assert x * (c.g * c.len) == (c.len * x) * c.g;
    CancelFactor(d, c.len * x, c.g);
  }

  lemma CancelFactor(x: int, y: int, g: int)
    requires g > 0 && x * g == y * g
    ensures x == y
  {
    assert (x - y) * g == 0;
  }

  lemma NoMultipleBetween(len: int, d: int, x: int)
    requires 0 < d < len
    ensures d != len * x
  {
    assert x >= 1 ==> len * x >= len;
    assert x <= 0 ==> len * x <= 0;
  }

  /** Every position in the start's residue class lies on the walk. */
  lemma OrbitCovers(c: Cycles, s: int, x: int) returns (j: nat)
    requires Good(c) && 0 <= s < c.n + c.p && 0 <= x < c.n + c.p
    requires x % c.g == s % c.g
    ensures j < c.len && Orbit(c.n, c.p, s, j) == x
  {
    hide Orbit, Wraps;
    var N := c.n + c.p;
    var k := x / c.g - s / c.g;
    ClassOffset(x, s, c.g);
    j := (c.w * k) % c.len;
    var q, t := (c.w * k) / c.len, Wraps(c.n, c.p, s, j);
    QuotientRemainder(c.w * k, c.len);
    OrbitForm(c.n, c.p, s, j);
    CoverAlgebra(c, k, q, j);
    var m := 0 - (c.v * k + q * c.p') - t;
    Spread(N, c.v * k + q * c.p', t);
    OnlyMultiple(Orbit(c.n, c.p, s, j), x, N, m);
  }

  lemma Spread(N: int, x: int, t: int)
    ensures N * (0 - x - t) == 0 - N * x - t * N
  {
  }

  lemma QuotientRemainder(x: int, len: int)
    requires len > 0
    ensures x == len * (x / len) + x % len && 0 <= x % len < len
  {
  }

  lemma ClassOffset(x: int, s: int, g: int)
    requires g > 0 && x % g == s % g
    ensures x == s + g * (x / g - s / g)
  {
    QuotientRemainder(x, g);
    QuotientRemainder(s, g);
    assert g * (x / g - s / g) == g * (x / g) - g * (s / g);
  }

  lemma CoverAlgebra(c: Cycles, k: int, q: int, j: int)
    requires Good(c) && c.w * k == c.len * q + j
    ensures j * c.p == c.g * k - (c.n + c.p) * (c.v * k + q * c.p')
  {
    var N := c.n + c.p;
    StepByG(c, k);
    assert (c.len * q + j) * c.p == (c.len * q) * c.p + j * c.p;
    assert (c.len * q) * (c.g * c.p') == (c.g * c.len) * (q * c.p');
    assert N * (c.v * k + q * c.p') == N * (c.v * k) + N * (q * c.p');
  }

  lemma StepByG(c: Cycles, k: int)
    requires Good(c)
    ensures (c.w * k) * c.p == c.g * k - (c.n + c.p) * (c.v * k)
  {
    var N := c.n + c.p;
    assert (c.w * k) * c.p == k * (c.w * c.p);
    assert k * (c.g - c.v * N) == c.g * k - N * (c.v * k);
  }

  /** A step stays in its residue class. */
  lemma NextKeepsClass(c: Cycles, x: int)
    requires Good(c) && 0 <= x < c.n + c.p
    ensures Next(c.n, c.p, x) % c.g == x % c.g
  {
    if x >= c.n {
      SameResidue(x, x - c.n, c.g, c.n');
    } else {
      SameResidue(x + c.p, x, c.g, c.p');
    }
  }

  lemma SameResidue(x: int, y: int, g: int, k: int)
    requires g > 0 && x == y + g * k
    ensures x % g == y % g
  {
    var r, q := y % g, y / g;
    assert y == g * q + r;
    assert g * (q + k) == g * q + g * k;
    ResidueUnique(g, q + k, r);
  }

  lemma ResidueUnique(g: int, q: int, r: int)
    requires g > 0 && 0 <= r < g
    ensures (g * q + r) % g == r
  {
    var x := g * q + r;
    assert x == g * (x / g) + x % g;
    assert g * (q - x / g) == x % g - r;
    OnlyMultiple(x % g, r, g, q - x / g);
  }

  lemma {:induction false} OrbitKeepsClass(c: Cycles, s: int, j: nat)
    requires Good(c) && 0 <= s < c.n + c.p
    ensures Orbit(c.n, c.p, s, j) % c.g == s % c.g
  {
    if j > 0 {
      OrbitKeepsClass(c, s, j - 1);
      NextKeepsClass(c, Orbit(c.n, c.p, s, j - 1));
    }
  }

  // ------------------------------------------------------------ the exchange

  ghost predicate Visited(c: Cycles, s: int, j: nat, x: int)
    requires Good(c) && 0 <= s < c.n + c.p
  {
    exists t: nat :: t <= j && Orbit(c.n, c.p, s, t) == x
  }

  /** After j swaps on the cycle of s, the elements at its first j positions have
      moved one step, and the start holds the element of position j. */
  ghost predicate Moved<T>(orig: seq<T>, before: seq<T>, cur: seq<T>, base: nat, c: Cycles, s: int, j: nat)
    requires Good(c) && 0 <= s < c.n + c.p
  {
    && |orig| == |before| == |cur| && base + c.n + c.p <= |cur|
    && (forall t: nat :: 1 <= t <= j ==> cur[base + Orbit(c.n, c.p, s, t)] == orig[base + Orbit(c.n, c.p, s, t - 1)])
    && cur[base + s] == orig[base + Orbit(c.n, c.p, s, j)]
    && (forall x :: 0 <= x < |cur| && !Visited(c, s, j, x - base) ==> cur[x] == before[x])
  }

  lemma NotYetVisited(c: Cycles, s: int, j: nat)
    requires Good(c) && 0 <= s < c.n + c.p && j + 1 < c.len
    ensures !Visited(c, s, j, Orbit(c.n, c.p, s, j + 1))
  {
    forall t: nat | t <= j ensures Orbit(c.n, c.p, s, t) != Orbit(c.n, c.p, s, j + 1) {
      OrbitDistinct(c, s, t, j + 1);
    }
  }

  lemma MoveOne<T>(orig: seq<T>, before: seq<T>, cur: seq<T>, base: nat, c: Cycles, s: int, j: nat)
    requires Good(c) && 0 <= s < c.n + c.p && j + 1 < c.len
    requires Moved(orig, before, cur, base, c, s, j)
    requires before[base + Orbit(c.n, c.p, s, j + 1)] == orig[base + Orbit(c.n, c.p, s, j + 1)]
    ensures var pos := base + Orbit(c.n, c.p, s, j + 1);
            Moved(orig, before, cur[pos := cur[base + s]][base + s := cur[pos]], base, c, s, j + 1)
  {
    hide Orbit, Good;
    GoodPositive(c);
    var pos := base + Orbit(c.n, c.p, s, j + 1);
    var cur' := cur[pos := cur[base + s]][base + s := cur[pos]];
    NotYetVisited(c, s, j);
    StartVisited(c, s, j);
    forall t: nat | 1 <= t <= j + 1
      ensures cur'[base + Orbit(c.n, c.p, s, t)] == orig[base + Orbit(c.n, c.p, s, t - 1)]
    {
      StartOnlyOnce(c, s, t);
      if t <= j {
        OrbitDistinct(c, s, t, j + 1);
      }
    }
    forall x | 0 <= x < |cur'| && !Visited(c, s, j + 1, x - base) ensures cur'[x] == before[x] {
      VisitedGrows(c, s, j, x - base);
      StartVisited(c, s, j + 1);
    }
  }

  lemma StartVisited(c: Cycles, s: int, j: nat)
    requires Good(c) && 0 <= s < c.n + c.p
    ensures Visited(c, s, j, s)
  {
    assert Orbit(c.n, c.p, s, 0) == s;
  }

  lemma StartOnlyOnce(c: Cycles, s: int, t: nat)
    requires Good(c) && 0 <= s < c.n + c.p && 1 <= t < c.len
    ensures Orbit(c.n, c.p, s, t) != s
  {
    OrbitDistinct(c, s, 0, t);
  }

  lemma VisitedGrows(c: Cycles, s: int, j: nat, x: int)
    requires Good(c) && 0 <= s < c.n + c.p
    ensures Visited(c, s, j, x) ==> Visited(c, s, j + 1, x)
    ensures Visited(c, s, j + 1, Orbit(c.n, c.p, s, j + 1))
  {
    hide Orbit;
    if Visited(c, s, j, x) {
      var t: nat :| t <= j && Orbit(c.n, c.p, s, t) == x;
      assert t <= j + 1;
    }
  }

  /** The classes below i have been moved, the others are untouched. */
  ghost predicate ClassesDone<T>(orig: seq<T>, cur: seq<T>, base: nat, c: Cycles, i: int)
    requires Good(c)
  {
    && |orig| == |cur| && base + c.n + c.p <= |cur|
    && (forall x :: 0 <= x < c.n + c.p && x % c.g < i ==> cur[base + Next(c.n, c.p, x)] == orig[base + x])
    && (forall x :: 0 <= x < c.n + c.p && x % c.g >= i ==> cur[base + x] == orig[base + x])
    && (forall x :: 0 <= x < |cur| && !(base <= x < base + c.n + c.p) ==> cur[x] == orig[x])
  }

  lemma ClassNotVisited(c: Cycles, s: int, j: nat, x: int)
    requires Good(c) && 0 <= s < c.n + c.p && x % c.g != s % c.g
    ensures !Visited(c, s, j, x)
  {
    hide Orbit, Good;
    GoodPositive(c);
    forall t: nat | t <= j ensures Orbit(c.n, c.p, s, t) != x {
      OrbitKeepsClass(c, s, t);
    }
  }

  lemma OutsideNotVisited(c: Cycles, s: int, j: nat, x: int)
    requires Good(c) && 0 <= s < c.n + c.p && !(0 <= x < c.n + c.p)
    ensures !Visited(c, s, j, x)
  {
    hide Good;
    GoodPositive(c);
  }

  /** One full cycle moves every element of its class. */
  lemma CycleMovesClass<T>(orig: seq<T>, before: seq<T>, cur: seq<T>, base: nat, c: Cycles, s: int, x: int)
    requires Good(c) && 0 <= s < c.n + c.p && 0 <= x < c.n + c.p && x % c.g == s % c.g
    requires Moved(orig, before, cur, base, c, s, c.len - 1)
    ensures 0 <= Next(c.n, c.p, x) < c.n + c.p && cur[base + Next(c.n, c.p, x)] == orig[base + x]
  {
    var j := OrbitCovers(c, s, x);
    hide Good;
    GoodPositive(c);
    assert Next(c.n, c.p, x) == Orbit(c.n, c.p, s, j + 1);
    if j == c.len - 1 {
      OrbitReturns(c, s);
    }
  }

  lemma CycleDone<T>(orig: seq<T>, before: seq<T>, cur: seq<T>, base: nat, c: Cycles, s: int, i: int)
    requires Good(c) && 0 <= s < c.n + c.p && s % c.g == i
    requires ClassesDone(orig, before, base, c, i) && Moved(orig, before, cur, base, c, s, c.len - 1)
    ensures ClassesDone(orig, cur, base, c, i + 1)
  {
    hide Good, Orbit, Visited;
    GoodPositive(c);
    var N := c.n + c.p;
    forall x | 0 <= x < N && x % c.g < i + 1 ensures 0 <= Next(c.n, c.p, x) < N && cur[base + Next(c.n, c.p, x)] == orig[base + x] {
      if x % c.g == i {
        CycleMovesClass(orig, before, cur, base, c, s, x);
      } else {
        NextKeepsClass(c, x);
        ClassNotVisited(c, s, c.len - 1, Next(c.n, c.p, x));
      }
    }
    forall x | 0 <= x < N && x % c.g >= i + 1 ensures cur[base + x] == orig[base + x] {
      ClassNotVisited(c, s, c.len - 1, x);
    }
    forall x | 0 <= x < |cur| && !(base <= x < base + N) ensures cur[x] == orig[x] {
      OutsideNotVisited(c, s, c.len - 1, x - base);
    }
  }

  lemma GoodPositive(c: Cycles)
    requires Good(c)
    ensures c.n > 0 && c.p > 0 && c.g > 0 && c.len > 0
  {
  }

  /** The array with the two adjacent blocks [from, mid) and [mid, to) exchanged. */
  ghost function Exchanged<T>(a: seq<T>, from: int, mid: int, to: int): seq<T>
    requires 0 <= from <= mid <= to <= |a|
  {
    a[..from] + a[mid..to] + a[from..mid] + a[to..]
  }

  lemma AllMovedIsExchanged<T>(orig: seq<T>, cur: seq<T>, from: nat, mid: int, to: int, c: Cycles)
    requires Good(c) && from < mid < to <= |orig| && c.n == mid - from && c.p == to - mid
    requires ClassesDone(orig, cur, from, c, c.g)
    ensures cur == Exchanged(orig, from, mid, to)
  {
    var e := Exchanged(orig, from, mid, to);
    forall y | 0 <= y < |cur| ensures cur[y] == e[y] {
      if from <= y < from + c.p {
        MovedAt(orig, cur, from, c, y - from + c.n);
      } else if from + c.p <= y < to {
        MovedAt(orig, cur, from, c, y - from - c.p);
      }
    }
  }

  lemma MovedAt<T>(orig: seq<T>, cur: seq<T>, base: nat, c: Cycles, x: int)
    requires Good(c) && ClassesDone(orig, cur, base, c, c.g) && 0 <= x < c.n + c.p
    ensures cur[base + Next(c.n, c.p, x)] == orig[base + x]
  {
    assert x % c.g < c.g;
  }

  lemma StartClass(c: Cycles, i: int)
    requires Good(c) && 0 <= i < c.g
    ensures (c.n + i) % c.g == i && c.n + i < c.n + c.p
  {
    ResidueUnique(c.g, c.n', i);
    assert c.p' <= 0 ==> c.g * c.p' <= 0;
    assert c.p' >= 1 ==> c.g * c.p' >= c.g;
  }

  /** The inner loop of `permute_args`. */
  method Cycle<T>(argv: array<T>, from: nat, mid: nat, to: nat, i: nat, len: nat, ghost c: Cycles, ghost orig: seq<T>)
    requires from < mid < to <= argv.Length && mid + i < to
    requires Good(c) && c.n == mid - from && c.p == to - mid && c.len == len && i < c.g
    requires ClassesDone(orig, argv[..], from, c, i)
    modifies argv
    ensures ClassesDone(orig, argv[..], from, c, i + 1)
  {
    hide Good, Moved, ClassesDone, Orbit;
    var nnonopts, nopts := mid - from, to - mid;
    ghost var before, s := argv[..], c.n + i;
    StartClass(c, i);
    MovedNone(orig, before, from, c, s, i);
    var cstart := mid + i;
    var pos := cstart;
    for j := 0 to len
      invariant from <= pos < to && pos - from == Orbit(c.n, c.p, s, j)
      invariant Moved(orig, before, argv[..], from, c, s, if j < len then j else len - 1)
    {
      OrbitNext(c, s, j);
      if pos >= mid {
        pos := pos - nnonopts;
      } else {
        pos := pos + nopts;
      }
      ghost var cur := argv[..];
      if j + 1 < len {
        UntouchedNext(orig, before, from, c, s, i, j);
        MoveOne(orig, before, cur, from, c, s, j);
      } else {
        OrbitReturns(c, s);
      }
      argv[pos], argv[cstart] := argv[cstart], argv[pos];
      assert argv[..] == cur[pos := cur[cstart]][cstart := cur[pos]];
      assert j + 1 == len ==> argv[..] == cur;
    }
    CycleDone(orig, before, argv[..], from, c, s, i);
  }

  lemma MovedNone<T>(orig: seq<T>, before: seq<T>, base: nat, c: Cycles, s: int, i: int)
    requires Good(c) && 0 <= s < c.n + c.p && s % c.g == i && ClassesDone(orig, before, base, c, i)
    ensures Moved(orig, before, before, base, c, s, 0) && Orbit(c.n, c.p, s, 0) == s && c.len > 0
  {
  }

  lemma OrbitNext(c: Cycles, s: int, j: nat)
    requires Good(c) && 0 <= s < c.n + c.p
    ensures Orbit(c.n, c.p, s, j + 1) == Next(c.n, c.p, Orbit(c.n, c.p, s, j))
  {
  }

  lemma UntouchedNext<T>(orig: seq<T>, before: seq<T>, base: nat, c: Cycles, s: int, i: int, j: nat)
    requires Good(c) && 0 <= s < c.n + c.p && s % c.g == i && ClassesDone(orig, before, base, c, i)
    ensures base + c.n + c.p <= |before| == |orig|
    ensures before[base + Orbit(c.n, c.p, s, j + 1)] == orig[base + Orbit(c.n, c.p, s, j + 1)]
  {
    OrbitKeepsClass(c, s, j + 1);
  }

  /** `permute_args`: exchanges the non-options [from, mid) with the options
      [mid, to), keeping the order inside each block. */
  method PermuteArgs<T>(argv: array<T>, from: nat, mid: nat, to: nat)
    requires from < mid < to <= argv.Length
    modifies argv
    ensures argv[..] == Exchanged(old(argv[..]), from, mid, to)
  {
    hide Good, ClassesDone;
    ghost var orig := argv[..];
    var nnonopts, nopts := mid - from, to - mid;
    var ncycle, n', p', u, v := Gcd(nnonopts, nopts);
    ghost var c := MakeGood(nnonopts, nopts, ncycle, n', p', u, v);
    GoodPositive(c);
    var cyclelen := (to - from) / ncycle;
    NothingDone(orig, from, c);
    for i := 0 to ncycle
      invariant ClassesDone(orig, argv[..], from, c, i)
    {
      StartClass(c, i);
      Cycle(argv, from, mid, to, i, cyclelen, c, orig);
    }
    AllMovedIsExchanged(orig, argv[..], from, mid, to, c);
  }

  lemma NothingDone<T>(orig: seq<T>, base: nat, c: Cycles)
    requires Good(c) && base + c.n + c.p <= |orig|
    ensures ClassesDone(orig, orig, base, c, 0)
  {
  }
}
