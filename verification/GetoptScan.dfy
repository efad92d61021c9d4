/** The option scanner: `parse_long_options` and `getopt_internal` of
    getopt_long.c, and the caller's loop around `getopt_long`.

    `Scan` says, word by word and without moving anything, which arguments are
    options (or option arguments) and which are not, and what is returned on
    the way.  The class below does what the C code does: it keeps `optind`,
    `place`, `nonopt_start` and `nonopt_end` between calls and permutes argv as
    it goes.  The long-option table is present and no entry has val -1.
  */
module GetoptScan {
  import opened GetoptPermute
  import opened Wrappers

  datatype HasArg = NoArgument | RequiredArgument | OptionalArgument

  /** flag is the identity of the variable the entry points at, if any. */
  datatype LongOption = LongOption(name: string, hasArg: HasArg, flag: Option<nat>, val: int)

  /** The option letters after a leading '+' or '-', the long options, and the
      flags of `getopt_internal`. */
  datatype Config = Config(letters: string, longs: seq<LongOption>, permute: bool, allArgs: bool, longOnly: bool)

  /** What one call returns: the code, `optarg`, and the index stored through idx. */
  datatype Ret = Ret(code: int, arg: Option<string>, idx: Option<nat>)

  const DONE := -1
  const INORDER := 1
  const BADCH := '?' as int

  function BadArg(cfg: Config): int {
    if cfg.letters != "" && cfg.letters[0] == ':' then ':' as int else BADCH
  }

  /** The first lines of `getopt_internal`. */
  function Setup(options: string, longs: seq<LongOption>, posixlyCorrect: bool, longOnly: bool): Config {
    var first := if options == "" then ' ' else options[0];
    Config(if first == '+' || first == '-' then options[1..] else options, longs,
           first == '-' || !(posixlyCorrect || first == '+'), first == '-', longOnly)
  }

  ghost predicate TableOk(cfg: Config) {
    forall k :: 0 <= k < |cfg.longs| ==> cfg.longs[k].val != DONE
  }

  // ------------------------------------------------------------- long options

  datatype Match = NoMatch | Ambiguous | Found(k: nat)

  predicate Partial(longs: seq<LongOption>, name: string, shortToo: bool, k: nat)
    requires k < |longs|
  {
    name <= longs[k].name && !(shortToo && |name| == 1)
  }

  predicate Differ(x: LongOption, y: LongOption) {
    x.hasArg != y.hasArg || x.flag != y.flag || x.val != y.val
  }

  /** The first entry from k on whose name is exactly the one given. */
  ghost function FirstExact(longs: seq<LongOption>, name: string, k: nat): (r: nat)
    requires k <= |longs|
    ensures k <= r <= |longs| && (r < |longs| ==> longs[r].name == name)
    ensures forall i :: k <= i < r ==> longs[i].name != name
    decreases |longs| - k
  {
    if k == |longs| || longs[k].name == name then k else FirstExact(longs, name, k + 1)
  }

  /** The first entry from k on whose name begins with the one given. */
  ghost function FirstPartial(longs: seq<LongOption>, name: string, shortToo: bool, k: nat): (r: nat)
    requires k <= |longs|
    ensures k <= r <= |longs| && (r < |longs| ==> Partial(longs, name, shortToo, r))
    ensures forall i :: k <= i < r ==> !Partial(longs, name, shortToo, i)
    decreases |longs| - k
  {
    if k == |longs| || Partial(longs, name, shortToo, k) then k else FirstPartial(longs, name, shortToo, k + 1)
  }

  /** Some entry between f and n begins with the name as well but is not
      interchangeable with entry f. */
  ghost predicate Clashes(cfg: Config, name: string, shortToo: bool, f: nat, n: nat)
    requires f < n <= |cfg.longs|
  {
    exists k :: f < k < n && Partial(cfg.longs, name, shortToo, k) && (cfg.longOnly || Differ(cfg.longs[k], cfg.longs[f]))
  }

  /** The entry of that name if there is one; else the first that begins with
      it, unless another one clashes. */
  ghost function LongMatch(cfg: Config, name: string, shortToo: bool): (m: Match)
    ensures m.Found? ==> m.k < |cfg.longs|
  {
    var e, f := FirstExact(cfg.longs, name, 0), FirstPartial(cfg.longs, name, shortToo, 0);
    if e < |cfg.longs| then Found(e)
    else if f == |cfg.longs| then NoMatch
    else if Clashes(cfg, name, shortToo, f, |cfg.longs|) then Ambiguous
    else Found(f)
  }

  /** The loop of `parse_long_options`. */
  method FindLong(cfg: Config, name: string, shortToo: bool) returns (m: Match)
    ensures m == LongMatch(cfg, name, shortToo)
  {
    var longs := cfg.longs;
    ghost var e, f := FirstExact(longs, name, 0), FirstPartial(longs, name, shortToo, 0);
    var found, second := -1, false;
    var i := 0;
    while i < |longs|
      invariant 0 <= i <= |longs| && i <= e
      invariant found == -1 ==> !second && i <= f
      invariant found != -1 ==> found == f < i
      invariant found != -1 ==> (second <==> Clashes(cfg, name, shortToo, f, i))
    {
      if name <= longs[i].name {
        if |longs[i].name| == |name| {
          assert longs[i].name == name;
          return Found(i);
        }
        if !(shortToo && |name| == 1) {
          assert Partial(longs, name, shortToo, i);
          if found == -1 {
            found := i;
          } else if cfg.longOnly || Differ(longs[i], longs[found]) {
            second := true;
          }
        }
      }
      i := i + 1;
    }
    if found == -1 {
      m := NoMatch;
    } else {
      m := if second then Ambiguous else Found(found);
    }
  }

  // -------------------------------------------------- one step of the scanner

  /** What a call does to an option word: how many arguments it moves past, what
      is left of the word, and what it returns. */
  datatype Step = Step(used: nat, place: string, ret: Ret)

  ghost function IndexOf(s: string, c: char, k: nat): (r: nat)
    requires k <= |s|
    ensures k <= r <= |s| && (r < |s| ==> s[r] == c) && forall i :: k <= i < r ==> s[i] != c
    decreases |s| - k
  {
    if k == |s| || s[k] == c then k else IndexOf(s, c, k + 1)
  }

  /** `parse_long_options` on the text of rest[0] (or of what follows -W); None
      stands for "not a long option, try a short one". */
  ghost function LongStep(cfg: Config, rest: seq<string>, text: string, shortToo: bool): (r: Option<Step>)
    requires rest != []
    ensures r.Some? ==> 1 <= r.value.used <= |rest| && r.value.place == ""
    ensures !shortToo ==> r.Some?
    ensures TableOk(cfg) && r.Some? ==> r.value.ret.code != DONE
  {
    var eq := IndexOf(text, '=', 0);
    var name, value := text[..eq], if eq < |text| then Some(text[eq + 1..]) else None;
    match LongMatch(cfg, name, shortToo)
    case Ambiguous => Some(Step(1, "", Ret(BADCH, None, None)))
    case NoMatch => if shortToo then None else Some(Step(1, "", Ret(BADCH, None, None)))
    case Found(k) =>
      var o := cfg.longs[k];
      var code := if o.flag.Some? then 0 else o.val;
      if o.hasArg == NoArgument && value.Some? then Some(Step(1, "", Ret(BADCH, None, None)))
      else if o.hasArg != RequiredArgument || value.Some? then
        Some(Step(1, "", Ret(code, value, Some(k))))
      else if |rest| > 1 then Some(Step(2, "", Ret(code, Some(rest[1]), Some(k))))
      else Some(Step(1, "", Ret(BadArg(cfg), None, None)))
  }

  /** The short-option half of `getopt_internal`. */
  ghost function ShortStep(cfg: Config, rest: seq<string>, place: string): (s: Step)
    requires rest != [] && place != ""
    ensures s.used <= |rest| && (s.used == 0 <==> s.place != "") && |s.place| < |place|
    ensures TableOk(cfg) ==> s.ret.code != DONE
  {
    var c, p, letters := place[0], place[1..], cfg.letters;
    var at := IndexOf(letters, c, 0);
    var next := if at + 1 < |letters| then letters[at + 1] else ' ';
    var next2 := if at + 2 < |letters| then letters[at + 2] else ' ';
    if c == ':' || at == |letters| then
      Step(if p == "" then 1 else 0, p, Ret(BADCH, None, None))
    else if c == 'W' && next == ';' then
      if p != "" then LongStep(cfg, rest, p, false).value
      else if |rest| == 1 then Step(1, "", Ret(BadArg(cfg), None, None))
      else
        var s := LongStep(cfg, rest[1..], rest[1], false).value;
        s.(used := s.used + 1)
    else if next != ':' then
      Step(if p == "" then 1 else 0, p, Ret(c as int, None, None))
    else if p != "" then Step(1, "", Ret(c as int, Some(p), None))
    else if next2 == ':' then Step(1, "", Ret(c as int, None, None))
    else if |rest| == 1 then Step(1, "", Ret(BadArg(cfg), None, None))
    else Step(2, "", Ret(c as int, Some(rest[1]), None))
  }

  /** The rest of `getopt_internal` once `place` points into an option word. */
  ghost function OptStep(cfg: Config, rest: seq<string>, place: string): (s: Step)
    requires rest != [] && place != ""
    ensures s.used <= |rest| && (s.used == 0 <==> s.place != "") && |s.place| < |place|
    ensures TableOk(cfg) ==> s.ret.code != DONE
  {
    if place[0] == '-' then LongStep(cfg, rest, place[1..], false).value
    else if cfg.longOnly then
      match LongStep(cfg, rest, place, place[0] != ':' && place[0] in cfg.letters)
      case Some(s) => s
      case None => ShortStep(cfg, rest, place)
    else ShortStep(cfg, rest, place)
  }

  // ------------------------------------------------------- the whole argv

  predicate IsNonOption(w: string) {
    w == "" || w[0] != '-' || w == "-"
  }

  /** The arguments an option word takes up, from `place` on. */
  ghost function WordLength(cfg: Config, rest: seq<string>, place: string): (k: nat)
    requires rest != [] && place != ""
    ensures 1 <= k <= |rest|
    decreases |place|
  {
    var s := OptStep(cfg, rest, place);
    if s.place == "" then s.used else WordLength(cfg, rest, s.place)
  }

  ghost function WordReturns(cfg: Config, rest: seq<string>, place: string): seq<Ret>
    requires rest != [] && place != ""
    decreases |place|
  {
    var s := OptStep(cfg, rest, place);
    [s.ret] + if s.place == "" then [] else WordReturns(cfg, rest, s.place)
  }

  /** The arguments that belong to options, those that do not, each in order, and
      everything the calls return. */
  datatype Scanned = Scanned(opts: seq<string>, nons: seq<string>, rets: seq<Ret>)

  ghost function Scan(cfg: Config, rest: seq<string>): Scanned
    decreases |rest|, 1, 0
  {
    if rest == [] then Scanned([], [], [])
    else if IsNonOption(rest[0]) then
      if cfg.allArgs then
        var s := Scan(cfg, rest[1..]);
        Scanned([rest[0]] + s.opts, s.nons, [Ret(INORDER, Some(rest[0]), None)] + s.rets)
      else if !cfg.permute then Scanned([], rest, [])
      else
        var s := Scan(cfg, rest[1..]);
        Scanned(s.opts, [rest[0]] + s.nons, s.rets)
    else if rest[0] == "--" then Scanned([rest[0]], rest[1..], [])
    else ScanWord(cfg, rest, rest[0][1..])
  }

  /** The same, inside the option word rest[0]. */
  ghost function ScanWord(cfg: Config, rest: seq<string>, place: string): Scanned
    requires rest != [] && place != ""
    decreases |rest|, 0, |place|
  {
    var k := WordLength(cfg, rest, place);
    var s := Scan(cfg, rest[k..]);
    Scanned(rest[..k] + s.opts, s.nons, WordReturns(cfg, rest, place) + s.rets)
  }

  /** The elements of s that m marks with b, in order. */
  ghost function Kept(s: seq<string>, m: seq<bool>, b: bool): seq<string>
    requires |m| == |s|
  {
    if s == [] then [] else (if m[0] == b then [s[0]] else []) + Kept(s[1..], m[1..], b)
  }

  lemma KeptFirst(x: string, s: seq<string>, y: bool, m: seq<bool>, b: bool)
    requires |m| == |s|
    ensures Kept([x] + s, [y] + m, b) == (if y == b then [x] else []) + Kept(s, m, b)
  {
    assert ([x] + s)[1..] == s && ([y] + m)[1..] == m;
  }

  lemma {:induction false} KeptJoin(s: seq<string>, t: seq<string>, m: seq<bool>, n: seq<bool>, b: bool)
    requires |m| == |s| && |n| == |t|
    ensures Kept(s + t, m + n, b) == Kept(s, m, b) + Kept(t, n, b)
  {
    if s == [] {
      assert s + t == t && m + n == n;
    } else {
      KeptJoin(s[1..], t, m[1..], n, b);
      KeptFirst(s[0], s[1..], m[0], m[1..], b);
      KeptFirst(s[0], s[1..] + t, m[0], m[1..] + n, b);
      hide Kept;
      assert s + t == [s[0]] + (s[1..] + t) && m + n == [m[0]] + (m[1..] + n);
      assert s == [s[0]] + s[1..] && m == [m[0]] + m[1..];
    }
  }

  lemma {:induction false} KeptAll(s: seq<string>, m: seq<bool>, x: bool)
    requires |m| == |s| && forall i :: 0 <= i < |m| ==> m[i] == x
    ensures Kept(s, m, x) == s && Kept(s, m, !x) == []
  {
    if s != [] {
      KeptAll(s[1..], m[1..], x);
      assert s == [s[0]] + s[1..];
    }
  }

  /** A front of the arguments that all go one way, and the partition of the rest. */
  lemma KeptFront(front: seq<string>, rest: seq<string>, x: bool, m: seq<bool>) returns (mask: seq<bool>)
    requires |m| == |rest|
    ensures |mask| == |front| + |rest|
    ensures Kept(front + rest, mask, x) == front + Kept(rest, m, x)
    ensures Kept(front + rest, mask, !x) == Kept(rest, m, !x)
  {
    var f := seq(|front|, _ => x);
    mask := f + m;
    KeptAll(front, f, x);
    KeptJoin(front, rest, f, m, x);
    KeptJoin(front, rest, f, m, !x);
  }

  /** The scan is a stable partition: every argument goes to the options or to the
      non-options, and each side keeps the original order. */
  lemma {:induction false} ScanStable(cfg: Config, rest: seq<string>) returns (mask: seq<bool>)
    ensures |mask| == |rest|
    ensures Scan(cfg, rest).opts == Kept(rest, mask, true) && Scan(cfg, rest).nons == Kept(rest, mask, false)
    decreases |rest|
  {
    hide WordLength, WordReturns;
    if rest == [] {
      mask := [];
    } else if IsNonOption(rest[0]) && !cfg.allArgs && !cfg.permute {
      mask := seq(|rest|, _ => false);
      KeptAll(rest, mask, false);
    } else if !IsNonOption(rest[0]) && rest[0] == "--" {
      var m := seq(|rest| - 1, _ => false);
      KeptAll(rest[1..], m, false);
      mask := KeptFront(rest[..1], rest[1..], true, m);
      assert rest[..1] + rest[1..] == rest && rest[..1] == [rest[0]];
    } else {
      var k := if IsNonOption(rest[0]) then 1 else WordLength(cfg, rest, rest[0][1..]);
      var m := ScanStable(cfg, rest[k..]);
      mask := KeptFront(rest[..k], rest[k..], !IsNonOption(rest[0]) || cfg.allArgs, m);
      assert rest[..k] + rest[k..] == rest && (k == 1 ==> rest[..k] == [rest[0]]);
    }
  }

  // ------------------------------------------------- the state between calls

  /** How argv is laid out when `optind` is i: opts before the block of
      non-options [ns, ne), the latest options behind it, and the part from i on
      as it was in the original g. */
  ghost predicate Layout(a: seq<string>, g: seq<string>, i: int, ns: int, ne: int, opts: seq<string>, nons: seq<string>) {
    && |a| == |g| && 1 <= i <= |g| && a[0] == g[0] && a[i..] == g[i..]
    && (if ns == -1 then ne == -1 && nons == [] && a[1..i] == opts
        else if ne == -1 then 1 <= ns < i && a[1..ns] == opts && a[ns..i] == nons
        else 1 <= ns < ne <= i && a[1..ns] + a[ne..i] == opts && a[ns..ne] == nons)
  }

  ghost function Joined(s: Scanned, r: Scanned): Scanned {
    Scanned(s.opts + r.opts, s.nons + r.nons, s.rets + r.rets)
  }

  /** What the scan still has to say, from the argument i or inside its word. */
  ghost function Remaining(cfg: Config, g: seq<string>, i: int, place: string): Scanned
    requires 0 <= i <= |g| && (place != "" ==> i < |g|)
  {
    if place == "" then Scan(cfg, g[i..]) else ScanWord(cfg, g[i..], place)
  }

  /** So far the calls have seen exactly the first part of the scan. */
  ghost predicate Midway(cfg: Config, g: seq<string>, i: int, place: string, ns: int, ne: int, seen: Scanned) {
    && 1 <= i <= |g| && (place != "" ==> i < |g|)
    && (place != "" && ns != -1 ==> ne != -1)
    && (place == "" && ne != -1 ==> ne < i)
    && (cfg.allArgs || !cfg.permute ==> ns == -1)
    && Joined(seen, Remaining(cfg, g, i, place)) == Scan(cfg, g[1..])
  }

  /** The scanner between two calls. */
  ghost predicate Between(cfg: Config, g: seq<string>, a: seq<string>, i: int, place: string, ns: int, ne: int, seen: Scanned) {
    Layout(a, g, i, ns, ne, seen.opts, seen.nons) && Midway(cfg, g, i, place, ns, ne, seen)
  }

  /** The run is over: argv is the program name, the options, the non-options. */
  ghost predicate Finished(cfg: Config, g: seq<string>, a: seq<string>, i: int, rets: seq<Ret>)
    requires g != []
  {
    var s := Scan(cfg, g[1..]);
    a == g[..1] + s.opts + s.nons && i == 1 + |s.opts| && rets == s.rets
  }

  // ------------------------------------------------------------------ steps

  lemma ExchangedParts(a: seq<string>, ns: int, ne: int, i: int)
    requires 1 <= ns < ne <= i <= |a|
    ensures var b := Exchanged(a, ns, ne, i);
            && |b| == |a| && b[0] == a[0] && b[i..] == a[i..]
            && b[1..i - (ne - ns)] == a[1..ns] + a[ne..i] && b[i - (ne - ns)..i] == a[ns..ne]
  {
    var b := Exchanged(a, ns, ne, i);
    assert b[i..] == a[i..];
    assert b[1..i - (ne - ns)] == a[1..ns] + a[ne..i];
    assert b[i - (ne - ns)..i] == a[ns..ne];
  }

  /** Skipping a non-option, when no options lie behind the block. */
  lemma LayoutSkip(a: seq<string>, g: seq<string>, i: int, ns: int, opts: seq<string>, nons: seq<string>)
    requires Layout(a, g, i, ns, -1, opts, nons) && i < |g|
    ensures Layout(a, g, i + 1, if ns == -1 then i else ns, -1, opts, nons + [g[i]])
  {
    assert a[i] == a[i..][0] == g[i];
    assert a[i + 1..] == a[i..][1..] && g[i + 1..] == g[i..][1..];
    if ns == -1 {
      assert a[i..i + 1] == [g[i]];
    } else {
      assert a[ns..i + 1] == a[ns..i] + [a[i]];
    }
  }

  /** The permutation puts the options in front of the block. */
  lemma LayoutPermute(a: seq<string>, g: seq<string>, i: int, ns: int, ne: int, opts: seq<string>, nons: seq<string>)
    requires Layout(a, g, i, ns, ne, opts, nons) && ne != -1
    ensures Layout(Exchanged(a, ns, ne, i), g, i, i - (ne - ns), -1, opts, nons)
  {
    ExchangedParts(a, ns, ne, i);
  }

  /** An option word begins: the block ends here. */
  lemma LayoutBlockEnds(a: seq<string>, g: seq<string>, i: int, ns: int, opts: seq<string>, nons: seq<string>)
    requires Layout(a, g, i, ns, -1, opts, nons) && ns != -1
    ensures Layout(a, g, i, ns, i, opts, nons)
  {
    assert a[i..i] == [];
  }

  /** k arguments of an option are passed. */
  lemma LayoutOption(a: seq<string>, g: seq<string>, i: int, ns: int, ne: int, opts: seq<string>, nons: seq<string>, k: nat)
    requires Layout(a, g, i, ns, ne, opts, nons) && (ns != -1 ==> ne != -1) && i + k <= |g|
    ensures Layout(a, g, i + k, ns, ne, opts + g[i..i + k], nons)
  {
    assert a[i..i + k] == a[i..][..k] && g[i..i + k] == g[i..][..k];
    assert a[i + k..] == a[i..][k..] && g[i + k..] == g[i..][k..];
    if ns == -1 {
      assert a[1..i + k] == a[1..i] + a[i..i + k];
    } else {
      assert a[ne..i + k] == a[ne..i] + a[i..i + k];
      assert a[1..ns] + (a[ne..i] + a[i..i + k]) == a[1..ns] + a[ne..i] + a[i..i + k];
    }
  }

  /** Once the block lies behind every option, the layout is the final one. */
  lemma LayoutFinal(a: seq<string>, g: seq<string>, i: int, ns: int, opts: seq<string>, nons: seq<string>)
    requires Layout(a, g, i, ns, -1, opts, nons)
    ensures a == g[..1] + opts + (nons + g[i..])
    ensures (if ns == -1 then i else ns) == 1 + |opts|
  {
    assert a == a[..1] + a[1..i] + a[i..];
    if ns != -1 {
      assert a[1..i] == a[1..ns] + a[ns..i];
    }
    assert a == g[..1] + opts + nons + a[i..];
  }

  lemma SliceStep(g: seq<string>, i: int)
    requires 0 <= i < |g|
    ensures g[i..][0] == g[i] && g[i..][1..] == g[i + 1..]
  {
  }

  lemma MidwaySkip(cfg: Config, g: seq<string>, i: int, ns: int, ne: int, ns': int, seen: Scanned)
    requires Midway(cfg, g, i, "", ns, ne, seen) && i < |g| && IsNonOption(g[i]) && cfg.permute && !cfg.allArgs
    ensures Midway(cfg, g, i + 1, "", ns', -1, seen.(nons := seen.nons + [g[i]]))
  {
    SliceStep(g, i);
    var r := Scan(cfg, g[i + 1..]);
    assert seen.nons + ([g[i]] + r.nons) == seen.nons + [g[i]] + r.nons;
  }

  lemma MidwayInOrder(cfg: Config, g: seq<string>, i: int, ns: int, ne: int, seen: Scanned)
    requires Midway(cfg, g, i, "", ns, ne, seen) && i < |g| && IsNonOption(g[i]) && cfg.allArgs
    ensures Midway(cfg, g, i + 1, "", ns, ne, Scanned(seen.opts + [g[i]], seen.nons, seen.rets + [Ret(INORDER, Some(g[i]), None)]))
  {
    SliceStep(g, i);
    var r := Scan(cfg, g[i + 1..]);
    assert seen.opts + ([g[i]] + r.opts) == seen.opts + [g[i]] + r.opts;
    var x := Ret(INORDER, Some(g[i]), None);
    assert seen.rets + ([x] + r.rets) == seen.rets + [x] + r.rets;
  }

  lemma MidwayWord(cfg: Config, g: seq<string>, i: int, ns: int, ne: int, ne': int, seen: Scanned)
    requires Midway(cfg, g, i, "", ns, ne, seen) && i < |g| && !IsNonOption(g[i]) && g[i] != "--"
    requires ns != -1 ==> ne' != -1
    ensures Midway(cfg, g, i, g[i][1..], ns, ne', seen)
  {
    SliceStep(g, i);
  }

  lemma ScanWordStep(cfg: Config, rest: seq<string>, place: string)
    requires rest != [] && place != ""
    ensures var (s, w) := (OptStep(cfg, rest, place), ScanWord(cfg, rest, place));
            w == if s.place != "" then var r := ScanWord(cfg, rest, s.place); r.(rets := [s.ret] + r.rets)
                 else var r := Scan(cfg, rest[s.used..]); Scanned(rest[..s.used] + r.opts, r.nons, [s.ret] + r.rets)
  {
    hide OptStep, Scan;
    var s := OptStep(cfg, rest, place);
    if s.place != "" {
      var k := WordLength(cfg, rest, s.place);
      assert k == WordLength(cfg, rest, place);
      assert [s.ret] + WordReturns(cfg, rest, s.place) + Scan(cfg, rest[k..]).rets
          == [s.ret] + (WordReturns(cfg, rest, s.place) + Scan(cfg, rest[k..]).rets);
    }
  }

  lemma MidwayOption(cfg: Config, g: seq<string>, i: int, place: string, ns: int, ne: int, seen: Scanned)
    requires Midway(cfg, g, i, place, ns, ne, seen) && place != "" && ne <= i
    ensures var s := OptStep(cfg, g[i..], place);
            i + s.used <= |g| && Midway(cfg, g, i + s.used, s.place, ns, ne,
              Scanned(seen.opts + g[i..i + s.used], seen.nons, seen.rets + [s.ret]))
  {
    hide Scan, ScanWord, OptStep;
    var rest := g[i..];
    var s := OptStep(cfg, rest, place);
    ScanWordStep(cfg, rest, place);
    assert rest[s.used..] == g[i + s.used..] && rest[..s.used] == g[i..i + s.used];
    if s.place != "" {
      assert g[i..i + 0] == [] && seen.opts + [] == seen.opts;
      var r := ScanWord(cfg, rest, s.place);
      assert seen.rets + ([s.ret] + r.rets) == seen.rets + [s.ret] + r.rets;
    } else {
      var r := Scan(cfg, g[i + s.used..]);
      var o := g[i..i + s.used];
      assert seen.opts + (o + r.opts) == seen.opts + o + r.opts;
      assert seen.rets + ([s.ret] + r.rets) == seen.rets + [s.ret] + r.rets;
    }
  }

  // -------------------------------------------------- what the state implies

  lemma LayoutFacts(a: seq<string>, g: seq<string>, i: int, ns: int, ne: int, opts: seq<string>, nons: seq<string>)
    requires Layout(a, g, i, ns, ne, opts, nons)
    ensures |a| == |g| && 1 <= i <= |g| && a[i..] == g[i..] && (i < |g| ==> a[i] == g[i])
    ensures if ns == -1 then ne == -1 else 1 <= ns <= i && (ne != -1 ==> ns < ne <= i)
  {
    assert i < |g| ==> a[i] == a[i..][0] && g[i] == g[i..][0];
  }

  lemma MidwayFacts(cfg: Config, g: seq<string>, i: int, place: string, ns: int, ne: int, seen: Scanned)
    requires Midway(cfg, g, i, place, ns, ne, seen)
    ensures place != "" ==> i < |g| && (ns != -1 ==> ne != -1)
    ensures place == "" && ne != -1 ==> ne < i
    ensures cfg.allArgs || !cfg.permute ==> ns == -1
  {
  }

  lemma MakeFinished(cfg: Config, g: seq<string>, a: seq<string>, i: int, s: Scanned)
    requires g != [] && Scan(cfg, g[1..]) == s && a == g[..1] + s.opts + s.nons && i == 1 + |s.opts|
    ensures Finished(cfg, g, a, i, s.rets)
  {
  }

  /** Without permutation the run ends at the first non-option. */
  lemma FinishedStop(cfg: Config, g: seq<string>, a: seq<string>, i: int, ns: int, ne: int, seen: Scanned)
    requires g != [] && Between(cfg, g, a, i, "", ns, ne, seen) && i < |g| && IsNonOption(g[i]) && !cfg.permute && !cfg.allArgs
    ensures Finished(cfg, g, a, i, seen.rets)
  {
    SliceStep(g, i);
    LayoutFinal(a, g, i, ns, seen.opts, seen.nons);
    var s := Scanned(seen.opts, seen.nons + g[i..], seen.rets);
    assert seen.opts + [] == seen.opts && seen.rets + [] == seen.rets;
    MakeFinished(cfg, g, a, i, s);
  }

  lemma ScanAtEnd(cfg: Config, g: seq<string>, ns: int, ne: int, seen: Scanned)
    requires Midway(cfg, g, |g|, "", ns, ne, seen)
    ensures Scan(cfg, g[1..]) == Scanned(seen.opts, seen.nons + g[|g|..], seen.rets)
  {
    assert g[|g|..] == [];
    assert seen.opts + [] == seen.opts && seen.rets + [] == seen.rets;
  }

  lemma ScanAtDashes(cfg: Config, g: seq<string>, i: int, ns: int, ne: int, seen: Scanned)
    requires Midway(cfg, g, i, "", ns, ne, seen) && i < |g| && g[i] == "--"
    ensures Scan(cfg, g[1..]) == Scanned(seen.opts + ["--"], seen.nons + g[i + 1..], seen.rets)
  {
    SliceStep(g, i);
    assert seen.rets + [] == seen.rets;
  }

  /** How much of the word at i is left; a fresh word counts in full. */
  ghost function Left(g: seq<string>, i: int, place: string): nat
    requires 0 <= i < |g|
  {
    if place == "" then |g[i]| else |place|
  }

  // ---------------------------------------------------------------- the class

  class Scanner {
    const argv: array<string>
    var optind: nat
    var place: string       // what is left of the word at optind
    var nonoptStart: int    // the block of skipped non-options, or -1
    var nonoptEnd: int
    ghost var seen: Scanned // what the calls so far have passed and returned

    constructor (args: array<string>)
      requires args.Length > 0
      ensures argv == args && optind == 1 && place == "" && nonoptStart == nonoptEnd == -1 && seen == Scanned([], [], [])
    {
      argv, optind, place, nonoptStart, nonoptEnd := args, 1, "", -1, -1;
      seen := Scanned([], [], []);
    }

    /** Between two calls, for the original arguments g. */
    ghost predicate Ready(cfg: Config, g: seq<string>)
      reads this, argv
    {
      Between(cfg, g, argv[..], optind, place, nonoptStart, nonoptEnd, seen)
    }

    /** `parse_long_options`. */
    method ParseLong(cfg: Config, text: string, shortToo: bool) returns (ok: bool, r: Ret)
      requires optind < argv.Length
      modifies this`optind
      ensures var s := LongStep(cfg, argv[old(optind)..], text, shortToo);
              ok == s.Some? && (ok ==> optind == old(optind) + s.value.used && r == s.value.ret) && (!ok ==> optind == old(optind))
    {
      hide LongMatch;
      ghost var rest := argv[optind..];
      r := Ret(BADCH, None, None);
      optind := optind + 1;
      var eq := 0;
      while eq < |text| && text[eq] != '='
        invariant 0 <= eq <= |text| && forall i :: 0 <= i < eq ==> text[i] != '='
      {
        eq := eq + 1;
      }
      assert eq == IndexOf(text, '=', 0);
      var value := if eq < |text| then Some(text[eq + 1..]) else None;
      var m := FindLong(cfg, text[..eq], shortToo);
      match m
      case Ambiguous =>
        ok := true;
      case NoMatch =>
        ok := !shortToo;
        if shortToo {
          optind := optind - 1;
        }
      case Found(k) =>
        ok := true;
        var o := cfg.longs[k];
        if o.hasArg == NoArgument && value.Some? {
          return;
        }
        var arg := None;
        if o.hasArg == RequiredArgument || o.hasArg == OptionalArgument {
          if value.Some? {
            arg := value;
          } else if o.hasArg == RequiredArgument {
            // reading argv[argc] gives the terminating null pointer
            arg := if optind < argv.Length then Some(argv[optind]) else None;
            optind := optind + 1;
          }
        }
        if o.hasArg == RequiredArgument && arg == None {
          optind := optind - 1;
          r := Ret(BadArg(cfg), None, None);
          return;
        }
        r := Ret(if o.flag.Some? then 0 else o.val, arg, Some(k));
    }

    /** The short-option half of `getopt_internal`. */
    method Short(cfg: Config) returns (r: Ret)
      requires optind < argv.Length && place != ""
      modifies this`optind, this`place
      ensures var s := ShortStep(cfg, argv[old(optind)..], old(place));
              optind == old(optind) + s.used && place == s.place && r == s.ret
    {
      hide LongStep;
      ghost var rest := argv[optind..];
      var c, letters := place[0], cfg.letters;
      place := place[1..];
      var oli := 0;
      while oli < |letters| && letters[oli] != c
        invariant 0 <= oli <= |letters| && forall i :: 0 <= i < oli ==> letters[i] != c
      {
        oli := oli + 1;
      }
      assert oli == IndexOf(letters, c, 0);
      if c == ':' || oli == |letters| {
        if place == "" {
          optind := optind + 1;
        }
        return Ret(BADCH, None, None);
      }
      if c == 'W' && oli + 1 < |letters| && letters[oli + 1] == ';' {
        var text := place;
        if place == "" {
          optind := optind + 1;
          if optind >= argv.Length {
            return Ret(BadArg(cfg), None, None);
          }
          text := argv[optind];
          assert rest[1..] == argv[optind..];
        }
        var ok;
        ok, r := ParseLong(cfg, text, false);
        place := "";
        return;
      }
      if !(oli + 1 < |letters| && letters[oli + 1] == ':') {
        if place == "" {
          optind := optind + 1;
        }
        return Ret(c as int, None, None);
      }
      var arg := None;
      if place != "" {
        arg := Some(place);
      } else if !(oli + 2 < |letters| && letters[oli + 2] == ':') {
        optind := optind + 1;
        if optind >= argv.Length {
          return Ret(BadArg(cfg), None, None);
        }
        arg := Some(argv[optind]);
      }
      place := "";
      optind := optind + 1;
      r := Ret(c as int, arg, None);
    }

    /** `getopt_internal` from the long-option test on. */
    method Take(cfg: Config) returns (r: Ret)
      requires optind < argv.Length && place != ""
      modifies this`optind, this`place
      ensures var s := OptStep(cfg, argv[old(optind)..], old(place));
              optind == old(optind) + s.used && place == s.place && r == s.ret
    {
      hide LongStep, ShortStep;
      if place[0] == '-' || cfg.longOnly {
        var shortToo := false;
        var text := place;
        if place[0] == '-' {
          text := place[1..];
        } else if place[0] != ':' && place[0] in cfg.letters {
          shortToo := true;
        }
        var ok;
        ok, r := ParseLong(cfg, text, shortToo);
        if ok {
          place := "";
          return;
        }
      }
      r := Short(cfg);
    }

    /** Calls `permute_args` on the block and the options behind it, of which
        there is always at least one. */
    method PermuteBlock(ghost g: seq<string>)
      requires Layout(argv[..], g, optind, nonoptStart, nonoptEnd, seen.opts, seen.nons)
      requires -1 < nonoptEnd < optind
      modifies this`nonoptStart, this`nonoptEnd, argv
      ensures nonoptStart == optind - (old(nonoptEnd) - old(nonoptStart)) && nonoptEnd == -1
      ensures Layout(argv[..], g, optind, nonoptStart, nonoptEnd, seen.opts, seen.nons)
    {
      hide Layout;
      LayoutFacts(argv[..], g, optind, nonoptStart, nonoptEnd, seen.opts, seen.nons);
      LayoutPermute(argv[..], g, optind, nonoptStart, nonoptEnd, seen.opts, seen.nons);
      PermuteArgs(argv, nonoptStart, nonoptEnd, optind);
      nonoptStart := optind - (nonoptEnd - nonoptStart);
      nonoptEnd := -1;
    }

    /** The "do permutation" branch: a non-option is skipped. */
    method SkipNonOption(cfg: Config, ghost g: seq<string>)
      requires Ready(cfg, g) && place == "" && optind < argv.Length && IsNonOption(argv[optind])
      requires cfg.permute && !cfg.allArgs
      modifies this, argv
      ensures Ready(cfg, g) && place == "" && optind == old(optind) + 1 && seen.rets == old(seen.rets)
    {
      hide Midway, Layout;
      ghost var i, ns0, ne0 := optind, nonoptStart, nonoptEnd;
      LayoutFacts(argv[..], g, i, ns0, ne0, seen.opts, seen.nons);
      MidwayFacts(cfg, g, i, place, ns0, ne0, seen);
      if nonoptStart != -1 && nonoptEnd != -1 {
        PermuteBlock(g);
      }
      LayoutSkip(argv[..], g, i, nonoptStart, seen.opts, seen.nons);
      if nonoptStart == -1 {
        nonoptStart := optind;
      }
      MidwaySkip(cfg, g, i, ns0, ne0, nonoptStart, seen);
      optind := optind + 1;
      seen := seen.(nons := seen.nons + [g[i]]);
    }

    /** The permutation at the end of the arguments or behind "--", after which
        `optind` is the first non-option. */
    method Finish(ghost g: seq<string>)
      requires Layout(argv[..], g, optind, nonoptStart, nonoptEnd, seen.opts, seen.nons)
      requires nonoptEnd != -1 ==> nonoptEnd < optind
      modifies this, argv
      ensures argv[..] == g[..1] + old(seen.opts) + (old(seen.nons) + g[old(optind)..])
      ensures optind == 1 + |old(seen.opts)| && place == "" && nonoptStart == nonoptEnd == -1 && seen == old(seen)
    {
      hide Layout;
      ghost var i := optind;
      LayoutFacts(argv[..], g, i, nonoptStart, nonoptEnd, seen.opts, seen.nons);
      place := "";
      if nonoptEnd != -1 {
        PermuteBlock(g);
      }
      LayoutFacts(argv[..], g, i, nonoptStart, nonoptEnd, seen.opts, seen.nons);
      LayoutFinal(argv[..], g, i, nonoptStart, seen.opts, seen.nons);
      if nonoptStart != -1 {
        optind := nonoptStart;
      }
      nonoptStart, nonoptEnd := -1, -1;
    }

    /** A step inside an option word. */
    method TakeOption(cfg: Config, ghost g: seq<string>) returns (r: Ret)
      requires Ready(cfg, g) && place != "" && TableOk(cfg)
      modifies this`optind, this`place, this`seen
      ensures Ready(cfg, g) && r.code != DONE && seen.rets == old(seen.rets) + [r]
      ensures old(optind) <= optind <= |g|
      ensures old(optind) == optind ==> place != "" && |place| < |old(place)|
    {
      hide Layout, Midway, OptStep;
      ghost var i := optind;
      LayoutFacts(argv[..], g, i, nonoptStart, nonoptEnd, seen.opts, seen.nons);
      MidwayFacts(cfg, g, i, place, nonoptStart, nonoptEnd, seen);
      ghost var s := OptStep(cfg, g[i..], place);
      MidwayOption(cfg, g, i, place, nonoptStart, nonoptEnd, seen);
      LayoutOption(argv[..], g, i, nonoptStart, nonoptEnd, seen.opts, seen.nons, s.used);
      assert argv[i..] == argv[..][i..];
      r := Take(cfg);
      seen := Scanned(seen.opts + g[i..i + s.used], seen.nons, seen.rets + [r]);
    }

    /** The `start:` loop: skips non-options, or deals with the first one if they
        are not to be permuted. */
    method Advance(cfg: Config, ghost g: seq<string>) returns (stop: bool, r: Ret)
      requires g != [] && Ready(cfg, g)
      modifies this, argv
      ensures !stop ==> Ready(cfg, g) && seen.rets == old(seen.rets) && old(optind) <= optind && (optind == old(optind) ==> place == old(place))
      ensures !stop && place == "" && optind < argv.Length ==> !IsNonOption(argv[optind])
      ensures stop && r.code == DONE ==> Finished(cfg, g, argv[..], optind, old(seen.rets))
      ensures stop && r.code != DONE ==> Ready(cfg, g) && seen.rets == old(seen.rets) + [r] && old(optind) < optind <= |g|
    {
      hide Layout, Midway, Scan, Finished;
      stop, r := false, Ret(DONE, None, None);
      LayoutFacts(argv[..], g, optind, nonoptStart, nonoptEnd, seen.opts, seen.nons);
      while place == "" && optind < argv.Length && IsNonOption(argv[optind])
        invariant Ready(cfg, g) && seen.rets == old(seen.rets) && old(optind) <= optind <= |g| == argv.Length
        invariant optind == old(optind) ==> place == old(place)
        decreases argv.Length - optind
      {
        LayoutFacts(argv[..], g, optind, nonoptStart, nonoptEnd, seen.opts, seen.nons);
        MidwayFacts(cfg, g, optind, place, nonoptStart, nonoptEnd, seen);
        if cfg.allArgs {
          stop := true;
          r := InOrder(cfg, g);
          return;
        }
        if !cfg.permute {
          FinishedStop(cfg, g, argv[..], optind, nonoptStart, nonoptEnd, seen);
          stop := true;
          return;
        }
        SkipNonOption(cfg, g);
      }
    }

    /** The GNU extension for a leading '-': a non-option is returned as it is. */
    method InOrder(cfg: Config, ghost g: seq<string>) returns (r: Ret)
      requires Ready(cfg, g) && place == "" && optind < argv.Length && IsNonOption(argv[optind]) && cfg.allArgs
      modifies this`optind, this`seen
      ensures Ready(cfg, g) && r.code != DONE && seen.rets == old(seen.rets) + [r] && optind == old(optind) + 1 <= |g|
    {
      hide Layout, Midway;
      LayoutFacts(argv[..], g, optind, nonoptStart, nonoptEnd, seen.opts, seen.nons);
      MidwayFacts(cfg, g, optind, place, nonoptStart, nonoptEnd, seen);
      r := Ret(INORDER, Some(argv[optind]), None);
      LayoutOption(argv[..], g, optind, nonoptStart, nonoptEnd, seen.opts, seen.nons, 1);
      assert g[optind..optind + 1] == [g[optind]];
      MidwayInOrder(cfg, g, optind, nonoptStart, nonoptEnd, seen);
      seen := Scanned(seen.opts + [g[optind]], seen.nons, seen.rets + [r]);
      optind := optind + 1;
    }

    /** "--" is the last option. */
    method Dashes(cfg: Config, ghost g: seq<string>, ghost ne0: int)
      requires g != [] && Layout(argv[..], g, optind, nonoptStart, nonoptEnd, seen.opts, seen.nons)
      requires Midway(cfg, g, optind, "", nonoptStart, ne0, seen) && (nonoptStart != -1 ==> nonoptEnd != -1)
      requires optind < argv.Length && argv[optind] == "--"
      modifies this, argv
      ensures Finished(cfg, g, argv[..], optind, old(seen.rets))
    {
      hide Layout, Midway, Scan, Finished;
      LayoutFacts(argv[..], g, optind, nonoptStart, nonoptEnd, seen.opts, seen.nons);
      ScanAtDashes(cfg, g, optind, nonoptStart, ne0, seen);
      LayoutOption(argv[..], g, optind, nonoptStart, nonoptEnd, seen.opts, seen.nons, 1);
      assert g[optind..optind + 1] == ["--"];
      seen := seen.(opts := seen.opts + ["--"]);
      optind := optind + 1;
      Finish(g);
      MakeFinished(cfg, g, argv[..], optind, Scan(cfg, g[1..]));
    }

    /** One call of `getopt_long`: it returns the next thing the scan returns, or
        ends the run with the arguments partitioned. */
    method Next(cfg: Config, ghost g: seq<string>) returns (r: Ret)
      requires g != [] && Ready(cfg, g) && TableOk(cfg)
      modifies this, argv
      ensures r.code == DONE ==> Finished(cfg, g, argv[..], optind, old(seen.rets))
      ensures r.code != DONE ==> Ready(cfg, g) && seen.rets == old(seen.rets) + [r]
      ensures r.code != DONE ==> old(optind) <= optind <= |g| && old(optind) < |g|
      ensures r.code != DONE && old(optind) == optind ==> Left(g, optind, place) < Left(g, optind, old(place))
    {
      hide Layout, Midway, Scan, Finished;
      MidwayFacts(cfg, g, optind, place, nonoptStart, nonoptEnd, seen);
      LayoutFacts(argv[..], g, optind, nonoptStart, nonoptEnd, seen.opts, seen.nons);
      var stop;
      stop, r := Advance(cfg, g);
      if stop {
        return;
      }
      LayoutFacts(argv[..], g, optind, nonoptStart, nonoptEnd, seen.opts, seen.nons);
      MidwayFacts(cfg, g, optind, place, nonoptStart, nonoptEnd, seen);
      if place == "" {
        if optind >= argv.Length {
          ScanAtEnd(cfg, g, nonoptStart, nonoptEnd, seen);
          Finish(g);
          MakeFinished(cfg, g, argv[..], optind, Scan(cfg, g[1..]));
          return Ret(DONE, None, None);
        }
        ghost var ne0 := nonoptEnd;
        if nonoptStart != -1 && nonoptEnd == -1 {
          LayoutBlockEnds(argv[..], g, optind, nonoptStart, seen.opts, seen.nons);
          nonoptEnd := optind;
        }
        if argv[optind] == "--" {
          Dashes(cfg, g, ne0);
          return Ret(DONE, None, None);
        }
        MidwayWord(cfg, g, optind, nonoptStart, ne0, nonoptEnd, seen);
        place := argv[optind][1..];
      }
      r := TakeOption(cfg, g);
    }
  }

  /** The caller's loop: `getopt_long` until it returns -1; argv ends partitioned as the
      scan says, and the calls return what it says. */
  method CallUntilDone(cfg: Config, argv: array<string>) returns (optind: nat, rets: seq<Ret>)
    requires argv.Length > 0 && TableOk(cfg)
    modifies argv
    ensures Finished(cfg, old(argv[..]), argv[..], optind, rets)
  {
    hide Finished, Left;
    ghost var g := argv[..];
    var sc := new Scanner(argv);
    ScannerBegins(cfg, g);
    rets := [];
    while true
      invariant sc.argv == argv && sc.Ready(cfg, g) && sc.seen.rets == rets && sc.optind <= |g|
      invariant fresh(sc)
      decreases |g| - sc.optind, if sc.optind < |g| then Left(g, sc.optind, sc.place) else 0
    {
      var r := sc.Next(cfg, g);
      if r.code == DONE {
        break;
      }
      rets := rets + [r];
    }
    optind := sc.optind;
  }

  lemma ScannerBegins(cfg: Config, g: seq<string>)
    requires g != []
    ensures Between(cfg, g, g, 1, "", -1, -1, Scanned([], [], []))
  {
    var s := Scan(cfg, g[1..]);
    assert [] + s.opts == s.opts && [] + s.nons == s.nons && [] + s.rets == s.rets;
  }
}
