/** How command lines are spelled, and what getopt_long makes of them.

    A line is a list of option words, in any of their spellings, and of operands between
    them.  Which letters take an argument is read off the option string, which long option a
    name stands for off the table, and nothing of the scanner is used to say so: every argv
    is the words of such a line, and the calls return what the line says.
  */
module GetoptSpelling {
  import opened GetoptPermute
  import opened GetoptScan
  import opened Wrappers

  /** What becomes of operands: they go behind the options, they end the options, or they
      are returned where they stand. */
  datatype Mode = Permuting | Stopping | InPlace

  datatype Table = Table(letters: string, longs: seq<LongOption>, longOnly: bool)

  /** The mode and the letters of an option string, by its first character. */
  ghost predicate Reads(options: string, posixlyCorrect: bool, letters: string, mode: Mode) {
    if "+" <= options then options == "+" + letters && mode == Stopping
    else if "-" <= options then options == "-" + letters && mode == InPlace
    else options == letters && mode == if posixlyCorrect then Stopping else Permuting
  }

  // ------------------------------------------------------------------------- letters

  ghost predicate FirstAt(letters: string, c: char, k: nat) {
    k < |letters| && letters[k] == c && forall i :: 0 <= i < k ==> letters[i] != c
  }

  /** s stands right behind the first c. */
  ghost predicate Behind(letters: string, c: char, s: string) {
    exists k :: FirstAt(letters, c, k) && s <= letters[k + 1..]
  }

  ghost predicate Known(letters: string, c: char) {
    c != ':' && c in letters
  }

  ghost predicate Required(letters: string, c: char) {
    Known(letters, c) && Behind(letters, c, ":") && !Behind(letters, c, "::")
  }

  ghost predicate Optional(letters: string, c: char) {
    Known(letters, c) && Behind(letters, c, "::")
  }

  /** -W followed by the name of a long option. */
  ghost predicate ByName(letters: string, c: char) {
    c == 'W' && Behind(letters, c, ";")
  }

  ghost predicate Plain(letters: string, c: char) {
    Known(letters, c) && !ByName(letters, c) && !Behind(letters, c, ":")
  }

  // -------------------------------------------------------------------- long options

  /** name is the beginning of the name of entry k; alone, a known letter is not. */
  ghost predicate Abbreviates(t: Table, name: string, alsoLetter: bool, k: nat)
    requires k < |t.longs|
  {
    name <= t.longs[k].name && !(alsoLetter && |name| == 1)
  }

  ghost predicate Same(x: LongOption, y: LongOption) {
    x.hasArg == y.hasArg && x.flag == y.flag && x.val == y.val
  }

  /** name stands for entry k: it is its name, or an abbreviation of it and of nothing that
      is not the same. */
  ghost predicate Chosen(t: Table, name: string, alsoLetter: bool, k: nat) {
    && k < |t.longs|
    && if Exact(t, name) then t.longs[k].name == name && forall i :: 0 <= i < k ==> t.longs[i].name != name
       else
         && Abbreviates(t, name, alsoLetter, k)
         && forall i :: 0 <= i < |t.longs| && i != k && Abbreviates(t, name, alsoLetter, i) ==>
              k < i && !t.longOnly && Same(t.longs[i], t.longs[k])
  }

  ghost predicate Exact(t: Table, name: string) {
    exists i :: 0 <= i < |t.longs| && t.longs[i].name == name
  }

  /** No long option begins like that. */
  ghost predicate Unlike(t: Table, name: string, alsoLetter: bool) {
    !Exact(t, name) && forall i :: 0 <= i < |t.longs| ==> !Abbreviates(t, name, alsoLetter, i)
  }

  // --------------------------------------------------------------------------- words

  /** How a long option has its argument. */
  datatype Form = Bare | Equals(v: string) | Next(v: string)

  /** What stands in an option word from some place on, with the arguments behind it.
      entry is the long option a name stands for, if there is just one. */
  datatype Word =
    | Last(c: char)                      // takes nothing, or is not known
    | Then(c: char, more: Word)          // the same, and more letters
    | Attached(c: char, v: string)
    | Apart(c: char, v: string)          // the next argument
    | Absent(c: char)                    // an optional argument that is not there
    | Lacking(c: char)                   // a required one at the end of the line
    | Named(dash: bool, name: string, form: Form, entry: Option<nat>)
    | ByW(apart: bool, name: string, form: Form, entry: Option<nat>)

  function NameText(name: string, form: Form): string {
    if form.Equals? then name + "=" + form.v else name
  }

  function FormMore(form: Form): seq<string> {
    if form.Next? then [form.v] else []
  }

  function Text(w: Word): string {
    match w
    case Last(c) => [c]
    case Then(c, more) => [c] + Text(more)
    case Attached(c, v) => [c] + v
    case Apart(c, _) => [c]
    case Absent(c) => [c]
    case Lacking(c) => [c]
    case Named(dash, name, form, _) => (if dash then "-" else "") + NameText(name, form)
    case ByW(apart, name, form, _) => "W" + if apart then "" else NameText(name, form)
  }

  /** The arguments behind the word that belong to it. */
  function More(w: Word): seq<string> {
    match w
    case Then(_, more) => More(more)
    case Apart(_, v) => [v]
    case Named(_, _, form, _) => FormMore(form)
    case ByW(apart, name, form, _) => (if apart then [NameText(name, form)] else []) + FormMore(form)
    case _ => []
  }

  /** The name given, and the entry it stands for, if any; last says that no argument is
      left behind what belongs to the word. */
  ghost predicate NameOk(t: Table, name: string, alsoLetter: bool, form: Form, entry: Option<nat>, last: bool) {
    && '=' !in name
    && match entry
       case None => !form.Next? && forall k :: !Chosen(t, name, alsoLetter, k)
       case Some(k) =>
         && Chosen(t, name, alsoLetter, k)
         && (form.Next? ==> t.longs[k].hasArg == RequiredArgument)
         && (form.Bare? && t.longs[k].hasArg == RequiredArgument ==> last)
  }

  /** With long options behind a single dash, what could be one is not a letter. */
  ghost predicate NotLong(t: Table, text: string)
    requires text != ""
  {
    t.longOnly ==> Known(t.letters, text[0]) && Unlike(t, Stem(text), true)
  }

  /** text up to the first '='. */
  ghost function Stem(text: string): string {
    text[..IndexOf(text, '=', 0)]
  }

  ghost predicate LetterOk(t: Table, c: char, text: string)
    requires text != ""
  {
    c != '-' && NotLong(t, text)
  }

  /** The letter begins a long name behind a single dash, and is known too. */
  ghost predicate AlsoLetter(t: Table, dash: bool, text: string) {
    !dash && text != "" && Known(t.letters, text[0])
  }

  ghost predicate Spelt(t: Table, w: Word, last: bool) {
    match w
    case Last(c) => LetterOk(t, c, Text(w)) && (Plain(t.letters, c) || !Known(t.letters, c))
    case Then(c, more) => LetterOk(t, c, Text(w)) && (Plain(t.letters, c) || !Known(t.letters, c)) && Spelt(t, more, last)
    case Attached(c, v) => LetterOk(t, c, Text(w)) && v != "" && (Required(t.letters, c) || Optional(t.letters, c))
    case Apart(c, v) => LetterOk(t, c, Text(w)) && Required(t.letters, c)
    case Absent(c) => LetterOk(t, c, Text(w)) && Optional(t.letters, c)
    case Lacking(c) => LetterOk(t, c, Text(w)) && last && (Required(t.letters, c) || ByName(t.letters, c))
    case Named(dash, name, form, entry) =>
      var text := NameText(name, form);
      && NameOk(t, name, AlsoLetter(t, dash, text), form, entry, last)
      && (!dash ==> t.longOnly && text != "" && text[0] != '-')
      && (entry == None && AlsoLetter(t, dash, text) ==> !Unlike(t, name, true))
    case ByW(apart, name, form, entry) =>
      && ByName(t.letters, 'W') && NotLong(t, Text(w)) && (apart || NameText(name, form) != "")
      && NameOk(t, name, false, form, entry, last)
  }

  /** The code for a missing argument. */
  function Missing(t: Table): Ret {
    Ret(if ":" <= t.letters then ':' as int else '?' as int, None, None)
  }

  const UNKNOWN := Ret('?' as int, None, None)

  function NameReturn(t: Table, form: Form, entry: Option<nat>): Ret {
    if entry == None || entry.value >= |t.longs| then UNKNOWN
    else
      var o := t.longs[entry.value];
      if o.hasArg == NoArgument && form.Equals? then UNKNOWN
      else if o.hasArg == RequiredArgument && form.Bare? then Missing(t)
      else Ret(if o.flag.Some? then 0 else o.val, if form.Bare? then None else Some(form.v), entry)
  }

  /** What the calls return for a word. */
  ghost function Returned(t: Table, w: Word): seq<Ret> {
    match w
    case Last(c) => [if Plain(t.letters, c) then Ret(c as int, None, None) else UNKNOWN]
    case Then(c, more) => [if Plain(t.letters, c) then Ret(c as int, None, None) else UNKNOWN] + Returned(t, more)
    case Attached(c, v) => [Ret(c as int, Some(v), None)]
    case Apart(c, v) => [Ret(c as int, Some(v), None)]
    case Absent(c) => [Ret(c as int, None, None)]
    case Lacking(c) => [Missing(t)]
    case Named(_, _, form, entry) => [NameReturn(t, form, entry)]
    case ByW(_, _, form, entry) => [NameReturn(t, form, entry)]
  }

  // --------------------------------------------------------------------------- lines

  datatype Line =
    | End
    | Dashes(rest: seq<string>)               // "--", and operands only
    | Halt(first: string, rest: seq<string>)  // the first operand, where it ends the options
    | Operand(s: string, more: Line)
    | Given(w: Word, more: Line)

  predicate IsOperand(s: string) {
    s == "" || s[0] != '-' || s == "-"
  }

  function Words(l: Line): seq<string> {
    match l
    case End => []
    case Dashes(rest) => ["--"] + rest
    case Halt(first, rest) => [first] + rest
    case Operand(s, more) => [s] + Words(more)
    case Given(w, more) => (["-" + Text(w)] + More(w)) + Words(more)
  }

  ghost predicate SpeltLine(t: Table, mode: Mode, l: Line) {
    match l
    case End => true
    case Dashes(_) => true
    case Halt(first, _) => mode == Stopping && IsOperand(first)
    case Operand(s, more) => mode != Stopping && IsOperand(s) && SpeltLine(t, mode, more)
    case Given(w, more) => Spelt(t, w, Words(more) == []) && Text(w) != "-" && SpeltLine(t, mode, more)
  }

  ghost function AllReturned(t: Table, mode: Mode, l: Line): seq<Ret> {
    match l
    case Operand(s, more) => (if mode == InPlace then [Ret(1, Some(s), None)] else []) + AllReturned(t, mode, more)
    case Given(w, more) => Returned(t, w) + AllReturned(t, mode, more)
    case _ => []
  }

  /** The arguments that are options or belong to them. */
  function OptionWords(mode: Mode, l: Line): seq<string> {
    match l
    case Dashes(_) => ["--"]
    case Operand(s, more) => (if mode == InPlace then [s] else []) + OptionWords(mode, more)
    case Given(w, more) => (["-" + Text(w)] + More(w)) + OptionWords(mode, more)
    case _ => []
  }

  function Operands(mode: Mode, l: Line): seq<string> {
    match l
    case End => []
    case Dashes(rest) => rest
    case Halt(first, rest) => [first] + rest
    case Operand(s, more) => (if mode == InPlace then [] else [s]) + Operands(mode, more)
    case Given(_, more) => Operands(mode, more)
  }

  /** What the run has to end with: argv permuted, optind and everything returned. */
  ghost predicate Parsed(t: Table, mode: Mode, g: seq<string>, a: seq<string>, optind: nat, rets: seq<Ret>, l: Line) {
    SpeltLine(t, mode, l) && g != [] && g[1..] == Words(l) ==>
      && a == [g[0]] + OptionWords(mode, l) + Operands(mode, l)
      && optind == 1 + |OptionWords(mode, l)| && rets == AllReturned(t, mode, l)
  }

  // ------------------------------------------------------------ the scanner's tables

  ghost predicate Agrees(cfg: Config, t: Table, mode: Mode) {
    && cfg.letters == t.letters && cfg.longs == t.longs && cfg.longOnly == t.longOnly
    && (cfg.allArgs <==> mode == InPlace) && (!cfg.allArgs ==> (cfg.permute <==> mode == Permuting))
  }

  lemma OneFirst(letters: string, c: char, j: nat, k: nat)
    requires FirstAt(letters, c, j) && FirstAt(letters, c, k)
    ensures j == k
  {
  }

  lemma BehindIs(letters: string, c: char, s: string)
    requires c in letters
    ensures var at := IndexOf(letters, c, 0);
            at < |letters| && (Behind(letters, c, s) <==> s <= letters[at + 1..])
  {
    var at := IndexOf(letters, c, 0);
    assert FirstAt(letters, c, at);
    if Behind(letters, c, s) {
      var k :| FirstAt(letters, c, k) && s <= letters[k + 1..];
      OneFirst(letters, c, at, k);
    }
  }

  /** The two characters behind a letter, as the scanner looks at them. */
  lemma LetterKinds(letters: string, c: char)
    requires Known(letters, c)
    ensures var at := IndexOf(letters, c, 0);
            var next := if at + 1 < |letters| then letters[at + 1] else ' ';
            var next2 := if at + 2 < |letters| then letters[at + 2] else ' ';
            && at < |letters|
            && (ByName(letters, c) <==> c == 'W' && next == ';')
            && (Required(letters, c) <==> next == ':' && next2 != ':')
            && (Optional(letters, c) <==> next == ':' && next2 == ':')
            && (Plain(letters, c) <==> next != ':' && !(c == 'W' && next == ';'))
  {
    BehindIs(letters, c, ":");
    BehindIs(letters, c, "::");
    BehindIs(letters, c, ";");
    hide Behind;
  }

  lemma ExactIs(cfg: Config, t: Table, mode: Mode, name: string)
    requires Agrees(cfg, t, mode)
    ensures Exact(t, name) <==> FirstExact(cfg.longs, name, 0) < |cfg.longs|
  {
  }

  lemma UnlikeIs(cfg: Config, t: Table, mode: Mode, name: string, alsoLetter: bool)
    requires Agrees(cfg, t, mode)
    ensures LongMatch(cfg, name, alsoLetter) == NoMatch <==> Unlike(t, name, alsoLetter)
  {
    ExactIs(cfg, t, mode, name);
    var f := FirstPartial(cfg.longs, name, alsoLetter, 0);
    hide FirstExact, FirstPartial;
    SamePartial(cfg, t, mode, name, alsoLetter);
  }

  lemma SamePartial(cfg: Config, t: Table, mode: Mode, name: string, alsoLetter: bool)
    requires Agrees(cfg, t, mode)
    ensures forall i :: 0 <= i < |cfg.longs| ==> (Partial(cfg.longs, name, alsoLetter, i) <==> Abbreviates(t, name, alsoLetter, i))
  {
  }

  lemma ChosenIs(cfg: Config, t: Table, mode: Mode, name: string, alsoLetter: bool, k: nat)
    requires Agrees(cfg, t, mode)
    ensures LongMatch(cfg, name, alsoLetter) == Found(k) <==> Chosen(t, name, alsoLetter, k)
  {
    ExactIs(cfg, t, mode, name);
    var e, f := FirstExact(cfg.longs, name, 0), FirstPartial(cfg.longs, name, alsoLetter, 0);
    hide FirstExact, FirstPartial;
    if !Exact(t, name) {
      PartialChosen(cfg, t, mode, name, alsoLetter, f, k);
    }
  }

  lemma PartialChosen(cfg: Config, t: Table, mode: Mode, name: string, alsoLetter: bool, f: nat, k: nat)
    requires Agrees(cfg, t, mode) && !Exact(t, name) && f <= |cfg.longs|
    requires f < |cfg.longs| ==> Partial(cfg.longs, name, alsoLetter, f)
    requires forall i :: 0 <= i < f ==> !Partial(cfg.longs, name, alsoLetter, i)
    ensures Chosen(t, name, alsoLetter, k) <==> k == f < |cfg.longs| && !Clashes(cfg, name, alsoLetter, f, |cfg.longs|)
  {
    SamePartial(cfg, t, mode, name, alsoLetter);
    hide Partial, Abbreviates;
    assert f < |t.longs| ==> Abbreviates(t, name, alsoLetter, f);
  }

  // ----------------------------------------------------------- the scanner's steps

  lemma StemOf(name: string, form: Form)
    requires '=' !in name
    ensures var text := NameText(name, form);
            var eq := IndexOf(text, '=', 0);
            && eq == |name| && text[..eq] == name && Stem(text) == name
            && (form.Equals? ==> eq < |text| && text[eq + 1..] == form.v) && (!form.Equals? ==> eq == |text|)
  {
    var text := NameText(name, form);
    if form.Equals? {
      assert text[|name|] == '=';
    }
    assert forall i :: 0 <= i < |name| ==> text[i] == name[i];
    assert text[..|name|] == name;
    if form.Equals? {
      assert text[|name| + 1..] == form.v;
    }
  }

  lemma LongStepIs(cfg: Config, t: Table, mode: Mode, rest: seq<string>, name: string, alsoLetter: bool, form: Form, entry: Option<nat>)
    requires Agrees(cfg, t, mode) && rest != [] && 1 + |FormMore(form)| <= |rest| && FormMore(form) <= rest[1..]
    requires NameOk(t, name, alsoLetter, form, entry, |rest| == 1 + |FormMore(form)|)
    requires entry == None && alsoLetter ==> !Unlike(t, name, alsoLetter)
    ensures LongStep(cfg, rest, NameText(name, form), alsoLetter) == Some(Step(1 + |FormMore(form)|, "", NameReturn(t, form, entry)))
  {
    StemOf(name, form);
    UnlikeIs(cfg, t, mode, name, alsoLetter);
    hide IndexOf, Unlike, Chosen;
    match entry
    case Some(k) =>
      ChosenIs(cfg, t, mode, name, alsoLetter, k);
      hide LongMatch;
      assert form.Next? ==> rest[1] == rest[1..][0] == form.v;
    case None =>
      var m := LongMatch(cfg, name, alsoLetter);
      if m.Found? {
        ChosenIs(cfg, t, mode, name, alsoLetter, m.k);
      }
      hide LongMatch;
  }

  /** Where a letter is at hand, the scanner does not take it for a long option. */
  lemma GoesShort(cfg: Config, t: Table, mode: Mode, rest: seq<string>, text: string)
    requires Agrees(cfg, t, mode) && rest != [] && text != "" && LetterOk(t, text[0], text)
    ensures OptStep(cfg, rest, text) == ShortStep(cfg, rest, text)
  {
    hide ShortStep, LongMatch;
    if t.longOnly {
      UnlikeIs(cfg, t, mode, Stem(text), true);
    }
  }

  lemma LetterStep(cfg: Config, t: Table, mode: Mode, rest: seq<string>, c: char, p: string)
    requires Agrees(cfg, t, mode) && rest != [] && (Plain(t.letters, c) || !Known(t.letters, c))
    ensures ShortStep(cfg, rest, [c] + p) == Step(if p == "" then 1 else 0, p, if Plain(t.letters, c) then Ret(c as int, None, None) else UNKNOWN)
  {
    assert ([c] + p)[1..] == p;
    if Known(t.letters, c) {
      LetterKinds(t.letters, c);
    }
    hide LongStep, Plain, Required, Optional, ByName;
  }

  lemma ArgumentStep(cfg: Config, t: Table, mode: Mode, rest: seq<string>, c: char, p: string)
    requires Agrees(cfg, t, mode) && rest != [] && Known(t.letters, c) && (Required(t.letters, c) || Optional(t.letters, c))
    ensures ShortStep(cfg, rest, [c] + p) ==
            if p != "" then Step(1, "", Ret(c as int, Some(p), None))
            else if Optional(t.letters, c) then Step(1, "", Ret(c as int, None, None))
            else if |rest| == 1 then Step(1, "", Missing(t))
            else Step(2, "", Ret(c as int, Some(rest[1]), None))
  {
    assert ([c] + p)[1..] == p;
    LetterKinds(t.letters, c);
    hide LongStep, Plain, Required, Optional, ByName;
  }

  lemma WStep(cfg: Config, t: Table, mode: Mode, rest: seq<string>, p: string)
    requires Agrees(cfg, t, mode) && rest != [] && ByName(t.letters, 'W')
    ensures ShortStep(cfg, rest, "W" + p) ==
            if p != "" then LongStep(cfg, rest, p, false).value
            else if |rest| == 1 then Step(1, "", Missing(t))
            else var s := LongStep(cfg, rest[1..], rest[1], false).value; s.(used := s.used + 1)
  {
    assert ("W" + p)[1..] == p;
    LetterKinds(t.letters, 'W');
    hide LongStep, Plain, Required, Optional, ByName;
  }

  lemma NamedStep(cfg: Config, t: Table, mode: Mode, rest: seq<string>, w: Word)
    requires Agrees(cfg, t, mode) && w.Named? && Fits(w, rest) && Spelt(t, w, |rest| == 1 + |More(w)|)
    ensures OptStep(cfg, rest, Text(w)) == Step(1 + |More(w)|, "", NameReturn(t, w.form, w.entry))
  {
    var text := NameText(w.name, w.form);
    LongStepIs(cfg, t, mode, rest, w.name, AlsoLetter(t, w.dash, text), w.form, w.entry);
    hide LongStep, NameOk, Unlike;
    if w.dash {
      assert ("-" + text)[1..] == text;
    } else {
      assert "" + text == text;
    }
  }

  lemma ByWStep(cfg: Config, t: Table, mode: Mode, rest: seq<string>, w: Word)
    requires Agrees(cfg, t, mode) && w.ByW? && Fits(w, rest) && Spelt(t, w, |rest| == 1 + |More(w)|)
    ensures OptStep(cfg, rest, Text(w)) == Step(1 + |More(w)|, "", NameReturn(t, w.form, w.entry))
  {
    var text := NameText(w.name, w.form);
    GoesShort(cfg, t, mode, rest, Text(w));
    if w.apart {
      assert "W" + "" == "W";
      WStep(cfg, t, mode, rest, "");
      assert rest[1..][0] == text && rest[1] == text;
      assert FormMore(w.form) <= rest[1..][1..];
      LongStepIs(cfg, t, mode, rest[1..], w.name, false, w.form, w.entry);
    } else {
      WStep(cfg, t, mode, rest, text);
      assert [] + FormMore(w.form) == FormMore(w.form);
      LongStepIs(cfg, t, mode, rest, w.name, false, w.form, w.entry);
    }
    hide OptStep, ShortStep, LongStep, NameOk, NotLong;
  }

  /** rest is the word and what belongs to it, and more behind that. */
  ghost predicate Fits(w: Word, rest: seq<string>) {
    rest != [] && More(w) <= rest[1..]
  }

  lemma TextNonEmpty(t: Table, w: Word, last: bool)
    requires Spelt(t, w, last)
    ensures Text(w) != ""
  {
  }

  lemma TextFirst(w: Word)
    ensures !w.Named? && !w.ByW? ==> Text(w) != "" && Text(w)[0] == w.c
  {
  }

  /** The step at the front of a word. */
  lemma WordStep(cfg: Config, t: Table, mode: Mode, rest: seq<string>, w: Word)
    requires Agrees(cfg, t, mode) && Fits(w, rest) && Spelt(t, w, |rest| == 1 + |More(w)|)
    ensures Text(w) != ""
    ensures !w.Then? ==> Returned(t, w) == [OptStep(cfg, rest, Text(w)).ret]
    ensures !w.Then? ==> OptStep(cfg, rest, Text(w)).used == 1 + |More(w)| && OptStep(cfg, rest, Text(w)).place == ""
    ensures w.Then? ==> OptStep(cfg, rest, Text(w)).place == Text(w.more)
    ensures w.Then? ==> Returned(t, w) == [OptStep(cfg, rest, Text(w)).ret] + Returned(t, w.more)
  {
    TextNonEmpty(t, w, |rest| == 1 + |More(w)|);
    TextFirst(w);
    hide OptStep, ShortStep, LongStep, Required, Optional, Plain, ByName, NotLong, Agrees;
    match w
    case Named(_, _, _, _) => NamedStep(cfg, t, mode, rest, w);
    case ByW(_, _, _, _) => ByWStep(cfg, t, mode, rest, w);
    case Last(c) =>
      GoesShort(cfg, t, mode, rest, Text(w));
      assert [c] + "" == [c];
      LetterStep(cfg, t, mode, rest, c, "");
    case Then(c, more) =>
      TextNonEmpty(t, more, |rest| == 1 + |More(w)|);
      GoesShort(cfg, t, mode, rest, Text(w));
      LetterStep(cfg, t, mode, rest, c, Text(more));
    case _ =>
      ArgumentWord(cfg, t, mode, rest, w);
  }

  lemma ArgumentWord(cfg: Config, t: Table, mode: Mode, rest: seq<string>, w: Word)
    requires Agrees(cfg, t, mode) && Fits(w, rest) && Spelt(t, w, |rest| == 1 + |More(w)|)
    requires w.Attached? || w.Apart? || w.Absent? || w.Lacking?
    ensures Text(w) != "" && Returned(t, w) == [OptStep(cfg, rest, Text(w)).ret]
    ensures OptStep(cfg, rest, Text(w)).used == 1 + |More(w)| && OptStep(cfg, rest, Text(w)).place == ""
  {
    var p := if w.Attached? then w.v else "";
    assert Text(w) == [w.c] + p;
    GoesShort(cfg, t, mode, rest, Text(w));
    if w.Lacking? && ByName(t.letters, w.c) {
      assert [w.c] + p == "W" + "";
      WStep(cfg, t, mode, rest, "");
    } else {
      NotBoth(t.letters, w.c);
      ArgumentStep(cfg, t, mode, rest, w.c, p);
      assert w.Apart? ==> rest[1] == rest[1..][0] == w.v;
    }
    hide OptStep, ShortStep, LongStep, NotLong;
  }

  lemma NotBoth(letters: string, c: char)
    ensures !(Required(letters, c) && Optional(letters, c))
  {
  }

  lemma {:induction false} WordIs(cfg: Config, t: Table, mode: Mode, rest: seq<string>, w: Word)
    requires Agrees(cfg, t, mode) && Fits(w, rest) && Spelt(t, w, |rest| == 1 + |More(w)|)
    ensures Text(w) != "" && WordLength(cfg, rest, Text(w)) == 1 + |More(w)| && WordReturns(cfg, rest, Text(w)) == Returned(t, w)
    decreases w
  {
    WordStep(cfg, t, mode, rest, w);
    hide OptStep, Agrees, LetterOk, Plain, Known, Returned;
    if w.Then? {
      WordIs(cfg, t, mode, rest, w.more);
    } else {
      assert Returned(t, w) + [] == Returned(t, w);
    }
  }

  // --------------------------------------------------------------------- whole lines

  lemma GivenWords(w: Word, rest: seq<string>)
    ensures var all := (["-" + Text(w)] + More(w)) + rest;
            && Fits(w, all) && all[1 + |More(w)|..] == rest && all[..1 + |More(w)|] == ["-" + Text(w)] + More(w)
            && all[0] == "-" + Text(w) && all[0][1..] == Text(w) && |all| == 1 + |More(w)| + |rest|
  {
    var all := (["-" + Text(w)] + More(w)) + rest;
    assert all[1..] == More(w) + rest;
  }

  lemma DashWord(text: string)
    requires text != "" && text != "-"
    ensures !IsNonOption("-" + text) && "-" + text != "--"
  {
    assert ("-" + text)[1..] == text && "--"[1..] == "-";
  }

  lemma ScanGiven(cfg: Config, t: Table, mode: Mode, w: Word, rest: seq<string>)
    requires Agrees(cfg, t, mode) && Spelt(t, w, rest == []) && Text(w) != "-"
    ensures var (all, r) := ((["-" + Text(w)] + More(w)) + rest, Scan(cfg, rest));
            Scan(cfg, all) == Scanned(["-" + Text(w)] + More(w) + r.opts, r.nons, Returned(t, w) + r.rets)
  {
    var all := (["-" + Text(w)] + More(w)) + rest;
    GivenWords(w, rest);
    WordIs(cfg, t, mode, all, w);
    hide Spelt, Agrees, Returned, WordLength, WordReturns;
    DashWord(Text(w));
    assert Scan(cfg, all) == ScanWord(cfg, all, Text(w));
  }

  /** The scan of the words of a line is what the line says. */
  lemma {:induction false} ScanIs(cfg: Config, t: Table, mode: Mode, l: Line)
    requires Agrees(cfg, t, mode) && SpeltLine(t, mode, l)
    ensures Scan(cfg, Words(l)) == Scanned(OptionWords(mode, l), Operands(mode, l), AllReturned(t, mode, l))
    decreases l
  {
    match l
    case End =>
    case Dashes(rest) =>
      assert (["--"] + rest)[1..] == rest;
    case Halt(first, rest) =>
    case Operand(s, more) =>
      ScanIs(cfg, t, mode, more);
      assert ([s] + Words(more))[1..] == Words(more);
    case Given(w, more) =>
      ScanIs(cfg, t, mode, more);
      hide Spelt, Scan;
      ScanGiven(cfg, t, mode, w, Words(more));
  }

  // ------------------------------------------------------- every argv is such a line

  /** A name with what is behind its '=', or not. */
  lemma Divided(text: string) returns (name: string, form: Form)
    ensures '=' !in name && NameText(name, form) == text && !form.Next? && name == Stem(text)
  {
    var eq := IndexOf(text, '=', 0);
    name := text[..eq];
    if eq < |text| {
      form := Equals(text[eq + 1..]);
      assert text == text[..eq] + [text[eq]] + text[eq + 1..];
    } else {
      form := Bare;
    }
  }

  /** The entry a name stands for, and the argument it takes from rest. */
  lemma Resolved(t: Table, name: string, alsoLetter: bool, form: Form, rest: seq<string>)
    returns (form': Form, entry: Option<nat>)
    requires '=' !in name && !form.Next?
    ensures NameText(name, form') == NameText(name, form) && FormMore(form') <= rest
    ensures NameOk(t, name, alsoLetter, form', entry, |rest| == |FormMore(form')|)
    ensures entry == None <==> forall k :: !Chosen(t, name, alsoLetter, k)
  {
    form', entry := form, None;
    if k: nat :| Chosen(t, name, alsoLetter, k) {
      entry := Some(k);
      if t.longs[k].hasArg == RequiredArgument && form.Bare? && rest != [] {
        form' := Next(rest[0]);
        assert FormMore(form') == rest[..1];
      }
    }
  }

  lemma NamedWord(t: Table, w: Word, text: string, last: bool)
    requires w.Named? && NameText(w.name, w.form) == text && NameOk(t, w.name, AlsoLetter(t, w.dash, text), w.form, w.entry, last)
    requires !w.dash ==> t.longOnly && text != "" && text[0] != '-'
    requires AlsoLetter(t, w.dash, text) ==> !Unlike(t, w.name, true)
    ensures Spelt(t, w, last) && Text(w) == if w.dash then "-" + text else text
  {
    hide Unlike, NameOk, NameText;
    assert "" + text == text;
  }

  lemma SpellLong(t: Table, dash: bool, text: string, rest: seq<string>) returns (w: Word)
    requires !dash ==> t.longOnly && text != "" && text[0] != '-'
    requires AlsoLetter(t, dash, text) ==> !Unlike(t, Stem(text), true)
    ensures Text(w) == (if dash then "-" + text else text) && More(w) <= rest && Spelt(t, w, |rest| == |More(w)|)
  {
    hide Unlike, NameOk, Chosen, Known, IndexOf, Stem, AlsoLetter, Text, Spelt;
    var name, form := Divided(text);
    var form', entry := Resolved(t, name, AlsoLetter(t, dash, text), form, rest);
    w := Named(dash, name, form', entry);
    NamedWord(t, w, text, |rest| == |More(w)|);
  }

  lemma SpellByW(t: Table, text: string, rest: seq<string>) returns (w: Word)
    requires ByName(t.letters, 'W') && NotLong(t, "W" + text)
    ensures Text(w) == "W" + text && More(w) <= rest && Spelt(t, w, |rest| == |More(w)|)
  {
    if text != "" {
      var name, form := Divided(text);
      var form', entry := Resolved(t, name, false, form, rest);
      w := ByW(false, name, form', entry);
      assert [] + FormMore(form') == FormMore(form');
    } else if rest == [] {
      w := Lacking('W');
      assert "W" + "" == "W";
      BehindKnown(t.letters);
    } else {
      var name, form := Divided(rest[0]);
      var form', entry := Resolved(t, name, false, form, rest[1..]);
      w := ByW(true, name, form', entry);
      assert "W" + "" == "W";
      assert rest == [rest[0]] + rest[1..];
    }
  }

  lemma BehindKnown(letters: string)
    requires ByName(letters, 'W')
    ensures Known(letters, 'W')
  {
  }

  lemma LetterCases(letters: string, c: char)
    ensures Plain(letters, c) || !Known(letters, c) || Required(letters, c) || Optional(letters, c) || ByName(letters, c)
  {
    if Known(letters, c) {
      LetterKinds(letters, c);
    }
  }

  /** A letter that takes an argument. */
  lemma SpellArgument(t: Table, c: char, p: string, rest: seq<string>) returns (w: Word)
    requires LetterOk(t, c, [c] + p) && (Required(t.letters, c) || Optional(t.letters, c))
    ensures Text(w) == [c] + p && More(w) <= rest && Spelt(t, w, |rest| == |More(w)|)
  {
    hide NotLong;
    assert [c] + "" == [c];
    if p != "" {
      w := Attached(c, p);
    } else if Optional(t.letters, c) {
      w := Absent(c);
    } else if rest == [] {
      w := Lacking(c);
    } else {
      w := Apart(c, rest[0]);
      assert [rest[0]] <= rest;
    }
  }

  /** Whatever stands in an option word from some place on is spelled somehow. */
  lemma {:induction false} SpellWord(t: Table, text: string, rest: seq<string>) returns (w: Word)
    requires text != ""
    ensures Text(w) == text && More(w) <= rest && Spelt(t, w, |rest| == |More(w)|)
    decreases |text|
  {
    hide Plain, Required, Optional, ByName, Unlike, NameOk, LetterOk, NotLong;
    var c, p := text[0], text[1..];
    assert text == [c] + p;
    if c == '-' {
      w := SpellLong(t, true, p, rest);
    } else if t.longOnly && !(Known(t.letters, c) && Unlike(t, Stem(text), true)) {
      w := SpellLong(t, false, text, rest);
    } else {
      IsLetter(t, text);
      LetterCases(t.letters, c);
      if ByName(t.letters, c) {
        WOnly(t.letters, c);
        w := SpellByW(t, p, rest);
      } else if Required(t.letters, c) || Optional(t.letters, c) {
        w := SpellArgument(t, c, p, rest);
      } else if p == "" {
        w := Last(c);
      } else {
        var more := SpellWord(t, p, rest);
        w := Then(c, more);
      }
    }
  }

  lemma IsLetter(t: Table, text: string)
    requires text != "" && text[0] != '-' && (t.longOnly ==> Known(t.letters, text[0]) && Unlike(t, Stem(text), true))
    ensures LetterOk(t, text[0], text) && NotLong(t, text)
  {
  }

  lemma WOnly(letters: string, c: char)
    requires ByName(letters, c)
    ensures c == 'W'
  {
  }

  /** Every argv is the words of a line. */
  lemma {:induction false} EveryLine(t: Table, mode: Mode, args: seq<string>) returns (l: Line)
    ensures SpeltLine(t, mode, l) && Words(l) == args
    decreases |args|
  {
    hide Spelt;
    if args == [] {
      l := End;
    } else {
      assert args == [args[0]] + args[1..];
      if IsOperand(args[0]) {
        if mode == Stopping {
          l := Halt(args[0], args[1..]);
        } else {
          var more := EveryLine(t, mode, args[1..]);
          l := Operand(args[0], more);
        }
      } else if args[0] == "--" {
        l := Dashes(args[1..]);
      } else {
        var w := SpellWord(t, args[0][1..], args[1..]);
        var n := |More(w)|;
        var more := EveryLine(t, mode, args[1..][n..]);
        l := Given(w, more);
        assert args[0] == "-" + args[0][1..];
        assert args[1..] == args[1..][..n] + args[1..][n..] && args[1..][..n] == More(w);
        assert args == (["-" + Text(w)] + More(w)) + Words(more);
        assert |args[1..]| == n <==> Words(more) == [];
      }
    }
  }

  // --------------------------------------------------------------------- the results

  lemma FinishedParsed(cfg: Config, t: Table, mode: Mode, g: seq<string>, a: seq<string>, optind: nat, rets: seq<Ret>, l: Line)
    requires g != [] && Agrees(cfg, t, mode) && Finished(cfg, g, a, optind, rets)
    ensures Parsed(t, mode, g, a, optind, rets, l)
  {
    if SpeltLine(t, mode, l) && g[1..] == Words(l) {
      ScanIs(cfg, t, mode, l);
      hide SpeltLine, Scan;
      assert g[..1] == [g[0]];
    }
  }

  /** The caller's loop: `getopt_long` until it returns -1.  argv ends as the program name,
      then every option with its arguments (and "--"), then the operands, each in the
      original order; `optind` is the first operand; and the calls return what the options
      say, whatever their spelling. */
  method ParseAll(cfg: Config, argv: array<string>) returns (optind: nat, rets: seq<Ret>)
    requires argv.Length > 0 && TableOk(cfg)
    modifies argv
    ensures Finished(cfg, old(argv[..]), argv[..], optind, rets)
    ensures forall t, mode, l :: Agrees(cfg, t, mode) ==> Parsed(t, mode, old(argv[..]), argv[..], optind, rets, l)
  {
    hide Finished, Agrees, Parsed;
    optind, rets := CallUntilDone(cfg, argv);
    forall t, mode, l | Agrees(cfg, t, mode) ensures Parsed(t, mode, old(argv[..]), argv[..], optind, rets, l) {
      FinishedParsed(cfg, t, mode, old(argv[..]), argv[..], optind, rets, l);
    }
  }

  /** Every option string is read in one way. */
  lemma EveryOptions(options: string, posixlyCorrect: bool) returns (letters: string, mode: Mode)
    ensures Reads(options, posixlyCorrect, letters, mode)
    ensures forall letters', mode' :: Reads(options, posixlyCorrect, letters', mode') ==> letters' == letters && mode' == mode
  {
    letters := if "+" <= options || "-" <= options then options[1..] else options;
    mode := if "+" <= options then Stopping else if "-" <= options then InPlace
            else if posixlyCorrect then Stopping else Permuting;
    assert "+" <= options ==> options == "+" + options[1..];
    assert "-" <= options ==> options == "-" + options[1..];
    forall letters', mode' | Reads(options, posixlyCorrect, letters', mode') ensures letters' == letters && mode' == mode {
      assert "+" <= options ==> ("+" + letters')[1..] == letters';
      assert !("+" <= options) && "-" <= options ==> ("-" + letters')[1..] == letters';
    }
  }

  lemma SetupAgrees(options: string, longs: seq<LongOption>, posixlyCorrect: bool, longOnly: bool, letters: string, mode: Mode)
    requires Reads(options, posixlyCorrect, letters, mode)
    ensures Agrees(Setup(options, longs, posixlyCorrect, longOnly), Table(letters, longs, longOnly), mode)
  {
    if options != "" {
      assert "+" <= options <==> options[0] == '+';
      assert "-" <= options <==> options[0] == '-';
      assert ("+" + letters)[1..] == letters && ("-" + letters)[1..] == letters;
    }
  }

  /** getopt_long, called until it returns -1 by a caller with the option string and long
      options given, in the mode that the first character of the string and the environment
      choose; `getopt_long_only` when longOnly. */
  method GetoptLong(options: string, longs: seq<LongOption>, posixlyCorrect: bool, longOnly: bool, argv: array<string>)
    returns (optind: nat, rets: seq<Ret>)
    requires argv.Length > 0 && forall k :: 0 <= k < |longs| ==> longs[k].val != -1
    modifies argv
    ensures forall letters, mode, l :: Reads(options, posixlyCorrect, letters, mode) ==>
              Parsed(Table(letters, longs, longOnly), mode, old(argv[..]), argv[..], optind, rets, l)
  {
    optind, rets := ParseAll(Setup(options, longs, posixlyCorrect, longOnly), argv);
    hide Setup, Agrees, Parsed, Reads, Finished;
    forall letters, mode, l | Reads(options, posixlyCorrect, letters, mode)
      ensures Parsed(Table(letters, longs, longOnly), mode, old(argv[..]), argv[..], optind, rets, l)
    {
      SetupAgrees(options, longs, posixlyCorrect, longOnly, letters, mode);
    }
  }
}
