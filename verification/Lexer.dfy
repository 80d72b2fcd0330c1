/** The lexeme loop of highlight.js as a state machine. A grammar is a table of modes; what the
    regular expressions match is an oracle, so every statement holds for all regular expressions. */
module Lexer {
  import opened Html
  import opened Optional
  import opened TokenTree

  /** How the buffered text of a mode is turned into nodes. */
  datatype Content = Plain | Keywords | SubLanguage

  datatype Mode = Mode(
    className: string, content: Content,
    contains: seq<nat>, hasEnd: bool, hasIllegal: bool, starts: Option<nat>,
    skip: bool, excludeBegin: bool, returnBegin: bool, excludeEnd: bool, returnEnd: bool,
    endsParent: bool, endsWithParent: bool, keywordGuard: bool)

  datatype Kind = Begin(mode: nat) | End | Illegal

  /** The order in which the alternatives of a mode's combined expression are tried. */
  function Rules(m: Mode): (rules: seq<Kind>)
    ensures forall i :: 0 <= i < |rules| && rules[i].Begin? ==> rules[i].mode in m.contains
  {
    seq(|m.contains|, i requires 0 <= i < |m.contains| => Begin(m.contains[i]))
    + (if m.hasEnd then [End] else []) + (if m.hasIllegal then [Illegal] else [])
  }

  datatype Word = Word(start: nat, end: nat, kind: Option<string>)

  /** The result of a nested highlighter. Undetected: none of the languages to choose from was relevant,
      and the text stays plain. Highlighted: the language, the children of its root, and the run they
      come from. */
  datatype Nested =
    | Undetected
    | Highlighted(language: string, children: seq<Tree>, world: World, modes: seq<Active>, steps: nat)

  /** What the program learns from regular expressions and nested highlighters.
      matchAt: length matched by a rule of a mode at a position of the text;
      endsAt: whether, in an iteration, the mode's end expression matches at a position;
      position: the rule position stored in the match of an iteration (it is shared between the
      cached matchers of a mode, so nothing is assumed about it);
      word: the next word of a mode's buffer and its keyword class;
      nested: the result of a nested highlighter, absent for an unknown language. */
  datatype Oracle = Oracle(
    matchAt: (nat, nat, nat) -> Option<nat>,
    endsAt: (nat, nat, nat) -> bool,
    position: nat -> nat,
    word: (nat, string, nat) -> Option<Word>,
    nested: (nat, string, nat) -> Option<Nested>)

  /** Mode 0 is the language itself. */
  datatype World = World(grammar: nat -> Mode, oracle: Oracle, text: string, ignoreIllegals: bool) {

    /** A match lies within the text. */
    function MatchAt(m: nat, r: nat, i: nat): (len: Option<nat>)
      ensures len.Some? ==> i + len.value <= |text|
    {
      var len := oracle.matchAt(m, r, i);
      if len.Some? && i + len.value <= |text| then len else None
    }

    /** A word lies in the rest of the buffer and is not empty. */
    function NextWord(m: nat, k: string, n: nat): (x: Option<Word>)
      ensures x.Some? ==> n <= x.value.start < x.value.end <= |k|
    {
      var x := oracle.word(m, k, n);
      if x.Some? && n <= x.value.start < x.value.end <= |k| then x else None
    }
  }

  datatype Match = Match(index: nat, length: nat, kind: Kind)

  datatype Status = Running | Finished | IllegalLexeme | Failed

  /** An active mode; the language itself is active without having opened a node. */
  datatype Active = Active(mode: nat, hasNode: bool)

  /** Where text goes: the open nodes, then the buffer that is not flushed yet. */
  datatype Sink = Sink(out: Frames, buffer: string) {
    function Text(): string { FramesText(out) + buffer }

    function Append(s: string): (k: Sink)
      ensures k.Text() == Text() + s && k.out == out && k.buffer == buffer + s
    {
      assert FramesText(out) + (buffer + s) == FramesText(out) + buffer + s;
      Sink(out, buffer + s)
    }
  }

  datatype Lexing = Lexing(
    modes: seq<Active>, sink: Sink, index: nat, last: Option<Match>,
    steps: nat, resume: bool, regexIndex: nat, lastIndex: nat, status: Status)

  // ---------------------------------------------------------------- matching

  /** The first rule, from number r on, that matches at position i. */
  function RuleAt(w: World, m: nat, count: nat, r: nat, i: nat): (found: Option<nat>)
    ensures found.Some? ==> r <= found.value < count && w.MatchAt(m, found.value, i).Some?
    ensures found.None? ==> forall q :: r <= q < count ==> w.MatchAt(m, q, i).None?
    decreases count - r
  {
    if r >= count then None
    else if w.MatchAt(m, r, i).Some? then Some(r)
    else RuleAt(w, m, count, r + 1, i)
  }

  /** The leftmost position from i on where some rule from r on matches. */
  function Scan(w: World, m: nat, count: nat, r: nat, i: nat, size: nat): (found: Option<nat>)
    ensures found.Some? ==> i <= found.value <= size && RuleAt(w, m, count, r, found.value).Some?
    ensures forall p :: i <= p <= size && (found.Some? ==> p < found.value) ==> RuleAt(w, m, count, r, p).None?
    decreases size + 1 - i
  {
    if i > size then None
    else if RuleAt(w, m, count, r, i).Some? then Some(i)
    else Scan(w, m, count, r, i + 1, size)
  }

  /** String.substring: both ends clamped, swapped when out of order. */
  function Substring(s: string, a: nat, b: nat): string {
    var x, y := if a < |s| then a else |s|, if b < |s| then b else |s|;
    if x <= y then s[x..y] else s[y..x]
  }

  function Upto(s: string, i: nat): string {
    if i <= |s| then s[..i] else s
  }

  function From(s: string, i: nat): string {
    if i <= |s| then s[i..] else ""
  }

  // ---------------------------------------------------------------- flushing the buffer

  function TextTree(k: string): seq<Tree> {
    if k == "" then [] else [Leaf(k)]
  }

  function KeywordTrees(w: World, m: nat, k: string, n: nat, r: string): seq<Tree>
    requires n <= |k|
    decreases |k| - n
  {
    match w.NextWord(m, k, n)
    case None => TextTree(r + k[n..])
    case Some(x) =>
      var skipped := r + k[n..x.start];
      if x.kind.Some? then
        TextTree(skipped) + [Branch(x.kind.value, false, [Leaf(k[x.start..x.end])])] + KeywordTrees(w, m, k, x.end, "")
      else
        KeywordTrees(w, m, k, x.end, skipped + k[x.start..x.end])
  }

  function Flushed(w: World, m: nat, k: string, step: nat): seq<Tree>
  {
    match w.grammar(m).content
    case Plain => TextTree(k)
    case Keywords => KeywordTrees(w, m, k, 0, "")
    case SubLanguage =>
      if k == "" then []
      else match w.oracle.nested(m, k, step)
        case None => TextTree(k)
        case Some(Undetected) => [Branch("", true, [Leaf(k)])]
        case Some(Highlighted(language, children, _, _, _)) => [Branch(language, true, children)]
  }

  /** The text of what a buffer is turned into: that of the nested tree, or the buffer itself. */
  function FlushText(w: World, m: nat, k: string, step: nat): string {
    if w.grammar(m).content.SubLanguage? && k != "" then
      match w.oracle.nested(m, k, step)
      case Some(Highlighted(_, children, _, _, _)) => ForestText(children)
      case _ => k
    else k
  }

  function Top(st: Lexing): nat
    requires st.modes != []
  {
    st.modes[|st.modes| - 1].mode
  }

  /** Flushing turns the buffer into nodes. */
  function Flush(w: World, m: nat, k: Sink, step: nat): (r: Sink)
    ensures |r.out| == |k.out| && r.buffer == ""
    ensures r.Text() == FramesText(k.out) + FlushText(w, m, k.buffer, step)
  {
    FlushedText(w, m, k.buffer, step);
    AddAllText(k.out, Flushed(w, m, k.buffer, step));
    Sink(AddAll(k.out, Flushed(w, m, k.buffer, step)), "")
  }

  // ---------------------------------------------------------------- one iteration

  function Lexeme(w: World, y: Match): string
    requires y.index + y.length <= |w.text|
  {
    w.text[y.index..y.index + y.length]
  }

  /** The state in which the matcher runs: a resumed scan keeps the matcher's old start. */
  function Aim(st: Lexing): Lexing {
    var a := st.(steps := st.steps + 1, resume := false);
    if st.resume then a else a.(lastIndex := st.index, regexIndex := 0)
  }

  /** The match the iteration works on. */
  function Look(w: World, st: Lexing): (y: Option<Match>)
    ensures y.Some? ==> st.modes != [] && y.value.index + y.value.length <= |w.text|
  {
    if st.modes == [] then None
    else
      var a, m := Aim(st), Top(st);
      var rules := Rules(w.grammar(m));
      var i := Scan(w, m, |rules|, a.regexIndex, a.lastIndex, |w.text|);
      if i.None? then None
      else
        var r := RuleAt(w, m, |rules|, a.regexIndex, i.value).value;
        Some(Match(i.value, w.MatchAt(m, r, i.value).value, rules[r]))
  }

  function NextRegexIndex(w: World, st: Lexing): nat
    requires st.modes != []
  {
    var next := Aim(st).regexIndex + w.oracle.position(st.steps) + 1;
    if next == |w.grammar(Top(st)).contains| then 0 else next
  }

  function Iterate(w: World, st: Lexing): Lexing
  {
    var a := Aim(st);
    if st.modes == [] then a.(status := Failed)
    else
      var y := Look(w, st);
      if y.None? then Finish(w, a)
      else Process(w, a.(regexIndex := NextRegexIndex(w, st)), y.value)
  }

  /** No match: the rest of the text is buffered and every open node is closed. */
  function Finish(w: World, st: Lexing): Lexing
    requires st.modes != []
  {
    var k := Flush(w, Top(st), st.sink.Append(From(w.text, st.index)), st.steps);
    st.(sink := Sink(CloseAll(k.out), ""), status := Finished)
  }

  /** An empty begin match followed by an empty end match at the same place. */
  predicate ZeroWidthPair(last: Option<Match>, y: Match) {
    last.Some? && last.value.kind.Begin? && y.kind.End? && last.value.index == y.index && y.length == 0
  }

  function Process(w: World, st: Lexing, y: Match): Lexing
    requires st.modes != []
    requires y.index + y.length <= |w.text|
  {
    var k := st.(sink := st.sink.Append(Substring(w.text, st.index, y.index)));
    if ZeroWidthPair(st.last, y) then
      k.(sink := k.sink.Append(Substring(w.text, y.index, y.index + 1)), index := y.index + 1)
    else
      var l := k.(last := Some(y));
      match y.kind
      case Begin(c) => BeginMatch(w, l, y, c)
      case Illegal => if w.ignoreIllegals then Consume(w, l, y) else l.(status := IllegalLexeme)
      case End =>
        match EndOfMode(w, l.modes, |l.modes| - 1, l.steps, y.index)
        case NoEnd => Consume(w, l, y)
        case Broken => l.(status := Failed)
        case Ends(d) => EndMatch(w, l, y, d)
  }

  /** A keyword mode ignores a match next to a dot. */
  predicate Dotted(s: string, y: Match)
    requires y.index + y.length <= |s|
  {
    (y.index > 0 && s[y.index - 1] == '.') || (y.index + y.length < |s| && s[y.index + y.length] == '.')
  }

  /** Indexing an empty string yields the undefined value, which is then appended as a word. */
  function FirstChar(lexeme: string): string {
    if lexeme == "" then "undefined" else lexeme[..1]
  }

  function Start(w: World, c: nat, k: Sink): (r: Sink)
    ensures r.Text() == k.Text()
    ensures |r.out| == |k.out| + if w.grammar(c).className == "" then 0 else 1
  {
    if w.grammar(c).className == "" then k else Sink(OpenNode(k.out, w.grammar(c).className), k.buffer)
  }

  /** The lexeme of a begin match goes before the new node, into it, or is left to be read again. */
  function BeginSink(w: World, m: nat, rule: Mode, k: Sink, lexeme: string, step: nat): (r: Sink)
    ensures |r.out| == |k.out|
    ensures r.Text() == FramesText(k.out) +
              if rule.skip then k.buffer + lexeme
              else if rule.excludeBegin then FlushText(w, m, k.buffer + lexeme, step)
              else FlushText(w, m, k.buffer, step) + if rule.returnBegin then "" else lexeme
  {
    if rule.skip then
      Associative(FramesText(k.out), k.buffer, lexeme);
      k.Append(lexeme)
    else
      var given := if rule.excludeBegin then k.Append(lexeme) else k;
      var f := Flush(w, m, given, step);
      Associative(FramesText(k.out), FlushText(w, m, given.buffer, step), lexeme);
      if rule.returnBegin || rule.excludeBegin then f else f.Append(lexeme)
  }

  function BeginMatch(w: World, st: Lexing, y: Match, c: nat): Lexing
    requires st.modes != []
    requires y.index + y.length <= |w.text|
  {
    var rule, lexeme := w.grammar(c), Lexeme(w, y);
    if rule.keywordGuard && Dotted(w.text, y) then
      if st.regexIndex == 0 then st.(sink := st.sink.Append(FirstChar(lexeme)), index := y.index + 1)
      else st.(resume := true, index := y.index)
    else
      var k := BeginSink(w, Top(st), rule, st.sink, lexeme, st.steps);
      st.(sink := Start(w, c, k), modes := st.modes + [Active(c, true)],
          index := if rule.returnBegin then y.index else y.index + y.length)
  }

  datatype EndResult = NoEnd | Broken | Ends(depth: nat)

  /** The active mode that an end match closes, searched from mode d outwards. */
  function EndOfMode(w: World, modes: seq<Active>, d: nat, step: nat, i: nat): (r: EndResult)
    requires d < |modes|
    ensures r.Ends? ==> r.depth < |modes|
  {
    var m := modes[d].mode;
    if w.oracle.endsAt(step, m, i) then Ends(Outermost(w, modes, d))
    else if w.grammar(m).endsWithParent then
      if d == 0 then Broken else EndOfMode(w, modes, d - 1, step, i)
    else NoEnd
  }

  function Outermost(w: World, modes: seq<Active>, d: nat): (r: nat)
    requires d < |modes|
    ensures r <= d
  {
    if w.grammar(modes[d].mode).endsParent && d > 0 then Outermost(w, modes, d - 1) else d
  }

  /** Leaves the modes from the innermost one down to depth d, closing their nodes. */
  function Leave(w: World, modes: seq<Active>, out: Frames, d: nat): (r: Frames)
    requires d <= |modes|
    ensures FramesText(r) == FramesText(out)
    decreases |modes|
  {
    if |modes| == d then out
    else
      var n := |modes| - 1;
      Leave(w, modes[..n], if w.grammar(modes[n].mode).className == "" then out else CloseNode(out), d)
  }

  /** The lexeme of an end match goes into the node that is closed, after it, or is read again. */
  function EndSink(w: World, m: nat, k: Sink, lexeme: string, step: nat): (r: Sink)
    ensures |r.out| == |k.out|
    ensures var mode := w.grammar(m);
            r.Text() == FramesText(k.out) +
              if mode.skip then k.buffer + lexeme
              else if mode.excludeEnd then FlushText(w, m, k.buffer, step) + lexeme
              else FlushText(w, m, if mode.returnEnd then k.buffer else k.buffer + lexeme, step)
  {
    var mode := w.grammar(m);
    if mode.skip then
      Associative(FramesText(k.out), k.buffer, lexeme);
      k.Append(lexeme)
    else
      var given := if mode.returnEnd || mode.excludeEnd then k else k.Append(lexeme);
      var f := Flush(w, m, given, step);
      Associative(FramesText(k.out), FlushText(w, m, given.buffer, step), lexeme);
      if mode.excludeEnd then f.Append(lexeme) else f
  }

  /** Leaving to depth d and, if the closed mode names one, starting its successor. */
  function LeaveSink(w: World, modes: seq<Active>, k: Sink, d: nat): (r: Sink)
    requires d < |modes|
    ensures r.Text() == k.Text()
  {
    var closed := Sink(Leave(w, modes, k.out, d), k.buffer);
    var starts := w.grammar(modes[d].mode).starts;
    if starts.Some? then Start(w, starts.value, closed) else closed
  }

  function LeaveModes(w: World, modes: seq<Active>, d: nat): seq<Active>
    requires d < |modes|
  {
    var starts := w.grammar(modes[d].mode).starts;
    modes[..d] + if starts.Some? then [Active(starts.value, true)] else []
  }

  function EndMatch(w: World, st: Lexing, y: Match, d: nat): Lexing
    requires d < |st.modes|
    requires y.index + y.length <= |w.text|
  {
    var k := EndSink(w, Top(st), st.sink, Lexeme(w, y), st.steps);
    st.(sink := LeaveSink(w, st.modes, k, d), modes := LeaveModes(w, st.modes, d),
        index := if w.grammar(Top(st)).returnEnd then y.index else y.index + y.length)
  }

  /** A match that neither begins nor ends a mode. */
  function Consume(w: World, st: Lexing, y: Match): Lexing
    requires y.index + y.length <= |w.text|
  {
    if y.kind.Illegal? && y.length == 0 then st.(index := y.index + 1)
    else if st.steps > 100000 && st.steps > 3 * y.index then st.(status := Failed)
    else st.(sink := st.sink.Append(Lexeme(w, y)), index := y.index + y.length)
  }

  function Run(w: World, st: Lexing, n: nat): Lexing
    decreases n
  {
    if n == 0 || st.status != Running then st else Run(w, Iterate(w, st), n - 1)
  }

  // ---------------------------------------------------------------- invariants

  /** The number of active modes that opened a node. */
  function Opened(w: World, modes: seq<Active>): nat
  {
    if modes == [] then 0
    else
      var n := |modes| - 1;
      Opened(w, modes[..n]) + if modes[n].hasNode && w.grammar(modes[n].mode).className != "" then 1 else 0
  }

  /** The rules a resumed scan still considers match nowhere between its start and the cursor. */
  ghost predicate NoneBetween(w: World, m: nat, r: nat, lo: nat, hi: nat)
  {
    forall p :: lo <= p < hi ==> RuleAt(w, m, |Rules(w.grammar(m))|, r, p).None?
  }

  ghost predicate Inv(w: World, st: Lexing) {
    && (forall i :: 0 < i < |st.modes| ==> st.modes[i].hasNode)
    && (st.status != Finished ==> |st.sink.out| == 1 + Opened(w, st.modes))
    && (st.status == Finished ==> |st.sink.out| == 1 && st.sink.buffer == "")
    && (st.resume ==> st.modes != [] && st.lastIndex <= st.index <= |w.text|
                      && NoneBetween(w, Top(st), st.regexIndex, st.lastIndex, st.index))
  }

  /** Nothing lost, nothing doubled: what has been emitted is the text up to the cursor. */
  ghost predicate Kept(w: World, st: Lexing) {
    st.sink.Text() == if st.status == Finished then w.text else Upto(w.text, st.index)
  }

  /** The iterations that read a lexeme again that they have already written, or step over a character
      without writing it: told from the grammar's flags and the length of the match. */
  predicate Rereads(w: World, st: Lexing)
  {
    var y := Look(w, st);
    y.Some? && !ZeroWidthPair(st.last, y.value) &&
    match y.value.kind
    case Begin(c) =>
      var rule := w.grammar(c);
      if rule.keywordGuard && Dotted(w.text, y.value) then NextRegexIndex(w, st) == 0 && y.value.length == 0
      else rule.returnBegin && (rule.skip || rule.excludeBegin) && y.value.length > 0
    case Illegal => w.ignoreIllegals && y.value.length == 0 && y.value.index < |w.text|
    case End =>
      var mode := w.grammar(Top(st));
      EndOfMode(w, st.modes, |st.modes| - 1, st.steps + 1, y.value.index).Ends?
      && mode.returnEnd && (mode.skip || mode.excludeEnd) && y.value.length > 0
  }

  /** The buffer that an iteration hands over to be turned into nodes, if it does so. */
  function Given(w: World, st: Lexing): (given: Option<string>)
    ensures given.Some? ==> st.modes != []
  {
    var y := Look(w, st);
    if st.modes == [] then None
    else if y.None? then Some(st.sink.buffer + From(w.text, st.index))
    else if ZeroWidthPair(st.last, y.value) then None
    else
      var buffer, lexeme := st.sink.buffer + Substring(w.text, st.index, y.value.index), Lexeme(w, y.value);
      match y.value.kind
      case Begin(c) =>
        var rule := w.grammar(c);
        if (rule.keywordGuard && Dotted(w.text, y.value)) || rule.skip then None
        else Some(if rule.excludeBegin then buffer + lexeme else buffer)
      case End =>
        var mode := w.grammar(Top(st));
        if !EndOfMode(w, st.modes, |st.modes| - 1, st.steps + 1, y.value.index).Ends? || mode.skip then None
        else Some(if mode.returnEnd || mode.excludeEnd then buffer else buffer + lexeme)
      case Illegal => None
  }

  /** The iterations that hand their buffer to a nested highlighter which gives another text back. */
  predicate LosesNested(w: World, st: Lexing) {
    var given := Given(w, st);
    given.Some? && FlushText(w, Top(st), given.value, st.steps + 1) != given.value
  }

  /** The iterations in which text is lost or doubled: those that reread, and those whose nested result
      has another text, unless they do both and the nested result is short of just what is read again. */
  predicate Corrupts(w: World, st: Lexing) {
    var given := Given(w, st);
    if given.Some? && Rereads(w, st) then
      FlushText(w, Top(st), given.value, st.steps + 1) + Lexeme(w, Look(w, st).value) != given.value
    else Rereads(w, st) || LosesNested(w, st)
  }

  /** Without a nested result of another text, rereading is all that corrupts. */
  lemma CorruptsWithoutNested(w: World, st: Lexing)
    requires !LosesNested(w, st)
    ensures Corrupts(w, st) <==> Rereads(w, st)
  {
    hide EndOfMode, Dotted, FlushText, NextRegexIndex;
  }

  // ---------------------------------------------------------------- flushing

  lemma TextTreeText(k: string)
    ensures ForestText(TextTree(k)) == k
  {
    if k != "" {
      assert TextTree(k)[..0] == [];
    }
  }

  lemma {:induction false} KeywordTreesText(w: World, m: nat, k: string, n: nat, r: string)
    requires n <= |k|
    ensures ForestText(KeywordTrees(w, m, k, n, r)) == r + k[n..]
    decreases |k| - n
  {
    match w.NextWord(m, k, n)
    case None => TextTreeText(r + k[n..]);
    case Some(x) =>
      var skipped, word := r + k[n..x.start], k[x.start..x.end];
      assert skipped + word + k[x.end..] == r + k[n..];
      if x.kind.Some? {
        var keyword := [Branch(x.kind.value, false, [Leaf(word)])];
        KeywordTreesText(w, m, k, x.end, "");
        TextTreeText(skipped);
        TextTreeText(word);
        assert [Leaf(word)] == TextTree(word);
        assert keyword[..0] == [];
        ForestTextAppend(TextTree(skipped), keyword);
        ForestTextAppend(TextTree(skipped) + keyword, KeywordTrees(w, m, k, x.end, ""));
      } else {
        KeywordTreesText(w, m, k, x.end, skipped + word);
      }
  }

  lemma FlushedText(w: World, m: nat, k: string, step: nat)
    ensures ForestText(Flushed(w, m, k, step)) == FlushText(w, m, k, step)
  {
    TextTreeText(k);
    KeywordTreesText(w, m, k, 0, "");
    if w.grammar(m).content.SubLanguage? && k != "" && w.oracle.nested(m, k, step).Some? {
      assert Flushed(w, m, k, step)[..0] == [];
      assert TextTree(k) == [Leaf(k)];
    }
  }

  /** Flushing keeps the text exactly if the mode has no sublanguage, there is nothing to flush, the
      language is unknown or none was detected, or the nested tree has the text it was given. */
  lemma FlushKeepsTextIff(w: World, m: nat, k: Sink, step: nat)
    ensures Flush(w, m, k, step).Text() == k.Text() <==>
              || !w.grammar(m).content.SubLanguage? || k.buffer == ""
              || w.oracle.nested(m, k.buffer, step).None? || w.oracle.nested(m, k.buffer, step).value.Undetected?
              || ForestText(w.oracle.nested(m, k.buffer, step).value.children) == k.buffer
  {
    hide Flush, ForestText;
    SamePrefix(FramesText(k.out), FlushText(w, m, k.buffer, step), k.buffer);
  }

  lemma SamePrefix(a: string, b: string, c: string)
    ensures a + b == a + c <==> b == c
  {
    if a + b == a + c {
      assert (a + b)[|a|..] == b && (a + c)[|a|..] == c;
    }
  }

  // ---------------------------------------------------------------- opening and closing modes

  /** Every node closed here is the node of the mode being left: the stack shrinks with the
      active modes and the root is never closed. */
  lemma {:induction false} LeaveKeeps(w: World, modes: seq<Active>, out: Frames, d: nat)
    requires d <= |modes|
    requires forall i :: 0 < i < |modes| ==> modes[i].hasNode
    requires |out| == 1 + Opened(w, modes)
    ensures |Leave(w, modes, out, d)| == 1 + Opened(w, modes[..d])
    decreases |modes|
  {
    if |modes| == d {
      assert modes[..d] == modes;
    } else {
      var n := |modes| - 1;
      var next: Frames := if w.grammar(modes[n].mode).className == "" then out else CloseNode(out);
      assert modes[..n][..d] == modes[..d];
      if n == 0 {
        assert modes[..n] == [];
      }
      LeaveKeeps(w, modes[..n], next, d);
    }
  }

  lemma LeaveSinkKeeps(w: World, modes: seq<Active>, k: Sink, d: nat)
    requires d < |modes|
    requires forall i :: 0 < i < |modes| ==> modes[i].hasNode
    requires |k.out| == 1 + Opened(w, modes)
    ensures var after := LeaveModes(w, modes, d);
            && |LeaveSink(w, modes, k, d).out| == 1 + Opened(w, after)
            && forall i :: 0 < i < |after| ==> after[i].hasNode
  {
    hide Leave, Start;
    LeaveKeeps(w, modes, k.out, d);
    var after := LeaveModes(w, modes, d);
    if w.grammar(modes[d].mode).starts.Some? {
      assert after[..d] == modes[..d];
    } else {
      assert after == modes[..d];
    }
  }

  // ---------------------------------------------------------------- every iteration keeps the invariant

  /** A match is never found behind the cursor. For a resumed scan, which restarts at the
      matcher's old start, this holds because its rules are among those that found nothing
      between that start and the cursor. */
  lemma LookAhead(w: World, st: Lexing)
    requires Inv(w, st)
    ensures var y := Look(w, st);
            y.Some? ==>
              && st.index <= y.value.index
              && (NextRegexIndex(w, st) == 0
                  || NoneBetween(w, Top(st), NextRegexIndex(w, st), Aim(st).lastIndex, y.value.index))
  {
    var y := Look(w, st);
    if y.Some? {
      var m, r, next := Top(st), Aim(st).regexIndex, NextRegexIndex(w, st);
      var count := |Rules(w.grammar(m))|;
      forall p | Aim(st).lastIndex <= p < y.value.index && next >= r
        ensures RuleAt(w, m, count, next, p).None?
      {
        assert RuleAt(w, m, count, r, p).None?;
      }
      if st.resume && y.value.index < st.index {
        assert false;
      }
    }
  }

  lemma BeginMatchInv(w: World, st: Lexing, y: Match, c: nat)
    requires Inv(w, st) && st.modes != [] && st.status == Running && !st.resume
    requires y.index + y.length <= |w.text| && st.lastIndex <= y.index
    requires st.regexIndex == 0 || NoneBetween(w, Top(st), st.regexIndex, st.lastIndex, y.index)
    ensures Inv(w, BeginMatch(w, st, y, c))
  {
    hide Flush, BeginSink, Start, Sink.Text;
    assert (st.modes + [Active(c, true)])[..|st.modes|] == st.modes;
  }

  lemma EndMatchInv(w: World, st: Lexing, y: Match, d: nat)
    requires Inv(w, st) && d < |st.modes| && st.status == Running && !st.resume
    requires y.index + y.length <= |w.text|
    ensures Inv(w, EndMatch(w, st, y, d))
  {
    hide EndSink, LeaveSink, LeaveModes, Opened, NoneBetween;
    LeaveSinkKeeps(w, st.modes, EndSink(w, Top(st), st.sink, Lexeme(w, y), st.steps), d);
  }

  /** The state a match is processed in: cursor text buffered, match remembered. */
  function Reached(w: World, st: Lexing, y: Match): Lexing
    requires st.modes != []
  {
    Aim(st).(regexIndex := NextRegexIndex(w, st), last := Some(y),
             sink := st.sink.Append(Substring(w.text, st.index, y.index)))
  }

  /** The emitter's stack stays one higher than the number of open mode nodes. */
  lemma IterateKeepsInv(w: World, st: Lexing)
    requires Inv(w, st) && st.status == Running
    ensures Inv(w, Iterate(w, st))
  {
    hide Sink.Text, BeginMatch, EndMatch, EndOfMode, Dotted, NextRegexIndex, Look, Opened, NoneBetween, Flush,
         FlushText, Substring, From;
    var look := Look(w, st);
    if look.Some? {
      var y := look.value;
      var l := Reached(w, st, y);
      LookAhead(w, st);
      assert Inv(w, l);
      if !ZeroWidthPair(st.last, y) {
        match y.kind
        case Begin(c) => BeginMatchInv(w, l, y, c);
        case Illegal =>
        case End =>
          var e := EndOfMode(w, l.modes, |l.modes| - 1, l.steps, y.index);
          if e.Ends? {
            EndMatchInv(w, l, y, e.depth);
          }
      }
    }
  }

  // ---------------------------------------------------------------- exactly which iterations keep the text

  /** What may be appended while the cursor moves from i to j, and whether that keeps the text. */
  lemma Tally(s: string, i: nat, len: nat)
    requires i + len <= |s|
    ensures Upto(s, i) + s[i..i + len] == Upto(s, i + len)
    ensures Upto(s, i) + "" == Upto(s, i)
    ensures len > 0 ==> Upto(s, i) + s[i..i + len] != Upto(s, i)
    ensures Upto(s, i) + Substring(s, i, i + 1) == Upto(s, i + 1)
    ensures Upto(s, i) == Upto(s, i + 1) <==> i == |s|
    ensures Upto(s, i) + "undefined" != Upto(s, i + 1)
  {
    assert |s[i..i + len]| == len;
    assert |Upto(s, i) + "undefined"| == i + 9;
  }

  /** Appending x instead of b to what is in front of b keeps the text exactly if x is b and what the
      cursor passes. */
  lemma Replaced(a: string, b: string, x: string, w: string, i: nat, j: nat)
    requires a + b == Upto(w, i) && i <= j <= |w|
    ensures a + x == Upto(w, j) <==> x == b + w[i..j]
  {
    assert Upto(w, j) == Upto(w, i) + w[i..j];
    Associative(a, b, w[i..j]);
    SamePrefix(a, x, b + w[i..j]);
  }

  lemma SameSuffix(a: string, b: string, c: string)
    ensures a + c == b + c <==> a == b
  {
    if a + c == b + c {
      assert |a| == |b| && (a + c)[..|a|] == a && (b + c)[..|b|] == b;
    }
  }

  lemma BeginMatchText(w: World, st: Lexing, y: Match, c: nat)
    requires st.modes != [] && st.status == Running
    requires y.index + y.length <= |w.text| && st.sink.Text() == Upto(w.text, y.index)
    ensures var rule, lexeme, b := w.grammar(c), Lexeme(w, y), st.sink.buffer;
            Kept(w, BeginMatch(w, st, y, c)) <==>
              if rule.keywordGuard && Dotted(w.text, y) then st.regexIndex != 0 || y.length > 0
              else if rule.skip then !rule.returnBegin || y.length == 0
              else if rule.excludeBegin then
                FlushText(w, Top(st), b + lexeme, st.steps) == if rule.returnBegin then b else b + lexeme
              else FlushText(w, Top(st), b, st.steps) == b
  {
    hide Flush, BeginSink, Start, Sink.Text, NoneBetween, Opened, FlushText;
    var rule, lexeme, b := w.grammar(c), Lexeme(w, y), st.sink.buffer;
    Tally(w.text, y.index, y.length);
    if rule.keywordGuard && Dotted(w.text, y) {
      if y.length > 0 {
        assert FirstChar(lexeme) == Substring(w.text, y.index, y.index + 1);
      }
    } else {
      SinkText(st.sink);
      var flushed := FlushText(w, Top(st), if rule.excludeBegin then b + lexeme else b, st.steps);
      var after := if rule.returnBegin then "" else lexeme;
      var x := if rule.skip then b + lexeme else if rule.excludeBegin then flushed else flushed + after;
      var k := BeginSink(w, Top(st), rule, st.sink, lexeme, st.steps);
      assert k.Text() == FramesText(st.sink.out) + x;
      Replaced(FramesText(st.sink.out), b, x, w.text, y.index, BeginMatch(w, st, y, c).index);
      SameSuffix(flushed, b, after);
    }
  }

  lemma SinkText(k: Sink)
    ensures k.Text() == FramesText(k.out) + k.buffer
  {
  }

  lemma EndMatchText(w: World, st: Lexing, y: Match, d: nat)
    requires d < |st.modes| && st.status == Running
    requires y.index + y.length <= |w.text| && st.sink.Text() == Upto(w.text, y.index)
    ensures var mode, lexeme, b := w.grammar(Top(st)), Lexeme(w, y), st.sink.buffer;
            var given := if mode.returnEnd || mode.excludeEnd then b else b + lexeme;
            Kept(w, EndMatch(w, st, y, d)) <==>
              if mode.skip then !mode.returnEnd || y.length == 0
              else if mode.returnEnd && mode.excludeEnd then FlushText(w, Top(st), b, st.steps) + lexeme == b
              else FlushText(w, Top(st), given, st.steps) == given
  {
    hide EndSink, LeaveSink, LeaveModes, Sink.Text, FlushText;
    var mode, lexeme, b := w.grammar(Top(st)), Lexeme(w, y), st.sink.buffer;
    Tally(w.text, y.index, y.length);
    SinkText(st.sink);
    var flushed := FlushText(w, Top(st), if mode.returnEnd || mode.excludeEnd then b else b + lexeme, st.steps);
    var x := if mode.skip then b + lexeme else if mode.excludeEnd then flushed + lexeme else flushed;
    var k := EndSink(w, Top(st), st.sink, lexeme, st.steps);
    assert k.Text() == FramesText(st.sink.out) + x;
    Replaced(FramesText(st.sink.out), b, x, w.text, y.index, EndMatch(w, st, y, d).index);
    SameSuffix(flushed, b, lexeme);
  }

  lemma ConsumeText(w: World, st: Lexing, y: Match)
    requires y.index + y.length <= |w.text| && st.sink.Text() == Upto(w.text, y.index) && st.status == Running
    ensures var r := Consume(w, st, y);
            r.status == Running ==>
              (Kept(w, r) <==> !(y.kind.Illegal? && y.length == 0 && y.index < |w.text|))
  {
    hide Sink.Text;
    Tally(w.text, y.index, y.length);
  }

  lemma FinishText(w: World, st: Lexing)
    requires st.modes != [] && st.sink.Text() == Upto(w.text, st.index)
    ensures var given := st.sink.buffer + From(w.text, st.index);
            Kept(w, Finish(w, st)) <==> FlushText(w, Top(st), given, st.steps) == given
  {
    hide Flush, ForestText, NoneBetween, FlushText;
    var given := st.sink.buffer + From(w.text, st.index);
    var k := Flush(w, Top(st), st.sink.Append(From(w.text, st.index)), st.steps);
    var flushed := FlushText(w, Top(st), given, st.steps);
    assert FramesText(k.out) + "" == FramesText(k.out) && flushed + "" == flushed;
    Associative(FramesText(st.sink.out), st.sink.buffer, From(w.text, st.index));
    assert FramesText(st.sink.out) + given == w.text;
    SamePrefix(FramesText(st.sink.out), flushed, given);
  }

  lemma ReachedText(w: World, st: Lexing, y: Match)
    requires Inv(w, st) && Look(w, st) == Some(y) && st.status == Running && Kept(w, st)
    ensures Reached(w, st, y).sink.Text() == Upto(w.text, y.index)
  {
    hide Sink.Text, Look, NextRegexIndex;
    LookAhead(w, st);
  }

  lemma BeginKeepsText(w: World, st: Lexing, y: Match, c: nat)
    requires Inv(w, st) && st.status == Running && Kept(w, st)
    requires Look(w, st) == Some(y) && !ZeroWidthPair(st.last, y) && y.kind == Begin(c)
    ensures Kept(w, BeginMatch(w, Reached(w, st, y), y, c)) <==> !Corrupts(w, st)
  {
    hide Sink.Text, BeginMatch, NoneBetween, Opened, Dotted, NextRegexIndex, Look, FlushText, Kept, Inv;
    ReachedText(w, st, y);
    BeginMatchText(w, Reached(w, st, y), y, c);
    var b := Reached(w, st, y).sink.buffer;
    SameSuffix(FlushText(w, Top(st), b + Lexeme(w, y), st.steps + 1), b, Lexeme(w, y));
    EmptyLexeme(b, w, y);
  }

  lemma EmptyLexeme(b: string, w: World, y: Match)
    requires y.index + y.length <= |w.text|
    ensures y.length == 0 ==> b + Lexeme(w, y) == b
  {
  }

  lemma EndKeepsText(w: World, st: Lexing, y: Match, d: nat)
    requires Inv(w, st) && st.status == Running && Kept(w, st)
    requires Look(w, st) == Some(y) && !ZeroWidthPair(st.last, y) && y.kind == End && d < |st.modes|
    requires EndOfMode(w, st.modes, |st.modes| - 1, st.steps + 1, y.index) == Ends(d)
    ensures Kept(w, EndMatch(w, Reached(w, st, y), y, d)) <==> !Corrupts(w, st)
  {
    hide Sink.Text, EndMatch, NoneBetween, Opened, EndOfMode, NextRegexIndex, Look, FlushText, Kept, Inv;
    ReachedText(w, st, y);
    EndMatchText(w, Reached(w, st, y), y, d);
    EmptyLexeme(FlushText(w, Top(st), Reached(w, st, y).sink.buffer, st.steps + 1), w, y);
  }

  /** Exactly the corrupting iterations break the text: from a state that kept the text, an
      iteration that neither stops nor fails keeps it if and only if it is not one of them. */
  lemma IterateKeepsText(w: World, st: Lexing)
    requires Inv(w, st) && st.status == Running && Kept(w, st)
    ensures var r := Iterate(w, st);
            r.status == Running || r.status == Finished ==> (Kept(w, r) <==> !Corrupts(w, st))
  {
    hide Sink.Text, BeginMatch, EndMatch, Finish, NoneBetween, Opened, EndOfMode, Dotted, NextRegexIndex, Look,
         FlushText;
    var look := Look(w, st);
    if look.Some? {
      var y := look.value;
      var l := Reached(w, st, y);
      ReachedText(w, st, y);
      if ZeroWidthPair(st.last, y) {
        Tally(w.text, y.index, y.length);
      } else {
        match y.kind
        case Begin(c) => BeginKeepsText(w, st, y, c);
        case Illegal => ConsumeText(w, l, y);
        case End =>
          var e := EndOfMode(w, l.modes, |l.modes| - 1, l.steps, y.index);
          if e.Ends? {
            EndKeepsText(w, st, y, e.depth);
          } else {
            ConsumeText(w, l, y);
          }
      }
    } else if st.modes != [] {
      FinishText(w, Aim(st));
    }
  }

  /** A one-letter text and a mode that both skips its lexeme and returns it. */
  function RereadWorld(): World {
    var flags := Mode("", Plain, [], false, false, None, true, false, true, false, false, false, false, false);
    World((m: nat) => if m == 0 then flags.(contains := [1], skip := false, returnBegin := false) else flags,
          Oracle((m: nat, r: nat, i: nat) => if m == 0 && i == 0 then Some(1) else None,
                 (step: nat, m: nat, i: nat) => false, (step: nat) => 0,
                 (m: nat, k: string, n: nat) => None, (m: nat, k: string, n: nat) => None),
          "a", false)
  }

  /** Such a mode does double text: one iteration buffers the letter and leaves the cursor before it. */
  lemma RereadingDoublesText()
    ensures var w, st := RereadWorld(), Initial(RereadWorld(), [Active(0, false)]);
            && Kept(w, st) && Rereads(w, st) && Corrupts(w, st)
            && Alive(Iterate(w, st)) && Iterate(w, st).sink.Text() == "a" && Iterate(w, st).index == 0
  {
    var w := RereadWorld();
    var modes := [Active(0, false)];
    var st := Initial(w, modes);
    InitialInv(w, modes);
    assert Rules(w.grammar(0)) == [Begin(1)];
    assert w.MatchAt(0, 0, 0) == Some(1);
    assert RuleAt(w, 0, 1, 0, 0) == Some(0);
    assert Scan(w, 0, 1, 0, 0, 1) == Some(0);
    assert Look(w, st) == Some(Match(0, 1, Begin(1)));
    assert FramesText(st.sink.out) == "";
    assert Lexeme(w, Match(0, 1, Begin(1))) == "a";
  }

  // ---------------------------------------------------------------- whole runs

  /** The start of a run: the modes of a continued run are reopened on a new emitter. */
  function Initial(w: World, modes: seq<Active>): Lexing {
    Lexing(modes, Sink(Reopened(w, modes), ""), 0, None, 0, false, 0, 0, Running)
  }

  function Reopened(w: World, modes: seq<Active>): (r: Frames)
    ensures FramesText(r) == ""
  {
    if |modes| <= 1 then
      assert EMPTY_FRAMES[..0] == [];
      EMPTY_FRAMES
    else
      var n := |modes| - 1;
      var before := Reopened(w, modes[..n]);
      if w.grammar(modes[n].mode).className == "" then before else OpenNode(before, w.grammar(modes[n].mode).className)
  }

  /** The language at the bottom opened no node, every mode above it did. */
  ghost predicate Chain(modes: seq<Active>) {
    && modes != [] && modes[0] == Active(0, false)
    && forall i :: 0 < i < |modes| ==> modes[i].hasNode
  }

  lemma {:induction false} ReopenedHeight(w: World, modes: seq<Active>)
    requires Chain(modes)
    ensures |Reopened(w, modes)| == 1 + Opened(w, modes)
  {
    var n := |modes| - 1;
    if n == 0 {
      assert modes[..0] == [];
    } else {
      ReopenedHeight(w, modes[..n]);
    }
  }

  lemma InitialInv(w: World, modes: seq<Active>)
    requires Chain(modes)
    ensures Inv(w, Initial(w, modes)) && Kept(w, Initial(w, modes))
  {
    ReopenedHeight(w, modes);
  }

  ghost predicate Alive(st: Lexing) {
    st.status == Running || st.status == Finished
  }

  /** No iteration among the first n is a corrupting one that the run survives. */
  ghost predicate Clean(w: World, st: Lexing, n: nat)
    decreases n
  {
    n == 0 || st.status != Running
    || ((Alive(Iterate(w, st)) ==> !Corrupts(w, st)) && Clean(w, Iterate(w, st), n - 1))
  }

  ghost predicate KeptThroughout(w: World, st: Lexing, n: nat)
    decreases n
  {
    (Alive(st) ==> Kept(w, st)) && (n == 0 || st.status != Running || KeptThroughout(w, Iterate(w, st), n - 1))
  }

  lemma {:induction false} RunKeepsText(w: World, st: Lexing, n: nat)
    requires Inv(w, st)
    requires Alive(st) ==> Kept(w, st)
    ensures Clean(w, st, n) <==> KeptThroughout(w, st, n)
    ensures Clean(w, st, n) && Alive(Run(w, st, n)) ==> Kept(w, Run(w, st, n))
    ensures Inv(w, Run(w, st, n))
    decreases n
  {
    hide Iterate, Inv, Kept, Corrupts;
    if n != 0 && st.status == Running {
      var next := Iterate(w, st);
      IterateKeepsInv(w, st);
      IterateKeepsText(w, st);
      if Alive(next) ==> Kept(w, next) {
        RunKeepsText(w, next, n - 1);
      } else {
        NotKept(w, next, n - 1);
        RunInv(w, next, n - 1);
      }
    }
  }

  lemma NotKept(w: World, st: Lexing, n: nat)
    requires Alive(st) && !Kept(w, st)
    ensures !KeptThroughout(w, st, n)
  {
  }

  lemma {:induction false} RunInv(w: World, st: Lexing, n: nat)
    requires Inv(w, st)
    ensures Inv(w, Run(w, st, n))
    decreases n
  {
    hide Iterate, Inv;
    if n != 0 && st.status == Running {
      IterateKeepsInv(w, st);
      RunInv(w, Iterate(w, st), n - 1);
    }
  }

  /** What the program returns as HTML; a run that stopped early returns the escaped text. */
  function Value(w: World, st: Lexing, prefix: string): string {
    if st.status == Finished && |st.sink.out| == 1 then Render(Root(st.sink.out), prefix) else Escape(w.text)
  }

  /** Highlighting never changes the text: whatever the expressions match, when the run ends the
      leaves of the tree are the text, and so is the HTML without its tags and entities. */
  lemma HighlightKeepsText(w: World, modes: seq<Active>, n: nat, prefix: string)
    requires Chain(modes) && Clean(w, Initial(w, modes), n)
    ensures var r := Run(w, Initial(w, modes), n);
            && (r.status == Finished ==> |r.sink.out| == 1 && TreeText(Root(r.sink.out)) == w.text)
            && (r.status != Running && (r.status == Finished ==> ClassesClosed(Root(r.sink.out), prefix)) ==>
                  Unescape(StripTags(Value(w, r, prefix))) == w.text)
  {
    hide Iterate, Clean, Initial, Render, Escape, Unescape, StripTags, FramesText, ClassesClosed;
    var r := Run(w, Initial(w, modes), n);
    InitialInv(w, modes);
    RunKeepsText(w, Initial(w, modes), n);
    if r.status == Finished {
      assert FramesText(r.sink.out) + "" == FramesText(r.sink.out);
      if ClassesClosed(Root(r.sink.out), prefix) {
        RenderRoundTrip(Root(r.sink.out), prefix);
      }
    } else {
      EscapeHasNoBrackets(w.text);
      StripAfterText(Escape(w.text), "");
      assert Escape(w.text) + "" == Escape(w.text);
      StripNothing();
      UnescapeEscape(w.text);
    }
  }

  /** A run that ends has closed every node but the root. */
  lemma FinishedAtRoot(w: World, modes: seq<Active>, n: nat)
    requires Chain(modes)
    ensures var r := Run(w, Initial(w, modes), n); r.status == Finished ==> |r.sink.out| == 1 && r.sink.buffer == ""
  {
    InitialInv(w, modes);
    RunInv(w, Initial(w, modes), n);
  }

  // ---------------------------------------------------------------- nested runs

  /** Grammars that never reread: no mode rereads a lexeme it has already buffered, and a match
      that only advances the cursor is not empty. */
  ghost predicate Tame(w: World) {
    && (forall m: nat :: var mode := w.grammar(m);
          && !(mode.returnBegin && (mode.skip || mode.excludeBegin))
          && !(mode.returnEnd && (mode.skip || mode.excludeEnd)))
    && forall m: nat, r: nat, i: nat :: r < |Rules(w.grammar(m))| && w.MatchAt(m, r, i) == Some(0) ==>
          match Rules(w.grammar(m))[r]
          case Illegal => !w.ignoreIllegals || i == |w.text|
          case Begin(c) => !w.grammar(c).keywordGuard
          case End => true
  }

  lemma TameNeverRereads(w: World, st: Lexing)
    requires Tame(w)
    ensures !Rereads(w, st)
  {
    var look := Look(w, st);
    if look.Some? {
      var a, m := Aim(st), Top(st);
      var count := |Rules(w.grammar(m))|;
      var i := Scan(w, m, count, a.regexIndex, a.lastIndex, |w.text|).value;
      var r := RuleAt(w, m, count, a.regexIndex, i).value;
      assert w.MatchAt(m, r, i).Some?;
    }
  }

  /** A nested result is what a run on the given text has written when it ended: in the regular way, or
      by an error, which hands over the tree as far as it was built. A run for a named language ignores
      illegal lexemes, and one that met any is never chosen among several languages. */
  ghost predicate Genuine(t: Nested, k: string)
    requires t.Highlighted?
  {
    var r := NestedRun(t);
    && t.world.text == k && Chain(t.modes)
    && (r.status == Finished || r.status == Failed)
    && t.children == Root(CloseAll(r.sink.out)).children
  }

  function NestedRun(t: Nested): Lexing
    requires t.Highlighted?
  {
    Run(t.world, Initial(t.world, t.modes), t.steps)
  }

  ghost predicate NestedClean(t: Nested)
    requires t.Highlighted?
  {
    Clean(t.world, Initial(t.world, t.modes), t.steps)
  }

  lemma ChildrenText(t: Nested, k: string)
    requires t.Highlighted? && Genuine(t, k)
    ensures ForestText(t.children) == FramesText(NestedRun(t).sink.out)
  {
    hide Run, Initial;
  }

  /** How far a run that failed had got: to the match it failed on, or to its cursor if no mode was left. */
  function FailedAt(r: Lexing): nat {
    if r.modes == [] || r.last.None? then r.index else r.last.value.index
  }

  lemma FailedText(w: World, st: Lexing)
    requires Inv(w, st) && st.status == Running && Kept(w, st) && Iterate(w, st).status == Failed
    ensures var r := Iterate(w, st); r.sink.Text() == Upto(w.text, FailedAt(r))
  {
    hide Sink.Text, BeginSink, EndSink, LeaveSink, LeaveModes, Start, Flush, NoneBetween, Opened, EndOfMode, Dotted,
         NextRegexIndex, Look;
    var look := Look(w, st);
    if look.Some? {
      ReachedText(w, st, look.value);
    }
  }

  /** A clean run that fails has the text before the match it failed on, partly in its tree and partly
      in the buffer that is thrown away. */
  lemma {:induction false} FailedRunText(w: World, st: Lexing, n: nat)
    requires Inv(w, st) && st.status == Running && Kept(w, st) && Clean(w, st, n)
    requires Run(w, st, n).status == Failed
    ensures var r := Run(w, st, n); FramesText(r.sink.out) + r.sink.buffer == Upto(w.text, FailedAt(r))
    decreases n
  {
    hide Iterate, Inv, Kept, Corrupts, Upto;
    var next := Iterate(w, st);
    IterateKeepsInv(w, st);
    IterateKeepsText(w, st);
    if next.status == Failed {
      FailedText(w, st);
    } else {
      FailedRunText(w, next, n - 1);
    }
  }

  /** What a nested run gives back: all of its text if it is clean and finishes; if it fails, what it
      had flushed, which with the buffer it throws away is the text before the match it failed on. */
  lemma NestedResult(t: Nested, k: string)
    requires t.Highlighted? && Genuine(t, k) && NestedClean(t)
    ensures var r := NestedRun(t);
            && (r.status == Finished ==> ForestText(t.children) == k)
            && (r.status == Failed ==>
                  && ForestText(t.children) + r.sink.buffer == Upto(k, FailedAt(r))
                  && (ForestText(t.children) == k <==> r.sink.buffer == "" && FailedAt(r) >= |k|))
  {
    hide Run, Initial, Clean, ForestText, FramesText;
    ChildrenText(t, k);
    InitialInv(t.world, t.modes);
    if NestedRun(t).status == Finished {
      HighlightKeepsText(t.world, t.modes, t.steps, "");
      FinishedAtRoot(t.world, t.modes, t.steps);
      RootText(NestedRun(t).sink.out);
    } else {
      StartsRunning(t.world, t.modes);
      FailedRunText(t.world, Initial(t.world, t.modes), t.steps);
      SamePrefix(ForestText(t.children), NestedRun(t).sink.buffer, "");
      assert ForestText(t.children) + "" == ForestText(t.children);
    }
  }

  lemma StartsRunning(w: World, modes: seq<Active>)
    ensures Initial(w, modes).status == Running
  {
  }

  lemma RootText(fs: Frames)
    requires |fs| == 1
    ensures TreeText(Root(fs)) == FramesText(fs)
  {
  }

  /** The nested run that an iteration uses, if any, is clean and finishes. */
  ghost predicate NestedSucceeds(w: World, st: Lexing) {
    var given := Given(w, st);
    given.Some? && given.value != "" && w.grammar(Top(st)).content.SubLanguage? ==>
      match w.oracle.nested(Top(st), given.value, st.steps + 1)
      case Some(Highlighted(language, children, world, modes, steps)) =>
        var t := Highlighted(language, children, world, modes, steps);
        Genuine(t, given.value) && NestedClean(t) && NestedRun(t).status == Finished
      case _ => true
  }

  ghost predicate NestedSucceed(w: World, st: Lexing, n: nat)
    decreases n
  {
    n == 0 || st.status != Running || (NestedSucceeds(w, st) && NestedSucceed(w, Iterate(w, st), n - 1))
  }

  lemma SucceedingLosesNothing(w: World, st: Lexing)
    requires NestedSucceeds(w, st)
    ensures !LosesNested(w, st)
  {
    hide Genuine, NestedClean, NestedRun, Given, ForestText;
    var given := Given(w, st);
    if given.Some? && given.value != "" && w.grammar(Top(st)).content.SubLanguage? {
      var nested := w.oracle.nested(Top(st), given.value, st.steps + 1);
      if nested.Some? && nested.value.Highlighted? {
        NestedResult(nested.value, given.value);
      }
    }
  }

  /** A grammar that never rereads keeps the text, provided every nested run it uses is clean and
      finishes. */
  lemma {:induction false} TameIsClean(w: World, st: Lexing, n: nat)
    requires Tame(w) && NestedSucceed(w, st, n)
    ensures Clean(w, st, n)
    decreases n
  {
    hide Iterate, Corrupts, Rereads, LosesNested, Tame, NestedSucceeds;
    if n != 0 && st.status == Running {
      TameNeverRereads(w, st);
      SucceedingLosesNothing(w, st);
      CorruptsWithoutNested(w, st);
      TameIsClean(w, Iterate(w, st), n - 1);
    }
  }

  /** Grammars that never reread, with nested runs that finish and are of this kind again, to a depth. */
  ghost predicate TameThroughout(w: World, depth: nat)
    decreases depth
  {
    Tame(w) &&
    forall m: nat, k: string, step: nat ::
      match w.oracle.nested(m, k, step)
      case Some(Highlighted(language, children, world, modes, steps)) =>
        var t := Highlighted(language, children, world, modes, steps);
        depth > 0 && Genuine(t, k) && NestedRun(t).status == Finished && TameThroughout(world, depth - 1)
      case _ => true
  }

  /** To any depth of nesting, such grammars keep the text of every run. */
  lemma {:induction false} TameThroughoutIsClean(w: World, depth: nat, st: Lexing, n: nat)
    requires TameThroughout(w, depth)
    ensures Clean(w, st, n)
    decreases depth, n
  {
    hide Iterate, Corrupts, Rereads, LosesNested, Tame, Genuine, NestedRun, Given;
    if n != 0 && st.status == Running {
      TameNeverRereads(w, st);
      var given := Given(w, st);
      if given.Some? && given.value != "" && w.grammar(Top(st)).content.SubLanguage? {
        var nested := w.oracle.nested(Top(st), given.value, st.steps + 1);
        if nested.Some? && nested.value.Highlighted? {
          var t := nested.value;
          TameThroughoutIsClean(t.world, depth - 1, Initial(t.world, t.modes), t.steps);
        }
      }
      SucceedingLosesNothing(w, st);
      CorruptsWithoutNested(w, st);
      TameThroughoutIsClean(w, depth, Iterate(w, st), n - 1);
    }
  }

  /** A language whose only match is an end it has no parent to look for: it fails at once. */
  function FailingWorld(): World {
    var end := Mode("", Plain, [], true, false, None, false, false, false, false, false, false, true, false);
    World((m: nat) => end,
          Oracle((m: nat, r: nat, i: nat) => Some(1), (step: nat, m: nat, i: nat) => false, (step: nat) => 0,
                 (m: nat, k: string, n: nat) => None, (m: nat, k: string, n: nat) => None),
          "a", true)
  }

  /** A language that is all sublanguage, with that failing one inside. */
  function OuterWorld(): World {
    var outer := Mode("", SubLanguage, [], false, false, None, false, false, false, false, false, false, false, false);
    World((m: nat) => outer,
          Oracle((m: nat, r: nat, i: nat) => None, (step: nat, m: nat, i: nat) => false, (step: nat) => 0,
                 (m: nat, k: string, n: nat) => None,
                 (m: nat, k: string, n: nat) => Some(Highlighted("x", [], FailingWorld(), [Active(0, false)], 1))),
          "a", false)
  }

  /** The nested run fails with an empty tree, and the outer run finishes without the letter. */
  lemma FailedNestedRunLosesText()
    ensures var w, st := OuterWorld(), Initial(OuterWorld(), [Active(0, false)]);
            var t := w.oracle.nested(0, "a", 1).value;
            && Genuine(t, "a") && NestedClean(t) && NestedRun(t).status == Failed
            && Tame(w) && !Rereads(w, st) && LosesNested(w, st) && Corrupts(w, st)
            && Iterate(w, st).status == Finished && Iterate(w, st).sink.Text() == ""
  {
    FailingRun();
    var w := OuterWorld();
    var modes := [Active(0, false)];
    var st := Initial(w, modes);
    var t := w.oracle.nested(0, "a", 1).value;
    assert NestedRun(t).sink.out == EMPTY_FRAMES;
    assert Rules(w.grammar(0)) == [];
    assert Look(w, st) == None;
    assert Given(w, st) == Some("" + "a") && "" + "a" == "a";
    assert FlushText(w, 0, "a", 1) == "";
    assert [Active(0, false)][..0] == [];
    InitialInv(w, modes);
    FinishText(w, Aim(st));
  }

  lemma FailingRun()
    ensures var v, modes := FailingWorld(), [Active(0, false)];
            var r := Run(v, Initial(v, modes), 1);
            Chain(modes) && Clean(v, Initial(v, modes), 1) && r.status == Failed && r.sink.out == EMPTY_FRAMES
  {
    var v, modes := FailingWorld(), [Active(0, false)];
    var st := Initial(v, modes);
    assert Rules(v.grammar(0)) == [End];
    assert v.MatchAt(0, 0, 0) == Some(1);
    assert RuleAt(v, 0, 1, 0, 0) == Some(0);
    assert Scan(v, 0, 1, 0, 0, 1) == Some(0);
    assert Look(v, st) == Some(Match(0, 1, End));
    assert EndOfMode(v, modes, 0, 1, 0) == Broken;
    assert Iterate(v, st).status == Failed;
    assert Run(v, Iterate(v, st), 0) == Iterate(v, st);
  }
}
