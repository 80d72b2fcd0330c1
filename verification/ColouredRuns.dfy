/** Which classes a run of the highlighter puts around each character, over every run of every grammar:
    stated by the modes that are active and the flags of the grammar, not by how nodes are opened. */
module ColouredRuns {
  import opened Html
  import opened Optional
  import opened TokenTree
  import opened Lexer
  import opened Colours

  // ---------------------------------------------------------------- the open nodes

  /** The class names of the active modes that have opened a node, outermost first. */
  function ClassNames(w: World, modes: seq<Active>): seq<string> {
    if modes == [] then []
    else
      var n := |modes| - 1;
      var name := w.grammar(modes[n].mode).className;
      ClassNames(w, modes[..n]) + if modes[n].hasNode && name != "" then [name] else []
  }

  /** The same as they stand in the HTML. */
  function ModeClasses(w: World, modes: seq<Active>, prefix: string): seq<string> {
    var names := ClassNames(w, modes);
    seq(|names|, i requires 0 <= i < |names| => prefix + names[i])
  }

  /** The open nodes are the root and those of the active modes; once finished, the root. */
  ghost predicate Opens(w: World, st: Lexing) {
    Kinds(st.sink.out) == [""] + if st.status == Finished then [] else ClassNames(w, st.modes)
  }

  lemma ClassNamesSnoc(w: World, modes: seq<Active>, a: Active)
    ensures ClassNames(w, modes + [a])
            == (var name := w.grammar(a.mode).className;
                ClassNames(w, modes) + if a.hasNode && name != "" then [name] else [])
  {
    assert (modes + [a])[..|modes|] == modes;
  }

  lemma {:induction false} NamesNotEmpty(w: World, modes: seq<Active>)
    ensures forall i :: 0 <= i < |ClassNames(w, modes)| ==> ClassNames(w, modes)[i] != ""
  {
    if modes != [] {
      NamesNotEmpty(w, modes[..|modes| - 1]);
    }
  }

  lemma {:induction false} NamesWritten(names: seq<string>, prefix: string)
    requires forall i :: 0 <= i < |names| ==> names[i] != ""
    ensures AllWritten([""] + names, prefix) == seq(|names|, i requires 0 <= i < |names| => prefix + names[i])
  {
    if names == [] {
      assert [""] + names == [""] && [""][..0] == [];
    } else {
      var n := |names| - 1;
      assert ([""] + names)[..n + 1] == [""] + names[..n];
      NamesWritten(names[..n], prefix);
    }
  }

  /** What is written within the open nodes stands within the classes of the active modes. */
  lemma OpenClasses(w: World, st: Lexing, prefix: string)
    requires Opens(w, st) && st.status != Finished
    ensures AllWritten(Kinds(st.sink.out), prefix) == ModeClasses(w, st.modes, prefix)
  {
    hide AllWritten, Kinds, ClassNames;
    NamesNotEmpty(w, st.modes);
    NamesWritten(ClassNames(w, st.modes), prefix);
  }

  // ---------------------------------------------------------------- flushing

  /** The class of the word a position of the buffer lies in, among the words from position n on. */
  function KeywordAt(w: World, m: nat, k: string, n: nat, i: nat): Option<string>
    requires n <= |k|
    decreases |k| - n
  {
    match w.NextWord(m, k, n)
    case None => None
    case Some(x) =>
      if i < x.start then None
      else if i < x.end then x.kind
      else KeywordAt(w, m, k, x.end, i)
  }

  function KeywordClass(kind: Option<string>, prefix: string): seq<string> {
    if kind == None || kind == Some("") then [] else [prefix + kind.value]
  }

  /** The cells of the buffer from position n on. */
  function KeywordCells(w: World, m: nat, k: string, n: nat, around: seq<string>, prefix: string): seq<Cell>
    requires n <= |k|
  {
    seq(|k| - n, i requires 0 <= i < |k| - n =>
      Cell(k[n + i], around + KeywordClass(KeywordAt(w, m, k, n, n + i), prefix)))
  }

  /** What a buffer handed over by a mode looks like: plain, with the keywords in spans of their own, or as
      the nested highlighter has it within a span of its language. */
  function FlushCells(w: World, m: nat, k: string, step: nat, around: seq<string>, prefix: string): seq<Cell> {
    match w.grammar(m).content
    case Plain => Spread(k, around)
    case Keywords => KeywordCells(w, m, k, 0, around, prefix)
    case SubLanguage =>
      if k == "" then []
      else match w.oracle.nested(m, k, step)
        case Some(Highlighted(language, children, _, _, _)) =>
          PaintForest(children, around + (if language == "" then [] else [language]), prefix)
        case _ => Spread(k, around)
  }

  lemma PaintTextTree(k: string, around: seq<string>, prefix: string)
    ensures PaintForest(TextTree(k), around, prefix) == Spread(k, around)
  {
    if k != "" {
      PaintOne(Leaf(k), around, prefix);
    }
  }

  lemma WordCells(w: World, m: nat, k: string, n: nat, around: seq<string>, prefix: string)
    requires n <= |k|
    ensures var x := w.NextWord(m, k, n);
            KeywordCells(w, m, k, n, around, prefix) ==
              if x.None? then Spread(k[n..], around)
              else Spread(k[n..x.value.start], around)
                   + Spread(k[x.value.start..x.value.end], around + KeywordClass(x.value.kind, prefix))
                   + KeywordCells(w, m, k, x.value.end, around, prefix)
  {
    var x, all := w.NextWord(m, k, n), KeywordCells(w, m, k, n, around, prefix);
    assert around + KeywordClass(None, prefix) == around;
    if x.None? {
      forall i | 0 <= i < |k| - n ensures all[i] == Cell(k[n..][i], around) {
        assert KeywordAt(w, m, k, n, n + i) == None;
      }
      assert all == Spread(k[n..], around);
    } else {
      var a, b := x.value.start, x.value.end;
      var inside := around + KeywordClass(x.value.kind, prefix);
      forall i | 0 <= i < |k| - n
        ensures all[i] == if i < a - n then Cell(k[n..a][i], around)
                          else if i < b - n then Cell(k[a..b][i - (a - n)], inside)
                          else KeywordCells(w, m, k, b, around, prefix)[i - (b - n)]
      {
        KeywordSteps(w, m, k, n, n + i);
      }
      assert all[..a - n] == Spread(k[n..a], around);
      assert all[a - n..b - n] == Spread(k[a..b], inside);
      assert all[b - n..] == KeywordCells(w, m, k, b, around, prefix);
      assert all == all[..a - n] + all[a - n..b - n] + all[b - n..];
    }
  }

  lemma KeywordSteps(w: World, m: nat, k: string, n: nat, i: nat)
    requires n <= |k| && w.NextWord(m, k, n).Some?
    ensures var x := w.NextWord(m, k, n).value;
            KeywordAt(w, m, k, n, i)
            == if i < x.start then None else if i < x.end then x.kind else KeywordAt(w, m, k, x.end, i)
  {
  }

  lemma {:induction false} KeywordTreesCells(w: World, m: nat, k: string, n: nat, r: string, around: seq<string>,
                                             prefix: string)
    requires n <= |k|
    ensures PaintForest(KeywordTrees(w, m, k, n, r), around, prefix)
            == Spread(r, around) + KeywordCells(w, m, k, n, around, prefix)
    decreases |k| - n
  {
    hide KeywordTrees, KeywordCells, Spread, TextTree, KeywordClass, PaintForest;
    WordCells(w, m, k, n, around, prefix);
    KeywordTreesStep(w, m, k, n, r);
    match w.NextWord(m, k, n)
    case None =>
      PaintTextTree(r + k[n..], around, prefix);
      SpreadAppend(r, k[n..], around);
    case Some(x) =>
      var skipped, word := r + k[n..x.start], k[x.start..x.end];
      SpreadAppend(r, k[n..x.start], around);
      Regroup(Spread(r, around), Spread(k[n..x.start], around), Spread(word, around + KeywordClass(x.kind, prefix)),
              KeywordCells(w, m, k, x.end, around, prefix));
      if x.kind.Some? {
        KeywordTreesCells(w, m, k, x.end, "", around, prefix);
        SpreadNothing(around);
        KeywordBetween(skipped, x.kind.value, word, KeywordTrees(w, m, k, x.end, ""), around, prefix);
        assert [] + KeywordCells(w, m, k, x.end, around, prefix) == KeywordCells(w, m, k, x.end, around, prefix);
      } else {
        KeywordTreesCells(w, m, k, x.end, skipped + word, around, prefix);
        SpreadAppend(skipped, word, around);
        NoKeyword(around, prefix);
      }
  }

  lemma Regroup(a: seq<Cell>, b: seq<Cell>, c: seq<Cell>, d: seq<Cell>)
    ensures a + (b + c + d) == a + b + c + d
  {
  }

  lemma KeywordBetween(skipped: string, kind: string, word: string, rest: seq<Tree>, around: seq<string>,
                       prefix: string)
    ensures PaintForest(TextTree(skipped) + [Branch(kind, false, [Leaf(word)])] + rest, around, prefix)
            == Spread(skipped, around) + Spread(word, around + KeywordClass(Some(kind), prefix))
               + PaintForest(rest, around, prefix)
  {
    hide Spread, TextTree, KeywordClass, PaintForest;
    var keyword := [Branch(kind, false, [Leaf(word)])];
    PaintTextTree(skipped, around, prefix);
    KeywordNode(kind, word, around, prefix);
    PaintForestAppend(TextTree(skipped), keyword, around, prefix);
    PaintForestAppend(TextTree(skipped) + keyword, rest, around, prefix);
  }

  lemma NoKeyword(around: seq<string>, prefix: string)
    ensures around + KeywordClass(None, prefix) == around
  {
  }

  lemma KeywordTreesStep(w: World, m: nat, k: string, n: nat, r: string)
    requires n <= |k|
    ensures KeywordTrees(w, m, k, n, r) ==
            match w.NextWord(m, k, n)
            case None => TextTree(r + k[n..])
            case Some(x) =>
              var skipped, word := r + k[n..x.start], k[x.start..x.end];
              if x.kind.Some? then
                TextTree(skipped) + [Branch(x.kind.value, false, [Leaf(word)])] + KeywordTrees(w, m, k, x.end, "")
              else KeywordTrees(w, m, k, x.end, skipped + word)
  {
    hide TextTree;
  }

  lemma SpreadNothing(around: seq<string>)
    ensures Spread("", around) == []
  {
  }

  lemma KeywordNode(kind: string, word: string, around: seq<string>, prefix: string)
    ensures PaintForest([Branch(kind, false, [Leaf(word)])], around, prefix)
            == Spread(word, around + KeywordClass(Some(kind), prefix))
  {
    hide Spread;
    PaintOne(Branch(kind, false, [Leaf(word)]), around, prefix);
    PaintOne(Leaf(word), around + KeywordClass(Some(kind), prefix), prefix);
  }

  lemma FlushedCells(w: World, m: nat, k: string, step: nat, around: seq<string>, prefix: string)
    ensures PaintForest(Flushed(w, m, k, step), around, prefix) == FlushCells(w, m, k, step, around, prefix)
  {
    hide KeywordTrees, KeywordCells, Spread;
    PaintTextTree(k, around, prefix);
    KeywordTreesCells(w, m, k, 0, "", around, prefix);
    SpreadNothing(around);
    assert [] + KeywordCells(w, m, k, 0, around, prefix) == KeywordCells(w, m, k, 0, around, prefix);
    match w.grammar(m).content
    case Plain =>
    case Keywords =>
    case SubLanguage =>
      if k != "" && w.oracle.nested(m, k, step).Some? {
        match w.oracle.nested(m, k, step).value
        case Undetected =>
          PaintOne(Branch("", true, [Leaf(k)]), around, prefix);
          PaintOne(Leaf(k), around, prefix);
          assert around + [] == around;
        case Highlighted(language, children, _, _, _) =>
          PaintOne(Branch(language, true, children), around, prefix);
      }
  }

  /** Flushing paints the buffer within the open nodes, and opens and closes none. */
  lemma FlushPaints(w: World, m: nat, k: Sink, step: nat, prefix: string)
    ensures Kinds(Flush(w, m, k, step).out) == Kinds(k.out)
    ensures PaintFrames(Flush(w, m, k, step).out, prefix)
            == PaintFrames(k.out, prefix) + FlushCells(w, m, k.buffer, step, AllWritten(Kinds(k.out), prefix), prefix)
  {
    hide Flushed, FlushCells, PaintFrames, PaintForest, Kinds, AllWritten, Sink.Text, FramesText, FlushText;
    PaintAddAll(k.out, Flushed(w, m, k.buffer, step), prefix);
    FlushedCells(w, m, k.buffer, step, AllWritten(Kinds(k.out), prefix), prefix);
  }

  // ---------------------------------------------------------------- one iteration

  /** What an iteration adds to the tree: the buffer it hands over, within the classes of the modes that are
      active when it hands it over. */
  function Handed(w: World, st: Lexing, prefix: string): seq<Cell> {
    var given := Given(w, st);
    if given.None? then []
    else FlushCells(w, Top(st), given.value, st.steps + 1, ModeClasses(w, st.modes, prefix), prefix)
  }

  lemma AppendKeepsOut(k: Sink, s: string)
    ensures k.Append(s).out == k.out && k.Append(s).buffer == k.buffer + s
  {
  }

  lemma BeginPaints(w: World, st: Lexing, y: Match, c: nat, prefix: string)
    requires st.modes != [] && y.index + y.length <= |w.text|
    requires Opens(w, st) && st.status == Running
    ensures var rule, lexeme, r := w.grammar(c), Lexeme(w, y), BeginMatch(w, st, y, c);
            && Opens(w, r)
            && PaintFrames(r.sink.out, prefix) == PaintFrames(st.sink.out, prefix) +
                 if (rule.keywordGuard && Dotted(w.text, y)) || rule.skip then []
                 else FlushCells(w, Top(st), if rule.excludeBegin then st.sink.buffer + lexeme else st.sink.buffer,
                                 st.steps, ModeClasses(w, st.modes, prefix), prefix)
  {
    hide Flush, FlushCells, Dotted, Sink.Text, FramesText, FlushText, PaintFrames, Kinds, AllWritten, OpenNode,
         ClassNames, ModeClasses;
    var rule, lexeme := w.grammar(c), Lexeme(w, y);
    OpenClasses(w, st, prefix);
    FlushPaints(w, Top(st), if rule.excludeBegin then st.sink.Append(lexeme) else st.sink, st.steps, prefix);
    ClassNamesSnoc(w, st.modes, Active(c, true));
    var k := BeginSink(w, Top(st), rule, st.sink, lexeme, st.steps);
    if rule.className != "" {
      PaintOpenNode(k.out, rule.className, prefix);
    }
    assert PaintFrames(st.sink.out, prefix) + [] == PaintFrames(st.sink.out, prefix);
    assert ClassNames(w, st.modes) + [] == ClassNames(w, st.modes);
  }

  /** Leaving modes closes exactly their nodes and paints nothing. */
  lemma {:induction false} LeavePaints(w: World, modes: seq<Active>, out: Frames, d: nat, prefix: string)
    requires d <= |modes|
    requires forall i :: 0 < i < |modes| ==> modes[i].hasNode
    requires Kinds(out) == [""] + ClassNames(w, modes)
    ensures Kinds(Leave(w, modes, out, d)) == [""] + ClassNames(w, modes[..d])
    ensures PaintFrames(Leave(w, modes, out, d), prefix) == PaintFrames(out, prefix)
    decreases |modes|
  {
    hide PaintFrames, Kinds, CloseNode, FramesText;
    if |modes| == d {
      assert modes[..d] == modes;
    } else {
      var n := |modes| - 1;
      var next: Frames := if w.grammar(modes[n].mode).className == "" then out else CloseNode(out);
      assert modes[..n][..d] == modes[..d];
      KindsLength(out);
      PaintCloseNode(out, prefix);
      if n == 0 {
        assert modes[..n] == [];
        assert ClassNames(w, modes[..n]) == [];
        assert w.grammar(modes[n].mode).className != "" && modes[n].hasNode ==> Kinds(out)[..1] == [""];
      }
      assert Kinds(next) == [""] + ClassNames(w, modes[..n]);
      LeavePaints(w, modes[..n], next, d, prefix);
    }
  }

  lemma EndPaints(w: World, st: Lexing, y: Match, d: nat, prefix: string)
    requires d < |st.modes| && y.index + y.length <= |w.text|
    requires forall i :: 0 < i < |st.modes| ==> st.modes[i].hasNode
    requires Opens(w, st) && st.status == Running
    ensures var mode, lexeme, r := w.grammar(Top(st)), Lexeme(w, y), EndMatch(w, st, y, d);
            && Opens(w, r)
            && PaintFrames(r.sink.out, prefix) == PaintFrames(st.sink.out, prefix) +
                 if mode.skip then []
                 else FlushCells(w, Top(st),
                                 if mode.returnEnd || mode.excludeEnd then st.sink.buffer else st.sink.buffer + lexeme,
                                 st.steps, ModeClasses(w, st.modes, prefix), prefix)
  {
    hide Flush, FlushCells, Sink.Text, FramesText, FlushText, PaintFrames, Kinds, AllWritten, OpenNode, Leave,
         ClassNames, ModeClasses;
    var mode, lexeme := w.grammar(Top(st)), Lexeme(w, y);
    OpenClasses(w, st, prefix);
    var given := if mode.returnEnd || mode.excludeEnd then st.sink else st.sink.Append(lexeme);
    FlushPaints(w, Top(st), given, st.steps, prefix);
    assert PaintFrames(st.sink.out, prefix) + [] == PaintFrames(st.sink.out, prefix);
    var k := EndSink(w, Top(st), st.sink, lexeme, st.steps);
    LeavePaints(w, st.modes, k.out, d, prefix);
    LeaveSinkPaints(w, st.modes, k, d, prefix);
  }

  lemma LeaveSinkPaints(w: World, modes: seq<Active>, k: Sink, d: nat, prefix: string)
    requires d < |modes|
    requires Kinds(Leave(w, modes, k.out, d)) == [""] + ClassNames(w, modes[..d])
    ensures Kinds(LeaveSink(w, modes, k, d).out) == [""] + ClassNames(w, LeaveModes(w, modes, d))
    ensures PaintFrames(LeaveSink(w, modes, k, d).out, prefix) == PaintFrames(Leave(w, modes, k.out, d), prefix)
  {
    hide Sink.Text, FramesText, PaintFrames, Kinds, OpenNode, Leave, ClassNames;
    var starts := w.grammar(modes[d].mode).starts;
    if starts.Some? {
      ClassNamesSnoc(w, modes[..d], Active(starts.value, true));
      PaintOpenNode(Leave(w, modes, k.out, d), w.grammar(starts.value).className, prefix);
      assert ClassNames(w, modes[..d]) + [] == ClassNames(w, modes[..d]);
    } else {
      assert modes[..d] + [] == modes[..d];
    }
  }

  lemma FinishPaints(w: World, st: Lexing, prefix: string)
    requires st.modes != [] && Opens(w, st) && st.status == Running
    ensures var r := Finish(w, st);
            && Opens(w, r)
            && PaintFrames(r.sink.out, prefix) == PaintFrames(st.sink.out, prefix) +
                 FlushCells(w, Top(st), st.sink.buffer + From(w.text, st.index), st.steps,
                            ModeClasses(w, st.modes, prefix), prefix)
  {
    hide Flush, FlushCells, Sink.Text, FramesText, FlushText, PaintFrames, Kinds, AllWritten, CloseAll, ClassNames,
         ModeClasses;
    OpenClasses(w, st, prefix);
    var given := st.sink.Append(From(w.text, st.index));
    FlushPaints(w, Top(st), given, st.steps, prefix);
    var k := Flush(w, Top(st), given, st.steps);
    PaintCloseAll(k.out, prefix);
    assert ([""] + ClassNames(w, st.modes))[..1] == [""];
  }

  /** Every iteration: the open nodes stay those of the active modes, and the buffer it hands over, if it does,
      is painted within the classes of the modes that are active before it. */
  lemma IteratePaints(w: World, st: Lexing, prefix: string)
    requires Inv(w, st) && st.status == Running && Opens(w, st)
    ensures Opens(w, Iterate(w, st))
    ensures PaintFrames(Iterate(w, st).sink.out, prefix) == PaintFrames(st.sink.out, prefix) + Handed(w, st, prefix)
  {
    hide Sink.Text, BeginMatch, EndMatch, Lexer.Finish, EndOfMode, Dotted, NextRegexIndex, Look, NoneBetween,
         FlushCells, PaintFrames, Kinds, ModeClasses, ClassNames, Substring, From;
    var look := Look(w, st);
    assert PaintFrames(st.sink.out, prefix) + [] == PaintFrames(st.sink.out, prefix);
    if look.Some? {
      var y := look.value;
      var l := Reached(w, st, y);
      if !ZeroWidthPair(st.last, y) {
        match y.kind
        case Begin(c) => BeginPaints(w, l, y, c, prefix);
        case Illegal =>
        case End =>
          var e := EndOfMode(w, l.modes, |l.modes| - 1, l.steps, y.index);
          if e.Ends? {
            EndPaints(w, l, y, e.depth, prefix);
          }
      }
    } else if st.modes != [] {
      FinishPaints(w, Aim(st), prefix);
    }
  }

  // ---------------------------------------------------------------- whole runs

  function AllHanded(w: World, st: Lexing, n: nat, prefix: string): seq<Cell>
    decreases n
  {
    if n == 0 || st.status != Running then []
    else Handed(w, st, prefix) + AllHanded(w, Iterate(w, st), n - 1, prefix)
  }

  lemma {:induction false} RunPaints(w: World, st: Lexing, n: nat, prefix: string)
    requires Inv(w, st) && Opens(w, st)
    ensures Opens(w, Run(w, st, n))
    ensures PaintFrames(Run(w, st, n).sink.out, prefix)
            == PaintFrames(st.sink.out, prefix) + AllHanded(w, st, n, prefix)
    decreases n
  {
    hide Iterate, Inv, Opens, Handed, PaintFrames;
    assert PaintFrames(st.sink.out, prefix) + [] == PaintFrames(st.sink.out, prefix);
    if n != 0 && st.status == Running {
      IteratePaints(w, st, prefix);
      IterateKeepsInv(w, st);
      RunPaints(w, Iterate(w, st), n - 1, prefix);
    }
  }

  lemma {:induction false} ReopenedPaints(w: World, modes: seq<Active>, prefix: string)
    requires Chain(modes)
    ensures Kinds(Reopened(w, modes)) == [""] + ClassNames(w, modes)
    ensures PaintFrames(Reopened(w, modes), prefix) == []
  {
    hide Kinds, PaintFrames, ClassNames, Reopened, Chain;
    ChainFront(modes);
    if modes == [Active(0, false)] {
      NothingReopened(w, modes, prefix);
    } else {
      ReopenedPaints(w, modes[..|modes| - 1], prefix);
      ReopenPaints(w, modes[..|modes| - 1], modes[|modes| - 1], prefix);
    }
  }

  lemma ChainFront(modes: seq<Active>)
    requires Chain(modes)
    ensures modes != [] && modes == modes[..|modes| - 1] + [modes[|modes| - 1]]
    ensures modes != [Active(0, false)] ==>
              Chain(modes[..|modes| - 1]) && modes[..|modes| - 1] != [] && modes[|modes| - 1].hasNode
  {
    if |modes| == 1 {
      assert modes == [modes[0]];
    }
  }

  lemma ReopenPaints(w: World, modes: seq<Active>, a: Active, prefix: string)
    requires modes != [] && a.hasNode
    requires Kinds(Reopened(w, modes)) == [""] + ClassNames(w, modes)
    ensures Kinds(Reopened(w, modes + [a])) == [""] + ClassNames(w, modes + [a])
    ensures PaintFrames(Reopened(w, modes + [a]), prefix) == PaintFrames(Reopened(w, modes), prefix)
  {
    hide OpenNode, Kinds, PaintFrames, FramesText, ClassNames, Reopened;
    ReopenedSnoc(w, modes, a);
    ClassNamesSnoc(w, modes, a);
    PaintOpenNode(Reopened(w, modes), w.grammar(a.mode).className, prefix);
    assert ClassNames(w, modes) + [] == ClassNames(w, modes);
  }

  lemma ReopenedSnoc(w: World, modes: seq<Active>, a: Active)
    requires modes != []
    ensures var name := w.grammar(a.mode).className;
            Reopened(w, modes + [a]) == if name == "" then Reopened(w, modes) else OpenNode(Reopened(w, modes), name)
  {
    hide OpenNode, FramesText;
    assert (modes + [a])[..|modes|] == modes;
  }

  lemma NothingReopened(w: World, modes: seq<Active>, prefix: string)
    requires modes == [Active(0, false)]
    ensures Kinds(Reopened(w, modes)) == [""] + ClassNames(w, modes)
    ensures PaintFrames(Reopened(w, modes), prefix) == []
  {
    assert modes[..0] == [];
    assert EMPTY_FRAMES[..0] == [];
    assert Kinds(EMPTY_FRAMES) == [""] == [""] + ClassNames(w, modes);
  }

  lemma InitialPaints(w: World, modes: seq<Active>, prefix: string)
    requires Chain(modes)
    ensures Inv(w, Initial(w, modes)) && Opens(w, Initial(w, modes)) && Kept(w, Initial(w, modes))
    ensures PaintFrames(Initial(w, modes).sink.out, prefix) == []
  {
    hide Inv, Kept;
    InitialInv(w, modes);
    ReopenedPaints(w, modes, prefix);
  }

  /** Over every run: the open nodes are those of the active modes; and the finished tree, and so the HTML as a
      browser reads it, is what the iterations handed over, each piece within the classes of the modes that were
      active then. A run that ends early shows the plain text. */
  lemma HighlightPaints(w: World, modes: seq<Active>, n: nat, prefix: string)
    requires Chain(modes)
    ensures var r := Run(w, Initial(w, modes), n);
            && Opens(w, r)
            && PaintFrames(r.sink.out, prefix) == AllHanded(w, Initial(w, modes), n, prefix)
            && (r.status == Finished ==>
                  && |r.sink.out| == 1
                  && PaintTree(Root(r.sink.out), [], prefix) == AllHanded(w, Initial(w, modes), n, prefix)
                  && (ClassesClosed(Root(r.sink.out), prefix) ==>
                        Browse(Value(w, r, prefix), []) == AllHanded(w, Initial(w, modes), n, prefix)))
            && (r.status != Finished ==> Browse(Value(w, r, prefix), []) == Spread(w.text, []))
  {
    hide Run, Inv, Initial, AllHanded, PaintFrames, PaintTree, Kinds, Browse, ClassesClosed, Render;
    InitialPaints(w, modes, prefix);
    RunPaints(w, Initial(w, modes), n, prefix);
    var r := Run(w, Initial(w, modes), n);
    assert [] + AllHanded(w, Initial(w, modes), n, prefix) == AllHanded(w, Initial(w, modes), n, prefix);
    if r.status == Finished {
      assert [""] + [] == [""];
      PaintRoot(r.sink.out, prefix);
      if ClassesClosed(Root(r.sink.out), prefix) {
        RenderShows(Root(r.sink.out), prefix);
      }
    } else {
      PlainShows(w.text);
    }
  }

  lemma PlainShows(text: string)
    ensures Browse(Escape(text), []) == Spread(text, [])
  {
    hide Browse, Escape;
    BrowseText(text, "", []);
    BrowseNothing([]);
    assert Escape(text) + "" == Escape(text) && Spread(text, []) + [] == Spread(text, []);
  }

  // ---------------------------------------------------------------- nested runs

  /** The same characters within some more classes on the outside. */
  function Within(around: seq<string>, cells: seq<Cell>): seq<Cell> {
    seq(|cells|, i requires 0 <= i < |cells| => Cell(cells[i].c, around + cells[i].classes))
  }

  lemma WithinAppend(around: seq<string>, a: seq<Cell>, b: seq<Cell>)
    ensures Within(around, a + b) == Within(around, a) + Within(around, b)
  {
  }

  lemma {:induction false} TreeWithinMore(t: Tree, around: seq<string>, inner: seq<string>, prefix: string)
    ensures PaintTree(t, around + inner, prefix) == Within(around, PaintTree(t, inner, prefix))
    decreases t
  {
    match t
    case Leaf(s) =>
    case Branch(kind, sub, children) =>
      var cls := Written(kind, sub, prefix);
      assert around + inner + cls == around + (inner + cls);
      ForestWithinMore(children, around, inner + cls, prefix);
  }

  lemma {:induction false} ForestWithinMore(ts: seq<Tree>, around: seq<string>, inner: seq<string>, prefix: string)
    ensures PaintForest(ts, around + inner, prefix) == Within(around, PaintForest(ts, inner, prefix))
    decreases ts
  {
    hide PaintTree;
    if ts != [] {
      var n := |ts| - 1;
      ForestWithinMore(ts[..n], around, inner, prefix);
      TreeWithinMore(ts[n], around, inner, prefix);
      WithinAppend(around, PaintForest(ts[..n], inner, prefix), PaintTree(ts[n], inner, prefix));
    }
  }

  /** The result of a nested run looks, within the classes around it, as its own iterations have painted it,
      whether it finished or failed. */
  lemma NestedPaints(t: Nested, k: string, around: seq<string>, prefix: string)
    requires t.Highlighted? && Genuine(t, k)
    ensures PaintForest(t.children, around, prefix)
            == Within(around, AllHanded(t.world, Initial(t.world, t.modes), t.steps, prefix))
  {
    hide Run, Inv, Initial, AllHanded, PaintFrames, PaintForest, Kinds, Within, FramesText;
    var fs := NestedRun(t).sink.out;
    HighlightPaints(t.world, t.modes, t.steps, prefix);
    PaintCloseAll(fs, prefix);
    var names := if NestedRun(t).status == Finished then [] else ClassNames(t.world, NestedRun(t).modes);
    assert ([""] + names)[..1] == [""];
    PaintRoot(CloseAll(fs), prefix);
    assert [] + Written("", false, prefix) == [] && around + [] == around;
    RootKind(CloseAll(fs));
    ForestWithinMore(t.children, around, [], prefix);
  }

  lemma RootKind(fs: Frames)
    requires Kinds(fs) == [""]
    ensures |fs| == 1 && Root(fs) == Branch("", false, Root(fs).children)
  {
    KindsLength(fs);
    assert Kinds(fs)[0] == fs[0].kind;
  }

  // ---------------------------------------------------------------- each character and its modes

  /** No mode hands its lexeme on to the mode around it. */
  ghost predicate NoSkips(w: World) {
    forall m: nat :: !w.grammar(m).skip
  }

  /** A keyword rule passes over a match next to a dot. */
  predicate PassedOver(w: World, y: Match)
    requires y.index + y.length <= |w.text|
  {
    y.kind.Begin? && w.grammar(y.kind.mode).keywordGuard
    && ((y.index > 0 && w.text[y.index - 1] == '.')
        || (y.index + y.length < |w.text| && w.text[y.index + y.length] == '.'))
  }

  /** The lexeme goes to the modes that are active after the iteration: a begin lexeme unless it is excluded,
      an end lexeme if it is. */
  predicate LexemeAfter(w: World, st: Lexing) {
    var look := Look(w, st);
    look.Some? && !ZeroWidthPair(st.last, look.value) &&
    match look.value.kind
    case Begin(c) => !PassedOver(w, look.value) && !w.grammar(c).excludeBegin
    case End =>
      EndOfMode(w, st.modes, |st.modes| - 1, st.steps + 1, look.value.index).Ends? && w.grammar(Top(st)).excludeEnd
    case Illegal => false
  }

  /** How far an iteration has got in the text. */
  function Passed(w: World, st: Lexing): nat {
    if st.status == Finished || st.index > |w.text| then |w.text| else st.index
  }

  /** The modes that each character an iteration passes is buffered under. */
  function Under(w: World, st: Lexing): seq<seq<Active>> {
    var next := Iterate(w, st);
    if Passed(w, next) < Passed(w, st) then []
    else
      seq(Passed(w, next) - Passed(w, st),
          i => if LexemeAfter(w, st) && Passed(w, st) + i >= Look(w, st).value.index then next.modes else st.modes)
  }

  function AllUnder(w: World, st: Lexing, n: nat): seq<seq<Active>>
    decreases n
  {
    if n == 0 || st.status != Running then [] else Under(w, st) + AllUnder(w, Iterate(w, st), n - 1)
  }

  /** A character shows the classes of the modes it was buffered under; inside them nothing if the innermost
      buffers plain text, at most the class of a keyword if it looks for keywords. */
  predicate Shows(w: World, cell: Cell, modes: seq<Active>, prefix: string) {
    var classes := ModeClasses(w, modes, prefix);
    && classes <= cell.classes && modes != []
    && (w.grammar(modes[|modes| - 1].mode).content.Plain? ==> cell.classes == classes)
    && (w.grammar(modes[|modes| - 1].mode).content.Keywords? ==> |cell.classes| <= |classes| + 1)
  }

  /** The cells written so far show their modes, and what is in the buffer was buffered under the active ones. */
  ghost predicate Placed(w: World, st: Lexing, cells: seq<Cell>, under: seq<seq<Active>>, prefix: string) {
    && |under| == Passed(w, st) && |cells| <= |under|
    && (forall p :: 0 <= p < |cells| ==> Shows(w, cells[p], under[p], prefix))
    && (forall p :: |cells| <= p < |under| ==> under[p] == st.modes)
  }

  lemma HandedShows(w: World, st: Lexing, prefix: string)
    ensures forall p :: 0 <= p < |Handed(w, st, prefix)| ==> Shows(w, Handed(w, st, prefix)[p], st.modes, prefix)
    ensures Given(w, st).Some? && !LosesNested(w, st) ==> |Handed(w, st, prefix)| == |Given(w, st).value|
  {
    hide Given, KeywordAt, ModeClasses, FlushText;
    var given := Given(w, st);
    if given.Some? {
      var around := ModeClasses(w, st.modes, prefix);
      FlushLetters(w, Top(st), given.value, st.steps + 1, around, prefix);
      FlushWithin(w, Top(st), given.value, st.steps + 1, around, prefix);
    }
  }

  lemma FlushLetters(w: World, m: nat, k: string, step: nat, around: seq<string>, prefix: string)
    ensures Letters(FlushCells(w, m, k, step, around, prefix)) == FlushText(w, m, k, step)
  {
    hide FlushCells, Flushed, FlushText;
    FlushedCells(w, m, k, step, around, prefix);
    ForestLetters(Flushed(w, m, k, step), around, prefix);
    FlushedText(w, m, k, step);
  }

  lemma {:induction false} TreeWithin(t: Tree, around: seq<string>, prefix: string)
    ensures forall p :: 0 <= p < |PaintTree(t, around, prefix)| ==> around <= PaintTree(t, around, prefix)[p].classes
    decreases t
  {
    match t
    case Leaf(s) =>
    case Branch(kind, sub, children) => ForestWithin(children, around + Written(kind, sub, prefix), prefix);
  }

  lemma {:induction false} ForestWithin(ts: seq<Tree>, around: seq<string>, prefix: string)
    ensures forall p :: 0 <= p < |PaintForest(ts, around, prefix)| ==>
                          around <= PaintForest(ts, around, prefix)[p].classes
    decreases ts
  {
    hide PaintTree;
    if ts != [] {
      ForestWithin(ts[..|ts| - 1], around, prefix);
      TreeWithin(ts[|ts| - 1], around, prefix);
    }
  }

  lemma FlushWithin(w: World, m: nat, k: string, step: nat, around: seq<string>, prefix: string)
    ensures var cells := FlushCells(w, m, k, step, around, prefix);
            forall p :: 0 <= p < |cells| ==>
              && around <= cells[p].classes
              && (w.grammar(m).content.Plain? ==> cells[p].classes == around)
              && (w.grammar(m).content.Keywords? ==> |cells[p].classes| <= |around| + 1)
  {
    hide PaintForest, KeywordAt;
    if w.grammar(m).content.SubLanguage? && k != "" {
      var nested := w.oracle.nested(m, k, step);
      if nested.Some? && nested.value.Highlighted? {
        var language := nested.value.language;
        ForestWithin(nested.value.children, around + (if language == "" then [] else [language]), prefix);
      }
    }
  }

  lemma BeginBuffer(w: World, st: Lexing, y: Match, c: nat)
    requires st.modes != [] && y.index + y.length <= |w.text| && y.kind == Begin(c) && !w.grammar(c).skip
    ensures var r := BeginMatch(w, st, y, c);
            && r.status == st.status && (PassedOver(w, y) ==> r.modes == st.modes)
            && (!PassedOver(w, y) && w.grammar(c).excludeBegin ==> r.sink.buffer == "")
  {
    hide Flush, Sink.Text, FramesText, FlushText, OpenNode;
  }

  lemma EndBuffer(w: World, st: Lexing, y: Match, d: nat)
    requires d < |st.modes| && y.index + y.length <= |w.text| && !w.grammar(Top(st)).skip
    ensures var r := EndMatch(w, st, y, d);
            r.status == st.status && (!w.grammar(Top(st)).excludeEnd ==> r.sink.buffer == "")
  {
    hide Flush, Sink.Text, FramesText, FlushText, OpenNode, Leave;
  }

  /** What an iteration that does not skip does with its buffer. */
  lemma BufferAfter(w: World, st: Lexing)
    requires Inv(w, st) && st.status == Running && NoSkips(w) && Alive(Iterate(w, st))
    ensures var next, given := Iterate(w, st), Given(w, st);
            && (given.None? ==> next.modes == st.modes && next.status == Running && !LexemeAfter(w, st))
            && (given.Some? ==> |st.sink.buffer| <= |given.value|)
            && (given.Some? && LexemeAfter(w, st) ==>
                  |given.value| == |st.sink.buffer| + Look(w, st).value.index - st.index)
            && (given.Some? && !LexemeAfter(w, st) ==> next.sink.buffer == "")
  {
    hide Sink.Text, EndOfMode, NextRegexIndex, Look, NoneBetween, Flush, BeginMatch, EndMatch, Opened, From, CloseAll;
    LookAhead(w, st);
    var look := Look(w, st);
    if look.Some? {
      var y := look.value;
      var l := Reached(w, st, y);
      assert Substring(w.text, st.index, y.index) == w.text[st.index..y.index];
      if !ZeroWidthPair(st.last, y) {
        match y.kind
        case Begin(c) => BeginBuffer(w, l, y, c);
        case Illegal =>
        case End =>
          var e := EndOfMode(w, l.modes, |l.modes| - 1, l.steps, y.index);
          if e.Ends? {
            EndBuffer(w, l, y, e.depth);
          }
      }
    }
  }

  /** Every iteration puts each character it passes into the cells or the buffer with the modes it belongs to. */
  lemma IteratePlaces(w: World, st: Lexing, cells: seq<Cell>, under: seq<seq<Active>>, prefix: string)
    requires Inv(w, st) && st.status == Running && NoSkips(w) && Alive(Iterate(w, st))
    requires !Rereads(w, st) && !LosesNested(w, st) && Kept(w, st)
    requires Placed(w, st, cells, under, prefix) && |cells| == |FramesText(st.sink.out)|
    requires |FramesText(Iterate(w, st).sink.out)| == |cells| + |Handed(w, st, prefix)|
    requires Kept(w, Iterate(w, st))
    ensures Placed(w, Iterate(w, st), cells + Handed(w, st, prefix), under + Under(w, st), prefix)
  {
    hide Inv, Iterate, LexemeAfter, Look, Given, Handed, Shows, Rereads, LosesNested, FramesText;
    BufferAfter(w, st);
    HandedShows(w, st, prefix);
    var next := Iterate(w, st);
    KeptLength(w, st);
    KeptLength(w, next);
    PassesOn(w, st);
    var handed, more := Handed(w, st, prefix), under + Under(w, st);
    assert |more| == Passed(w, next);
    forall p | |cells| <= p < |cells + handed| ensures p < |more| && more[p] == st.modes {
      assert p >= |under| ==> more[p] == Under(w, st)[p - |under|];
    }
    forall p | |cells + handed| <= p < |more| ensures more[p] == next.modes {
      assert p >= |under| ==> more[p] == Under(w, st)[p - |under|];
    }
  }

  lemma PassesOn(w: World, st: Lexing)
    requires Inv(w, st) && st.status == Running
    ensures Passed(w, st) <= Passed(w, Iterate(w, st))
    ensures Look(w, st).Some? ==> st.index <= Look(w, st).value.index <= |w.text|
  {
    hide Sink.Text, EndOfMode, NextRegexIndex, Look, NoneBetween, Flush, Opened, From, CloseAll, BeginSink, EndSink,
         LeaveSink, LeaveModes, Start;
    LookAhead(w, st);
  }

  lemma KeptLength(w: World, st: Lexing)
    requires Kept(w, st)
    ensures |FramesText(st.sink.out)| + |st.sink.buffer| == Passed(w, st)
  {
    hide FramesText;
    SinkText(st.sink);
    assert |FramesText(st.sink.out) + st.sink.buffer| == |FramesText(st.sink.out)| + |st.sink.buffer|;
  }

  /** No iteration rereads, and every nested result has the text it was given. */
  ghost predicate Lossless(w: World, st: Lexing, n: nat)
    decreases n
  {
    n == 0 || st.status != Running
    || (!Rereads(w, st) && !LosesNested(w, st) && Lossless(w, Iterate(w, st), n - 1))
  }

  lemma {:induction false} LosslessIsClean(w: World, st: Lexing, n: nat)
    requires Lossless(w, st, n)
    ensures Clean(w, st, n)
    decreases n
  {
    hide Rereads, LosesNested, Iterate, Corrupts;
    if n != 0 && st.status == Running {
      CorruptsWithoutNested(w, st);
      LosslessIsClean(w, Iterate(w, st), n - 1);
    }
  }

  lemma {:induction false} TameIsLossless(w: World, st: Lexing, n: nat)
    requires Tame(w) && NestedSucceed(w, st, n)
    ensures Lossless(w, st, n)
    decreases n
  {
    hide Iterate, Rereads, LosesNested, Tame, NestedSucceeds;
    if n != 0 && st.status == Running {
      TameNeverRereads(w, st);
      SucceedingLosesNothing(w, st);
      TameIsLossless(w, Iterate(w, st), n - 1);
    }
  }

  lemma {:induction false} RunPlaces(w: World, st: Lexing, n: nat, under: seq<seq<Active>>, prefix: string)
    requires Inv(w, st) && Opens(w, st) && NoSkips(w) && Lossless(w, st, n) && Alive(Run(w, st, n))
    requires Kept(w, st) && Placed(w, st, PaintFrames(st.sink.out, prefix), under, prefix)
    ensures var r := Run(w, st, n);
            Kept(w, r) && Placed(w, r, PaintFrames(r.sink.out, prefix), under + AllUnder(w, st, n), prefix)
    decreases n
  {
    hide Inv, Opens, NoSkips, Rereads, LosesNested, Iterate, Placed, PaintFrames, Handed, Under, FramesText, Kept,
         Corrupts;
    if n == 0 || st.status != Running {
      assert under + [] == under;
    } else {
      var next := Iterate(w, st);
      CellsLength(st.sink.out, prefix);
      CellsLength(next.sink.out, prefix);
      AliveBefore(w, next, n - 1);
      CorruptsWithoutNested(w, st);
      IterateKeepsText(w, st);
      IterateKeepsInv(w, st);
      IteratePaints(w, st, prefix);
      IteratePlaces(w, st, PaintFrames(st.sink.out, prefix), under, prefix);
      RunPlaces(w, next, n - 1, under + Under(w, st), prefix);
      assert under + Under(w, st) + AllUnder(w, next, n - 1) == under + AllUnder(w, st, n);
    }
  }

  lemma AliveBefore(w: World, st: Lexing, n: nat)
    requires Alive(Run(w, st, n))
    ensures Alive(st)
  {
  }

  lemma CellsLength(fs: seq<Frame>, prefix: string)
    ensures |PaintFrames(fs, prefix)| == |FramesText(fs)|
  {
    hide PaintFrames, FramesText;
    FramesLetters(fs, prefix);
  }

  /** In a finished run of a grammar without skips that neither rereads nor loses nested text, every character of
      the text stands in the tree, in order, within the classes of the modes it was buffered under; a begin
      lexeme was buffered under the begun mode exactly if it is neither excluded nor read again, an end
      lexeme under the ended one exactly if it is not excluded. */
  lemma CharactersShowTheirModes(w: World, modes: seq<Active>, n: nat, prefix: string)
    requires Chain(modes) && NoSkips(w) && Lossless(w, Initial(w, modes), n)
    requires Run(w, Initial(w, modes), n).status == Finished
    ensures var fs, under := Run(w, Initial(w, modes), n).sink.out, AllUnder(w, Initial(w, modes), n);
            && |fs| == 1 && |under| == |w.text|
            && var cells := PaintTree(Root(fs), [], prefix);
            && |cells| == |w.text|
            && forall p :: 0 <= p < |w.text| ==> cells[p].c == w.text[p] && Shows(w, cells[p], under[p], prefix)
  {
    hide Run, Inv, Initial, AllUnder, PaintFrames, PaintTree, Kinds, Shows, NoSkips, Lossless;
    var st := Initial(w, modes);
    var r := Run(w, st, n);
    InitialPaints(w, modes, prefix);
    NothingPlaced(w, modes, prefix);
    RunPlaces(w, st, n, [], prefix);
    assert [] + AllUnder(w, st, n) == AllUnder(w, st, n);
    RunPaints(w, st, n, prefix);
    assert [""] + [] == [""];
    PaintRoot(r.sink.out, prefix);
    FramesLetters(r.sink.out, prefix);
    LosslessIsClean(w, st, n);
    HighlightKeepsText(w, modes, n, prefix);
  }

  lemma NothingPlaced(w: World, modes: seq<Active>, prefix: string)
    ensures Placed(w, Initial(w, modes), [], [], prefix)
  {
  }
}
