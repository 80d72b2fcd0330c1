/** The highlighting function of highlight.js with the variables its closures update: the buffer,
    the active modes, the cursor, the last match, the iteration count and the resume flag, over
    the heap-allocated emitter. Every method is proved against the state machine of Lexer. */
module Highlighter {
  import opened Html
  import opened Optional
  import opened TokenTree
  import opened Lexer
  import Colours
  import ColouredRuns
  import E = Emitter

  class Highlighter {
    const world: World
    const emitter: E.Emitter
    var modes: seq<Active>
    var buffer: string
    var index: nat
    var lastMatch: Option<Match>
    var steps: nat
    var resume: bool
    var regexIndex: nat
    var lastIndex: nat
    var status: Status

    ghost predicate Valid()
      reads this, emitter, emitter.nodes
    {
      emitter.Valid()
    }

    ghost function State(): Lexing
      reads this, emitter
    {
      Lexing(modes, Sink(emitter.frames, buffer), index, lastMatch, steps, resume, regexIndex, lastIndex, status)
    }

    /** Starts a run; the modes of a continued run are opened again from the outside inwards. */
    constructor (world: World, modes: seq<Active>)
      ensures Valid() && fresh(emitter) && fresh(emitter.nodes)
      ensures this.world == world && State() == Initial(world, modes)
    {
      this.world := world;
      emitter := new E.Emitter();
      this.modes := modes;
      buffer, index, lastMatch := "", 0, None;
      steps, resume, regexIndex, lastIndex, status := 0, false, 0, 0, Running;
      new;
      Reopen();
    }

    method Reopen()
      requires Valid() && emitter.frames == EMPTY_FRAMES
      modifies emitter, emitter.nodes
      ensures Valid() && fresh(emitter.nodes - old(emitter.nodes))
      ensures emitter.frames == Reopened(world, modes)
    {
      hide E.Emitter.Valid, FramesText;
      if |modes| <= 1 {
        return;
      }
      for i := 1 to |modes|
        invariant Valid() && fresh(emitter.nodes - old(emitter.nodes))
        invariant emitter.frames == Reopened(world, modes[..i])
      {
        var cls := world.grammar(modes[i].mode).className;
        assert modes[..i + 1][..i] == modes[..i];
        if cls != "" {
          emitter.OpenNode(cls);
        }
      }
      assert modes[..|modes|] == modes;
    }

    /** Splits the buffer into words; keywords become nodes of their own. */
    method FlushKeywords(m: nat)
      requires Valid()
      modifies emitter, emitter.nodes
      ensures Valid() && fresh(emitter.nodes - old(emitter.nodes))
      ensures emitter.frames == AddAll(old(emitter.frames), KeywordTrees(world, m, buffer, 0, ""))
    {
      hide E.Emitter.Valid, FramesText, ForestText, AddAll;
      var k, n, r := buffer, 0, "";
      var t := world.NextWord(m, k, n);
      ghost var goal := AddAll(emitter.frames, KeywordTrees(world, m, k, 0, ""));
      while t.Some?
        invariant Valid() && fresh(emitter.nodes - old(emitter.nodes))
        invariant n <= |k| && t == world.NextWord(m, k, n)
        invariant AddAll(emitter.frames, KeywordTrees(world, m, k, n, r)) == goal
        decreases |k| - n
      {
        var word := t.value;
        ghost var start := emitter.frames;
        r := r + k[n..word.start];
        if word.kind.Some? {
          ghost var rest := KeywordTrees(world, m, k, word.end, "");
          emitter.AddText(r);
          emitter.AddKeyword(k[word.start..word.end], word.kind.value);
          var keyword := [Branch(word.kind.value, false, [Leaf(k[word.start..word.end])])];
          AddAllAppend(start, TextTree(r), keyword);
          AddAllAppend(start, TextTree(r) + keyword, rest);
          r := "";
        } else {
          r := r + k[word.start..word.end];
        }
        n := word.end;
        t := world.NextWord(m, k, n);
      }
      r := r + k[n..];
      emitter.AddText(r);
    }

    method Flush()
      requires Valid() && modes != []
      modifies `buffer, emitter, emitter.nodes
      ensures Valid() && fresh(emitter.nodes - old(emitter.nodes))
      ensures State() == old(State()).(sink := Lexer.Flush(world, old(Top(State())), old(State().sink), steps))
    {
      hide E.Emitter.Valid, FramesText, ForestText, KeywordTrees;
      var m := modes[|modes| - 1].mode;
      match world.grammar(m).content {
        case Plain => emitter.AddText(buffer);
        case Keywords => FlushKeywords(m);
        case SubLanguage =>
          if buffer != "" {
            var nested := world.oracle.nested(m, buffer, steps);
            if nested.None? {
              emitter.AddText(buffer);
            } else {
              var language := if nested.value.Undetected? then "" else nested.value.language;
              var children := if nested.value.Undetected? then [Leaf(buffer)] else nested.value.children;
              emitter.AddSublanguage(children, language);
              AddOne(old(emitter.frames), Branch(language, true, children));
            }
          }
      }
      buffer := "";
    }

    method StartMode(c: nat)
      requires Valid()
      modifies `modes, emitter, emitter.nodes
      ensures Valid() && fresh(emitter.nodes - old(emitter.nodes))
      ensures State() == old(State()).(sink := Start(world, c, old(State().sink)),
                                           modes := old(modes) + [Active(c, true)])
    {
      hide E.Emitter.Valid, FramesText;
      var cls := world.grammar(c).className;
      if cls != "" {
        emitter.OpenNode(cls);
      }
      modes := modes + [Active(c, true)];
    }

    /** Puts the lexeme of a begin match before the coming node, into it, or back. */
    method BufferBegin(rule: Mode, lexeme: string)
      requires Valid() && modes != []
      modifies `buffer, emitter, emitter.nodes
      ensures Valid() && fresh(emitter.nodes - old(emitter.nodes))
      ensures State() == old(State()).(
                sink := BeginSink(world, old(Top(State())), rule, old(State().sink), lexeme, steps))
    {
      hide E.Emitter.Valid, Lexer.Flush, Sink.Text, FramesText;
      if rule.skip {
        buffer := buffer + lexeme;
      } else {
        if rule.excludeBegin {
          buffer := buffer + lexeme;
        }
        Flush();
        assert buffer + lexeme == lexeme;
        if !rule.returnBegin && !rule.excludeBegin {
          buffer := lexeme;
        }
      }
    }

    method BeginMatch(y: Match, c: nat)
      requires Valid() && modes != [] && y.index + y.length <= |world.text|
      modifies this, emitter, emitter.nodes
      ensures Valid() && fresh(emitter.nodes - old(emitter.nodes))
      ensures State() == Lexer.BeginMatch(world, old(State()), y, c)
    {
      hide E.Emitter.Valid, BeginSink, Start, Sink.Text, FramesText;
      var rule, lexeme := world.grammar(c), Lexeme(world, y);
      if rule.keywordGuard && Dotted(world.text, y) {
        if regexIndex == 0 {
          buffer := buffer + FirstChar(lexeme);
          index := y.index + 1;
        } else {
          resume := true;
          index := y.index;
        }
      } else {
        BufferBegin(rule, lexeme);
        StartMode(c);
        index := y.index + if rule.returnBegin then 0 else y.length;
      }
    }

    method BufferEnd(lexeme: string)
      requires Valid() && modes != []
      modifies `buffer, emitter, emitter.nodes
      ensures Valid() && fresh(emitter.nodes - old(emitter.nodes))
      ensures State() == old(State()).(sink := EndSink(world, old(Top(State())), old(State().sink), lexeme, steps))
    {
      hide E.Emitter.Valid, Lexer.Flush, Sink.Text, FramesText;
      var mode := world.grammar(modes[|modes| - 1].mode);
      if mode.skip {
        buffer := buffer + lexeme;
      } else {
        if !mode.returnEnd && !mode.excludeEnd {
          buffer := buffer + lexeme;
        }
        Flush();
        assert buffer + lexeme == lexeme;
        if mode.excludeEnd {
          buffer := lexeme;
        }
      }
    }

    method EndMatch(y: Match, d: nat)
      requires Valid() && d < |modes| && y.index + y.length <= |world.text|
      modifies this, emitter, emitter.nodes
      ensures Valid() && fresh(emitter.nodes - old(emitter.nodes))
      ensures State() == Lexer.EndMatch(world, old(State()), y, d)
    {
      hide E.Emitter.Valid, EndSink, Start, Sink.Text, Leave, FramesText;
      var mode, ended := world.grammar(modes[|modes| - 1].mode), modes[d].mode;
      BufferEnd(Lexeme(world, y));
      LeaveTo(d);
      var starts := world.grammar(ended).starts;
      if starts.Some? {
        StartMode(starts.value);
      }
      index := y.index + if mode.returnEnd then 0 else y.length;
    }

    /** Moves outwards from mode to mode until the ended one has been left. */
    method LeaveTo(d: nat)
      requires Valid() && d < |modes|
      modifies `modes, emitter
      ensures Valid() && emitter.nodes == old(emitter.nodes)
      ensures State() == old(State()).(modes := old(modes)[..d],
                          sink := Sink(Leave(world, old(modes), old(emitter.frames), d), old(buffer)))
    {
      hide E.Emitter.Valid, FramesText, OpenNode, Add;
      ghost var was := modes;
      while |modes| != d
        invariant Valid() && emitter.nodes == old(emitter.nodes)
        invariant d <= |modes| <= |was| && modes == was[..|modes|]
        invariant Leave(world, modes, emitter.frames, d) == Leave(world, was, old(emitter.frames), d)
        decreases |modes|
      {
        var n := |modes| - 1;
        if world.grammar(modes[n].mode).className != "" {
          var _ := emitter.CloseNode();
        }
        modes := modes[..n];
      }
    }

    method Consume(y: Match)
      requires Valid() && y.index + y.length <= |world.text|
      modifies this
      ensures Valid() && emitter.nodes == old(emitter.nodes)
      ensures State() == Lexer.Consume(world, old(State()), y)
    {
      if y.kind.Illegal? && y.length == 0 {
        index := y.index + 1;
      } else if steps > 100000 && steps > 3 * y.index {
        status := Failed;
      } else {
        buffer := buffer + Lexeme(world, y);
        index := y.index + y.length;
      }
    }

    method ProcessLexeme(y: Match)
      requires Valid() && modes != [] && y.index + y.length <= |world.text|
      modifies this, emitter, emitter.nodes
      ensures Valid() && fresh(emitter.nodes - old(emitter.nodes))
      ensures State() == Process(world, old(State()), y)
    {
      hide E.Emitter.Valid, Lexer.BeginMatch, Lexer.EndMatch, Lexer.Consume, Sink.Text;
      buffer := buffer + Substring(world.text, index, y.index);
      if ZeroWidthPair(lastMatch, y) {
        buffer := buffer + Substring(world.text, y.index, y.index + 1);
        index := y.index + 1;
        return;
      }
      lastMatch := Some(y);
      match y.kind {
        case Begin(c) => BeginMatch(y, c);
        case Illegal =>
          if world.ignoreIllegals {
            Consume(y);
          } else {
            status := IllegalLexeme;
          }
        case End =>
          match EndOfMode(world, modes, |modes| - 1, steps, y.index) {
            case NoEnd => Consume(y);
            case Broken => status := Failed;
            case Ends(d) => EndMatch(y, d);
          }
      }
    }

    method Finish()
      requires Valid() && modes != []
      modifies `buffer, `status, emitter, emitter.nodes
      ensures Valid() && fresh(emitter.nodes - old(emitter.nodes))
      ensures State() == Lexer.Finish(world, old(State()))
    {
      hide E.Emitter.Valid, Sink.Text, Lexer.Flush, CloseAll, FramesText;
      buffer := buffer + From(world.text, index);
      Flush();
      emitter.CloseAllNodes();
      status := Finished;
    }

    /** A resumed scan goes on with the matcher as it is; any other starts at the cursor. */
    method Prepare()
      modifies `steps, `resume, `lastIndex, `regexIndex
      ensures State() == Aim(old(State()))
    {
      steps := steps + 1;
      if resume {
        resume := false;
      } else {
        lastIndex := index;
        regexIndex := 0;
      }
    }

    method Step()
      requires Valid()
      modifies this, emitter, emitter.nodes
      ensures Valid() && fresh(emitter.nodes - old(emitter.nodes))
      ensures State() == Iterate(world, old(State()))
    {
      hide E.Emitter.Valid, Process, Lexer.Finish, RuleAt, Scan, Rules;
      Prepare();
      if modes == [] {
        status := Failed;
        return;
      }
      var m := modes[|modes| - 1].mode;
      var rules := Rules(world.grammar(m));
      var i := Scan(world, m, |rules|, regexIndex, lastIndex, |world.text|);
      if i.None? {
        Finish();
        return;
      }
      var r := RuleAt(world, m, |rules|, regexIndex, i.value).value;
      var y := Match(i.value, world.MatchAt(m, r, i.value).value, rules[r]);
      var next := regexIndex + world.oracle.position(steps - 1) + 1;
      regexIndex := if next == |world.grammar(m).contains| then 0 else next;
      ProcessLexeme(y);
    }

    /** At most n iterations of the loop. */
    method Loop(n: nat)
      requires Valid()
      modifies this, emitter, emitter.nodes
      ensures Valid() && fresh(emitter.nodes - old(emitter.nodes))
      ensures State() == Run(world, old(State()), n)
    {
      hide E.Emitter.Valid, Iterate;
      var left: nat := n;
      while left > 0 && status == Running
        invariant Valid() && fresh(emitter.nodes - old(emitter.nodes))
        invariant left <= n && Run(world, State(), left) == Run(world, old(State()), n)
      {
        Step();
        left := left - 1;
      }
    }

    method Result(prefix: string) returns (html: string)
      requires Valid() && (status == Finished ==> |emitter.frames| == 1)
      ensures html == Value(world, State(), prefix)
    {
      if status == Finished {
        html := emitter.ToHTML(prefix);
      } else {
        html := Escape(world.text);
      }
    }
  }

  /** Highlights a text in at most n iterations. A browser shows what the iterations handed over, each piece
      within the classes of the modes active then; and if no iteration is a corrupting one, the HTML of a
      run that ends has the given text, whatever the expressions match. */
  method Highlight(world: World, modes: seq<Active>, n: nat, prefix: string) returns (ended: bool, html: string)
    requires Chain(modes)
    ensures ended == (Run(world, Initial(world, modes), n).status != Running)
    ensures ended ==> html == Value(world, Run(world, Initial(world, modes), n), prefix)
    ensures var r := Run(world, Initial(world, modes), n);
            && (r.status == Finished ==> |r.sink.out| == 1)
            && (ended && Clean(world, Initial(world, modes), n)
                && (r.status == Finished ==> ClassesClosed(Root(r.sink.out), prefix)) ==>
                  Unescape(StripTags(html)) == world.text)
            && (ended && r.status == Finished && ClassesClosed(Root(r.sink.out), prefix) ==>
                  Colours.Browse(html, []) == ColouredRuns.AllHanded(world, Initial(world, modes), n, prefix))
            && (ended && r.status != Finished ==> Colours.Browse(html, []) == Colours.Spread(world.text, []))
  {
    hide Iterate, Clean, Initial, Value, StripTags, Unescape, ClassesClosed, Run, Colours.Browse,
         ColouredRuns.AllHanded, ColouredRuns.Opens;
    var h := new Highlighter(world, modes);
    h.Loop(n);
    FinishedAtRoot(world, modes, n);
    ColouredRuns.HighlightPaints(world, modes, n, prefix);
    if Clean(world, Initial(world, modes), n) {
      HighlightKeepsText(world, modes, n, prefix);
    }
    ended := h.status != Running;
    html := "";
    if ended {
      html := h.Result(prefix);
    }
  }
}
