/** How the highlighter gets from one state to the next: which match an iteration works on, which mode an end
    match closes, and which modes are active afterwards, each told from the oracle and the grammar alone. */
module Moves {
  import opened Optional
  import opened Lexer
  import opened TokenTree

  // ---------------------------------------------------------------- the match

  function RuleCount(mode: Mode): nat {
    |mode.contains| + (if mode.hasEnd then 1 else 0) + if mode.hasIllegal then 1 else 0
  }

  /** What rule r of a mode stands for: the contained modes in order, then the end, then the illegal lexeme. */
  function RuleKind(mode: Mode, r: nat): Kind
    requires r < RuleCount(mode)
  {
    if r < |mode.contains| then Begin(mode.contains[r])
    else if r == |mode.contains| && mode.hasEnd then End
    else Illegal
  }

  /** A rule of a mode matches at a position, within the text. */
  predicate Hits(w: World, m: nat, r: nat, i: nat, length: nat) {
    w.oracle.matchAt(m, r, i) == Some(length) && i + length <= |w.text|
  }

  /** No rule from number first on hits at a position from i on and before j. */
  ghost predicate NoHit(w: World, m: nat, first: nat, i: nat, j: nat) {
    forall p: nat, q: nat, length: nat ::
      i <= p < j && first <= q < RuleCount(w.grammar(m)) ==> !Hits(w, m, q, p, length)
  }

  /** The leftmost hit, and of the rules that hit there the first. A resumed scan goes on where the matcher
      stood, with the rules it had not tried. */
  ghost predicate FirstHit(w: World, st: Lexing, y: Match, r: nat)
    requires st.modes != []
  {
    var m := st.modes[|st.modes| - 1].mode;
    var first, start := if st.resume then st.regexIndex else 0, if st.resume then st.lastIndex else st.index;
    && first <= r < RuleCount(w.grammar(m)) && start <= y.index
    && y.kind == RuleKind(w.grammar(m), r) && Hits(w, m, r, y.index, y.length)
    && NoHit(w, m, first, start, y.index)
    && forall q: nat, length: nat :: first <= q < r ==> !Hits(w, m, q, y.index, length)
  }

  lemma RulesAre(mode: Mode)
    ensures |Rules(mode)| == RuleCount(mode)
    ensures forall r :: 0 <= r < RuleCount(mode) ==> Rules(mode)[r] == RuleKind(mode, r)
  {
  }

  lemma NoneIsNoHit(w: World, m: nat, r: nat, i: nat)
    ensures RuleAt(w, m, RuleCount(w.grammar(m)), r, i).None? ==> NoHit(w, m, r, i, i + 1)
  {
    if RuleAt(w, m, RuleCount(w.grammar(m)), r, i).None? {
      forall q: nat, length: nat | r <= q < RuleCount(w.grammar(m)) ensures !Hits(w, m, q, i, length) {
        assert w.MatchAt(m, q, i).None?;
      }
    }
  }

  lemma {:induction false} RuleAtIsFirst(w: World, m: nat, count: nat, r: nat, i: nat)
    ensures var found := RuleAt(w, m, count, r, i);
            found.Some? ==>
              && r <= found.value < count && w.MatchAt(m, found.value, i).Some?
              && forall q :: r <= q < found.value ==> w.MatchAt(m, q, i).None?
    decreases count - r
  {
    if r < count && w.MatchAt(m, r, i).None? {
      RuleAtIsFirst(w, m, count, r + 1, i);
    }
  }

  /** An iteration works on the first hit, and on none exactly if there is no hit. */
  lemma LookIsFirstHit(w: World, st: Lexing) returns (r: nat)
    requires st.modes != []
    ensures var m := st.modes[|st.modes| - 1].mode;
            var first, start := if st.resume then st.regexIndex else 0, if st.resume then st.lastIndex else st.index;
            && (Look(w, st).None? ==> NoHit(w, m, first, start, |w.text| + 1))
            && (Look(w, st).Some? ==> FirstHit(w, st, Look(w, st).value, r))
  {
    hide Scan, Rules;
    r := 0;
    var m := st.modes[|st.modes| - 1].mode;
    var first, start := if st.resume then st.regexIndex else 0, if st.resume then st.lastIndex else st.index;
    var count := RuleCount(w.grammar(m));
    RulesAre(w.grammar(m));
    var i := Scan(w, m, count, first, start, |w.text|);
    var end := if i.None? then |w.text| + 1 else i.value;
    forall p: nat, q: nat, length: nat | start <= p < end && first <= q < count ensures !Hits(w, m, q, p, length) {
      NoneIsNoHit(w, m, first, p);
    }
    if i.Some? {
      r := RuleAt(w, m, count, first, i.value).value;
      RuleAtIsFirst(w, m, count, first, i.value);
      forall q: nat, length: nat | first <= q < r ensures !Hits(w, m, q, i.value, length) {
        assert w.MatchAt(m, q, i.value).None?;
      }
    }
  }

  /** There is only one first hit. */
  lemma FirstHitIsUnique(w: World, st: Lexing, y: Match, r: nat, z: Match, q: nat)
    requires st.modes != [] && FirstHit(w, st, y, r) && FirstHit(w, st, z, q)
    ensures y == z && r == q
  {
    hide RuleKind;
  }

  // ---------------------------------------------------------------- the mode an end match closes

  predicate EndsHere(w: World, modes: seq<Active>, j: nat, step: nat, i: nat)
    requires j < |modes|
  {
    w.oracle.endsAt(step, modes[j].mode, i)
  }

  predicate HandsOn(w: World, modes: seq<Active>, j: nat)
    requires j < |modes|
  {
    w.grammar(modes[j].mode).endsWithParent
  }

  predicate EndsParent(w: World, modes: seq<Active>, j: nat)
    requires j < |modes|
  {
    w.grammar(modes[j].mode).endsParent
  }

  /** The search for an end, from mode d outwards, comes to mode e: every mode further in leaves its end to
      its parent and does not end here itself. */
  ghost predicate ComesTo(w: World, modes: seq<Active>, d: nat, e: int, step: nat, i: nat)
    requires d < |modes|
  {
    e <= d && forall j: nat :: e < j <= d ==> !EndsHere(w, modes, j, step, i) && HandsOn(w, modes, j)
  }

  /** Mode x is the outermost one that ends together with mode e. */
  ghost predicate TakesAlong(w: World, modes: seq<Active>, e: nat, x: nat)
    requires e < |modes|
  {
    x <= e && (forall j: nat :: x < j <= e ==> EndsParent(w, modes, j)) && (x == 0 || !EndsParent(w, modes, x))
  }

  lemma {:induction false} OutermostTakesAlong(w: World, modes: seq<Active>, d: nat)
    requires d < |modes|
    ensures TakesAlong(w, modes, d, Outermost(w, modes, d))
  {
    if w.grammar(modes[d].mode).endsParent && d > 0 {
      OutermostTakesAlong(w, modes, d - 1);
    }
  }

  /** An end match closes the innermost mode it comes to that ends here, with the modes that end along with
      it; it closes none if it comes to a mode that neither ends here nor leaves that to its parent, and
      breaks off if every mode leaves it to its parent. */
  lemma {:induction false} EndOfModeIs(w: World, modes: seq<Active>, d: nat, step: nat, i: nat) returns (e: nat)
    requires d < |modes|
    ensures e <= d
    ensures match EndOfMode(w, modes, d, step, i)
            case Ends(x) =>
              ComesTo(w, modes, d, e, step, i) && EndsHere(w, modes, e, step, i) && TakesAlong(w, modes, e, x)
            case NoEnd =>
              ComesTo(w, modes, d, e, step, i) && !EndsHere(w, modes, e, step, i) && !HandsOn(w, modes, e)
            case Broken => ComesTo(w, modes, d, -1, step, i)
  {
    e := d;
    if w.oracle.endsAt(step, modes[d].mode, i) {
      OutermostTakesAlong(w, modes, d);
    } else if w.grammar(modes[d].mode).endsWithParent && d > 0 {
      e := EndOfModeIs(w, modes, d - 1, step, i);
    }
  }

  // ---------------------------------------------------------------- the state afterwards

  /** Neither begun nor ended: the lexeme is passed; too many iterations for the progress made end the run. */
  predicate PassedBy(st: Lexing, y: Match, r: Lexing) {
    && r.modes == st.modes
    && if y.kind.Illegal? && y.length == 0 then r.status == Running && r.index == y.index + 1
       else if st.steps + 1 > 100000 && st.steps + 1 > 3 * y.index then r.status == Failed
       else r.status == Running && r.index == y.index + y.length
  }

  predicate BeginMoves(w: World, st: Lexing, y: Match, c: nat, r: Lexing)
    requires y.index + y.length <= |w.text| && st.modes != []
  {
    var contains := w.grammar(st.modes[|st.modes| - 1].mode).contains;
    var next := (if st.resume then st.regexIndex else 0) + w.oracle.position(st.steps) + 1;
    var dotBefore := y.index > 0 && w.text[y.index - 1] == '.';
    var dotBehind := y.index + y.length < |w.text| && w.text[y.index + y.length] == '.';
    && r.status == Running
    && r.regexIndex == (if next == |contains| then 0 else next)
    && r.lastIndex == (if st.resume then st.lastIndex else st.index)
    && if w.grammar(c).keywordGuard && (dotBefore || dotBehind) then
         && r.modes == st.modes
         && r.resume == (r.regexIndex != 0)
         && r.index == if r.resume then y.index else y.index + 1
       else
         && r.modes == st.modes + [Active(c, true)]
         && !r.resume
         && r.index == y.index + if w.grammar(c).returnBegin then 0 else y.length
  }

  predicate EndMoves(w: World, st: Lexing, y: Match, d: nat, r: Lexing)
    requires d < |st.modes|
  {
    var starts := w.grammar(st.modes[d].mode).starts;
    && r.status == Running
    && r.modes == st.modes[..d] + (if starts.None? then [] else [Active(starts.value, true)])
    && r.index == y.index + if w.grammar(st.modes[|st.modes| - 1].mode).returnEnd then 0 else y.length
  }

  lemma BeginMatchMoves(w: World, st: Lexing, y: Match, c: nat)
    requires st.status == Running && st.modes != [] && y.index + y.length <= |w.text|
    ensures var r := BeginMatch(w, Reached(w, st, y), y, c);
            BeginMoves(w, st, y, c, r) && r.last == Some(y) && r.steps == st.steps + 1
  {
    hide BeginSink, Start, Sink.Text;
  }

  lemma EndMatchMoves(w: World, st: Lexing, y: Match, d: nat)
    requires st.status == Running && d < |st.modes| && y.index + y.length <= |w.text|
    ensures var r := EndMatch(w, Reached(w, st, y), y, d);
            EndMoves(w, st, y, d, r) && r.last == Some(y) && r.steps == st.steps + 1
  {
    hide EndSink, LeaveSink, Sink.Text, NextRegexIndex;
  }

  lemma ConsumeMoves(w: World, st: Lexing, y: Match)
    requires st.status == Running && st.modes != [] && y.index + y.length <= |w.text|
    ensures var r := Consume(w, Reached(w, st, y), y);
            PassedBy(st, y, r) && r.last == Some(y) && r.steps == st.steps + 1
  {
    hide Sink.Text, NextRegexIndex;
  }

  /** Where an iteration leads: told from the match it works on and the mode an end match closes. */
  lemma IterateMoves(w: World, st: Lexing)
    requires st.status == Running && st.modes != []
    ensures var r, look := Iterate(w, st), Look(w, st);
            && r.steps == st.steps + 1
            && (look.None? ==> r.status == Finished && r.modes == st.modes)
            && (look.Some? ==>
                  var y, last := look.value, st.last;
                  if last.Some? && last.value.kind.Begin? && y.kind == End && last.value.index == y.index
                     && y.length == 0
                  then r.status == Running && r.modes == st.modes && r.index == y.index + 1 && r.last == last
                  else
                    && r.last == look
                    && match y.kind
                       case Begin(c) => BeginMoves(w, st, y, c, r)
                       case Illegal =>
                         if w.ignoreIllegals then PassedBy(st, y, r)
                         else r.status == IllegalLexeme && r.modes == st.modes
                       case End =>
                         match EndOfMode(w, st.modes, |st.modes| - 1, st.steps + 1, y.index)
                         case NoEnd => PassedBy(st, y, r)
                         case Broken => r.status == Failed && r.modes == st.modes
                         case Ends(d) => EndMoves(w, st, y, d, r))
  {
    hide Look, EndOfMode, BeginMatch, EndMatch, Consume, Sink.Text, Flush, CloseAll, BeginMoves, EndMoves, PassedBy,
         NextRegexIndex, Substring;
    var look := Look(w, st);
    if look.Some? {
      var y := look.value;
      var l := Reached(w, st, y);
      ConsumeMoves(w, st, y);
      match y.kind
      case Begin(c) => BeginMatchMoves(w, st, y, c);
      case Illegal =>
      case End =>
        var e := EndOfMode(w, st.modes, |st.modes| - 1, st.steps + 1, y.index);
        if e.Ends? {
          EndMatchMoves(w, st, y, e.depth);
        }
    }
  }

  /** A run that has left every mode fails in its next iteration. */
  lemma NoModeFails(w: World, st: Lexing)
    requires st.modes == []
    ensures Iterate(w, st).status == Failed && Iterate(w, st).sink == st.sink
  {
  }

  /** A word is taken exactly if it is not empty and lies in the rest of the buffer. */
  lemma WordsAre(w: World, m: nat, k: string, n: nat, x: Word)
    ensures w.NextWord(m, k, n) == Some(x) <==>
              w.oracle.word(m, k, n) == Some(x) && n <= x.start < x.end <= |k|
  {
  }
}
