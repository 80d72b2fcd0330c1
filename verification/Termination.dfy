/** When the lexeme loop ends. Its own guard against endless loops counts iterations only where a match
    neither begins nor ends a mode, so whether a run ends depends on the grammar. */
module Termination {
  import opened Html
  import opened Optional
  import opened TokenTree
  import opened Lexer

  // ---------------------------------------------------------------- a run that never ends

  /** A mode that is begun without moving on, and may be begun inside itself. */
  function EndlessWorld(): World {
    var mode := Mode("", Plain, [1], false, false, None, false, false, true, false, false, false, false, false);
    World((m: nat) => mode,
          Oracle((m: nat, r: nat, i: nat) => Some(1), (step: nat, m: nat, i: nat) => false, (step: nat) => 0,
                 (m: nat, k: string, n: nat) => None, (m: nat, k: string, n: nat) => None),
          "a", false)
  }

  ghost predicate Stuck(st: Lexing) {
    st.status == Running && st.modes != [] && st.index == 0 && !st.resume
  }

  lemma StuckStays(st: Lexing)
    requires Stuck(st)
    ensures Stuck(Iterate(EndlessWorld(), st))
  {
    hide Flush, BeginSink, Start, Sink.Text;
    var w := EndlessWorld();
    var m := Top(st);
    assert Rules(w.grammar(m)) == [Begin(1)];
    assert w.MatchAt(m, 0, 0) == Some(1);
    assert RuleAt(w, m, 1, 0, 0) == Some(0);
    assert Scan(w, m, 1, 0, 0, 1) == Some(0);
    assert Look(w, st) == Some(Match(0, 1, Begin(1)));
  }

  /** It opens one mode after the other and is still running after any number of iterations. */
  lemma {:induction false} EndlessRun(st: Lexing, n: nat)
    requires Stuck(st)
    ensures Run(EndlessWorld(), st, n).status == Running
    decreases n
  {
    hide Iterate;
    if n > 0 {
      StuckStays(st);
      EndlessRun(Iterate(EndlessWorld(), st), n - 1);
    }
  }

  lemma EndlessFromTheStart(n: nat)
    ensures Run(EndlessWorld(), Initial(EndlessWorld(), [Active(0, false)]), n).status == Running
  {
    EndlessRun(Initial(EndlessWorld(), [Active(0, false)]), n);
  }

  // ---------------------------------------------------------------- grammars whose runs end

  /** rank: decreases from a mode to every mode that can begin in it without moving on, and such a mode does
      not give its end back; weight: decreases from a mode to its successor. A mode that gives its end back
      has no keyword rules. */
  ghost predicate Grounded(w: World, rank: nat -> nat, weight: nat -> nat) {
    && (forall m: nat, r: nat, i: nat :: r < |Rules(w.grammar(m))| && Rules(w.grammar(m))[r].Begin? ==>
          StillBegin(w, m, r, i) ==>
            var c := Rules(w.grammar(m))[r].mode;
            rank(c) < rank(m) && !w.grammar(c).returnEnd)
    && (forall m: nat, r: nat :: r < |Rules(w.grammar(m))| && Rules(w.grammar(m))[r].Begin? ==>
          w.grammar(m).returnEnd ==> !w.grammar(Rules(w.grammar(m))[r].mode).keywordGuard)
    && (forall m: nat :: 1 <= weight(m) &&
          (w.grammar(m).starts.Some? ==> weight(w.grammar(m).starts.value) < weight(m)))
  }

  /** Whether a rule may begin its mode at a position without moving on. */
  predicate StillBegin(w: World, m: nat, r: nat, i: nat)
    requires r < |Rules(w.grammar(m))| && Rules(w.grammar(m))[r].Begin?
  {
    w.MatchAt(m, r, i).Some? && (w.grammar(Rules(w.grammar(m))[r].mode).returnBegin || w.MatchAt(m, r, i) == Some(0))
  }

  function Weight(modes: seq<Active>, weight: nat -> nat): nat {
    if modes == [] then 0 else Weight(modes[..|modes| - 1], weight) + weight(modes[|modes| - 1].mode)
  }

  /** A mode has just begun at the cursor, or a keyword rule has been passed over there. */
  predicate Began(st: Lexing) {
    st.last.Some? && st.last.value.kind.Begin? && st.last.value.index == st.index
  }

  /** Where a mode has just begun at the cursor, it does not give its end back. */
  predicate Lawful(w: World, st: Lexing) {
    && (Began(st) && st.modes != [] ==> !w.grammar(Top(st)).returnEnd)
    && (st.resume ==> Began(st))
  }

  /** What is left to do: first the rest of the text, */
  function Rest(w: World, st: Lexing): nat {
    if st.index <= |w.text| then |w.text| + 1 - st.index else 0
  }

  /** then whether modes may still end at the cursor, */
  function Phase(st: Lexing): nat {
    if Began(st) then 0 else 1
  }

  /** then the modes that may still begin there, or else those that may still end, */
  function Depth(st: Lexing, rank: nat -> nat, weight: nat -> nat): nat {
    if !Began(st) then Weight(st.modes, weight) else if st.modes == [] then 0 else rank(Top(st))
  }

  /** and last the rules a resumed scan still considers, or the iterations that the guard still allows. */
  function Patience(w: World, st: Lexing): nat {
    if !Began(st) then (var bound := 100002 + 3 * st.index; if st.steps <= bound then bound - st.steps else 0)
    else if st.modes == [] then 0
    else
      var count := |Rules(w.grammar(Top(st)))|;
      if !st.resume then count + 2 else if st.regexIndex <= count then count + 1 - st.regexIndex else 0
  }

  ghost predicate Less(w: World, a: Lexing, b: Lexing, rank: nat -> nat, weight: nat -> nat) {
    || Rest(w, a) < Rest(w, b)
    || (Rest(w, a) == Rest(w, b)
        && (Phase(a) < Phase(b)
            || (Phase(a) == Phase(b)
                && (Depth(a, rank, weight) < Depth(b, rank, weight)
                    || (Depth(a, rank, weight) == Depth(b, rank, weight) && Patience(w, a) < Patience(w, b))))))
  }

  /** The rule behind the match an iteration works on. */
  lemma LookRule(w: World, st: Lexing, y: Match) returns (r: nat)
    requires Look(w, st) == Some(y)
    ensures st.modes != [] && Aim(st).regexIndex <= r < |Rules(w.grammar(Top(st)))|
    ensures Rules(w.grammar(Top(st)))[r] == y.kind && w.MatchAt(Top(st), r, y.index) == Some(y.length)
  {
    var a, m := Aim(st), Top(st);
    r := RuleAt(w, m, |Rules(w.grammar(m))|, a.regexIndex, y.index).value;
  }

  lemma MovesOn(w: World, st: Lexing, r: Lexing, rank: nat -> nat, weight: nat -> nat)
    requires st.index <= |w.text| && st.index < r.index
    ensures Less(w, r, st, rank, weight)
  {
    hide Depth, Patience, Phase;
  }

  /** An iteration ends the run, or leaves less to do. */
  ghost predicate Progress(w: World, st: Lexing, r: Lexing, rank: nat -> nat, weight: nat -> nat) {
    r.status == Running ==> Lawful(w, r) && Less(w, r, st, rank, weight)
  }

  lemma BeginProgresses(w: World, st: Lexing, y: Match, c: nat, rank: nat -> nat, weight: nat -> nat)
    requires Grounded(w, rank, weight) && Inv(w, st) && Lawful(w, st) && st.status == Running
    requires Look(w, st) == Some(y) && y.kind == Begin(c) && st.index <= y.index
    ensures Progress(w, st, BeginMatch(w, Reached(w, st, y), y, c), rank, weight)
  {
    hide Inv, BeginSink, Start, Look, Weight, Sink.Text, Dotted, Rules;
    var r := BeginMatch(w, Reached(w, st, y), y, c);
    var k := LookRule(w, st, y);
    if r.resume {
      assert w.grammar(c).keywordGuard && !w.grammar(Top(st)).returnEnd;
    } else if Began(r) {
      assert StillBegin(w, Top(st), k, y.index);
    }
    if st.index < r.index {
      MovesOn(w, st, r, rank, weight);
    }
  }

  lemma {:induction false} WeightSplits(modes: seq<Active>, d: nat, weight: nat -> nat)
    requires d < |modes| && forall m: nat :: 1 <= weight(m)
    ensures Weight(modes[..d], weight) + weight(modes[d].mode) <= Weight(modes, weight)
  {
    var n := |modes| - 1;
    if d < n {
      WeightSplits(modes[..n], d, weight);
      assert modes[..n][..d] == modes[..d];
    }
  }

  lemma LeavingWeighsLess(w: World, modes: seq<Active>, d: nat, rank: nat -> nat, weight: nat -> nat)
    requires Grounded(w, rank, weight) && d < |modes|
    ensures Weight(LeaveModes(w, modes, d), weight) < Weight(modes, weight)
  {
    WeightSplits(modes, d, weight);
    var after := LeaveModes(w, modes, d);
    if w.grammar(modes[d].mode).starts.Some? {
      assert after[..d] == modes[..d];
    } else {
      assert after == modes[..d];
    }
  }

  lemma EndProgresses(w: World, st: Lexing, y: Match, d: nat, rank: nat -> nat, weight: nat -> nat)
    requires Grounded(w, rank, weight) && Lawful(w, st) && st.status == Running
    requires Look(w, st) == Some(y) && y.kind == End && st.index <= y.index && d < |st.modes|
    requires !ZeroWidthPair(st.last, y)
    ensures Progress(w, st, EndMatch(w, Reached(w, st, y), y, d), rank, weight)
  {
    hide Grounded, EndSink, LeaveSink, LeaveModes, Look, Weight, Sink.Text;
    var r := EndMatch(w, Reached(w, st, y), y, d);
    LeavingWeighsLess(w, st.modes, d, rank, weight);
    if st.index < r.index {
      MovesOn(w, st, r, rank, weight);
    }
  }

  lemma ConsumeProgresses(w: World, st: Lexing, y: Match, rank: nat -> nat, weight: nat -> nat)
    requires Lawful(w, st) && st.status == Running
    requires Look(w, st) == Some(y) && !y.kind.Begin? && st.index <= y.index
    requires !ZeroWidthPair(st.last, y) || y.kind.Illegal?
    ensures Progress(w, st, Consume(w, Reached(w, st, y), y), rank, weight)
  {
    hide Look, Weight, Sink.Text;
    var r := Consume(w, Reached(w, st, y), y);
    if st.index < r.index {
      MovesOn(w, st, r, rank, weight);
    }
  }

  lemma IterateProgresses(w: World, st: Lexing, rank: nat -> nat, weight: nat -> nat)
    requires Grounded(w, rank, weight) && Inv(w, st) && Lawful(w, st) && st.status == Running
    ensures Progress(w, st, Iterate(w, st), rank, weight)
  {
    hide Grounded, Inv, Look, BeginMatch, EndMatch, Consume, Finish, EndOfMode, NextRegexIndex, Sink.Text, Less;
    var look := Look(w, st);
    if look.Some? {
      var y := look.value;
      LookAhead(w, st);
      if ZeroWidthPair(st.last, y) {
        MovesOn(w, st, Iterate(w, st), rank, weight);
      } else {
        match y.kind
        case Begin(c) => BeginProgresses(w, st, y, c, rank, weight);
        case Illegal => ConsumeProgresses(w, st, y, rank, weight);
        case End =>
          var e := EndOfMode(w, st.modes, |st.modes| - 1, st.steps + 1, y.index);
          if e.Ends? {
            EndProgresses(w, st, y, e.depth, rank, weight);
          } else {
            ConsumeProgresses(w, st, y, rank, weight);
          }
      }
    } else {
      FinishStops(w, st);
    }
  }

  lemma FinishStops(w: World, st: Lexing)
    requires Look(w, st).None?
    ensures Iterate(w, st).status != Running
  {
    hide Look, Flush, Sink.Text;
  }

  /** Every run of such a grammar ends, whatever the expressions match. */
  lemma {:induction false} GroundedRunEnds(w: World, st: Lexing, rank: nat -> nat, weight: nat -> nat) returns (n: nat)
    requires Grounded(w, rank, weight) && Inv(w, st) && Lawful(w, st)
    ensures Run(w, st, n).status != Running
    decreases Rest(w, st), Phase(st), Depth(st, rank, weight), Patience(w, st)
  {
    hide Grounded, Inv, Lawful, Iterate, Rest, Phase, Depth, Patience;
    if st.status != Running {
      n := 0;
    } else {
      IterateKeepsInv(w, st);
      IterateProgresses(w, st, rank, weight);
      var next := Iterate(w, st);
      if next.status != Running {
        n := 1;
        assert Run(w, next, 0) == next;
      } else {
        var k := GroundedRunEnds(w, next, rank, weight);
        n := k + 1;
      }
    }
  }

  lemma GroundedHighlightEnds(w: World, modes: seq<Active>, rank: nat -> nat, weight: nat -> nat) returns (n: nat)
    requires Grounded(w, rank, weight) && Chain(modes)
    ensures Run(w, Initial(w, modes), n).status != Running
  {
    InitialInv(w, modes);
    n := GroundedRunEnds(w, Initial(w, modes), rank, weight);
  }

  /** Grammars in which every match that begins a mode moves on are of this kind, if no mode gives its end
      back and none has a successor. */
  lemma MovingIsGrounded(w: World)
    requires forall m: nat :: var mode := w.grammar(m); !mode.returnBegin && !mode.returnEnd && mode.starts.None?
    requires forall m: nat, r: nat, i: nat :: r < |Rules(w.grammar(m))| && Rules(w.grammar(m))[r].Begin? ==>
               w.MatchAt(m, r, i) != Some(0)
    ensures Grounded(w, (m: nat) => 0, (m: nat) => 1)
  {
  }

  /** The endless grammar is not. */
  lemma EndlessIsNotGrounded(rank: nat -> nat, weight: nat -> nat)
    ensures !Grounded(EndlessWorld(), rank, weight)
  {
    var w := EndlessWorld();
    assert Rules(w.grammar(1)) == [Begin(1)];
    assert w.MatchAt(1, 0, 0) == Some(1);
    assert StillBegin(w, 1, 0, 0);
  }
}
