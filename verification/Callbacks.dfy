/** jQuery's callback lists as a state machine. A list never fires inside itself: while one of its
    callbacks runs, every operation on it returns at once, so a run is a sequence of operations in
    which `Return` ends the running callback and the others happen inside or outside one. */
module Callbacks {
  import opened Optional

  datatype Flags = Flags(once: bool, memory: bool, unique: bool, stopOnFalse: bool)

  const ONCE_MEMORY := Flags(true, true, false, false)
  const MEMORY := Flags(false, true, false, false)

  /** list: absent once disabled; queue: arguments still to fire; index: position of the running
      callback; memory: arguments of the current or last firing; log: every call ever made. */
  datatype Cb<F, A> = Cb(
    flags: Flags, list: Option<seq<F>>, queue: seq<A>, index: int, memory: Option<A>,
    fired: bool, locked: bool, firing: bool, log: seq<(F, A)>)

  datatype Op<F, A> =
    Add(fs: seq<F>) | Remove(fs: seq<F>) | Fire(args: A) | Empty | Disable | Lock | Return(wasFalse: bool)

  function Fresh<F, A>(flags: Flags): Cb<F, A> {
    Cb(flags, Some([]), [], -1, None, false, false, false, [])
  }

  function Items<F, A>(c: Cb<F, A>): seq<F> {
    if c.list.Some? then c.list.value else []
  }

  // ---------------------------------------------------------------- the firing loop

  /** The inner loop: the next callback is called, or the next arguments are taken. */
  function Inner<F, A>(c: Cb<F, A>): Cb<F, A>
    decreases |c.queue|, 1
  {
    var l := c.index + 1;
    if 0 <= l < |Items(c)| && c.memory.Some? then c.(index := l, log := c.log + [(Items(c)[l], c.memory.value)])
    else NextItem(c.(index := -1))
  }

  function NextItem<F, A>(c: Cb<F, A>): Cb<F, A>
    decreases |c.queue|, 0
  {
    if c.queue == [] then Finish(c) else Inner(c.(memory := Some(c.queue[0]), queue := c.queue[1..]))
  }

  /** Firing is over: without the memory flag the arguments are forgotten, and a locked list is
      emptied if it remembers arguments and disabled otherwise. */
  function Finish<F, A>(c: Cb<F, A>): Cb<F, A> {
    var memory := if c.flags.memory then c.memory else None;
    c.(memory := memory, firing := false,
       list := if c.locked then (if memory.Some? then Some([]) else None) else c.list)
  }

  function Start<F, A>(c: Cb<F, A>): Cb<F, A> {
    NextItem(c.(locked := c.locked || c.flags.once, fired := true, firing := true))
  }

  // ---------------------------------------------------------------- operations

  function Append<F(==)>(s: seq<F>, fs: seq<F>, unique: bool): seq<F>
    decreases |fs|
  {
    if fs == [] then s
    else Append(if unique && fs[0] in s then s else s + [fs[0]], fs[1..], unique)
  }

  function AddTo<F(==), A>(c: Cb<F, A>, fs: seq<F>): Cb<F, A> {
    if c.list.None? then c
    else
      var refire := c.memory.Some? && !c.firing;
      var d := if refire then c.(index := |c.list.value| - 1, queue := c.queue + [c.memory.value]) else c;
      var e := d.(list := Some(Append(d.list.value, fs, c.flags.unique)));
      if refire then Start(e) else e
  }

  function Without<F(==)>(s: seq<F>, f: F): seq<F> {
    if s == [] then [] else Without(s[..|s| - 1], f) + if s[|s| - 1] == f then [] else [s[|s| - 1]]
  }

  /** Removing a callback drops all its occurrences; the position of the running callback moves
      back by those at or before it. */
  function RemoveOne<F(==), A>(c: Cb<F, A>, f: F): Cb<F, A> {
    if c.list.None? then c
    else
      var s := c.list.value;
      var upto := if c.index < -1 then 0 else if c.index + 1 < |s| then c.index + 1 else |s|;
      c.(list := Some(Without(s, f)), index := c.index - (upto - |Without(s[..upto], f)|))
  }

  function RemoveFrom<F(==), A>(c: Cb<F, A>, fs: seq<F>): Cb<F, A>
    decreases |fs|
  {
    if fs == [] then c else RemoveFrom(RemoveOne(c, fs[0]), fs[1..])
  }

  function FireWith<F, A>(c: Cb<F, A>, args: A): Cb<F, A> {
    if c.locked then c
    else
      var d := c.(queue := c.queue + [args]);
      if d.firing then d else Start(d)
  }

  function EmptyIt<F, A>(c: Cb<F, A>): Cb<F, A> {
    if c.list.Some? then c.(list := Some([])) else c
  }

  function DisableIt<F, A>(c: Cb<F, A>): Cb<F, A> {
    c.(locked := true, queue := [], list := None, memory := None)
  }

  function LockIt<F, A>(c: Cb<F, A>): Cb<F, A> {
    var d := c.(locked := true, queue := []);
    if c.memory.Some? || c.firing then d else d.(list := None, memory := None)
  }

  /** The running callback has returned; a false result may end the firing of these arguments. */
  function ReturnFrom<F, A>(c: Cb<F, A>, wasFalse: bool): Cb<F, A> {
    if wasFalse && c.flags.stopOnFalse then Inner(c.(index := |Items(c)|, memory := None)) else Inner(c)
  }

  function Step<F(==), A>(c: Cb<F, A>, op: Op<F, A>): Cb<F, A> {
    match op
    case Add(fs) => AddTo(c, fs)
    case Remove(fs) => RemoveFrom(c, fs)
    case Fire(args) => FireWith(c, args)
    case Empty => EmptyIt(c)
    case Disable => DisableIt(c)
    case Lock => LockIt(c)
    case Return(wasFalse) => if c.firing then ReturnFrom(c, wasFalse) else c
  }

  function Run<F(==), A>(c: Cb<F, A>, ops: seq<Op<F, A>>): Cb<F, A> {
    if ops == [] then c else Step(Run(c, ops[..|ops| - 1]), ops[|ops| - 1])
  }

  // ---------------------------------------------------------------- the index repair

  lemma {:induction false} WithoutAppend<F>(a: seq<F>, b: seq<F>, f: F)
    ensures Without(a + b, f) == Without(a, f) + Without(b, f)
  {
    if b == [] {
      assert a + b == a;
    } else {
      var n := |b| - 1;
      assert (a + b)[..|a + b| - 1] == a + b[..n];
      WithoutAppend(a, b[..n], f);
    }
  }

  function WithoutAll<F(==)>(s: seq<F>, fs: seq<F>): seq<F>
    decreases |fs|
  {
    if fs == [] then s else WithoutAll(Without(s, fs[0]), fs[1..])
  }

  /** The callbacks that the current firing has not reached yet. */
  function Ahead<F, A>(c: Cb<F, A>): seq<F> {
    if -1 <= c.index < |Items(c)| then Items(c)[c.index + 1..] else []
  }

  function Behind<F, A>(c: Cb<F, A>): seq<F> {
    if -1 <= c.index < |Items(c)| then Items(c)[..c.index + 1] else Items(c)
  }

  lemma WithoutLength<F>(s: seq<F>, f: F)
    ensures |Without(s, f)| <= |s|
  {
  }

  /** Whatever a callback removes during a firing, the callbacks already called stay behind the
      index and those not yet called stay ahead of it, in their order, minus the removed ones. */
  lemma RemoveOneSplits<F, A>(c: Cb<F, A>, f: F)
    requires c.list.Some? && -1 <= c.index < |c.list.value|
    ensures var d := RemoveOne(c, f);
            && d.list.Some? && -1 <= d.index && d.index < |d.list.value|
            && Behind(d) == Without(Behind(c), f)
            && Ahead(d) == Without(Ahead(c), f)
            && d == c.(list := d.list, index := d.index)
  {
    var s, n := c.list.value, c.index + 1;
    assert s == s[..n] + s[n..];
    WithoutAppend(s[..n], s[n..], f);
    WithoutLength(s[..n], f);
  }

  lemma {:induction false} RemoveSplits<F, A>(c: Cb<F, A>, fs: seq<F>)
    requires c.list.Some? && -1 <= c.index < |c.list.value|
    ensures var d := RemoveFrom(c, fs);
            && d.list.Some? && -1 <= d.index < |d.list.value|
            && Behind(d) == WithoutAll(Behind(c), fs)
            && Ahead(d) == WithoutAll(Ahead(c), fs)
            && d == c.(list := d.list, index := d.index)
    decreases |fs|
  {
    hide RemoveOne, Behind, Ahead;
    if fs != [] {
      RemoveOneSplits(c, fs[0]);
      RemoveSplits(RemoveOne(c, fs[0]), fs[1..]);
    }
  }

  // ---------------------------------------------------------------- lists that fire once and remember

  /** Not fired yet. */
  ghost predicate Waiting<F, A>(c: Cb<F, A>) {
    !c.fired && !c.firing && !c.locked && c.memory.None? && c.queue == [] && c.log == [] && c.index == -1
        && c.list.Some?
  }

  /** Firing: a callback is running. */
  ghost predicate Firing<F, A>(c: Cb<F, A>) {
    c.fired && c.firing && c.locked && c.memory.Some? && c.queue == [] && c.list.Some? && -1 <= c.index < |c.list.value|
  }

  /** Fired, and no callback running. */
  ghost predicate Rested<F, A>(c: Cb<F, A>) {
    c.fired && !c.firing && c.locked && c.memory.Some? && c.queue == [] && c.list == Some([]) && c.index == -1
  }

  ghost predicate OnceMemory<F, A>(c: Cb<F, A>) {
    && c.flags == ONCE_MEMORY
    && (Waiting(c) || Firing(c) || Rested(c))
    && forall k :: 0 <= k < |c.log| ==> Some(c.log[k].1) == c.memory
  }

  function Names<F, A>(log: seq<(F, A)>): seq<F> {
    seq(|log|, k requires 0 <= k < |log| => log[k].0)
  }

  /** The calls that are certain to come, in order. */
  function Pending<F, A>(c: Cb<F, A>): seq<F> {
    if c.firing then Ahead(c) else if c.fired then [] else Items(c)
  }

  /** Every call made and every call to come. */
  function Plan<F, A>(c: Cb<F, A>): seq<F> {
    Names(c.log) + Pending(c)
  }

  /** Operations that do not throw callbacks away: no disabling, no emptying but of a list that has called
      them all, no lock before the fire. */
  ghost predicate Allowed<F, A>(c: Cb<F, A>, op: Op<F, A>) {
    !op.Disable? && (op.Empty? ==> Rested(c)) && (op.Lock? ==> c.fired)
  }

  lemma {:induction false} AppendAll<F>(s: seq<F>, fs: seq<F>)
    ensures Append(s, fs, false) == s + fs
    decreases |fs|
  {
    if fs == [] {
      assert s + fs == s;
    } else {
      AppendAll(s + [fs[0]], fs[1..]);
      assert s + [fs[0]] + fs[1..] == s + fs;
    }
  }

  /** The firing loop moves one callback from the plan into the log, or comes to rest. */
  lemma InnerStep<F, A>(c: Cb<F, A>)
    requires Firing(c) && c.flags == ONCE_MEMORY
    requires forall k :: 0 <= k < |c.log| ==> Some(c.log[k].1) == c.memory
    ensures OnceMemory(Inner(c)) && Plan(Inner(c)) == Plan(c)
    ensures Inner(c).fired && Inner(c).memory == c.memory
  {
    var l := c.index + 1;
    if l < |c.list.value| {
      var call := (c.list.value[l], c.memory.value);
      assert Names(c.log + [call]) == Names(c.log) + [call.0];
      assert Ahead(c) == [call.0] + c.list.value[l + 1..];
      assert Names(c.log) + [call.0] + c.list.value[l + 1..] == Names(c.log) + ([call.0] + c.list.value[l + 1..]);
    } else {
      assert Inner(c) == Finish(c.(index := -1));
      assert Ahead(c) == [];
    }
  }

  lemma StartStep<F, A>(c: Cb<F, A>, args: A, list: seq<F>, from: int)
    requires c.flags == ONCE_MEMORY && c.queue == [args] && c.list == Some(list) && c.index == from
        && -1 <= from < |list|
    requires forall k :: 0 <= k < |c.log| ==> c.log[k].1 == args
    ensures OnceMemory(Start(c)) && Plan(Start(c)) == Names(c.log) + list[from + 1..]
    ensures Start(c).fired && Start(c).memory == Some(args)
  {
    var d := c.(locked := true, fired := true, firing := true, memory := Some(args), queue := []);
    assert c.queue[1..] == [];
    assert Start(c) == Inner(d);
    InnerStep(d);
  }

  /** Adding to a list at rest fires the added callbacks with the remembered arguments. */
  lemma AddAtRest<F, A>(c: Cb<F, A>, fs: seq<F>)
    requires Rested(c) && c.flags == ONCE_MEMORY
    ensures AddTo(c, fs) == Inner(c.(list := Some(fs), firing := true))
  {
    hide Inner, Append;
    AppendAll(c.list.value, fs);
    assert c.list.value + fs == fs;
    var queue := c.queue + [c.memory.value];
    assert queue == [c.memory.value] && queue[1..] == [];
  }

  lemma AddStep<F, A>(c: Cb<F, A>, fs: seq<F>)
    requires OnceMemory(c)
    ensures var d := AddTo(c, fs);
            OnceMemory(d) && Plan(d) == Plan(c) + fs && d.fired == c.fired && d.memory == c.memory
  {
    hide Inner, Start;
    var s := c.list.value;
    AppendAll(s, fs);
    if Rested(c) {
      AddAtRest(c, fs);
      InnerStep(c.(list := Some(fs), firing := true));
      assert fs[0..] == fs && Plan(c) == Names(c.log);
    } else {
      assert Names(c.log) + Pending(c) + fs == Names(c.log) + (Pending(c) + fs);
      if c.firing {
        assert (s + fs)[c.index + 1..] == s[c.index + 1..] + fs;
      }
    }
  }

  lemma RemoveStep<F, A>(c: Cb<F, A>, fs: seq<F>)
    requires OnceMemory(c)
    ensures var d := RemoveFrom(c, fs);
            && OnceMemory(d) && Plan(d) == Names(c.log) + WithoutAll(Pending(c), fs)
            && d.fired == c.fired && d.memory == c.memory
  {
    hide RemoveFrom, Names;
    RemoveSplits(c, fs);
    if !c.firing {
      assert Behind(c) == [] && Ahead(c) == Items(c);
      WithoutNothing(fs);
    }
  }

  lemma FireStep<F, A>(c: Cb<F, A>, args: A)
    requires OnceMemory(c)
    ensures var d := FireWith(c, args);
            && OnceMemory(d) && Plan(d) == Plan(c) && d.fired
            && d.memory == if c.fired then c.memory else Some(args)
  {
    hide Start;
    if !c.fired {
      assert c.queue + [args] == [args];
      assert c.list.value[0..] == c.list.value;
      StartStep(c.(queue := [args]), args, c.list.value, -1);
    }
  }

  /** Every operation changes the plan by exactly what it says: adding appends, removing drops
      only calls that were still to come, and nothing else changes it. The arguments are fixed by
      the first fire. */
  lemma OnceMemoryStep<F, A>(c: Cb<F, A>, op: Op<F, A>)
    requires OnceMemory(c) && Allowed(c, op)
    ensures var d := Step(c, op);
            && OnceMemory(d)
            && Plan(d) == (match op
                           case Add(fs) => Plan(c) + fs
                           case Remove(fs) => Names(c.log) + WithoutAll(Pending(c), fs)
                           case _ => Plan(c))
            && d.fired == (c.fired || op.Fire?)
            && d.memory == (if !c.fired && op.Fire? then Some(op.args) else c.memory)
  {
    hide Inner, Plan, AddTo, RemoveFrom, FireWith;
    match op
    case Add(fs) => AddStep(c, fs);
    case Remove(fs) => RemoveStep(c, fs);
    case Fire(args) => FireStep(c, args);
    case Empty => assert EmptyIt(c) == c;
    case Disable =>
    case Lock => assert LockIt(c) == c;
    case Return(wasFalse) =>
      if c.firing {
        InnerStep(c);
      }
  }

  /** Emptying a list inside a running callback does not move the index back, so the first of the
      callbacks added afterwards are skipped: all of them are called only if the index is still
      before the first position. */
  lemma EmptyingSkipsLaterAdditions<F, A>(c: Cb<F, A>, fs: seq<F>)
    requires OnceMemory(c) && Firing(c) && fs != []
    ensures var d := AddTo(EmptyIt(c), fs);
            && d.firing && Items(d) == fs
            && Ahead(d) == (if c.index < |fs| then fs[c.index + 1..] else [])
            && (Ahead(d) == fs <==> c.index == -1)
  {
    AppendAll([], fs);
    assert [] + fs == fs;
    if c.index < |fs| {
      assert |fs[c.index + 1..]| == |fs| - c.index - 1;
    }
  }

  /** A list whose only callback empties it and adds another one: that one is never called. */
  lemma EmptiedListForgets()
    ensures var c := Run(Fresh<nat, nat>(ONCE_MEMORY), [Add([1]), Fire(0), Empty, Add([2]), Return(false)]);
            !c.firing && c.log == [(1, 0)]
  {
    var c0 := Fresh<nat, nat>(ONCE_MEMORY);
    var c1 := Step(c0, Add([1]));
    var c2 := Step(c1, Fire(0));
    var c3 := Step(Step(c2, Empty), Add([2]));
    AppendAll<nat>([], [1]);
    AppendAll<nat>([], [2]);
    assert [] + [1] == [1] && [] + [2] == [2];
    assert c1 == c0.(list := Some([1]));
    var q: seq<nat> := [0];
    assert c1.queue + q == q && q[1..] == [];
    var d := c1.(queue := q, locked := true, fired := true, firing := true);
    assert c2 == NextItem(d) == Inner(d.(memory := Some(0), queue := []));
    assert c2.firing && c2.index == 0 && c2.log == [(1, 0)] && c2.queue == [];
    assert c3 == c2.(list := Some([2]));
    assert Step(c3, Return(false)) == Finish(c3.(index := -1));
    var none: seq<Op<nat, nat>> := [];
    var one := none + [Add([1])];
    var two := one + [Fire(0)];
    var three := two + [Empty];
    var four := three + [Add([2])];
    RunsOn(c0, none, Add([1]));
    RunsOn(c0, one, Fire(0));
    RunsOn(c0, two, Empty);
    RunsOn(c0, three, Add([2]));
    RunsOn(c0, four, Return(false));
    assert four + [Return(false)] == [Add([1]), Fire(0), Empty, Add([2]), Return(false)];
  }

  lemma RunsOn<F, A>(c: Cb<F, A>, ops: seq<Op<F, A>>, op: Op<F, A>)
    ensures Run(c, ops + [op]) == Step(Run(c, ops), op)
  {
    assert (ops + [op])[..|ops|] == ops;
  }

  /** Disabled: no callbacks, no arguments, locked. A callback may still be running. */
  ghost predicate Disabled<F, A>(c: Cb<F, A>) {
    c.list.None? && c.locked && c.queue == [] && c.memory.None?
  }

  lemma DisabledStep<F, A>(c: Cb<F, A>, op: Op<F, A>)
    requires Disabled(c)
    ensures Disabled(Step(c, op)) && Step(c, op).log == c.log
  {
    match op
    case Remove(fs) => RemoveFromDisabled(c, fs);
    case Return(wasFalse) =>
      var d := if wasFalse && c.flags.stopOnFalse then c.(index := |Items(c)|, memory := None) else c;
      assert Inner(d) == NextItem(d.(index := -1));
    case _ =>
  }

  lemma {:induction false} RemoveFromDisabled<F, A>(c: Cb<F, A>, fs: seq<F>)
    requires Disabled(c)
    ensures RemoveFrom(c, fs) == c
    decreases |fs|
  {
    if fs != [] {
      RemoveFromDisabled(c, fs[1..]);
    }
  }

  /** After disabling, before or after the fire or inside a running callback, no callback is called any more,
      neither those that were still to come nor any that is added, whatever is done to the list. */
  lemma {:induction false} DisablingIsFinal<F, A>(c: Cb<F, A>, ops: seq<Op<F, A>>)
    ensures Disabled(Run(DisableIt(c), ops)) && Run(DisableIt(c), ops).log == c.log
  {
    hide Step;
    if ops != [] {
      DisablingIsFinal(c, ops[..|ops| - 1]);
      DisabledStep(Run(DisableIt(c), ops[..|ops| - 1]), ops[|ops| - 1]);
    }
  }

  lemma {:induction false} WithoutNothing<F>(fs: seq<F>)
    ensures WithoutAll([], fs) == []
    decreases |fs|
  {
    if fs != [] {
      WithoutNothing(fs[1..]);
    }
  }

  // ---------------------------------------------------------------- whole runs

  ghost predicate AllowedRun<F, A>(c: Cb<F, A>, ops: seq<Op<F, A>>) {
    ops == [] || (AllowedRun(c, ops[..|ops| - 1]) && Allowed(Run(c, ops[..|ops| - 1]), ops[|ops| - 1]))
  }

  function Added<F, A>(ops: seq<Op<F, A>>): seq<F> {
    if ops == [] then []
    else Added(ops[..|ops| - 1]) + if ops[|ops| - 1].Add? then ops[|ops| - 1].fs else []
  }

  ghost predicate NeverRemoved<F, A>(ops: seq<Op<F, A>>, f: F) {
    forall k :: 0 <= k < |ops| && ops[k].Remove? ==> f !in ops[k].fs
  }

  function FirstFire<F, A>(ops: seq<Op<F, A>>): Option<A> {
    if ops == [] then None
    else if ops[0].Fire? then Some(ops[0].args)
    else FirstFire(ops[1..])
  }

  lemma {:induction false} FirstFireSnoc<F, A>(ops: seq<Op<F, A>>, op: Op<F, A>)
    ensures FirstFire(ops + [op])
         == if FirstFire(ops).Some? then FirstFire(ops) else if op.Fire? then Some(op.args) else None
  {
    if ops == [] {
      assert ops + [op] == [op];
      assert FirstFire<F, A>([op][1..]) == None;
    } else {
      assert (ops + [op])[1..] == ops[1..] + [op];
      FirstFireSnoc(ops[1..], op);
    }
  }

  lemma {:induction false} WithoutCounts<F>(s: seq<F>, x: F, f: F)
    requires f != x
    ensures multiset(Without(s, x))[f] == multiset(s)[f]
  {
    if s != [] {
      var n := |s| - 1;
      WithoutCounts(s[..n], x, f);
      assert s == s[..n] + [s[n]];
    }
  }

  lemma {:induction false} WithoutAllCounts<F>(s: seq<F>, fs: seq<F>, f: F)
    requires f !in fs
    ensures multiset(WithoutAll(s, fs))[f] == multiset(s)[f]
    decreases |fs|
  {
    if fs != [] {
      WithoutCounts(s, fs[0], f);
      WithoutAllCounts(Without(s, fs[0]), fs[1..], f);
    }
  }

  /** However operations interleave with running callbacks, on a list that fires once and remembers:
      a callback never removed is called or still to be called exactly as often as it was added,
      every call receives the first fire's arguments, and once the firing has come to rest no call
      is outstanding. */
  lemma {:induction false} CalledAsOftenAsAdded<F, A>(ops: seq<Op<F, A>>, f: F)
    requires AllowedRun(Fresh<F, A>(ONCE_MEMORY), ops) && NeverRemoved(ops, f)
    ensures var c := Run(Fresh<F, A>(ONCE_MEMORY), ops);
            && OnceMemory(c)
            && multiset(Plan(c))[f] == multiset(Added(ops))[f]
            && c.memory == FirstFire(ops) && c.fired == FirstFire(ops).Some?
            && (forall k :: 0 <= k < |c.log| ==> Some(c.log[k].1) == FirstFire(ops))
            && (c.fired && !c.firing ==> multiset(Names(c.log))[f] == multiset(Added(ops))[f])
  {
    hide Step, Allowed, Plan, Pending, Names;
    if ops == [] {
      PlanOfFresh<F, A>();
    } else {
      var n := |ops| - 1;
      var c := Run(Fresh<F, A>(ONCE_MEMORY), ops[..n]);
      CalledAsOftenAsAdded(ops[..n], f);
      OnceMemoryStep(c, ops[n]);
      assert ops[..n] + [ops[n]] == ops;
      FirstFireSnoc(ops[..n], ops[n]);
      PlanSplits(c);
      if ops[n].Remove? {
        WithoutAllCounts(Pending(c), ops[n].fs, f);
      }
      PlanSplits(Run(Fresh<F, A>(ONCE_MEMORY), ops));
    }
  }

  lemma PlanOfFresh<F, A>()
    ensures OnceMemory(Fresh<F, A>(ONCE_MEMORY)) && Plan(Fresh<F, A>(ONCE_MEMORY)) == []
  {
  }

  lemma PlanSplits<F, A>(c: Cb<F, A>)
    ensures Plan(c) == Names(c.log) + Pending(c)
    ensures c.fired && !c.firing ==> Plan(c) == Names(c.log)
  {
  }

  /** Without removals the calls come in the order in which the callbacks were added. */
  lemma {:induction false} CalledInOrderOfAddition<F, A>(ops: seq<Op<F, A>>)
    requires AllowedRun(Fresh<F, A>(ONCE_MEMORY), ops)
    requires forall k :: 0 <= k < |ops| ==> !ops[k].Remove?
    ensures var c := Run(Fresh<F, A>(ONCE_MEMORY), ops);
            && OnceMemory(c) && Plan(c) == Added(ops)
            && (c.fired && !c.firing ==> Names(c.log) == Added(ops))
  {
    hide Step, Allowed, Plan, Pending, Names;
    if ops == [] {
      PlanOfFresh<F, A>();
    } else {
      var n := |ops| - 1;
      var c := Run(Fresh<F, A>(ONCE_MEMORY), ops[..n]);
      CalledInOrderOfAddition(ops[..n]);
      OnceMemoryStep(c, ops[n]);
      assert Added(ops[..n]) + [] == Added(ops[..n]);
      PlanSplits(Run(Fresh<F, A>(ONCE_MEMORY), ops));
    }
  }
}
