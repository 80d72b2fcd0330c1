/** What callbacks are called with, and how often, on lists of every combination of the once and memory
    flags, over every run of additions, removals, fires and returns, nested in running callbacks or not. */
module CallbackLaws {
  import opened Optional
  import opened Callbacks

  ghost function Count<F>(s: seq<F>, f: F): nat {
    multiset(s)[f]
  }

  /** A number for every occurrence of the arguments. */
  ghost function Times<A>(queue: seq<A>, args: A, n: nat): nat {
    if queue == [] then 0
    else Times(queue[..|queue| - 1], args, n) + if queue[|queue| - 1] == args then n else 0
  }

  lemma {:induction false} TimesSum<A>(queue: seq<A>, args: A, m: nat, n: nat)
    ensures Times(queue, args, m + n) == Times(queue, args, m) + Times(queue, args, n)
    ensures Times(queue, args, 0) == 0
  {
    if queue != [] {
      TimesSum(queue[..|queue| - 1], args, m, n);
    }
  }

  lemma {:induction false} TimesFirst<A>(queue: seq<A>, args: A, n: nat)
    requires queue != []
    ensures Times(queue, args, n) == (if queue[0] == args then n else 0) + Times(queue[1..], args, n)
  {
    var k := |queue| - 1;
    if k > 0 {
      TimesFirst(queue[..k], args, n);
      assert queue[..k][1..] == queue[1..][..k - 1];
    }
  }

  /** Neither of the flags that make a list drop callbacks. */
  predicate Faithful(flags: Flags) {
    !flags.unique && !flags.stopOnFalse
  }

  predicate Covered<F, A>(op: Op<F, A>) {
    op.Add? || op.Remove? || op.Fire? || op.Return?
  }

  ghost predicate CoveredRun<F, A>(ops: seq<Op<F, A>>) {
    forall k :: 0 <= k < |ops| ==> Covered(ops[k])
  }

  /** How often a callback ought to have been called with some arguments once the list is at rest: once for
      every addition before each of their fires that counts; an addition is also called with the arguments
      that are in use, which are those of the current fire or, on a list that remembers, of the last one,
      and with those that wait. */
  ghost function Expected<F, A>(flags: Flags, ops: seq<Op<F, A>>, f: F, args: A): nat {
    if ops == [] then 0
    else
      var before := ops[..|ops| - 1];
      var c := Run(Fresh<F, A>(flags), before);
      Expected(flags, before, f, args) +
      match ops[|ops| - 1]
      case Fire(b) => if b == args && !c.locked then Count(Added(before), f) else 0
      case Add(fs) =>
        if c.list.None? then 0
        else (if c.memory == Some(args) then Count(fs, f) else 0) + Times(c.queue, args, Count(fs, f))
      case _ => 0
  }

  ghost function Calls<F, A>(c: Cb<F, A>, f: F, args: A): nat {
    multiset(c.log)[(f, args)]
  }

  /** Calls still to come: of the current fire and of those that wait. */
  ghost function Owed<F, A>(c: Cb<F, A>, f: F, args: A): nat {
    if !c.firing then 0
    else (if c.memory == Some(args) then Count(Ahead(c), f) else 0) + Times(c.queue, args, Count(Items(c), f))
  }

  /** n: how often the callback has been added. */
  ghost predicate Kept<F, A>(c: Cb<F, A>, flags: Flags, f: F, n: nat) {
    && c.flags == flags
    && (c.locked ==> flags.once)
    && (!c.locked ==> c.list.Some? && Count(Items(c), f) == n)
    && (c.firing ==> Underway(c))
    && (!c.firing ==> c.queue == [] && c.index == -1)
    && (!c.firing && !c.locked && !flags.memory ==> c.memory.None?)
    && (!c.firing && c.locked ==>
          if flags.memory then c.memory.Some? && c.list == Some([]) else c.memory.None? && c.list.None?)
  }

  /** A firing with all it needs. */
  ghost predicate Underway<F, A>(c: Cb<F, A>) {
    c.list.Some? && c.memory.Some? && -1 <= c.index < |Items(c)| && (c.flags.once ==> c.locked && c.queue == [])
  }

  lemma CountSplits<F>(s: seq<F>, t: seq<F>, f: F)
    ensures Count(s + t, f) == Count(s, f) + Count(t, f)
  {
  }

  ghost predicate Accounted<F, A>(c: Cb<F, A>, d: Cb<F, A>, due: nat, f: F, args: A) {
    Calls(d, f, args) + Owed(d, f, args) == Calls(c, f, args) + Owed(c, f, args) + due
  }

  lemma InnerIs<F, A>(c: Cb<F, A>)
    requires c.list.Some? && c.memory.Some? && -1 <= c.index
    ensures var l := c.index + 1;
            Inner(c) ==
              if l < |Items(c)| then c.(index := l, log := c.log + [(Items(c)[l], c.memory.value)])
              else if c.queue == [] then Finish(c.(index := -1))
              else Inner(c.(index := -1, memory := Some(c.queue[0]), queue := c.queue[1..]))
  {
    hide Inner, NextItem, Finish;
    InnerOnce(c);
    NextItemIs(c.(index := -1));
  }

  lemma InnerOnce<F, A>(c: Cb<F, A>)
    ensures var l := c.index + 1;
            Inner(c) ==
              if 0 <= l < |Items(c)| && c.memory.Some?
              then c.(index := l, log := c.log + [(Items(c)[l], c.memory.value)])
              else NextItem(c.(index := -1))
  {
    hide NextItem, Inner;
    if 0 <= c.index + 1 < |Items(c)| && c.memory.Some? {
      InnerCalls(c);
    } else {
      InnerMoves(c);
    }
  }

  lemma InnerCalls<F, A>(c: Cb<F, A>)
    requires 0 <= c.index + 1 < |Items(c)| && c.memory.Some?
    ensures Inner(c) == c.(index := c.index + 1, log := c.log + [(Items(c)[c.index + 1], c.memory.value)])
  {
    hide NextItem;
  }

  lemma InnerMoves<F, A>(c: Cb<F, A>)
    requires !(0 <= c.index + 1 < |Items(c)| && c.memory.Some?)
    ensures Inner(c) == NextItem(c.(index := -1))
  {
    hide NextItem;
  }

  lemma NextItemIs<F, A>(c: Cb<F, A>)
    ensures NextItem(c) ==
            if c.queue == [] then Finish(c) else Inner(c.(memory := Some(c.queue[0]), queue := c.queue[1..]))
  {
    hide Inner, Finish;
  }

  lemma NextCall<F, A>(c: Cb<F, A>, f: F, args: A)
    requires c.firing && Underway(c) && c.index + 1 < |Items(c)|
    ensures Accounted(c, Inner(c), 0, f, args)
  {
    hide Times, Inner;
    InnerIs(c);
    var l := c.index + 1;
    var d := c.(index := l);
    assert Ahead(c) == [Items(c)[l]] + Ahead(d);
    CountSplits([Items(c)[l]], Ahead(d), f);
  }

  lemma NextArguments<F, A>(c: Cb<F, A>, f: F, args: A)
    requires c.firing && Underway(c) && c.index + 1 == |Items(c)| && c.queue != []
    ensures Accounted(c, c.(index := -1, memory := Some(c.queue[0]), queue := c.queue[1..]), 0, f, args)
  {
    hide Times;
    var d := c.(index := -1, memory := Some(c.queue[0]), queue := c.queue[1..]);
    assert Ahead(c) == [] && Ahead(d) == Items(c);
    TimesFirst(c.queue, args, Count(Items(c), f));
  }

  lemma LastCall<F, A>(c: Cb<F, A>, f: F, args: A)
    requires c.firing && Underway(c) && c.index + 1 == |Items(c)| && c.queue == []
    ensures Accounted(c, Finish(c.(index := -1)), 0, f, args)
  {
    assert Ahead(c) == [];
  }

  lemma KeptUnderway<F, A>(c: Cb<F, A>, flags: Flags, f: F, n: nat)
    requires Kept(c, flags, f, n) && c.firing
    ensures Underway(c)
    ensures c.index + 1 == |Items(c)| && c.queue == [] ==> Kept(Finish(c.(index := -1)), flags, f, n)
    ensures c.index + 1 == |Items(c)| && c.queue != [] ==>
              Kept(c.(index := -1, memory := Some(c.queue[0]), queue := c.queue[1..]), flags, f, n)
    ensures c.index + 1 < |Items(c)| ==>
              Kept(c.(index := c.index + 1, log := c.log + [(Items(c)[c.index + 1], c.memory.value)]), flags, f, n)
  {
  }

  /** The firing loop makes the next call, or goes on to the next arguments, or comes to rest. */
  lemma {:induction false} InnerKeeps<F, A>(c: Cb<F, A>, flags: Flags, f: F, n: nat, args: A)
    requires Kept(c, flags, f, n) && c.firing
    ensures Kept(Inner(c), flags, f, n) && Accounted(c, Inner(c), 0, f, args)
    decreases |c.queue|
  {
    hide Kept, Inner, Finish, Calls, Owed;
    KeptUnderway(c, flags, f, n);
    InnerIs(c);
    if c.index + 1 < |Items(c)| {
      NextCall(c, f, args);
    } else if c.queue == [] {
      LastCall(c, f, args);
    } else {
      NextArguments(c, f, args);
      InnerKeeps(c.(index := -1, memory := Some(c.queue[0]), queue := c.queue[1..]), flags, f, n, args);
    }
  }

  /** What an operation adds to the calls that are due. */
  ghost function Due<F, A>(c: Cb<F, A>, op: Op<F, A>, n: nat, f: F, args: A): nat {
    match op
    case Fire(b) => if b == args && !c.locked then n else 0
    case Add(fs) =>
      if c.list.None? then 0
      else (if c.memory == Some(args) then Count(fs, f) else 0) + Times(c.queue, args, Count(fs, f))
    case _ => 0
  }

  lemma FireStarts<F, A>(c: Cb<F, A>, b: A)
    requires !c.locked && !c.firing && c.queue == [] && c.index == -1
    ensures FireWith(c, b) == Inner(Fired(c, b)) && Ahead(Fired(c, b)) == Items(c)
  {
    hide Inner;
    assert c.queue + [b] == [b] && [b][1..] == [];
  }

  /** A list at rest in the state in which it starts with its first callback. */
  function Fired<F, A>(c: Cb<F, A>, b: A): Cb<F, A> {
    c.(locked := c.flags.once, fired := true, firing := true, memory := Some(b), queue := [])
  }

  lemma FireKeeps<F, A>(c: Cb<F, A>, flags: Flags, f: F, n: nat, b: A, args: A)
    requires Kept(c, flags, f, n)
    ensures var d := FireWith(c, b);
            Kept(d, flags, f, n) && Accounted(c, d, Due(c, Op<F, A>.Fire(b), n, f, args), f, args)
  {
    hide Start, Kept, Calls, Owed;
    if !c.locked {
      hide FireWith;
      if c.firing {
        FireWhileUnderway(c, flags, f, n, b, args);
      } else {
        FireAtRestKeeps(c, flags, f, n, b, args);
      }
    }
  }

  lemma TimesLast<A>(queue: seq<A>, b: A, args: A, n: nat)
    ensures Times(queue + [b], args, n) == Times(queue, args, n) + if b == args then n else 0
  {
    assert (queue + [b])[..|queue|] == queue;
  }

  lemma FireWhileUnderway<F, A>(c: Cb<F, A>, flags: Flags, f: F, n: nat, b: A, args: A)
    requires Kept(c, flags, f, n) && !c.locked && c.firing
    ensures var d := FireWith(c, b);
            Kept(d, flags, f, n) && Accounted(c, d, if b == args then n else 0, f, args)
  {
    hide Start, Count, Times;
    TimesLast(c.queue, b, args, n);
    assert FireWith(c, b) == c.(queue := c.queue + [b]);
  }

  lemma FireAtRestKeeps<F, A>(c: Cb<F, A>, flags: Flags, f: F, n: nat, b: A, args: A)
    requires Kept(c, flags, f, n) && !c.locked && !c.firing
    ensures var d := FireWith(c, b);
            Kept(d, flags, f, n) && Accounted(c, d, if b == args then n else 0, f, args)
  {
    hide Inner, FireWith, Ahead, Count;
    FireStarts(c, b);
    InnerKeeps(Fired(c, b), flags, f, n, args);
  }

  lemma AddingOn<F, A>(c: Cb<F, A>, fs: seq<F>)
    requires c.firing && c.list.Some? && !c.flags.unique
    ensures AddTo(c, fs) == c.(list := Some(c.list.value + fs))
  {
    hide Start, Append;
    AppendAll(c.list.value, fs);
  }

  lemma AddWhileUnderway<F, A>(c: Cb<F, A>, flags: Flags, f: F, n: nat, fs: seq<F>, args: A)
    requires Faithful(flags) && Kept(c, flags, f, n) && c.firing
    ensures var d := AddTo(c, fs);
            && Kept(d, flags, f, n + Count(fs, f))
            && Accounted(c, d, Due(c, Op<F, A>.Add(fs), n, f, args), f, args)
  {
    hide AddTo, Times, Count;
    var s := c.list.value;
    AddingOn(c, fs);
    CountSplits(s, fs, f);
    assert (s + fs)[c.index + 1..] == Ahead(c) + fs;
    CountSplits(Ahead(c), fs, f);
    TimesSum(c.queue, args, Count(s, f), Count(fs, f));
  }

  /** An addition at rest starts a firing of the added callbacks alone. */
  lemma AddStarts<F, A>(c: Cb<F, A>, fs: seq<F>)
    requires !c.firing && c.list.Some? && c.memory.Some? && c.queue == [] && !c.flags.unique
    ensures AddTo(c, fs) == Inner(Restarted(c, fs)) && Ahead(Restarted(c, fs)) == fs
  {
    hide Inner, Append;
    var s := c.list.value;
    AppendAll(s, fs);
    assert (c.queue + [c.memory.value])[1..] == [] && c.queue + [c.memory.value] == [c.memory.value];
    assert |s| - 1 < |s + fs| ==> (s + fs)[|s|..] == fs;
  }

  /** A list at rest in the state in which it goes on behind its last callback. */
  function Restarted<F, A>(c: Cb<F, A>, fs: seq<F>): Cb<F, A>
    requires c.list.Some?
  {
    c.(index := |c.list.value| - 1, list := Some(c.list.value + fs), locked := c.locked || c.flags.once, fired := true,
       firing := true)
  }

  lemma AddAtRestKeeps<F, A>(c: Cb<F, A>, flags: Flags, f: F, n: nat, fs: seq<F>, args: A)
    requires Faithful(flags) && Kept(c, flags, f, n) && !c.firing && c.list.Some? && c.memory.Some?
    ensures var d := AddTo(c, fs);
            && Kept(d, flags, f, n + Count(fs, f))
            && Accounted(c, d, Due(c, Op<F, A>.Add(fs), n, f, args), f, args)
  {
    hide Inner, AddTo;
    AddStarts(c, fs);
    var e := Restarted(c, fs);
    CountSplits(c.list.value, fs, f);
    if |Items(e)| == 0 {
      assert fs == [] && e.index == -1;
    }
    if fs == [] {
      assert e.list == c.list by {
        assert c.list.value + fs == c.list.value;
      }
    }
    assert Kept(e, flags, f, n + Count(fs, f));
    InnerKeeps(e, flags, f, n + Count(fs, f), args);
  }

  lemma AddKeeps<F, A>(c: Cb<F, A>, flags: Flags, f: F, n: nat, fs: seq<F>, args: A)
    requires Faithful(flags) && Kept(c, flags, f, n)
    ensures var d := AddTo(c, fs);
            && Kept(d, flags, f, n + Count(fs, f))
            && Accounted(c, d, Due(c, Op<F, A>.Add(fs), n, f, args), f, args)
  {
    if c.firing {
      AddWhileUnderway(c, flags, f, n, fs, args);
    } else if c.list.Some? && c.memory.Some? {
      AddAtRestKeeps(c, flags, f, n, fs, args);
    } else if c.list.Some? {
      hide Append, Inner;
      AppendAll(c.list.value, fs);
      CountSplits(c.list.value, fs, f);
    }
  }

  lemma RemoveKeeps<F, A>(c: Cb<F, A>, flags: Flags, f: F, n: nat, fs: seq<F>, args: A)
    requires Kept(c, flags, f, n) && f !in fs
    ensures var d := RemoveFrom(c, fs); Kept(d, flags, f, n) && Accounted(c, d, 0, f, args)
  {
    hide RemoveFrom, Times, WithoutAll;
    if c.firing {
      RemoveSplits(c, fs);
      WithoutAllCounts(Behind(c), fs, f);
      WithoutAllCounts(Ahead(c), fs, f);
      var d := RemoveFrom(c, fs);
      assert Items(c) == Behind(c) + Ahead(c) && Items(d) == Behind(d) + Ahead(d);
      CountSplits(Behind(c), Ahead(c), f);
      CountSplits(Behind(d), Ahead(d), f);
    } else {
      RemoveIdle(c, fs, f);
    }
  }

  /** At rest, removing changes the list alone. */
  lemma {:induction false} RemoveIdle<F, A>(c: Cb<F, A>, fs: seq<F>, f: F)
    requires c.index == -1 && f !in fs
    ensures var d := RemoveFrom(c, fs);
            && d == c.(list := d.list) && d.list.None? == c.list.None?
            && Count(Items(d), f) == Count(Items(c), f) && (c.list == Some([]) ==> d.list == Some([]))
    decreases |fs|
  {
    if fs != [] {
      if c.list.Some? {
        assert c.list.value[..0] == [];
        WithoutCounts(c.list.value, fs[0], f);
      }
      RemoveIdle(RemoveOne(c, fs[0]), fs[1..], f);
    }
  }

  lemma StepKeeps<F, A>(c: Cb<F, A>, flags: Flags, f: F, n: nat, op: Op<F, A>, args: A)
    requires Faithful(flags) && Kept(c, flags, f, n) && Covered(op) && (op.Remove? ==> f !in op.fs)
    ensures var d := Step(c, op);
            && Kept(d, flags, f, n + if op.Add? then Count(op.fs, f) else 0)
            && Accounted(c, d, Due(c, op, n, f, args), f, args)
  {
    hide Inner, Kept, AddTo, RemoveFrom, FireWith;
    match op
    case Add(fs) => AddKeeps(c, flags, f, n, fs, args);
    case Remove(fs) => RemoveKeeps(c, flags, f, n, fs, args);
    case Fire(b) => FireKeeps(c, flags, f, n, b, args);
    case Return(wasFalse) =>
      if c.firing {
        SameFlags(c, flags, f, n);
        InnerKeeps(c, flags, f, n, args);
      }
  }

  lemma SameFlags<F, A>(c: Cb<F, A>, flags: Flags, f: F, n: nat)
    requires Kept(c, flags, f, n)
    ensures c.flags == flags
  {
  }

  /** However the operations nest, a callback never removed has been called with some arguments, or will be
      before the list comes to rest, exactly as often as expected; at rest it has been. */
  lemma {:induction false} CalledOncePerFire<F, A>(flags: Flags, ops: seq<Op<F, A>>, f: F, args: A)
    requires Faithful(flags) && CoveredRun(ops) && NeverRemoved(ops, f)
    ensures var c := Run(Fresh<F, A>(flags), ops);
            && Kept(c, flags, f, Count(Added(ops), f))
            && Calls(c, f, args) + Owed(c, f, args) == Expected(flags, ops, f, args)
            && (!c.firing ==> Calls(c, f, args) == Expected(flags, ops, f, args))
  {
    hide Step, Kept, Calls, Owed, Expected, Added, Count, Due;
    ExpectedStep(flags, ops, f, args);
    NothingOwedAtRest(Run(Fresh<F, A>(flags), ops), f, args);
    if ops == [] {
      FreshKept<F, A>(flags, f, args);
    } else {
      var n := |ops| - 1;
      CalledOncePerFire(flags, ops[..n], f, args);
      StepKeeps(Run(Fresh<F, A>(flags), ops[..n]), flags, f, Count(Added(ops[..n]), f), ops[n], args);
    }
  }

  lemma ExpectedStep<F, A>(flags: Flags, ops: seq<Op<F, A>>, f: F, args: A)
    ensures ops == [] ==> Expected(flags, ops, f, args) == 0 && Count(Added(ops), f) == 0
    ensures ops != [] ==>
              var n := |ops| - 1;
              var c := Run(Fresh<F, A>(flags), ops[..n]);
              && Expected(flags, ops, f, args)
                 == Expected(flags, ops[..n], f, args) + Due(c, ops[n], Count(Added(ops[..n]), f), f, args)
              && Count(Added(ops), f) == Count(Added(ops[..n]), f) + if ops[n].Add? then Count(ops[n].fs, f) else 0
  {
    hide Run, Times;
    if ops != [] && ops[|ops| - 1].Add? {
      CountSplits(Added(ops[..|ops| - 1]), ops[|ops| - 1].fs, f);
    }
  }

  lemma NothingOwedAtRest<F, A>(c: Cb<F, A>, f: F, args: A)
    ensures !c.firing ==> Owed(c, f, args) == 0
  {
  }

  lemma FreshKept<F, A>(flags: Flags, f: F, args: A)
    ensures Kept(Fresh<F, A>(flags), flags, f, 0)
    ensures Calls(Fresh<F, A>(flags), f, args) == 0 && Owed(Fresh<F, A>(flags), f, args) == 0
  {
  }

  // ---------------------------------------------------------------- the arguments in use

  function LastFire<F, A>(ops: seq<Op<F, A>>): Option<A> {
    if ops == [] then None
    else if ops[|ops| - 1].Fire? then Some(ops[|ops| - 1].args)
    else LastFire(ops[..|ops| - 1])
  }

  /** The fire whose arguments a list ends up with: a list that fires once keeps to the first. */
  function InUse<F, A>(flags: Flags, ops: seq<Op<F, A>>): Option<A> {
    if flags.once then FirstFire(ops) else LastFire(ops)
  }

  function Final<F, A>(c: Cb<F, A>): Option<A> {
    if c.queue != [] then Some(c.queue[|c.queue| - 1]) else c.memory
  }

  /** What a state says about the fires so far. */
  ghost predicate Uses<F, A>(c: Cb<F, A>, flags: Flags, last: Option<A>) {
    && c.flags == flags
    && (c.locked <==> flags.once && last.Some?)
    && (c.firing ==> Underway(c) && last.Some? && Final(c) == last)
    && (!c.firing ==> c.queue == [] && c.index == -1 && c.memory == if flags.memory then last else None)
    && (c.list.None? ==> c.locked && !flags.memory && !c.firing)
  }

  lemma {:induction false} InnerUses<F, A>(c: Cb<F, A>, flags: Flags, last: Option<A>)
    requires Uses(c, flags, last) && c.firing
    ensures Uses(Inner(c), flags, last)
    decreases |c.queue|
  {
    hide Inner;
    InnerIs(c);
    if c.index + 1 == |Items(c)| && c.queue != [] {
      InnerUses(c.(index := -1, memory := Some(c.queue[0]), queue := c.queue[1..]), flags, last);
    }
  }

  lemma AddUses<F, A>(c: Cb<F, A>, flags: Flags, last: Option<A>, fs: seq<F>)
    requires Uses(c, flags, last) && Faithful(flags)
    ensures Uses(AddTo(c, fs), flags, last)
  {
    hide Inner, Append;
    if c.list.Some? {
      AppendAll(c.list.value, fs);
      if !c.firing && c.memory.Some? {
        AddStarts(c, fs);
        InnerUses(Restarted(c, fs), flags, last);
      }
    }
  }

  lemma FireUses<F, A>(c: Cb<F, A>, flags: Flags, last: Option<A>, args: A)
    requires Uses(c, flags, last)
    ensures Uses(FireWith(c, args), flags, if flags.once && last.Some? then last else Some(args))
  {
    hide Inner;
    if !c.locked && !c.firing {
      FireStarts(c, args);
      InnerUses(Fired(c, args), flags, Some(args));
    }
  }

  lemma RemoveUses<F, A>(c: Cb<F, A>, flags: Flags, last: Option<A>, fs: seq<F>)
    requires Uses(c, flags, last)
    ensures Uses(RemoveFrom(c, fs), flags, last)
  {
    hide RemoveFrom, WithoutAll;
    if c.firing {
      RemoveSplits(c, fs);
    } else {
      RemoveAtRest(c, fs);
    }
  }

  lemma {:induction false} RemoveAtRest<F, A>(c: Cb<F, A>, fs: seq<F>)
    requires c.index == -1
    ensures var d := RemoveFrom(c, fs); d == c.(list := d.list) && d.list.None? == c.list.None?
    decreases |fs|
  {
    if fs != [] {
      if c.list.Some? {
        assert c.list.value[..0] == [];
      }
      RemoveAtRest(RemoveOne(c, fs[0]), fs[1..]);
    }
  }

  /** At rest a list that remembers has the arguments of its last fire, or of its first if it fires once. */
  lemma {:induction false} ArgumentsInUse<F, A>(flags: Flags, ops: seq<Op<F, A>>)
    requires Faithful(flags) && CoveredRun(ops)
    ensures Uses(Run(Fresh<F, A>(flags), ops), flags, InUse(flags, ops))
  {
    hide Uses, Inner, AddTo, RemoveFrom, FireWith;
    if ops == [] {
      FreshUses<F, A>(flags);
    } else {
      var n := |ops| - 1;
      var c := Run(Fresh<F, A>(flags), ops[..n]);
      ArgumentsInUse(flags, ops[..n]);
      assert ops[..n] + [ops[n]] == ops;
      FirstFireSnoc(ops[..n], ops[n]);
      match ops[n]
      case Add(fs) => AddUses(c, flags, InUse(flags, ops[..n]), fs);
      case Remove(fs) => RemoveUses(c, flags, InUse(flags, ops[..n]), fs);
      case Fire(args) => FireUses(c, flags, InUse(flags, ops[..n]), args);
      case Return(wasFalse) => ReturnUses(c, flags, InUse(flags, ops[..n]), wasFalse);
    }
  }

  lemma FreshUses<F, A>(flags: Flags)
    ensures Uses(Fresh<F, A>(flags), flags, None)
  {
  }

  lemma ReturnUses<F, A>(c: Cb<F, A>, flags: Flags, last: Option<A>, wasFalse: bool)
    requires Uses(c, flags, last) && Faithful(flags)
    ensures Uses(Step(c, Op<F, A>.Return(wasFalse)), flags, last)
  {
    hide Inner;
    if c.firing {
      InnerUses(c, flags, last);
    }
  }

  // ---------------------------------------------------------------- one thing at a time

  ghost function Paired<F, A>(fs: seq<F>, args: A): seq<(F, A)> {
    seq(|fs|, k requires 0 <= k < |fs| => (fs[k], args))
  }

  function Returns<F, A>(n: nat): seq<Op<F, A>> {
    seq(n, k => Op<F, A>.Return(false))
  }

  lemma {:induction false} RunAppend<F, A>(c: Cb<F, A>, a: seq<Op<F, A>>, b: seq<Op<F, A>>)
    ensures Run(c, a + b) == Run(Run(c, a), b)
  {
    hide Step;
    if b == [] {
      assert a + b == a;
    } else {
      var n := |b| - 1;
      assert (a + b)[..|a + b| - 1] == a + b[..n];
      RunAppend(c, a, b[..n]);
    }
  }

  lemma RunFirst<F, A>(c: Cb<F, A>, op: Op<F, A>, ops: seq<Op<F, A>>)
    ensures Run(c, [op] + ops) == Run(Step(c, op), ops)
  {
    hide Step;
    RunAppend(c, [op], ops);
    assert [op][..0] == [];
    assert Run(c, [op]) == Step(Run(c, []), op);
  }

  /** Where callbacks do nothing but return, the firing loop calls what is ahead and comes to rest. */
  lemma {:induction false} ReturnsFinish<F, A>(c: Cb<F, A>)
    requires c.firing && Underway(c) && c.queue == [] && Faithful(c.flags)
    ensures var d := Run(Inner(c), Returns(|Ahead(c)|));
            !d.firing && d.log == c.log + Paired(Ahead(c), c.memory.value)
    decreases |Ahead(c)|
  {
    hide Inner, Run, Ahead, Paired, Returns, Step;
    CallsNext(c);
    if Ahead(c) == [] {
      ReturnsFirst<F, A>(0);
      RunNothing(Inner(c), Returns(0));
    } else {
      var d := Inner(c);
      ReturnsFirst<F, A>(|Ahead(d)|);
      RunFirst(d, Op<F, A>.Return(false), Returns(|Ahead(d)|));
      ReturnsFinish(d);
      PairedFirst(Ahead(c)[0], Ahead(d), c.memory.value);
    }
  }

  lemma CallsNext<F, A>(c: Cb<F, A>)
    requires c.firing && Underway(c) && c.queue == []
    ensures Ahead(c) == [] ==> !Inner(c).firing && Inner(c).log == c.log + Paired([], c.memory.value)
    ensures Ahead(c) != [] ==>
              var d := c.(index := c.index + 1, log := c.log + [(Ahead(c)[0], c.memory.value)]);
              && d == Inner(c) && Underway(d) && Ahead(c) == [Ahead(c)[0]] + Ahead(d)
              && Step(d, Op<F, A>.Return(false)) == Inner(d)
  {
    hide Inner, Finish, Paired;
    InnerIs(c);
    PairedNone<F, A>(c.memory.value);
    FinishStops(c.(index := -1));
  }

  lemma PairedNone<F, A>(args: A)
    ensures Paired<F, A>([], args) == []
  {
  }

  lemma FinishStops<F, A>(c: Cb<F, A>)
    ensures !Finish(c).firing && Finish(c).log == c.log
  {
  }

  lemma ReturnsFirst<F, A>(n: nat)
    ensures Returns<F, A>(0) == [] && Returns<F, A>(n + 1) == [Op<F, A>.Return(false)] + Returns<F, A>(n)
  {
  }

  lemma PairedFirst<F, A>(f: F, fs: seq<F>, args: A)
    ensures Paired([f] + fs, args) == [(f, args)] + Paired(fs, args)
  {
  }

  lemma RunNothing<F, A>(c: Cb<F, A>, ops: seq<Op<F, A>>)
    requires |ops| == 0
    ensures Run(c, ops) == c
  {
  }

  /** An addition to a list at rest that remembers calls exactly the added callbacks, in order, with the
      arguments in use. */
  lemma AdditionAtRest<F, A>(flags: Flags, ops: seq<Op<F, A>>, fs: seq<F>)
    requires Faithful(flags) && flags.memory && CoveredRun(ops) && InUse(flags, ops).Some?
    requires !Run(Fresh<F, A>(flags), ops).firing
    ensures var d := Run(Fresh<F, A>(flags), ops + ([Op<F, A>.Add(fs)] + Returns(|fs|)));
            && !d.firing
            && d.log == Run(Fresh<F, A>(flags), ops).log + Paired(fs, InUse(flags, ops).value)
  {
    hide Inner, Run;
    ArgumentsInUse(flags, ops);
    var c := Run(Fresh<F, A>(flags), ops);
    RunAppend(Fresh<F, A>(flags), ops, [Op<F, A>.Add(fs)] + Returns(|fs|));
    RunFirst(c, Op<F, A>.Add(fs), Returns(|fs|));
    AddStarts(c, fs);
    ReturnsFinish(Restarted(c, fs));
  }

  lemma {:induction false} ItemsAreAdded<F, A>(flags: Flags, ops: seq<Op<F, A>>)
    requires Faithful(flags) && CoveredRun(ops) && forall k :: 0 <= k < |ops| ==> !ops[k].Remove?
    requires !flags.once || FirstFire(ops).None?
    ensures Run(Fresh<F, A>(flags), ops).list == Some(Added(ops))
  {
    hide Step;
    if ops != [] {
      var n := |ops| - 1;
      assert ops[..n] + [ops[n]] == ops;
      FirstFireSnoc(ops[..n], ops[n]);
      ItemsAreAdded(flags, ops[..n]);
      ArgumentsInUse(flags, ops[..n]);
      var c := Run(Fresh<F, A>(flags), ops[..n]);
      assert !c.locked;
      UnlockedKeepsList(c, flags, ops[n], InUse(flags, ops[..n]));
      assert Items(c) == Added(ops[..n]) && Added(ops[..n]) + [] == Added(ops[..n]);
    }
  }

  lemma UnlockedKeepsList<F, A>(c: Cb<F, A>, flags: Flags, op: Op<F, A>, last: Option<A>)
    requires Faithful(flags) && Uses(c, flags, last) && Covered(op) && !op.Remove? && !c.locked
    requires op.Fire? ==> !flags.once
    ensures Step(c, op).list == (if op.Add? then Some(Items(c) + op.fs) else c.list)
  {
    hide Inner, Append;
    match op
    case Add(fs) =>
      AppendAll(c.list.value, fs);
      if !c.firing && c.memory.Some? {
        AddStarts(c, fs);
        InnerList(Restarted(c, fs));
      }
    case Fire(args) =>
      if !c.firing {
        FireStarts(c, args);
        InnerList(Fired(c, args));
      }
    case Return(wasFalse) =>
      if c.firing {
        InnerList(c);
      }
  }

  lemma {:induction false} InnerList<F, A>(c: Cb<F, A>)
    requires c.list.Some? && c.memory.Some? && -1 <= c.index && !c.locked
    ensures Inner(c).list == c.list
    decreases |c.queue|
  {
    hide Inner;
    InnerIs(c);
    if c.index + 1 >= |Items(c)| && c.queue != [] {
      InnerList(c.(index := -1, memory := Some(c.queue[0]), queue := c.queue[1..]));
    }
  }

  /** A fire of a list at rest calls every callback added so far, in order, with its arguments. */
  lemma FireAtRest<F, A>(flags: Flags, ops: seq<Op<F, A>>, args: A)
    requires Faithful(flags) && CoveredRun(ops) && forall k :: 0 <= k < |ops| ==> !ops[k].Remove?
    requires (!flags.once || FirstFire(ops).None?) && !Run(Fresh<F, A>(flags), ops).firing
    ensures var d := Run(Fresh<F, A>(flags), ops + ([Op<F, A>.Fire(args)] + Returns(|Added(ops)|)));
            && !d.firing
            && d.log == Run(Fresh<F, A>(flags), ops).log + Paired(Added(ops), args)
  {
    hide Inner, Run;
    ArgumentsInUse(flags, ops);
    ItemsAreAdded(flags, ops);
    var c := Run(Fresh<F, A>(flags), ops);
    RunAppend(Fresh<F, A>(flags), ops, [Op<F, A>.Fire(args)] + Returns(|Added(ops)|));
    RunFirst(c, Op<F, A>.Fire(args), Returns(|Added(ops)|));
    FireStarts(c, args);
    ReturnsFinish(Fired(c, args));
  }

  // ---------------------------------------------------------------- the whole log

  datatype Act<F, A> = Adds(fs: seq<F>) | Fires(args: A)

  function AddedBy<F, A>(acts: seq<Act<F, A>>): seq<F> {
    if acts == [] then []
    else AddedBy(acts[..|acts| - 1]) + if acts[|acts| - 1].Adds? then acts[|acts| - 1].fs else []
  }

  function LastBy<F, A>(acts: seq<Act<F, A>>): Option<A> {
    if acts == [] then None
    else if acts[|acts| - 1].Fires? then Some(acts[|acts| - 1].args)
    else LastBy(acts[..|acts| - 1])
  }

  /** Every fire calls all that was added before it, every later addition what it adds, with the arguments of the
      last fire. */
  ghost function LogBy<F, A>(acts: seq<Act<F, A>>): seq<(F, A)> {
    if acts == [] then []
    else
      var before := acts[..|acts| - 1];
      LogBy(before) +
      match acts[|acts| - 1]
      case Adds(fs) => if LastBy(before).Some? then Paired(fs, LastBy(before).value) else []
      case Fires(args) => Paired(AddedBy(before), args)
  }

  /** The operations, each run until the list is at rest again. */
  function InTurn<F, A>(acts: seq<Act<F, A>>): seq<Op<F, A>> {
    if acts == [] then []
    else
      var before := acts[..|acts| - 1];
      InTurn(before) +
      match acts[|acts| - 1]
      case Adds(fs) => [Op<F, A>.Add(fs)] + Returns(|fs|)
      case Fires(args) => [Op<F, A>.Fire(args)] + Returns(|AddedBy(before)|)
  }

  lemma {:induction false} AddedAppend<F, A>(a: seq<Op<F, A>>, b: seq<Op<F, A>>)
    ensures Added(a + b) == Added(a) + Added(b)
    ensures LastFire(a + b) == if LastFire(b).Some? then LastFire(b) else LastFire(a)
  {
    if b == [] {
      assert a + b == a;
    } else {
      var n := |b| - 1;
      assert (a + b)[..|a + b| - 1] == a + b[..n] && (a + b)[|a + b| - 1] == b[n];
      AddedAppend(a, b[..n]);
    }
  }

  lemma {:induction false} ReturnsAddNothing<F, A>(n: nat)
    ensures Added(Returns<F, A>(n)) == [] && LastFire(Returns<F, A>(n)) == None
  {
    if n > 0 {
      ReturnsAddNothing<F, A>(n - 1);
      assert Returns<F, A>(n)[..n - 1] == Returns<F, A>(n - 1);
    }
  }

  lemma OneAdded<F, A>(op: Op<F, A>)
    ensures Added([op]) == if op.Add? then op.fs else []
    ensures LastFire([op]) == if op.Fire? then Some(op.args) else None
  {
    assert [op][..0] == [];
  }

  /** A turn adds and fires what its operation does. */
  lemma TurnAdds<F, A>(before: seq<Op<F, A>>, op: Op<F, A>, n: nat)
    ensures var ops := before + ([op] + Returns(n));
            && Added(ops) == Added(before) + (if op.Add? then op.fs else [])
            && LastFire(ops) == (if op.Fire? then Some(op.args) else LastFire(before))
  {
    hide Added, LastFire, Returns;
    AddedAppend(before, [op] + Returns(n));
    AddedAppend([op], Returns(n));
    ReturnsAddNothing<F, A>(n);
    OneAdded(op);
  }

  lemma {:induction false} InTurnOperations<F, A>(acts: seq<Act<F, A>>)
    ensures var ops := InTurn(acts);
            && Added(ops) == AddedBy(acts) && LastFire(ops) == LastBy(acts)
            && forall k :: 0 <= k < |ops| ==> ops[k].Add? || ops[k].Fire? || ops[k].Return?
  {
    hide Added, LastFire;
    if acts == [] {
      NothingDone<F, A>();
    } else {
      var before := acts[..|acts| - 1];
      InTurnOperations(before);
      match acts[|acts| - 1]
      case Adds(fs) => TurnAdds(InTurn(before), Op<F, A>.Add(fs), |fs|);
      case Fires(args) => TurnAdds(InTurn(before), Op<F, A>.Fire(args), |AddedBy(before)|);
    }
  }

  lemma NothingDone<F, A>()
    ensures Added<F, A>([]) == [] && LastFire<F, A>([]) == None
  {
  }

  /** An addition to a list that has not fired calls nothing. */
  lemma AdditionBeforeFire<F, A>(flags: Flags, ops: seq<Op<F, A>>, fs: seq<F>)
    requires Faithful(flags) && CoveredRun(ops) && InUse(flags, ops).None? && !Run(Fresh<F, A>(flags), ops).firing
    ensures var d := Run(Fresh<F, A>(flags), ops + ([Op<F, A>.Add(fs)] + Returns(|fs|)));
            !d.firing && d.log == Run(Fresh<F, A>(flags), ops).log
  {
    hide Run, Append, Returns;
    ArgumentsInUse(flags, ops);
    var c := Run(Fresh<F, A>(flags), ops);
    RunAppend(Fresh<F, A>(flags), ops, [Op<F, A>.Add(fs)] + Returns(|fs|));
    RunFirst(c, Op<F, A>.Add(fs), Returns(|fs|));
    ReturnsAtRest(Step(c, Op<F, A>.Add(fs)), |fs|);
  }

  lemma {:induction false} ReturnsAtRest<F, A>(c: Cb<F, A>, n: nat)
    requires !c.firing
    ensures Run(c, Returns(n)) == c
  {
    if n > 0 {
      ReturnsAtRest(c, n - 1);
      assert Returns<F, A>(n)[..n - 1] == Returns<F, A>(n - 1);
    }
  }

  /** The log of a list that remembers and may fire again, over every sequence of additions and fires: by the
      additions and fires alone. */
  lemma {:induction false} LogIsByActs<F, A>(acts: seq<Act<F, A>>)
    ensures var c := Run(Fresh<F, A>(MEMORY), InTurn(acts)); !c.firing && c.log == LogBy(acts)
  {
    hide Run, Paired, Returns;
    if acts == [] {
      RunNothing(Fresh<F, A>(MEMORY), []);
    } else {
      var before := acts[..|acts| - 1];
      LogIsByActs(before);
      InTurnOperations(before);
      var ops := InTurn(before);
      match acts[|acts| - 1]
      case Adds(fs) =>
        if LastBy(before).Some? {
          AdditionAtRest(MEMORY, ops, fs);
        } else {
          AdditionBeforeFire(MEMORY, ops, fs);
          assert LogBy(before) + [] == LogBy(before);
        }
      case Fires(args) => FireAtRest(MEMORY, ops, args);
    }
  }

  // ---------------------------------------------------------------- the other flags, and locking

  ghost predicate Distinct<F>(s: seq<F>) {
    forall i, j :: 0 <= i < j < |s| ==> s[i] != s[j]
  }

  /** With the unique flag the list keeps what it has, in order, and grows by what it does not have yet. */
  lemma {:induction false} AppendUnique<F>(s: seq<F>, fs: seq<F>)
    requires Distinct(s)
    ensures s <= Append(s, fs, true) && Distinct(Append(s, fs, true))
    decreases |fs|
  {
    hide Distinct;
    if fs != [] {
      var t := if fs[0] in s then s else s + [fs[0]];
      DistinctMore(s, fs[0]);
      AppendUnique(t, fs[1..]);
      PrefixOfPrefix(s, t, Append(t, fs[1..], true));
    }
  }

  /** It has what it had and what was added, and nothing else. */
  lemma {:induction false} AppendMembers<F>(s: seq<F>, fs: seq<F>, unique: bool, f: F)
    ensures f in Append(s, fs, unique) <==> f in s || f in fs
    decreases |fs|
  {
    if fs != [] {
      assert fs == [fs[0]] + fs[1..];
      AppendMembers(if unique && fs[0] in s then s else s + [fs[0]], fs[1..], unique, f);
    }
  }

  lemma PrefixOfPrefix<F>(s: seq<F>, t: seq<F>, r: seq<F>)
    requires s <= t <= r
    ensures s <= r && forall f <- t :: f in r
  {
    assert forall k :: 0 <= k < |t| ==> t[k] == r[k];
  }

  lemma DistinctMore<F>(s: seq<F>, f: F)
    requires Distinct(s)
    ensures f !in s ==> Distinct(s + [f])
  {
  }

  lemma {:induction false} InnerItems<F, A>(c: Cb<F, A>)
    ensures Inner(c).flags == c.flags && (Inner(c).list == c.list || Items(Inner(c)) == [])
    decreases |c.queue|
  {
    var l := c.index + 1;
    if !(0 <= l < |Items(c)| && c.memory.Some?) && c.queue != [] {
      InnerItems(c.(index := -1, memory := Some(c.queue[0]), queue := c.queue[1..]));
    }
  }

  lemma StartItems<F, A>(c: Cb<F, A>)
    ensures Start(c).flags == c.flags && (Start(c).list == c.list || Items(Start(c)) == [])
  {
    hide Inner;
    var d := c.(locked := c.locked || c.flags.once, fired := true, firing := true);
    if c.queue != [] {
      InnerItems(d.(memory := Some(d.queue[0]), queue := d.queue[1..]));
    }
  }

  lemma {:induction false} WithoutKeepsDistinct<F>(s: seq<F>, f: F)
    requires Distinct(s)
    ensures Distinct(Without(s, f)) && forall g <- Without(s, f) :: g in s
  {
    if s != [] {
      var n := |s| - 1;
      assert forall i :: 0 <= i < n ==> s[..n][i] == s[i];
      WithoutKeepsDistinct(s[..n], f);
      assert s[n] !in s[..n];
      DistinctMore(Without(s[..n], f), s[n]);
    }
  }

  lemma {:induction false} RemoveKeepsDistinct<F, A>(c: Cb<F, A>, fs: seq<F>)
    requires Distinct(Items(c))
    ensures Distinct(Items(RemoveFrom(c, fs))) && RemoveFrom(c, fs).flags == c.flags
    decreases |fs|
  {
    if fs != [] {
      hide Without, Distinct;
      WithoutKeepsDistinct(Items(c), fs[0]);
      assert Distinct(Items(RemoveOne(c, fs[0])));
      RemoveKeepsDistinct(RemoveOne(c, fs[0]), fs[1..]);
    }
  }

  /** A unique list never holds a callback twice, over any run. */
  lemma {:induction false} UniqueListHasNoRepeats<F, A>(flags: Flags, ops: seq<Op<F, A>>)
    requires flags.unique
    ensures var c := Run(Fresh<F, A>(flags), ops); c.flags == flags && Distinct(Items(c))
  {
    hide Step, Distinct;
    if ops == [] {
      EmptyIsDistinct(Fresh<F, A>(flags));
    } else {
      UniqueListHasNoRepeats(flags, ops[..|ops| - 1]);
      UniqueStep(Run(Fresh<F, A>(flags), ops[..|ops| - 1]), ops[|ops| - 1]);
    }
  }

  lemma EmptyIsDistinct<F, A>(c: Cb<F, A>)
    ensures Items(c) == [] ==> Distinct(Items(c))
  {
  }

  lemma UniqueStep<F, A>(c: Cb<F, A>, op: Op<F, A>)
    requires c.flags.unique && Distinct(Items(c))
    ensures Step(c, op).flags == c.flags && Distinct(Items(Step(c, op)))
  {
    hide Append, Inner, RemoveFrom, Start, Distinct;
    EmptyIsDistinct(Step(c, op));
    match op
    case Add(fs) =>
      AppendUnique(Items(c), fs);
      if c.list.Some? {
        AddItems(c, fs);
      }
    case Remove(fs) => RemoveKeepsDistinct(c, fs);
    case Fire(args) => StartItems(c.(queue := c.queue + [args]));
    case Empty =>
    case Disable =>
    case Lock =>
    case Return(wasFalse) =>
      InnerItems(c);
      InnerItems(c.(index := |Items(c)|, memory := None));
  }

  /** Unless its addition brought the list to its end, a list holds all it held before and all that is
      added, with any flags. */
  lemma AddItems<F, A>(c: Cb<F, A>, fs: seq<F>)
    requires c.list.Some?
    ensures var d := AddTo(c, fs);
            && d.flags == c.flags
            && (Items(d) == [] || Items(d) == Append(Items(c), fs, c.flags.unique))
  {
    hide Append, Start;
    if c.memory.Some? && !c.firing {
      var e := c.(index := |c.list.value| - 1, queue := c.queue + [c.memory.value],
                  list := Some(Append(c.list.value, fs, c.flags.unique)));
      StartItems(e);
    }
  }

  /** On a list that stops on false, a callback that returns false is the last one of its fire: the list
      goes on to the waiting arguments, from its first callback, or comes to rest and remembers nothing.
      On any other list it makes no difference. */
  lemma FalseEndsFire<F, A>(c: Cb<F, A>)
    requires c.firing && Underway(c) && 0 <= c.index
    ensures var d := Step(c, Op<F, A>.Return(true));
            && (!c.flags.stopOnFalse ==> d == Step(c, Op<F, A>.Return(false)))
            && (c.flags.stopOnFalse && c.queue == [] ==> !d.firing && d.memory == None && d.log == c.log)
            && (c.flags.stopOnFalse && c.queue != [] ==>
                  d.firing && d.log == c.log + [(Items(c)[0], c.queue[0])] && d.index == 0 && d.queue == c.queue[1..])
  {
    var e := c.(index := |Items(c)|, memory := None);
    assert Inner(e) == NextItem(e.(index := -1));
    if c.flags.stopOnFalse && c.queue != [] {
      var g := c.(index := -1, memory := Some(c.queue[0]), queue := c.queue[1..]);
      assert NextItem(e.(index := -1)) == Inner(g);
    }
  }

  /** Locked: no arguments wait, and those in use, if any, stay. */
  ghost predicate LockedOn<F, A>(c: Cb<F, A>, memory: Option<A>) {
    c.locked && c.queue == [] && (c.memory == memory || c.memory.None?)
  }

  ghost predicate LockedOnto<F, A>(c: Cb<F, A>, d: Cb<F, A>, memory: Option<A>) {
    && LockedOn(d, memory) && c.log <= d.log
    && forall k :: |c.log| <= k < |d.log| ==> Some(d.log[k].1) == memory
  }

  lemma LockedOntoTrans<F, A>(c: Cb<F, A>, d: Cb<F, A>, e: Cb<F, A>, memory: Option<A>)
    requires LockedOnto(c, d, memory) && LockedOnto(d, e, memory)
    ensures LockedOnto(c, e, memory)
  {
    forall k | |c.log| <= k < |e.log| ensures Some(e.log[k].1) == memory {
      assert k < |d.log| ==> e.log[k] == d.log[k];
    }
  }

  lemma LockedInner<F, A>(c: Cb<F, A>, memory: Option<A>)
    requires LockedOn(c, memory)
    ensures LockedOnto(c, Inner(c), memory)
  {
  }

  lemma LockedAdd<F, A>(c: Cb<F, A>, memory: Option<A>, fs: seq<F>)
    requires LockedOn(c, memory)
    ensures LockedOnto(c, AddTo(c, fs), memory)
  {
    hide Append, Inner;
    if c.list.Some? && c.memory.Some? && !c.firing {
      assert c.queue + [c.memory.value] == [c.memory.value];
      var e := c.(index := |c.list.value| - 1, list := Some(Append(c.list.value, fs, c.flags.unique)),
                  queue := [c.memory.value]);
      assert [c.memory.value][1..] == [];
      var g := e.(fired := true, firing := true, queue := []);
      assert AddTo(c, fs) == Start(e) == Inner(g);
      LockedInner(g, memory);
    }
  }

  lemma LockedStep<F, A>(c: Cb<F, A>, memory: Option<A>, op: Op<F, A>)
    requires LockedOn(c, memory)
    ensures LockedOnto(c, Step(c, op), memory) && (op.Fire? ==> Step(c, op) == c)
  {
    hide Append, AddTo, Inner, RemoveFrom;
    match op
    case Add(fs) => LockedAdd(c, memory, fs);
    case Remove(fs) => RemoveTouchesList(c, fs);
    case Fire(args) =>
    case Empty =>
    case Disable =>
    case Lock =>
    case Return(wasFalse) =>
      LockedInner(c, memory);
      LockedInner(c.(index := |Items(c)|, memory := None), memory);
  }

  lemma {:induction false} RemoveTouchesList<F, A>(c: Cb<F, A>, fs: seq<F>)
    ensures var d := RemoveFrom(c, fs); d == c.(list := d.list, index := d.index)
    decreases |fs|
  {
    if fs != [] {
      RemoveTouchesList(RemoveOne(c, fs[0]), fs[1..]);
    }
  }

  /** After a lock, no callback is ever called with arguments other than those in use at the time, whatever is
      done to the list. */
  lemma {:induction false} LockFixesArguments<F, A>(c: Cb<F, A>, ops: seq<Op<F, A>>)
    ensures var d := Run(LockIt(c), ops);
            && c.log <= d.log
            && forall k :: |c.log| <= k < |d.log| ==> Some(d.log[k].1) == c.memory
  {
    LockedRun(c, ops);
  }

  lemma {:induction false} LockedRun<F, A>(c: Cb<F, A>, ops: seq<Op<F, A>>)
    ensures LockedOnto(c, Run(LockIt(c), ops), c.memory)
  {
    hide Step;
    if ops != [] {
      LockedRun(c, ops[..|ops| - 1]);
      var d := Run(LockIt(c), ops[..|ops| - 1]);
      LockedStep(d, c.memory, ops[|ops| - 1]);
      LockedOntoTrans(c, d, Step(d, ops[|ops| - 1]), c.memory);
    }
  }

  /** Locking cuts no firing short, and lets a list at rest keep what it remembers, if anything. */
  lemma LockSpares<F, A>(c: Cb<F, A>)
    ensures c.firing || c.memory.Some? ==>
              LockIt(c) == c.(locked := true, queue := [])
    ensures !c.firing && c.memory.None? ==> LockIt(c).list.None?
  {
  }
}
