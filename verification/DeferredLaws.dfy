/** The six lists of a deferred as callback lists of their own: every one goes through a run of list
    operations, so the laws of callback lists hold of it; and what becomes of notifications. */
module DeferredLaws {
  import opened Optional
  import opened Callbacks
  import opened CallbackLaws
  import D = Deferred

  type ListOp<U, A> = Op<D.Handler<U>, A>

  // ---------------------------------------------------------------- each list by itself

  function FlagsOf(l: D.Lid): Flags {
    if l == 0 || l == 3 then Flags(false, true, false, false) else Flags(true, true, false, false)
  }

  /** What an operation on the deferred does to list l: user code adds to it, or fires it by notify, resolve
      or reject; a handler that the constructor installed on some list disables it, locks it or passes its
      arguments on to it; and the call of one of its own handlers ends. */
  function OnList<U, A>(d: D.Deferred<U, A>, op: D.Op<U, A>, l: D.Lid): seq<ListOp<U, A>> {
    match op
    case AddUser(k, us) => if k == l && D.UserTurn(d) then [Add(D.Users(us))] else []
    case Call(k, args) => if k == l && k < 3 && D.UserTurn(d) then [Fire(args)] else []
    case Enter =>
      if d.stack == [] then []
      else
        var top := d.stack[|d.stack| - 1];
        var h := D.Current(d.lists[top.l]);
        if top.entered || h.None? then []
        else
          (match h.value
           case DisableList(k) => if k == l then [Disable] else []
           case LockList(k) => if k == l then [Lock] else []
           case FireThen(k) =>
             if k == l && d.lists[top.l].memory.Some? then [Fire(d.lists[top.l].memory.value)] else []
           case _ => [])
    case End =>
      if d.stack == [] then []
      else
        var top := d.stack[|d.stack| - 1];
        var h := D.Current(d.lists[top.l]);
        if top.l != l || (!top.entered && h.Some? && !h.value.User?) then [] else [Return(false)]
  }

  function Onset<U>(l: D.Lid): seq<D.Handler<U>> {
    if l == 0 then [D.FireThen(3)]
    else if l == 1 || l == 2 then D.Installed(l)
    else []
  }

  /** The operations list l has been through. */
  function OpsOf<U(==), A>(ops: seq<D.Op<U, A>>, l: D.Lid): seq<ListOp<U, A>> {
    if ops == [] then [Add(Onset(l))]
    else OpsOf(ops[..|ops| - 1], l) + OnList(D.Run(ops[..|ops| - 1]), ops[|ops| - 1], l)
  }

  lemma RunOne<F, A>(c: Cb<F, A>, ops: seq<Op<F, A>>, op: Op<F, A>)
    ensures Run(c, ops + [op]) == Step(Run(c, ops), op)
  {
    assert (ops + [op])[..|ops|] == ops;
  }

  lemma TopFires<U, A>(d: D.Deferred<U, A>)
    requires D.Inv(d) && d.stack != []
    ensures d.lists[d.stack[|d.stack| - 1].l].firing
  {
    D.InvStacked(d);
  }

  lemma OnListIsStep<U, A>(d: D.Deferred<U, A>, op: D.Op<U, A>, l: D.Lid)
    requires D.Inv(d)
    ensures var now, mine := D.Step(d, op).lists[l], OnList(d, op, l);
            && |mine| <= 1
            && now == if mine == [] then d.lists[l] else Step(d.lists[l], mine[0])
  {
    hide AddTo, FireWith, Inner, DisableIt, LockIt, D.UserTurn, D.Users, D.Inv;
    if d.stack != [] {
      TopFires(d);
    }
  }

  /** However the operations on a deferred nest, each of its lists is a callback list that has gone through its
      own operations, one at a time. */
  lemma {:induction false} ListsRun<U, A>(ops: seq<D.Op<U, A>>, l: D.Lid)
    ensures D.Run(ops).lists[l] == Run(Fresh(FlagsOf(l)), OpsOf(ops, l))
  {
    hide D.Step, Step, OnList;
    if ops == [] {
      NewListsRun<U, A>(l);
    } else {
      var n := |ops| - 1;
      var d := D.Run(ops[..n]);
      ListsRun(ops[..n], l);
      D.RunInv(ops[..n]);
      OnListIsStep(d, ops[n], l);
      var mine := OnList(d, ops[n], l);
      if mine == [] {
        assert OpsOf(ops[..n], l) + mine == OpsOf(ops[..n], l);
      } else {
        assert mine == [mine[0]];
        RunOne(Fresh(FlagsOf(l)), OpsOf(ops[..n], l), mine[0]);
      }
    }
  }

  lemma NewListsRun<U, A>(l: D.Lid)
    ensures D.New<U, A>().lists[l] == Run(Fresh(FlagsOf(l)), [Add(Onset<U>(l))])
  {
    hide AddTo, D.Installed;
    var c := Fresh<D.Handler<U>, A>(FlagsOf(l));
    RunOne(c, [], Add(Onset<U>(l)));
    assert [] + [Add(Onset<U>(l))] == [Op<D.Handler<U>, A>.Add(Onset<U>(l))];
    D.AddToFresh<U, A>(FlagsOf(l), []);
  }

  // ---------------------------------------------------------------- locked and unlocked lists

  lemma {:induction false} InnerLocked<F, A>(c: Cb<F, A>)
    ensures Inner(c).locked == c.locked
    decreases |c.queue|
  {
    hide Inner;
    InnerOnce(c);
    NextItemIs(c.(index := -1));
    if c.queue != [] {
      InnerLocked(c.(index := -1, memory := Some(c.queue[0]), queue := c.queue[1..]));
    }
  }

  lemma StartLocked<F, A>(c: Cb<F, A>)
    ensures c.locked ==> Start(c).locked
  {
    hide Inner;
    var e := c.(locked := c.locked || c.flags.once, fired := true, firing := true);
    NextItemIs(e);
    if c.queue != [] {
      InnerLocked(e.(memory := Some(c.queue[0]), queue := c.queue[1..]));
    }
  }

  /** Nothing unlocks a list, and locking or disabling locks it. */
  lemma StepLocked<F, A>(c: Cb<F, A>, op: Op<F, A>)
    ensures c.locked || op.Lock? || op.Disable? ==> Step(c, op).locked
  {
    hide Append, Inner, Start, RemoveFrom;
    match op
    case Add(fs) =>
      if c.list.Some? {
        StartLocked(c.(index := |c.list.value| - 1, queue := c.queue + if c.memory.Some? then [c.memory.value] else [],
                       list := Some(Append(c.list.value, fs, c.flags.unique))));
      }
    case Remove(fs) => RemoveTouchesList(c, fs);
    case Fire(args) =>
    case Empty =>
    case Disable =>
    case Lock =>
    case Return(wasFalse) =>
      InnerLocked(c);
      InnerLocked(c.(index := |Items(c)|, memory := None));
  }

  lemma {:induction false} UnlockedCovered<F, A>(c: Cb<F, A>, ops: seq<Op<F, A>>)
    requires forall k :: 0 <= k < |ops| ==> !ops[k].Empty?
    ensures !Run(c, ops).locked ==> CoveredRun(ops)
  {
    hide Step;
    if ops != [] {
      UnlockedCovered(c, ops[..|ops| - 1]);
      StepLocked(Run(c, ops[..|ops| - 1]), ops[|ops| - 1]);
    }
  }

  lemma {:induction false} NothingEmptied<U, A>(ops: seq<D.Op<U, A>>, l: D.Lid)
    ensures forall k :: 0 <= k < |OpsOf(ops, l)| ==> !OpsOf(ops, l)[k].Empty? && !OpsOf(ops, l)[k].Remove?
  {
    hide D.Step, D.UserTurn, D.Current, D.Users;
    if ops != [] {
      NothingEmptied(ops[..|ops| - 1], l);
    }
  }

  /** As long as a list is not locked, each of its handlers has been called, or will be before the list comes to
      rest, once for each fire after its addition, with that fire's arguments, and once more for the arguments in
      use when it was added: progress handlers for every notification. */
  lemma HandlersOfUnlockedLists<U, A>(ops: seq<D.Op<U, A>>, l: D.Lid, h: D.Handler<U>, args: A)
    requires !D.Run(ops).lists[l].locked
    ensures var c, mine := D.Run(ops).lists[l], OpsOf(ops, l);
            && CoveredRun(mine) && NeverRemoved(mine, h)
            && Calls(c, h, args) + Owed(c, h, args) == Expected(FlagsOf(l), mine, h, args)
            && (!c.firing ==> Calls(c, h, args) == Expected(FlagsOf(l), mine, h, args))
  {
    hide Run, Kept, Calls, Owed, Expected;
    var mine := OpsOf(ops, l);
    ListsRun(ops, l);
    NothingEmptied(ops, l);
    UnlockedCovered(Fresh(FlagsOf(l)), mine);
    CalledOncePerFire(FlagsOf(l), mine, h, args);
  }

  // ---------------------------------------------------------------- notifications are passed on

  /** The first handler of an unlocked progress list is the one that passes notifications on. */
  ghost predicate Leads<U, A>(c: D.List<U, A>) {
    c.flags == FlagsOf(0) && (!c.locked ==> c.list.Some? && c.list.value != [] && c.list.value[0] == D.FireThen(3))
  }

  lemma LeadsList<U, A>(c: D.List<U, A>, d: D.List<U, A>)
    requires Leads(c) && d.flags == c.flags && (c.locked ==> d.locked)
    requires !d.locked && c.list.Some? ==> d.list.Some? && c.list.value <= d.list.value
    ensures Leads(d)
  {
  }

  lemma {:induction false} InnerKeepsList<F, A>(c: Cb<F, A>)
    ensures Inner(c).flags == c.flags && (!c.locked ==> Inner(c).list == c.list)
    decreases |c.queue|
  {
    hide Inner;
    InnerOnce(c);
    NextItemIs(c.(index := -1));
    if c.queue != [] {
      InnerKeepsList(c.(index := -1, memory := Some(c.queue[0]), queue := c.queue[1..]));
    }
  }

  lemma StartKeepsList<F, A>(c: Cb<F, A>)
    ensures Start(c).flags == c.flags && (!c.locked && !c.flags.once ==> Start(c).list == c.list)
  {
    hide Inner;
    var e := c.(locked := c.locked || c.flags.once, fired := true, firing := true);
    NextItemIs(e);
    if c.queue != [] {
      InnerKeepsList(e.(memory := Some(c.queue[0]), queue := c.queue[1..]));
    }
  }

  lemma StepLeads<U, A>(c: D.List<U, A>, op: ListOp<U, A>)
    requires Leads(c) && !op.Empty? && !op.Remove?
    ensures Leads(Step(c, op))
  {
    hide Append, Inner, Start;
    StepLocked(c, op);
    match op
    case Add(fs) =>
      if c.list.Some? {
        AppendAll(c.list.value, fs);
        StartKeepsList(c.(index := |c.list.value| - 1,
                          queue := c.queue + if c.memory.Some? then [c.memory.value] else [],
                          list := Some(c.list.value + fs)));
      }
    case Fire(args) => StartKeepsList(c.(queue := c.queue + [args]));
    case Disable =>
    case Lock =>
    case Return(wasFalse) => InnerKeepsList(c);
  }

  lemma {:induction false} RunLeads<U, A>(ops: seq<D.Op<U, A>>)
    ensures Leads(D.Run(ops).lists[0])
  {
    hide D.Step, OnList, Step;
    if ops == [] {
      D.AddToFresh<U, A>(FlagsOf(0), [D.FireThen(3)]);
    } else {
      var n := |ops| - 1;
      RunLeads(ops[..n]);
      D.RunInv(ops[..n]);
      OnListIsStep(D.Run(ops[..n]), ops[n], 0);
      NothingEmptied(ops, 0);
      var mine := OnList(D.Run(ops[..n]), ops[n], 0);
      if mine != [] {
        assert OpsOf(ops, 0)[|OpsOf(ops[..n], 0)|] == mine[0];
        StepLeads(D.Run(ops[..n]).lists[0], mine[0]);
      }
    }
  }

  /** Whenever the progress list of an undecided deferred starts on a notification, the first thing it does is to
      pass it on, with its arguments, to the handlers that `then` has added. */
  lemma NotificationsArePassedOn<U, A>(ops: seq<D.Op<U, A>>)
    requires var d := D.Run(ops);
             && d.stack != [] && d.stack[|d.stack| - 1] == D.Frame(0, false)
             && d.lists[0].index == 0 && !d.lists[0].locked
    ensures var d := D.Run(ops);
            && d.lists[0].memory.Some?
            && D.Step(d, D.Enter).lists[3] == FireWith(d.lists[3], d.lists[0].memory.value)
  {
    hide D.Run, FireWith;
    var d := D.Run(ops);
    D.RunInv(ops);
    RunLeads(ops);
    TopFires(d);
    ProgressHasArguments(d);
    assert D.Current(d.lists[0]) == Some(D.FireThen(3));
  }

  lemma ProgressHasArguments<U, A>(d: D.Deferred<U, A>)
    requires D.Inv(d)
    ensures d.lists[0].firing ==> d.lists[0].memory.Some?
  {
  }

  /** The first handler called for a notification of an idle progress list, in an undecided deferred. */
  lemma NotifyStarts<U, A>(ops: seq<D.Op<U, A>>, args: A)
    requires var d := D.Run(ops); D.UserTurn(d) && !d.lists[0].firing && !d.lists[0].locked
    ensures var e := D.Step(D.Run(ops), D.Call(0, args));
            && e.stack != [] && e.stack[|e.stack| - 1] == D.Frame(0, false)
            && e.lists[0].index == 0 && e.lists[0].memory == Some(args) && !e.lists[0].locked
  {
    hide D.Run, Inner, D.UserTurn;
    var c := D.Run(ops).lists[0];
    RunLeads(ops);
    ListsRun(ops, 0);
    NothingEmptied(ops, 0);
    UnlockedCovered(Fresh(FlagsOf(0)), OpsOf(ops, 0));
    ArgumentsInUse(FlagsOf(0), OpsOf(ops, 0));
    FireStarts(c, args);
    InnerIs(Fired(c, args));
  }

  // ---------------------------------------------------------------- notifications end

  lemma StepLocks<U, A>(d: D.Deferred<U, A>, op: D.Op<U, A>, l: D.Lid)
    requires D.Inv(d) && d.lists[l].locked
    ensures D.Step(d, op).lists[l].locked
  {
    hide D.Step, OnList, Step, D.Inv;
    OnListIsStep(d, op, l);
    var mine := OnList(d, op, l);
    if mine != [] {
      StepLocked(d.lists[l], mine[0]);
    }
  }

  /** The progress lists are locked once their turn among the installed handlers has come. */
  ghost predicate Quiet<U, A>(d: D.Deferred<U, A>, w: D.Lid) {
    && (D.Deciding(d, w) ==>
          var p := d.lists[w].index + if d.stack[|d.stack| - 1].entered then 1 else 0;
          (p >= 4 ==> d.lists[0].locked) && (p >= 5 ==> d.lists[3].locked))
    && (D.Decided(d, w) ==> d.lists[0].locked && d.lists[3].locked)
  }

  lemma LockedIsQuiet<U, A>(d: D.Deferred<U, A>, w: D.Lid)
    requires d.lists[0].locked && d.lists[3].locked
    ensures Quiet(d, w)
  {
    hide D.Deciding, D.Decided;
  }

  lemma UndecidedIsQuiet<U, A>(d: D.Deferred<U, A>, w: D.Lid)
    requires D.Undecided(d)
    ensures Quiet(d, w)
  {
    D.PhaseFixesState(d);
  }

  /** An installed handler that is executed, or that has returned, leaves the promised lists locked. */
  lemma DecidingQuiet<U, A>(d: D.Deferred<U, A>, w: D.Lid, op: D.Op<U, A>)
    requires D.Inv(d) && D.Deciding(d, w) && Quiet(d, w) && (op.Enter? || op.End?)
    ensures Quiet(D.Step(d, op), w)
  {
    hide Inner, D.Waits, D.Dead, D.Notifies, FireWith, D.Decided, D.Inv, D.AllUsers, OnceMemory;
    D.DecidingHandler(d, w);
    var top, c := d.stack[|d.stack| - 1], d.lists[w];
    StepLocksIf(d, op, 0);
    StepLocksIf(d, op, 3);
    if op.Enter? {
      if !top.entered && c.index == 3 {
        assert D.Installed<U>(w)[3] == D.LockList(0);
        assert D.Step(d, op).lists[0] == LockIt(d.lists[0]);
      } else if !top.entered && c.index == 4 {
        assert D.Installed<U>(w)[4] == D.LockList(3);
        assert D.Step(d, op).lists[3] == LockIt(d.lists[3]);
      }
    } else if top.entered {
      D.InnerNext(c);
    }
    DecidedFromDeciding(d, w, op);
  }

  lemma StepLocksIf<U, A>(d: D.Deferred<U, A>, op: D.Op<U, A>, l: D.Lid)
    requires D.Inv(d)
    ensures d.lists[l].locked ==> D.Step(d, op).lists[l].locked
  {
    hide D.Inv, D.Step;
    if d.lists[l].locked {
      StepLocks(d, op, l);
    }
  }

  /** Only behind the last installed handler the deferred is decided. */
  lemma DecidedFromDeciding<U, A>(d: D.Deferred<U, A>, w: D.Lid, op: D.Op<U, A>)
    requires D.Deciding(d, w) && (op.Enter? || op.End?)
    ensures D.Decided(D.Step(d, op), w) ==>
              d.lists[w].index + (if d.stack[|d.stack| - 1].entered then 1 else 0) >= 5
  {
    hide D.Deciding, D.Decided, D.Step;
    var e := D.Step(d, op);
    if d.lists[w].index < 5 {
      ThenUntouched(d, w, op);
    }
    if D.Decided(e, w) {
      DecidedFired(e, w);
    }
    DecidingFired(d, w);
  }

  lemma DecidedFired<U, A>(d: D.Deferred<U, A>, w: D.Lid)
    requires D.Decided(d, w)
    ensures d.lists[D.Then(w)].fired
  {
  }

  lemma DecidingFired<U, A>(d: D.Deferred<U, A>, w: D.Lid)
    requires D.Deciding(d, w)
    ensures !d.lists[D.Then(w)].fired
  {
  }

  lemma ThenUntouched<U, A>(d: D.Deferred<U, A>, w: D.Lid, op: D.Op<U, A>)
    requires D.Deciding(d, w) && (op.Enter? || op.End?) && d.lists[w].index < 5
    ensures D.Step(d, op).lists[D.Then(w)] == d.lists[D.Then(w)]
  {
    hide Inner, D.Waits, D.Dead, OnceMemory, D.AllUsers, DisableIt, LockIt;
    D.DecidingHandler(d, w);
  }

  lemma StepQuiet<U, A>(d: D.Deferred<U, A>, op: D.Op<U, A>)
    requires D.Inv(d) && Quiet(d, 1) && Quiet(d, 2)
    ensures Quiet(D.Step(d, op), 1) && Quiet(D.Step(d, op), 2)
  {
    hide Quiet, D.Deciding, D.Decided, D.Undecided, D.Step, D.Inv;
    var e := D.Step(d, op);
    var w: D.Lid := if D.Deciding(d, 1) || D.Decided(d, 1) then 1 else 2;
    Phases(d);
    if D.Decided(d, w) {
      DecidedIsLocked(d, w);
      StepLocksIf(d, op, 0);
      StepLocksIf(d, op, 3);
      LockedIsQuiet(e, 1);
      LockedIsQuiet(e, 2);
    } else if D.Deciding(d, w) {
      OtherIsQuiet(d, w, op);
      if op.AddUser? || op.Call? {
        UserWaits(d, w, op);
      } else {
        DecidingQuiet(d, w, op);
      }
    } else {
      FromUndecided(d, op);
    }
  }

  lemma Phases<U, A>(d: D.Deferred<U, A>)
    requires D.Inv(d)
    ensures D.Undecided(d) || D.Deciding(d, 1) || D.Deciding(d, 2) || D.Decided(d, 1) || D.Decided(d, 2)
  {
  }

  lemma DecidedIsLocked<U, A>(d: D.Deferred<U, A>, w: D.Lid)
    requires Quiet(d, w) && D.Decided(d, w)
    ensures d.lists[0].locked && d.lists[3].locked
  {
  }

  lemma UserWaits<U, A>(d: D.Deferred<U, A>, w: D.Lid, op: D.Op<U, A>)
    requires D.Deciding(d, w) && (op.AddUser? || op.Call?)
    ensures D.Step(d, op) == d
  {
    D.InstallingIsNotUser(d, w);
  }

  /** A deferred that one outcome is deciding is never decided by the other. */
  lemma OtherIsQuiet<U, A>(d: D.Deferred<U, A>, w: D.Lid, op: D.Op<U, A>)
    requires D.Inv(d) && D.Deciding(d, w)
    ensures Quiet(D.Step(d, op), 3 - w)
  {
    hide D.Step, D.Waits, D.Dead, D.Live, D.Stacked, D.ProgressOnly;
    D.StepKeepsInv(d, op);
    var e := D.Step(d, op);
    if op.AddUser? || op.Call? {
      UserWaits(d, w, op);
      NotOther(d, w);
    } else if op.Enter? {
      EnterSame(d, w);
      NotOther(e, w);
    } else {
      EndSame(d, w);
      NotOther(e, w);
    }
  }

  lemma NotOther<U, A>(d: D.Deferred<U, A>, w: D.Lid)
    requires D.Deciding(d, w) || D.Decided(d, w)
    ensures !D.Deciding(d, 3 - w) && !D.Decided(d, 3 - w)
  {
  }

  lemma EnterSame<U, A>(d: D.Deferred<U, A>, w: D.Lid)
    requires D.Inv(d) && D.Deciding(d, w)
    ensures D.Deciding(D.Step(d, D.Enter), w) || D.Decided(D.Step(d, D.Enter), w)
  {
    hide D.EnterBody, D.Deciding, D.Decided;
    D.EnterDeciding(d, w);
  }

  lemma EndSame<U, A>(d: D.Deferred<U, A>, w: D.Lid)
    requires D.Inv(d) && D.Deciding(d, w)
    ensures D.Deciding(D.Step(d, D.End), w)
  {
    hide D.EndCall, D.Deciding, D.Decided;
    D.EndDeciding(d, w);
  }

  lemma FromUndecided<U, A>(d: D.Deferred<U, A>, op: D.Op<U, A>)
    requires D.Inv(d) && D.Undecided(d)
    ensures Quiet(D.Step(d, op), 1) && Quiet(D.Step(d, op), 2)
  {
    hide D.Undecided, D.Deciding, D.Decided, Quiet, D.EnterBody, D.EndCall, D.UserTurn, AddTo, FireWith, D.Put;
    D.InvStacked(d);
    var e := D.Step(d, op);
    InvProgress(d);
    match op
    case AddUser(l, us) =>
      if D.UserTurn(d) {
        D.AddKeepsUndecided(d, l, us);
      }
      BothQuiet(e);
    case Call(l, args) =>
      if l < 3 && D.UserTurn(d) {
        if l == 0 {
          D.UndecidedPut(d, l, FireWith(d.lists[l], args));
          BothQuiet(e);
        } else {
          D.CallDecides(d, l, args);
          JustBegun(d, l, args);
        }
      } else {
        BothQuiet(e);
      }
    case Enter =>
      D.EnterUndecided(d);
      BothQuiet(e);
    case End =>
      D.EndUndecided(d);
      BothQuiet(e);
  }

  lemma InvProgress<U, A>(d: D.Deferred<U, A>)
    requires D.Inv(d)
    ensures D.ProgressOnly(d)
  {
  }

  lemma BothQuiet<U, A>(d: D.Deferred<U, A>)
    requires D.Undecided(d)
    ensures Quiet(d, 1) && Quiet(d, 2)
  {
    UndecidedIsQuiet(d, 1);
    UndecidedIsQuiet(d, 2);
  }

  lemma JustBegun<U, A>(d: D.Deferred<U, A>, w: D.Lid, args: A)
    requires D.Undecided(d) && (w == 1 || w == 2)
    ensures var e := D.Put(d, w, FireWith(d.lists[w], args)); Quiet(e, 1) && Quiet(e, 2)
  {
    hide D.Deciding, D.Decided, FireWith;
    var e := D.Put(d, w, FireWith(d.lists[w], args));
    D.CallDecides(d, w, args);
    D.FireWaits(d.lists[w], D.Installed(w), args);
    NotOther(e, w);
    D.PhaseFixesState(e);
    assert e.settled == None;
    assert d.lists[w].list.value != [];
  }

  lemma {:induction false} RunQuiet<U, A>(ops: seq<D.Op<U, A>>)
    ensures Quiet(D.Run(ops), 1) && Quiet(D.Run(ops), 2)
  {
    hide D.Step, Quiet, D.Inv;
    if ops == [] {
      NewUndecided<U, A>();
      BothQuiet(D.New<U, A>());
    } else {
      RunQuiet(ops[..|ops| - 1]);
      D.RunInv(ops[..|ops| - 1]);
      StepQuiet(D.Run(ops[..|ops| - 1]), ops[|ops| - 1]);
    }
  }

  lemma NewUndecided<U, A>()
    ensures D.Undecided(D.New<U, A>())
  {
    D.NewInv<U, A>();
  }

  /** After a deferred has settled and user code runs again, both progress lists are locked and notify does
      nothing. */
  lemma SettledNotifiesNothing<U, A>(ops: seq<D.Op<U, A>>, args: A)
    requires D.Run(ops).settled.Some? && D.UserTurn(D.Run(ops))
    ensures var d := D.Run(ops);
            && d.lists[0].locked && d.lists[3].locked
            && D.Step(d, D.Call(0, args)) == d
  {
    hide D.Run, Quiet, D.Deciding, D.Decided, D.Undecided, D.UserTurn;
    var d := D.Run(ops);
    D.RunInv(ops);
    RunQuiet(ops);
    Phases(d);
    D.NotDeciding(d);
    D.PhaseFixesState(d);
    DecidedIsLocked(d, if D.Decided(d, 1) then 1 else 2);
  }
}
