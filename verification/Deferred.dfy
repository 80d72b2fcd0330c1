/** jQuery's deferred over its six callback lists. Callbacks of one list call other lists, so
    firings nest; a state holds the lists and the stack of the lists that are firing. Lists 0, 1, 2
    are progress, done and fail; list l + 3 holds the handlers that `then` adds for list l. */
module Deferred {
  import opened Optional
  import opened Callbacks

  type Lid = l: nat | l < 6

  const PROGRESS: Lid := 0
  const DONE: Lid := 1
  const FAIL: Lid := 2

  function Then(l: Lid): Lid
    requires l < 3
  {
    l + 3
  }

  predicate Settles(w: Lid) {
    w == DONE || w == FAIL
  }

  function Other(w: Lid): (o: Lid)
    requires Settles(w)
    ensures Settles(o) && o != w
  {
    3 - w
  }

  /** What a list holds: handlers of the program's users and the ones the constructor installs. */
  datatype Handler<U> = User(u: U) | SetState(w: Lid) | DisableList(l: Lid) | LockList(l: Lid) | FireThen(l: Lid)

  type List<U, A> = Cb<Handler<U>, A>

  /** A firing list; entered says that the body of an installed handler has been executed. */
  datatype Frame = Frame(l: Lid, entered: bool)

  /** settled: the list that decided the state, absent while it is pending. */
  datatype Def<U, A> = Def(settled: Option<Lid>, lists: seq<List<U, A>>, stack: seq<Frame>)

  type Deferred<U, A> = d: Def<U, A> | |d.lists| == 6
    witness Def(None, [Fresh(MEMORY), Fresh(MEMORY), Fresh(MEMORY), Fresh(MEMORY), Fresh(MEMORY), Fresh(MEMORY)], [])

  // ---------------------------------------------------------------- construction

  /** The handlers installed on done and fail: record the state, disable both lists of the other
      outcome, lock both progress lists, and pass the call on to the `then` handlers. */
  function Installed<U>(w: Lid): seq<Handler<U>>
    requires Settles(w)
  {
    [SetState(w), DisableList(Other(w)), DisableList(Then(Other(w))),
     LockList(PROGRESS), LockList(Then(PROGRESS)), FireThen(Then(w))]
  }

  function New<U(==), A>(): Deferred<U, A> {
    Def(None,
        [AddTo(Fresh(MEMORY), [FireThen(Then(PROGRESS))]),
         AddTo(Fresh(ONCE_MEMORY), Installed(DONE)), AddTo(Fresh(ONCE_MEMORY), Installed(FAIL)),
         Fresh(MEMORY), Fresh(ONCE_MEMORY), Fresh(ONCE_MEMORY)],
        [])
  }

  // ---------------------------------------------------------------- steps

  /** Operations of user code: adding handlers to a list, and notify, resolve or reject. The other
      two are the program's own: executing the body of an installed handler, and ending a call. */
  datatype Op<U, A> = AddUser(l: Lid, us: seq<U>) | Call(l: Lid, args: A) | Enter | End

  function Users<U>(us: seq<U>): seq<Handler<U>> {
    seq(|us|, i requires 0 <= i < |us| => User(us[i]))
  }

  function Current<U, A>(c: List<U, A>): Option<Handler<U>> {
    if c.firing && 0 <= c.index < |Items(c)| then Some(Items(c)[c.index]) else None
  }

  /** User code runs outside any firing or inside a user handler. */
  predicate UserTurn<U, A>(d: Deferred<U, A>) {
    d.stack == [] || (var h := Current(d.lists[d.stack[|d.stack| - 1].l]); h.Some? && h.value.User?)
  }

  /** Replaces a list; a list that has started to fire is put on the stack. */
  function Put<U, A>(d: Deferred<U, A>, l: Lid, c: List<U, A>): Deferred<U, A> {
    d.(lists := d.lists[l := c],
       stack := if c.firing && !d.lists[l].firing then d.stack + [Frame(l, false)] else d.stack)
  }

  /** The body of an installed handler. */
  function Body<U(==), A>(d: Deferred<U, A>, h: Handler<U>, args: Option<A>): Deferred<U, A> {
    match h
    case User(_) => d
    case SetState(w) => d.(settled := Some(w))
    case DisableList(l) => Put(d, l, DisableIt(d.lists[l]))
    case LockList(l) => Put(d, l, LockIt(d.lists[l]))
    case FireThen(l) => if args.Some? then Put(d, l, FireWith(d.lists[l], args.value)) else d
  }

  function EnterBody<U(==), A>(d: Deferred<U, A>): Deferred<U, A> {
    if d.stack == [] then d
    else
      var n := |d.stack| - 1;
      var top := d.stack[n];
      var h := Current(d.lists[top.l]);
      if top.entered || h.None? || h.value.User? then d
      else Body(Marked(d), h.value, d.lists[top.l].memory)
  }

  /** The running handler of the innermost firing returns; that list calls its next handler or
      stops firing. */
  function EndCall<U, A>(d: Deferred<U, A>): Deferred<U, A> {
    if d.stack == [] then d
    else
      var n := |d.stack| - 1;
      var top := d.stack[n];
      var h := Current(d.lists[top.l]);
      if !top.entered && h.Some? && !h.value.User? then d
      else
        var c := Inner(d.lists[top.l]);
        d.(lists := d.lists[top.l := c],
           stack := if c.firing then d.stack[n := Frame(top.l, false)] else d.stack[..n])
  }

  function Step<U(==), A>(d: Deferred<U, A>, op: Op<U, A>): Deferred<U, A> {
    match op
    case AddUser(l, us) => if UserTurn(d) then Put(d, l, AddTo(d.lists[l], Users(us))) else d
    case Call(l, args) => if l < 3 && UserTurn(d) then Put(d, l, FireWith(d.lists[l], args)) else d
    case Enter => EnterBody(d)
    case End => EndCall(d)
  }

  function Run<U(==), A>(ops: seq<Op<U, A>>): Deferred<U, A> {
    if ops == [] then New() else Step(Run(ops[..|ops| - 1]), ops[|ops| - 1])
  }

  // ---------------------------------------------------------------- invariants

  ghost predicate AllUsers<U>(hs: seq<Handler<U>>) {
    forall i :: 0 <= i < |hs| ==> hs[i].User?
  }

  /** Not fired; the installed handlers come first. */
  ghost predicate Waits<U, A>(c: List<U, A>, installed: seq<Handler<U>>) {
    && OnceMemory(c) && Waiting(c)
    && |c.list.value| >= |installed| && c.list.value[..|installed|] == installed
    && AllUsers(c.list.value[|installed|..])
  }

  /** Never fired and never will. */
  ghost predicate Dead<U, A>(c: List<U, A>) {
    c.list.None? && c.memory.None? && c.queue == [] && c.locked && !c.firing && c.log == []
  }

  /** Fired; only users' handlers are still to be called. */
  ghost predicate Live<U, A>(c: List<U, A>) {
    OnceMemory(c) && c.fired && AllUsers(Ahead(c)) && (c.firing ==> c.index >= 0)
  }

  /** The stack holds exactly the firing lists, each once. */
  ghost predicate Stacked<U, A>(d: Deferred<U, A>) {
    && (forall i, j :: 0 <= i < j < |d.stack| ==> d.stack[i].l != d.stack[j].l)
    && (forall i :: 0 <= i < |d.stack| ==> d.lists[d.stack[i].l].firing)
    && (forall l: Lid :: d.lists[l].firing ==> exists i :: 0 <= i < |d.stack| && d.stack[i].l == l)
  }

  ghost predicate Undecided<U, A>(d: Deferred<U, A>) {
    && d.settled == None
    && forall w: Lid :: Settles(w) ==> Waits(d.lists[w], Installed(w)) && Waits(d.lists[Then(w)], [])
  }

  /** The handlers installed on list w are being executed: p of their bodies are done. */
  ghost predicate Deciding<U, A>(d: Deferred<U, A>, w: Lid) {
    && Settles(w) && d.stack != []
    && var top := d.stack[|d.stack| - 1];
       var c := d.lists[w];
       && top.l == w && OnceMemory(c) && Firing(c) && 0 <= c.index < 6 <= |c.list.value|
       && c.list.value[..6] == Installed(w) && AllUsers(c.list.value[6..])
       && var p := c.index + if top.entered then 1 else 0;
          && p < 6
          && d.settled == (if p >= 1 then Some(w) else None)
          && (if p >= 2 then Dead(d.lists[Other(w)]) else Waits(d.lists[Other(w)], Installed(Other(w))))
          && (if p >= 3 then Dead(d.lists[Then(Other(w))]) else Waits(d.lists[Then(Other(w))], []))
          && Waits(d.lists[Then(w)], [])
  }

  ghost predicate Decided<U, A>(d: Deferred<U, A>, w: Lid) {
    && Settles(w) && d.settled == Some(w)
    && Dead(d.lists[Other(w)]) && Dead(d.lists[Then(Other(w))])
    && Live(d.lists[w]) && Live(d.lists[Then(w)]) && d.lists[w].memory == d.lists[Then(w)].memory
    && forall i :: 0 <= i < |d.stack| && (d.stack[i].l == w || d.stack[i].l == Then(w)) && !d.stack[i].entered ==>
         var h := Current(d.lists[d.stack[i].l]); h.Some? ==> h.value.User?
  }

  /** Users' handlers and, on the first progress list, the one that passes notifications on. */
  ghost predicate Notifies<U, A>(c: List<U, A>, passes: bool) {
    && c.flags == MEMORY && (c.firing ==> c.memory.Some?)
    && forall i :: 0 <= i < |Items(c)| ==> Items(c)[i].User? || (passes && Items(c)[i] == FireThen(Then(PROGRESS)))
  }

  ghost predicate ProgressOnly<U, A>(d: Deferred<U, A>) {
    Notifies(d.lists[PROGRESS], true) && Notifies(d.lists[Then(PROGRESS)], false)
  }

  ghost predicate Inv<U, A>(d: Deferred<U, A>) {
    Stacked(d) && ProgressOnly(d) && (Undecided(d) || Deciding(d, DONE) || Deciding(d, FAIL) || Decided(d, DONE)
        || Decided(d, FAIL))
  }

  // ---------------------------------------------------------------- single lists

  lemma AddUsersWaits<U, A>(c: List<U, A>, installed: seq<Handler<U>>, us: seq<U>)
    requires Waits(c, installed)
    ensures var d := AddTo(c, Users(us)); Waits(d, installed) && Plan(d) == Plan(c) + Users(us)
  {
    hide Start, Inner;
    AppendAll(c.list.value, Users(us));
    AddStep(c, Users(us));
    var n := |installed|;
    assert (c.list.value + Users(us))[..n] == c.list.value[..n];
    assert (c.list.value + Users(us))[n..] == c.list.value[n..] + Users(us);
  }

  lemma InnerNext<U, A>(c: List<U, A>)
    requires c.memory.Some? && -1 <= c.index && c.index + 1 < |Items(c)|
    ensures var d := Inner(c);
            d == c.(index := c.index + 1, log := d.log)
  {
  }

  lemma FireWaits<U, A>(c: List<U, A>, installed: seq<Handler<U>>, args: A)
    requires Waits(c, installed)
    ensures var d := FireWith(c, args);
            && OnceMemory(d) && d.fired && Plan(d) == Plan(c) && d.memory == Some(args)
            && (c.list.value == [] ==> !d.firing)
            && (c.list.value != [] ==> Firing(d) && d.index == 0 && d.list == c.list)
  {
    hide Inner;
    FireStep(c, args);
    var queue := c.queue + [args];
    assert queue == [args] && queue[1..] == [];
    var e := c.(locked := true, fired := true, firing := true, memory := Some(args));
    assert FireWith(c, args) == Inner(e);
    if c.list.value != [] {
      InnerNext(e);
    } else {
      InnerEnds(e);
    }
  }

  lemma InnerEnds<U, A>(c: List<U, A>)
    requires c.flags == ONCE_MEMORY && Firing(c) && c.index + 1 == |c.list.value|
    ensures !Inner(c).firing
  {
  }

  lemma InnerLive<U, A>(c: List<U, A>)
    requires Live(c) && c.firing
    ensures var d := Inner(c);
            && Live(d) && Plan(d) == Plan(c) && d.memory == c.memory
            && (d.firing ==> Current(d).Some? && Current(d).value.User?)
  {
    hide Inner;
    InnerStep(c);
    if c.index + 1 < |c.list.value| {
      InnerNext(c);
      assert Ahead(c)[0] == c.list.value[c.index + 1];
      assert Ahead(Inner(c)) == Ahead(c)[1..];
    } else {
      InnerEnds(c);
    }
  }

  lemma AddWhileFiring<U, A>(c: List<U, A>, us: seq<U>)
    requires Live(c) && c.firing
    ensures var d := AddTo(c, Users(us));
            d.firing && d.index == c.index && Ahead(d) == Ahead(c) + Users(us) && (Current(c).Some? ==>
                Current(d) == Current(c))
  {
    hide Start, Append, Users;
    AppendAll(c.list.value, Users(us));
    assert (c.list.value + Users(us))[c.index + 1..] == c.list.value[c.index + 1..] + Users(us);
  }

  /** A handler added to a settled list starts a new firing of the list, which holds only it. */
  lemma AddSettled<U, A>(c: List<U, A>, us: seq<U>)
    requires Live(c) && !c.firing
    ensures var d := AddTo(c, Users(us));
            && (us == [] ==> !d.firing)
            && (us != [] ==> d.firing && d.index == 0 && d.list == Some(Users(us)))
  {
    hide Inner, AddTo;
    AddAtRest(c, Users(us));
    var e := c.(list := Some(Users(us)), firing := true);
    if us != [] {
      InnerNext(e);
    } else {
      InnerEnds(e);
    }
  }

  lemma AddLive<U, A>(c: List<U, A>, us: seq<U>)
    requires Live(c)
    ensures var d := AddTo(c, Users(us));
            && Live(d) && Plan(d) == Plan(c) + Users(us) && d.memory == c.memory
            && (c.firing ==> d.firing && d.index == c.index && (Current(c).Some? ==> Current(d) == Current(c)))
            && (!c.firing && d.firing ==> Current(d).Some? && Current(d).value.User?)
  {
    hide AddTo, Plan;
    AddStep(c, Users(us));
    if c.firing {
      AddWhileFiring(c, us);
    } else {
      AddSettled(c, us);
    }
  }

  // ---------------------------------------------------------------- the stack and the progress lists

  lemma PutStacked<U, A>(d: Deferred<U, A>, l: Lid, c: List<U, A>)
    requires Stacked(d) && (d.lists[l].firing ==> c.firing)
    ensures Stacked(Put(d, l, c))
  {
    var e := Put(d, l, c);
    forall k: Lid | e.lists[k].firing ensures exists i :: 0 <= i < |e.stack| && e.stack[i].l == k {
      if d.lists[k].firing {
        var i :| 0 <= i < |d.stack| && d.stack[i].l == k;
        assert e.stack[i].l == k;
      } else {
        assert e.stack[|e.stack| - 1].l == k;
      }
    }
  }

  lemma AddFires<U, A>(c: List<U, A>, fs: seq<Handler<U>>)
    ensures c.firing ==> AddTo(c, fs).firing
  {
  }

  lemma EndStacked<U, A>(d: Deferred<U, A>)
    requires Stacked(d)
    ensures Stacked(EndCall(d))
  {
    hide Inner;
    var e := EndCall(d);
    if d.stack != [] && e != d {
      var n := |d.stack| - 1;
      forall k: Lid | e.lists[k].firing ensures exists i :: 0 <= i < |e.stack| && e.stack[i].l == k {
        var i :| 0 <= i < |d.stack| && d.stack[i].l == k;
        assert i < |e.stack| && e.stack[i].l == k;
      }
    }
  }

  /** The innermost firing with its installed handler marked as executed. */
  function Marked<U, A>(d: Deferred<U, A>): Deferred<U, A>
    requires d.stack != []
  {
    d.(stack := d.stack[|d.stack| - 1 := d.stack[|d.stack| - 1].(entered := true)])
  }

  lemma MarkedStacked<U, A>(d: Deferred<U, A>)
    requires Stacked(d) && d.stack != []
    ensures Stacked(Marked(d))
  {
    var e := Marked(d);
    forall k: Lid | e.lists[k].firing ensures exists i :: 0 <= i < |e.stack| && e.stack[i].l == k {
      var i :| 0 <= i < |d.stack| && d.stack[i].l == k;
      assert e.stack[i].l == k;
    }
  }

  lemma BodyStacked<U, A>(d: Deferred<U, A>, h: Handler<U>, args: Option<A>)
    requires Stacked(d)
    ensures Stacked(Body(d, h, args))
  {
    hide Put, Start;
    match h
    case User(_) =>
    case SetState(w) =>
    case DisableList(l) => PutStacked(d, l, DisableIt(d.lists[l]));
    case LockList(l) => PutStacked(d, l, LockIt(d.lists[l]));
    case FireThen(l) =>
      if args.Some? {
        PutStacked(d, l, FireWith(d.lists[l], args.value));
      }
  }

  lemma EnterStacked<U, A>(d: Deferred<U, A>)
    requires Stacked(d)
    ensures Stacked(EnterBody(d))
  {
    hide Stacked, Body, Current;
    if d.stack != [] {
      var top := d.stack[|d.stack| - 1];
      var h := Current(d.lists[top.l]);
      MarkedStacked(d);
      if h.Some? {
        BodyStacked(Marked(d), h.value, d.lists[top.l].memory);
      }
    }
  }

  /** A firing never adds handlers. */
  lemma {:induction false} InnerItems<U, A>(c: List<U, A>)
    ensures Inner(c).flags == c.flags && (Inner(c).firing ==> Inner(c).memory.Some?)
    ensures Items(Inner(c)) == Items(c) || Items(Inner(c)) == []
    decreases |c.queue|, 1
  {
    var l := c.index + 1;
    if !(0 <= l < |Items(c)| && c.memory.Some?) {
      NextItems(c.(index := -1));
    }
  }

  lemma {:induction false} NextItems<U, A>(c: List<U, A>)
    ensures NextItem(c).flags == c.flags && (NextItem(c).firing ==> NextItem(c).memory.Some?)
    ensures Items(NextItem(c)) == Items(c) || Items(NextItem(c)) == []
    decreases |c.queue|, 0
  {
    if c.queue != [] {
      InnerItems(c.(memory := Some(c.queue[0]), queue := c.queue[1..]));
    }
  }

  lemma AddNotifies<U, A>(c: List<U, A>, us: seq<U>, passes: bool)
    requires Notifies(c, passes)
    ensures Notifies(AddTo(c, Users(us)), passes)
  {
    hide NextItem, Append;
    if c.list.Some? {
      AppendAll(c.list.value, Users(us));
      var more := c.list.value + Users(us);
      forall i | 0 <= i < |more| ensures more[i].User? || (passes && more[i] == FireThen(Then(PROGRESS))) {
        assert i < |Items(c)| ==> more[i] == Items(c)[i];
      }
      if c.memory.Some? && !c.firing {
        var e := c.(index := |c.list.value| - 1, queue := c.queue + [c.memory.value], list := Some(more));
        var started := e.(locked := e.locked || e.flags.once, fired := true, firing := true);
        assert AddTo(c, Users(us)) == NextItem(started);
        NextItems(started);
        assert Items(started) == more;
        var r := AddTo(c, Users(us));
        assert Items(r) == more || Items(r) == [];
        assert r.flags == MEMORY;
      } else {
        assert Items(AddTo(c, Users(us))) == more;
      }
    }
  }

  lemma FireNotifies<U, A>(c: List<U, A>, args: A, passes: bool)
    requires Notifies(c, passes)
    ensures Notifies(FireWith(c, args), passes)
  {
    hide NextItem;
    if !c.locked {
      var e := c.(queue := c.queue + [args]);
      assert Items(e) == Items(c);
      if !c.firing {
        var started := e.(locked := e.locked || e.flags.once, fired := true, firing := true);
        assert FireWith(c, args) == NextItem(started);
        NextItems(started);
        assert Items(started) == Items(c);
      }
    }
  }

  // ---------------------------------------------------------------- replacing one list keeps the phase

  lemma UndecidedPut<U, A>(d: Deferred<U, A>, l: Lid, c: List<U, A>)
    requires Undecided(d)
    requires Settles(l) ==> Waits(c, Installed(l))
    requires l == Then(DONE) || l == Then(FAIL) ==> Waits(c, [])
    ensures Undecided(Put(d, l, c))
  {
    hide Waits, Installed;
  }

  lemma DecidedPut<U, A>(d: Deferred<U, A>, w: Lid, l: Lid, c: List<U, A>)
    requires Decided(d, w)
    requires l == Other(w) || l == Then(Other(w)) ==> c == d.lists[l]
    requires l == w || l == Then(w) ==> Live(c) && c.memory == d.lists[l].memory
    requires l == w || l == Then(w) ==>
               if d.lists[l].firing then Current(d.lists[l]).Some? ==> Current(c) == Current(d.lists[l])
               else c.firing ==> Current(c).Some? && Current(c).value.User?
    requires l == w || l == Then(w) ==> forall i :: 0 <= i < |d.stack| && d.stack[i].l == l ==>
        Current(d.lists[l]).Some?
    requires !d.lists[l].firing ==> forall i :: 0 <= i < |d.stack| ==> d.stack[i].l != l
    ensures Decided(Put(d, l, c), w)
  {
    hide Live, Dead, Current;
  }

  lemma PutLists<U, A>(d: Deferred<U, A>, l: Lid, c: List<U, A>)
    ensures Put(d, l, c).lists == d.lists[l := c]
  {
  }

  lemma ProgressPut<U, A>(d: Deferred<U, A>, l: Lid, c: List<U, A>)
    requires ProgressOnly(d)
    requires l == PROGRESS ==> Notifies(c, true)
    requires l == Then(PROGRESS) ==> Notifies(c, false)
    ensures ProgressOnly(Put(d, l, c))
  {
    hide Notifies;
  }

  lemma LiveCurrent<U, A>(c: List<U, A>)
    requires Live(c) && c.firing
    ensures Current(c).Some?
  {
  }

  /** The calls made and to come of the settling lists and their `then` lists, unless dead. */
  ghost predicate PlansKept<U, A>(d: Deferred<U, A>, e: Deferred<U, A>) {
    forall l: Lid :: l != PROGRESS && l != Then(PROGRESS) ==> Dead(e.lists[l]) || Plan(e.lists[l]) == Plan(d.lists[l])
  }

  // ---------------------------------------------------------------- every step keeps the invariant

  lemma DeadStays<U, A>(c: List<U, A>, fs: seq<Handler<U>>)
    requires Dead(c)
    ensures AddTo(c, fs) == c
  {
  }

  lemma AddKeepsUndecided<U, A>(d: Deferred<U, A>, l: Lid, us: seq<U>)
    requires Undecided(d)
    ensures Undecided(Put(d, l, AddTo(d.lists[l], Users(us))))
  {
    hide Waits, AddTo, Put, Installed;
    if l != PROGRESS && l != Then(PROGRESS) {
      var base: Lid := if l < 3 then l else l - 3;
      assert Settles(base);
      AddUsersWaits(d.lists[l], if l < 3 then Installed(l) else [], us);
    }
    UndecidedPut(d, l, AddTo(d.lists[l], Users(us)));
  }

  lemma AddKeepsDecided<U, A>(d: Deferred<U, A>, w: Lid, l: Lid, us: seq<U>)
    requires Decided(d, w) && Stacked(d)
    ensures Decided(Put(d, l, AddTo(d.lists[l], Users(us))), w)
  {
    hide Live, Dead, AddTo, Put, Users;
    if l == w || l == Then(w) {
      AddLive(d.lists[l], us);
      if d.lists[l].firing {
        LiveCurrent(d.lists[l]);
      }
    } else if l == Other(w) || l == Then(Other(w)) {
      DeadStays(d.lists[l], Users(us));
    }
    DecidedPut(d, w, l, AddTo(d.lists[l], Users(us)));
  }

  lemma AddKeeps<U, A>(d: Deferred<U, A>, l: Lid, us: seq<U>)
    requires Inv(d) && UserTurn(d)
    ensures Inv(Step(d, AddUser(l, us)))
  {
    hide AddTo, Put, Stacked, Notifies, Undecided, Decided;
    var c := AddTo(d.lists[l], Users(us));
    AddFires(d.lists[l], Users(us));
    PutStacked(d, l, c);
    if l == PROGRESS || l == Then(PROGRESS) {
      AddNotifies(d.lists[l], us, l == PROGRESS);
    }
    ProgressPut(d, l, c);
    NotDeciding(d);
    if Undecided(d) {
      AddKeepsUndecided(d, l, us);
    } else {
      AddKeepsDecided(d, if Decided(d, DONE) then DONE else FAIL, l, us);
    }
  }

  /** User code never runs between the installed handlers. */
  lemma NotDeciding<U, A>(d: Deferred<U, A>)
    requires UserTurn(d)
    ensures !Deciding(d, DONE) && !Deciding(d, FAIL)
  {
  }

  lemma CallKeepsDecided<U, A>(d: Deferred<U, A>, w: Lid, l: Lid, args: A)
    requires Decided(d, w) && l < 3
    ensures Decided(Put(d, l, FireWith(d.lists[l], args)), w)
    ensures l != PROGRESS ==> FireWith(d.lists[l], args) == d.lists[l]
  {
    hide Current, Inner;
    if l != PROGRESS {
      assert FireWith(d.lists[l], args) == d.lists[l];
    }
  }

  /** The first resolve or reject starts the firing of its list with the state handler. */
  lemma CallDecides<U, A>(d: Deferred<U, A>, w: Lid, args: A)
    requires Undecided(d) && Settles(w)
    ensures Deciding(Put(d, w, FireWith(d.lists[w], args)), w)
    ensures Plan(FireWith(d.lists[w], args)) == Plan(d.lists[w])
  {
    hide FireWith;
    var c := d.lists[w];
    var e := FireWith(c, args);
    FireWaits(c, Installed(w), args);
    assert c.list.value != [];
  }

  lemma CallKeeps<U, A>(d: Deferred<U, A>, l: Lid, args: A)
    requires Inv(d) && UserTurn(d) && l < 3
    ensures Inv(Step(d, Call(l, args))) && PlansKept(d, Step(d, Call(l, args)))
  {
    hide Plan, Stacked, Notifies, Undecided, Decided, Deciding;
    var c := FireWith(d.lists[l], args);
    PutStacked(d, l, c);
    if l == PROGRESS {
      FireNotifies(d.lists[l], args, true);
    }
    ProgressPut(d, l, c);
    NotDeciding(d);
    if Undecided(d) {
      if l == PROGRESS {
        UndecidedPut(d, l, c);
      } else {
        CallDecides(d, l, args);
      }
    } else {
      CallKeepsDecided(d, if Decided(d, DONE) then DONE else FAIL, l, args);
    }
  }

  /** While a progress list is innermost, the only installed handler passes the notification on. */
  lemma EnterOnProgress<U, A>(d: Deferred<U, A>)
    requires ProgressOnly(d) && d.stack != []
    requires var l := d.stack[|d.stack| - 1].l; l == PROGRESS || l == Then(PROGRESS)
    ensures EnterBody(d) == d ||
            exists args ::
              EnterBody(d) == Put(Marked(d), Then(PROGRESS), FireWith(d.lists[Then(PROGRESS)], args))
  {
    hide FireWith;
    var l := d.stack[|d.stack| - 1].l;
    var h := Current(d.lists[l]);
    if EnterBody(d) != d {
      assert Items(d.lists[l])[d.lists[l].index] == h.value;
      assert h.value == FireThen(Then(PROGRESS));
      var args := d.lists[l].memory.value;
      assert EnterBody(d) == Put(Marked(d), Then(PROGRESS), FireWith(d.lists[Then(PROGRESS)], args));
    }
  }

  lemma EnterUndecided<U, A>(d: Deferred<U, A>)
    requires Undecided(d) && Stacked(d) && ProgressOnly(d)
    ensures Undecided(EnterBody(d)) && ProgressOnly(EnterBody(d))
    ensures PlansKept(d, EnterBody(d))
  {
    hide EnterBody, Put, FireWith, Notifies;
    if d.stack == [] {
      EnterNothing(d);
    } else {
      InnermostProgress(d);
      EnterOnProgress(d);
      if EnterBody(d) != d {
        var args :| EnterBody(d) == Put(Marked(d), Then(PROGRESS), FireWith(d.lists[Then(PROGRESS)], args));
        var c := FireWith(d.lists[Then(PROGRESS)], args);
        FireNotifies(d.lists[Then(PROGRESS)], args, false);
        UndecidedPut(Marked(d), Then(PROGRESS), c);
        PutLists(Marked(d), Then(PROGRESS), c);
        ProgressPut(Marked(d), Then(PROGRESS), c);
      }
    }
  }

  lemma EnterNothing<U, A>(d: Deferred<U, A>)
    requires d.stack == []
    ensures EnterBody(d) == d && EndCall(d) == d
  {
  }

  lemma InnermostProgress<U, A>(d: Deferred<U, A>)
    requires Undecided(d) && Stacked(d) && d.stack != []
    ensures var l := d.stack[|d.stack| - 1].l; l == PROGRESS || l == Then(PROGRESS)
  {
    var l := d.stack[|d.stack| - 1].l;
    forall w: Lid | Settles(w) ensures !d.lists[w].firing && !d.lists[Then(w)].firing {
    }
    assert Settles(DONE) && Settles(FAIL) && d.lists[l].firing;
  }

  lemma EnterDecided<U, A>(d: Deferred<U, A>, w: Lid)
    requires Decided(d, w) && Stacked(d) && ProgressOnly(d)
    ensures Decided(EnterBody(d), w) && ProgressOnly(EnterBody(d))
    ensures PlansKept(d, EnterBody(d))
  {
    hide Put, FireWith, Notifies, Live;
    if d.stack != [] {
      var n := |d.stack| - 1;
      var l := d.stack[n].l;
      assert d.lists[l].firing;
      if l == w || l == Then(w) {
        assert EnterBody(d) == d;
      } else {
        assert l == PROGRESS || l == Then(PROGRESS);
        EnterOnProgress(d);
        if EnterBody(d) != d {
          hide EnterBody;
          var args :| EnterBody(d) == Put(Marked(d), Then(PROGRESS), FireWith(d.lists[Then(PROGRESS)], args));
          var c := FireWith(d.lists[Then(PROGRESS)], args);
          FireNotifies(d.lists[Then(PROGRESS)], args, false);
          MarkedStacked(d);
          DecidedPut(Marked(d), w, Then(PROGRESS), c);
          PutLists(Marked(d), Then(PROGRESS), c);
          ProgressPut(Marked(d), Then(PROGRESS), c);
        }
      }
    }
  }

  /** Installed handlers one by one: what is left to do shrinks by the effect of the next one. */
  lemma DecidingHandler<U, A>(d: Deferred<U, A>, w: Lid)
    requires Deciding(d, w)
    ensures var top, c := d.stack[|d.stack| - 1], d.lists[w];
            Current(c) == Some(Installed(w)[c.index]) && !Installed<U>(w)[c.index].User?
            && EnterBody(d) == if top.entered then d else Body(Marked(d), Installed(w)[c.index], c.memory)
  {
    hide Body, Marked;
    var c := d.lists[w];
    assert c.list.value[c.index] == c.list.value[..6][c.index];
  }

  /** The two lists of the other outcome. */
  lemma LoserDies<U, A>(c: List<U, A>, installed: seq<Handler<U>>)
    requires Waits(c, installed)
    ensures Dead(DisableIt(c)) && !c.firing
  {
  }

  lemma EnterDeciding<U, A>(d: Deferred<U, A>, w: Lid)
    requires Deciding(d, w) && Stacked(d) && ProgressOnly(d)
    ensures var e := EnterBody(d); ProgressOnly(e) && (Deciding(e, w) || Decided(e, w)) && PlansKept(d, e)
    ensures d.settled.Some? ==> EnterBody(d).settled == d.settled
  {
    hide EnterBody, Waits, Dead, OnceMemory, Notifies, FireWith, AllUsers;
    DecidingHandler(d, w);
    var top, c := d.stack[|d.stack| - 1], d.lists[w];
    if !top.entered {
      var m := Marked(d);
      if c.index == 1 {
        LoserDies(d.lists[Other(w)], Installed(Other(w)));
      } else if c.index == 2 {
        LoserDies(d.lists[Then(Other(w))], []);
      } else if c.index == 3 {
        LockNotifies(d.lists[PROGRESS], true);
      } else if c.index == 4 {
        LockNotifies(d.lists[Then(PROGRESS)], false);
      } else if c.index == 5 {
        EnterLast(d, w);
      }
    }
  }

  lemma LockNotifies<U, A>(c: List<U, A>, passes: bool)
    requires Notifies(c, passes)
    ensures Notifies(LockIt(c), passes) && LockIt(c).firing == c.firing
  {
    assert Items(LockIt(c)) == Items(c) || Items(LockIt(c)) == [];
  }

  lemma FireThenLive<U, A>(c: List<U, A>, args: A)
    requires Waits(c, [])
    ensures var d := FireWith(c, args);
            Live(d) && Plan(d) == Plan(c) && d.memory == Some(args) && (d.firing ==>
                Current(d).Some? && Current(d).value.User?)
  {
    hide FireWith;
    FireWaits(c, [], args);
    assert c.list.value[0..] == c.list.value;
    if c.list.value != [] {
      assert Ahead(FireWith(c, args)) == c.list.value[1..];
    }
  }

  lemma LastHandlerLive<U, A>(d: Deferred<U, A>, w: Lid)
    requires Deciding(d, w) && d.lists[w].index == 5
    ensures Live(d.lists[w])
  {
    assert Ahead(d.lists[w]) == d.lists[w].list.value[6..];
  }

  /** The last installed handler calls the `then` handlers; from here on user code runs again. */
  lemma EnterLast<U, A>(d: Deferred<U, A>, w: Lid)
    requires Deciding(d, w) && Stacked(d) && ProgressOnly(d)
    requires d.lists[w].index == 5 && !d.stack[|d.stack| - 1].entered
    ensures var e := Body(Marked(d), FireThen(Then(w)), d.lists[w].memory);
            ProgressOnly(e) && Decided(e, w) && PlansKept(d, e)
  {
    hide FireWith, Notifies, Dead, Live, Current;
    var t: Lid := Then(w);
    var args := d.lists[w].memory.value;
    var c := FireWith(d.lists[t], args);
    FireThenLive(d.lists[t], args);
    LastHandlerLive(d, w);
    ProgressPut(Marked(d), t, c);
    hide Waits, OnceMemory, AllUsers;
    OnlyTopOf(d, w);
  }

  lemma OnlyTopOf<U, A>(d: Deferred<U, A>, w: Lid)
    requires Deciding(d, w) && Stacked(d)
    ensures forall i :: 0 <= i < |d.stack| - 1 ==> d.stack[i].l != w && d.stack[i].l != Then(w)
  {
    forall i | 0 <= i < |d.stack| - 1 ensures d.stack[i].l != w && d.stack[i].l != Then(w) {
      assert d.lists[d.stack[i].l].firing && !d.lists[Then(w)].firing;
    }
  }

  lemma EndUndecided<U, A>(d: Deferred<U, A>)
    requires Undecided(d) && Stacked(d) && ProgressOnly(d)
    ensures Undecided(EndCall(d)) && ProgressOnly(EndCall(d)) && PlansKept(d, EndCall(d))
  {
    hide Inner, Waits, Plan;
    if d.stack != [] {
      InnermostProgress(d);
      InnerItems(d.lists[d.stack[|d.stack| - 1].l]);
    }
  }

  lemma EndDeciding<U, A>(d: Deferred<U, A>, w: Lid)
    requires Deciding(d, w) && ProgressOnly(d)
    ensures Deciding(EndCall(d), w) && ProgressOnly(EndCall(d)) && PlansKept(d, EndCall(d))
    ensures EndCall(d).settled == d.settled
  {
    hide Inner, Waits, Dead, Notifies, Plan;
    DecidingHandler(d, w);
    if d.stack[|d.stack| - 1].entered {
      InnerNext(d.lists[w]);
      InnerStep(d.lists[w]);
    }
  }

  lemma EndDecided<U, A>(d: Deferred<U, A>, w: Lid)
    requires Decided(d, w) && Stacked(d) && ProgressOnly(d)
    ensures Decided(EndCall(d), w) && ProgressOnly(EndCall(d)) && PlansKept(d, EndCall(d))
  {
    hide Inner, Notifies, Live, Plan, Current;
    if d.stack != [] {
      var l := d.stack[|d.stack| - 1].l;
      assert d.lists[l].firing;
      if l == w || l == Then(w) {
        InnerLive(d.lists[l]);
      } else {
        assert l == PROGRESS || l == Then(PROGRESS);
        InnerItemsNotify(d.lists[l], l == PROGRESS);
      }
    }
  }

  lemma InnerItemsNotify<U, A>(c: List<U, A>, passes: bool)
    requires Notifies(c, passes)
    ensures Notifies(Inner(c), passes)
  {
    hide Inner;
    InnerItems(c);
  }

  lemma AddPlans<U, A>(d: Deferred<U, A>, l: Lid, us: seq<U>)
    requires Inv(d) && UserTurn(d)
    ensures var e := Step(d, AddUser(l, us));
            && PlansKept(d, e.(lists := e.lists[l := d.lists[l]]))
            && (l != PROGRESS && l != Then(PROGRESS) ==>
                  Dead(e.lists[l]) || Plan(e.lists[l]) == Plan(d.lists[l]) + Users(us))
  {
    hide AddTo, Plan, OnceMemory, Live, Waits, Dead, Stacked, ProgressOnly;
    NotDeciding(d);
    if l != PROGRESS && l != Then(PROGRESS) {
      var base: Lid := if l < 3 then l else l - 3;
      assert Settles(base);
      if Undecided(d) {
        AddUsersWaits(d.lists[l], if l < 3 then Installed(l) else [], us);
      } else {
        var w: Lid := if Decided(d, DONE) then DONE else FAIL;
        if l == w || l == Then(w) {
          AddLive(d.lists[l], us);
        } else {
          DeadStays(d.lists[l], Users(us));
        }
      }
    }
  }

  lemma StepKeepsInv<U, A>(d: Deferred<U, A>, op: Op<U, A>)
    requires Inv(d)
    ensures Inv(Step(d, op))
    ensures !op.AddUser? ==> PlansKept(d, Step(d, op))
    ensures d.settled.Some? ==> Step(d, op).settled == d.settled
  {
    hide UserTurn, Stacked, ProgressOnly, EnterBody, EndCall, AddTo, FireWith, Plan, Waits, Live, Dead;
    PhaseFixesState(d);
    match op
    case AddUser(l, us) =>
      if UserTurn(d) {
        AddKeeps(d, l, us);
        PutSettled(d, l, AddTo(d.lists[l], Users(us)));
      }
    case Call(l, args) =>
      if l < 3 && UserTurn(d) {
        CallKeeps(d, l, args);
        PutSettled(d, l, FireWith(d.lists[l], args));
      }
    case Enter =>
      EnterStacked(d);
      if Undecided(d) {
        EnterUndecided(d);
      } else {
        var w: Lid := if Deciding(d, DONE) || Decided(d, DONE) then DONE else FAIL;
        if Decided(d, w) {
          EnterDecided(d, w);
        } else {
          EnterDeciding(d, w);
        }
        PhaseFixesState(EnterBody(d));
      }
    case End =>
      EndStacked(d);
      if Undecided(d) {
        EndUndecided(d);
      } else {
        var w: Lid := if Deciding(d, DONE) || Decided(d, DONE) then DONE else FAIL;
        if Decided(d, w) {
          EndDecided(d, w);
        } else {
          EndDeciding(d, w);
        }
        PhaseFixesState(EndCall(d));
      }
  }

  lemma PutSettled<U, A>(d: Deferred<U, A>, l: Lid, c: List<U, A>)
    ensures Put(d, l, c).settled == d.settled
  {
  }

  lemma PhaseFixesState<U, A>(d: Deferred<U, A>)
    ensures Undecided(d) ==> d.settled == None
    ensures forall w: Lid :: Decided(d, w) ==> d.settled == Some(w)
    ensures forall w: Lid :: Deciding(d, w) ==> d.settled == None || d.settled == Some(w)
  {
  }

  // ---------------------------------------------------------------- whole runs

  lemma AddToFresh<U, A>(flags: Flags, fs: seq<Handler<U>>)
    requires !flags.unique
    ensures AddTo<Handler<U>, A>(Fresh(flags), fs) == Fresh<Handler<U>, A>(flags).(list := Some(fs))
  {
    AppendAll<Handler<U>>([], fs);
    assert [] + fs == fs;
  }

  lemma FreshWaits<U, A>(installed: seq<Handler<U>>)
    ensures var c := Fresh<Handler<U>, A>(ONCE_MEMORY).(list := Some(installed));
            Waits(c, installed) && Plan(c) == installed
  {
    assert installed[..|installed|] == installed && installed[|installed|..] == [];
    assert [] + installed == installed;
  }

  lemma NewInv<U, A>()
    ensures Inv(New<U, A>())
    ensures Plan(New<U, A>().lists[DONE]) == Installed(DONE) && Plan(New<U, A>().lists[FAIL]) == Installed(FAIL)
    ensures Plan(New<U, A>().lists[Then(DONE)]) == [] && Plan(New<U, A>().lists[Then(FAIL)]) == []
  {
    hide Waits, Plan, Installed, AddTo;
    AddToFresh<U, A>(MEMORY, [FireThen(Then(PROGRESS))]);
    AddToFresh<U, A>(ONCE_MEMORY, Installed(DONE));
    AddToFresh<U, A>(ONCE_MEMORY, Installed(FAIL));
    FreshWaits<U, A>(Installed(DONE));
    FreshWaits<U, A>(Installed(FAIL));
    FreshWaits<U, A>([]);
  }

  lemma {:induction false} RunInv<U, A>(ops: seq<Op<U, A>>)
    ensures Inv(Run(ops))
  {
    hide Inv, Step;
    if ops == [] {
      NewInv<U, A>();
    } else {
      RunInv(ops[..|ops| - 1]);
      StepKeepsInv(Run(ops[..|ops| - 1]), ops[|ops| - 1]);
    }
  }

  /** The handlers users have added to a list. */
  function AddedTo<U(==), A>(ops: seq<Op<U, A>>, l: Lid): seq<Handler<U>> {
    if ops == [] then []
    else
      var n := |ops| - 1;
      AddedTo(ops[..n], l)
      + if ops[n].AddUser? && ops[n].l == l && UserTurn(Run(ops[..n])) then Users(ops[n].us) else []
  }

  function First<U>(l: Lid): seq<Handler<U>> {
    if Settles(l) then Installed(l) else []
  }

  lemma DeadPut<U, A>(d: Deferred<U, A>, k: Lid, c: List<U, A>, l: Lid)
    requires Dead(d.lists[l]) && (k == l ==> Dead(c))
    ensures Dead(Put(d, k, c).lists[l])
  {
  }

  lemma DeadOps<U, A>(c: List<U, A>, args: A)
    requires Dead(c)
    ensures FireWith(c, args) == c && Dead(LockIt(c)) && Dead(DisableIt(c))
  {
  }

  /** A disabled list never calls anything, whatever is done to it. */
  lemma DeadForever<U, A>(d: Deferred<U, A>, op: Op<U, A>, l: Lid)
    requires Stacked(d) && Dead(d.lists[l])
    ensures Dead(Step(d, op).lists[l])
  {
    hide AddTo, FireWith, LockIt, DisableIt, UserTurn, Put, Inner;
    match op
    case AddUser(k, us) =>
      DeadStays(d.lists[l], Users(us));
      DeadPut(d, k, AddTo(d.lists[k], Users(us)), l);
    case Call(k, args) =>
      DeadOps(d.lists[l], args);
      DeadPut(d, k, FireWith(d.lists[k], args), l);
    case Enter =>
      if d.stack != [] {
        var top := d.stack[|d.stack| - 1].l;
        var h := Current(d.lists[top]);
        if h.Some? {
          match h.value
          case User(_) =>
          case SetState(_) =>
          case DisableList(k) =>
            DeadLocks(d.lists[l]);
            DeadPut(Marked(d), k, DisableIt(d.lists[k]), l);
          case LockList(k) =>
            DeadLocks(d.lists[l]);
            DeadPut(Marked(d), k, LockIt(d.lists[k]), l);
          case FireThen(k) =>
            if d.lists[top].memory.Some? {
              DeadOps(d.lists[l], d.lists[top].memory.value);
              DeadPut(Marked(d), k, FireWith(d.lists[k], d.lists[top].memory.value), l);
            }
        }
      }
    case End =>
      if d.stack != [] {
        assert d.lists[d.stack[|d.stack| - 1].l].firing;
      }
  }

  lemma DeadLocks<U, A>(c: List<U, A>)
    requires Dead(c)
    ensures Dead(LockIt(c)) && Dead(DisableIt(c))
  {
  }

  lemma {:induction false} RunPlan<U, A>(ops: seq<Op<U, A>>, l: Lid)
    requires l != PROGRESS && l != Then(PROGRESS)
    ensures var c := Run(ops).lists[l];
            Dead(c) || Plan(c) == First(l) + AddedTo(ops, l)
  {
    hide Inv, Step, Dead, Plan, UserTurn, Installed;
    if ops == [] {
      NewInv<U, A>();
      assert l == DONE || l == FAIL || l == Then(DONE) || l == Then(FAIL);
      assert First<U>(l) + [] == First(l);
    } else {
      var n := |ops| - 1;
      RunInv(ops[..n]);
      RunPlan(ops[..n], l);
      PlanStep(Run(ops[..n]), ops[n], l);
      var given := if ops[n].AddUser? && ops[n].l == l && UserTurn(Run(ops[..n])) then Users(ops[n].us) else [];
      assert First(l) + AddedTo(ops[..n], l) + given == First(l) + AddedTo(ops, l);
    }
  }

  lemma PlanStep<U, A>(d: Deferred<U, A>, op: Op<U, A>, l: Lid)
    requires Inv(d) && l != PROGRESS && l != Then(PROGRESS)
    ensures var c := Step(d, op).lists[l];
            Dead(c) ||
            (!Dead(d.lists[l]) &&
             Plan(c) == Plan(d.lists[l]) + if op.AddUser? && op.l == l && UserTurn(d) then Users(op.us) else [])
  {
    hide Dead, Plan, Stacked, ProgressOnly, Undecided, Deciding, Decided, EnterBody, EndCall, AddTo, FireWith;
    StepKeepsInv(d, op);
    if Dead(d.lists[l]) {
      DeadForever(d, op, l);
    } else if op.AddUser? && UserTurn(d) {
      AddPlans(d, op.l, op.us);
    }
    assert Plan(d.lists[l]) + [] == Plan(d.lists[l]);
  }

  /** The first resolve or reject of a pending deferred does settle it, with its arguments, before
      any user code runs. */
  lemma FirstCallSettles<U, A>(d: Deferred<U, A>, w: Lid, args: A)
    requires Inv(d) && Undecided(d) && UserTurn(d) && Settles(w)
    ensures var e := Step(d, Call(w, args));
            && !UserTurn(e) && e.lists[w].memory == Some(args)
            && Step(e, Enter).settled == Some(w)
  {
    hide FireWith, Waits, UserTurn;
    CallDecides(d, w, args);
    FireWaits(d.lists[w], Installed(w), args);
    var e := Step(d, Call(w, args));
    DecidingHandler(e, w);
    InstallingIsNotUser(e, w);
  }

  lemma InstallingIsNotUser<U, A>(d: Deferred<U, A>, w: Lid)
    requires Deciding(d, w)
    ensures !UserTurn(d)
  {
    DecidingHandler(d, w);
  }

  /** The state leaves "pending" at most once. */
  lemma SettlesOnce<U, A>(ops: seq<Op<U, A>>, more: seq<Op<U, A>>)
    requires Run(ops).settled.Some?
    ensures Run(ops + more).settled == Run(ops).settled
    decreases |more|
  {
    hide Inv, Step;
    if more == [] {
      assert ops + more == ops;
    } else {
      var n := |more| - 1;
      assert (ops + more)[..|ops + more| - 1] == ops + more[..n];
      SettlesOnce(ops, more[..n]);
      RunInv(ops + more[..n]);
      StepKeepsInv(Run(ops + more[..n]), more[n]);
    }
  }

  lemma SettledPhase<U, A>(d: Deferred<U, A>, w: Lid)
    requires Inv(d) && Settles(w) && d.settled == Some(w)
    ensures Deciding(d, w) || Decided(d, w)
  {
    hide Waits, Dead, Live, Stacked;
  }

  /** In every run that settles: no handler of the other outcome is ever called, and whenever no
      call is running the handlers of this outcome have been called exactly once per addition, in
      the order of addition and after the installed ones, all with the same arguments. */
  lemma SettledCalls<U, A>(ops: seq<Op<U, A>>, w: Lid)
    requires Settles(w) && Run(ops).settled == Some(w)
    ensures var d := Run(ops);
            && d.lists[Other(w)].log == [] && d.lists[Then(Other(w))].log == []
            && (d.stack == [] ==>
                  && Names(d.lists[w].log) == Installed(w) + AddedTo(ops, w)
                  && Names(d.lists[Then(w)].log) == AddedTo(ops, Then(w))
                  && (forall k :: 0 <= k < |d.lists[w].log| ==> Some(d.lists[w].log[k].1) == d.lists[w].memory)
                  && (forall k :: 0 <= k < |d.lists[Then(w)].log| ==>
                      Some(d.lists[Then(w)].log[k].1) == d.lists[w].memory))
  {
    hide Inv, Step, Names;
    var d := Run(ops);
    RunInv(ops);
    SettledPhase(d, w);
    RunPlan(ops, w);
    RunPlan(ops, Then(w));
    if d.stack == [] {
      assert Stacked(d) by { InvStacked(d); }
      assert !d.lists[w].firing && !d.lists[Then(w)].firing;
      PlanSplits(d.lists[w]);
      PlanSplits(d.lists[Then(w)]);
      assert [] + AddedTo(ops, Then(w)) == AddedTo(ops, Then(w));
    }
  }

  lemma InvStacked<U, A>(d: Deferred<U, A>)
    requires Inv(d)
    ensures Stacked(d)
  {
  }
}
