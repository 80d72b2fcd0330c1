/** jQuery's callback list with the variables its methods update in place. What callbacks do while
    they run is a script: the body of the n-th call. Every execution is proved to be a run of the
    state machine of Callbacks. */
module CallbackList {
  import opened Optional
  import C = Callbacks

  /** The operations a call performs on its own list, and whether it returns false. */
  datatype Body<F, A> = Body(ops: seq<C.Op<F, A>>, wasFalse: bool)

  ghost predicate Callable<F, A>(bodies: seq<Body<F, A>>) {
    forall k, j :: 0 <= k < |bodies| && 0 <= j < |bodies[k].ops| ==> !bodies[k].ops[j].Return?
  }

  function IndexFrom<F(==)>(s: seq<F>, f: F, n: nat): (i: Option<nat>)
    ensures i.Some? ==> n <= i.value < |s| && s[i.value] == f && forall j :: n <= j < i.value ==> s[j] != f
    ensures i.None? ==> forall j :: n <= j < |s| ==> s[j] != f
    decreases |s| - n
  {
    if n >= |s| then None else if s[n] == f then Some(n) else IndexFrom(s, f, n + 1)
  }

  lemma {:induction false} WithoutAbsent<F>(s: seq<F>, f: F)
    requires f !in s
    ensures C.Without(s, f) == s
  {
    if s != [] {
      WithoutAbsent(s[..|s| - 1], f);
    }
  }

  /** How many of the first u elements are kept. */
  function Kept<F(==)>(s: seq<F>, f: F, u: nat): nat
    requires u <= |s|
  {
    |C.Without(s[..u], f)|
  }

  /** Where the index has moved once the first p positions have been searched. */
  function Moved<F(==)>(s: seq<F>, l: int, f: F, p: nat): int
    requires p <= |s| && -1 <= l
  {
    var upto := if p < l + 1 then p else if l + 1 < |s| then l + 1 else |s|;
    l - (upto - Kept(s, f, upto))
  }

  lemma NoneThrough<F>(s: seq<F>, f: F, p: nat, q: nat)
    requires p <= q <= |s| && forall j :: p <= j < q ==> s[j] != f
    ensures C.Without(s[..q], f) == C.Without(s[..p], f) + s[p..q]
    ensures Kept(s, f, q) == Kept(s, f, p) + q - p
  {
    hide C.Without;
    assert s[..q] == s[..p] + s[p..q];
    C.WithoutAppend(s[..p], s[p..q], f);
    WithoutAbsent(s[p..q], f);
  }

  lemma HitAt<F>(s: seq<F>, f: F, q: nat)
    requires q < |s| && s[q] == f
    ensures C.Without(s[..q + 1], f) == C.Without(s[..q], f)
    ensures Kept(s, f, q + 1) == Kept(s, f, q)
  {
    assert s[..q + 1][..q] == s[..q];
    assert C.Without(s[..q], f) + [] == C.Without(s[..q], f);
  }

  lemma {:induction false} KeptGrows<F>(s: seq<F>, f: F, a: nat, b: nat)
    requires a <= b <= |s|
    ensures Kept(s, f, a) <= Kept(s, f, b) <= Kept(s, f, a) + b - a
    decreases b
  {
    if a < b {
      KeptGrows(s, f, a, b - 1);
      assert s[..b][..b - 1] == s[..b - 1];
    }
  }

  /** The list after the first p of its original positions have been searched. */
  ghost predicate Searched<F>(s0: seq<F>, f: F, p: nat, s: seq<F>) {
    p <= |s0| && s == C.Without(s0[..p], f) + s0[p..]
  }

  /** Splicing out the occurrence found at n. */
  lemma SpliceStep<F>(s0: seq<F>, f: F, p: nat, s: seq<F>, n: nat)
    requires Searched(s0, f, p, s) && Kept(s0, f, p) <= n < |s| && s[n] == f
    requires forall j :: Kept(s0, f, p) <= j < n ==> s[j] != f
    ensures var q := p + n - Kept(s0, f, p);
            && q < |s0| && s0[q] == f && (forall j :: p <= j < q ==> s0[j] != f)
            && Searched(s0, f, q + 1, s[..n] + s[n + 1..]) && Kept(s0, f, q + 1) == n
  {
    var head := C.Without(s0[..p], f);
    var q := p + n - |head|;
    hide C.Without;
    assert forall j :: p <= j < |s0| ==> s0[j] == s[|head| + j - p];
    NoneThrough(s0, f, p, q);
    HitAt(s0, f, q);
    assert s[..n] == head + s0[p..q];
    assert s[n + 1..] == s0[q + 1..];
  }

  /** The index moves back exactly when the occurrence is not ahead of it. */
  lemma MoveStep<F>(s: seq<F>, l: int, f: F, p: nat, q: nat)
    requires p <= q < |s| && -1 <= l && s[q] == f && forall j :: p <= j < q ==> s[j] != f
    ensures var n := Kept(s, f, p) + q - p;
            Moved(s, l, f, q + 1) == if n <= Moved(s, l, f, p) then Moved(s, l, f, p) - 1 else Moved(s, l, f, p)
  {
    hide Kept;
    if l + 1 <= p {
      KeptGrows(s, f, l + 1, p);
    } else if q <= l {
      NoneThrough(s, f, p, q);
      HitAt(s, f, q);
    } else {
      NoneThrough(s, f, p, l + 1);
    }
  }

  lemma NoneLeft<F>(s0: seq<F>, f: F, p: nat, s: seq<F>)
    requires Searched(s0, f, p, s)
    requires forall j :: Kept(s0, f, p) <= j < |s| ==> s[j] != f
    ensures forall j :: p <= j < |s0| ==> s0[j] != f
    ensures s == C.Without(s0, f)
  {
    hide C.Without;
    var k := Kept(s0, f, p);
    assert s[k..] == s0[p..];
    forall j | p <= j < |s0| ensures s0[j] != f {
      assert s0[j] == s0[p..][j - p] == s[k..][j - p] == s[k + j - p];
    }
    NoneThrough(s0, f, p, |s0|);
    assert s0[..|s0|] == s0 && s0[p..|s0|] == s0[p..];
  }

  lemma EndOfSearch<F>(s: seq<F>, l: int, f: F, p: nat)
    requires p <= |s| && -1 <= l && forall j :: p <= j < |s| ==> s[j] != f
    ensures Moved(s, l, f, |s|) == Moved(s, l, f, p) && -1 <= Moved(s, l, f, p)
  {
    hide Kept;
    var upto := if l + 1 < |s| then l + 1 else |s|;
    if p < upto {
      NoneThrough(s, f, p, upto);
    }
    KeptGrows(s, f, 0, upto);
  }

  lemma RepairIsMoved<F, A>(c: C.Cb<F, A>, f: F)
    requires c.list.Some? && -1 <= c.index
    ensures C.RemoveOne(c, f) == c.(list := Some(C.Without(c.list.value, f)),
                                    index := Moved(c.list.value, c.index, f, |c.list.value|))
  {
  }

  class CallbackList<F(==), A> {
    const flags: C.Flags
    const bodies: seq<Body<F, A>>
    var list: Option<seq<F>>
    var queue: seq<A>
    var index: int
    var memory: Option<A>
    var fired: bool
    var locked: bool
    var firing: bool
    var log: seq<(F, A)>
    ghost var trace: seq<C.Op<F, A>>   // every operation so far, in order

    ghost function State(): C.Cb<F, A>
      reads this
    {
      C.Cb(flags, list, queue, index, memory, fired, locked, firing, log)
    }

    ghost function Traced(): C.Cb<F, A>
      reads this
    {
      C.Run(C.Fresh(flags), trace)
    }

    ghost predicate Valid()
      reads this
    {
      && State() == Traced()
      && Sound()
      && (firing && list.Some? ==> memory.Some?)
      && (!firing ==> index == -1 && queue == [])
    }

    ghost predicate Sound()
      reads this
    {
      && Callable(bodies)
      && -1 <= index
      && (list.None? ==> memory.None? && queue == [] && locked)
    }

    function Size(): nat
      reads this
    {
      if list.Some? then |list.value| else 0
    }

    constructor (flags: C.Flags, bodies: seq<Body<F, A>>)
      requires Callable(bodies)
      ensures Valid() && this.flags == flags && this.bodies == bodies
      ensures trace == [] && !firing
    {
      this.flags, this.bodies := flags, bodies;
      list, queue, index, memory := Some([]), [], -1, None;
      fired, locked, firing, log := false, false, false, [];
      trace := [];
    }

    method RemoveOne(f: F)
      requires -1 <= index
      modifies `list, `index
      ensures State() == C.RemoveOne(old(State()), f)
      ensures -1 <= index && list.None? == old(list).None?
    {
      if list.Some? {
        RepairIsMoved(State(), f);
        var s, l := SpliceOut(list.value, index, f);
        list, index := Some(s), l;
      }
    }

    method Remove(fs: seq<F>)
      requires Valid()
      modifies `list, `index, `trace
      ensures Valid() && trace == old(trace) + [C.Op.Remove(fs)]
      decreases 0, 2
    {
      hide C.RemoveOne;
      ghost var st := State();
      var rest := fs;
      while rest != []
        invariant Sound() && list.None? == old(list).None? && trace == old(trace)
        invariant C.RemoveFrom(State(), rest) == C.RemoveFrom(st, fs)
        invariant !firing ==> index == -1
        decreases |rest|
      {
        if !firing {
          IdleRemove(State(), rest[0]);
        }
        RemoveOne(rest[0]);
        rest := rest[1..];
      }
      Extend(C.Op.Remove(fs));
    }

    /** Records an operation in the trace. */
    ghost method Extend(op: C.Op<F, A>)
      modifies `trace
      ensures trace == old(trace) + [op] && Traced() == C.Step(old(Traced()), op)
    {
      trace := trace + [op];
      assert trace[..|trace| - 1] == old(trace);
    }

    /** Appends callbacks one by one; with the unique flag only those not yet in the list. */
    method PushAll(fs: seq<F>)
      requires list.Some?
      modifies `list
      ensures list == Some(C.Append(old(list).value, fs, flags.unique))
    {
      var s, rest := list.value, fs;
      while rest != []
        invariant C.Append(s, rest, flags.unique) == C.Append(old(list).value, fs, flags.unique)
        decreases |rest|
      {
        if !flags.unique || rest[0] !in s {
          s := s + [rest[0]];
        }
        rest := rest[1..];
      }
      list := Some(s);
    }

    method Add(fs: seq<F>)
      requires Valid()
      modifies this
      ensures Valid() && old(trace) + [C.Op.Add(fs)] <= trace
      ensures firing == old(firing)
      ensures old(firing) ==> trace == old(trace) + [C.Op.Add(fs)] && log == old(log)
      decreases if firing then 0 else 1, 2
    {
      hide C.Start, C.Append, C.Inner;
      Extend(C.Op.Add(fs));
      if list.Some? {
        var refire := memory.Some? && !firing;
        if refire {
          index := |list.value| - 1;
          queue := queue + [memory.value];
        }
        PushAll(fs);
        if refire {
          FireAll();
        }
      }
    }

    method FireWith(args: A)
      requires Valid()
      modifies this
      ensures Valid() && old(trace) + [C.Op.Fire(args)] <= trace
      ensures firing == old(firing)
      ensures old(firing) ==> trace == old(trace) + [C.Op.Fire(args)] && log == old(log)
      decreases if firing then 0 else 1, 2
    {
      hide C.Start, C.Inner;
      Extend(C.Op.Fire(args));
      if !locked {
        queue := queue + [args];
        if !firing {
          FireAll();
        }
      }
    }

    method Empty()
      requires Valid()
      modifies `list, `trace
      ensures Valid() && trace == old(trace) + [C.Op.Empty]
    {
      Extend(C.Op.Empty);
      if list.Some? {
        list := Some([]);
      }
    }

    method Disable()
      requires Valid()
      modifies this
      ensures Valid() && trace == old(trace) + [C.Op.Disable] && firing == old(firing) && log == old(log)
    {
      Extend(C.Op.Disable);
      locked, queue := true, [];
      list, memory := None, None;
    }

    method Lock()
      requires Valid()
      modifies this
      ensures Valid() && trace == old(trace) + [C.Op.Lock] && firing == old(firing) && log == old(log)
    {
      Extend(C.Op.Lock);
      locked, queue := true, [];
      if memory.None? && !firing {
        list, memory := None, None;
      }
    }

    /** An operation made by the running callback: it never starts another firing. */
    method Apply(op: C.Op<F, A>)
      requires Valid() && firing && !op.Return?
      modifies this
      ensures Valid() && firing && trace == old(trace) + [op] && log == old(log)
      decreases 0, 3
    {
      match op {
        case Add(fs) => Add(fs);
        case Remove(fs) => Remove(fs);
        case Fire(args) => FireWith(args);
        case Empty => Empty();
        case Disable => Disable();
        case Lock => Lock();
      }
    }

    /** Runs the body of the k-th call. */
    method Call(k: nat)
      requires Valid() && firing && k < |bodies|
      modifies this
      ensures Valid() && firing && log == old(log) && old(trace) <= trace
      decreases 0, 4
    {
      hide Valid;
      for j := 0 to |bodies[k].ops|
        invariant Valid() && firing && log == old(log) && old(trace) <= trace
      {
        NoReturn(k, j);
        Apply(bodies[k].ops[j]);
      }
    }

    lemma NoReturn(k: nat, j: nat)
      requires Valid() && k < |bodies| && j < |bodies[k].ops|
      ensures !bodies[k].ops[j].Return?
    {
    }

    ghost function Budget(): nat
      reads this
    {
      if |log| < |bodies| then |bodies| - |log| else 0
    }

    /** Calls the callback at the index and moves on to the next position. */
    method CallNext()
      requires Sound() && firing && 0 <= index < Size() && memory.Some?
      requires C.Inner(State().(index := index - 1)) == Traced()
      modifies this
      ensures Sound() && firing && 0 <= index && old(trace) <= trace
      ensures index < Size() ==> memory.Some?
      ensures C.Inner(State().(index := index - 1)) == Traced()
      ensures |log| == |old(log)| + 1
      ensures |old(log)| >= |bodies| ==> Size() == old(Size()) && |queue| == |old(queue)| && index == old(index) + 1
      decreases 0, 5
    {
      hide C.AddTo, C.RemoveFrom, C.FireWith, C.Run, C.NextItem;
      log := log + [(list.value[index], memory.value)];
      var k, wasFalse := |log| - 1, false;
      if k < |bodies| {
        Call(k);
        wasFalse := bodies[k].wasFalse;
      }
      Extend(C.Op.Return(wasFalse));
      if wasFalse && flags.stopOnFalse {
        index, memory := Size(), None;
      }
      index := index + 1;
    }

    /** Takes the next arguments and calls every callback from the index on. */
    method FireItem()
      requires Sound() && firing && queue != [] && C.NextItem(State()) == Traced()
      modifies this
      ensures Sound() && firing && index == -1 && old(trace) <= trace
      ensures C.NextItem(State()) == Traced()
      ensures Budget() < old(Budget()) || (Budget() == old(Budget()) && |queue| == |old(queue)| - 1)
      decreases 0, 6
    {
      hide C.Step, C.Run, C.Finish;
      memory, queue := Some(queue[0]), queue[1..];
      index := index + 1;
      while index < Size()
        invariant Sound() && firing && 0 <= index && old(trace) <= trace
        invariant index < Size() ==> memory.Some?
        invariant C.Inner(State().(index := index - 1)) == Traced()
        invariant Budget() < old(Budget()) || (Budget() == old(Budget()) && |queue| == |old(queue)| - 1)
        decreases Budget(), Size() - index
      {
        hide C.Inner;
        CallNext();
      }
      index := -1;
    }

    /** The firing loop. Callbacks may extend the list or the queue while it runs. */
    method FireAll()
      requires Sound() && !firing && list.Some? && queue != [] && C.Start(State()) == Traced()
      modifies this
      ensures Valid() && !firing && old(trace) <= trace
      decreases 1, 1
    {
      hide C.Step, C.Run, C.Inner;
      locked, fired, firing := locked || flags.once, true, true;
      while queue != []
        invariant Sound() && firing && old(trace) <= trace
        invariant C.NextItem(State()) == Traced() && (queue == [] ==> index == -1)
        decreases Budget(), |queue|
      {
        hide C.NextItem;
        FireItem();
      }
      if !flags.memory {
        memory := None;
      }
      firing := false;
      if locked {
        list := if memory.Some? then Some([]) else None;
      }
    }
  }

  /** Outside a firing the index does not move. */
  lemma IdleRemove<F, A>(c: C.Cb<F, A>, f: F)
    requires c.index == -1
    ensures C.RemoveOne(c, f).index == -1
  {
    if c.list.Some? {
      assert c.list.value[..0] == [];
    }
  }

  /** Searches onwards from each occurrence it has spliced out, repairing the index as it goes. */
  method SpliceOut<F(==)>(s0: seq<F>, l0: int, f: F) returns (s: seq<F>, l: int)
    requires -1 <= l0
    ensures s == C.Without(s0, f) && l == Moved(s0, l0, f, |s0|) && -1 <= l
  {
    hide C.Without, Kept, Moved, Searched, IndexFrom;
    s, l := s0, l0;
    var n := 0;
    ghost var p: nat := 0;
    StartOfSearch(s0, l, f);
    var i := IndexFrom(s, f, n);
    while i.Some?
      invariant p <= |s0| && Searched(s0, f, p, s) && l == Moved(s0, l0, f, p)
      invariant n == Kept(s0, f, p) && i == IndexFrom(s, f, n)
      decreases |s|
    {
      SpliceStep(s0, f, p, s, i.value);
      MoveStep(s0, l0, f, p, p + i.value - n);
      p := p + i.value - n + 1;
      n := i.value;
      s := s[..n] + s[n + 1..];
      if n <= l {
        l := l - 1;
      }
      i := IndexFrom(s, f, n);
    }
    NoneLeft(s0, f, p, s);
    EndOfSearch(s0, l0, f, p);
  }

  lemma StartOfSearch<F>(s: seq<F>, l: int, f: F)
    requires -1 <= l
    ensures Searched(s, f, 0, s) && Moved(s, l, f, 0) == l && Kept(s, f, 0) == 0
  {
    assert s[..0] == [];
  }
}
