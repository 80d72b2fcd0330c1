/** Which answer of the gateway a checkout is filtered with: the memo of a context in front of a
    cache that outlives requests, in front of the gateway, over every interleaving of filter calls,
    contexts, evictions and clock ticks. */
module PaymentFilter {
  import opened Optional
  import opened CacheKeys

  /** ttl: lifetime of a cached answer in seconds, zero or less disables the cache;
      hash: the digest of a memo string. */
  datatype Config = Config(ttl: int, hash: string -> string)

  /** One answer of the gateway; the question is the checkout state it was asked in. */
  datatype Fetch = Fetch(question: Question, transactionId: nat, time: nat, ids: seq<string>)

  datatype Memo = Memo(key: string, transactionId: nat, allowedIds: seq<string>)

  datatype Item = Item(value: seq<string>, expires: int)

  /** What one filter call sees: the memo of its context, the shared cache, the clock, and the
      answers the gateway has given so far. */
  datatype View = View(memo: Option<Memo>, pool: map<string, Item>, now: nat, log: seq<Fetch>)

  /** prepared: the transaction made ready for this checkout, absent when that fails;
      answer: what the gateway would answer now, absent when asking fails. */
  datatype Call = Call(question: Question, prepared: Option<nat>, answer: Option<seq<nat>>)

  function MemoKey(c: Config, q: Question): string {
    c.hash(MemoString(q))
  }

  function Decimals(ids: seq<nat>): seq<string> {
    seq(|ids|, i requires 0 <= i < |ids| => Decimal(ids[i]))
  }

  function ReadMemo(memo: Option<Memo>, key: string): Option<seq<string>> {
    if memo.Some? && memo.value.key == key then Some(memo.value.allowedIds) else None
  }

  /** The answer for a transaction, from the cache while it is fresh, else from the gateway. */
  function Fetched(c: Config, v: View, call: Call, tx: nat): (View, Option<seq<string>>) {
    var key := PossibleMethodsKey(MemoKey(c, call.question), tx);
    if c.ttl > 0 && key in v.pool && v.now < v.pool[key].expires then (v, Some(v.pool[key].value))
    else if call.answer.None? then (v, None)
    else
      var ids := Decimals(call.answer.value);
      var pool := if c.ttl > 0 then v.pool[key := Item(ids, v.now + c.ttl)] else v.pool;
      (v.(pool := pool, log := v.log + [Fetch(call.question, tx, v.now, ids)]), Some(ids))
  }

  /** The allowed IDs a call filters with; absent when preparing or asking fails. */
  function Allowed(c: Config, v: View, call: Call): (View, Option<seq<string>>) {
    var key := MemoKey(c, call.question);
    var memoized := ReadMemo(v.memo, key);
    if memoized.Some? then (v, memoized)
    else if call.prepared.None? then (v, None)
    else
      var tx := call.prepared.value;
      var (w, ids) := Fetched(c, v, call, tx);
      if ids.None? then (w, None) else (w.(memo := Some(Memo(key, tx, ids.value))), ids)
  }

  // ---------------------------------------------------------------- provenance

  /** No two questions that were ever asked share a digest; digests have one width. */
  ghost predicate CollisionFree(c: Config, qs: set<Question>) {
    && (forall q :: q in qs ==> '|' !in q.integration)
    && (forall p, q :: p in qs && q in qs ==> |MemoKey(c, p)| == |MemoKey(c, q)|)
    && (forall p, q :: p in qs && q in qs && MemoKey(c, p) == MemoKey(c, q) ==> MemoString(p) == MemoString(q))
  }

  lemma KeyDecides(c: Config, qs: set<Question>, p: Question, q: Question)
    requires CollisionFree(c, qs) && p in qs && q in qs && MemoKey(c, p) == MemoKey(c, q)
    ensures p == q
  {
    MemoStringDecodes(p, q);
  }

  ghost predicate MemoFrom(c: Config, m: Memo, f: Fetch) {
    m.key == MemoKey(c, f.question) && m.transactionId == f.transactionId && m.allowedIds == f.ids
  }

  ghost predicate ItemFrom(c: Config, key: string, i: Item, f: Fetch) {
    key == PossibleMethodsKey(MemoKey(c, f.question), f.transactionId) && i.value == f.ids
        && i.expires == f.time + c.ttl
  }

  ghost predicate PoolJustified(c: Config, pool: map<string, Item>, log: seq<Fetch>) {
    forall key :: key in pool ==> exists k :: 0 <= k < |log| && ItemFrom(c, key, pool[key], log[k])
  }

  ghost predicate MemoJustified(c: Config, memo: Option<Memo>, log: seq<Fetch>) {
    memo.Some? ==> exists k :: 0 <= k < |log| && MemoFrom(c, memo.value, log[k])
  }

  ghost predicate Past(log: seq<Fetch>, now: nat, qs: set<Question>) {
    forall k :: 0 <= k < |log| ==> log[k].time <= now && log[k].question in qs
  }

  ghost predicate Justified(c: Config, v: View, qs: set<Question>) {
    PoolJustified(c, v.pool, v.log) && MemoJustified(c, v.memo, v.log) && Past(v.log, v.now, qs)
  }

  /** The list in use is an answer the gateway gave for the same space, integration and payload.
      On a memo hit it belongs to the memo's transaction; otherwise to the transaction prepared
      in this call, it is younger than the lifetime, and without a cache it was asked just now. */
  ghost predicate Provenance(c: Config, v: View, call: Call, w: View, ids: seq<string>) {
    exists k :: 0 <= k < |w.log| && w.log[k].question == call.question && w.log[k].ids == ids &&
      if ReadMemo(v.memo, MemoKey(c, call.question)).Some? then
        w == v && w.log[k].transactionId == v.memo.value.transactionId
      else
        && call.prepared == Some(w.log[k].transactionId)
        && w.memo == Some(Memo(MemoKey(c, call.question), w.log[k].transactionId, ids))
        && w.log[k].time <= w.now
        && (w.log == v.log ==> w.now < w.log[k].time + c.ttl)
        && (w.log != v.log ==> k == |v.log| && |w.log| == |v.log| + 1 && w.log[k].time == w.now)
        && (c.ttl <= 0 ==> w.log != v.log)
  }

  lemma FetchedJustified(c: Config, v: View, call: Call, tx: nat, qs: set<Question>)
    requires Justified(c, v, qs) && call.question in qs
    ensures Justified(c, Fetched(c, v, call, tx).0, qs)
  {
    var (w, ids) := Fetched(c, v, call, tx);
    if w.log != v.log {
      var n := |v.log|;
      var key := PossibleMethodsKey(MemoKey(c, call.question), tx);
      forall k | k in w.pool ensures exists j :: 0 <= j < |w.log| && ItemFrom(c, k, w.pool[k], w.log[j]) {
        if c.ttl > 0 && k == key {
          assert ItemFrom(c, k, w.pool[k], w.log[n]);
        } else {
          var j :| 0 <= j < |v.log| && ItemFrom(c, k, v.pool[k], v.log[j]);
          assert ItemFrom(c, k, w.pool[k], w.log[j]);
        }
      }
      if v.memo.Some? {
        var j :| 0 <= j < |v.log| && MemoFrom(c, v.memo.value, v.log[j]);
        assert MemoFrom(c, w.memo.value, w.log[j]);
      }
    }
  }

  /** A cached answer under a key belongs to the question and the transaction in the key. */
  lemma PoolAnswers(c: Config, v: View, q: Question, tx: nat, qs: set<Question>) returns (k: nat)
    requires Justified(c, v, qs) && CollisionFree(c, qs) && q in qs
    requires PossibleMethodsKey(MemoKey(c, q), tx) in v.pool
    ensures k < |v.log| && v.log[k].question == q && v.log[k].transactionId == tx
    ensures var i := v.pool[PossibleMethodsKey(MemoKey(c, q), tx)];
            v.log[k].ids == i.value && i.expires == v.log[k].time + c.ttl
  {
    var key := PossibleMethodsKey(MemoKey(c, q), tx);
    k :| 0 <= k < |v.log| && ItemFrom(c, key, v.pool[key], v.log[k]);
    var f := v.log[k];
    assert f.question in qs;
    PossibleMethodsKeyDecodes(MemoKey(c, f.question), f.transactionId, MemoKey(c, q), tx);
    KeyDecides(c, qs, f.question, q);
  }

  lemma AllowedHasProvenance(c: Config, v: View, call: Call, qs: set<Question>)
    requires Justified(c, v, qs) && CollisionFree(c, qs) && call.question in qs
    ensures var (w, ids) := Allowed(c, v, call);
            Justified(c, w, qs) && w.now == v.now && (ids.Some? ==> Provenance(c, v, call, w, ids.value))
  {
    hide PossibleMethodsKey, MemoString;
    var key := MemoKey(c, call.question);
    var (w, ids) := Allowed(c, v, call);
    if ReadMemo(v.memo, key).Some? {
      var k :| 0 <= k < |v.log| && MemoFrom(c, v.memo.value, v.log[k]);
      assert v.log[k].question in qs;
      KeyDecides(c, qs, v.log[k].question, call.question);
    } else if call.prepared.Some? {
      var tx := call.prepared.value;
      FetchedJustified(c, v, call, tx, qs);
      var (x, got) := Fetched(c, v, call, tx);
      if got.Some? {
        var k: nat;
        if x.log == v.log {
          k := PoolAnswers(c, v, call.question, tx, qs);
        } else {
          k := |v.log|;
        }
        assert MemoFrom(c, w.memo.value, w.log[k]);
      }
    }
  }

  // ---------------------------------------------------------------- runs over many contexts

  /** memos: the memo of every context that has one. */
  datatype World = World(memos: map<nat, Memo>, pool: map<string, Item>, now: nat, log: seq<Fetch>)

  /** Filter: a call on a context; Forget: a context ends or the memo is dropped with the confirmed
      transaction; Evict: the pool drops an item, as it may at any time; Tick: time passes. */
  datatype Op = Filter(ctx: nat, call: Call) | Forget(ctx: nat) | Evict(key: string) | Tick(seconds: nat)

  function ViewOf(w: World, ctx: nat): View {
    View(if ctx in w.memos then Some(w.memos[ctx]) else None, w.pool, w.now, w.log)
  }

  function Back(w: World, ctx: nat, v: View): World {
    World(if v.memo.Some? then w.memos[ctx := v.memo.value] else w.memos - {ctx}, v.pool, v.now, v.log)
  }

  function Step(c: Config, w: World, op: Op): World {
    match op
    case Filter(ctx, call) => Back(w, ctx, Allowed(c, ViewOf(w, ctx), call).0)
    case Forget(ctx) => w.(memos := w.memos - {ctx})
    case Evict(key) => w.(pool := w.pool - {key})
    case Tick(seconds) => w.(now := w.now + seconds)
  }

  function Run(c: Config, ops: seq<Op>): World {
    if ops == [] then World(map[], map[], 0, []) else Step(c, Run(c, ops[..|ops| - 1]), ops[|ops| - 1])
  }

  function Questions(ops: seq<Op>): set<Question> {
    set i | 0 <= i < |ops| && ops[i].Filter? :: ops[i].call.question
  }

  ghost predicate AllJustified(c: Config, w: World, qs: set<Question>) {
    forall ctx: nat :: Justified(c, ViewOf(w, ctx), qs)
  }

  lemma LogGrows(c: Config, v: View, call: Call)
    ensures v.log <= Allowed(c, v, call).0.log
  {
  }

  lemma MemoStays(c: Config, memo: Option<Memo>, log: seq<Fetch>, more: seq<Fetch>)
    requires MemoJustified(c, memo, log) && log <= more
    ensures MemoJustified(c, memo, more)
  {
    if memo.Some? {
      var k :| 0 <= k < |log| && MemoFrom(c, memo.value, log[k]);
      assert MemoFrom(c, memo.value, more[k]);
    }
  }

  lemma StepJustified(c: Config, w: World, op: Op, qs: set<Question>)
    requires AllJustified(c, w, qs) && CollisionFree(c, qs) && (op.Filter? ==> op.call.question in qs)
    ensures AllJustified(c, Step(c, w, op), qs)
  {
    hide CollisionFree, Allowed, MemoFrom, ItemFrom;
    var x := Step(c, w, op);
    forall ctx: nat ensures Justified(c, ViewOf(x, ctx), qs) {
      assert Justified(c, ViewOf(w, ctx), qs);
      if op.Filter? {
        var v := ViewOf(w, op.ctx);
        assert Justified(c, v, qs);
        AllowedHasProvenance(c, v, op.call, qs);
        LogGrows(c, v, op.call);
        if ctx != op.ctx {
          MemoStays(c, ViewOf(w, ctx).memo, w.log, x.log);
        }
      }
    }
  }

  lemma {:induction false} RunJustified(c: Config, ops: seq<Op>, qs: set<Question>)
    requires CollisionFree(c, qs) && Questions(ops) <= qs
    ensures AllJustified(c, Run(c, ops), qs)
  {
    hide CollisionFree, Justified, Step;
    if ops == [] {
      StartJustified(c, qs);
    } else {
      var n := |ops| - 1;
      assert Questions(ops[..n]) <= qs by {
        forall i | 0 <= i < n && ops[..n][i].Filter? ensures ops[..n][i].call.question in qs {
          assert ops[i].call.question in Questions(ops);
        }
      }
      RunJustified(c, ops[..n], qs);
      if ops[n].Filter? {
        assert ops[n].call.question in Questions(ops);
      }
      StepJustified(c, Run(c, ops[..n]), ops[n], qs);
    }
  }

  lemma StartJustified(c: Config, qs: set<Question>)
    ensures AllJustified(c, Run(c, []), qs)
  {
  }

  /** After any run, the next filter call on any context uses an answer with that provenance. */
  lemma EveryListHasProvenance(c: Config, ops: seq<Op>, ctx: nat, call: Call)
    requires CollisionFree(c, Questions(ops) + {call.question})
    ensures var v := ViewOf(Run(c, ops), ctx);
            var (w, ids) := Allowed(c, v, call);
            ids.Some? ==> Provenance(c, v, call, w, ids.value)
  {
    hide CollisionFree, Justified, Provenance, Allowed;
    var qs := Questions(ops) + {call.question};
    RunJustified(c, ops, qs);
    var v := ViewOf(Run(c, ops), ctx);
    assert Justified(c, v, qs);
    AllowedHasProvenance(c, v, call, qs);
  }

  // ---------------------------------------------------------------- the two passes of a page

  /** Operations that leave a context's memo for a key alone: other contexts, and calls with the
      same key on this one. */
  ghost predicate SameKeyBlock(c: Config, ops: seq<Op>, ctx: nat, key: string) {
    forall i :: 0 <= i < |ops| ==>
      (ops[i].Filter? && ops[i].ctx == ctx ==> MemoKey(c, ops[i].call.question) == key)
      && (ops[i].Forget? ==> ops[i].ctx != ctx)
  }

  function RunFrom(c: Config, w: World, ops: seq<Op>): World {
    if ops == [] then w else Step(c, RunFrom(c, w, ops[..|ops| - 1]), ops[|ops| - 1])
  }

  /** Once a call has succeeded, later calls with its key on its context change nothing and use
      the same list, whatever other contexts, the pool and the clock do in between. */
  lemma {:induction false} MemoServesBlock(c: Config, w: World, ops: seq<Op>, ctx: nat, key: string, call: Call)
    requires ctx in w.memos && w.memos[ctx].key == key
    requires SameKeyBlock(c, ops, ctx, key) && MemoKey(c, call.question) == key
    ensures var x := RunFrom(c, w, ops);
            && ctx in x.memos && x.memos[ctx] == w.memos[ctx]
            && Allowed(c, ViewOf(x, ctx), call) == (ViewOf(x, ctx), Some(w.memos[ctx].allowedIds))
  {
    hide Fetched;
    if ops != [] {
      var n := |ops| - 1;
      assert SameKeyBlock(c, ops[..n], ctx, key) by {
        forall i | 0 <= i < n
          ensures (ops[..n][i].Filter? && ops[..n][i].ctx == ctx ==> MemoKey(c, ops[..n][i].call.question) == key)
               && (ops[..n][i].Forget? ==> ops[..n][i].ctx != ctx)
        {
          assert ops[..n][i] == ops[i];
        }
      }
      MemoServesBlock(c, w, ops[..n], ctx, key, call);
      var y := RunFrom(c, w, ops[..n]);
      if ops[n].Filter? && ops[n].ctx == ctx {
        assert Allowed(c, ViewOf(y, ctx), ops[n].call).0 == ViewOf(y, ctx);
      }
    }
  }

  /** Once the gateway has been asked, the same question about the same transaction is answered from the
      cache until the lifetime is over, whatever the gateway would say by then, as long as the pool has
      not dropped the item. */
  lemma CacheServesUntilExpiry(c: Config, v: View, call: Call, tx: nat, later: View, again: Call)
    requires c.ttl > 0 && Fetched(c, v, call, tx).1.Some? && Fetched(c, v, call, tx).0 != v
    requires again.question == call.question
    requires var key := PossibleMethodsKey(MemoKey(c, call.question), tx);
             key in later.pool && later.pool[key] == Fetched(c, v, call, tx).0.pool[key]
    ensures later.now < v.now + c.ttl ==> Fetched(c, later, again, tx) == (later, Fetched(c, v, call, tx).1)
    ensures later.now >= v.now + c.ttl && again.answer.Some? ==>
              |Fetched(c, later, again, tx).0.log| == |later.log| + 1
              && Fetched(c, later, again, tx).1 == Some(Decimals(again.answer.value))
  {
  }

  /** A list fetched from the gateway is its answer at that moment, number by number, and is logged as such; a
      failing question changes nothing. */
  lemma FetchedIsAnswer(c: Config, v: View, call: Call, tx: nat, n: nat)
    ensures var (w, ids) := Fetched(c, v, call, tx);
            w != v ==>
              && call.answer.Some? && ids.Some? && |ids.value| == |call.answer.value|
              && (forall i :: 0 <= i < |ids.value| ==> Reads(ids.value[i]) == call.answer.value[i])
              && (Decimal(n) in ids.value <==> n in call.answer.value)
              && w.log == v.log + [Fetch(call.question, tx, v.now, ids.value)] && w.memo == v.memo && w.now == v.now
    ensures Fetched(c, v, call, tx).1.None? ==> call.answer.None?
  {
    hide Decimal, PossibleMethodsKey;
    var (w, ids) := Fetched(c, v, call, tx);
    if w != v {
      var answer := call.answer.value;
      forall i | 0 <= i < |answer| ensures Reads(ids.value[i]) == answer[i] {
        DecimalReads(answer[i]);
      }
      if Decimal(n) in ids.value {
        var i :| 0 <= i < |ids.value| && ids.value[i] == Decimal(n);
        DecimalReads(n);
        assert answer[i] == n;
      }
      if n in answer {
        var i :| 0 <= i < |answer| && answer[i] == n;
        assert ids.value[i] == Decimal(n);
      }
    }
  }

  /** A call whose preparation or question to the gateway fails leaves no memo behind, so the next
      call prepares and asks again: calls of a block are answered once only after a success. */
  lemma FailureLeavesNoMemo(c: Config, v: View, call: Call)
    ensures Allowed(c, v, call).1.None? ==> Allowed(c, v, call).0 == v
    ensures Allowed(c, v, call).1.Some? <==>
              ReadMemo(Allowed(c, v, call).0.memo, MemoKey(c, call.question)) == Allowed(c, v, call).1
              && Allowed(c, v, call).1 != None
  {
  }

  /** The checkout page's transaction: the memo's, if it names one. */
  function ConfigTransaction(memo: Option<Memo>): Option<nat> {
    if memo.None? || memo.value.transactionId == 0 then None else Some(memo.value.transactionId)
  }

  /** The page talks about the transaction that its list of methods was fetched for. */
  lemma PageAndListAgree(c: Config, ops: seq<Op>, ctx: nat, call: Call)
    requires CollisionFree(c, Questions(ops) + {call.question})
    ensures var (w, ids) := Allowed(c, ViewOf(Run(c, ops), ctx), call);
            ids.Some? && ConfigTransaction(w.memo).Some? ==>
              exists k :: 0 <= k < |w.log| && w.log[k].ids == ids.value && w.log[k].question == call.question
                          && ConfigTransaction(w.memo) == Some(w.log[k].transactionId)
  {
    hide CollisionFree, Allowed;
    EveryListHasProvenance(c, ops, ctx, call);
    MemoHolds(c, ViewOf(Run(c, ops), ctx), call);
  }

  lemma MemoHolds(c: Config, v: View, call: Call)
    ensures Allowed(c, v, call).1.Some? ==> Allowed(c, v, call).0.memo.Some?
  {
  }
}
