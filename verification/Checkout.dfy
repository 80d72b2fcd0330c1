/** Paying, coming back from the gateway and trying again: what happens to the stored carts and to the
    pending transactions, over every run of these steps and of everything else the shop does. */
module Checkout {
  import opened Optional
  import CartRecovery

  type Cart = CartRecovery.Cart

  datatype Owner = Owner(channel: string, customer: string)

  /** A sales channel context; handler: in charge of its payment method, if it has one;
      states: those of its context object. */
  datatype Resolved = Resolved(token: string, channel: string, customer: Option<string>, handler: Option<string>,
      states: set<string>)

  datatype Store = Store(carts: map<string, Cart>, pending: map<Owner, nat>)

  const HANDLER := "WeArePlanetPaymentHandler"
  const DELETE_STATE := "do-cart-delete"
  const TOKEN_KEY := "sw-context-token"
  const ACTIVE_ORDER_KEY := "weareplanetActivePaymentOrderId"
  const LEGACY_KEY := "transactionId"

  // ---------------------------------------------------------------- the guarded cart

  predicate IsOwn(ctx: Resolved) {
    ctx.handler == Some(HANDLER)
  }

  predicate Guarded(ctx: Resolved) {
    DELETE_STATE !in ctx.states && IsOwn(ctx)
  }

  function DeleteCart(carts: map<string, Cart>, token: string, ctx: Resolved): map<string, Cart> {
    if Guarded(ctx) then carts else carts - {token}
  }

  function ReplaceCart(carts: map<string, Cart>, was: string, will: string): map<string, Cart> {
    if was in carts then (carts - {was})[will := carts[was]] else carts
  }

  function Clear(pending: map<Owner, nat>, ctx: Resolved): map<Owner, nat> {
    if ctx.customer.None? then pending else pending - {Owner(ctx.channel, ctx.customer.value)}
  }

  // ---------------------------------------------------------------- reading the token

  /** The session of a request, absent for most requests without a storefront. */
  type Session = Option<map<string, string>>

  datatype TokenRead = Token(token: string) | NoToken | NoSession

  /** What counts as a value in a condition: not missing, not empty, not the digit zero. */
  predicate Truthy(s: Option<string>) {
    s.Some? && s.value != "" && s.value != "0"
  }

  function Entry(session: map<string, string>, key: string): Option<string> {
    if key in session then Some(session[key]) else None
  }

  function ContextToken(header: Option<string>, session: Session): TokenRead {
    if Truthy(header) then Token(header.value)
    else if session.None? then NoSession
    else if Truthy(Entry(session.value, TOKEN_KEY)) then Token(session.value[TOKEN_KEY])
    else NoToken
  }

  function Without(session: Session, key: string): Session {
    if session.None? then None else Some(session.value - {key})
  }

  // ---------------------------------------------------------------- the two calls

  datatype Answer = Completed | Cancelled | Interrupted | Threw

  datatype Result = Result(store: Store, session: Session, answer: Answer)

  /** The order transaction as it is looked up. */
  datatype Lookup = Found(amount: real, cancelled: bool, orderId: string) | Missing | Failing

  /** channel: the context has a sales channel; resolve: what a token resolves to, if it does;
      created: whether the gateway transaction was made, and left: the pending record when it was not;
      redirect: there is an address to send the customer to. */
  datatype Payment = Payment(header: Option<string>, session: Session, order: Lookup, channel: bool,
                             resolve: string -> Option<Resolved>, created: bool, left: Option<nat>, redirect: bool)

  /** The context a payment gets hold of. */
  function PayContext(p: Payment): Option<Resolved> {
    var read := ContextToken(p.header, p.session);
    if !p.order.Failing? && read.Token? && p.channel then p.resolve(read.token) else None
  }

  function SessionKey(ctx: Resolved): Option<string> {
    if ctx.customer.None? then None else Some("plnn_transaction_id_" + ctx.channel + "_" + ctx.customer.value)
  }

  function PutRecord(pending: map<Owner, nat>, ctx: Resolved, record: Option<nat>): map<Owner, nat> {
    if ctx.customer.Some? && record.Some? then pending[Owner(ctx.channel, ctx.customer.value) := record.value]
    else Clear(pending, ctx)
  }

  /** What is thrown at the end of a failed payment. */
  function Rejection(p: Payment): Answer {
    if !p.order.Found? then Threw else if p.order.cancelled then Interrupted else Cancelled
  }

  function PayFailed(s: Store, session: Session, p: Payment, sessionKey: Option<string>): Result {
    if sessionKey.Some? && session.None? then Result(s, session, Threw)
    else
      var rest := if sessionKey.Some? then Without(session, sessionKey.value) else session;
      var ctx := PayContext(p);
      if ctx.Some? then Result(s.(pending := Clear(s.pending, ctx.value)), rest, Rejection(p))
      else if rest.None? then Result(s, rest, Threw)
      else Result(s, Without(rest, LEGACY_KEY), Rejection(p))
  }

  function Pay(s: Store, p: Payment): Result {
    var ctx := PayContext(p);
    if ctx.None? || !p.order.Found? then PayFailed(s, p.session, p, None)
    else if p.order.amount <= 0.0 then
      if p.redirect then Result(s, p.session, Completed) else PayFailed(s, p.session, p, None)
    else
      var key := SessionKey(ctx.value);
      var after := s.(pending := PutRecord(s.pending, ctx.value, if p.created then None else p.left));
      if !p.created || p.session.None? then PayFailed(after, p.session, p, key)
      else
        var active := Some(p.session.value[ACTIVE_ORDER_KEY := p.order.orderId]);
        if p.redirect then Result(after, active, Completed) else PayFailed(after, active, p, key)
  }

  datatype TransactionState =
    CREATE | PENDING | CONFIRMED | PROCESSING | FAILED | AUTHORIZED | VOIDED | COMPLETED | FULFILL | DECLINE

  /** state: of the gateway transaction, absent when it cannot be read; resolve: what a token resolves
      to, if it does; paid, order: whether marking as paid and loading the order work;
      stored: the token kept with the order transaction. */
  datatype Return = Return(header: Option<string>, session: Session, amount: real, state: Option<TransactionState>,
                           resolve: string -> Option<Resolved>, paid: bool, order: bool, stored: Option<string>)

  predicate Refused(state: TransactionState) {
    state.FAILED? || state.DECLINE? || state.VOIDED?
  }

  /** Past the test for failed transactions, or with nothing to pay. */
  predicate Passes(f: Return) {
    if f.amount > 0.0 then f.state.Some? && !Refused(f.state.value) else f.paid
  }

  function Reject(s: Store, session: Session, f: Return): Result {
    match ContextToken(f.header, session)
    case NoSession => Result(s, session, Threw)
    case NoToken => Result(s, Without(session, LEGACY_KEY), Cancelled)
    case Token(t) =>
      var ctx := f.resolve(t);
      if ctx.None? then Result(s, session, Threw)
      else Result(s.(pending := Clear(s.pending, ctx.value)), session, Cancelled)
  }

  function DropCart(s: Store, session: Session, f: Return, token: string): Result {
    var ctx := f.resolve(token);
    if !f.order || ctx.None? then Result(s, session, Threw)
    else
      var flagged := ctx.value.(states := ctx.value.states + {DELETE_STATE});
      Result(s.(carts := DeleteCart(s.carts, flagged.token, flagged)), session, Completed)
  }

  function Finish(s: Store, session: Session, f: Return): Result {
    match ContextToken(f.header, session)
    case NoSession => Result(s, session, Threw)
    case Token(t) => DropCart(s, session, f, t)
    case NoToken => if Truthy(f.stored) then DropCart(s, session, f, f.stored.value) else Result(s, session, Completed)
  }

  function Finalize(s: Store, f: Return): Result {
    var session := Without(f.session, ACTIVE_ORDER_KEY);
    if Passes(f) then Finish(s, session, f)
    else if f.amount > 0.0 && f.state.Some? then Reject(s, session, f)
    else Result(s, session, Threw)
  }

  // ---------------------------------------------------------------- which token a call goes by

  ghost predicate Blank(s: Option<string>) {
    s.None? || s.value == "" || s.value == "0"
  }

  /** The token is the header's; without one there, the session's; None: neither names one. */
  ghost predicate Reads(header: Option<string>, session: Session, token: Option<string>) {
    var inSession :=
      if session.Some? && "sw-context-token" in session.value then Some(session.value["sw-context-token"]) else None;
    if !Blank(header) then token == header
    else if !Blank(inSession) then token == inSession
    else token == None
  }

  lemma ContextTokenReads(header: Option<string>, session: Session)
    ensures var read := ContextToken(header, session);
            && Reads(header, session, if read.Token? then Some(read.token) else None)
            && (read.NoSession? <==> session.None? && Reads(header, session, None))
  {
  }

  /** Forgetting the active order does not change which token is read. */
  lemma ReadsWithoutOrder(header: Option<string>, session: Session)
    ensures ContextToken(header, Without(session, ACTIVE_ORDER_KEY)) == ContextToken(header, session)
  {
    assert |ACTIVE_ORDER_KEY| != |TOKEN_KEY|;
  }

  /** Past the test for failed transactions, or with nothing to pay and marked as paid. */
  ghost predicate Passing(f: Return) {
    if f.amount > 0.0 then f.state.Some? && f.state.value !in {FAILED, DECLINE, VOIDED} else f.paid
  }

  /** Stopped by the test for failed transactions. */
  ghost predicate Rejected(f: Return) {
    f.amount > 0.0 && f.state.Some? && f.state.value in {FAILED, DECLINE, VOIDED}
  }

  /** The context a token leads to. */
  ghost function ContextOf(resolve: string -> Option<Resolved>, token: Option<string>): Option<Resolved> {
    if token.Some? then resolve(token.value) else None
  }

  /** The context whose cart a return drops: that of the request's token; without one, if there is a
      session to look into, that of the token kept with the order. */
  ghost predicate Drops(f: Return, ctx: Option<Resolved>) {
    exists token :: Reads(f.header, f.session, token) &&
      ctx == if !Passing(f) || !f.order then None
             else if token.Some? then f.resolve(token.value)
             else if f.session.Some? && !Blank(f.stored) then f.resolve(f.stored.value)
             else None
  }

  /** The stored cart of a token is dropped. */
  ghost predicate DropsCart(f: Return, t: string) {
    exists ctx :: Drops(f, ctx) && ctx.Some? && ctx.value.token == t
  }

  // ---------------------------------------------------------------- single calls

  /** A return that passes drops exactly the cart that the request's token resolves to, whatever else the
      session holds, and keeps all pending transactions; it ends in an error where that token does not
      resolve or the order does not load. */
  lemma PassingReturn(s: Store, f: Return, token: Option<string>)
    requires Passing(f) && Reads(f.header, f.session, token) && token.Some?
    ensures var r, ctx := Finalize(s, f), f.resolve(token.value);
            && r.store.pending == s.pending
            && r.store.carts == (if f.order && ctx.Some? then s.carts - {ctx.value.token} else s.carts)
            && r.answer == (if f.order && ctx.Some? then Completed else Threw)
  {
    ContextTokenReads(f.header, f.session);
    ReadsWithoutOrder(f.header, f.session);
  }

  /** Without a token in the request, the one kept with the order is used, but only where there is a session
      that has none: without a session, the call ends before it gets there and the cart stays. */
  lemma PassingReturnWithoutToken(s: Store, f: Return)
    requires Passing(f) && Reads(f.header, f.session, None)
    ensures var r := Finalize(s, f);
            && r.store.pending == s.pending
            && (f.session.None? ==> r.answer == Threw && r.store == s)
            && (f.session.Some? && Blank(f.stored) ==> r.answer == Completed && r.store == s)
            && (f.session.Some? && !Blank(f.stored) ==>
                  var ctx := f.resolve(f.stored.value);
                  && r.store.carts == (if f.order && ctx.Some? then s.carts - {ctx.value.token} else s.carts)
                  && r.answer == (if f.order && ctx.Some? then Completed else Threw))
  {
    ContextTokenReads(f.header, f.session);
    ReadsWithoutOrder(f.header, f.session);
  }

  predicate Owns(ctx: Option<Resolved>, o: Owner) {
    ctx.Some? && ctx.value.customer == Some(o.customer) && ctx.value.channel == o.channel
  }

  /** After a rejected return the carts are still there, and exactly the pending transaction of the
      context that the request's token resolves to is forgotten. */
  lemma RejectedReturn(s: Store, f: Return, token: Option<string>, o: Owner)
    requires Rejected(f) && Reads(f.header, f.session, token)
    ensures var r, ctx := Finalize(s, f), ContextOf(f.resolve, token);
            && r.store.carts == s.carts
            && (o in r.store.pending <==> o in s.pending && !Owns(ctx, o))
            && (o in r.store.pending ==> r.store.pending[o] == s.pending[o])
            && r.answer == (if ctx.Some? || (token.None? && f.session.Some?) then Cancelled else Threw)
            && (token.None? && f.session.Some? ==> "transactionId" !in r.session.value)
  {
    ContextTokenReads(f.header, f.session);
    ReadsWithoutOrder(f.header, f.session);
  }

  /** A return that neither passes nor is rejected ends in an error and changes no cart and no record. */
  lemma BrokenReturn(s: Store, f: Return)
    requires !Passing(f) && !Rejected(f)
    ensures Finalize(s, f).store == s && Finalize(s, f).answer == Threw
  {
  }

  /** The active order is forgotten on every path, and of the rest of the session at most the old
      transaction number. */
  lemma ReturnForgetsOrder(s: Store, f: Return, key: string)
    ensures var r := Finalize(s, f);
            && r.session.Some? == f.session.Some?
            && (r.session.Some? ==> "weareplanetActivePaymentOrderId" !in r.session.value)
            && (r.session.Some? && key != "weareplanetActivePaymentOrderId" && key != "transactionId" ==>
                  && (key in r.session.value <==> key in f.session.value)
                  && (key in r.session.value ==> r.session.value[key] == f.session.value[key]))
  {
  }

  /** Over all returns: a cart goes exactly if the return drops it, and the others keep their contents. */
  lemma FinalizeDrops(s: Store, f: Return, t: string)
    ensures var r := Finalize(s, f);
            && (t in r.store.carts <==> t in s.carts && !DropsCart(f, t))
            && (t in r.store.carts ==> r.store.carts[t] == s.carts[t])
  {
    hide Finalize, ContextToken, Reads;
    ContextTokenReads(f.header, f.session);
    var read := ContextToken(f.header, f.session);
    var token := if read.Token? then Some(read.token) else None;
    OnlyRead(f.header, f.session, token);
    if Passing(f) {
      if token.Some? {
        PassingReturn(s, f, token);
        assert Drops(f, if f.order then f.resolve(token.value) else None);
      } else {
        PassingReturnWithoutToken(s, f);
        assert Drops(f, if f.order && f.session.Some? && !Blank(f.stored) then f.resolve(f.stored.value) else None);
      }
    } else if Rejected(f) {
      RejectedReturn(s, f, token, Owner("", ""));
    } else {
      BrokenReturn(s, f);
    }
  }

  /** Only one token is read. */
  lemma OnlyRead(header: Option<string>, session: Session, token: Option<string>)
    requires Reads(header, session, token)
    ensures forall other :: Reads(header, session, other) <==> other == token
  {
  }

  /** A refused customer whose request has a session without a token: told that the payment is cancelled,
      with the pending transaction still recorded. */
  lemma RejectedReturnKeepsRecord()
    ensures var o := Owner("channel", "customer");
            var f := Return(None, Some(map[]), 10.0, Some(FAILED), (t: string) => None, true, true, None);
            var r := Finalize(Store(map[], map[o := 7]), f);
            r.answer.Cancelled? && o in r.store.pending
  {
  }

  /** The context a payment goes by. */
  ghost predicate PaysAs(p: Payment, ctx: Option<Resolved>) {
    exists token :: Reads(p.header, p.session, token) &&
      ctx == if p.order.Failing? || !p.channel then None else ContextOf(p.resolve, token)
  }

  lemma PaysAsContext(p: Payment, ctx: Option<Resolved>)
    ensures PaysAs(p, ctx) <==> ctx == PayContext(p)
  {
    hide Reads;
    ContextTokenReads(p.header, p.session);
    var read := ContextToken(p.header, p.session);
    OnlyRead(p.header, p.session, if read.Token? then Some(read.token) else None);
  }

  /** After a failed payment the carts are as before. The customer's pending transaction is gone if the
      context was resolved, except when making the transaction failed, left one pending, and there is no
      session to clean up first. With a session and a context it is always gone; without a context nothing
      is forgotten. */
  lemma FailedPayment(s: Store, p: Payment, ctx: Option<Resolved>, o: Owner)
    requires !Pay(s, p).answer.Completed? && PaysAs(p, ctx)
    ensures var r := Pay(s, p);
            && r.store.carts == s.carts
            && (!Owns(ctx, o) ==>
                  && (o in r.store.pending <==> o in s.pending)
                  && (o in s.pending ==> r.store.pending[o] == s.pending[o]))
            && (Owns(ctx, o) ==>
                  (o !in r.store.pending <==>
                     !(p.order.Found? && p.order.amount > 0.0 && !p.created && p.left.Some? && p.session.None?)))
            && (Owns(ctx, o) && p.session.Some? ==> o !in r.store.pending)
            && (Owns(ctx, o) && o in r.store.pending ==> p.left == Some(r.store.pending[o]))
            && (ctx.None? ==> r.store == s && (p.session.Some? ==> "transactionId" !in r.session.value))
  {
    hide SessionKey;
    PaysAsContext(p, ctx);
    KeyNeedsCustomer(ctx);
  }

  /** What a failed payment tells the customer, and what it leaves in the session: with a transaction asked
      for, the customer's entry for it goes. */
  lemma FailedPaymentAnswers(s: Store, p: Payment, ctx: Option<Resolved>)
    requires !Pay(s, p).answer.Completed? && PaysAs(p, ctx)
    ensures var r := Pay(s, p);
            var asked := ctx.Some? && p.order.Found? && p.order.amount > 0.0;
            var known := asked && ctx.value.customer.Some?;
            && r.session.Some? == p.session.Some?
            && r.answer == (if !p.order.Found? || (p.session.None? && (ctx.None? || known)) then Threw
                            else if p.order.cancelled then Interrupted else Cancelled)
            && (p.session.Some? && known ==>
                  "plnn_transaction_id_" + ctx.value.channel + "_" + ctx.value.customer.value !in r.session.value)
  {
    PaysAsContext(p, ctx);
  }

  /** A payment goes through exactly if the context is resolved, there is an address to go to, and, where
      something is to be paid, the transaction was made and there is a session to note the order in. Then
      the customer's pending transaction is gone and the order is the session's active one. */
  lemma CompletedPayment(s: Store, p: Payment, ctx: Option<Resolved>, o: Owner)
    requires PaysAs(p, ctx)
    ensures var r := Pay(s, p);
            && (r.answer.Completed? <==>
                  && ctx.Some? && p.order.Found? && p.redirect
                  && (p.order.amount > 0.0 ==> p.created && p.session.Some?))
            && (r.answer.Completed? ==> r.store.carts == s.carts)
            && (r.answer.Completed? && p.order.amount <= 0.0 ==> r.store == s && r.session == p.session)
            && (r.answer.Completed? && p.order.amount > 0.0 ==>
                  && (o in r.store.pending <==> o in s.pending && !Owns(ctx, o))
                  && (o in r.store.pending ==> r.store.pending[o] == s.pending[o])
                  && r.session == Some(p.session.value["weareplanetActivePaymentOrderId" := p.order.orderId]))
  {
    PaysAsContext(p, ctx);
  }

  /** A payment through the store API, without a session, that fails while the transaction is made:
      the customer's record stays, so the next attempt starts from it. */
  lemma SessionlessFailureKeepsRecord()
    ensures var o := Owner("channel", "customer");
            var ctx := Resolved("token", "channel", Some("customer"), Some(HANDLER), {});
            var p := Payment(Some("token"), None, Found(10.0, false, "order"), true, (t: string) => Some(ctx), false,
                             Some(7), true);
            var r := Pay(Store(map[], map[o := 7]), p);
            r.answer.Threw? && o in r.store.pending
  {
    assert |"token"| == 5;
  }

  lemma KeyNeedsCustomer(ctx: Option<Resolved>)
    ensures ctx.Some? ==> (SessionKey(ctx.value).Some? <==> ctx.value.customer.Some?)
  {
  }

  // ---------------------------------------------------------------- runs

  /** Drop: the shop deletes a cart, as it does when an order is placed; Save, Move: it stores one or
      moves it to another token; Record, Forget: a pending transaction is stored or forgotten. */
  datatype Op =
    | Drop(token: string, ctx: Resolved)
    | Save(token: string, cart: Cart)
    | Move(was: string, will: string)
    | Record(owner: Owner, id: nat)
    | Forget(ctx: Resolved)
    | Pays(payment: Payment)
    | Returns(return_: Return)

  function Step(s: Store, op: Op): Store {
    match op
    case Drop(token, ctx) => s.(carts := DeleteCart(s.carts, token, ctx))
    case Save(token, cart) => s.(carts := s.carts[token := cart])
    case Move(was, will) => s.(carts := ReplaceCart(s.carts, was, will))
    case Record(owner, id) => s.(pending := s.pending[owner := id])
    case Forget(ctx) => s.(pending := Clear(s.pending, ctx))
    case Pays(p) => Pay(s, p).store
    case Returns(f) => Finalize(s, f).store
  }

  function Run(s: Store, ops: seq<Op>): Store {
    if ops == [] then s else Step(Run(s, ops[..|ops| - 1]), ops[|ops| - 1])
  }

  /** A checkout of this handler in a context in which no cart is to be deleted. */
  ghost predicate Protects(ctx: Resolved) {
    ctx.handler == Some("WeArePlanetPaymentHandler") && "do-cart-delete" !in ctx.states
  }

  /** Moving a cart takes it, with what is in it, from the one token to the other. */
  lemma MovingCarries(carts: map<string, Cart>, was: string, will: string, t: string)
    ensures var r := ReplaceCart(carts, was, will);
            && (t in r <==> if was in carts then t == will || (t in carts && t != was) else t in carts)
            && (t in r ==> r[t] == if was in carts && t == will then carts[was] else carts[t])
  {
  }

  /** The guard refuses to delete exactly where it protects, and then deletes nothing. */
  lemma GuardRefuses(carts: map<string, Cart>, token: string, ctx: Resolved, t: string)
    ensures var r := DeleteCart(carts, token, ctx);
            && (t in r <==> t in carts && (t != token || Protects(ctx)))
            && (t in r ==> r[t] == carts[t])
  {
  }

  /** Forgetting removes the record of this customer in this channel and no other. */
  lemma ForgettingIsExact(pending: map<Owner, nat>, ctx: Resolved, o: Owner)
    ensures var r := Clear(pending, ctx);
            && (o in r <==> o in pending && !(ctx.customer == Some(o.customer) && ctx.channel == o.channel))
            && (o in r ==> r[o] == pending[o])
  {
  }

  /** The ways in which a token can lose its cart. */
  ghost predicate Takes(op: Op, t: string) {
    || (op.Drop? && op.token == t && !Protects(op.ctx))
    || (op.Move? && op.was == t && op.will != t)
    || (op.Returns? && DropsCart(op.return_, t))
  }

  lemma PayKeepsCarts(s: Store, p: Payment)
    ensures Pay(s, p).store.carts == s.carts
  {
  }

  lemma LossStep(s: Store, op: Op, t: string)
    requires t in s.carts
    ensures t !in Step(s, op).carts <==> Takes(op, t)
  {
    hide Pay, Finalize, DropsCart;
    if op.Pays? {
      PayKeepsCarts(s, op.payment);
    } else if op.Returns? {
      FinalizeDrops(s, op.return_, t);
    }
  }

  /** The checkout under this token uses this handler: nothing deletes its cart through a context with
      another handler or with the state raised, and it keeps its token. */
  ghost predicate OwnCheckout(ops: seq<Op>, t: string) {
    forall i :: 0 <= i < |ops| ==>
      (ops[i].Drop? && ops[i].token == t ==> Protects(ops[i].ctx)) && (ops[i].Move? ==> ops[i].was != t)
  }

  /** A return that got past the test, or had nothing to pay, and drops the cart of this token. */
  ghost predicate Loses(op: Op, t: string) {
    op.Returns? && Passing(op.return_) && DropsCart(op.return_, t)
  }

  /** Such a checkout loses its cart only in a return that got past the test for failed transactions or
      had nothing to pay. */
  lemma {:induction false} CartLostOnlyInReturn(s: Store, ops: seq<Op>, t: string)
    requires OwnCheckout(ops, t) && t in s.carts && t !in Run(s, ops).carts
    ensures exists i :: 0 <= i < |ops| && Loses(ops[i], t)
  {
    hide Step, Passing, DropsCart, Protects;
    if ops != [] {
      var n := |ops| - 1;
      var before := Run(s, ops[..n]);
      if t in before.carts {
        LossStep(before, ops[n], t);
        DropsPasses(ops[n], t);
        assert Loses(ops[n], t);
      } else {
        CartLostOnlyInReturn(s, ops[..n], t);
        var i :| 0 <= i < n && Loses(ops[..n][i], t);
        assert Loses(ops[i], t);
      }
    }
  }

  lemma DropsPasses(op: Op, t: string)
    ensures op.Returns? && DropsCart(op.return_, t) ==> Passing(op.return_)
  {
  }

  /** What happens while a customer tries again: the order is placed through contexts of this handler,
      payments go as they may, and no return gets past the test. Everything else concerns other carts. */
  ghost predicate Retrying(op: Op, t: string) {
    match op
    case Drop(token, ctx) => token == t ==> Protects(ctx)
    case Save(token, _) => token != t
    case Move(was, will) => was != t && will != t
    case Returns(f) => !Passing(f)
    case _ => true
  }

  /** However often the customer tries, the cart is there with what was put in. */
  lemma {:induction false} RetryFindsCart(s: Store, ops: seq<Op>, t: string)
    requires t in s.carts && forall i :: 0 <= i < |ops| ==> Retrying(ops[i], t)
    ensures t in Run(s, ops).carts && Run(s, ops).carts[t] == s.carts[t]
  {
    hide Step, Takes, Retrying;
    if ops != [] {
      var n := |ops| - 1;
      RetryFindsCart(s, ops[..n], t);
      RetryingTakesNothing(ops[n], t);
      LossStep(Run(s, ops[..n]), ops[n], t);
      ContentsStay(Run(s, ops[..n]), ops[n], t);
    }
  }

  lemma RetryingTakesNothing(op: Op, t: string)
    requires Retrying(op, t)
    ensures !Takes(op, t)
  {
    hide Passing, DropsCart;
    DropsPasses(op, t);
  }

  lemma ContentsStay(s: Store, op: Op, t: string)
    requires t in s.carts && Retrying(op, t)
    ensures var u := Step(s, op); t in u.carts ==> u.carts[t] == s.carts[t]
  {
    hide Pay, Finalize, DropsCart;
    if op.Pays? {
      PayKeepsCarts(s, op.payment);
    } else if op.Returns? {
      FinalizeDrops(s, op.return_, t);
    }
  }
}
