/** The payment handler and the cart persister as objects: session, contexts, stored carts and pending
    transactions are changed in place, and every method does what Checkout says of its values. */
module CheckoutHandler {
  import opened Optional
  import Checkout

  class SessionBag {
    var values: map<string, string>

    constructor (values: map<string, string>)
      ensures this.values == values
    {
      this.values := values;
    }

    method Remove(key: string)
      modifies this
      ensures values == old(values) - {key}
    {
      values := values - {key};
    }

    method Set(key: string, value: string)
      modifies this
      ensures values == old(values)[key := value]
    {
      values := values[key := value];
    }
  }

  class Request {
    const header: Option<string>
    const session: SessionBag?

    constructor (header: Option<string>, session: SessionBag?)
      ensures this.header == header && this.session == session
    {
      this.header, this.session := header, session;
    }

    ghost function Frame(): set<object> {
      if session == null then {} else {session}
    }

    ghost function Session(): Checkout.Session
      reads Frame()
    {
      if session == null then None else Some(session.values)
    }
  }

  class ContextObject {
    var states: set<string>

    constructor (states: set<string>)
      ensures this.states == states
    {
      this.states := states;
    }

    method AddState(state: string)
      modifies this
      ensures states == old(states) + {state}
    {
      states := states + {state};
    }
  }

  class SalesChannelContext {
    const token: string
    const channel: string
    const customer: Option<string>
    const handler: Option<string>
    const context: ContextObject

    constructor (r: Checkout.Resolved)
      ensures fresh(context) && Value() == r
    {
      token, channel, customer, handler := r.token, r.channel, r.customer, r.handler;
      context := new ContextObject(r.states);
    }

    ghost function Value(): Checkout.Resolved
      reads context
    {
      Checkout.Resolved(token, channel, customer, handler, context.states)
    }
  }

  class CartPersister {
    var carts: map<string, Checkout.Cart>

    constructor (carts: map<string, Checkout.Cart>)
      ensures this.carts == carts
    {
      this.carts := carts;
    }

    method Delete(token: string)
      modifies this
      ensures carts == old(carts) - {token}
    {
      carts := carts - {token};
    }

    method Save(token: string, cart: Checkout.Cart)
      modifies this
      ensures carts == old(carts)[token := cart]
    {
      carts := carts[token := cart];
    }

    method Replace(was: string, will: string)
      modifies this
      ensures carts == Checkout.ReplaceCart(old(carts), was, will)
    {
      if was in carts {
        carts := (carts - {was})[will := carts[was]];
      }
    }
  }

  /** Decorates the shop's persister: it refuses to delete the carts of this handler's checkouts. */
  class CustomCartPersister {
    const inner: CartPersister

    constructor (inner: CartPersister)
      ensures this.inner == inner
    {
      this.inner := inner;
    }

    method IsWhiteLabelPayment(context: SalesChannelContext) returns (r: bool)
      ensures r <==> Checkout.IsOwn(context.Value())
    {
      if context.handler == None {
        return false;
      }
      return context.handler.value == Checkout.HANDLER;
    }

    method Delete(token: string, context: SalesChannelContext)
      modifies inner
      ensures inner.carts == Checkout.DeleteCart(old(inner.carts), token, context.Value())
    {
      if Checkout.DELETE_STATE !in context.context.states {
        var own := IsWhiteLabelPayment(context);
        if own {
          return;
        }
      }
      inner.Delete(token);
    }

    method Save(token: string, cart: Checkout.Cart)
      modifies inner
      ensures inner.carts == old(inner.carts)[token := cart]
    {
      inner.Save(token, cart);
    }

    method Replace(was: string, will: string)
      modifies inner
      ensures inner.carts == Checkout.ReplaceCart(old(inner.carts), was, will)
    {
      inner.Replace(was, will);
    }
  }

  class TransactionService {
    var pending: map<Checkout.Owner, nat>

    constructor (pending: map<Checkout.Owner, nat>)
      ensures this.pending == pending
    {
      this.pending := pending;
    }

    method ClearTransactionIdFromContext(context: SalesChannelContext)
      modifies this
      ensures pending == Checkout.Clear(old(pending), context.Value())
    {
      if context.customer != None {
        pending := pending - {Checkout.Owner(context.channel, context.customer.value)};
      }
    }

    method GetSessionTransactionKey(context: SalesChannelContext) returns (r: Option<string>)
      ensures r == Checkout.SessionKey(context.Value())
    {
      if context.customer == None {
        return None;
      }
      return Some("plnn_transaction_id_" + context.channel + "_" + context.customer.value);
    }

    /** What remains of the pending record when the transaction was made, or could not be. */
    method Create(context: SalesChannelContext, created: bool, left: Option<nat>) returns (ok: bool)
      modifies this
      ensures ok == created
      ensures pending == Checkout.PutRecord(old(pending), context.Value(), if created then None else left)
    {
      if !created && left != None && context.customer != None {
        pending := pending[Checkout.Owner(context.channel, context.customer.value) := left.value];
      } else {
        ClearTransactionIdFromContext(context);
      }
      return created;
    }
  }

  class PaymentHandler {
    const cartPersister: CustomCartPersister
    const transactions: TransactionService

    constructor (cartPersister: CustomCartPersister, transactions: TransactionService)
      ensures this.cartPersister == cartPersister && this.transactions == transactions
    {
      this.cartPersister, this.transactions := cartPersister, transactions;
    }

    ghost function Store(): Checkout.Store
      reads cartPersister.inner, transactions
    {
      Checkout.Store(cartPersister.inner.carts, transactions.pending)
    }

    method GetContextToken(request: Request) returns (r: Checkout.TokenRead)
      ensures r == Checkout.ContextToken(request.header, request.Session())
      ensures Checkout.Reads(request.header, request.Session(), if r.Token? then Some(r.token) else None)
    {
      Checkout.ContextTokenReads(request.header, request.Session());
      if Checkout.Truthy(request.header) {
        return Checkout.Token(request.header.value);
      }
      if request.session == null {
        return Checkout.NoSession;
      }
      var values := request.session.values;
      if Checkout.TOKEN_KEY in values && values[Checkout.TOKEN_KEY] != "" && values[Checkout.TOKEN_KEY] != "0" {
        return Checkout.Token(values[Checkout.TOKEN_KEY]);
      }
      return Checkout.NoToken;
    }

    /** The handler of everything a payment throws. */
    method OnFailure(request: Request, p: Checkout.Payment, context: SalesChannelContext?, sessionKey: Option<string>)
      returns (answer: Checkout.Answer)
      requires if context == null then Checkout.PayContext(p) == None
          else Checkout.PayContext(p) == Some(context.Value())
      modifies transactions, request.Frame()
      ensures Checkout.Result(Store(), request.Session(), answer)
              == Checkout.PayFailed(old(Store()), old(request.Session()), p, sessionKey)
    {
      if sessionKey != None {
        if request.session == null {
          return Checkout.Threw;
        }
        request.session.Remove(sessionKey.value);
      }
      if context != null {
        transactions.ClearTransactionIdFromContext(context);
      } else {
        if request.session == null {
          return Checkout.Threw;
        }
        request.session.Remove(Checkout.LEGACY_KEY);
      }
      if !p.order.Found? {
        return Checkout.Threw;
      }
      return if p.order.cancelled then Checkout.Interrupted else Checkout.Cancelled;
    }

    method Pay(request: Request, p: Checkout.Payment) returns (answer: Checkout.Answer)
      requires p.header == request.header && p.session == request.Session()
      modifies transactions, request.Frame()
      ensures Checkout.Result(Store(), request.Session(), answer) == Checkout.Pay(old(Store()), p)
    {
      var sessionKey: Option<string> := None;
      var context: SalesChannelContext? := null;
      if !p.order.Failing? {
        var token := GetContextToken(request);
        if token.Token? && p.channel {
          var resolved := p.resolve(token.token);
          if resolved != None {
            context := new SalesChannelContext(resolved.value);
          }
        }
      }
      if context == null || !p.order.Found? {
        answer := OnFailure(request, p, context, sessionKey);
        return;
      }
      if p.order.amount > 0.0 {
        sessionKey := transactions.GetSessionTransactionKey(context);
        var ok := transactions.Create(context, p.created, p.left);
        if !ok || request.session == null {
          answer := OnFailure(request, p, context, sessionKey);
          return;
        }
        request.session.Set(Checkout.ACTIVE_ORDER_KEY, p.order.orderId);
      }
      if !p.redirect {
        answer := OnFailure(request, p, context, sessionKey);
        return;
      }
      return Checkout.Completed;
    }

    method DropCart(request: Request, f: Checkout.Return, token: string) returns (answer: Checkout.Answer)
      modifies cartPersister.inner
      ensures Checkout.Result(Store(), request.Session(), answer)
              == Checkout.DropCart(old(Store()), old(request.Session()), f, token)
    {
      var resolved := f.resolve(token);
      if !f.order || resolved == None {
        return Checkout.Threw;
      }
      var context := new SalesChannelContext(resolved.value);
      context.context.AddState(Checkout.DELETE_STATE);
      cartPersister.Delete(context.token, context);
      return Checkout.Completed;
    }

    method Finalize(request: Request, f: Checkout.Return) returns (answer: Checkout.Answer)
      requires f.header == request.header && f.session == request.Session()
      modifies cartPersister.inner, transactions, request.Frame()
      ensures Checkout.Result(Store(), request.Session(), answer) == Checkout.Finalize(old(Store()), f)
    {
      if request.session != null {
        request.session.Remove(Checkout.ACTIVE_ORDER_KEY);
      }
      if f.amount > 0.0 {
        if f.state == None {
          return Checkout.Threw;
        }
        if f.state.value in {Checkout.FAILED, Checkout.DECLINE, Checkout.VOIDED} {
          var read := GetContextToken(request);
          match read {
            case NoSession => return Checkout.Threw;
            case NoToken => request.session.Remove(Checkout.LEGACY_KEY);
            case Token(token) =>
              var resolved := f.resolve(token);
              if resolved == None {
                return Checkout.Threw;
              }
              var context := new SalesChannelContext(resolved.value);
              transactions.ClearTransactionIdFromContext(context);
          }
          return Checkout.Cancelled;
        }
      } else if !f.paid {
        return Checkout.Threw;
      }
      var read := GetContextToken(request);
      match read
      case NoSession => return Checkout.Threw;
      case Token(token) => answer := DropCart(request, f, token);
      case NoToken =>
        if Checkout.Truthy(f.stored) {
          answer := DropCart(request, f, f.stored.value);
        } else {
          answer := Checkout.Completed;
        }
    }
  }
}
