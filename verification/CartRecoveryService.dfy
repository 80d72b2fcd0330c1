/** The service that rebuilds a cart, on the shop's cart service and the guarded persister behind it. */
module CartRecoveryService {
  import opened Optional
  import opened CartRecovery
  import Checkout
  import CheckoutHandler

  /** What is stored after a cart has grown from start: every addition stores the whole cart. */
  function StoredAfter(stored: map<string, Cart>, token: string, start: Cart, cart: Cart): map<string, Cart> {
    if |cart| == |start| then stored else stored[token := cart]
  }

  lemma StoredNext(stored: map<string, Cart>, token: string, start: Cart, cart: Cart, e: Entry)
    requires |start| <= |cart|
    ensures StoredAfter(stored, token, start, cart)[token := cart + [e]]
            == StoredAfter(stored, token, start, cart + [e])
  {
  }

  lemma StoredInTurn(stored: map<string, Cart>, token: string, a: Cart, b: Cart, c: Cart)
    requires a <= b <= c
    ensures StoredAfter(StoredAfter(stored, token, a, b), token, b, c) == StoredAfter(stored, token, a, c)
  {
    if |c| == |b| {
      assert c == c[..|b|] == b;
    } else {
      assert stored[token := b][token := c] == stored[token := c];
    }
  }

  /** The carts of the running sessions by token, in front of the stored ones. */
  class CartService {
    var carts: map<string, Cart>
    const persister: CheckoutHandler.CustomCartPersister

    constructor (persister: CheckoutHandler.CustomCartPersister)
      ensures carts == map[] && this.persister == persister
    {
      carts, this.persister := map[], persister;
    }

    ghost function Stored(): map<string, Cart>
      reads persister.inner
    {
      persister.inner.carts
    }

    /** The session holds the cart, which has grown from start since the given states. */
    ghost predicate Shows(token: string, start: Cart, cart: Cart, was: map<string, Cart>, stored: map<string, Cart>)
      reads this, persister.inner
    {
      carts == was[token := cart] && Stored() == StoredAfter(stored, token, start, cart)
    }

    method DeleteCart(context: CheckoutHandler.SalesChannelContext)
      modifies persister.inner
      ensures Stored() == Checkout.DeleteCart(old(Stored()), context.token, context.Value())
    {
      persister.Delete(context.token, context);
    }

    method CreateNew(token: string) returns (cart: Cart)
      modifies this
      ensures cart == [] && carts == old(carts)[token := cart]
    {
      cart := [];
      carts := carts[token := cart];
    }

    method Add(token: string, cart: Cart, e: Entry) returns (r: Cart)
      modifies this, persister.inner
      ensures r == cart + [e] && carts == old(carts)[token := r] && Stored() == old(Stored())[token := r]
    {
      r := cart + [e];
      carts := carts[token := r];
      persister.Save(token, r);
    }

    method GetCart(token: string) returns (cart: Cart)
      requires token in carts
      ensures cart == carts[token]
    {
      cart := carts[token];
    }
  }

  class Recovery {
    const cartService: CartService
    const hasRoute: bool

    constructor (cartService: CartService, hasRoute: bool)
      ensures this.cartService == cartService && this.hasRoute == hasRoute
    {
      this.cartService, this.hasRoute := cartService, hasRoute;
    }

    /** The cart the route leaves in the cart service: one more entry. */
    method CallRoute(token: string, call: RouteCall)
      requires token in cartService.carts
      modifies cartService, cartService.persister.inner
      ensures var r := old(cartService.carts)[token] + [Customized(call)];
              && cartService.carts == old(cartService.carts)[token := r]
              && cartService.Stored() == old(cartService.Stored())[token := r]
    {
      var cart := cartService.Add(token, cartService.carts[token], Customized(call));
    }

    method HasCustomProducts(items: seq<OrderItem>) returns (r: bool)
      ensures r <==> exists i :: 0 <= i < |items| && items[i].kind == CONTAINER
    {
      for i := 0 to |items|
        invariant forall k :: 0 <= k < i ==> items[k].kind != CONTAINER
      {
        if items[i].kind == CONTAINER {
          return true;
        }
      }
      return false;
    }

    method GetCustomProduct(items: seq<OrderItem>, parent: string) returns (product: Option<OrderItem>)
      ensures var i := FirstProduct(items, parent); product == if i < |items| then Some(items[i]) else None
    {
      for i := 0 to |items|
        invariant forall k :: 0 <= k < i ==> !IsChild(items[k], PRODUCT, parent)
      {
        if items[i].kind == PRODUCT && items[i].parent == Some(parent) {
          return Some(items[i]);
        }
      }
      return None;
    }

    method GetCustomProductOptions(items: seq<OrderItem>, parent: string) returns (options: seq<OrderItem>)
      ensures options == Options(items, parent)
    {
      options := [];
      for i := 0 to |items|
        invariant options == Options(items[..i], parent)
      {
        assert items[..i + 1][..i] == items[..i];
        if items[i].kind == OPTION && items[i].parent == Some(parent) {
          options := options + [items[i]];
        }
      }
      assert items[..|items|] == items;
    }

    method GetOptionValues(options: seq<OrderItem>) returns (values: map<string, OptionValue>)
      ensures values == OptionValues(options)
    {
      values := map[];
      for i := 0 to |options|
        invariant values == OptionValues(options[..i])
      {
        assert options[..i + 1][..i] == options[..i];
        var option := options[i];
        if option.payload != None && option.payload.value.optionType in {IMAGE_UPLOAD, FILE_UPLOAD} {
          var media := option.payload.value.media;
          ghost var before := values;
          for k := 0 to |media|
            invariant values == if k == 0 then before else before[option.referencedId := MediaValue(media[k - 1])]
          {
            values := values[option.referencedId := MediaValue(media[k])];
          }
        } else {
          values := values[option.referencedId := PlainValue(if option.payload == None then ""
              else option.payload.value.value)];
        }
      }
      assert options[..|options|] == options;
    }

    method AddCustomProducts(items: seq<OrderItem>, token: string, start: Cart) returns (cart: Cart)
      requires token in cartService.carts && cartService.carts[token] == start
      modifies cartService, cartService.persister.inner
      ensures cart == start + if hasRoute then CustomizedEntries(items, |items|) else []
      ensures cartService.Shows(token, start, cart, old(cartService.carts), old(cartService.Stored()))
    {
      hide CustomizedEntries, StoredAfter;
      cart := start;
      NothingStored(cartService.Stored(), token, start);
      if !hasRoute {
        return;
      }
      NoEntries(items);
      for i := 0 to |items|
        invariant cart == start + CustomizedEntries(items, i)
        invariant cartService.Shows(token, start, cart, old(cartService.carts), old(cartService.Stored()))
      {
        NextEntry(items, i);
        var item := items[i];
        if item.kind != CONTAINER {
          continue;
        }
        var product := GetCustomProduct(items, item.id);
        if product == None {
          continue;
        }
        var options := GetCustomProductOptions(items, item.id);
        var values := GetOptionValues(options);
        ghost var call := CallFor(items, item, product.value);
        StoredNext(old(cartService.Stored()), token, start, cart, Customized(call));
        CallRoute(token, RouteCall(item.referencedId, values, product.value.referencedId, item.quantity,
            item.stackable, item.removable));
        cart := cartService.GetCart(token);
      }
    }

    method AddProducts(items: seq<OrderItem>, token: string, start: Cart) returns (cart: Cart)
      requires token in cartService.carts && cartService.carts[token] == start
      modifies cartService, cartService.persister.inner
      ensures cart == start + Picked(items, ProductEntry)
      ensures cartService.Shows(token, start, cart, old(cartService.carts), old(cartService.Stored()))
    {
      hide Picked, StoredAfter;
      cart := start;
      NothingStored(cartService.Stored(), token, start);
      NoProducts(items);
      for i := 0 to |items|
        invariant cart == start + Picked(items[..i], ProductEntry)
        invariant cartService.Shows(token, start, cart, old(cartService.carts), old(cartService.Stored()))
      {
        NextProduct(items, i);
        var item := items[i];
        if item.kind != PRODUCT || item.parent != None {
          continue;
        }
        StoredNext(old(cartService.Stored()), token, start, cart, ProductEntry(item).value);
        cart := cartService.Add(token, cart, Product(item.id, item.referencedId, item.quantity, item.payload));
      }
      assert items[..|items|] == items;
    }

    /** The cart of an order, and what is stored for its token then: the rebuilt cart if anything could be
        rebuilt, and otherwise what the deletion through the guarded persister has left. */
    method RecreateCartFromOrder(lineItems: Option<seq<OrderItem>>, context: CheckoutHandler.SalesChannelContext)
        returns (cart: Cart)
      modifies cartService, cartService.persister.inner
      ensures cart == if lineItems.None? then [] else Rebuilt(lineItems.value, hasRoute)
      ensures lineItems.Some? ==> exists calls, products :: Rebuilds(lineItems.value, hasRoute, cart, calls, products)
      ensures cartService.Shows(context.token, [], cart, old(cartService.carts),
                                Checkout.DeleteCart(old(cartService.Stored()), context.token, context.Value()))
    {
      hide Picked, CustomizedEntries, CustomizedEntry, Checkout.DeleteCart, StoredAfter, Rebuilds;
      cartService.DeleteCart(context);
      cart := cartService.CreateNew(context.token);
      ghost var deleted := cartService.Stored();
      NothingStored(deleted, context.token, cart);
      if lineItems == None {
        return;
      }
      var items := lineItems.value;
      var custom := HasCustomProducts(items);
      if custom && hasRoute {
        cart := AddCustomProducts(items, context.token, cart);
      } else if hasRoute {
        NoContainers(items);
      }
      ghost var front := cart;
      cart := AddProducts(items, context.token, cart);
      StoredInTurn(deleted, context.token, [], front, cart);
      ghost var calls, products := RebuiltRebuilds(items, hasRoute);
    }
  }

  /** What is stored under the token after rebuilding a cart from an order. */
  function StoredCarts(stored: map<string, Cart>, ctx: Checkout.Resolved, items: seq<OrderItem>, route: bool)
    : map<string, Cart>
  {
    StoredAfter(Checkout.DeleteCart(stored, ctx.token, ctx), ctx.token, [], Rebuilt(items, route))
  }

  /** The cart the customer had before is still the stored one exactly if the persister refuses to delete it,
      as it does for this handler's contexts, and the order has nothing that can be rebuilt: neither a
      parentless product nor, where the route is there, a container with a product. */
  lemma OldCartStaysIff(stored: map<string, Cart>, ctx: Checkout.Resolved, items: seq<OrderItem>, route: bool)
    requires ctx.token in stored
    ensures var after := StoredCarts(stored, ctx, items, route);
            && (Rebuilt(items, route) != [] ==> ctx.token in after && after[ctx.token] == Rebuilt(items, route))
            && (Rebuilt(items, route) == [] ==> (ctx.token in after <==> Checkout.Protects(ctx)))
            && (Rebuilt(items, route) == [] && ctx.token in after ==> after[ctx.token] == stored[ctx.token])
            && (Rebuilt(items, route) == [] <==>
                  forall i: nat :: !Parentless(items, i) && !(route && Callable(items, i)))
            && forall t :: t != ctx.token ==> (t in after <==> t in stored) && (t in stored ==> after[t] == stored[t])
  {
    hide Rebuilt, Parentless, Callable;
    NothingRebuiltIff(items, route);
  }

  lemma NextEntry(items: seq<OrderItem>, i: nat)
    requires i < |items|
    ensures CustomizedEntries(items, i + 1) ==
            CustomizedEntries(items, i) + if CustomizedEntry(items, items[i]).Some?
                then [CustomizedEntry(items, items[i]).value] else []
  {
    assert items[..i + 1][..i] == items[..i];
  }

  lemma NothingStored(stored: map<string, Cart>, token: string, cart: Cart)
    ensures StoredAfter(stored, token, cart, cart) == stored
  {
  }

  lemma NoEntries(items: seq<OrderItem>)
    ensures CustomizedEntries(items, 0) == []
  {
  }

  lemma NoProducts(items: seq<OrderItem>)
    ensures Picked(items[..0], ProductEntry) == []
  {
  }

  lemma NextProduct(items: seq<OrderItem>, i: nat)
    requires i < |items|
    ensures Picked(items[..i + 1], ProductEntry) ==
            Picked(items[..i], ProductEntry) + if ProductEntry(items[i]).Some?
                then [ProductEntry(items[i]).value] else []
  {
    assert items[..i + 1][..i] == items[..i];
  }

  lemma NoContainers(items: seq<OrderItem>)
    requires forall i :: 0 <= i < |items| ==> items[i].kind != CONTAINER
    ensures CustomizedEntries(items, |items|) == []
  {
    if CustomizedEntries(items, |items|) != [] {
      var pick := (item: OrderItem) => CustomizedEntry(items, item);
      var i := PickedFrom(items[..|items|], pick, 0);
      assert false;
    }
  }
}
