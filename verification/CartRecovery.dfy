/** Rebuilding a cart from the flat list of an order's line items: parentless products, and containers
    of customized products with their child products and options. */
module CartRecovery {
  import opened Optional

  datatype Media = Media(id: string, filename: string)

  datatype Payload = Payload(optionType: string, value: string, media: seq<Media>)

  datatype OrderItem = OrderItem(id: string, kind: string, parent: Option<string>, referencedId: string, quantity: nat,
                                 stackable: bool, removable: bool, payload: Option<Payload>)

  const PRODUCT := "product"
  const CONTAINER := "customized-products"
  const OPTION := "customized-products-option"
  const IMAGE_UPLOAD := "imageupload"
  const FILE_UPLOAD := "fileupload"

  datatype OptionValue = MediaValue(media: Media) | PlainValue(value: string)

  /** What one call of the customized products route is given. */
  datatype RouteCall = RouteCall(template: string, options: map<string, OptionValue>, productId: string, quantity: nat,
                                 stackable: bool, removable: bool)

  /** A cart entry: a product, or what a call of the route added. */
  datatype Entry =
    | Product(id: string, referencedId: string, quantity: nat, payload: Option<Payload>)
    | Customized(call: RouteCall)

  type Cart = seq<Entry>

  // ---------------------------------------------------------------- picking in order

  /** What the elements contribute, in their order. */
  function Picked<T, U>(s: seq<T>, pick: T -> Option<U>): seq<U> {
    if s == [] then []
    else
      var n := |s| - 1;
      Picked(s[..n], pick) + if pick(s[n]).Some? then [pick(s[n]).value] else []
  }

  /** Every contribution comes from an element. */
  lemma {:induction false} PickedFrom<T, U>(s: seq<T>, pick: T -> Option<U>, k: nat) returns (i: nat)
    requires k < |Picked(s, pick)|
    ensures i < |s| && pick(s[i]).Some? && Picked(s, pick)[k] == pick(s[i]).value
  {
    var n := |s| - 1;
    if k < |Picked(s[..n], pick)| {
      i := PickedFrom(s[..n], pick, k);
    } else {
      i := n;
    }
  }

  // ---------------------------------------------------------------- what is rebuilt

  predicate Standalone(item: OrderItem) {
    item.kind == PRODUCT && item.parent.None?
  }

  function ProductEntry(item: OrderItem): Option<Entry> {
    if Standalone(item) then Some(Product(item.id, item.referencedId, item.quantity, item.payload)) else None
  }

  predicate IsChild(item: OrderItem, kind: string, parent: string) {
    item.kind == kind && item.parent == Some(parent)
  }

  /** The position of the first product of a container; the number of items if it has none. */
  function FirstProduct(items: seq<OrderItem>, container: string): (i: nat)
    ensures i <= |items|
    ensures i < |items| ==> IsChild(items[i], PRODUCT, container)
    ensures forall k :: 0 <= k < i ==> !IsChild(items[k], PRODUCT, container)
  {
    if items == [] || IsChild(items[0], PRODUCT, container) then 0 else 1 + FirstProduct(items[1..], container)
  }

  function Options(items: seq<OrderItem>, container: string): seq<OrderItem> {
    Picked(items, (item: OrderItem) => if IsChild(item, OPTION, container) then Some(item) else None)
  }

  predicate IsUpload(option: OrderItem) {
    option.payload.Some? && option.payload.value.optionType in {IMAGE_UPLOAD, FILE_UPLOAD}
  }

  /** What an option has to say; an upload without files says nothing, one with several its last. */
  function Contribution(option: OrderItem): Option<OptionValue> {
    if IsUpload(option) then
      var media := option.payload.value.media;
      if media == [] then None else Some(MediaValue(media[|media| - 1]))
    else Some(PlainValue(if option.payload.Some? then option.payload.value.value else ""))
  }

  function OptionValues(options: seq<OrderItem>): map<string, OptionValue> {
    if options == [] then map[]
    else
      var n := |options| - 1;
      var earlier := OptionValues(options[..n]);
      var c := Contribution(options[n]);
      if c.Some? then earlier[options[n].referencedId := c.value] else earlier
  }

  function CallFor(items: seq<OrderItem>, container: OrderItem, product: OrderItem): RouteCall {
    RouteCall(container.referencedId, OptionValues(Options(items, container.id)), product.referencedId,
              container.quantity, container.stackable, container.removable)
  }

  function CustomizedEntry(items: seq<OrderItem>, item: OrderItem): Option<Entry> {
    if item.kind != CONTAINER then None
    else
      var i := FirstProduct(items, item.id);
      if i == |items| then None else Some(Customized(CallFor(items, item, items[i])))
  }

  function CustomizedEntries(items: seq<OrderItem>, upTo: nat): Cart
    requires upTo <= |items|
  {
    Picked(items[..upTo], item => CustomizedEntry(items, item))
  }

  function Rebuilt(items: seq<OrderItem>, route: bool): Cart {
    (if route then CustomizedEntries(items, |items|) else []) + Picked(items, ProductEntry)
  }

  // ---------------------------------------------------------------- options

  /** A reference is missing exactly if no option with it has anything to say. */
  lemma {:induction false} MissingReference(options: seq<OrderItem>, reference: string)
    ensures reference !in OptionValues(options) <==>
              forall k :: 0 <= k < |options| && options[k].referencedId == reference ==> Contribution(options[k]).None?
  {
    hide Contribution;
    if options != [] {
      MissingReference(options[..|options| - 1], reference);
    }
  }

  /** Under a reference stands what the last option with it had to say. */
  lemma {:induction false} LastContribution(options: seq<OrderItem>, reference: string) returns (k: nat)
    requires reference in OptionValues(options)
    ensures k < |options| && options[k].referencedId == reference
    ensures Contribution(options[k]) == Some(OptionValues(options)[reference])
    ensures forall j :: k < j < |options| && options[j].referencedId == reference ==> Contribution(options[j]).None?
  {
    hide Contribution;
    var n := |options| - 1;
    if options[n].referencedId == reference && Contribution(options[n]).Some? {
      k := n;
    } else {
      k := LastContribution(options[..n], reference);
    }
  }

  /** All files of an upload are kept exactly if it has at most one: each replaces the one before. */
  lemma UploadsKeepOneFile(option: OrderItem)
    requires IsUpload(option)
    requires forall i, j :: 0 <= i < j < |option.payload.value.media| ==>
        option.payload.value.media[i] != option.payload.value.media[j]
    ensures var m := OptionValues([option]);
            var media := option.payload.value.media;
            (forall i :: 0 <= i < |media| ==>
               option.referencedId in m && m[option.referencedId] == MediaValue(media[i])) <==> |media| <= 1
  {
    assert [option][..0] == [];
    var m := OptionValues([option]);
    var media := option.payload.value.media;
    if |media| > 1 {
      assert m[option.referencedId] == MediaValue(media[|media| - 1]);
      assert media[0] != media[|media| - 1];
    }
  }

  // ---------------------------------------------------------------- the rebuilt cart, entry by entry

  /** The positions of the elements that contribute. */
  function PickedAt<T, U>(s: seq<T>, pick: T -> Option<U>): seq<nat> {
    if s == [] then []
    else
      var n := |s| - 1;
      PickedAt(s[..n], pick) + if pick(s[n]).Some? then [n] else []
  }

  ghost predicate Increasing(at: seq<nat>) {
    forall k, l :: 0 <= k < l < |at| ==> at[k] < at[l]
  }

  lemma {:induction false} PickedAtIs<T, U>(s: seq<T>, pick: T -> Option<U>)
    ensures var at, picked := PickedAt(s, pick), Picked(s, pick);
            && |at| == |picked| && Increasing(at)
            && forall k :: 0 <= k < |at| ==> at[k] < |s| && pick(s[at[k]]) == Some(picked[k])
  {
    if s != [] {
      PickedAtIs(s[..|s| - 1], pick);
    }
  }

  lemma {:induction false} PickedAtMembers<T, U>(s: seq<T>, pick: T -> Option<U>, i: nat)
    ensures i in PickedAt(s, pick) <==> i < |s| && pick(s[i]).Some?
  {
    if s != [] {
      PickedAtMembers(s[..|s| - 1], pick, i);
    }
  }

  ghost predicate ChildAt(items: seq<OrderItem>, k: int, kind: string, container: string) {
    0 <= k < |items| && items[k].kind == kind && items[k].parent == Some(container)
  }

  ghost predicate FirstProductAt(items: seq<OrderItem>, k: int, container: string) {
    ChildAt(items, k, "product", container) && forall q :: q < k ==> !ChildAt(items, q, "product", container)
  }

  /** The value an option stands for: the last file of an upload, or its plain value. */
  ghost predicate Says(option: OrderItem, v: OptionValue) {
    if option.payload.Some? && option.payload.value.optionType in {"imageupload", "fileupload"} then
      var media := option.payload.value.media;
      media != [] && v == MediaValue(media[|media| - 1])
    else v == PlainValue(if option.payload.None? then "" else option.payload.value.value)
  }

  /** An option of the container with this reference that is not an upload without files. */
  ghost predicate SpeaksFor(items: seq<OrderItem>, k: int, container: string, reference: string) {
    && ChildAt(items, k, "customized-products-option", container) && items[k].referencedId == reference
    && !(&& items[k].payload.Some? && items[k].payload.value.optionType in {"imageupload", "fileupload"}
         && items[k].payload.value.media == [])
  }

  /** A reference is among the values exactly if some option speaks for it, and then holds what the last says. */
  ghost predicate Holds(items: seq<OrderItem>, container: string, values: map<string, OptionValue>, reference: string) {
    && (reference in values <==> exists k :: SpeaksFor(items, k, container, reference))
    && (reference in values ==>
          exists k :: SpeaksFor(items, k, container, reference) && Says(items[k], values[reference])
                      && forall q :: q > k ==> !SpeaksFor(items, q, container, reference))
  }

  /** The call made for a container: template, quantity and flags are the container's, the product is its
      first one, and under each reference stands what the last option of the container with it says. */
  ghost predicate CallsFor(items: seq<OrderItem>, i: nat, call: RouteCall)
    requires i < |items|
  {
    var container := items[i];
    && container.kind == "customized-products"
    && call.template == container.referencedId && call.quantity == container.quantity
    && call.stackable == container.stackable && call.removable == container.removable
    && (exists k :: FirstProductAt(items, k, container.id) && call.productId == items[k].referencedId)
    && forall reference :: Holds(items, container.id, call.options, reference)
  }

  /** A container of the order that has a product. */
  ghost predicate Callable(items: seq<OrderItem>, i: nat) {
    i < |items| && items[i].kind == "customized-products" && exists k :: ChildAt(items, k, "product", items[i].id)
  }

  ghost predicate Parentless(items: seq<OrderItem>, i: nat) {
    i < |items| && items[i].kind == "product" && items[i].parent.None?
  }

  /** Where the route is there, one call for each container that has a product, in the order of the items;
      then every parentless product with its quantity and payload, in that order; and nothing else. calls and
      products are the positions in the order that the entries come from. */
  ghost predicate Rebuilds(items: seq<OrderItem>, route: bool, cart: Cart, calls: seq<nat>, products: seq<nat>) {
    && |cart| == |calls| + |products| && Increasing(calls) && Increasing(products)
    && (forall i: nat :: i in calls <==> route && Callable(items, i))
    && (forall i: nat :: i in products <==> Parentless(items, i))
    && (forall p :: 0 <= p < |calls| ==>
          calls[p] < |items| && cart[p].Customized? && CallsFor(items, calls[p], cart[p].call))
    && forall p :: 0 <= p < |products| ==>
         && products[p] < |items|
         && var item := items[products[p]];
         cart[|calls| + p] == Product(item.id, item.referencedId, item.quantity, item.payload)
  }

  lemma ContributionSays(option: OrderItem)
    ensures Contribution(option).Some? ==> Says(option, Contribution(option).value)
    ensures Contribution(option).None? <==>
              && option.payload.Some? && option.payload.value.optionType in {"imageupload", "fileupload"}
              && option.payload.value.media == []
  {
  }

  lemma FirstProductIs(items: seq<OrderItem>, container: string)
    ensures var k := FirstProduct(items, container);
            && (k < |items| ==> FirstProductAt(items, k, container))
            && (k == |items| ==> forall q :: !ChildAt(items, q, "product", container))
  {
    var k := FirstProduct(items, container);
    forall q | q < k ensures !ChildAt(items, q, "product", container) {
    }
  }

  /** The options of a container, with their positions in the order. */
  lemma OptionsAre(items: seq<OrderItem>, container: string) returns (at: seq<nat>)
    ensures var options := Options(items, container);
            && |at| == |options| && Increasing(at)
            && (forall j :: 0 <= j < |at| ==>
                  ChildAt(items, at[j], "customized-products-option", container) && options[j] == items[at[j]])
            && forall k: int :: ChildAt(items, k, "customized-products-option", container) ==>
                 exists j :: 0 <= j < |at| && at[j] == k
  {
    var pick := (item: OrderItem) => if IsChild(item, OPTION, container) then Some(item) else None;
    at := PickedAt(items, pick);
    PickedAtIs(items, pick);
    forall k: int | ChildAt(items, k, "customized-products-option", container)
      ensures exists j :: 0 <= j < |at| && at[j] == k
    {
      PickedAtMembers(items, pick, k);
    }
  }

  lemma OptionsSpeak(items: seq<OrderItem>, container: string, reference: string)
    ensures Holds(items, container, OptionValues(Options(items, container)), reference)
  {
    hide OptionValues, Options, Contribution, Says;
    var options := Options(items, container);
    var m := OptionValues(options);
    var at := OptionsAre(items, container);
    MissingReference(options, reference);
    forall k | SpeaksFor(items, k, container, reference) ensures reference in m {
      var j :| 0 <= j < |at| && at[j] == k;
      ContributionSays(items[k]);
      assert options[j].referencedId == reference && Contribution(options[j]).Some?;
    }
    if reference in m {
      var j := LastContribution(options, reference);
      var k := at[j];
      ContributionSays(items[k]);
      assert SpeaksFor(items, k, container, reference);
      forall l | j < l < |at| ensures !SpeaksFor(items, at[l], container, reference) {
        ContributionSays(items[at[l]]);
        assert options[l] == items[at[l]];
      }
      forall q | q > k ensures !SpeaksFor(items, q, container, reference) {
        assert ChildAt(items, q, "customized-products-option", container) ==> exists l :: j < l < |at| && at[l] == q;
      }
    }
  }

  lemma CustomizedEntryIs(items: seq<OrderItem>, i: nat)
    requires i < |items|
    ensures var e := CustomizedEntry(items, items[i]);
            && (e.Some? <==> Callable(items, i))
            && (e.Some? ==> e.value.Customized? && CallsFor(items, i, e.value.call))
  {
    hide OptionValues, Options, Holds;
    var container := items[i];
    FirstProductIs(items, container.id);
    forall reference: string
      ensures Holds(items, container.id, OptionValues(Options(items, container.id)), reference)
    {
      OptionsSpeak(items, container.id, reference);
    }
  }

  lemma RebuiltRebuilds(items: seq<OrderItem>, route: bool) returns (calls: seq<nat>, products: seq<nat>)
    ensures Rebuilds(items, route, Rebuilt(items, route), calls, products)
  {
    hide Picked, PickedAt, CustomizedEntry, CallsFor, Callable;
    var pick := (item: OrderItem) => CustomizedEntry(items, item);
    assert items[..|items|] == items;
    calls := if route then PickedAt(items, pick) else [];
    products := PickedAt(items, ProductEntry);
    PickedAtIs(items, pick);
    PickedAtIs(items, ProductEntry);
    forall i: nat ensures i in calls <==> route && Callable(items, i) {
      PickedAtMembers(items, pick, i);
      if i < |items| {
        CustomizedEntryIs(items, i);
      } else {
        NotCallable(items, i);
      }
    }
    forall i: nat ensures i in products <==> Parentless(items, i) {
      PickedAtMembers(items, ProductEntry, i);
    }
    var cart := Rebuilt(items, route);
    forall p | 0 <= p < |calls|
      ensures calls[p] < |items| && cart[p].Customized? && CallsFor(items, calls[p], cart[p].call)
    {
      CustomizedEntryIs(items, calls[p]);
    }
  }

  lemma NotCallable(items: seq<OrderItem>, i: nat)
    ensures Callable(items, i) ==> i < |items|
  {
  }

  lemma NothingMeansNone(calls: seq<nat>, products: seq<nat>)
    ensures |calls| + |products| == 0 <==> forall i: nat :: i !in calls && i !in products
  {
    if |calls| > 0 {
      assert calls[0] in calls;
    }
    if |products| > 0 {
      assert products[0] in products;
    }
  }

  /** Nothing is rebuilt exactly if the order has neither a parentless product nor, where the route is
      there, a container with a product. */
  lemma NothingRebuiltIff(items: seq<OrderItem>, route: bool)
    ensures Rebuilt(items, route) == [] <==>
              forall i: nat :: !Parentless(items, i) && !(route && Callable(items, i))
  {
    hide Rebuilt, Parentless, Callable;
    var calls, products := RebuiltRebuilds(items, route);
    NothingMeansNone(calls, products);
  }

  /** Some call is made for this very product. */
  ghost predicate Called(items: seq<OrderItem>, route: bool, i: nat) {
    route && exists j: nat :: Callable(items, j) && FirstProductAt(items, i, items[j].id)
  }

  /** A child product makes it back into the cart exactly if the route is there, its parent is a
      container of the order, and no product of that container comes before it. */
  lemma ChildProductReturns(items: seq<OrderItem>, route: bool, i: nat)
    requires i < |items| && items[i].kind == "product" && items[i].parent.Some?
    ensures Called(items, route, i) <==>
              && route
              && (exists j :: 0 <= j < |items| && items[j].kind == "customized-products"
                              && items[j].id == items[i].parent.value)
              && forall k :: 0 <= k < i ==> !ChildAt(items, k, "product", items[i].parent.value)
  {
    forall j | 0 <= j < |items| && items[j].kind == "customized-products" && items[j].id == items[i].parent.value
      ensures Callable(items, j)
    {
      assert ChildAt(items, i, "product", items[j].id);
    }
  }

  /** The second product of a container does not come back. */
  lemma SecondProductIsLost()
    ensures var plain := OrderItem("a", CONTAINER, None, "t", 1, true, true, None);
            var first := plain.(id := "b", kind := PRODUCT, parent := Some("a"));
            !Called([plain, first, first.(id := "c")], true, 2)
  {
    var plain := OrderItem("a", CONTAINER, None, "t", 1, true, true, None);
    var first := plain.(id := "b", kind := PRODUCT, parent := Some("a"));
    var items := [plain, first, first.(id := "c")];
    assert ChildAt(items, 1, "product", "a");
    ChildProductReturns(items, true, 2);
  }
}
