/** Charging a subscription again: which earlier payment is taken, what its line items become in the
    copy that is sent to the gateway, and how amounts are rounded on the way. */
module Recurring {
  import opened Optional
  import Checkout
  import opened StableSorting

  // ---------------------------------------------------------------- rounding to cents

  /** The nearest whole number, halves away from zero. */
  function RoundWhole(x: real): int {
    if x >= 0.0 then (x + 0.5).Floor else -(0.5 - x).Floor
  }

  /** The amount with two decimals. */
  function Round(x: real): real {
    RoundWhole(x * 100.0) as real / 100.0
  }

  predicate InCents(x: real) {
    (x * 100.0).Floor as real == x * 100.0
  }

  lemma RoundWholeNear(x: real)
    ensures -0.5 <= RoundWhole(x) as real - x <= 0.5
    ensures x >= 0.0 ==> RoundWhole(x) as real - x > -0.5
    ensures x < 0.0 ==> RoundWhole(x) as real - x < 0.5
  {
  }

  /** An amount moves by at most half a cent; a half moves away from zero. */
  lemma RoundNear(x: real)
    ensures -0.005 <= Round(x) - x <= 0.005
    ensures x >= 0.0 ==> Round(x) - x > -0.005
    ensures x < 0.0 ==> Round(x) - x < 0.005
  {
    RoundWholeNear(x * 100.0);
  }

  /** No amount of whole cents is closer. */
  lemma RoundNearest(x: real, cents: int)
    ensures var d, e := Round(x) - x, cents as real / 100.0 - x;
            (if d < 0.0 then -d else d) <= if e < 0.0 then -e else e
  {
    var y := x * 100.0;
    RoundWholeNear(y);
    var n := RoundWhole(y);
    if cents < n {
      assert cents as real <= n as real - 1.0;
    } else if cents > n {
      assert cents as real >= n as real + 1.0;
    }
    assert Round(x) - x == (n as real - y) / 100.0;
    assert cents as real / 100.0 - x == (cents as real - y) / 100.0;
  }

  lemma RoundWholeExact(n: int)
    ensures RoundWhole(n as real) == n
  {
  }

  /** Exactly the amounts of whole cents stay as they are. */
  lemma RoundExact(x: real)
    ensures Round(x) == x <==> InCents(x)
  {
    if InCents(x) {
      RoundWholeExact((x * 100.0).Floor);
    }
  }

  lemma RoundedInCents(x: real)
    ensures InCents(Round(x)) && Round(Round(x)) == Round(x)
  {
    var n := RoundWhole(x * 100.0);
    assert Round(x) * 100.0 == n as real;
    RoundExact(Round(x));
  }

  lemma RoundMonotone(x: real, y: real)
    requires x <= y
    ensures Round(x) <= Round(y)
  {
    RoundWholeMonotone(x * 100.0, y * 100.0);
  }

  lemma RoundWholeMonotone(x: real, y: real)
    requires x <= y
    ensures RoundWhole(x) <= RoundWhole(y)
  {
  }

  // ---------------------------------------------------------------- the copy

  datatype Attribute = Attribute(id: string, caption: string, value: string)

  datatype Tax = Tax(title: string, rate: real)

  /** A line item of the gateway; absent attributes and taxes are those that were never set. */
  datatype LineItem = LineItem(name: string, sku: string, uniqueId: string, kind: string, quantity: real, amount: real,
                               discount: real, shippingRequired: bool, attributes: Option<seq<Attribute>>,
                               taxes: Option<seq<Tax>>)

  const LINE_ITEM_NAME := 150
  const LINE_ITEM_SKU := 200
  const LINE_ITEM_UNIQUE_ID := 200
  const LINE_ITEM_ATTRIBUTE_LABEL := 512
  const LINE_ITEM_ATTRIBUTE_VALUE := 512
  const TAX_TITLE := 40

  /** As much of the front of s as fits. */
  predicate Cut(s: string, r: string, max: nat) {
    r <= s && |r| == if |s| <= max then |s| else max
  }

  function FixLength(s: string, max: nat): (r: string)
    ensures Cut(s, r, max)
  {
    if |s| <= max then s else s[..max]
  }

  function AttributeCopy(a: Attribute): Attribute {
    Attribute(a.id, FixLength(a.caption, LINE_ITEM_ATTRIBUTE_LABEL), FixLength(a.value, LINE_ITEM_ATTRIBUTE_VALUE))
  }

  function TaxCopy(t: Tax): Tax {
    Tax(FixLength(t.title, TAX_TITLE), t.rate)
  }

  function Mapped<T, U>(s: seq<T>, f: T -> U): (r: seq<U>)
    ensures |r| == |s| && forall i :: 0 <= i < |s| ==> r[i] == f(s[i])
  {
    seq(|s|, i requires 0 <= i < |s| => f(s[i]))
  }

  /** Copied lists that are empty are not set. */
  function ListCopy<T>(s: Option<seq<T>>, f: T -> T): Option<seq<T>> {
    if s.None? || s.value == [] then None else Some(Mapped(s.value, f))
  }

  function ItemCopy(l: LineItem): LineItem {
    LineItem(FixLength(l.name, LINE_ITEM_NAME), FixLength(l.sku, LINE_ITEM_SKU),
             FixLength(l.uniqueId, LINE_ITEM_UNIQUE_ID),
             l.kind, l.quantity, Round(l.amount), l.discount, l.shippingRequired,
             ListCopy(l.attributes, AttributeCopy), ListCopy(l.taxes, TaxCopy))
  }

  ghost predicate CutAttribute(a: Attribute, b: Attribute) {
    b.id == a.id && Cut(a.caption, b.caption, 512) && Cut(a.value, b.value, 512)
  }

  ghost predicate CutTax(a: Tax, b: Tax) {
    b.rate == a.rate && Cut(a.title, b.title, 40)
  }

  /** Field by field: name, SKU and unique ID are the item's own, each cut to its limit, the amount is rounded,
      and so on; attributes and taxes are kept in order under their IDs and with their rates, and are set
      exactly if there are any. */
  ghost predicate Copies(l: LineItem, c: LineItem) {
    && Cut(l.name, c.name, 150) && Cut(l.sku, c.sku, 200) && Cut(l.uniqueId, c.uniqueId, 200)
    && c.kind == l.kind && c.quantity == l.quantity && c.discount == l.discount
    && c.shippingRequired == l.shippingRequired && c.amount == Round(l.amount)
    && (c.attributes.Some? <==> l.attributes.Some? && l.attributes.value != [])
    && (c.attributes.Some? ==>
          && |c.attributes.value| == |l.attributes.value|
          && forall i :: 0 <= i < |c.attributes.value| ==> CutAttribute(l.attributes.value[i], c.attributes.value[i]))
    && (c.taxes.Some? <==> l.taxes.Some? && l.taxes.value != [])
    && (c.taxes.Some? ==>
          && |c.taxes.value| == |l.taxes.value|
          && forall i :: 0 <= i < |c.taxes.value| ==> CutTax(l.taxes.value[i], c.taxes.value[i]))
  }

  lemma ItemCopyCopies(l: LineItem)
    ensures Copies(l, ItemCopy(l))
  {
    hide Round;
  }

  lemma CutOnce(s: string, r: string, q: string, max: nat)
    ensures Cut(s, r, max) && Cut(s, q, max) ==> r == q
  {
  }

  /** The copy is determined by what it copies. */
  lemma CopiesOnce(l: LineItem, c: LineItem, d: LineItem)
    requires Copies(l, c) && Copies(l, d)
    ensures c == d
  {
    hide Round, Cut;
    CutOnce(l.name, c.name, d.name, 150);
    CutOnce(l.sku, c.sku, d.sku, 200);
    CutOnce(l.uniqueId, c.uniqueId, d.uniqueId, 200);
    if c.attributes.Some? {
      forall i | 0 <= i < |c.attributes.value| ensures c.attributes.value[i] == d.attributes.value[i] {
        var a, x, y := l.attributes.value[i], c.attributes.value[i], d.attributes.value[i];
        CutOnce(a.caption, x.caption, y.caption, 512);
        CutOnce(a.value, x.value, y.value, 512);
      }
      assert c.attributes.value == d.attributes.value;
    }
    if c.taxes.Some? {
      forall i | 0 <= i < |c.taxes.value| ensures c.taxes.value[i] == d.taxes.value[i] {
        CutOnce(l.taxes.value[i].title, c.taxes.value[i].title, d.taxes.value[i].title, 40);
      }
      assert c.taxes.value == d.taxes.value;
    }
  }

  function Total(items: seq<LineItem>): real {
    if items == [] then 0.0 else Total(items[..|items| - 1]) + items[|items| - 1].amount
  }

  /** n items move the total by at most n halves of a cent. */
  lemma {:induction false} CopyKeepsTotal(items: seq<LineItem>)
    ensures var moved := Total(Mapped(items, ItemCopy)) - Total(items);
            -0.005 * |items| as real <= moved <= 0.005 * |items| as real
  {
    if items != [] {
      var n := |items| - 1;
      CopyKeepsTotal(items[..n]);
      assert Mapped(items, ItemCopy)[..n] == Mapped(items[..n], ItemCopy);
      RoundNear(items[n].amount);
    }
  }

  /** Amounts of whole cents add up to the same total. */
  lemma {:induction false} CopyOfCentsIsExact(items: seq<LineItem>)
    requires forall i :: 0 <= i < |items| ==> InCents(items[i].amount)
    ensures Total(Mapped(items, ItemCopy)) == Total(items)
  {
    hide InCents;
    if items != [] {
      var n := |items| - 1;
      CopyOfCentsIsExact(items[..n]);
      assert Mapped(items, ItemCopy)[..n] == Mapped(items[..n], ItemCopy);
      RoundExact(items[n].amount);
    }
  }

  lemma ListCopyTwice<T>(s: Option<seq<T>>, f: T -> T)
    requires s.Some? ==> forall i :: 0 <= i < |s.value| ==> f(f(s.value[i])) == f(s.value[i])
    ensures ListCopy(ListCopy(s, f), f) == ListCopy(s, f)
  {
    if ListCopy(s, f).Some? {
      var once := ListCopy(s, f).value;
      assert Mapped(once, f) == once;
    }
  }

  /** A charge copied from a charge that was a copy itself has the same line items: charging a
      subscription any number of times neither loses cents nor letters after the first time. */
  lemma CopyOfCopy(l: LineItem)
    ensures ItemCopy(ItemCopy(l)) == ItemCopy(l)
  {
    hide Round;
    RoundedInCents(l.amount);
    ListCopyTwice(l.attributes, AttributeCopy);
    ListCopyTwice(l.taxes, TaxCopy);
  }

  method LineItemCreateFromSdk(l: LineItem) returns (r: LineItem)
    ensures r == ItemCopy(l) && Copies(l, r)
  {
    ItemCopyCopies(l);
    var attributes: seq<Attribute> := [];
    var given := if l.attributes == None then [] else l.attributes.value;
    for i := 0 to |given|
      invariant attributes == Mapped(given[..i], AttributeCopy)
    {
      attributes := attributes + [Attribute(given[i].id, FixLength(given[i].caption, LINE_ITEM_ATTRIBUTE_LABEL),
                                            FixLength(given[i].value, LINE_ITEM_ATTRIBUTE_VALUE))];
    }
    assert given[..|given|] == given;
    var taxes: seq<Tax> := [];
    var levied := if l.taxes == None then [] else l.taxes.value;
    for i := 0 to |levied|
      invariant taxes == Mapped(levied[..i], TaxCopy)
    {
      taxes := taxes + [Tax(FixLength(levied[i].title, TAX_TITLE), levied[i].rate)];
    }
    assert levied[..|levied|] == levied;
    r := LineItem(FixLength(l.name, LINE_ITEM_NAME), FixLength(l.sku, LINE_ITEM_SKU),
                  FixLength(l.uniqueId, LINE_ITEM_UNIQUE_ID),
                  l.kind, l.quantity, Round(l.amount), l.discount, l.shippingRequired,
                  if |attributes| > 0 then Some(attributes) else None, if |taxes| > 0 then Some(taxes) else None);
  }

  method CopyLineItems(items: seq<LineItem>) returns (r: seq<LineItem>)
    ensures r == Mapped(items, ItemCopy)
    ensures |r| == |items| && forall i :: 0 <= i < |items| ==> Copies(items[i], r[i])
  {
    r := [];
    for i := 0 to |items|
      invariant r == Mapped(items[..i], ItemCopy) && forall k :: 0 <= k < i ==> Copies(items[k], r[k])
    {
      var copied := LineItemCreateFromSdk(items[i]);
      r := r + [copied];
    }
    assert items[..|items|] == items;
  }

  // ---------------------------------------------------------------- the payment that is copied

  /** paid: the state of the transaction in the shop. */
  datatype OrderTransaction = OrderTransaction(id: nat, paid: bool)

  datatype Order = Order(createdAt: int, transactions: seq<OrderTransaction>)

  function CreatedAt(o: Order): int {
    o.createdAt
  }

  function FirstPaid(ts: seq<OrderTransaction>): Option<OrderTransaction> {
    if ts == [] then None else if ts[0].paid then Some(ts[0]) else FirstPaid(ts[1..])
  }

  /** The first paid transaction of the subscription's earliest order. */
  function Original(orders: seq<Order>): Option<OrderTransaction> {
    var sorted := StableSort(orders, CreatedAt);
    if sorted == [] then None else FirstPaid(sorted[0].transactions)
  }

  lemma {:induction false} InsertFirst<T>(s: seq<T>, x: T, key: T -> int)
    requires SortedBy(s, key)
    ensures var r := Insert(s, x, key);
            r != [] && r[0] == if s == [] || key(x) < key(s[0]) then x else s[0]
  {
    if s != [] {
      var n := |s| - 1;
      if key(s[n]) > key(x) {
        InsertFirst(s[..n], x, key);
      }
    }
  }

  lemma SortedResult<T>(s: seq<T>, key: T -> int)
    ensures SortedBy(StableSort(s, key), key)
  {
    StableSortSorts(s, key);
  }

  ghost predicate IsEarliest(orders: seq<Order>, i: nat)
    requires i < |orders|
  {
    && (forall j :: 0 <= j < i ==> orders[i].createdAt < orders[j].createdAt)
    && (forall j :: i < j < |orders| ==> orders[i].createdAt <= orders[j].createdAt)
  }

  /** The order taken is the first of the earliest ones. */
  lemma {:induction false} EarliestOrder(orders: seq<Order>) returns (i: nat)
    requires orders != []
    ensures var sorted := StableSort(orders, CreatedAt);
            i < |orders| && sorted != [] && sorted[0] == orders[i] && IsEarliest(orders, i)
  {
    hide Insert, SortedBy;
    var n := |orders| - 1;
    SortedResult(orders[..n], CreatedAt);
    InsertFirst(StableSort(orders[..n], CreatedAt), orders[n], CreatedAt);
    if n == 0 {
      i := 0;
    } else {
      i := EarliestOrder(orders[..n]);
      if orders[n].createdAt < orders[i].createdAt {
        i := n;
      }
    }
  }

  lemma {:induction false} FirstPaidIsFirst(ts: seq<OrderTransaction>)
    ensures var r := FirstPaid(ts);
            && (r.None? <==> forall k :: 0 <= k < |ts| ==> !ts[k].paid)
            && (r.Some? ==>
                  exists k ::
                    0 <= k < |ts| && ts[k] == r.value && ts[k].paid && forall j :: 0 <= j < k ==> !ts[j].paid)
  {
    if ts != [] {
      FirstPaidIsFirst(ts[1..]);
      if ts[0].paid {
        assert FirstPaid(ts) == Some(ts[0]);
      } else if FirstPaid(ts).Some? {
        var k :| 0 <= k < |ts[1..]| && ts[1..][k] == FirstPaid(ts).value && ts[1..][k].paid
            && forall j :: 0 <= j < k ==> !ts[1..][j].paid;
        assert ts[k + 1] == ts[1..][k];
        forall j | 0 <= j < k + 1 ensures !ts[j].paid {
          assert j > 0 ==> ts[j] == ts[1..][j - 1];
        }
      }
    }
  }

  /** A subscription is charged by the first paid transaction of its earliest order, and cannot be
      charged if that order has none, whatever its later orders have. */
  lemma OriginalPayment(orders: seq<Order>) returns (i: nat)
    requires orders != []
    ensures i < |orders| && IsEarliest(orders, i)
    ensures var ts, r := orders[i].transactions, Original(orders);
            && (r.None? <==> forall k :: 0 <= k < |ts| ==> !ts[k].paid)
            && (r.Some? ==>
                  exists k ::
                    0 <= k < |ts| && ts[k] == r.value && ts[k].paid && forall j :: 0 <= j < k ==> !ts[j].paid)
  {
    hide FirstPaid, StableSort;
    i := EarliestOrder(orders);
    FirstPaidIsFirst(orders[i].transactions);
  }

  datatype OrderState = Paid | Failed | InProgress | Reopened

  /** What the new order transaction becomes by the state of the charge. */
  function NewState(state: Checkout.TransactionState): OrderState {
    if state in {Checkout.AUTHORIZED, Checkout.COMPLETED, Checkout.CONFIRMED, Checkout.FULFILL} then Paid
    else if state in {Checkout.DECLINE, Checkout.FAILED, Checkout.VOIDED} then Failed
    else if state in {Checkout.PENDING, Checkout.PROCESSING} then InProgress
    else Reopened
  }

  /** A charge fails its order in exactly the states in which a customer who comes back is refused,
      and an order is reopened only for a transaction that was created and nothing more. */
  lemma ChargeFailsWhereReturnIsRefused(state: Checkout.TransactionState, f: Checkout.Return)
    requires f.amount > 0.0 && f.state == Some(state)
    ensures NewState(state) == Failed <==> Checkout.Rejected(f)
    ensures NewState(state) == Reopened <==> state == Checkout.CREATE
    ensures NewState(state) == InProgress <==> state.PENDING? || state.PROCESSING?
  {
  }
}
