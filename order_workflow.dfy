/** The order page: an order moves from 'pending' to 'ready' to 'completed';
    while it is ready, a discount that needs an ID check can be verified once,
    which takes the discount off the total. Which of the three buttons the page
    offers is decided by the order's status, its discount and the page's
    loading flags. */
module OrderFulfilment {
  import opened Wrappers

  datatype AddonLine = AddonLine(addonName: string, price: real)

  /** A line of the order; an item without add-ons has the empty list. */
  datatype Item = Item(productName: string, price: real, addons: seq<AddonLine>)

  datatype DiscountDetails = DiscountDetails(name: string, percentage: real)

  /** The fields of the order the page reads and writes; a missing item list
      is the empty one, and a missing discount is `None`. */
  datatype Order = Order(
    id: string,
    status: string,
    items: seq<Item>,
    total: real,
    discountDetails: Option<DiscountDetails>,
    discountApplied: bool)

  // ---------------------------------------------------------------------
  // Subtotal
  // ---------------------------------------------------------------------

  /** The inner `reduce`: the add-on prices summed from the left, from 0. */
  function AddonsTotal(addons: seq<AddonLine>): real
    decreases |addons|
  {
    if addons == [] then 0.0
    else AddonsTotal(addons[..|addons| - 1]) + addons[|addons| - 1].price
  }

  /** The outer `reduce`: each item adds its price and its add-ons' total. */
  function Subtotal(items: seq<Item>): real
    decreases |items|
  {
    if items == [] then 0.0
    else
      var last := items[|items| - 1];
      Subtotal(items[..|items| - 1]) + last.price + AddonsTotal(last.addons)
  }

  function Sum(xs: seq<real>): real
    decreases |xs|
  {
    if xs == [] then 0.0 else xs[0] + Sum(xs[1..])
  }

  /** The prices of the items, in order. */
  function ItemPrices(items: seq<Item>): (r: seq<real>)
    ensures |r| == |items|
    ensures forall i :: 0 <= i < |items| ==> r[i] == items[i].price
  {
    seq(|items|, i requires 0 <= i < |items| => items[i].price)
  }

  /** The prices of one item's add-ons, in order. */
  function AddonPriceList(addons: seq<AddonLine>): (r: seq<real>)
    ensures |r| == |addons|
    ensures forall j :: 0 <= j < |addons| ==> r[j] == addons[j].price
  {
    seq(|addons|, j requires 0 <= j < |addons| => addons[j].price)
  }

  /** Every add-on price of every item, flattened in order. */
  function AddonPrices(items: seq<Item>): seq<real>
    decreases |items|
  {
    if items == [] then []
    else
      var last := items[|items| - 1];
      AddonPrices(items[..|items| - 1]) + AddonPriceList(last.addons)
  }

  lemma {:induction false} SumAppend(a: seq<real>, b: seq<real>)
    ensures Sum(a + b) == Sum(a) + Sum(b)
    decreases |a|
  {
    if a == [] {
      assert a + b == b;
    } else {
      assert (a + b)[0] == a[0];
      assert (a + b)[1..] == a[1..] + b;
      SumAppend(a[1..], b);
    }
  }

  lemma ItemPricesSnoc(items: seq<Item>)
    requires items != []
    ensures ItemPrices(items) == ItemPrices(items[..|items| - 1]) + [items[|items| - 1].price]
  {
    var a := ItemPrices(items);
    var b := ItemPrices(items[..|items| - 1]) + [items[|items| - 1].price];
    forall i | 0 <= i < |a| ensures a[i] == b[i] {
      if i < |items| - 1 {
        assert b[i] == items[..|items| - 1][i].price;
      }
    }
  }

  lemma AddonPriceListSnoc(addons: seq<AddonLine>)
    requires addons != []
    ensures AddonPriceList(addons) == AddonPriceList(addons[..|addons| - 1]) + [addons[|addons| - 1].price]
  {
    var a := AddonPriceList(addons);
    var b := AddonPriceList(addons[..|addons| - 1]) + [addons[|addons| - 1].price];
    forall i | 0 <= i < |a| ensures a[i] == b[i] {
      if i < |addons| - 1 {
        assert b[i] == addons[..|addons| - 1][i].price;
      }
    }
  }

  /** The inner fold is the sum of the add-on prices. */
  lemma {:induction false} AddonsTotalIsSum(addons: seq<AddonLine>)
    ensures AddonsTotal(addons) == Sum(AddonPriceList(addons))
    decreases |addons|
  {
    if addons != [] {
      var n := |addons|;
      var init := addons[..n - 1];
      AddonsTotalIsSum(init);
      AddonPriceListSnoc(addons);
      SumAppend(AddonPriceList(init), [addons[n - 1].price]);
      assert Sum([addons[n - 1].price]) == addons[n - 1].price;
    }
  }

  /** The subtotal is the sum of all item prices plus the sum of all add-on prices. */
  lemma {:induction false} SubtotalIsSum(items: seq<Item>)
    ensures Subtotal(items) == Sum(ItemPrices(items)) + Sum(AddonPrices(items))
    decreases |items|
  {
    if items != [] {
      var n := |items|;
      var init := items[..n - 1];
      var last := items[n - 1];
      SubtotalIsSum(init);
      assert Sum(ItemPrices(items)) == Sum(ItemPrices(init)) + last.price by {
        ItemPricesSnoc(items);
        SumAppend(ItemPrices(init), [last.price]);
        assert Sum([last.price]) == last.price;
      }
      assert Sum(AddonPrices(items)) == Sum(AddonPrices(init)) + AddonsTotal(last.addons) by {
        AddonsTotalIsSum(last.addons);
        SumAppend(AddonPrices(init), AddonPriceList(last.addons));
      }
    }
  }

  // ---------------------------------------------------------------------
  // Buttons and transitions
  // ---------------------------------------------------------------------

  /** "Mark as Ready" is shown for a pending order. */
  predicate ShowMarkReady(o: Order)
  {
    o.status == "pending"
  }

  /** "Verify ID" is shown for a ready order with a discount not yet applied. */
  predicate ShowVerify(o: Order)
  {
    o.status == "ready" && o.discountDetails.Some? && !o.discountApplied
  }

  /** "Check out" is shown for a ready order without a discount or with one applied. */
  predicate ShowCheckout(o: Order)
  {
    o.status == "ready" && (o.discountDetails.None? || o.discountApplied)
  }

  function MarkedReady(o: Order): Order
  {
    o.(status := "ready")
  }

  /** The discount is applied: `total - percentage * total`. */
  function Verified(o: Order): Order
    requires o.discountDetails.Some?
  {
    o.(discountApplied := true, total := o.total - o.discountDetails.value.percentage * o.total)
  }

  function CheckedOut(o: Order): Order
  {
    o.(status := "completed")
  }

  datatype Action = MarkReady | VerifyId | CheckOut

  predicate Offered(o: Order, a: Action)
  {
    match a
    case MarkReady => ShowMarkReady(o)
    case VerifyId => ShowVerify(o)
    case CheckOut => ShowCheckout(o)
  }

  function Apply(o: Order, a: Action): Order
    requires Offered(o, a)
  {
    match a
    case MarkReady => MarkedReady(o)
    case VerifyId => Verified(o)
    case CheckOut => CheckedOut(o)
  }

  /** The position of a status on the way from pending to completed. */
  function Rank(status: string): int
  {
    if status == "pending" then 0
    else if status == "ready" then 1
    else if status == "completed" then 2
    else -1
  }

  /** In 'ready' exactly one of Verify and Check out is shown. */
  lemma ReadyOffersOne(o: Order)
    requires o.status == "ready"
    ensures ShowVerify(o) != ShowCheckout(o)
    ensures !ShowMarkReady(o)
  {
  }

  /** Every offered action moves the status forward or keeps it; nothing is
      offered in 'completed' or in a status the page does not know. */
  lemma ActionsMoveForward(o: Order, a: Action)
    requires Offered(o, a)
    ensures 0 <= Rank(o.status) < 2
    ensures Rank(o.status) <= Rank(Apply(o, a).status)
    ensures a == VerifyId <==> Apply(o, a).status == o.status
  {
  }

  /** After the check, Verify is not shown again: the discount is taken off
      at most once. */
  lemma VerifyOnce(o: Order)
    requires ShowVerify(o)
    ensures !ShowVerify(Verified(o)) && ShowCheckout(Verified(o))
  {
  }

  lemma MulNonNegative(a: real, b: real)
    requires a >= 0.0 && b >= 0.0
    ensures a * b >= 0.0
  {
  }

  /** With a percentage in [0, 1], the discounted total stays between 0 and the
      old total. */
  lemma VerifiedTotalBounds(o: Order)
    requires o.discountDetails.Some? && 0.0 <= o.discountDetails.value.percentage <= 1.0
    requires o.total >= 0.0
    ensures Verified(o).total == (1.0 - o.discountDetails.value.percentage) * o.total
    ensures 0.0 <= Verified(o).total <= o.total
  {
    var p := o.discountDetails.value.percentage;
    assert o.total - p * o.total == (1.0 - p) * o.total;
    MulNonNegative(1.0 - p, o.total);
    MulNonNegative(p, o.total);
  }

  /** Applying the actions one after another; `None` once an action is not offered. */
  function Run(o: Order, actions: seq<Action>): Option<Order>
    decreases |actions|
  {
    if actions == [] then Some(o)
    else if Offered(o, actions[0]) then Run(Apply(o, actions[0]), actions[1..])
    else None
  }

  /** What holds of every order reachable from `start` by offered actions. */
  predicate Reachable(start: Order, o: Order)
  {
    o.id == start.id && o.items == start.items && o.discountDetails == start.discountDetails
    && Rank(o.status) >= 0
    && (o.discountApplied ==> o.discountDetails.Some?)
    && o.total == (if o.discountApplied then start.total - start.discountDetails.value.percentage * start.total
                   else start.total)
    && (o.status == "completed" && o.discountDetails.Some? ==> o.discountApplied)
    && (o.discountApplied ==> o.status != "pending")
  }

  lemma {:induction false} RunKeeps(start: Order, o: Order, actions: seq<Action>)
    requires Reachable(start, o)
    requires Run(o, actions).Some?
    ensures Reachable(start, Run(o, actions).value)
    decreases |actions|
  {
    if actions != [] {
      RunKeeps(start, Apply(o, actions[0]), actions[1..]);
    }
  }

  /** From a fresh pending order, any sequence of offered actions keeps the
      items and the discount, and reaches a completed order with a discount
      only through the ID check, which it took off the total exactly once. */
  lemma RunFromPending(start: Order, actions: seq<Action>)
    requires start.status == "pending" && !start.discountApplied
    requires Run(start, actions).Some?
    ensures var o := Run(start, actions).value;
      o.items == start.items && o.discountDetails == start.discountDetails
      && (o.status == "completed" && o.discountDetails.Some? ==> o.discountApplied)
      && (!o.discountApplied ==> o.total == start.total)
      && (o.discountApplied ==>
            (start.discountDetails.Some?
             && o.total == start.total - start.discountDetails.value.percentage * start.total))
  {
    RunKeeps(start, start, actions);
  }

  // ---------------------------------------------------------------------
  // The page
  // ---------------------------------------------------------------------

  /** The page's state: the order (none until loaded, or when the fetch failed)
      and the flags that hide or disable the buttons. */
  class OrderPage {
    var order: Option<Order>
    var loading: bool
    var verifying: bool
    var error: Option<string>

    constructor ()
      ensures order.None? && !loading && !verifying && error.None?
    {
      order := None;
      loading := false;
      verifying := false;
      error := None;
    }

    /** The buttons are rendered only when the page is neither loading nor in
        error and an order is present. */
    predicate Rendered()
      reads this
    {
      !loading && error.None? && order.Some?
    }

    predicate CanMarkReady()
      reads this
    {
      Rendered() && ShowMarkReady(order.value)
    }

    /** The Verify button is disabled while a verification is running. */
    predicate CanVerify()
      reads this
    {
      Rendered() && ShowVerify(order.value) && !verifying
    }

    predicate CanCheckOut()
      reads this
    {
      Rendered() && ShowCheckout(order.value)
    }

    /** The load effect: the fetch answers `null` on failure, so the page shows
        whatever it got and never sets an error. */
    method Load(fetched: Option<Order>)
      modifies this
      ensures order == fetched && !loading
      ensures verifying == old(verifying) && error == old(error)
    {
      loading := true;
      order := fetched;
      loading := false;
    }

    /** "Mark as Ready". The status call answers `null` instead of failing, so
        the transition is applied whatever the server said. */
    method MarkAsReady(response: Option<Order>)
      requires CanMarkReady()
      modifies this
      ensures order == Some(MarkedReady(old(order).value))
      ensures !loading && verifying == old(verifying) && error == old(error)
    {
      loading := true;
      order := Some(MarkedReady(order.value));
      loading := false;
    }

    /** "Verify ID": mark the discount applied and take it off the total. */
    method VerifyId(response: Option<Order>)
      requires CanVerify()
      modifies this
      ensures order == Some(Verified(old(order).value))
      ensures !verifying && loading == old(loading) && error == old(error)
    {
      verifying := true;
      order := Some(Verified(order.value));
      verifying := false;
    }

    /** "Check out". */
    method CompleteOrder(response: Option<Order>)
      requires CanCheckOut()
      modifies this
      ensures order == Some(CheckedOut(old(order).value))
      ensures !loading && verifying == old(verifying) && error == old(error)
    {
      loading := true;
      order := Some(CheckedOut(order.value));
      loading := false;
    }
  }
}
