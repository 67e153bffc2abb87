/**
 The cart over a whole visit: the sequence of clicks the script reacts to,
 starting from the empty cart of script.js line 22. A quantity or remove
 button carries the position it was rendered at. Reading `cart[index]` past
 the end gives `undefined`, so "+" and "-" at such a position throw before
 changing anything (script.js lines 98 and 108), and `splice` past the end
 removes nothing (script.js line 116): the cart is unchanged either way.
 */
module Session {
  import opened JsNumber
  import opened CartStore
  import opened Checkout

  datatype Event =
    | AddItem(title: string, price: string, image: string)
    | PlusClick(index: nat)
    | MinusClick(index: nat)
    | RemoveClick(index: nat)
    | CheckoutClick

  /** The cart after one click. The checkout's message is produced by
      `Checkout.Checkout`; only the cart it leaves matters here, and
      `StepAgreesWithCheckout` ties the two together. */
  function Step(cart: Cart, e: Event): (r: Cart)
    ensures Valid(cart) ==> Valid(r)
    ensures e.CheckoutClick? ==> r == []
    ensures e.AddItem? ==> |r| == |cart| + 1
    ensures (e.PlusClick? || e.MinusClick?) ==> |r| == |cart|
    ensures e.RemoveClick? && e.index < |cart| ==> |r| == |cart| - 1
    ensures (e.PlusClick? || e.MinusClick? || e.RemoveClick?) && e.index >= |cart| ==> r == cart
  {
    match e
    case AddItem(title, price, image) => Add(cart, title, price, image)
    case PlusClick(i) => if i < |cart| then Increment(cart, i) else cart
    case MinusClick(i) => if i < |cart| then Decrement(cart, i) else cart
    case RemoveClick(i) => if i < |cart| then Remove(cart, i) else cart
    case CheckoutClick => []
  }

  /** A checkout click leaves the cart that the checkout handler leaves,
      whatever the cart and however the total is formatted. */
  lemma StepAgreesWithCheckout(cart: Cart, format: Num -> string)
    ensures Step(cart, CheckoutClick) == Checkout.Checkout(cart, format).cart
  {
  }

  /** The cart after a run of clicks, applied in order. */
  function Replay(cart: Cart, events: seq<Event>): Cart
    decreases |events|
  {
    if |events| == 0 then cart else Replay(Step(cart, events[0]), events[1..])
  }

  /** Starting from the empty cart, every line always holds at least one
      unit, whatever is clicked. */
  lemma {:induction false} ReplayKeepsValid(cart: Cart, events: seq<Event>)
    requires Valid(cart)
    ensures Valid(Replay(cart, events))
    decreases |events|
  {
    if |events| > 0 {
      ReplayKeepsValid(Step(cart, events[0]), events[1..]);
    }
  }

  /** Clicks may be replayed in two parts. */
  lemma {:induction false} ReplayConcat(cart: Cart, a: seq<Event>, b: seq<Event>)
    ensures Replay(cart, a + b) == Replay(Replay(cart, a), b)
    decreases |a|
  {
    if |a| > 0 {
      assert (a + b)[1..] == a[1..] + b;
      ReplayConcat(Step(cart, a[0]), a[1..], b);
    } else {
      assert a + b == b;
    }
  }

  /** A checkout empties the cart: afterwards the cart holds only what was
      added since. */
  lemma CheckoutForgetsTheOrder(cart: Cart, before: seq<Event>, after: seq<Event>)
    ensures Replay(cart, before + [CheckoutClick] + after) == Replay([], after)
  {
    ReplayConcat(cart, before + [CheckoutClick], after);
    ReplayConcat(cart, before, [CheckoutClick]);
  }
}
