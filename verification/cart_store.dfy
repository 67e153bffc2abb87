/**
 The cart of the storefront (script.js lines 22-46, 95-119): an ordered list
 of lines, each a menu item's title, price text, image and quantity. Lines
 are addressed by their position, which is what the rendered buttons carry
 in `data-index`. The total is recomputed from scratch as the sum of every
 line's parsed unit price times its quantity.
 */
module CartStore {
  import opened JsNumber
  import opened Price

  datatype CartLine = CartLine(title: string, price: string, image: string, quantity: int)

  type Cart = seq<CartLine>

  /** Every line holds at least one unit. */
  predicate Valid(cart: Cart) {
    forall k :: 0 <= k < |cart| ==> cart[k].quantity >= 1
  }

  /** Two lines show the same menu item, whatever their quantities. */
  predicate SameItem(a: CartLine, b: CartLine) {
    a.title == b.title && a.price == b.price && a.image == b.image
  }

  /** "Add to cart": a fresh line with quantity 1 goes at the end; an equal
      line already in the cart is not merged with it. */
  function Add(cart: Cart, title: string, price: string, image: string): (r: Cart)
    ensures |r| == |cart| + 1
    ensures r[..|cart|] == cart
    ensures r[|cart|].quantity == 1
    ensures r[|cart|].title == title && r[|cart|].price == price && r[|cart|].image == image
    ensures Valid(cart) ==> Valid(r)
  {
    cart + [CartLine(title, price, image, 1)]
  }

  /** The "+" button of line `i`: one more unit, with no upper bound. */
  function Increment(cart: Cart, i: nat): (r: Cart)
    requires i < |cart|
    ensures |r| == |cart|
    ensures r[i].quantity == cart[i].quantity + 1 && SameItem(r[i], cart[i])
    ensures forall j :: 0 <= j < |cart| && j != i ==> r[j] == cart[j]
    ensures Valid(cart) ==> Valid(r)
  {
    cart[i := cart[i].(quantity := cart[i].quantity + 1)]
  }

  /** The "-" button of line `i`: one unit fewer, but only while more than
      one is left; at one unit the button does nothing. */
  function Decrement(cart: Cart, i: nat): (r: Cart)
    requires i < |cart|
    ensures cart[i].quantity <= 1 ==> r == cart
    ensures |r| == |cart|
    ensures cart[i].quantity > 1 ==> r[i].quantity == cart[i].quantity - 1 && SameItem(r[i], cart[i])
    ensures forall j :: 0 <= j < |cart| && j != i ==> r[j] == cart[j]
    ensures Valid(cart) ==> Valid(r)
  {
    if cart[i].quantity > 1 then cart[i := cart[i].(quantity := cart[i].quantity - 1)] else cart
  }

  /** The remove button of line `i` (`cart.splice(i, 1)`): the lines after
      it move down one position. */
  function Remove(cart: Cart, i: nat): (r: Cart)
    requires i < |cart|
    ensures |r| == |cart| - 1
    ensures forall j :: 0 <= j < i ==> r[j] == cart[j]
    ensures forall j :: i <= j < |r| ==> r[j] == cart[j + 1]
    ensures Valid(cart) ==> Valid(r)
  {
    cart[..i] + cart[i + 1..]
  }

  /** What one line contributes to the total when prices are read by
      `unit`. */
  function SubtotalBy(unit: string -> Num, line: CartLine): Num {
    Times(unit(line.price), line.quantity)
  }

  /** The sum of the line subtotals, for any reading `unit` of the price
      text. */
  function SumBy(unit: string -> Num, cart: Cart): Num {
    if |cart| == 0 then Finite(0) else Plus(SubtotalBy(unit, cart[0]), SumBy(unit, cart[1..]))
  }

  /** What one line contributes to the cart's total. */
  function Subtotal(line: CartLine): Num {
    SubtotalBy(ParsePrice, line)
  }

  /** The cart's total, recomputed from scratch over every line. */
  function Total(cart: Cart): Num {
    SumBy(ParsePrice, cart)
  }

  /** The number of units over all lines. */
  function Units(cart: Cart): int {
    if |cart| == 0 then 0 else cart[0].quantity + Units(cart[1..])
  }

  /** The badge shows `cart.length`, the number of lines (script.js line 51):
      never more than the number of units, and equal to it only when every
      line holds a single unit. */
  lemma {:induction false} CountIsLines(cart: Cart)
    requires Valid(cart)
    ensures |cart| <= Units(cart)
    ensures |cart| == Units(cart) <==> forall k :: 0 <= k < |cart| ==> cart[k].quantity == 1
  {
    if |cart| > 0 {
      assert Valid(cart[1..]);
      CountIsLines(cart[1..]);
      assert forall k :: 1 <= k < |cart| ==> cart[k] == cart[1..][k - 1];
    }
  }

  lemma {:induction false} SumByNaNIff(unit: string -> Num, cart: Cart)
    ensures SumBy(unit, cart).NaN? <==> exists k :: 0 <= k < |cart| && unit(cart[k].price).NaN?
  {
    if |cart| > 0 {
      SumByNaNIff(unit, cart[1..]);
      assert forall k :: 1 <= k < |cart| ==> cart[k] == cart[1..][k - 1];
    }
  }

  lemma {:induction false} SumByConcat(unit: string -> Num, a: Cart, b: Cart)
    ensures SumBy(unit, a + b) == Plus(SumBy(unit, a), SumBy(unit, b))
    decreases |a|
  {
    if |a| > 0 {
      assert (a + b)[1..] == a[1..] + b;
      SumByConcat(unit, a[1..], b);
    } else {
      assert a + b == b;
    }
  }

  /** The sum splits around any one line. */
  lemma SumByAround(unit: string -> Num, cart: Cart, i: nat)
    requires i < |cart|
    ensures SumBy(unit, cart)
      == Plus(Plus(SumBy(unit, cart[..i]), SubtotalBy(unit, cart[i])), SumBy(unit, cart[i + 1..]))
  {
    SplitAround(cart, i);
    SumByConcat(unit, cart[..i] + [cart[i]], cart[i + 1..]);
    SumByConcat(unit, cart[..i], [cart[i]]);
  }

  lemma SplitAround(cart: Cart, i: nat)
    requires i < |cart|
    ensures cart == cart[..i] + [cart[i]] + cart[i + 1..]
  {
  }

  lemma SumByIncrement(unit: string -> Num, cart: Cart, i: nat)
    requires i < |cart|
    ensures SumBy(unit, Increment(cart, i)) == Plus(SumBy(unit, cart), unit(cart[i].price))
  {
    var r := Increment(cart, i);
    SumByAround(unit, cart, i);
    SumByAround(unit, r, i);
    assert r[..i] == cart[..i];
    assert r[i + 1..] == cart[i + 1..];
    TimesSucc(unit(cart[i].price), cart[i].quantity);
    PlusMoveToEnd(SumBy(unit, cart[..i]), SubtotalBy(unit, cart[i]), unit(cart[i].price), SumBy(unit, cart[i + 1..]));
  }

  lemma SumByRemove(unit: string -> Num, cart: Cart, i: nat)
    requires i < |cart|
    ensures Plus(SumBy(unit, Remove(cart, i)), SubtotalBy(unit, cart[i])) == SumBy(unit, cart)
  {
    var before, after := cart[..i], cart[i + 1..];
    assert Remove(cart, i) == before + after;
    SumByAround(unit, cart, i);
    SumByConcat(unit, before, after);
    PlusSwapLast(SumBy(unit, before), SubtotalBy(unit, cart[i]), SumBy(unit, after));
  }

  /** The total is NaN exactly when some line's price text does not parse. */
  lemma TotalNaNIff(cart: Cart)
    ensures Total(cart).NaN? <==> exists k :: 0 <= k < |cart| && ParsePrice(cart[k].price).NaN?
  {
    SumByNaNIff(ParsePrice, cart);
  }

  /** Adding an item raises the total by its unit price. */
  lemma TotalAdd(cart: Cart, title: string, price: string, image: string)
    ensures Total(Add(cart, title, price, image)) == Plus(Total(cart), ParsePrice(price))
  {
    var line := CartLine(title, price, image, 1);
    SumByConcat(ParsePrice, cart, [line]);
    assert SumBy(ParsePrice, [line]) == Plus(Times(ParsePrice(price), 1), Finite(0));
  }

  /** "+" raises the total by the line's unit price. */
  lemma TotalIncrement(cart: Cart, i: nat)
    requires i < |cart|
    ensures Total(Increment(cart, i)) == Plus(Total(cart), ParsePrice(cart[i].price))
  {
    SumByIncrement(ParsePrice, cart, i);
  }

  /** "-" above one unit lowers the total by the line's unit price. */
  lemma TotalDecrement(cart: Cart, i: nat)
    requires i < |cart| && cart[i].quantity > 1
    ensures Plus(Total(Decrement(cart, i)), ParsePrice(cart[i].price)) == Total(cart)
  {
    IncrementUndoesDecrement(cart, i);
    SumByIncrement(ParsePrice, Decrement(cart, i), i);
  }

  /** Removing a line takes exactly its subtotal off the total. */
  lemma TotalRemove(cart: Cart, i: nat)
    requires i < |cart|
    ensures Plus(Total(Remove(cart, i)), Subtotal(cart[i])) == Total(cart)
  {
    SumByRemove(ParsePrice, cart, i);
  }

  /** "-" undoes "+" on a line with at least one unit. */
  lemma DecrementUndoesIncrement(cart: Cart, i: nat)
    requires i < |cart| && cart[i].quantity >= 1
    ensures Decrement(Increment(cart, i), i) == cart
  {
  }

  /** "+" undoes "-" on a line with more than one unit. */
  lemma IncrementUndoesDecrement(cart: Cart, i: nat)
    requires i < |cart| && cart[i].quantity > 1
    ensures Increment(Decrement(cart, i), i) == cart
  {
  }

  /** Adding the same item twice gives two lines, and "+" on the second
      leaves the first at one unit. */
  lemma AddTwiceKeepsTwoLines(cart: Cart, title: string, price: string, image: string)
    ensures var twice := Add(Add(cart, title, price, image), title, price, image);
      && |twice| == |cart| + 2
      && twice[|cart|] == twice[|cart| + 1]
      && Increment(twice, |cart| + 1)[|cart|].quantity == 1
      && Increment(twice, |cart| + 1)[|cart| + 1].quantity == 2
  {
  }
}
