/**
 What `updateCart` (script.js lines 49-92) shows after every change to the
 cart: the count badge, one row per line carrying the line's position as its
 `data-index`, the empty-cart message, and the total text. The total is
 accumulated line by line, as the source's `forEach` does; the method is
 proved to agree with the cart's Total. The locale formatting of the total
 (`toLocaleString`) is the parameter `format`.
 */
module CartView {
  import opened JsNumber
  import opened Price
  import opened CartStore

  /** One rendered cart row; `index` is its `data-index`. */
  datatype Row = Row(image: string, title: string, price: string, quantity: int, index: nat)

  /** The cart panel: badge count, rows, whether the empty message shows, and
      the total text. */
  datatype View = View(count: nat, rows: seq<Row>, emptyMessage: bool, totalText: string)

  const EmptyTotal: string := "₦0"

  function RowOf(line: CartLine, index: nat): Row {
    Row(line.image, line.title, line.price, line.quantity, index)
  }

  /** The total text the panel shows for `cart`. */
  function TotalText(cart: Cart, format: Num -> string): string {
    if |cart| == 0 then EmptyTotal else [Naira] + format(Total(cart))
  }

  /** `updateCart()`: the badge counts lines, the rows follow the cart in
      order, the empty message shows exactly for an empty cart, and the total
      text is the naira sign before the formatted Total (or `₦0` when the
      cart is empty). */
  method UpdateCart(cart: Cart, format: Num -> string) returns (v: View)
    ensures v.count == |cart|
    ensures v.emptyMessage <==> |cart| == 0
    ensures |v.rows| == |cart|
    ensures forall k :: 0 <= k < |cart| ==> v.rows[k] == RowOf(cart[k], k)
    ensures v.totalText == TotalText(cart, format)
  {
    v := Render(ParsePrice, cart, format);
  }

  /** The loop of `updateCart()` with the price reading left as `unit`: one
      row per line, and the running total extended by each line's subtotal.
      The cart passes ParsePrice. */
  method Render(unit: string -> Num, cart: Cart, format: Num -> string) returns (v: View)
    ensures v.count == |cart|
    ensures v.emptyMessage <==> |cart| == 0
    ensures |v.rows| == |cart|
    ensures forall k :: 0 <= k < |cart| ==> v.rows[k] == RowOf(cart[k], k)
    ensures |cart| == 0 ==> v.totalText == EmptyTotal
    ensures |cart| > 0 ==> v.totalText == [Naira] + format(SumBy(unit, cart))
  {
    if |cart| == 0 {
      return View(0, [], true, EmptyTotal);
    }
    var total := Finite(0);
    var rows: seq<Row> := [];
    var k := 0;
    while k < |cart|
      invariant 0 <= k <= |cart|
      invariant total == SumBy(unit, cart[..k])
      invariant |rows| == k
      invariant forall j :: 0 <= j < k ==> rows[j] == RowOf(cart[j], j)
    {
      // itemPrice * item.quantity
      total := Plus(total, SubtotalBy(unit, cart[k]));
      SumStep(unit, cart, k);
      rows := rows + [RowOf(cart[k], k)];
      k := k + 1;
    }
    assert cart[..k] == cart;
    v := View(|cart|, rows, false, [Naira] + format(total));
  }

  /** Accumulating one more line extends the sum by its subtotal. */
  lemma SumStep(unit: string -> Num, cart: Cart, k: nat)
    requires k < |cart|
    ensures SumBy(unit, cart[..k + 1]) == Plus(SumBy(unit, cart[..k]), SubtotalBy(unit, cart[k]))
  {
    assert cart[..k + 1] == cart[..k] + [cart[k]];
    SumByConcat(unit, cart[..k], [cart[k]]);
  }
}
