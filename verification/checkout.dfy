/**
 The checkout button (script.js lines 139-165). An empty cart raises an
 alert and nothing else happens. Otherwise the order message is composed: a
 fixed greeting, one `• title - Quantity: q` line per cart line in cart
 order, the total text the panel currently shows, and a fixed closing. The
 chat link is opened with that message and the cart is emptied. Percent
 encoding of the message and the opening of the link are left to the host;
 the model stops at the plain message.
 */
module Checkout {
  import opened JsNumber
  import opened CartStore
  import opened CartView

  const Greeting: string := "Hello Cilla Bites! I would like to place an order:\n\n"
  const Closing: string := "Please contact me to finalize my order. Thank you!"
  const EmptyCartAlert: string := "Your cart is empty!"
  const Bullet: char := '•'

  /** What the button leads to: a blocking alert, or the chat opened with
      the composed message. */
  datatype Effect = Alert(text: string) | OpenChat(message: string)

  datatype Outcome = Outcome(effect: Effect, cart: Cart)

  /** The text before a line's quantity. */
  function ItemHead(line: CartLine): string {
    [Bullet] + " " + line.title + " - Quantity: "
  }

  /** `• ${item.title} - Quantity: ${item.quantity}\n` */
  function ItemLine(line: CartLine): string {
    ItemHead(line) + DecimalText(line.quantity) + "\n"
  }

  /** The item lines of the whole cart, in cart order. */
  function ItemLines(cart: Cart): string {
    if |cart| == 0 then "" else ItemLine(cart[0]) + ItemLines(cart[1..])
  }

  function OrderMessage(cart: Cart, totalText: string): string {
    Greeting + ItemLines(cart) + "\nTotal: " + totalText + "\n\n" + Closing
  }

  /** The checkout handler. The total in the message is the one the panel
      shows, which every earlier change of the cart has re-rendered. */
  function Checkout(cart: Cart, format: Num -> string): (r: Outcome)
    ensures |cart| == 0 ==> r.cart == cart && r.effect == Alert(EmptyCartAlert)
    ensures |cart| > 0 ==> r.cart == [] && r.effect.OpenChat?
    ensures |cart| > 0 ==> r.effect.message == OrderMessage(cart, TotalText(cart, format))
    ensures |cart| > 0 ==> var m := r.effect.message;
      && |m| >= |Greeting| + |ItemLines(cart)| + |Closing|
      && m[..|Greeting|] == Greeting
      && m[|Greeting|..|Greeting| + |ItemLines(cart)|] == ItemLines(cart)
      && m[|m| - |Closing|..] == Closing
    ensures |cart| > 0 && (forall k :: 0 <= k < |cart| ==> Bullet !in cart[k].title) ==>
      Occurrences(Bullet, r.effect.message[|Greeting|..|Greeting| + |ItemLines(cart)|]) == |cart|
  {
    if |cart| == 0 then Outcome(Alert(EmptyCartAlert), cart)
    else
      var m := OrderMessage(cart, TotalText(cart, format));
      MessageFrame(cart, TotalText(cart, format));
      BulletsWhenUntitled(cart);
      Outcome(OpenChat(m), [])
  }

  /** The checkout click as a whole: the handler's outcome, then the
      re-render of script.js line 164. Afterwards the panel shows the empty
      cart; an empty cart already showed it, and the handler returned before
      rendering. */
  method CheckoutAndRender(cart: Cart, format: Num -> string) returns (out: Outcome, v: View)
    ensures |cart| == 0 ==> out.effect == Alert(EmptyCartAlert)
    ensures |cart| > 0 ==> out.effect.OpenChat? && out.effect.message == OrderMessage(cart, TotalText(cart, format))
    ensures out.cart == []
    ensures v.count == 0 && v.rows == [] && v.emptyMessage && v.totalText == EmptyTotal
  {
    out := Checkout(cart, format);
    v := UpdateCart(out.cart, format);
  }

  /** The number of times `c` occurs in `s`. */
  function Occurrences(c: char, s: string): nat {
    if |s| == 0 then 0 else (if s[0] == c then 1 else 0) + Occurrences(c, s[1..])
  }

  lemma {:induction false} OccurrencesConcat(c: char, a: string, b: string)
    ensures Occurrences(c, a + b) == Occurrences(c, a) + Occurrences(c, b)
    decreases |a|
  {
    if |a| > 0 {
      assert (a + b)[1..] == a[1..] + b;
      OccurrencesConcat(c, a[1..], b);
    } else {
      assert a + b == b;
    }
  }

  lemma {:induction false} OccurrencesAbsent(c: char, s: string)
    requires c !in s
    ensures Occurrences(c, s) == 0
    decreases |s|
  {
    if |s| > 0 {
      assert c !in s[1..];
      OccurrencesAbsent(c, s[1..]);
    }
  }

  lemma {:induction false} ItemLinesConcat(a: Cart, b: Cart)
    ensures ItemLines(a + b) == ItemLines(a) + ItemLines(b)
    decreases |a|
  {
    if |a| > 0 {
      assert (a + b)[1..] == a[1..] + b;
      ItemLinesConcat(a[1..], b);
    } else {
      assert a + b == b;
    }
  }

  /** The message lists every cart line, in cart order: the lines before
      line `k`, then line `k`'s own text, then the lines after it. */
  lemma ItemLinesAround(cart: Cart, k: nat)
    requires k < |cart|
    ensures ItemLines(cart) == ItemLines(cart[..k]) + ItemLine(cart[k]) + ItemLines(cart[k + 1..])
  {
    SplitAround(cart, k);
    ItemLinesConcat(cart[..k] + [cart[k]], cart[k + 1..]);
    ItemLinesConcat(cart[..k], [cart[k]]);
    ItemLinesSingle(cart[k]);
  }

  lemma ItemLinesSingle(line: CartLine)
    ensures ItemLines([line]) == ItemLine(line)
  {
    assert [line][1..] == [];
    assert ItemLine(line) + "" == ItemLine(line);
  }

  /** The quantity printed on an item line reads back as the line's
      quantity. */
  lemma QuantityReadsBack(line: CartLine)
    ensures ParseInt(ItemLine(line)[|ItemHead(line)|..]) == Finite(line.quantity)
  {
    assert ItemLine(line)[|ItemHead(line)|..] == DecimalText(line.quantity) + "\n";
    ParseIntDecimalText(line.quantity, "\n");
  }

  /** When no title contains a bullet, the item lines hold exactly one
      bullet per cart line. */
  lemma {:induction false} BulletsInItemLines(cart: Cart)
    requires forall k :: 0 <= k < |cart| ==> Bullet !in cart[k].title
    ensures Occurrences(Bullet, ItemLines(cart)) == |cart|
    decreases |cart|
  {
    if |cart| > 0 {
      BulletsInItemLines(cart[1..]);
      BulletsInItemLine(cart[0]);
      OccurrencesConcat(Bullet, ItemLine(cart[0]), ItemLines(cart[1..]));
    }
  }

  lemma BulletsWhenUntitled(cart: Cart)
    ensures (forall k :: 0 <= k < |cart| ==> Bullet !in cart[k].title) ==>
      Occurrences(Bullet, ItemLines(cart)) == |cart|
  {
    if forall k :: 0 <= k < |cart| ==> Bullet !in cart[k].title {
      BulletsInItemLines(cart);
    }
  }

  lemma BulletsInItemLine(line: CartLine)
    requires Bullet !in line.title
    ensures Occurrences(Bullet, ItemLine(line)) == 1
  {
    var q := DecimalText(line.quantity);
    assert Bullet !in q by {
      if line.quantity >= 0 {
        assert AllDigits(NatText(line.quantity), 10);
      } else {
        assert AllDigits(NatText(-line.quantity), 10);
      }
    }
    OccurrencesAbsent(Bullet, " ");
    OccurrencesAbsent(Bullet, line.title);
    OccurrencesAbsent(Bullet, " - Quantity: ");
    OccurrencesAbsent(Bullet, q);
    OccurrencesAbsent(Bullet, "\n");
    assert Occurrences(Bullet, [Bullet]) == 1;
    OccurrencesConcat(Bullet, [Bullet], " ");
    OccurrencesConcat(Bullet, [Bullet] + " ", line.title);
    OccurrencesConcat(Bullet, [Bullet] + " " + line.title, " - Quantity: ");
    OccurrencesConcat(Bullet, ItemHead(line), q);
    OccurrencesConcat(Bullet, ItemHead(line) + q, "\n");
  }

  /** The message opens with the greeting, continues with the item lines,
      and ends with the closing. */
  lemma MessageFrame(cart: Cart, totalText: string)
    ensures var m := OrderMessage(cart, totalText);
      && |m| >= |Greeting| + |ItemLines(cart)| + |Closing|
      && m[..|Greeting|] == Greeting
      && m[|Greeting|..|Greeting| + |ItemLines(cart)|] == ItemLines(cart)
      && m[|m| - |Closing|..] == Closing
  {
    Frame(Greeting, ItemLines(cart), "\nTotal: ", totalText, "\n\n", Closing);
  }

  /** Where the first two and the last of six concatenated parts sit. */
  lemma Frame(a: string, b: string, c: string, d: string, e: string, f: string)
    ensures var m := a + b + c + d + e + f;
      && |m| >= |a| + |b| + |f|
      && m[..|a|] == a
      && m[|a|..|a| + |b|] == b
      && m[|m| - |f|..] == f
  {
    var m := a + b + c + d + e + f;
    assert m == (a + b) + (c + d + e) + f;
    assert m[|a|..|a| + |b|] == (a + b)[|a|..];
  }

  /** Checking out one line of two Jollof Rice, at any price, lists it once
      with quantity 2 and leaves the cart empty. */
  lemma JollofRiceExample(price: string, image: string, format: Num -> string)
    ensures var line := CartLine("Jollof Rice", price, image, 2);
      var out := Checkout([line], format);
      && out.cart == []
      && out.effect.OpenChat?
      && ItemLines([line]) == ItemHead(line) + "2\n"
      && out.effect.message[|Greeting|..|Greeting| + |ItemLine(line)|] == ItemHead(line) + "2\n"
  {
    var line := CartLine("Jollof Rice", price, image, 2);
    ItemLinesSingle(line);
    TwoPrintsAsTwo();
  }

  lemma TwoPrintsAsTwo()
    ensures DecimalText(2) == "2"
  {
  }
}
