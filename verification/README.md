# Cilla Bites storefront script, modelled in Dafny

This project models the behaviour of the storefront's `script.js` that does
not depend on the page: the shopping cart and its buttons, the reading of
price text, the cart panel's count, rows and total, the WhatsApp order
message written at checkout, the menu category tabs, and the testimonial
slider. The page (DOM elements, classes, styles, listeners) is represented by
the plain values it would show.

Modules, one per concern of the script:

- `JsNumber` (js_number.dfy): the JavaScript number behaviour the script
  relies on. A Number is a finite integer or NaN. `parseInt` with no radix
  follows section 19.2.5 of ECMA-262. Integers print in decimal. `%`
  truncates toward zero.
- `Price` (price.dfy): `parseInt(price.replace('₦', '').replace(',', ''))`.
- `CartStore` (cart_store.dfy): the cart's lines and the add, "+", "-" and
  remove operations, plus the total.
- `CartView` (cart_view.dfy): what `updateCart` renders.
- `Checkout` (checkout.dfy): the checkout button and the order message.
- `Marks` (marks.dfy): making one tab or one testimonial the only active one.
- `MenuFilter` (menu_filter.dfy): the category tabs.
- `Testimonials` (testimonials.dfy): next, previous and the timer.
- `Session` (session.dfy): the cart over a whole run of clicks.

`toLocaleString`, which formats the total, is a parameter `format` of the
members that render it. Nothing in the cart depends on how it formats.

## Model

| member | source | states |
|---|---|---|
| `JsNumber.ParseInt` | script.js:65 | `parseInt` gives a number for any text that starts with a decimal digit not opening a `0x` prefix. It gives a number only if the text holds a decimal digit. |
| `JsNumber.TimesSucc` | script.js:66 | One more unit of a line adds exactly one more unit price to its subtotal, NaN included. |
| `JsNumber.NatTextValue` | script.js:149 | Reading the decimal digits printed for a natural number gives the number back. |
| `JsNumber.ParseIntDecimalText` | script.js:149 | `parseInt` reads a printed integer back as that integer when the text after it does not start with a digit, `x` or `X`. (After a printed `0`, an `x` would open a hex prefix.) |
| `JsNumber.JsRem` | script.js:201 | `a % b` with a positive divisor is ECMA-262's Number::remainder. `a` minus the result is a multiple of `b`. The result lies in `[0, b)` when `a >= 0` and in `(-b, 0]` when `a < 0`, so it takes the sign of `a`. |
| `JsNumber.JsRemIsTheRemainder` | script.js:206 | The remainder rule determines `%` completely. Any value that differs from `a` by a multiple of `b` and has the sign of `a` with magnitude below `b` is `a % b`. |
| `Price.ReplaceFirst` | script.js:65 | `replace` with a one-character pattern leaves text without that character unchanged and otherwise removes exactly one character. |
| `Price.ReplaceFirstKeeps` | script.js:65 | `replace` with an empty replacement introduces no character that was not there. |
| `Price.ReplaceFirstSplit` | script.js:65 | `replace` with a one-character pattern removes the first occurrence and keeps everything before and after it. |
| `Price.ParsePriceNeedsDigit` | script.js:65 | A price reads as a number only if its text holds a decimal digit. |
| `Price.ParsePriceUngrouped` | script.js:65 | `₦` followed by digits reads as the value of the digits. |
| `Price.ParsePriceOneSeparator` | script.js:65 | `₦a,b` reads as the value of the digits `a` then `b`: one thousands separator is dropped. |
| `Price.ParsePriceStopsAtSecondSeparator` | script.js:65 | `₦a,b,c` reads as the value of `a` then `b` only. The second separator survives the single `replace`, and `parseInt` stops at it. |
| `Price.ParsePriceExample` | script.js:65 | `₦1,500` reads as 1500. |
| `Price.ParsePriceMillionExample` | script.js:65 | `₦1,500,000` reads as 1500. |
| `CartStore.Add` | script.js:37-42 | Adding appends a new line with the item's title, price and image and quantity 1. It leaves every earlier line as it was and keeps every quantity at least 1. |
| `CartStore.Increment` | script.js:108 | "+" raises only the chosen line's quantity, by one, and changes nothing else. |
| `CartStore.Decrement` | script.js:98-101 | "-" lowers the chosen line by one only while it holds more than one unit. At one unit the cart is unchanged. No other line changes. |
| `CartStore.Remove` | script.js:116 | Removing deletes exactly the chosen line. Earlier lines keep their positions and later lines move down by one. |
| `CartStore.CountIsLines` | script.js:51 | The badge shows the number of lines. That is at most the number of units, and equal to it exactly when every line holds one unit. |
| `CartStore.TotalNaNIff` | script.js:62-66 | The total is NaN exactly when some line's price text does not parse. |
| `CartStore.TotalAdd` | script.js:62-66 | After an add, the recomputed total is the old total plus the item's unit price. |
| `CartStore.TotalIncrement` | script.js:62-66 | After "+", the total is the old total plus the line's unit price. |
| `CartStore.TotalDecrement` | script.js:62-66 | After an effective "-", the total plus the line's unit price is the old total. |
| `CartStore.TotalRemove` | script.js:62-66 | After a removal, the total plus the removed line's subtotal is the old total. |
| `CartStore.DecrementUndoesIncrement` | script.js:98-108 | "-" after "+" restores the cart. |
| `CartStore.IncrementUndoesDecrement` | script.js:98-108 | "+" after an effective "-" restores the cart. |
| `CartStore.AddTwiceKeepsTwoLines` | script.js:37-42 | Adding the same item twice gives two separate lines, and "+" on one of them leaves the other alone. |
| `CartView.UpdateCart` | script.js:49-92 | The badge is the number of lines and the rows follow the cart in order, each carrying its position. The empty message shows exactly for an empty cart. The total text is `₦0` for an empty cart and otherwise `₦` before the formatted total of all lines. |
| `CartView.Render` | script.js:62-92 | The `forEach` accumulation of `price * quantity` over the lines yields the sum of the line subtotals. |
| `Checkout.Checkout` | script.js:139-165 | An empty cart gives the "Your cart is empty!" alert and keeps the cart. Otherwise the chat opens with the greeting, the item lines, the total text the panel shows and the closing, and the cart becomes empty. The message starts with the greeting, followed at once by the item lines, and ends with the closing. When no title contains `•`, the item lines carry one bullet per cart line. |
| `Checkout.CheckoutAndRender` | script.js:139-165 | After the checkout click, the cart is empty and the panel shows no rows, a count of 0, the empty message and `₦0`. |
| `Checkout.ItemLinesAround` | script.js:148-150 | The item block is the lines before line `k`, then line `k`'s own text, then the lines after it. Every line appears once, in cart order. |
| `Checkout.QuantityReadsBack` | script.js:149 | The quantity printed after `- Quantity: ` reads back as the line's quantity. |
| `Checkout.BulletsInItemLines` | script.js:148-150 | When no title contains `•`, the item block holds exactly one bullet per cart line. |
| `Checkout.MessageFrame` | script.js:146-153 | The message starts with the greeting, then the item lines, and ends with the closing sentence. |
| `Checkout.JollofRiceExample` | script.js:139-164 | One line of two Jollof Rice, at any price, is listed right after the greeting as `• Jollof Rice - Quantity: 2`, and checkout leaves the cart empty. |
| `Marks.MarkOnly` | script.js:171-174 | Every element loses the class and only the chosen one gets it back. The tabs do this in two passes, and the testimonials (script.js:191-198) element by element, with the same end state. An element is active exactly when its position is `k`. |
| `Marks.ExactlyOneMarked` | script.js:171-174 | Exactly one element is active when the chosen position exists, and none otherwise. |
| `MenuFilter.ApplyFilter` | script.js:178-184 | An item is shown exactly when the selected category is `all` or equals the item's category. A missing category equals only a missing category. |
| `MenuFilter.ClickTab` | script.js:168-186 | The clicked tab becomes the only active tab, and the items shown are those its category selects. The `all` tab shows every item. Any other tab shows exactly as many items as carry its category. |
| `MenuFilter.AllShowsEverything` | script.js:179 | The `all` tab shows every item. |
| `MenuFilter.OtherTabShowsItsCategory` | script.js:179 | Any other tab shows exactly as many items as carry its category. |
| `Testimonials.Next` | script.js:201 | "Next" moves from a valid position to the following one, and from the last position back to the first. With no testimonial, or from NaN, the position is NaN. |
| `Testimonials.Prev` | script.js:206 | "Previous" moves from a valid position to the preceding one, and from the first position to the last. With no testimonial, or from NaN, the position is NaN. |
| `Testimonials.Show` | script.js:191-198 | After `showTestimonial(i)`, a testimonial is active exactly when its position equals `i`. For a valid `i` that is exactly one testimonial; a NaN index activates none. |
| `Testimonials.NextTestimonial` | script.js:200-203 | A step forward keeps the position valid and leaves exactly one testimonial active, the one at the new position. |
| `Testimonials.PrevTestimonial` | script.js:205-208 | A step back keeps the position valid and leaves exactly one testimonial active, the one at the new position. |
| `Testimonials.PrevUndoesNext` | script.js:200-208 | "Previous" undoes "next". |
| `Testimonials.NextUndoesPrev` | script.js:200-208 | "Next" undoes "previous". |
| `Testimonials.AdvanceIsModular` | script.js:200-203 | `k` steps forward from position `p` land on `(p + k) mod n`. |
| `Testimonials.FullCycle` | script.js:214 | `n` timer ticks bring the slider back to where it was. |
| `Testimonials.TimerReaches` | script.js:189-214 | Starting from 0, the timer reaches testimonial `j` after exactly `j` ticks, so every testimonial is shown. |
| `Session.Step` | script.js:95-119 | One click keeps every quantity at least 1. An add adds one line, an effective removal takes one away, "+" and "-" keep the number of lines, and a checkout empties the cart. A button at a position past the end leaves the cart unchanged. |
| `Session.StepAgreesWithCheckout` | script.js:163 | A checkout click leaves the same cart as the checkout handler. |
| `Session.ReplayKeepsValid` | script.js:22-119 | Over any run of clicks from the empty cart, every line holds at least one unit. |
| `Session.CheckoutForgetsTheOrder` | script.js:163 | After a checkout, the cart holds only what was clicked since. |

## Left out

- The page itself: querying elements, `innerHTML`, classes, styles, the cart
  modal's opening and closing, and the registration of listeners. Each
  handler is modelled by the value it computes.
- `toLocaleString` (script.js:92). It is the parameter `format`. Its output
  depends on the host's locale.
- `encodeURIComponent` and `window.open` (script.js:156-159), and the display
  of `alert`. The model stops at the plain message and the alert text.
- The `setTimeout` of the add-to-cart animation and the `setInterval` timer
  (script.js:214). A tick is one `Testimonials.Next`; the timing is not
  modelled.
- Back-to-top, the contact form, the mobile menu, the particles, sparkles and
  scroll animations (script.js:216-249 and after 253). They do not touch the
  cart, the menu or the slider.
- Double-precision numbers. Prices and quantities are unbounded integers. A
  total beyond 2^53 would lose precision in the script, and a `-0` from
  `parseInt("-0")` is the integer 0 here.
- Reading item fields from the page (script.js:27-30). Title, price text and
  image are parameters of `CartStore.Add`.
- Checkout.BulletsInItemLines: it counts bullets in the item block only, not
  in the whole message. The greeting and closing are fixed texts.
- Checkout.Checkout: its bullet count is likewise stated for the item block
  of the message, not for the whole message.
- Removal of every thousands separator. Only the first comma is removed, as
  the code does (script.js:65), so a price of a million naira or more would be
  misread. `Price.ParsePriceMillionExample` exhibits this, and the model keeps
  the code's behaviour.
