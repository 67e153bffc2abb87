/**
 The testimonial slider (script.js lines 188-214). The position starts at 0;
 the next and previous buttons, and the five-second timer, move it one step
 forward or back modulo the number of testimonials, and the testimonial at
 the new position becomes the only active one. The position is a Number:
 with no testimonial at all, `% 0` makes it NaN, and NaN stays NaN. The
 timer itself is left to the host: each tick is one `Next`.
 */
module Testimonials {
  import opened JsNumber
  import opened Marks

  const Start: Num := Finite(0)

  /** A position that names one of `n` testimonials. */
  predicate InRange(current: Num, n: nat) {
    current.Finite? && 0 <= current.value < n
  }

  /** `(current + 1) % n` with JavaScript's `%`. */
  function Next(current: Num, n: nat): (r: Num)
    ensures r.Finite? <==> current.Finite? && n > 0
    ensures InRange(current, n) ==> InRange(r, n)
    ensures InRange(current, n) && current.value < n - 1 ==> r.value == current.value + 1
    ensures current == Finite(n - 1) && n > 0 ==> r == Finite(0)
  {
    if current.NaN? || n == 0 then NaN
    else
      WrapStep(current.value + 1, n);
      Finite(JsRem(current.value + 1, n))
  }

  /** `(current - 1 + n) % n` with JavaScript's `%`. */
  function Prev(current: Num, n: nat): (r: Num)
    ensures r.Finite? <==> current.Finite? && n > 0
    ensures InRange(current, n) ==> InRange(r, n)
    ensures InRange(current, n) && current.value > 0 ==> r.value == current.value - 1
    ensures current == Finite(0) && n > 0 ==> r == Finite(n - 1)
  {
    if current.NaN? || n == 0 then NaN
    else
      WrapStep(current.value - 1 + n, n);
      Finite(JsRem(current.value - 1 + n, n))
  }

  /** One step past either end of `0 .. n - 1` wraps to the other end. */
  lemma WrapStep(x: int, n: nat)
    requires n > 0
    ensures 0 <= x < n ==> JsRem(x, n) == x
    ensures n <= x < 2 * n ==> JsRem(x, n) == x - n
  {
    if 0 <= x < n {
      RemUnique(x, n, 0, x);
    } else if n <= x < 2 * n {
      RemUnique(x, n, 1, x - n);
    }
  }

  /** `showTestimonial(index)`: the active flags of the `n` testimonials;
      a NaN index equals no position. */
  function Show(index: Num, n: nat): (r: seq<bool>)
    ensures |r| == n
    ensures forall i :: 0 <= i < n ==> (r[i] <==> index == Finite(i))
    ensures InRange(index, n) ==> CountMarked(r) == 1
  {
    var chosen := if index.Finite? then index.value else -1;
    ExactlyOneMarked(n, chosen);
    MarkOnly(n, chosen)
  }

  /** The slider after a button press or a tick: the new position and the
      active flags. */
  datatype Slider = Slider(current: Num, active: seq<bool>)

  function NextTestimonial(current: Num, n: nat): (s: Slider)
    ensures |s.active| == n
    ensures InRange(current, n) ==> InRange(s.current, n) && CountMarked(s.active) == 1
    ensures forall i :: 0 <= i < n ==> (s.active[i] <==> s.current == Finite(i))
  {
    var c := Next(current, n);
    Slider(c, Show(c, n))
  }

  function PrevTestimonial(current: Num, n: nat): (s: Slider)
    ensures |s.active| == n
    ensures InRange(current, n) ==> InRange(s.current, n) && CountMarked(s.active) == 1
    ensures forall i :: 0 <= i < n ==> (s.active[i] <==> s.current == Finite(i))
  {
    var c := Prev(current, n);
    Slider(c, Show(c, n))
  }

  /** The back button undoes the forward button. */
  lemma PrevUndoesNext(current: Num, n: nat)
    requires InRange(current, n)
    ensures Prev(Next(current, n), n) == current
  {
  }

  /** The forward button undoes the back button. */
  lemma NextUndoesPrev(current: Num, n: nat)
    requires InRange(current, n)
    ensures Next(Prev(current, n), n) == current
  {
  }

  /** `k` presses of the forward button (or `k` ticks of the timer). */
  function Advance(current: Num, n: nat, k: nat): Num {
    if k == 0 then current else Next(Advance(current, n, k - 1), n)
  }

  /** From any valid position, `k` steps forward land `k` places further on,
      modulo `n`. */
  lemma {:induction false} AdvanceIsModular(current: int, n: nat, k: nat)
    requires 0 <= current < n
    ensures Advance(Finite(current), n, k) == Finite((current + k) % n)
  {
    if k > 0 {
      AdvanceIsModular(current, n, k - 1);
      var p := (current + k - 1) % n;
      assert Advance(Finite(current), n, k) == Next(Finite(p), n);
      assert Next(Finite(p), n) == Finite(JsRem(p + 1, n));
      assert JsRem(p + 1, n) == (p + 1) % n;
      ModStep(current + k - 1, n);
    }
  }

  lemma ModStep(a: nat, n: int)
    requires n > 0
    ensures (a + 1) % n == (a % n + 1) % n
  {
    var q, r := a / n, a % n;
    assert a == q * n + r;
    if r + 1 < n {
      RemUnique(a + 1, n, q, r + 1);
      RemUnique(r + 1, n, 0, r + 1);
    } else {
      assert a + 1 == (q + 1) * n;
      RemUnique(a + 1, n, q + 1, 0);
      RemUnique(r + 1, n, 1, 0);
    }
  }

  /** `n` steps forward bring the slider back to where it was. */
  lemma FullCycle(current: int, n: nat)
    requires 0 <= current < n
    ensures Advance(Finite(current), n, n) == Finite(current)
  {
    AdvanceIsModular(current, n, n);
    RemUnique(current + n, n, 1, current);
  }

  /** The timer visits every testimonial: position `j` is reached from the
      start after exactly `j` ticks. */
  lemma TimerReaches(n: nat, j: nat)
    requires j < n
    ensures Advance(Start, n, j) == Finite(j)
  {
    AdvanceIsModular(0, n, j);
    RemUnique(j, n, 0, j);
  }
}
