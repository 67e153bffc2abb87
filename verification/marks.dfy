/**
 Marking one element of a list as active, as the menu tabs (script.js lines
 171-174) and the testimonials (script.js lines 191-198) do: every element
 loses the class and only the chosen one gets it back. The tabs do this in
 two passes; the testimonials do it element by element, which ends in the
 same state. An element is active exactly when its position is the chosen
 one, so at most one is active.
 */
module Marks {

  /** Which of `n` elements carry the class after element `chosen` is marked.
      A position outside `0 .. n - 1` marks nothing. */
  function MarkOnly(n: nat, chosen: int): (r: seq<bool>)
    ensures |r| == n
    ensures forall j :: 0 <= j < n ==> (r[j] <==> j == chosen)
  {
    // every element loses the class and only the chosen one gets it back
    var cleared := seq(n, _ => false);
    if 0 <= chosen < n then cleared[chosen := true] else cleared
  }

  /** The number of active elements. */
  function CountMarked(marks: seq<bool>): nat {
    if |marks| == 0 then 0 else (if marks[0] then 1 else 0) + CountMarked(marks[1..])
  }

  /** A list marked only at position `chosen` has one active element if
      that position exists and none otherwise. */
  lemma {:induction false} CountShifted(marks: seq<bool>, chosen: int)
    requires forall j :: 0 <= j < |marks| ==> (marks[j] <==> j == chosen)
    ensures CountMarked(marks) == if 0 <= chosen < |marks| then 1 else 0
    decreases |marks|
  {
    if |marks| > 0 {
      var tail := marks[1..];
      assert forall j :: 0 <= j < |tail| ==> (tail[j] <==> j == chosen - 1) by {
        forall j | 0 <= j < |tail| ensures tail[j] <==> j == chosen - 1 {
          assert tail[j] == marks[j + 1];
        }
      }
      CountShifted(tail, chosen - 1);
    }
  }

  /** Exactly one element is active when the chosen position exists, and
      none otherwise. */
  lemma ExactlyOneMarked(n: nat, chosen: int)
    ensures CountMarked(MarkOnly(n, chosen)) == if 0 <= chosen < n then 1 else 0
  {
    CountShifted(MarkOnly(n, chosen), chosen);
  }
}
