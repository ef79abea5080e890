/** The rotating "months" display: every interval the index into a fixed
    seven-entry table advances cyclically, and a three-phase transition
    (slide out, swap the text, slide back in) shows the new entry. */
module MonthsCounter {

  const Values: seq<int> := [6, 5, 4, 3, 4, 5, 6]

  /** A fact about the data in the table, not a rule the script enforces:
      every entry lies between 3 and 6, and the table reads the same
      backwards, so the display counts down to 3 and back up to 6. */
  lemma ValuesShape()
    ensures |Values| == 7
    ensures forall i :: 0 <= i < |Values| ==> 3 <= Values[i] <= 6
    ensures forall i :: 0 <= i < |Values| ==> Values[i] == Values[|Values| - 1 - i]
  {
  }

  /** index = (index + 1) % values.length */
  function Advance(i: nat): (j: nat)
    ensures j < |Values|
    ensures i < |Values| - 1 ==> j == i + 1
    ensures i == |Values| - 1 ==> j == 0
  {
    (i + 1) % |Values|
  }

  /** The index after k ticks, starting from 0. */
  function IndexAfter(k: nat): nat {
    if k == 0 then 0 else Advance(IndexAfter(k - 1))
  }

  /** After k ticks the index is k mod 7: the display cycles with period 7. */
  lemma {:induction false} IndexAfterIsMod(k: nat)
    ensures IndexAfter(k) == k % |Values|
  {
    if k > 0 {
      IndexAfterIsMod(k - 1);
      var p := (k - 1) % 7;
      assert k - 1 == (k - 1) / 7 * 7 + p;
      if p < 6 {
        assert k == (k - 1) / 7 * 7 + (p + 1);
      } else {
        assert k == ((k - 1) / 7 + 1) * 7;
      }
    }
  }

  /** The #monthsCounter element: its text and the inline styles the
      transition sets. */
  class Counter {
    var index: nat
    var text: int
    /** translateY offset in pixels. */
    var offsetY: int
    /** Opacity, 0 or 1. */
    var opacity: nat
    /** Whether the 0.3 s ease transition has been set. */
    var eased: bool
    ghost var ticks: nat
    /** Whether the text has been swapped since the last tick. */
    ghost var swapped: bool

    ghost predicate Valid()
      reads this
    {
      index == IndexAfter(ticks) && index < |Values| &&
      (swapped ==> text == Values[index])
    }

    /** Before the first tick the element shows what the markup holds. */
    constructor (markupText: int)
      ensures Valid() && ticks == 0 && index == 0 && !swapped
      ensures text == markupText && offsetY == 0 && opacity == 1 && !eased
    {
      index, text, offsetY, opacity, eased := 0, markupText, 0, 1, false;
      ticks := 0;
      swapped := false;
    }

    /** The interval callback: advance the index, slide up and fade out. */
    method Tick()
      requires Valid()
      modifies this
      ensures Valid() && ticks == old(ticks) + 1 && !swapped
      ensures index == ticks % |Values|
      ensures offsetY == -10 && opacity == 0
      ensures text == old(text) && eased == old(eased)
    {
      index := (index + 1) % |Values|;
      offsetY := -10;
      opacity := 0;
      ticks := ticks + 1;
      swapped := false;
      IndexAfterIsMod(ticks);
    }

    /** The first timeout: show the entry at the index, placed below. */
    method Swap()
      requires Valid()
      modifies this
      ensures Valid() && ticks == old(ticks) && index == old(index) && swapped
      ensures text == Values[index] && 3 <= text <= 6
      ensures offsetY == 10 && opacity == old(opacity) && eased == old(eased)
    {
      text := Values[index];
      offsetY := 10;
      swapped := true;
    }

    /** The nested timeout: ease back to rest, fully visible. */
    method Settle()
      requires Valid()
      modifies this
      ensures Valid() && ticks == old(ticks) && index == old(index) && text == old(text)
      ensures swapped == old(swapped)
      ensures eased && offsetY == 0 && opacity == 1
    {
      eased := true;
      offsetY := 0;
      opacity := 1;
    }
  }
}
