/**
  Card navigation on the React flashcard page
  (frontend/src/components/coursePage/modules/flashcard/FlashcardPage.tsx):
  the index of the card shown moves forward and back with wrap-around, and
  each arrow button is disabled at its own end of the deck.
 */
module FlashcardPage {

  /** The index the page starts at. */
  const InitialIndex: int := 0

  /** `handleNext`: one card forward, from the last card back to the first. */
  function Next(index: int, count: nat): (r: int)
    ensures count > 0 && 0 <= index < count ==> 0 <= r < count
    ensures r == index + 1 || r == 0
  {
    if index < count - 1 then index + 1 else 0
  }

  /** `handlePrevious`: one card back, from the first card to the last. */
  function Previous(index: int, count: nat): (r: int)
    ensures count > 0 && 0 <= index < count ==> 0 <= r < count
    ensures r == index - 1 || r == count - 1
  {
    if index > 0 then index - 1 else count - 1
  }

  /** The previous arrow is disabled on the first card. */
  predicate PreviousDisabled(index: int) {
    index == 0
  }

  /** The next arrow is disabled on the last card. */
  predicate NextDisabled(index: int, count: nat) {
    index == count - 1
  }

  /** Going back undoes going forward, and going forward undoes going back,
      on every card of a non-empty deck (across the wrap-around too). */
  lemma NextPreviousInverse(index: int, count: nat)
    requires 0 <= index < count
    ensures Previous(Next(index, count), count) == index
    ensures Next(Previous(index, count), count) == index
  {
  }

  /** `k` presses of the next arrow, starting from `index`. */
  function NextTimes(index: int, count: nat, k: nat): int {
    if k == 0 then index else Next(NextTimes(index, count, k - 1), count)
  }

  /** Euclidean division has one quotient and one remainder. */
  lemma DivModUnique(n: int, d: int, q: int, r: int)
    requires d > 0 && 0 <= r < d && n == q * d + r
    ensures n % d == r && n / d == q
  {
    var t := q - n / d;
    assert t * d == n % d - r;
  }

  /** Pressing next `k` times moves `k` places round the deck; after a whole
      round the first card shown is back. */
  lemma {:induction false} NextTimesWraps(index: int, count: nat, k: nat)
    requires 0 <= index < count
    ensures NextTimes(index, count, k) == (index + k) % count
  {
    if k > 0 {
      var a := index + k - 1;
      var prev := NextTimes(index, count, k - 1);
      NextTimesWraps(index, count, k - 1);
      assert prev == a % count;
      assert NextTimes(index, count, k) == Next(prev, count);
      NextOfRemainder(a, count);
      assert a + 1 == index + k;
    }
  }

  /** One press of next from the remainder of `a` lands on the remainder of
      `a + 1`. */
  lemma NextOfRemainder(a: nat, count: nat)
    requires count > 0
    ensures Next(a % count, count) == (a + 1) % count
  {
    var q, r := a / count, a % count;
    assert a == q * count + r;
    if r < count - 1 {
      DivModUnique(a + 1, count, q, r + 1);
    } else {
      assert (q + 1) * count == q * count + count;
      DivModUnique(a + 1, count, q + 1, 0);
    }
  }

  /** A full round of next presses shows the starting card again. */
  lemma FullRound(index: int, count: nat)
    requires 0 <= index < count
    ensures NextTimes(index, count, count) == index
  {
    NextTimesWraps(index, count, count);
    DivModUnique(index + count, count, 1, index);
  }

  /** A button is disabled exactly where its handler would wrap round, so the
      enabled buttons only ever move one card. */
  lemma DisabledExactlyWhereWrapping(index: int, count: nat)
    requires 0 <= index < count
    ensures PreviousDisabled(index) <==> Previous(index, count) != index - 1
    ensures NextDisabled(index, count) <==> Next(index, count) != index + 1
  {
  }
}
