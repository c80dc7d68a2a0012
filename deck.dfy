/** Flashcard study mode: the cards are visited in a shuffled order that repeats
    forever; the answer is hidden until revealed; spoken audio of the question or
    the answer may be playing. */
module Flashcards {
  import opened Common
  import opened CardParser

  /** The cursor after one press of "next card": one step forward, wrapping round. */
  function NextIndex(i: nat, n: nat): (r: nat)
    requires n > 0
    ensures r < n
    ensures i < n - 1 ==> r == i + 1
    ensures i == n - 1 ==> r == 0
  {
    (i + 1) % n
  }

  /** The cursor after `k` presses of "next card". */
  function AdvanceTimes(i: nat, n: nat, k: nat): nat
    requires n > 0
  {
    if k == 0 then i else NextIndex(AdvanceTimes(i, n, k - 1), n)
  }

  lemma {:induction false} AdvanceCompose(i: nat, n: nat, a: nat, b: nat)
    requires n > 0
    ensures AdvanceTimes(i, n, a + b) == AdvanceTimes(AdvanceTimes(i, n, a), n, b)
  {
    if b > 0 {
      AdvanceCompose(i, n, a, b - 1);
    }
  }

  /** Before the wrap-around the cursor simply counts up. */
  lemma {:induction false} AdvanceCountsUp(i: nat, n: nat, k: nat)
    requires i + k < n
    ensures AdvanceTimes(i, n, k) == i + k
  {
    if k > 0 {
      AdvanceCountsUp(i, n, k - 1);
    }
  }

  /** Pressing "next card" as many times as there are cards comes back to the
      card one started from: the deck is a cyclic playlist. */
  lemma FullCycleReturns(i: nat, n: nat)
    requires i < n
    ensures AdvanceTimes(i, n, n) == i
  {
    AdvanceCountsUp(i, n, n - 1 - i);
    AdvanceCompose(i, n, n - 1 - i, i + 1);
    AdvanceCompose(n - 1, n, 1, i);
    assert AdvanceTimes(n - 1, n, 1) == 0;
    AdvanceCountsUp(0, n, i);
  }

  /** The flashcard part of the session state. */
  class Deck {
    var cards: seq<Card>
    /** The shuffled order in which cards are shown: positions into `cards`. */
    var deck: seq<nat>
    var currentIndex: nat
    var showAnswer: bool
    var isPlaying: bool
    var audioBytes: Option<seq<bv8>>

    /** The order is a permutation of the card positions and the cursor is a valid
        position in it (it stays 0 when there are no cards). */
    ghost predicate Valid()
      reads this
    {
      IsPermutation(deck, |cards|) && (if deck == [] then currentIndex == 0 else currentIndex < |deck|)
    }

    /** Session start: the cards read from the document, in the order the shuffle
        chose, the first of them showing, answer hidden, no audio. With no cards
        the order is empty and nothing is shown. */
    constructor (cards: seq<Card>, shuffled: seq<nat>)
      requires IsPermutation(shuffled, |cards|)
      ensures Valid()
      ensures this.cards == cards && deck == shuffled && currentIndex == 0
      ensures !showAnswer && !isPlaying && audioBytes == None
    {
      this.cards := cards;
      deck := shuffled;
      currentIndex := 0;
      showAnswer := false;
      isPlaying := false;
      audioBytes := None;
    }

    /** The card under the cursor. */
    method CurrentCard() returns (card: Card)
      requires Valid() && cards != []
      ensures card in cards
      ensures card == cards[deck[currentIndex]]
    {
      card := cards[deck[currentIndex]];
    }

    /** "Show answer". */
    method Reveal()
      requires Valid()
      modifies this
      ensures Valid()
      ensures showAnswer
      ensures cards == old(cards) && deck == old(deck) && currentIndex == old(currentIndex)
      ensures isPlaying == old(isPlaying) && audioBytes == old(audioBytes)
    {
      showAnswer := true;
    }

    /** "Next card": the cursor moves one step round the cycle, and the answer is
        hidden and the audio stopped and dropped. */
    method Advance()
      requires Valid() && deck != []
      modifies this
      ensures Valid()
      ensures cards == old(cards) && deck == old(deck)
      ensures currentIndex == NextIndex(old(currentIndex), |deck|)
      ensures !showAnswer && !isPlaying && audioBytes == None
    {
      currentIndex := (currentIndex + 1) % |deck|;
      showAnswer := false;
      isPlaying := false;
      audioBytes := None;
    }

    /** "Listen": the synthesiser's result is stored and playing is switched on.
        A failed synthesis stores nothing but still switches playing on. */
    method PlayAudio(synthesized: Option<seq<bv8>>)
      requires Valid()
      modifies this
      ensures Valid()
      ensures audioBytes == synthesized && isPlaying
      ensures cards == old(cards) && deck == old(deck) && currentIndex == old(currentIndex)
      ensures showAnswer == old(showAnswer)
    {
      audioBytes := synthesized;
      isPlaying := true;
    }

    /** "Stop audio". */
    method StopAudio()
      requires Valid()
      modifies this
      ensures Valid()
      ensures !isPlaying && audioBytes == None
      ensures cards == old(cards) && deck == old(deck) && currentIndex == old(currentIndex)
      ensures showAnswer == old(showAnswer)
    {
      isPlaying := false;
      audioBytes := None;
    }

    /** The audio player is shown only while playing and holding non-empty audio. */
    predicate PlayerShown()
      reads this
    {
      isPlaying && audioBytes.Some? && audioBytes.value != []
    }
  }

  /** Every card is visited: each card position occurs in the shuffled order. */
  lemma EveryCardInDeck(d: Deck, c: nat)
    requires d.Valid() && c < |d.cards|
    ensures c in d.deck
  {
    PermutationCovers(d.deck, |d.cards|);
  }
}
