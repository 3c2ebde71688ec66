/** Cards and the standard 52-card deck (src/game.js:6-7, 124-132). */
module Cards {

  datatype Suit = Spades | Hearts | Diamonds | Clubs

  /** Ranks run from 2 to 14; the ace is 14 and doubles as 1 in straights. */
  type Rank = r: int | 2 <= r <= 14 witness 2

  datatype Card = Card(rank: Rank, suit: Suit)

  /** The suits in the order the deck is built. */
  const SUITS: seq<Suit> := [Spades, Hearts, Diamonds, Clubs]

  const DECK_SIZE: nat := 52

  /** Position of a suit in SUITS. */
  function SuitIndex(s: Suit): (i: nat)
    ensures i < 4 && SUITS[i] == s
  {
    match s
    case Spades => 0
    case Hearts => 1
    case Diamonds => 2
    case Clubs => 3
  }

  /** The card that the deck-building loops push at position i: suits outer, ranks inner. */
  function DeckCard(i: nat): Card
    requires i < DECK_SIZE
  {
    Card(i % 13 + 2, SUITS[i / 13])
  }

  lemma DivMod13(s: nat, k: nat)
    requires k < 13
    ensures (13 * s + k) / 13 == s && (13 * s + k) % 13 == k
  {
  }

  /** The deck buildDeck builds, as a value. */
  function FullDeck(): (d: seq<Card>)
    ensures |d| == DECK_SIZE
  {
    seq(DECK_SIZE, i requires 0 <= i < DECK_SIZE => DeckCard(i))
  }

  /** buildDeck: for each suit, for each rank, push the card. */
  method BuildDeck() returns (deck: seq<Card>)
    ensures |deck| == DECK_SIZE
    ensures forall i :: 0 <= i < DECK_SIZE ==> deck[i] == DeckCard(i)
  {
    deck := [];
    for s := 0 to 4
      invariant |deck| == 13 * s
      invariant forall i :: 0 <= i < |deck| ==> deck[i] == DeckCard(i)
    {
      for r := 2 to 15
        invariant |deck| == 13 * s + (r - 2)
        invariant forall i :: 0 <= i < |deck| ==> deck[i] == DeckCard(i)
      {
        DivMod13(s, r - 2);
        deck := deck + [Card(r, SUITS[s])];
      }
    }
  }

  /** The built deck holds every card exactly once: 4 suits times 13 ranks. */
  lemma DeckIsComplete()
    ensures forall i, j :: 0 <= i < j < DECK_SIZE ==> DeckCard(i) != DeckCard(j)
    ensures forall c: Card :: DeckCard(13 * SuitIndex(c.suit) + (c.rank - 2)) == c
  {
    forall i, j | 0 <= i < j < DECK_SIZE
      ensures DeckCard(i) != DeckCard(j)
    {
      DivMod13(i / 13, i % 13);
      DivMod13(j / 13, j % 13);
    }
    forall c: Card
      ensures DeckCard(13 * SuitIndex(c.suit) + (c.rank - 2)) == c
    {
      DivMod13(SuitIndex(c.suit), c.rank - 2);
    }
  }
}
