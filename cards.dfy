/** Playing cards as plain values (card.py holds nothing but a rank and a suit). */
module Cards {

  /** The four suits, in the order the deck is built: s, h, d, c. */
  datatype Suit = Spades | Hearts | Diamonds | Clubs

  /**
   * A rank by its numeric value in hand evaluation: '2'..'10' are 2..10,
   * 'J' = 11, 'Q' = 12, 'K' = 13 and 'A' = 14 (Ace high).
   */
  type Rank = r: int | 2 <= r <= 14 witness 2

  datatype Card = Card(rank: Rank, suit: Suit)
}
