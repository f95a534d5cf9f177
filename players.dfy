/**
 * A seat at the table: the chip stack and the hand the engine updates in
 * place, with the name and bot flag fixed at construction.
 */
module Players {
  import opened Wrappers
  import opened Cards

  /** How `hand[idx]` resolves a Python index: negative indices count from the end. */
  function PyIndex(len: nat, idx: int): (r: Option<nat>)
    ensures r.Some? <==> -(len as int) <= idx < len
    ensures r.Some? ==> r.value < len && (r.value as int == idx || r.value as int == idx + len)
  {
    if 0 <= idx < len then Some(idx as nat)
    else if -(len as int) <= idx < 0 then Some((idx + len) as nat)
    else None
  }

  /** `IndexError: list index out of range`. */
  datatype IndexError = IndexError

  class Player {
    var stack: int
    var hand: seq<Card>
    const name: string
    const isBot: bool

    constructor (money: int, name: string := "", isBot: bool := false)
      ensures stack == money && hand == []
      ensures this.name == name && this.isBot == isBot
    {
      stack := money;
      hand := [];
      this.name := name;
      this.isBot := isBot;
    }

    /** Appends the card to the hand. */
    method TakeCard(c: Card)
      modifies this`hand
      ensures hand == old(hand) + [c]
    {
      hand := hand + [c];
    }

    method GetStackAmount() returns (s: int)
      ensures s == stack
    {
      s := stack;
    }

    /**
     * Puts `card` at position `idx` and returns the card it replaces; an
     * index outside the hand raises `IndexError` and changes nothing.
     */
    method ChangeCard(card: Card, idx: int) returns (r: Result<Card, IndexError>)
      modifies this`hand
      ensures PyIndex(|old(hand)|, idx).None? ==> r == Err(IndexError) && hand == old(hand)
      ensures PyIndex(|old(hand)|, idx).Some? ==>
        var k := PyIndex(|old(hand)|, idx).value;
        r == Ok(old(hand)[k]) && hand == old(hand)[k := card]
    {
      match PyIndex(|hand|, idx)
      case None =>
        r := Err(IndexError);
      case Some(k) =>
        var previous := hand[k];
        hand := hand[k := card];
        r := Ok(previous);
    }

    /** `tuple(hand)`: a copy of the hand in order. */
    method GetPlayerHand() returns (h: seq<Card>)
      ensures h == hand
    {
      h := hand;
    }
  }
}
