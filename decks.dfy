/**
 * The deck: the unshuffled 52-card construction, the in-place shuffle and
 * the deal of five round-robin passes that pop from the end of the list.
 */
module Decks {
  import opened Cards
  import opened Players
  import opened Seqs

  /** `suits = ['s', 'h', 'd', 'c']`. */
  const SuitOrder: seq<Suit> := [Spades, Hearts, Diamonds, Clubs]

  /** `[Card(rank, suit) for suit in suits for rank in ranks]`: suit-major, ranks 2..A within a suit. */
  function FullDeck(): (d: seq<Card>)
    ensures |d| == 52
  {
    seq(52, i requires 0 <= i < 52 => Card((i % 13 + 2) as Rank, SuitOrder[i / 13]))
  }

  lemma SuitOrderIndex(s: Suit)
    ensures exists k :: 0 <= k < 4 && SuitOrder[k] == s
  {
    match s
    case Spades => assert SuitOrder[0] == s;
    case Hearts => assert SuitOrder[1] == s;
    case Diamonds => assert SuitOrder[2] == s;
    case Clubs => assert SuitOrder[3] == s;
  }

  /** Position `13 * k + (r - 2)` holds rank `r` of the `k`-th suit. */
  lemma FullDeckLayout(k: int, r: int)
    requires 0 <= k < 4 && 2 <= r <= 14
    ensures |FullDeck()| == 52
    ensures FullDeck()[13 * k + r - 2] == Card(r, SuitOrder[k])
  {
    var i := 13 * k + r - 2;
    assert i / 13 == k && i % 13 == r - 2;
  }

  /** Every rank of every suit is in the deck. */
  lemma FullDeckComplete(c: Card)
    ensures c in FullDeck()
  {
    SuitOrderIndex(c.suit);
    var k :| 0 <= k < 4 && SuitOrder[k] == c.suit;
    FullDeckLayout(k, c.rank);
  }

  /** No card occurs twice. */
  lemma FullDeckDistinct(i: int, j: int)
    requires 0 <= i < j < 52
    ensures FullDeck()[i] != FullDeck()[j]
  {
    if i / 13 == j / 13 {
      assert i % 13 != j % 13;
    } else {
      assert SuitOrder[i / 13] != SuitOrder[j / 13];
    }
  }

  // ---------------------------------------------------------------------
  // random.shuffle
  // ---------------------------------------------------------------------

  /** Exchanges the elements at `i` and `j`. */
  function Swap<T>(s: seq<T>, i: nat, j: nat): seq<T>
    requires i < |s| && j < |s|
  {
    s[i := s[j]][j := s[i]]
  }

  lemma SwapPermutes<T>(s: seq<T>, i: nat, j: nat)
    requires i < |s| && j < |s|
    ensures |Swap(s, i, j)| == |s| && multiset(Swap(s, i, j)) == multiset(s)
  {
  }

  /**
   * The passes of CPython's `random.shuffle` for positions `i - 1` down to 1:
   * position `i - 1` is exchanged with `rolls[i - 1] % i`, the draw
   * `randbelow(i)` that the injected rolls stand for.
   */
  function ShuffleFrom<T>(s: seq<T>, rolls: seq<nat>, i: nat): (r: seq<T>)
    requires i <= |s| <= |rolls|
    decreases i
    ensures |r| == |s| && r[i..] == s[i..]
  {
    if i <= 1 then s
    else
      SwapPermutes(s, i - 1, rolls[i - 1] % i);
      ShuffleFrom(Swap(s, i - 1, rolls[i - 1] % i), rolls, i - 1)
  }

  /** Shuffling is a permutation. */
  lemma {:induction false} ShufflePermutes<T>(s: seq<T>, rolls: seq<nat>, i: nat)
    requires i <= |s| <= |rolls|
    ensures |ShuffleFrom(s, rolls, i)| == |s|
    ensures multiset(ShuffleFrom(s, rolls, i)) == multiset(s)
    decreases i
  {
    if i > 1 {
      SwapPermutes(s, i - 1, rolls[i - 1] % i);
      ShufflePermutes(Swap(s, i - 1, rolls[i - 1] % i), rolls, i - 1);
    }
  }

  // ---------------------------------------------------------------------
  // Deck.deal
  // ---------------------------------------------------------------------

  /** The deck and every player's hand, the state `deal` works on. */
  datatype Table = Table(deck: seq<Card>, hands: seq<seq<Card>>)

  /** One `if len(self.cards) > 0: p.take_card(self.cards.pop())` for seat `j`. */
  function Give(t: Table, j: nat): Table
    requires j < |t.hands|
  {
    if |t.deck| > 0 then
      Table(t.deck[..|t.deck| - 1], t.hands[j := t.hands[j] + [t.deck[|t.deck| - 1]]])
    else t
  }

  /** The first `j` iterations of one pass of the inner loop `for p in players`. */
  function PassPrefix(t: Table, j: nat): (r: Table)
    requires j <= |t.hands|
    ensures |r.hands| == |t.hands|
  {
    if j == 0 then t else Give(PassPrefix(t, j - 1), j - 1)
  }

  /** The first `k` passes of the outer loop `for i in range(5)`. */
  function Passes(t: Table, k: nat): (r: Table)
    ensures |r.hands| == |t.hands|
  {
    if k == 0 then t else PassPrefix(Passes(t, k - 1), |t.hands|)
  }

  /** `deal(players)`: five passes over the seats. */
  function Dealt(t: Table): (r: Table)
    ensures |r.hands| == |t.hands|
  {
    Passes(t, 5)
  }

  /** All cards of the hands, as one multiset. */
  function HandsMultiset(hands: seq<seq<Card>>): multiset<Card>
  {
    if hands == [] then multiset{} else multiset(hands[0]) + HandsMultiset(hands[1..])
  }

  function TableMultiset(t: Table): multiset<Card>
  {
    multiset(t.deck) + HandsMultiset(t.hands)
  }

  lemma {:induction false} HandsMultisetAdd(hands: seq<seq<Card>>, j: nat, c: Card)
    requires j < |hands|
    ensures HandsMultiset(hands[j := hands[j] + [c]]) == HandsMultiset(hands) + multiset{c}
  {
    if j > 0 {
      HandsMultisetAdd(hands[1..], j - 1, c);
      assert hands[j := hands[j] + [c]][1..] == hands[1..][j - 1 := hands[j] + [c]];
    } else {
      assert hands[0 := hands[0] + [c]][1..] == hands[1..];
    }
  }

  /** A card moves from the deck into a hand: nothing is lost or duplicated. */
  lemma GiveConserves(t: Table, j: nat)
    requires j < |t.hands|
    ensures TableMultiset(Give(t, j)) == TableMultiset(t)
    ensures |Give(t, j).hands| == |t.hands|
  {
    if |t.deck| > 0 {
      var last := t.deck[|t.deck| - 1];
      HandsMultisetAdd(t.hands, j, last);
      assert t.deck == t.deck[..|t.deck| - 1] + [last];
    }
  }

  lemma {:induction false} PassPrefixConserves(t: Table, j: nat)
    requires j <= |t.hands|
    ensures TableMultiset(PassPrefix(t, j)) == TableMultiset(t)
  {
    if j > 0 {
      PassPrefixConserves(t, j - 1);
      GiveConserves(PassPrefix(t, j - 1), j - 1);
    }
  }

  /** Dealing conserves the multiset of deck and hands together. */
  lemma {:induction false} PassesConserve(t: Table, k: nat)
    ensures TableMultiset(Passes(t, k)) == TableMultiset(t)
  {
    if k > 0 {
      PassesConserve(t, k - 1);
      PassPrefixConserves(Passes(t, k - 1), |t.hands|);
    }
  }

  /**
   * Part of a pass: the deck loses its last `min(j, |deck|)` cards and, while
   * they last, each of the first `j` seats receives one.
   */
  lemma {:induction false} PassPrefixSizes(t: Table, j: nat)
    requires j <= |t.hands|
    ensures PassPrefix(t, j).deck == t.deck[..|t.deck| - Min(j, |t.deck|)]
    ensures j <= |t.deck| ==> forall q :: 0 <= q < |t.hands| ==>
      |PassPrefix(t, j).hands[q]| == |t.hands[q]| + (if q < j then 1 else 0)
  {
    if j > 0 {
      PassPrefixSizes(t, j - 1);
    }
  }

  /** `k` passes: the deck loses its last `min(k * n, |deck|)` cards; with enough cards each seat gains `k`. */
  lemma {:induction false} PassesSizes(t: Table, k: nat)
    ensures Passes(t, k).deck == t.deck[..|t.deck| - Min(k * |t.hands|, |t.deck|)]
    ensures k * |t.hands| <= |t.deck| ==> forall q :: 0 <= q < |t.hands| ==>
      |Passes(t, k).hands[q]| == |t.hands[q]| + k
  {
    var n := |t.hands|;
    if k > 0 {
      PassesSizes(t, k - 1);
      var r := Passes(t, k - 1);
      PassPrefixSizes(r, n);
      assert k * n == (k - 1) * n + n;
    }
  }

  /** With at least five cards per seat, each seat receives exactly five and the deck shrinks by five per seat. */
  lemma DealtSizes(t: Table)
    requires |t.deck| >= 5 * |t.hands|
    ensures |Dealt(t).hands| == |t.hands|
    ensures Dealt(t).deck == t.deck[..|t.deck| - 5 * |t.hands|]
    ensures forall q :: 0 <= q < |t.hands| ==> |Dealt(t).hands[q]| == |t.hands[q]| + 5
  {
    PassesSizes(t, 5);
  }

  /** A short deck runs out silently: the deal ends with the deck shrunk by `min(5 * n, |deck|)`. */
  lemma DealtDeckShrinks(t: Table)
    ensures |Dealt(t).deck| == |t.deck| - Min(5 * |t.hands|, |t.deck|)
  {
    PassesSizes(t, 5);
  }

  /** A deck of distinct cards dealt to empty hands leaves no card in two places. */
  lemma DealtNoDuplicates(t: Table)
    requires forall i, j :: 0 <= i < j < |t.deck| ==> t.deck[i] != t.deck[j]
    requires forall q :: 0 <= q < |t.hands| ==> t.hands[q] == []
    ensures forall c :: TableMultiset(Dealt(t))[c] <= 1
  {
    PassesConserve(t, 5);
    EmptyHands(t.hands);
    forall c
      ensures multiset(t.deck)[c] <= 1
    {
      DistinctCount(t.deck, c);
    }
  }

  lemma {:induction false} EmptyHands(hands: seq<seq<Card>>)
    requires forall q :: 0 <= q < |hands| ==> hands[q] == []
    ensures HandsMultiset(hands) == multiset{}
  {
    if hands != [] {
      EmptyHands(hands[1..]);
    }
  }

  /**
   * A round's deal: a shuffled deck dealt into `n` empty hands gives every
   * hand five cards, takes `5 * n` cards off the deck, and every card of the
   * deck as it was is in exactly one place.
   */
  lemma FreshDeal(cards: seq<Card>, rolls: seq<nat>, n: nat)
    requires 5 * n <= |cards| <= |rolls|
    ensures var t := Dealt(Table(ShuffleFrom(cards, rolls, |cards|), seq(n, q => [])));
      && |t.hands| == n && |t.deck| == |cards| - 5 * n
      && (forall q :: 0 <= q < n ==> |t.hands[q]| == 5)
      && TableMultiset(t) == multiset(cards)
  {
    var start := Table(ShuffleFrom(cards, rolls, |cards|), seq(n, q => []));
    ShufflePermutes(cards, rolls, |cards|);
    DealtSizes(start);
    PassesConserve(start, 5);
    EmptyHands(start.hands);
  }

  lemma {:induction false} DistinctCount<T>(s: seq<T>, x: T)
    requires forall i, j :: 0 <= i < j < |s| ==> s[i] != s[j]
    ensures multiset(s)[x] <= 1
  {
    if s != [] {
      DistinctCount(s[1..], x);
      assert s == [s[0]] + s[1..];
      if x == s[0] {
        assert x !in s[1..];
      }
    }
  }

  // ---------------------------------------------------------------------
  // The Deck object
  // ---------------------------------------------------------------------

  /** The hands of the given players, in seat order. */
  function HandsOf(players: seq<Player>): seq<seq<Card>>
    reads players
  {
    seq(|players|, i requires 0 <= i < |players| reads players => players[i].hand)
  }

  class Deck {
    var cards: seq<Card>

    /** An unshuffled deck. */
    constructor ()
      ensures cards == FullDeck()
    {
      cards := FullDeck();
    }

    /** `random.shuffle(self.cards)`, given the draws `randbelow` would make. */
    method Shuffle(rolls: seq<nat>)
      requires |rolls| >= |cards|
      modifies this`cards
      ensures cards == ShuffleFrom(old(cards), rolls, |old(cards)|)
    {
      var i := |cards|;
      while i > 1
        invariant 0 <= i <= |cards| == |old(cards)|
        invariant ShuffleFrom(cards, rolls, i) == ShuffleFrom(old(cards), rolls, |old(cards)|)
      {
        var j := rolls[i - 1] % i;
        SwapPermutes(cards, i - 1, j);
        cards := cards[i - 1 := cards[j]][j := cards[i - 1]];
        i := i - 1;
      }
    }

    /** Five passes; each pass gives every player, in order, the last card while cards remain. */
    method Deal(players: seq<Player>)
      requires forall i, j :: 0 <= i < j < |players| ==> players[i] != players[j]
      modifies this`cards, players`hand
      ensures Table(cards, HandsOf(players)) == Dealt(Table(old(cards), old(HandsOf(players))))
    {
      ghost var t0 := Table(cards, HandsOf(players));
      var n := |players|;
      for pass := 0 to 5
        invariant cards == Passes(t0, pass).deck
        invariant HandsOf(players) == Passes(t0, pass).hands
      {
        ghost var start := Table(cards, HandsOf(players));
        for j := 0 to n
          invariant cards == PassPrefix(start, j).deck
          invariant HandsOf(players) == PassPrefix(start, j).hands
        {
          if |cards| > 0 {
            var c := cards[|cards| - 1];
            cards := cards[..|cards| - 1];
            players[j].TakeCard(c);
          }
        }
      }
    }
  }
}
