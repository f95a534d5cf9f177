/**
 * `exchange_cards`: each listed hand position takes the card popped from the
 * end of the deck, and the card it held goes to the front of the deck. The
 * first index outside the hand, or a pop from an empty deck, raises
 * `IndexError` and leaves the replacements already made in place.
 */
module CardExchange {
  import opened Cards
  import opened Seqs

  /** The hand and the deck after the loop, and whether it stopped on `IndexError`. */
  datatype Swapped = Swapped(hand: seq<Card>, deck: seq<Card>, raised: bool)

  predicate InHand(hand: seq<Card>, i: int)
  {
    0 <= i < |hand|
  }

  /** The loop `for i in indices` run to its end or to the exception. */
  function Exchange(hand: seq<Card>, deck: seq<Card>, indices: seq<int>): (r: Swapped)
    decreases |indices|
    ensures |r.hand| == |hand| && |r.deck| == |deck|
    ensures indices == [] ==> !r.raised && r.hand == hand && r.deck == deck
  {
    if indices == [] then Swapped(hand, deck, false)
    else
      var i := indices[0];
      if !InHand(hand, i) || deck == [] then Swapped(hand, deck, true)
      else Exchange(hand[i := deck[|deck| - 1]], [hand[i]] + deck[..|deck| - 1], indices[1..])
  }

  /** Neither the hand nor the deck changes length, whether or not the loop raises. */
  lemma {:induction false} ExchangeLengths(hand: seq<Card>, deck: seq<Card>, indices: seq<int>)
    decreases |indices|
    ensures |Exchange(hand, deck, indices).hand| == |hand|
    ensures |Exchange(hand, deck, indices).deck| == |deck|
  {
    if indices != [] && InHand(hand, indices[0]) && deck != [] {
      var i := indices[0];
      ExchangeLengths(hand[i := deck[|deck| - 1]], [hand[i]] + deck[..|deck| - 1], indices[1..]);
    }
  }

  /**
   * The call raises exactly when some listed index lies outside the hand,
   * or the deck is empty and there is something to exchange.
   */
  lemma {:induction false} ExchangeRaises(hand: seq<Card>, deck: seq<Card>, indices: seq<int>)
    decreases |indices|
    ensures Exchange(hand, deck, indices).raised <==>
      (exists k :: 0 <= k < |indices| && !InHand(hand, indices[k])) || (deck == [] && indices != [])
  {
    if indices != [] && InHand(hand, indices[0]) && deck != [] {
      var i := indices[0];
      var h, d := hand[i := deck[|deck| - 1]], [hand[i]] + deck[..|deck| - 1];
      ExchangeRaises(h, d, indices[1..]);
      if exists k :: 0 <= k < |indices| && !InHand(hand, indices[k]) {
        var k :| 0 <= k < |indices| && !InHand(hand, indices[k]);
        assert indices[1..][k - 1] == indices[k];
      }
      if exists k :: 0 <= k < |indices[1..]| && !InHand(h, indices[1..][k]) {
        var k :| 0 <= k < |indices[1..]| && !InHand(h, indices[1..][k]);
        assert indices[k + 1] == indices[1..][k];
      }
    } else if indices != [] && !InHand(hand, indices[0]) {
      assert !InHand(hand, indices[0]);
    }
  }

  /** Every card of hand and deck is still in one of them. */
  lemma {:induction false} ExchangeConserves(hand: seq<Card>, deck: seq<Card>, indices: seq<int>)
    decreases |indices|
    ensures multiset(Exchange(hand, deck, indices).hand) + multiset(Exchange(hand, deck, indices).deck)
      == multiset(hand) + multiset(deck)
  {
    if indices != [] && InHand(hand, indices[0]) && deck != [] {
      var i := indices[0];
      var last := deck[|deck| - 1];
      var h, d := hand[i := last], [hand[i]] + deck[..|deck| - 1];
      ExchangeConserves(h, d, indices[1..]);
      assert multiset(h) == multiset(hand) - multiset{hand[i]} + multiset{last} by {
        assert hand[i] in multiset(hand);
      }
      assert deck == deck[..|deck| - 1] + [last];
    }
  }

  /** Positions that are not listed keep their cards. */
  lemma {:induction false} ExchangeUntouched(hand: seq<Card>, deck: seq<Card>, indices: seq<int>, q: int)
    decreases |indices|
    requires InHand(hand, q) && q !in indices
    ensures q < |Exchange(hand, deck, indices).hand| && Exchange(hand, deck, indices).hand[q] == hand[q]
  {
    ExchangeLengths(hand, deck, indices);
    if indices != [] && InHand(hand, indices[0]) && deck != [] {
      var i := indices[0];
      var h, d := hand[i := deck[|deck| - 1]], [hand[i]] + deck[..|deck| - 1];
      assert q !in indices[1..];
      ExchangeUntouched(h, d, indices[1..], q);
    }
  }

  /**
   * When the loop raises at position `k`, the hand and deck are those of a
   * successful call on the indices before `k`: there is no rollback.
   */
  lemma {:induction false} ExchangeStopsAt(hand: seq<Card>, deck: seq<Card>, indices: seq<int>, k: nat)
    requires k < |indices| && !InHand(hand, indices[k])
    requires forall j :: 0 <= j < k ==> InHand(hand, indices[j])
    decreases k
    ensures var whole := Exchange(hand, deck, indices);
      var prefix := Exchange(hand, deck, indices[..k]);
      whole.raised && whole.hand == prefix.hand && whole.deck == prefix.deck
  {
    if k > 0 && deck != [] {
      var i := indices[0];
      var h, d := hand[i := deck[|deck| - 1]], [hand[i]] + deck[..|deck| - 1];
      assert indices[..k][1..] == indices[1..][..k - 1];
      assert forall j :: 0 <= j < k - 1 ==> indices[1..][j] == indices[j + 1];
      ExchangeStopsAt(h, d, indices[1..], k - 1);
    }
  }

  predicate Distinct(s: seq<int>)
  {
    forall a, b :: 0 <= a < b < |s| ==> s[a] != s[b]
  }

  /** The indices are valid, distinct, and no more than the deck can serve. */
  predicate Servable(hand: seq<Card>, deck: seq<Card>, indices: seq<int>)
  {
    && (forall k :: 0 <= k < |indices| ==> 0 <= indices[k] < |hand|)
    && Distinct(indices) && |indices| <= |deck|
  }

  /** One step of the loop on servable indices leaves the rest servable. */
  lemma ServableStep(hand: seq<Card>, deck: seq<Card>, indices: seq<int>)
    requires Servable(hand, deck, indices) && indices != []
    ensures var i := indices[0];
      && Servable(hand[i := deck[|deck| - 1]], [hand[i]] + deck[..|deck| - 1], indices[1..])
      && indices[0] !in indices[1..]
  {
    var rest := indices[1..];
    forall k | 0 <= k < |rest|
      ensures rest[k] == indices[k + 1] && rest[k] != indices[0]
    {
    }
  }

  /**
   * With servable indices the call does not raise, and the `k`-th listed
   * position receives the card `k` places from the end of the deck: the
   * cards drawn all come from the deck as it was, never a discard.
   */
  lemma {:induction false} ExchangeDraws(hand: seq<Card>, deck: seq<Card>, indices: seq<int>)
    requires Servable(hand, deck, indices)
    decreases |indices|
    ensures var r := Exchange(hand, deck, indices);
      && !r.raised && |r.hand| == |hand|
      && (forall k :: 0 <= k < |indices| ==> r.hand[indices[k]] == deck[|deck| - 1 - k])
  {
    ExchangeLengths(hand, deck, indices);
    if indices != [] {
      var i := indices[0];
      var h, d := hand[i := deck[|deck| - 1]], [hand[i]] + deck[..|deck| - 1];
      var rest := indices[1..];
      ServableStep(hand, deck, indices);
      ExchangeDraws(h, d, rest);
      ExchangeUntouched(h, d, rest, i);
      var r := Exchange(h, d, rest);
      forall k | 0 <= k < |indices|
        ensures r.hand[indices[k]] == deck[|deck| - 1 - k]
      {
        if k > 0 {
          assert indices[k] == rest[k - 1];
          assert d[|d| - 1 - (k - 1)] == deck[|deck| - 1 - k];
        }
      }
    }
  }

  /**
   * With servable indices the discarded cards end up at the front of the
   * deck, the last discarded first, and the undrawn rest of the deck keeps
   * its order behind them.
   */
  lemma {:induction false} ExchangeDiscards(hand: seq<Card>, deck: seq<Card>, indices: seq<int>)
    requires Servable(hand, deck, indices)
    decreases |indices|
    ensures var r := Exchange(hand, deck, indices);
      var m := |indices|;
      && |r.deck| == |deck|
      && (forall k :: 0 <= k < m ==> r.deck[m - 1 - k] == hand[indices[k]])
      && r.deck[m..] == deck[..|deck| - m]
  {
    ExchangeLengths(hand, deck, indices);
    if indices != [] {
      var m := |indices|;
      var i := indices[0];
      var h, d := hand[i := deck[|deck| - 1]], [hand[i]] + deck[..|deck| - 1];
      var rest := indices[1..];
      ServableStep(hand, deck, indices);
      ExchangeDiscards(h, d, rest);
      var r := Exchange(h, d, rest);
      assert r.deck[m - 1..] == [hand[i]] + deck[..|deck| - m] by {
        assert d[..|d| - (m - 1)] == [hand[i]] + deck[..|deck| - m];
      }
      forall k | 0 <= k < m
        ensures r.deck[m - 1 - k] == hand[indices[k]]
      {
        if k > 0 {
          assert indices[k] == rest[k - 1];
        } else {
          assert r.deck[m - 1] == r.deck[m - 1..][0];
        }
      }
      assert r.deck[m..] == r.deck[m - 1..][1..];
    }
  }

  /** Running two index lists one after the other is running their concatenation. */
  lemma {:induction false} ExchangeThen(hand: seq<Card>, deck: seq<Card>, a: seq<int>, b: seq<int>)
    decreases |a|
    ensures var first := Exchange(hand, deck, a);
      Exchange(hand, deck, a + b) ==
        if first.raised then first else Exchange(first.hand, first.deck, b)
  {
    if a == [] {
      assert a + b == b;
    } else {
      assert (a + b)[0] == a[0] && (a + b)[1..] == a[1..] + b;
      var i := a[0];
      if InHand(hand, i) && deck != [] {
        ExchangeThen(hand[i := deck[|deck| - 1]], [hand[i]] + deck[..|deck| - 1], a[1..], b);
      }
    }
  }
}
