/**
 * `GameEngine`: one round of five-card draw over players and a deck that it
 * updates in place — shuffle, blinds, deal, a betting round, then either a
 * win by folds or the draw and the showdown, the pot going to one player.
 * The shuffle's draws, the betting decisions and the indices each seat asks
 * to exchange are parameters in place of `random` and the console.
 */
module Engine {
  import opened Wrappers
  import opened Cards
  import opened Seqs
  import opened HandEval
  import opened Showdown
  import opened Players
  import opened Decks
  import opened Betting
  import opened CardExchange

  /** The players' stacks, in seat order. */
  function StacksOf(players: seq<Player>): seq<int>
    reads players
  {
    seq(|players|, i requires 0 <= i < |players| reads players => players[i].stack)
  }

  // ---------------------------------------------------------------------
  // The draw: `exchange_cards` for each surviving seat in turn
  // ---------------------------------------------------------------------

  /** Every surviving seat has a seat number and a list of indices. */
  predicate Scripted(t: Table, active: seq<nat>, script: seq<seq<int>>)
  {
    forall k :: 0 <= k < |active| ==> active[k] < |t.hands| && active[k] < |script|
  }

  /**
   * The loop `for p in active` around `exchange_cards`: each seat's
   * exchange works on that seat's hand and the shared deck, and its
   * replacements stay in place even when it raises.
   */
  function Draws(t: Table, active: seq<nat>, script: seq<seq<int>>): (r: Table)
    requires Scripted(t, active, script)
    ensures |r.hands| == |t.hands|
    decreases |active|
  {
    if active == [] then t
    else
      var seat := active[0];
      var x := Exchange(t.hands[seat], t.deck, script[seat]);
      Draws(Table(x.deck, t.hands[seat := x.hand]), active[1..], script)
  }

  lemma {:induction false} HandsMultisetSet(hands: seq<seq<Card>>, j: nat, h: seq<Card>)
    requires j < |hands|
    ensures HandsMultiset(hands[j := h]) + multiset(hands[j]) == HandsMultiset(hands) + multiset(h)
  {
    var u := hands[j := h];
    assert HandsMultiset(u) == multiset(u[0]) + HandsMultiset(u[1..]);
    assert HandsMultiset(hands) == multiset(hands[0]) + HandsMultiset(hands[1..]);
    if j > 0 {
      HandsMultisetSet(hands[1..], j - 1, h);
      assert u[1..] == hands[1..][j - 1 := h] && u[0] == hands[0] && hands[1..][j - 1] == hands[j];
      calc {
        HandsMultiset(u) + multiset(hands[j]);
        multiset(hands[0]) + (HandsMultiset(hands[1..][j - 1 := h]) + multiset(hands[1..][j - 1]));
        multiset(hands[0]) + (HandsMultiset(hands[1..]) + multiset(h));
      }
    } else {
      assert u[1..] == hands[1..];
    }
  }

  /** The draw neither creates nor loses a card, and no hand or deck changes size. */
  lemma {:induction false} DrawsConserve(t: Table, active: seq<nat>, script: seq<seq<int>>)
    requires Scripted(t, active, script)
    decreases |active|
    ensures TableMultiset(Draws(t, active, script)) == TableMultiset(t)
    ensures |Draws(t, active, script).deck| == |t.deck|
    ensures forall q :: 0 <= q < |t.hands| ==> |Draws(t, active, script).hands[q]| == |t.hands[q]|
  {
    if active != [] {
      var seat := active[0];
      var x := Exchange(t.hands[seat], t.deck, script[seat]);
      var u := Table(x.deck, t.hands[seat := x.hand]);
      ExchangeConserves(t.hands[seat], t.deck, script[seat]);
      ExchangeLengths(t.hands[seat], t.deck, script[seat]);
      HandsMultisetSet(t.hands, seat, x.hand);
      assert TableMultiset(u) == TableMultiset(t) by {
        var hm, h := HandsMultiset(u.hands), multiset(t.hands[seat]);
        assert hm + h == HandsMultiset(t.hands) + multiset(x.hand);
        assert multiset(x.hand) + multiset(x.deck) == h + multiset(t.deck);
        forall c
          ensures TableMultiset(u)[c] == TableMultiset(t)[c]
        {
          assert (hm + h)[c] == (HandsMultiset(t.hands) + multiset(x.hand))[c];
          assert (multiset(x.hand) + multiset(x.deck))[c] == (h + multiset(t.deck))[c];
        }
      }
      assert Scripted(u, active[1..], script) by {
        forall k | 0 <= k < |active[1..]|
          ensures active[1..][k] < |u.hands| && active[1..][k] < |script|
        {
          assert active[1..][k] == active[k + 1];
        }
      }
      DrawsConserve(u, active[1..], script);
    }
  }

  /** How `play_round` ends. */
  datatype RoundEnd =
    | NoPlayers                          // `% n` with no players: ZeroDivisionError
    | Aborted(error: BetError)           // the betting round raised
    | OutOfDecisions                     // the decision script ran out mid-round
    | NobodyLeft                         // the only player folded: `max` of an empty list
    | FoldWin(winner: nat)               // everyone else folded
    | ShowdownWin(winner: nat)           // the first best hand at the showdown

  /** The hand strengths of the given seats, in order. */
  function Strengths(hands: seq<seq<Card>>, seats: seq<nat>): (r: seq<Strength>)
    requires forall k :: 0 <= k < |seats| ==> seats[k] < |hands| && |hands[seats[k]]| == 5
    ensures |r| == |seats|
  {
    seq(|seats|, k requires 0 <= k < |seats| => HandRank(hands[seats[k]]))
  }

  class GameEngine {
    const players: seq<Player>
    const deck: Deck
    const smallBlind: int
    const bigBlind: int
    var pot: int
    var dealerIdx: int

    /** Each seat holds its own `Player` object. */
    ghost predicate Valid()
    {
      forall i, j :: 0 <= i < j < |players| ==> players[i] != players[j]
    }

    constructor (players: seq<Player>, deck: Deck, smallBlind: int := 25, bigBlind: int := 50)
      ensures this.players == players && this.deck == deck
      ensures this.smallBlind == smallBlind && this.bigBlind == bigBlind
      ensures pot == 0 && dealerIdx == 0
    {
      this.players := players;
      this.deck := deck;
      this.smallBlind := smallBlind;
      this.bigBlind := bigBlind;
      pot := 0;
      dealerIdx := 0;
    }

    /** The betting state seen from the engine: the loop's locals, the stacks and the pot. */
    function State(r: Round): BetState
      reads this, players
    {
      BetState(r.active, r.contrib, StacksOf(players), pot, r.bet, r.seen)
    }

    /** Moves `amt` from a seat's stack into the pot. */
    method Pay(seat: nat, amt: int)
      requires Valid() && seat < |players|
      modifies this`pot, (players[seat] as Player)`stack
      ensures StacksOf(players) == Paid(old(StacksOf(players)), seat, amt)
      ensures pot == old(pot) + amt
    {
      players[seat].stack := players[seat].stack - amt;
      pot := pot + amt;
    }

    /** `winner._Player__stack_ += self.pot` followed by `self.pot = 0`. */
    method Award(seat: nat)
      requires Valid() && seat < |players|
      modifies this`pot, (players[seat] as Player)`stack
      ensures StacksOf(players) == Credited(old(StacksOf(players)), seat, old(pot))
      ensures pot == 0 && HandsOf(players) == old(HandsOf(players))
    {
      ghost var hands := HandsOf(players);
      players[seat].stack := players[seat].stack + pot;
      pot := 0;
      assert HandsOf(players) == hands by {
        forall q | 0 <= q < |players|
          ensures players[q].hand == hands[q]
        {
        }
      }
    }

    /** One action of the player at `seat`, in place: the body of `if player in active`. */
    method Turn(seat: nat, d: Decision, r: Round) returns (res: Result<Round, BetError>)
      requires Valid() && seat < |players| && |r.contrib| == |players|
      modifies this`pot, (players[seat] as Player)`stack
      ensures var a := Act(old(State(r)), seat, d);
        && (a.Err? ==> res == Err(a.error) && StacksOf(players) == old(StacksOf(players)) && pot == old(pot))
        && (a.Ok? ==> res.Ok? && State(res.value) == a.value)
    {
      var toCall := r.bet - r.contrib[seat];
      match d
      case Fold =>
        res := Ok(r.(active := Remove(r.active, seat), seen := r.seen + {seat}));
      case Check =>
        if toCall == 0 {
          res := Ok(r.(seen := r.seen + {seat}));
        } else {
          res := Err(InvalidAction);
        }
      case Call =>
        if toCall > 0 {
          var amt := Min(toCall, players[seat].stack);
          Pay(seat, amt);
          res := Ok(r.(contrib := r.contrib[seat := r.contrib[seat] + amt], seen := r.seen + {seat}));
        } else {
          res := Err(InvalidAction);
        }
      case Raise(x) =>
        var pay := toCall + x;
        Pay(seat, pay);
        res := Ok(Round(r.active, r.contrib[seat := r.contrib[seat] + pay], r.bet + x, {seat}));
      case Unrecognised =>
        res := Err(InvalidAction);
      case Blank =>
        res := Err(EmptyCommand);
    }

    /**
     * `_betting_round`: walks the seats from `start`, skipping folded ones,
     * giving each active seat the next scripted decision, until the exit test
     * holds, a decision is refused or the script runs out.
     */
    method BettingRound(start: nat, contributions: seq<int>, currentBet: int, script: seq<Decision>)
      returns (o: Outcome)
      requires Valid() && start < |players| && |contributions| == |players|
      modifies this`pot, players`stack
      ensures var s0 := BetState(AllSeats(|players|), contributions, old(StacksOf(players)), old(pot), currentBet, {});
        Wf(s0) && o == Run(s0, start, script)
      ensures StacksOf(players) == o.s.stacks && pot == o.s.pot
    {
      var n := |players|;
      var r := Round(AllSeats(n), contributions, currentBet, {});
      ghost var s0 := State(r);
      var idx: nat := start;
      var pos := 0;
      while pos < |script|
        invariant pos <= |script| && idx < n && |r.contrib| == n
        invariant Wf(State(r))
        invariant Run(s0, start, script) == Run(State(r), idx, script[pos..])
        decreases |script| - pos
      {
        ghost var from: nat := idx;
        ghost var cur := State(r);
        ghost var rest := script[pos..];
        assert Run(s0, start, script) == Run(cur, from, rest);
        while idx !in r.active
          invariant idx < n && NextActive(r.active, idx) == NextActive(r.active, from)
          invariant State(r) == cur
          decreases Gap(r.active, idx, n)
        {
          SkipFolded(r.active, idx, n);
          idx := (idx + 1) % n;
        }
        RunSameTurn(cur, from, idx, rest);
        RunTurn(cur, idx, rest);
        assert rest[0] == script[pos] && rest[1..] == script[pos + 1..];
        ghost var a := Act(cur, idx, script[pos]);
        var res := Turn(idx, script[pos], r);
        if res.Err? {
          assert State(r) == cur;
          o := Raised(res.error, State(r));
          assert o == Run(cur, idx, rest);
          return;
        }
        r := res.value;
        pos := pos + 1;
        assert State(r) == a.value;
        if Finished(State(r)) {
          o := Done(State(r));
          assert o == Run(cur, idx, rest);
          return;
        }
        idx := (idx + 1) % n;
        assert Run(cur, from, rest) == Run(State(r), idx, script[pos..]);
      }
      o := Exhausted(State(r));
    }

    /**
     * `exchange_cards(hand, indices)` on the hand of `p`: that list is the
     * player's own, so its replacements are visible through `p` even when the
     * call raises.
     */
    method ExchangeCards(p: Player, indices: seq<int>) returns (r: Result<seq<Card>, IndexError>)
      modifies p`hand, deck`cards
      ensures var x := Exchange(old(p.hand), old(deck.cards), indices);
        && p.hand == x.hand && deck.cards == x.deck
        && (r.Err? <==> x.raised) && (r.Ok? ==> r.value == p.hand)
    {
      var k := 0;
      while k < |indices|
        invariant k <= |indices|
        invariant Exchange(old(p.hand), old(deck.cards), indices) == Exchange(p.hand, deck.cards, indices[k..])
      {
        var i := indices[k];
        assert indices[k..][0] == i && indices[k..][1..] == indices[k + 1..];
        if i < 0 || i >= |p.hand| {
          return Err(IndexError);
        }
        var discarded := p.hand[i];
        if deck.cards == [] {
          return Err(IndexError);
        }
        var drawn := deck.cards[|deck.cards| - 1];
        deck.cards := deck.cards[..|deck.cards| - 1];
        p.hand := p.hand[i := drawn];
        deck.cards := [discarded] + deck.cards;
        k := k + 1;
      }
      return Ok(p.hand);
    }

    /** The draw: each surviving seat in order exchanges its scripted indices; a failed exchange is skipped. */
    method DrawPhase(active: seq<nat>, script: seq<seq<int>>)
      requires Valid() && Scripted(Table(deck.cards, HandsOf(players)), active, script)
      modifies players`hand, deck`cards
      ensures Table(deck.cards, HandsOf(players)) == Draws(old(Table(deck.cards, HandsOf(players))), active, script)
      ensures StacksOf(players) == old(StacksOf(players))
    {
      ghost var t0 := Table(deck.cards, HandsOf(players));
      ghost var stacks := StacksOf(players);
      var k := 0;
      while k < |active|
        invariant k <= |active| && |HandsOf(players)| == |players|
        invariant Scripted(Table(deck.cards, HandsOf(players)), active[k..], script)
        invariant Draws(t0, active, script) == Draws(Table(deck.cards, HandsOf(players)), active[k..], script)
      {
        var seat := active[k];
        ghost var t := Table(deck.cards, HandsOf(players));
        assert active[k..][0] == seat && active[k..][1..] == active[k + 1..];
        var p := players[seat];
        var res := ExchangeCards(p, script[seat]);
        if res.Ok? {
          p.hand := res.value;
        }
        assert HandsOf(players) == t.hands[seat := p.hand];
        k := k + 1;
      }
      assert StacksOf(players) == stacks by {
        forall q | 0 <= q < |players|
          ensures players[q].stack == stacks[q]
        {
        }
      }
    }

    /** `p._Player__hand_ = []` for every player. */
    method ClearHands()
      requires Valid()
      modifies players`hand
      ensures HandsOf(players) == seq(|players|, q => [])
    {
      for k := 0 to |players|
        invariant forall q :: 0 <= q < k ==> players[q].hand == []
      {
        players[k].hand := [];
      }
    }

    /**
     * The blinds: `dealer + 1` posts the small one and `dealer + 2` the big
     * one, each clamped by `min(blind, stack)`.
     */
    method PostBlinds() returns (b: Posting)
      requires Valid() && |players| > 0
      modifies this`pot, players`stack
      ensures b == Blinds(old(StacksOf(players)), dealerIdx, smallBlind, bigBlind)
      ensures StacksOf(players) == AfterBlinds(old(StacksOf(players)), b)
      ensures pot == old(pot) + b.sbAmt + b.bbAmt
      ensures HandsOf(players) == old(HandsOf(players))
    {
      var n := |players|;
      ghost var stacks := StacksOf(players);
      ghost var hands := HandsOf(players);
      var sbSeat := (dealerIdx + 1) % n;
      var bbSeat := (dealerIdx + 2) % n;
      var sbAmt := Min(smallBlind, players[sbSeat].stack);
      var bbAmt := Min(bigBlind, players[bbSeat].stack);
      b := Posting(sbSeat, bbSeat, sbAmt, bbAmt);
      assert b == Blinds(stacks, dealerIdx, smallBlind, bigBlind);
      Pay(sbSeat, sbAmt);
      Pay(bbSeat, bbAmt);
      assert HandsOf(players) == hands by {
        forall q | 0 <= q < n
          ensures players[q].hand == hands[q]
        {
        }
      }
    }

    /**
     * The start of `play_round`: shuffle, drop the old pot, empty the hands,
     * post the blinds and deal.
     */
    method Setup(rolls: seq<nat>) returns (b: Posting)
      requires Valid() && |players| > 0 && |rolls| >= |deck.cards|
      modifies this`pot, players`stack, players`hand, deck`cards
      ensures b == Blinds(old(StacksOf(players)), dealerIdx, smallBlind, bigBlind)
      ensures StacksOf(players) == AfterBlinds(old(StacksOf(players)), b)
      ensures pot == b.sbAmt + b.bbAmt
      ensures Table(deck.cards, HandsOf(players)) ==
        Dealt(Table(ShuffleFrom(old(deck.cards), rolls, |old(deck.cards)|), seq(|players|, q => [])))
    {
      var n := |players|;
      ghost var stacks := StacksOf(players);
      deck.Shuffle(rolls);
      pot := 0;
      ClearHands();
      assert StacksOf(players) == stacks by {
        forall q | 0 <= q < n
          ensures players[q].stack == stacks[q]
        {
        }
      }
      b := PostBlinds();
      ghost var paid := StacksOf(players);
      deck.Deal(players);
      assert StacksOf(players) == paid by {
        forall q | 0 <= q < n
          ensures players[q].stack == paid[q]
        {
        }
      }
    }

    /**
     * The draw and the showdown: every survivor exchanges in turn, then the
     * first of the best hands, by `hand_rank`, wins.
     */
    method Showdown(active: seq<nat>, exchanges: seq<seq<int>>) returns (winner: nat)
      requires Valid() && Seating(active, |players|) && active != [] && |exchanges| >= |players|
      requires FiveEach(HandsOf(players))
      modifies players`hand, deck`cards
      ensures Table(deck.cards, HandsOf(players)) == Draws(old(Table(deck.cards, HandsOf(players))), active, exchanges)
      ensures FiveEach(HandsOf(players))
      ensures |deck.cards| == old(|deck.cards|)
      ensures TableMultiset(Table(deck.cards, HandsOf(players))) == old(TableMultiset(Table(deck.cards, HandsOf(players))))
      ensures ShowdownWinner(HandsOf(players), active, winner) && winner < |players|
      ensures StacksOf(players) == old(StacksOf(players))
    {
      ghost var t0 := Table(deck.cards, HandsOf(players));
      DrawsConserve(t0, active, exchanges);
      DrawPhase(active, exchanges);
      var strengths := Strengths(HandsOf(players), active);
      winner := active[BestIndex(strengths)];
    }

    /**
     * The end of `play_round` once betting is over: a lone survivor takes the
     * pot; two or more draw and the first best hand takes it; in both cases
     * the dealer moves on. Nobody left means `max` raises and nothing is paid.
     */
    method Settle(active: seq<nat>, exchanges: seq<seq<int>>) returns (e: RoundEnd)
      requires Valid() && Seating(active, |players|) && |exchanges| >= |players|
      requires FiveEach(HandsOf(players))
      modifies this`pot, this`dealerIdx, players`stack, players`hand, deck`cards
      ensures FiveEach(HandsOf(players))
      ensures |deck.cards| == old(|deck.cards|)
      ensures TableMultiset(Table(deck.cards, HandsOf(players))) == old(TableMultiset(Table(deck.cards, HandsOf(players))))
      ensures |active| == 0 ==> e == NobodyLeft && unchanged(this) && StacksOf(players) == old(StacksOf(players))
      ensures |active| == 1 ==> e == FoldWin(active[0])
      ensures |active| <= 1 ==> Table(deck.cards, HandsOf(players)) == old(Table(deck.cards, HandsOf(players)))
      ensures |active| >= 2 ==>
        && Table(deck.cards, HandsOf(players)) == Draws(old(Table(deck.cards, HandsOf(players))), active, exchanges)
        && e.ShowdownWin? && ShowdownWinner(HandsOf(players), active, e.winner)
      ensures e.FoldWin? || e.ShowdownWin? ==>
        && e.winner < |players|
        && StacksOf(players) == Credited(old(StacksOf(players)), e.winner, old(pot))
        && pot == 0 && dealerIdx == NextDealer(old(dealerIdx), |players|)
    {
      var n := |players|;
      if active == [] {
        // the draw visits nobody, and `max` of no players raises
        return NobodyLeft;
      }
      ghost var t0, stacks := Table(deck.cards, HandsOf(players)), StacksOf(players);
      var winner: nat;
      if |active| == 1 {
        winner := active[0];
        e := FoldWin(winner);
      } else {
        winner := Showdown(active, exchanges);
        e := ShowdownWin(winner);
      }
      ghost var t1 := Table(deck.cards, HandsOf(players));
      assert StacksOf(players) == stacks;
      assert |active| == 1 ==> t1 == t0;
      Award(winner);
      assert Table(deck.cards, HandsOf(players)) == t1;
      dealerIdx := NextDealer(dealerIdx, n);
    }

    /**
     * The first half of `play_round`: shuffle, blinds and deal, then the
     * betting round from the seat after the big blind, which starts with the
     * blinds as the only contributions and the big blind as the bet.
     */
    method Open(rolls: seq<nat>, decisions: seq<Decision>) returns (b: Posting, o: Outcome)
      requires Valid() && |players| > 0 && |rolls| >= |deck.cards| && |deck.cards| >= 5 * |players|
      modifies this`pot, players`stack, players`hand, deck`cards
      ensures b == Blinds(old(StacksOf(players)), old(dealerIdx), smallBlind, bigBlind)
      ensures var opening := OpeningOf(old(StacksOf(players)), b);
        Wf(opening) && o == Run(opening, (b.bbSeat + 1) % |players|, decisions)
      ensures StacksOf(players) == o.s.stacks && pot == o.s.pot
      ensures Table(deck.cards, HandsOf(players)) ==
        Dealt(Table(ShuffleFrom(old(deck.cards), rolls, |old(deck.cards)|), seq(|players|, q => [])))
      ensures |deck.cards| == old(|deck.cards|) - 5 * |players|
      ensures FiveEach(HandsOf(players))
      ensures TableMultiset(Table(deck.cards, HandsOf(players))) == old(multiset(deck.cards))
    {
      var n := |players|;
      ghost var stacks, cards := StacksOf(players), deck.cards;
      b := Setup(rolls);
      FreshDeal(cards, rolls, n);
      assert Table(deck.cards, HandsOf(players)) ==
        Dealt(Table(ShuffleFrom(cards, rolls, |cards|), seq(n, q => [])));
      ghost var dealt := Table(deck.cards, HandsOf(players));
      assert OpeningOf(stacks, b) == Opening(StacksOf(players), pot, b.sbSeat, b.sbAmt, b.bbSeat, b.bbAmt);
      var contributions := seq(n, q => 0)[b.sbSeat := b.sbAmt][b.bbSeat := b.bbAmt];
      o := BettingRound((b.bbSeat + 1) % n, contributions, b.bbAmt, decisions);
      assert Table(deck.cards, HandsOf(players)) == dealt by {
        forall q | 0 <= q < n
          ensures players[q].hand == dealt.hands[q]
        {
        }
      }
      assert FiveEach(dealt.hands);
    }

    /**
     * What `play_round` does with the outcome of the betting round: an
     * exception propagates, the end of the script stops the round, and a
     * round that returns is settled.
     */
    method Conclude(o: Outcome, exchanges: seq<seq<int>>) returns (e: RoundEnd)
      requires Valid() && Seating(o.s.active, |players|) && |exchanges| >= |players|
      requires FiveEach(HandsOf(players))
      requires StacksOf(players) == o.s.stacks && pot == o.s.pot
      modifies this`pot, this`dealerIdx, players`stack, players`hand, deck`cards
      ensures FiveEach(HandsOf(players))
      ensures |deck.cards| == old(|deck.cards|)
      ensures TableMultiset(Table(deck.cards, HandsOf(players))) == old(TableMultiset(Table(deck.cards, HandsOf(players))))
      ensures Sum(StacksOf(players)) + pot == Sum(o.s.stacks) + o.s.pot
      ensures !e.ShowdownWin? ==> Table(deck.cards, HandsOf(players)) == old(Table(deck.cards, HandsOf(players)))
      ensures e.ShowdownWin? ==>
        && Seating(o.s.active, |players|)
        && Table(deck.cards, HandsOf(players)) == Draws(old(Table(deck.cards, HandsOf(players))), o.s.active, exchanges)
      ensures && (e.Aborted? <==> o.Raised?) && (e.Aborted? ==> e.error == o.error)
        && (e == OutOfDecisions <==> o.Exhausted?)
        && (e == NobodyLeft <==> o.Done? && o.s.active == [])
        && (e.FoldWin? <==> o.Done? && |o.s.active| == 1)
        && (e.FoldWin? ==> [e.winner] == o.s.active)
        && (e.ShowdownWin? <==> o.Done? && |o.s.active| >= 2)
        && (e.ShowdownWin? ==> e.winner in o.s.active && ShowdownWinner(HandsOf(players), o.s.active, e.winner))
      ensures e.FoldWin? || e.ShowdownWin? ==>
        && e.winner < |players|
        && StacksOf(players) == Credited(o.s.stacks, e.winner, o.s.pot)
        && pot == 0 && dealerIdx == NextDealer(old(dealerIdx), |players|)
      ensures !(e.FoldWin? || e.ShowdownWin?) ==>
        StacksOf(players) == o.s.stacks && pot == o.s.pot && dealerIdx == old(dealerIdx)
    {
      match o
      case Raised(err, _) =>
        e := Aborted(err);
      case Exhausted(_) =>
        e := OutOfDecisions;
      case Done(s) =>
        e := Settle(s.active, exchanges);
        if e.FoldWin? || e.ShowdownWin? {
          CreditedSum(s.stacks, e.winner, s.pot);
          assert e.FoldWin? ==> e.winner == s.active[0];
          assert e.ShowdownWin? ==> e.winner in s.active;
        }
    }

    /**
     * `play_round`: the opening and the betting round, then the settlement.
     * The old pot is dropped and the old hands are discarded without going
     * back to the deck. With no players the seat arithmetic divides by zero.
     */
    method PlayRound(rolls: seq<nat>, decisions: seq<Decision>, exchanges: seq<seq<int>>)
      returns (e: RoundEnd, ghost betting: Outcome)
      requires Valid() && |rolls| >= |deck.cards|
      requires |deck.cards| >= 5 * |players| && |exchanges| >= |players|
      modifies this`pot, this`dealerIdx, players`stack, players`hand, deck`cards
      ensures |players| == 0 ==> e == NoPlayers && unchanged(this, deck) && unchanged(players)
      ensures |players| > 0 ==>
        var b := Blinds(old(StacksOf(players)), old(dealerIdx), smallBlind, bigBlind);
        var opening := OpeningOf(old(StacksOf(players)), b);
        Wf(opening) && betting == Run(opening, (b.bbSeat + 1) % |players|, decisions)
      ensures |players| > 0 ==>
        var dealt := Dealt(Table(ShuffleFrom(old(deck.cards), rolls, |old(deck.cards)|), seq(|players|, q => [])));
        && (!e.ShowdownWin? ==> Table(deck.cards, HandsOf(players)) == dealt)
        && (e.ShowdownWin? ==>
              Seating(betting.s.active, |players|) &&
              Table(deck.cards, HandsOf(players)) == Draws(dealt, betting.s.active, exchanges))
      ensures |players| > 0 ==>
        && Sum(StacksOf(players)) + pot == old(Sum(StacksOf(players)))
        && |deck.cards| == old(|deck.cards|) - 5 * |players|
        && FiveEach(HandsOf(players))
        && TableMultiset(Table(deck.cards, HandsOf(players))) == old(multiset(deck.cards))
      ensures |players| > 0 ==>
        && (e.Aborted? <==> betting.Raised?) && (e.Aborted? ==> e.error == betting.error)
        && (e == OutOfDecisions <==> betting.Exhausted?)
        && (e == NobodyLeft <==> betting.Done? && betting.s.active == [])
        && (e.FoldWin? <==> betting.Done? && |betting.s.active| == 1)
        && (e.FoldWin? ==> [e.winner] == betting.s.active)
        && (e.ShowdownWin? <==> betting.Done? && |betting.s.active| >= 2)
        && (e.ShowdownWin? ==> e.winner in betting.s.active && ShowdownWinner(HandsOf(players), betting.s.active, e.winner))
      ensures |players| > 0 && (e.FoldWin? || e.ShowdownWin?) ==>
        && e.winner < |players| && |betting.s.stacks| == |players|
        && StacksOf(players) == Credited(betting.s.stacks, e.winner, betting.s.pot)
        && pot == 0 && dealerIdx == NextDealer(old(dealerIdx), |players|)
      ensures |players| > 0 && !(e.FoldWin? || e.ShowdownWin?) ==>
        StacksOf(players) == betting.s.stacks && pot == betting.s.pot && dealerIdx == old(dealerIdx)
    {
      var n := |players|;
      if n == 0 {
        return NoPlayers, Exhausted(BetState([], [], [], 0, 0, {}));
      }
      ghost var stacks := StacksOf(players);
      var b, o := Open(rolls, decisions);
      betting := o;
      ghost var opening := OpeningOf(stacks, b);
      RunEnds(opening, (b.bbSeat + 1) % n, decisions);
      RunConserves(opening, (b.bbSeat + 1) % n, decisions);
      BlindsConserve(stacks, b);
      e := Conclude(o, exchanges);
    }
  }

  /** Every hand holds five cards, as `hand_rank` needs. */
  predicate FiveEach(hands: seq<seq<Card>>)
  {
    forall q :: 0 <= q < |hands| ==> |hands[q]| == 5
  }

  /** `(self.dealer_idx + 1) % len(self.players)`: the button moves one seat on. */
  function NextDealer(dealer: int, n: nat): (d: int)
    requires n > 0
    ensures 0 <= d < n
  {
    (dealer + 1) % n
  }

  /** The seats and amounts of the blinds. */
  datatype Posting = Posting(sbSeat: nat, bbSeat: nat, sbAmt: int, bbAmt: int)

  /** `sb_idx`, `bb_idx` and the blinds clamped by `min(blind, stack)`. */
  function Blinds(stacks: seq<int>, dealer: int, small: int, big: int): (b: Posting)
    requires |stacks| > 0
    ensures b.sbSeat < |stacks| && b.bbSeat < |stacks|
  {
    var n := |stacks|;
    var sb := (dealer + 1) % n;
    var bb := (dealer + 2) % n;
    Posting(sb, bb, Min(small, stacks[sb]), Min(big, stacks[bb]))
  }

  /** The stacks once the small blind and then the big blind are paid (one seat pays both when alone). */
  function AfterBlinds(stacks: seq<int>, b: Posting): seq<int>
    requires b.sbSeat < |stacks| && b.bbSeat < |stacks|
  {
    Paid(Paid(stacks, b.sbSeat, b.sbAmt), b.bbSeat, b.bbAmt)
  }

  /** The betting state after the blinds: the pot holds just the blinds, the bet is the big blind. */
  function OpeningOf(stacks: seq<int>, b: Posting): BetState
    requires b.sbSeat < |stacks| && b.bbSeat < |stacks|
  {
    Opening(AfterBlinds(stacks, b), b.sbAmt + b.bbAmt, b.sbSeat, b.sbAmt, b.bbSeat, b.bbAmt)
  }

  /**
   * The blind seats follow the dealer, a blind never exceeds the stack it is
   * taken from, so the `InsufficientFundsError` test can never hold, and a
   * blind is only reduced for a stack shorter than it.
   */
  lemma BlindsAffordable(stacks: seq<int>, dealer: int, small: int, big: int)
    requires |stacks| > 0
    ensures var b := Blinds(stacks, dealer, small, big);
      && b.sbSeat == (dealer + 1) % |stacks| && b.bbSeat == (dealer + 2) % |stacks|
      && !(stacks[b.sbSeat] < b.sbAmt || stacks[b.bbSeat] < b.bbAmt)
      && (b.sbAmt == small <==> small <= stacks[b.sbSeat])
      && (b.bbAmt == big <==> big <= stacks[b.bbSeat])
  {
  }

  /** Posting the blinds moves exactly their total from the stacks. */
  lemma BlindsConserve(stacks: seq<int>, b: Posting)
    requires b.sbSeat < |stacks| && b.bbSeat < |stacks|
    ensures Sum(AfterBlinds(stacks, b)) + b.sbAmt + b.bbAmt == Sum(stacks)
  {
    PaidSum(stacks, b.sbSeat, b.sbAmt);
    PaidSum(Paid(stacks, b.sbSeat, b.sbAmt), b.bbSeat, b.bbAmt);
  }

  /** `w` is the seat `max(active, key=hand_rank)` picks. */
  predicate ShowdownWinner(hands: seq<seq<Card>>, seats: seq<nat>, w: nat)
  {
    && seats != []
    && (forall k :: 0 <= k < |seats| ==> seats[k] < |hands| && |hands[seats[k]]| == 5)
    && w == seats[BestIndex(Strengths(hands, seats))]
  }

  /** The locals of `_betting_round`: who is in, the contributions, the bet and who has acted since the last raise. */
  datatype Round = Round(active: seq<nat>, contrib: seq<int>, bet: int, seen: set<nat>)
}
