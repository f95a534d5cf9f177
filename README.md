# Five-card draw round engine, modelled in Dafny

This project models the core of a small five-card draw poker game. It covers three parts.

- `GameEngine` does the following:
  - plays one round: shuffle, blinds, deal, one betting round, then either a win by folds or a draw-and-showdown;
  - drives the betting loop (`_betting_round`) and the card exchange (`exchange_cards`);
  - ranks hands with the pure classifier `hand_rank` and names them through the `HAND_RANKINGS` table.
- `Deck` builds the 52-card deck, shuffles it in place, and deals five round-robin passes.
- `Player` holds the chip stack and hand that the engine mutates directly.

## Files and modules

| File | Module | What it holds |
|---|---|---|
| `wrappers.dfy` | `Wrappers` | `Option` and `Result`. |
| `cards.dfy` | `Cards` | Cards as values (rank 2..14, suit). |
| `seqs.dfy` | `Seqs` | Sums, descending order, `sorted(..., reverse=True)`, the list filters `hand_rank` uses. |
| `hand_rank.dfy` | `HandEval` | `hand_rank`, `Counter.most_common`. See below. |
| `showdown.dfy` | `Showdown` | Python's tuple order on strengths, the first maximum that `max` picks, `HAND_RANKINGS`. |
| `players.dfy` | `Players` | The `Player` class: mutable `stack` and `hand`; constant `name` and `isBot`. |
| `decks.dfy` | `Decks` | The `Deck` class. Its shuffle and deal are specified by functions on a `Table` (deck plus hands) value. |
| `betting.dfy` | `Betting` | The betting round as a state machine on a `BetState` value (seat numbers, contributions, stacks, pot, bet, seen set). |
| `exchange.dfy` | `CardExchange` | `exchange_cards` as a function on the hand and the deck, with its lemmas, including the no-rollback behaviour. |
| `engine.dfy` | `Engine` | The `GameEngine` class. See below. |

**`HandEval` in detail.** `hand_rank` is modelled in the order the code works:
- the ranks sorted descending;
- the flush test;
- the straight test on `sorted(set(ranks))`;
- `most_common()`, with ties in first-occurrence order, which means higher value first;
- the nine-way category chain.

Each category is also stated directly on the multiset of ranks.

**`Engine` in detail.** The imperative methods of `GameEngine` each state their new state against the specification functions above:
- `PlayRound`, split into `Open` and `Conclude`;
- `BettingRound` and `Turn`;
- `ExchangeCards` and `DrawPhase`;
- `PostBlinds`, `Showdown` and `Settle`.

**Inputs that stand in for randomness and the console.** Stated once here:
- **Shuffle:** `random.shuffle` is a list of draws (`rolls`). Position `i - 1` is swapped with `rolls[i - 1] % i`, as CPython's Fisher–Yates walk does.
- **Betting decisions:** the human's typed command and the bots' random choices are a script of `Decision` values. The script also bounds the betting loop: otherwise the loop need not terminate.
- **Exchange indices:** the indices each seat asks to exchange are a list per seat.

**Player identity.** Players are identified by seat number. `GameEngine.Valid()` asks that no `Player` object sits at two seats.

## Model

| member | source | states |
|---|---|---|
| HandEval.HandRank | src/game_engine.py:20-51 | `hand_rank` of five cards: a category between 1 and 9; what each category and tie-break list is, on the ranks of the hand, is stated by FourOfAKind, FullHouse, ThreeOfAKind, TwoPair, OnePair, NoPair, Straight, Wheel and FiveOfAKind |
| HandEval.Categorize | src/game_engine.py:30-51 | the first-match category chain always yields a category between 1 and 9 |
| HandEval.CountFacts | src/game_engine.py:28-49 | for five ranks, sorting the counts of `most_common()` changes nothing, and every `counts[i]`, `cnt[i]` and `[...][0]` in the chain finds an element |
| HandEval.MostCommon | src/game_engine.py:28 | `Counter(ranks).most_common()` has one entry per distinct rank; MostCommonOrdered and MostCommonMembers give its order and contents |
| HandEval.MostCommonOrdered | src/game_engine.py:28 | `most_common()` lists counts descending and equal counts by descending value (first occurrence in the descending ranks) |
| HandEval.MostCommonMembers | src/game_engine.py:28 | each entry of `most_common()` is a rank of the hand with its multiplicity, and each rank appears in it |
| HandEval.DedupStrict | src/game_engine.py:24 | the distinct ranks come out strictly ordered |
| HandEval.DedupMember | src/game_engine.py:24 | every distinct rank listed is a rank of the hand |
| HandEval.DedupCovers | src/game_engine.py:24 | every rank of the hand is listed among the distinct ranks |
| HandEval.FourOfAKind | src/game_engine.py:31-34 | ranks {v,v,v,v,k} rank as (8, [v, k]) whatever the suits |
| HandEval.FullHouse | src/game_engine.py:35-36 | ranks {t,t,t,p,p} rank as (7, [t, p]) whatever the suits |
| HandEval.ThreeOfAKind | src/game_engine.py:37-42 | ranks {t,t,t,x,y} with x > y rank as (4, [t, x, y]), or as a flush (6, ranks descending) |
| HandEval.TwoPair | src/game_engine.py:37-46 | ranks {p,p,q,q,k} with p > q rank as (3, [p, q, k]), or as a flush |
| HandEval.OnePair | src/game_engine.py:37-50 | ranks {p,p,x,y,z} with x > y > z rank as (2, [p, x, y, z]), or as a flush |
| HandEval.NoPair | src/game_engine.py:23-51 | five distinct ranks that are no straight rank as (6, ranks descending) for a flush, (1, ranks descending) otherwise |
| HandEval.Straight | src/game_engine.py:26-38 | five consecutive ranks with top h rank as (9, [h]) for a flush, (5, [h]) otherwise |
| HandEval.Wheel | src/game_engine.py:25-38 | A-2-3-4-5 is a straight with high card 5: (9, [5]) or (5, [5]) |
| HandEval.FiveOfAKind | src/game_engine.py:28-51 | five equal ranks (a repeated card) pass no count test, so they rank as a flush (6) or a high card (1) |
| Seqs.SortDescMultiset | src/game_engine.py:22 | `sorted(..., reverse=True)` keeps exactly the elements it was given |
| Seqs.SortDescDesc | src/game_engine.py:22 | `sorted(..., reverse=True)` returns a descending list |
| Seqs.SortedUnique | src/game_engine.py:22 | two descending lists with the same elements are equal, so the sorted ranks are fixed by the hand's ranks |
| Showdown.BestIndex | src/game_engine.py:151 | the position `max` picks lies in the list; BestIndexIsFirstMax states that it is the first maximum |
| Showdown.StrengthLessIrreflexive | src/game_engine.py:151 | no strength is below itself under Python's tuple order |
| Showdown.StrengthLessTransitive | src/game_engine.py:151 | Python's tuple order on `(category, tiebreak)` is transitive |
| Showdown.StrengthLessTotal | src/game_engine.py:151 | any two different strengths are ordered one way or the other |
| Showdown.BestIndexIsFirstMax | src/game_engine.py:151 | the hand `max(active, key=hand_rank)` picks is beaten by no other, and every earlier hand is strictly below it |
| Showdown.HandRankNamed | src/game_engine.py:55-65 | every category `hand_rank` returns for five cards has a name in `HAND_RANKINGS`, so the lookups at the showdown never fail |
| CardExchange.Exchange | src/game_engine.py:204-212 | the loop of `exchange_cards` keeps the lengths of hand and deck, and an empty index list changes nothing; the lemmas below give its raising, conservation, draws, discards and no rollback |
| CardExchange.ExchangeLengths | src/game_engine.py:204-212 | the hand and the deck keep their lengths, whether or not the call raises |
| CardExchange.ExchangeRaises | src/game_engine.py:205-209 | the call raises exactly when some listed index is outside the hand, or there is something to exchange and the deck is empty |
| CardExchange.ExchangeStopsAt | src/game_engine.py:205-207 | when the call raises at the k-th index, hand and deck are those after the first k exchanges: nothing is rolled back |
| CardExchange.ExchangeConserves | src/game_engine.py:208-211 | the multiset of hand plus deck is unchanged |
| CardExchange.ExchangeUntouched | src/game_engine.py:205-211 | positions not listed keep their cards |
| CardExchange.ExchangeDraws | src/game_engine.py:209-210 | with distinct valid indices no more than the deck holds, the call succeeds and the k-th listed position receives the card k places from the end of the original deck, never a discard |
| CardExchange.ExchangeDiscards | src/game_engine.py:209-211 | under the same condition the discards sit at the front of the deck, the last one first, followed by the undrawn deck in its order |
| CardExchange.ExchangeThen | src/game_engine.py:205-212 | running two index lists one after the other is running their concatenation, stopping at the first exception |
| Engine.GameEngine.ExchangeCards | src/game_engine.py:204-212 | the hand and the deck end as `Exchange` says, it returns an error exactly when that raises, and on success it returns the mutated hand itself |
| Betting.Command | src/game_engine.py:179-198 | an empty command is the only one that fails on `cmd[0]`, and a raise is read only from exactly two words whose second is all digits |
| Betting.RaiseParses | src/game_engine.py:172-190 | a `raise X` printed with `str(X)` is read back as a raise of exactly X, and an argument holding a non-digit is no raise |
| Betting.ShowDigits | src/game_engine.py:172 | the `raise` amount a bot formats with `str` passes `isdigit` and reads back as the same number |
| Betting.Act | src/game_engine.py:163-198 | one action keeps a contribution and a stack per seat and never lowers the bet; only an empty or unknown command, a check or a call can be refused (ActRefused says exactly when) |
| Betting.ActRefused | src/game_engine.py:180-198 | an action is refused exactly for an empty command, an unknown one, a check with something to call and a call with nothing to call |
| Betting.ActPays | src/game_engine.py:182-195 | a call pays `min(to_call, stack)`; a raise pays `to_call + X` with no stack check and lifts the bet by X; fold and check pay nothing; the seat's contribution and the pot rise by what is paid; other seats are untouched |
| Betting.ActConserves | src/game_engine.py:184-194 | each seat keeps stack plus contribution, the pot minus all contributions is kept, and so is the total of stacks plus pot |
| Betting.ActSeating | src/game_engine.py:180-199 | only a fold changes who is in, removing exactly the folding seat in seating order; a raise resets `seen` to the raiser, any other action adds the actor |
| Betting.RemoveSeating | src/game_engine.py:181 | `active.remove(player)` takes out exactly that seat and keeps seating order |
| Betting.NextActiveIs | src/game_engine.py:162-164 | the turn always falls to an active seat, and an active seat at the current index acts itself |
| Betting.SkipFolded | src/game_engine.py:163-202 | stepping past a folded seat, wrapping modulo the player count, does not change whose turn it is and shortens the walk |
| Betting.Run | src/game_engine.py:158-202 | the betting loop, bounded by the script, keeps one contribution and one stack per seat and never lowers the bet; RunEnds and RunConserves give how it ends and that chips are conserved |
| Betting.RunTurn | src/game_engine.py:163-202 | one turn: a refused action ends the round with the state unchanged; otherwise the round returns if the exit test holds and continues from the next seat if not |
| Betting.RunEnds | src/game_engine.py:199-201 | the round returns only when the exit test holds; the survivors are a subsequence of the seats in seating order; nobody is left only when a lone player folds |
| Betting.RunConserves | src/game_engine.py:158-202 | however the round ends, each seat keeps stack plus contribution and the total of stacks plus pot is kept |
| Betting.BotRefused | src/game_engine.py:168-172 | a bot's action is refused exactly when it picks `check` while it has put in more than the bet |
| Betting.HeadsUpCallCheck | src/game_engine.py:158-202 | heads-up at 25/50: a call then a check ends the round at 50 each, with a pot of 100 |
| Betting.HeadsUpFold | src/game_engine.py:180-201 | heads-up: a fold on the first action leaves the other player alone with the blinds in the pot |
| Betting.HeadsUpRaiseReopens | src/game_engine.py:189-200 | after a call and a raise of 10, the earlier call no longer closes the round |
| Betting.HeadsUpRaiseCalled | src/game_engine.py:184-201 | calling that raise closes the round at 60 each, with a pot of 120 |
| Betting.PaidSum | src/game_engine.py:94-96 | a payment takes exactly its amount off the total of the stacks |
| Betting.CreditedSum | src/game_engine.py:154-155 | awarding the pot adds exactly its amount to the total of the stacks |
| Engine.GameEngine.constructor | src/game_engine.py:67-74 | the engine keeps the players, deck and blinds it is given, with an empty pot and the dealer at seat 0 |
| Engine.GameEngine.Pay | src/game_engine.py:186-188 | a payment lowers the seat's stack and raises the pot by the same amount |
| Engine.GameEngine.Turn | src/game_engine.py:165-198 | one action in place: the stacks and pot change as `Act` says, and a refused action changes nothing |
| Engine.GameEngine.BettingRound | src/game_engine.py:158-202 | the loop over seats ends exactly as `Run` does from the same start, and leaves the stacks and pot of its final state |
| Engine.GameEngine.ClearHands | src/game_engine.py:84-85 | every hand is emptied |
| Engine.Blinds | src/game_engine.py:78-91 | both blind seats are seats of the table |
| Engine.BlindsAffordable | src/game_engine.py:78-93 | the blind seats are dealer+1 and dealer+2 mod n; a blind never exceeds its stack, so the `InsufficientFundsError` test never holds; a blind is reduced only for a stack shorter than it |
| Engine.BlindsConserve | src/game_engine.py:94-96 | posting the blinds takes exactly their total off the stacks |
| Engine.GameEngine.PostBlinds | src/game_engine.py:87-96 | the stacks are those after the clamped blinds are paid, and the pot rises by both blinds |
| Engine.GameEngine.Setup | src/game_engine.py:81-99 | shuffle, cleared hands, blinds and deal: the new deck and hands are the deal of the shuffled deck into empty hands |
| Decks.FreshDeal | src/game_engine.py:82-99 | a shuffled deck dealt into n empty hands with at least 5n cards gives each hand five cards, takes 5n cards off the deck and keeps every card of the deck as it was |
| Engine.GameEngine.Open | src/game_engine.py:76-109 | blinds, deal and betting from the seat after the big blind, with the blinds as the only contributions and the big blind as the bet; the table is then exactly the deal of the shuffled deck into empty hands |
| Engine.Draws | src/game_engine.py:121-136 | the draw over the survivors keeps one hand per seat; DrawsConserve states it loses no card and keeps every size |
| Engine.DrawsConserve | src/game_engine.py:121-136 | the whole draw neither creates nor loses a card, and no hand or deck changes size |
| Engine.GameEngine.DrawPhase | src/game_engine.py:121-136 | each survivor in turn exchanges its indices on its own hand and the shared deck; a failed exchange keeps its partial effect and the stacks do not change |
| Engine.GameEngine.Showdown | src/game_engine.py:120-151 | after the draw every hand still holds five cards, the deck keeps its size, no card is created or lost across the hands and the deck, and the winner is the first best hand among the survivors |
| Engine.GameEngine.Award | src/game_engine.py:154-155 | the winner's stack rises by the whole pot and the pot is emptied |
| Engine.NextDealer | src/game_engine.py:116 | the dealer moves to a seat in range |
| Engine.GameEngine.Settle | src/game_engine.py:111-156 | a lone survivor takes the pot and the hands and deck stay as they were; two or more draw and the first best hand takes it; both move the dealer on; nobody left pays nothing and changes nothing |
| Engine.GameEngine.Conclude | src/game_engine.py:109-156 | the outcome of the betting decides the end of the round: an exception propagates, the end of the script stops it, a survivor or the showdown winner takes the pot; only a showdown runs the draw, otherwise hands and deck are untouched; chips are conserved |
| Engine.GameEngine.PlayRound | src/game_engine.py:76-156 | no players means ZeroDivisionError; otherwise the new stacks plus pot equal the old stacks (any pot left from before the round is dropped), the deck shrinks by 5n, every hand holds five cards, no card is lost, the table is the deal of the shuffled deck (followed by the draw only on a showdown), and each way the round ends is matched to the betting outcome, with the pot to the winner and the dealer moved on |
| Decks.FullDeck | src/Deck.py:9-11 | the unshuffled deck has 52 cards; FullDeckLayout, FullDeckComplete and FullDeckDistinct give its order, completeness and distinctness |
| Decks.FullDeckLayout | src/Deck.py:9-11 | position 13k + r - 2 of the new deck holds rank r of the k-th suit in the order s, h, d, c |
| Decks.FullDeckComplete | src/Deck.py:9-11 | every card is in the new deck |
| Decks.FullDeckDistinct | src/Deck.py:9-11 | no card occurs twice in the new deck |
| Decks.Deck.constructor | src/Deck.py:7-11 | a new deck is the full 52-card deck in construction order |
| Decks.ShuffleFrom | src/Deck.py:17-19 | the Fisher–Yates walk keeps the length and never touches the positions it has already passed; ShufflePermutes states it is a permutation |
| Decks.SwapPermutes | src/Deck.py:17-19 | one exchange of two positions is a permutation |
| Decks.ShufflePermutes | src/Deck.py:17-19 | shuffling is a permutation, whatever the draws |
| Decks.Deck.Shuffle | src/Deck.py:17-19 | the in-place shuffle leaves the cards as the shuffle function of the draws says |
| Decks.GiveConserves | src/Deck.py:25-26 | one pop-and-take moves a card from the deck to a hand, losing or duplicating nothing |
| Decks.PassPrefixSizes | src/Deck.py:24-26 | part of a pass takes the last cards off the deck and, while they last, gives one to each seat visited |
| Decks.PassesSizes | src/Deck.py:23-26 | k passes take the last min(k*n, size) cards off the deck; with enough cards each seat gains k |
| Decks.PassesConserve | src/Deck.py:23-26 | dealing keeps the multiset of deck plus hands |
| Decks.DealtSizes | src/Deck.py:23-26 | with at least 5n cards each seat receives exactly five and the deck shrinks by exactly 5n |
| Decks.DealtDeckShrinks | src/Deck.py:23-26 | a short deck runs out silently: the deck shrinks by min(5n, its size) |
| Decks.DealtNoDuplicates | src/Deck.py:23-26 | a deck of distinct cards dealt to empty hands leaves no card in two places |
| Decks.Dealt | src/Deck.py:23-26 | the five passes keep one hand per player; DealtSizes, DealtDeckShrinks and PassesConserve give the sizes and conservation |
| Decks.Deck.Deal | src/Deck.py:21-26 | the nested loop leaves deck and hands exactly as the five passes say |
| Players.Player.constructor | src/player.py:3-7 | a new player holds the given money, name and bot flag and an empty hand |
| Players.Player.TakeCard | src/player.py:9-10 | the card is appended at the end of the hand |
| Players.Player.GetStackAmount | src/player.py:12-13 | returns the stack and changes nothing |
| Players.PyIndex | src/player.py:17-18 | a Python list index resolves exactly when it lies in [-len, len), counting negative indices from the end |
| Players.Player.ChangeCard | src/player.py:15-20 | with an index that resolves, stores the card there and returns the card it replaces, the rest of the hand unchanged; otherwise IndexError and nothing changes |
| Players.Player.GetPlayerHand | src/player.py:22-23 | returns the hand's cards in order and changes nothing |

## Left out

- Randomness. Three things are inputs to the model:
  - `random.shuffle` is a list of draws;
  - the bots' `random.choice` and `random.randint` are the decision script;
  - the bots' `random.sample` is the per-seat exchange list.
- Console I/O. Every `print` is left out, as are `input`, `cards_to_str`, `Card.__str__` and `Deck.__str__`. A human's typed command is the `Decision` it parses to: `Command` models the parse from split words.
- `.strip().lower()` and the `split` of the typed line are not modelled.
- `str.isdigit` is modelled for ASCII digits only. Python also accepts other Unicode digits. `int` reads some of those and raises on others.
- The text-to-index parse of the human exchange line is not modelled. The per-seat index lists are arbitrary integers, which covers every list the parse can produce. A `ValueError` from `int()` on a non-numeric word escapes `play_round`, because the parse runs before the `try`; it is not modelled.
- `src/main.py`, the prompt-driven multi-round loop, is not part of this model.
- Engine.GameEngine.BettingRound: the loop need not terminate, so it is bounded by the decision script; running out of script is the outcome `Exhausted`.
- Engine.GameEngine.PlayRound: `hand_rank` is modelled for five-card hands only. PlayRound therefore requires at least five cards per player in the deck.
  - The code never returns cards to the deck: hands are emptied, not collected. So the deck shrinks by 5n every round, and a later round with a short deck would rank hands of fewer than five cards.
  - PlayRound also requires one exchange list per seat, even though only active seats use theirs.
- Engine.GameEngine.Settle: when the only player folds, `max` of an empty list raises `ValueError`. This is the outcome `NobodyLeft`, with the pot not paid out and the dealer not moved.
- Engine.GameEngine.Valid: the model assumes distinct `Player` objects at distinct seats. Python would allow one object to sit twice, and the contributions dictionary would then merge them.
- `exchange_cards` is not all-or-nothing: replacements made before an `IndexError` stay in hand and deck (see `CardExchange.ExchangeStopsAt`).
- `InsufficientFundsError` is never raised, because both blinds are clamped to the stack before the test (see `Engine.BlindsAffordable`).
- A raise can drive a stack negative: it pays `to_call + X` with no check against the stack (see `Betting.ActPays`).
