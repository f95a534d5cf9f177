/**
 * The betting round as a state machine over seat numbers: who is still in
 * (`active`, in seating order), what each seat has put in this round
 * (`contrib`), the stacks, the pot, the bet to match and the seats that have
 * acted since the last raise. Decisions come from a script in place of the
 * console prompt and the bots' random choices.
 */
module Betting {
  import opened Wrappers
  import opened Seqs

  /** A betting command as the first word (and the amount) of `action.split()` decide it. */
  datatype Decision = Fold | Check | Call | Raise(amount: nat) | Unrecognised | Blank

  /**
   * `InvalidActionError`, or the `IndexError` that `cmd[0]` raises on an
   * empty command.
   */
  datatype BetError = InvalidAction | EmptyCommand

  predicate IsDigit(c: char)
  {
    '0' <= c <= '9'
  }

  function DigitOf(c: char): (v: nat)
    requires IsDigit(c)
    ensures v < 10
  {
    (c as int - '0' as int) as nat
  }

  /** `str.isdigit` on ASCII text: non-empty and all decimal digits. */
  predicate IsDigits(w: string)
  {
    w != [] && forall k :: 0 <= k < |w| ==> IsDigit(w[k])
  }

  /** `int(w)` for a string of decimal digits. */
  function DigitsValue(w: string): nat
    requires forall k :: 0 <= k < |w| ==> IsDigit(w[k])
  {
    if w == [] then 0
    else DigitsValue(w[..|w| - 1]) * 10 + DigitOf(w[|w| - 1])
  }

  /** `str(n)`: the decimal digits of `n`. */
  function Show(n: nat): string
  {
    if n < 10 then ['0' + n as char]
    else Show(n / 10) + ['0' + (n % 10) as char]
  }

  /** Printing a number and reading it back gives the number. */
  lemma {:induction false} ShowDigits(n: nat)
    ensures IsDigits(Show(n)) && DigitsValue(Show(n)) == n
  {
    if n >= 10 {
      ShowDigits(n / 10);
      var w := Show(n);
      assert w[..|w| - 1] == Show(n / 10);
    }
  }

  /** How the `if`/`elif` chain reads a command split into words. */
  function Command(words: seq<string>): (d: Decision)
    ensures d == Blank <==> words == []
    ensures d.Raise? ==> |words| == 2 && words[0] == "raise" && IsDigits(words[1])
  {
    if words == [] then Blank
    else if words[0] == "fold" then Fold
    else if words[0] == "check" then Check
    else if words[0] == "call" then Call
    else if words[0] == "raise" && |words| == 2 && IsDigits(words[1]) then Raise(DigitsValue(words[1]))
    else Unrecognised
  }

  /**
   * `raise X` with X printed by `str` is read back as a raise of exactly X,
   * and an argument holding a non-digit is not a raise at all.
   */
  lemma RaiseParses(n: nat, w: string)
    ensures Command(["raise", Show(n)]) == Raise(n)
    ensures (exists k :: 0 <= k < |w| && !IsDigit(w[k])) ==> Command(["raise", w]) == Unrecognised
  {
    ShowDigits(n);
  }

  datatype BetState = BetState(active: seq<nat>, contrib: seq<int>, stacks: seq<int>,
                               pot: int, bet: int, seen: set<nat>)

  /** Seats listed in seating order, each below `n`. */
  predicate Seating(active: seq<nat>, n: nat)
  {
    (forall k :: 0 <= k < |active| ==> active[k] < n) &&
    (forall a, b :: 0 <= a < b < |active| ==> active[a] < active[b])
  }

  /** `list(self.players)` as seats. */
  function AllSeats(n: nat): (r: seq<nat>)
    ensures |r| == n && Seating(r, n)
    ensures forall k :: 0 <= k < n ==> r[k] == k
  {
    seq(n, k => k)
  }

  /** The shape the loop keeps: one entry per seat, someone still in, active in seating order. */
  predicate Wf(s: BetState)
  {
    |s.stacks| == |s.contrib| && s.active != [] && Seating(s.active, |s.contrib|)
  }

  /** `list.remove`: drops the first occurrence. */
  function Remove(s: seq<nat>, x: nat): seq<nat>
  {
    if s == [] then []
    else if s[0] == x then s[1..]
    else [s[0]] + Remove(s[1..], x)
  }

  /** Removing a listed seat keeps seating order and takes exactly that one seat out. */
  lemma {:induction false} RemoveSeating(s: seq<nat>, x: nat, n: nat)
    requires Seating(s, n) && x in s
    ensures Seating(Remove(s, x), n) && |Remove(s, x)| == |s| - 1
    ensures forall y :: y in Remove(s, x) <==> y in s && y != x
  {
    if s[0] != x {
      assert Seating(s[1..], n) by {
        forall a, b | 0 <= a < b < |s[1..]|
          ensures s[1..][a] < s[1..][b]
        {
          assert s[1..][a] == s[a + 1] && s[1..][b] == s[b + 1];
        }
      }
      RemoveSeating(s[1..], x, n);
      var r := Remove(s[1..], x);
      forall b | 0 <= b < |r|
        ensures s[0] < r[b]
      {
        assert r[b] in s[1..];
      }
    } else {
      forall y | y in s[1..]
        ensures y != x
      {
        var b :| 0 < b < |s| && s[b] == y;
      }
    }
  }

  /** Moves `amt` from the seat's stack into its contribution and into the pot. */
  function Pay(s: BetState, seat: nat, amt: int): BetState
    requires seat < |s.contrib| && seat < |s.stacks|
  {
    s.(stacks := s.stacks[seat := s.stacks[seat] - amt],
       contrib := s.contrib[seat := s.contrib[seat] + amt],
       pot := s.pot + amt)
  }

  /** One action of the seat whose turn it is; an error leaves the state as it was. */
  function Act(s: BetState, seat: nat, d: Decision): (r: Result<BetState, BetError>)
    requires seat < |s.contrib| && seat < |s.stacks|
    ensures r.Ok? ==> |r.value.contrib| == |s.contrib| && |r.value.stacks| == |s.stacks| && r.value.bet >= s.bet
    ensures r.Err? ==> d.Blank? || d.Unrecognised? || d.Check? || d.Call?
  {
    var toCall := s.bet - s.contrib[seat];
    match d
    case Fold => Ok(s.(active := Remove(s.active, seat), seen := s.seen + {seat}))
    case Check =>
      if toCall == 0 then Ok(s.(seen := s.seen + {seat})) else Err(InvalidAction)
    case Call =>
      if toCall > 0 then Ok(Pay(s, seat, Min(toCall, s.stacks[seat])).(seen := s.seen + {seat}))
      else Err(InvalidAction)
    case Raise(x) => Ok(Pay(s, seat, toCall + x).(bet := s.bet + x, seen := {seat}))
    case Unrecognised => Err(InvalidAction)
    case Blank => Err(EmptyCommand)
  }

  /** The exit test after an action. */
  predicate Finished(s: BetState)
    requires Seating(s.active, |s.contrib|)
  {
    |s.active| <= 1 ||
    ((forall k :: 0 <= k < |s.active| ==> s.contrib[s.active[k]] == s.bet) &&
     (forall k :: 0 <= k < |s.active| ==> s.active[k] in s.seen))
  }

  /**
   * An action is refused exactly for an empty command, an unknown one, a
   * check with something to call and a call with nothing to call.
   */
  lemma ActRefused(s: BetState, seat: nat, d: Decision)
    requires seat < |s.contrib| && seat < |s.stacks|
    ensures var toCall := s.bet - s.contrib[seat];
      Act(s, seat, d).Err? <==>
        d.Blank? || d.Unrecognised? || (d.Check? && toCall != 0) || (d.Call? && toCall <= 0)
    ensures Act(s, seat, d) == Err(EmptyCommand) <==> d.Blank?
  {
  }

  /** `call` pays `min(to_call, stack)`; `raise X` pays `to_call + X`, whatever the stack, and lifts the bet by X. */
  lemma ActPays(s: BetState, seat: nat, d: Decision)
    requires seat < |s.contrib| && |s.stacks| == |s.contrib| && Act(s, seat, d).Ok?
    ensures var t := Act(s, seat, d).value;
      var toCall := s.bet - s.contrib[seat];
      var paid := s.stacks[seat] - t.stacks[seat];
      && |t.stacks| == |s.stacks| && |t.contrib| == |s.contrib|
      && (d.Call? ==> paid == Min(toCall, s.stacks[seat]) && t.bet == s.bet)
      && (d.Raise? ==> paid == toCall + d.amount && t.bet == s.bet + d.amount && t.seen == {seat})
      && (d.Fold? || d.Check? ==> paid == 0 && t.bet == s.bet && t.pot == s.pot)
      && t.contrib[seat] - s.contrib[seat] == paid && t.pot - s.pot == paid
      && (forall p :: 0 <= p < |s.stacks| && p != seat ==> t.stacks[p] == s.stacks[p] && t.contrib[p] == s.contrib[p])
  {
  }

  lemma {:induction false} SumUpdate(s: seq<int>, i: nat, v: int)
    requires i < |s|
    ensures Sum(s[i := v]) == Sum(s) - s[i] + v
  {
    if i > 0 {
      SumUpdate(s[1..], i - 1, v);
      assert s[i := v][1..] == s[1..][i - 1 := v];
    }
  }

  /** The stacks once `seat` has put `amt` into the pot. */
  function Paid(stacks: seq<int>, seat: nat, amt: int): (r: seq<int>)
    requires seat < |stacks|
    ensures |r| == |stacks|
  {
    stacks[seat := stacks[seat] - amt]
  }

  /** A payment takes exactly its amount off the total of the stacks. */
  lemma {:induction false} PaidSum(stacks: seq<int>, seat: nat, amt: int)
    requires seat < |stacks|
    ensures Sum(Paid(stacks, seat, amt)) + amt == Sum(stacks)
  {
    if seat > 0 {
      PaidSum(stacks[1..], seat - 1, amt);
      assert Paid(stacks, seat, amt)[1..] == Paid(stacks[1..], seat - 1, amt);
    }
  }

  /** The stacks once `seat` has taken `amt` from the pot. */
  function Credited(stacks: seq<int>, seat: nat, amt: int): (r: seq<int>)
    requires seat < |stacks|
    ensures |r| == |stacks|
  {
    stacks[seat := stacks[seat] + amt]
  }

  /** Taking the pot adds exactly its amount to the total of the stacks. */
  lemma {:induction false} CreditedSum(stacks: seq<int>, seat: nat, amt: int)
    requires seat < |stacks|
    ensures Sum(Credited(stacks, seat, amt)) == Sum(stacks) + amt
  {
    if seat > 0 {
      CreditedSum(stacks[1..], seat - 1, amt);
      assert Credited(stacks, seat, amt)[1..] == Credited(stacks[1..], seat - 1, amt);
    }
  }

  /**
   * Chips only move between a seat's stack, its contribution and the pot:
   * stack plus contribution of every seat is kept, and so is the pot less
   * all contributions.
   */
  lemma ActConserves(s: BetState, seat: nat, d: Decision)
    requires seat < |s.contrib| && |s.stacks| == |s.contrib| && Act(s, seat, d).Ok?
    ensures var t := Act(s, seat, d).value;
      && |t.stacks| == |t.contrib| == |s.contrib|
      && (forall p :: 0 <= p < |s.stacks| ==> t.stacks[p] + t.contrib[p] == s.stacks[p] + s.contrib[p])
      && t.pot - Sum(t.contrib) == s.pot - Sum(s.contrib)
      && Sum(t.stacks) + t.pot == Sum(s.stacks) + s.pot
  {
    var t := Act(s, seat, d).value;
    if t.pot != s.pot || t.stacks != s.stacks || t.contrib != s.contrib {
      var amt := t.pot - s.pot;
      assert t == Pay(s, seat, amt).(bet := t.bet, seen := t.seen);
      SumUpdate(s.stacks, seat, s.stacks[seat] - amt);
      SumUpdate(s.contrib, seat, s.contrib[seat] + amt);
    }
  }

  /** Only a fold changes who is in: it takes out exactly the folding seat, keeping seating order. */
  lemma ActSeating(s: BetState, seat: nat, d: Decision)
    requires Wf(s) && seat in s.active && Act(s, seat, d).Ok?
    ensures var t := Act(s, seat, d).value;
      && Seating(t.active, |t.contrib|) && |t.contrib| == |s.contrib| && |t.stacks| == |s.stacks|
      && (d.Fold? ==> |t.active| == |s.active| - 1 && forall y :: y in t.active <==> y in s.active && y != seat)
      && (!d.Fold? ==> t.active == s.active)
      && (d.Raise? ==> t.seen == {seat})
      && (!d.Raise? ==> t.seen == s.seen + {seat})
  {
    if d.Fold? {
      RemoveSeating(s.active, seat, |s.contrib|);
    }
  }

  /** The first listed seat at or after `idx`, if any. */
  function After(active: seq<nat>, idx: nat): Option<nat>
  {
    if active == [] then None
    else if active[0] >= idx then Some(active[0])
    else After(active[1..], idx)
  }

  lemma {:induction false} AfterIs(active: seq<nat>, idx: nat)
    ensures After(active, idx).None? <==> forall k :: 0 <= k < |active| ==> active[k] < idx
    ensures After(active, idx).Some? ==> After(active, idx).value in active && After(active, idx).value >= idx
  {
    if active != [] && active[0] < idx {
      AfterIs(active[1..], idx);
      assert forall k :: 1 <= k < |active| ==> active[k] == active[1..][k - 1];
    }
  }

  /** Whose turn it is when the loop stands at `idx`: walking on from `idx`, skipping folded seats, wrapping round. */
  function NextActive(active: seq<nat>, idx: nat): nat
    requires active != []
  {
    match After(active, idx)
    case Some(a) => a
    case None => active[0]
  }

  /** It is always an active seat's turn, and an active seat at `idx` acts itself. */
  lemma NextActiveIs(active: seq<nat>, idx: nat, n: nat)
    requires active != [] && Seating(active, n)
    ensures NextActive(active, idx) in active
    ensures idx in active ==> NextActive(active, idx) == idx
  {
    AfterIs(active, idx);
    if idx in active {
      AfterLeast(active, idx, n);
    }
  }

  /** In seating order the first seat at or after `idx` is the least such seat. */
  lemma {:induction false} AfterLeast(active: seq<nat>, idx: nat, n: nat)
    requires Seating(active, n) && After(active, idx).Some?
    ensures forall k :: 0 <= k < |active| && active[k] >= idx ==> active[k] >= After(active, idx).value
  {
    if active[0] < idx {
      assert Seating(active[1..], n) by {
        forall a, b | 0 <= a < b < |active[1..]|
          ensures active[1..][a] < active[1..][b]
        {
          assert active[1..][a] == active[a + 1] && active[1..][b] == active[b + 1];
        }
      }
      AfterLeast(active[1..], idx, n);
      forall k | 0 <= k < |active| && active[k] >= idx
        ensures active[k] >= After(active, idx).value
      {
        assert k > 0;
        assert active[k] == active[1..][k - 1];
      }
    }
  }

  /** Seats to walk from `idx` before reaching the one whose turn it is. */
  function Gap(active: seq<nat>, idx: nat, n: nat): int
    requires active != []
  {
    var a := NextActive(active, idx);
    if a >= idx then a - idx else a + n - idx
  }

  /** `(idx + 1) % len(self.players)` */
  function Succ(idx: nat, n: nat): (r: nat)
    requires idx < n
    ensures r < n
  {
    (idx + 1) % n
  }

  /**
   * Stepping past a folded seat does not change whose turn it is, and one
   * seat less is left to walk.
   */
  lemma SkipFolded(active: seq<nat>, idx: nat, n: nat)
    requires active != [] && Seating(active, n) && idx < n && idx !in active
    ensures NextActive(active, Succ(idx, n)) == NextActive(active, idx)
    ensures 0 <= Gap(active, Succ(idx, n), n) < Gap(active, idx, n)
  {
    var j := Succ(idx, n);
    assert j == if idx + 1 < n then idx + 1 else 0;
    AfterIs(active, idx);
    AfterIs(active, j);
    if After(active, idx).Some? {
      AfterLeast(active, idx, n);
      var a := After(active, idx).value;
      assert a != idx;
      assert After(active, j).Some?;
      AfterLeast(active, j, n);
      var b := After(active, j).value;
      assert b in active && a <= b;
    } else if j > 0 {
      assert After(active, j).None?;
    } else {
      assert active[0] >= 0;
    }
  }

  /** How a round ends: by the exit test, by an exception, or with the script used up. */
  datatype Outcome = Done(s: BetState) | Raised(error: BetError, s: BetState) | Exhausted(s: BetState)

  /**
   * The loop from seat `idx` on, one scripted decision per turn of an active
   * seat; the script bounds the otherwise unbounded loop.
   */
  function Run(s: BetState, idx: nat, script: seq<Decision>): (o: Outcome)
    requires Wf(s) && idx < |s.contrib|
    decreases |script|
    ensures |o.s.contrib| == |s.contrib| && |o.s.stacks| == |s.stacks| && o.s.bet >= s.bet
  {
    var seat := NextActive(s.active, idx);
    NextActiveIs(s.active, idx, |s.contrib|);
    if script == [] then Exhausted(s)
    else match Act(s, seat, script[0])
      case Err(e) => Raised(e, s)
      case Ok(t) =>
        ActSeating(s, seat, script[0]);
        if Finished(t) then Done(t) else Run(t, Succ(seat, |s.contrib|), script[1..])
  }

  /**
   * The round returns only when the exit test holds, with the survivors in
   * seating order; it returns nobody only when a lone player folds.
   */
  lemma {:induction false} RunEnds(s: BetState, idx: nat, script: seq<Decision>)
    requires Wf(s) && idx < |s.contrib|
    decreases |script|
    ensures var o := Run(s, idx, script);
      && |o.s.stacks| == |o.s.contrib| == |s.contrib| && Seating(o.s.active, |s.contrib|)
      && (o.Done? ==> Finished(o.s) && (|s.active| >= 2 ==> o.s.active != []))
      && (!o.Done? ==> Wf(o.s))
      && (forall y :: y in o.s.active ==> y in s.active)
  {
    var seat := NextActive(s.active, idx);
    NextActiveIs(s.active, idx, |s.contrib|);
    if script != [] && Act(s, seat, script[0]).Ok? {
      var t := Act(s, seat, script[0]).value;
      ActSeating(s, seat, script[0]);
      assert forall y :: y in t.active ==> y in s.active;
      if !Finished(t) {
        RunEnds(t, Succ(seat, |s.contrib|), script[1..]);
      }
    }
  }

  /** Whatever way the round ends, no chip is created or lost. */
  lemma {:induction false} RunConserves(s: BetState, idx: nat, script: seq<Decision>)
    requires Wf(s) && idx < |s.contrib|
    decreases |script|
    ensures var o := Run(s, idx, script);
      && |o.s.stacks| == |o.s.contrib| == |s.contrib|
      && (forall p :: 0 <= p < |s.stacks| ==> o.s.stacks[p] + o.s.contrib[p] == s.stacks[p] + s.contrib[p])
      && o.s.pot - Sum(o.s.contrib) == s.pot - Sum(s.contrib)
      && Sum(o.s.stacks) + o.s.pot == Sum(s.stacks) + s.pot
  {
    var seat := NextActive(s.active, idx);
    NextActiveIs(s.active, idx, |s.contrib|);
    if script != [] && Act(s, seat, script[0]).Ok? {
      var t := Act(s, seat, script[0]).value;
      ActSeating(s, seat, script[0]);
      ActConserves(s, seat, script[0]);
      if !Finished(t) {
        RunConserves(t, Succ(seat, |s.contrib|), script[1..]);
      }
    }
  }

  /**
   * The bots' policy: facing a bet, `call` or `fold`; otherwise `check` or
   * `raise X` with X drawn from 1..20. `first` stands for the first choice.
   */
  function BotWords(toCall: int, first: bool, x: nat): seq<string>
  {
    if toCall > 0 then (if first then ["call"] else ["fold"])
    else if first then ["check"] else ["raise", Show(x)]
  }

  /**
   * A bot's action is refused exactly when the seat has put in more than the
   * bet (a big blind clamped below the small blind) and it picks `check`.
   */
  lemma BotRefused(s: BetState, seat: nat, first: bool, x: nat)
    requires seat < |s.contrib| && seat < |s.stacks|
    ensures var toCall := s.bet - s.contrib[seat];
      Act(s, seat, Command(BotWords(toCall, first, x))).Err? <==> toCall < 0 && first
  {
    ShowDigits(x);
  }

  /** The state `play_round` hands to the loop: blinds posted, bet at the big blind. */
  function Opening(stacks: seq<int>, pot: int, sbSeat: nat, sbAmt: int, bbSeat: nat, bbAmt: int): (s: BetState)
    requires sbSeat < |stacks| && bbSeat < |stacks|
  {
    var contrib := seq(|stacks|, k => 0)[sbSeat := sbAmt][bbSeat := bbAmt];
    BetState(AllSeats(|stacks|), contrib, stacks, pot, bbAmt, {})
  }

  /**
   * One turn of the loop, at a seat that is still in: an error ends the
   * round with the state unchanged, otherwise the round ends if the exit test
   * holds and goes on from the next seat with the rest of the script if not.
   */
  lemma RunTurn(s: BetState, idx: nat, script: seq<Decision>)
    requires Wf(s) && idx in s.active && script != []
    ensures idx < |s.contrib| && idx < |s.stacks|
    ensures Act(s, idx, script[0]).Err? ==> Run(s, idx, script) == Raised(Act(s, idx, script[0]).error, s)
    ensures Act(s, idx, script[0]).Ok? ==>
      var t := Act(s, idx, script[0]).value;
      && Seating(t.active, |t.contrib|)
      && (Finished(t) ==> Run(s, idx, script) == Done(t))
      && (!Finished(t) ==> Wf(t) && Run(s, idx, script) == Run(t, Succ(idx, |s.contrib|), script[1..]))
  {
    NextActiveIs(s.active, idx, |s.contrib|);
    if Act(s, idx, script[0]).Ok? {
      ActSeating(s, idx, script[0]);
    }
  }

  /** The round from `i` and from `j` is the same when it is the same seat's turn at both. */
  lemma RunSameTurn(s: BetState, i: nat, j: nat, script: seq<Decision>)
    requires Wf(s) && i < |s.contrib| && j < |s.contrib| && NextActive(s.active, i) == NextActive(s.active, j)
    ensures Run(s, i, script) == Run(s, j, script)
  {
  }

  /** Two players, blinds 25/50 posted from stacks of 200: seat 1 is dealer and big blind, seat 0 the small blind. */
  function HeadsUp(): BetState
  {
    Opening([175, 150], 75, 0, 25, 1, 50)
  }

  lemma HeadsUpIs()
    ensures HeadsUp() == BetState([0, 1], [25, 50], [175, 150], 75, 50, {})
  {
    assert AllSeats(2) == [0, 1];
    assert seq(2, k => 0)[0 := 25][1 := 50] == [25, 50];
  }

  /** The small blind's opening call: 25 more makes 50 each, and the big blind has still to act. */
  lemma OpeningCall() returns (t: BetState)
    ensures Wf(HeadsUp()) && Act(HeadsUp(), 0, Call) == Ok(t)
    ensures t.active == [0, 1] && t.contrib == [50, 50] && t.stacks == [150, 150]
    ensures t.pot == 100 && t.bet == 50 && t.seen == {0}
    ensures Wf(t) && !Finished(t)
  {
    HeadsUpIs();
    t := Act(HeadsUp(), 0, Call).value;
    assert t.active[1] !in t.seen;
  }

  /** The big blind raises by 10 after that call: the bet is 60 and only the raiser has acted since. */
  lemma RaiseAfterCall(t: BetState) returns (u: BetState)
    requires t.active == [0, 1] && t.contrib == [50, 50] && t.stacks == [150, 150]
    requires t.pot == 100 && t.bet == 50 && t.seen == {0}
    ensures Act(t, 1, Raise(10)) == Ok(u)
    ensures u.active == [0, 1] && u.contrib == [50, 60] && u.stacks == [150, 140]
    ensures u.pot == 110 && u.bet == 60 && u.seen == {1}
    ensures Wf(u) && !Finished(u)
  {
    u := Act(t, 1, Raise(10)).value;
    assert u.contrib[u.active[0]] != u.bet;
  }

  /** The small blind calls the raise: 60 each, and everyone in has acted since it. */
  lemma CallAfterRaise(u: BetState) returns (v: BetState)
    requires u.active == [0, 1] && u.contrib == [50, 60] && u.stacks == [150, 140]
    requires u.pot == 110 && u.bet == 60 && u.seen == {1}
    ensures Act(u, 0, Call) == Ok(v)
    ensures v.active == [0, 1] && v.contrib == [60, 60] && v.stacks == [140, 140] && v.pot == 120
    ensures Seating(v.active, |v.contrib|) && Finished(v)
  {
    v := Act(u, 0, Call).value;
    assert v.seen == {0, 1};
  }

  /** The small blind calls 25 and the big blind checks: both are still in, with 50 each. */
  lemma HeadsUpCallCheck()
    ensures Wf(HeadsUp())
    ensures var o := Run(HeadsUp(), 0, [Call, Check]);
      o.Done? && o.s.active == [0, 1] && o.s.contrib == [50, 50] && o.s.pot == 100 && o.s.stacks == [150, 150]
  {
    var t := OpeningCall();
    assert Succ(0, 2) == 1;
    assert t.active[1..] == [1];
    RunTurn(HeadsUp(), 0, [Call, Check]);
    assert [Call, Check][1..] == [Check];
    var u := Act(t, 1, Check).value;
    assert u.active == [0, 1] && u.seen == {0, 1} && u.contrib == [50, 50];
    RunTurn(t, 1, [Check]);
  }

  /** A fold on the first action leaves the other player alone in the round. */
  lemma HeadsUpFold()
    ensures Wf(HeadsUp())
    ensures var o := Run(HeadsUp(), 0, [Fold]);
      o.Done? && o.s.active == [1] && o.s.pot == 75
  {
    HeadsUpIs();
    var s := HeadsUp();
    var t := Act(s, 0, Fold).value;
    assert t.active == [1];
    RunTurn(s, 0, [Fold]);
  }

  /**
   * After the big blind raises by 10, the small blind's earlier call no
   * longer closes the round: the loop waits for the small blind again.
   */
  lemma HeadsUpRaiseReopens()
    ensures Wf(HeadsUp())
    ensures var o := Run(HeadsUp(), 0, [Call, Raise(10)]);
      o.Exhausted? && o.s.seen == {1} && o.s.bet == 60 && o.s.contrib == [50, 60]
  {
    var t := OpeningCall();
    var u := RaiseAfterCall(t);
    assert Succ(0, 2) == 1;
    RunTurn(HeadsUp(), 0, [Call, Raise(10)]);
    assert [Call, Raise(10)][1..] == [Raise(10)];
    RunTurn(t, 1, [Raise(10)]);
  }

  /** The small blind's call of the raise then closes the round at 60 each. */
  lemma HeadsUpRaiseCalled()
    ensures Wf(HeadsUp())
    ensures var o := Run(HeadsUp(), 0, [Call, Raise(10), Call]);
      o.Done? && o.s.contrib == [60, 60] && o.s.pot == 120 && o.s.stacks == [140, 140]
  {
    var t := OpeningCall();
    var v := RaiseThenCall(t);
    assert Succ(0, 2) == 1;
    RunTurn(HeadsUp(), 0, [Call, Raise(10), Call]);
    assert [Call, Raise(10), Call][1..] == [Raise(10), Call];
  }

  /** From the opening call on: the big blind raises, the small blind calls and the round is over. */
  lemma RaiseThenCall(t: BetState) returns (v: BetState)
    requires t.active == [0, 1] && t.contrib == [50, 50] && t.stacks == [150, 150]
    requires t.pot == 100 && t.bet == 50 && t.seen == {0}
    ensures Wf(t) && Run(t, 1, [Raise(10), Call]) == Done(v)
    ensures v.contrib == [60, 60] && v.pot == 120 && v.stacks == [140, 140]
  {
    var u := RaiseAfterCall(t);
    v := CallAfterRaise(u);
    assert Succ(1, 2) == 0;
    assert Wf(t);
    RunTurn(t, 1, [Raise(10), Call]);
    assert [Raise(10), Call][1..] == [Call];
    RunTurn(u, 0, [Call]);
  }
}
