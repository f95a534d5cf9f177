/**
 * Comparing hand strengths as Python compares the tuple `(category,
 * tiebreak)`, the first-maximum rule of `max(active, key=...)`, and the
 * `HAND_RANKINGS` table that names each category.
 */
module Showdown {
  import opened Cards
  import opened HandEval

  /** Python's `<` on two lists of integers: lexicographic, a proper prefix is smaller. */
  predicate ListLess(a: seq<int>, b: seq<int>)
  {
    if a == [] then b != []
    else if b == [] then false
    else if a[0] != b[0] then a[0] < b[0]
    else ListLess(a[1..], b[1..])
  }

  /** Python's `<` on `(category, tiebreak)` tuples. */
  predicate StrengthLess(a: Strength, b: Strength)
  {
    a.category < b.category || (a.category == b.category && ListLess(a.tiebreak, b.tiebreak))
  }

  lemma {:induction false} ListLessIrreflexive(a: seq<int>)
    ensures !ListLess(a, a)
  {
    if a != [] {
      ListLessIrreflexive(a[1..]);
    }
  }

  lemma {:induction false} ListLessTransitive(a: seq<int>, b: seq<int>, c: seq<int>)
    requires ListLess(a, b) && ListLess(b, c)
    ensures ListLess(a, c)
  {
    if a != [] && a[0] == b[0] && b[0] == c[0] {
      ListLessTransitive(a[1..], b[1..], c[1..]);
    }
  }

  /** Two different lists are always ordered one way or the other. */
  lemma {:induction false} ListLessTotal(a: seq<int>, b: seq<int>)
    requires a != b
    ensures ListLess(a, b) || ListLess(b, a)
  {
    if a != [] && b != [] && a[0] == b[0] {
      assert a == [a[0]] + a[1..] && b == [b[0]] + b[1..];
      ListLessTotal(a[1..], b[1..]);
    }
  }

  lemma StrengthLessIrreflexive(a: Strength)
    ensures !StrengthLess(a, a)
  {
    ListLessIrreflexive(a.tiebreak);
  }

  lemma StrengthLessTransitive(a: Strength, b: Strength, c: Strength)
    requires StrengthLess(a, b) && StrengthLess(b, c)
    ensures StrengthLess(a, c)
  {
    if a.category == b.category == c.category {
      ListLessTransitive(a.tiebreak, b.tiebreak, c.tiebreak);
    }
  }

  lemma StrengthLessTotal(a: Strength, b: Strength)
    requires a != b
    ensures StrengthLess(a, b) || StrengthLess(b, a)
  {
    if a.category == b.category {
      ListLessTotal(a.tiebreak, b.tiebreak);
    }
  }

  /**
   * The position `max` picks: it walks the list keeping the current maximum
   * and replaces it only by a strictly greater item.
   */
  function BestIndex(s: seq<Strength>): (i: nat)
    requires |s| > 0
    ensures i < |s|
  {
    if |s| == 1 then 0
    else
      var j := BestIndex(s[..|s| - 1]);
      if StrengthLess(s[j], s[|s| - 1]) then |s| - 1 else j
  }

  /** `max` returns an item no other item exceeds, and every earlier item is strictly below it. */
  lemma {:induction false} BestIndexIsFirstMax(s: seq<Strength>)
    requires |s| > 0
    ensures forall j :: 0 <= j < |s| ==> !StrengthLess(s[BestIndex(s)], s[j])
    ensures forall j :: 0 <= j < BestIndex(s) ==> StrengthLess(s[j], s[BestIndex(s)])
  {
    if |s| > 1 {
      var t := s[..|s| - 1];
      var j := BestIndex(t);
      var last := s[|s| - 1];
      BestIndexIsFirstMax(t);
      assert forall k :: 0 <= k < |t| ==> t[k] == s[k];
      assert BestIndex(s) == if StrengthLess(s[j], last) then |s| - 1 else j;
      if StrengthLess(s[j], last) {
        forall k | 0 <= k < |s|
          ensures !StrengthLess(last, s[k])
        {
          if k < |s| - 1 && StrengthLess(last, s[k]) {
            StrengthLessTransitive(s[j], last, s[k]);
          }
          if k == |s| - 1 {
            StrengthLessIrreflexive(last);
          }
        }
        forall k | 0 <= k < |s| - 1
          ensures StrengthLess(s[k], last)
        {
          if s[k] == s[j] {
          } else {
            StrengthLessTotal(s[k], s[j]);
            if StrengthLess(s[k], s[j]) {
              StrengthLessTransitive(s[k], s[j], last);
            }
          }
        }
      } else {
        forall k | 0 <= k < |s| - 1
          ensures !StrengthLess(s[j], s[k])
        {
          assert t[k] == s[k];
        }
      }
    } else {
      StrengthLessIrreflexive(s[0]);
    }
  }

  /** `HAND_RANKINGS`: the display name of each category. */
  const HandRankings: map<int, string> := map[
    9 := "Straight Flush",
    8 := "Four of a Kind",
    7 := "Full House",
    6 := "Flush",
    5 := "Straight",
    4 := "Three of a Kind",
    3 := "Two Pair",
    2 := "One Pair",
    1 := "High Card"
  ]

  /** The lookup `HAND_RANKINGS[rank_id]` at the showdown always finds a name. */
  lemma HandRankNamed(hand: seq<Card>)
    requires |hand| == 5
    ensures HandRank(hand).category in HandRankings
  {
  }
}
