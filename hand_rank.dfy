/**
 * Five-card hand evaluation: `hand_rank` in game_engine.py maps a hand to a
 * category 1..9 and a tie-break list; hands are compared by Python's tuple
 * order on (category, tiebreak).
 */
module HandEval {
  import opened Cards
  import opened Seqs

  /** The pair `(category, tiebreak)` that `hand_rank` returns. */
  datatype Strength = Strength(category: int, tiebreak: seq<int>)

  /** One entry `(value, count)` of `Counter(ranks).most_common()`. */
  datatype Group = Group(value: int, count: nat)

  /** The rank values of the hand, in hand order. */
  function Ranks(hand: seq<Card>): seq<int>
  {
    seq(|hand|, i requires 0 <= i < |hand| => hand[i].rank as int)
  }

  /** `{c.suit for c in hand}`. */
  function Suits(hand: seq<Card>): set<Suit>
  {
    set i | 0 <= i < |hand| :: hand[i].suit
  }

  /** `len({c.suit for c in hand}) == 1`. */
  predicate IsFlush(hand: seq<Card>)
  {
    |Suits(hand)| == 1
  }

  // ---------------------------------------------------------------------
  // sorted(set(ranks))
  // ---------------------------------------------------------------------

  /** The distinct values of a descending list, first copies kept. */
  function Dedup(s: seq<int>): seq<int>
  {
    if |s| <= 1 then s
    else if s[0] == s[1] then Dedup(s[1..])
    else [s[0]] + Dedup(s[1..])
  }

  lemma {:induction false} DedupMember(s: seq<int>, y: int)
    requires y in Dedup(s)
    ensures y in s
  {
    if |s| > 1 && (s[0] == s[1] || y != s[0]) {
      DedupMember(s[1..], y);
    }
  }

  lemma {:induction false} DedupCovers(s: seq<int>, y: int)
    requires y in s
    ensures y in Dedup(s)
  {
    if |s| > 1 {
      if y == s[0] && s[0] == s[1] {
        assert y in s[1..] by { assert s[1..][0] == y; }
        DedupCovers(s[1..], y);
      } else if y != s[0] {
        DedupCovers(s[1..], y);
      }
    }
  }

  lemma {:induction false} DedupStrict(s: seq<int>)
    requires Desc(s)
    ensures StrictDesc(Dedup(s))
  {
    if |s| > 1 {
      var t := Dedup(s[1..]);
      DedupStrict(s[1..]);
      if s[0] != s[1] {
        forall k | 0 <= k < |t|
          ensures t[k] < s[0]
        {
          DedupMember(s[1..], t[k]);
          ElementBelowHead(s[1..], t[k]);
        }
      }
    }
  }

  /** `sorted(set(ranks))`: the distinct values in ascending order. */
  function Uniq(ranks: seq<int>): seq<int>
  {
    Reverse(Dedup(ranks))
  }

  /** The distinct values, once they are known. */
  lemma DedupIs(s: seq<int>, expected: seq<int>)
    requires Desc(s) && StrictDesc(expected)
    requires forall x :: x in s <==> x in expected
    ensures Dedup(s) == expected
  {
    DedupStrict(s);
    forall x
      ensures x in Dedup(s) <==> x in expected
    {
      if x in Dedup(s) {
        DedupMember(s, x);
      }
      if x in s {
        DedupCovers(s, x);
      }
    }
    StrictlyOrderedUnique(Dedup(s), expected, (x: int, y: int) => x > y);
  }

  // ---------------------------------------------------------------------
  // Counter(ranks).most_common()
  // ---------------------------------------------------------------------

  predicate Lists(g: seq<Group>, x: int)
  {
    exists i :: 0 <= i < |g| && g[i].value == x
  }

  function SumCounts(g: seq<Group>): int
  {
    if g == [] then 0 else g[0].count + SumCounts(g[1..])
  }

  /** Strictly descending values, the order of a tally over a descending list. */
  predicate ValuesDesc(g: seq<Group>)
  {
    forall i, j :: 0 <= i < j < |g| ==> g[i].value > g[j].value
  }

  /**
   * `Counter(ranks)` in insertion order. On a descending list the first
   * occurrence of a larger value comes first, so the entries are in
   * descending value order (TallyValues).
   */
  function Tally(s: seq<int>): seq<Group>
  {
    if s == [] then []
    else
      var rest := Tally(s[1..]);
      if rest != [] && rest[0].value == s[0] then [Group(s[0], rest[0].count + 1)] + rest[1..]
      else [Group(s[0], 1)] + rest
  }

  lemma TallyHead(s: seq<int>)
    requires s != []
    ensures Tally(s) != [] && Tally(s)[0].value == s[0]
  {
  }

  /** A group whose value is above all the others can go in front. */
  lemma PrependDesc(v: int, c: nat, rest: seq<Group>)
    requires ValuesDesc(rest) && (rest != [] ==> v > rest[0].value)
    ensures ValuesDesc([Group(v, c)] + rest)
  {
    var g := [Group(v, c)] + rest;
    forall i, j | 0 <= i < j < |g|
      ensures g[i].value > g[j].value
    {
      assert g[j] == rest[j - 1];
      if i > 0 {
        assert g[i] == rest[i - 1];
      } else if j > 1 {
        assert rest[0].value > rest[j - 1].value;
      }
    }
  }

  /** Replacing the first group by one of the same value keeps the order. */
  lemma ReplaceHeadDesc(c: nat, rest: seq<Group>)
    requires ValuesDesc(rest) && rest != []
    ensures ValuesDesc([Group(rest[0].value, c)] + rest[1..])
  {
    var g := [Group(rest[0].value, c)] + rest[1..];
    forall i, j | 0 <= i < j < |g|
      ensures g[i].value > g[j].value
    {
      assert g[j] == rest[j];
      if i > 0 {
        assert g[i] == rest[i];
      }
    }
  }

  lemma {:induction false} TallyValues(s: seq<int>)
    requires Desc(s)
    ensures ValuesDesc(Tally(s))
  {
    if s != [] {
      var t := s[1..];
      forall i, j | 0 <= i < j < |t|
        ensures t[i] >= t[j]
      {
        assert t[i] == s[i + 1] && t[j] == s[j + 1];
      }
      var rest := Tally(t);
      TallyValues(t);
      if rest != [] {
        TallyHead(t);
      }
      if rest != [] && rest[0].value == s[0] {
        ReplaceHeadDesc(rest[0].count + 1, rest);
      } else {
        PrependDesc(s[0], 1, rest);
      }
    }
  }

  lemma MultisetCons(h: int, t: seq<int>, v: int)
    ensures multiset([h] + t)[v] == multiset(t)[v] + (if v == h then 1 else 0)
  {
  }

  /** Each entry counts its value's occurrences in `s`. */
  predicate CountsRight(g: seq<Group>, s: seq<int>)
  {
    forall i :: 0 <= i < |g| ==> g[i].count == multiset(s)[g[i].value] > 0
  }

  /** Each entry of the tally counts its value's occurrences. */
  lemma {:induction false} TallyCounts(s: seq<int>)
    requires Desc(s)
    ensures CountsRight(Tally(s), s)
  {
    if s != [] {
      var t := s[1..];
      TallyCounts(t);
      TallyValues(t);
      var rest := Tally(t);
      if rest != [] && rest[0].value == s[0] {
        TallyCountsMerged(s[0], t, rest);
      } else {
        if t != [] {
          TallyHead(t);
        }
        HeadNotInTail(s);
        TallyCountsFresh(s[0], t, rest);
      }
      assert s == [s[0]] + t;
    }
  }

  /** The head joins the tally's first entry. */
  lemma TallyCountsMerged(h: int, t: seq<int>, rest: seq<Group>)
    requires CountsRight(rest, t) && ValuesDesc(rest)
    requires rest != [] && rest[0].value == h
    ensures CountsRight([Group(h, rest[0].count + 1)] + rest[1..], [h] + t)
  {
    var g := [Group(h, rest[0].count + 1)] + rest[1..];
    forall i | 0 <= i < |g|
      ensures g[i].count == multiset([h] + t)[g[i].value] > 0
    {
      if i > 0 {
        assert g[i] == rest[i] && rest[0].value > rest[i].value;
        MultisetCons(h, t, rest[i].value);
      } else {
        MultisetCons(h, t, h);
      }
    }
  }

  /** The head opens a new entry ahead of the tally. */
  lemma TallyCountsFresh(h: int, t: seq<int>, rest: seq<Group>)
    requires CountsRight(rest, t) && h !in t
    ensures CountsRight([Group(h, 1)] + rest, [h] + t)
  {
    var g := [Group(h, 1)] + rest;
    forall i | 0 <= i < |g|
      ensures g[i].count == multiset([h] + t)[g[i].value] > 0
    {
      if i > 0 {
        assert g[i] == rest[i - 1];
        MultisetCons(h, t, rest[i - 1].value);
      } else {
        MultisetCons(h, t, h);
      }
    }
  }

  /** Every rank of the hand has an entry in the tally. */
  lemma {:induction false} TallyCovers(s: seq<int>)
    ensures forall x :: x in s ==> Lists(Tally(s), x)
  {
    if s != [] {
      var h, t := s[0], s[1..];
      TallyCovers(t);
      var rest := Tally(t);
      var g := Tally(s);
      forall x | x in s
        ensures Lists(g, x)
      {
        if x == h {
          assert g[0].value == x;
        } else {
          assert x in t;
          var i :| 0 <= i < |rest| && rest[i].value == x;
          if rest != [] && rest[0].value == h {
            assert g[i].value == x;
          } else {
            assert g[i + 1].value == x;
          }
        }
      }
    }
  }

  /** The tally's counts add up to the number of cards. */
  lemma {:induction false} TallyTotal(s: seq<int>)
    ensures SumCounts(Tally(s)) == |s|
  {
    if s != [] {
      TallyTotal(s[1..]);
      var rest := Tally(s[1..]);
      if rest != [] && rest[0].value == s[0] {
        assert SumCounts(rest) == rest[0].count + SumCounts(rest[1..]);
        assert Tally(s)[1..] == rest[1..];
      } else {
        assert Tally(s)[1..] == rest;
      }
    }
  }

  /** The order of `most_common()` on a tally: count descending, then value descending. */
  predicate Before(a: Group, b: Group)
  {
    a.count > b.count || (a.count == b.count && a.value > b.value)
  }

  predicate Ordered(g: seq<Group>)
  {
    forall i, j :: 0 <= i < j < |g| ==> Before(g[i], g[j])
  }

  /** Inserts `x` ahead of the first entry whose count does not exceed its own. */
  function InsertByCount(x: Group, g: seq<Group>): seq<Group>
  {
    if g == [] || x.count >= g[0].count then [x] + g
    else [g[0]] + InsertByCount(x, g[1..])
  }

  lemma {:induction false} InsertByCountMultiset(x: Group, g: seq<Group>)
    ensures multiset(InsertByCount(x, g)) == multiset(g) + multiset{x}
  {
    if g != [] && x.count < g[0].count {
      InsertByCountMultiset(x, g[1..]);
      assert g == [g[0]] + g[1..];
    }
  }

  lemma OrderedHead(g: seq<Group>, y: Group)
    requires Ordered(g) && |g| > 0 && y in g[1..]
    ensures Before(g[0], y)
  {
    var i :| 1 <= i < |g| && g[i] == y;
  }

  lemma {:induction false} InsertByCountOrdered(x: Group, g: seq<Group>)
    requires Ordered(g)
    requires forall k :: 0 <= k < |g| ==> x.value > g[k].value
    ensures Ordered(InsertByCount(x, g))
  {
    if g != [] && x.count < g[0].count {
      var t := InsertByCount(x, g[1..]);
      InsertByCountOrdered(x, g[1..]);
      InsertByCountMultiset(x, g[1..]);
      forall k | 0 <= k < |t|
        ensures Before(g[0], t[k])
      {
        assert t[k] in multiset(t);
        if t[k] != x {
          assert t[k] in multiset(g[1..]);
          OrderedHead(g, t[k]);
        }
      }
    }
  }

  /**
   * The stable sort by descending count that `most_common()` performs: an
   * earlier entry goes ahead of later entries of equal count.
   */
  function SortByCount(g: seq<Group>): seq<Group>
  {
    if g == [] then [] else InsertByCount(g[0], SortByCount(g[1..]))
  }

  lemma {:induction false} SortByCountMultiset(g: seq<Group>)
    ensures multiset(SortByCount(g)) == multiset(g)
  {
    if g != [] {
      SortByCountMultiset(g[1..]);
      InsertByCountMultiset(g[0], SortByCount(g[1..]));
      assert g == [g[0]] + g[1..];
    }
  }

  lemma {:induction false} SortByCountOrdered(g: seq<Group>)
    requires ValuesDesc(g)
    ensures Ordered(SortByCount(g))
  {
    if g != [] {
      var t := SortByCount(g[1..]);
      SortByCountOrdered(g[1..]);
      SortByCountMultiset(g[1..]);
      forall k | 0 <= k < |t|
        ensures g[0].value > t[k].value
      {
        assert t[k] in multiset(g[1..]);
        var i :| 0 <= i < |g[1..]| && g[1..][i] == t[k];
        assert g[i + 1] == t[k];
      }
      InsertByCountOrdered(g[0], t);
    }
  }

  /** `Counter(ranks).most_common()` for a descending `ranks`. */
  function MostCommon(ranks: seq<int>): (r: seq<Group>)
    ensures |r| == |Tally(ranks)|
  {
    SortByCountMultiset(Tally(ranks));
    assert |multiset(SortByCount(Tally(ranks)))| == |multiset(Tally(ranks))|;
    SortByCount(Tally(ranks))
  }

  /** `most_common()` lists count descending, ties by descending value. */
  lemma MostCommonOrdered(s: seq<int>)
    requires Desc(s)
    ensures Ordered(MostCommon(s))
  {
    TallyValues(s);
    SortByCountOrdered(Tally(s));
  }

  /** Every entry of `most_common()` is a value of the hand with its multiplicity, and conversely. */
  lemma MostCommonMembers(s: seq<int>)
    requires Desc(s)
    ensures forall g :: g in MostCommon(s) <==> g.value in s && g.count == multiset(s)[g.value]
    ensures |MostCommon(s)| == |Tally(s)|
  {
    var t := Tally(s);
    var c := MostCommon(s);
    TallyCounts(s);
    TallyCovers(s);
    SortByCountMultiset(t);
    assert |c| == |multiset(c)| == |multiset(t)| == |t|;
    forall g
      ensures g in c <==> g.value in s && g.count == multiset(s)[g.value]
    {
      assert g in c <==> g in multiset(t);
      if g.value in s {
        assert Lists(t, g.value);
      }
    }
  }

  function ValuesOf(g: seq<Group>): seq<int>
  {
    seq(|g|, i requires 0 <= i < |g| => g[i].value)
  }

  lemma ValuesOfTwo(a: Group, b: Group)
    ensures ValuesOf([a, b]) == [a.value, b.value]
  {
  }

  lemma ValuesOfThree(a: Group, b: Group, c: Group)
    ensures ValuesOf([a, b, c]) == [a.value, b.value, c.value]
  {
  }

  lemma ValuesOfFour(a: Group, b: Group, c: Group, d: Group)
    ensures ValuesOf([a, b, c, d]) == [a.value, b.value, c.value, d.value]
  {
  }

  /** The entries of `most_common()` are fixed by the ranks' multiplicities alone. */
  lemma MostCommonIs(s: seq<int>, expected: seq<Group>)
    requires Desc(s) && Ordered(expected)
    requires forall x :: x in s <==> x in ValuesOf(expected)
    requires forall i :: 0 <= i < |expected| ==> expected[i].count == multiset(s)[expected[i].value]
    ensures MostCommon(s) == expected
  {
    MostCommonMembers(s);
    MostCommonOrdered(s);
    forall g
      ensures g in expected <==> g.value in s && g.count == multiset(s)[g.value]
    {
      if g.value in s {
        assert g.value in ValuesOf(expected);
        var i :| 0 <= i < |expected| && ValuesOf(expected)[i] == g.value;
        assert g.count == multiset(s)[g.value] ==> expected[i] == g;
      }
      if g in expected {
        var i :| 0 <= i < |expected| && expected[i] == g;
        assert ValuesOf(expected)[i] == g.value;
      }
    }
    StrictlyOrderedUnique(MostCommon(s), expected, Before);
  }

  /** `[c for _, c in cnt]`. */
  function CountsOf(cnt: seq<Group>): seq<int>
  {
    seq(|cnt|, i requires 0 <= i < |cnt| => cnt[i].count as int)
  }

  lemma CountsOfTwo(a: Group, b: Group)
    ensures CountsOf([a, b]) == [a.count as int, b.count as int]
  {
  }

  lemma CountsOfThree(a: Group, b: Group, c: Group)
    ensures CountsOf([a, b, c]) == [a.count as int, b.count as int, c.count as int]
  {
  }

  lemma CountsOfFour(a: Group, b: Group, c: Group, d: Group)
    ensures CountsOf([a, b, c, d]) == [a.count as int, b.count as int, c.count as int, d.count as int]
  {
  }

  /** `[r for r, c in cnt if c == 2]`. */
  function PairedValues(cnt: seq<Group>): seq<int>
  {
    if cnt == [] then []
    else if cnt[0].count == 2 then [cnt[0].value] + PairedValues(cnt[1..])
    else PairedValues(cnt[1..])
  }

  lemma {:induction false} PairedValuesMember(cnt: seq<Group>, x: int)
    ensures x in PairedValues(cnt) <==> exists i :: 0 <= i < |cnt| && cnt[i].count == 2 && cnt[i].value == x
  {
    if cnt != [] {
      PairedValuesMember(cnt[1..], x);
      if x in PairedValues(cnt[1..]) {
        var i :| 0 <= i < |cnt[1..]| && cnt[1..][i].count == 2 && cnt[1..][i].value == x;
        assert cnt[i + 1] == cnt[1..][i];
      }
      if exists i :: 0 <= i < |cnt| && cnt[i].count == 2 && cnt[i].value == x {
        var i :| 0 <= i < |cnt| && cnt[i].count == 2 && cnt[i].value == x;
        if i > 0 {
          assert cnt[1..][i - 1] == cnt[i];
        }
      }
    }
  }

  // ---------------------------------------------------------------------
  // What the category chain relies on for five ranks
  // ---------------------------------------------------------------------

  lemma {:induction false} OddTotalHasSingle(g: seq<Group>)
    requires forall i :: 0 <= i < |g| ==> 1 <= g[i].count <= 2
    requires SumCounts(g) % 2 == 1
    ensures exists i :: 0 <= i < |g| && g[i].count == 1
  {
    if g[0].count != 1 {
      OddTotalHasSingle(g[1..]);
      var i :| 0 <= i < |g[1..]| && g[1..][i].count == 1;
      assert g[i + 1].count == 1;
    }
  }

  /** A single entry of `most_common()` holds all five cards. */
  lemma SingleGroupHoldsAll(s: seq<int>)
    requires Desc(s)
    requires |MostCommon(s)| == 1
    ensures MostCommon(s)[0].count == |s|
  {
    var t := Tally(s);
    MostCommonMembers(s);
    SortByCountMultiset(t);
    TallyTotal(s);
    assert |t| == 1 && SumCounts(t) == t[0].count + SumCounts(t[1..]);
    assert MostCommon(s)[0] in multiset(t);
  }

  /** No entry of the tally has a larger count than the first entry of `most_common()`. */
  lemma TopCountBounds(s: seq<int>)
    requires Desc(s) && |MostCommon(s)| > 0
    ensures forall i :: 0 <= i < |Tally(s)| ==> Tally(s)[i].count <= MostCommon(s)[0].count
  {
    var t := Tally(s);
    var c := MostCommon(s);
    SortByCountMultiset(t);
    MostCommonOrdered(s);
    forall i | 0 <= i < |t|
      ensures t[i].count <= c[0].count
    {
      assert t[i] in multiset(c);
      var j :| 0 <= j < |c| && c[j] == t[i];
      assert j == 0 || Before(c[0], c[j]);
    }
  }

  /** With no group above a pair among five cards, some rank occurs exactly once. */
  lemma PairsLeaveSingle(s: seq<int>) returns (x: int)
    requires |s| == 5 && Desc(s)
    requires |MostCommon(s)| > 0 && MostCommon(s)[0].count == 2
    ensures multiset(s)[x] == 1
  {
    var t := Tally(s);
    TallyCounts(s);
    TallyTotal(s);
    TopCountBounds(s);
    OddTotalHasSingle(t);
    var i :| 0 <= i < |t| && t[i].count == 1;
    x := t[i].value;
  }

  /** With two pairs and no larger group among five cards, some rank is unpaired. */
  lemma TwoPairLeavesKicker(s: seq<int>)
    requires |s| == 5 && Desc(s)
    requires |MostCommon(s)| >= 2 && MostCommon(s)[0].count == 2 && MostCommon(s)[1].count == 2
    ensures |WithoutAll(s, SortDesc(PairedValues(MostCommon(s))))| > 0
  {
    var x := PairsLeaveSingle(s);
    var c := MostCommon(s);
    MostCommonMembers(s);
    PairedValuesMember(c, x);
    forall i | 0 <= i < |c| && c[i].value == x
      ensures c[i].count != 2
    {
      assert c[i] in c;
    }
    var pairs := SortDesc(PairedValues(c));
    SortDescMultiset(PairedValues(c));
    assert x !in multiset(pairs);
    WithoutAllCount(s, pairs);
    assert multiset(WithoutAll(s, pairs))[x] == 1;
  }

  /**
   * Every list indexing in the category chain of `hand_rank` finds an
   * element: `counts[0]`, `counts[1]` once the top count is below five,
   * `cnt[0]`, `cnt[1]`, and the two kicker lists `[...][0]`.
   */
  predicate IndexingSafe(ranks: seq<int>, cnt: seq<Group>, counts: seq<int>)
  {
    && |cnt| == |counts| >= 1
    && (|counts| == 1 ==> counts[0] == 5)
    && (counts[0] == 4 ==> |Without(ranks, cnt[0].value)| > 0)
    && (|counts| >= 2 && counts[0] == 2 && counts[1] == 2 ==> |WithoutAll(ranks, SortDesc(PairedValues(cnt)))| > 0)
  }

  /**
   * What the body of `hand_rank` relies on for five ranks: the counts list is
   * `most_common()`'s counts unchanged, and every indexing finds an element.
   */
  lemma CountFacts(s: seq<int>)
    requires |s| == 5 && Desc(s)
    ensures SortDesc(CountsOf(MostCommon(s))) == CountsOf(MostCommon(s))
    ensures IndexingSafe(s, MostCommon(s), SortDesc(CountsOf(MostCommon(s))))
  {
    var c := MostCommon(s);
    MostCommonMembers(s);
    MostCommonOrdered(s);
    TallyCovers(s);
    assert s[0] in s && Lists(Tally(s), s[0]);
    assert |c| >= 1;
    assert Desc(CountsOf(c));
    SortDescOfSorted(CountsOf(c));
    if |c| == 1 {
      SingleGroupHoldsAll(s);
    }
    if c[0].count == 4 {
      assert c[0] in c;
      WithoutLength(s, c[0].value);
    }
    if |c| >= 2 && c[0].count == 2 && c[1].count == 2 {
      TwoPairLeavesKicker(s);
    }
  }

  // ---------------------------------------------------------------------
  // hand_rank
  // ---------------------------------------------------------------------

  /** The outcome `(is_straight, high)` of the straight test. */
  datatype StraightTest = StraightTest(isStraight: bool, high: int)

  /**
   * The straight test on the distinct ranks in ascending order: the wheel
   * A-2-3-4-5 counts with high card 5, otherwise five distinct ranks spanning
   * four; a non-straight keeps the top rank as `high`.
   */
  function StraightOf(uniq: seq<int>, top: int): StraightTest
  {
    if uniq == [2, 3, 4, 5, 14] then StraightTest(true, 5)
    else if |uniq| == 5 && uniq[0] + 4 == uniq[|uniq| - 1] then StraightTest(true, uniq[|uniq| - 1])
    else StraightTest(false, top)
  }

  /**
   * The nine categories tried in order, first match wins, given the descending
   * ranks, the flush flag, the straight test, `most_common()` and the sorted
   * counts; CountFacts establishes the precondition for five cards.
   */
  function Categorize(ranks: seq<int>, isFlush: bool, st: StraightTest, cnt: seq<Group>, counts: seq<int>): (r: Strength)
    requires IndexingSafe(ranks, cnt, counts)
    ensures 1 <= r.category <= 9
  {
    if st.isStraight && isFlush then Strength(9, [st.high])
    else if counts[0] == 4 then
      var four := cnt[0].value;
      var kicker := Without(ranks, four)[0];
      Strength(8, [four, kicker])
    else if counts[0] == 3 && counts[1] == 2 then Strength(7, [cnt[0].value, cnt[1].value])
    else if isFlush then Strength(6, ranks)
    else if st.isStraight then Strength(5, [st.high])
    else if counts[0] == 3 then
      var three := cnt[0].value;
      Strength(4, [three] + SortDesc(Without(ranks, three)))
    else if counts[0] == 2 && counts[1] == 2 then
      var pairs := SortDesc(PairedValues(cnt));
      var kicker := WithoutAll(ranks, pairs)[0];
      Strength(3, pairs + [kicker])
    else if counts[0] == 2 then
      var pair := cnt[0].value;
      Strength(2, [pair] + SortDesc(Without(ranks, pair)))
    else Strength(1, ranks)
  }

  /** `hand_rank` on the descending ranks and the flush flag of a five-card hand. */
  function Classify(ranks: seq<int>, isFlush: bool): Strength
    requires |ranks| == 5 && Desc(ranks)
  {
    CountFacts(ranks);
    var cnt := MostCommon(ranks);
    Categorize(ranks, isFlush, StraightOf(Uniq(ranks), ranks[0]), cnt, SortDesc(CountsOf(cnt)))
  }

  /** `hand_rank(hand)` for a hand of five cards. */
  function HandRank(hand: seq<Card>): (r: Strength)
    requires |hand| == 5
    ensures 1 <= r.category <= 9
  {
    SortDescFacts(Ranks(hand));
    Classify(SortDesc(Ranks(hand)), IsFlush(hand))
  }

  /**
   * Unfolds `Classify` once the straight test and `most_common()` are known;
   * the counts list is then `most_common()`'s counts in order.
   */
  lemma ClassifyIs(r: seq<int>, flush: bool, st: StraightTest, cnt: seq<Group>)
    requires |r| == 5 && Desc(r)
    requires StraightOf(Uniq(r), r[0]) == st && MostCommon(r) == cnt
    ensures IndexingSafe(r, cnt, CountsOf(cnt))
    ensures Classify(r, flush) == Categorize(r, flush, st, cnt, CountsOf(cnt))
  {
    CountFacts(r);
  }

  /** `sorted(set(ranks))` has one entry per entry of the tally. */
  lemma {:induction false} DedupTally(s: seq<int>)
    ensures |Dedup(s)| == |Tally(s)|
  {
    if |s| > 1 {
      DedupTally(s[1..]);
      TallyHead(s[1..]);
    }
  }

  /** `cnt` is `most_common()` of a list whose multiset is `m`. */
  ghost predicate Describes(m: multiset<int>, cnt: seq<Group>)
  {
    && Ordered(cnt)
    && (forall x :: x in m <==> x in ValuesOf(cnt))
    && (forall i :: 0 <= i < |cnt| ==> cnt[i].count == m[cnt[i].value])
  }

  /**
   * `most_common()` once the multiset of ranks is known, and the number of
   * distinct ranks that follows from it.
   */
  lemma Groups(r: seq<int>, m: multiset<int>, cnt: seq<Group>)
    requires Desc(r) && multiset(r) == m && Describes(m, cnt)
    ensures MostCommon(r) == cnt && |Uniq(r)| == |cnt|
  {
    forall x
      ensures x in r <==> x in ValuesOf(cnt)
    {
      assert x in r <==> x in multiset(r);
    }
    MostCommonIs(r, cnt);
    MostCommonMembers(r);
    DedupTally(r);
    ReverseFacts(Dedup(r));
  }

  /** The filtered list, once its elements are known. */
  lemma WithoutIs(s: seq<int>, v: int, expected: seq<int>)
    requires Desc(s) && Desc(expected) && multiset(s)[v := 0] == multiset(expected)
    ensures Without(s, v) == expected
  {
    WithoutCount(s, v);
    WithoutDesc(s, v);
    SortedUnique(Without(s, v), expected);
  }

  /** The list filtered by membership, once its elements are known. */
  lemma WithoutAllIs(s: seq<int>, vs: seq<int>, expected: seq<int>)
    requires Desc(s) && Desc(expected)
    requires forall x :: multiset(expected)[x] == if x in vs then 0 else multiset(s)[x]
    ensures WithoutAll(s, vs) == expected
  {
    WithoutAllCount(s, vs);
    WithoutAllDesc(s, vs);
    assert multiset(WithoutAll(s, vs)) == multiset(expected);
    SortedUnique(WithoutAll(s, vs), expected);
  }

  lemma SortedTwo(x: int, y: int)
    requires x > y
    ensures Desc([x, y]) && SortDesc([x, y]) == [x, y]
  {
    SortDescOfSorted([x, y]);
  }

  lemma SortedThree(x: int, y: int, z: int)
    requires x > y > z
    ensures Desc([x, y, z]) && SortDesc([x, y, z]) == [x, y, z]
  {
    SortDescOfSorted([x, y, z]);
  }

  /** The hand's ranks, sorted descending, with their multiset. */
  lemma SortedRanks(hand: seq<Card>)
    ensures |SortDesc(Ranks(hand))| == |hand| && Desc(SortDesc(Ranks(hand)))
    ensures multiset(SortDesc(Ranks(hand))) == multiset(Ranks(hand))
  {
    SortDescFacts(Ranks(hand));
  }

  // ---------------------------------------------------------------------
  // The categories, stated on the multiset of ranks
  // ---------------------------------------------------------------------

  /** Four of a kind: category 8 with the quad's rank and then the kicker, whatever the suits. */
  lemma FourOfAKind(hand: seq<Card>, v: int, k: int)
    requires |hand| == 5
    requires multiset(Ranks(hand)) == multiset{v, v, v, v, k} && v != k
    ensures HandRank(hand) == Strength(8, [v, k])
  {
    SortedRanks(hand);
    FourClassify(SortDesc(Ranks(hand)), IsFlush(hand), v, k);
  }

  lemma FourClassify(r: seq<int>, flush: bool, v: int, k: int)
    requires |r| == 5 && Desc(r) && multiset(r) == multiset{v, v, v, v, k} && v != k
    ensures Classify(r, flush) == Strength(8, [v, k])
  {
    var cnt := [Group(v, 4), Group(k, 1)];
    var st := StraightTest(false, r[0]);
    FourShape(r, v, k);
    CountsOfTwo(cnt[0], cnt[1]);
    ClassifyIs(r, flush, st, cnt);
  }

  lemma FourShape(r: seq<int>, v: int, k: int)
    requires Desc(r) && multiset(r) == multiset{v, v, v, v, k} && v != k
    ensures MostCommon(r) == [Group(v, 4), Group(k, 1)] && |Uniq(r)| == 2
    ensures Without(r, v) == [k]
  {
    var m := multiset{v, v, v, v, k};
    var cnt := [Group(v, 4), Group(k, 1)];
    FourCounts(m, cnt, v, k);
    Groups(r, m, cnt);
    WithoutIs(r, v, [k]);
  }

  lemma FourCounts(m: multiset<int>, cnt: seq<Group>, v: int, k: int)
    requires m == multiset{v, v, v, v, k} && v != k
    requires cnt == [Group(v, 4), Group(k, 1)]
    ensures Describes(m, cnt) && m[v := 0] == multiset{k}
  {
    ValuesOfTwo(cnt[0], cnt[1]);
  }

  /** Full house: category 7 with the triple's rank and then the pair's, whatever the suits. */
  lemma FullHouse(hand: seq<Card>, t: int, p: int)
    requires |hand| == 5
    requires multiset(Ranks(hand)) == multiset{t, t, t, p, p} && t != p
    ensures HandRank(hand) == Strength(7, [t, p])
  {
    SortedRanks(hand);
    FullHouseClassify(SortDesc(Ranks(hand)), IsFlush(hand), t, p);
  }

  lemma FullHouseClassify(r: seq<int>, flush: bool, t: int, p: int)
    requires |r| == 5 && Desc(r) && multiset(r) == multiset{t, t, t, p, p} && t != p
    ensures Classify(r, flush) == Strength(7, [t, p])
  {
    var cnt := [Group(t, 3), Group(p, 2)];
    var st := StraightTest(false, r[0]);
    FullHouseShape(r, t, p);
    CountsOfTwo(cnt[0], cnt[1]);
    ClassifyIs(r, flush, st, cnt);
  }

  lemma FullHouseShape(r: seq<int>, t: int, p: int)
    requires Desc(r) && multiset(r) == multiset{t, t, t, p, p} && t != p
    ensures MostCommon(r) == [Group(t, 3), Group(p, 2)] && |Uniq(r)| == 2
  {
    var m := multiset{t, t, t, p, p};
    var cnt := [Group(t, 3), Group(p, 2)];
    FullHouseCounts(m, cnt, t, p);
    Groups(r, m, cnt);
  }

  lemma FullHouseCounts(m: multiset<int>, cnt: seq<Group>, t: int, p: int)
    requires m == multiset{t, t, t, p, p} && t != p
    requires cnt == [Group(t, 3), Group(p, 2)]
    ensures Describes(m, cnt)
  {
    ValuesOfTwo(cnt[0], cnt[1]);
  }

  /** Three of a kind: category 4 with the triple's rank and the kickers descending, unless a flush. */
  lemma ThreeOfAKind(hand: seq<Card>, t: int, x: int, y: int)
    requires |hand| == 5
    requires multiset(Ranks(hand)) == multiset{t, t, t, x, y} && x > y && t != x && t != y
    ensures HandRank(hand) == if IsFlush(hand) then Strength(6, SortDesc(Ranks(hand))) else Strength(4, [t, x, y])
  {
    SortedRanks(hand);
    ThreeClassify(SortDesc(Ranks(hand)), IsFlush(hand), t, x, y);
  }

  lemma ThreeClassify(r: seq<int>, flush: bool, t: int, x: int, y: int)
    requires |r| == 5 && Desc(r) && multiset(r) == multiset{t, t, t, x, y} && x > y && t != x && t != y
    ensures Classify(r, flush) == if flush then Strength(6, r) else Strength(4, [t, x, y])
  {
    var cnt := [Group(t, 3), Group(x, 1), Group(y, 1)];
    var st := StraightTest(false, r[0]);
    ThreeShape(r, t, x, y);
    CountsOfThree(cnt[0], cnt[1], cnt[2]);
    ClassifyIs(r, flush, st, cnt);
    if !flush {
      SortedTwo(x, y);
    }
  }

  lemma ThreeShape(r: seq<int>, t: int, x: int, y: int)
    requires Desc(r) && multiset(r) == multiset{t, t, t, x, y} && x > y && t != x && t != y
    ensures MostCommon(r) == [Group(t, 3), Group(x, 1), Group(y, 1)] && |Uniq(r)| == 3
    ensures Without(r, t) == [x, y]
  {
    var m := multiset{t, t, t, x, y};
    var cnt := [Group(t, 3), Group(x, 1), Group(y, 1)];
    ThreeCounts(m, cnt, t, x, y);
    Groups(r, m, cnt);
    SortedTwo(x, y);
    WithoutIs(r, t, [x, y]);
  }

  lemma ThreeCounts(m: multiset<int>, cnt: seq<Group>, t: int, x: int, y: int)
    requires m == multiset{t, t, t, x, y} && x > y && t != x && t != y
    requires cnt == [Group(t, 3), Group(x, 1), Group(y, 1)]
    ensures Describes(m, cnt) && m[t := 0] == multiset{x, y}
  {
    ValuesOfThree(cnt[0], cnt[1], cnt[2]);
  }

  /** Two pair: category 3 with the higher pair, the lower pair and the kicker, unless a flush. */
  lemma TwoPair(hand: seq<Card>, p: int, q: int, k: int)
    requires |hand| == 5
    requires multiset(Ranks(hand)) == multiset{p, p, q, q, k} && p > q && k != p && k != q
    ensures HandRank(hand) == if IsFlush(hand) then Strength(6, SortDesc(Ranks(hand))) else Strength(3, [p, q, k])
  {
    SortedRanks(hand);
    TwoPairClassify(SortDesc(Ranks(hand)), IsFlush(hand), p, q, k);
  }

  lemma TwoPairClassify(r: seq<int>, flush: bool, p: int, q: int, k: int)
    requires |r| == 5 && Desc(r) && multiset(r) == multiset{p, p, q, q, k} && p > q && k != p && k != q
    ensures Classify(r, flush) == if flush then Strength(6, r) else Strength(3, [p, q, k])
  {
    var cnt := [Group(p, 2), Group(q, 2), Group(k, 1)];
    var st := StraightTest(false, r[0]);
    TwoPairShape(r, p, q, k);
    CountsOfThree(cnt[0], cnt[1], cnt[2]);
    ClassifyIs(r, flush, st, cnt);
  }

  lemma TwoPairShape(r: seq<int>, p: int, q: int, k: int)
    requires Desc(r) && multiset(r) == multiset{p, p, q, q, k} && p > q && k != p && k != q
    ensures MostCommon(r) == [Group(p, 2), Group(q, 2), Group(k, 1)] && |Uniq(r)| == 3
    ensures SortDesc(PairedValues(MostCommon(r))) == [p, q]
    ensures WithoutAll(r, [p, q]) == [k]
  {
    var m := multiset{p, p, q, q, k};
    var cnt := [Group(p, 2), Group(q, 2), Group(k, 1)];
    TwoPairCounts(m, cnt, p, q, k);
    Groups(r, m, cnt);
    SortedTwo(p, q);
    WithoutAllIs(r, [p, q], [k]);
  }

  lemma TwoPairCounts(m: multiset<int>, cnt: seq<Group>, p: int, q: int, k: int)
    requires m == multiset{p, p, q, q, k} && p > q && k != p && k != q
    requires cnt == [Group(p, 2), Group(q, 2), Group(k, 1)]
    ensures Describes(m, cnt) && PairedValues(cnt) == [p, q]
    ensures forall x :: multiset([k])[x] == if x in [p, q] then 0 else m[x]
  {
    ValuesOfThree(cnt[0], cnt[1], cnt[2]);
    assert PairedValues(cnt[2..]) == [];
    assert cnt[1..][1..] == cnt[2..];
  }

  /** One pair: category 2 with the pair's rank and the kickers descending, unless a flush. */
  lemma OnePair(hand: seq<Card>, p: int, x: int, y: int, z: int)
    requires |hand| == 5
    requires multiset(Ranks(hand)) == multiset{p, p, x, y, z} && x > y > z && p != x && p != y && p != z
    ensures HandRank(hand) == if IsFlush(hand) then Strength(6, SortDesc(Ranks(hand))) else Strength(2, [p, x, y, z])
  {
    SortedRanks(hand);
    OnePairClassify(SortDesc(Ranks(hand)), IsFlush(hand), p, x, y, z);
  }

  lemma OnePairClassify(r: seq<int>, flush: bool, p: int, x: int, y: int, z: int)
    requires |r| == 5 && Desc(r) && multiset(r) == multiset{p, p, x, y, z} && x > y > z && p != x && p != y && p != z
    ensures Classify(r, flush) == if flush then Strength(6, r) else Strength(2, [p, x, y, z])
  {
    var cnt := [Group(p, 2), Group(x, 1), Group(y, 1), Group(z, 1)];
    var st := StraightTest(false, r[0]);
    OnePairShape(r, p, x, y, z);
    CountsOfFour(cnt[0], cnt[1], cnt[2], cnt[3]);
    ClassifyIs(r, flush, st, cnt);
    if !flush {
      SortedThree(x, y, z);
    }
  }

  lemma OnePairShape(r: seq<int>, p: int, x: int, y: int, z: int)
    requires Desc(r) && multiset(r) == multiset{p, p, x, y, z} && x > y > z && p != x && p != y && p != z
    ensures MostCommon(r) == [Group(p, 2), Group(x, 1), Group(y, 1), Group(z, 1)] && |Uniq(r)| == 4
    ensures Without(r, p) == [x, y, z]
  {
    var m := multiset{p, p, x, y, z};
    var cnt := [Group(p, 2), Group(x, 1), Group(y, 1), Group(z, 1)];
    OnePairCounts(m, cnt, p, x, y, z);
    Groups(r, m, cnt);
    SortedThree(x, y, z);
    WithoutIs(r, p, [x, y, z]);
  }

  lemma OnePairCounts(m: multiset<int>, cnt: seq<Group>, p: int, x: int, y: int, z: int)
    requires m == multiset{p, p, x, y, z} && x > y > z && p != x && p != y && p != z
    requires cnt == [Group(p, 2), Group(x, 1), Group(y, 1), Group(z, 1)]
    ensures Describes(m, cnt) && m[p := 0] == multiset{x, y, z}
  {
    ValuesOfFour(cnt[0], cnt[1], cnt[2], cnt[3]);
  }

  /**
   * Five equal ranks, which only a repeated card allows: the count of five
   * passes every count test, so the hand is a flush or a high card.
   */
  lemma FiveOfAKind(hand: seq<Card>, v: int)
    requires |hand| == 5
    requires multiset(Ranks(hand)) == multiset{v, v, v, v, v}
    ensures HandRank(hand) == if IsFlush(hand) then Strength(6, [v, v, v, v, v]) else Strength(1, [v, v, v, v, v])
  {
    var r := SortDesc(Ranks(hand));
    SortedRanks(hand);
    FiveClassify(r, IsFlush(hand), v);
    FiveSorted(r, v);
  }

  lemma FiveClassify(r: seq<int>, flush: bool, v: int)
    requires |r| == 5 && Desc(r) && multiset(r) == multiset{v, v, v, v, v}
    ensures Classify(r, flush) == if flush then Strength(6, r) else Strength(1, r)
  {
    var cnt := [Group(v, 5)];
    var st := StraightTest(false, r[0]);
    FiveShape(r, v);
    assert CountsOf(cnt) == [5];
    ClassifyIs(r, flush, st, cnt);
  }

  lemma FiveSorted(r: seq<int>, v: int)
    requires Desc(r) && multiset(r) == multiset{v, v, v, v, v}
    ensures r == [v, v, v, v, v]
  {
    SortedUnique(r, [v, v, v, v, v]);
  }

  lemma FiveShape(r: seq<int>, v: int)
    requires Desc(r) && multiset(r) == multiset{v, v, v, v, v}
    ensures MostCommon(r) == [Group(v, 5)] && |Uniq(r)| == 1
  {
    var m := multiset{v, v, v, v, v};
    var cnt := [Group(v, 5)];
    assert Describes(m, cnt) by {
      assert ValuesOf(cnt) == [v];
    }
    Groups(r, m, cnt);
  }

  // ---------------------------------------------------------------------
  // Five distinct ranks
  // ---------------------------------------------------------------------

  /** A strictly descending list holds each value at most once. */
  lemma {:induction false} StrictCount(s: seq<int>, x: int)
    requires StrictDesc(s)
    ensures multiset(s)[x] <= 1
  {
    if s != [] {
      StrictCount(s[1..], x);
      HeadNotInTail(s);
      assert s == [s[0]] + s[1..];
    }
  }

  /** Five distinct ranks: `sorted(set(ranks))` is their reverse and every count is one. */
  lemma DistinctShape(r: seq<int>)
    requires |r| == 5 && StrictDesc(r)
    ensures Uniq(r) == [r[4], r[3], r[2], r[1], r[0]]
    ensures |MostCommon(r)| > 0 && MostCommon(r)[0].count == 1
  {
    DistinctUniq(r);
    DistinctCounts(r);
  }

  lemma DistinctUniq(r: seq<int>)
    requires |r| == 5 && StrictDesc(r)
    ensures Uniq(r) == [r[4], r[3], r[2], r[1], r[0]]
  {
    DedupIs(r, r);
    ReverseFacts(r);
  }

  lemma DistinctCounts(r: seq<int>)
    requires StrictDesc(r) && |r| > 0
    ensures |MostCommon(r)| > 0 && MostCommon(r)[0].count == 1
  {
    var c := MostCommon(r);
    MostCommonMembers(r);
    TallyHead(r);
    assert c[0] in c;
    StrictCount(r, c[0].value);
  }

  lemma DistinctSorted(r: seq<int>, a: int, b: int, c: int, d: int, e: int)
    requires Desc(r) && multiset(r) == multiset{a, b, c, d, e} && a > b > c > d > e
    ensures r == [a, b, c, d, e] && StrictDesc(r)
  {
    SortedUnique(r, [a, b, c, d, e]);
  }

  lemma NoPairClassify(r: seq<int>, flush: bool)
    requires |r| == 5 && StrictDesc(r)
    requires r[0] != r[4] + 4 && r != [14, 5, 4, 3, 2]
    ensures Classify(r, flush) == if flush then Strength(6, r) else Strength(1, r)
  {
    var cnt := MostCommon(r);
    var st := StraightTest(false, r[0]);
    DistinctShape(r);
    ClassifyIs(r, flush, st, cnt);
  }

  lemma StraightClassify(r: seq<int>, flush: bool)
    requires |r| == 5 && StrictDesc(r) && r[0] == r[4] + 4
    ensures Classify(r, flush) == if flush then Strength(9, [r[0]]) else Strength(5, [r[0]])
  {
    var cnt := MostCommon(r);
    var st := StraightTest(true, r[0]);
    DistinctShape(r);
    ClassifyIs(r, flush, st, cnt);
  }

  lemma WheelClassify(r: seq<int>, flush: bool)
    requires r == [14, 5, 4, 3, 2]
    ensures Classify(r, flush) == if flush then Strength(9, [5]) else Strength(5, [5])
  {
    var cnt := MostCommon(r);
    var st := StraightTest(true, 5);
    DistinctShape(r);
    ClassifyIs(r, flush, st, cnt);
  }

  /**
   * Five distinct ranks that form no straight: category 6 with all ranks
   * descending when the suits agree, category 1 otherwise.
   */
  lemma NoPair(hand: seq<Card>, a: int, b: int, c: int, d: int, e: int)
    requires |hand| == 5
    requires multiset(Ranks(hand)) == multiset{a, b, c, d, e} && a > b > c > d > e
    requires a != e + 4 && [a, b, c, d, e] != [14, 5, 4, 3, 2]
    ensures HandRank(hand) == if IsFlush(hand) then Strength(6, [a, b, c, d, e]) else Strength(1, [a, b, c, d, e])
  {
    var r := SortDesc(Ranks(hand));
    SortedRanks(hand);
    DistinctSorted(r, a, b, c, d, e);
    NoPairClassify(r, IsFlush(hand));
  }

  /** Five consecutive ranks: a straight with high card `h`, category 9 when the suits agree, else 5. */
  lemma Straight(hand: seq<Card>, h: int)
    requires |hand| == 5
    requires multiset(Ranks(hand)) == multiset{h, h - 1, h - 2, h - 3, h - 4}
    ensures HandRank(hand) == if IsFlush(hand) then Strength(9, [h]) else Strength(5, [h])
  {
    var r := SortDesc(Ranks(hand));
    SortedRanks(hand);
    DistinctSorted(r, h, h - 1, h - 2, h - 3, h - 4);
    StraightClassify(r, IsFlush(hand));
  }

  /** A-2-3-4-5 is a straight whose high card is the five. */
  lemma Wheel(hand: seq<Card>)
    requires |hand| == 5
    requires multiset(Ranks(hand)) == multiset{14, 5, 4, 3, 2}
    ensures HandRank(hand) == if IsFlush(hand) then Strength(9, [5]) else Strength(5, [5])
  {
    var r := SortDesc(Ranks(hand));
    SortedRanks(hand);
    DistinctSorted(r, 14, 5, 4, 3, 2);
    WheelClassify(r, IsFlush(hand));
  }
}
