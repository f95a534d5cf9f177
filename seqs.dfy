/**
 * List operations on integers that hand evaluation and the chip ledger use:
 * Python's `sum`, `sorted(..., reverse=True)`, filtering comprehensions and
 * reversal. The functions carry no postconditions of their own; their facts
 * are lemmas that a proof calls where it needs them.
 */
module Seqs {

  /** `min(a, b)`. */
  function Min(a: int, b: int): int
  {
    if a <= b then a else b
  }

  /** Python's `sum` over a list of integers. */
  function Sum(s: seq<int>): int
  {
    if s == [] then 0 else s[0] + Sum(s[1..])
  }

  /** Non-increasing order, the order `sorted(..., reverse=True)` produces. */
  predicate Desc(s: seq<int>)
  {
    forall i, j :: 0 <= i < j < |s| ==> s[i] >= s[j]
  }

  predicate StrictDesc(s: seq<int>)
  {
    forall i, j :: 0 <= i < j < |s| ==> s[i] > s[j]
  }

  /** Inserts `x` into a descending list ahead of the first element not above it. */
  function Insert(x: int, s: seq<int>): seq<int>
  {
    if s == [] || x >= s[0] then [x] + s else [s[0]] + Insert(x, s[1..])
  }

  /** No element of a descending list exceeds its head. */
  lemma ElementBelowHead(s: seq<int>, y: int)
    requires Desc(s) && y in s
    ensures y <= s[0]
  {
  }

  lemma {:induction false} InsertMultiset(x: int, s: seq<int>)
    ensures multiset(Insert(x, s)) == multiset(s) + multiset{x}
  {
    if s != [] && x < s[0] {
      InsertMultiset(x, s[1..]);
      assert s == [s[0]] + s[1..];
    }
  }

  lemma {:induction false} InsertDesc(x: int, s: seq<int>)
    requires Desc(s)
    ensures Desc(Insert(x, s))
  {
    if s != [] && x < s[0] {
      var t := Insert(x, s[1..]);
      InsertDesc(x, s[1..]);
      InsertMultiset(x, s[1..]);
      forall k | 0 <= k < |t|
        ensures t[k] <= s[0]
      {
        assert t[k] in multiset(t);
        if t[k] != x {
          assert t[k] in multiset(s[1..]);
          ElementBelowHead(s, t[k]);
        }
      }
    }
  }

  /** `sorted(s, reverse=True)` on integers, as an insertion sort. */
  function SortDesc(s: seq<int>): seq<int>
  {
    if s == [] then [] else Insert(s[0], SortDesc(s[1..]))
  }

  /** Sorting yields a descending permutation. */
  lemma {:induction false} SortDescMultiset(s: seq<int>)
    ensures multiset(SortDesc(s)) == multiset(s)
  {
    if s != [] {
      SortDescMultiset(s[1..]);
      InsertMultiset(s[0], SortDesc(s[1..]));
      assert s == [s[0]] + s[1..];
    }
  }

  lemma {:induction false} SortDescDesc(s: seq<int>)
    ensures Desc(SortDesc(s))
  {
    if s != [] {
      SortDescDesc(s[1..]);
      InsertDesc(s[0], SortDesc(s[1..]));
    }
  }

  lemma SortDescFacts(s: seq<int>)
    ensures Desc(SortDesc(s))
    ensures multiset(SortDesc(s)) == multiset(s)
    ensures |SortDesc(s)| == |s|
  {
    SortDescDesc(s);
    SortDescMultiset(s);
    assert |multiset(SortDesc(s))| == |SortDesc(s)|;
  }

  /** The head of a descending sequence is its largest element. */
  lemma DescHeadMax(s: seq<int>, x: int)
    requires Desc(s) && x in multiset(s)
    ensures s != [] && x <= s[0]
  {
    var k :| 0 <= k < |s| && s[k] == x;
    assert s[0] >= s[k];
  }

  /** The tail of a descending sequence is descending. */
  lemma DescTail(s: seq<int>)
    requires Desc(s) && s != []
    ensures Desc(s[1..])
  {
    var t := s[1..];
    forall i, j | 0 <= i < j < |t|
      ensures t[i] >= t[j]
    {
      assert t[i] == s[i + 1] && t[j] == s[j + 1];
    }
  }

  /** Two sequences with the same elements and the same head have tails with the same elements. */
  lemma SameTails<T>(a: seq<T>, b: seq<T>)
    requires a != [] && b != [] && a[0] == b[0] && multiset(a) == multiset(b)
    ensures multiset(a[1..]) == multiset(b[1..])
  {
    assert a == [a[0]] + a[1..] && b == [b[0]] + b[1..];
    var ta, tb := multiset(a[1..]), multiset(b[1..]);
    forall c
      ensures ta[c] == tb[c]
    {
      assert (multiset{a[0]} + ta)[c] == (multiset{b[0]} + tb)[c];
    }
  }

  /** A descending sequence is determined by its multiset of elements. */
  lemma {:induction false} SortedUnique(a: seq<int>, b: seq<int>)
    requires Desc(a) && Desc(b)
    requires multiset(a) == multiset(b)
    ensures a == b
  {
    assert |a| == |multiset(a)| == |multiset(b)| == |b|;
    if a != [] {
      assert a[0] in multiset(a);
      DescHeadMax(b, a[0]);
      DescHeadMax(a, b[0]);
      DescTail(a);
      DescTail(b);
      SameTails(a, b);
      SortedUnique(a[1..], b[1..]);
      assert a == [a[0]] + a[1..] && b == [b[0]] + b[1..];
    }
  }

  /** In a descending sequence whose first two elements differ, the first does not recur. */
  lemma HeadNotInTail(s: seq<int>)
    requires Desc(s) && |s| > 0
    requires |s| > 1 ==> s[0] != s[1]
    ensures s[0] !in s[1..]
  {
    assert forall k :: 1 <= k < |s| ==> s[k] <= s[1];
  }

  /** Sorting a sequence that is already descending changes nothing. */
  lemma SortDescOfSorted(s: seq<int>)
    requires Desc(s)
    ensures SortDesc(s) == s
  {
    SortDescFacts(s);
    SortedUnique(SortDesc(s), s);
  }

  /** Sorting yields the expected descending sequence when the elements agree. */
  lemma SortDescIs(s: seq<int>, expected: seq<int>)
    requires Desc(expected) && multiset(s) == multiset(expected)
    ensures SortDesc(s) == expected
  {
    SortDescFacts(s);
    SortedUnique(SortDesc(s), expected);
  }

  /** `[r for r in s if r != v]`. */
  function Without(s: seq<int>, v: int): seq<int>
  {
    if s == [] then []
    else if s[0] == v then Without(s[1..], v)
    else [s[0]] + Without(s[1..], v)
  }

  /** Filtering out `v` drops all its copies and keeps every other element. */
  lemma {:induction false} WithoutCount(s: seq<int>, v: int)
    ensures multiset(Without(s, v)) == multiset(s)[v := 0]
  {
    if s != [] {
      WithoutCount(s[1..], v);
      assert s == [s[0]] + s[1..];
    }
  }

  lemma {:induction false} WithoutMember(s: seq<int>, v: int, y: int)
    requires y in Without(s, v)
    ensures y in s && y != v
  {
    if y != s[0] || s[0] == v {
      WithoutMember(s[1..], v, y);
    }
  }

  lemma {:induction false} WithoutDesc(s: seq<int>, v: int)
    requires Desc(s)
    ensures Desc(Without(s, v))
  {
    if s != [] {
      var t := Without(s[1..], v);
      WithoutDesc(s[1..], v);
      if s[0] != v {
        forall k | 0 <= k < |t|
          ensures t[k] <= s[0]
        {
          WithoutMember(s[1..], v, t[k]);
          ElementBelowHead(s, t[k]);
        }
      }
    }
  }

  lemma {:induction false} WithoutLength(s: seq<int>, v: int)
    ensures |Without(s, v)| == |s| - multiset(s)[v]
  {
    if s != [] {
      WithoutLength(s[1..], v);
      assert s == [s[0]] + s[1..];
    }
  }

  /** `[r for r in s if r not in vs]`. */
  function WithoutAll(s: seq<int>, vs: seq<int>): seq<int>
  {
    if s == [] then []
    else if s[0] in vs then WithoutAll(s[1..], vs)
    else [s[0]] + WithoutAll(s[1..], vs)
  }

  /** Filtering out the members of `vs` drops their copies and keeps every other element. */
  lemma {:induction false} WithoutAllCount(s: seq<int>, vs: seq<int>)
    ensures forall x :: multiset(WithoutAll(s, vs))[x] == if x in vs then 0 else multiset(s)[x]
  {
    if s != [] {
      WithoutAllCount(s[1..], vs);
      assert s == [s[0]] + s[1..];
    }
  }

  lemma {:induction false} WithoutAllMember(s: seq<int>, vs: seq<int>, y: int)
    requires y in WithoutAll(s, vs)
    ensures y in s && y !in vs
  {
    if y != s[0] || s[0] in vs {
      WithoutAllMember(s[1..], vs, y);
    }
  }

  lemma {:induction false} WithoutAllDesc(s: seq<int>, vs: seq<int>)
    requires Desc(s)
    ensures Desc(WithoutAll(s, vs))
  {
    if s != [] {
      var t := WithoutAll(s[1..], vs);
      WithoutAllDesc(s[1..], vs);
      if s[0] !in vs {
        forall k | 0 <= k < |t|
          ensures t[k] <= s[0]
        {
          WithoutAllMember(s[1..], vs, t[k]);
          ElementBelowHead(s, t[k]);
        }
      }
    }
  }

  function Reverse<T>(s: seq<T>): seq<T>
  {
    if s == [] then [] else Reverse(s[1..]) + [s[0]]
  }

  lemma {:induction false} ReverseFacts<T>(s: seq<T>)
    ensures |Reverse(s)| == |s|
    ensures forall i :: 0 <= i < |s| ==> Reverse(s)[i] == s[|s| - 1 - i]
  {
    if s != [] {
      ReverseFacts(s[1..]);
    }
  }

  /**
   * Two sequences that are strictly ordered by the same asymmetric relation
   * and hold the same elements are equal.
   */
  lemma {:induction false} StrictlyOrderedUnique<T>(a: seq<T>, b: seq<T>, lt: (T, T) -> bool)
    requires forall x, y :: lt(x, y) ==> !lt(y, x)
    requires forall i, j :: 0 <= i < j < |a| ==> lt(a[i], a[j])
    requires forall i, j :: 0 <= i < j < |b| ==> lt(b[i], b[j])
    requires forall x :: x in a <==> x in b
    ensures a == b
  {
    assert a != [] ==> a[0] in b;
    assert b != [] ==> b[0] in a;
    if a != [] {
      var k :| 0 <= k < |b| && b[k] == a[0];
      var m :| 0 <= m < |a| && a[m] == b[0];
      assert lt(b[0], b[k]) || k == 0;
      assert lt(a[0], a[m]) || m == 0;
      assert a[0] == b[0];
      var a', b' := a[1..], b[1..];
      forall x
        ensures x in a' <==> x in b'
      {
        if x in a' {
          var i :| 1 <= i < |a| && a[i] == x;
          assert lt(a[0], a[i]);
          assert x in b;
        }
        if x in b' {
          var i :| 1 <= i < |b| && b[i] == x;
          assert lt(b[0], b[i]);
          assert x in a;
        }
      }
      forall i, j | 0 <= i < j < |a'|
        ensures lt(a'[i], a'[j])
      {
        assert a'[i] == a[i + 1] && a'[j] == a[j + 1];
      }
      forall i, j | 0 <= i < j < |b'|
        ensures lt(b'[i], b'[j])
      {
        assert b'[i] == b[i + 1] && b'[j] == b[j + 1];
      }
      StrictlyOrderedUnique(a', b', lt);
      assert a == [a[0]] + a[1..] && b == [b[0]] + b[1..];
    }
  }
}
