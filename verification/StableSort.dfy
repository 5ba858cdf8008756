/** A stable sort by a rank, and why there is only one. */
module StableSort {

  /** An element with the rank it is sorted by. */
  datatype Keyed<T> = Keyed(rank: real, item: T)

  /** Puts an element behind every element of no greater rank. */
  function InsertLast<T>(s: seq<Keyed<T>>, x: Keyed<T>): seq<Keyed<T>> {
    if s == [] || s[|s| - 1].rank <= x.rank then s + [x]
    else InsertLast(s[..|s| - 1], x) + [s[|s| - 1]]
  }

  function Sort<T>(s: seq<Keyed<T>>): seq<Keyed<T>> {
    if s == [] then [] else InsertLast(Sort(s[..|s| - 1]), s[|s| - 1])
  }

  /** No element stands before one of smaller rank. */
  ghost predicate Sorted<T>(s: seq<Keyed<T>>) {
    forall i, j :: 0 <= i < j < |s| ==> s[i].rank <= s[j].rank
  }

  /** The elements of one rank, in their order. */
  function OfRank<T>(s: seq<Keyed<T>>, r: real): seq<Keyed<T>> {
    if s == [] then []
    else OfRank(s[..|s| - 1], r) + (if s[|s| - 1].rank == r then [s[|s| - 1]] else [])
  }

  lemma OneMore<T>(s: seq<Keyed<T>>, x: Keyed<T>, r: real)
    ensures OfRank(s + [x], r) == OfRank(s, r) + (if x.rank == r then [x] else [])
  {
    assert (s + [x])[..|s|] == s;
  }

  /** Two last elements of different ranks may change places. */
  lemma SwapLast<T>(s: seq<Keyed<T>>, x: Keyed<T>, y: Keyed<T>, r: real)
    requires x.rank != y.rank
    ensures OfRank(s + [x] + [y], r) == OfRank(s + [y] + [x], r)
  {
    OneMore(s, x, r);
    OneMore(s + [x], y, r);
    OneMore(s, y, r);
    OneMore(s + [y], x, r);
    assert OfRank(s, r) + [] == OfRank(s, r);
  }

  lemma {:induction false} InsertKeepsRanks<T>(s: seq<Keyed<T>>, x: Keyed<T>, r: real)
    ensures OfRank(InsertLast(s, x), r) == OfRank(s + [x], r)
  {
    if s != [] && s[|s| - 1].rank > x.rank {
      var front, last := s[..|s| - 1], s[|s| - 1];
      InsertKeepsRanks(front, x, r);
      OneMore(InsertLast(front, x), last, r);
      OneMore(front + [x], last, r);
      SwapLast(front, x, last, r);
      assert front + [last] == s;
    }
  }

  lemma {:induction false} InsertMembers<T>(s: seq<Keyed<T>>, x: Keyed<T>)
    ensures |InsertLast(s, x)| == |s| + 1
    ensures forall y | y in InsertLast(s, x) :: y in s || y == x
  {
    if s != [] && s[|s| - 1].rank > x.rank {
      InsertMembers(s[..|s| - 1], x);
    }
  }

  lemma {:induction false} InsertSorted<T>(s: seq<Keyed<T>>, x: Keyed<T>)
    requires Sorted(s)
    ensures Sorted(InsertLast(s, x))
  {
    if s != [] && s[|s| - 1].rank > x.rank {
      var front, last := s[..|s| - 1], s[|s| - 1];
      InsertSorted(front, x);
      InsertMembers(front, x);
      var before := InsertLast(front, x);
      forall i | 0 <= i < |before|
        ensures before[i].rank <= last.rank
      {
        assert before[i] in front || before[i] == x;
      }
    }
  }

  lemma {:induction false} SortMembers<T>(s: seq<Keyed<T>>)
    ensures |Sort(s)| == |s|
    ensures forall y | y in Sort(s) :: y in s
  {
    if s != [] {
      SortMembers(s[..|s| - 1]);
      InsertMembers(Sort(s[..|s| - 1]), s[|s| - 1]);
    }
  }

  /** The result is sorted, and the elements of each rank are those of the input in their old order. */
  lemma {:induction false} SortIsStable<T>(s: seq<Keyed<T>>, r: real)
    ensures Sorted(Sort(s))
    ensures OfRank(Sort(s), r) == OfRank(s, r)
  {
    if s == [] {
      return;
    }
    hide OfRank, InsertLast, Sorted;
    var front, last := s[..|s| - 1], s[|s| - 1];
    SortIsStable(front, r);
    InsertSorted(Sort(front), last);
    InsertKeepsRanks(Sort(front), last, r);
    OneMore(Sort(front), last, r);
    OneMore(front, last, r);
    assert front + [last] == s;
  }

  lemma {:induction false} OfRankHas<T>(s: seq<Keyed<T>>, i: nat)
    requires i < |s|
    ensures OfRank(s, s[i].rank) != []
  {
    if i < |s| - 1 {
      OfRankHas(s[..|s| - 1], i);
    }
  }

  lemma {:induction false} OfRankFinds<T>(s: seq<Keyed<T>>, r: real) returns (i: nat)
    requires OfRank(s, r) != []
    ensures i < |s| && s[i].rank == r
  {
    if s[|s| - 1].rank == r {
      i := |s| - 1;
    } else {
      i := OfRankFinds(s[..|s| - 1], r);
    }
  }

  /** Neither of two such arrangements ends in a greater rank than the other. */
  lemma LastRankNoGreater<T>(a: seq<Keyed<T>>, b: seq<Keyed<T>>)
    requires a != [] && Sorted(b)
    requires OfRank(a, a[|a| - 1].rank) == OfRank(b, a[|a| - 1].rank)
    ensures b != [] && a[|a| - 1].rank <= b[|b| - 1].rank
  {
    OfRankHas(a, |a| - 1);
    var i := OfRankFinds(b, a[|a| - 1].rank);
    if i < |b| - 1 {
      assert b[i].rank <= b[|b| - 1].rank;
    }
  }

  lemma CutLast<T>(u: seq<Keyed<T>>, v: seq<Keyed<T>>, t: seq<Keyed<T>>)
    requires u + t == v + t
    ensures u == v
  {
    assert u == (u + t)[..|u + t| - |t|];
    assert v == (v + t)[..|v + t| - |t|];
  }

  lemma SameLast<T>(u: seq<Keyed<T>>, x: Keyed<T>, v: seq<Keyed<T>>, y: Keyed<T>)
    requires u + [x] == v + [y]
    ensures x == y
  {
    assert (u + [x])[|u + [x]| - 1] == x;
    assert (v + [y])[|v + [y]| - 1] == y;
  }

  /** Two arrangements that agree on every rank and end in the same rank end in the same element. */
  lemma LastAgrees<T>(fa: seq<Keyed<T>>, x: Keyed<T>, fb: seq<Keyed<T>>, y: Keyed<T>)
    requires x.rank == y.rank
    requires OfRank(fa + [x], x.rank) == OfRank(fb + [y], x.rank)
    ensures x == y
  {
    OneMore(fa, x, x.rank);
    OneMore(fb, y, x.rank);
    SameLast(OfRank(fa, x.rank), x, OfRank(fb, x.rank), y);
  }

  lemma FrontsAgree<T>(fa: seq<Keyed<T>>, fb: seq<Keyed<T>>, x: Keyed<T>, r: real)
    requires OfRank(fa + [x], r) == OfRank(fb + [x], r)
    ensures OfRank(fa, r) == OfRank(fb, r)
  {
    OneMore(fa, x, r);
    OneMore(fb, x, r);
    CutLast(OfRank(fa, r), OfRank(fb, r), if x.rank == r then [x] else []);
  }

  /** There is one stable sort: any two sorted arrangements that agree on every rank are the same. */
  lemma {:induction false} StableSortIsUnique<T>(a: seq<Keyed<T>>, b: seq<Keyed<T>>)
    requires Sorted(a) && Sorted(b)
    requires forall r :: OfRank(a, r) == OfRank(b, r)
    ensures a == b
    decreases |a|
  {
    hide OfRank;
    if a == [] {
      if b != [] {
        LastRankNoGreater(b, a);
      }
      return;
    }
    LastRankNoGreater(a, b);
    LastRankNoGreater(b, a);
    var fa, fb, x, y := a[..|a| - 1], b[..|b| - 1], a[|a| - 1], b[|b| - 1];
    assert a == fa + [x] && b == fb + [y];
    LastAgrees(fa, x, fb, y);
    forall r
      ensures OfRank(fa, r) == OfRank(fb, r)
    {
      assert OfRank(a, r) == OfRank(b, r);
      FrontsAgree(fa, fb, x, r);
    }
    StableSortIsUnique(fa, fb);
  }
}
