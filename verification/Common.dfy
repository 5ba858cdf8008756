/** Vocabulary shared by the models: optional values, identities, and windows onto a sequence. */
module Common {

  /** A value that may be missing. */
  datatype Option<+T> = None | Some(value: T)

  /** An identity; only equality is ever used. */
  type Uuid = nat

  /** The last `n` elements of `s`, or all of `s` when it is shorter. */
  function LastN<T>(s: seq<T>, n: nat): seq<T> {
    if |s| <= n then s else s[|s| - n..]
  }

  function Reverse<T>(s: seq<T>): (r: seq<T>)
    ensures |r| == |s|
    ensures forall i :: 0 <= i < |s| ==> r[i] == s[|s| - 1 - i]
  {
    if s == [] then [] else Reverse(s[1..]) + [s[0]]
  }

  function Filter<T>(keep: T -> bool, s: seq<T>): seq<T> {
    if s == [] then []
    else
      var rest := Filter(keep, s[..|s| - 1]);
      if keep(s[|s| - 1]) then rest + [s[|s| - 1]] else rest
  }

  lemma {:induction false} FilterConcat<T>(keep: T -> bool, a: seq<T>, b: seq<T>)
    ensures Filter(keep, a + b) == Filter(keep, a) + Filter(keep, b)
  {
    if b == [] {
      assert a + b == a;
    } else {
      FilterConcat(keep, a, b[..|b| - 1]);
      assert (a + b)[..|a + b| - 1] == a + b[..|b| - 1];
      assert (a + b)[|a + b| - 1] == b[|b| - 1];
    }
  }

  lemma SubsetCardinality<T>(a: set<T>, b: set<T>)
    requires a <= b
    ensures |a| <= |b|
  {
    assert b == a + (b - a);
  }

  /** A list none of whose elements is missing. */
  function Present<T>(s: seq<T>): (f: seq<Option<T>>)
    ensures |f| == |s|
  {
    if s == [] then [] else Present(s[..|s| - 1]) + [Some(s[|s| - 1])]
  }

  lemma {:induction false} PresentInPlace<T>(s: seq<T>)
    ensures forall i :: 0 <= i < |s| ==> Present(s)[i] == Some(s[i])
  {
    if s != [] {
      PresentInPlace(s[..|s| - 1]);
    }
  }

  lemma PresentOneMore<T>(s: seq<T>, x: T)
    ensures Present(s + [x]) == Present(s) + [Some(x)]
  {
    assert (s + [x])[..|s|] == s;
  }

  /** The elements of a list, each where it first occurs. */
  function FirstSeen<T(==)>(s: seq<T>): seq<T> {
    if s == [] then []
    else
      var before, x := FirstSeen(s[..|s| - 1]), s[|s| - 1];
      if x in before then before else before + [x]
  }

  lemma FirstSeenOneMore<T>(s: seq<T>, x: T)
    ensures FirstSeen(s + [x]) == if x in FirstSeen(s) then FirstSeen(s) else FirstSeen(s) + [x]
  {
    assert (s + [x])[..|s|] == s;
  }

  /** The same elements, each once. */
  lemma {:induction false} FirstSeenMeans<T>(s: seq<T>, x: T)
    ensures x in FirstSeen(s) <==> x in s
    ensures forall i, j :: 0 <= i < j < |FirstSeen(s)| ==> FirstSeen(s)[i] != FirstSeen(s)[j]
  {
    if s != [] {
      FirstSeenMeans(s[..|s| - 1], x);
      assert x in s <==> x in s[..|s| - 1] || x == s[|s| - 1];
    }
  }

  /** An element that is kept comes before those that it came before. */
  lemma {:induction false} FilterMeans<T>(keep: T -> bool, s: seq<T>, x: T)
    ensures x in Filter(keep, s) <==> x in s && keep(x)
    ensures (forall y | y in s :: keep(y)) ==> Filter(keep, s) == s
  {
    if s != [] {
      FilterMeans(keep, s[..|s| - 1], x);
      assert s == s[..|s| - 1] + [s[|s| - 1]];
      assert x in s <==> x in s[..|s| - 1] || x == s[|s| - 1];
      assert (forall y | y in s :: keep(y)) ==> forall y | y in s[..|s| - 1] :: keep(y);
      assert s[|s| - 1] in s;
    }
  }
}
