/** Lines of text. */
module Text {

  lemma Assoc<T>(a: seq<T>, b: seq<T>, c: seq<T>)
    ensures a + (b + c) == a + b + c
  {
  }

  /** The part before the first line break. */
  function FirstLine(s: string): (l: string)
    ensures |l| <= |s| && l == s[..|l|]
    ensures '\n' !in l
    ensures |l| < |s| ==> s[|l|] == '\n'
  {
    if s == "" || s[0] == '\n' then "" else [s[0]] + FirstLine(s[1..])
  }

  function Split(s: string): (ls: seq<string>)
    ensures |ls| >= 1
    decreases |s|
  {
    var l := FirstLine(s);
    if |l| == |s| then [l] else [l] + Split(s[|l| + 1..])
  }

  lemma {:induction false} FirstLineIs(l: string, s: string)
    requires '\n' !in l
    requires s == "" || s[0] == '\n'
    ensures FirstLine(l + s) == l
  {
    if l == "" {
      assert l + s == s;
    } else {
      assert (l + s)[1..] == l[1..] + s;
      FirstLineIs(l[1..], s);
    }
  }
}
