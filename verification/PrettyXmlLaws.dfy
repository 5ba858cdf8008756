/** What re-indenting keeps: all characters other than white space, and itself when done again. */
module PrettyXmlLaws {
  import opened Text
  import opened PrettyXml

  // ---- content ----

  /** The characters that are not white space, in order. */
  function Content(s: string): string {
    if s == "" then "" else (if IsSpace(s[0]) then "" else [s[0]]) + Content(s[1..])
  }

  function ContentOfLines(ls: seq<string>): string {
    if ls == [] then "" else Content(ls[0]) + ContentOfLines(ls[1..])
  }

  lemma {:induction false} ContentConcat(a: string, b: string)
    ensures Content(a + b) == Content(a) + Content(b)
  {
    if a == "" {
      assert a + b == b;
    } else {
      ContentConcat(a[1..], b);
      assert (a + b)[1..] == a[1..] + b;
      Assoc(if IsSpace(a[0]) then "" else [a[0]], Content(a[1..]), Content(b));
    }
  }

  lemma {:induction false} ContentOfSpace(s: string)
    requires AllSpace(s)
    ensures Content(s) == ""
  {
    if s != "" {
      ContentOfSpace(s[1..]);
    }
  }

  lemma {:induction false} ContentOfStrip(s: string)
    ensures Content(Strip(s)) == Content(s)
  {
    if s != "" && IsSpace(s[0]) {
      ContentOfStrip(s[1..]);
    }
  }

  lemma {:induction false} ContentOfStripEnd(s: string)
    ensures Content(StripEnd(s)) == Content(s)
  {
    if s != "" && IsSpace(s[|s| - 1]) {
      var front := s[..|s| - 1];
      ContentOfStripEnd(front);
      ContentConcat(front, [s[|s| - 1]]);
      ContentOfSpace([s[|s| - 1]]);
      assert front + [s[|s| - 1]] == s;
    }
  }

  lemma {:induction false} ContentOfBreakTags(s: string)
    ensures Content(BreakTags(s)) == Content(s)
    decreases |s|
  {
    if s != "" {
      if s[0] == '>' && StartsTag(Strip(s[1..])) {
        var rest := Strip(s[1..]);
        ContentOfBreakTags(rest);
        ContentOfStrip(s[1..]);
        ContentConcat(">\n", BreakTags(rest));
        assert Content(">\n") == ">" by {
          assert ">\n"[1..] == "\n";
          ContentOfSpace("\n");
        }
      } else {
        ContentOfBreakTags(s[1..]);
        assert ([s[0]] + BreakTags(s[1..]))[1..] == BreakTags(s[1..]);
      }
    }
  }

  lemma ContentAcrossBreak(l: string, rest: string)
    ensures Content(l + "\n" + rest) == Content(l) + Content(rest)
  {
    Assoc(l, "\n", rest);
    ContentConcat(l, "\n" + rest);
    assert ("\n" + rest)[1..] == rest;
  }

  lemma SplitUnrolled(s: string)
    ensures var l := FirstLine(s);
            && (|l| == |s| ==> l == s && NonBlank(s) == Keep(Trim(s)))
            && (|l| < |s| ==>
                  && s == l + "\n" + s[|l| + 1..]
                  && NonBlank(s) == Keep(Trim(l)) + NonBlank(s[|l| + 1..]))
  {
    var l := FirstLine(s);
    if |l| == |s| {
      assert TrimmedLines([]) == [] && Keep(Trim(l)) + [] == Keep(Trim(l)) && [l][1..] == [];
    } else {
      SplitAtBreak(s);
      TrimmedFirst(l, Split(s[|l| + 1..]));
    }
  }

  lemma SplitAtBreak(s: string)
    requires |FirstLine(s)| < |s|
    ensures var l := FirstLine(s);
            s == l + "\n" + s[|l| + 1..] && Split(s) == [l] + Split(s[|l| + 1..])
  {
    hide FirstLine, NonBlank, Trim;
    var l := FirstLine(s);
    assert s[|l|] == '\n';
    assert s == l + [s[|l|]] + s[|l| + 1..];
  }

  lemma TrimmedFirst(l: string, ls: seq<string>)
    ensures TrimmedLines([l] + ls) == Keep(Trim(l)) + TrimmedLines(ls)
  {
    assert ([l] + ls)[1..] == ls;
  }

  lemma {:induction false} ContentOfNonBlank(s: string)
    ensures ContentOfLines(NonBlank(s)) == Content(s)
    decreases |s|
  {
    var l := FirstLine(s);
    SplitUnrolled(s);
    ContentOfStrip(l);
    ContentOfStripEnd(Strip(l));
    if |l| == |s| {
      ContentOfKept(l, []);
      assert Keep(Trim(l)) + [] == Keep(Trim(l));
    } else {
      ContentOfNonBlank(s[|l| + 1..]);
      ContentOfKept(l, NonBlank(s[|l| + 1..]));
      ContentAcrossBreak(l, s[|l| + 1..]);
    }
  }

  lemma ContentOfKept(l: string, ls: seq<string>)
    ensures ContentOfLines(Keep(Trim(l)) + ls) == Content(Trim(l)) + ContentOfLines(ls)
  {
    if Trim(l) == "" {
      assert [] + ls == ls;
    } else {
      assert ([Trim(l)] + ls)[1..] == ls;
    }
  }

  lemma ContentOfIndented(depth: nat, line: string)
    ensures Content(Indent(depth) + line) == Content(line)
  {
    ContentConcat(Indent(depth), line);
    ContentOfSpace(Indent(depth));
  }

  lemma ContentOfJoin(first: string, rest: seq<string>)
    ensures Content(JoinLines([first] + rest)) == Content(first) + Content(JoinLines(rest))
  {
    assert ([first] + rest)[1..] == rest;
    if rest != [] {
      ContentAcrossBreak(first, JoinLines(rest));
    } else {
      assert Content(first) + "" == Content(first);
    }
  }

  lemma {:induction false} ContentOfLayout(ls: seq<string>, depth: nat)
    ensures Content(JoinLines(Layout(ls, depth))) == ContentOfLines(ls)
  {
    if ls != [] {
      var at := DepthAt(ls[0], depth);
      var next := DepthAfter(ls[0], at);
      ContentOfLayout(ls[1..], next);
      ContentOfIndented(at, ls[0]);
      ContentOfJoin(Indent(at) + ls[0], Layout(ls[1..], next));
    }
  }

  /** Re-indenting keeps the sequence of characters other than white space, on every string. */
  lemma PrettyKeepsContent(s: string)
    ensures Content(Pretty(s)) == Content(s)
  {
    ContentOfLayout(Logical(s), 0);
    ContentOfNonBlank(BreakTags(s));
    ContentOfBreakTags(s);
  }

  // ---- clean lines ----

  /** No ">", white space, "<" in it. */
  predicate TightFree(s: string) {
    s != "" ==> TightFree(s[1..]) && (s[0] == '>' ==> !StartsTag(Strip(s[1..])))
  }

  predicate Clean(l: string) {
    l != "" && !IsSpace(l[0]) && !IsSpace(l[|l| - 1]) && '\n' !in l && TightFree(l)
  }

  predicate AllClean(ls: seq<string>) {
    forall i :: 0 <= i < |ls| ==> Clean(ls[i])
  }

  // ---- reading lines back ----

  lemma {:induction false} StripSpaces(w: string, s: string)
    requires AllSpace(w)
    ensures Strip(w + s) == Strip(s)
  {
    if w == "" {
      assert w + s == s;
    } else {
      assert (w + s)[1..] == w[1..] + s;
      StripSpaces(w[1..], s);
    }
  }

  lemma TrimOfClean(l: string)
    requires Clean(l)
    ensures Trim(l) == l
  {
  }

  /** A clean line in front, with its line break, is read as the first line. */
  lemma NonBlankFirst(l: string, s: string)
    requires Clean(l)
    ensures NonBlank(l + "\n" + s) == [l] + NonBlank(s)
    ensures NonBlank(l) == [l]
  {
    TrimOfClean(l);
    Assoc(l, "\n", s);
    FirstLineIs(l, "\n" + s);
    var whole := l + "\n" + s;
    assert whole[|l| + 1..] == s;
    assert Split(whole) == [l] + Split(s);
    assert ([l] + Split(s))[1..] == Split(s);
    FirstLineIs(l, "");
    assert l + "" == l;
    assert Split(l) == [l];
    assert TrimmedLines([]) == [] && [l] + [] == [l];
  }

  /** White space in front of the first line is not seen. */
  lemma NonBlankSkips(c: char, s: string)
    requires IsSpace(c)
    ensures NonBlank([c] + s) == NonBlank(s)
  {
    hide NonBlank;
    var whole := [c] + s;
    assert whole[1..] == s;
    var l := FirstLine(s);
    SplitUnrolled(whole);
    SplitUnrolled(s);
    if c == '\n' {
      assert FirstLine(whole) == "" && Keep(Trim("")) == [];
    } else {
      assert FirstLine(whole) == [c] + l;
      assert ([c] + l)[1..] == l;
      assert Trim([c] + l) == Trim(l);
      if |l| < |s| {
        assert whole[|l| + 2..] == s[|l| + 1..];
      }
    }
  }

  lemma {:induction false} LogicalSkips(w: string, s: string)
    requires AllSpace(w)
    ensures Logical(w + s) == Logical(s)
  {
    if w == "" {
      assert w + s == s;
    } else {
      assert w + s == [w[0]] + (w[1..] + s);
      assert ([w[0]] + (w[1..] + s))[1..] == w[1..] + s;
      LogicalSkips(w[1..], s);
      assert BreakTags(w + s) == [w[0]] + BreakTags(w[1..] + s);
      NonBlankSkips(w[0], BreakTags(w[1..] + s));
    }
  }

  lemma {:induction false} StripIsSuffix(s: string) returns (w: string)
    ensures AllSpace(w) && s == w + Strip(s)
  {
    if s != "" && IsSpace(s[0]) {
      var v := StripIsSuffix(s[1..]);
      w := [s[0]] + v;
      Assoc([s[0]], v, Strip(s));
      assert s == [s[0]] + s[1..];
    } else {
      w := "";
    }
  }

  lemma LogicalOfStrip(s: string)
    ensures Logical(Strip(s)) == Logical(s)
  {
    var w := StripIsSuffix(s);
    LogicalSkips(w, Strip(s));
  }

  lemma {:induction false} StripInside(s: string, y: string)
    requires s != "" && !IsSpace(s[|s| - 1])
    ensures Strip(s) != "" && Strip(s + y) == Strip(s) + y
  {
    if IsSpace(s[0]) {
      assert (s + y)[1..] == s[1..] + y;
      StripInside(s[1..], y);
    }
  }

  /** Breaking leaves a tight-free line alone up to its last character, whatever follows. */
  lemma {:induction false} BreakThrough(l: string, y: string)
    requires l != "" && !IsSpace(l[|l| - 1]) && TightFree(l)
    ensures BreakTags(l + y) == l[..|l| - 1] + BreakTags([l[|l| - 1]] + y)
  {
    if |l| == 1 {
      assert l[..0] == "" && [l[0]] == l;
    } else {
      var rest := l[1..];
      assert (l + y)[1..] == rest + y;
      StripInside(rest, y);
      BreakThrough(rest, y);
      assert l[..|l| - 1] == [l[0]] + rest[..|rest| - 1];
      Assoc([l[0]], rest[..|rest| - 1], BreakTags([l[|l| - 1]] + y));
    }
  }

  lemma LastAndFront(l: string)
    requires l != ""
    ensures l[..|l| - 1] + [l[|l| - 1]] == l
  {
  }

  /** A clean line followed by a line break reads as itself, then as what follows would read alone. */
  lemma LogicalFirstLine(l: string, z: string)
    requires Clean(l)
    ensures Logical(l + ("\n" + z)) == [l] + Logical(z)
  {
    var front, c := l[..|l| - 1], l[|l| - 1];
    LastAndFront(l);
    BreakThrough(l, "\n" + z);
    assert ([c] + ("\n" + z))[1..] == "\n" + z;
    assert ("\n" + z)[1..] == z;
    if c == '>' && StartsTag(Strip("\n" + z)) {
      var t := Strip(z);
      assert BreakTags([c] + ("\n" + z)) == [c] + "\n" + BreakTags(t);
      Assoc(front, [c] + "\n", BreakTags(t));
      Assoc(front, [c], "\n");
      NonBlankFirst(l, BreakTags(t));
      LogicalOfStrip(z);
    } else {
      assert BreakTags([c] + ("\n" + z)) == [c] + BreakTags("\n" + z);
      assert BreakTags("\n" + z) == "\n" + BreakTags(z);
      Assoc([c], "\n", BreakTags(z));
      Assoc(front, [c] + "\n", BreakTags(z));
      Assoc(front, [c], "\n");
      NonBlankFirst(l, BreakTags(z));
    }
  }

  lemma LogicalOneLine(l: string)
    requires Clean(l)
    ensures Logical(l) == [l]
  {
    BreakThrough(l, "");
    assert l + "" == l && [l[|l| - 1]] + "" == [l[|l| - 1]];
    LastAndFront(l);
    assert BreakTags([l[|l| - 1]]) == [l[|l| - 1]] by {
      assert [l[|l| - 1]][1..] == "";
    }
    NonBlankFirst(l, "");
  }

  /** Laid-out clean lines read back as the lines they were. */
  lemma {:induction false} ReadBack(ls: seq<string>, depth: nat)
    requires AllClean(ls)
    ensures Logical(JoinLines(Layout(ls, depth))) == ls
  {
    if ls == [] {
      assert FirstLine("") == "" && Split("") == [""] && Keep(Trim("")) == [] && TrimmedLines([]) == [];
      assert [""][1..] == [];
    } else {
      var at := DepthAt(ls[0], depth);
      var rest := Layout(ls[1..], DepthAfter(ls[0], at));
      assert Clean(ls[0]) && AllClean(ls[1..]);
      ReadBack(ls[1..], DepthAfter(ls[0], at));
      assert Layout(ls, depth) == [Indent(at) + ls[0]] + rest;
      assert ([Indent(at) + ls[0]] + rest)[1..] == rest;
      assert [ls[0]] + ls[1..] == ls;
      if ls[1..] == [] {
        LogicalSkips(Indent(at), ls[0]);
        LogicalOneLine(ls[0]);
      } else {
        Assoc(Indent(at) + ls[0], "\n", JoinLines(rest));
        Assoc(Indent(at), ls[0], "\n" + JoinLines(rest));
        LogicalSkips(Indent(at), ls[0] + ("\n" + JoinLines(rest)));
        LogicalFirstLine(ls[0], JoinLines(rest));
      }
    }
  }

  // ---- the lines of any string are clean ----

  /** Between a ">" and a "<" with only white space between them there is a line break. */
  predicate Broken(s: string) {
    s != "" ==>
      && Broken(s[1..])
      && (s[0] == '>' && StartsTag(Strip(s[1..])) ==>
            FirstLine(s[1..]) != s[1..] && AllSpace(FirstLine(s[1..])))
  }

  lemma {:induction false} BreakTagsKeepsStart(s: string)
    ensures StartsTag(Strip(BreakTags(s))) ==> StartsTag(Strip(s))
    decreases |s|
  {
    if s != "" && IsSpace(s[0]) {
      assert BreakTags(s)[1..] == BreakTags(s[1..]);
      BreakTagsKeepsStart(s[1..]);
    }
  }

  lemma {:induction false} BreakTagsBreaks(s: string)
    ensures Broken(BreakTags(s))
    decreases |s|
  {
    if s != "" {
      if s[0] == '>' && StartsTag(Strip(s[1..])) {
        var rest := BreakTags(Strip(s[1..]));
        BreakTagsBreaks(Strip(s[1..]));
        assert (">\n" + rest)[1..] == "\n" + rest;
        assert ("\n" + rest)[1..] == rest;
        assert FirstLine("\n" + rest) == "";
      } else {
        BreakTagsBreaks(s[1..]);
        assert BreakTags(s)[1..] == BreakTags(s[1..]);
        BreakTagsKeepsStart(s[1..]);
      }
    }
  }

  lemma {:induction false} StripOfFirstLine(s: string)
    ensures StartsTag(Strip(FirstLine(s))) ==> StartsTag(Strip(s)) && !AllSpace(FirstLine(s))
  {
    if s != "" && s[0] != '\n' {
      assert FirstLine(s)[1..] == FirstLine(s[1..]);
      StripOfFirstLine(s[1..]);
      if IsSpace(s[0]) && StartsTag(Strip(FirstLine(s))) {
        var i :| 0 <= i < |FirstLine(s[1..])| && !IsSpace(FirstLine(s[1..])[i]);
        assert FirstLine(s)[i + 1] == FirstLine(s[1..])[i];
      }
    }
  }

  lemma {:induction false} FirstLineTightFree(s: string)
    requires Broken(s)
    ensures TightFree(FirstLine(s))
  {
    if s != "" && s[0] != '\n' {
      FirstLineTightFree(s[1..]);
      assert FirstLine(s)[1..] == FirstLine(s[1..]);
      StripOfFirstLine(s[1..]);
    }
  }

  lemma {:induction false} BrokenSuffix(s: string, n: nat)
    requires Broken(s) && n <= |s|
    ensures Broken(s[n..])
  {
    if n > 0 {
      BrokenSuffix(s[1..], n - 1);
      assert s[1..][n - 1..] == s[n..];
    }
  }

  lemma {:induction false} TightFreeStrip(s: string)
    requires TightFree(s)
    ensures TightFree(Strip(s))
  {
    if s != "" && IsSpace(s[0]) {
      TightFreeStrip(s[1..]);
    }
  }

  lemma {:induction false} StripOfPrefix(s: string, n: nat)
    requires n <= |s|
    ensures StartsTag(Strip(s[..n])) ==> StartsTag(Strip(s))
  {
    if n > 0 && IsSpace(s[0]) {
      assert s[..n][1..] == s[1..][..n - 1];
      StripOfPrefix(s[1..], n - 1);
    }
  }

  lemma {:induction false} TightFreePrefix(s: string, n: nat)
    requires TightFree(s) && n <= |s|
    ensures TightFree(s[..n])
  {
    if n > 0 {
      assert s[..n][1..] == s[1..][..n - 1];
      TightFreePrefix(s[1..], n - 1);
      StripOfPrefix(s[1..], n - 1);
    }
  }

  lemma {:induction false} StripEndIsPrefix(s: string)
    ensures StripEnd(s) == s[..|StripEnd(s)|]
    ensures StripEnd(s) != "" ==> s != "" && StripEnd(s)[0] == s[0]
  {
    if s != "" && IsSpace(s[|s| - 1]) {
      StripEndIsPrefix(s[..|s| - 1]);
    }
  }

  lemma {:induction false} NoBreakInStrip(s: string)
    requires '\n' !in s
    ensures '\n' !in Strip(s)
  {
    if s != "" && IsSpace(s[0]) {
      NoBreakInStrip(s[1..]);
    }
  }

  lemma TrimmedIsClean(l: string)
    requires '\n' !in l && TightFree(l) && Trim(l) != ""
    ensures Clean(Trim(l))
  {
    TightFreeStrip(l);
    NoBreakInStrip(l);
    StripEndIsPrefix(Strip(l));
    TightFreePrefix(Strip(l), |Trim(l)|);
  }

  lemma {:induction false} NonBlankIsClean(s: string)
    requires Broken(s)
    ensures AllClean(NonBlank(s))
    decreases |s|
  {
    var l := FirstLine(s);
    FirstLineTightFree(s);
    SplitUnrolled(s);
    if Trim(l) != "" {
      TrimmedIsClean(l);
    }
    if |l| < |s| {
      BrokenSuffix(s, |l| + 1);
      NonBlankIsClean(s[|l| + 1..]);
    }
  }

  /** Re-indenting what has been re-indented changes nothing, on every string. */
  lemma PrettyIsIdempotent(s: string)
    ensures Pretty(Pretty(s)) == Pretty(s)
  {
    BreakTagsBreaks(s);
    NonBlankIsClean(BreakTags(s));
    ReadBack(Logical(s), 0);
  }
}
