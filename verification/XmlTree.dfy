/** Re-indenting a document printed from an element tree. */
module XmlTree {
  import opened Text
  import opened PrettyXml
  import opened PrettyXmlLaws

  /**
   * An element with children, an element that closes itself, one that holds text, a comment or instruction, or a line
   * of text among the children of an element.
   */
  datatype Xml =
    | Element(tag: string, name: string, children: seq<Xml>)
    | SelfClosing(tag: string)
    | TextLeaf(tag: string, name: string, text: string)
    | Directive(inner: string)
    | TextLine(text: string)

  predicate Plain(s: string) {
    forall i :: 0 <= i < |s| ==> s[i] != '<' && s[i] != '>' && s[i] != '\n'
  }

  /** The inside of an opening tag: a name with its attributes. */
  predicate TagOk(tag: string) {
    && tag != "" && Plain(tag)
    && tag[0] != '!' && tag[0] != '?' && tag[0] != '/' && tag[|tag| - 1] != '/'
  }

  predicate NameOk(name: string) {
    name != "" && Plain(name)
  }

  /** Text that stands on one line and is not blank. */
  predicate TextOk(text: string) {
    && Plain(text)
    && (forall i :: 0 <= i < |text| ==> !IsLineTerminator(text[i]))
    && (exists i :: 0 <= i < |text| && !IsSpace(text[i]))
  }

  /** A trimmed line that begins with text; there may be markup further on, as in mixed content. */
  predicate IsTextLine(line: string) {
    Clean(line) && line[0] != '<'
  }

  predicate WellFormed(x: Xml) {
    match x
    case Element(tag, name, children) => TagOk(tag) && NameOk(name) && forall c | c in children :: WellFormed(c)
    case SelfClosing(tag) => tag != "" && Plain(tag) && tag[0] != '/'
    case TextLeaf(tag, name, text) => TagOk(tag) && NameOk(name) && TextOk(text)
    case Directive(inner) => inner != "" && Plain(inner) && (inner[0] == '!' || inner[0] == '?')
    case TextLine(text) => IsTextLine(text)
  }

  function OpenTag(tag: string): string {
    "<" + tag + ">"
  }

  function CloseTag(name: string): string {
    "</" + name + ">"
  }

  /** The pieces a tree is printed as, in document order. */
  function Tokens(x: Xml): seq<string>
    decreases x, 0
  {
    match x
    case Element(tag, name, children) => [OpenTag(tag)] + ListTokens(children) + [CloseTag(name)]
    case SelfClosing(tag) => ["<" + tag + "/>"]
    case TextLeaf(tag, name, text) => [OpenTag(tag) + text + CloseTag(name)]
    case Directive(inner) => [OpenTag(inner)]
    case TextLine(text) => [text]
  }

  function ListTokens(xs: seq<Xml>): seq<string>
    decreases xs, 1
  {
    if xs == [] then [] else Tokens(xs[0]) + ListTokens(xs[1..])
  }

  /** Each piece of the tree on its own line, indented by two spaces for every element around it. */
  function Indented(x: Xml, depth: nat): seq<string>
    decreases x, 0
  {
    match x
    case Element(tag, name, children) =>
      [Indent(depth) + OpenTag(tag)] + ListIndented(children, depth + 1) + [Indent(depth) + CloseTag(name)]
    case SelfClosing(tag) => [Indent(depth) + ("<" + tag + "/>")]
    case TextLeaf(tag, name, text) => [Indent(depth) + (OpenTag(tag) + text + CloseTag(name))]
    case Directive(inner) => [Indent(depth) + OpenTag(inner)]
    case TextLine(text) => [Indent(depth) + text]
  }

  function ListIndented(xs: seq<Xml>, depth: nat): seq<string>
    decreases xs, 1
  {
    if xs == [] then [] else Indented(xs[0], depth) + ListIndented(xs[1..], depth)
  }

  // ---- how the layout treats each piece ----

  lemma OpenTagOpens(tag: string)
    requires TagOk(tag)
    ensures var l := OpenTag(tag); IsOpen(l) && !IsClose(l) && !IsSelf(l) && !OpensAndCloses(l)
  {
    var l := OpenTag(tag);
    assert l[1] == tag[0] && l[|l| - 2] == tag[|tag| - 1] && l[|l| - 1] == '>';
    var p := FirstGt(l, 2);
    forall i | 2 <= i < |l| - 1
      ensures l[i] != '>'
    {
      assert l[i] == tag[i - 1];
    }
    assert p >= |l| - 1;
  }

  lemma TextLeafStaysLevel(tag: string, name: string, text: string)
    requires TagOk(tag) && NameOk(name) && TextOk(text)
    ensures var l := OpenTag(tag) + text + CloseTag(name);
            !IsClose(l) && OpensAndCloses(l)
  {
    var l := OpenTag(tag) + text + CloseTag(name);
    var p, q := |tag| + 1, |tag| + 2 + |text|;
    assert l[1] == tag[0];
    forall i | 2 <= i < p
      ensures l[i] != '>'
    {
      assert l[i] == tag[i - 1];
    }
    assert l[p] == '>';
    FirstGtIs(l, 2, p);
    assert l[q..] == CloseTag(name);
    assert l[q] == CloseTag(name)[0] && l[q + 1] == CloseTag(name)[1] && l[|l| - 1] == '>';
    forall i | p < i < q
      ensures !IsLineTerminator(l[i])
    {
      assert l[i] == text[i - p - 1];
    }
    forall i | q + 2 <= i < |l| - 1
      ensures l[i] != '>'
    {
      assert l[i] == name[i - q - 2];
    }
    assert ClosesFrom(l, p, q);
  }

  lemma {:induction false} FirstGtIs(line: string, from: nat, p: nat)
    requires from <= p < |line| && line[p] == '>'
    requires forall i :: from <= i < p ==> line[i] != '>'
    ensures FirstGt(line, from) == p
    decreases p - from
  {
    if from < p {
      FirstGtIs(line, from + 1, p);
    }
  }

  /** A tag, text on the same line, and a closing tag. */
  predicate IsElementLine(line: string, c: char, attributes: string, text: string, name: string) {
    && c != '!' && c != '?' && '>' !in attributes && name != "" && '>' !in name
    && (forall i :: 0 <= i < |text| ==> !IsLineTerminator(text[i]))
    && line == "<" + [c] + attributes + ">" + text + "</" + name + ">"
  }

  lemma ElementLineCloses(line: string, c: char, attributes: string, text: string, name: string)
    requires IsElementLine(line, c, attributes, text, name)
    ensures OpensAndCloses(line)
  {
    var p := 2 + |attributes|;
    var q := p + 1 + |text|;
    assert line[..2] == "<" + [c] && line[1] == c;
    assert line[2..p] == attributes && line[p] == '>';
    FirstGtIs(line, 2, p) by {
      forall i | 2 <= i < p
        ensures line[i] != '>'
      {
        assert line[i] == attributes[i - 2];
      }
    }
    var front := "<" + [c] + attributes + ">" + text;
    assert line == front + ("</" + (name + ">")) && |front| == q;
    assert line[q] == "</"[0] && line[q + 1] == "</"[1];
    forall i | p < i < q
      ensures !IsLineTerminator(line[i])
    {
      assert line[i] == text[i - p - 1];
    }
    forall i | q + 2 <= i < |line| - 1
      ensures line[i] != '>'
    {
      assert line[i] == name[i - q - 2];
    }
    assert ClosesFrom(line, p, q);
  }

  lemma Rejoin(s: string, p: nat, q: nat, n: nat)
    requires 2 <= p < q && q + 2 <= n == |s| - 1
    ensures s == [s[0]] + [s[1]] + s[2..p] + [s[p]] + s[p + 1..q] + s[q..q + 2] + s[q + 2..n] + [s[n]]
  {
  }

  lemma ClosesOnlyElementLines(line: string)
    requires OpensAndCloses(line)
    ensures exists c, attributes, text, name :: IsElementLine(line, c, attributes, text, name)
  {
    var p := FirstGt(line, 2);
    var q :| p < q && q + 3 < |line| && ClosesFrom(line, p, q);
    var n := |line| - 1;
    var attributes, text, name := line[2..p], line[p + 1..q], line[q + 2..n];
    forall i | 0 <= i < |text|
      ensures !IsLineTerminator(text[i])
    {
      assert text[i] == line[p + 1 + i];
    }
    hide ClosesFrom, FirstGt, IsLineTerminator;
    Rejoin(line, p, q, n);
    assert "</" == line[q..q + 2] && [line[p]] == ">" && [line[n]] == ">" && [line[0]] == "<";
    assert IsElementLine(line, line[1], attributes, text, name);
  }

  /**
   * How one line moves the depth: a line that starts with "</" stands one level out, unless it is at the margin; the
   * line after a tag that is not closing, not self-closing, no comment or instruction, and not closed again on its
   * own line, stands one level in; any other line, such as one of text, moves nothing.
   */
  lemma LineMovesDepth(line: string, depth: nat)
    ensures DepthAt(line, depth) == if "</" <= line && depth > 0 then depth - 1 else depth
    ensures DepthAfter(line, depth) ==
            if && "<" < line && line[1] !in {'/', '!', '?'} && line[|line| - 2..] != "/>"
               && !exists c, attributes, text, name :: IsElementLine(line, c, attributes, text, name)
            then depth + 1 else depth
  {
    if c, attributes, text, name :| IsElementLine(line, c, attributes, text, name) {
      ElementLineCloses(line, c, attributes, text, name);
    }
    if OpensAndCloses(line) {
      ClosesOnlyElementLines(line);
    }
    hide OpensAndCloses, IsElementLine;
    if |line| >= 2 {
      assert line[|line| - 2..] == [line[|line| - 2], line[|line| - 1]];
      assert "/>" == ['/', '>'];
      assert line[..2] == [line[0], line[1]] && "</" == ['<', '/'];
    }
  }

  // ---- depth ----

  /** The layout never has to keep the depth from falling below zero. */
  predicate ClampFree(lines: seq<string>, depth: nat) {
    lines != [] ==>
      && (IsClose(lines[0]) ==> depth > 0)
      && ClampFree(lines[1..], DepthAfter(lines[0], DepthAt(lines[0], depth)))
  }

  function FinalDepth(lines: seq<string>, depth: nat): nat {
    if lines == [] then depth else FinalDepth(lines[1..], DepthAfter(lines[0], DepthAt(lines[0], depth)))
  }

  /** Laying out these lines gives these results and ends at that depth, and what follows goes on from there. */
  ghost predicate LaysOut(lines: seq<string>, depth: nat, result: seq<string>, end: nat) {
    Layout(lines, depth) == result && FinalDepth(lines, depth) == end && ClampFree(lines, depth)
  }

  lemma {:induction false} LayOutConcat(
      a: seq<string>, depth: nat, ra: seq<string>, mid: nat, b: seq<string>, rb: seq<string>, end: nat)
    requires LaysOut(a, depth, ra, mid) && LaysOut(b, mid, rb, end)
    ensures LaysOut(a + b, depth, ra + rb, end)
  {
    if a == [] {
      assert a + b == b && ra + rb == rb;
    } else {
      var at := DepthAt(a[0], depth);
      assert (a + b)[1..] == a[1..] + b;
      LayOutConcat(a[1..], DepthAfter(a[0], at), ra[1..], mid, b, rb, end);
      assert ra + rb == [ra[0]] + (ra[1..] + rb);
    }
  }

  lemma LayOutOne(line: string, depth: nat)
    requires IsClose(line) ==> depth > 0
    ensures var at := DepthAt(line, depth);
            LaysOut([line], depth, [Indent(at) + line], DepthAfter(line, at))
  {
    assert [line][1..] == [];
    var at := DepthAt(line, depth);
    assert Layout([], DepthAfter(line, at)) == [];
    assert [Indent(at) + line] + [] == [Indent(at) + line];
  }

  lemma {:induction false} TreeLaysOut(x: Xml, depth: nat)
    requires WellFormed(x)
    ensures LaysOut(Tokens(x), depth, Indented(x, depth), depth)
    decreases x, 0
  {
    match x
    case Element(tag, name, children) =>
      OpenTagOpens(tag);
      LayOutOne(OpenTag(tag), depth);
      ListLaysOut(children, depth + 1);
      LayOutOne(CloseTag(name), depth + 1);
      LayOutConcat([OpenTag(tag)], depth, [Indent(depth) + OpenTag(tag)], depth + 1,
                   ListTokens(children), ListIndented(children, depth + 1), depth + 1);
      LayOutConcat([OpenTag(tag)] + ListTokens(children), depth,
                   [Indent(depth) + OpenTag(tag)] + ListIndented(children, depth + 1), depth + 1,
                   [CloseTag(name)], [Indent(depth) + CloseTag(name)], depth);
    case SelfClosing(tag) =>
      var l := "<" + tag + "/>";
      assert l[1] == tag[0] && l[|l| - 2] == '/' && l[|l| - 1] == '>';
      LayOutOne(l, depth);
    case TextLeaf(tag, name, text) =>
      TextLeafStaysLevel(tag, name, text);
      LayOutOne(OpenTag(tag) + text + CloseTag(name), depth);
    case Directive(inner) =>
      assert OpenTag(inner)[1] == inner[0];
      LayOutOne(OpenTag(inner), depth);
    case TextLine(text) => LayOutOne(text, depth);
  }

  lemma {:induction false} ListLaysOut(xs: seq<Xml>, depth: nat)
    requires forall x | x in xs :: WellFormed(x)
    ensures LaysOut(ListTokens(xs), depth, ListIndented(xs, depth), depth)
    decreases xs, 1
  {
    if xs != [] {
      TreeLaysOut(xs[0], depth);
      ListLaysOut(xs[1..], depth);
      LayOutConcat(Tokens(xs[0]), depth, Indented(xs[0], depth), depth,
                   ListTokens(xs[1..]), ListIndented(xs[1..], depth), depth);
    }
  }

  // ---- reading the printed document ----

  /** A piece of markup: clean, from "<" to ">". */
  predicate IsToken(t: string) {
    Clean(t) && StartsTag(t) && t[|t| - 1] == '>'
  }

  predicate AllPieces(ts: seq<string>) {
    forall i :: 0 <= i < |ts| ==> IsToken(ts[i]) || IsTextLine(ts[i])
  }

  predicate AllBlank(seps: seq<string>) {
    forall i :: 0 <= i < |seps| ==> AllSpace(seps[i])
  }

  /** Around every line of text there is a line break. */
  predicate TextStandsAlone(ts: seq<string>, seps: seq<string>)
    requires |seps| == |ts|
  {
    forall i :: 1 <= i < |ts| && (IsTextLine(ts[i - 1]) || IsTextLine(ts[i])) ==> '\n' in seps[i]
  }

  /** The pieces one after the other, with any white space in front of each and after the last. */
  function Document(ts: seq<string>, seps: seq<string>, end: string): string
    requires |seps| == |ts|
  {
    if ts == [] then end else seps[0] + (ts[0] + Document(ts[1..], seps[1..], end))
  }

  lemma {:induction false} PlainIsTightFree(s: string)
    requires Plain(s)
    ensures TightFree(s) && !StartsTag(Strip(s))
  {
    if s != "" {
      assert Plain(s[1..]) by {
        assert forall i :: 0 <= i < |s[1..]| ==> s[1..][i] == s[i + 1];
      }
      PlainIsTightFree(s[1..]);
    }
  }

  /** Plain text in front of something tight-free stays tight-free. */
  lemma {:induction false} PlainInFront(s: string, t: string)
    requires Plain(s) && TightFree(t)
    ensures TightFree(s + t)
  {
    if s == "" {
      assert s + t == t;
    } else {
      assert (s + t)[1..] == s[1..] + t;
      assert Plain(s[1..]) by {
        assert forall i :: 0 <= i < |s[1..]| ==> s[1..][i] == s[i + 1];
      }
      PlainInFront(s[1..], t);
    }
  }

  lemma TagIsTightFree(inner: string, t: string)
    requires Plain(inner) && TightFree(t) && !StartsTag(Strip(t))
    ensures TightFree("<" + inner + ">" + t)
  {
    var tail := ">" + t;
    assert tail[1..] == t;
    PlainInFront(inner, tail);
    var l := "<" + inner + ">" + t;
    assert l[1..] == inner + tail;
  }

  lemma {:induction false} StripKeepsNonBlank(s: string, t: string)
    requires exists i :: 0 <= i < |s| && !IsSpace(s[i])
    ensures Strip(s) != "" && Strip(s + t) == Strip(s) + t
  {
    if IsSpace(s[0]) {
      assert (s + t)[1..] == s[1..] + t;
      var i :| 0 <= i < |s| && !IsSpace(s[i]);
      assert s[1..][i - 1] == s[i];
      StripKeepsNonBlank(s[1..], t);
    }
  }

  lemma MarkupToken(inner: string)
    requires inner != "" && Plain(inner)
    ensures IsToken("<" + inner + ">")
  {
    var l := "<" + inner + ">";
    TagIsTightFree(inner, "");
    assert l + "" == l;
    assert forall i :: 0 < i < |l| - 1 ==> l[i] == inner[i - 1];
  }

  lemma TextLeafToken(tag: string, name: string, text: string)
    requires TagOk(tag) && NameOk(name) && TextOk(text)
    ensures IsToken(OpenTag(tag) + text + CloseTag(name))
  {
    var close, l := CloseTag(name), OpenTag(tag) + text + CloseTag(name);
    assert Plain("/" + name);
    assert close == "<" + ("/" + name) + ">" + "";
    TagIsTightFree("/" + name, "");
    PlainInFront(text, close);
    StripKeepsNonBlank(text, close);
    PlainIsTightFree(text);
    TagIsTightFree(tag, text + close);
    assert l == "<" + tag + ">" + (text + close);
    assert '\n' !in OpenTag(tag) && '\n' !in text && '\n' !in close;
    assert l[|l| - 1] == '>';
  }

  lemma {:induction false} TreePieces(x: Xml)
    requires WellFormed(x)
    ensures AllPieces(Tokens(x))
    decreases x, 0
  {
    match x
    case Element(tag, name, children) =>
      MarkupToken(tag);
      ListTokensArePieces(children);
      assert Plain("/" + name);
      MarkupToken("/" + name);
      assert "<" + ("/" + name) + ">" == CloseTag(name);
    case SelfClosing(tag) =>
      assert Plain(tag + "/");
      MarkupToken(tag + "/");
      assert "<" + (tag + "/") + ">" == "<" + tag + "/>";
    case TextLeaf(tag, name, text) => TextLeafToken(tag, name, text);
    case Directive(inner) => MarkupToken(inner);
    case TextLine(_) =>
  }

  lemma {:induction false} ListTokensArePieces(xs: seq<Xml>)
    requires forall x | x in xs :: WellFormed(x)
    ensures AllPieces(ListTokens(xs))
    decreases xs, 1
  {
    if xs != [] {
      TreePieces(xs[0]);
      ListTokensArePieces(xs[1..]);
    }
  }

  /** A token followed by white space and the next tag reads as a line of its own. */
  lemma TokenThenTag(t: string, w: string, z: string)
    requires IsToken(t) && AllSpace(w) && StartsTag(z)
    ensures Logical(t + (w + z)) == [t] + Logical(z)
  {
    var front := t[..|t| - 1];
    LastAndFront(t);
    BreakThrough(t, w + z);
    StripSpaces(w, z);
    assert ([t[|t| - 1]] + (w + z))[1..] == w + z;
    assert BreakTags([t[|t| - 1]] + (w + z)) == ">\n" + BreakTags(z);
    assert ">\n" == ">" + "\n";
    Assoc(front, ">\n", BreakTags(z));
    Assoc(front, ">", "\n");
    NonBlankFirst(t, BreakTags(z));
  }

  lemma {:induction false} SpaceStays(w: string)
    requires AllSpace(w)
    ensures BreakTags(w) == w && Strip(w) == ""
  {
    if w != "" {
      SpaceStays(w[1..]);
    }
  }

  lemma {:induction false} SpaceIsNoLine(w: string)
    requires AllSpace(w)
    ensures NonBlank(w) == []
  {
    if w == "" {
      assert Split("") == [""] && TrimmedLines([""]) == Keep(Trim("")) + TrimmedLines([]);
    } else {
      SpaceIsNoLine(w[1..]);
      NonBlankSkips(w[0], w[1..]);
      assert [w[0]] + w[1..] == w;
    }
  }

  lemma {:induction false} StripEndOfSpace(l: string, w: string)
    requires l != "" && !IsSpace(l[|l| - 1]) && AllSpace(w)
    ensures StripEnd(l + w) == l
  {
    if w == "" {
      assert l + w == l;
    } else {
      assert (l + w)[..|l + w| - 1] == l + w[..|w| - 1];
      StripEndOfSpace(l, w[..|w| - 1]);
    }
  }

  lemma TrimDropsSpace(l: string, v: string)
    requires Clean(l) && AllSpace(v)
    ensures Trim(l + v) == l
  {
    hide TightFree;
    StripEndOfSpace(l, v);
    assert Strip(l + v) == l + v;
  }

  /** A clean line with white space after it, over any number of lines, reads as that line alone. */
  lemma LineThenSpace(l: string, w: string)
    requires Clean(l) && AllSpace(w)
    ensures NonBlank(l + w) == [l]
  {
    hide TightFree, Trim, NonBlank, FirstLine;
    var v := FirstLine(w);
    var rest := w[|v|..];
    assert l + w == l + v + rest;
    FirstLineIs(l + v, rest);
    SplitUnrolled(l + w);
    TrimDropsSpace(l, v);
    if rest != "" {
      assert (l + w)[|l + v| + 1..] == w[|v| + 1..];
      SpaceIsNoLine(w[|v| + 1..]);
    }
    assert [l] + [] == [l];
  }

  lemma {:induction false} SpaceInFront(w: string, z: string)
    requires AllSpace(w)
    ensures BreakTags(w + z) == w + BreakTags(z) && NonBlank(w + z) == NonBlank(z)
  {
    hide NonBlank;
    if w == "" {
      assert w + z == z && w + BreakTags(z) == BreakTags(z);
    } else {
      assert w + z == [w[0]] + (w[1..] + z);
      assert ([w[0]] + (w[1..] + z))[1..] == w[1..] + z;
      SpaceInFront(w[1..], z);
      NonBlankSkips(w[0], w[1..] + z);
      assert w + BreakTags(z) == [w[0]] + (w[1..] + BreakTags(z));
    }
  }

  /** A clean line with white space after it, over one line break or more, reads as a line of its own. */
  lemma LineBeforeBreak(l: string, w: string, z: string)
    requires Clean(l) && AllSpace(w) && '\n' in w
    ensures NonBlank(l + (w + z)) == [l] + NonBlank(z)
  {
    hide TightFree, Trim, NonBlank, FirstLine, BreakTags;
    var v := FirstLine(w);
    var rest := w[|v| + 1..];
    assert w == v + "\n" + rest;
    assert l + (w + z) == l + v + ("\n" + (rest + z));
    FirstLineIs(l + v, "\n" + (rest + z));
    SplitUnrolled(l + (w + z));
    assert (l + (w + z))[|l + v| + 1..] == rest + z;
    TrimDropsSpace(l, v);
    SpaceInFront(rest, z);
  }

  lemma LineThenBreak(l: string, w: string, z: string)
    requires Clean(l) && AllSpace(w) && '\n' in w
    ensures Logical(l + (w + z)) == [l] + Logical(z)
  {
    var front, last := l[..|l| - 1], [l[|l| - 1]];
    LastAndFront(l);
    BreakThrough(l, w + z);
    StripSpaces(w, z);
    assert (last + (w + z))[1..] == w + z;
    hide TightFree, NonBlank, Strip, Split, TrimmedLines;
    if last == ">" && StartsTag(Strip(z)) {
      assert BreakTags(last + (w + z)) == ">\n" + BreakTags(Strip(z));
      assert ">\n" == ">" + "\n";
      Assoc(front, ">\n", BreakTags(Strip(z)));
      Assoc(front, ">", "\n");
      NonBlankFirst(l, BreakTags(Strip(z)));
      LogicalOfStrip(z);
    } else {
      assert BreakTags(last + (w + z)) == last + BreakTags(w + z);
      SpaceInFront(w, z);
      Assoc(front, last, w + BreakTags(z));
      LineBeforeBreak(l, w, BreakTags(z));
    }
  }

  lemma LineThenEnd(l: string, w: string)
    requires Clean(l) && AllSpace(w)
    ensures Logical(l + w) == [l]
  {
    var last := [l[|l| - 1]];
    SpaceStays(w);
    BreakThrough(l, w);
    assert (last + w)[1..] == w;
    LastAndFront(l);
    Assoc(l[..|l| - 1], last, w);
    LineThenSpace(l, w);
  }

  lemma {:induction false} DocumentReads(ts: seq<string>, seps: seq<string>, end: string)
    requires |seps| == |ts| && AllPieces(ts) && AllBlank(seps) && AllSpace(end) && ts != []
    requires TextStandsAlone(ts, seps)
    ensures Logical(Document(ts, seps, end)) == ts
    decreases |ts|
  {
    assert Clean(ts[0]);
    hide IsToken, IsTextLine, Logical, AllSpace, Clean;
    assert AllSpace(seps[0]);
    LogicalSkips(seps[0], ts[0] + Document(ts[1..], seps[1..], end));
    if |ts| == 1 {
      LineThenEnd(ts[0], end);
      assert ts == [ts[0]];
    } else {
      var z := ts[1] + Document(ts[1..][1..], seps[1..][1..], end);
      assert AllSpace(seps[1]);
      assert Document(ts[1..], seps[1..], end) == seps[1] + z;
      OnePiece(ts[0], seps[1], ts[1], Document(ts[1..][1..], seps[1..][1..], end));
      DocumentReads(ts[1..], seps[1..], end);
      LogicalSkips(seps[1], z);
      assert [ts[0]] + ts[1..] == ts;
    }
  }

  /** One piece, the white space after it, and the next piece. */
  lemma OnePiece(t: string, w: string, u: string, rest: string)
    requires IsToken(t) || IsTextLine(t)
    requires IsToken(u) || IsTextLine(u)
    requires AllSpace(w) && (IsTextLine(t) || IsTextLine(u) ==> '\n' in w)
    ensures Logical(t + (w + (u + rest))) == [t] + Logical(u + rest)
  {
    hide Logical;
    if '\n' in w {
      LineThenBreak(t, w, u + rest);
    } else {
      TokenThenTag(t, w, u + rest);
    }
  }

  /**
   * A document printed from element trees, one after the other, with any white space before, between and after the
   * pieces, and line breaks around lines of text, comes out with every piece on its own line, indented by two spaces
   * times its depth in its tree, so that each closing tag stands under its opening tag; the running depth returns to 0,
   * and is never held at 0.
   */
  lemma PrettyShowsTreeDepth(xs: seq<Xml>, seps: seq<string>, end: string)
    requires forall x | x in xs :: WellFormed(x)
    requires |seps| == |ListTokens(xs)| && AllBlank(seps) && AllSpace(end)
    requires TextStandsAlone(ListTokens(xs), seps)
    ensures Pretty(Document(ListTokens(xs), seps, end)) == JoinLines(ListIndented(xs, 0))
    ensures FinalDepth(ListTokens(xs), 0) == 0 && ClampFree(ListTokens(xs), 0)
  {
    ListTokensArePieces(xs);
    ListLaysOut(xs, 0);
    if ListTokens(xs) == [] {
      SpaceStays(end);
      SpaceIsNoLine(end);
    } else {
      DocumentReads(ListTokens(xs), seps, end);
    }
  }
}
