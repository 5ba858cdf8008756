/** Re-indenting markup: breaking between tags, trimming lines, and indenting by a running depth. */
module PrettyXml {
  import opened Text

  // ---- characters and lines ----

  /** White space as both `\s` and `trim` understand it. */
  predicate IsSpace(c: char) {
    var n := c as int;
    9 <= n <= 13 || n == 32 || n == 0xA0 || n == 0x1680 || 0x2000 <= n <= 0x200A || n == 0x2028 || n == 0x2029
    || n == 0x202F || n == 0x205F || n == 0x3000 || n == 0xFEFF
  }

  predicate IsLineTerminator(c: char) {
    c == '\n' || c == '\r' || c as int == 0x2028 || c as int == 0x2029
  }

  predicate AllSpace(s: string) {
    forall i :: 0 <= i < |s| ==> IsSpace(s[i])
  }

  /** The string without its leading white space. */
  function Strip(s: string): (r: string)
    ensures |r| <= |s|
    ensures r == "" || !IsSpace(r[0])
  {
    if s != "" && IsSpace(s[0]) then Strip(s[1..]) else s
  }

  function StripEnd(s: string): (r: string)
    ensures |r| <= |s|
    ensures r == "" || !IsSpace(r[|r| - 1])
  {
    if s != "" && IsSpace(s[|s| - 1]) then StripEnd(s[..|s| - 1]) else s
  }

  function Trim(s: string): string {
    StripEnd(Strip(s))
  }

  predicate StartsTag(s: string) {
    s != "" && s[0] == '<'
  }

  /** Every ">", white space, "<" becomes ">", line break, "<". */
  function BreakTags(s: string): string
    decreases |s|
  {
    if s == "" then ""
    else if s[0] == '>' && StartsTag(Strip(s[1..])) then ">\n" + BreakTags(Strip(s[1..]))
    else [s[0]] + BreakTags(s[1..])
  }

  function Keep(s: string): seq<string> {
    if s == "" then [] else [s]
  }

  /** The trimmed lines that are not blank. */
  function TrimmedLines(ls: seq<string>): seq<string> {
    if ls == [] then [] else Keep(Trim(ls[0])) + TrimmedLines(ls[1..])
  }

  function NonBlank(s: string): seq<string> {
    TrimmedLines(Split(s))
  }

  /** The lines that the rest of the algorithm works on. */
  function Logical(s: string): seq<string> {
    NonBlank(BreakTags(s))
  }

  // ---- indentation ----

  predicate IsClose(line: string) {
    |line| >= 2 && line[0] == '<' && line[1] == '/'
  }

  predicate IsSelf(line: string) {
    || (|line| >= 2 && line[|line| - 2] == '/' && line[|line| - 1] == '>')
    || (|line| >= 2 && line[0] == '<' && (line[1] == '!' || line[1] == '?'))
  }

  predicate IsOpen(line: string) {
    |line| >= 2 && line[0] == '<' && line[1] != '!' && line[1] != '?'
  }

  /** The place of the first ">" from `from` on. */
  function FirstGt(line: string, from: nat): (p: nat)
    requires from <= |line|
    ensures from <= p <= |line|
    ensures p < |line| ==> line[p] == '>'
    ensures forall i :: from <= i < p ==> line[i] != '>'
    decreases |line| - from
  {
    if from == |line| || line[from] == '>' then from else FirstGt(line, from + 1)
  }

  /** A tag, characters other than line terminators, and a closing tag with at least one character in it. */
  predicate OpensAndCloses(line: string) {
    && IsOpen(line)
    && var p := FirstGt(line, 2);
       exists q :: p < q && q + 3 < |line| && ClosesFrom(line, p, q)
  }

  predicate ClosesFrom(line: string, p: nat, q: nat)
    requires p < q && q + 3 < |line|
  {
    && line[q] == '<' && line[q + 1] == '/' && line[|line| - 1] == '>'
    && (forall i :: p < i < q ==> !IsLineTerminator(line[i]))
    && (forall i :: q + 2 <= i < |line| - 1 ==> line[i] != '>')
  }

  function Indent(depth: nat): (s: string)
    ensures AllSpace(s) && |s| == 2 * depth && forall i :: 0 <= i < |s| ==> s[i] == ' '
  {
    if depth == 0 then "" else "  " + Indent(depth - 1)
  }

  function DepthAt(line: string, depth: nat): nat {
    if IsClose(line) && depth > 0 then depth - 1 else depth
  }

  function DepthAfter(line: string, depth: nat): nat {
    if !IsClose(line) && !IsSelf(line) && !OpensAndCloses(line) && IsOpen(line) then depth + 1 else depth
  }

  function Layout(lines: seq<string>, depth: nat): seq<string> {
    if lines == [] then []
    else
      var at := DepthAt(lines[0], depth);
      [Indent(at) + lines[0]] + Layout(lines[1..], DepthAfter(lines[0], at))
  }

  function JoinLines(ls: seq<string>): string {
    if ls == [] then "" else if |ls| == 1 then ls[0] else ls[0] + "\n" + JoinLines(ls[1..])
  }

  function Pretty(s: string): string {
    JoinLines(Layout(Logical(s), 0))
  }

  lemma OneLine(lines: seq<string>, i: nat, depth: nat)
    requires i < |lines|
    ensures var line, rest := Trim(lines[i]), TrimmedLines(lines[i + 1..]);
            && TrimmedLines(lines[i..]) == Keep(line) + rest
            && (line == "" ==> TrimmedLines(lines[i..]) == rest)
            && (line != "" ==>
                  Layout(TrimmedLines(lines[i..]), depth) ==
                  [Indent(DepthAt(line, depth)) + line] + Layout(rest, DepthAfter(line, DepthAt(line, depth))))
  {
    assert lines[i..][0] == lines[i] && lines[i..][1..] == lines[i + 1..];
    var line, rest := Trim(lines[i]), TrimmedLines(lines[i + 1..]);
    if line == "" {
      assert [] + rest == rest;
    } else {
      assert ([line] + rest)[1..] == rest;
    }
  }

  /** The loop over the split lines, with its running depth. */
  method PrettyXml(str: string) returns (r: string)
    ensures r == Pretty(str)
  {
    var lines := Split(BreakTags(str));
    var depth: nat := 0;
    var out: seq<string> := [];
    assert lines[0..] == lines;
    for i := 0 to |lines|
      invariant out + Layout(TrimmedLines(lines[i..]), depth) == Layout(TrimmedLines(lines), 0)
    {
      OneLine(lines, i, depth);
      var line := Trim(lines[i]);
      if line == "" {
        continue;
      }
      if IsClose(line) {
        depth := if depth > 0 then depth - 1 else 0;
      }
      ghost var laid := [Indent(depth) + line];
      ghost var rest := Layout(TrimmedLines(lines[i + 1..]), DepthAfter(line, depth));
      Assoc(out, laid, rest);
      out := out + [Indent(depth) + line];
      if !IsClose(line) && !IsSelf(line) && !OpensAndCloses(line) && IsOpen(line) {
        depth := depth + 1;
      }
    }
    assert out + [] == out;
    r := JoinLines(out);
  }
}
