/** The hex dump of a binary body, and a reader that takes it apart again. */
module HexDump {
  import opened Common
  import opened Text

  type Byte = b: int | 0 <= b < 256

  const INT_RANGE := 0x1_0000_0000
  const MAX_INT := 0x7FFF_FFFF

  /** Java's `int`: the low 32 bits, signed. */
  function AsInt(n: int): int {
    var m := n % INT_RANGE;
    if m > MAX_INT then m - INT_RANGE else m
  }

  // ---- hexadecimal ----

  function HexDigit(d: int): char
    requires 0 <= d < 16
  {
    if d < 10 then ('0' as int + d) as char else ('A' as int + d - 10) as char
  }

  predicate IsHexDigit(c: char) {
    '0' <= c <= '9' || 'A' <= c <= 'F'
  }

  function DigitValue(c: char): nat
    requires IsHexDigit(c)
  {
    if c <= '9' then c as int - '0' as int else c as int - 'A' as int + 10
  }

  predicate AllHex(s: string) {
    forall i :: 0 <= i < |s| ==> IsHexDigit(s[i])
  }

  function HexText(n: nat): (s: string)
    ensures AllHex(s) && s != ""
  {
    if n < 16 then [HexDigit(n)] else HexText(n / 16) + [HexDigit(n % 16)]
  }

  function Zeros(n: int): (s: string)
    ensures AllHex(s) && |s| == if n < 0 then 0 else n
  {
    if n <= 0 then "" else "0" + Zeros(n - 1)
  }

  /** At least four digits, more when the number needs them. */
  function Offset(n: nat): (s: string)
    ensures AllHex(s) && |s| >= 4
  {
    Zeros(4 - |HexText(n)|) + HexText(n)
  }

  function HexValue(s: string): nat
    requires AllHex(s)
  {
    if s == "" then 0 else 16 * HexValue(s[..|s| - 1]) + DigitValue(s[|s| - 1])
  }

  function ByteText(b: Byte): string {
    [HexDigit(b / 16), HexDigit(b % 16)]
  }

  // ---- the dump ----

  function Min(a: int, b: int): int {
    if a < b then a else b
  }

  /** The cells of the columns from `j` up to `stop`: a byte below `end`, blank from there on. */
  function Cells(bytes: seq<Byte>, j: nat, stop: nat, end: nat): string
    requires end <= |bytes|
    decreases stop - j
  {
    if j >= stop then "" else (if j < end then ByteText(bytes[j]) + " " else "   ") + Cells(bytes, j + 1, stop, end)
  }

  function Shown(b: Byte): char {
    if 32 <= b < 127 then b as char else '.'
  }

  function Gutter(bytes: seq<Byte>, j: nat, end: nat): string
    requires end <= |bytes|
    decreases end - j
  {
    if j >= end then "" else [Shown(bytes[j])] + Gutter(bytes, j + 1, end)
  }

  function Line(bytes: seq<Byte>, i: nat, len: nat): string
    requires len <= |bytes|
  {
    var end := Min(i + 16, len);
    Offset(i) + "  " + Cells(bytes, i, i + 16, end) + " " + Gutter(bytes, i, end)
  }

  function DumpFrom(bytes: seq<Byte>, i: nat, len: nat): string
    requires len <= |bytes|
    decreases len - i
  {
    if i >= len then ""
    else Line(bytes, i, len) + (if i + 16 < len then "\n" else "") + DumpFrom(bytes, i + 16, len)
  }

  /** The two inner loops: the cells of one line, then its gutter. */
  method DumpLine(bytes: array<Byte>, i: nat, len: nat) returns (line: string)
    requires i < len <= bytes.Length
    ensures line == Line(bytes[..], i, len)
  {
    ghost var all := bytes[..];
    var end := Min(i + 16, len);
    line := Offset(i) + "  ";
    ghost var head := line;
    for j := i to i + 16
      invariant line + Cells(all, j, i + 16, end) == head + Cells(all, i, i + 16, end)
    {
      var cell := if j < end then ByteText(bytes[j]) + " " else "   ";
      Assoc(line, cell, Cells(all, j + 1, i + 16, end));
      line := line + cell;
    }
    assert line + "" == line;
    line := line + " ";
    ghost var cells := line;
    for j := i to end
      invariant line + Gutter(all, j, end) == cells + Gutter(all, i, end)
    {
      Assoc(line, [Shown(bytes[j])], Gutter(all, j + 1, end));
      line := line + [Shown(bytes[j])];
    }
    assert line + "" == line;
  }

  /**
   * The outer loop.  The initial capacity, four times the length as an `int`, is refused when it is negative; that
   * is how a negative limit, or a length of 2^29 and more, can fail.
   */
  method HexDump(bytes: array<Byte>, limit: int) returns (r: Option<string>)
    requires bytes.Length <= MAX_INT && -MAX_INT - 1 <= limit <= MAX_INT
    ensures r.None? <==> Min(bytes.Length, limit) * 4 % 0x1_0000_0000 >= 0x8000_0000
    ensures r.Some? ==> r.value == DumpFrom(bytes[..], 0, Shortened(bytes.Length, limit))
  {
    var len := Min(bytes.Length, limit);
    var capacity := AsInt(len * 4);
    if capacity < 0 {
      return None;
    }
    var sb := DumpLines(bytes, len);
    return Some(sb);
  }

  /** The number of bytes that a dump shows. */
  function Shortened(length: nat, limit: int): (n: nat)
    ensures n <= length
  {
    if limit < 0 then 0 else Min(length, limit)
  }

  method DumpLines(bytes: array<Byte>, len: int) returns (sb: string)
    requires len <= bytes.Length
    ensures sb == DumpFrom(bytes[..], 0, if len < 0 then 0 else len)
  {
    hide Line;
    ghost var shown: nat := if len < 0 then 0 else len;
    ghost var all := bytes[..];
    sb := "";
    var i := 0;
    while i < len
      invariant 0 <= i
      invariant sb + DumpFrom(all, i, shown) == DumpFrom(all, 0, shown)
      decreases len - i
    {
      var line := DumpLine(bytes, i, len);
      var sep := if i + 16 < len then "\n" else "";
      Assoc(sb, line + sep, DumpFrom(all, i + 16, shown));
      sb := sb + (line + sep);
      i := i + 16;
    }
    assert sb + "" == sb;
  }

  // ---- reading a dump ----

  /** The characters before the first blank. */
  function BeforeBlank(s: string): (t: string)
    ensures |t| <= |s| && t == s[..|t|]
  {
    if s == "" || s[0] == ' ' then "" else [s[0]] + BeforeBlank(s[1..])
  }

  /** Reads up to `n` cells of two digits and a blank, until one is blank. */
  function ReadCells(s: string, n: nat): seq<Byte> {
    if n == 0 || |s| < 3 || !IsHexDigit(s[0]) || !IsHexDigit(s[1]) then []
    else [16 * DigitValue(s[0]) + DigitValue(s[1])] + ReadCells(s[3..], n - 1)
  }

  function ReadLine(line: string): seq<Byte> {
    var o := |BeforeBlank(line)|;
    if o + 2 > |line| then [] else ReadCells(line[o + 2..], 16)
  }

  function ReadLines(lines: seq<string>): seq<Byte> {
    if lines == [] then [] else ReadLine(lines[0]) + ReadLines(lines[1..])
  }

  /** The lines of a dump; an empty dump has none. */
  function Lines(dump: string): seq<string> {
    if dump == "" then [] else Split(dump)
  }

  function Decode(dump: string): seq<Byte> {
    ReadLines(Lines(dump))
  }

  // ---- a dump can be read back ----

  lemma ByteTextReads(b: Byte)
    ensures AllHex(ByteText(b))
    ensures 16 * DigitValue(ByteText(b)[0]) + DigitValue(ByteText(b)[1]) == b
  {
  }

  lemma OneCellReads(b: Byte, rest: string, n: nat)
    requires n > 0
    ensures ReadCells(ByteText(b) + " " + rest, n) == [b] + ReadCells(rest, n - 1)
  {
    var s := ByteText(b) + " " + rest;
    ByteTextReads(b);
    assert s[0] == ByteText(b)[0] && s[1] == ByteText(b)[1] && s[3..] == rest;
  }

  lemma {:induction false} CellsRead(bytes: seq<Byte>, j: nat, stop: nat, end: nat, after: string)
    requires j <= stop && end <= |bytes| && end <= stop && after != "" && after[0] == ' '
    ensures ReadCells(Cells(bytes, j, stop, end) + after, stop - j) == if j < end then bytes[j..end] else []
    decreases stop - j
  {
    if j < stop {
      var rest := Cells(bytes, j + 1, stop, end);
      if j < end {
        Assoc(ByteText(bytes[j]) + " ", rest, after);
        OneCellReads(bytes[j], rest + after, stop - j);
        CellsRead(bytes, j + 1, stop, end, after);
        JoinRanges(bytes, j, j + 1, end);
        assert bytes[j..j + 1] == [bytes[j]];
      } else {
        assert ("   " + rest + after)[0] == ' ';
      }
    }
  }

  lemma {:induction false} BeforeBlankIs(t: string, s: string)
    requires AllHex(t) && s != "" && s[0] == ' '
    ensures BeforeBlank(t + s) == t
  {
    if t == "" {
      assert t + s == s;
    } else {
      assert (t + s)[1..] == t[1..] + s;
      BeforeBlankIs(t[1..], s);
    }
  }

  lemma LineParts(bytes: seq<Byte>, i: nat, len: nat)
    requires len <= |bytes| && i < len
    ensures var end := Min(i + 16, len);
            var l := Line(bytes, i, len);
            && BeforeBlank(l) == Offset(i)
            && |l| >= |Offset(i)| + 2
            && l[|Offset(i)| + 2..] == Cells(bytes, i, i + 16, end) + (" " + Gutter(bytes, i, end))
  {
    var end := Min(i + 16, len);
    var o, c, g := Offset(i), Cells(bytes, i, i + 16, end), Gutter(bytes, i, end);
    var tail := c + (" " + g);
    assert Line(bytes, i, len) == o + ("  " + tail);
    BeforeBlankIs(o, "  " + tail);
    assert (o + ("  " + tail))[|o| + 2..] == tail;
  }

  lemma LineReads(bytes: seq<Byte>, i: nat, len: nat)
    requires len <= |bytes| && i < len
    ensures ReadLine(Line(bytes, i, len)) == bytes[i..Min(i + 16, len)]
  {
    var end := Min(i + 16, len);
    LineParts(bytes, i, len);
    CellsRead(bytes, i, i + 16, end, " " + Gutter(bytes, i, end));
  }

  lemma {:induction false} NoBreakInCells(bytes: seq<Byte>, j: nat, stop: nat, end: nat)
    requires end <= |bytes|
    ensures '\n' !in Cells(bytes, j, stop, end)
    decreases stop - j
  {
    if j < stop {
      NoBreakInCells(bytes, j + 1, stop, end);
    }
  }

  lemma {:induction false} NoBreakInGutter(bytes: seq<Byte>, j: nat, end: nat)
    requires end <= |bytes|
    ensures '\n' !in Gutter(bytes, j, end)
    decreases end - j
  {
    if j < end {
      NoBreakInGutter(bytes, j + 1, end);
    }
  }

  lemma LineHasNoBreak(bytes: seq<Byte>, i: nat, len: nat)
    requires len <= |bytes|
    ensures '\n' !in Line(bytes, i, len) && Line(bytes, i, len) != ""
  {
    NoBreakInCells(bytes, i, i + 16, Min(i + 16, len));
    NoBreakInGutter(bytes, i, Min(i + 16, len));
  }

  /** The lines of a dump: one for every 16 bytes or part of them. */
  function LinesFrom(bytes: seq<Byte>, i: nat, len: nat): (ls: seq<string>)
    requires len <= |bytes|
    ensures |ls| == if i >= len then 0 else (len - i + 15) / 16
    ensures forall k :: 0 <= k < |ls| ==> ls[k] == Line(bytes, i + 16 * k, len)
    decreases len - i
  {
    hide Line;
    if i >= len then [] else [Line(bytes, i, len)] + LinesFrom(bytes, i + 16, len)
  }

  lemma {:induction false} DumpSplits(bytes: seq<Byte>, i: nat, len: nat)
    requires len <= |bytes| && i < len
    ensures DumpFrom(bytes, i, len) != "" && Split(DumpFrom(bytes, i, len)) == LinesFrom(bytes, i, len)
    decreases len - i
  {
    var l := Line(bytes, i, len);
    LineHasNoBreak(bytes, i, len);
    if i + 16 < len {
      DumpSplits(bytes, i + 16, len);
      var rest := DumpFrom(bytes, i + 16, len);
      Assoc(l, "\n", rest);
      FirstLineIs(l, "\n" + rest);
      assert (l + "\n" + rest)[|l| + 1..] == rest;
    } else {
      assert DumpFrom(bytes, i + 16, len) == "" && l + "" + "" == l && l + "" == l;
      FirstLineIs(l, "");
      assert LinesFrom(bytes, i + 16, len) == [];
    }
  }

  lemma JoinRanges(bytes: seq<Byte>, i: nat, mid: nat, len: nat)
    requires i <= mid <= len <= |bytes|
    ensures bytes[i..len] == bytes[i..mid] + bytes[mid..len]
  {
  }

  lemma {:induction false} LinesRead(bytes: seq<Byte>, i: nat, len: nat)
    requires i <= len <= |bytes|
    ensures ReadLines(LinesFrom(bytes, i, len)) == bytes[i..len]
    decreases len - i
  {
    if i < len {
      var end := Min(i + 16, len);
      LineReads(bytes, i, len);
      JoinRanges(bytes, i, end, len);
      var rest := LinesFrom(bytes, i + 16, len);
      assert ([Line(bytes, i, len)] + rest)[1..] == rest;
      if i + 16 <= len {
        LinesRead(bytes, i + 16, len);
      } else {
        assert rest == [] && bytes[end..len] == [];
      }
    }
  }

  lemma {:induction false} HexTextValue(n: nat)
    ensures HexValue(HexText(n)) == n
  {
    if n >= 16 {
      HexTextValue(n / 16);
      assert HexText(n)[..|HexText(n)| - 1] == HexText(n / 16);
    } else {
      assert HexText(n)[..0] == "" && HexValue("") == 0;
    }
  }

  lemma {:induction false} LeadingZeros(k: int, s: string)
    requires AllHex(s)
    ensures AllHex(Zeros(k) + s) && HexValue(Zeros(k) + s) == HexValue(s)
    decreases |s|, k
  {
    if s != "" {
      LeadingZeros(k, s[..|s| - 1]);
      assert (Zeros(k) + s)[..|Zeros(k) + s| - 1] == Zeros(k) + s[..|s| - 1];
    } else {
      assert Zeros(k) + s == Zeros(k);
      ZerosValue(k);
    }
  }

  lemma {:induction false} ZerosValue(k: int)
    ensures HexValue(Zeros(k)) == 0
  {
    if k > 0 {
      ZerosValue(k - 1);
      ZerosEndInZero(k);
    }
  }

  lemma {:induction false} ZerosEndInZero(k: int)
    requires k > 0
    ensures Zeros(k) == Zeros(k - 1) + "0"
  {
    if k > 1 {
      ZerosEndInZero(k - 1);
    }
  }

  /** Every line starts with its offset, also when that takes more than four digits. */
  lemma OffsetReads(n: nat)
    ensures HexValue(Offset(n)) == n
  {
    HexTextValue(n);
    LeadingZeros(4 - |HexText(n)|, HexText(n));
  }

  /**
   * For every byte sequence and length up to its own, the dump reads back as exactly the first `len` bytes, has one
   * line for every 16 bytes or part of them, and line `k` starts with the offset 16 `k`.
   */
  lemma HexDumpReadsBack(bytes: seq<Byte>, len: nat)
    requires len <= |bytes|
    ensures var dump := DumpFrom(bytes, 0, len);
            && Decode(dump) == bytes[..len]
            && |Lines(dump)| == (len + 15) / 16
            && forall k :: 0 <= k < |Lines(dump)| ==>
                 AllHex(BeforeBlank(Lines(dump)[k])) && HexValue(BeforeBlank(Lines(dump)[k])) == 16 * k
  {
    var dump := DumpFrom(bytes, 0, len);
    if len > 0 {
      DumpSplits(bytes, 0, len);
      LinesRead(bytes, 0, len);
      assert bytes[0..len] == bytes[..len];
      forall k | 0 <= k < |Lines(dump)|
        ensures AllHex(BeforeBlank(Lines(dump)[k])) && HexValue(BeforeBlank(Lines(dump)[k])) == 16 * k
      {
        LineParts(bytes, 16 * k, len);
        OffsetReads(16 * k);
      }
    }
  }

  /** What stands beside the cells: the byte itself when it is printable ASCII, a dot otherwise. */
  lemma {:induction false} GutterShows(bytes: seq<Byte>, j: nat, end: nat, k: nat)
    requires j <= k < end <= |bytes|
    ensures |Gutter(bytes, j, end)| == end - j
    ensures Gutter(bytes, j, end)[k - j] == (if 32 <= bytes[k] < 127 then bytes[k] as char else '.')
    decreases end - j
  {
    if j + 1 < end {
      GutterShows(bytes, j + 1, end, if k == j then k + 1 else k);
    } else {
      assert Gutter(bytes, j + 1, end) == "";
    }
  }

  /** Four digits as long as they are enough, and then no more than are needed. */
  lemma OffsetDigits(n: nat)
    ensures |Offset(n)| == 4 || (n >= 65536 && |Offset(n)| > 4 && Offset(n)[0] != '0')
    ensures n < 65536 ==> |Offset(n)| == 4
  {
    DigitsNeeded(n);
    if n < 65536 {
      DigitsNeeded(n / 16);
      DigitsNeeded(n / 256);
      DigitsNeeded(n / 4096);
    } else {
      FiveDigits(n);
    }
  }

  lemma {:induction false} DigitsNeeded(n: nat)
    ensures |HexText(n)| == if n < 16 then 1 else |HexText(n / 16)| + 1
    ensures n > 0 ==> HexText(n)[0] != '0'
  {
    if n >= 16 {
      DigitsNeeded(n / 16);
    }
  }

  lemma FiveDigits(n: nat)
    requires n >= 65536
    ensures |HexText(n)| > 4
  {
    DigitsNeeded(n);
    DigitsNeeded(n / 16);
    DigitsNeeded(n / 16 / 16);
    DigitsNeeded(n / 16 / 16 / 16);
    assert n / 16 / 16 / 16 >= 16;
  }

  lemma {:induction false} CellAt(bytes: seq<Byte>, j: nat, stop: nat, end: nat, k: nat)
    requires j <= k < stop && end <= |bytes|
    ensures var cells, at := Cells(bytes, j, stop, end), 3 * (k - j);
            && |cells| == 3 * (stop - j)
            && cells[at..at + 3] == if k < end then [HexDigit(bytes[k] / 16), HexDigit(bytes[k] % 16), ' '] else "   "
    decreases stop - j
  {
    var cell := if j < end then ByteText(bytes[j]) + " " else "   ";
    var rest := Cells(bytes, j + 1, stop, end);
    assert Cells(bytes, j, stop, end) == cell + rest;
    assert cell == if j < end then [HexDigit(bytes[j] / 16), HexDigit(bytes[j] % 16), ' '] else "   ";
    if j + 1 < stop {
      CellAt(bytes, j + 1, stop, end, if k == j then k + 1 else k);
    } else {
      assert rest == "";
    }
    hide *;
    BehindCell(cell, rest, if k == j then 0 else 3 * (k - j - 1));
  }

  lemma BehindCell(cell: string, rest: string, at: nat)
    requires |cell| == 3
    ensures (cell + rest)[..3] == (cell + rest)[0..3] == cell
    ensures at + 3 <= |rest| ==> (cell + rest)[at + 3..at + 6] == rest[at..at + 3]
  {
  }

  /**
   * The columns of a line: the offset, two blanks, sixteen cells of three characters, a blank, and the bytes as
   * characters; a column past the last byte is blank.
   */
  lemma LineLooks(bytes: seq<Byte>, i: nat, len: nat, k: nat)
    requires i < len <= |bytes| && k < 16
    ensures var line, start, end := Line(bytes, i, len), |Offset(i)| + 2, Min(i + 16, len);
            && |line| == start + 49 + (end - i)
            && line[..start] == Offset(i) + "  " && line[start + 48] == ' '
            && line[start + 3 * k..start + 3 * k + 3] ==
                 (if i + k < end then [HexDigit(bytes[i + k] / 16), HexDigit(bytes[i + k] % 16), ' '] else "   ")
            && (i + k < end ==>
                  line[start + 49 + k] == if 32 <= bytes[i + k] < 127 then bytes[i + k] as char else '.')
  {
    var end, start := Min(i + 16, len), |Offset(i)| + 2;
    var o, c, g := Offset(i) + "  ", Cells(bytes, i, i + 16, end), Gutter(bytes, i, end);
    CellAt(bytes, i, i + 16, end, i + k);
    GutterShows(bytes, i, end, if i + k < end then i + k else i);
    assert Line(bytes, i, len) == o + c + " " + g;
    hide *;
    Columns(o, c, g, 3 * k);
    if i + k < end {
      assert g[k] == (o + c + " " + g)[|o| + |c| + 1 + k];
    }
  }

  lemma Columns(o: string, c: string, g: string, at: nat)
    requires at + 3 <= |c|
    ensures var line := o + c + " " + g;
            && line[..|o|] == o && line[|o| + |c|] == ' '
            && line[|o| + at..|o| + at + 3] == c[at..at + 3]
  {
  }
}
