/** Telling text from binary by its first bytes, and what that means in terms of UTF-8 (RFC 3629). */
module Utf8Text {
  import opened Common

  type Byte = b: int | 0 <= b < 256

  // ---- encoding: section 3 of RFC 3629 ----

  /** A Unicode scalar value: a code point that is not a surrogate. */
  predicate IsScalar(v: int) {
    0 <= v <= 0x10FFFF && !(0xD800 <= v <= 0xDFFF)
  }

  predicate AllScalars(vs: seq<int>) {
    forall i :: 0 <= i < |vs| ==> IsScalar(vs[i])
  }

  function Encode(v: int): (b: seq<Byte>)
    requires IsScalar(v)
    ensures 1 <= |b| <= 4
  {
    var high := v / 64;
    if v < 0x80 then [v]
    else if v < 0x800 then [0xC0 + high, 0x80 + v % 64]
    else if v < 0x1_0000 then [0xE0 + high / 64, 0x80 + high % 64, 0x80 + v % 64]
    else [0xF0 + high / 64 / 64, 0x80 + high / 64 % 64, 0x80 + high % 64, 0x80 + v % 64]
  }

  function EncodeAll(vs: seq<int>): seq<Byte>
    requires AllScalars(vs)
  {
    if vs == [] then [] else Encode(vs[0]) + EncodeAll(vs[1..])
  }

  // ---- decoding: section 4 of RFC 3629 ----

  predicate IsTail(b: Byte) {
    0x80 <= b <= 0xBF
  }

  /** The well-formed sequences of two, three and four bytes. */
  predicate Two(b: seq<Byte>) {
    |b| >= 2 && 0xC2 <= b[0] <= 0xDF && IsTail(b[1])
  }

  predicate Three(b: seq<Byte>) {
    && |b| >= 3 && IsTail(b[2])
    && (|| (b[0] == 0xE0 && 0xA0 <= b[1] <= 0xBF)
        || (0xE1 <= b[0] <= 0xEC && IsTail(b[1]))
        || (b[0] == 0xED && 0x80 <= b[1] <= 0x9F)
        || (0xEE <= b[0] <= 0xEF && IsTail(b[1])))
  }

  predicate Four(b: seq<Byte>) {
    && |b| >= 4 && IsTail(b[2]) && IsTail(b[3])
    && (|| (b[0] == 0xF0 && 0x90 <= b[1] <= 0xBF)
        || (0xF1 <= b[0] <= 0xF3 && IsTail(b[1]))
        || (b[0] == 0xF4 && 0x80 <= b[1] <= 0x8F))
  }

  datatype Decoded = Decoded(scalar: int, size: nat)

  /** The first character, or none when the bytes do not start with a well-formed sequence. */
  function DecodeOne(b: seq<Byte>): (d: Option<Decoded>)
    ensures d.Some? ==> 1 <= d.value.size <= |b|
  {
    if |b| >= 1 && b[0] < 0x80 then Some(Decoded(b[0], 1))
    else if Two(b) then Some(Decoded(Scalar(0xC0, [b[0], b[1]]), 2))
    else if Three(b) then Some(Decoded(Scalar(0xE0, [b[0], b[1], b[2]]), 3))
    else if Four(b) then Some(Decoded(Scalar(0xF0, [b[0], b[1], b[2], b[3]]), 4))
    else None
  }

  /** The payload bits of a sequence, six from every byte after the first. */
  function Scalar(lead: int, b: seq<int>): int
    requires b != []
  {
    if |b| == 1 then b[0] - lead else 64 * Scalar(lead, b[..|b| - 1]) + (b[|b| - 1] - 0x80)
  }

  lemma ScalarUnrolled(lead: int, a: int, b: int, c: int, d: int)
    ensures Scalar(lead, [a, b]) == 64 * (a - lead) + (b - 0x80)
    ensures Scalar(lead, [a, b, c]) == 64 * Scalar(lead, [a, b]) + (c - 0x80)
    ensures Scalar(lead, [a, b, c, d]) == 64 * Scalar(lead, [a, b, c]) + (d - 0x80)
  {
    assert [a, b][..1] == [a];
    assert [a, b, c][..2] == [a, b];
    assert [a, b, c, d][..3] == [a, b, c];
  }

  /** The UTF-16 code units of a scalar value, as a CharBuffer holds them. */
  function Units(v: int): seq<int>
    requires IsScalar(v)
  {
    if v < 0x1_0000 then [v] else [0xD800 + (v - 0x1_0000) / 1024, 0xDC00 + (v - 0x1_0000) % 1024]
  }

  function UnitsOf(vs: seq<int>): seq<int>
    requires AllScalars(vs)
  {
    if vs == [] then [] else Units(vs[0]) + UnitsOf(vs[1..])
  }

  /** Dividing by 64 takes the last six bits off again. */
  lemma SixBits(q: int, r: int)
    requires 0 <= r < 64
    ensures (64 * q + r) / 64 == q && (64 * q + r) % 64 == r
  {
  }

  lemma TwoIsEncoded(a: Byte, b: Byte)
    requires Two([a, b])
    ensures var v := Scalar(0xC0, [a, b]); 0x80 <= v < 0x800 && Encode(v) == [a, b]
  {
    ScalarUnrolled(0xC0, a, b, 0, 0);
    SixBits(a - 0xC0, b - 0x80);
  }

  lemma ThreeIsEncoded(a: Byte, b: Byte, c: Byte)
    requires Three([a, b, c])
    ensures var v := Scalar(0xE0, [a, b, c]); 0x800 <= v < 0x1_0000 && IsScalar(v) && Encode(v) == [a, b, c]
  {
    ScalarUnrolled(0xE0, a, b, c, 0);
    SixBits(a - 0xE0, b - 0x80);
    SixBits(Scalar(0xE0, [a, b]), c - 0x80);
  }

  lemma FourIsEncoded(a: Byte, b: Byte, c: Byte, d: Byte)
    requires Four([a, b, c, d])
    ensures var v := Scalar(0xF0, [a, b, c, d]); 0x1_0000 <= v <= 0x10FFFF && Encode(v) == [a, b, c, d]
  {
    ScalarUnrolled(0xF0, a, b, c, d);
    SixBits(a - 0xF0, b - 0x80);
    SixBits(Scalar(0xF0, [a, b]), c - 0x80);
    SixBits(Scalar(0xF0, [a, b, c]), d - 0x80);
    var v := Scalar(0xF0, [a, b, c, d]);
    assert v == 262144 * (a - 0xF0) + 4096 * (b - 0x80) + 64 * (c - 0x80) + (d - 0x80);
    assert v / 64 / 64 / 64 == a - 0xF0;
  }

  lemma DecodeOneIsEncoded(b: seq<Byte>)
    requires DecodeOne(b).Some?
    ensures var Decoded(v, n) := DecodeOne(b).value; IsScalar(v) && Encode(v) == b[..n]
  {
    if b[0] < 0x80 {
    } else if Two(b) {
      TwoIsEncoded(b[0], b[1]);
    } else if Three(b) {
      ThreeIsEncoded(b[0], b[1], b[2]);
    } else {
      FourIsEncoded(b[0], b[1], b[2], b[3]);
    }
  }

  /** The strict decoder: the code units of well-formed input, or none when any byte is malformed or missing. */
  function DecodeUnits(b: seq<Byte>): Option<seq<int>>
    decreases |b|
  {
    if b == [] then Some([])
    else
      match DecodeOne(b)
      case None => None
      case Some(Decoded(v, n)) =>
        DecodeOneIsEncoded(b);
        match DecodeUnits(b[n..])
        case None => None
        case Some(rest) => Some(Units(v) + rest)
  }

  // ---- the check ----

  const SAMPLE := 8192

  predicate IsIsoControl(c: int) {
    0 <= c <= 0x1F || 0x7F <= c <= 0x9F
  }

  predicate IsAllowed(c: int) {
    c == 9 || c == 10 || c == 13 || !IsIsoControl(c)
  }

  predicate AllAllowed(cs: seq<int>) {
    forall i :: 0 <= i < |cs| ==> IsAllowed(cs[i])
  }

  /** No character is a control character other than tab, line feed and carriage return. */
  predicate NoControls(vs: seq<int>) {
    forall i :: 0 <= i < |vs| ==> vs[i] in {9, 10, 13} || 0x20 <= vs[i] < 0x7F || 0xA0 <= vs[i]
  }

  /** Characters without controls, written in UTF-8. */
  ghost predicate IsText(b: seq<Byte>) {
    exists vs :: AllScalars(vs) && NoControls(vs) && EncodeAll(vs) == b
  }

  lemma AllowedIff(vs: seq<int>)
    requires AllScalars(vs)
    ensures AllAllowed(vs) <==> NoControls(vs)
  {
  }

  /** Bytes look like text exactly when their first 8192 are well-formed UTF-8 without controls but tab, LF and CR. */
  method LooksLikeText(bytes: array<Byte>) returns (r: bool)
    ensures r <==> IsText(bytes[..if bytes.Length < 8192 then bytes.Length else 8192])
  {
    if bytes.Length == 0 {
      assert EncodeAll([]) == bytes[..0];
      return true;
    }
    var sampleLen := if bytes.Length < SAMPLE then bytes.Length else SAMPLE;
    var sample := bytes[..sampleLen];
    var decoded := DecodeUnits(sample);
    TextIffDecodedAllowed(sample);
    if decoded.None? {
      return false;
    }
    for i := 0 to |decoded.value|
      invariant forall k :: 0 <= k < i ==> IsAllowed(decoded.value[k])
    {
      var c := decoded.value[i];
      if c == 9 || c == 10 || c == 13 {
        continue;
      }
      if IsIsoControl(c) {
        return false;
      }
    }
    return true;
  }

  // ---- the decoder and the encoding ----

  lemma EncodedIsDecoded(v: int, rest: seq<Byte>)
    requires IsScalar(v)
    ensures DecodeOne(Encode(v) + rest) == Some(Decoded(v, |Encode(v)|))
  {
    var e, b := Encode(v), Encode(v) + rest;
    assert forall i :: 0 <= i < |e| ==> b[i] == e[i];
    var high := v / 64;
    if v < 0x80 {
    } else if v < 0x800 {
      ScalarUnrolled(0xC0, e[0], e[1], 0, 0);
      assert Two(b);
    } else if v < 0x1_0000 {
      ScalarUnrolled(0xE0, e[0], e[1], e[2], 0);
      assert high == 64 * (high / 64) + high % 64;
      assert Three(b) && !Two(b);
    } else {
      ScalarUnrolled(0xF0, e[0], e[1], e[2], e[3]);
      assert high / 64 == 64 * (high / 64 / 64) + high / 64 % 64;
      assert Four(b) && !Three(b) && !Two(b);
    }
  }

  /** The decoder gives the units of exactly the characters whose encoding it is handed. */
  lemma {:induction false} DecodesWhatWasEncoded(vs: seq<int>)
    requires AllScalars(vs)
    ensures DecodeUnits(EncodeAll(vs)) == Some(UnitsOf(vs))
  {
    if vs != [] {
      var v, rest := vs[0], EncodeAll(vs[1..]);
      EncodedIsDecoded(v, rest);
      DecodesWhatWasEncoded(vs[1..]);
      assert (Encode(v) + rest)[|Encode(v)|..] == rest;
    }
  }

  lemma EncodeAllFirst(v: int, vs: seq<int>)
    requires IsScalar(v) && AllScalars(vs)
    ensures AllScalars([v] + vs) && EncodeAll([v] + vs) == Encode(v) + EncodeAll(vs)
  {
    assert ([v] + vs)[1..] == vs;
  }

  /** What the decoder accepts is the encoding of some characters. */
  lemma {:induction false} AcceptsOnlyEncoded(b: seq<Byte>) returns (vs: seq<int>)
    requires DecodeUnits(b).Some?
    ensures AllScalars(vs) && EncodeAll(vs) == b
    decreases |b|
  {
    if b == [] {
      vs := [];
    } else {
      var n := DecodeOne(b).value.size;
      assert DecodeUnits(b[n..]).Some?;
      var rest := AcceptsOnlyEncoded(b[n..]);
      vs := FirstThenRest(b, rest);
    }
  }

  lemma FirstThenRest(b: seq<Byte>, rest: seq<int>) returns (vs: seq<int>)
    requires DecodeOne(b).Some? && AllScalars(rest) && EncodeAll(rest) == b[DecodeOne(b).value.size..]
    ensures AllScalars(vs) && EncodeAll(vs) == b
  {
    var Decoded(v, n) := DecodeOne(b).value;
    DecodeOneIsEncoded(b);
    EncodeAllFirst(v, rest);
    vs := [v] + rest;
    assert b == b[..n] + b[n..];
  }

  lemma {:induction false} UnitsAllowedIff(vs: seq<int>)
    requires AllScalars(vs)
    ensures AllAllowed(UnitsOf(vs)) <==> AllAllowed(vs)
  {
    if vs != [] {
      UnitsAllowedIff(vs[1..]);
      var u, rest := Units(vs[0]), UnitsOf(vs[1..]);
      assert u[0] == vs[0] || !IsIsoControl(u[0]);
      assert AllAllowed(u) <==> IsAllowed(vs[0]);
      assert AllAllowed(u + rest) <==> AllAllowed(u) && AllAllowed(rest) by {
        assert forall i :: 0 <= i < |u| ==> (u + rest)[i] == u[i];
        assert forall i :: 0 <= i < |rest| ==> (u + rest)[|u| + i] == rest[i];
      }
      assert forall i :: 0 <= i < |vs[1..]| ==> vs[1..][i] == vs[i + 1];
    }
  }

  /** The check on decoded units comes to the definition of text by encoding. */
  lemma TextIffDecodedAllowed(b: seq<Byte>)
    ensures IsText(b) <==> DecodeUnits(b).Some? && AllAllowed(DecodeUnits(b).value)
  {
    if IsText(b) {
      var vs :| AllScalars(vs) && NoControls(vs) && EncodeAll(vs) == b;
      AllowedIff(vs);
      DecodesWhatWasEncoded(vs);
      UnitsAllowedIff(vs);
    }
    if DecodeUnits(b).Some? && AllAllowed(DecodeUnits(b).value) {
      var vs := AcceptsOnlyEncoded(b);
      DecodesWhatWasEncoded(vs);
      UnitsAllowedIff(vs);
      AllowedIff(vs);
    }
  }

  // ---- the boundary ----

  lemma {:induction false} EncodeAllConcat(a: seq<int>, b: seq<int>)
    requires AllScalars(a) && AllScalars(b)
    ensures EncodeAll(a + b) == EncodeAll(a) + EncodeAll(b)
  {
    if a == [] {
      assert a + b == b;
    } else {
      EncodeAllConcat(a[1..], b);
      assert (a + b)[1..] == a[1..] + b;
      assert Encode(a[0]) + (EncodeAll(a[1..]) + EncodeAll(b)) == Encode(a[0]) + EncodeAll(a[1..]) + EncodeAll(b);
    }
  }

  lemma PrefixTail<T>(a: seq<T>, b: seq<T>, c: seq<T>)
    requires a + b <= c
    ensures c == a + c[|a|..] && b <= c[|a|..]
  {
    assert c[..|a + b|] == a + b;
  }

  /** Characters whose encoding begins another text's encoding begin that text. */
  lemma {:induction false} PrefixOfEncoding(xs: seq<int>, ys: seq<int>)
    requires AllScalars(xs) && AllScalars(ys) && EncodeAll(xs) <= EncodeAll(ys)
    ensures xs <= ys
    decreases |xs|
  {
    if xs != [] {
      var x, all := Encode(xs[0]), EncodeAll(ys);
      PrefixTail(x, EncodeAll(xs[1..]), all);
      EncodedIsDecoded(xs[0], all[|x|..]);
      EncodedIsDecoded(ys[0], EncodeAll(ys[1..]));
      assert xs[0] == ys[0];
      assert all[|x|..] == EncodeAll(ys[1..]);
      PrefixOfEncoding(xs[1..], ys[1..]);
    }
  }

  /** Some number of whole characters takes exactly `n` bytes. */
  ghost predicate IsBoundary(vs: seq<int>, n: nat)
    requires AllScalars(vs)
  {
    exists k :: 0 <= k <= |vs| && |EncodeAll(vs[..k])| == n
  }

  /**
   * Text without controls that is longer than the sample looks like text if and only if the sample ends between two
   * characters.
   */
  lemma LongTextLooksLikeTextIffBoundary(vs: seq<int>)
    requires AllScalars(vs) && NoControls(vs) && |EncodeAll(vs)| > 8192
    ensures IsText(EncodeAll(vs)[..8192]) <==> IsBoundary(vs, 8192)
  {
    hide EncodeAll, IsScalar;
    var all := EncodeAll(vs);
    if IsBoundary(vs, 8192) {
      var k :| 0 <= k <= |vs| && |EncodeAll(vs[..k])| == 8192;
      EncodeAllConcat(vs[..k], vs[k..]);
      assert vs[..k] + vs[k..] == vs;
      assert all[..8192] == EncodeAll(vs[..k]);
      assert NoControls(vs[..k]);
    }
    if IsText(all[..8192]) {
      var ws :| AllScalars(ws) && NoControls(ws) && EncodeAll(ws) == all[..8192];
      PrefixOfEncoding(ws, vs);
      assert vs[..|ws|] == ws;
    }
  }
}
