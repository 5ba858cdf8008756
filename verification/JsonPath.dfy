/** The paths that validation errors carry, the scanner that takes them apart, and where the errors lie. */
module JsonPath {
  import opened Common
  import opened Json
  import opened Text
  import opened SchemaValidator

  datatype Seg = Key(key: string) | Index(i: nat)

  // ---- printing ----

  function SegText(seg: Seg): (t: string)
    ensures |t| >= 1 && (t[0] == '.' || t[0] == '[')
  {
    match seg
    case Key(key) => "." + key
    case Index(i) => "[" + NatText(i) + "]"
  }

  function Tail(segs: seq<Seg>): string {
    if segs == [] then "" else SegText(segs[0]) + Tail(segs[1..])
  }

  /** A path as the validator builds it up from "$". */
  function Print(segs: seq<Seg>): string {
    "$" + Tail(segs)
  }

  lemma TailFirst(first: Seg, rest: seq<Seg>)
    ensures Tail([first] + rest) == SegText(first) + Tail(rest)
  {
    assert ([first] + rest)[1..] == rest;
  }

  lemma {:induction false} TailOneMore(segs: seq<Seg>, seg: Seg)
    ensures Tail(segs + [seg]) == Tail(segs) + SegText(seg)
  {
    if segs == [] {
      assert [] + [seg] == [seg] + [];
      TailFirst(seg, []);
      assert Tail([]) == "";
    } else {
      TailOneMore(segs[1..], seg);
      assert segs + [seg] == [segs[0]] + (segs[1..] + [seg]);
      TailFirst(segs[0], segs[1..] + [seg]);
      Assoc(SegText(segs[0]), Tail(segs[1..]), SegText(seg));
    }
  }

  lemma PrintOneMore(segs: seq<Seg>, seg: Seg)
    ensures Print(segs + [seg]) == Print(segs) + SegText(seg)
  {
    TailOneMore(segs, seg);
    Assoc("$", Tail(segs), SegText(seg));
  }

  /** The paths the validator builds for a field and for an element. */
  lemma ChildPaths(pre: seq<Seg>, key: string, i: nat)
    ensures Print(pre) + "." + key == Print(pre + [Key(key)])
    ensures Print(pre) + "[" + NatText(i) + "]" == Print(pre + [Index(i)])
  {
    PrintOneMore(pre, Key(key));
    Assoc(Print(pre), ".", key);
    PrintOneMore(pre, Index(i));
    Assoc(Print(pre), "[", NatText(i));
    Assoc(Print(pre), "[" + NatText(i), "]");
  }

  // ---- scanning ----

  predicate IsDigit(c: char) {
    '0' <= c <= '9'
  }

  predicate IsKeyStart(c: char) {
    'a' <= c <= 'z' || 'A' <= c <= 'Z' || c == '_' || c == '$'
  }

  predicate IsKeyPart(c: char) {
    IsKeyStart(c) || IsDigit(c) || c == '-'
  }

  /** The keys that the path grammar can express. */
  predicate Fits(key: string) {
    key != "" && IsKeyStart(key[0]) && forall i :: 0 <= i < |key| ==> IsKeyPart(key[i])
  }

  /** The end of the longest run of characters from `from` on that satisfy `p`. */
  function RunEnd(p: char -> bool, s: string, from: nat): (e: nat)
    requires from <= |s|
    ensures from <= e <= |s|
    ensures forall i :: from <= i < e ==> p(s[i])
    ensures e < |s| ==> !p(s[e])
    decreases |s| - from
  {
    if from == |s| || !p(s[from]) then from else RunEnd(p, s, from + 1)
  }

  /** What the scanner's expression matches at one position: a segment and where it ends. */
  function MatchAt(s: string, at: nat): (m: Option<(Seg, nat)>)
    requires at < |s|
    ensures m.Some? ==> at < m.value.1 <= |s|
    ensures m.Some? && m.value.0.Key? ==> Fits(m.value.0.key)
  {
    if s[at] == '.' && at + 1 < |s| && IsKeyStart(s[at + 1]) then
      var e := RunEnd(IsKeyPart, s, at + 1);
      Some((Key(s[at + 1..e]), e))
    else if s[at] == '[' then
      var e := RunEnd(IsDigit, s, at + 1);
      if e > at + 1 && e < |s| && s[e] == ']' then Some((Index(NatValue(s[at + 1..e])), e + 1)) else None
    else None
  }

  /** All matches from a position on, each starting where the one before ended or later. */
  function Scan(s: string, at: nat): (parts: seq<Seg>)
    requires at <= |s|
    ensures forall k :: 0 <= k < |parts| && parts[k].Key? ==> Fits(parts[k].key)
    decreases |s| - at
  {
    if at == |s| then []
    else
      match MatchAt(s, at)
      case None => Scan(s, at + 1)
      case Some((seg, end)) => [seg] + Scan(s, end)
  }

  function Parts(path: string): seq<Seg> {
    if path == "" || path == "$" then [] else Scan(path, 0)
  }

  /** The scanner's loop: repeatedly the next match, until there is none. */
  method JsonPathParts(path: string) returns (parts: seq<Seg>)
    ensures parts == Parts(path)
  {
    if path == "" || path == "$" {
      return [];
    }
    parts := [];
    var at := 0;
    while at < |path|
      invariant at <= |path|
      invariant parts + Scan(path, at) == Scan(path, 0)
      decreases |path| - at
    {
      match MatchAt(path, at) {
        case None => at := at + 1;
        case Some((seg, end)) =>
          assert parts + ([seg] + Scan(path, end)) == parts + [seg] + Scan(path, end);
          parts, at := parts + [seg], end;
      }
    }
  }

  // ---- the scanner inverts the printer ----

  predicate SegFits(seg: Seg) {
    seg.Key? ==> Fits(seg.key)
  }

  predicate AllFit(segs: seq<Seg>) {
    forall k :: 0 <= k < |segs| ==> SegFits(segs[k])
  }

  lemma {:induction false} RunEndIs(p: char -> bool, s: string, from: nat, e: nat)
    requires from <= e <= |s|
    requires forall i :: from <= i < e ==> p(s[i])
    requires e < |s| ==> !p(s[e])
    ensures RunEnd(p, s, from) == e
    decreases e - from
  {
    if from < e {
      RunEndIs(p, s, from + 1, e);
    }
  }

  lemma MatchPrintedKey(before: string, key: string, after: string)
    requires Fits(key)
    requires after == "" || after[0] == '.' || after[0] == '['
    ensures var s := before + ("." + key) + after;
            MatchAt(s, |before|) == Some((Key(key), |before| + 1 + |key|))
  {
    var s := before + ("." + key) + after;
    var at := |before|;
    assert forall i :: 0 <= i < |key| ==> s[at + 1 + i] == key[i];
    assert after != "" ==> s[at + 1 + |key|] == after[0];
    RunEndIs(IsKeyPart, s, at + 1, at + 1 + |key|);
    assert s[at + 1..at + 1 + |key|] == key;
    assert s[at + 1] == key[0];
  }

  lemma MatchPrintedIndex(before: string, i: nat, after: string)
    ensures var s := before + ("[" + NatText(i) + "]") + after;
            MatchAt(s, |before|) == Some((Index(i), |before| + 2 + |NatText(i)|))
  {
    hide NatText, NatValue;
    var digits := NatText(i);
    var s := before + ("[" + digits + "]") + after;
    var at := |before|;
    assert forall k :: 0 <= k < |digits| ==> s[at + 1 + k] == digits[k];
    assert s[at + 1 + |digits|] == ']' && !IsDigit(']');
    RunEndIs(IsDigit, s, at + 1, at + 1 + |digits|);
    assert s[at + 1..at + 1 + |digits|] == digits;
    NatTextRoundTrip(i);
  }

  /** One printed part in the middle of a path is matched as itself. */
  lemma MatchPrinted(before: string, seg: Seg, after: string)
    requires SegFits(seg)
    requires after == "" || after[0] == '.' || after[0] == '['
    ensures MatchAt(before + SegText(seg) + after, |before|) == Some((seg, |before + SegText(seg)|))
  {
    hide MatchAt, Fits, NatText;
    match seg
    case Key(key) => MatchPrintedKey(before, key, after);
    case Index(i) => MatchPrintedIndex(before, i, after);
  }

  lemma {:induction false} ScanPrinted(before: string, segs: seq<Seg>)
    requires AllFit(segs)
    ensures Scan(before + Tail(segs), |before|) == segs
    decreases |segs|
  {
    if segs == [] {
      assert before + "" == before;
    } else {
      var first, others := segs[0], segs[1..];
      assert SegFits(first);
      Assoc(before, SegText(first), Tail(others));
      TailStarts(others);
      MatchPrinted(before, first, Tail(others));
      assert forall k :: 0 <= k < |others| ==> others[k] == segs[k + 1];
      ScanPrinted(before + SegText(first), others);
    }
  }

  lemma TailStarts(segs: seq<Seg>)
    ensures Tail(segs) == "" || Tail(segs)[0] == '.' || Tail(segs)[0] == '['
  {
    if segs != [] {
      assert Tail(segs)[0] == SegText(segs[0])[0];
    }
  }

  predicate IsNameChar(c: char) {
    'a' <= c <= 'z' || 'A' <= c <= 'Z' || '0' <= c <= '9' || c == '_' || c == '$' || c == '-'
  }

  /** A name of ASCII letters, digits, underscores, dollar signs and hyphens, not starting with a digit or a hyphen. */
  predicate IsName(key: string) {
    && key != "" && (forall i :: 0 <= i < |key| ==> IsNameChar(key[i]))
    && key[0] != '-' && !('0' <= key[0] <= '9')
  }

  lemma FitsIff(key: string)
    ensures Fits(key) <==> IsName(key)
  {
  }

  /** A path comes back as the parts it was printed from if and only if every key is a name. */
  lemma PartsInvertPrintIff(segs: seq<Seg>)
    ensures Parts(Print(segs)) == segs <==> AllFit(segs)
    ensures Parts(Print(segs)) == segs <==> forall i :: 0 <= i < |segs| && segs[i].Key? ==> IsName(segs[i].key)
  {
    forall i | 0 <= i < |segs| && segs[i].Key?
      ensures Fits(segs[i].key) <==> IsName(segs[i].key)
    {
      FitsIff(segs[i].key);
    }
    hide IsName, Fits;
    if segs == [] {
      assert Print(segs) == "$";
    } else {
      var path := Print(segs);
      assert Tail(segs) == SegText(segs[0]) + Tail(segs[1..]);
      assert |path| > 1;
      assert path[0] == '$' && MatchAt(path, 0) == None;
      if AllFit(segs) {
        ScanPrinted("$", segs);
      }
    }
  }

  // ---- where an error lies ----

  /** Follows the parts down from a value. */
  function Walk(v: Json, segs: seq<Seg>): Option<Json>
    decreases |segs|
  {
    if segs == [] then Some(v)
    else
      match segs[0]
      case Key(key) =>
        if v.Obj? && Lookup(v.fields, key).Some? then Walk(Lookup(v.fields, key).value, segs[1..]) else None
      case Index(i) => if v.Arr? && i < |v.items| then Walk(v.items[i], segs[1..]) else None
  }

  /** The parts lead to a node, or for a missing field, to an object that lacks exactly the last key. */
  predicate Locates(v: Json, segs: seq<Seg>, kind: Kind) {
    if kind == RequiredMissing then
      && segs != [] && segs[|segs| - 1].Key?
      && var parent := Walk(v, segs[..|segs| - 1]);
      && parent.Some? && parent.value.Obj?
      && Lookup(parent.value.fields, segs[|segs| - 1].key).None?
    else Walk(v, segs).Some?
  }

  predicate Places(v: Json, pre: seq<Seg>, segs: seq<Seg>, e: Error) {
    e.path == Print(pre + segs) && Locates(v, segs, e.kind)
  }

  lemma StepDown(v: Json, child: Json, pre: seq<Seg>, seg: Seg, segs: seq<Seg>, e: Error)
    requires Walk(v, [seg]) == Some(child)
    requires Places(child, pre + [seg], segs, e)
    ensures Places(v, pre, [seg] + segs, e)
  {
    assert pre + [seg] + segs == pre + ([seg] + segs);
    var whole := [seg] + segs;
    assert whole[1..] == segs;
    assert [seg][1..] == [];
    if e.kind == RequiredMissing {
      assert whole[..|whole| - 1] == [seg] + segs[..|segs| - 1];
      assert ([seg] + segs[..|segs| - 1])[1..] == segs[..|segs| - 1];
    }
  }

  lemma {:induction false} RequiredLocated(keys: seq<string>, v: Json, pre: seq<Seg>, e: Error) returns (segs: seq<Seg>)
    requires v.Obj? && e in RequiredErrors(keys, v.fields, Print(pre))
    ensures Places(v, pre, segs, e)
  {
    var n := |keys| - 1;
    if e in RequiredErrors(keys[..n], v.fields, Print(pre)) {
      segs := RequiredLocated(keys[..n], v, pre, e);
    } else {
      segs := [Key(keys[n])];
      ChildPaths(pre, keys[n], 0);
      assert segs[..0] == [];
    }
  }

  lemma {:induction false} AdditionalLocated(fields: seq<Field>, schema: Json, v: Json, pre: seq<Seg>, e: Error)
    returns (segs: seq<Seg>)
    requires v.Obj? && fields <= v.fields && e in AdditionalErrors(fields, schema, Print(pre))
    ensures Places(v, pre, segs, e)
    decreases |fields|
  {
    var n := |fields| - 1;
    if e in AdditionalErrors(fields[..n], schema, Print(pre)) {
      segs := AdditionalLocated(fields[..n], schema, v, pre, e);
    } else {
      var key := fields[n].key;
      segs := [Key(key)];
      ChildPaths(pre, key, 0);
      LookupFinds(v.fields, n);
      assert segs[1..] == [];
    }
  }

  lemma {:induction false} PropertyLocated(
      js: Coercions, v: Json, entries: seq<Field>, pre: seq<Seg>, e: Error) returns (segs: seq<Seg>)
    requires v.Obj? && e in PropertyErrors(js, v.fields, entries, Print(pre))
    ensures Places(v, pre, segs, e)
    decreases FieldsSize(entries), 3, |entries|
  {
    var n := |entries| - 1;
    if e in PropertyErrors(js, v.fields, entries[..n], Print(pre)) {
      segs := PropertyLocated(js, v, entries[..n], pre, e);
    } else {
      var Field(key, childSchema) := entries[n];
      var child := Lookup(v.fields, key).value;
      ChildPaths(pre, key, 0);
      var deeper := ErrorLocated(js, child, childSchema, pre + [Key(key)], e);
      assert [Key(key)][1..] == [];
      StepDown(v, child, pre, Key(key), deeper, e);
      segs := [Key(key)] + deeper;
    }
  }

  lemma {:induction false} ItemLocated(
      js: Coercions, v: Json, n: nat, schema: Json, pre: seq<Seg>, e: Error) returns (segs: seq<Seg>)
    requires v.Arr? && n <= |v.items| && e in ItemErrors(js, v.items[..n], schema, Print(pre))
    ensures Places(v, pre, segs, e)
    decreases Size(schema), 3, n
  {
    assert v.items[..n][..n - 1] == v.items[..n - 1];
    if e in ItemErrors(js, v.items[..n - 1], schema, Print(pre)) {
      segs := ItemLocated(js, v, n - 1, schema, pre, e);
    } else {
      var seg, child := Index(n - 1), v.items[n - 1];
      ChildPaths(pre, "", n - 1);
      var deeper := ErrorLocated(js, child, schema, pre + [seg], e);
      assert [seg][1..] == [];
      StepDown(v, child, pre, seg, deeper, e);
      segs := [seg] + deeper;
    }
  }

  /** Every error the validator reports below a path lies where its own path says. */
  lemma {:induction false} ErrorLocated(js: Coercions, v: Json, schema: Json, pre: seq<Seg>, e: Error)
    returns (segs: seq<Seg>)
    requires e in ValidateValue(js, v, schema, Print(pre))
    ensures Places(v, pre, segs, e)
    decreases Size(schema), 2, 0
  {
    var path := Print(pre);
    if OfDeclaredType(v, schema) && e in ObjectErrors(js, v, schema, path) {
      segs := ObjectErrorLocated(js, v, schema, pre, e);
    } else if OfDeclaredType(v, schema) && e in ArrayErrors(js, v, schema, path) {
      assert v.items[..|v.items|] == v.items;
      segs := ItemLocated(js, v, |v.items|, Keyword(schema, "items").value, pre, e);
    } else {
      segs := [];
      assert pre + [] == pre;
      ErrorAtTheValue(js, v, schema, path, e);
    }
  }

  lemma ErrorAtTheValue(js: Coercions, v: Json, schema: Json, path: string, e: Error)
    requires e in ValidateValue(js, v, schema, path)
    requires OfDeclaredType(v, schema) ==>
               e !in ObjectErrors(js, v, schema, path) && e !in ArrayErrors(js, v, schema, path)
    ensures e.path == path && e.kind != RequiredMissing
  {
    if OfDeclaredType(v, schema) {
      assert e in EnumErrors(v, schema, path) || e in LengthErrors(js, v, schema, path)
        || e in RangeErrors(js, v, schema, path);
    }
  }

  lemma {:induction false} ObjectErrorLocated(js: Coercions, v: Json, schema: Json, pre: seq<Seg>, e: Error)
    returns (segs: seq<Seg>)
    requires IsSchema(schema) && e in ObjectErrors(js, v, schema, Print(pre))
    ensures Places(v, pre, segs, e)
    decreases Size(schema), 1, 0
  {
    var path := Print(pre);
    if e in RequiredErrors(RequiredKeys(js, schema), v.fields, path) {
      segs := RequiredLocated(RequiredKeys(js, schema), v, pre, e);
    } else if e in PropertyErrors(js, v.fields, PropertyEntries(schema), path) {
      segs := PropertyLocated(js, v, PropertyEntries(schema), pre, e);
    } else {
      segs := AdditionalLocated(v.fields, schema, v, pre, e);
    }
  }

  // ---- the marker for a missing field ----

  /** The parent path cut off an error's path, when its last part is a key. */
  function ParentPath(path: string): Option<string> {
    var parts := Parts(path);
    if parts == [] || !parts[|parts| - 1].Key? then None
    else
      var end := |path| - |"." + parts[|parts| - 1].key|;
      Some(if end >= 0 then path[..end] else "")
  }

  /**
   * Every error of a document is locatable: its path is printed from parts that lead to the place in question; the
   * scanner recovers exactly these parts if and only if their keys fit the path grammar; and then, for a missing
   * field, the path cut off for the marker is that of the object that lacks the field.
   */
  lemma EveryErrorIsLocatable(js: Coercions, v: Json, schema: Json, e: Error) returns (segs: seq<Seg>)
    requires e in ValidateValue(js, v, schema, "$")
    ensures e.path == Print(segs) && Locates(v, segs, e.kind)
    ensures Parts(e.path) == segs <==> AllFit(segs)
    ensures e.kind == RequiredMissing && AllFit(segs) ==> ParentPath(e.path) == Some(Print(segs[..|segs| - 1]))
  {
    assert Print([]) == "$";
    segs := ErrorLocated(js, v, schema, [], e);
    assert [] + segs == segs;
    PartsInvertPrintIff(segs);
    if e.kind == RequiredMissing && AllFit(segs) {
      CutAtLastKey(segs);
    }
  }

  lemma PrefixOfConcat(a: string, b: string)
    ensures (a + b)[..|a + b| - |b|] == a
  {
  }

  lemma CutAtLastKey(segs: seq<Seg>)
    requires segs != [] && segs[|segs| - 1].Key? && AllFit(segs)
    ensures ParentPath(Print(segs)) == Some(Print(segs[..|segs| - 1]))
  {
    var front, last := segs[..|segs| - 1], segs[|segs| - 1];
    PartsInvertPrintIff(segs);
    assert front + [last] == segs;
    PrintOneMore(front, last);
    PrefixOfConcat(Print(front), SegText(last));
  }
}
