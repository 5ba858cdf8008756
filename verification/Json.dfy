/** JSON values as the browser holds them after parsing. */
module Json {
  import opened Common

  datatype Field = Field(key: string, value: Json)

  /** The fields of an object are in enumeration order, each key once. */
  datatype Json =
    | Null
    | Bool(b: bool)
    | Num(n: real)
    | Str(s: string)
    | Arr(items: seq<Json>)
    | Obj(fields: seq<Field>)

  /** A size that shrinks towards the leaves. */
  function Size(j: Json): nat {
    match j
    case Arr(items) => 1 + ItemsSize(items)
    case Obj(fields) => 1 + FieldsSize(fields)
    case _ => 0
  }

  function ItemsSize(items: seq<Json>): nat {
    if items == [] then 0 else ItemsSize(items[..|items| - 1]) + 1 + Size(items[|items| - 1])
  }

  function FieldsSize(fields: seq<Field>): nat {
    if fields == [] then 0 else FieldsSize(fields[..|fields| - 1]) + 1 + Size(fields[|fields| - 1].value)
  }

  lemma {:induction false} FieldSmaller(fields: seq<Field>, i: nat)
    requires i < |fields|
    ensures Size(fields[i].value) < FieldsSize(fields)
  {
    if i < |fields| - 1 {
      FieldSmaller(fields[..|fields| - 1], i);
    }
  }

  function FieldAt(fields: seq<Field>, i: nat): (f: Field)
    requires i < |fields|
    ensures Size(f.value) < FieldsSize(fields)
  {
    FieldSmaller(fields, i);
    fields[i]
  }

  /** The value of an object's own field. */
  function Lookup(fields: seq<Field>, key: string): (v: Option<Json>)
    ensures v.Some? ==> Size(v.value) < FieldsSize(fields)
  {
    if fields == [] then None
    else if fields[|fields| - 1].key == key then Some(fields[|fields| - 1].value)
    else Lookup(fields[..|fields| - 1], key)
  }

  lemma {:induction false} LookupFinds(fields: seq<Field>, i: nat)
    requires i < |fields|
    ensures Lookup(fields, fields[i].key).Some?
  {
    if i < |fields| - 1 {
      LookupFinds(fields[..|fields| - 1], i);
    }
  }

  /** What counts as true in a JavaScript condition. */
  predicate Truthy(j: Json) {
    match j
    case Null => false
    case Bool(b) => b
    case Num(n) => n != 0.0
    case Str(s) => s != ""
    case _ => true
  }

  /** The number of UTF-16 code units of a string, which is its length in JavaScript. */
  function JsLength(s: string): nat {
    if s == "" then 0
    else JsLength(s[..|s| - 1]) + (if s[|s| - 1] as int >= 0x1_0000 then 2 else 1)
  }

  function Digit(d: nat): char
    requires d < 10
  {
    ('0' as int + d) as char
  }

  /** A natural number in decimal. */
  function NatText(n: nat): (s: string)
    ensures s != "" && forall i :: 0 <= i < |s| ==> '0' <= s[i] <= '9'
  {
    if n < 10 then [Digit(n)] else NatText(n / 10) + [Digit(n % 10)]
  }

  function NatValue(s: string): nat
    requires forall i :: 0 <= i < |s| ==> '0' <= s[i] <= '9'
  {
    if s == "" then 0 else 10 * NatValue(s[..|s| - 1]) + (s[|s| - 1] as int - '0' as int)
  }

  lemma {:induction false} NatTextRoundTrip(n: nat)
    ensures NatValue(NatText(n)) == n
  {
    if n >= 10 {
      NatTextRoundTrip(n / 10);
      assert NatText(n)[..|NatText(n)| - 1] == NatText(n / 10);
    } else {
      assert NatText(n)[..0] == "";
      assert NatValue("") == 0;
    }
  }
}
