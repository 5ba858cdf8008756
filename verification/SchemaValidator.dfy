/** The in-browser schema validator, and the relation between values and schemas that it decides. */
module SchemaValidator {
  import opened Common
  import opened Json

  /** Conversions that are left to JavaScript: of a required key that is no string, of a bound that is no number. */
  datatype Coercions = Coercions(text: Json -> string, number: Json -> Option<real>)

  datatype Kind =
    | TypeMismatch | NotInEnum | TooShort | TooLong | BelowMinimum | AboveMaximum | RequiredMissing | NotAllowed

  datatype Error = Error(path: string, kind: Kind)

  // ---- reading a schema ----

  predicate IsSchema(schema: Json) {
    schema.Obj? || schema.Arr?
  }

  /** An array passes for a schema, but none of its own properties is a keyword. */
  function Keyword(schema: Json, name: string): (k: Option<Json>)
    ensures k.Some? ==> Size(k.value) + 1 < Size(schema)
  {
    if schema.Obj? then Lookup(schema.fields, name) else None
  }

  function ValueType(v: Json): string {
    match v
    case Null => "null"
    case Arr(_) => "array"
    case Num(n) => if n == n.Floor as real then "integer" else "number"
    case Bool(_) => "boolean"
    case Str(_) => "string"
    case Obj(_) => "object"
  }

  predicate IsOfType(v: Json, t: Json) {
    t == Str(ValueType(v)) || (t == Str("number") && ValueType(v) == "integer")
  }

  function TypesOf(t: Json): seq<Json> {
    if t.Arr? then t.items else [t]
  }

  predicate SchemaTypeMatches(v: Json, t: Json) {
    exists i :: 0 <= i < |TypesOf(t)| && IsOfType(v, TypesOf(t)[i])
  }

  /** The entries of `properties`; an array offers its elements under their indices. */
  function PropertyEntries(schema: Json): (fs: seq<Field>)
    ensures FieldsSize(fs) < Size(schema) || fs == []
  {
    match Keyword(schema, "properties")
    case Some(Obj(fields)) => fields
    case Some(Arr(items)) => Indexed(items)
    case _ => []
  }

  function Indexed(items: seq<Json>): (fs: seq<Field>)
    ensures FieldsSize(fs) == ItemsSize(items)
    ensures |fs| == |items|
  {
    if items == [] then []
    else
      var n := |items| - 1;
      var front := Indexed(items[..n]);
      var fs := front + [Field(NatText(n), items[n])];
      assert fs[..n] == front;
      fs
  }

  /** Whether `properties` has the key as its own; arrays and strings also own their length and indices. */
  predicate PropertiesHave(schema: Json, key: string) {
    match Keyword(schema, "properties")
    case Some(Obj(fields)) => Lookup(fields, key).Some?
    case Some(Arr(items)) => Lookup(Indexed(items), key).Some? || key == "length"
    case Some(Str(s)) => s != "" && (key == "length" || exists i :: 0 <= i < JsLength(s) && key == NatText(i))
    case _ => false
  }

  function RequiredKeys(js: Coercions, schema: Json): seq<string> {
    match Keyword(schema, "required")
    case Some(Arr(items)) => KeyTexts(js, items)
    case _ => []
  }

  function KeyTexts(js: Coercions, items: seq<Json>): seq<string> {
    if items == [] then []
    else
      var last := items[|items| - 1];
      KeyTexts(js, items[..|items| - 1]) + [if last.Str? then last.s else js.text(last)]
  }

  /** A bound that is absent, null, or not a number after conversion, bounds nothing. */
  function Bound(js: Coercions, schema: Json, name: string): Option<real> {
    match Keyword(schema, name)
    case None => None
    case Some(Null) => None
    case Some(Num(n)) => Some(n)
    case Some(other) => js.number(other)
  }

  // ---- the validator ----

  function When(c: bool, path: string, kind: Kind): seq<Error> {
    if c then [Error(path, kind)] else []
  }

  function ValidateValue(js: Coercions, v: Json, schema: Json, path: string): seq<Error>
    decreases Size(schema), 2, 0
  {
    if !IsSchema(schema) then []
    else if !OfDeclaredType(v, schema) then [Error(path, TypeMismatch)]
    else
      EnumErrors(v, schema, path) + LengthErrors(js, v, schema, path) + RangeErrors(js, v, schema, path)
      + ObjectErrors(js, v, schema, path) + ArrayErrors(js, v, schema, path)
  }

  predicate OfDeclaredType(v: Json, schema: Json) {
    var t := Keyword(schema, "type");
    t.Some? && Truthy(t.value) ==> SchemaTypeMatches(v, t.value)
  }

  function ObjectErrors(js: Coercions, v: Json, schema: Json, path: string): seq<Error>
    requires IsSchema(schema)
    decreases Size(schema), 1, 0
  {
    if !v.Obj? then []
    else
      RequiredErrors(RequiredKeys(js, schema), v.fields, path)
      + PropertyErrors(js, v.fields, PropertyEntries(schema), path)
      + (if Keyword(schema, "additionalProperties") == Some(Bool(false))
         then AdditionalErrors(v.fields, schema, path) else [])
  }

  function ArrayErrors(js: Coercions, v: Json, schema: Json, path: string): seq<Error>
    requires IsSchema(schema)
    decreases Size(schema), 1, 0
  {
    var items := Keyword(schema, "items");
    if v.Arr? && items.Some? && Truthy(items.value) then ItemErrors(js, v.items, items.value, path) else []
  }

  function EnumErrors(v: Json, schema: Json, path: string): seq<Error> {
    var e := Keyword(schema, "enum");
    When(e.Some? && e.value.Arr? && v !in e.value.items, path, NotInEnum)
  }

  function LengthErrors(js: Coercions, v: Json, schema: Json, path: string): seq<Error> {
    if !v.Str? then []
    else
      var min, max := Bound(js, schema, "minLength"), Bound(js, schema, "maxLength");
      When(min.Some? && JsLength(v.s) as real < min.value, path, TooShort)
      + When(max.Some? && JsLength(v.s) as real > max.value, path, TooLong)
  }

  function RangeErrors(js: Coercions, v: Json, schema: Json, path: string): seq<Error> {
    if !v.Num? then []
    else
      var min, max := Bound(js, schema, "minimum"), Bound(js, schema, "maximum");
      When(min.Some? && v.n < min.value, path, BelowMinimum)
      + When(max.Some? && v.n > max.value, path, AboveMaximum)
  }

  function RequiredErrors(keys: seq<string>, fields: seq<Field>, path: string): seq<Error> {
    if keys == [] then []
    else
      var key := keys[|keys| - 1];
      RequiredErrors(keys[..|keys| - 1], fields, path)
      + When(Lookup(fields, key).None?, path + "." + key, RequiredMissing)
  }

  function PropertyErrors(js: Coercions, fields: seq<Field>, entries: seq<Field>, path: string): seq<Error>
    decreases FieldsSize(entries), 3, |entries|
  {
    if entries == [] then []
    else
      var Field(key, childSchema) := entries[|entries| - 1];
      PropertyErrors(js, fields, entries[..|entries| - 1], path)
      + (if Lookup(fields, key).Some?
         then ValidateValue(js, Lookup(fields, key).value, childSchema, path + "." + key) else [])
  }

  function AdditionalErrors(fields: seq<Field>, schema: Json, path: string): seq<Error> {
    if fields == [] then []
    else
      var key := fields[|fields| - 1].key;
      AdditionalErrors(fields[..|fields| - 1], schema, path)
      + When(!PropertiesHave(schema, key), path + "." + key, NotAllowed)
  }

  function ItemErrors(js: Coercions, items: seq<Json>, schema: Json, path: string): seq<Error>
    decreases Size(schema), 3, |items|
  {
    if items == [] then []
    else
      var n := |items| - 1;
      ItemErrors(js, items[..n], schema, path)
      + ValidateValue(js, items[n], schema, path + "[" + NatText(n) + "]")
  }

  // ---- what it decides ----

  predicate WithinLength(js: Coercions, v: Json, schema: Json) {
    v.Str? ==>
      && (Bound(js, schema, "minLength").Some? ==> Bound(js, schema, "minLength").value <= JsLength(v.s) as real)
      && (Bound(js, schema, "maxLength").Some? ==> JsLength(v.s) as real <= Bound(js, schema, "maxLength").value)
  }

  predicate WithinRange(js: Coercions, v: Json, schema: Json) {
    v.Num? ==>
      && (Bound(js, schema, "minimum").Some? ==> Bound(js, schema, "minimum").value <= v.n)
      && (Bound(js, schema, "maximum").Some? ==> v.n <= Bound(js, schema, "maximum").value)
  }

  /** No type is declared, or one of those declared is the value's; an integer is also a number. */
  predicate HasDeclaredType(v: Json, schema: Json) {
    match Keyword(schema, "type")
    case None => true
    case Some(t) =>
      !Truthy(t) || exists i :: 0 <= i < |TypesOf(t)| && IsOfType(v, TypesOf(t)[i])
  }

  predicate AmongEnumerated(v: Json, schema: Json) {
    var e := Keyword(schema, "enum");
    e.Some? && e.value.Arr? ==> exists i :: 0 <= i < |e.value.items| && e.value.items[i] == v
  }

  predicate HasRequired(js: Coercions, fields: seq<Field>, schema: Json) {
    forall i :: 0 <= i < |RequiredKeys(js, schema)| ==> Lookup(fields, RequiredKeys(js, schema)[i]).Some?
  }

  predicate OnlyDeclared(fields: seq<Field>, schema: Json) {
    Keyword(schema, "additionalProperties") == Some(Bool(false)) ==>
      forall i :: 0 <= i < |fields| ==> PropertiesHave(schema, fields[i].key)
  }

  /** A value satisfies a schema: every keyword holds of it, and of its parts where the keyword speaks of parts. */
  ghost predicate Satisfies(js: Coercions, v: Json, schema: Json)
    decreases Size(schema), 2
  {
    IsSchema(schema) ==>
      && HasDeclaredType(v, schema)
      && AmongEnumerated(v, schema)
      && WithinLength(js, v, schema)
      && WithinRange(js, v, schema)
      && FieldsSatisfy(js, v, schema)
      && ElementsSatisfy(js, v, schema)
  }

  ghost predicate FieldsSatisfy(js: Coercions, v: Json, schema: Json)
    requires IsSchema(schema)
    decreases Size(schema), 1
  {
    v.Obj? ==>
      var entries := PropertyEntries(schema);
      && HasRequired(js, v.fields, schema)
      && OnlyDeclared(v.fields, schema)
      && (forall i | 0 <= i < |entries| && Lookup(v.fields, FieldAt(entries, i).key).Some? ::
            Satisfies(js, Lookup(v.fields, FieldAt(entries, i).key).value, FieldAt(entries, i).value))
  }

  ghost predicate ElementsSatisfy(js: Coercions, v: Json, schema: Json)
    requires IsSchema(schema)
    decreases Size(schema), 1
  {
    var items := Keyword(schema, "items");
    v.Arr? && items.Some? && Truthy(items.value) ==> AllSatisfy(js, v.items, items.value)
  }

  ghost predicate AllSatisfy(js: Coercions, items: seq<Json>, schema: Json)
    decreases Size(schema), 3
  {
    forall i | 0 <= i < |items| :: Satisfies(js, items[i], schema)
  }

  lemma {:induction false} RequiredSound(keys: seq<string>, fields: seq<Field>, path: string)
    ensures RequiredErrors(keys, fields, path) == [] <==> forall i :: 0 <= i < |keys| ==> Lookup(fields, keys[i]).Some?
  {
    if keys != [] {
      var front := keys[..|keys| - 1];
      RequiredSound(front, fields, path);
      assert forall i :: 0 <= i < |front| ==> front[i] == keys[i];
    }
  }

  lemma {:induction false} AdditionalSound(fields: seq<Field>, schema: Json, path: string)
    ensures AdditionalErrors(fields, schema, path) == [] <==>
            forall i :: 0 <= i < |fields| ==> PropertiesHave(schema, fields[i].key)
  {
    hide PropertiesHave;
    if fields != [] {
      AdditionalSound(fields[..|fields| - 1], schema, path);
    }
  }

  lemma {:induction false} PropertiesSound(js: Coercions, fields: seq<Field>, entries: seq<Field>, path: string)
    ensures PropertyErrors(js, fields, entries, path) == [] <==>
            forall i | 0 <= i < |entries| && Lookup(fields, FieldAt(entries, i).key).Some? ::
              Satisfies(js, Lookup(fields, FieldAt(entries, i).key).value, FieldAt(entries, i).value)
    decreases FieldsSize(entries), 3, |entries|
  {
    if entries != [] {
      var n := |entries| - 1;
      var front, last := entries[..n], entries[n];
      PropertiesSound(js, fields, front, path);
      assert forall i | 0 <= i < n :: FieldAt(entries, i) == FieldAt(front, i);
      assert FieldAt(entries, n) == last;
      if Lookup(fields, last.key).Some? {
        ValidatorSound(js, Lookup(fields, last.key).value, last.value, path + "." + last.key);
      }
    }
  }

  lemma {:induction false} ItemsSound(js: Coercions, items: seq<Json>, schema: Json, path: string)
    ensures ItemErrors(js, items, schema, path) == [] <==> AllSatisfy(js, items, schema)
    decreases Size(schema), 3, |items|
  {
    if items != [] {
      var n := |items| - 1;
      var front := items[..n];
      ItemsSound(js, front, schema, path);
      ValidatorSound(js, items[n], schema, path + "[" + NatText(n) + "]");
      AllSatisfyLast(js, items, schema);
    }
  }

  lemma AllSatisfyLast(js: Coercions, items: seq<Json>, schema: Json)
    requires items != []
    ensures AllSatisfy(js, items, schema) <==>
            AllSatisfy(js, items[..|items| - 1], schema) && Satisfies(js, items[|items| - 1], schema)
  {
    var front := items[..|items| - 1];
    assert forall i :: 0 <= i < |front| ==> front[i] == items[i];
  }

  lemma ObjectSound(js: Coercions, v: Json, schema: Json, path: string)
    requires IsSchema(schema)
    ensures ObjectErrors(js, v, schema, path) == [] <==> FieldsSatisfy(js, v, schema)
    decreases Size(schema), 1, 0
  {
    if v.Obj? {
      RequiredSound(RequiredKeys(js, schema), v.fields, path);
      PropertiesSound(js, v.fields, PropertyEntries(schema), path);
      AdditionalSound(v.fields, schema, path);
    }
  }

  lemma ArraySound(js: Coercions, v: Json, schema: Json, path: string)
    requires IsSchema(schema)
    ensures ArrayErrors(js, v, schema, path) == [] <==> ElementsSatisfy(js, v, schema)
    decreases Size(schema), 1, 0
  {
    var items := Keyword(schema, "items");
    if v.Arr? && items.Some? && Truthy(items.value) {
      ItemsSound(js, v.items, items.value, path);
    }
  }

  /** The validator reports no errors exactly for the values that satisfy the schema, at any path. */
  lemma {:induction false} ValidatorSound(js: Coercions, v: Json, schema: Json, path: string)
    ensures ValidateValue(js, v, schema, path) == [] <==> Satisfies(js, v, schema)
    decreases Size(schema), 2, 0
  {
    if IsSchema(schema) {
      ObjectSound(js, v, schema, path);
      ArraySound(js, v, schema, path);
    }
  }
}
