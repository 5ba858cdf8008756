/**
 * What it is for a value to violate a schema at a place in a way, in terms of the fields of the two alone; and that the
 * validator reports exactly the violations.
 */
module SchemaViolations {
  import opened Common
  import opened Json
  import opened SchemaValidator
  import opened JsonPath

  // ---- objects ----

  /** The object has the field with this value; should a name be repeated, the last one counts. */
  ghost predicate Own(obj: Json, name: string, value: Json) {
    obj.Obj? && exists i :: 0 <= i < |obj.fields| && IsLastField(obj.fields, i, name, value)
  }

  ghost predicate IsLastField(fields: seq<Field>, i: nat, name: string, value: Json)
    requires i < |fields|
  {
    fields[i] == Field(name, value) && forall k :: i < k < |fields| ==> fields[k].key != name
  }

  ghost predicate Owns(obj: Json, name: string) {
    obj.Obj? && exists i :: 0 <= i < |obj.fields| && obj.fields[i].key == name
  }

  // ---- types, lengths and bounds ----

  /** The value is of the type that the name names; a whole number is both an integer and a number. */
  predicate IsA(v: Json, name: string) {
    match v
    case Null => name == "null"
    case Bool(_) => name == "boolean"
    case Str(_) => name == "string"
    case Arr(_) => name == "array"
    case Obj(_) => name == "object"
    case Num(n) => name == "number" || (name == "integer" && n.Floor as real == n)
  }

  /** Of the values of a keyword, these four count as none. */
  predicate Counts(j: Json) {
    j != Null && j != Bool(false) && j != Num(0.0) && j != Str("")
  }

  ghost predicate NamesTypeOf(t: Json, v: Json) {
    t.Str? && IsA(v, t.s)
  }

  /** A declared type that is not falsy is the name of the value's type, or a list with such a name in it. */
  ghost predicate TypeOk(v: Json, schema: Json) {
    forall t | Own(schema, "type", t) && Counts(t) ::
      if t.Arr? then exists i :: 0 <= i < |t.items| && NamesTypeOf(t.items[i], v) else NamesTypeOf(t, v)
  }

  /** The places of the characters that take two code units. */
  function Wide(s: string): set<nat> {
    set i: nat | i < |s| && s[i] as int >= 0x1_0000
  }

  /** The schema bounds something by `x` under this name. */
  ghost predicate BoundIs(js: Coercions, schema: Json, name: string, x: real) {
    exists value :: Own(schema, name, value)
      && (if value.Num? then value.n == x else !value.Null? && js.number(value) == Some(x))
  }

  // ---- properties ----

  ghost predicate Requires(js: Coercions, schema: Json, key: string) {
    exists list :: Own(schema, "required", list) && list.Arr?
      && exists i :: 0 <= i < |list.items|
           && key == (if list.items[i].Str? then list.items[i].s else js.text(list.items[i]))
  }

  /** `properties` gives the field this schema; a list gives one to each of its indices. */
  ghost predicate PropertySchema(schema: Json, key: string, sub: Json) {
    exists p :: Own(schema, "properties", p)
      && (p.Obj? ==> Field(key, sub) in p.fields)
      && (p.Arr? ==> exists i :: 0 <= i < |p.items| && key == NatText(i) && p.items[i] == sub)
      && (p.Obj? || p.Arr?)
  }

  /** The key is one of the first `n` indices. */
  ghost predicate IsIndex(n: nat, key: string) {
    exists i :: 0 <= i < n && key == NatText(i)
  }

  /** `properties` has the field as its own; lists and strings have their indices and their length. */
  ghost predicate DeclaresProperty(schema: Json, key: string) {
    exists p :: Own(schema, "properties", p)
      && match p
         case Obj(_) => Owns(p, key)
         case Arr(items) => key == "length" || IsIndex(|items|, key)
         case Str(s) => s != "" && (key == "length" || IsIndex(|s| + |Wide(s)|, key))
         case _ => false
  }

  // ---- violations ----

  /** The value itself violates a keyword. */
  ghost predicate ViolatedHere(js: Coercions, v: Json, schema: Json, kind: Kind) {
    match kind
    case NotInEnum => exists list :: Own(schema, "enum", list) && list.Arr? && v !in list.items
    case TooShort => v.Str? && exists x :: BoundIs(js, schema, "minLength", x) && (|v.s| + |Wide(v.s)|) as real < x
    case TooLong => v.Str? && exists x :: BoundIs(js, schema, "maxLength", x) && (|v.s| + |Wide(v.s)|) as real > x
    case BelowMinimum => v.Num? && exists x :: BoundIs(js, schema, "minimum", x) && v.n < x
    case AboveMaximum => v.Num? && exists x :: BoundIs(js, schema, "maximum", x) && v.n > x
    case _ => false
  }

  /** An object violates a keyword in that it has, or has not, the field. */
  ghost predicate ViolatedByField(js: Coercions, v: Json, schema: Json, key: string, kind: Kind) {
    match kind
    case RequiredMissing => v.Obj? && Requires(js, schema, key) && !Owns(v, key)
    case NotAllowed =>
      Own(schema, "additionalProperties", Bool(false)) && Owns(v, key) && !DeclaresProperty(schema, key)
    case _ => false
  }

  /**
   * The schema is violated at the end of the parts, in this way.  A value of a wrong type violates nothing else; any
   * other value may violate several keywords, and so may its fields and elements.
   */
  ghost predicate Violates(js: Coercions, v: Json, schema: Json, segs: seq<Seg>, kind: Kind)
    decreases |segs|
  {
    if !TypeOk(v, schema) then segs == [] && kind == TypeMismatch
    else if segs == [] then ViolatedHere(js, v, schema, kind)
    else
      match segs[0]
      case Key(key) =>
        || (|segs| == 1 && ViolatedByField(js, v, schema, key, kind))
        || (exists child, sub :: Own(v, key, child) && PropertySchema(schema, key, sub)
                                 && Violates(js, child, sub, segs[1..], kind))
      case Index(i) =>
        v.Arr? && i < |v.items|
        && exists sub :: Own(schema, "items", sub) && Counts(sub) && Violates(js, v.items[i], sub, segs[1..], kind)
  }

  // ---- how the validator reads a schema ----

  lemma {:induction false} LookupMeans(fields: seq<Field>, name: string)
    ensures Lookup(fields, name).Some? <==> Owns(Obj(fields), name)
    ensures Lookup(fields, name).Some? ==> Own(Obj(fields), name, Lookup(fields, name).value)
  {
    if fields != [] {
      var n := |fields| - 1;
      var front := fields[..n];
      LookupMeans(front, name);
      if fields[n].key == name {
        assert IsLastField(fields, n, name, fields[n].value);
        assert Obj(fields).fields[n].key == name;
      } else {
        if Owns(Obj(front), name) {
          var value := Lookup(front, name).value;
          var i :| 0 <= i < n && IsLastField(front, i, name, value);
          assert IsLastField(fields, i, name, value);
          assert Obj(fields).fields[i].key == name;
        }
        if Owns(Obj(fields), name) {
          var i :| 0 <= i < |fields| && Obj(fields).fields[i].key == name;
          assert Obj(front).fields[i].key == name;
        }
      }
    }
  }

  lemma OwnIsOne(obj: Json, name: string, a: Json, b: Json)
    requires Own(obj, name, a) && Own(obj, name, b)
    ensures a == b
  {
  }

  lemma LookupIff(fields: seq<Field>, name: string, value: Json)
    ensures Own(Obj(fields), name, value) <==> Lookup(fields, name) == Some(value)
  {
    LookupMeans(fields, name);
    if Own(Obj(fields), name, value) {
      var i :| 0 <= i < |fields| && IsLastField(fields, i, name, value);
      assert Obj(fields).fields[i].key == name;
      OwnIsOne(Obj(fields), name, value, Lookup(fields, name).value);
    }
  }

  lemma KeywordIff(schema: Json, name: string, value: Json)
    ensures Own(schema, name, value) <==> Keyword(schema, name) == Some(value)
  {
    if schema.Obj? {
      LookupIff(schema.fields, name, value);
    }
  }

  lemma NamesIff(v: Json, t: Json)
    ensures IsOfType(v, t) <==> NamesTypeOf(t, v)
  {
  }

  lemma MatchesIff(v: Json, t: Json)
    ensures SchemaTypeMatches(v, t) <==>
            if t.Arr? then exists i :: 0 <= i < |t.items| && NamesTypeOf(t.items[i], v) else NamesTypeOf(t, v)
  {
    hide IsOfType, NamesTypeOf;
    if t.Arr? {
      forall i | 0 <= i < |t.items|
        ensures IsOfType(v, t.items[i]) <==> NamesTypeOf(t.items[i], v)
      {
        NamesIff(v, t.items[i]);
      }
      assert TypesOf(t) == t.items;
    } else {
      NamesIff(v, t);
      assert TypesOf(t) == [t] && TypesOf(t)[0] == t;
    }
  }

  lemma TypeIff(v: Json, schema: Json)
    ensures OfDeclaredType(v, schema) <==> TypeOk(v, schema)
  {
    hide IsOfType, NamesTypeOf, Own, SchemaTypeMatches;
    var t := Keyword(schema, "type");
    forall u
      ensures Own(schema, "type", u) <==> t == Some(u)
    {
      KeywordIff(schema, "type", u);
    }
    if t.Some? {
      assert Own(schema, "type", t.value);
      MatchesIff(v, t.value);
    }
  }

  lemma {:induction false} LengthIs(s: string)
    ensures JsLength(s) == |s| + |Wide(s)|
  {
    if s == "" {
      assert Wide(s) == {};
    } else {
      var n := |s| - 1;
      LengthIs(s[..n]);
      assert Wide(s[..n]) == Wide(s) - {n};
      if s[n] as int >= 0x1_0000 {
        assert Wide(s) == Wide(s[..n]) + {n};
      } else {
        assert Wide(s) == Wide(s[..n]);
      }
    }
  }

  lemma BoundIff(js: Coercions, schema: Json, name: string, x: real)
    ensures BoundIs(js, schema, name, x) <==> Bound(js, schema, name) == Some(x)
  {
    hide Own;
    var k := Keyword(schema, name);
    forall value
      ensures Own(schema, name, value) <==> k == Some(value)
    {
      KeywordIff(schema, name, value);
    }
    if k.Some? {
      assert Own(schema, name, k.value);
    }
  }

  lemma {:induction false} KeyTextsHas(js: Coercions, items: seq<Json>, key: string)
    ensures key in KeyTexts(js, items) <==>
            exists i :: 0 <= i < |items| && key == (if items[i].Str? then items[i].s else js.text(items[i]))
  {
    if items != [] {
      var n := |items| - 1;
      var front := items[..n];
      KeyTextsHas(js, front, key);
      assert forall i :: 0 <= i < n ==> front[i] == items[i];
      assert KeyTexts(js, items) == KeyTexts(js, front) + [if items[n].Str? then items[n].s else js.text(items[n])];
    }
  }

  lemma RequiresIff(js: Coercions, schema: Json, key: string)
    ensures Requires(js, schema, key) <==> key in RequiredKeys(js, schema)
  {
    hide Own;
    var k := Keyword(schema, "required");
    forall value
      ensures Own(schema, "required", value) <==> k == Some(value)
    {
      KeywordIff(schema, "required", value);
    }
    if k.Some? && k.value.Arr? {
      KeyTextsHas(js, k.value.items, key);
      assert Own(schema, "required", k.value);
    }
  }

  lemma IndexedOneMore(items: seq<Json>)
    requires items != []
    ensures var n := |items| - 1; Indexed(items) == Indexed(items[..n]) + [Field(NatText(n), items[n])]
  {
  }

  lemma {:induction false} IndexedHas(items: seq<Json>, key: string, sub: Json)
    ensures Field(key, sub) in Indexed(items) <==> exists i :: 0 <= i < |items| && key == NatText(i) && items[i] == sub
  {
    if items != [] {
      hide NatText, Indexed;
      var n := |items| - 1;
      IndexedHas(items[..n], key, sub);
      IndexedOneMore(items);
      assert forall i :: 0 <= i < n ==> items[..n][i] == items[i];
      assert Field(key, sub) in Indexed(items) <==>
             Field(key, sub) in Indexed(items[..n]) || (key == NatText(n) && items[n] == sub);
    }
  }

  lemma IndexOneMore(n: nat, key: string)
    ensures IsIndex(n + 1, key) <==> IsIndex(n, key) || key == NatText(n)
  {
  }

  lemma {:induction false} IndexedOwns(items: seq<Json>, key: string)
    ensures Owns(Obj(Indexed(items)), key) <==> IsIndex(|items|, key)
  {
    if items != [] {
      var n := |items| - 1;
      IndexOneMore(n, key);
      hide NatText, Indexed, Owns, IsIndex;
      IndexedOwns(items[..n], key);
      IndexedOneMore(items);
      OwnsOneMore(Indexed(items[..n]), Field(NatText(n), items[n]), key);
    }
  }

  lemma OwnsOneMore(fields: seq<Field>, f: Field, key: string)
    ensures Owns(Obj(fields + [f]), key) <==> Owns(Obj(fields), key) || f.key == key
  {
    var all := fields + [f];
    assert all[|fields|] == f;
    assert forall i :: 0 <= i < |fields| ==> all[i] == fields[i];
    if Owns(Obj(fields), key) {
      var i :| 0 <= i < |fields| && fields[i].key == key;
      assert all[i].key == key;
    }
  }

  lemma PropertySchemaIff(schema: Json, key: string, sub: Json)
    ensures PropertySchema(schema, key, sub) <==> Field(key, sub) in PropertyEntries(schema)
  {
    hide Own, NatText, Indexed;
    var k := Keyword(schema, "properties");
    forall value
      ensures Own(schema, "properties", value) <==> k == Some(value)
    {
      KeywordIff(schema, "properties", value);
    }
    if k.Some? {
      assert Own(schema, "properties", k.value);
      if k.value.Arr? {
        IndexedHas(k.value.items, key, sub);
      }
    }
  }

  lemma DeclaredIndex(items: seq<Json>, key: string)
    ensures Lookup(Indexed(items), key).Some? <==> IsIndex(|items|, key)
  {
    hide *;
    IndexedOwns(items, key);
    LookupMeans(Indexed(items), key);
  }

  lemma DeclaresIff(schema: Json, key: string)
    ensures DeclaresProperty(schema, key) <==> PropertiesHave(schema, key)
  {
    hide Own, Owns, NatText, Indexed, Wide, Lookup, JsLength;
    var k := Keyword(schema, "properties");
    forall value
      ensures Own(schema, "properties", value) <==> k == Some(value)
    {
      KeywordIff(schema, "properties", value);
    }
    if k.Some? {
      var p := k.value;
      assert Own(schema, "properties", p);
      if p.Obj? { LookupMeans(p.fields, key); }
      if p.Arr? { DeclaredIndex(p.items, key); }
      if p.Str? { LengthIs(p.s); }
    }
  }

  // ---- what each part of the validator reports ----

  lemma {:induction false} RequiredReports(keys: seq<string>, fields: seq<Field>, path: string, e: Error)
    ensures e in RequiredErrors(keys, fields, path) <==>
            exists i :: 0 <= i < |keys| && Lookup(fields, keys[i]).None?
                        && e == Error(path + "." + keys[i], RequiredMissing)
  {
    if keys != [] {
      var front := keys[..|keys| - 1];
      RequiredReports(front, fields, path, e);
      assert forall i :: 0 <= i < |front| ==> front[i] == keys[i];
    }
  }

  lemma {:induction false} AdditionalReports(fields: seq<Field>, schema: Json, path: string, e: Error)
    ensures e in AdditionalErrors(fields, schema, path) <==>
            exists i :: 0 <= i < |fields| && !PropertiesHave(schema, fields[i].key)
                        && e == Error(path + "." + fields[i].key, NotAllowed)
  {
    if fields != [] {
      hide PropertiesHave;
      var front := fields[..|fields| - 1];
      AdditionalReports(front, schema, path, e);
      assert forall i :: 0 <= i < |front| ==> front[i] == fields[i];
    }
  }

  lemma OneMoreProperty(js: Coercions, fields: seq<Field>, entries: seq<Field>, path: string, e: Error)
    requires entries != []
    ensures var n := |entries| - 1;
            e in PropertyErrors(js, fields, entries, path) <==>
            e in PropertyErrors(js, fields, entries[..n], path) || PropertyReport(js, fields, entries[n], path, e)
  {
    hide ValidateValue;
  }

  lemma {:induction false} PropertyReports(
      js: Coercions, fields: seq<Field>, entries: seq<Field>, path: string, e: Error)
    ensures e in PropertyErrors(js, fields, entries, path) <==>
            exists i :: 0 <= i < |entries| && PropertyReport(js, fields, entries[i], path, e)
  {
    if entries == [] {
      assert PropertyErrors(js, fields, [], path) == [];
    } else {
      hide PropertyErrors, PropertyReport;
      var n := |entries| - 1;
      PropertyReports(js, fields, entries[..n], path, e);
      OneMoreProperty(js, fields, entries, path, e);
      assert forall i :: 0 <= i < n ==> entries[..n][i] == entries[i];
    }
  }

  ghost predicate PropertyReport(js: Coercions, fields: seq<Field>, entry: Field, path: string, e: Error) {
    Lookup(fields, entry.key).Some?
    && e in ValidateValue(js, Lookup(fields, entry.key).value, entry.value, path + "." + entry.key)
  }

  lemma OneMoreItem(js: Coercions, items: seq<Json>, schema: Json, path: string, e: Error)
    requires items != []
    ensures var n := |items| - 1;
            e in ItemErrors(js, items, schema, path) <==>
            e in ItemErrors(js, items[..n], schema, path) || ItemReport(js, items, n, schema, path, e)
  {
    hide ValidateValue, NatText;
  }

  lemma ItemAmongOneMore(js: Coercions, items: seq<Json>, schema: Json, path: string, e: Error)
    requires items != []
    ensures var n := |items| - 1;
            (exists i :: 0 <= i < |items| && ItemReport(js, items, i, schema, path, e)) <==>
            (exists i :: 0 <= i < n && ItemReport(js, items[..n], i, schema, path, e))
            || ItemReport(js, items, n, schema, path, e)
  {
    var n := |items| - 1;
    hide ValidateValue, NatText;
    forall i | 0 <= i < n
      ensures ItemReport(js, items[..n], i, schema, path, e) == ItemReport(js, items, i, schema, path, e)
    {
      assert items[..n][i] == items[i];
    }
    hide ItemReport;
  }

  lemma {:induction false} ItemReports(js: Coercions, items: seq<Json>, schema: Json, path: string, e: Error)
    ensures e in ItemErrors(js, items, schema, path) <==>
            exists i :: 0 <= i < |items| && ItemReport(js, items, i, schema, path, e)
  {
    if items == [] {
      assert ItemErrors(js, [], schema, path) == [];
    } else {
      hide *;
      ItemReports(js, items[..|items| - 1], schema, path, e);
      OneMoreItem(js, items, schema, path, e);
      ItemAmongOneMore(js, items, schema, path, e);
    }
  }

  ghost predicate ItemReport(js: Coercions, items: seq<Json>, i: nat, schema: Json, path: string, e: Error)
    requires i < |items|
  {
    e in ValidateValue(js, items[i], schema, path + "[" + NatText(i) + "]")
  }

  /** Of the value itself. */
  lemma HereReports(js: Coercions, v: Json, schema: Json, path: string, e: Error)
    ensures e in EnumErrors(v, schema, path) + LengthErrors(js, v, schema, path) + RangeErrors(js, v, schema, path) <==>
            e.path == path && ViolatedHere(js, v, schema, e.kind)
  {
    EnumReports(v, schema, path, e);
    LengthReports(js, v, schema, path, e);
    RangeReports(js, v, schema, path, e);
    hide EnumErrors, LengthErrors, RangeErrors, BoundIs, Own;
  }

  lemma EnumReports(v: Json, schema: Json, path: string, e: Error)
    ensures e in EnumErrors(v, schema, path) <==>
            e == Error(path, NotInEnum) && exists list :: Own(schema, "enum", list) && list.Arr? && v !in list.items
  {
    hide Own;
    var k := Keyword(schema, "enum");
    forall value
      ensures Own(schema, "enum", value) <==> k == Some(value)
    {
      KeywordIff(schema, "enum", value);
    }
    if k.Some? {
      assert Own(schema, "enum", k.value);
    }
  }

  lemma LengthReports(js: Coercions, v: Json, schema: Json, path: string, e: Error)
    ensures e in LengthErrors(js, v, schema, path) <==>
            v.Str? && e.path == path
            && ((e.kind == TooShort
                 && exists x :: BoundIs(js, schema, "minLength", x) && (|v.s| + |Wide(v.s)|) as real < x)
                || (e.kind == TooLong
                    && exists x :: BoundIs(js, schema, "maxLength", x) && (|v.s| + |Wide(v.s)|) as real > x))
  {
    hide BoundIs, Bound, Wide, JsLength;
    if v.Str? {
      LengthIs(v.s);
      forall x
        ensures BoundIs(js, schema, "minLength", x) <==> Bound(js, schema, "minLength") == Some(x)
        ensures BoundIs(js, schema, "maxLength", x) <==> Bound(js, schema, "maxLength") == Some(x)
      {
        BoundIff(js, schema, "minLength", x);
        BoundIff(js, schema, "maxLength", x);
      }
    }
  }

  lemma RangeReports(js: Coercions, v: Json, schema: Json, path: string, e: Error)
    ensures e in RangeErrors(js, v, schema, path) <==>
            v.Num? && e.path == path
            && ((e.kind == BelowMinimum && exists x :: BoundIs(js, schema, "minimum", x) && v.n < x)
                || (e.kind == AboveMaximum && exists x :: BoundIs(js, schema, "maximum", x) && v.n > x))
  {
    hide BoundIs, Bound;
    forall x
      ensures BoundIs(js, schema, "minimum", x) <==> Bound(js, schema, "minimum") == Some(x)
      ensures BoundIs(js, schema, "maximum", x) <==> Bound(js, schema, "maximum") == Some(x)
    {
      BoundIff(js, schema, "minimum", x);
      BoundIff(js, schema, "maximum", x);
    }
  }

  /** What an object's fields are reported for. */
  lemma ObjectReports(js: Coercions, v: Json, schema: Json, path: string, e: Error)
    requires IsSchema(schema) && v.Obj?
    ensures e in ObjectErrors(js, v, schema, path) <==>
            || (exists key :: ViolatedByField(js, v, schema, key, e.kind) && e.path == path + "." + key)
            || (exists key, child, sub :: Own(v, key, child) && PropertySchema(schema, key, sub)
                                          && e in ValidateValue(js, child, sub, path + "." + key))
  {
    var keys, entries := RequiredKeys(js, schema), PropertyEntries(schema);
    RequiredFields(js, v, schema, path, e);
    AdditionalFields(js, v, schema, path, e);
    PropertyFields(js, v, schema, path, e);
    hide ValidateValue, RequiredErrors, PropertyErrors, AdditionalErrors, Own, Owns, PropertySchema, Requires,
         DeclaresProperty, RequiredKeys, PropertyEntries;
    KeywordIff(schema, "additionalProperties", Bool(false));
  }

  lemma RequiredFields(js: Coercions, v: Json, schema: Json, path: string, e: Error)
    requires v.Obj?
    ensures e in RequiredErrors(RequiredKeys(js, schema), v.fields, path) <==>
            e.kind == RequiredMissing
            && exists key :: ViolatedByField(js, v, schema, key, e.kind) && e.path == path + "." + key
  {
    hide Requires, Owns, RequiredErrors, RequiredKeys;
    var keys := RequiredKeys(js, schema);
    RequiredReports(keys, v.fields, path, e);
    forall key
      ensures Requires(js, schema, key) <==> key in keys
      ensures Owns(v, key) <==> Lookup(v.fields, key).Some?
    {
      RequiresIff(js, schema, key);
      LookupMeans(v.fields, key);
    }
  }

  lemma AdditionalFields(js: Coercions, v: Json, schema: Json, path: string, e: Error)
    requires v.Obj?
    ensures Own(schema, "additionalProperties", Bool(false)) && e in AdditionalErrors(v.fields, schema, path) <==>
            e.kind == NotAllowed
            && exists key :: ViolatedByField(js, v, schema, key, e.kind) && e.path == path + "." + key
  {
    hide Own, DeclaresProperty, PropertiesHave, AdditionalErrors;
    AdditionalReports(v.fields, schema, path, e);
    forall key
      ensures DeclaresProperty(schema, key) <==> PropertiesHave(schema, key)
    {
      DeclaresIff(schema, key);
    }
    if e.kind == NotAllowed {
      forall i | 0 <= i < |v.fields|
        ensures Owns(v, v.fields[i].key)
      {
      }
    }
  }

  lemma PropertyFields(js: Coercions, v: Json, schema: Json, path: string, e: Error)
    requires v.Obj?
    ensures e in PropertyErrors(js, v.fields, PropertyEntries(schema), path) <==>
            exists key, child, sub :: Own(v, key, child) && PropertySchema(schema, key, sub)
                                      && e in ValidateValue(js, child, sub, path + "." + key)
  {
    hide Own, PropertySchema, ValidateValue, PropertyErrors, PropertyEntries;
    var entries := PropertyEntries(schema);
    PropertyReports(js, v.fields, entries, path, e);
    forall key, child
      ensures Own(v, key, child) <==> Lookup(v.fields, key) == Some(child)
    {
      LookupIff(v.fields, key, child);
    }
    forall key, sub
      ensures PropertySchema(schema, key, sub) <==> Field(key, sub) in entries
    {
      PropertySchemaIff(schema, key, sub);
    }
    if exists i :: 0 <= i < |entries| && PropertyReport(js, v.fields, entries[i], path, e) {
      var i :| 0 <= i < |entries| && PropertyReport(js, v.fields, entries[i], path, e);
      var Field(key, sub) := entries[i];
      assert Own(v, key, Lookup(v.fields, key).value) && PropertySchema(schema, key, sub);
    }
    if key, child, sub :| Own(v, key, child) && PropertySchema(schema, key, sub)
                          && e in ValidateValue(js, child, sub, path + "." + key) {
      var i :| 0 <= i < |entries| && entries[i] == Field(key, sub);
      assert PropertyReport(js, v.fields, entries[i], path, e);
    }
  }

  lemma ArrayReports(js: Coercions, v: Json, schema: Json, path: string, e: Error)
    requires IsSchema(schema) && v.Arr?
    ensures e in ArrayErrors(js, v, schema, path) <==>
            exists i, sub :: 0 <= i < |v.items| && Own(schema, "items", sub) && Counts(sub)
                             && e in ValidateValue(js, v.items[i], sub, path + "[" + NatText(i) + "]")
  {
    hide Own, ValidateValue, NatText, ItemErrors;
    var k := Keyword(schema, "items");
    forall value
      ensures Own(schema, "items", value) <==> k == Some(value)
    {
      KeywordIff(schema, "items", value);
    }
    if k.Some? && Counts(k.value) {
      ItemReports(js, v.items, k.value, path, e);
      if e in ItemErrors(js, v.items, k.value, path) {
        var i :| 0 <= i < |v.items| && ItemReport(js, v.items, i, k.value, path, e);
        assert Own(schema, "items", k.value);
      }
      if i, sub :| 0 <= i < |v.items| && Own(schema, "items", sub) && Counts(sub)
                   && e in ValidateValue(js, v.items[i], sub, path + "[" + NatText(i) + "]") {
        assert ItemReport(js, v.items, i, k.value, path, e);
      }
    }
  }

  /** What is reported of a value, one level deep. */
  lemma ValueReports(js: Coercions, v: Json, schema: Json, path: string, e: Error)
    ensures e in ValidateValue(js, v, schema, path) <==>
            if !TypeOk(v, schema) then e == Error(path, TypeMismatch)
            else
              || (e.path == path && ViolatedHere(js, v, schema, e.kind))
              || (IsSchema(schema) && v.Obj? && e in ObjectErrors(js, v, schema, path))
              || (IsSchema(schema) && v.Arr? && e in ArrayErrors(js, v, schema, path))
  {
    TypeIff(v, schema);
    HereReports(js, v, schema, path, e);
    hide TypeOk, OfDeclaredType, EnumErrors, LengthErrors, RangeErrors, ItemErrors, PropertyErrors, RequiredErrors,
         AdditionalErrors, ViolatedHere;
    if !IsSchema(schema) {
      NoSchema(js, v, schema, path, e);
    }
  }

  /** What is no object declares nothing. */
  lemma NoSchema(js: Coercions, v: Json, schema: Json, path: string, e: Error)
    requires !IsSchema(schema)
    ensures TypeOk(v, schema) && !ViolatedHere(js, v, schema, e.kind)
  {
  }

  // ---- the exact report ----

  lemma HereIsReported(js: Coercions, v: Json, schema: Json, path: string, kind: Kind)
    requires Violates(js, v, schema, [], kind)
    ensures Error(path, kind) in ValidateValue(js, v, schema, path)
  {
    ValueReports(js, v, schema, path, Error(path, kind));
    hide ValidateValue, TypeOk, ViolatedHere;
  }

  lemma FieldIsReported(js: Coercions, v: Json, schema: Json, pre: seq<Seg>, key: string, kind: Kind)
    requires IsSchema(schema) && v.Obj? && TypeOk(v, schema) && ViolatedByField(js, v, schema, key, kind)
    ensures Error(Print(pre + [Key(key)]), kind) in ValidateValue(js, v, schema, Print(pre))
  {
    hide *;
    var e := Error(Print(pre + [Key(key)]), kind);
    ChildPaths(pre, key, 0);
    ValueReports(js, v, schema, Print(pre), e);
    ObjectReports(js, v, schema, Print(pre), e);
  }

  lemma ChildIsReported(
      js: Coercions, v: Json, schema: Json, pre: seq<Seg>, key: string, child: Json, sub: Json, e: Error)
    requires IsSchema(schema) && v.Obj? && TypeOk(v, schema) && Own(v, key, child) && PropertySchema(schema, key, sub)
    requires e in ValidateValue(js, child, sub, Print(pre + [Key(key)]))
    ensures e in ValidateValue(js, v, schema, Print(pre))
  {
    hide *;
    ChildPaths(pre, key, 0);
    ValueReports(js, v, schema, Print(pre), e);
    ObjectReports(js, v, schema, Print(pre), e);
  }

  lemma ElementIsReported(js: Coercions, v: Json, schema: Json, pre: seq<Seg>, i: nat, sub: Json, e: Error)
    requires IsSchema(schema) && v.Arr? && i < |v.items| && TypeOk(v, schema)
    requires Own(schema, "items", sub) && Counts(sub)
    requires e in ValidateValue(js, v.items[i], sub, Print(pre + [Index(i)]))
    ensures e in ValidateValue(js, v, schema, Print(pre))
  {
    hide *;
    ChildPaths(pre, "", i);
    ValueReports(js, v, schema, Print(pre), e);
    ArrayReports(js, v, schema, Print(pre), e);
  }

  /** Every violation below a path is reported there. */
  lemma {:induction false} ViolationIsReported(
      js: Coercions, v: Json, schema: Json, pre: seq<Seg>, segs: seq<Seg>, kind: Kind)
    requires Violates(js, v, schema, segs, kind)
    ensures Error(Print(pre + segs), kind) in ValidateValue(js, v, schema, Print(pre))
    decreases |segs|
  {
    hide *;
    if segs == [] {
      HereIsReported(js, v, schema, Print(pre), kind);
      assert pre + segs == pre;
      return;
    }
    var first, rest := segs[0], segs[1..];
    var e := Error(Print(pre + segs), kind);
    assert pre + [first] + rest == pre + segs;
    match first
    case Key(key) =>
      var child, sub := ViolationAtKey(js, v, schema, key, segs, kind);
      if segs == [first] && ViolatedByField(js, v, schema, key, kind) {
        FieldIsReported(js, v, schema, pre, key, kind);
      } else {
        ViolationIsReported(js, child, sub, pre + [first], rest, kind);
        ChildIsReported(js, v, schema, pre, key, child, sub, e);
      }
    case Index(i) =>
      var sub := ViolationAtIndex(js, v, schema, i, segs, kind);
      ViolationIsReported(js, v.items[i], sub, pre + [first], rest, kind);
      ElementIsReported(js, v, schema, pre, i, sub, e);
  }

  /** A violation at a field is one of the object by the field, or one of the field. */
  lemma ViolationAtKey(js: Coercions, v: Json, schema: Json, key: string, segs: seq<Seg>, kind: Kind)
    returns (child: Json, sub: Json)
    requires segs != [] && segs[0] == Key(key) && Violates(js, v, schema, segs, kind)
    ensures IsSchema(schema) && v.Obj? && TypeOk(v, schema)
    ensures (segs == [Key(key)] && ViolatedByField(js, v, schema, key, kind))
            || (Own(v, key, child) && PropertySchema(schema, key, sub) && Violates(js, child, sub, segs[1..], kind))
  {
    child, sub := v, schema;
    if !(segs == [Key(key)] && ViolatedByField(js, v, schema, key, kind)) {
      child, sub :| Own(v, key, child) && PropertySchema(schema, key, sub) && Violates(js, child, sub, segs[1..], kind);
    }
    hide Violates;
  }

  lemma ViolationAtIndex(js: Coercions, v: Json, schema: Json, i: nat, segs: seq<Seg>, kind: Kind) returns (sub: Json)
    requires segs != [] && segs[0] == Index(i) && Violates(js, v, schema, segs, kind)
    ensures IsSchema(schema) && v.Arr? && i < |v.items| && TypeOk(v, schema) && Own(schema, "items", sub) && Counts(sub)
    ensures Violates(js, v.items[i], sub, segs[1..], kind)
  {
    sub :| Own(schema, "items", sub) && Counts(sub) && Violates(js, v.items[i], sub, segs[1..], kind);
    hide Violates;
  }

  lemma ViolationBelow(
      js: Coercions, v: Json, schema: Json, key: string, child: Json, sub: Json, rest: seq<Seg>, kind: Kind)
    requires TypeOk(v, schema) && Own(v, key, child) && PropertySchema(schema, key, sub)
    requires Violates(js, child, sub, rest, kind)
    ensures Violates(js, v, schema, [Key(key)] + rest, kind)
  {
    hide TypeOk, Own, PropertySchema;
    assert ([Key(key)] + rest)[1..] == rest;
  }

  lemma ViolationInElement(
      js: Coercions, v: Json, schema: Json, i: nat, sub: Json, rest: seq<Seg>, kind: Kind)
    requires TypeOk(v, schema) && v.Arr? && i < |v.items| && Own(schema, "items", sub) && Counts(sub)
    requires Violates(js, v.items[i], sub, rest, kind)
    ensures Violates(js, v, schema, [Index(i)] + rest, kind)
  {
    hide TypeOk, Own;
    assert ([Index(i)] + rest)[1..] == rest;
  }

  lemma ViolationOfField(js: Coercions, v: Json, schema: Json, key: string, kind: Kind)
    requires TypeOk(v, schema) && ViolatedByField(js, v, schema, key, kind)
    ensures Violates(js, v, schema, [Key(key)], kind)
  {
    hide TypeOk, ViolatedByField;
  }

  /** Whatever is reported below a path is a violation there. */
  lemma {:induction false} ReportIsViolation(js: Coercions, v: Json, schema: Json, pre: seq<Seg>, e: Error)
    returns (segs: seq<Seg>)
    requires e in ValidateValue(js, v, schema, Print(pre))
    ensures e.path == Print(pre + segs) && Violates(js, v, schema, segs, e.kind)
    decreases Size(schema)
  {
    var path := Print(pre);
    ValueReports(js, v, schema, path, e);
    hide ValidateValue, ObjectErrors, ArrayErrors, Own, PropertySchema, ViolatedByField, TypeOk, ViolatedHere, NatText,
         Print, Violates;
    if !TypeOk(v, schema) || (e.path == path && ViolatedHere(js, v, schema, e.kind)) {
      segs := [];
      assert pre + segs == pre;
      HereIsViolated(js, v, schema, e.kind);
    } else if v.Obj? {
      segs := ObjectReportIsViolation(js, v, schema, pre, e);
    } else {
      ArrayReports(js, v, schema, path, e);
      var i, sub :| 0 <= i < |v.items| && Own(schema, "items", sub) && Counts(sub)
                    && e in ValidateValue(js, v.items[i], sub, path + "[" + NatText(i) + "]");
      ChildPaths(pre, "", i);
      KeywordIff(schema, "items", sub);
      var rest := ReportIsViolation(js, v.items[i], sub, pre + [Index(i)], e);
      segs := [Index(i)] + rest;
      assert pre + [Index(i)] + rest == pre + segs;
      ViolationInElement(js, v, schema, i, sub, rest, e.kind);
    }
  }

  lemma HereIsViolated(js: Coercions, v: Json, schema: Json, kind: Kind)
    requires if !TypeOk(v, schema) then kind == TypeMismatch else ViolatedHere(js, v, schema, kind)
    ensures Violates(js, v, schema, [], kind)
  {
  }

  lemma {:induction false} ObjectReportIsViolation(js: Coercions, v: Json, schema: Json, pre: seq<Seg>, e: Error)
    returns (segs: seq<Seg>)
    requires IsSchema(schema) && v.Obj? && TypeOk(v, schema) && e in ObjectErrors(js, v, schema, Print(pre))
    ensures e.path == Print(pre + segs) && Violates(js, v, schema, segs, e.kind)
    decreases Size(schema), 1
  {
    var path := Print(pre);
    ObjectReports(js, v, schema, path, e);
    hide ValidateValue, ObjectErrors, Own, PropertySchema, ViolatedByField, TypeOk, Print, Violates, IsSchema, Size;
    if exists key :: ViolatedByField(js, v, schema, key, e.kind) && e.path == path + "." + key {
      var key :| ViolatedByField(js, v, schema, key, e.kind) && e.path == path + "." + key;
      segs := [Key(key)];
      ChildPaths(pre, key, 0);
      ViolationOfField(js, v, schema, key, e.kind);
    } else {
      var key, child, sub :| Own(v, key, child) && PropertySchema(schema, key, sub)
                             && e in ValidateValue(js, child, sub, path + "." + key);
      segs := PropertyReportIsViolation(js, v, schema, pre, key, child, sub, e);
    }
  }

  lemma {:induction false} PropertyReportIsViolation(
      js: Coercions, v: Json, schema: Json, pre: seq<Seg>, key: string, child: Json, sub: Json, e: Error)
    returns (segs: seq<Seg>)
    requires TypeOk(v, schema) && Own(v, key, child) && PropertySchema(schema, key, sub)
    requires e in ValidateValue(js, child, sub, Print(pre) + "." + key)
    ensures e.path == Print(pre + segs) && Violates(js, v, schema, segs, e.kind)
    decreases Size(schema), 0
  {
    hide *;
    PropertySchemaIsSmaller(schema, key, sub);
    ChildPaths(pre, key, 0);
    var rest := ReportIsViolation(js, child, sub, pre + [Key(key)], e);
    segs := [Key(key)] + rest;
    assert pre + [Key(key)] + rest == pre + segs;
    ViolationBelow(js, v, schema, key, child, sub, rest, e.kind);
  }

  lemma PropertySchemaIsSmaller(schema: Json, key: string, sub: Json)
    requires PropertySchema(schema, key, sub)
    ensures Size(sub) < Size(schema)
  {
    PropertySchemaIff(schema, key, sub);
    var entries := PropertyEntries(schema);
    var i :| 0 <= i < |entries| && entries[i] == Field(key, sub);
    FieldSmaller(entries, i);
  }

  /**
   * The validator reports an error if and only if its path is that of parts at whose end the value violates the schema
   * in the way that the error says.
   */
  lemma ErrorsAreTheViolations(js: Coercions, v: Json, schema: Json, e: Error)
    ensures e in ValidateValue(js, v, schema, "$") <==>
            exists segs :: e.path == Print(segs) && Violates(js, v, schema, segs, e.kind)
  {
    assert Print([]) == "$";
    if e in ValidateValue(js, v, schema, "$") {
      var segs := ReportIsViolation(js, v, schema, [], e);
      assert [] + segs == segs;
    }
    if segs :| e.path == Print(segs) && Violates(js, v, schema, segs, e.kind) {
      ViolationIsReported(js, v, schema, [], segs, e.kind);
      assert [] + segs == segs;
    }
  }

  /** Where all keys fit the path grammar, an error at parts that fit is reported exactly for a violation there. */
  lemma ErrorsByParts(js: Coercions, v: Json, schema: Json, segs: seq<Seg>, kind: Kind)
    requires AllFit(segs)
    requires forall other, k | Violates(js, v, schema, other, k) :: AllFit(other)
    ensures Error(Print(segs), kind) in ValidateValue(js, v, schema, "$") <==> Violates(js, v, schema, segs, kind)
  {
    hide Violates, AllFit, Print, Parts;
    var e := Error(Print(segs), kind);
    ErrorsAreTheViolations(js, v, schema, e);
    if other :| e.path == Print(other) && Violates(js, v, schema, other, kind) {
      PartsInvertPrintIff(other);
      PartsInvertPrintIff(segs);
    }
  }
}
