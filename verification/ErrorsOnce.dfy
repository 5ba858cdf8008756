/** That the validator reports no violation twice. */
module ErrorsOnce {
  import opened Common
  import opened Json
  import opened Text
  import opened SchemaValidator
  import opened JsonPath
  import opened SchemaViolations

  ghost predicate Distinct<T>(s: seq<T>) {
    forall i, j :: 0 <= i < j < |s| ==> s[i] != s[j]
  }

  lemma DistinctConcat<T>(a: seq<T>, b: seq<T>)
    requires Distinct(a) && Distinct(b) && forall x | x in a :: x !in b
    ensures Distinct(a + b)
  {
    forall i, j | 0 <= i < j < |a + b|
      ensures (a + b)[i] != (a + b)[j]
    {
      if i < |a| {
        assert a[i] in a;
        if j >= |a| { assert b[j - |a|] in b; }
      }
    }
  }

  // ---- keys and paths ----

  /** In a path such a key ends where the next part begins. */
  predicate Undivided(key: string) {
    '.' !in key && '[' !in key
  }

  function KeysOf(fields: seq<Field>): (keys: seq<string>)
    ensures |keys| == |fields| && forall i :: 0 <= i < |keys| ==> keys[i] == fields[i].key
  {
    seq(|fields|, i requires 0 <= i < |fields| => fields[i].key)
  }

  /** At every depth an object has each of its keys once, and the keys are undivided. */
  ghost predicate TidyValue(v: Json) {
    match v
    case Arr(items) => forall x | x in items :: TidyValue(x)
    case Obj(fields) =>
      Distinct(KeysOf(fields)) && forall f | f in fields :: Undivided(f.key) && TidyValue(f.value)
    case _ => true
  }

  /** At every depth a schema requires no key twice, requires undivided keys only, and has one property for each key. */
  ghost predicate TidySchema(js: Coercions, schema: Json)
    decreases Size(schema), 1
  {
    var entries, items := PropertyEntries(schema), Keyword(schema, "items");
    && Distinct(RequiredKeys(js, schema)) && (forall key | key in RequiredKeys(js, schema) :: Undivided(key))
    && Distinct(KeysOf(entries)) && TidyEntries(js, entries)
    && (items.Some? ==> TidySchema(js, items.value))
  }

  ghost predicate TidyEntries(js: Coercions, entries: seq<Field>)
    decreases FieldsSize(entries), 0
  {
    forall i | 0 <= i < |entries| :: TidySchema(js, FieldAt(entries, i).value)
  }

  /** The path is this one or leads on from it. */
  predicate Below(path: string, p: string) {
    path <= p && (|p| == |path| || p[|path|] == '.' || p[|path|] == '[')
  }

  lemma BelowChild(path: string, part: string, p: string)
    requires part != "" && (part[0] == '.' || part[0] == '[') && Below(path + part, p)
    ensures Below(path, p) && |p| > |path| && p[|path|] == part[0]
  {
    assert (path + part)[|path|] == part[0];
    assert p[..|path|] == (path + part)[..|path|] == path;
  }

  lemma KeyInPath(path: string, a: string, b: string, p: string)
    requires Undivided(a) && Undivided(b) && Below(path + "." + a, p) && Below(path + "." + b, p)
    ensures a == b
  {
    var n := |path| + 1;
    if |a| < |b| {
      CharAfterKey(path, a, b, p);
    } else if |b| < |a| {
      CharAfterKey(path, b, a, p);
    } else {
      assert p[..n + |a|] == path + "." + a == path + "." + b;
      assert (path + "." + a)[n..] == a && (path + "." + b)[n..] == b;
    }
  }

  lemma CharAfterKey(path: string, a: string, b: string, p: string)
    requires |a| < |b| && Below(path + "." + a, p) && path + "." + b <= p
    ensures b[|a|] == '.' || b[|a|] == '['
  {
    assert (path + "." + b)[|path| + 1 + |a|] == b[|a|];
  }

  lemma IndexInPath(path: string, i: nat, j: nat, p: string)
    requires path + "[" + NatText(i) + "]" <= p && path + "[" + NatText(j) + "]" <= p
    ensures i == j
  {
    var a, b, n := NatText(i), NatText(j), |path| + 1;
    NatTextRoundTrip(i);
    NatTextRoundTrip(j);
    hide NatText, NatValue;
    if |a| < |b| {
      CharAfterIndex(path, a, b, p);
    } else if |b| < |a| {
      CharAfterIndex(path, b, a, p);
    } else {
      var pa, pb := path + "[" + a + "]", path + "[" + b + "]";
      assert pa == p[..|pa|] == p[..|pb|] == pb;
      assert pa[n..n + |a|] == a && pb[n..n + |b|] == b;
    }
  }

  lemma CharAfterIndex(path: string, a: string, b: string, p: string)
    requires |a| < |b| && path + "[" + a + "]" <= p && path + "[" + b + "]" <= p
    ensures b[|a|] == ']'
  {
    assert (path + "[" + a + "]")[|path| + 1 + |a|] == ']';
    assert (path + "[" + b + "]")[|path| + 1 + |a|] == b[|a|];
  }

  /** Whatever is reported under a path lies below it. */
  lemma {:induction false} ReportedBelow(js: Coercions, v: Json, schema: Json, path: string, e: Error)
    requires e in ValidateValue(js, v, schema, path)
    ensures Below(path, e.path)
    decreases Size(schema)
  {
    ValueReports(js, v, schema, path, e);
    hide ValidateValue, ObjectErrors, ArrayErrors, TypeOk, ViolatedHere, IsSchema, ViolatedByField, NatText;
    if !TypeOk(v, schema) || e.path == path {
      return;
    }
    if v.Obj? {
      ObjectReports(js, v, schema, path, e);
      if key :| ViolatedByField(js, v, schema, key, e.kind) && e.path == path + "." + key {
        Assoc(path, ".", key);
        BelowChild(path, "." + key, e.path);
      } else {
        var key, child, sub :| Own(v, key, child) && PropertySchema(schema, key, sub)
                               && e in ValidateValue(js, child, sub, path + "." + key);
        PropertySchemaIsSmaller(schema, key, sub);
        ReportedBelow(js, child, sub, path + "." + key, e);
        Assoc(path, ".", key);
        BelowChild(path, "." + key, e.path);
      }
    } else {
      ArrayReports(js, v, schema, path, e);
      var i, sub :| 0 <= i < |v.items| && Own(schema, "items", sub) && Counts(sub)
                    && e in ValidateValue(js, v.items[i], sub, path + "[" + NatText(i) + "]");
      KeywordIff(schema, "items", sub);
      ReportedBelow(js, v.items[i], sub, path + "[" + NatText(i) + "]", e);
      IndexBelow(path, NatText(i), e.path);
    }
  }

  lemma IndexBelow(path: string, digits: string, p: string)
    requires Below(path + "[" + digits + "]", p)
    ensures Below(path, p) && |p| > |path| && p[|path|] == '['
  {
    assert path + "[" + digits + "]" == path + ("[" + digits + "]");
    BelowChild(path, "[" + digits + "]", p);
  }

  // ---- each part reports nothing twice ----

  lemma {:induction false} RequiredOnce(keys: seq<string>, fields: seq<Field>, path: string)
    requires Distinct(keys)
    ensures Distinct(RequiredErrors(keys, fields, path))
  {
    if keys != [] {
      var n := |keys| - 1;
      var front, last := keys[..n], When(Lookup(fields, keys[n]).None?, path + "." + keys[n], RequiredMissing);
      assert forall i :: 0 <= i < n ==> front[i] == keys[i];
      RequiredOnce(front, fields, path);
      forall e | e in RequiredErrors(front, fields, path)
        ensures e !in last
      {
        RequiredReports(front, fields, path, e);
        var i :| 0 <= i < |front| && e == Error(path + "." + front[i], RequiredMissing);
        OtherKey(path, front[i], keys[n]);
      }
      DistinctConcat(RequiredErrors(front, fields, path), last);
    }
  }

  lemma OtherKey(path: string, a: string, b: string)
    requires a != b
    ensures path + "." + a != path + "." + b
  {
    assert (path + "." + a)[|path| + 1..] == a && (path + "." + b)[|path| + 1..] == b;
  }

  lemma {:induction false} AdditionalOnce(fields: seq<Field>, schema: Json, path: string)
    requires Distinct(KeysOf(fields))
    ensures Distinct(AdditionalErrors(fields, schema, path))
  {
    if fields != [] {
      hide PropertiesHave;
      var n := |fields| - 1;
      var front, key := fields[..n], fields[n].key;
      var last := When(!PropertiesHave(schema, key), path + "." + key, NotAllowed);
      assert KeysOf(front) == KeysOf(fields)[..n];
      AdditionalOnce(front, schema, path);
      forall e | e in AdditionalErrors(front, schema, path)
        ensures e !in last
      {
        AdditionalReports(front, schema, path, e);
        var i :| 0 <= i < |front| && e == Error(path + "." + front[i].key, NotAllowed);
        assert KeysOf(fields)[i] != KeysOf(fields)[n];
        OtherKey(path, front[i].key, key);
      }
      DistinctConcat(AdditionalErrors(front, schema, path), last);
    }
  }

  /** A key of the value, and what is reported below it. */
  lemma PropertyBelow(js: Coercions, fields: seq<Field>, entry: Field, path: string, e: Error)
    requires TidyValue(Obj(fields)) && PropertyReport(js, fields, entry, path, e)
    ensures Undivided(entry.key) && Lookup(fields, entry.key).Some? && TidyValue(Lookup(fields, entry.key).value)
    ensures Below(path + "." + entry.key, e.path)
  {
    FieldIsTidy(fields, entry.key);
    ReportedBelow(js, Lookup(fields, entry.key).value, entry.value, path + "." + entry.key, e);
  }

  lemma FieldIsTidy(fields: seq<Field>, key: string)
    requires TidyValue(Obj(fields)) && Lookup(fields, key).Some?
    ensures Undivided(key) && TidyValue(Lookup(fields, key).value)
  {
    LookupMeans(fields, key);
    var i :| 0 <= i < |fields| && IsLastField(fields, i, key, Lookup(fields, key).value);
    assert fields[i] in fields;
  }

  lemma {:induction false} PropertiesOnce(js: Coercions, fields: seq<Field>, entries: seq<Field>, path: string)
    requires TidyValue(Obj(fields)) && Distinct(KeysOf(entries)) && TidyEntries(js, entries)
    ensures Distinct(PropertyErrors(js, fields, entries, path))
    decreases FieldsSize(entries), 3, |entries|
  {
    if entries != [] {
      var n := |entries| - 1;
      var front, key, sub := entries[..n], entries[n].key, entries[n].value;
      EntriesBefore(js, entries);
      PropertiesOnce(js, fields, front, path);
      var before := PropertyErrors(js, fields, front, path);
      if Lookup(fields, key).Some? {
        var child := Lookup(fields, key).value;
        FieldIsTidy(fields, key);
        LastEntryIsTidy(js, entries);
        ErrorsOnceBelow(js, child, sub, path + "." + key);
        forall e | e in before
          ensures e !in ValidateValue(js, child, sub, path + "." + key)
        {
          TwoProperties(js, fields, entries, path, e);
        }
        DistinctConcat(before, ValidateValue(js, child, sub, path + "." + key));
      } else {
        assert before + [] == before;
      }
    }
  }

  lemma EntriesBefore(js: Coercions, entries: seq<Field>)
    requires entries != [] && Distinct(KeysOf(entries)) && TidyEntries(js, entries)
    ensures var front := entries[..|entries| - 1]; Distinct(KeysOf(front)) && TidyEntries(js, front)
  {
    hide TidySchema;
    var front := entries[..|entries| - 1];
    assert KeysOf(front) == KeysOf(entries)[..|front|];
    forall i | 0 <= i < |front|
      ensures TidySchema(js, FieldAt(front, i).value)
    {
      assert FieldAt(front, i) == FieldAt(entries, i);
    }
  }

  lemma LastEntryIsTidy(js: Coercions, entries: seq<Field>)
    requires entries != [] && TidyEntries(js, entries)
    ensures TidySchema(js, entries[|entries| - 1].value)
  {
    hide TidySchema;
    assert FieldAt(entries, |entries| - 1) == entries[|entries| - 1];
  }

  lemma TwoProperties(js: Coercions, fields: seq<Field>, entries: seq<Field>, path: string, e: Error)
    requires entries != [] && TidyValue(Obj(fields)) && Distinct(KeysOf(entries))
    requires e in PropertyErrors(js, fields, entries[..|entries| - 1], path)
    ensures !PropertyReport(js, fields, entries[|entries| - 1], path, e)
  {
    hide TidyValue, ValidateValue, PropertyErrors, Below, Undivided;
    var n := |entries| - 1;
    PropertyReports(js, fields, entries[..n], path, e);
    var i :| 0 <= i < n && PropertyReport(js, fields, entries[..n][i], path, e);
    assert KeysOf(entries)[i] != KeysOf(entries)[n];
    PropertyBelow(js, fields, entries[i], path, e);
    if PropertyReport(js, fields, entries[n], path, e) {
      PropertyBelow(js, fields, entries[n], path, e);
      KeyInPath(path, entries[i].key, entries[n].key, e.path);
    }
  }

  lemma {:induction false} ItemsOnce(js: Coercions, items: seq<Json>, schema: Json, path: string)
    requires (forall x | x in items :: TidyValue(x)) && TidySchema(js, schema)
    ensures Distinct(ItemErrors(js, items, schema, path))
    decreases Size(schema), 3, |items|
  {
    if items != [] {
      hide NatText, TidyValue, TidySchema;
      var n := |items| - 1;
      var front, at := items[..n], path + "[" + NatText(n) + "]";
      ItemsOnce(js, front, schema, path);
      assert items[n] in items;
      ErrorsOnceBelow(js, items[n], schema, at);
      forall e | e in ItemErrors(js, front, schema, path)
        ensures e !in ValidateValue(js, items[n], schema, at)
      {
        TwoItems(js, items, schema, path, e);
      }
      DistinctConcat(ItemErrors(js, front, schema, path), ValidateValue(js, items[n], schema, at));
    }
  }

  lemma TwoItems(js: Coercions, items: seq<Json>, schema: Json, path: string, e: Error)
    requires items != [] && e in ItemErrors(js, items[..|items| - 1], schema, path)
    ensures !ItemReport(js, items, |items| - 1, schema, path, e)
  {
    hide ValidateValue, ItemErrors, NatText;
    var n := |items| - 1;
    ItemReports(js, items[..n], schema, path, e);
    var i :| 0 <= i < n && ItemReport(js, items[..n], i, schema, path, e);
    ReportedBelow(js, items[..n][i], schema, path + "[" + NatText(i) + "]", e);
    if ItemReport(js, items, n, schema, path, e) {
      ReportedBelow(js, items[n], schema, path + "[" + NatText(n) + "]", e);
      IndexInPath(path, i, n, e.path);
    }
  }

  // ---- the whole report ----

  lemma HereOnce(js: Coercions, v: Json, schema: Json, path: string)
    ensures Distinct(EnumErrors(v, schema, path) + LengthErrors(js, v, schema, path) + RangeErrors(js, v, schema, path))
  {
    hide Keyword, Bound, JsLength, Distinct;
    var enum, length := EnumErrors(v, schema, path), LengthErrors(js, v, schema, path);
    var range := RangeErrors(js, v, schema, path);
    assert Distinct(enum) && Distinct(length) && Distinct(range) by {
      OneOrNone(path, NotInEnum, NotInEnum);
      OneOrNone(path, TooShort, TooLong);
      OneOrNone(path, BelowMinimum, AboveMaximum);
    }
    DistinctConcat(enum, length);
    DistinctConcat(enum + length, range);
  }

  lemma OneOrNone(path: string, a: Kind, b: Kind)
    ensures Distinct<Error>([]) && Distinct([Error(path, a)])
    ensures a != b ==> forall c, d :: Distinct(When(c, path, a) + When(d, path, b))
  {
  }

  lemma ObjectOnce(js: Coercions, v: Json, schema: Json, path: string)
    requires IsSchema(schema) && v.Obj? && TidyValue(v) && TidySchema(js, schema)
    requires Distinct(PropertyErrors(js, v.fields, PropertyEntries(schema), path))
    ensures Distinct(ObjectErrors(js, v, schema, path))
  {
    var keys, entries := RequiredKeys(js, schema), PropertyEntries(schema);
    var required := RequiredErrors(keys, v.fields, path);
    var properties := PropertyErrors(js, v.fields, entries, path);
    var additional := if Keyword(schema, "additionalProperties") == Some(Bool(false))
                      then AdditionalErrors(v.fields, schema, path) else [];
    RequiredOnce(keys, v.fields, path);
    AdditionalOnce(v.fields, schema, path);
    forall e | e in required
      ensures e !in properties && e !in additional
    {
      RequiredIsNoOther(js, v, schema, path, e);
    }
    forall e | e in properties
      ensures e !in additional
    {
      PropertyIsNotAdditional(js, v, schema, path, e);
    }
    DistinctConcat(required, properties);
    DistinctConcat(required + properties, additional);
  }

  lemma RequiredIsNoOther(js: Coercions, v: Json, schema: Json, path: string, e: Error)
    requires v.Obj? && TidyValue(v) && TidySchema(js, schema)
    requires e in RequiredErrors(RequiredKeys(js, schema), v.fields, path)
    ensures e !in PropertyErrors(js, v.fields, PropertyEntries(schema), path)
    ensures e !in AdditionalErrors(v.fields, schema, path)
  {
    var keys, entries := RequiredKeys(js, schema), PropertyEntries(schema);
    RequiredReports(keys, v.fields, path, e);
    var i :| 0 <= i < |keys| && Lookup(v.fields, keys[i]).None? && e == Error(path + "." + keys[i], RequiredMissing);
    AdditionalReports(v.fields, schema, path, e);
    if e in PropertyErrors(js, v.fields, entries, path) {
      assert keys[i] in keys && Below(path + "." + keys[i], e.path);
      PropertyReports(js, v.fields, entries, path, e);
      var k :| 0 <= k < |entries| && PropertyReport(js, v.fields, entries[k], path, e);
      PropertyBelow(js, v.fields, entries[k], path, e);
      KeyInPath(path, keys[i], entries[k].key, e.path);
    }
  }

  lemma PropertyIsNotAdditional(js: Coercions, v: Json, schema: Json, path: string, e: Error)
    requires v.Obj? && TidyValue(v)
    requires e in PropertyErrors(js, v.fields, PropertyEntries(schema), path)
    ensures e !in AdditionalErrors(v.fields, schema, path)
  {
    hide PropertyErrors, AdditionalErrors, ValidateValue;
    var entries := PropertyEntries(schema);
    PropertyReports(js, v.fields, entries, path, e);
    var k :| 0 <= k < |entries| && PropertyReport(js, v.fields, entries[k], path, e);
    PropertyBelow(js, v.fields, entries[k], path, e);
    LookupFinds(entries, k);
    AdditionalReports(v.fields, schema, path, e);
    if i :| 0 <= i < |v.fields| && !PropertiesHave(schema, v.fields[i].key)
            && e == Error(path + "." + v.fields[i].key, NotAllowed) {
      assert v.fields[i] in v.fields && Below(path + "." + v.fields[i].key, e.path);
      KeyInPath(path, v.fields[i].key, entries[k].key, e.path);
    }
  }

  lemma ObjectIsBelow(js: Coercions, v: Json, schema: Json, path: string, e: Error)
    requires IsSchema(schema) && v.Obj? && OfDeclaredType(v, schema) && e in ObjectErrors(js, v, schema, path)
    ensures e.path != path
  {
    hide ValidateValue, ObjectErrors, ViolatedByField;
    ObjectReports(js, v, schema, path, e);
    if key :| ViolatedByField(js, v, schema, key, e.kind) && e.path == path + "." + key {
    } else {
      var key, child, sub :| Own(v, key, child) && PropertySchema(schema, key, sub)
                             && e in ValidateValue(js, child, sub, path + "." + key);
      ReportedBelow(js, child, sub, path + "." + key, e);
    }
  }

  lemma ArrayIsBelow(js: Coercions, v: Json, schema: Json, path: string, e: Error)
    requires IsSchema(schema) && v.Arr? && e in ArrayErrors(js, v, schema, path)
    ensures e.path != path
  {
    hide ValidateValue, ArrayErrors, NatText;
    ArrayReports(js, v, schema, path, e);
    var i, sub :| 0 <= i < |v.items| && Own(schema, "items", sub) && Counts(sub)
                  && e in ValidateValue(js, v.items[i], sub, path + "[" + NatText(i) + "]");
    ReportedBelow(js, v.items[i], sub, path + "[" + NatText(i) + "]", e);
  }

  lemma {:induction false} ErrorsOnceBelow(js: Coercions, v: Json, schema: Json, path: string)
    requires TidyValue(v) && TidySchema(js, schema)
    ensures Distinct(ValidateValue(js, v, schema, path))
    decreases Size(schema), 2, 0
  {
    if !IsSchema(schema) || !OfDeclaredType(v, schema) {
      return;
    }
    if v.Obj? {
      PropertiesOnce(js, v.fields, PropertyEntries(schema), path);
      ObjectOnce(js, v, schema, path);
      assert ArrayErrors(js, v, schema, path) == [];
    } else {
      assert ObjectErrors(js, v, schema, path) == [];
      if v.Arr? && Keyword(schema, "items").Some? {
        ItemsOnce(js, v.items, Keyword(schema, "items").value, path);
      }
    }
    AllOnce(js, v, schema, path);
  }

  lemma AllOnce(js: Coercions, v: Json, schema: Json, path: string)
    requires IsSchema(schema) && OfDeclaredType(v, schema)
    requires Distinct(ObjectErrors(js, v, schema, path)) && Distinct(ArrayErrors(js, v, schema, path))
    requires ObjectErrors(js, v, schema, path) == [] || ArrayErrors(js, v, schema, path) == []
    ensures Distinct(ValidateValue(js, v, schema, path))
  {
    var here := EnumErrors(v, schema, path) + LengthErrors(js, v, schema, path) + RangeErrors(js, v, schema, path);
    var fields, items := ObjectErrors(js, v, schema, path), ArrayErrors(js, v, schema, path);
    assert ValidateValue(js, v, schema, path) == here + fields + items;
    HereOnce(js, v, schema, path);
    forall e | e in here
      ensures e !in fields && e !in items
    {
      HereReports(js, v, schema, path, e);
      if e in fields { ObjectIsBelow(js, v, schema, path, e); }
      if e in items { ArrayIsBelow(js, v, schema, path, e); }
    }
    hide *;
    DistinctConcat(here, fields);
    DistinctConcat(here + fields, items);
  }

  /**
   * No violation is reported twice: if no object has a key twice, no schema requires one twice, and no such key has a
   * dot or an opening bracket in it, then no two reported errors are the same.
   */
  lemma NoErrorTwice(js: Coercions, v: Json, schema: Json, i: nat, j: nat)
    requires TidyValue(v) && TidySchema(js, schema)
    requires i < j < |ValidateValue(js, v, schema, "$")|
    ensures ValidateValue(js, v, schema, "$")[i] != ValidateValue(js, v, schema, "$")[j]
  {
    ErrorsOnceBelow(js, v, schema, "$");
  }
}
