/** The browser's rules: what the server and the loaded sources offer, local edits on top, disabled ones left out. */
module SchemaRules {
  import opened Common
  import opened LinkedMaps
  import opened Json
  import RemoteConfig

  datatype Target = Request | Response

  datatype Origin = FromServer | FromUrl(url: string) | FromUser

  datatype Rule = Rule(
    id: string, name: string, pattern: string, target: Target, schema: Json,
    source: Origin, origin: Option<string>, overridden: bool)

  /** A local edit of a rule that came from the server or a URL. */
  datatype Override = Override(name: string, pattern: string, target: Target, schema: Json)

  datatype UrlSource = UrlSource(url: string, rules: seq<Rule>)

  /** Everything the effective list is derived from. */
  datatype Inputs = Inputs(
    server: seq<Rule>, sources: seq<UrlSource>, overrides: map<string, Override>,
    disabled: set<string>, local: seq<Rule>)

  // ---- taking a config in ----

  function Text(s: Option<string>): string {
    if s.Some? then s.value else ""
  }

  /** The browser takes rules that have an id, a pattern, a target and a schema. */
  predicate Acceptable(r: RemoteConfig.RemoteRule) {
    Text(r.id) != "" && Text(r.pattern) != "" && Text(r.target) != "" && r.schema.Some? && Truthy(r.schema.value)
  }

  function NormalizeRule(r: RemoteConfig.RemoteRule, source: Origin): Rule {
    Rule(Text(r.id), Text(r.name), Text(r.pattern), if r.target == Some("request") then Request else Response,
         if r.schema.Some? then r.schema.value else Null,
         source, if source == FromServer then r.origin else None, false)
  }

  function TakeIn(rules: seq<RemoteConfig.RemoteRule>, source: Origin): seq<Rule> {
    if rules == [] then []
    else
      var r := rules[|rules| - 1];
      TakeIn(rules[..|rules| - 1], source) + (if Acceptable(r) then [NormalizeRule(r, source)] else [])
  }

  // ---- the effective list ----

  function Key(kind: string, id: string): string {
    kind + ":" + id
  }

  function IsDisabled(inputs: Inputs, id: string): bool {
    Key("schema", id) in inputs.disabled
  }

  type ById = LinkedMap<string, Rule>

  function Enter(m: ById, rules: seq<Rule>): ById {
    if rules == [] then m
    else
      var r := rules[|rules| - 1];
      Enter(m, rules[..|rules| - 1]).Put(r.id, r)
  }

  function EnterSources(m: ById, sources: seq<UrlSource>): ById {
    if sources == [] then m else Enter(EnterSources(m, sources[..|sources| - 1]), sources[|sources| - 1].rules)
  }

  function AllRemote(inputs: Inputs): ById {
    EnterSources(Enter(Empty, inputs.server), inputs.sources)
  }

  /** The names that every JavaScript object answers to; a lookup by one of them never comes back empty. */
  const OBJECT_PROTOTYPE := {
    "constructor", "hasOwnProperty", "isPrototypeOf", "propertyIsEnumerable", "toLocaleString", "toString", "valueOf",
    "__defineGetter__", "__defineSetter__", "__lookupGetter__", "__lookupSetter__", "__proto__" }

  function EffectiveRule(overrides: map<string, Override>, r: Rule): Rule {
    if r.id in overrides then
      var o := overrides[r.id];
      r.(name := o.name, pattern := o.pattern, target := o.target, schema := o.schema, overridden := true)
    else if r.id in OBJECT_PROTOTYPE then r.(overridden := true)
    else r
  }

  function Enabled(inputs: Inputs, rules: seq<Rule>): seq<Rule> {
    if rules == [] then []
    else
      var r := rules[|rules| - 1];
      Enabled(inputs, rules[..|rules| - 1])
      + (if IsDisabled(inputs, r.id) then [] else [EffectiveRule(inputs.overrides, r)])
  }

  function Effective(inputs: Inputs): seq<Rule> {
    Enabled(inputs, AllRemote(inputs).Values()) + inputs.local
  }

  // ---- what the user and the network do to the inputs ----

  function WithoutUrl(sources: seq<UrlSource>, url: string): seq<UrlSource> {
    if sources == [] then []
    else
      var s := sources[|sources| - 1];
      WithoutUrl(sources[..|sources| - 1], url) + (if s.url == url then [] else [s])
  }

  function LoadServer(inputs: Inputs, rules: seq<Rule>): Inputs {
    inputs.(server := rules)
  }

  /** Loading a URL again replaces its rules and moves it to the end. */
  function LoadUrl(inputs: Inputs, url: string, rules: seq<Rule>): Inputs {
    inputs.(sources := WithoutUrl(inputs.sources, url) + [UrlSource(url, rules)])
  }

  function RemoveUrl(inputs: Inputs, url: string): Inputs {
    inputs.(sources := WithoutUrl(inputs.sources, url))
  }

  function Toggle(inputs: Inputs, key: string): Inputs {
    inputs.(disabled := if key in inputs.disabled then inputs.disabled - {key} else inputs.disabled + {key})
  }

  predicate HasLocal(local: seq<Rule>, id: string) {
    exists i :: 0 <= i < |local| && local[i].id == id
  }

  function EditLocal(local: seq<Rule>, id: string, o: Override): seq<Rule> {
    if local == [] then []
    else
      var r := local[|local| - 1];
      EditLocal(local[..|local| - 1], id, o)
      + [if r.id == id then Rule(id, o.name, o.pattern, o.target, o.schema, FromUser, None, false) else r]
  }

  /** An edit changes the user's own rule of that id, or else becomes an override. */
  function SaveEdit(inputs: Inputs, id: string, o: Override): Inputs {
    if HasLocal(inputs.local, id) then inputs.(local := EditLocal(inputs.local, id, o))
    else inputs.(overrides := inputs.overrides[id := o])
  }

  function AddLocal(inputs: Inputs, newId: string, o: Override): Inputs {
    inputs.(local := inputs.local + [Rule(newId, o.name, o.pattern, o.target, o.schema, FromUser, None, false)])
  }

  function Reset(inputs: Inputs, id: string): Inputs {
    inputs.(overrides := inputs.overrides - {id})
  }

  function DeleteLocal(inputs: Inputs, id: string): Inputs {
    inputs.(local := Filter((r: Rule) => r.id != id, inputs.local))
  }

  // ---- which rule an id stands for ----

  function LastWith(rules: seq<Rule>, id: string): Option<Rule> {
    if rules == [] then None
    else if rules[|rules| - 1].id == id then Some(rules[|rules| - 1])
    else LastWith(rules[..|rules| - 1], id)
  }

  /** The most recently loaded source that offers the id, or else the server. */
  function Resolve(server: seq<Rule>, sources: seq<UrlSource>, id: string): Option<Rule> {
    if sources == [] then LastWith(server, id)
    else if LastWith(sources[|sources| - 1].rules, id).Some? then LastWith(sources[|sources| - 1].rules, id)
    else Resolve(server, sources[..|sources| - 1], id)
  }

  lemma {:induction false} EnterGets(m: ById, rules: seq<Rule>, id: string)
    ensures Enter(m, rules).Get(id) == if LastWith(rules, id).Some? then LastWith(rules, id) else m.Get(id)
  {
    if rules != [] {
      var r := rules[|rules| - 1];
      EnterGets(m, rules[..|rules| - 1], id);
      GetPut(Enter(m, rules[..|rules| - 1]), r.id, r, id);
    }
  }

  lemma {:induction false} SourcesGet(m: ById, server: seq<Rule>, sources: seq<UrlSource>, id: string)
    requires m == Enter(Empty, server)
    ensures EnterSources(m, sources).Get(id) == Resolve(server, sources, id)
  {
    if sources == [] {
      EnterGets(Empty, server, id);
    } else {
      SourcesGet(m, server, sources[..|sources| - 1], id);
      EnterGets(EnterSources(m, sources[..|sources| - 1]), sources[|sources| - 1].rules, id);
    }
  }

  function IdOf(r: Rule): string {
    r.id
  }

  lemma {:induction false} EnterKeyed(m: ById, rules: seq<Rule>)
    requires KeyedBy(m, IdOf)
    ensures KeyedBy(Enter(m, rules), IdOf)
  {
    if rules != [] {
      EnterKeyed(m, rules[..|rules| - 1]);
      PutKeyed(Enter(m, rules[..|rules| - 1]), IdOf, rules[|rules| - 1]);
    }
  }

  lemma {:induction false} EnterSourcesKeyed(m: ById, sources: seq<UrlSource>)
    requires KeyedBy(m, IdOf)
    ensures KeyedBy(EnterSources(m, sources), IdOf)
  {
    if sources != [] {
      EnterSourcesKeyed(m, sources[..|sources| - 1]);
      EnterKeyed(EnterSources(m, sources[..|sources| - 1]), sources[|sources| - 1].rules);
    }
  }

  lemma AllRemoteKeyed(inputs: Inputs)
    ensures KeyedBy(AllRemote(inputs), IdOf)
  {
    EnterKeyed(Empty, inputs.server);
    EnterSourcesKeyed(Enter(Empty, inputs.server), inputs.sources);
  }

  function Occurrences(rules: seq<Rule>, id: string): seq<Rule> {
    if rules == [] then []
    else
      Occurrences(rules[..|rules| - 1], id) + (if rules[|rules| - 1].id == id then [rules[|rules| - 1]] else [])
  }

  lemma OneMoreOccurrence(rules: seq<Rule>, r: Rule, id: string)
    ensures Occurrences(rules + [r], id) == Occurrences(rules, id) + (if r.id == id then [r] else [])
    ensures Occurrences(rules + [], id) == Occurrences(rules, id)
  {
    assert (rules + [r])[..|rules|] == rules;
    assert rules + [] == rules;
  }

  lemma EnabledOneMore(inputs: Inputs, rules: seq<Rule>, r: Rule)
    ensures Enabled(inputs, rules + [r]) ==
            Enabled(inputs, rules) + (if IsDisabled(inputs, r.id) then [] else [EffectiveRule(inputs.overrides, r)])
  {
    assert (rules + [r])[..|rules|] == rules;
  }

  lemma EditKeepsId(overrides: map<string, Override>, r: Rule)
    ensures EffectiveRule(overrides, r).id == r.id
  {
  }

  /** The entries of the effective list for one id of a map with one rule for each id. */
  lemma {:induction false} EnabledOccurrences(inputs: Inputs, m: ById, id: string)
    requires KeyedBy(m, IdOf)
    ensures Occurrences(Enabled(inputs, m.Values()), id) ==
            if m.Get(id).None? || IsDisabled(inputs, id) then []
            else [EffectiveRule(inputs.overrides, m.Get(id).value)]
  {
    if m.Empty? {
      return;
    }
    hide Enabled, Occurrences, IsDisabled, EffectiveRule;
    EnabledOccurrences(inputs, m.older, id);
    HasIsMember(m.older, m.key);
    EditKeepsId(inputs.overrides, m.value);
    EnabledOneMore(inputs, m.older.Values(), m.value);
    OneMoreOccurrence(Enabled(inputs, m.older.Values()), EffectiveRule(inputs.overrides, m.value), id);
  }

  /**
   * An id offered by the server or a loaded source appears exactly once among the derived rules unless it is
   * disabled, and stands for the rule of the most recently loaded source that offers it, or else the server's,
   * with the local edit on top.  A disabled id, or one nobody offers, does not appear.
   */
  lemma EffectiveResolves(inputs: Inputs, id: string)
    ensures var found := Resolve(inputs.server, inputs.sources, id);
            Occurrences(Enabled(inputs, AllRemote(inputs).Values()), id) ==
            if found.None? || IsDisabled(inputs, id) then [] else [EffectiveRule(inputs.overrides, found.value)]
  {
    AllRemoteKeyed(inputs);
    EnabledOccurrences(inputs, AllRemote(inputs), id);
    SourcesGet(Enter(Empty, inputs.server), inputs.server, inputs.sources, id);
  }

  /** The latest source that offers an id decides it; if none does, the server. */
  lemma {:induction false} ResolveMeans(server: seq<Rule>, sources: seq<UrlSource>, id: string, r: Rule)
    ensures Resolve(server, sources, id) == Some(r) <==>
            || (exists i :: IsLatest(sources, i, id) && IsLast(sources[i].rules, id, r))
            || ((forall i :: 0 <= i < |sources| ==> !Offers(sources[i].rules, id)) && IsLast(server, id, r))
  {
    if sources == [] {
      LastWithMeans(server, id, r);
    } else {
      var n := |sources| - 1;
      var front, last := sources[..n], sources[n];
      ResolveMeans(server, front, id, r);
      LastWithMeans(last.rules, id, r);
      LastWithOffers(last.rules, id);
      OffersBehind(sources, id, r);
      hide LastWith, Offers, IsLatest, IsLast;
    }
  }

  lemma OffersBehind(sources: seq<UrlSource>, id: string, r: Rule)
    requires sources != []
    ensures var n := |sources| - 1;
            var front := sources[..n];
            && (if Offers(sources[n].rules, id) then
                  ((exists i :: IsLatest(sources, i, id) && IsLast(sources[i].rules, id, r)) <==>
                   IsLast(sources[n].rules, id, r))
                else
                  ((exists i :: IsLatest(sources, i, id) && IsLast(sources[i].rules, id, r)) <==>
                   exists i :: IsLatest(front, i, id) && IsLast(front[i].rules, id, r)))
            && ((forall i :: 0 <= i < |sources| ==> !Offers(sources[i].rules, id)) <==>
                (forall i :: 0 <= i < n ==> !Offers(front[i].rules, id)) && !Offers(sources[n].rules, id))
  {
    hide Offers, IsLast;
    var n := |sources| - 1;
    var front := sources[..n];
    assert forall i :: 0 <= i < n ==> front[i] == sources[i];
    if Offers(sources[n].rules, id) {
      assert IsLatest(sources, n, id);
      assert forall i :: IsLatest(sources, i, id) ==> i == n;
    } else {
      assert forall i :: IsLatest(sources, i, id) <==> IsLatest(front, i, id);
    }
  }

  ghost predicate Offers(rules: seq<Rule>, id: string) {
    exists k :: 0 <= k < |rules| && rules[k].id == id
  }

  ghost predicate IsLatest(sources: seq<UrlSource>, i: int, id: string) {
    0 <= i < |sources| && Offers(sources[i].rules, id)
    && forall k :: i < k < |sources| ==> !Offers(sources[k].rules, id)
  }

  /** The rule is the last one of its list that has the id. */
  ghost predicate IsLast(rules: seq<Rule>, id: string, r: Rule) {
    exists k :: 0 <= k < |rules| && rules[k] == r && r.id == id && forall l :: k < l < |rules| ==> rules[l].id != id
  }

  lemma {:induction false} LastWithOffers(rules: seq<Rule>, id: string)
    ensures LastWith(rules, id).Some? <==> Offers(rules, id)
  {
    if rules != [] {
      var n := |rules| - 1;
      LastWithOffers(rules[..n], id);
      if rules[n].id != id && Offers(rules, id) {
        var k :| 0 <= k < |rules| && rules[k].id == id;
        assert rules[..n][k].id == id;
      }
      if Offers(rules[..n], id) {
        var k :| 0 <= k < n && rules[..n][k].id == id;
        assert rules[k].id == id;
      }
    }
  }

  lemma {:induction false} LastWithMeans(rules: seq<Rule>, id: string, r: Rule)
    ensures LastWith(rules, id) == Some(r) <==> IsLast(rules, id, r)
  {
    if rules != [] {
      var n := |rules| - 1;
      LastWithMeans(rules[..n], id, r);
      if rules[n].id == id {
        if r == rules[n] {
          assert rules[n] == r && r.id == id;
        }
        if IsLast(rules, id, r) {
          var k :| 0 <= k < |rules| && rules[k] == r && r.id == id && forall l :: k < l < |rules| ==> rules[l].id != id;
          assert k == n;
        }
      } else {
        if IsLast(rules[..n], id, r) {
          var k :| 0 <= k < n && rules[..n][k] == r && r.id == id && forall l :: k < l < n ==> rules[..n][l].id != id;
          assert rules[k] == r && forall l :: k < l < |rules| ==> rules[l].id != id;
        }
        if IsLast(rules, id, r) {
          var k :| 0 <= k < |rules| && rules[k] == r && r.id == id && forall l :: k < l < |rules| ==> rules[l].id != id;
          assert rules[..n][k] == r && forall l :: k < l < n ==> rules[..n][l].id != id;
        }
      }
    }
  }

  // ---- the rules in force ----

  /** The ids that the server and then the sources mention, in that order. */
  function Mentioned(server: seq<Rule>, sources: seq<UrlSource>): seq<string> {
    if sources == [] then IdsOf(server)
    else Mentioned(server, sources[..|sources| - 1]) + IdsOf(sources[|sources| - 1].rules)
  }

  function IdsOf(rules: seq<Rule>): seq<string> {
    if rules == [] then [] else IdsOf(rules[..|rules| - 1]) + [rules[|rules| - 1].id]
  }

  /**
   * The derived rules come first: in the order in which their ids are first mentioned, each enabled id that is on offer
   * once, as the rule it stands for with the edit on top.  After them come the user's own rules, all of them, in the
   * user's order.
   */
  ghost predicate InForce(rules: seq<Rule>, inputs: Inputs) {
    var n := |rules| - |inputs.local|;
    && n >= 0
    && rules[n..] == inputs.local
    && IdsOf(rules[..n]) == Filter((id: string) => !IsDisabled(inputs, id),
                                   FirstSeen(Mentioned(inputs.server, inputs.sources)))
    && forall i :: 0 <= i < n ==> StandsFor(inputs, rules[i])
  }

  /** The rule is the one its id stands for, with the edit's fields if there is an edit. */
  ghost predicate StandsFor(inputs: Inputs, r: Rule) {
    var found := Resolve(inputs.server, inputs.sources, r.id);
    && found.Some?
    && (r.id in inputs.overrides ==>
          var o := inputs.overrides[r.id];
          r == Rule(r.id, o.name, o.pattern, o.target, o.schema, found.value.source, found.value.origin, true))
    && (r.id !in inputs.overrides && r.id !in OBJECT_PROTOTYPE ==> r == found.value)
    && (r.id !in inputs.overrides && r.id in OBJECT_PROTOTYPE ==> r == found.value.(overridden := true))
  }

  lemma {:induction false} EnterKeys(m: ById, ids: seq<string>, rules: seq<Rule>)
    requires m.Keys() == FirstSeen(ids)
    ensures Enter(m, rules).Keys() == FirstSeen(ids + IdsOf(rules))
  {
    if rules == [] {
      assert ids + [] == ids;
    } else {
      var front, r := rules[..|rules| - 1], rules[|rules| - 1];
      EnterKeys(m, ids, front);
      var before := Enter(m, front);
      PutKeys(before, r.id, r);
      HasIsMember(before, r.id);
      ValuesAtKeys(before);
      FirstSeenOneMore(ids + IdsOf(front), r.id);
      assert ids + IdsOf(rules) == ids + IdsOf(front) + [r.id];
    }
  }

  lemma {:induction false} AllRemoteKeys(server: seq<Rule>, sources: seq<UrlSource>)
    ensures EnterSources(Enter(Empty, server), sources).Keys() == FirstSeen(Mentioned(server, sources))
  {
    if sources == [] {
      EnterKeys(Empty, [], server);
      assert [] + IdsOf(server) == IdsOf(server);
    } else {
      var front := sources[..|sources| - 1];
      AllRemoteKeys(server, front);
      EnterKeys(EnterSources(Enter(Empty, server), front), Mentioned(server, front), sources[|sources| - 1].rules);
    }
  }

  lemma {:induction false} EnabledIds(inputs: Inputs, m: ById)
    requires KeyedBy(m, IdOf)
    ensures IdsOf(Enabled(inputs, m.Values())) == Filter((id: string) => !IsDisabled(inputs, id), m.Keys())
  {
    if m.Entry? {
      hide IsDisabled, EffectiveRule;
      EnabledIds(inputs, m.older);
      EnabledOneMore(inputs, m.older.Values(), m.value);
      EditKeepsId(inputs.overrides, m.value);
      var ids := m.older.Keys();
      assert (ids + [m.key])[..|ids|] == ids;
      var before := Enabled(inputs, m.older.Values());
      assert (before + [EffectiveRule(inputs.overrides, m.value)])[..|before|] == before;
      assert before + [] == before;
    }
  }

  /** Every entry of the enabled list is the edited rule of an entry of the map. */
  lemma {:induction false} EnabledStandFor(inputs: Inputs, whole: ById, m: ById)
    requires KeyedBy(m, IdOf) && forall k | k in m.KeySet() :: whole.Get(k) == m.Get(k)
    requires forall id :: whole.Get(id) == Resolve(inputs.server, inputs.sources, id)
    ensures forall i :: 0 <= i < |Enabled(inputs, m.Values())| ==> StandsFor(inputs, Enabled(inputs, m.Values())[i])
  {
    if m.Empty? {
      assert m.Values() == [] && Enabled(inputs, []) == [];
    } else {
      hide IsDisabled, StandsFor, Enabled, EffectiveRule, Resolve;
      forall k | k in m.older.KeySet()
        ensures whole.Get(k) == m.older.Get(k)
      {
        assert k in m.KeySet();
      }
      EnabledStandFor(inputs, whole, m.older);
      EnabledOneMore(inputs, m.older.Values(), m.value);
      assert m.key in m.KeySet();
      EditedStandsFor(inputs, m.value);
    }
  }

  lemma EditedStandsFor(inputs: Inputs, r: Rule)
    requires Resolve(inputs.server, inputs.sources, r.id) == Some(r)
    ensures StandsFor(inputs, EffectiveRule(inputs.overrides, r))
  {
    EditKeepsId(inputs.overrides, r);
  }

  /** The rules that are derived are those in force: nothing is left out, and nothing is put in. */
  lemma EffectiveInForce(inputs: Inputs)
    ensures InForce(Effective(inputs), inputs)
  {
    var m := AllRemote(inputs);
    var derived := Enabled(inputs, m.Values());
    AllRemoteKeyed(inputs);
    AllRemoteKeys(inputs.server, inputs.sources);
    EnabledIds(inputs, m);
    forall id
      ensures m.Get(id) == Resolve(inputs.server, inputs.sources, id)
    {
      SourcesGet(Enter(Empty, inputs.server), inputs.server, inputs.sources, id);
    }
    EnabledStandFor(inputs, m, m);
    hide Enabled, IdsOf, StandsFor, AllRemote, IsDisabled;
    assert Effective(inputs) == derived + inputs.local;
    assert (derived + inputs.local)[..|derived|] == derived;
  }

  // ---- all the way from the files ----

  lemma {:induction false} TakeInLast(rules: seq<RemoteConfig.RemoteRule>, source: Origin, id: string)
    requires id != ""
    requires forall i, j :: 0 <= i < j < |rules| ==> rules[i].id != rules[j].id
    ensures var r := RemoteConfig.LastWith(rules, Some(id));
            LastWith(TakeIn(rules, source), id) ==
            if r.Some? && Acceptable(r.value) then Some(NormalizeRule(r.value, source)) else None
  {
    if rules != [] {
      var front, r := rules[..|rules| - 1], rules[|rules| - 1];
      var before := TakeIn(front, source);
      TakeInLast(front, source, id);
      if Acceptable(r) {
        assert (before + [NormalizeRule(r, source)])[..|before|] == before;
        if r.id == Some(id) {
          LastWithIsMember(front, Some(id));
        }
      } else {
        assert before + [] == before;
        if r.id == Some(id) {
          LastWithIsMember(front, Some(id));
        }
      }
    }
  }

  lemma {:induction false} LastWithIsMember(rules: seq<RemoteConfig.RemoteRule>, id: Option<string>)
    ensures RemoteConfig.LastWith(rules, id).Some? ==> exists i :: 0 <= i < |rules| && rules[i].id == id
  {
    if rules != [] && rules[|rules| - 1].id != id {
      LastWithIsMember(rules[..|rules| - 1], id);
      if RemoteConfig.LastWith(rules, id).Some? {
        var i :| 0 <= i < |rules| - 1 && rules[..|rules| - 1][i].id == id;
        assert rules[i].id == id;
      }
    }
  }

  /**
   * From the files to the browser: without a loaded source that offers it, an id stands for the local file's rule,
   * or else the remote file's, provided the browser accepts that rule; if it does not, nothing takes its place.
   */
  lemma FilePrecedence(localFile: RemoteConfig.Source, remoteFile: RemoteConfig.Source, inputs: Inputs, id: string)
    requires id != ""
    requires var merged := RemoteConfig.Merged(RemoteConfig.LoadLocal(localFile), RemoteConfig.LoadRemote(remoteFile));
             inputs.server == TakeIn(merged.Values(), FromServer)
    requires forall i :: 0 <= i < |inputs.sources| ==> LastWith(inputs.sources[i].rules, id).None?
    ensures var local, remote := RemoteConfig.LoadLocal(localFile), RemoteConfig.LoadRemote(remoteFile);
            var w := RemoteConfig.Winner(local, remote, Some(id));
            Resolve(inputs.server, inputs.sources, id) ==
            if w.Some? && Acceptable(w.value) then Some(NormalizeRule(w.value, FromServer)) else None
  {
    var local, remote := RemoteConfig.LoadLocal(localFile), RemoteConfig.LoadRemote(remoteFile);
    RemoteConfig.MergePrecedence(local, remote, Some(id));
    TakeInLast(RemoteConfig.Merged(local, remote).Values(), FromServer, id);
    NoSourceOffers(inputs.server, inputs.sources, id);
  }

  lemma {:induction false} NoSourceOffers(server: seq<Rule>, sources: seq<UrlSource>, id: string)
    requires forall i :: 0 <= i < |sources| ==> LastWith(sources[i].rules, id).None?
    ensures Resolve(server, sources, id) == LastWith(server, id)
  {
    if sources != [] {
      NoSourceOffers(server, sources[..|sources| - 1], id);
    }
  }

  // ---- loading and removing sources ----

  lemma {:induction false} ResolveWithoutUrl(server: seq<Rule>, sources: seq<UrlSource>, url: string, id: string)
    requires forall i :: 0 <= i < |sources| && sources[i].url == url ==> LastWith(sources[i].rules, id).None?
    ensures Resolve(server, WithoutUrl(sources, url), id) == Resolve(server, sources, id)
  {
    if sources != [] {
      var front, s := sources[..|sources| - 1], sources[|sources| - 1];
      ResolveWithoutUrl(server, front, url, id);
      var kept := WithoutUrl(front, url);
      if s.url == url {
        assert kept + [] == kept;
      } else {
        assert (kept + [s])[..|kept|] == kept;
      }
    }
  }

  /** The source loaded last decides every id it offers; the others stay as they resolved without it. */
  lemma LoadedSourceWins(inputs: Inputs, url: string, rules: seq<Rule>, id: string)
    ensures var after := LoadUrl(inputs, url, rules);
            Resolve(after.server, after.sources, id) ==
            if LastWith(rules, id).Some? then LastWith(rules, id)
            else Resolve(inputs.server, RemoveUrl(inputs, url).sources, id)
  {
    var kept := WithoutUrl(inputs.sources, url);
    assert (kept + [UrlSource(url, rules)])[..|kept|] == kept;
  }

  /** Removing a source that does not offer an id leaves the rule of that id alone. */
  lemma RemovalKeepsOthers(inputs: Inputs, url: string, id: string)
    requires forall i :: 0 <= i < |inputs.sources| && inputs.sources[i].url == url ==>
               LastWith(inputs.sources[i].rules, id).None?
    ensures Resolve(inputs.server, RemoveUrl(inputs, url).sources, id) == Resolve(inputs.server, inputs.sources, id)
  {
    ResolveWithoutUrl(inputs.server, inputs.sources, url, id);
  }

  // ---- overrides survive their sources ----

  /**
   * A disabled id stays out of the derived rules; an edited one that is on offer has one entry, with the edit's fields
   * and the identity of the source that now offers it.
   */
  ghost predicate EditShows(before: Inputs, after: Inputs, id: string) {
    var found := Resolve(after.server, after.sources, id);
    var shown := Occurrences(Enabled(after, AllRemote(after).Values()), id);
    && (IsDisabled(before, id) ==> shown == [])
    && (!IsDisabled(before, id) && found.Some? && id in before.overrides ==>
          var o := before.overrides[id];
          shown == [Rule(id, o.name, o.pattern, o.target, o.schema, found.value.source, found.value.origin, true)])
  }

  /** Inputs that agree about an id's edit and about whether it is disabled. */
  predicate SameEdit(before: Inputs, after: Inputs, id: string) {
    && (id in before.overrides <==> id in after.overrides)
    && (id in before.overrides ==> after.overrides[id] == before.overrides[id])
    && (IsDisabled(before, id) <==> IsDisabled(after, id))
  }

  lemma SameEditShows(before: Inputs, after: Inputs, id: string)
    requires SameEdit(before, after, id)
    ensures EditShows(before, after, id)
  {
    hide IsDisabled;
    EffectiveResolves(after, id);
    ResolveHasId(after.server, after.sources, id);
  }

  lemma {:induction false} LastWithHasId(rules: seq<Rule>, id: string)
    ensures LastWith(rules, id).Some? ==> LastWith(rules, id).value.id == id
  {
    if rules != [] {
      LastWithHasId(rules[..|rules| - 1], id);
    }
  }

  lemma {:induction false} ResolveHasId(server: seq<Rule>, sources: seq<UrlSource>, id: string)
    ensures Resolve(server, sources, id).Some? ==> Resolve(server, sources, id).value.id == id
  {
    if sources == [] {
      LastWithHasId(server, id);
    } else {
      LastWithHasId(sources[|sources| - 1].rules, id);
      ResolveHasId(server, sources[..|sources| - 1], id);
    }
  }

  /**
   * Reset gives back what the sources alone say, for an enabled rule that is on offer, if and only if the id is not
   * one of the names that every JavaScript object answers to: such a rule is shown as edited even without an edit.
   */
  lemma ResetRestoresSourceIff(inputs: Inputs, id: string)
    requires !IsDisabled(inputs, id) && Resolve(inputs.server, inputs.sources, id).Some?
    requires !Resolve(inputs.server, inputs.sources, id).value.overridden
    ensures var after := Reset(inputs, id);
            Occurrences(Enabled(after, AllRemote(after).Values()), id) ==
            [Resolve(inputs.server, inputs.sources, id).value]
            <==> id !in OBJECT_PROTOTYPE
  {
    EffectiveResolves(Reset(inputs, id), id);
    ResolveHasId(inputs.server, inputs.sources, id);
  }
}
