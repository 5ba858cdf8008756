/** What each change of the rules does to the lists, the edits and the switches that the rules are derived from. */
module RuleEdits {
  import opened Common
  import opened Json
  import opened SchemaRules
  import opened BrowserApp
  import RemoteConfig

  /** What the page makes of a rule in a file: nothing, unless it has an id, a pattern, a target and a schema. */
  ghost function Taken(r: RemoteConfig.RemoteRule, source: Origin): Option<Rule> {
    if && r.id.Some? && r.pattern.Some? && r.target.Some? && r.schema.Some?
       && "" !in [r.id.value, r.pattern.value, r.target.value]
       && r.schema.value !in [Null, Bool(false), Num(0.0), Str("")]
    then Some(Rule(r.id.value, if r.name.Some? then r.name.value else "", r.pattern.value,
                   if r.target.value == "request" then Request else Response, r.schema.value,
                   source, if source.FromServer? then r.origin else None, false))
    else None
  }

  ghost function TakenFrom(schemas: seq<RemoteConfig.RemoteRule>, source: Origin): seq<Option<Rule>> {
    seq(|schemas|, i requires 0 <= i < |schemas| => Taken(schemas[i], source))
  }

  /** The rules are those the page makes of the file's rules, in the order of the file. */
  ghost predicate TakenIn(schemas: seq<RemoteConfig.RemoteRule>, source: Origin, rules: seq<Rule>) {
    Present(rules) == Filter((t: Option<Rule>) => t.Some?, TakenFrom(schemas, source))
  }

  ghost function Own(id: string, o: Override): Rule {
    Rule(id, o.name, o.pattern, o.target, o.schema, FromUser, None, false)
  }

  /** What a change does; whatever is not mentioned stays as it is. */
  ghost predicate Effect(before: Inputs, change: RuleEvent, after: Inputs) {
    match change
    case ServerItemToggled(kind, id) =>
      && after == before.(disabled := after.disabled)
      && forall key :: key in after.disabled <==> (key in before.disabled) != (key == kind + ":" + id)
    case ServerAnswered(config) =>
      && after == before.(server := after.server)
      && if config.HttpError? then after.server == [] else TakenIn(config.schemas, FromServer, after.server)
    case UrlAnswered(url, config) =>
      if config.Document? && config.version == 1 && exists r :: r in config.schemas && Taken(r, FromUrl(url)).Some? then
        && after == before.(sources := after.sources)
        && |after.sources| > 0
        && var n := |after.sources| - 1;
           && after.sources[..n] == Filter((s: UrlSource) => s.url != url, before.sources)
           && after.sources[n].url == url && TakenIn(config.schemas, FromUrl(url), after.sources[n].rules)
      else after == before
    case UrlRemoved(url) => after == before.(sources := Filter((s: UrlSource) => s.url != url, before.sources))
    case EditSaved(id, edit) =>
      if exists r :: r in before.local && r.id == id then
        && after == before.(local := after.local)
        && |after.local| == |before.local|
        && forall i :: 0 <= i < |after.local| ==>
             after.local[i] == if before.local[i].id == id then Own(id, edit) else before.local[i]
      else
        && after == before.(overrides := after.overrides)
        && (forall key :: key in after.overrides <==> key in before.overrides || key == id)
        && forall key | key in after.overrides ::
             after.overrides[key] == if key == id then edit else before.overrides[key]
    case RuleAdded(newId, edit) => after == before.(local := before.local + [Own(newId, edit)])
    case RuleReset(id) =>
      && after == before.(overrides := after.overrides)
      && (forall key :: key in after.overrides <==> key in before.overrides && key != id)
      && forall key | key in after.overrides :: after.overrides[key] == before.overrides[key]
    case RuleDeleted(id) => after == before.(local := Filter((r: Rule) => r.id != id, before.local))
  }

  lemma TakenIff(r: RemoteConfig.RemoteRule, source: Origin)
    ensures Taken(r, source) == if Acceptable(r) then Some(NormalizeRule(r, source)) else None
  {
  }

  lemma {:induction false} TakeInTakes(schemas: seq<RemoteConfig.RemoteRule>, source: Origin)
    ensures TakenIn(schemas, source, TakeIn(schemas, source))
  {
    if schemas == [] {
      assert TakenFrom([], source) == [];
    } else {
      var n := |schemas| - 1;
      var front, r := schemas[..n], schemas[n];
      TakeInTakes(front, source);
      TakenIff(r, source);
      hide Taken, Acceptable, NormalizeRule;
      var whole := TakenFrom(schemas, source);
      assert whole == TakenFrom(front, source) + [Taken(r, source)];
      assert whole[..n] == TakenFrom(front, source) && whole[n] == Taken(r, source);
      if Acceptable(r) {
        PresentOneMore(TakeIn(front, source), NormalizeRule(r, source));
      } else {
        assert TakeIn(front, source) + [] == TakeIn(front, source);
      }
    }
  }

  lemma {:induction false} TakesSomethingIff(schemas: seq<RemoteConfig.RemoteRule>, source: Origin)
    ensures TakeIn(schemas, source) != [] <==> exists r :: r in schemas && Taken(r, source).Some?
  {
    if schemas != [] {
      var n := |schemas| - 1;
      TakesSomethingIff(schemas[..n], source);
      TakenIff(schemas[n], source);
      hide Taken, Acceptable, NormalizeRule;
      assert forall r :: r in schemas <==> r in schemas[..n] || r == schemas[n];
    }
  }

  lemma {:induction false} WithoutUrlFilters(sources: seq<UrlSource>, url: string)
    ensures WithoutUrl(sources, url) == Filter((s: UrlSource) => s.url != url, sources)
  {
    if sources != [] {
      WithoutUrlFilters(sources[..|sources| - 1], url);
    }
  }

  lemma {:induction false} EditLocalInPlace(local: seq<Rule>, id: string, o: Override)
    ensures var edited := EditLocal(local, id, o);
            && |edited| == |local|
            && forall i :: 0 <= i < |local| ==> edited[i] == if local[i].id == id then Own(id, o) else local[i]
  {
    if local != [] {
      EditLocalInPlace(local[..|local| - 1], id, o);
    }
  }

  /** Every change has its effect and no other. */
  lemma ChangeHasItsEffect(before: Inputs, change: RuleEvent)
    ensures Effect(before, change, Changed(before, change))
  {
    match change
    case ServerAnswered(config) =>
      hide TakenIn, TakeIn;
      if config.Document? { TakeInTakes(config.schemas, FromServer); }
    case UrlAnswered(url, config) =>
      hide TakenIn, TakeIn, Taken, Filter, WithoutUrl;
      if config.Document? {
        TakeInTakes(config.schemas, FromUrl(url));
        TakesSomethingIff(config.schemas, FromUrl(url));
        WithoutUrlFilters(before.sources, url);
      }
    case UrlRemoved(url) => WithoutUrlFilters(before.sources, url);
    case EditSaved(id, edit) =>
      EditLocalInPlace(before.local, id, edit);
      hide EditLocal;
      assert HasLocal(before.local, id) <==> exists r :: r in before.local && r.id == id;
    case _ =>
  }
}
