/**
 * The browser page: the list of packets it holds, the rules it checks them against, what it remembers of each
 * packet, and the table it shows.  Every method is one uninterrupted piece of the page's code.
 */
module BrowserApp {
  import opened Common
  import opened BrowserModel
  import opened HeldPackets
  import SchemaRules
  import RemoteConfig

  /** What fetching a URL source comes to. */
  datatype Fetched = HttpError | Document(version: nat, schemas: seq<RemoteConfig.RemoteRule>)

  /** What changes the inputs of the rules: the user, the server's answer, or that of a URL. */
  datatype RuleEvent =
    | ServerItemToggled(kind: string, id: string)
    | ServerAnswered(config: Fetched)
    | UrlAnswered(url: string, config: Fetched)
    | UrlRemoved(url: string)
    | EditSaved(id: string, edit: SchemaRules.Override)
    | RuleAdded(newId: string, edit: SchemaRules.Override)
    | RuleReset(id: string)
    | RuleDeleted(id: string)

  /** The uninterrupted pieces of the page's code that the user, the network and the browser can set off. */
  datatype Event =
    | Arrived(packet: Packet)
    | Frame
    | Opened(packet: Packet, asText: set<SchemaRules.Target>)
    | FilterSet(filter: Filter)
    | HeaderClicked(key: SortKey)
    | RulesChanged(change: RuleEvent)
    | Cleared
    | RunSelected(run: string)
    | RunStarted(run: string)
    | RunEnded(run: string)
    | LanguageSet
    | HistoryAnswer
    | HistoryContents(recent: seq<Packet>)

  /** Selecting or starting a run, and dropping what is held for a history still unread, leave the table behind. */
  predicate Settles(before: bool, e: Event) {
    match e
    case Arrived(_) | Frame | Opened(_, _) | RunEnded(_) => before
    case RulesChanged(change) => before || !change.UrlAnswered?
    case RunSelected(_) | RunStarted(_) | HistoryAnswer => false
    case _ => true
  }

  predicate Settled(events: seq<Event>) {
    events != [] ==> Settles(Settled(events[..|events| - 1]), events[|events| - 1])
  }

  /** The packet comes in with this event, live or in a history answer. */
  predicate Brings(e: Event, p: Packet) {
    e == Arrived(p) || (e.HistoryContents? && p in e.recent)
  }

  /** Everything held is dropped. */
  predicate Drops(e: Event) {
    e.Cleared? || e.HistoryAnswer?
  }

  function ArrivalsAfter(before: seq<Packet>, e: Event): seq<Packet> {
    match e
    case Arrived(p) => before + [p]
    case HistoryContents(recent) => before + recent
    case Cleared | HistoryAnswer => []
    case _ => before
  }

  /** The packets that have come in since everything was last dropped, in order. */
  function Arrivals(events: seq<Event>): seq<Packet> {
    if events == [] then [] else ArrivalsAfter(Arrivals(events[..|events| - 1]), events[|events| - 1])
  }

  lemma OneMoreArrival(before: seq<Packet>, e: Event, p: Packet)
    ensures p in ArrivalsAfter(before, e) <==> Brings(e, p) || (p in before && !Drops(e))
  {
  }

  lemma {:induction false} ArrivalsMean(events: seq<Event>, p: Packet)
    ensures p in Arrivals(events) <==>
            exists i :: 0 <= i < |events| && Brings(events[i], p) && forall k :: i < k < |events| ==> !Drops(events[k])
  {
    if events != [] {
      var n := |events| - 1;
      var front, last := events[..n], events[n];
      ArrivalsMean(front, p);
      OneMoreArrival(Arrivals(front), last, p);
      hide Brings, Drops, ArrivalsAfter;
      if Brings(last, p) {
        assert Brings(events[n], p);
      } else if p in Arrivals(events) {
        var i :| 0 <= i < n && Brings(front[i], p) && forall k :: i < k < n ==> !Drops(front[k]);
        assert Brings(events[i], p) && forall k :: i < k < n ==> events[k] == front[k];
      }
      if i :| 0 <= i < |events| && Brings(events[i], p) && forall k :: i < k < |events| ==> !Drops(events[k]) {
        if i < n {
          assert Brings(front[i], p) && forall k :: i < k < n ==> front[k] == events[k];
          assert !Drops(last);
        }
      }
    }
  }

  /** What the user and the runs have set. */
  datatype Controls = Controls(selected: string, active: string, filter: Filter, order: Order)

  function ControlsAfter(c: Controls, e: Event): Controls {
    match e
    case FilterSet(f) => c.(filter := f)
    case HeaderClicked(key) =>
      c.(order := if c.order == By(key, false) then By(key, true)
                  else if c.order == By(key, true) then Insertion else By(key, false))
    case Cleared => c.(selected := "", active := "")
    case RunSelected(run) => c.(selected := run)
    case RunStarted(run) => c.(selected := run, active := run)
    case RunEnded(run) => c.(active := if c.active == run then "" else c.active)
    case _ => c
  }

  function ControlsAfterAll(c: Controls, events: seq<Event>): Controls {
    if events == [] then c else ControlsAfter(ControlsAfterAll(c, events[..|events| - 1]), events[|events| - 1])
  }

  /** The schemas that a fetched config brings, or nothing when it could not be had. */
  function Brought(config: Fetched, from: SchemaRules.Origin): seq<SchemaRules.Rule> {
    if config.HttpError? then [] else SchemaRules.TakeIn(config.schemas, from)
  }

  /** What the effective rules are derived from, after a change. */
  function Changed(inputs: SchemaRules.Inputs, change: RuleEvent): SchemaRules.Inputs {
    match change
    case ServerItemToggled(kind, id) => SchemaRules.Toggle(inputs, SchemaRules.Key(kind, id))
    case ServerAnswered(config) => SchemaRules.LoadServer(inputs, Brought(config, SchemaRules.FromServer))
    case UrlAnswered(url, config) =>
      var rules := Brought(config, SchemaRules.FromUrl(url));
      if config.Document? && config.version == 1 && rules != [] then SchemaRules.LoadUrl(inputs, url, rules) else inputs
    case UrlRemoved(url) => SchemaRules.RemoveUrl(inputs, url)
    case EditSaved(id, edit) => SchemaRules.SaveEdit(inputs, id, edit)
    case RuleAdded(newId, edit) => SchemaRules.AddLocal(inputs, newId, edit)
    case RuleReset(id) => SchemaRules.Reset(inputs, id)
    case RuleDeleted(id) => SchemaRules.DeleteLocal(inputs, id)
  }

  function InputsAfter(inputs: SchemaRules.Inputs, e: Event): SchemaRules.Inputs {
    if e.RulesChanged? then Changed(inputs, e.change) else inputs
  }

  function InputsAfterAll(inputs: SchemaRules.Inputs, events: seq<Event>): SchemaRules.Inputs {
    if events == [] then inputs
    else InputsAfter(InputsAfterAll(inputs, events[..|events| - 1]), events[|events| - 1])
  }

  /** The user edits or resets this very rule, or switches it off or on. */
  predicate EditsRule(e: Event, id: string) {
    e.RulesChanged? &&
    match e.change
    case EditSaved(edited, _) => edited == id
    case RuleReset(reset) => reset == id
    case ServerItemToggled(kind, item) => SchemaRules.Key(kind, item) == SchemaRules.Key("schema", id)
    case _ => false
  }

  lemma {:induction false} EventsKeepEdit(inputs: SchemaRules.Inputs, events: seq<Event>, id: string)
    requires forall i :: 0 <= i < |events| ==> !EditsRule(events[i], id)
    ensures SchemaRules.SameEdit(inputs, InputsAfterAll(inputs, events), id)
  {
    if events != [] {
      EventsKeepEdit(inputs, events[..|events| - 1], id);
      assert !EditsRule(events[|events| - 1], id);
    }
  }

  /**
   * Whatever else happens to a page, an edit of a rule survives until the user edits or resets that rule, and a
   * disabled rule stays out until the user switches it on.
   */
  lemma EditsSurviveTheRun(inputs: SchemaRules.Inputs, events: seq<Event>, id: string)
    requires forall i :: 0 <= i < |events| ==> !EditsRule(events[i], id)
    ensures SchemaRules.EditShows(inputs, InputsAfterAll(inputs, events), id)
  {
    EventsKeepEdit(inputs, events, id);
    SchemaRules.SameEditShows(inputs, InputsAfterAll(inputs, events), id);
  }

  /**
   * Whatever happens to a page, in any order: it holds the packets that came in since everything was last dropped, the
   * first of each id, in the order in which they came; every packet held is remembered correctly under the rules now in
   * force; the ids seen are those of the packets; and the table is a full rebuild's whenever the last run change or
   * history answer has been followed by something that rebuilds.
   */
  method RunPage(b: Browser, filter: Filter, inputs: SchemaRules.Inputs, events: seq<Event>) returns (app: App)
    ensures app.Valid()
    ensures HeldInOrder(Arrivals(events), app.packets)
    ensures forall i, p | 0 <= i < |events| && Brings(events[i], p)
                          && (forall k :: i < k < |events| ==> !Drops(events[k])) ::
              p.id in app.seen
    ensures Settled(events) ==> app.ViewOk()
    ensures app.inputs == InputsAfterAll(inputs, events) && SchemaRules.InForce(app.schemaRules, app.inputs)
    ensures app.Settings() == ControlsAfterAll(Controls("", "", filter, Insertion), events)
  {
    app := new App(b, filter, inputs);
    for i := 0 to |events|
      invariant fresh(app) && app.Valid()
      invariant HeldInOrder(Arrivals(events[..i]), app.packets)
      invariant Settled(events[..i]) ==> app.ViewOk()
      invariant app.inputs == InputsAfterAll(inputs, events[..i])
      invariant app.Settings() == ControlsAfterAll(Controls("", "", filter, Insertion), events[..i])
    {
      hide Settles, InputsAfter, ArrivalsAfter, ControlsAfter, HeldInOrder;
      assert events[..i + 1][..i] == events[..i];
      app.Handle(events[i], Arrivals(events[..i]));
      SettlesIsMonotone(events[i]);
    }
    assert events[..|events|] == events;
    ArrivedAreSeen(events, app.packets, app.seen);
    SchemaRules.EffectiveInForce(app.inputs);
  }

  lemma ArrivedAreSeen(events: seq<Event>, packets: seq<Packet>, seen: set<Id>)
    requires HeldInOrder(Arrivals(events), packets) && SeenOk(packets, seen)
    ensures forall i, p | 0 <= i < |events| && Brings(events[i], p)
                          && (forall k :: i < k < |events| ==> !Drops(events[k])) ::
              p.id in seen
  {
    hide HeldInOrder, SeenOk, Arrivals;
    HeldMeans(Arrivals(events), packets);
    forall i, p | 0 <= i < |events| && Brings(events[i], p) && (forall k :: i < k < |events| ==> !Drops(events[k]))
      ensures p.id in seen
    {
      ArrivalsMean(events, p);
      var a :| 0 <= a < |Arrivals(events)| && Arrivals(events)[a] == p;
      assert ArrivedBefore(packets, |packets|, Arrivals(events)[a].id);
      SeenIsHeld(packets, seen, p.id);
    }
  }

  lemma SettlesIsMonotone(e: Event)
    ensures Settles(false, e) ==> Settles(true, e)
  {
  }

  class App {
    const b: Browser
    var packets: seq<Packet>
    var seen: set<Id>
    var selected: string
    var active: string
    var filter: Filter
    var order: Order
    var inputs: SchemaRules.Inputs
    var schemaRules: seq<SchemaRules.Rule>
    var version: nat
    var cache: map<Id, CacheEntry>
    var rows: seq<Row>
    var rebuildScheduled: bool

    ghost predicate Valid()
      reads this
    {
      && SeenOk(packets, seen)
      && schemaRules == SchemaRules.Effective(inputs)
      && cache.Keys <= seen
      && EntriesOk(b, schemaRules, version, packets, cache)
    }

    ghost function Rebuilt(): seq<Row>
      reads this
    {
      Table(b, schemaRules, selected, filter, order, packets)
    }

    /** The table is what a full rebuild would show, or a rebuild is on its way. */
    ghost predicate ViewOk()
      reads this
    {
      rebuildScheduled || rows == Rebuilt()
    }

    /** The page as it starts, with the filter and the inputs it finds stored. */
    constructor (b: Browser, filter: Filter, inputs: SchemaRules.Inputs)
      ensures Valid() && ViewOk() && this.b == b && packets == [] && this.inputs == inputs
      ensures rows == [] && !rebuildScheduled
      ensures Settings() == Controls("", "", filter, Insertion)
    {
      this.b := b;
      packets, seen, selected, active := [], {}, "", "";
      this.filter, order, this.inputs := filter, Insertion, inputs;
      schemaRules, version, cache := SchemaRules.Effective(inputs), 1, map[];
      rows, rebuildScheduled := [], false;
    }

    function Settings(): Controls
      reads this
    {
      Controls(selected, active, filter, order)
    }

    /** The run that a packet without one is given when it arrives. */
    function CurrentRun(): string
      reads this`active, this`selected
    {
      if active != "" then active else selected
    }

    method GetPacketCacheEntry(id: Id) returns (e: CacheEntry)
      ensures e == if id in cache then cache[id] else CacheEntry(-1, None, map[])
    {
      e := if id in cache then cache[id] else CacheEntry(-1, None, map[]);
    }

    /** The loop over the rules in force: results rule by rule, and the findings with a path, body by body. */
    method ComputeValidation(p: Packet) returns (v: Validated)
      ensures v == Validate(b, schemaRules, p)
    {
      hide Check, AppliesTo, FindingsOn, BodyOf;
      var results: seq<RuleResult>, requestMarks: seq<Finding>, responseMarks: seq<Finding> := [], [], [];
      NoFindings();
      for i := 0 to |schemaRules|
        invariant results == Validation(b, schemaRules[..i], p)
        invariant requestMarks == FindingsOn(results, SchemaRules.Request)
        invariant responseMarks == FindingsOn(results, SchemaRules.Response)
      {
        var rule := schemaRules[i];
        assert schemaRules[..i + 1][..i] == schemaRules[..i];
        if !AppliesTo(b, rule, p) {
          assert results + [] == results;
          continue;
        }
        var errors := Check(b, BodyOf(p, rule.target), rule.schema);
        EveryFindingHasAPath(b, BodyOf(p, rule.target), rule.schema);
        OneMoreResult(results, RuleResult(rule.target, rule.pattern, errors), SchemaRules.Request);
        OneMoreResult(results, RuleResult(rule.target, rule.pattern, errors), SchemaRules.Response);
        results := results + [RuleResult(rule.target, rule.pattern, errors)];
        if rule.target == SchemaRules.Request {
          requestMarks := requestMarks + WithPath(errors);
          assert responseMarks + [] == responseMarks;
        } else {
          responseMarks := responseMarks + WithPath(errors);
          assert requestMarks + [] == requestMarks;
        }
      }
      assert schemaRules[..|schemaRules|] == schemaRules;
      v := Validated(results, requestMarks, responseMarks);
    }

    /** Whatever has happened before, a listed packet's validation is the one computed from the rules now in force. */
    method ValidatePacket(p: Packet) returns (v: Validated)
      requires Valid() && p in packets
      modifies this`cache
      ensures Valid()
      ensures v == Validate(b, SchemaRules.Effective(inputs), p)
      ensures p.id in cache && cache[p.id].validation == Some(v) && cache[p.id].rulesVersion == version
    {
      var entry := GetPacketCacheEntry(p.id);
      IdIsSeen(packets, seen, p);
      if p.id in cache {
        EntryOf(b, schemaRules, version, packets, cache, p);
      }
      if entry.validation.Some? && entry.rulesVersion == version {
        return entry.validation.value;
      }
      v := ComputeValidation(p);
      var updated := entry.(validation := Some(v), rulesVersion := version);
      assert EntryOk(b, schemaRules, version, updated, p);
      EntryUpdated(b, schemaRules, version, packets, seen, cache, p, updated);
      cache := cache[p.id := updated];
    }

    /** A listed packet's language is the one detected from its own body. */
    method DetectLangCached(p: Packet, target: SchemaRules.Target) returns (lang: Language)
      requires Valid() && p in packets
      modifies this`cache
      ensures Valid()
      ensures lang == DetectLang(b, BodyOf(p, target))
      ensures p.id in cache && target in cache[p.id].lang && cache[p.id].lang[target] == lang
    {
      var entry := GetPacketCacheEntry(p.id);
      IdIsSeen(packets, seen, p);
      if p.id in cache {
        EntryOf(b, schemaRules, version, packets, cache, p);
      }
      if target in entry.lang {
        return entry.lang[target];
      }
      lang := DetectLang(b, BodyOf(p, target));
      var updated := entry.(lang := entry.lang[target := lang]);
      assert EntryOk(b, schemaRules, version, updated, p);
      EntryUpdated(b, schemaRules, version, packets, seen, cache, p, updated);
      cache := cache[p.id := updated];
    }

    /** The detail pane of a listed packet shows its validation, and its bodies, some of them as text. */
    method Open(p: Packet, asText: set<SchemaRules.Target>)
      requires Valid()
      modifies this`cache
      ensures Valid()
    {
      if p in packets {
        var _ := ValidatePacket(p);
        if SchemaRules.Request in asText && p.requestBody != "" {
          var _ := DetectLangCached(p, SchemaRules.Request);
        }
        if SchemaRules.Response in asText && p.responseBody != "" {
          var _ := DetectLangCached(p, SchemaRules.Response);
        }
      }
    }

    method AppendRow(p: Packet)
      requires Valid() && p in packets
      modifies this`cache, this`rows
      ensures Valid()
      ensures rows == old(rows) + [RowOf(b, schemaRules, p, |old(rows)| + 1)]
    {
      var number := |rows| + 1;
      var validation := ValidatePacket(p);
      rows := rows + [Row(p.id, number, MarkOf(validation.results))];
    }

    method RebuildList()
      requires Valid()
      modifies this`cache, this`rows
      ensures Valid() && rows == Rebuilt()
    {
      hide SeenOk, EntriesOk, Shown, Ordered, RowOf, SchemaRules.Effective;
      rows := [];
      var shown := Ordered(b, order, Shown(b, selected, filter, packets));
      ShownAreListed(b, selected, filter, packets);
      OrderedAreListed(b, order, Shown(b, selected, filter, packets));
      for i := 0 to |shown|
        invariant Valid()
        invariant rows == Rows(b, schemaRules, shown[..i])
      {
        assert shown[i] in shown;
        AppendRow(shown[i]);
        assert shown[..i + 1][..i] == shown[..i];
      }
      assert shown[..|shown|] == shown;
    }

    /** A packet from the live stream or from history; an id already held is ignored. */
    method AddPacket(arrived: Packet)
      requires Valid()
      modifies this`packets, this`seen, this`cache, this`rows, this`rebuildScheduled
      ensures Valid()
      ensures old(ViewOk()) ==> ViewOk()
      ensures order == Insertion ==> rebuildScheduled == old(rebuildScheduled)
      ensures order == Insertion && old(rows == Rebuilt()) ==> rows == Rebuilt()
      ensures (packets, seen) == Received(old(packets), old(seen), arrived, CurrentRun())
      ensures arrived.id in old(seen) ==> packets == old(packets) && seen == old(seen) && rows == old(rows)
      ensures arrived.id !in old(seen) ==>
                && seen == old(seen) + {arrived.id}
                && |packets| == |old(packets)| + 1 && packets[..|old(packets)|] == old(packets)
                && packets[|old(packets)|] == arrived.(runId :=
                     if arrived.runId != "" then arrived.runId else if active != "" then active else selected)
    {
      hide Table, SeenOk, EntriesOk, MatchesFilter, Stamp, SchemaRules.Effective;
      var packet := Stamp(arrived, CurrentRun());
      StampMeans(arrived, CurrentRun());
      if packet.id in seen {
        return;
      }
      ghost var before := packets;
      PacketAdded(b, schemaRules, version, packets, seen, cache, packet);
      seen := seen + {packet.id};
      packets := packets + [packet];
      if selected != "" && packet.runId != selected {
        HiddenPacketChangesNothing(b, schemaRules, selected, filter, order, before, packet);
        return;
      }
      if order != Insertion {
        rebuildScheduled := true;
        return;
      }
      if MatchesFilter(b, filter, packet) {
        AppendIsRebuild(b, schemaRules, selected, filter, before, packet);
        AppendRow(packet);
      } else {
        HiddenPacketChangesNothing(b, schemaRules, selected, filter, order, before, packet);
      }
    }

    /** The animation frame that a scheduled rebuild waits for. */
    method FrameFires()
      requires Valid()
      modifies this`cache, this`rows, this`rebuildScheduled
      ensures Valid() && !rebuildScheduled
      ensures old(ViewOk()) ==> rows == Rebuilt()
    {
      if rebuildScheduled {
        rebuildScheduled := false;
        RebuildList();
      }
    }

    method ChangeFilter(f: Filter)
      requires Valid()
      modifies this`filter, this`cache, this`rows
      ensures Valid() && rows == Rebuilt() && filter == f
    {
      filter := f;
      RebuildList();
    }

    /** Ascending, then descending, then off. */
    method ToggleSort(key: SortKey)
      requires Valid()
      modifies this`order, this`cache, this`rows
      ensures Valid() && rows == Rebuilt()
      ensures order == if old(order) == By(key, false) then By(key, true)
                       else if old(order) == By(key, true) then Insertion else By(key, false)
    {
      if order == Insertion || order.key != key {
        order := By(key, false);
      } else if !order.descending {
        order := By(key, true);
      } else {
        order := Insertion;
      }
      RebuildList();
    }

    /** Recomputes the rules in force after the inputs changed, and repaints. */
    method UseInputs(changed: SchemaRules.Inputs)
      requires Valid()
      modifies this`inputs, this`schemaRules, this`version, this`cache, this`rows
      ensures Valid() && rows == Rebuilt() && inputs == changed
      ensures SchemaRules.InForce(schemaRules, inputs)
    {
      hide SeenOk, EntriesOk, Table, SchemaRules.InForce, SchemaRules.Effective;
      SchemaRules.EffectiveInForce(changed);
      RulesReplaced(b, schemaRules, SchemaRules.Effective(changed), version, packets, cache);
      inputs := changed;
      schemaRules := SchemaRules.Effective(inputs);
      version := version + 1;
      RebuildList();
    }

    /** A rule file from a URL; a failure, another version, or a file without a usable rule changes nothing. */
    method LoadSchemaRulesFromUrl(url: string, config: Fetched) returns (ok: bool)
      requires Valid()
      modifies this`inputs, this`schemaRules, this`version, this`cache, this`rows
      ensures Valid()
      ensures ok <==> config.Document? && config.version == 1
                      && Brought(config, SchemaRules.FromUrl(url)) != []
      ensures ok ==> rows == Rebuilt()
                     && inputs == SchemaRules.LoadUrl(old(inputs), url, Brought(config, SchemaRules.FromUrl(url)))
      ensures !ok ==> inputs == old(inputs) && schemaRules == old(schemaRules)
      ensures !ok ==> rows == old(rows) && cache == old(cache)
    {
      if config.HttpError? || config.version != 1 {
        return false;
      }
      var rules := Brought(config, SchemaRules.FromUrl(url));
      if rules == [] {
        return false;
      }
      UseInputs(SchemaRules.LoadUrl(inputs, url, rules));
      return true;
    }

    method Clear()
      requires Valid()
      modifies this`packets, this`seen, this`selected, this`active, this`cache, this`rows
      ensures Valid() && ViewOk() && packets == [] && seen == {} && cache == map[] && rows == []
      ensures selected == active == ""
    {
      packets, seen, cache := [], {}, map[];
      selected, active := "", "";
      rows := [];
    }

    /** Selecting a run empties the table at once; the packets follow when they have been fetched. */
    method SelectRun(run: string)
      requires Valid()
      modifies this`selected, this`rows
      ensures Valid() && selected == run && rows == []
    {
      selected := run;
      rows := [];
    }

    /** A run just started becomes the active and selected one, and takes the packets that have no run. */
    method AfterStart(run: string)
      requires Valid()
      modifies this`packets, this`selected, this`active
      ensures Valid() && selected == active == run && packets == StampAll(old(packets), run)
      ensures |packets| == |old(packets)|
      ensures forall i :: 0 <= i < |packets| ==>
                packets[i] == if old(packets)[i].runId == "" then old(packets)[i].(runId := run) else old(packets)[i]
    {
      StampedInPlace(packets, run);
      var stamped := StampAll(packets, run);
      StampedSeen(packets, seen, run);
      StampedEntries(b, schemaRules, version, packets, cache, run);
      active, selected := run, run;
      packets := stamped;
    }

    /** A run that has ended is no longer the one that packets without a run belong to. */
    method ForgetActive(run: string)
      requires Valid()
      modifies this`active
      ensures Valid() && active == (if old(active) == run then "" else old(active))
    {
      if active == run {
        active := "";
      }
    }

    /** History has been answered: everything held is dropped, but the table stays until the answer has been read. */
    method HistoryAnswered()
      requires Valid()
      modifies this`packets, this`seen, this`cache
      ensures Valid() && packets == [] && seen == {} && cache == map[]
    {
      packets, seen, cache := [], {}, map[];
    }

    /** The answer has been read: its packets are added one by one, and the table is rebuilt, from any state. */
    method HistoryRead(recent: seq<Packet>, ghost arrivals: seq<Packet>)
      requires Valid() && HeldInOrder(arrivals, packets)
      modifies this`packets, this`seen, this`cache, this`rows, this`rebuildScheduled
      ensures Valid() && rows == Rebuilt()
      ensures (packets, seen) == ReceivedAll(old(packets), old(seen), recent, CurrentRun())
      ensures HeldInOrder(arrivals + recent, packets)
    {
      ArrivalsHeld(arrivals, packets, seen, recent, CurrentRun());
      hide SeenOk, EntriesOk, Table, Received, CurrentRun, HeldInOrder, SchemaRules.Effective;
      for i := 0 to |recent|
        invariant Valid()
        invariant (packets, seen) == ReceivedAll(old(packets), old(seen), recent[..i], CurrentRun())
      {
        assert recent[..i + 1][..i] == recent[..i];
        AddPacket(recent[i]);
      }
      assert recent[..|recent|] == recent;
      RebuildList();
    }

    /**
     * The handlers of the rule panel, and the answers: each changes its inputs and no others, and the page follows,
     * down to the table.  Only a rule file from a URL can be turned away.
     */
    method ChangeRules(change: RuleEvent)
      requires Valid()
      modifies this`inputs, this`schemaRules, this`version, this`cache, this`rows
      ensures Valid() && inputs == Changed(old(inputs), change)
      ensures !change.UrlAnswered? ==> rows == Rebuilt()
      ensures old(ViewOk()) ==> ViewOk()
    {
      hide Table, Valid, Brought;
      if change.UrlAnswered? {
        var _ := LoadSchemaRulesFromUrl(change.url, change.config);
      } else {
        UseInputs(Changed(inputs, change));
      }
    }

    /**
     * Every event keeps the page coherent, and the table right if it was or is set right by it; and the page goes on
     * holding what arrived.
     */
    method Handle(e: Event, ghost arrivals: seq<Packet>)
      requires Valid() && HeldInOrder(arrivals, packets)
      modifies this
      ensures Valid() && HeldInOrder(ArrivalsAfter(arrivals, e), packets)
      ensures Settles(old(ViewOk()), e) ==> ViewOk()
      ensures inputs == InputsAfter(old(inputs), e)
      ensures Settings() == ControlsAfter(old(Settings()), e)
    {
      hide Table, Valid, Changed, Received, ReceivedAll, CurrentRun, HeldInOrder, StampAll;
      match e
      case Arrived(p) =>
        HeldAfterArrival(arrivals, p);
        AddPacket(p);
      case Frame => FrameFires();
      case Opened(p, asText) => Open(p, asText);
      case FilterSet(f) => ChangeFilter(f);
      case HeaderClicked(key) => ToggleSort(key);
      case RulesChanged(change) => ChangeRules(change);
      case Cleared =>
        NothingHeld();
        Clear();
      case RunSelected(run) => SelectRun(run);
      case RunStarted(run) =>
        StampedHeld(arrivals, packets, run);
        AfterStart(run);
      case RunEnded(run) => ForgetActive(run);
      case LanguageSet => RebuildList();
      case HistoryAnswer =>
        NothingHeld();
        HistoryAnswered();
      case HistoryContents(recent) => HistoryRead(recent, arrivals);
    }

    lemma HeldAfterArrival(arrivals: seq<Packet>, p: Packet)
      requires Valid() && HeldInOrder(arrivals, packets)
      ensures HeldInOrder(arrivals + [p], Received(packets, seen, p, CurrentRun()).0)
    {
      ArrivalHeld(arrivals, packets, seen, p, CurrentRun());
    }
  }
}
