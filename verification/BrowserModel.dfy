/**
 * What the browser page computes from its packets and rules: validations, languages, the table of a full rebuild,
 * and what it means for the things it remembers to be right.
 */
module BrowserModel {
  import opened Common
  import opened Json
  import opened SchemaValidator
  import SchemaRules
  import RemoteConfig
  import JsonPath
  import StableSort
  import PrettyXml

  type Id = string

  /** A packet in the browser; an empty string stands for a missing value. */
  datatype Packet = Packet(
    id: Id, runId: string, kind: string, method_: string, url: string, title: string,
    requestBody: string, responseBody: string, status: nat, success: bool, elapsedMs: nat, timestamp: string)

  datatype SortKey = ByTime | ByType | ByMethod | ByUrl | ByStatus | ByLatency | BySize

  datatype Filter = Filter(
    text: string, searchBodies: bool, kind: string, method_: string,
    statusClasses: set<nat>, failedOnly: bool, minLatency: nat)

  datatype Mark = Unchecked | AllPassed | SomeFailed

  /** A line of the table: the packet, its number, and its validation mark. */
  datatype Row = Row(id: Id, number: nat, mark: Mark)

  datatype Finding = EmptyBody | NotJson | Violation(error: Error)

  datatype RuleResult = RuleResult(target: SchemaRules.Target, pattern: string, findings: seq<Finding>)

  datatype Language = NoLanguage | AsJson(code: string) | AsXml(code: string)

  /** A packet's validation: one result for every rule that applies, and the findings to mark in each body. */
  datatype Validated = Validated(results: seq<RuleResult>, requestMarks: seq<Finding>, responseMarks: seq<Finding>)

  datatype CacheEntry = CacheEntry(
    rulesVersion: int, validation: Option<Validated>, lang: map<SchemaRules.Target, Language>)

  /** What the page leaves to the browser: URL matching, JSON, letter case, and the order of dates and words. */
  datatype Browser = Browser(
    matchesUrl: (string, string) -> bool, parseJson: string -> Option<Json>, stringify: Json -> string,
    lower: string -> string, contains: (string, string) -> bool,
    dateRank: string -> int, wordRank: string -> real, js: Coercions)

  // ---- what is computed from a packet ----

  function BodyOf(p: Packet, target: SchemaRules.Target): string {
    if target == SchemaRules.Request then p.requestBody else p.responseBody
  }

  function Violations(errors: seq<Error>): seq<Finding> {
    if errors == [] then [] else Violations(errors[..|errors| - 1]) + [Violation(errors[|errors| - 1])]
  }

  function Check(b: Browser, body: string, schema: Json): seq<Finding> {
    if body == "" then [EmptyBody]
    else
      match b.parseJson(body)
      case None => [NotJson]
      case Some(value) => Violations(ValidateValue(b.js, value, schema, "$"))
  }

  predicate AppliesTo(b: Browser, r: SchemaRules.Rule, p: Packet) {
    b.matchesUrl(if p.url != "" then p.url else p.title, r.pattern)
  }

  /** One result for every rule whose pattern matches the packet's URL. */
  function Validation(b: Browser, rules: seq<SchemaRules.Rule>, p: Packet): seq<RuleResult> {
    if rules == [] then []
    else
      var r := rules[|rules| - 1];
      Validation(b, rules[..|rules| - 1], p)
      + (if AppliesTo(b, r, p) then [RuleResult(r.target, r.pattern, Check(b, BodyOf(p, r.target), r.schema))] else [])
  }

  /** All the findings about one of the two bodies, rule by rule. */
  function FindingsOn(results: seq<RuleResult>, target: SchemaRules.Target): seq<Finding> {
    if results == [] then []
    else
      var r := results[|results| - 1];
      FindingsOn(results[..|results| - 1], target) + (if r.target == target then r.findings else [])
  }

  function Validate(b: Browser, rules: seq<SchemaRules.Rule>, p: Packet): Validated {
    var results := Validation(b, rules, p);
    Validated(results, FindingsOn(results, SchemaRules.Request), FindingsOn(results, SchemaRules.Response))
  }

  /** Where a finding lies. */
  function PathOf(f: Finding): string {
    if f.Violation? then f.error.path else "$"
  }

  function WithPath(findings: seq<Finding>): seq<Finding> {
    if findings == [] then []
    else
      var f := findings[|findings| - 1];
      WithPath(findings[..|findings| - 1]) + (if PathOf(f) != "" then [f] else [])
  }

  lemma {:induction false} ViolationsHavePaths(errors: seq<Error>)
    requires forall e | e in errors :: e.path != ""
    ensures WithPath(Violations(errors)) == Violations(errors)
    ensures forall f | f in Violations(errors) :: f.Violation? && f.error.path != ""
  {
    if errors != [] {
      var front := Violations(errors[..|errors| - 1]);
      ViolationsHavePaths(errors[..|errors| - 1]);
      assert (front + [Violation(errors[|errors| - 1])])[..|front|] == front;
    }
  }

  /** Every finding of a body can be marked: none is without a path. */
  lemma EveryFindingHasAPath(b: Browser, body: string, schema: Json)
    ensures WithPath(Check(b, body, schema)) == Check(b, body, schema)
    ensures forall f | f in Check(b, body, schema) && f.Violation? :: f.error.path != ""
  {
    assert WithPath([EmptyBody]) == [EmptyBody] && WithPath([NotJson]) == [NotJson];
    if body != "" && b.parseJson(body).Some? {
      var errors := ValidateValue(b.js, b.parseJson(body).value, schema, "$");
      forall e | e in errors
        ensures e.path != ""
      {
        var segs := JsonPath.EveryErrorIsLocatable(b.js, b.parseJson(body).value, schema, e);
      }
      ViolationsHavePaths(errors);
      hide Violations, WithPath, ValidateValue, PathOf;
    }
  }

  lemma NoFindings()
    ensures FindingsOn([], SchemaRules.Request) == [] == FindingsOn([], SchemaRules.Response)
  {
  }

  lemma OneMoreResult(results: seq<RuleResult>, r: RuleResult, target: SchemaRules.Target)
    ensures FindingsOn(results + [r], target) ==
            FindingsOn(results, target) + (if r.target == target then r.findings else [])
  {
    assert (results + [r])[..|results|] == results;
  }

  predicate AnyFailed(results: seq<RuleResult>) {
    exists i :: 0 <= i < |results| && results[i].findings != []
  }

  function MarkOf(results: seq<RuleResult>): Mark {
    if results == [] then Unchecked else if AnyFailed(results) then SomeFailed else AllPassed
  }

  const DETECT_LANG_MAX_CHARS := 200 * 1024

  function DetectLang(b: Browser, body: string): Language {
    var t := PrettyXml.Strip(body);
    if JsLength(body) > DETECT_LANG_MAX_CHARS then NoLanguage
    else if t != "" && (t[0] == '{' || t[0] == '[') then
      match b.parseJson(body)
      case Some(value) => AsJson(b.stringify(value))
      case None => NoLanguage
    else if t != "" && t[0] == '<' then AsXml(PrettyXml.Pretty(body))
    else NoLanguage
  }

  /** Facets combine with AND across groups; within the status group selected classes are alternatives. */
  predicate MatchesFilter(b: Browser, f: Filter, p: Packet) {
    && (f.kind == "" || p.kind == f.kind)
    && (f.method_ == "" || p.method_ == f.method_)
    && (f.failedOnly ==> !p.success)
    && (f.statusClasses == {} || p.status / 100 in f.statusClasses)
    && p.elapsedMs >= f.minLatency
    && (f.text == "" || b.contains(b.lower(Haystack(f, p)), b.lower(f.text)))
  }

  function Haystack(f: Filter, p: Packet): string {
    p.url + " " + p.title + " " + p.method_
    + (if f.searchBodies then " " + p.requestBody + " " + p.responseBody else "")
  }

  // ---- the table a full rebuild shows ----

  predicate IsShown(b: Browser, selected: string, f: Filter, p: Packet) {
    (selected == "" || p.runId == selected) && MatchesFilter(b, f, p)
  }

  /** The packets of the selected run that match the filter, in the order they came. */
  function Shown(b: Browser, selected: string, f: Filter, packets: seq<Packet>): seq<Packet> {
    if packets == [] then []
    else
      var p := packets[|packets| - 1];
      Shown(b, selected, f, packets[..|packets| - 1])
      + (if IsShown(b, selected, f, p) then [p] else [])
  }

  /** What a column is sorted by; any order of all words, or of all dates, can be given by ranks. */
  function Rank(b: Browser, key: SortKey, p: Packet): real {
    match key
    case ByTime => b.dateRank(p.timestamp) as real
    case ByType => b.wordRank(p.kind)
    case ByMethod => b.wordRank(p.method_)
    case ByUrl => b.wordRank(if p.url != "" then p.url else p.title)
    case ByStatus => p.status as real
    case ByLatency => p.elapsedMs as real
    case BySize => JsLength(p.responseBody) as real
  }

  datatype Order = Insertion | By(key: SortKey, descending: bool)

  function WithRanks(b: Browser, key: SortKey, descending: bool, ps: seq<Packet>): seq<StableSort.Keyed<Packet>> {
    if ps == [] then []
    else
      var p := ps[|ps| - 1];
      WithRanks(b, key, descending, ps[..|ps| - 1])
      + [StableSort.Keyed(if descending then -Rank(b, key, p) else Rank(b, key, p), p)]
  }

  function Items(ks: seq<StableSort.Keyed<Packet>>): seq<Packet> {
    if ks == [] then [] else Items(ks[..|ks| - 1]) + [ks[|ks| - 1].item]
  }

  /** Sorting is stable: packets of equal rank stay in the order they came, in either direction. */
  function Ordered(b: Browser, order: Order, ps: seq<Packet>): seq<Packet> {
    match order
    case Insertion => ps
    case By(key, descending) => Items(StableSort.Sort(WithRanks(b, key, descending, ps)))
  }

  function RowOf(b: Browser, rules: seq<SchemaRules.Rule>, p: Packet, number: nat): Row {
    Row(p.id, number, MarkOf(Validation(b, rules, p)))
  }

  function Rows(b: Browser, rules: seq<SchemaRules.Rule>, ps: seq<Packet>): (rows: seq<Row>)
    ensures |rows| == |ps|
  {
    if ps == [] then []
    else Rows(b, rules, ps[..|ps| - 1]) + [RowOf(b, rules, ps[|ps| - 1], |ps|)]
  }

  function Table(
      b: Browser, rules: seq<SchemaRules.Rule>, selected: string, f: Filter, order: Order, packets: seq<Packet>)
    : seq<Row>
  {
    Rows(b, rules, Ordered(b, order, Shown(b, selected, f, packets)))
  }

  lemma ShownOneMore(b: Browser, selected: string, f: Filter, packets: seq<Packet>, p: Packet)
    ensures Shown(b, selected, f, packets + [p]) ==
            Shown(b, selected, f, packets)
            + (if IsShown(b, selected, f, p) then [p] else [])
  {
    assert (packets + [p])[..|packets|] == packets;
  }

  /**
   * Without a sort, appending one row for a packet that is visible and matches gives the table that a full rebuild
   * with the new packet gives.
   */
  lemma AppendIsRebuild(
      b: Browser, rules: seq<SchemaRules.Rule>, selected: string, f: Filter, packets: seq<Packet>, p: Packet)
    requires IsShown(b, selected, f, p)
    ensures var before := Table(b, rules, selected, f, Insertion, packets);
            Table(b, rules, selected, f, Insertion, packets + [p]) == before + [RowOf(b, rules, p, |before| + 1)]
  {
    ShownOneMore(b, selected, f, packets, p);
    var shown := Shown(b, selected, f, packets);
    assert (shown + [p])[..|shown|] == shown;
  }

  /** A packet of another run than the selected one, or one the filter rejects, changes the table of no order. */
  lemma HiddenPacketChangesNothing(
      b: Browser, rules: seq<SchemaRules.Rule>, selected: string, f: Filter, order: Order, packets: seq<Packet>,
      p: Packet)
    requires !IsShown(b, selected, f, p)
    ensures Table(b, rules, selected, f, order, packets + [p]) == Table(b, rules, selected, f, order, packets)
  {
    ShownOneMore(b, selected, f, packets, p);
    assert Shown(b, selected, f, packets) + [] == Shown(b, selected, f, packets);
  }

  // ---- what the page remembers ----

  /** The ids seen are exactly those of the packets held, and no two packets share one. */
  ghost predicate SeenOk(packets: seq<Packet>, seen: set<Id>) {
    if packets == [] then seen == {}
    else
      var p := packets[|packets| - 1];
      p.id in seen && SeenOk(packets[..|packets| - 1], seen - {p.id})
  }

  /** A remembered validation of the current rules, and a remembered language, are what would be computed now. */
  ghost predicate EntryOk(b: Browser, rules: seq<SchemaRules.Rule>, version: nat, e: CacheEntry, p: Packet) {
    && e.rulesVersion <= version
    && (e.validation.Some? && e.rulesVersion == version ==> e.validation.value == Validate(b, rules, p))
    && (forall t | t in e.lang :: e.lang[t] == DetectLang(b, BodyOf(p, t)))
  }

  ghost predicate EntriesOk(
      b: Browser, rules: seq<SchemaRules.Rule>, version: nat, packets: seq<Packet>, cache: map<Id, CacheEntry>)
  {
    packets != [] ==>
      var p := packets[|packets| - 1];
      && EntriesOk(b, rules, version, packets[..|packets| - 1], cache)
      && (p.id in cache ==> EntryOk(b, rules, version, cache[p.id], p))
  }

  /** What seen and packets have to do with each other, id by id. */
  lemma {:induction false} SeenIsHeld(packets: seq<Packet>, seen: set<Id>, id: Id)
    requires SeenOk(packets, seen)
    ensures id in seen <==> exists i :: 0 <= i < |packets| && packets[i].id == id
    ensures forall i, j :: 0 <= i < |packets| && 0 <= j < |packets| && packets[i].id == packets[j].id == id ==> i == j
  {
    if packets != [] {
      var front, p := packets[..|packets| - 1], packets[|packets| - 1];
      SeenIsHeld(front, seen - {p.id}, id);
      if id == p.id {
        assert packets[|packets| - 1].id == id;
      } else if id in seen {
        var i :| 0 <= i < |front| && front[i].id == id;
        assert packets[i].id == id;
      }
      forall i | 0 <= i < |packets| && packets[i].id == id
        ensures id in seen
        ensures id == p.id ==> i == |packets| - 1
      {
        if i < |front| { assert front[i].id == id; }
      }
    }
  }

  lemma {:induction false} IdIsSeen(packets: seq<Packet>, seen: set<Id>, p: Packet)
    requires SeenOk(packets, seen) && p in packets
    ensures p.id in seen
  {
    var i :| 0 <= i < |packets| && packets[i] == p;
    SeenIsHeld(packets, seen, p.id);
  }

  lemma {:induction false} EntryOf(
      b: Browser, rules: seq<SchemaRules.Rule>, version: nat, packets: seq<Packet>, cache: map<Id, CacheEntry>,
      p: Packet)
    requires EntriesOk(b, rules, version, packets, cache) && p in packets && p.id in cache
    ensures EntryOk(b, rules, version, cache[p.id], p)
  {
    if p != packets[|packets| - 1] {
      EntryOf(b, rules, version, packets[..|packets| - 1], cache, p);
    }
  }

  /** An entry for an id that none of the packets has is none of their business. */
  lemma {:induction false} OtherEntry(
      b: Browser, rules: seq<SchemaRules.Rule>, version: nat, packets: seq<Packet>, seen: set<Id>,
      cache: map<Id, CacheEntry>, id: Id, e: CacheEntry)
    requires EntriesOk(b, rules, version, packets, cache) && SeenOk(packets, seen) && id !in seen
    ensures EntriesOk(b, rules, version, packets, cache[id := e])
  {
    if packets != [] {
      OtherEntry(b, rules, version, packets[..|packets| - 1], seen - {packets[|packets| - 1].id}, cache, id, e);
    }
  }

  lemma {:induction false} EntryUpdated(
      b: Browser, rules: seq<SchemaRules.Rule>, version: nat, packets: seq<Packet>, seen: set<Id>,
      cache: map<Id, CacheEntry>, p: Packet, e: CacheEntry)
    requires SeenOk(packets, seen) && EntriesOk(b, rules, version, packets, cache)
    requires p in packets && EntryOk(b, rules, version, e, p)
    ensures EntriesOk(b, rules, version, packets, cache[p.id := e])
  {
    var front, last := packets[..|packets| - 1], packets[|packets| - 1];
    if p == last {
      OtherEntry(b, rules, version, front, seen - {p.id}, cache, p.id, e);
    } else {
      EntryUpdated(b, rules, version, front, seen - {last.id}, cache, p, e);
      IdIsSeen(front, seen - {last.id}, p);
    }
  }

  lemma {:induction false} RulesReplaced(
      b: Browser, rules: seq<SchemaRules.Rule>, newRules: seq<SchemaRules.Rule>, version: nat, packets: seq<Packet>,
      cache: map<Id, CacheEntry>)
    requires EntriesOk(b, rules, version, packets, cache)
    ensures EntriesOk(b, newRules, version + 1, packets, cache)
  {
    if packets != [] {
      RulesReplaced(b, rules, newRules, version, packets[..|packets| - 1], cache);
    }
  }

  lemma PacketAdded(
      b: Browser, rules: seq<SchemaRules.Rule>, version: nat, packets: seq<Packet>, seen: set<Id>,
      cache: map<Id, CacheEntry>, p: Packet)
    requires SeenOk(packets, seen) && p.id !in seen && cache.Keys <= seen
    requires EntriesOk(b, rules, version, packets, cache)
    ensures SeenOk(packets + [p], seen + {p.id})
    ensures EntriesOk(b, rules, version, packets + [p], cache)
  {
    assert (packets + [p])[..|packets|] == packets;
    assert seen + {p.id} - {p.id} == seen;
  }

  function Stamp(p: Packet, run: string): Packet {
    if p.runId == "" then p.(runId := run) else p
  }

  /** A packet that has a run keeps it; one that has none is given this one. */
  lemma StampMeans(p: Packet, run: string)
    ensures Stamp(p, run) == p.(runId := if p.runId != "" then p.runId else run)
  {
  }

  /** Gives a run to every packet that has none. */
  function StampAll(packets: seq<Packet>, run: string): seq<Packet> {
    if packets == [] then [] else StampAll(packets[..|packets| - 1], run) + [Stamp(packets[|packets| - 1], run)]
  }

  /** Only what a packet is checked for depends on it: its run is not part of that. */
  lemma {:induction false} RunIsNotValidated(b: Browser, rules: seq<SchemaRules.Rule>, p: Packet, run: string)
    ensures Validation(b, rules, Stamp(p, run)) == Validation(b, rules, p)
  {
    if rules != [] {
      RunIsNotValidated(b, rules[..|rules| - 1], p, run);
    }
  }

  lemma StampOneMore(packets: seq<Packet>, run: string)
    requires packets != []
    ensures var s := StampAll(packets, run);
            && |s| > 0
            && s[|s| - 1] == Stamp(packets[|packets| - 1], run)
            && s[..|s| - 1] == StampAll(packets[..|packets| - 1], run)
  {
  }

  lemma {:induction false} StampedSeen(packets: seq<Packet>, seen: set<Id>, run: string)
    requires SeenOk(packets, seen)
    ensures SeenOk(StampAll(packets, run), seen)
  {
    if packets != [] {
      StampedSeen(packets[..|packets| - 1], seen - {packets[|packets| - 1].id}, run);
      StampOneMore(packets, run);
    }
  }

  lemma StampedEntry(
      b: Browser, rules: seq<SchemaRules.Rule>, version: nat, e: CacheEntry, p: Packet, run: string)
    requires EntryOk(b, rules, version, e, p)
    ensures EntryOk(b, rules, version, e, Stamp(p, run))
  {
    hide Validation, DetectLang, FindingsOn;
    RunIsNotValidated(b, rules, p, run);
    assert forall t :: BodyOf(Stamp(p, run), t) == BodyOf(p, t);
  }

  lemma {:induction false} StampedEntries(
      b: Browser, rules: seq<SchemaRules.Rule>, version: nat, packets: seq<Packet>, cache: map<Id, CacheEntry>,
      run: string)
    requires EntriesOk(b, rules, version, packets, cache)
    ensures EntriesOk(b, rules, version, StampAll(packets, run), cache)
  {
    if packets != [] {
      var front, p := packets[..|packets| - 1], packets[|packets| - 1];
      StampOneMore(packets, run);
      assert Stamp(p, run).id == p.id;
      hide EntryOk, StampAll, Stamp;
      StampedEntries(b, rules, version, front, cache, run);
      if p.id in cache {
        StampedEntry(b, rules, version, cache[p.id], p, run);
      }
    }
  }

  /** The packets held and the ids seen after one more packet has arrived. */
  function Received(packets: seq<Packet>, seen: set<Id>, p: Packet, run: string): (seq<Packet>, set<Id>) {
    if p.id in seen then (packets, seen) else (packets + [Stamp(p, run)], seen + {p.id})
  }

  /** The packets held and the ids seen after those of a list have arrived one after the other. */
  function ReceivedAll(packets: seq<Packet>, seen: set<Id>, arrived: seq<Packet>, run: string): (seq<Packet>, set<Id>) {
    if arrived == [] then (packets, seen)
    else
      var (before, ids) := ReceivedAll(packets, seen, arrived[..|arrived| - 1], run);
      Received(before, ids, arrived[|arrived| - 1], run)
  }

  lemma {:induction false} ShownAreListed(b: Browser, selected: string, f: Filter, packets: seq<Packet>)
    ensures forall p | p in Shown(b, selected, f, packets) :: p in packets
  {
    if packets != [] {
      ShownAreListed(b, selected, f, packets[..|packets| - 1]);
    }
  }

  lemma {:induction false} WithRanksItems(b: Browser, key: SortKey, descending: bool, ps: seq<Packet>)
    ensures forall k | k in WithRanks(b, key, descending, ps) :: k.item in ps
  {
    if ps != [] {
      WithRanksItems(b, key, descending, ps[..|ps| - 1]);
    }
  }

  lemma {:induction false} ItemsMembers(ks: seq<StableSort.Keyed<Packet>>, p: Packet)
    requires p in Items(ks)
    ensures exists k :: k in ks && k.item == p
  {
    var front, last := ks[..|ks| - 1], ks[|ks| - 1];
    if p in Items(front) {
      ItemsMembers(front, p);
      var k :| k in front && k.item == p;
      assert k in ks;
    } else {
      assert last in ks && last.item == p;
    }
  }

  lemma OrderedAreListed(b: Browser, order: Order, ps: seq<Packet>)
    ensures forall p | p in Ordered(b, order, ps) :: p in ps
  {
    if order.By? {
      var ks := WithRanks(b, order.key, order.descending, ps);
      StableSort.SortMembers(ks);
      WithRanksItems(b, order.key, order.descending, ps);
      forall p | p in Ordered(b, order, ps)
        ensures p in ps
      {
        ItemsMembers(StableSort.Sort(ks), p);
      }
    }
  }
}
