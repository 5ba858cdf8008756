/** What the marks and the order of the table mean. */
module BrowserLaws {
  import opened Common
  import opened Json
  import opened SchemaValidator
  import opened SchemaViolations
  import opened BrowserModel
  import PrettyXml
  import SchemaRules
  import StableSort

  // ---- marks ----

  /** The body is there, is JSON, and satisfies the schema. */
  ghost predicate Fulfils(b: Browser, body: string, schema: Json) {
    && body != ""
    && b.parseJson(body).Some?
    && Satisfies(b.js, b.parseJson(body).value, schema)
  }

  ghost predicate Applies(b: Browser, rules: seq<SchemaRules.Rule>, p: Packet, i: nat)
    requires i < |rules|
  {
    b.matchesUrl(if p.url == "" then p.title else p.url, rules[i].pattern)
  }

  ghost predicate Breaks(b: Browser, rules: seq<SchemaRules.Rule>, p: Packet, i: nat)
    requires i < |rules|
  {
    Applies(b, rules, p, i)
    && !Fulfils(b, if rules[i].target.Request? then p.requestBody else p.responseBody, rules[i].schema)
  }

  lemma NoFindingsIff(b: Browser, body: string, schema: Json)
    ensures Check(b, body, schema) == [] <==> Fulfils(b, body, schema)
  {
    if body != "" && b.parseJson(body).Some? {
      ValidatorSound(b.js, b.parseJson(body).value, schema, "$");
    }
  }

  lemma {:induction false} ValidationMeans(b: Browser, rules: seq<SchemaRules.Rule>, p: Packet)
    ensures Validation(b, rules, p) == [] <==> forall i | 0 <= i < |rules| :: !Applies(b, rules, p, i)
    ensures AnyFailed(Validation(b, rules, p)) <==> exists i :: 0 <= i < |rules| && Breaks(b, rules, p, i)
  {
    hide Check, Fulfils;
    if rules != [] {
      var n := |rules| - 1;
      var front, r := rules[..n], rules[n];
      ValidationMeans(b, front, p);
      assert forall i | 0 <= i < n :: Applies(b, front, p, i) == Applies(b, rules, p, i);
      assert forall i | 0 <= i < n :: Breaks(b, front, p, i) == Breaks(b, rules, p, i);
      NoFindingsIff(b, BodyOf(p, r.target), r.schema);
      var before := Validation(b, front, p);
      if AppliesTo(b, r, p) {
        var last := RuleResult(r.target, r.pattern, Check(b, BodyOf(p, r.target), r.schema));
        OneMoreFailure(before, last);
        assert Applies(b, rules, p, n) && (Breaks(b, rules, p, n) <==> last.findings != []);
      } else {
        assert before + [] == before;
        assert !Applies(b, rules, p, n) && !Breaks(b, rules, p, n);
      }
    }
  }

  lemma OneMoreFailure(results: seq<RuleResult>, last: RuleResult)
    ensures AnyFailed(results + [last]) <==> AnyFailed(results) || last.findings != []
  {
    var all := results + [last];
    if AnyFailed(results) {
      var i :| 0 <= i < |results| && results[i].findings != [];
      assert all[i].findings != [];
    }
    if last.findings != [] {
      assert all[|results|].findings != [];
    }
  }

  /**
   * A row is unmarked exactly when no rule applies to its packet, and marked as failed exactly when some rule applies
   * whose body is missing, is not JSON, or does not satisfy the schema.
   */
  lemma MarkMeans(b: Browser, rules: seq<SchemaRules.Rule>, p: Packet, number: nat)
    ensures var mark := RowOf(b, rules, p, number).mark;
            && (mark == Unchecked <==> forall i | 0 <= i < |rules| :: !Applies(b, rules, p, i))
            && (mark == SomeFailed <==> exists i :: 0 <= i < |rules| && Breaks(b, rules, p, i))
  {
    ValidationMeans(b, rules, p);
  }

  // ---- order ----

  /** What rows are ordered by: nothing, or a column, upwards or downwards. */
  function RankIn(b: Browser, order: Order, p: Packet): real {
    match order
    case Insertion => 0.0
    case By(key, descending) => if descending then -Rank(b, key, p) else Rank(b, key, p)
  }

  /** The packets of one rank, in their order. */
  function OfRank(b: Browser, order: Order, ps: seq<Packet>, r: real): seq<Packet> {
    if ps == [] then []
    else
      var p := ps[|ps| - 1];
      OfRank(b, order, ps[..|ps| - 1], r) + (if RankIn(b, order, p) == r then [p] else [])
  }

  ghost predicate WellRanked(b: Browser, order: Order, ks: seq<StableSort.Keyed<Packet>>) {
    forall k | k in ks :: k.rank == RankIn(b, order, k.item)
  }

  lemma {:induction false} RanksAreWell(b: Browser, order: Order, ps: seq<Packet>)
    requires order.By?
    ensures WellRanked(b, order, WithRanks(b, order.key, order.descending, ps))
    ensures Items(WithRanks(b, order.key, order.descending, ps)) == ps
  {
    hide Rank;
    if ps != [] {
      RanksAreWell(b, order, ps[..|ps| - 1]);
      var ks := WithRanks(b, order.key, order.descending, ps);
      assert ks[..|ks| - 1] == WithRanks(b, order.key, order.descending, ps[..|ps| - 1]);
      assert ps == ps[..|ps| - 1] + [ps[|ps| - 1]];
    }
  }

  lemma {:induction false} ItemsInPlace(ks: seq<StableSort.Keyed<Packet>>)
    ensures |Items(ks)| == |ks| && forall i :: 0 <= i < |ks| ==> Items(ks)[i] == ks[i].item
  {
    if ks != [] {
      ItemsInPlace(ks[..|ks| - 1]);
    }
  }

  lemma ItemsOneMore(ks: seq<StableSort.Keyed<Packet>>, k: StableSort.Keyed<Packet>)
    ensures Items(ks + [k]) == Items(ks) + [k.item]
  {
    assert (ks + [k])[..|ks|] == ks;
  }

  lemma {:induction false} ItemsOfRank(b: Browser, order: Order, ks: seq<StableSort.Keyed<Packet>>, r: real)
    requires WellRanked(b, order, ks)
    ensures Items(StableSort.OfRank(ks, r)) == OfRank(b, order, Items(ks), r)
  {
    if ks != [] {
      hide RankIn;
      var front, k := ks[..|ks| - 1], ks[|ks| - 1];
      ItemsOfRank(b, order, front, r);
      assert (Items(front) + [k.item])[..|Items(front)|] == Items(front);
      if k.rank == r {
        ItemsOneMore(StableSort.OfRank(front, r), k);
      } else {
        assert StableSort.OfRank(front, r) + [] == StableSort.OfRank(front, r);
        assert OfRank(b, order, Items(front), r) + [] == OfRank(b, order, Items(front), r);
      }
    }
  }

  /**
   * Under any sort, upwards or downwards, the rows' ranks never fall, and the packets of each rank are those of the
   * list in the order in which they came.
   */
  lemma OrderedIsStable(b: Browser, order: Order, ps: seq<Packet>, r: real)
    ensures var rows := Ordered(b, order, ps);
            && OfRank(b, order, rows, r) == OfRank(b, order, ps, r)
            && forall i, j :: 0 <= i < j < |rows| ==> RankIn(b, order, rows[i]) <= RankIn(b, order, rows[j])
  {
    if order.By? {
      var ks := WithRanks(b, order.key, order.descending, ps);
      var sorted := StableSort.Sort(ks);
      RanksAreWell(b, order, ps);
      StableSort.SortIsStable(ks, r);
      StableSort.SortMembers(ks);
      assert WellRanked(b, order, sorted);
      ItemsOfRank(b, order, ks, r);
      ItemsOfRank(b, order, sorted, r);
      ItemsInPlace(sorted);
      hide RankIn;
      forall i, j | 0 <= i < j < |sorted|
        ensures RankIn(b, order, Items(sorted)[i]) <= RankIn(b, order, Items(sorted)[j])
      {
        assert sorted[i] in sorted && sorted[j] in sorted;
      }
    }
  }

  /** What a column sorts by. */
  lemma RankMeans(b: Browser, p: Packet, q: Packet)
    ensures Rank(b, ByTime, p) < Rank(b, ByTime, q) <==> b.dateRank(p.timestamp) < b.dateRank(q.timestamp)
    ensures Rank(b, ByType, p) < Rank(b, ByType, q) <==> b.wordRank(p.kind) < b.wordRank(q.kind)
    ensures Rank(b, ByMethod, p) < Rank(b, ByMethod, q) <==> b.wordRank(p.method_) < b.wordRank(q.method_)
    ensures Rank(b, ByUrl, p) < Rank(b, ByUrl, q) <==>
            b.wordRank(if p.url == "" then p.title else p.url) < b.wordRank(if q.url == "" then q.title else q.url)
    ensures Rank(b, ByStatus, p) < Rank(b, ByStatus, q) <==> p.status < q.status
    ensures Rank(b, ByLatency, p) < Rank(b, ByLatency, q) <==> p.elapsedMs < q.elapsedMs
    ensures Rank(b, BySize, p) < Rank(b, BySize, q) <==>
            |p.responseBody| + |Wide(p.responseBody)| < |q.responseBody| + |Wide(q.responseBody)|
  {
    hide JsLength, Wide;
    LengthIs(p.responseBody);
    LengthIs(q.responseBody);
  }

  // ---- the filter ----

  /** Every facet that is set must let the packet pass; a packet of any of the chosen status classes does. */
  ghost predicate Passes(b: Browser, f: Filter, p: Packet) {
    && f.kind in {"", p.kind} && f.method_ in {"", p.method_}
    && !(f.failedOnly && p.success) && !(p.elapsedMs < f.minLatency)
    && (f.statusClasses != {} ==> exists c :: c in f.statusClasses && 100 * c <= p.status < 100 * c + 100)
    && (f.text != "" ==>
          var headline := p.url + " " + p.title + " " + p.method_;
          var searched := if f.searchBodies then headline + (" " + p.requestBody + " " + p.responseBody) else headline;
          b.contains(b.lower(searched), b.lower(f.text)))
  }

  lemma PassesIff(b: Browser, f: Filter, p: Packet)
    ensures MatchesFilter(b, f, p) <==> Passes(b, f, p)
  {
    assert Haystack(f, p) == if f.searchBodies then p.url + " " + p.title + " " + p.method_
                                                    + (" " + p.requestBody + " " + p.responseBody)
                             else p.url + " " + p.title + " " + p.method_;
  }

  // ---- languages ----

  /** The white space and the line terminators of ECMAScript. */
  const JS_WHITE_SPACE: set<int> := {
    0x9, 0xA, 0xB, 0xC, 0xD, 0x20, 0xA0, 0x1680, 0x2000, 0x2001, 0x2002, 0x2003, 0x2004, 0x2005, 0x2006, 0x2007, 0x2008,
    0x2009, 0x200A, 0x2028, 0x2029, 0x202F, 0x205F, 0x3000, 0xFEFF }

  lemma SpaceIff(c: char)
    ensures PrettyXml.IsSpace(c) <==> c as int in JS_WHITE_SPACE
  {
  }

  /** Apart from white space, the text begins with this character. */
  ghost predicate Begins(body: string, c: char) {
    exists i :: 0 <= i < |body| && body[i] == c && forall k :: 0 <= k < i ==> body[k] as int in JS_WHITE_SPACE
  }

  lemma {:induction false} BeginsIff(body: string, c: char)
    requires !PrettyXml.IsSpace(c)
    ensures Begins(body, c) <==> PrettyXml.Strip(body) != "" && PrettyXml.Strip(body)[0] == c
  {
    if body == "" {
      return;
    }
    SpaceIff(body[0]);
    if PrettyXml.IsSpace(body[0]) {
      BeginsIff(body[1..], c);
      if Begins(body[1..], c) {
        var i :| 0 <= i < |body| - 1 && body[1..][i] == c
                 && forall k :: 0 <= k < i ==> body[1..][k] as int in JS_WHITE_SPACE;
        assert body[i + 1] == c && forall k :: 1 <= k < i + 1 ==> body[k] == body[1..][k - 1];
      }
      if Begins(body, c) {
        var i :| 0 <= i < |body| && body[i] == c && forall k :: 0 <= k < i ==> body[k] as int in JS_WHITE_SPACE;
        assert body[1..][i - 1] == c && forall k :: 0 <= k < i - 1 ==> body[1..][k] == body[k + 1];
      }
    } else if body[0] == c {
      assert body[0] == c;
    }
  }

  /** Which bodies of at most 204800 code units are shown as JSON or XML, and how; all others are shown as they are. */
  lemma LanguageMeans(b: Browser, body: string, code: string)
    ensures var short := |body| + |Wide(body)| <= 204800;
            && (DetectLang(b, body) == AsJson(code) <==>
                  && short && (Begins(body, '{') || Begins(body, '['))
                  && b.parseJson(body).Some? && code == b.stringify(b.parseJson(body).value))
            && (DetectLang(b, body) == AsXml(code) <==> short && Begins(body, '<') && code == PrettyXml.Pretty(body))
  {
    LengthIs(body);
    BeginsIff(body, '{');
    BeginsIff(body, '[');
    BeginsIff(body, '<');
    hide JsLength, Wide, Begins, PrettyXml.Strip, PrettyXml.Pretty;
  }

  // ---- results ----

  /** What is found in a body: that it is missing, that it is not JSON, or each violation of the schema. */
  ghost predicate FoundIn(b: Browser, body: string, schema: Json, findings: seq<Finding>) {
    if body == "" then findings == [EmptyBody]
    else if b.parseJson(body).None? then findings == [NotJson]
    else
      var errors := ValidateValue(b.js, b.parseJson(body).value, schema, "$");
      |findings| == |errors| && forall i :: 0 <= i < |findings| ==> findings[i] == Violation(errors[i])
  }

  ghost predicate ResultOf(b: Browser, rule: SchemaRules.Rule, p: Packet, result: RuleResult) {
    && result.target == rule.target && result.pattern == rule.pattern
    && FoundIn(b, if rule.target.Request? then p.requestBody else p.responseBody, rule.schema, result.findings)
  }

  /** One result for each rule that applies, in the order of the rules. */
  ghost predicate ResultsOf(b: Browser, rules: seq<SchemaRules.Rule>, p: Packet, results: seq<RuleResult>) {
    if rules == [] then results == []
    else
      var n := |rules| - 1;
      if Applies(b, rules, p, n) then
        && results != [] && ResultOf(b, rules[n], p, results[|results| - 1])
        && ResultsOf(b, rules[..n], p, results[..|results| - 1])
      else ResultsOf(b, rules[..n], p, results)
  }

  lemma {:induction false} ViolationsInPlace(errors: seq<Error>)
    ensures |Violations(errors)| == |errors|
    ensures forall i :: 0 <= i < |errors| ==> Violations(errors)[i] == Violation(errors[i])
  {
    if errors != [] {
      ViolationsInPlace(errors[..|errors| - 1]);
    }
  }

  lemma CheckFinds(b: Browser, rule: SchemaRules.Rule, p: Packet)
    ensures ResultOf(b, rule, p, RuleResult(rule.target, rule.pattern, Check(b, BodyOf(p, rule.target), rule.schema)))
  {
    var body := BodyOf(p, rule.target);
    hide ValidateValue, Violations;
    if body != "" && b.parseJson(body).Some? {
      ViolationsInPlace(ValidateValue(b.js, b.parseJson(body).value, rule.schema, "$"));
    }
  }

  lemma {:induction false} ValidationResults(b: Browser, rules: seq<SchemaRules.Rule>, p: Packet)
    ensures ResultsOf(b, rules, p, Validation(b, rules, p))
  {
    if rules != [] {
      var n := |rules| - 1;
      ValidationResults(b, rules[..n], p);
      CheckFinds(b, rules[n], p);
      hide ResultOf, Check;
      var before := Validation(b, rules[..n], p);
      if AppliesTo(b, rules[n], p) {
        var r := rules[n];
        var last := RuleResult(r.target, r.pattern, Check(b, BodyOf(p, r.target), r.schema));
        assert (before + [last])[..|before|] == before;
      } else {
        assert before + [] == before;
      }
    }
  }

  lemma {:induction false} FindingsAre(results: seq<RuleResult>, target: SchemaRules.Target, f: Finding)
    ensures f in FindingsOn(results, target) <==>
            exists i :: 0 <= i < |results| && results[i].target == target && f in results[i].findings
  {
    if results != [] {
      var n := |results| - 1;
      FindingsAre(results[..n], target, f);
      assert forall i :: 0 <= i < n ==> results[..n][i] == results[i];
    }
  }

  /** A packet's validation: the results of the rules that apply, and each body's findings from the rules about it. */
  lemma ValidateMeans(b: Browser, rules: seq<SchemaRules.Rule>, p: Packet, f: Finding)
    ensures var v := Validate(b, rules, p);
            && ResultsOf(b, rules, p, v.results)
            && (f in v.requestMarks <==>
                  exists i :: 0 <= i < |v.results| && v.results[i].target.Request? && f in v.results[i].findings)
            && (f in v.responseMarks <==>
                  exists i :: 0 <= i < |v.results| && v.results[i].target.Response? && f in v.results[i].findings)
  {
    hide ResultsOf, Validation, FindingsOn;
    ValidationResults(b, rules, p);
    FindingsAre(Validation(b, rules, p), SchemaRules.Request, f);
    FindingsAre(Validation(b, rules, p), SchemaRules.Response, f);
  }

  // ---- rows ----

  lemma RowShows(b: Browser, rules: seq<SchemaRules.Rule>, p: Packet, number: nat)
    ensures RowOf(b, rules, p, number) == Row(p.id, number, RowOf(b, rules, p, number).mark)
  {
    hide Validation, MarkOf;
  }

  lemma {:induction false} RowsInPlace(b: Browser, rules: seq<SchemaRules.Rule>, ps: seq<Packet>, i: nat)
    requires i < |ps|
    ensures Rows(b, rules, ps)[i] == RowOf(b, rules, ps[i], i + 1)
  {
    if i < |ps| - 1 {
      RowsInPlace(b, rules, ps[..|ps| - 1], i);
    }
  }

  lemma {:induction false} ShownIff(b: Browser, selected: string, f: Filter, packets: seq<Packet>, p: Packet)
    ensures p in Shown(b, selected, f, packets) <==> p in packets && IsShown(b, selected, f, p)
  {
    hide IsShown;
    if packets != [] {
      var front, last := packets[..|packets| - 1], packets[|packets| - 1];
      ShownIff(b, selected, f, front, p);
      assert p in packets <==> p in front || p == last;
    }
  }

  lemma {:induction false} OfRankMembers(b: Browser, order: Order, ps: seq<Packet>, r: real, p: Packet)
    ensures p in OfRank(b, order, ps, r) <==> p in ps && RankIn(b, order, p) == r
  {
    hide RankIn;
    if ps != [] {
      var front, last := ps[..|ps| - 1], ps[|ps| - 1];
      OfRankMembers(b, order, front, r, p);
      assert p in ps <==> p in front || p == last;
    }
  }

  lemma OrderedHasAll(b: Browser, order: Order, ps: seq<Packet>, p: Packet)
    ensures p in Ordered(b, order, ps) <==> p in ps
    ensures |Ordered(b, order, ps)| == |ps|
  {
    var r := RankIn(b, order, p);
    OrderedIsStable(b, order, ps, r);
    OfRankMembers(b, order, ps, r, p);
    OfRankMembers(b, order, Ordered(b, order, ps), r, p);
    if order.By? {
      var ks := WithRanks(b, order.key, order.descending, ps);
      RanksAreWell(b, order, ps);
      ItemsInPlace(ks);
      StableSort.SortMembers(ks);
      ItemsInPlace(StableSort.Sort(ks));
    }
  }

  /**
   * Row `i` of the table has number `i + 1` and shows the `i`-th packet in order, marked by the rules in force; and a
   * packet is among those shown exactly if it is held, of the selected run, and passes the filter, with as many rows
   * as there are such packets.
   */
  lemma TableMeans(
      b: Browser, rules: seq<SchemaRules.Rule>, selected: string, f: Filter, order: Order, packets: seq<Packet>,
      i: nat, p: Packet)
    ensures var table := Table(b, rules, selected, f, order, packets);
            var shown := Ordered(b, order, Shown(b, selected, f, packets));
            && |table| == |shown| == |Shown(b, selected, f, packets)|
            && (i < |table| ==> table[i] == Row(shown[i].id, i + 1, RowOf(b, rules, shown[i], i + 1).mark))
            && (p in shown <==> p in packets && selected in {"", p.runId} && Passes(b, f, p))
  {
    PassesIff(b, f, p);
    assert IsShown(b, selected, f, p) <==> selected in {"", p.runId} && Passes(b, f, p);
    hide Passes, IsShown, Shown, Ordered, RowOf, Rows;
    var shown := Ordered(b, order, Shown(b, selected, f, packets));
    OrderedHasAll(b, order, Shown(b, selected, f, packets), p);
    ShownIff(b, selected, f, packets, p);
    if i < |shown| {
      RowsInPlace(b, rules, shown, i);
      RowShows(b, rules, shown[i], i + 1);
    }
  }
}
