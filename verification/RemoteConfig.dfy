/** The server's rule list: a local file and a remote file merged by id, the local one winning. */
module RemoteConfig {
  import opened Common
  import opened LinkedMaps
  import opened Json

  /** A rule as it stands in a config file; any part may be missing. */
  datatype RemoteRule = RemoteRule(
    id: Option<string>, name: Option<string>, pattern: Option<string>, target: Option<string>,
    schema: Option<Json>, origin: Option<string>)

  datatype Config = Config(version: int, schemas: seq<RemoteRule>)

  /** What reading a source comes to. */
  datatype Source = NotConfigured | Failed | Read(config: Config)

  /** Java's notion of a blank character. */
  predicate IsBlankChar(c: char) {
    var n := c as int;
    9 <= n <= 13 || 0x1C <= n <= 0x20 || n == 0x1680 || 0x2000 <= n <= 0x2006 || 0x2008 <= n <= 0x200A
    || n == 0x2028 || n == 0x2029 || n == 0x205F || n == 0x3000
  }

  predicate HasText(s: Option<string>) {
    s.Some? && exists i :: 0 <= i < |s.value| && !IsBlankChar(s.value[i])
  }

  predicate IsValid(r: RemoteRule) {
    HasText(r.id) && HasText(r.name) && HasText(r.pattern) && HasText(r.target) && r.schema.Some?
  }

  /** Constructing a config drops its unusable rules. */
  function Usable(rules: seq<RemoteRule>): seq<RemoteRule> {
    Filter(IsValid, rules)
  }

  function TagAll(rules: seq<RemoteRule>, origin: string): seq<RemoteRule> {
    if rules == [] then []
    else TagAll(rules[..|rules| - 1], origin) + [rules[|rules| - 1].(origin := Some(origin))]
  }

  /** The local file; a failure to read it counts as an empty file. */
  function LoadLocal(s: Source): seq<RemoteRule> {
    if s.Read? then TagAll(Usable(s.config.schemas), "local") else []
  }

  /** The remote file; a failure, or a version other than 1, counts as an empty file. */
  function LoadRemote(s: Source): seq<RemoteRule> {
    if s.Read? && s.config.version == 1 then TagAll(Usable(s.config.schemas), "remote") else []
  }

  type ById = LinkedMap<Option<string>, RemoteRule>

  function IdOf(r: RemoteRule): Option<string> {
    r.id
  }

  function EnterAll(m: ById, rules: seq<RemoteRule>): ById {
    if rules == [] then m
    else
      var r := rules[|rules| - 1];
      EnterAll(m, rules[..|rules| - 1]).Put(r.id, r)
  }

  function EnterAbsent(m: ById, rules: seq<RemoteRule>): ById {
    if rules == [] then m
    else
      var r := rules[|rules| - 1];
      EnterAbsent(m, rules[..|rules| - 1]).PutIfAbsent(r.id, r)
  }

  function Merged(local: seq<RemoteRule>, remote: seq<RemoteRule>): ById {
    EnterAbsent(EnterAll(Empty, local), remote)
  }

  /** Enters the local list, each rule replacing one of its id, and then the remote rules not yet there. */
  method MergeById(local: seq<RemoteRule>, remote: seq<RemoteRule>) returns (merged: seq<RemoteRule>)
    ensures merged == Merged(local, remote).Values()
  {
    var byId: ById := Empty;
    for i := 0 to |local|
      invariant byId == EnterAll(Empty, local[..i])
    {
      assert local[..i + 1][..i] == local[..i];
      byId := byId.Put(local[i].id, local[i]);
    }
    assert local[..|local|] == local;
    for i := 0 to |remote|
      invariant byId == EnterAbsent(EnterAll(Empty, local), remote[..i])
    {
      assert remote[..i + 1][..i] == remote[..i];
      byId := byId.PutIfAbsent(remote[i].id, remote[i]);
    }
    assert remote[..|remote|] == remote;
    merged := byId.Values();
  }

  // ---- precedence ----

  function LastWith(rules: seq<RemoteRule>, id: Option<string>): Option<RemoteRule> {
    if rules == [] then None
    else if rules[|rules| - 1].id == id then Some(rules[|rules| - 1])
    else LastWith(rules[..|rules| - 1], id)
  }

  function FirstWith(rules: seq<RemoteRule>, id: Option<string>): Option<RemoteRule> {
    if rules == [] then None
    else if FirstWith(rules[..|rules| - 1], id).Some? then FirstWith(rules[..|rules| - 1], id)
    else if rules[|rules| - 1].id == id then Some(rules[|rules| - 1])
    else None
  }

  /** The rule an id stands for: the last local rule of that id, or else the first remote one. */
  function Winner(local: seq<RemoteRule>, remote: seq<RemoteRule>, id: Option<string>): Option<RemoteRule> {
    if LastWith(local, id).Some? then LastWith(local, id) else FirstWith(remote, id)
  }

  lemma {:induction false} EnteredLast(m: ById, rules: seq<RemoteRule>, id: Option<string>)
    ensures EnterAll(m, rules).Get(id) == if LastWith(rules, id).Some? then LastWith(rules, id) else m.Get(id)
    ensures m.Unique() ==> EnterAll(m, rules).Unique()
  {
    if rules != [] {
      var r := rules[|rules| - 1];
      EnteredLast(m, rules[..|rules| - 1], id);
      GetPut(EnterAll(m, rules[..|rules| - 1]), r.id, r, id);
      PutKeys(EnterAll(m, rules[..|rules| - 1]), r.id, r);
    }
  }

  lemma {:induction false} EnteredAbsent(m: ById, rules: seq<RemoteRule>, id: Option<string>)
    ensures EnterAbsent(m, rules).Get(id) == if m.Get(id).Some? then m.Get(id) else FirstWith(rules, id)
    ensures m.Unique() ==> EnterAbsent(m, rules).Unique()
  {
    if rules != [] {
      var r := rules[|rules| - 1];
      var before := EnterAbsent(m, rules[..|rules| - 1]);
      EnteredAbsent(m, rules[..|rules| - 1], id);
      HasIsMember(before, r.id);
    }
  }

  /** A list without two rules of one id shows for each id the one rule entered for it. */
  lemma {:induction false} ListedAtMostOnce(m: ById, id: Option<string>)
    requires KeyedBy(m, IdOf)
    ensures LastWith(m.Values(), id) == m.Get(id)
    ensures forall i, j :: 0 <= i < j < |m.Values()| ==> m.Values()[i].id != m.Values()[j].id
    ensures forall i :: 0 <= i < |m.Values()| ==> m.Values()[i].id in m.KeySet()
  {
    if m.Entry? {
      ListedAtMostOnce(m.older, id);
      assert m.Values()[..|m.Values()| - 1] == m.older.Values();
    }
  }

  lemma {:induction false} MergedKeyed(local: seq<RemoteRule>, remote: seq<RemoteRule>)
    ensures KeyedBy(Merged(local, remote), IdOf)
  {
    if remote != [] {
      MergedKeyed(local, remote[..|remote| - 1]);
      PutKeyed(Merged(local, remote[..|remote| - 1]), IdOf, remote[|remote| - 1]);
    } else if local != [] {
      MergedKeyed(local[..|local| - 1], []);
      PutKeyed(EnterAll(Empty, local[..|local| - 1]), IdOf, local[|local| - 1]);
    }
  }

  /**
   * In the merged list every id occurs at most once, and stands for the last local rule of that id, or else for
   * the first remote one.
   */
  lemma MergePrecedence(local: seq<RemoteRule>, remote: seq<RemoteRule>, id: Option<string>)
    ensures var merged := Merged(local, remote).Values();
            && LastWith(merged, id) == Winner(local, remote, id)
            && forall i, j :: 0 <= i < j < |merged| ==> merged[i].id != merged[j].id
  {
    MergedKeyed(local, remote);
    ListedAtMostOnce(Merged(local, remote), id);
    EnteredLast(Empty, local, id);
    EnteredAbsent(EnterAll(Empty, local), remote, id);
  }

  lemma {:induction false} TaggedAs(rules: seq<RemoteRule>, origin: string, id: Option<string>)
    ensures var last, first := LastWith(TagAll(rules, origin), id), FirstWith(TagAll(rules, origin), id);
            && (last.Some? ==> last.value.origin == Some(origin))
            && (first.Some? ==> first.value.origin == Some(origin))
  {
    if rules != [] {
      var front, r := rules[..|rules| - 1], rules[|rules| - 1];
      TaggedAs(front, origin, id);
      var tagged := TagAll(front, origin);
      assert (tagged + [r.(origin := Some(origin))])[..|tagged|] == tagged;
    }
  }

  /** A rule in the merged list says that it is local exactly when the local file has a usable rule of its id. */
  lemma OriginTells(localFile: Source, remoteFile: Source, id: Option<string>)
    ensures var local, remote := LoadLocal(localFile), LoadRemote(remoteFile);
            var shown := LastWith(Merged(local, remote).Values(), id);
            shown.Some? ==>
              shown.value.origin == Some(if LastWith(local, id).Some? then "local" else "remote")
  {
    var local, remote := LoadLocal(localFile), LoadRemote(remoteFile);
    MergePrecedence(local, remote, id);
    if localFile.Read? { TaggedAs(Usable(localFile.config.schemas), "local", id); }
    if remoteFile.Read? { TaggedAs(Usable(remoteFile.config.schemas), "remote", id); }
  }

  // ---- order ----

  function IdsOf(rules: seq<RemoteRule>): seq<Option<string>> {
    if rules == [] then [] else IdsOf(rules[..|rules| - 1]) + [rules[|rules| - 1].id]
  }

  lemma {:induction false} EnteredInOrder(local: seq<RemoteRule>)
    ensures EnterAll(Empty, local).Keys() == FirstSeen(IdsOf(local))
  {
    if local != [] {
      var front, r := local[..|local| - 1], local[|local| - 1];
      EnteredInOrder(front);
      PutKeys(EnterAll(Empty, front), r.id, r);
      HasIsMember(EnterAll(Empty, front), r.id);
      ValuesAtKeys(EnterAll(Empty, front));
      FirstSeenOneMore(IdsOf(front), r.id);
    }
  }

  lemma {:induction false} MergedInOrder(local: seq<RemoteRule>, remote: seq<RemoteRule>)
    ensures Merged(local, remote).Keys() == FirstSeen(IdsOf(local) + IdsOf(remote))
  {
    if remote == [] {
      EnteredInOrder(local);
      assert IdsOf(local) + [] == IdsOf(local);
    } else {
      var front, r := remote[..|remote| - 1], remote[|remote| - 1];
      MergedInOrder(local, front);
      HasIsMember(Merged(local, front), r.id);
      ValuesAtKeys(Merged(local, front));
      FirstSeenOneMore(IdsOf(local) + IdsOf(front), r.id);
      assert IdsOf(local) + IdsOf(remote) == IdsOf(local) + IdsOf(front) + [r.id];
    }
  }

  lemma {:induction false} KeyedIds(m: ById)
    requires KeyedBy(m, IdOf)
    ensures IdsOf(m.Values()) == m.Keys()
  {
    if m.Entry? {
      KeyedIds(m.older);
      assert (m.older.Values() + [m.value])[..|m.older.Values()|] == m.older.Values();
    }
  }

  /** The merged list holds the ids in the order in which the local and then the remote file first mentions them. */
  lemma MergeOrder(local: seq<RemoteRule>, remote: seq<RemoteRule>)
    ensures IdsOf(Merged(local, remote).Values()) == FirstSeen(IdsOf(local) + IdsOf(remote))
  {
    MergedKeyed(local, remote);
    MergedInOrder(local, remote);
    KeyedIds(Merged(local, remote));
  }

  // ---- what a file gives, rule by rule ----

  /** The code points that `Character.isWhitespace` accepts. */
  const JAVA_WHITE_SPACE: set<int> := {
    0x9, 0xA, 0xB, 0xC, 0xD, 0x1C, 0x1D, 0x1E, 0x1F, 0x20, 0x1680, 0x2000, 0x2001, 0x2002, 0x2003, 0x2004, 0x2005,
    0x2006, 0x2008, 0x2009, 0x200A, 0x2028, 0x2029, 0x205F, 0x3000 }

  lemma BlankIff(c: char)
    ensures IsBlankChar(c) <==> c as int in JAVA_WHITE_SPACE
  {
  }

  /** All parts of the rule are there, and its texts are not blank. */
  ghost predicate Serves(r: RemoteRule) {
    && r.schema.Some?
    && forall part | part in [r.id, r.name, r.pattern, r.target] ::
         part.Some? && exists i :: 0 <= i < |part.value| && part.value[i] as int !in JAVA_WHITE_SPACE
  }

  /** The file's last serving rule of its id, with the origin filled in. */
  ghost predicate IsLastServing(rules: seq<RemoteRule>, origin: string, r: RemoteRule) {
    exists k :: 0 <= k < |rules| && Serves(rules[k]) && r == rules[k].(origin := Some(origin))
      && forall l :: k < l < |rules| && Serves(rules[l]) ==> rules[l].id != r.id
  }

  ghost predicate IsFirstServing(rules: seq<RemoteRule>, origin: string, r: RemoteRule) {
    exists k :: 0 <= k < |rules| && Serves(rules[k]) && r == rules[k].(origin := Some(origin))
      && forall l :: 0 <= l < k && Serves(rules[l]) ==> rules[l].id != r.id
  }

  ghost predicate Offers(rules: seq<RemoteRule>, id: Option<string>) {
    exists k :: 0 <= k < |rules| && Serves(rules[k]) && rules[k].id == id
  }

  /**
   * What the two sources come to: the last serving local rule of an id, or, where the local file was not read or offers
   * none of that id, the first serving rule of a remote file that was read and has version 1.
   */
  ghost predicate Listed(localFile: Source, remoteFile: Source, r: RemoteRule) {
    || (localFile.Read? && IsLastServing(localFile.config.schemas, "local", r))
    || (!(localFile.Read? && Offers(localFile.config.schemas, r.id))
        && remoteFile.Read? && remoteFile.config.version == 1
        && IsFirstServing(remoteFile.config.schemas, "remote", r))
  }

  lemma ServesIff(r: RemoteRule)
    ensures IsValid(r) <==> Serves(r)
  {
    forall c: char
      ensures IsBlankChar(c) <==> c as int in JAVA_WHITE_SPACE
    {
      BlankIff(c);
    }
    hide IsBlankChar;
    assert r.id in [r.id, r.name, r.pattern, r.target] && r.name in [r.id, r.name, r.pattern, r.target];
    assert r.pattern in [r.id, r.name, r.pattern, r.target] && r.target in [r.id, r.name, r.pattern, r.target];
  }

  lemma OneMoreRule(rules: seq<RemoteRule>, r: RemoteRule, origin: string)
    ensures TagAll(Usable(rules + [r]), origin) ==
            TagAll(Usable(rules), origin) + if Serves(r) then [r.(origin := Some(origin))] else []
  {
    hide IsValid, Serves;
    ServesIff(r);
    assert (rules + [r])[..|rules|] == rules;
    assert (Usable(rules) + [r])[..|Usable(rules)|] == Usable(rules);
  }

  lemma LastOneMore(rules: seq<RemoteRule>, r: RemoteRule, origin: string, x: RemoteRule)
    ensures IsLastServing(rules + [r], origin, x) <==>
            if Serves(r) && r.id == x.id then x == r.(origin := Some(origin)) else IsLastServing(rules, origin, x)
  {
    hide Serves;
    var all, n := rules + [r], |rules|;
    assert all[n] == r && forall k :: 0 <= k < n ==> all[k] == rules[k];
    if Serves(r) && r.id == x.id {
      if k :| 0 <= k <= n && Serves(all[k]) && x == all[k].(origin := Some(origin))
              && forall l :: k < l <= n && Serves(all[l]) ==> all[l].id != x.id {
        assert k == n;
      }
    } else if k :| 0 <= k < n && Serves(rules[k]) && x == rules[k].(origin := Some(origin))
                   && forall l :: k < l < n && Serves(rules[l]) ==> rules[l].id != x.id {
      assert Serves(all[k]);
    }
  }

  lemma FirstOneMore(rules: seq<RemoteRule>, r: RemoteRule, origin: string, x: RemoteRule)
    ensures IsFirstServing(rules + [r], origin, x) <==>
            || IsFirstServing(rules, origin, x)
            || (!Offers(rules, x.id) && Serves(r) && x == r.(origin := Some(origin)))
  {
    hide Serves;
    var all, n := rules + [r], |rules|;
    assert all[n] == r && forall k :: 0 <= k < n ==> all[k] == rules[k];
    if k :| 0 <= k < n && Serves(rules[k]) && x == rules[k].(origin := Some(origin))
            && forall l :: 0 <= l < k && Serves(rules[l]) ==> rules[l].id != x.id {
      assert Serves(all[k]);
    }
    if !Offers(rules, x.id) && Serves(r) && x == r.(origin := Some(origin)) {
      assert Serves(all[n]);
    }
  }

  lemma OffersOneMore(rules: seq<RemoteRule>, r: RemoteRule, id: Option<string>)
    ensures Offers(rules + [r], id) <==> Offers(rules, id) || (Serves(r) && r.id == id)
  {
    hide Serves;
    var all, n := rules + [r], |rules|;
    assert all[n] == r && forall k :: 0 <= k < n ==> all[k] == rules[k];
    if k :| 0 <= k < n && Serves(rules[k]) && rules[k].id == id {
      assert Serves(all[k]);
    }
  }

  /** What is read of a file, id by id. */
  lemma {:induction false} FileGives(rules: seq<RemoteRule>, origin: string, x: RemoteRule)
    ensures var read := TagAll(Usable(rules), origin);
            && (LastWith(read, x.id) == Some(x) <==> IsLastServing(rules, origin, x))
            && (FirstWith(read, x.id) == Some(x) <==> IsFirstServing(rules, origin, x))
            && (LastWith(read, x.id).Some? <==> Offers(rules, x.id))
            && (FirstWith(read, x.id).Some? <==> Offers(rules, x.id))
  {
    if rules != [] {
      var n := |rules| - 1;
      var front, r := rules[..n], rules[n];
      assert rules == front + [r];
      FileGives(front, origin, x);
      OneMoreRule(front, r, origin);
      LastOneMore(front, r, origin, x);
      FirstOneMore(front, r, origin, x);
      OffersOneMore(front, r, x.id);
      var before := TagAll(Usable(front), origin);
      assert (before + [r.(origin := Some(origin))])[..|before|] == before && before + [] == before;
      hide Serves, TagAll, Usable, IsLastServing, IsFirstServing, Offers;
    }
  }

  lemma {:induction false} ListedOnce(rules: seq<RemoteRule>, r: RemoteRule)
    requires forall i, j :: 0 <= i < j < |rules| ==> rules[i].id != rules[j].id
    ensures r in rules <==> LastWith(rules, r.id) == Some(r)
  {
    if rules != [] {
      var n := |rules| - 1;
      ListedOnce(rules[..n], r);
      assert r in rules <==> r in rules[..n] || r == rules[n];
      if r in rules[..n] {
        var i :| 0 <= i < n && rules[..n][i] == r;
        assert rules[i] == r;
      }
    }
  }

  /** A rule is in the merged list if and only if the two sources come to it. */
  lemma MergedIsListed(localFile: Source, remoteFile: Source, r: RemoteRule)
    ensures r in Merged(LoadLocal(localFile), LoadRemote(remoteFile)).Values() <==> Listed(localFile, remoteFile, r)
  {
    var local, remote := LoadLocal(localFile), LoadRemote(remoteFile);
    MergePrecedence(local, remote, r.id);
    ListedOnce(Merged(local, remote).Values(), r);
    if localFile.Read? { FileGives(localFile.config.schemas, "local", r); }
    if remoteFile.Read? { FileGives(remoteFile.config.schemas, "remote", r); }
    hide Merged, TagAll, Usable, Offers, IsLastServing, IsFirstServing;
  }

  // ---- loading ----

  lemma {:induction false} TaggedIds(rules: seq<RemoteRule>, origin: string)
    ensures IdsOf(TagAll(rules, origin)) == IdsOf(rules)
  {
    if rules != [] {
      var front := TagAll(rules[..|rules| - 1], origin);
      TaggedIds(rules[..|rules| - 1], origin);
      assert TagAll(rules, origin)[..|front|] == front;
    }
  }

  /** The ids of the rules of a source that has been read and that serve. */
  ghost function UsableIds(s: Source): seq<Option<string>> {
    if s.Read? then IdsOf(Filter(r => Serves(r), s.config.schemas)) else []
  }

  lemma {:induction false} UsableServe(rules: seq<RemoteRule>)
    ensures Usable(rules) == Filter(r => Serves(r), rules)
  {
    if rules != [] {
      hide IsValid, Serves;
      UsableServe(rules[..|rules| - 1]);
      ServesIff(rules[|rules| - 1]);
    }
  }

  lemma LoadedIds(localFile: Source, remoteFile: Source)
    ensures IdsOf(LoadLocal(localFile)) == UsableIds(localFile)
    ensures IdsOf(LoadRemote(remoteFile)) ==
            if remoteFile.Read? && remoteFile.config.version == 1 then UsableIds(remoteFile) else []
  {
    if localFile.Read? {
      TaggedIds(Usable(localFile.config.schemas), "local");
      UsableServe(localFile.config.schemas);
    }
    if remoteFile.Read? {
      TaggedIds(Usable(remoteFile.config.schemas), "remote");
      UsableServe(remoteFile.config.schemas);
    }
  }

  /**
   * Both sources, read independently of each other: the list holds exactly the rules that the two come to, one for each
   * id, in the order in which the local and then the remote file first mentions the ids; a remote file that fails or
   * has another version leaves the rules of the local file alone, and a local file that fails those of the remote.
   */
  method Load(localFile: Source, remoteFile: Source) returns (rules: seq<RemoteRule>)
    ensures rules == Merged(LoadLocal(localFile), LoadRemote(remoteFile)).Values()
    ensures forall r :: r in rules <==> Listed(localFile, remoteFile, r)
    ensures forall i, j :: 0 <= i < j < |rules| ==> rules[i].id != rules[j].id
    ensures IdsOf(rules) ==
            FirstSeen(UsableIds(localFile)
                      + if remoteFile.Read? && remoteFile.config.version == 1 then UsableIds(remoteFile) else [])
  {
    hide *;
    rules := MergeById(LoadLocal(localFile), LoadRemote(remoteFile));
    LoadedRules(localFile, remoteFile);
    LoadedIdsInOrder(localFile, remoteFile);
  }

  lemma LoadedRules(localFile: Source, remoteFile: Source)
    ensures var rules := Merged(LoadLocal(localFile), LoadRemote(remoteFile)).Values();
            && (forall r :: r in rules <==> Listed(localFile, remoteFile, r))
            && (forall i, j :: 0 <= i < j < |rules| ==> rules[i].id != rules[j].id)
  {
    hide *;
    forall r
      ensures r in Merged(LoadLocal(localFile), LoadRemote(remoteFile)).Values() <==> Listed(localFile, remoteFile, r)
    {
      MergedIsListed(localFile, remoteFile, r);
    }
    MergePrecedence(LoadLocal(localFile), LoadRemote(remoteFile), None);
  }

  lemma LoadedIdsInOrder(localFile: Source, remoteFile: Source)
    ensures IdsOf(Merged(LoadLocal(localFile), LoadRemote(remoteFile)).Values()) ==
            FirstSeen(UsableIds(localFile)
                      + if remoteFile.Read? && remoteFile.config.version == 1 then UsableIds(remoteFile) else [])
  {
    hide *;
    LoadedIds(localFile, remoteFile);
    MergeOrder(LoadLocal(localFile), LoadRemote(remoteFile));
  }
}
