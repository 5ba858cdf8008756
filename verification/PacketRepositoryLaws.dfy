/** What the packet store keeps over every history, and what loading a file a second time does. */
module PacketStoreLaws {
  import opened Common
  import opened LinkedMaps
  import opened PacketStore

  // ---- histories ----

  datatype Op = Add(packet: CapturedPacket) | Load(packets: seq<Option<CapturedPacket>>) | Clear

  /** A store together with every packet accepted since it was last cleared, oldest first. */
  datatype History = History(store: Store, accepted: seq<CapturedPacket>)

  function Perform(capacity: nat, h: History, op: Op): (r: History)
    requires h.store.Fits(capacity)
    ensures r.store.Fits(capacity)
  {
    match op
    case Add(p) => History(AddTo(capacity, h.store, p), h.accepted + [p])
    case Load(ps) =>
      var r := ImportAll(capacity, h.store, ps);
      History(r.store, h.accepted + r.taken)
    case Clear => History(EMPTY_STORE, [])
  }

  function Replay(capacity: nat, ops: seq<Op>): (h: History)
    ensures h.store.Fits(capacity)
  {
    if ops == [] then History(EMPTY_STORE, [])
    else Perform(capacity, Replay(capacity, ops[..|ops| - 1]), ops[|ops| - 1])
  }

  // ---- the ring is a window onto the accepted packets ----

  lemma WindowExtends<T>(whole: seq<T>, window: seq<T>, more: seq<T>, n: nat)
    requires window == LastN(whole, n)
    ensures LastN(window + more, n) == LastN(whole + more, n)
  {
  }

  lemma {:induction false} ImportRing(capacity: nat, s: Store, ps: seq<Option<CapturedPacket>>)
    requires s.Fits(capacity)
    ensures var r := ImportAll(capacity, s, ps);
            r.store.ring == LastN(s.ring + r.taken, capacity)
  {
    if ps == [] {
      assert s.ring + [] == s.ring;
    } else {
      ImportRing(capacity, s, ps[..|ps| - 1]);
      var before := ImportAll(capacity, s, ps[..|ps| - 1]);
      var p := ps[|ps| - 1];
      if Importable(before.store, p) {
        WindowExtends(s.ring + before.taken, before.store.ring, [p.value], capacity);
        assert s.ring + before.taken + [p.value] == s.ring + (before.taken + [p.value]);
      }
    }
  }

  /** Over every history, the ring is the last `capacity` packets accepted since the last clear. */
  lemma {:induction false} RingIsWindow(capacity: nat, ops: seq<Op>)
    ensures var h := Replay(capacity, ops);
            h.store.ring == LastN(h.accepted, capacity)
  {
    if ops != [] {
      var before := Replay(capacity, ops[..|ops| - 1]);
      RingIsWindow(capacity, ops[..|ops| - 1]);
      match ops[|ops| - 1]
      case Add(p) => WindowExtends(before.accepted, before.store.ring, [p], capacity);
      case Load(ps) =>
        ImportRing(capacity, before.store, ps);
        WindowExtends(before.accepted, before.store.ring,
                      ImportAll(capacity, before.store, ps).taken, capacity);
      case Clear =>
    }
  }

  /** An eviction keeps the newest packets, and unindexes the ids of those it drops and no others. */
  lemma {:induction false} EvictUnindexes(capacity: nat, s: Store, id: Option<Uuid>)
    ensures var dropped := |s.ring| - |Evict(capacity, s).ring|;
            && dropped >= 0
            && Evict(capacity, s).ring == s.ring[dropped..]
            && Evict(capacity, s).index.Get(id) == if IsDropped(s.ring, dropped, id) then None else s.index.Get(id)
    decreases |s.ring|
  {
    if |s.ring| <= capacity {
      return;
    }
    hide IsDropped;
    var gone := s.ring[0].id;
    var next := Store(s.ring[1..], s.index.Remove(gone));
    EvictUnindexes(capacity, next, id);
    GetRemove(s.index, gone, id);
    DroppedFirst(s.ring, |s.ring| - |Evict(capacity, s).ring|, id);
  }

  /** One of the first `n` packets has the id. */
  ghost predicate IsDropped(ring: seq<CapturedPacket>, n: int, id: Option<Uuid>)
    requires n <= |ring|
  {
    exists i :: 0 <= i < n && ring[i].id == id
  }

  lemma DroppedFirst(ring: seq<CapturedPacket>, n: int, id: Option<Uuid>)
    requires 0 < n <= |ring|
    ensures IsDropped(ring, n, id) <==> ring[0].id == id || IsDropped(ring[1..], n - 1, id)
  {
    if IsDropped(ring[1..], n - 1, id) {
      var i :| 0 <= i < n - 1 && ring[1..][i].id == id;
      assert ring[i + 1].id == id;
    }
    if IsDropped(ring, n, id) {
      var i :| 0 <= i < n && ring[i].id == id;
      if i > 0 {
        assert ring[1..][i - 1].id == id;
      }
    }
  }

  // ---- a lookup finds the newest packet of its id ----

  ghost predicate IsNewest(ring: seq<CapturedPacket>, id: Option<Uuid>, p: CapturedPacket) {
    exists i :: 0 <= i < |ring| && ring[i] == p && p.id == id
      && forall j :: i < j < |ring| ==> ring[j].id != id
  }

  ghost predicate IndexesNewest(s: Store) {
    forall id :: s.index.Get(id).Some? ==> IsNewest(s.ring, id, s.index.Get(id).value)
  }

  lemma {:induction false} EvictIndexesNewest(capacity: nat, s: Store)
    requires IndexesNewest(s)
    ensures IndexesNewest(Evict(capacity, s))
    decreases |s.ring|
  {
    if |s.ring| > capacity {
      var gone := s.ring[0].id;
      var next := Store(s.ring[1..], s.index.Remove(gone));
      forall id | next.index.Get(id).Some?
        ensures IsNewest(next.ring, id, next.index.Get(id).value)
      {
        GetRemove(s.index, gone, id);
        var i :| 0 <= i < |s.ring| && s.ring[i] == s.index.Get(id).value && s.ring[i].id == id
                 && forall j :: i < j < |s.ring| ==> s.ring[j].id != id;
        assert next.ring[i - 1] == s.ring[i];
      }
      EvictIndexesNewest(capacity, next);
    }
  }

  lemma AddIndexesNewest(capacity: nat, s: Store, p: CapturedPacket)
    requires IndexesNewest(s)
    ensures IndexesNewest(AddTo(capacity, s, p))
  {
    var full := Store(s.ring + [p], s.index.Put(p.id, p));
    forall id | full.index.Get(id).Some?
      ensures IsNewest(full.ring, id, full.index.Get(id).value)
    {
      GetPut(s.index, p.id, p, id);
      if id == p.id {
        assert full.ring[|s.ring|] == p;
      } else {
        var i :| 0 <= i < |s.ring| && s.ring[i] == s.index.Get(id).value && s.ring[i].id == id
                 && forall j :: i < j < |s.ring| ==> s.ring[j].id != id;
        assert full.ring[i] == s.ring[i];
      }
    }
    EvictIndexesNewest(capacity, full);
  }

  lemma {:induction false} ImportIndexesNewest(capacity: nat, s: Store, ps: seq<Option<CapturedPacket>>)
    requires s.Fits(capacity) && IndexesNewest(s)
    ensures IndexesNewest(ImportAll(capacity, s, ps).store)
  {
    if ps != [] {
      ImportIndexesNewest(capacity, s, ps[..|ps| - 1]);
      var before := ImportAll(capacity, s, ps[..|ps| - 1]);
      if Importable(before.store, ps[|ps| - 1]) {
        AddIndexesNewest(capacity, before.store, ps[|ps| - 1].value);
      }
    }
  }

  /** Whatever was added, imported or cleared, a lookup that answers gives the newest ring packet of that id. */
  lemma {:induction false} LookupFindsNewest(capacity: nat, ops: seq<Op>, id: Option<Uuid>)
    ensures var s := Replay(capacity, ops).store;
            s.index.Get(id).Some? ==> IsNewest(s.ring, id, s.index.Get(id).value)
  {
    ReplayIndexesNewest(capacity, ops);
  }

  lemma {:induction false} ReplayIndexesNewest(capacity: nat, ops: seq<Op>)
    ensures IndexesNewest(Replay(capacity, ops).store)
  {
    if ops != [] {
      var before := Replay(capacity, ops[..|ops| - 1]).store;
      ReplayIndexesNewest(capacity, ops[..|ops| - 1]);
      match ops[|ops| - 1]
      case Add(p) => AddIndexesNewest(capacity, before, p);
      case Load(ps) => ImportIndexesNewest(capacity, before, ps);
      case Clear =>
    }
  }

  // ---- when the index agrees with the ring exactly ----

  function IdSet(ring: seq<CapturedPacket>): set<Option<Uuid>> {
    set p | p in ring :: p.id
  }

  ghost predicate NoIdTwice(ring: seq<CapturedPacket>) {
    ring != [] ==> NoIdTwice(ring[..|ring| - 1]) && ring[|ring| - 1].id !in IdSet(ring[..|ring| - 1])
  }

  lemma {:induction false} DistinctIdsByPosition(ring: seq<CapturedPacket>)
    requires NoIdTwice(ring)
    ensures forall i, j :: 0 <= i < j < |ring| ==> ring[i].id != ring[j].id
  {
    if ring != [] {
      var front := ring[..|ring| - 1];
      DistinctIdsByPosition(front);
      forall i, j | 0 <= i < j < |ring|
        ensures ring[i].id != ring[j].id
      {
        if j == |ring| - 1 {
          assert ring[i] in front;
        } else {
          assert ring[i] == front[i] && ring[j] == front[j];
        }
      }
    }
  }

  lemma {:induction false} IdSetSize(ring: seq<CapturedPacket>)
    ensures |IdSet(ring)| <= |ring|
  {
    if ring != [] {
      IdSetSize(ring[..|ring| - 1]);
      assert IdSet(ring) == IdSet(ring[..|ring| - 1]) + {ring[|ring| - 1].id};
    }
  }

  /** The index obtained by entering the packets of a ring one after the other. */
  function IndexOfRing(ring: seq<CapturedPacket>): LinkedMap<Option<Uuid>, CapturedPacket> {
    if ring == [] then Empty
    else
      var p := ring[|ring| - 1];
      Entry(IndexOfRing(ring[..|ring| - 1]), p.id, p)
  }

  /** No id occurs twice in the ring, and the index holds exactly the ring's packets in ring order. */
  ghost predicate Agrees(s: Store) {
    NoIdTwice(s.ring) && s.index == IndexOfRing(s.ring)
  }

  lemma {:induction false} IndexOfRingKeys(ring: seq<CapturedPacket>)
    ensures IndexOfRing(ring).KeySet() == IdSet(ring)
  {
    if ring != [] {
      IndexOfRingKeys(ring[..|ring| - 1]);
      assert IdSet(ring) == IdSet(ring[..|ring| - 1]) + {ring[|ring| - 1].id};
    }
  }

  lemma {:induction false} IndexOfRingLists(ring: seq<CapturedPacket>)
    requires NoIdTwice(ring)
    ensures var m := IndexOfRing(ring); m.Unique() && m.Keys() == Ids(ring) && m.Values() == ring
  {
    if ring != [] {
      var front := ring[..|ring| - 1];
      IndexOfRingLists(front);
      IndexOfRingKeys(front);
      assert ring == front + [ring[|ring| - 1]];
    }
  }

  lemma {:induction false} IndexOfRingFinds(ring: seq<CapturedPacket>, p: CapturedPacket)
    requires NoIdTwice(ring) && p in ring
    ensures IndexOfRing(ring).Get(p.id) == Some(p)
  {
    var front, last := ring[..|ring| - 1], ring[|ring| - 1];
    if p in front {
      assert p.id in IdSet(front);
      IndexOfRingFinds(front, p);
    } else {
      assert ring == front + [last];
    }
  }

  /** What agreement says key by key. */
  lemma AgreementInFull(s: Store, p: CapturedPacket)
    requires Agrees(s)
    ensures s.index.Unique() && s.index.Keys() == Ids(s.ring) && s.index.Values() == s.ring
    ensures p in s.ring ==> s.index.Get(p.id) == Some(p)
  {
    IndexOfRingLists(s.ring);
    if p in s.ring {
      IndexOfRingFinds(s.ring, p);
    }
  }

  lemma AddUnrolled(capacity: nat, s: Store, p: CapturedPacket)
    requires s.Fits(capacity) && capacity >= 1
    ensures AddTo(capacity, s, p) ==
            if |s.ring| < capacity then Store(s.ring + [p], s.index.Put(p.id, p))
            else Store(s.ring[1..] + [p], s.index.Put(p.id, p).Remove(s.ring[0].id))
  {
    if |s.ring| == capacity {
      var full := Store(s.ring + [p], s.index.Put(p.id, p));
      assert full.ring[1..] == s.ring[1..] + [p];
      assert Evict(capacity, full)
          == Evict(capacity, Store(full.ring[1..], full.index.Remove(full.ring[0].id)));
    }
  }

  lemma {:induction false} DropOldest(ring: seq<CapturedPacket>)
    requires ring != [] && NoIdTwice(ring)
    ensures NoIdTwice(ring[1..])
    ensures IndexOfRing(ring).Remove(ring[0].id) == IndexOfRing(ring[1..])
  {
    var front, p := ring[..|ring| - 1], ring[|ring| - 1];
    if front != [] {
      DropOldest(front);
      assert ring[0] in front;
      assert ring[1..][..|ring| - 2] == front[1..];
      assert IdSet(front[1..]) <= IdSet(front);
    } else {
      assert IndexOfRing(front) == Empty;
    }
  }

  lemma FreshAddKeepsAgreement(capacity: nat, s: Store, p: CapturedPacket)
    requires s.Fits(capacity) && capacity >= 1 && Agrees(s)
    requires p.id !in IdSet(s.ring)
    ensures Agrees(AddTo(capacity, s, p))
  {
    AddUnrolled(capacity, s, p);
    IndexOfRingKeys(s.ring);
    HasIsMember(s.index, p.id);
    var grown := s.ring + [p];
    assert grown[..|s.ring|] == s.ring;
    assert NoIdTwice(grown) && IndexOfRing(grown) == s.index.Put(p.id, p);
    if |s.ring| == capacity {
      DropOldest(grown);
      assert grown[1..] == s.ring[1..] + [p];
    }
  }

  lemma StaleAddBreaksAgreement(capacity: nat, s: Store, p: CapturedPacket)
    requires s.Fits(capacity) && capacity >= 1 && Agrees(s)
    requires p.id in IdSet(s.ring)
    ensures !Agrees(AddTo(capacity, s, p))
  {
    AddUnrolled(capacity, s, p);
    var r := AddTo(capacity, s, p);
    var rest := if |s.ring| < capacity then s.ring else s.ring[1..];
    assert r.ring == rest + [p] && r.ring[..|rest|] == rest;
    var q :| q in s.ring && q.id == p.id;
    if q !in rest {
      IndexOfRingKeys(r.ring);
      HasIsMember(r.index, p.id);
      GetRemove(s.index.Put(p.id, p), p.id, p.id);
      assert p in r.ring;
    }
  }

  /** A live add keeps ring and index in exact agreement if and only if its id is not in the ring. */
  lemma AddKeepsAgreementIff(capacity: nat, s: Store, p: CapturedPacket)
    requires s.Fits(capacity) && capacity >= 1 && Agrees(s)
    ensures Agrees(AddTo(capacity, s, p)) <==> p.id !in IdSet(s.ring)
  {
    if p.id !in IdSet(s.ring) {
      FreshAddKeepsAgreement(capacity, s, p);
    } else {
      StaleAddBreaksAgreement(capacity, s, p);
    }
  }

  /** An import keeps agreement whatever the file holds: nulls, missing ids, duplicates, or overflow. */
  lemma {:induction false} ImportKeepsAgreement(capacity: nat, s: Store, ps: seq<Option<CapturedPacket>>)
    requires s.Fits(capacity) && capacity >= 1 && Agrees(s)
    ensures Agrees(ImportAll(capacity, s, ps).store)
  {
    if ps != [] {
      ImportKeepsAgreement(capacity, s, ps[..|ps| - 1]);
      var before := ImportAll(capacity, s, ps[..|ps| - 1]).store;
      var p := ps[|ps| - 1];
      if Importable(before, p) {
        IndexOfRingKeys(before.ring);
        HasIsMember(before.index, p.value.id);
        AddKeepsAgreementIff(capacity, before, p.value);
      }
    }
  }

  /** Every live add of the history carries an id that is not in the ring at that moment. */
  ghost predicate FreshAdds(capacity: nat, ops: seq<Op>) {
    ops != [] ==>
      && FreshAdds(capacity, ops[..|ops| - 1])
      && (ops[|ops| - 1].Add? ==>
            ops[|ops| - 1].packet.id !in IdSet(Replay(capacity, ops[..|ops| - 1]).store.ring))
  }

  lemma {:induction false} FreshHistoriesAgree(capacity: nat, ops: seq<Op>)
    requires capacity >= 1 && FreshAdds(capacity, ops)
    ensures Agrees(Replay(capacity, ops).store)
  {
    if ops != [] {
      var before := Replay(capacity, ops[..|ops| - 1]).store;
      FreshHistoriesAgree(capacity, ops[..|ops| - 1]);
      match ops[|ops| - 1]
      case Add(p) => AddKeepsAgreementIff(capacity, before, p);
      case Load(ps) => ImportKeepsAgreement(capacity, before, ps);
      case Clear =>
    }
  }

  // ---- reading one run ----

  lemma FilterDropsFirst(keep: CapturedPacket -> bool, s: seq<CapturedPacket>)
    requires s != []
    ensures Filter(keep, s) == (if keep(s[0]) then [s[0]] else []) + Filter(keep, s[1..])
  {
    FilterConcat(keep, [s[0]], s[1..]);
    assert [s[0]] + s[1..] == s;
    assert [s[0]][..0] == [];
  }

  lemma FilterShrinks(keep: CapturedPacket -> bool, s: seq<CapturedPacket>)
    requires s != []
    ensures var all, rest := Filter(keep, s), Filter(keep, s[1..]);
            |rest| <= |all| <= |rest| + 1 && rest == LastN(all, |rest|)
  {
    FilterDropsFirst(keep, s);
  }

  /** With a positive limit a reader gets the run's packets from some point on: exactly `limit`, or all, if fewer. */
  lemma {:induction false} RecentIsTailOfRun(ring: seq<CapturedPacket>, run: Uuid, limit: nat) returns (cut: nat)
    requires limit > 0
    ensures cut <= |ring|
    ensures var ofRun := (p: CapturedPacket) => p.runId == Some(run);
            var answer := RecentOf(ring, Some(run), limit);
            && answer == Filter(ofRun, ring[cut..])
            && |answer| <= limit
            && (cut == 0 || |answer| == limit)
  {
    var ofRun := (p: CapturedPacket) => p.runId == Some(run);
    if |Filter(ofRun, ring)| <= limit {
      cut := 0;
      assert ring[0..] == ring;
    } else {
      FilterShrinks(ofRun, ring);
      var later := RecentIsTailOfRun(ring[1..], run, limit);
      assert ring[1..][later..] == ring[later + 1..];
      cut := later + 1;
      TailOfTail(Filter(ofRun, ring), Filter(ofRun, ring[1..]), limit);
    }
  }

  lemma {:induction false} FilterSame<T>(f: T -> bool, g: T -> bool, s: seq<T>)
    requires forall x | x in s :: f(x) == g(x)
    ensures Filter(f, s) == Filter(g, s)
  {
    if s != [] {
      assert forall x | x in s[..|s| - 1] :: x in s;
      FilterSame(f, g, s[..|s| - 1]);
      assert s[|s| - 1] in s;
    }
  }

  /**
   * Asked for a run, a reader gets that run's packets, otherwise all of them; without a limit from the oldest one on,
   * and with a limit from some point on: exactly that many, or all, if there are fewer.
   */
  lemma RecentMeans(ring: seq<CapturedPacket>, run: Option<Uuid>, limit: int) returns (cut: nat)
    ensures cut <= |ring|
    ensures var wanted := (p: CapturedPacket) => run.Some? ==> p.runId == run;
            var answer := RecentOf(ring, run, limit);
            && answer == Filter(wanted, ring[cut..])
            && (limit <= 0 ==> cut == 0)
            && (limit > 0 ==> |answer| <= limit && (cut == 0 || |answer| == limit))
  {
    var wanted := (p: CapturedPacket) => run.Some? ==> p.runId == run;
    if run.None? {
      cut := if limit <= 0 || |ring| <= limit then 0 else |ring| - limit;
      if cut < |ring| {
        FilterMeans(wanted, ring[cut..], ring[cut]);
      }
      assert Filter(wanted, ring[cut..]) == ring[cut..];
    } else {
      if limit > 0 {
        cut := RecentIsTailOfRun(ring, run.value, limit);
      } else {
        cut := 0;
        assert ring[0..] == ring;
      }
      FilterSame((p: CapturedPacket) => p.runId == Some(run.value), wanted, ring[cut..]);
      FilterSame((p: CapturedPacket) => p.runId == run, wanted, ring[cut..]);
    }
  }

  lemma TailOfTail<T>(all: seq<T>, rest: seq<T>, n: nat)
    requires |rest| >= n && |rest| <= |all| && rest == LastN(all, |rest|)
    ensures LastN(all, n) == LastN(rest, n)
  {
  }

  // ---- loading a file twice ----

  /** The ids a file offers. */
  ghost function OfferedIds(ps: seq<Option<CapturedPacket>>): set<Option<Uuid>> {
    set p | p in ps && p.Some? && p.value.id.Some? :: p.value.id
  }

  /** A load changes nothing if and only if every id it offers is already indexed. */
  lemma {:induction false} LoadIsNoOpIff(capacity: nat, s: Store, ps: seq<Option<CapturedPacket>>)
    requires s.Fits(capacity)
    ensures ImportAll(capacity, s, ps).taken == [] <==> OfferedIds(ps) <= s.index.KeySet()
    ensures ImportAll(capacity, s, ps).taken == [] ==> ImportAll(capacity, s, ps).store == s
  {
    if ps != [] {
      var front, p := ps[..|ps| - 1], ps[|ps| - 1];
      LoadIsNoOpIff(capacity, s, front);
      assert ps == front + [p];
      assert forall q :: q in ps <==> q in front || q == p;
      assert OfferedIds(front) <= OfferedIds(ps);
      if p.Some? && p.value.id.Some? {
        HasIsMember(s.index, p.value.id);
        assert p.value.id in OfferedIds(ps);
        assert OfferedIds(ps) == OfferedIds(front) + {p.value.id};
      } else {
        assert OfferedIds(ps) == OfferedIds(front);
      }
    }
  }

  /** While nothing is evicted the index only gains ids, and ends up with all the ids offered. */
  lemma {:induction false} RoomyLoadIndexesAll(capacity: nat, s: Store, ps: seq<Option<CapturedPacket>>)
    requires s.Fits(capacity)
    requires |s.ring| + |ImportAll(capacity, s, ps).taken| <= capacity
    ensures var r := ImportAll(capacity, s, ps);
            && r.store.ring == s.ring + r.taken
            && r.store.index.KeySet() == s.index.KeySet() + OfferedIds(ps)
  {
    if ps == [] {
      assert s.ring + [] == s.ring;
    } else {
      var front, p := ps[..|ps| - 1], ps[|ps| - 1];
      assert forall q :: q in ps <==> q in front || q == p;
      RoomyLoadIndexesAll(capacity, s, front);
      if p.Some? && p.value.id.Some? {
        var before := ImportAll(capacity, s, front).store;
        HasIsMember(before.index, p.value.id);
        PutKeys(before.index, p.value.id, p.value);
        assert OfferedIds(ps) == OfferedIds(front) + {p.value.id};
      } else {
        assert OfferedIds(ps) == OfferedIds(front);
      }
    }
  }

  /** Loading the same file twice changes nothing when the first load evicted nothing. */
  lemma ReloadAfterRoomyLoad(capacity: nat, s: Store, ps: seq<Option<CapturedPacket>>)
    requires s.Fits(capacity)
    requires |s.ring| + |ImportAll(capacity, s, ps).taken| <= capacity
    ensures var first := ImportAll(capacity, s, ps);
            ImportAll(capacity, first.store, ps) == Import(first.store, [])
  {
    RoomyLoadIndexesAll(capacity, s, ps);
    LoadIsNoOpIff(capacity, ImportAll(capacity, s, ps).store, ps);
  }

  lemma {:induction false} LoadIntoEmpty(capacity: nat, ps: seq<Option<CapturedPacket>>)
    requires |OfferedIds(ps)| <= capacity
    ensures |ImportAll(capacity, EMPTY_STORE, ps).taken| == |OfferedIds(ps)|
  {
    if ps != [] {
      var front, p := ps[..|ps| - 1], ps[|ps| - 1];
      assert forall q :: q in ps <==> q in front || q == p;
      assert OfferedIds(front) <= OfferedIds(ps);
      SubsetCardinality(OfferedIds(front), OfferedIds(ps));
      LoadIntoEmpty(capacity, front);
      RoomyLoadIndexesAll(capacity, EMPTY_STORE, front);
      if p.Some? && p.value.id.Some? {
        HasIsMember(ImportAll(capacity, EMPTY_STORE, front).store.index, p.value.id);
        assert OfferedIds(ps) == OfferedIds(front) + {p.value.id};
      } else {
        assert OfferedIds(ps) == OfferedIds(front);
      }
    }
  }

  /** Into an empty store, a second load of any file adds nothing if and only if the file's distinct ids fit. */
  lemma ReloadIntoEmptyIff(capacity: nat, ps: seq<Option<CapturedPacket>>)
    requires capacity >= 1
    ensures var first := ImportAll(capacity, EMPTY_STORE, ps).store;
            && (ImportAll(capacity, first, ps).taken == [] <==> |OfferedIds(ps)| <= capacity)
            && (ImportAll(capacity, first, ps).taken == [] ==> ImportAll(capacity, first, ps).store == first)
  {
    var first := ImportAll(capacity, EMPTY_STORE, ps).store;
    LoadIsNoOpIff(capacity, first, ps);
    if |OfferedIds(ps)| <= capacity {
      LoadIntoEmpty(capacity, ps);
      RoomyLoadIndexesAll(capacity, EMPTY_STORE, ps);
    } else {
      ImportKeepsAgreement(capacity, EMPTY_STORE, ps);
      IndexOfRingKeys(first.ring);
      IdSetSize(first.ring);
      if OfferedIds(ps) <= first.index.KeySet() {
        SubsetCardinality(OfferedIds(ps), first.index.KeySet());
        assert false;
      }
    }
  }

  /** No packet without an id, and no id twice. */
  ghost predicate DuplicateFree(ps: seq<CapturedPacket>) {
    && (forall i :: 0 <= i < |ps| ==> ps[i].id.Some?)
    && (forall i, j :: 0 <= i < j < |ps| ==> ps[i].id != ps[j].id)
  }

  /** With `past` accepted before, no packet of `ps` finds its id in the ring when its turn comes. */
  ghost predicate FreshThroughout(capacity: nat, past: seq<CapturedPacket>, ps: seq<CapturedPacket>) {
    forall j :: 0 <= j < |ps| ==> ps[j].id !in IdSet(LastN(past + ps[..j], capacity))
  }

  lemma FreshIsImportable(s: Store, p: CapturedPacket)
    requires Agrees(s) && p.id.Some? && p.id !in IdSet(s.ring)
    ensures Importable(s, Some(p))
  {
    IndexOfRingKeys(s.ring);
    HasIsMember(s.index, p.id);
  }

  /** A load of packets that are fresh in their turn takes them all: the ring slides along what went before. */
  lemma {:induction false} SlidingLoad(capacity: nat, s: Store, past: seq<CapturedPacket>, ps: seq<CapturedPacket>)
    requires capacity >= 1 && s.Fits(capacity) && Agrees(s)
    requires s.ring == LastN(past, capacity)
    requires forall i :: 0 <= i < |ps| ==> ps[i].id.Some?
    requires FreshThroughout(capacity, past, ps)
    ensures var r := ImportAll(capacity, s, Present(ps));
            r.taken == ps && r.store.ring == LastN(past + ps, capacity)
  {
    if ps == [] {
      assert past + ps == past;
    } else {
      var n := |ps| - 1;
      var front, p := ps[..n], ps[n];
      forall j | 0 <= j < |front|
        ensures front[j].id !in IdSet(LastN(past + front[..j], capacity))
      {
        assert front[..j] == ps[..j] && front[j] == ps[j];
      }
      SlidingLoad(capacity, s, past, front);
      ImportKeepsAgreement(capacity, s, Present(front));
      FreshIsImportable(ImportAll(capacity, s, Present(front)).store, p);
      SlideStep(capacity, s, past + front, front, p);
      OneMore(past, ps);
    }
  }

  lemma OneMore<T>(past: seq<T>, ps: seq<T>)
    requires ps != []
    ensures ps[..|ps| - 1] + [ps[|ps| - 1]] == ps
    ensures past + ps[..|ps| - 1] + [ps[|ps| - 1]] == past + ps
  {
  }

  lemma SlideStep(capacity: nat, s: Store, whole: seq<CapturedPacket>, front: seq<CapturedPacket>, p: CapturedPacket)
    requires s.Fits(capacity)
    requires var r := ImportAll(capacity, s, Present(front));
             r.taken == front && r.store.ring == LastN(whole, capacity) && Importable(r.store, Some(p))
    ensures var r := ImportAll(capacity, s, Present(front + [p]));
            r.taken == front + [p] && r.store.ring == LastN(whole + [p], capacity)
  {
    PresentOneMore(front, p);
    ImportOneMore(capacity, s, Present(front), Some(p));
    WindowExtends(whole, ImportAll(capacity, s, Present(front)).store.ring, [p], capacity);
  }

  lemma ImportOneMore(capacity: nat, s: Store, ps: seq<Option<CapturedPacket>>, q: Option<CapturedPacket>)
    requires s.Fits(capacity)
    ensures var before := ImportAll(capacity, s, ps);
            ImportAll(capacity, s, ps + [q]) ==
            if Importable(before.store, q)
            then Import(AddTo(capacity, before.store, q.value), before.taken + [q.value]) else before
  {
    assert (ps + [q])[..|ps|] == ps;
  }

  lemma RotationIsFresh(capacity: nat, ps: seq<CapturedPacket>)
    requires DuplicateFree(ps)
    ensures FreshThroughout(capacity, [], ps)
    ensures |ps| > capacity ==> FreshThroughout(capacity, ps, ps)
  {
    forall j | 0 <= j < |ps|
      ensures ps[j].id !in IdSet(LastN([] + ps[..j], capacity))
      ensures |ps| > capacity ==> ps[j].id !in IdSet(LastN(ps + ps[..j], capacity))
    {
      forall q | q in LastN([] + ps[..j], capacity)
        ensures q.id != ps[j].id
      {
        assert q in ps[..j];
      }
      if |ps| > capacity {
        var window := LastN(ps + ps[..j], capacity);
        forall k | 0 <= k < |window|
          ensures window[k].id != ps[j].id
        {
          var i := |ps| + j - capacity + k;
          assert window[k] == (ps + ps[..j])[i];
        }
      }
    }
  }

  /**
   * A duplicate-free file loaded twice into an empty store of any capacity leaves the same store as
   * loading it once.  The second load adds nothing when the file fits; when it does not, every packet is
   * re-added, in one full rotation of the ring.
   */
  lemma DuplicateFreeReload(capacity: nat, ps: seq<CapturedPacket>)
    requires capacity >= 1 && DuplicateFree(ps)
    ensures var first := ImportAll(capacity, EMPTY_STORE, Present(ps));
            var second := ImportAll(capacity, first.store, Present(ps));
            && first.taken == ps
            && first.store.ring == LastN(ps, capacity)
            && second.store == first.store
            && second.taken == if |ps| <= capacity then [] else ps
  {
    RotationIsFresh(capacity, ps);
    assert [] + ps == ps;
    SlidingLoad(capacity, EMPTY_STORE, [], ps);
    var first := ImportAll(capacity, EMPTY_STORE, Present(ps));
    ImportKeepsAgreement(capacity, EMPTY_STORE, Present(ps));
    if |ps| <= capacity {
      ReloadAfterRoomyLoad(capacity, EMPTY_STORE, Present(ps));
    } else {
      FullRotation(capacity, first.store, ps);
    }
  }

  lemma LongTail<T>(a: seq<T>, b: seq<T>, n: nat)
    requires |b| >= n
    ensures LastN(a + b, n) == LastN(b, n)
  {
  }

  lemma FullRotation(capacity: nat, s: Store, ps: seq<CapturedPacket>)
    requires capacity >= 1 && DuplicateFree(ps) && |ps| > capacity
    requires Agrees(s) && s.ring == LastN(ps, capacity)
    ensures ImportAll(capacity, s, Present(ps)) == Import(s, ps)
  {
    RotationIsFresh(capacity, ps);
    SlidingLoad(capacity, s, ps, ps);
    ImportKeepsAgreement(capacity, s, Present(ps));
    LongTail(ps, ps, capacity);
  }

  lemma PresentTwo(p: CapturedPacket, q: CapturedPacket)
    ensures Present([p, q]) == [Some(p)] + [Some(q)]
  {
    PresentOneMore([], p);
    PresentOneMore([p], q);
    assert [] + [p] == [p] && [p] + [q] == [p, q] && Present<CapturedPacket>([]) + [Some(p)] == [Some(p)];
  }

  lemma ImportOne(capacity: nat, s: Store, p: CapturedPacket)
    requires s.Fits(capacity)
    ensures ImportAll(capacity, s, [Some(p)]) ==
            if Importable(s, Some(p)) then Import(AddTo(capacity, s, p), [p]) else Import(s, [])
  {
    hide AddTo, Importable;
    ImportOneMore(capacity, s, [], Some(p));
    assert ImportAll(capacity, s, []) == Import(s, []);
    assert [] + [Some(p)] == [Some(p)] && [] + [p] == [p];
  }

  lemma LoadOfTwo(capacity: nat, s: Store, p: CapturedPacket, q: CapturedPacket)
    requires s.Fits(capacity)
    ensures var first := if Importable(s, Some(p)) then Import(AddTo(capacity, s, p), [p]) else Import(s, []);
            ImportAll(capacity, s, Present([p, q])) ==
            if Importable(first.store, Some(q))
            then Import(AddTo(capacity, first.store, q), first.taken + [q]) else first
  {
    hide AddTo, Importable, ImportAll, Present;
    ImportOne(capacity, s, p);
    ImportOneMore(capacity, s, [Some(p)], Some(q));
    PresentTwo(p, q);
  }

  /**
   * The promise fails on a store that already holds packets: with capacity 2 and [a, x] in the ring, a first load
   * of [a, b] leaves [x, b], and a second load of the same file leaves [b, a].
   */
  lemma ReloadCanChangeTheRing(a: CapturedPacket, b: CapturedPacket, x: CapturedPacket)
    requires a.id == Some(0) && b.id == Some(1) && x.id == Some(2)
    ensures var s := AddTo(2, AddTo(2, EMPTY_STORE, a), x);
            var once := ImportAll(2, s, Present([a, b])).store;
            var twice := ImportAll(2, once, Present([a, b]));
            s.ring == [a, x] && once.ring == [x, b] && twice.store.ring == [b, a] && twice.taken == [a]
  {
    SmallAdds(a, x);
    var s := AddTo(2, AddTo(2, EMPTY_STORE, a), x);
    LoadOfTwo(2, s, a, b);
    FullAdd(a, x, b);
    var once := ImportAll(2, s, Present([a, b])).store;
    LoadOfTwo(2, once, a, b);
    FullAdd(x, b, a);
    assert once == Two(x, b);
    FullAdd(b, a, x);
  }

  function Two(p: CapturedPacket, q: CapturedPacket): Store {
    Store([p, q], Entry(Entry(Empty, p.id, p), q.id, q))
  }

  lemma SmallAdds(p: CapturedPacket, q: CapturedPacket)
    requires p.id != q.id
    ensures AddTo(2, AddTo(2, EMPTY_STORE, p), q) == Two(p, q)
  {
    AddUnrolled(2, EMPTY_STORE, p);
    assert [] + [p] == [p] && [p] + [q] == [p, q];
    var one := Store([p], Entry(Empty, p.id, p));
    assert AddTo(2, EMPTY_STORE, p) == one;
    AddUnrolled(2, one, q);
    HasIsMember(one.index, q.id);
  }

  lemma FullAdd(p: CapturedPacket, q: CapturedPacket, r: CapturedPacket)
    requires p.id != q.id && q.id != r.id && p.id != r.id
    ensures Importable(Two(p, q), Some(r)) <==> r.id.Some?
    ensures !Importable(Two(p, q), Some(p)) && !Importable(Two(p, q), Some(q))
    ensures AddTo(2, Two(p, q), r) == Two(q, r)
  {
    var s := Two(p, q);
    assert s.index.older.KeySet() == {p.id};
    HasIsMember(s.index, r.id);
    HasIsMember(s.index, p.id);
    HasIsMember(s.index, q.id);
    AddUnrolled(2, s, r);
    assert s.ring[1..] + [r] == [q, r];
    assert s.index.older.Remove(p.id) == Empty;
    assert s.index.Put(r.id, r).Remove(p.id) == Entry(s.index.Remove(p.id), r.id, r);
  }
}
