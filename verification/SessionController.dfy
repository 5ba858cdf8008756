/** Saving everything captured as one session file, and loading a session file back. */
module SessionFiles {
  import opened Common
  import opened LinkedMaps
  import opened Text
  import opened PacketStore
  import opened PacketStoreLaws
  import opened ReloadLaws
  import opened RunStore

  const CURRENT_VERSION := 1

  /** Any part of a posted file may be missing. */
  datatype SessionFile = SessionFile(
    version: int, exportedAt: int,
    runs: Option<seq<Option<RunSummary>>>, packets: Option<seq<Option<CapturedPacket>>>)

  datatype ImportReply =
    | Imported(importedRuns: int, importedPackets: int, skippedPackets: int)
    | UnsupportedVersion(got: Option<int>)

  function OrEmpty<T>(s: Option<seq<T>>): seq<T> {
    if s.Some? then s.value else []
  }

  /** Upserts each usable run of a file, marked as restored. */
  function RestoreRuns(runs: Runs, file: seq<Option<RunSummary>>): Runs {
    if file == [] then runs
    else
      var before := RestoreRuns(runs, file[..|file| - 1]);
      var run := file[|file| - 1];
      if run.Some? && run.value.id.Some? then before.Put(run.value.id, run.value.AsRestored()) else before
  }

  /** The state behind the controller, as a value. */
  datatype Server = Server(packets: Store, runs: Runs)

  function ExportOf(s: Server, now: int): SessionFile {
    SessionFile(CURRENT_VERSION, now, Some(Present(Reverse(s.runs.Values()))), Some(Present(s.packets.ring)))
  }

  function ImportInto(capacity: nat, s: Server, file: SessionFile): Server
    requires s.packets.Fits(capacity)
  {
    if file.version != CURRENT_VERSION then s
    else Server(ImportAll(capacity, s.packets, OrEmpty(file.packets)).store,
                RestoreRuns(s.runs, OrEmpty(file.runs)))
  }

  const CLEARED := Server(EMPTY_STORE, Empty)

  class SessionController {
    const packets: PacketRepository
    const runs: RunRepository

    constructor (packets: PacketRepository, runs: RunRepository)
      ensures this.packets == packets && this.runs == runs
    {
      this.packets := packets;
      this.runs := runs;
    }

    function State(): Server
      reads packets, runs
    {
      Server(packets.State(), runs.runs)
    }

    /** Every run, newest first, and every packet of the ring, oldest first. */
    function Export(now: int): (file: SessionFile)
      reads packets, runs
      ensures file == ExportOf(State(), now)
      ensures file.version == CURRENT_VERSION && file.runs.Some? && file.packets.Some?
      ensures var listed := runs.runs.Values();
              && |file.runs.value| == |listed|
              && forall i :: 0 <= i < |listed| ==> file.runs.value[i] == Some(listed[|listed| - 1 - i])
      ensures |file.packets.value| == |packets.ring|
      ensures forall i :: 0 <= i < |packets.ring| ==> file.packets.value[i] == Some(packets.ring[i])
    {
      PresentInPlace(runs.Recent());
      PresentInPlace(packets.ring);
      SessionFile(CURRENT_VERSION, now, Some(Present(runs.Recent())), Some(Present(packets.ring)))
    }

    /** A file of another version is turned away before anything is changed. */
    method ImportSession(session: Option<SessionFile>) returns (reply: ImportReply)
      requires packets.Valid()
      modifies packets, runs
      ensures packets.Valid()
      ensures reply.UnsupportedVersion? <==> session.None? || session.value.version != CURRENT_VERSION
      ensures State() == if session.None? then old(State())
                         else ImportInto(packets.capacity, old(State()), session.value)
      ensures reply.Imported? ==>
                var file := session.value;
                && reply.importedRuns == |OrEmpty(file.runs)|
                && reply.importedPackets
                   == |ImportAll(packets.capacity, old(packets.State()), OrEmpty(file.packets)).taken|
                && reply.importedPackets + reply.skippedPackets == |OrEmpty(file.packets)|
    {
      if session.None? || session.value.version != CURRENT_VERSION {
        return UnsupportedVersion(if session.None? then None else Some(session.value.version));
      }
      var importedRuns := OrEmpty(session.value.runs);
      var importedPackets := OrEmpty(session.value.packets);
      for i := 0 to |importedRuns|
        invariant runs.runs == RestoreRuns(old(runs.runs), importedRuns[..i])
        invariant packets.Valid() && packets.State() == old(packets.State())
      {
        assert importedRuns[..i + 1][..i] == importedRuns[..i];
        var run := importedRuns[i];
        if run.Some? && run.value.id.Some? {
          runs.Upsert(run.value.AsRestored());
        }
      }
      assert importedRuns[..|importedRuns|] == importedRuns;
      var added := packets.ImportPackets(importedPackets);
      reply := Imported(|importedRuns|, added, |importedPackets| - added);
    }
  }

  /** Every run is stored under its own id, which is not null, and no id is stored twice. */
  ghost predicate KeyedById(runs: Runs) {
    runs.Entry? ==>
      && KeyedById(runs.older)
      && runs.key.Some? && runs.value.id == runs.key
      && runs.key !in runs.older.KeySet()
  }

  /** The same runs in the same order, each marked as restored. */
  function Restored(runs: seq<RunSummary>): (r: seq<RunSummary>)
    ensures |r| == |runs|
    ensures forall i :: 0 <= i < |runs| ==> r[i] == runs[i].(restored := true)
  {
    if runs == [] then [] else Restored(runs[..|runs| - 1]) + [runs[|runs| - 1].AsRestored()]
  }

  // ---- runs: what one load does, and that a second load of the same runs changes nothing ----

  /** The last usable run of a file with the given id. */
  function LastOffered(file: seq<Option<RunSummary>>, id: Option<Uuid>): Option<RunSummary> {
    if file == [] then None
    else
      var run := file[|file| - 1];
      if run.Some? && run.value.id.Some? && run.value.id == id then run else LastOffered(file[..|file| - 1], id)
  }

  /** After a load each id shows the file's last run of that id, restored, or else what it showed before. */
  lemma {:induction false} RestoredRunIsLastOffered(runs: Runs, file: seq<Option<RunSummary>>, id: Option<Uuid>)
    ensures RestoreRuns(runs, file).Get(id) ==
            if LastOffered(file, id).Some? then Some(LastOffered(file, id).value.(restored := true)) else runs.Get(id)
  {
    if file != [] {
      RestoredRunIsLastOffered(runs, file[..|file| - 1], id);
      var run := file[|file| - 1];
      if run.Some? && run.value.id.Some? {
        GetPut(RestoreRuns(runs, file[..|file| - 1]), run.value.id, run.value.AsRestored(), id);
      }
    }
  }

  /** A map whose keys all stay in place is determined by what it shows at each key. */
  lemma {:induction false} SameKeysSameMap<K, V>(m: LinkedMap<K, V>, n: LinkedMap<K, V>)
    requires m.Unique() && n.Unique() && m.Keys() == n.Keys()
    requires forall k | k in m.KeySet() :: m.Get(k) == n.Get(k)
    ensures m == n
  {
    assert m.Entry? <==> |m.Keys()| > 0;
    assert n.Entry? <==> |n.Keys()| > 0;
    if m.Entry? {
      assert m.Keys()[|m.Keys()| - 1] == n.Keys()[|n.Keys()| - 1];
      assert m.older.Keys() == m.Keys()[..|m.Keys()| - 1] == n.older.Keys();
      forall k | k in m.older.KeySet()
        ensures m.older.Get(k) == n.older.Get(k)
      {
        assert m.Get(k) == n.Get(k);
      }
      SameKeysSameMap(m.older, n.older);
      assert m.key == n.key && m.key in m.KeySet();
      assert m.Get(m.key) == n.Get(m.key);
    }
  }

  lemma {:induction false} RestoreKeepsKeys(runs: Runs, all: seq<Option<RunSummary>>, n: nat)
    requires runs.Unique() && n <= |all|
    requires forall id :: LastOffered(all, id).Some? ==> runs.Has(id)
    ensures RestoreRuns(runs, all[..n]).Keys() == runs.Keys()
    ensures RestoreRuns(runs, all[..n]).Unique()
  {
    if n > 0 {
      assert all[..n][..n - 1] == all[..n - 1];
      RestoreKeepsKeys(runs, all, n - 1);
      var run := all[n - 1];
      if run.Some? && run.value.id.Some? {
        var before := RestoreRuns(runs, all[..n - 1]);
        OfferedIsFound(all, n - 1);
        RestoredRunIsLastOffered(runs, all[..n - 1], run.value.id);
        assert before.Has(run.value.id);
        PutKeys(before, run.value.id, run.value.AsRestored());
      }
    }
  }

  lemma {:induction false} OfferedIsFound(file: seq<Option<RunSummary>>, i: nat)
    requires i < |file| && file[i].Some? && file[i].value.id.Some?
    ensures LastOffered(file, file[i].value.id).Some?
  {
    if i < |file| - 1 {
      OfferedIsFound(file[..|file| - 1], i);
    }
  }

  lemma {:induction false} RestoreStaysUnique(runs: Runs, file: seq<Option<RunSummary>>)
    requires runs.Unique()
    ensures RestoreRuns(runs, file).Unique()
  {
    if file != [] {
      RestoreStaysUnique(runs, file[..|file| - 1]);
      var run := file[|file| - 1];
      if run.Some? && run.value.id.Some? {
        PutKeys(RestoreRuns(runs, file[..|file| - 1]), run.value.id, run.value.AsRestored());
      }
    }
  }

  /** Loading the runs of any file a second time changes neither a run nor their order. */
  lemma RestoringTwiceIsRestoringOnce(runs: Runs, file: seq<Option<RunSummary>>)
    requires runs.Unique()
    ensures RestoreRuns(RestoreRuns(runs, file), file) == RestoreRuns(runs, file)
  {
    var once := RestoreRuns(runs, file);
    RestoreStaysUnique(runs, file);
    forall id
      ensures LastOffered(file, id).Some? ==> once.Has(id)
      ensures RestoreRuns(once, file).Get(id) == once.Get(id)
    {
      RestoredRunIsLastOffered(runs, file, id);
      RestoredRunIsLastOffered(once, file, id);
    }
    assert file[..|file|] == file;
    RestoreKeepsKeys(once, file, |file|);
    SameKeysSameMap(RestoreRuns(once, file), once);
  }

  // ---- the whole promise: loading the same file twice ----

  /**
   * After a first load, a second load of the same file adds nothing if and only if every packet id the file offers
   * survived the first load; and then it changes nothing.
   */
  lemma SecondLoadAddsNothingIff(capacity: nat, s: Server, file: SessionFile)
    requires s.packets.Fits(capacity) && s.runs.Unique() && file.version == CURRENT_VERSION
    ensures var once := ImportInto(capacity, s, file);
            var reload := ImportAll(capacity, once.packets, OrEmpty(file.packets));
            && (reload.taken == [] <==> OfferedIds(OrEmpty(file.packets)) <= once.packets.index.KeySet())
            && (reload.taken == [] ==> ImportInto(capacity, once, file) == once)
  {
    var once := ImportInto(capacity, s, file);
    RestoringTwiceIsRestoringOnce(s.runs, OrEmpty(file.runs));
    LoadIsNoOpIff(capacity, once.packets, OrEmpty(file.packets));
  }

  /**
   * Loading the same file twice changes nothing, for a file in which no packet id occurs twice, if and only if after
   * the first load all the ids it offers are still there, or the file has more packets than the ring can hold and the
   * ring holds its last ones; then the second load adds every packet again, in one full rotation.
   */
  lemma SecondLoadChangesNothingIff(capacity: nat, s: Server, file: SessionFile)
    requires capacity >= 1 && s.packets.Fits(capacity) && Agrees(s.packets) && s.runs.Unique()
    requires file.version == CURRENT_VERSION && DistinctIds(OrEmpty(file.packets))
    ensures var once := ImportInto(capacity, s, file);
            var usable := Usable(OrEmpty(file.packets));
            ImportInto(capacity, once, file) == once <==>
            || OfferedIds(OrEmpty(file.packets)) <= once.packets.index.KeySet()
            || (|usable| > capacity && once.packets.ring == LastN(usable, capacity))
  {
    var once := ImportInto(capacity, s, file);
    RestoringTwiceIsRestoringOnce(s.runs, OrEmpty(file.runs));
    ImportKeepsAgreement(capacity, s.packets, OrEmpty(file.packets));
    DistinctLoadKeepsStoreIff(capacity, once.packets, OrEmpty(file.packets));
  }

  /**
   * For any file at all, a second load changes nothing if and only if it adds nothing, or it adds at least as many
   * packets as the ring holds and the last of them are the ring.
   */
  lemma SecondLoadOfAnyFile(capacity: nat, s: Server, file: SessionFile)
    requires capacity >= 1 && s.packets.Fits(capacity) && Agrees(s.packets) && s.runs.Unique()
    requires file.version == CURRENT_VERSION
    ensures var once := ImportInto(capacity, s, file);
            var taken := ImportAll(capacity, once.packets, OrEmpty(file.packets)).taken;
            ImportInto(capacity, once, file) == once <==>
            taken == [] || (|taken| >= capacity && LastN(taken, capacity) == once.packets.ring)
  {
    var once := ImportInto(capacity, s, file);
    RestoringTwiceIsRestoringOnce(s.runs, OrEmpty(file.runs));
    ImportKeepsAgreement(capacity, s.packets, OrEmpty(file.packets));
    LoadKeepsStoreIff(capacity, once.packets, OrEmpty(file.packets));
  }

  // ---- save, clear, load ----

  lemma PacketsRoundTrip(capacity: nat, s: Store)
    requires capacity >= 1 && NoIdTwice(s.ring) && |s.ring| <= capacity
    requires forall i :: 0 <= i < |s.ring| ==> s.ring[i].id.Some?
    ensures ImportAll(capacity, EMPTY_STORE, Present(s.ring)) == Import(Store(s.ring, IndexOfRing(s.ring)), s.ring)
  {
    assert Agrees(EMPTY_STORE);
    hide NoIdTwice, IndexOfRing, ImportAll, Present;
    DistinctIdsByPosition(s.ring);
    DuplicateFreeReload(capacity, s.ring);
    ImportKeepsAgreement(capacity, EMPTY_STORE, Present(s.ring));
  }

  /** The map holding restored copies of the given runs, entered from the last one to the first. */
  function Backwards(runs: Runs, onto: Runs): Runs {
    match runs
    case Empty => onto
    case Entry(older, key, value) => Backwards(older, Entry(onto, key, value.AsRestored()))
  }

  lemma {:induction false} RestoreConcat(runs: Runs, a: seq<Option<RunSummary>>, b: seq<Option<RunSummary>>)
    ensures RestoreRuns(runs, a + b) == RestoreRuns(RestoreRuns(runs, a), b)
  {
    if b == [] {
      assert a + b == a;
    } else {
      RestoreConcat(runs, a, b[..|b| - 1]);
      assert (a + b)[..|a + b| - 1] == a + b[..|b| - 1];
    }
  }

  lemma {:induction false} PresentConcat<T>(a: seq<T>, b: seq<T>)
    ensures Present(a + b) == Present(a) + Present(b)
  {
    if b == [] {
      assert a + b == a;
    } else {
      PresentConcat(a, b[..|b| - 1]);
      assert (a + b)[..|a + b| - 1] == a + b[..|b| - 1];
    }
  }

  lemma {:induction false} ReverseOneMore<T>(s: seq<T>, x: T)
    ensures Reverse(s + [x]) == [x] + Reverse(s)
  {
    if s == [] {
      assert s + [x] == [x];
    } else {
      ReverseOneMore(s[1..], x);
      assert (s + [x])[1..] == s[1..] + [x];
    }
  }

  /** Loading the exported list of runs onto a map that has none of their ids enters them in reverse. */
  lemma {:induction false} RestoreExported(runs: Runs, onto: Runs)
    requires KeyedById(runs)
    requires runs.KeySet() !! onto.KeySet()
    ensures RestoreRuns(onto, Present(Reverse(runs.Values()))) == Backwards(runs, onto)
  {
    if runs.Entry? {
      var rest := Reverse(runs.older.Values());
      ReverseOneMore(runs.older.Values(), runs.value);
      PresentConcat([runs.value], rest);
      RestoreConcat(onto, Present([runs.value]), Present(rest));
      PresentOneMore([], runs.value);
      assert [] + [runs.value] == [runs.value] && Present<RunSummary>([]) + [Some(runs.value)] == [Some(runs.value)];
      assert [Some(runs.value)][..0] == [];
      HasIsMember(onto, runs.key);
      var next := Entry(onto, runs.key, runs.value.AsRestored());
      assert RestoreRuns(onto, [Some(runs.value)]) == next;
      RestoreExported(runs.older, next);
    }
  }

  function RestoredBackwards(runs: Runs): seq<RunSummary> {
    if runs.Empty? then [] else [runs.value.AsRestored()] + RestoredBackwards(runs.older)
  }

  lemma {:induction false} RestoredBackwardsIs(runs: Runs)
    ensures RestoredBackwards(runs) == Restored(Reverse(runs.Values()))
  {
    if runs.Entry? {
      RestoredBackwardsIs(runs.older);
      ReverseOneMore(runs.older.Values(), runs.value);
    }
  }

  lemma {:induction false} BackwardsLists(runs: Runs, onto: Runs)
    ensures Backwards(runs, onto).Values() == onto.Values() + RestoredBackwards(runs)
  {
    if runs.Entry? {
      var v := runs.value.AsRestored();
      var next := Entry(onto, runs.key, v);
      BackwardsLists(runs.older, next);
      Assoc(onto.Values(), [v], RestoredBackwards(runs.older));
    } else {
      assert onto.Values() + [] == onto.Values();
    }
  }

  lemma {:induction false} BackwardsKeyed(runs: Runs, onto: Runs)
    requires KeyedById(runs) && KeyedById(onto)
    requires runs.KeySet() !! onto.KeySet()
    ensures KeyedById(Backwards(runs, onto))
  {
    if runs.Entry? {
      BackwardsKeyed(runs.older, Entry(onto, runs.key, runs.value.AsRestored()));
    }
  }

  /** Reversing, then marking, twice over, only marks. */
  lemma TwoReversals(runs: seq<RunSummary>)
    ensures Restored(Reverse(Restored(Reverse(runs)))) == Restored(runs)
  {
  }

  /** What export, clear and import together make of a server. */
  function RoundTrip(capacity: nat, s: Server, now: int): Server {
    ImportInto(capacity, CLEARED, ExportOf(s, now))
  }

  /**
   * Save, clear, load, on a store of at least the size saved, when no packet id is null or occurs twice: the ring
   * comes back exactly, nothing is skipped, and the index comes back exactly if it held just the ring's packets in
   * ring order; the runs come back with only their restored mark set, listed in exactly the opposite order.
   */
  lemma SessionRoundTrip(capacity: nat, s: Server, now: int)
    requires capacity >= 1 && NoIdTwice(s.packets.ring) && |s.packets.ring| <= capacity && KeyedById(s.runs)
    requires forall i :: 0 <= i < |s.packets.ring| ==> s.packets.ring[i].id.Some?
    ensures var back := RoundTrip(capacity, s, now);
            && back.packets.ring == s.packets.ring && Agrees(back.packets)
            && (back.packets == s.packets <==> Agrees(s.packets))
            && back.runs.Values() == Restored(Reverse(s.runs.Values())) && KeyedById(back.runs)
    ensures ImportAll(capacity, EMPTY_STORE, OrEmpty(ExportOf(s, now).packets)).taken == s.packets.ring
  {
    PacketsRoundTrip(capacity, s.packets);
    RestoreExported(s.runs, Empty);
    BackwardsLists(s.runs, Empty);
    BackwardsKeyed(s.runs, Empty);
    RestoredBackwardsIs(s.runs);
    assert [] + RestoredBackwards(s.runs) == RestoredBackwards(s.runs);
  }

  /** Two round trips list the runs in their first order again. */
  lemma TwoRoundTripsRestoreTheOrder(capacity: nat, s: Server, now: int, later: int)
    requires capacity >= 1 && NoIdTwice(s.packets.ring) && |s.packets.ring| <= capacity && KeyedById(s.runs)
    requires forall i :: 0 <= i < |s.packets.ring| ==> s.packets.ring[i].id.Some?
    ensures var twice := RoundTrip(capacity, RoundTrip(capacity, s, now), later);
            twice.packets == RoundTrip(capacity, s, now).packets && twice.packets.ring == s.packets.ring
            && twice.runs.Values() == Restored(s.runs.Values())
  {
    SessionRoundTrip(capacity, s, now);
    SessionRoundTrip(capacity, RoundTrip(capacity, s, now), later);
    TwoReversals(s.runs.Values());
  }
}
