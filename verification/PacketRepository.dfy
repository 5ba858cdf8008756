/** The bounded packet store: a ring with an id index, live adds, and de-duplicating bulk import. */
module PacketStore {
  import opened Common
  import opened LinkedMaps

  /** The fields of a captured packet that the server reads; `rest` stands for all the others. */
  datatype CapturedPacket = CapturedPacket(
    id: Option<Uuid>, runId: Option<Uuid>, success: bool, url: string, groupThreads: int, rest: string)
  {
    function WithRunId(run: Uuid): CapturedPacket {
      this.(runId := Some(run))
    }
  }

  datatype Store = Store(ring: seq<CapturedPacket>, index: LinkedMap<Option<Uuid>, CapturedPacket>) {
    predicate Fits(capacity: nat) {
      |ring| <= capacity
    }
  }

  const EMPTY_STORE := Store([], Empty)

  function Ids(ring: seq<CapturedPacket>): seq<Option<Uuid>> {
    if ring == [] then [] else Ids(ring[..|ring| - 1]) + [ring[|ring| - 1].id]
  }

  // ---- one operation, as a function of the store ----

  /** Drops packets from the old end until the ring fits, unindexing each id dropped. */
  function Evict(capacity: nat, s: Store): (r: Store)
    ensures r.Fits(capacity)
    ensures r.ring == LastN(s.ring, capacity)
    decreases |s.ring|
  {
    if |s.ring| <= capacity then s
    else Evict(capacity, Store(s.ring[1..], s.index.Remove(s.ring[0].id)))
  }

  function AddTo(capacity: nat, s: Store, p: CapturedPacket): (r: Store)
    ensures r.Fits(capacity)
    ensures r.ring == LastN(s.ring + [p], capacity)
  {
    Evict(capacity, Store(s.ring + [p], s.index.Put(p.id, p)))
  }

  /** The store after a bulk import, and the packets that were let in. */
  datatype Import = Import(store: Store, taken: seq<CapturedPacket>)

  /** An imported element is let in when it is a packet, carries an id, and the id is not indexed. */
  predicate Importable(s: Store, p: Option<CapturedPacket>) {
    p.Some? && p.value.id.Some? && !s.index.Has(p.value.id)
  }

  function ImportAll(capacity: nat, s: Store, ps: seq<Option<CapturedPacket>>): (r: Import)
    requires s.Fits(capacity)
    ensures r.store.Fits(capacity)
    ensures |r.taken| <= |ps|
  {
    if ps == [] then Import(s, [])
    else
      var before := ImportAll(capacity, s, ps[..|ps| - 1]);
      var p := ps[|ps| - 1];
      if Importable(before.store, p)
      then Import(AddTo(capacity, before.store, p.value), before.taken + [p.value])
      else before
  }

  /** The packets a reader asking for `limit` of one run, or of all runs, receives. */
  function RecentOf(ring: seq<CapturedPacket>, run: Option<Uuid>, limit: int): seq<CapturedPacket> {
    var surviving := if run.Some? then Filter((p: CapturedPacket) => p.runId == run, ring) else ring;
    if limit <= 0 then surviving else LastN(surviving, limit)
  }

  // ---- the repository object ----

  class PacketRepository {
    const capacity: nat
    var ring: seq<CapturedPacket>
    var index: LinkedMap<Option<Uuid>, CapturedPacket>

    function State(): Store
      reads this
    {
      Store(ring, index)
    }

    ghost predicate Valid()
      reads this
    {
      State().Fits(capacity) && capacity >= 1
    }

    constructor (configuredSize: int)
      ensures Valid()
      ensures capacity == if configuredSize < 1 then 1 else configuredSize
      ensures State() == EMPTY_STORE
    {
      capacity := if configuredSize < 1 then 1 else configuredSize;
      ring := [];
      index := Empty;
    }

    method Add(packet: CapturedPacket)
      requires Valid()
      modifies this
      ensures Valid()
      ensures State() == AddTo(capacity, old(State()), packet)
    {
      ring := ring + [packet];
      index := index.Put(packet.id, packet);
      ghost var full := State();
      while |ring| > capacity
        invariant Evict(capacity, State()) == Evict(capacity, full)
        decreases |ring|
      {
        var evicted := ring[0];
        ring := ring[1..];
        index := index.Remove(evicted.id);
      }
    }

    method ImportPackets(packets: seq<Option<CapturedPacket>>) returns (added: nat)
      requires Valid()
      modifies this
      ensures Valid()
      ensures State() == ImportAll(capacity, old(State()), packets).store
      ensures added == |ImportAll(capacity, old(State()), packets).taken|
    {
      added := 0;
      for i := 0 to |packets|
        invariant Valid()
        invariant State() == ImportAll(capacity, old(State()), packets[..i]).store
        invariant added == |ImportAll(capacity, old(State()), packets[..i]).taken|
      {
        assert packets[..i + 1][..i] == packets[..i];
        var packet := packets[i];
        if packet.None? || packet.value.id.None? || index.Has(packet.value.id) {
          continue;
        }
        Add(packet.value);
        added := added + 1;
      }
      assert packets[..|packets|] == packets;
    }

    function Lookup(id: Option<Uuid>): Option<CapturedPacket>
      reads this
    {
      index.Get(id)
    }

    function Recent(run: Option<Uuid>, limit: int): seq<CapturedPacket>
      reads this
    {
      RecentOf(ring, run, limit)
    }

    method Clear()
      requires Valid()
      modifies this
      ensures Valid()
      ensures State() == EMPTY_STORE
    {
      ring := [];
      index := Empty;
    }
  }
}
