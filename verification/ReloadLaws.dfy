/** Exactly when a load leaves the packet store as it was: it adds nothing, or it turns the whole ring over once. */
module ReloadLaws {
  import opened Common
  import opened LinkedMaps
  import opened PacketStore
  import opened PacketStoreLaws

  /** The packets of a file that have an id; a load passes over the others. */
  function Usable(file: seq<Option<CapturedPacket>>): (ps: seq<CapturedPacket>)
    ensures forall i :: 0 <= i < |ps| ==> ps[i].id.Some?
  {
    if file == [] then []
    else
      var p := file[|file| - 1];
      Usable(file[..|file| - 1]) + (if p.Some? && p.value.id.Some? then [p.value] else [])
  }

  /** No two packets that have an id share it. */
  ghost predicate DistinctIds(file: seq<Option<CapturedPacket>>) {
    DuplicateFree(Usable(file))
  }

  lemma UsableOneMore(file: seq<Option<CapturedPacket>>, p: Option<CapturedPacket>)
    ensures Usable(file + [p]) == if p.Some? && p.value.id.Some? then Usable(file) + [p.value] else Usable(file)
  {
    assert (file + [p])[..|file|] == file;
  }

  lemma {:induction false} UsableAreOffered(file: seq<Option<CapturedPacket>>)
    ensures OfferedIds(file) == OfferedIds(Present(Usable(file)))
  {
    if file != [] {
      hide Usable, OfferedIds;
      var front, p := file[..|file| - 1], file[|file| - 1];
      assert file == front + [p];
      UsableAreOffered(front);
      UsableOneMore(front, p);
      OneMoreOffered(front, p);
      if p.Some? && p.value.id.Some? {
        PresentOneMore(Usable(front), p.value);
        OneMoreOffered(Present(Usable(front)), p);
      }
    }
  }

  lemma {:induction false} OnlyUsableMatters(capacity: nat, s: Store, file: seq<Option<CapturedPacket>>)
    requires s.Fits(capacity)
    ensures ImportAll(capacity, s, file) == ImportAll(capacity, s, Present(Usable(file)))
  {
    if file != [] {
      hide AddTo, ImportAll, Usable;
      var front, p := file[..|file| - 1], file[|file| - 1];
      assert file == front + [p];
      OnlyUsableMatters(capacity, s, front);
      UsableOneMore(front, p);
      ImportOneMore(capacity, s, front, p);
      if p.Some? && p.value.id.Some? {
        PresentOneMore(Usable(front), p.value);
        ImportOneMore(capacity, s, Present(Usable(front)), p);
      }
    }
  }

  lemma OneMoreOffered(file: seq<Option<CapturedPacket>>, p: Option<CapturedPacket>)
    ensures OfferedIds(file + [p]) == OfferedIds(file) + (if p.Some? && p.value.id.Some? then {p.value.id} else {})
  {
    assert forall q :: q in file + [p] <==> q in file || q == p;
  }

  /** A ring without a repeated id is no shift of itself by less than its length. */
  lemma NoPartialRotation(capacity: nat, ring: seq<CapturedPacket>, taken: seq<CapturedPacket>)
    requires NoIdTwice(ring) && |ring| <= capacity && 0 < |taken| < capacity
    ensures ring != LastN(ring + taken, capacity)
  {
    DistinctIdsByPosition(ring);
    if |ring| == capacity {
      assert LastN(ring + taken, capacity)[0] == ring[|taken|];
    }
  }

  /**
   * A load of any file leaves an agreeing store as it was if and only if it adds nothing, or the packets it adds are
   * at least as many as the ring holds and the last of them are the ring.
   */
  lemma LoadKeepsStoreIff(capacity: nat, s: Store, file: seq<Option<CapturedPacket>>)
    requires capacity >= 1 && s.Fits(capacity) && Agrees(s)
    ensures var r := ImportAll(capacity, s, file);
            r.store == s <==> r.taken == [] || (|r.taken| >= capacity && LastN(r.taken, capacity) == s.ring)
  {
    var r := ImportAll(capacity, s, file);
    ImportRing(capacity, s, file);
    ImportKeepsAgreement(capacity, s, file);
    LoadIsNoOpIff(capacity, s, file);
    if |r.taken| >= capacity {
      LongTail(s.ring, r.taken, capacity);
    } else if r.taken != [] {
      NoPartialRotation(capacity, s.ring, r.taken);
    }
  }

  lemma {:induction false} TakenAreOffered(capacity: nat, s: Store, ps: seq<CapturedPacket>)
    requires s.Fits(capacity)
    ensures forall q | q in ImportAll(capacity, s, Present(ps)).taken :: q in ps
  {
    if ps != [] {
      hide AddTo, Importable;
      TakenAreOffered(capacity, s, ps[..|ps| - 1]);
    }
  }

  /** Without duplicates, the id of a packet passed over is not among those taken. */
  lemma {:induction false} PassedOverIsNotTaken(capacity: nat, s: Store, ps: seq<CapturedPacket>, n: nat)
    requires s.Fits(capacity) && DuplicateFree(ps) && n < |ps|
    requires !Importable(ImportAll(capacity, s, Present(ps[..n])).store, Some(ps[n]))
    ensures forall q | q in ImportAll(capacity, s, Present(ps)).taken :: q.id != ps[n].id
  {
    hide AddTo, Importable;
    var front, last := ps[..|ps| - 1], ps[|ps| - 1];
    if n == |ps| - 1 {
      TakenAreOffered(capacity, s, front);
    } else {
      assert front[..n] == ps[..n];
      PassedOverIsNotTaken(capacity, s, front, n);
    }
  }

  lemma LastNMembers<T>(s: seq<T>, n: nat)
    ensures forall x | x in LastN(s, n) :: x in s
  {
  }

  /** A packet whose id neither the ring nor the packets before it have is taken. */
  lemma NotInRing(capacity: nat, s: Store, front: seq<CapturedPacket>, p: CapturedPacket)
    requires capacity >= 1 && s.Fits(capacity) && Agrees(s) && p.id.Some?
    requires ImportAll(capacity, s, Present(front)).taken == front
    requires forall q | q in s.ring :: q.id != p.id
    requires forall q | q in front :: q.id != p.id
    ensures Importable(ImportAll(capacity, s, Present(front)).store, Some(p))
  {
    var before := ImportAll(capacity, s, Present(front)).store;
    ImportRing(capacity, s, Present(front));
    ImportKeepsAgreement(capacity, s, Present(front));
    forall q | q in before.ring
      ensures q.id != p.id
    {
      assert q in s.ring + front;
    }
    FreshIsImportable(before, p);
  }

  lemma OthersBefore(ps: seq<CapturedPacket>, n: nat)
    requires DuplicateFree(ps) && n < |ps|
    ensures ps[n].id.Some? && ps[..n + 1] == ps[..n] + [ps[n]]
    ensures forall q | q in ps[..n] :: q.id != ps[n].id
  {
  }

  /** When the ring is made of packets that were taken, no packet of the file was passed over. */
  lemma {:induction false} AllTaken(capacity: nat, s: Store, ps: seq<CapturedPacket>, n: nat)
    requires capacity >= 1 && s.Fits(capacity) && Agrees(s) && DuplicateFree(ps) && n <= |ps|
    requires s.ring == LastN(ImportAll(capacity, s, Present(ps)).taken, capacity)
    ensures ImportAll(capacity, s, Present(ps[..n])).taken == ps[..n]
  {
    if n > 0 {
      hide AddTo, Importable, ImportAll, Agrees, LastN, DuplicateFree, Present;
      var front, p := ps[..n - 1], ps[n - 1];
      AllTaken(capacity, s, ps, n - 1);
      OthersBefore(ps, n - 1);
      PresentOneMore(front, p);
      ImportOneMore(capacity, s, Present(front), Some(p));
      if !Importable(ImportAll(capacity, s, Present(front)).store, Some(p)) {
        PassedOverIsNotTaken(capacity, s, ps, n - 1);
        LastNMembers(ImportAll(capacity, s, Present(ps)).taken, capacity);
        NotInRing(capacity, s, front, p);
      }
    }
  }

  /**
   * A load of a file in which no id occurs twice leaves an agreeing store as it was if and only if all ids it offers
   * are indexed already, or it has more packets than the ring can hold and the ring holds its last ones.
   */
  lemma DistinctLoadKeepsStoreIff(capacity: nat, s: Store, file: seq<Option<CapturedPacket>>)
    requires capacity >= 1 && s.Fits(capacity) && Agrees(s) && DistinctIds(file)
    ensures ImportAll(capacity, s, file).store == s <==>
            || OfferedIds(file) <= s.index.KeySet()
            || (|Usable(file)| > capacity && s.ring == LastN(Usable(file), capacity))
  {
    hide ImportAll, Usable, OfferedIds, Agrees;
    var ps := Usable(file);
    OnlyUsableMatters(capacity, s, file);
    UsableAreOffered(file);
    LoadKeepsStoreIff(capacity, s, Present(ps));
    LoadIsNoOpIff(capacity, s, Present(ps));
    var taken := ImportAll(capacity, s, Present(ps)).taken;
    if |ps| > capacity && s.ring == LastN(ps, capacity) {
      FullRotation(capacity, s, ps);
    }
    if |taken| >= capacity && LastN(taken, capacity) == s.ring && taken != [] {
      AllTaken(capacity, s, ps, |ps|);
      assert ps[..|ps|] == ps;
      if |ps| <= capacity {
        AllIndexed(s, ps);
      }
    }
  }

  lemma AllIndexed(s: Store, ps: seq<CapturedPacket>)
    requires Agrees(s) && s.ring == ps
    ensures OfferedIds(Present(ps)) <= s.index.KeySet()
  {
    IndexOfRingKeys(s.ring);
    PresentMembers(ps);
  }

  lemma PresentMembers<T>(ps: seq<T>)
    ensures forall q | q in Present(ps) :: q.Some? && q.value in ps
  {
    PresentInPlace(ps);
  }
}
