/** Which packets the page holds: those that arrived, in their order, the first of each id. */
module HeldPackets {
  import opened BrowserModel

  /** A held packet is one that arrived, in every field but the run that it may have been given. */
  predicate KeptFrom(arrived: Packet, held: Packet) {
    held == arrived.(runId := held.runId) && (arrived.runId != "" ==> held.runId == arrived.runId)
  }

  ghost predicate ArrivedBefore(arrivals: seq<Packet>, n: nat, id: Id)
    requires n <= |arrivals|
  {
    exists i :: 0 <= i < n && arrivals[i].id == id
  }

  /** Of the packets that arrived those are held, in that order, whose id had not arrived before. */
  ghost predicate HeldInOrder(arrivals: seq<Packet>, packets: seq<Packet>) {
    if arrivals == [] then packets == []
    else
      var n := |arrivals| - 1;
      if ArrivedBefore(arrivals, n, arrivals[n].id) then HeldInOrder(arrivals[..n], packets)
      else packets != [] && KeptFrom(arrivals[n], packets[|packets| - 1])
           && HeldInOrder(arrivals[..n], packets[..|packets| - 1])
  }

  /** Held packet `j` is the first that arrived with its id. */
  ghost predicate IsFirstOfItsId(arrivals: seq<Packet>, held: Packet) {
    exists i :: 0 <= i < |arrivals| && KeptFrom(arrivals[i], held) && !ArrivedBefore(arrivals, i, held.id)
  }

  lemma {:induction false} ArrivedIsHeld(arrivals: seq<Packet>, packets: seq<Packet>, i: nat)
    requires HeldInOrder(arrivals, packets) && i < |arrivals|
    ensures ArrivedBefore(packets, |packets|, arrivals[i].id)
  {
    hide KeptFrom;
    var n := |arrivals| - 1;
    var known := ArrivedBefore(arrivals, n, arrivals[n].id);
    var held := if known then packets else packets[..|packets| - 1];
    forall k | 0 <= k < n
      ensures ArrivedBefore(held, |held|, arrivals[..n][k].id)
    {
      ArrivedIsHeld(arrivals[..n], held, k);
    }
    LastIdIsHeld(arrivals, packets);
    HeldIdStays(arrivals[..n], held, packets, arrivals, i, known);
  }

  lemma LastIdIsHeld(arrivals: seq<Packet>, packets: seq<Packet>)
    requires HeldInOrder(arrivals, packets) && arrivals != []
    ensures var n := |arrivals| - 1;
            !ArrivedBefore(arrivals, n, arrivals[n].id) ==> packets != [] && packets[|packets| - 1].id == arrivals[n].id
  {
  }

  lemma {:induction false} HeldIsFirst(arrivals: seq<Packet>, packets: seq<Packet>, j: nat)
    requires HeldInOrder(arrivals, packets) && j < |packets|
    ensures IsFirstOfItsId(arrivals, packets[j])
  {
    var n := |arrivals| - 1;
    assert arrivals[..n] + [arrivals[n]] == arrivals;
    if !ArrivedBefore(arrivals, n, arrivals[n].id) && j == |packets| - 1 {
      assert KeptFrom(arrivals[n], packets[j]) && packets[j].id == arrivals[n].id;
    } else {
      var held := if ArrivedBefore(arrivals, n, arrivals[n].id) then packets else packets[..|packets| - 1];
      HeldIsFirst(arrivals[..n], held, j);
      FirstStays(arrivals[..n], arrivals[n], packets[j]);
    }
  }

  /** Every id that arrived is held, and every packet held is the first that arrived with its id. */
  lemma HeldMeans(arrivals: seq<Packet>, packets: seq<Packet>)
    requires HeldInOrder(arrivals, packets)
    ensures forall i :: 0 <= i < |arrivals| ==> ArrivedBefore(packets, |packets|, arrivals[i].id)
    ensures forall j :: 0 <= j < |packets| ==> IsFirstOfItsId(arrivals, packets[j])
  {
    hide HeldInOrder, IsFirstOfItsId, ArrivedBefore;
    forall i | 0 <= i < |arrivals|
      ensures ArrivedBefore(packets, |packets|, arrivals[i].id)
    {
      ArrivedIsHeld(arrivals, packets, i);
    }
    forall j | 0 <= j < |packets|
      ensures IsFirstOfItsId(arrivals, packets[j])
    {
      HeldIsFirst(arrivals, packets, j);
    }
  }

  lemma HeldIdStays(
      front: seq<Packet>, held: seq<Packet>, packets: seq<Packet>, arrivals: seq<Packet>, i: nat, known: bool)
    requires i < |arrivals| == |front| + 1 && front == arrivals[..|front|]
    requires forall k :: 0 <= k < |front| ==> ArrivedBefore(held, |held|, front[k].id)
    requires known <==> ArrivedBefore(arrivals, |front|, arrivals[|front|].id)
    requires if known then held == packets else
               packets != [] && held == packets[..|packets| - 1] && packets[|packets| - 1].id == arrivals[|front|].id
    ensures ArrivedBefore(packets, |packets|, arrivals[i].id)
  {
    if i < |front| || known {
      var k :| 0 <= k < |front| && arrivals[k].id == arrivals[i].id;
      assert ArrivedBefore(held, |held|, front[k].id);
      var j :| 0 <= j < |held| && held[j].id == front[k].id;
      assert packets[j].id == arrivals[i].id;
    } else {
      assert packets[|packets| - 1].id == arrivals[i].id;
    }
  }

  lemma FirstStays(front: seq<Packet>, a: Packet, held: Packet)
    requires IsFirstOfItsId(front, held)
    ensures IsFirstOfItsId(front + [a], held)
  {
    var i :| 0 <= i < |front| && KeptFrom(front[i], held) && !ArrivedBefore(front, i, held.id);
    var all := front + [a];
    assert all[i] == front[i];
    assert forall k :: 0 <= k < i ==> all[k] == front[k];
  }

  lemma SeenIffArrived(arrivals: seq<Packet>, packets: seq<Packet>, seen: set<Id>, p: Packet)
    requires HeldInOrder(arrivals, packets) && SeenOk(packets, seen)
    ensures p.id in seen <==> ArrivedBefore(arrivals + [p], |arrivals|, p.id)
  {
    hide HeldInOrder, SeenOk;
    HeldMeans(arrivals, packets);
    SeenIsHeld(packets, seen, p.id);
    var all := arrivals + [p];
    if p.id in seen {
      var j :| 0 <= j < |packets| && packets[j].id == p.id;
      assert IsFirstOfItsId(arrivals, packets[j]);
      var i :| 0 <= i < |arrivals| && KeptFrom(arrivals[i], packets[j]);
      assert all[i].id == p.id;
    }
    if ArrivedBefore(all, |arrivals|, p.id) {
      var i :| 0 <= i < |arrivals| && all[i].id == p.id;
      assert ArrivedBefore(packets, |packets|, arrivals[i].id);
    }
  }

  /** One more arrival: what the page holds goes on being what arrived. */
  lemma ArrivalHeld(arrivals: seq<Packet>, packets: seq<Packet>, seen: set<Id>, p: Packet, run: string)
    requires HeldInOrder(arrivals, packets) && SeenOk(packets, seen)
    ensures var (held, ids) := Received(packets, seen, p, run);
            HeldInOrder(arrivals + [p], held) && SeenOk(held, ids)
  {
    SeenIffArrived(arrivals, packets, seen, p);
    assert (arrivals + [p])[..|arrivals|] == arrivals;
    var stamped := Stamp(p, run);
    assert (packets + [stamped])[..|packets|] == packets;
    assert p.id !in seen ==> seen + {p.id} - {p.id} == seen;
  }

  lemma {:induction false} ArrivalsHeld(
      arrivals: seq<Packet>, packets: seq<Packet>, seen: set<Id>, recent: seq<Packet>, run: string)
    requires HeldInOrder(arrivals, packets) && SeenOk(packets, seen)
    ensures var (held, ids) := ReceivedAll(packets, seen, recent, run);
            HeldInOrder(arrivals + recent, held) && SeenOk(held, ids)
  {
    hide HeldInOrder, SeenOk, Received;
    if recent == [] {
      assert arrivals + recent == arrivals;
    } else {
      var front, p := recent[..|recent| - 1], recent[|recent| - 1];
      ArrivalsHeld(arrivals, packets, seen, front, run);
      var (held, ids) := ReceivedAll(packets, seen, front, run);
      ArrivalHeld(arrivals + front, held, ids, p, run);
      assert arrivals + front + [p] == arrivals + recent;
    }
  }

  lemma {:induction false} StampedHeld(arrivals: seq<Packet>, packets: seq<Packet>, run: string)
    requires HeldInOrder(arrivals, packets)
    ensures HeldInOrder(arrivals, StampAll(packets, run))
  {
    if arrivals != [] {
      var n := |arrivals| - 1;
      if ArrivedBefore(arrivals, n, arrivals[n].id) {
        StampedHeld(arrivals[..n], packets, run);
      } else {
        StampedHeld(arrivals[..n], packets[..|packets| - 1], run);
        StampOneMore(packets, run);
      }
    }
  }

  /** Giving packets a run changes those without one, and nothing else of them. */
  lemma {:induction false} StampedInPlace(packets: seq<Packet>, run: string)
    ensures |StampAll(packets, run)| == |packets|
    ensures forall i :: 0 <= i < |packets| ==>
              StampAll(packets, run)[i] == if packets[i].runId == "" then packets[i].(runId := run) else packets[i]
  {
    if packets != [] {
      StampedInPlace(packets[..|packets| - 1], run);
    }
  }

  lemma NothingHeld()
    ensures HeldInOrder([], [])
  {
  }
}
