/**
 * Publishing over the bus, as a step system: a publish stores the packet, takes the subscriber list as it is at
 * that moment, and hands the packet to each of them; subscribing, unsubscribing, importing, clearing and reading
 * the store happen in between.
 */
module PacketBus {
  import opened Common
  import opened PacketStore
  import opened PacketStoreLaws

  type Sub = nat
  type Pub = nat

  /** Where a publishing thread stands with the `n`-th packet ever accepted by the store. */
  datatype Publisher = Idle | Stored(n: nat) | Delivering(n: nat, left: seq<Sub>)

  /** What a subscriber saw when it read the store: the accepted packets from number `low` up to `high`. */
  datatype Reading = Reading(snapshot: seq<CapturedPacket>, low: nat, high: nat)

  /**
   * `accepted` lists every packet the store ever took in and `source` the thread that published it, or none for an
   * imported one; `cleared` counts those accepted before the last clear.  `handed` records the calls made to
   * subscribers.
   */
  datatype Bus = Bus(
    store: Store, subscribers: seq<Sub>, publishers: map<Pub, Publisher>, everSubscribed: set<Sub>,
    accepted: seq<CapturedPacket>, source: seq<Option<Pub>>, cleared: nat,
    readings: map<Sub, Reading>, handed: set<(Sub, nat)>)
  {
    function At(pub: Pub): Publisher {
      if pub in publishers then publishers[pub] else Idle
    }

    predicate Sound(capacity: nat) {
      store.Fits(capacity) && |source| == |accepted| && cleared <= |accepted|
    }
  }

  const INITIAL := Bus(EMPTY_STORE, [], map[], {}, [], [], 0, map[], {})

  datatype Action =
    | Publish(pub: Pub, packet: CapturedPacket)
    | TakeSubscribers(pub: Pub)
    | CallSubscriber(pub: Pub, throws: bool)
    | EndPublish(pub: Pub)
    | Subscribe(sub: Sub)
    | Unsubscribe(sub: Sub)
    | ReadStore(sub: Sub)
    | ImportFile(packets: seq<Option<CapturedPacket>>)
    | ClearStore

  function NoPublisher(n: nat): (s: seq<Option<Pub>>)
    ensures |s| == n && forall i :: 0 <= i < n ==> s[i] == None
  {
    if n == 0 then [] else NoPublisher(n - 1) + [None]
  }

  function Without(s: seq<Sub>, x: Sub): seq<Sub> {
    if s == [] then [] else if s[0] == x then s[1..] else [s[0]] + Without(s[1..], x)
  }

  /** One atomic step; an action that cannot happen in this state changes nothing. */
  function Step(capacity: nat, b: Bus, a: Action): (r: Bus)
    requires b.Sound(capacity)
    ensures r.Sound(capacity)
  {
    match a
    case Publish(pub, packet) =>
      if !b.At(pub).Idle? then b
      else b.(store := AddTo(capacity, b.store, packet),
              accepted := b.accepted + [packet], source := b.source + [Some(pub)],
              publishers := b.publishers[pub := Stored(|b.accepted|)])
    case TakeSubscribers(pub) =>
      if !b.At(pub).Stored? then b
      else b.(publishers := b.publishers[pub := Delivering(b.At(pub).n, b.subscribers)])
    case CallSubscriber(pub, throws) =>
      // an exception from the subscriber is caught and ignored, so both outcomes continue alike
      if !b.At(pub).Delivering? || b.At(pub).left == [] then b
      else
        var Delivering(n, left) := b.At(pub);
        b.(handed := b.handed + {(left[0], n)}, publishers := b.publishers[pub := Delivering(n, left[1..])])
    case EndPublish(pub) =>
      if !b.At(pub).Delivering? || b.At(pub).left != [] then b
      else b.(publishers := b.publishers[pub := Idle])
    case Subscribe(sub) =>
      if sub in b.everSubscribed then b
      else b.(subscribers := b.subscribers + [sub], everSubscribed := b.everSubscribed + {sub})
    case Unsubscribe(sub) => b.(subscribers := Without(b.subscribers, sub))
    case ReadStore(sub) =>
      if sub !in b.subscribers || sub in b.readings then b
      else b.(readings := b.readings[sub := Reading(b.store.ring, OldestHeld(capacity, b), |b.accepted|)])
    case ImportFile(ps) =>
      var load := ImportAll(capacity, b.store, ps);
      b.(store := load.store, accepted := b.accepted + load.taken, source := b.source + NoPublisher(|load.taken|))
    case ClearStore => b.(store := EMPTY_STORE, cleared := |b.accepted|)
  }

  /** The number of the oldest accepted packet that is neither evicted nor cleared. */
  function OldestHeld(capacity: nat, b: Bus): nat {
    if |b.accepted| - capacity > b.cleared then |b.accepted| - capacity else b.cleared
  }

  function Run(capacity: nat, acts: seq<Action>): (b: Bus)
    ensures b.Sound(capacity)
  {
    if acts == [] then INITIAL else Step(capacity, Run(capacity, acts[..|acts| - 1]), acts[|acts| - 1])
  }

  // ---- the store holds what the history says ----

  ghost predicate StoreInv(capacity: nat, b: Bus)
    requires b.Sound(capacity)
  {
    b.store.ring == LastN(b.accepted[b.cleared..], capacity)
  }

  lemma StoreStep(capacity: nat, b: Bus, a: Action)
    requires b.Sound(capacity) && StoreInv(capacity, b)
    ensures StoreInv(capacity, Step(capacity, b, a))
  {
    match a
    case Publish(pub, packet) =>
      assert (b.accepted + [packet])[b.cleared..] == b.accepted[b.cleared..] + [packet];
      WindowExtends(b.accepted[b.cleared..], b.store.ring, [packet], capacity);
    case ImportFile(ps) =>
      var taken := ImportAll(capacity, b.store, ps).taken;
      assert (b.accepted + taken)[b.cleared..] == b.accepted[b.cleared..] + taken;
      ImportRing(capacity, b.store, ps);
      WindowExtends(b.accepted[b.cleared..], b.store.ring, taken, capacity);
    case _ =>
  }

  // ---- what a reader has missed so far is still on its way ----

  ghost predicate ReadingInv(b: Bus, r: Reading) {
    r.low <= r.high <= |b.accepted| && r.snapshot == b.accepted[r.low..r.high]
  }

  /** The packet was handed over, or its publisher has yet to take the subscriber list or still has `sub` on it. */
  ghost predicate OnItsWay(b: Bus, sub: Sub, n: nat)
    requires n < |b.source| && b.source[n].Some?
  {
    var at := b.At(b.source[n].value);
    || (sub, n) in b.handed
    || at == Stored(n)
    || (at.Delivering? && at.n == n && sub in at.left)
  }

  ghost predicate Inv(capacity: nat, b: Bus)
    requires b.Sound(capacity)
  {
    && StoreInv(capacity, b)
    && (forall sub | sub in b.subscribers :: sub in b.everSubscribed)
    && (forall sub | sub in b.readings :: ReadingInv(b, b.readings[sub]) && sub in b.everSubscribed)
    && (forall sub, n | sub in b.readings && sub in b.subscribers && b.readings[sub].high <= n < |b.source|
                        && b.source[n].Some? ::
          OnItsWay(b, sub, n))
  }

  lemma {:induction false} WithoutMembers(s: seq<Sub>, x: Sub)
    ensures forall y | y in Without(s, x) :: y in s
  {
    if s != [] && s[0] != x {
      WithoutMembers(s[1..], x);
    }
  }

  lemma StepKeepsReadings(capacity: nat, b: Bus, a: Action)
    requires b.Sound(capacity) && Inv(capacity, b)
    ensures var c := Step(capacity, b, a);
            && (forall sub | sub in c.subscribers :: sub in c.everSubscribed)
            && (forall sub | sub in c.readings :: ReadingInv(c, c.readings[sub]) && sub in c.everSubscribed)
  {
    var c := Step(capacity, b, a);
    if a.Unsubscribe? {
      WithoutMembers(b.subscribers, a.sub);
    }
    forall sub | sub in c.readings
      ensures ReadingInv(c, c.readings[sub]) && sub in c.everSubscribed
    {
      if sub in b.readings {
        ReadingStays(b, c, b.readings[sub]);
      } else {
        WindowFromOldest(capacity, b);
      }
    }
  }

  lemma ReadingStays(b: Bus, c: Bus, r: Reading)
    requires ReadingInv(b, r) && b.accepted <= c.accepted
    ensures ReadingInv(c, r)
  {
    assert c.accepted[r.low..r.high] == b.accepted[r.low..r.high];
  }

  /** What the store holds, by number. */
  lemma WindowFromOldest(capacity: nat, b: Bus)
    requires b.Sound(capacity) && StoreInv(capacity, b)
    ensures OldestHeld(capacity, b) <= |b.accepted|
    ensures b.store.ring == b.accepted[OldestHeld(capacity, b)..] == b.accepted[OldestHeld(capacity, b)..|b.accepted|]
  {
    var low := OldestHeld(capacity, b);
    assert b.accepted[b.cleared..][low - b.cleared..] == b.accepted[low..];
  }

  /** The steps of a publisher leave its packet on its way to a subscriber, or hand it over. */
  lemma PublisherKeepsOnItsWay(capacity: nat, b: Bus, a: Action, sub: Sub, n: nat)
    requires b.Sound(capacity) && n < |b.source| && b.source[n].Some? && OnItsWay(b, sub, n)
    requires sub in b.subscribers
    ensures var c := Step(capacity, b, a); n < |c.source| && c.source[n] == b.source[n] && OnItsWay(c, sub, n)
  {
    var pub := b.source[n].value;
    match a
    case Publish(p, _) => assert p != pub ==> Step(capacity, b, a).At(pub) == b.At(pub);
    case TakeSubscribers(p) => assert p != pub ==> Step(capacity, b, a).At(pub) == b.At(pub);
    case CallSubscriber(p, _) => assert p != pub ==> Step(capacity, b, a).At(pub) == b.At(pub);
    case EndPublish(p) => assert p != pub ==> Step(capacity, b, a).At(pub) == b.At(pub);
    case _ => assert Step(capacity, b, a).publishers == b.publishers;
  }

  /** Subscribing and reading are what makes a subscriber a reader, and publishing is what makes a packet new. */
  lemma WhatIsNew(capacity: nat, b: Bus, a: Action, sub: Sub, n: nat)
    requires b.Sound(capacity) && Inv(capacity, b)
    requires var c := Step(capacity, b, a);
             sub in c.readings && sub in c.subscribers && c.readings[sub].high <= n < |c.source| && c.source[n].Some?
    ensures sub in b.readings && sub in b.subscribers && b.readings[sub] == Step(capacity, b, a).readings[sub]
    ensures n < |b.source| || (a.Publish? && n == |b.source| && b.At(a.pub).Idle?)
  {
    if a.Unsubscribe? {
      WithoutMembers(b.subscribers, a.sub);
    }
  }

  lemma StepKeepsOnItsWay(capacity: nat, b: Bus, a: Action, sub: Sub, n: nat)
    requires b.Sound(capacity) && Inv(capacity, b)
    requires var c := Step(capacity, b, a);
             sub in c.readings && sub in c.subscribers && c.readings[sub].high <= n < |c.source| && c.source[n].Some?
    ensures OnItsWay(Step(capacity, b, a), sub, n)
  {
    WhatIsNew(capacity, b, a, sub, n);
    if n < |b.source| {
      assert Step(capacity, b, a).source[n] == b.source[n];
      PublisherKeepsOnItsWay(capacity, b, a, sub, n);
    }
  }

  lemma {:induction false} InvHolds(capacity: nat, acts: seq<Action>)
    ensures Inv(capacity, Run(capacity, acts))
  {
    if acts != [] {
      var b, a := Run(capacity, acts[..|acts| - 1]), acts[|acts| - 1];
      InvHolds(capacity, acts[..|acts| - 1]);
      StoreStep(capacity, b, a);
      StepKeepsReadings(capacity, b, a);
      var c := Step(capacity, b, a);
      forall sub, n | sub in c.readings && sub in c.subscribers && c.readings[sub].high <= n < |c.source|
                      && c.source[n].Some?
        ensures OnItsWay(c, sub, n)
      {
        StepKeepsOnItsWay(capacity, b, a, sub, n);
      }
    }
  }

  /**
   * Lossless handover, in every interleaving.  Take a subscriber that has read the store after subscribing and is
   * still subscribed, and the `n`-th accepted packet, published by a thread that is now done with it.  Either the
   * packet was evicted or cleared before the read, or it stands at its place in the snapshot, or the subscriber
   * was called with it, whichever subscribers threw on the way.
   */
  lemma LosslessHandover(capacity: nat, acts: seq<Action>, sub: Sub, n: nat)
    requires var b := Run(capacity, acts);
             && sub in b.readings && sub in b.subscribers
             && n < |b.source| && b.source[n].Some?
             && (b.At(b.source[n].value).Idle? || b.At(b.source[n].value).n != n)
    ensures HandedOver(Run(capacity, acts), sub, n)
  {
    InvHolds(capacity, acts);
    HandoverFromInv(capacity, Run(capacity, acts), sub, n);
  }

  lemma HandoverFromInv(capacity: nat, b: Bus, sub: Sub, n: nat)
    requires b.Sound(capacity) && Inv(capacity, b)
    requires sub in b.readings && sub in b.subscribers && n < |b.source| && b.source[n].Some?
    requires b.At(b.source[n].value).Idle? || b.At(b.source[n].value).n != n
    ensures HandedOver(b, sub, n)
  {
    var r := b.readings[sub];
    assert ReadingInv(b, r);
    if r.high <= n {
      assert OnItsWay(b, sub, n);
    } else if r.low <= n {
      assert b.accepted[r.low..r.high][n - r.low] == b.accepted[n];
    }
  }

  /** Gone from the store before the read, at its place in the snapshot, or delivered live. */
  predicate HandedOver(b: Bus, sub: Sub, n: nat)
    requires sub in b.readings && n < |b.accepted|
  {
    var Reading(snapshot, low, high) := b.readings[sub];
    || n < low
    || (n < high && n - low < |snapshot| && snapshot[n - low] == b.accepted[n])
    || (sub, n) in b.handed
  }

  /** The window a reading records: it reaches back to the last clear or over the last `capacity` packets. */
  lemma ReadingWindow(capacity: nat, acts: seq<Action>, sub: Sub)
    requires sub in Run(capacity, acts).subscribers && sub !in Run(capacity, acts).readings
    ensures var b := Run(capacity, acts);
            var c := Step(capacity, b, ReadStore(sub));
            && sub in c.readings
            && var r := c.readings[sub];
            && r.low <= r.high == |b.accepted|
            && r.snapshot == b.store.ring == b.accepted[r.low..]
            && (r.low == b.cleared || r.low == |b.accepted| - capacity > b.cleared)
  {
    InvHolds(capacity, acts);
    WindowFromOldest(capacity, Run(capacity, acts));
  }

  /** A publisher that is done has called every subscriber on the list it took, including those after one that threw. */
  lemma {:induction false} DeliveryReachesAll(capacity: nat, b: Bus, pub: Pub, throws: seq<bool>)
    requires b.Sound(capacity) && b.At(pub).Delivering? && |throws| == |b.At(pub).left|
    ensures var c := Calls(capacity, b, pub, throws);
            && c.At(pub) == Delivering(b.At(pub).n, [])
            && (forall sub | sub in b.At(pub).left :: (sub, b.At(pub).n) in c.handed)
            && (forall h | h in b.handed :: h in c.handed)
    decreases |throws|
  {
    if throws != [] {
      var next := Step(capacity, b, CallSubscriber(pub, throws[0]));
      DeliveryReachesAll(capacity, next, pub, throws[1..]);
    }
  }

  function Calls(capacity: nat, b: Bus, pub: Pub, throws: seq<bool>): (c: Bus)
    requires b.Sound(capacity)
    ensures c.Sound(capacity)
    decreases |throws|
  {
    if throws == [] then b else Calls(capacity, Step(capacity, b, CallSubscriber(pub, throws[0])), pub, throws[1..])
  }

  // ---- what one publish, one clear and one import come to ----

  /**
   * A thread that publishes while no other step comes in between: the store gains the packet, evicting the oldest when
   * full, and exactly the subscribers of that moment are handed it, whichever of them throws.
   */
  lemma PublishAlone(capacity: nat, b: Bus, pub: Pub, packet: CapturedPacket, throws: seq<bool>)
    requires b.Sound(capacity) && b.At(pub).Idle? && |throws| == |b.subscribers|
    ensures var c := PublishedAlone(capacity, b, pub, packet, throws);
            && c.At(pub).Idle? && c.subscribers == b.subscribers && c.accepted == b.accepted + [packet]
            && c.store.ring == LastN(b.store.ring + [packet], capacity)
            && forall sub, n :: (sub, n) in c.handed <==>
                 (sub, n) in b.handed || (n == |b.accepted| && sub in b.subscribers)
  {
    var stored := Step(capacity, b, Publish(pub, packet));
    var taken := Step(capacity, stored, TakeSubscribers(pub));
    assert taken.At(pub) == Delivering(|b.accepted|, b.subscribers);
    CallsHandExactly(capacity, taken, pub, throws);
  }

  function PublishedAlone(capacity: nat, b: Bus, pub: Pub, packet: CapturedPacket, throws: seq<bool>): (c: Bus)
    requires b.Sound(capacity)
  {
    var taken := Step(capacity, Step(capacity, b, Publish(pub, packet)), TakeSubscribers(pub));
    Step(capacity, Calls(capacity, taken, pub, throws), EndPublish(pub))
  }

  /** The calls of one publisher hand its packet to those on its list, and touch nothing else. */
  lemma {:induction false} CallsHandExactly(capacity: nat, b: Bus, pub: Pub, throws: seq<bool>)
    requires b.Sound(capacity) && b.At(pub).Delivering? && |throws| == |b.At(pub).left|
    ensures var c := Calls(capacity, b, pub, throws);
            && c.Sound(capacity) && c.At(pub) == Delivering(b.At(pub).n, [])
            && c == b.(handed := c.handed, publishers := c.publishers)
            && forall sub, n :: (sub, n) in c.handed <==>
                 (sub, n) in b.handed || (n == b.At(pub).n && sub in b.At(pub).left)
    decreases |throws|
  {
    if throws != [] {
      var next := Step(capacity, b, CallSubscriber(pub, throws[0]));
      CallsHandExactly(capacity, next, pub, throws[1..]);
      var left := b.At(pub).left;
      assert left == [left[0]] + left[1..];
    }
  }

  /** A subscriber that reads the store right after a clear finds nothing, and right after an import what that left. */
  lemma ReadingAfterReset(capacity: nat, b: Bus, sub: Sub, packets: seq<Option<CapturedPacket>>)
    requires b.Sound(capacity) && sub in b.subscribers && sub !in b.readings
    ensures var c := Step(capacity, Step(capacity, b, ClearStore), ReadStore(sub));
            sub in c.readings && c.readings[sub] == Reading([], |b.accepted|, |b.accepted|)
    ensures var c := Step(capacity, Step(capacity, b, ImportFile(packets)), ReadStore(sub));
            sub in c.readings && c.readings[sub].snapshot == ImportAll(capacity, b.store, packets).store.ring
            && c.accepted == b.accepted + ImportAll(capacity, b.store, packets).taken
  {
  }

  // ---- subscribing and unsubscribing ----

  /** No subscriber is on the list twice, and only accepted packets are on their way. */
  ghost predicate ListInv(b: Bus) {
    && Distinct(b.subscribers)
    && (forall sub | sub in b.subscribers :: sub in b.everSubscribed)
    && (forall pub | pub in b.publishers :: b.publishers[pub].Idle? || b.publishers[pub].n < |b.accepted|)
    && (forall h | h in b.handed :: h.1 < |b.accepted|)
  }

  lemma {:induction false} WithoutIs(s: seq<Sub>, x: Sub, i: nat)
    requires i < |s| && s[i] == x && forall j :: 0 <= j < i ==> s[j] != x
    ensures Without(s, x) == s[..i] + s[i + 1..]
  {
    if i > 0 {
      WithoutIs(s[1..], x, i - 1);
      assert s[..i] == [s[0]] + s[1..][..i - 1];
    }
  }

  lemma {:induction false} WithoutNone(s: seq<Sub>, x: Sub)
    requires x !in s
    ensures Without(s, x) == s
  {
    if s != [] {
      WithoutNone(s[1..], x);
    }
  }

  predicate Distinct(s: seq<Sub>) {
    forall i, j :: 0 <= i < j < |s| ==> s[i] != s[j]
  }

  lemma WithoutOnce(s: seq<Sub>, x: Sub)
    requires Distinct(s)
    ensures Distinct(Without(s, x)) && x !in Without(s, x)
    ensures forall i :: 0 <= i < |s| && s[i] == x ==> Without(s, x) == s[..i] + s[i + 1..]
    ensures forall y | y in Without(s, x) :: y in s
  {
    hide Without;
    WithoutMembers(s, x);
    if x in s {
      var i :| 0 <= i < |s| && s[i] == x;
      WithoutIs(s, x, i);
    } else {
      WithoutNone(s, x);
    }
  }

  lemma ListStep(capacity: nat, b: Bus, a: Action)
    requires b.Sound(capacity) && ListInv(b)
    ensures ListInv(Step(capacity, b, a))
  {
    if a.Unsubscribe? {
      WithoutOnce(b.subscribers, a.sub);
    }
  }

  lemma {:induction false} ListInvHolds(capacity: nat, acts: seq<Action>)
    ensures ListInv(Run(capacity, acts))
  {
    if acts != [] {
      ListInvHolds(capacity, acts[..|acts| - 1]);
      ListStep(capacity, Run(capacity, acts[..|acts| - 1]), acts[|acts| - 1]);
    }
  }

  /** The subscriber is off the list for good, and of the packets from number `from` on none is handed to it. */
  ghost predicate Gone(b: Bus, sub: Sub, from: nat) {
    && sub !in b.subscribers && sub in b.everSubscribed && from <= |b.accepted|
    && (forall n | (sub, n) in b.handed :: n < from)
    && (forall pub | pub in b.publishers ::
          b.publishers[pub].Delivering? && sub in b.publishers[pub].left ==> b.publishers[pub].n < from)
  }

  lemma GoneStep(capacity: nat, b: Bus, a: Action, sub: Sub, from: nat)
    requires b.Sound(capacity) && Gone(b, sub, from)
    ensures Gone(Step(capacity, b, a), sub, from)
  {
    if a.Unsubscribe? {
      WithoutMembers(b.subscribers, a.sub);
    }
  }

  /**
   * Unsubscribing takes the subscriber off the list and leaves the others in their order; and however the bus goes on,
   * it is never listed again, and no packet accepted from then on is ever handed to it.
   */
  lemma UnsubscribedIsLeftAlone(capacity: nat, acts: seq<Action>, sub: Sub, more: seq<Action>)
    requires sub in Run(capacity, acts).everSubscribed
    ensures var b := Run(capacity, acts);
            && (forall i :: 0 <= i < |b.subscribers| && b.subscribers[i] == sub ==>
                  Run(capacity, acts + [Unsubscribe(sub)]).subscribers == b.subscribers[..i] + b.subscribers[i + 1..])
            && Gone(Run(capacity, acts + [Unsubscribe(sub)] + more), sub, |b.accepted|)
  {
    hide *;
    ListInvHolds(capacity, acts);
    OneMoreAct(capacity, acts, Unsubscribe(sub));
    UnsubscribeTakesOff(capacity, Run(capacity, acts), sub);
    StaysGone(capacity, acts + [Unsubscribe(sub)], sub, |Run(capacity, acts).accepted|, more);
  }

  lemma {:induction false} StaysGone(capacity: nat, acts: seq<Action>, sub: Sub, from: nat, more: seq<Action>)
    requires Gone(Run(capacity, acts), sub, from)
    ensures Gone(Run(capacity, acts + more), sub, from)
  {
    hide *;
    if more == [] {
      assert acts + more == acts;
    } else {
      var n := |more| - 1;
      StaysGone(capacity, acts, sub, from, more[..n]);
      LongerRun(capacity, acts, more);
      GoneStep(capacity, Run(capacity, acts + more[..n]), more[n], sub, from);
    }
  }

  lemma LongerRun(capacity: nat, acts: seq<Action>, more: seq<Action>)
    requires more != []
    ensures var n := |more| - 1; Run(capacity, acts + more) == Step(capacity, Run(capacity, acts + more[..n]), more[n])
  {
    hide *;
    var n := |more| - 1;
    assert acts + more == acts + more[..n] + [more[n]];
    OneMoreAct(capacity, acts + more[..n], more[n]);
  }

  lemma OneMoreAct(capacity: nat, acts: seq<Action>, a: Action)
    ensures Run(capacity, acts + [a]) == Step(capacity, Run(capacity, acts), a)
  {
    assert (acts + [a])[..|acts|] == acts;
  }

  lemma UnsubscribeTakesOff(capacity: nat, b: Bus, sub: Sub)
    requires b.Sound(capacity) && ListInv(b) && sub in b.everSubscribed
    ensures var c := Step(capacity, b, Unsubscribe(sub));
            && (forall i :: 0 <= i < |b.subscribers| && b.subscribers[i] == sub ==>
                  c.subscribers == b.subscribers[..i] + b.subscribers[i + 1..])
            && Gone(c, sub, |b.accepted|)
  {
    WithoutOnce(b.subscribers, sub);
    hide Without;
  }

  /** A new subscriber goes to the end of the list, and stays on it until it unsubscribes. */
  lemma SubscribedStays(capacity: nat, acts: seq<Action>, sub: Sub, more: seq<Action>)
    requires sub !in Run(capacity, acts).everSubscribed && Unsubscribe(sub) !in more
    ensures Run(capacity, acts + [Subscribe(sub)]).subscribers == Run(capacity, acts).subscribers + [sub]
    ensures sub in Run(capacity, acts + [Subscribe(sub)] + more).subscribers
  {
    OneMoreAct(capacity, acts, Subscribe(sub));
    hide Run;
    assert Run(capacity, acts + [Subscribe(sub)]).subscribers == Run(capacity, acts).subscribers + [sub];
    ListedOn(capacity, acts + [Subscribe(sub)], sub, more);
  }

  lemma {:induction false} ListedOn(capacity: nat, acts: seq<Action>, sub: Sub, more: seq<Action>)
    requires sub in Run(capacity, acts).subscribers && Unsubscribe(sub) !in more
    ensures sub in Run(capacity, acts + more).subscribers
  {
    hide *;
    if more == [] {
      assert acts + more == acts;
    } else {
      var n := |more| - 1;
      assert more[n] in more && forall a | a in more[..n] :: a in more;
      ListedOn(capacity, acts, sub, more[..n]);
      LongerRun(capacity, acts, more);
      StaysListed(capacity, Run(capacity, acts + more[..n]), more[n], sub);
    }
  }

  lemma StaysListed(capacity: nat, b: Bus, a: Action, sub: Sub)
    requires b.Sound(capacity) && sub in b.subscribers && a != Unsubscribe(sub)
    ensures sub in Step(capacity, b, a).subscribers
  {
    if a.Unsubscribe? {
      WithoutKeeps(b.subscribers, a.sub, sub);
    }
  }

  lemma {:induction false} WithoutKeeps(s: seq<Sub>, x: Sub, y: Sub)
    requires y in s && y != x
    ensures y in Without(s, x)
  {
    if s[0] != x && s[0] != y {
      assert y in s[1..];
      WithoutKeeps(s[1..], x, y);
    }
  }
}
