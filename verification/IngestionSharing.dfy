/** Exactly when the ingested counts can be relied on: as long as no run is claimed by two sessions, and no longer. */
module IngestionSharing {
  import opened Common
  import opened PacketStore
  import opened RunStore
  import opened Ingestion

  // ---- going on from a state ----

  function Play(st: State, more: seq<Action>): State
    decreases |more|
  {
    if more == [] then st else Play(Step(st, more[0]), more[1..])
  }

  lemma PlayFirst(st: State, a: Action, rest: seq<Action>)
    ensures Play(st, [a] + rest) == Play(Step(st, a), rest)
    ensures KeepsTo(st, a) && Sticks(Step(st, a), rest) ==> Sticks(st, [a] + rest)
  {
    assert ([a] + rest)[1..] == rest;
  }

  lemma {:induction false} PlayConcat(st: State, more: seq<Action>, rest: seq<Action>)
    ensures Play(st, more + rest) == Play(Play(st, more), rest)
    ensures Sticks(st, more) && Sticks(Play(st, more), rest) ==> Sticks(st, more + rest)
    decreases |more|
  {
    hide Step, KeepsTo;
    if more == [] {
      assert more + rest == rest;
    } else {
      PlayConcat(Step(st, more[0]), more[1..], rest);
      assert (more + rest)[1..] == more[1..] + rest;
    }
  }

  lemma RunOneMore(acts: seq<Action>, a: Action)
    ensures Run(acts + [a]) == Step(Run(acts), a)
    ensures AlwaysExclusive(acts + [a]) <==> AlwaysExclusive(acts) && Exclusive(Run(acts + [a]))
  {
    assert (acts + [a])[..|acts|] == acts;
  }

  lemma {:induction false} RunThenPlay(acts: seq<Action>, more: seq<Action>)
    ensures Run(acts + more) == Play(Run(acts), more)
    decreases |more|
  {
    hide Step;
    if more == [] {
      assert acts + more == acts;
    } else {
      RunOneMore(acts, more[0]);
      RunThenPlay(acts + [more[0]], more[1..]);
      assert acts + more == acts + [more[0]] + more[1..];
    }
  }

  // ---- sessions that stick to their runs ----

  /** The run that a message's packet is given. */
  function RunGiven(session: Session, packet: CapturedPacket, newRun: Uuid): Uuid {
    if packet.runId.Some? then packet.runId.value
    else if session.fallback.Some? then session.fallback.value
    else newRun
  }

  /** A message, if it is one, brings a packet of a run that the session has had packets of before. */
  predicate KeepsTo(st: State, a: Action) {
    a.Receive? && a.message.Packet? && a.s in st.sessions && st.sessions[a.s].work.Idle? ==>
      RunGiven(st.sessions[a.s], a.message.packet, a.newRun) in st.sessions[a.s].runIds
  }

  predicate Sticks(st: State, more: seq<Action>)
    decreases |more|
  {
    more != [] ==> KeepsTo(st, more[0]) && Sticks(Step(st, more[0]), more[1..])
  }

  /** Such a step gives no session a claim. */
  lemma NoNewClaim(st: State, a: Action, s: SessionId, r: Uuid)
    requires KeepsTo(st, a) && s in Step(st, a).sessions && Claims(Step(st, a).sessions[s], r)
    ensures s in st.sessions && Claims(st.sessions[s], r)
  {
  }

  lemma StickingStaysExclusive(st: State, a: Action)
    requires Exclusive(st) && KeepsTo(st, a)
    ensures Exclusive(Step(st, a))
  {
    var next := Step(st, a);
    forall s, t | s in next.sessions && t in next.sessions && s != t
      ensures forall r | Claims(next.sessions[s], r) :: !Claims(next.sessions[t], r)
    {
      forall r | Claims(next.sessions[s], r)
        ensures !Claims(next.sessions[t], r)
      {
        NoNewClaim(st, a, s, r);
        if Claims(next.sessions[t], r) {
          NoNewClaim(st, a, t, r);
        }
      }
    }
  }

  lemma {:induction false} StickingRunsStayExclusive(acts: seq<Action>, more: seq<Action>)
    requires AlwaysExclusive(acts) && Sticks(Run(acts), more)
    ensures AlwaysExclusive(acts + more)
    decreases |more|
  {
    hide Step, KeepsTo, Exclusive;
    if more == [] {
      assert acts + more == acts;
    } else {
      assert Exclusive(Run(acts));
      StickingStaysExclusive(Run(acts), more[0]);
      RunOneMore(acts, more[0]);
      StickingRunsStayExclusive(acts + [more[0]], more[1..]);
      assert acts + more == acts + [more[0]] + more[1..];
    }
  }

  // ---- a summary, once written, is there ----

  /** A session claims no run without a summary, except that of the message it is handling. */
  predicate Known(st: State, session: Session) {
    match session.work
    case Resolved(p, _) => forall r | r in session.runIds :: r in st.runs || p.runId == Some(r)
    case LookedUp(p, _, _) => forall r | r in session.runIds :: r in st.runs || p.runId == Some(r)
    case Closing(left) => forall r | r in left :: r in st.runs
    case ClosingRun(run, _, left) => run in st.runs && forall r | r in left :: r in st.runs
    case Ended => true
    case _ => forall r | r in session.runIds :: r in st.runs
  }

  lemma KnownStep(st: State, a: Action, s: SessionId)
    requires s in Step(st, a).sessions && (s in st.sessions ==> Known(st, st.sessions[s]))
    requires a.s in st.sessions ==> WorkOk(st.sessions[a.s])
    ensures Known(Step(st, a), Step(st, a).sessions[s])
  {
    assert forall r | r in st.runs :: r in Step(st, a).runs;
  }

  lemma {:induction false} KnownHolds(acts: seq<Action>, s: SessionId)
    requires s in Run(acts).sessions
    ensures Known(Run(acts), Run(acts).sessions[s])
  {
    if acts != [] {
      var front, a := acts[..|acts| - 1], acts[|acts| - 1];
      if s in Run(front).sessions {
        KnownHolds(front, s);
      }
      EveryPacketHasItsRun(front);
      assert a.s in Run(front).sessions ==> WorkOk(Run(front).sessions[a.s]);
      KnownStep(Run(front), a, s);
    }
  }

  // ---- two sessions on one run ----

  /** Some packet of the run has not been counted. */
  predicate LostOne(st: State, run: Uuid) {
    run in st.runs && st.runs[run].capturedSamples == Touches(st.events, run) - 1
  }

  /** Session `t` has a packet of the run in hand, and nothing has been lost so far. */
  ghost predicate InHand(st: State, s: SessionId, t: SessionId, run: Uuid) {
    && s != t && s in st.sessions && t in st.sessions
    && st.sessions[t].work.Resolved? && st.sessions[t].work.packet.runId == Some(run)
    && RunOk(st, run)
  }

  function CapturedSoFar(st: State, run: Uuid): int {
    if run in st.runs then st.runs[run].capturedSamples else 0
  }

  /** An idle session is sent a packet of the run, and both read the summary before either writes it. */
  lemma BothRead(st: State, s: SessionId, t: SessionId, run: Uuid) returns (more: seq<Action>)
    requires InHand(st, s, t, run) && st.sessions[s].work.Idle?
    ensures run in st.sessions[s].runIds ==> Sticks(st, more)
    ensures var p, d := st.sessions[t].work.packet, Play(st, more);
            && s in d.sessions && t in d.sessions
            && d.sessions[s].work == LookedUp(p, false, st.Lookup(run))
            && d.sessions[t].work == LookedUp(p, st.sessions[t].work.runless, st.Lookup(run))
            && d.runs == st.runs && d.events == st.events && d.published == st.published
  {
    var p := st.sessions[t].work.packet;
    var first, second, third := Receive(s, Packet(p), 0), Advance(s, 0), Advance(t, 0);
    var a := Step(st, first);
    assert a.sessions[s].work == Resolved(p, false) && a.sessions[t] == st.sessions[t];
    var b := Step(a, second);
    assert b.sessions[s].work == LookedUp(p, false, st.Lookup(run)) && b.sessions[t] == st.sessions[t];
    PlayFirst(b, third, []);
    PlayFirst(a, second, [third] + []);
    PlayFirst(st, first, [second] + ([third] + []));
    more := [first] + ([second] + ([third] + []));
  }

  /** Both have read the same summary: both write, and both publish. */
  lemma BothWrite(st: State, s: SessionId, t: SessionId, run: Uuid) returns (more: seq<Action>)
    requires s != t && s in st.sessions && t in st.sessions
    requires st.sessions[s].work.LookedUp? && st.sessions[t].work.LookedUp?
    requires st.sessions[s].work.packet.runId == Some(run) == st.sessions[t].work.packet.runId
    requires st.sessions[s].work.existing == st.Lookup(run) == st.sessions[t].work.existing
    ensures Sticks(st, more)
    ensures var d := Play(st, more);
            && run in d.runs && d.runs[run].capturedSamples == CapturedSoFar(st, run) + 1
            && Touches(d.events, run) == Touches(st.events, run) + 2
            && Published(d.published, run) == Published(st.published, run) + 2
            && |d.published| == |st.published| + 2
  {
    var w, v := st.sessions[s].work, st.sessions[t].work;
    var a := Step(st, Advance(s, 0));
    OneMoreEvent(st.events, Touch(run, !w.packet.success), run);
    assert a.sessions[s].work == Touched(w.packet, w.runless) && a.sessions[t] == st.sessions[t];
    var b := Step(a, Advance(t, 0));
    OneMoreEvent(a.events, Touch(run, !v.packet.success), run);
    assert b.sessions[s] == a.sessions[s] && b.sessions[t].work == Touched(v.packet, v.runless);
    var rest := BothPublish(b, s, t, run);
    PlayFirst(a, Advance(t, 0), rest);
    PlayFirst(st, Advance(s, 0), [Advance(t, 0)] + rest);
    more := [Advance(s, 0)] + ([Advance(t, 0)] + rest);
  }

  lemma BothPublish(st: State, s: SessionId, t: SessionId, run: Uuid) returns (more: seq<Action>)
    requires s != t && s in st.sessions && t in st.sessions
    requires st.sessions[s].work.Touched? && st.sessions[t].work.Touched?
    requires st.sessions[s].work.packet.runId == Some(run) == st.sessions[t].work.packet.runId
    ensures Sticks(st, more)
    ensures var d := Play(st, more);
            && d.runs == st.runs && d.events == st.events
            && Published(d.published, run) == Published(st.published, run) + 2
            && |d.published| == |st.published| + 2
  {
    var w, v := st.sessions[s].work, st.sessions[t].work;
    var a := Step(st, Advance(s, 0));
    OneMoreSent(st.published, Sent(s, w.packet, w.runless), run);
    assert a.sessions[t] == st.sessions[t];
    OneMoreSent(a.published, Sent(t, v.packet, v.runless), run);
    PlayFirst(a, Advance(t, 0), []);
    PlayFirst(st, Advance(s, 0), [Advance(t, 0)] + []);
    more := [Advance(s, 0)] + ([Advance(t, 0)] + []);
  }

  /** While an idle session can be sent a packet of the run that another has in hand, a count can be lost. */
  lemma IdleSessionCanLoseACount(st: State, s: SessionId, t: SessionId, run: Uuid) returns (more: seq<Action>)
    requires InHand(st, s, t, run) && st.sessions[s].work.Idle?
    ensures run in st.sessions[s].runIds ==> Sticks(st, more)
    ensures var d := Play(st, more);
            && LostOne(d, run) && d.runs[run].capturedSamples == CapturedSoFar(st, run) + 1
            && Published(d.published, run) == Published(st.published, run) + 2
            && |d.published| == |st.published| + 2
  {
    hide Step;
    var asks := BothRead(st, s, t, run);
    var writes := BothWrite(Play(st, asks), s, t, run);
    PlayConcat(st, asks, writes);
    more := asks + writes;
  }

  /** A closing session that has read the run's summary writes it back after the other session's packet was counted. */
  lemma ClosingWritesBack(st: State, s: SessionId, t: SessionId, run: Uuid)
    requires InHand(st, s, t, run) && SessionOk(st, st.sessions[s]) && run in st.runs
    requires st.sessions[s].work.ClosingRun? && st.sessions[s].work.run == run
    ensures LostOne(Step(Step(Step(st, Advance(t, 0)), Advance(t, 0)), Advance(s, 0)), run)
  {
    var p, existing := st.sessions[t].work.packet, st.runs[run];
    var a := Step(st, Advance(t, 0));
    assert a == st.(sessions := a.sessions) && a.sessions[s] == st.sessions[s];
    assert a.sessions[t].work.existing == Some(existing) && a.sessions[t].work.packet == p;
    var b := Step(a, Advance(t, 0));
    assert b.events == st.events + [Touch(run, !p.success)] && b.sessions[s] == st.sessions[s];
    var c := Step(b, Advance(s, 0));
    assert c.events == b.events + [Finish(run)] && c.runs[run] == FinishRun(existing, 0);
    OneMoreEvent(st.events, Touch(run, !p.success), run);
    OneMoreEvent(b.events, Finish(run), run);
  }

  lemma ClosingSessionCanLoseACount(st: State, s: SessionId, t: SessionId, run: Uuid) returns (more: seq<Action>)
    requires InHand(st, s, t, run) && SessionOk(st, st.sessions[s]) && Known(st, st.sessions[s])
    requires st.sessions[s].work.ClosingRun? && st.sessions[s].work.run == run
    ensures Sticks(st, more) && LostOne(Play(st, more), run)
  {
    ClosingWritesBack(st, s, t, run);
    hide Step, InHand, SessionOk, Known, LostOne;
    var a := Step(st, Advance(t, 0));
    var b := Step(a, Advance(t, 0));
    PlayFirst(b, Advance(s, 0), []);
    PlayFirst(a, Advance(t, 0), [Advance(s, 0)] + []);
    PlayFirst(st, Advance(t, 0), [Advance(t, 0)] + ([Advance(s, 0)] + []));
    more := [Advance(t, 0)] + ([Advance(t, 0)] + ([Advance(s, 0)] + []));
  }

  /** How far a session is from being idle, or from the end of its closing loop. */
  function Distance(w: Work): nat {
    match w
    case Idle => 0
    case Touched(_, _) => 1
    case LookedUp(_, _, _) => 2
    case Resolved(_, _) => 3
    case Closing(left) => 2 * |left| + 1
    case ClosingRun(_, _, left) => 2 * |left| + 2
    case Ended => 0
  }

  /** The other session comes nearer, still claims the run, and still has lost nothing. */
  lemma OneStepNearer(st: State, s: SessionId, t: SessionId, run: Uuid)
    requires InHand(st, s, t, run) && SessionOk(st, st.sessions[s]) && Known(st, st.sessions[s])
    requires WorkOk(st.sessions[s]) && Claims(st.sessions[s], run)
    requires var w := st.sessions[s].work; !w.Idle? && !(w.ClosingRun? && w.run == run)
    ensures var d := Step(st, Advance(s, 0));
            && InHand(d, s, t, run) && SessionOk(d, d.sessions[s]) && Known(d, d.sessions[s])
            && WorkOk(d.sessions[s]) && Claims(d.sessions[s], run)
            && Distance(d.sessions[s].work) < Distance(st.sessions[s].work)
  {
    StepKeepsRuns(st, Advance(s, 0), run);
    ActorStaysOk(st, Advance(s, 0));
    KnownStep(st, Advance(s, 0), s);
  }

  /** Whatever the other session is doing, as long as it claims the run a count can be lost. */
  lemma {:induction false} SharedClaimCanLoseACount(st: State, s: SessionId, t: SessionId, run: Uuid)
    returns (more: seq<Action>)
    requires InHand(st, s, t, run) && SessionOk(st, st.sessions[s]) && Known(st, st.sessions[s])
    requires WorkOk(st.sessions[s]) && Claims(st.sessions[s], run)
    ensures Sticks(st, more) && LostOne(Play(st, more), run)
    decreases Distance(st.sessions[s].work)
  {
    var w := st.sessions[s].work;
    if w.Idle? {
      more := IdleSessionCanLoseACount(st, s, t, run);
    } else if w.ClosingRun? && w.run == run {
      more := ClosingSessionCanLoseACount(st, s, t, run);
    } else {
      hide Step, Claims, InHand, Known, SessionOk, WorkOk, Distance, LostOne;
      OneStepNearer(st, s, t, run);
      var rest := SharedClaimCanLoseACount(Step(st, Advance(s, 0)), s, t, run);
      PlayFirst(st, Advance(s, 0), rest);
      more := [Advance(s, 0)] + rest;
    }
  }

  // ---- the exact condition ----

  /** Every run's counts are the packets and failed packets it was touched with. */
  ghost predicate CountsRight(st: State) {
    forall run: Uuid :: RunCountsRight(st, run)
  }

  predicate RunCountsRight(st: State, run: Uuid) {
    && (run in st.runs ==>
          && st.runs[run].capturedSamples == Touches(st.events, run)
          && st.runs[run].errorSamples == Failures(st.events, run))
    && (run !in st.runs ==> Touches(st.events, run) == 0)
  }

  /** However the sessions go on with the runs they have, the counts are right. */
  ghost predicate StaysRight(acts: seq<Action>, more: seq<Action>) {
    Sticks(Run(acts), more) ==> CountsRight(Run(acts + more))
  }

  lemma ExclusiveStaysRight(acts: seq<Action>, more: seq<Action>)
    requires AlwaysExclusive(acts)
    ensures StaysRight(acts, more)
  {
    if Sticks(Run(acts), more) {
      StickingRunsStayExclusive(acts, more);
      forall run: Uuid
        ensures RunCountsRight(Run(acts + more), run)
      {
        hide Step;
        CountsMatchTouches(acts + more, run);
        InvHolds(acts + more);
        assert RunOk(Run(acts + more), run);
      }
    }
  }

  /** Sharing begins with a message: the receiving session has in hand a packet of a run that another claims. */
  lemma SharingBegins(st: State, a: Action) returns (s: SessionId, run: Uuid)
    requires Exclusive(st) && Inv(st) && !Exclusive(Step(st, a))
    ensures InHand(Step(st, a), s, a.s, run) && Claims(Step(st, a).sessions[s], run)
  {
    var next := Step(st, a);
    var u, t :| u in next.sessions && t in next.sessions && u != t
                && !(forall r | Claims(next.sessions[u], r) :: !Claims(next.sessions[t], r));
    var r :| Claims(next.sessions[u], r) && Claims(next.sessions[t], r);
    s, run := if u == a.s then t else u, r;
    if KeepsTo(st, a) {
      StickingStaysExclusive(st, a);
    }
    assert next.sessions[a.s].work.Resolved?;
    assert RunOk(st, run) && (a.s in st.sessions ==> SessionOk(st, st.sessions[a.s]));
    StepKeepsRuns(st, a, run);
    OnlyTheNewRun(st, a, s, run);
  }

  lemma OnlyTheNewRun(st: State, a: Action, s: SessionId, run: Uuid)
    requires Exclusive(st) && a.Receive? && a.s in st.sessions && st.sessions[a.s].work.Idle? && a.message.Packet?
    requires s != a.s && s in st.sessions && Claims(st.sessions[s], run) && Claims(Step(st, a).sessions[a.s], run)
    ensures Step(st, a).sessions[a.s].work.packet.runId == Some(run)
  {
    assert !Claims(st.sessions[a.s], run);
  }

  /**
   * Take any history, up to which no run was claimed by two sessions.  If the sessions go on with packets of the runs
   * they have, no interleaving can lose a count if and only if still no run is claimed by two sessions.
   */
  lemma CountsStayRightIff(acts: seq<Action>)
    requires acts != [] ==> AlwaysExclusive(acts[..|acts| - 1])
    ensures (forall more :: StaysRight(acts, more)) <==> Exclusive(Run(acts))
  {
    if Exclusive(Run(acts)) {
      forall more
        ensures StaysRight(acts, more)
      {
        ExclusiveStaysRight(acts, more);
      }
    } else {
      var front, a := acts[..|acts| - 1], acts[|acts| - 1];
      InvHolds(front);
      var s, run := SharingBegins(Run(front), a);
      assert Inv(Run(front)) && Exclusive(Run(front));
      StepKeepsSessions(Run(front), a, s);
      KnownHolds(acts, s);
      EveryPacketHasItsRun(acts);
      hide Step;
      var more := SharedClaimCanLoseACount(Run(acts), s, a.s, run);
      RunThenPlay(acts, more);
      assert !RunCountsRight(Run(acts + more), run);
      assert !StaysRight(acts, more);
    }
  }

  /** Of two packets of the run that were published since, one is not counted. */
  predicate OneOfTwoCounted(before: State, after: State, run: Uuid) {
    && run in after.runs && after.runs[run].capturedSamples < Touches(after.events, run)
    && after.runs[run].capturedSamples == CapturedSoFar(before, run) + 1
    && Published(after.published, run) == Published(before.published, run) + 2
    && |after.published| == |before.published| + 2
  }

  /**
   * Any two sessions that are open and idle, whatever runs they have had, can lose a count of any run: both are sent
   * one packet of it, both packets are published, and one is counted.
   */
  lemma TwoOpenSessionsCanLoseACount(acts: seq<Action>, s: SessionId, t: SessionId, p: CapturedPacket)
    returns (more: seq<Action>)
    requires AlwaysExclusive(acts) && p.runId.Some?
    requires s != t && s in Run(acts).sessions && t in Run(acts).sessions
    requires Run(acts).sessions[s].work.Idle? && Run(acts).sessions[t].work.Idle?
    ensures OneOfTwoCounted(Run(acts), Run(acts + more), p.runId.value)
  {
    var st, first := Run(acts), Receive(t, Packet(p), 0);
    InvHolds(acts);
    assert RunOk(st, p.runId.value) && SessionOk(st, st.sessions[t]);
    StepKeepsRuns(st, first, p.runId.value);
    var next := Step(st, first);
    assert InHand(next, s, t, p.runId.value);
    hide Step;
    var rest := IdleSessionCanLoseACount(next, s, t, p.runId.value);
    PlayFirst(st, first, rest);
    more := [first] + rest;
    RunThenPlay(acts, more);
  }

  /** Two sessions that have just connected can: two packets of one run are published, and one is counted. */
  lemma SharedRunLosesACount(p: CapturedPacket) returns (acts: seq<Action>)
    requires p.runId == Some(7)
    ensures var st := Run(acts);
            |st.published| == Published(st.published, 7) == 2 && 7 in st.runs && st.runs[7].capturedSamples == 1
  {
    var both := [] + [Connect(0)] + [Connect(1)];
    RunOneMore([], Connect(0));
    RunOneMore([] + [Connect(0)], Connect(1));
    var st := Run(both);
    assert st == State(map[0 := Session([], None, Idle), 1 := Session([], None, Idle)], map[], [], []);
    var more := TwoOpenSessionsCanLoseACount(both, 0, 1, p);
    acts := both + more;
  }
}
