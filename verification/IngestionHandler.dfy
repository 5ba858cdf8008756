/**
 * Packets streamed in by external clients, as a step system.  Each session handles its messages one after the
 * other; the steps of different sessions interleave, also between the read and the write of a run's summary.
 */
module Ingestion {
  import opened Common
  import opened PacketStore
  import opened RunStore

  type SessionId = nat

  datatype Message = Blank | Malformed | Packet(packet: CapturedPacket)

  /** What a session is doing: nothing, one message, or the loop that runs when it closes. */
  datatype Work =
    | Idle
    | Resolved(packet: CapturedPacket, runless: bool)
    | LookedUp(packet: CapturedPacket, runless: bool, existing: Option<RunSummary>)
    | Touched(packet: CapturedPacket, runless: bool)
    | Closing(left: seq<Uuid>)
    | ClosingRun(run: Uuid, existing: Option<RunSummary>, left: seq<Uuid>)
    | Ended

  datatype Session = Session(runIds: seq<Uuid>, fallback: Option<Uuid>, work: Work)

  /** What was written to the run summaries, in order. */
  datatype Event = Touch(run: Uuid, failed: bool) | Finish(run: Uuid)

  /** A packet handed to the bus. */
  datatype Sent = Sent(session: SessionId, packet: CapturedPacket, runless: bool)

  datatype State = State(
    sessions: map<SessionId, Session>, runs: map<Uuid, RunSummary>, events: seq<Event>, published: seq<Sent>)
  {
    function Lookup(run: Uuid): Option<RunSummary> {
      if run in runs then Some(runs[run]) else None
    }
  }

  const INITIAL := State(map[], map[], [], [])

  datatype Action =
    | Connect(s: SessionId)
    | Receive(s: SessionId, message: Message, newRun: Uuid)
    | Advance(s: SessionId, now: int)
    | Disconnect(s: SessionId)

  /** An insertion-ordered set of run ids. */
  function Remember(runIds: seq<Uuid>, run: Uuid): seq<Uuid> {
    if run in runIds then runIds else runIds + [run]
  }

  /** Gives the packet its run: its own, or the session's fallback, made up at the first packet without one. */
  function ResolveRunId(session: Session, packet: CapturedPacket, newRun: Uuid): Session {
    if packet.runId.Some?
    then Session(Remember(session.runIds, packet.runId.value), session.fallback, Resolved(packet, false))
    else
      var run := if session.fallback.Some? then session.fallback.value else newRun;
      Session(Remember(session.runIds, run), Some(run), Resolved(packet.WithRunId(run), true))
  }

  function TouchRun(existing: Option<RunSummary>, p: CapturedPacket, now: int): RunSummary {
    RunSummary(
      p.runId, "external", "RUNNING",
      if existing.Some? then existing.value.startedAt else now, None,
      p.url, p.groupThreads, 0,
      (if existing.Some? then existing.value.capturedSamples else 0) + 1,
      (if existing.Some? then existing.value.errorSamples else 0) + (if p.success then 0 else 1),
      false)
  }

  function FinishRun(existing: RunSummary, now: int): RunSummary {
    existing.(state := "FINISHED", finishedAt := Some(now))
  }

  /** The next step of the message or of the closing loop that session `s` is in the middle of. */
  function Proceed(st: State, s: SessionId, now: int): State
    requires s in st.sessions
  {
    var session := st.sessions[s];
    match session.work
    case Resolved(p, runless) =>
      if p.runId.None? then st
      else st.(sessions := st.sessions[s := session.(work := LookedUp(p, runless, st.Lookup(p.runId.value)))])
    case LookedUp(p, runless, existing) =>
      if p.runId.None? then st
      else State(st.sessions[s := session.(work := Touched(p, runless))],
                 st.runs[p.runId.value := TouchRun(existing, p, now)],
                 st.events + [Touch(p.runId.value, !p.success)], st.published)
    case Touched(p, runless) =>
      st.(sessions := st.sessions[s := session.(work := Idle)], published := st.published + [Sent(s, p, runless)])
    case Closing(left) =>
      if left == [] then st.(sessions := st.sessions[s := session.(work := Ended)])
      else st.(sessions := st.sessions[s := session.(work := ClosingRun(left[0], st.Lookup(left[0]), left[1..]))])
    case ClosingRun(run, existing, left) =>
      var next := st.sessions[s := session.(work := Closing(left))];
      if existing.None? then st.(sessions := next)
      else State(next, st.runs[run := FinishRun(existing.value, now)], st.events + [Finish(run)], st.published)
    case _ => st
  }

  /** One atomic step; an action that cannot happen in this state changes nothing. */
  function Step(st: State, a: Action): State {
    match a
    case Connect(s) =>
      if s in st.sessions then st else st.(sessions := st.sessions[s := Session([], None, Idle)])
    case Receive(s, message, newRun) =>
      // a blank message is skipped, a malformed one is logged and ignored
      if s !in st.sessions || !st.sessions[s].work.Idle? || !message.Packet? then st
      else st.(sessions := st.sessions[s := ResolveRunId(st.sessions[s], message.packet, newRun)])
    case Advance(s, now) => if s in st.sessions then Proceed(st, s, now) else st
    case Disconnect(s) =>
      if s !in st.sessions || !st.sessions[s].work.Idle? then st
      else st.(sessions := st.sessions[s := st.sessions[s].(work := Closing(st.sessions[s].runIds))])
  }

  function Run(acts: seq<Action>): State {
    if acts == [] then INITIAL else Step(Run(acts[..|acts| - 1]), acts[|acts| - 1])
  }

  // ---- the history of a run ----

  function Touches(events: seq<Event>, run: Uuid): nat {
    if events == [] then 0
    else
      var e := events[|events| - 1];
      Touches(events[..|events| - 1], run) + (if e.Touch? && e.run == run then 1 else 0)
  }

  function Failures(events: seq<Event>, run: Uuid): nat {
    if events == [] then 0
    else
      var e := events[|events| - 1];
      Failures(events[..|events| - 1], run) + (if e.Touch? && e.run == run && e.failed then 1 else 0)
  }

  /** The last thing written about the run was a packet, not a close. */
  predicate PacketCameLast(events: seq<Event>, run: Uuid) {
    if events == [] then false
    else
      var e := events[|events| - 1];
      if e.run == run then e.Touch? else PacketCameLast(events[..|events| - 1], run)
  }

  function Published(sent: seq<Sent>, run: Uuid): nat {
    if sent == [] then 0
    else Published(sent[..|sent| - 1], run) + (if sent[|sent| - 1].packet.runId == Some(run) then 1 else 0)
  }

  function PublishedFailed(sent: seq<Sent>, run: Uuid): nat {
    if sent == [] then 0
    else
      var p := sent[|sent| - 1].packet;
      PublishedFailed(sent[..|sent| - 1], run) + (if p.runId == Some(run) && !p.success then 1 else 0)
  }

  // ---- no run is shared by two sessions at once ----

  /** The session may still write the run's summary: it remembers the run, or is closing and has yet to finish it. */
  predicate Claims(session: Session, run: Uuid) {
    match session.work
    case Ended => false
    case Closing(left) => run in left
    case ClosingRun(current, _, left) => run == current || run in left
    case _ => run in session.runIds
  }

  ghost predicate Exclusive(st: State) {
    forall s, t | s in st.sessions && t in st.sessions && s != t ::
      forall r | Claims(st.sessions[s], r) :: !Claims(st.sessions[t], r)
  }

  ghost predicate AlwaysExclusive(acts: seq<Action>) {
    Exclusive(Run(acts)) && (acts != [] ==> AlwaysExclusive(acts[..|acts| - 1]))
  }

  // ---- the invariant ----

  /** A session works only on runs it claims, and what it has read is still what is stored. */
  predicate SessionOk(st: State, session: Session) {
    match session.work
    case Resolved(p, _) => p.runId.Some? && p.runId.value in session.runIds
    case LookedUp(p, _, existing) =>
      p.runId.Some? && p.runId.value in session.runIds && existing == st.Lookup(p.runId.value)
    case Touched(p, _) => p.runId.Some? && p.runId.value in session.runIds
    case ClosingRun(run, existing, _) => existing == st.Lookup(run)
    case _ => true
  }

  predicate RunOk(st: State, run: Uuid) {
    match st.Lookup(run)
    case None => Touches(st.events, run) == 0 && Failures(st.events, run) == 0 && !PacketCameLast(st.events, run)
    case Some(summary) =>
      && summary.capturedSamples == Touches(st.events, run)
      && summary.errorSamples == Failures(st.events, run)
      && summary.state == (if PacketCameLast(st.events, run) then "RUNNING" else "FINISHED")
      && (summary.finishedAt.None? <==> PacketCameLast(st.events, run))
      && summary.id == Some(run) && summary.source == "external"
  }

  ghost predicate Inv(st: State) {
    && (forall s | s in st.sessions :: SessionOk(st, st.sessions[s]))
    && (forall run: Uuid :: RunOk(st, run))
  }

  lemma OneMoreEvent(events: seq<Event>, e: Event, run: Uuid)
    ensures Touches(events + [e], run) == Touches(events, run) + (if e.Touch? && e.run == run then 1 else 0)
    ensures Failures(events + [e], run) ==
            Failures(events, run) + (if e.Touch? && e.run == run && e.failed then 1 else 0)
    ensures PacketCameLast(events + [e], run) == if e.run == run then e.Touch? else PacketCameLast(events, run)
  {
    assert (events + [e])[..|events|] == events;
  }

  /** A step that writes no summary leaves every run as it was. */
  lemma QuietStepKeepsRuns(st: State, next: State, run: Uuid)
    requires RunOk(st, run) && next.runs == st.runs && next.events == st.events
    ensures RunOk(next, run)
  {
  }

  lemma TouchKeepsRuns(st: State, next: State, p: CapturedPacket, existing: Option<RunSummary>, now: int, run: Uuid)
    requires RunOk(st, run) && p.runId.Some? && existing == st.Lookup(p.runId.value)
    requires next.runs == st.runs[p.runId.value := TouchRun(existing, p, now)]
    requires next.events == st.events + [Touch(p.runId.value, !p.success)]
    ensures RunOk(next, run)
  {
    OneMoreEvent(st.events, Touch(p.runId.value, !p.success), run);
  }

  lemma FinishKeepsRuns(st: State, next: State, r: Uuid, existing: RunSummary, now: int, run: Uuid)
    requires RunOk(st, run) && st.Lookup(r) == Some(existing)
    requires next.runs == st.runs[r := FinishRun(existing, now)]
    requires next.events == st.events + [Finish(r)]
    ensures RunOk(next, run)
  {
    OneMoreEvent(st.events, Finish(r), run);
  }

  /** The summaries and the history are written by two steps only. */
  lemma WhoWritesRuns(st: State, a: Action)
    requires !(a.Advance? && a.s in st.sessions
               && (st.sessions[a.s].work.LookedUp? || st.sessions[a.s].work.ClosingRun?))
    ensures Step(st, a).runs == st.runs && Step(st, a).events == st.events
  {
  }

  lemma StepKeepsRuns(st: State, a: Action, run: Uuid)
    requires RunOk(st, run) && (a.s in st.sessions ==> SessionOk(st, st.sessions[a.s]))
    ensures RunOk(Step(st, a), run)
  {
    var next := Step(st, a);
    if a.Advance? && a.s in st.sessions && (st.sessions[a.s].work.LookedUp? || st.sessions[a.s].work.ClosingRun?) {
      match st.sessions[a.s].work
      case LookedUp(p, _, existing) => TouchKeepsRuns(st, next, p, existing, a.now, run);
      case ClosingRun(r, existing, _) =>
        if existing.Some? {
          FinishKeepsRuns(st, next, r, existing.value, a.now, run);
        } else {
          QuietStepKeepsRuns(st, next, run);
        }
      case _ => assert false;
    } else {
      WhoWritesRuns(st, a);
      QuietStepKeepsRuns(st, next, run);
    }
  }

  /** What the acting session goes on to hold is right. */
  lemma ActorStaysOk(st: State, a: Action)
    requires a.s in st.sessions ==> SessionOk(st, st.sessions[a.s])
    requires a.s in Step(st, a).sessions
    ensures SessionOk(Step(st, a), Step(st, a).sessions[a.s])
  {
  }

  /** A step writes the summary of a run only for a session that claims it. */
  lemma WritesOwnRuns(st: State, a: Action, r: Uuid)
    requires a.s in st.sessions && SessionOk(st, st.sessions[a.s]) && !Claims(st.sessions[a.s], r)
    ensures Step(st, a).Lookup(r) == st.Lookup(r)
  {
    if !(a.Advance? && (st.sessions[a.s].work.LookedUp? || st.sessions[a.s].work.ClosingRun?)) {
      WhoWritesRuns(st, a);
    }
  }

  /** A session other than the acting one keeps what it read, because the acting one writes only runs of its own. */
  lemma OthersStayOk(st: State, a: Action, t: SessionId)
    requires Inv(st) && Exclusive(st) && t in st.sessions && t != a.s
    ensures t in Step(st, a).sessions && SessionOk(Step(st, a), Step(st, a).sessions[t])
  {
    var session := st.sessions[t];
    assert SessionOk(st, session);
    assert Step(st, a).sessions[t] == session;
    if a.s in st.sessions {
      assert SessionOk(st, st.sessions[a.s]);
      match session.work
      case LookedUp(p, _, _) => WritesOwnRuns(st, a, p.runId.value);
      case ClosingRun(run, _, _) => WritesOwnRuns(st, a, run);
      case _ =>
    } else {
      WhoWritesRuns(st, a);
    }
  }

  lemma StepKeepsSessions(st: State, a: Action, t: SessionId)
    requires Inv(st) && Exclusive(st) && t in Step(st, a).sessions
    ensures SessionOk(Step(st, a), Step(st, a).sessions[t])
  {
    if t == a.s {
      ActorStaysOk(st, a);
    } else {
      OthersStayOk(st, a, t);
    }
  }

  lemma {:induction false} InvHolds(acts: seq<Action>)
    requires AlwaysExclusive(acts)
    ensures Inv(Run(acts))
  {
    if acts != [] {
      var st, a := Run(acts[..|acts| - 1]), acts[|acts| - 1];
      InvHolds(acts[..|acts| - 1]);
      forall s | s in Step(st, a).sessions
        ensures SessionOk(Step(st, a), Step(st, a).sessions[s])
      {
        StepKeepsSessions(st, a, s);
      }
      forall run: Uuid
        ensures RunOk(Step(st, a), run)
      {
        assert RunOk(st, run) && (a.s in st.sessions ==> SessionOk(st, st.sessions[a.s]));
        StepKeepsRuns(st, a, run);
      }
    }
  }

  /**
   * When no run is ever claimed by two sessions at once, then in every interleaving each run's counts are
   * the packets and the failed packets it was touched with, and it is RUNNING, without an end, exactly when a packet
   * came after its last close.
   */
  lemma CountsMatchTouches(acts: seq<Action>, run: Uuid)
    requires AlwaysExclusive(acts)
    ensures var st := Run(acts);
            && (run in st.runs ==>
                  && st.runs[run].capturedSamples == Touches(st.events, run)
                  && st.runs[run].errorSamples == Failures(st.events, run)
                  && (st.runs[run].state == "RUNNING" <==> PacketCameLast(st.events, run))
                  && (st.runs[run].finishedAt.None? <==> PacketCameLast(st.events, run))
                  && st.runs[run].id == Some(run))
            && (run !in st.runs ==> Touches(st.events, run) == 0)
  {
    InvHolds(acts);
    assert RunOk(Run(acts), run);
  }

  lemma StepKeepsStart(st: State, a: Action, run: Uuid)
    requires Inv(st) && run in st.runs
    ensures run in Step(st, a).runs && Step(st, a).runs[run].startedAt == st.runs[run].startedAt
  {
    if a.Advance? && a.s in st.sessions {
      assert SessionOk(st, st.sessions[a.s]);
    }
  }

  /** Under the same condition a run keeps the time of its first packet, also when it goes on after a close. */
  lemma {:induction false} StartIsKept(acts: seq<Action>, more: seq<Action>, run: Uuid)
    requires AlwaysExclusive(acts + more) && run in Run(acts).runs
    ensures run in Run(acts + more).runs && Run(acts + more).runs[run].startedAt == Run(acts).runs[run].startedAt
  {
    hide Step;
    if more == [] {
      assert acts + more == acts;
    } else {
      var front := more[..|more| - 1];
      assert (acts + more)[..|acts + more| - 1] == acts + front;
      StartIsKept(acts, front, run);
      InvHolds(acts + front);
      StepKeepsStart(Run(acts + front), more[|more| - 1], run);
    }
  }

  // ---- published packets ----

  /** A packet of the run has been counted and is about to be published. */
  ghost predicate Pending(st: State, run: Uuid, failed: bool) {
    exists s :: s in st.sessions && st.sessions[s].work.Touched? && st.sessions[s].work.packet.runId == Some(run)
                && (failed ==> !st.sessions[s].work.packet.success)
  }

  ghost predicate Balanced(st: State, run: Uuid) {
    && Touches(st.events, run) == Published(st.published, run) + (if Pending(st, run, false) then 1 else 0)
    && Failures(st.events, run) == PublishedFailed(st.published, run) + (if Pending(st, run, true) then 1 else 0)
  }

  lemma OneMoreSent(sent: seq<Sent>, x: Sent, run: Uuid)
    ensures Published(sent + [x], run) == Published(sent, run) + (if x.packet.runId == Some(run) then 1 else 0)
    ensures PublishedFailed(sent + [x], run) ==
            PublishedFailed(sent, run) + (if x.packet.runId == Some(run) && !x.packet.success then 1 else 0)
  {
    assert (sent + [x])[..|sent|] == sent;
  }

  /** Only the session that claims a run can have one of its packets pending. */
  lemma PendingElsewhere(st: State, s: SessionId, run: Uuid)
    requires Inv(st) && Exclusive(st)
    requires s in st.sessions && Claims(st.sessions[s], run)
    ensures forall t | t in st.sessions && t != s ::
              !st.sessions[t].work.Touched? || st.sessions[t].work.packet.runId != Some(run)
  {
    forall t | t in st.sessions && t != s
      ensures !st.sessions[t].work.Touched? || st.sessions[t].work.packet.runId != Some(run)
    {
      assert SessionOk(st, st.sessions[t]);
    }
  }

  lemma PendingUnchanged(st: State, next: State, s: SessionId, run: Uuid, failed: bool)
    requires forall t | t != s :: (t in st.sessions <==> t in next.sessions)
    requires forall t | t in st.sessions && t != s :: next.sessions[t] == st.sessions[t]
    requires s in st.sessions ==> !st.sessions[s].work.Touched? || st.sessions[s].work.packet.runId != Some(run)
    requires s in next.sessions ==> !next.sessions[s].work.Touched? || next.sessions[s].work.packet.runId != Some(run)
    ensures Pending(st, run, failed) <==> Pending(next, run, failed)
  {
    if Pending(st, run, failed) {
      var t :| t in st.sessions && st.sessions[t].work.Touched? && st.sessions[t].work.packet.runId == Some(run)
               && (failed ==> !st.sessions[t].work.packet.success);
      assert t in next.sessions && next.sessions[t] == st.sessions[t];
    }
    if Pending(next, run, failed) {
      var t :| t in next.sessions && next.sessions[t].work.Touched? && next.sessions[t].work.packet.runId == Some(run)
               && (failed ==> !next.sessions[t].work.packet.success);
      assert t in st.sessions && next.sessions[t] == st.sessions[t];
    }
  }

  lemma TouchBalances(st: State, s: SessionId, now: int, run: Uuid)
    requires Inv(st) && Exclusive(st) && Balanced(st, run)
    requires s in st.sessions && st.sessions[s].work.LookedUp?
    ensures Balanced(Step(st, Advance(s, now)), run)
  {
    var session, next := st.sessions[s], Step(st, Advance(s, now));
    assert SessionOk(st, session);
    var p := session.work.packet;
    OneMoreEvent(st.events, Touch(p.runId.value, !p.success), run);
    if p.runId == Some(run) {
      PendingElsewhere(st, s, run);
      assert !Pending(st, run, false) && !Pending(st, run, true);
      assert next.sessions[s].work.Touched?;
      assert Pending(next, run, false);
      assert Pending(next, run, true) <==> !p.success;
    } else {
      PendingUnchanged(st, next, s, run, false);
      PendingUnchanged(st, next, s, run, true);
    }
  }

  lemma PublishBalances(st: State, s: SessionId, now: int, run: Uuid)
    requires Inv(st) && Exclusive(st) && Balanced(st, run)
    requires s in st.sessions && st.sessions[s].work.Touched?
    ensures Balanced(Step(st, Advance(s, now)), run)
  {
    var session, next := st.sessions[s], Step(st, Advance(s, now));
    assert SessionOk(st, session);
    var Touched(p, runless) := session.work;
    OneMoreSent(st.published, Sent(s, p, runless), run);
    if p.runId == Some(run) {
      PendingElsewhere(st, s, run);
      assert Pending(st, run, false);
      assert Pending(st, run, true) <==> !p.success;
      assert !Pending(next, run, false) && !Pending(next, run, true);
    } else {
      PendingUnchanged(st, next, s, run, false);
      PendingUnchanged(st, next, s, run, true);
    }
  }

  predicate CountsOrPublishes(st: State, a: Action) {
    a.Advance? && a.s in st.sessions && (st.sessions[a.s].work.LookedUp? || st.sessions[a.s].work.Touched?)
  }

  /** Any other step touches one session, and leaves it without a pending packet. */
  lemma OtherStepsTouchOneSession(st: State, a: Action)
    requires !CountsOrPublishes(st, a)
    ensures var next := Step(st, a);
            && (forall t | t != a.s :: t in st.sessions <==> t in next.sessions)
            && (forall t | t in st.sessions && t != a.s :: next.sessions[t] == st.sessions[t])
            && (next != st && a.s in st.sessions ==> !st.sessions[a.s].work.Touched?)
            && (next != st && a.s in next.sessions ==> !next.sessions[a.s].work.Touched?)
  {
  }

  /** It counts and publishes nothing. */
  lemma OtherStepsCountNothing(st: State, a: Action, run: Uuid)
    requires !CountsOrPublishes(st, a)
    ensures var next := Step(st, a);
            && next.published == st.published
            && Touches(next.events, run) == Touches(st.events, run)
            && Failures(next.events, run) == Failures(st.events, run)
  {
    if a.Advance? && a.s in st.sessions && st.sessions[a.s].work.ClosingRun? {
      OneMoreEvent(st.events, Finish(st.sessions[a.s].work.run), run);
    } else {
      WhoWritesRuns(st, a);
    }
  }

  lemma OtherStepsBalance(st: State, a: Action, run: Uuid)
    requires Balanced(st, run) && !CountsOrPublishes(st, a)
    ensures Balanced(Step(st, a), run)
  {
    var next := Step(st, a);
    OtherStepsTouchOneSession(st, a);
    OtherStepsCountNothing(st, a, run);
    if next != st {
      PendingUnchanged(st, next, a.s, run, false);
      PendingUnchanged(st, next, a.s, run, true);
    }
  }

  lemma {:induction false} BalanceHolds(acts: seq<Action>, run: Uuid)
    requires AlwaysExclusive(acts)
    ensures Balanced(Run(acts), run)
  {
    if acts != [] {
      var st, a := Run(acts[..|acts| - 1]), acts[|acts| - 1];
      BalanceHolds(acts[..|acts| - 1], run);
      InvHolds(acts[..|acts| - 1]);
      if a.Advance? && a.s in st.sessions && st.sessions[a.s].work.LookedUp? {
        TouchBalances(st, a.s, a.now, run);
      } else if a.Advance? && a.s in st.sessions && st.sessions[a.s].work.Touched? {
        PublishBalances(st, a.s, a.now, run);
      } else {
        OtherStepsBalance(st, a, run);
      }
    }
  }

  /** Whenever no counted message is still to be published, a run's counts are its published packets and failures. */
  lemma CountsMatchPublished(acts: seq<Action>, run: Uuid)
    requires AlwaysExclusive(acts)
    requires forall s | s in Run(acts).sessions :: !Run(acts).sessions[s].work.Touched?
    ensures var st := Run(acts);
            && (run in st.runs ==>
                  && st.runs[run].capturedSamples == Published(st.published, run)
                  && st.runs[run].errorSamples == PublishedFailed(st.published, run))
            && (run !in st.runs ==> Published(st.published, run) == 0)
  {
    CountsMatchTouches(acts, run);
    BalanceHolds(acts, run);
  }

  // ---- which run a packet goes to ----

  predicate SentOk(st: State, x: Sent) {
    && x.packet.runId.Some?
    && x.session in st.sessions
    && (x.runless ==> x.packet.runId == st.sessions[x.session].fallback)
  }

  predicate WorkOk(session: Session) {
    var w := session.work;
    w.Resolved? || w.LookedUp? || w.Touched? ==>
      w.packet.runId.Some? && (w.runless ==> w.packet.runId == session.fallback)
  }

  ghost predicate AttributionInv(st: State) {
    && (forall s | s in st.sessions :: WorkOk(st.sessions[s]))
    && (forall i :: 0 <= i < |st.published| ==> SentOk(st, st.published[i]))
  }

  lemma AttributionStep(st: State, a: Action)
    requires AttributionInv(st)
    ensures AttributionInv(Step(st, a))
  {
    var next := Step(st, a);
    if a.s in st.sessions {
      assert WorkOk(st.sessions[a.s]);
    }
    forall i | 0 <= i < |next.published|
      ensures SentOk(next, next.published[i])
    {
      if i < |st.published| {
        assert SentOk(st, st.published[i]);
      }
    }
  }

  /** Every published packet has a run, and the packets a session sent without one all went to one and the same run. */
  lemma {:induction false} EveryPacketHasItsRun(acts: seq<Action>)
    ensures AttributionInv(Run(acts))
  {
    if acts != [] {
      EveryPacketHasItsRun(acts[..|acts| - 1]);
      AttributionStep(Run(acts[..|acts| - 1]), acts[|acts| - 1]);
    }
  }

  lemma RunlessPacketsShareOneRun(acts: seq<Action>, i: nat, j: nat)
    requires var sent := Run(acts).published;
             i < |sent| && j < |sent| && sent[i].session == sent[j].session && sent[i].runless && sent[j].runless
    ensures var sent := Run(acts).published;
            sent[i].packet.runId.Some? && sent[i].packet.runId == sent[j].packet.runId
  {
    EveryPacketHasItsRun(acts);
    assert SentOk(Run(acts), Run(acts).published[i]) && SentOk(Run(acts), Run(acts).published[j]);
  }

  // ---- one message, and one close, without interference ----

  /** The run a packet goes to: its own, or the session's fallback, which is made up when it is first needed. */
  function RunFor(session: Session, packet: CapturedPacket, newRun: Uuid): Uuid {
    if packet.runId.Some? then packet.runId.value
    else if session.fallback.Some? then session.fallback.value
    else newRun
  }

  /** The steps of one session, one after the other, at the given times. */
  function Advances(st: State, s: SessionId, times: seq<int>): State {
    if times == [] then st else Step(Advances(st, s, times[..|times| - 1]), Advance(s, times[|times| - 1]))
  }

  /**
   * A packet message that is handled without interference: the packet is published with its run filled in and nothing
   * else changed; the run's summary counts it, and counts it as an error if it failed, keeps its start, and is running
   * again; no other run changes; and the session remembers the run.  Any other message changes nothing.
   */
  lemma MessageAlone(st: State, s: SessionId, message: Message, newRun: Uuid, times: seq<int>)
    requires s in st.sessions && st.sessions[s].work.Idle? && |times| == 3
    ensures message.Packet? ==>
              var p, session := message.packet, st.sessions[s];
              var next := Advances(Step(st, Receive(s, message, newRun)), s, times);
              var run := RunFor(session, p, newRun);
              && next.published == st.published + [Sent(s, p.(runId := Some(run)), p.runId.None?)]
              && run in next.runs
              && next.runs == st.runs[run := next.runs[run]]
              && CountsOneMore(st.Lookup(run), p, run, times[1], next.runs[run])
              && s in next.sessions
              && next.sessions == st.sessions[s := next.sessions[s]]
              && next.sessions[s].work.Idle?
              && next.sessions[s].fallback == (if p.runId.None? then Some(run) else session.fallback)
              && next.sessions[s].runIds ==
                   if run in session.runIds then session.runIds else session.runIds + [run]
    ensures !message.Packet? ==> Step(st, Receive(s, message, newRun)) == st
  {
    if message.Packet? {
      var p, session := message.packet, st.sessions[s];
      var run := RunFor(session, p, newRun);
      ThreeSteps(Step(st, Receive(s, message, newRun)), s, times);
    }
  }

  lemma ThreeSteps(st: State, s: SessionId, times: seq<int>)
    requires |times| == 3
    ensures Advances(st, s, times) ==
            Step(Step(Step(st, Advance(s, times[0])), Advance(s, times[1])), Advance(s, times[2]))
  {
    hide Step;
    var one, two := times[..1], times[..2];
    assert one[..0] == [] && two[..1] == one;
    assert Advances(st, s, []) == st;
    assert Advances(st, s, one) == Step(st, Advance(s, times[0]));
    assert Advances(st, s, two) == Step(Advances(st, s, one), Advance(s, times[1]));
  }

  /** The summary after one more packet of the run. */
  predicate CountsOneMore(before: Option<RunSummary>, p: CapturedPacket, run: Uuid, now: int, after: RunSummary) {
    && after.id == Some(run) && after.source == "external" && after.state == "RUNNING" && after.finishedAt == None
    && after.runLabel == p.url && after.threads == p.groupThreads && after.iterations == 0 && !after.restored
    && match before
       case None =>
         after.startedAt == now && after.capturedSamples == 1 && after.errorSamples == (if p.success then 0 else 1)
       case Some(b) =>
         && after.startedAt == b.startedAt && after.capturedSamples == b.capturedSamples + 1
         && after.errorSamples == (if p.success then b.errorSamples else b.errorSamples + 1)
  }

  /** The run is finished, at one of the times, and otherwise as it was. */
  predicate FinishedFrom(before: RunSummary, after: RunSummary, times: seq<int>) {
    && after.finishedAt.Some? && after.finishedAt.value in times
    && after == before.(state := "FINISHED", finishedAt := after.finishedAt)
  }

  /** Every run in the list is finished, and no other run is touched. */
  ghost predicate FinishesJust(runIds: seq<Uuid>, before: map<Uuid, RunSummary>, after: map<Uuid, RunSummary>,
                               times: seq<int>) {
    && after.Keys == before.Keys
    && forall run | run in before ::
         if run in runIds then FinishedFrom(before[run], after[run], times) else after[run] == before[run]
  }

  /**
   * A session that closes without interference finishes every run it remembers, and no other, publishes nothing, and
   * has ended.
   */
  lemma CloseAlone(st: State, s: SessionId, times: seq<int>)
    requires s in st.sessions && st.sessions[s].work.Idle? && |times| == 2 * |st.sessions[s].runIds| + 1
    ensures var next := Advances(Step(st, Disconnect(s)), s, times);
            && s in next.sessions && next.sessions[s].work.Ended? && next.published == st.published
            && FinishesJust(st.sessions[s].runIds, st.runs, next.runs, times)
  {
    var ids, begun, n := st.sessions[s].runIds, Step(st, Disconnect(s)), |times| - 1;
    CloseLoop(begun, s, ids, |ids|, times[..n]);
    assert ids[|ids|..] == [] && ids[..|ids|] == ids;
    LaterTimes(ids, st.runs, Advances(begun, s, times[..n]).runs, times, n);
    hide FinishesJust;
  }

  lemma LaterTimes(ids: seq<Uuid>, before: map<Uuid, RunSummary>, after: map<Uuid, RunSummary>, times: seq<int>, n: nat)
    requires n <= |times| && FinishesJust(ids, before, after, times[..n])
    ensures FinishesJust(ids, before, after, times)
  {
  }

  /** The loop of a close after `k` runs. */
  lemma {:induction false} CloseLoop(st: State, s: SessionId, ids: seq<Uuid>, k: nat, times: seq<int>)
    requires s in st.sessions && st.sessions[s].work == Closing(ids) && k <= |ids| && |times| == 2 * k
    ensures var next := Advances(st, s, times);
            && s in next.sessions && next.sessions[s].work == Closing(ids[k..]) && next.published == st.published
            && FinishesJust(ids[..k], st.runs, next.runs, times)
  {
    if k == 0 {
      assert ids[0..] == ids;
      return;
    }
    hide *;
    var front, t, u := times[..2 * k - 2], times[2 * k - 2], times[2 * k - 1];
    var before := Advances(st, s, front);
    CloseLoop(st, s, ids, k - 1, front);
    SuffixFrom(ids, k - 1);
    TwoSteps(st, s, times);
    CloseOne(before, s, ids[k - 1], ids[k..], t, u);
    FinishesOneMore(ids, k, st.runs, before.runs, Advances(st, s, times).runs, times);
  }

  lemma SuffixFrom<T>(s: seq<T>, k: nat)
    requires k < |s|
    ensures s[k..] == [s[k]] + s[k + 1..]
  {
  }

  lemma FinishesOneMore(
      ids: seq<Uuid>, k: nat, first: map<Uuid, RunSummary>, before: map<Uuid, RunSummary>, next: map<Uuid, RunSummary>,
      times: seq<int>)
    requires 0 < k <= |ids| && |times| == 2 * k
    requires FinishesJust(ids[..k - 1], first, before, times[..2 * k - 2])
    requires var run := ids[k - 1];
             next == if run in before
                     then before[run := before[run].(state := "FINISHED", finishedAt := Some(times[2 * k - 1]))]
                     else before
    ensures FinishesJust(ids[..k], first, next, times)
  {
    var run := ids[k - 1];
    LaterTimes(ids[..k - 1], first, before, times, 2 * k - 2);
    assert times[2 * k - 1] in times;
    assert forall r :: r in ids[..k] <==> r in ids[..k - 1] || r == run;
  }

  lemma TwoSteps(st: State, s: SessionId, times: seq<int>)
    requires |times| >= 2
    ensures var n := |times| - 2;
            Advances(st, s, times) ==
            Step(Step(Advances(st, s, times[..n]), Advance(s, times[n])), Advance(s, times[n + 1]))
  {
    hide Step;
    var n := |times| - 2;
    assert times[..n + 1][..n] == times[..n];
  }

  lemma CloseOne(st: State, s: SessionId, run: Uuid, rest: seq<Uuid>, t: int, u: int)
    requires s in st.sessions && st.sessions[s].work == Closing([run] + rest)
    ensures var next := Step(Step(st, Advance(s, t)), Advance(s, u));
            && s in next.sessions && next.sessions[s].work == Closing(rest) && next.published == st.published
            && next.runs == if run in st.runs
                            then st.runs[run := st.runs[run].(state := "FINISHED", finishedAt := Some(u))] else st.runs
  {
    assert ([run] + rest)[1..] == rest;
  }
}
