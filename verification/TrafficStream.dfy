/**
 * One live stream to a browser: its subscription, its emitter, and the compare-and-set that lets exactly one party
 * close it.  Publishing threads and the container's completion, timeout and error events interleave.
 */
module TrafficStream {
  import opened Common

  type Thread = nat

  /** How far `stream` has come. */
  datatype Setup = Begun | Subscribed | ReferenceSet | Listening

  /** Who closes: a container event, which holds the subscription, or a failing callback, which reads `subRef`. */
  datatype Origin = FromEvent | FromCallback(referenceSet: bool) {
    predicate HasSubscription() {
      FromEvent? || referenceSet
    }
  }

  /** How far a closing thread has come. */
  datatype Closer = CanClose(origin: Origin) | Won(origin: Origin) | Unsubscribed

  /**
   * A publishing thread that has the stream on its list, or a container event; `began` is the time at which the
   * thread's callback began, before it looked at `closed`.
   */
  datatype Party =
    | Absent
    | Listed
    | Entered(began: nat)
    | Sending(began: nat)
    | SendFailed(began: nat)
    | Closing(closer: Closer)
    | Gone

  /** A clock that counts steps, when `closed` was set, and when the callbacks that sent something began. */
  datatype Log = Log(clock: nat, closedAt: Option<nat>, sends: seq<nat>) {
    function Tick(): Log {
      this.(clock := clock + 1)
    }
  }

  datatype Stream = Stream(
    setup: Setup, subscribed: bool, reference: bool, parties: map<Thread, Party>,
    unsubscribes: nat, completes: nat, winner: Option<Thread>, origin: Origin, log: Log)
  {
    predicate Closed() {
      log.closedAt.Some?
    }
    function At(t: Thread): Party {
      if t in parties then parties[t] else Absent
    }
    function Move(t: Thread, p: Party): Stream {
      this.(parties := parties[t := p])
    }
  }

  const INITIAL := Stream(Begun, false, false, map[], 0, 0, None, FromEvent, Log(0, None, []))

  datatype Action =
    | SetupStep
    | TakeSubscribers(t: Thread)
    | Callback(t: Thread)
    | CheckClosed(t: Thread)
    | Send(t: Thread, fails: bool)
    | ReadReference(t: Thread)
    | ContainerEvent(t: Thread)
    | CloseStep(t: Thread)

  function SetupNext(s: Stream): Stream {
    match s.setup
    case Begun => s.(setup := Subscribed, subscribed := true)
    case Subscribed => s.(setup := ReferenceSet, reference := true)
    case ReferenceSet => s.(setup := Listening)
    case Listening => s
  }

  function CloseNext(s: Stream, t: Thread, c: Closer): Stream {
    match c
    case CanClose(origin) =>
      if s.Closed() then s.Move(t, Gone)
      else
        s.(log := s.log.(closedAt := Some(s.log.clock)), winner := Some(t), origin := origin)
        .Move(t, Closing(Won(origin)))
    case Won(origin) =>
      if origin.HasSubscription()
      then s.(subscribed := false, unsubscribes := s.unsubscribes + 1).Move(t, Closing(Unsubscribed))
      else s.Move(t, Closing(Unsubscribed))
    case Unsubscribed => s.(completes := s.completes + 1).Move(t, Gone)
  }

  function Act(s: Stream, a: Action): Stream {
    match a
    case SetupStep => SetupNext(s)
    case TakeSubscribers(t) =>
      if (s.At(t).Absent? || s.At(t).Gone?) && s.subscribed then s.Move(t, Listed) else s
    case Callback(t) =>
      if !s.At(t).Listed? then s else s.Move(t, Entered(s.log.clock))
    case CheckClosed(t) =>
      if !s.At(t).Entered? then s else s.Move(t, if s.Closed() then Gone else Sending(s.At(t).began))
    case Send(t, fails) =>
      if !s.At(t).Sending? then s
      else if fails then s.Move(t, SendFailed(s.At(t).began))
      else s.(log := s.log.(sends := s.log.sends + [s.At(t).began])).Move(t, Gone)
    case ReadReference(t) =>
      if !s.At(t).SendFailed? then s else s.Move(t, Closing(CanClose(FromCallback(s.reference))))
    case ContainerEvent(t) =>
      // completion, timeout and error are registered last, with the subscription at hand
      if (s.At(t).Absent? || s.At(t).Gone?) && s.setup == Listening then s.Move(t, Closing(CanClose(FromEvent))) else s
    case CloseStep(t) => if !s.At(t).Closing? then s else CloseNext(s, t, s.At(t).closer)
  }

  function Tick(s: Stream): Stream {
    s.(log := s.log.Tick())
  }

  /** One atomic step; an action that cannot happen in this state only lets time pass. */
  function Step(s: Stream, a: Action): Stream {
    Tick(Act(s, a))
  }

  function Run(acts: seq<Action>): Stream {
    if acts == [] then INITIAL else Step(Run(acts[..|acts| - 1]), acts[|acts| - 1])
  }

  // ---- the invariant ----

  /** The party is past the compare-and-set and not yet done. */
  predicate InClosing(p: Party) {
    p.Closing? && !p.closer.CanClose?
  }

  predicate Before(time: nat, end: Option<nat>) {
    end.Some? ==> time < end.value
  }

  predicate PartyOk(s: Stream, t: Thread, p: Party) {
    && (InClosing(p) ==> s.winner == Some(t))
    && (p.Closing? && p.closer.Won? ==> p.closer.origin == s.origin)
    && (!p.Absent? ==> s.setup != Begun)
    && (p.Entered? || p.Sending? || p.SendFailed? ==> p.began < s.log.clock)
    && (p.Sending? || p.SendFailed? ==> Before(p.began, s.log.closedAt))
    && (p.Closing? && p.closer.CanClose? && p.closer.origin.HasSubscription() ==>
          s.setup != Begun && s.setup != Subscribed)
  }

  ghost predicate LogOk(l: Log) {
    && (l.closedAt.Some? ==> l.closedAt.value < l.clock)
    && (forall i :: 0 <= i < |l.sends| ==> l.sends[i] < l.clock && Before(l.sends[i], l.closedAt))
  }

  ghost predicate Inv(s: Stream) {
    (forall t: Thread :: PartyOk(s, t, s.At(t))) && Totals(s) && LogOk(s.log)
  }

  /** What no step takes back. */
  predicate Grows(s: Stream, r: Stream) {
    && (s.winner.Some? ==> r.winner == s.winner && r.origin == s.origin)
    && (s.setup != Begun ==> r.setup != Begun)
    && (s.setup != Begun && s.setup != Subscribed ==> r.setup != Begun && r.setup != Subscribed)
    && r.log.clock == s.log.clock + 1
    && (r.log.closedAt == s.log.closedAt || r.log.closedAt == Some(s.log.clock))
  }

  lemma StepGrows(s: Stream, a: Action)
    requires Totals(s)
    ensures Grows(s, Step(s, a))
  {
  }

  lemma PartyStays(s: Stream, r: Stream, t: Thread, p: Party)
    requires PartyOk(s, t, p) && Grows(s, r)
    requires s.winner.None? && p.Closing? ==> p.closer.CanClose?
    ensures PartyOk(r, t, p)
  {
  }

  lemma CloserStaysOk(s: Stream, t: Thread)
    requires s.At(t).Closing? && PartyOk(s, t, s.At(t)) && Totals(s)
    ensures var r := Tick(CloseNext(s, t, s.At(t).closer)); PartyOk(r, t, r.At(t))
  {
  }

  lemma ActorStaysOk(s: Stream, a: Action)
    requires !a.SetupStep? && PartyOk(s, a.t, s.At(a.t)) && Totals(s)
    ensures PartyOk(Step(s, a), a.t, Step(s, a).At(a.t))
  {
    if a.CloseStep? {
      if s.At(a.t).Closing? { CloserStaysOk(s, a.t); }
    } else {
      hide CloseNext, SetupNext;
    }
  }

  lemma StepKeepsParties(s: Stream, a: Action, t: Thread)
    requires Inv(s)
    ensures PartyOk(Step(s, a), t, Step(s, a).At(t))
  {
    assert PartyOk(s, t, s.At(t));
    if a.SetupStep? || a.t != t {
      StepGrows(s, a);
      assert Step(s, a).At(t) == s.At(t);
      PartyStays(s, Step(s, a), t, s.At(t));
    } else {
      ActorStaysOk(s, a);
    }
  }

  /** The counters and flags, apart from what is said of each party. */
  ghost predicate Totals(s: Stream) {
    && (s.Closed() <==> s.winner.Some?)
    && (s.reference ==> s.setup != Begun && s.setup != Subscribed)
    && (s.Closed() && s.origin.HasSubscription() ==> s.setup != Begun && s.setup != Subscribed)
    && (s.setup == Begun ==> !s.subscribed && s.unsubscribes == 0 && !s.Closed())
    && (s.setup != Begun ==> (s.subscribed <==> s.unsubscribes == 0))
    && (s.winner.None? ==> s.unsubscribes == 0 && s.completes == 0)
    && (s.winner.Some? ==>
          var p := s.At(s.winner.value);
          && s.unsubscribes == (if s.origin.HasSubscription() && !(InClosing(p) && p.closer.Won?) then 1 else 0)
          && s.completes == (if InClosing(p) then 0 else 1))
  }

  lemma CloseKeepsTotals(s: Stream, t: Thread)
    requires Totals(s) && s.At(t).Closing? && PartyOk(s, t, s.At(t))
    ensures Totals(Tick(CloseNext(s, t, s.At(t).closer)))
  {
  }

  lemma SetupKeepsTotals(s: Stream)
    requires Totals(s)
    ensures Totals(Tick(SetupNext(s)))
  {
  }

  /** A step other than setting up and closing changes no flag or count, and nobody's progress in closing. */
  lemma OtherStepsCloseNothing(s: Stream, a: Action, u: Thread)
    requires !a.SetupStep? && !a.CloseStep?
    ensures var r := Step(s, a);
            && r == s.(parties := r.parties, log := r.log) && r.Closed() == s.Closed()
            && (InClosing(s.At(u)) || InClosing(r.At(u)) ==> r.At(u) == s.At(u))
  {
  }

  lemma StepKeepsTotals(s: Stream, a: Action)
    requires Inv(s)
    ensures Totals(Step(s, a))
  {
    if a.SetupStep? {
      SetupKeepsTotals(s);
    } else if a.CloseStep? {
      assert PartyOk(s, a.t, s.At(a.t));
      if s.At(a.t).Closing? { CloseKeepsTotals(s, a.t); }
    } else {
      OtherStepsCloseNothing(s, a, if s.winner.Some? then s.winner.value else a.t);
      hide Act;
    }
  }

  lemma StepKeepsLog(s: Stream, a: Action)
    requires Inv(s)
    ensures LogOk(Step(s, a).log)
  {
    if a.Send? {
      assert PartyOk(s, a.t, s.At(a.t));
    }
  }

  lemma StepKeeps(s: Stream, a: Action)
    requires Inv(s)
    ensures Inv(Step(s, a))
  {
    forall t: Thread
      ensures PartyOk(Step(s, a), t, Step(s, a).At(t))
    {
      StepKeepsParties(s, a, t);
    }
    StepKeepsTotals(s, a);
    StepKeepsLog(s, a);
  }

  lemma {:induction false} InvHolds(acts: seq<Action>)
    ensures Inv(Run(acts))
  {
    if acts != [] {
      InvHolds(acts[..|acts| - 1]);
      StepKeeps(Run(acts[..|acts| - 1]), acts[|acts| - 1]);
    }
  }

  // ---- what it gives ----

  /** In every interleaving the stream is unsubscribed at most once and completed at most once. */
  lemma ClosedAtMostOnce(acts: seq<Action>)
    ensures Run(acts).unsubscribes <= 1 && Run(acts).completes <= 1
  {
    InvHolds(acts);
  }

  /** Whatever was sent was sent by a callback that began before `closed` was set. */
  lemma NoSendAfterClose(acts: seq<Action>, i: nat)
    requires i < |Run(acts).log.sends| && Run(acts).Closed()
    ensures Run(acts).log.sends[i] < Run(acts).log.closedAt.value
  {
    InvHolds(acts);
  }

  /**
   * Once the party that won the compare-and-set is done, the stream is completed, and it is unsubscribed unless the
   * winner was a failing callback that ran before `subRef` was set; in that one case it is still subscribed.
   */
  lemma StillSubscribedIffEarlyCallbackWon(acts: seq<Action>)
    requires var s := Run(acts); s.winner.Some? && !InClosing(s.At(s.winner.value))
    ensures var s := Run(acts);
            s.completes == 1 && (s.subscribed <==> s.origin == FromCallback(false))
  {
    InvHolds(acts);
  }

  lemma WinnerStays(s: Stream, a: Action)
    requires Inv(s) && s.winner.Some? && !InClosing(s.At(s.winner.value))
    ensures var r := Step(s, a);
            r.winner == s.winner && r.origin == s.origin && !InClosing(r.At(r.winner.value))
  {
    if a.CloseStep? {
      assert PartyOk(s, a.t, s.At(a.t));
    }
  }

  // ---- when a send can fail only after the stream has been set up ----

  /** A send fails only once `stream` has done all its setting up. */
  predicate FailsLate(s: Stream, a: Action) {
    a.Send? && a.fails ==> s.setup == Listening
  }

  predicate AllFailLate(acts: seq<Action>) {
    acts != [] ==> AllFailLate(acts[..|acts| - 1]) && FailsLate(Run(acts[..|acts| - 1]), acts[|acts| - 1])
  }

  /** Whoever wants to close, or has won the close, holds the subscription. */
  predicate HoldsSubscription(s: Stream, p: Party) {
    && (p.SendFailed? ==> s.reference)
    && (p.Closing? && !p.closer.Unsubscribed? ==> p.closer.origin.HasSubscription())
  }

  ghost predicate NobodyEarly(s: Stream) {
    && (s.setup != Begun && s.setup != Subscribed ==> s.reference)
    && (forall t: Thread :: HoldsSubscription(s, s.At(t)))
    && (s.winner.Some? ==> s.origin.HasSubscription())
  }

  lemma LateFailureParty(s: Stream, a: Action, t: Thread)
    requires NobodyEarly(s) && FailsLate(s, a)
    ensures HoldsSubscription(Step(s, a), Step(s, a).At(t))
  {
    assert HoldsSubscription(s, s.At(t));
  }

  lemma LateFailureStep(s: Stream, a: Action)
    requires NobodyEarly(s) && FailsLate(s, a)
    ensures NobodyEarly(Step(s, a))
  {
    if a.CloseStep? {
      assert HoldsSubscription(s, s.At(a.t));
    }
    forall t: Thread
      ensures HoldsSubscription(Step(s, a), Step(s, a).At(t))
    {
      LateFailureParty(s, a, t);
    }
  }

  lemma {:induction false} NobodyEarlyHolds(acts: seq<Action>)
    requires AllFailLate(acts)
    ensures NobodyEarly(Run(acts))
  {
    if acts != [] {
      hide Step, NobodyEarly;
      NobodyEarlyHolds(acts[..|acts| - 1]);
      LateFailureStep(Run(acts[..|acts| - 1]), acts[|acts| - 1]);
    } else {
      assert NobodyEarly(INITIAL);
    }
  }

  /** If sends fail only after the stream has been set up, it is always unsubscribed when the winner is done. */
  lemma LateFailuresUnsubscribe(acts: seq<Action>)
    requires AllFailLate(acts)
    requires var s := Run(acts); s.winner.Some? && !InClosing(s.At(s.winner.value))
    ensures !Run(acts).subscribed && Run(acts).completes == 1
  {
    NobodyEarlyHolds(acts);
    StillSubscribedIffEarlyCallbackWon(acts);
  }

  // ---- when a callback can fail before ----

  ghost predicate LeftByEarlyCallback(s: Stream) {
    s.winner.Some? && !InClosing(s.At(s.winner.value)) && s.origin == FromCallback(false)
  }

  /** In that case nothing later unsubscribes it: every further close finds the stream closed. */
  lemma {:induction false} EarlyWinLeavesItSubscribed(acts: seq<Action>, more: seq<Action>)
    requires LeftByEarlyCallback(Run(acts))
    ensures LeftByEarlyCallback(Run(acts + more))
    ensures Run(acts + more).subscribed && Run(acts + more).completes == 1
  {
    hide Step;
    if more == [] {
      assert acts + more == acts;
    } else {
      var front := more[..|more| - 1];
      EarlyWinLeavesItSubscribed(acts, front);
      assert (acts + more)[..|acts + more| - 1] == acts + front;
      InvHolds(acts + front);
      WinnerStays(Run(acts + front), more[|more| - 1]);
    }
    StillSubscribedIffEarlyCallbackWon(acts + more);
  }

  lemma Extend(acts: seq<Action>, s: Stream, a: Action) returns (longer: seq<Action>, r: Stream)
    requires Run(acts) == s
    ensures Run(longer) == r == Step(s, a)
  {
    longer, r := acts + [a], Step(s, a);
    assert longer[..|longer| - 1] == acts;
  }

  lemma EarlySendFails() returns (acts: seq<Action>, s: Stream)
    ensures Run(acts) == s
    ensures s.At(0) == Closing(CanClose(FromCallback(false))) && s.subscribed && !s.Closed()
  {
    acts, s := [], INITIAL;
    acts, s := Extend(acts, s, SetupStep);
    acts, s := Extend(acts, s, TakeSubscribers(0));
    assert s.At(0) == Listed;
    acts, s := Extend(acts, s, Callback(0));
    assert s.At(0) == Entered(2);
    acts, s := Extend(acts, s, CheckClosed(0));
    assert s.At(0) == Sending(2);
    acts, s := Extend(acts, s, Send(0, true));
    assert s.At(0) == SendFailed(2);
    acts, s := Extend(acts, s, ReadReference(0));
  }

  /** The case is reachable if a send can fail while the stream is still being set up. */
  lemma EarlyCallbackCanWin() returns (acts: seq<Action>)
    ensures LeftByEarlyCallback(Run(acts)) && Run(acts).subscribed && Run(acts).At(0) == Gone
  {
    var s;
    acts, s := EarlySendFails();
    acts, s := Extend(acts, s, CloseStep(0));
    assert s.At(0) == Closing(Won(FromCallback(false)));
    acts, s := Extend(acts, s, CloseStep(0));
    assert s.At(0) == Closing(Unsubscribed);
    acts, s := Extend(acts, s, CloseStep(0));
  }

  // ---- one party, without interference ----

  /** The steps of a callback up to its send. */
  function SendsAlone(s: Stream, t: Thread, fails: bool): Stream {
    Step(Step(Step(s, Callback(t)), CheckClosed(t)), Send(t, fails))
  }

  function ClosesAlone(s: Stream, t: Thread): Stream {
    Step(Step(Step(s, CloseStep(t)), CloseStep(t)), CloseStep(t))
  }

  /** `stream` sets up the subscription first, then the reference to it, and then listens for the container's events. */
  lemma SetUpAlone()
    ensures var s := Step(Step(Step(INITIAL, SetupStep), SetupStep), SetupStep);
            s.setup == Listening && s.subscribed && s.reference && !s.Closed()
  {
  }

  /** A callback on an open stream sends its packet and is done; on a closed one it sends nothing. */
  lemma SendAlone(s: Stream, t: Thread)
    requires s.At(t).Listed?
    ensures var r := SendsAlone(s, t, false);
            && r.At(t).Gone? && r.log.closedAt == s.log.closedAt && r.subscribed == s.subscribed
            && r.log.sends == if s.Closed() then s.log.sends else s.log.sends + [s.log.clock]
  {
    assert Step(s, Callback(t)).At(t) == Entered(s.log.clock);
  }

  /** A send that fails on an open stream closes it: it is unsubscribed if the reference is set, and completed. */
  lemma FailedSendCloses(s: Stream, t: Thread)
    requires s.At(t).Listed? && !s.Closed() && s.subscribed
    ensures var r := ClosesAlone(Step(SendsAlone(s, t, true), ReadReference(t)), t);
            && r.At(t).Gone? && r.Closed() && r.winner == Some(t) && r.log.sends == s.log.sends
            && r.completes == s.completes + 1
            && r.unsubscribes == (if s.reference then s.unsubscribes + 1 else s.unsubscribes)
            && (r.subscribed <==> !s.reference)
  {
    assert Step(s, Callback(t)).At(t) == Entered(s.log.clock);
    var read := Step(SendsAlone(s, t, true), ReadReference(t));
    assert read.At(t) == Closing(CanClose(FromCallback(s.reference)));
    CloseAlone(read, t, FromCallback(s.reference));
  }

  /** A completion, a timeout or an error closes an open stream: it is unsubscribed and completed. */
  lemma EventCloses(s: Stream, t: Thread)
    requires s.At(t).Absent? && s.setup == Listening && !s.Closed()
    ensures var r := ClosesAlone(Step(s, ContainerEvent(t)), t);
            && r.At(t).Gone? && r.Closed() && r.winner == Some(t) && r.log.sends == s.log.sends
            && r.completes == s.completes + 1 && r.unsubscribes == s.unsubscribes + 1 && !r.subscribed
  {
    CloseAlone(Step(s, ContainerEvent(t)), t, FromEvent);
  }

  lemma CloseAlone(s: Stream, t: Thread, origin: Origin)
    requires s.At(t) == Closing(CanClose(origin)) && !s.Closed()
    ensures var r := ClosesAlone(s, t);
            && r.At(t).Gone? && r.Closed() && r.winner == Some(t) && r.log.sends == s.log.sends
            && r.completes == s.completes + 1
            && r.unsubscribes == (if origin.HasSubscription() then s.unsubscribes + 1 else s.unsubscribes)
            && r.subscribed == (s.subscribed && !origin.HasSubscription())
  {
    var won := Step(s, CloseStep(t));
    assert won.At(t) == Closing(Won(origin));
    var left := Step(won, CloseStep(t));
    assert left.At(t) == Closing(Unsubscribed);
  }
}
