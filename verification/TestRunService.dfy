/**
 * The life of an internal run, as a step system.  A run is started once; then its worker, any number of stop
 * calls, publishing threads and status polls interleave, one read or write of shared state at a time.
 */
module RunLifecycle {
  import opened Common

  type Thread = nat

  datatype Outcome = Running | Finished | Stopped | Failed

  /** The state and the two counters of a status or a summary. */
  datatype Report = Report(state: Outcome, captured: nat, errors: nat)

  /** How far `start` has come: the steps it takes, in order. */
  datatype Starting = NotStarted | Subscribed | Registered | Announced | Submitted | TaskKnown

  /** A caller of `finish`: the worker at the end of its plan, or a stop call. */
  datatype Finisher =
    | Away
    | FoundRun
    | AtFinish(state: Outcome)
    | Removed(state: Outcome)
    | Closed(state: Outcome)
    | ReadCaptured(state: Outcome, captured: nat)
    | StatusBuilt(status: Report)
    | StatusStored(status: Report)
    | SummaryCaptured(status: Report, captured: nat)
    | SummaryBuilt(status: Report, summary: Report)
    | Returned(won: bool)
    | Threw

  /** A thread publishing a packet of this run, from taking the subscriber list to the counter's upsert. */
  datatype Publisher =
    | Outside
    | Called(success: bool)
    | CountedOne(success: bool)
    | CountedBoth
    | GotCaptured(captured: nat)
    | GotBoth(captured: nat, errors: nat)

  /** A status poll; `from` and `to` are the times of its first and last read of the two maps. */
  datatype Poll =
    | NotAsked
    | SawNothing(from: nat, registered: bool)
    | SawActive(from: nat, to: nat, registered: bool)
    | SawCaptured(from: nat, to: nat, registered: bool, captured: nat)
    | Answered(from: nat, to: nat, registered: bool, answer: Option<Report>)

  /**
   * Starting, and finishing.  `winner`, `removedAt` and `storedAt` record who took the run out of the active map,
   * when, and when its status was stored.
   */
  datatype Life = Life(
    starting: Starting, active: bool, finished: Option<Report>, winner: Option<Thread>,
    removedAt: Option<nat>, storedAt: Option<nat>, finishers: map<Thread, Finisher>)
  {
    function At(t: Thread): Finisher {
      if t in finishers then finishers[t] else Away
    }
    function Move(t: Thread, f: Finisher): Life {
      this.(finishers := finishers[t := f])
    }
    predicate IsRegistered() {
      starting != NotStarted && starting != Subscribed
    }
    /** The id is known to others once the first summary is out. */
    predicate IsKnown() {
      IsRegistered() && starting != Registered
    }
  }

  /** The counter subscribed to the bus. */
  datatype Tally = Tally(subscribed: bool, captured: nat, errors: nat, publishers: map<Thread, Publisher>) {
    function At(t: Thread): Publisher {
      if t in publishers then publishers[t] else Outside
    }
    function Move(t: Thread, p: Publisher): Tally {
      this.(publishers := publishers[t := p])
    }
    function Counts(state: Outcome): Report {
      Report(state, captured, errors)
    }
    predicate NobodyInside() {
      forall t | t in publishers :: publishers[t].Outside?
    }
  }

  /** Everything the service holds about one run id, and a clock that counts steps. */
  datatype Cell = Cell(life: Life, tally: Tally, summary: Option<Report>, polls: map<Thread, Poll>, clock: nat) {
    function PollOf(t: Thread): Poll {
      if t in polls then polls[t] else NotAsked
    }
  }

  const INITIAL := Cell(
    Life(NotStarted, false, None, None, None, None, map[]), Tally(false, 0, 0, map[]), None, map[], 0)

  datatype Action =
    | StartStep
    | WorkerEnds(t: Thread, state: Outcome)
    | StopFindsRun(t: Thread)
    | StopCancels(t: Thread)
    | FinishStep(t: Thread)
    | TakeSubscribers(t: Thread, success: bool)
    | CounterStep(t: Thread)
    | AskStatus(t: Thread)
    | PollStep(t: Thread)

  function StartLife(l: Life): Life {
    match l.starting
    case NotStarted => l.(starting := Subscribed)
    case Subscribed => l.(starting := Registered, active := true)
    case Registered => l.(starting := Announced)
    case Announced => l.(starting := Submitted)
    case Submitted => l.(starting := TaskKnown)
    case TaskKnown => l
  }

  /** The worker runs once the plan is submitted, and ends in one of three ways. */
  function WorkerLife(l: Life, t: Thread, state: Outcome): Life {
    if l.At(t).Away? && state != Running && (l.starting == Submitted || l.starting == TaskKnown)
    then l.Move(t, AtFinish(state)) else l
  }

  function StopFindsLife(l: Life, t: Thread): Life {
    if !l.At(t).Away? || !l.IsKnown() then l
    else l.Move(t, if l.active then FoundRun else Returned(false))
  }

  /** A stop call that comes before `start` has noted the task fails on the missing task. */
  function StopCancelsLife(l: Life, t: Thread): Life {
    if !l.At(t).FoundRun? then l
    else l.Move(t, if l.starting == TaskKnown then AtFinish(Stopped) else Threw)
  }

  function FinishLife(l: Life, t: Thread, tally: Tally, clock: nat): Life {
    match l.At(t)
    case AtFinish(state) =>
      if l.active then l.(active := false, winner := Some(t), removedAt := Some(clock)).Move(t, Removed(state))
      else l.Move(t, Returned(false))
    case Removed(state) => l.Move(t, Closed(state))
    case Closed(state) => l.Move(t, ReadCaptured(state, tally.captured))
    case ReadCaptured(state, n) => l.Move(t, StatusBuilt(Report(state, n, tally.errors)))
    case StatusBuilt(status) => l.(finished := Some(status), storedAt := Some(clock)).Move(t, StatusStored(status))
    case StatusStored(status) => l.Move(t, SummaryCaptured(status, tally.captured))
    case SummaryCaptured(status, n) => l.Move(t, SummaryBuilt(status, Report(status.state, n, tally.errors)))
    case SummaryBuilt(_, _) => l.Move(t, Returned(true))
    case _ => l
  }

  function CounterTally(y: Tally, t: Thread): Tally {
    match y.At(t)
    case Outside => y
    case Called(success) => y.(captured := y.captured + 1).Move(t, CountedOne(success))
    case CountedOne(success) => y.(errors := y.errors + (if success then 0 else 1)).Move(t, CountedBoth)
    case CountedBoth => y.Move(t, GotCaptured(y.captured))
    case GotCaptured(n) => y.Move(t, GotBoth(n, y.errors))
    case GotBoth(n, e) => y.Move(t, Outside)
  }

  function PollNext(c: Cell, t: Thread): Poll {
    match c.PollOf(t)
    case SawNothing(from, registered) =>
      if c.life.active then SawActive(from, c.clock, registered) else Answered(from, c.clock, registered, None)
    case SawActive(from, to, registered) => SawCaptured(from, to, registered, c.tally.captured)
    case SawCaptured(from, to, registered, n) =>
      Answered(from, to, registered, Some(Report(Running, n, c.tally.errors)))
    case other => other
  }

  /** One atomic step; an action that cannot happen in this state only lets time pass. */
  function Step(c: Cell, a: Action): Cell {
    var now := c.(clock := c.clock + 1);
    match a
    case StartStep =>
      now.(life := StartLife(c.life),
           tally := if c.life.starting == NotStarted then c.tally.(subscribed := true) else c.tally,
           summary := if c.life.starting == Registered then Some(c.tally.Counts(Running)) else c.summary)
    case WorkerEnds(t, state) => now.(life := WorkerLife(c.life, t, state))
    case StopFindsRun(t) => now.(life := StopFindsLife(c.life, t))
    case StopCancels(t) => now.(life := StopCancelsLife(c.life, t))
    case FinishStep(t) =>
      var f := c.life.At(t);
      now.(life := FinishLife(c.life, t, c.tally, c.clock),
           tally := if f.Removed? then c.tally.(subscribed := false) else c.tally,
           summary := if f.SummaryBuilt? then Some(f.summary) else c.summary)
    case TakeSubscribers(t, success) =>
      if c.tally.At(t).Outside? && c.tally.subscribed then now.(tally := c.tally.Move(t, Called(success))) else now
    case CounterStep(t) =>
      var p := c.tally.At(t);
      now.(tally := CounterTally(c.tally, t),
           summary := if p.GotBoth? then Some(Report(Running, p.captured, p.errors)) else c.summary)
    case AskStatus(t) =>
      if !c.PollOf(t).NotAsked? then now
      else now.(polls := c.polls[t :=
        if c.life.finished.Some? then Answered(c.clock, c.clock, c.life.IsRegistered(), c.life.finished)
        else SawNothing(c.clock, c.life.IsRegistered())])
    case PollStep(t) => now.(polls := c.polls[t := PollNext(c, t)])
  }

  function Run(c: Cell, acts: seq<Action>): Cell {
    if acts == [] then c else Step(Run(c, acts[..|acts| - 1]), acts[|acts| - 1])
  }

  // ---- the run is removed once, and only the remover goes on ----

  /** Removed from the active map but not yet in the map of finished runs. */
  predicate BetweenMaps(f: Finisher) {
    f.Removed? || f.Closed? || f.ReadCaptured? || f.StatusBuilt?
  }

  predicate StatusIsStored(f: Finisher) {
    f.StatusStored? || f.SummaryCaptured? || f.SummaryBuilt? || f == Returned(true)
  }

  predicate Winning(f: Finisher) {
    BetweenMaps(f) || StatusIsStored(f)
  }

  /** What holds of a caller: it has gone past the remove only as the winner, and carries a terminal state. */
  predicate CallerOk(l: Life, f: Finisher, isWinner: bool) {
    && (Winning(f) <==> isWinner)
    && (!l.IsKnown() ==> f.Away?)
    && (f == Returned(false) ==> l.winner.Some?)
    && (f.AtFinish? || f.Removed? || f.Closed? || f.ReadCaptured? ==> f.state != Running)
    && (f.StatusBuilt? ==> f.status.state != Running)
    && (f.StatusStored? || f.SummaryCaptured? || f.SummaryBuilt? ==> l.finished == Some(f.status))
    && (f.SummaryBuilt? ==> f.summary.state == f.status.state)
    && (isWinner ==>
          (l.finished.Some? <==> StatusIsStored(f)))
  }

  ghost predicate LifeInv(l: Life) {
    && (forall t: Thread :: CallerOk(l, l.At(t), l.winner == Some(t)))
    && (l.active <==> l.IsRegistered() && l.winner.None?)
    && (l.winner.Some? ==> l.IsRegistered())
    && (l.finished.Some? ==> l.winner.Some? && l.finished.value.state != Running)
    && (l.winner.Some? <==> l.removedAt.Some?)
    && (l.finished.Some? <==> l.storedAt.Some?)
  }

  lemma FinishKeepsLife(l: Life, t: Thread, tally: Tally, clock: nat)
    requires LifeInv(l)
    ensures LifeInv(FinishLife(l, t, tally, clock))
    ensures l.finished.Some? ==> FinishLife(l, t, tally, clock).finished == l.finished
  {
    var m := FinishLife(l, t, tally, clock);
    assert CallerOk(l, l.At(t), l.winner == Some(t));
    forall u: Thread
      ensures CallerOk(m, m.At(u), m.winner == Some(u))
    {
      assert CallerOk(l, l.At(u), l.winner == Some(u));
    }
  }

  lemma StartKeepsLife(l: Life)
    requires LifeInv(l)
    ensures LifeInv(StartLife(l))
  {
    var m := StartLife(l);
    forall u: Thread
      ensures CallerOk(m, m.At(u), m.winner == Some(u))
    {
      assert CallerOk(l, l.At(u), l.winner == Some(u));
    }
  }

  lemma MoveKeepsLife(l: Life, t: Thread, f: Finisher)
    requires LifeInv(l)
    requires CallerOk(l, f, l.winner == Some(t))
    ensures LifeInv(l.Move(t, f))
  {
    var m := l.Move(t, f);
    forall u: Thread
      ensures CallerOk(m, m.At(u), m.winner == Some(u))
    {
      assert CallerOk(l, l.At(u), l.winner == Some(u));
    }
  }

  lemma WorkerKeepsLife(l: Life, t: Thread, state: Outcome)
    requires LifeInv(l)
    ensures LifeInv(WorkerLife(l, t, state))
  {
    assert CallerOk(l, l.At(t), l.winner == Some(t));
    if WorkerLife(l, t, state) != l { MoveKeepsLife(l, t, AtFinish(state)); }
  }

  lemma StopFindsKeepsLife(l: Life, t: Thread)
    requires LifeInv(l)
    ensures LifeInv(StopFindsLife(l, t))
  {
    assert CallerOk(l, l.At(t), l.winner == Some(t));
    if StopFindsLife(l, t) != l { MoveKeepsLife(l, t, if l.active then FoundRun else Returned(false)); }
  }

  lemma StopCancelsKeepsLife(l: Life, t: Thread)
    requires LifeInv(l)
    ensures LifeInv(StopCancelsLife(l, t))
  {
    assert CallerOk(l, l.At(t), l.winner == Some(t));
    if StopCancelsLife(l, t) != l {
      MoveKeepsLife(l, t, if l.starting == TaskKnown then AtFinish(Stopped) else Threw);
    }
  }

  lemma LifeStep(c: Cell, a: Action)
    requires LifeInv(c.life)
    ensures LifeInv(Step(c, a).life)
    ensures c.life.finished.Some? ==> Step(c, a).life.finished == c.life.finished
  {
    hide LifeInv, FinishLife, CounterTally, PollNext;
    match a
    case StartStep => StartKeepsLife(c.life);
    case FinishStep(t) => FinishKeepsLife(c.life, t, c.tally, c.clock);
    case WorkerEnds(t, state) => WorkerKeepsLife(c.life, t, state);
    case StopFindsRun(t) => StopFindsKeepsLife(c.life, t);
    case StopCancels(t) => StopCancelsKeepsLife(c.life, t);
    case _ =>
  }

  lemma {:induction false} LifeHolds(acts: seq<Action>)
    ensures LifeInv(Run(INITIAL, acts).life)
  {
    if acts != [] {
      LifeHolds(acts[..|acts| - 1]);
      LifeStep(Run(INITIAL, acts[..|acts| - 1]), acts[|acts| - 1]);
    }
  }

  /** In every interleaving exactly one caller wins the remove as soon as any caller has come through it. */
  lemma ExactlyOneWins(acts: seq<Action>, t: Thread, u: Thread)
    requires var f := Run(INITIAL, acts).life.At(t); f.Returned? || Winning(f)
    ensures var l := Run(INITIAL, acts).life;
            && l.winner.Some? && Winning(l.At(l.winner.value))
            && (Winning(l.At(u)) ==> u == l.winner.value)
            && (l.At(t) == Returned(false) ==> t != l.winner.value)
  {
    LifeHolds(acts);
    var l := Run(INITIAL, acts).life;
    assert CallerOk(l, l.At(t), l.winner == Some(t));
    assert CallerOk(l, l.At(u), l.winner == Some(u));
    assert CallerOk(l, l.At(l.winner.value), true);
  }

  /** Once a terminal status is recorded for a run, no continuation changes it. */
  lemma {:induction false} TerminalStatusIsFinal(acts: seq<Action>, more: seq<Action>)
    requires Run(INITIAL, acts).life.finished.Some?
    ensures Run(INITIAL, acts + more).life.finished == Run(INITIAL, acts).life.finished
    ensures Run(INITIAL, acts).life.finished.value.state != Running
  {
    hide Step;
    if more == [] {
      assert acts + more == acts;
      LifeHolds(acts);
    } else {
      var front := more[..|more| - 1];
      TerminalStatusIsFinal(acts, front);
      assert (acts + more)[..|acts + more| - 1] == acts + front;
      LifeHolds(acts + front);
      LifeStep(Run(INITIAL, acts + front), more[|more| - 1]);
    }
  }

  // ---- polling ----

  predicate PollOk(l: Life, p: Poll) {
    && (p.SawNothing? && p.registered ==> l.IsRegistered())
    && (p.SawNothing? && l.storedAt.Some? ==> p.from <= l.storedAt.value)
    && (p.Answered? && p.registered && p.answer.None? ==>
          && l.removedAt.Some? && l.removedAt.value <= p.to
          && (l.storedAt.Some? ==> p.from <= l.storedAt.value))
  }

  ghost predicate PollInv(c: Cell) {
    && (c.life.removedAt.Some? ==> c.life.removedAt.value < c.clock)
    && (forall t: Thread :: PollOk(c.life, c.PollOf(t)) && PollBegan(c.PollOf(t), c.clock))
  }

  predicate PollBegan(p: Poll, clock: nat) {
    p.NotAsked? || p.from < clock
  }

  lemma LifeOnlyAdvances(c: Cell, a: Action)
    requires LifeInv(c.life)
    ensures var l := Step(c, a).life;
            && (c.life.IsRegistered() ==> l.IsRegistered())
            && (l.removedAt == c.life.removedAt || (c.life.removedAt.None? && l.removedAt == Some(c.clock)))
            && (l.storedAt == c.life.storedAt || (c.life.storedAt.None? && l.storedAt == Some(c.clock)))
  {
    if a.FinishStep? {
      assert CallerOk(c.life, c.life.At(a.t), c.life.winner == Some(a.t));
    }
  }

  lemma PollStepKeeps(c: Cell, a: Action)
    requires LifeInv(c.life) && PollInv(c)
    ensures PollInv(Step(c, a))
  {
    LifeOnlyAdvances(c, a);
    forall t: Thread
      ensures PollOk(Step(c, a).life, Step(c, a).PollOf(t)) && PollBegan(Step(c, a).PollOf(t), c.clock + 1)
    {
      PollThreadStep(c, a, t);
    }
  }

  lemma PollThreadStep(c: Cell, a: Action, t: Thread)
    requires LifeInv(c.life) && PollInv(c)
    ensures PollOk(Step(c, a).life, Step(c, a).PollOf(t)) && PollBegan(Step(c, a).PollOf(t), c.clock + 1)
  {
    assert PollOk(c.life, c.PollOf(t)) && PollBegan(c.PollOf(t), c.clock);
    LifeOnlyAdvances(c, a);
    match a
    case AskStatus(u) =>
    case PollStep(u) =>
    case _ => assert Step(c, a).polls == c.polls;
  }

  lemma {:induction false} PollHolds(acts: seq<Action>)
    ensures PollInv(Run(INITIAL, acts))
  {
    if acts != [] {
      PollHolds(acts[..|acts| - 1]);
      LifeHolds(acts[..|acts| - 1]);
      PollStepKeeps(Run(INITIAL, acts[..|acts| - 1]), acts[|acts| - 1]);
    }
  }

  /**
   * A poll that began when the run was registered and came back with nothing ran while the run was between the
   * two maps: the remove came no later than the poll's last read, and the status was not stored before its first.
   */
  lemma NullPollOverlapsFinish(acts: seq<Action>, t: Thread)
    requires var p := Run(INITIAL, acts).PollOf(t); p.Answered? && p.registered && p.answer.None?
    ensures var l, p := Run(INITIAL, acts).life, Run(INITIAL, acts).PollOf(t);
            && l.removedAt.Some? && l.removedAt.value <= p.to
            && (l.storedAt.Some? ==> p.from <= l.storedAt.value)
  {
    PollHolds(acts);
    assert PollOk(Run(INITIAL, acts).life, Run(INITIAL, acts).PollOf(t));
  }

  // ---- the counter is unsubscribed ----

  predicate PastUnsubscribe(f: Finisher) {
    Winning(f) && !f.Removed?
  }

  predicate SubscriptionOk(l: Life, y: Tally) {
    && (l.starting == NotStarted ==> !y.subscribed)
    && (l.winner.Some? && PastUnsubscribe(l.At(l.winner.value)) ==> !y.subscribed)
  }

  lemma SubscriptionStep(c: Cell, a: Action)
    requires LifeInv(c.life) && SubscriptionOk(c.life, c.tally)
    ensures SubscriptionOk(Step(c, a).life, Step(c, a).tally)
  {
    if c.life.winner.Some? {
      assert CallerOk(c.life, c.life.At(c.life.winner.value), true);
    }
    match a
    case FinishStep(t) => assert CallerOk(c.life, c.life.At(t), c.life.winner == Some(t));
    case StartStep =>
    case _ => assert Step(c, a).tally.subscribed == c.tally.subscribed;
  }

  lemma {:induction false} SubscriptionHolds(acts: seq<Action>)
    ensures SubscriptionOk(Run(INITIAL, acts).life, Run(INITIAL, acts).tally)
  {
    if acts != [] {
      hide Step, SubscriptionOk;
      SubscriptionHolds(acts[..|acts| - 1]);
      LifeHolds(acts[..|acts| - 1]);
      SubscriptionStep(Run(INITIAL, acts[..|acts| - 1]), acts[|acts| - 1]);
    } else {
      assert SubscriptionOk(INITIAL.life, INITIAL.tally);
    }
  }

  // ---- the counters are the publishes ----

  /** A publishing thread takes the subscriber list while the counter is on it. */
  predicate Enters(c: Cell, a: Action) {
    a.TakeSubscribers? && c.tally.subscribed && c.tally.At(a.t).Outside?
  }

  /** The packets whose publish has taken the subscriber list with the counter on it. */
  function Publishes(acts: seq<Action>): nat {
    if acts == [] then 0
    else
      var front, a := acts[..|acts| - 1], acts[|acts| - 1];
      Publishes(front) + (if Enters(Run(INITIAL, front), a) then 1 else 0)
  }

  /** The failed ones among them. */
  function FailedPublishes(acts: seq<Action>): nat {
    if acts == [] then 0
    else
      var front, a := acts[..|acts| - 1], acts[|acts| - 1];
      FailedPublishes(front) + (if Enters(Run(INITIAL, front), a) && !a.success then 1 else 0)
  }

  predicate LacksCapture(p: Publisher) {
    p.Called?
  }

  predicate LacksError(p: Publisher) {
    p == Called(false) || p == CountedOne(false)
  }

  /** The threads that have a packet in hand which is not among the captured ones yet. */
  ghost function Uncaptured(publishers: map<Thread, Publisher>): set<Thread> {
    set t | t in publishers && LacksCapture(publishers[t])
  }

  /** The threads that have a failed packet in hand which is not among the errors yet. */
  ghost function Uncounted(publishers: map<Thread, Publisher>): set<Thread> {
    set t | t in publishers && LacksError(publishers[t])
  }

  lemma OneMoves(publishers: map<Thread, Publisher>, t: Thread, p: Publisher)
    ensures var moved, before := publishers[t := p], Uncaptured(publishers);
            Uncaptured(moved) == if LacksCapture(p) then before + {t} else before - {t}
    ensures var moved, before := publishers[t := p], Uncounted(publishers);
            Uncounted(moved) == if LacksError(p) then before + {t} else before - {t}
    ensures t in Uncaptured(publishers) <==> t in publishers && LacksCapture(publishers[t])
    ensures t in Uncounted(publishers) <==> t in publishers && LacksError(publishers[t])
  {
    hide LacksCapture, LacksError;
  }

  lemma EnteringCounts(y: Tally, t: Thread, success: bool)
    requires y.At(t).Outside?
    ensures var z := y.Move(t, Called(success));
            && |Uncaptured(z.publishers)| == |Uncaptured(y.publishers)| + 1
            && |Uncounted(z.publishers)| == |Uncounted(y.publishers)| + (if success then 0 else 1)
  {
    OneMoves(y.publishers, t, Called(success));
    hide Uncaptured, Uncounted;
  }

  lemma OneInOrOut<T>(before: set<T>, after: set<T>, t: T, was: bool, now: bool)
    requires (t in before <==> was) && after == if now then before + {t} else before - {t}
    ensures |after| == |before| - (if was then 1 else 0) + (if now then 1 else 0)
  {
    if was && now {
      assert after == before;
    }
  }

  lemma CountingCounts(y: Tally, t: Thread)
    ensures var z := CounterTally(y, t);
            && z.captured + |Uncaptured(z.publishers)| == y.captured + |Uncaptured(y.publishers)|
            && z.errors + |Uncounted(z.publishers)| == y.errors + |Uncounted(y.publishers)|
  {
    if y.At(t).Outside? {
      assert CounterTally(y, t) == y;
    } else {
      hide Uncaptured, Uncounted, CounterTally, LacksCapture, LacksError;
      CountedIsNoLongerLacking(y, t);
      var z := CounterTally(y, t);
      var p, q := y.publishers[t], z.At(t);
      OneMoves(y.publishers, t, q);
      OneInOrOut(Uncaptured(y.publishers), Uncaptured(z.publishers), t, LacksCapture(p), LacksCapture(q));
      OneInOrOut(Uncounted(y.publishers), Uncounted(z.publishers), t, LacksError(p), LacksError(q));
    }
  }

  lemma CountedIsNoLongerLacking(y: Tally, t: Thread)
    requires !y.At(t).Outside?
    ensures var z := CounterTally(y, t);
            var p, q := y.At(t), z.At(t);
            && z.publishers == y.publishers[t := q]
            && z.captured - y.captured == (if LacksCapture(p) then 1 else 0) - (if LacksCapture(q) then 1 else 0)
            && z.errors - y.errors == (if LacksError(p) then 1 else 0) - (if LacksError(q) then 1 else 0)
  {
  }

  lemma StepCounts(c: Cell, a: Action)
    ensures var y, z := c.tally, Step(c, a).tally;
            && z.captured + |Uncaptured(z.publishers)|
               == y.captured + |Uncaptured(y.publishers)| + (if Enters(c, a) then 1 else 0)
            && z.errors + |Uncounted(z.publishers)|
               == y.errors + |Uncounted(y.publishers)| + (if Enters(c, a) && !a.success then 1 else 0)
  {
    match a
    case TakeSubscribers(t, success) =>
      if Enters(c, a) { EnteringCounts(c.tally, t, success); }
    case CounterStep(t) => CountingCounts(c.tally, t);
    case _ => assert Step(c, a).tally.(subscribed := c.tally.subscribed) == c.tally;
  }

  /**
   * In every interleaving the counters are the publishes, and the failed publishes, that took the subscriber list with
   * the counter on it, but for those whose thread has yet to count them.
   */
  lemma {:induction false} CountersAreThePublishes(acts: seq<Action>)
    ensures var y := Run(INITIAL, acts).tally;
            && y.captured == Publishes(acts) - |Uncaptured(y.publishers)|
            && y.errors == FailedPublishes(acts) - |Uncounted(y.publishers)|
  {
    if acts == [] {
      assert Uncaptured(map[]) == {} && Uncounted(map[]) == {};
    } else {
      hide Step, Enters, Uncaptured, Uncounted;
      CountersAreThePublishes(acts[..|acts| - 1]);
      StepCounts(Run(INITIAL, acts[..|acts| - 1]), acts[|acts| - 1]);
    }
  }

  /** With nobody inside the counter, the counters are the publishes. */
  lemma QuietCounters(acts: seq<Action>)
    requires Run(INITIAL, acts).tally.NobodyInside()
    ensures var y := Run(INITIAL, acts).tally; y.captured == Publishes(acts) && y.errors == FailedPublishes(acts)
  {
    CountersAreThePublishes(acts);
    var publishers := Run(INITIAL, acts).tally.publishers;
    assert Uncaptured(publishers) == {} && Uncounted(publishers) == {};
  }

  // ---- the stored summary, when nobody is inside the counter ----

  /** The counters stand still, and what the winner carries and stores shows them. */
  predicate Settled(l: Life, y: Tally, summary: Option<Report>, state: Outcome, f: Finisher) {
    && !y.subscribed && y.NobodyInside() && l.IsKnown() && PastUnsubscribe(f)
    && (f.Closed? || f.ReadCaptured? ==> f.state == state)
    && (f.ReadCaptured? ==> f.captured == y.captured)
    && (f.StatusBuilt? ==> f.status == y.Counts(state))
    && (f.SummaryCaptured? ==> f.captured == y.captured)
    && (f.SummaryBuilt? ==> f.summary == f.status)
    && (f == Returned(true) ==> summary == l.finished)
    && (StatusIsStored(f) ==> l.finished == Some(y.Counts(state)))
  }

  /** The winner `t` has unsubscribed the counter with nobody inside, and is on its way to record `state`. */
  ghost predicate SettledFor(c: Cell, t: Thread, y: Tally, state: Outcome) {
    c.life.winner == Some(t) && c.tally == y && Settled(c.life, y, c.summary, state, c.life.At(t))
  }

  lemma SettledStep(c: Cell, a: Action, t: Thread, y: Tally, state: Outcome)
    requires LifeInv(c.life) && SettledFor(c, t, y, state)
    ensures SettledFor(Step(c, a), t, y, state)
  {
    assert CallerOk(c.life, c.life.At(t), true);
    match a
    case FinishStep(u) => SettledFinishStep(c, u, t, y, state);
    case CounterStep(u) => assert y.At(u).Outside?;
    case StartStep =>
    case WorkerEnds(u, outcome) =>
    case StopFindsRun(u) =>
    case StopCancels(u) =>
    case _ => assert Step(c, a).life == c.life && Step(c, a).summary == c.summary;
  }

  lemma SettledFinishStep(c: Cell, u: Thread, t: Thread, y: Tally, state: Outcome)
    requires LifeInv(c.life) && SettledFor(c, t, y, state)
    ensures SettledFor(Step(c, FinishStep(u)), t, y, state)
  {
    assert CallerOk(c.life, c.life.At(u), c.life.winner == Some(u));
    assert CallerOk(c.life, c.life.At(t), true);
  }

  lemma SettledNow(c: Cell, t: Thread)
    requires LifeInv(c.life) && SubscriptionOk(c.life, c.tally)
    requires c.life.At(t).Closed? && c.tally.NobodyInside()
    ensures SettledFor(c, t, c.tally, c.life.At(t).state)
  {
    assert CallerOk(c.life, c.life.At(t), c.life.winner == Some(t));
  }

  lemma {:induction false} SettledHolds(acts: seq<Action>, more: seq<Action>, t: Thread)
    requires var c := Run(INITIAL, acts); c.life.At(t).Closed? && c.tally.NobodyInside()
    ensures var c := Run(INITIAL, acts);
            SettledFor(Run(INITIAL, acts + more), t, c.tally, c.life.At(t).state)
  {
    var c := Run(INITIAL, acts);
    hide Step, SettledFor, LifeInv, SubscriptionOk;
    if more == [] {
      assert acts + more == acts;
      LifeHolds(acts);
      SubscriptionHolds(acts);
      SettledNow(c, t);
    } else {
      var front := more[..|more| - 1];
      SettledHolds(acts, front, t);
      assert (acts + more)[..|acts + more| - 1] == acts + front;
      LifeHolds(acts + front);
      SettledStep(Run(INITIAL, acts + front), more[|more| - 1], t, c.tally, c.life.At(t).state);
    }
  }

  /**
   * If at some moment between the winner's unsubscribe and its reading of the counters no publishing thread is inside
   * the counter, then in every continuation in which the winner has returned the stored summary is the recorded
   * status, with the winner's terminal state and the counts of that moment: exactly the publishes of the whole run
   * that took the subscriber list with the counter on it, and the failed ones among them.
   */
  lemma QuietFinishSettlesTheSummary(acts: seq<Action>, more: seq<Action>, t: Thread)
    requires var c := Run(INITIAL, acts); c.life.At(t).Closed? && c.tally.NobodyInside()
    requires Run(INITIAL, acts + more).life.At(t) == Returned(true)
    ensures var c, d := Run(INITIAL, acts), Run(INITIAL, acts + more);
            && d.summary == d.life.finished == Some(c.tally.Counts(c.life.At(t).state))
            && c.life.At(t).state != Running
            && d.tally == c.tally
            && d.summary == Some(Report(c.life.At(t).state, Publishes(acts + more), FailedPublishes(acts + more)))
  {
    hide Step, Publishes, FailedPublishes;
    LifeHolds(acts);
    SettledHolds(acts, more, t);
    QuietCounters(acts + more);
    var l := Run(INITIAL, acts).life;
    assert CallerOk(l, l.At(t), l.winner == Some(t));
  }

  // ---- the stored summary, when somebody is ----

  /** What a run goes on to after the winner's return is the recorded status. */
  ghost predicate SettlesAfter(acts: seq<Action>, more: seq<Action>, t: Thread) {
    var d := Run(INITIAL, acts + more);
    d.life.At(t) == Returned(true) ==> d.life.finished.Some? && d.summary == d.life.finished
  }

  lemma Extend(start: Cell, acts: seq<Action>, c: Cell, a: Action) returns (longer: seq<Action>, d: Cell)
    requires Run(start, acts) == c
    ensures Run(start, longer) == d == Step(c, a)
  {
    longer, d := acts + [a], Step(c, a);
    assert longer[..|longer| - 1] == acts;
  }

  lemma {:induction false} RunConcat(start: Cell, acts: seq<Action>, more: seq<Action>)
    ensures Run(start, acts + more) == Run(Run(start, acts), more)
  {
    hide Step;
    if more == [] {
      assert acts + more == acts;
    } else {
      RunConcat(start, acts, more[..|more| - 1]);
      assert (acts + more)[..|acts + more| - 1] == acts + more[..|more| - 1];
    }
  }

  /** The winner goes on alone until it has stored its status. */
  lemma WinnerStores(c: Cell, t: Thread) returns (more: seq<Action>, d: Cell)
    requires c.life.At(t).Closed?
    ensures Run(c, more) == d && d.tally == c.tally && d.life.winner == c.life.winner
    ensures var status := c.tally.Counts(c.life.At(t).state);
            d.life.finished == Some(status) && d.life.At(t) == StatusStored(status) && d.life.active == c.life.active
  {
    hide PollNext, CounterTally;
    var state := c.life.At(t).state;
    more, d := [], c;
    more, d := Extend(c, more, d, FinishStep(t));
    assert d.life.At(t) == ReadCaptured(state, c.tally.captured);
    more, d := Extend(c, more, d, FinishStep(t));
    assert d.life.At(t) == StatusBuilt(c.tally.Counts(state));
    more, d := Extend(c, more, d, FinishStep(t));
  }

  /** And on until it has returned. */
  lemma WinnerReturns(c: Cell, t: Thread) returns (more: seq<Action>, d: Cell)
    requires c.life.At(t).StatusStored?
    ensures Run(c, more) == d && d.tally == c.tally && d.life.winner == c.life.winner
    ensures d.life.finished == c.life.finished && d.life.At(t) == Returned(true)
    ensures d.summary == Some(c.tally.Counts(c.life.At(t).status.state)) && d.life.active == c.life.active
  {
    hide PollNext, CounterTally;
    var status := c.life.At(t).status;
    more, d := [], c;
    more, d := Extend(c, more, d, FinishStep(t));
    assert d.life.At(t) == SummaryCaptured(status, c.tally.captured);
    more, d := Extend(c, more, d, FinishStep(t));
    assert d.life.At(t) == SummaryBuilt(status, c.tally.Counts(status.state));
    more, d := Extend(c, more, d, FinishStep(t));
  }

  /** How many steps a publishing thread has left in the counter. */
  function Left(p: Publisher): nat {
    match p
    case Outside => 0
    case Called(_) => 5
    case CountedOne(_) => 4
    case CountedBoth => 3
    case GotCaptured(_) => 2
    case GotBoth(_, _) => 1
  }

  /** A thread inside the counter goes on alone until it writes the summary, as that of a running run. */
  lemma {:induction false} PublisherWrites(c: Cell, u: Thread) returns (more: seq<Action>)
    requires !c.tally.At(u).Outside?
    ensures var d, p := Run(c, more), c.tally.At(u);
            && d.life == c.life
            && d.summary.Some? && d.summary.value.state == Running
            && (p.GotBoth? ==> d.summary == Some(Report(Running, p.captured, p.errors)))
    decreases Left(c.tally.At(u))
  {
    hide FinishLife, PollNext;
    var d;
    assert Run(c, []) == c;
    more, d := Extend(c, [], c, CounterStep(u));
    if !c.tally.At(u).GotBoth? {
      var rest := PublisherWrites(d, u);
      RunConcat(c, more, rest);
      more := more + rest;
    }
  }

  /**
   * If a publishing thread is inside the counter at such a moment, the run can go on so that after the winner's return
   * the summary of the finished run shows RUNNING.
   */
  lemma PublisherInsideCanUnsettle(acts: seq<Action>, t: Thread, u: Thread) returns (more: seq<Action>)
    requires var c := Run(INITIAL, acts); c.life.At(t).Closed? && !c.tally.At(u).Outside?
    ensures var c, d := Run(INITIAL, acts), Run(INITIAL, acts + more);
            && d.life.At(t) == Returned(true) && d.life.winner == c.life.winner
            && d.life.finished == Some(c.tally.Counts(c.life.At(t).state))
            && d.summary.Some? && d.summary.value.state == Running
            && (c.tally.At(u).GotBoth? ==>
                  d.summary == Some(Report(Running, c.tally.At(u).captured, c.tally.At(u).errors)))
  {
    hide Step;
    var c := Run(INITIAL, acts);
    var stores, stored := WinnerStores(c, t);
    var goesBack, returned := WinnerReturns(stored, t);
    var writes := PublisherWrites(returned, u);
    RunConcat(c, stores, goesBack);
    RunConcat(c, stores + goesBack, writes);
    more := stores + goesBack + writes;
    RunConcat(INITIAL, acts, more);
  }

  /**
   * Exactly when a finished run settles: take a moment between the winner's unsubscribe and its reading of the
   * counters.  In every continuation the summary after the winner's return is the recorded status, if and only if no
   * publishing thread is inside the counter at that moment.
   */
  lemma SummarySettlesIff(acts: seq<Action>, t: Thread)
    requires Run(INITIAL, acts).life.At(t).Closed?
    ensures (forall more :: SettlesAfter(acts, more, t)) <==> Run(INITIAL, acts).tally.NobodyInside()
  {
    hide Step;
    var c := Run(INITIAL, acts);
    if c.tally.NobodyInside() {
      forall more
        ensures SettlesAfter(acts, more, t)
      {
        if Run(INITIAL, acts + more).life.At(t) == Returned(true) {
          QuietFinishSettlesTheSummary(acts, more, t);
        }
      }
    } else {
      var u :| u in c.tally.publishers && !c.tally.publishers[u].Outside?;
      var more := PublisherInsideCanUnsettle(acts, t, u);
      LifeHolds(acts);
      assert CallerOk(c.life, c.life.At(t), c.life.winner == Some(t));
      assert !SettlesAfter(acts, more, t);
    }
  }

  // ---- such a run ----

  /** Starting registers the run, subscribes its counter, and shows it as running. */
  lemma Started() returns (acts: seq<Action>, c: Cell)
    ensures Run(INITIAL, acts) == c
    ensures c.life == INITIAL.life.(starting := TaskKnown, active := true) && c.tally == Tally(true, 0, 0, map[])
    ensures c.summary == Some(Report(Running, 0, 0))
  {
    acts, c := [], INITIAL;
    acts, c := Extend(INITIAL, acts, c, StartStep);
    acts, c := Extend(INITIAL, acts, c, StartStep);
    acts, c := Extend(INITIAL, acts, c, StartStep);
    acts, c := Extend(INITIAL, acts, c, StartStep);
    acts, c := Extend(INITIAL, acts, c, StartStep);
  }

  /** Thread 1 has counted a packet and read the counters, but not yet written the summary, when the run is active. */
  lemma StartedAndCounted() returns (acts: seq<Action>, c: Cell)
    ensures Run(INITIAL, acts) == c
    ensures c.life == INITIAL.life.(starting := TaskKnown, active := true)
    ensures c.tally == Tally(true, 1, 0, c.tally.publishers) && c.tally.At(1) == GotBoth(1, 0)
  {
    acts, c := Started();
    acts, c := Extend(INITIAL, acts, c, TakeSubscribers(1, true));
    assert c.tally.At(1) == Called(true);
    acts, c := Extend(INITIAL, acts, c, CounterStep(1));
    assert c.tally.At(1) == CountedOne(true);
    acts, c := Extend(INITIAL, acts, c, CounterStep(1));
    assert c.tally.At(1) == CountedBoth;
    acts, c := Extend(INITIAL, acts, c, CounterStep(1));
    acts, c := Extend(INITIAL, acts, c, CounterStep(1));
  }

  lemma RemovedByWorker() returns (acts: seq<Action>, c: Cell)
    ensures Run(INITIAL, acts) == c
    ensures c.life.winner == Some(0) && c.life.At(0) == Closed(Finished)
    ensures c.tally.captured == 1 && c.tally.errors == 0 && c.tally.At(1) == GotBoth(1, 0)
  {
    acts, c := StartedAndCounted();
    acts, c := Extend(INITIAL, acts, c, WorkerEnds(0, Finished));
    assert c.life.At(0) == AtFinish(Finished);
    acts, c := Extend(INITIAL, acts, c, FinishStep(0));
    assert c.life.At(0) == Removed(Finished);
    acts, c := Extend(INITIAL, acts, c, FinishStep(0));
  }

  /**
   * A summary can go back to RUNNING after its run has finished: a publisher that took the subscriber list before
   * the unsubscribe writes what it read last.
   */
  lemma FinishedRunCanShowRunning() returns (acts: seq<Action>)
    ensures var c := Run(INITIAL, acts);
            && c.life.winner == Some(0) && c.life.At(0) == Returned(true)
            && c.life.finished == Some(Report(Finished, 1, 0))
            && c.summary == Some(Report(Running, 1, 0))
  {
    hide Step;
    var removed, c := RemovedByWorker();
    var more := PublisherInsideCanUnsettle(removed, 0, 1);
    acts := removed + more;
  }

  // ---- what each caller does, left alone ----

  /**
   * A caller of `finish` that comes to an active run records its state with the counters, and writes the summary; one
   * that comes to a run no longer active changes nothing.
   */
  lemma FinishAlone(c: Cell, t: Thread) returns (more: seq<Action>, d: Cell)
    requires c.life.At(t).AtFinish?
    ensures Run(c, more) == d
    ensures var report := c.tally.Counts(c.life.At(t).state);
            c.life.active ==>
              && d.life.At(t) == Returned(true) && d.life.winner == Some(t) && !d.life.active
              && d.life.finished == d.summary == Some(report) && d.tally == c.tally.(subscribed := false)
    ensures !c.life.active ==>
              d == c.(life := c.life.Move(t, Returned(false)), clock := c.clock + 1)
  {
    hide PollNext, CounterTally;
    assert Run(c, []) == c;
    more, d := Extend(c, [], c, FinishStep(t));
    if c.life.active {
      var state := c.life.At(t).state;
      assert d.life.At(t) == Removed(state) && d.tally == c.tally && !d.life.active && d.life.winner == Some(t);
      more, d := Extend(c, more, d, FinishStep(t));
      var closed := d;
      assert closed.life.At(t) == Closed(state) && closed.tally == c.tally.(subscribed := false);
      assert !closed.life.active && closed.life.winner == Some(t);
      hide Step;
      var stores, stored := WinnerStores(closed, t);
      var goesBack, returned := WinnerReturns(stored, t);
      RunConcat(closed, stores, goesBack);
      RunConcat(c, more, stores + goesBack);
      more, d := more + (stores + goesBack), returned;
    }
  }

  /** A stop call stops a run whose task is known, fails on one whose task is not, and refuses one no longer active. */
  lemma StopAlone(c: Cell, t: Thread) returns (more: seq<Action>, d: Cell)
    requires c.life.At(t).Away? && c.life.IsKnown()
    ensures Run(c, more) == d
    ensures c.life.active && c.life.starting == TaskKnown ==>
              && d.life.At(t) == Returned(true) && !d.life.active
              && d.life.finished == d.summary == Some(c.tally.Counts(Stopped))
    ensures c.life.active && c.life.starting != TaskKnown ==>
              d.life == c.life.Move(t, Threw) && d.tally == c.tally && d.summary == c.summary
    ensures !c.life.active ==>
              d.life == c.life.Move(t, Returned(false)) && d.tally == c.tally && d.summary == c.summary
  {
    hide PollNext, CounterTally, FinishLife;
    assert Run(c, []) == c;
    more, d := Extend(c, [], c, StopFindsRun(t));
    if c.life.active {
      assert d.life.At(t) == FoundRun && d.tally == c.tally && d.life.active;
      more, d := Extend(c, more, d, StopCancels(t));
      if c.life.starting == TaskKnown {
        assert d.life.At(t) == AtFinish(Stopped) && d.tally == c.tally && d.life.active;
        hide Step;
        var finishes, finished := FinishAlone(d, t);
        RunConcat(c, more, finishes);
        more, d := more + finishes, finished;
      } else {
        assert d.life.finishers == c.life.Move(t, Threw).finishers;
      }
    }
  }

  /** The worker of a submitted run records the state in which its plan ended. */
  lemma WorkerAlone(c: Cell, t: Thread, state: Outcome) returns (more: seq<Action>, d: Cell)
    requires c.life.At(t).Away? && c.life.active && state != Running
    requires c.life.starting == Submitted || c.life.starting == TaskKnown
    ensures Run(c, more) == d && d.life.At(t) == Returned(true) && !d.life.active
    ensures d.life.finished == d.summary == Some(c.tally.Counts(state))
  {
    hide PollNext, CounterTally, FinishLife;
    assert Run(c, []) == c;
    more, d := Extend(c, [], c, WorkerEnds(t, state));
    assert d.life.At(t) == AtFinish(state) && d.tally == c.tally && d.life.active;
    hide Step;
    var finishes, finished := FinishAlone(d, t);
    RunConcat(c, more, finishes);
    more, d := more + finishes, finished;
  }

  /** A poll answers with the recorded status; or else, of an active run, with its counters so far. */
  lemma PollAlone(c: Cell, t: Thread) returns (more: seq<Action>, d: Cell)
    requires c.PollOf(t).NotAsked?
    ensures Run(c, more) == d && d.life == c.life && d.tally == c.tally && d.summary == c.summary
    ensures d.PollOf(t).Answered?
    ensures d.PollOf(t).answer == if c.life.finished.Some? then c.life.finished
                                  else if c.life.active then Some(c.tally.Counts(Running)) else None
  {
    hide FinishLife, CounterTally;
    assert Run(c, []) == c;
    more, d := Extend(c, [], c, AskStatus(t));
    if c.life.finished.None? {
      assert d.PollOf(t).SawNothing?;
      more, d := Extend(c, more, d, PollStep(t));
      if c.life.active {
        assert d.PollOf(t).SawActive?;
        more, d := Extend(c, more, d, PollStep(t));
        assert d.PollOf(t).SawCaptured? && d.PollOf(t).captured == c.tally.captured;
        more, d := Extend(c, more, d, PollStep(t));
      }
    }
  }

  /** A publish of one packet counts it, counts a failed one as an error, and shows both in the summary. */
  lemma PublishAlone(c: Cell, u: Thread, success: bool) returns (more: seq<Action>, d: Cell)
    requires c.tally.subscribed && c.tally.At(u).Outside?
    ensures Run(c, more) == d && d.life == c.life && d.tally.At(u).Outside?
    ensures d.tally.captured == c.tally.captured + 1
    ensures d.tally.errors == c.tally.errors + (if success then 0 else 1)
    ensures d.summary == Some(d.tally.Counts(Running))
  {
    hide FinishLife, PollNext;
    assert Run(c, []) == c;
    more, d := Extend(c, [], c, TakeSubscribers(u, success));
    assert d.tally.At(u) == Called(success);
    more, d := Extend(c, more, d, CounterStep(u));
    assert d.tally.At(u) == CountedOne(success);
    more, d := Extend(c, more, d, CounterStep(u));
    assert d.tally.At(u) == CountedBoth;
    var counts := d.tally.Counts(Running);
    more, d := Extend(c, more, d, CounterStep(u));
    assert d.tally.At(u) == GotCaptured(counts.captured) && d.tally.Counts(Running) == counts;
    more, d := Extend(c, more, d, CounterStep(u));
    assert d.tally.At(u) == GotBoth(counts.captured, counts.errors) && d.tally.Counts(Running) == counts;
    more, d := Extend(c, more, d, CounterStep(u));
  }

  // ---- many runs ----

  type Service = map<Uuid, Cell>

  function CellOf(s: Service, run: Uuid): Cell {
    if run in s then s[run] else INITIAL
  }

  /** A step of the service is a step of one run; every map and counter it touches is kept per run id. */
  function RunService(acts: seq<(Uuid, Action)>): Service {
    if acts == [] then map[]
    else
      var s, (run, a) := RunService(acts[..|acts| - 1]), acts[|acts| - 1];
      s[run := Step(CellOf(s, run), a)]
  }

  function ActionsOf(acts: seq<(Uuid, Action)>, run: Uuid): seq<Action> {
    if acts == [] then []
    else
      var before := ActionsOf(acts[..|acts| - 1], run);
      if acts[|acts| - 1].0 == run then before + [acts[|acts| - 1].1] else before
  }

  /** In a service with any number of runs, each run goes through exactly the steps made on it. */
  lemma {:induction false} RunsAreIndependent(acts: seq<(Uuid, Action)>, run: Uuid)
    ensures CellOf(RunService(acts), run) == Run(INITIAL, ActionsOf(acts, run))
  {
    if acts != [] {
      RunsAreIndependent(acts[..|acts| - 1], run);
      var before := ActionsOf(acts[..|acts| - 1], run);
      if acts[|acts| - 1].0 == run {
        assert (before + [acts[|acts| - 1].1])[..|before|] == before;
      }
    }
  }
}
