/**
 What a component tells the system manager about itself: its last seen state, marked as stalled
 when it has not been seen alive for too long, and sent in reply to each ping.
 */
module Liveness {
  import opened Prelude
  import opened Statistics

  const TIMEOUT_PERIOD := 3000

  datatype State = Unknown | Starting | Ready | Stopped | Failed | Stalled

  datatype Meta = Meta(systemReady: bool, timeDelta: int, lastSeenAlive: int, lastSeenState: State)

  function TimeAt(m: Meta, clock: int): int {
    clock + m.timeDelta
  }

  /** The loop reports itself alive; the time is kept only once a system time is known. */
  function AliveStep(m: Meta, clock: int): Meta {
    m.(lastSeenAlive := if m.timeDelta != 0 then TimeAt(m, clock) else m.lastSeenAlive, lastSeenState := Ready)
  }

  /** Seen alive too long ago, or in the future: the ping handler's check. */
  predicate Overdue(m: Meta, clock: int) {
    m.lastSeenState == Ready && m.systemReady &&
    (m.lastSeenAlive > TimeAt(m, clock) || TimeAt(m, clock) - m.lastSeenAlive > TIMEOUT_PERIOD)
  }

  function PingStep(m: Meta, clock: int): Meta {
    if Overdue(m, clock) then m.(lastSeenState := Stalled) else m
  }

  // ---------- The threads, interleaved ----------

  /** The component's thread: starting up, in its loop, or past it. */
  datatype Phase = StartingUp | Looping | Over

  /** The message handler: idle, or answering a ping, with the outcome of its check. */
  datatype Handler = Idle | Checked(overdue: bool) | Marked

  datatype World = World(meta: Meta, phase: Phase, handler: Handler, replies: seq<State>)

  datatype Event =
    // the component's thread; a failure report can break off before it records the state, and a
    // ready report after it has
    | Started | ReadyNotSent | StartupFailed(recorded: bool) | Turn(clock: int) | WorkFailed(recorded: bool) | Exit
    // the message handler's thread, one message at a time
    | SystemReady(ready: bool) | SystemTime(systemTime: int, clock: int)
    | PingCheck(clock: int) | PingMark | PingReply | ReplyNotSent

  predicate Enabled(w: World, e: Event) {
    match e
    case Started => w.phase.StartingUp?
    case ReadyNotSent => w.phase.StartingUp?
    case StartupFailed(_) => w.phase.StartingUp?
    case Turn(_) => w.phase.Looping?
    case WorkFailed(_) => w.phase.Looping?
    case Exit => w.phase.Looping?
    case SystemReady(_) => w.handler.Idle?
    case SystemTime(_, _) => w.handler.Idle?
    case PingCheck(_) => w.handler.Idle?
    case PingMark => w.handler.Checked?
    case PingReply => w.handler.Marked?
    case ReplyNotSent => w.handler.Marked?
  }

  function Report(w: World, s: State, recorded: bool): World {
    if recorded then w.(meta := w.meta.(lastSeenState := s)) else w
  }

  function Apply(w: World, e: Event): World
    requires Enabled(w, e)
  {
    match e
    case Started => Report(w, Ready, true).(phase := Looping)
    case ReadyNotSent => Report(w, Ready, true)
    case StartupFailed(recorded) => Report(w, Failed, recorded).(phase := Over)
    case Turn(clock) => w.(meta := AliveStep(w.meta, clock))
    case WorkFailed(recorded) => Report(w, Failed, recorded).(phase := Over)
    case Exit => w.(phase := Over)
    case SystemReady(ready) => w.(meta := w.meta.(systemReady := ready))
    case SystemTime(t, clock) => w.(meta := w.meta.(timeDelta := t - clock))
    case PingCheck(clock) => w.(handler := Checked(Overdue(w.meta, clock)))
    case PingMark =>
      w.(meta := if w.handler.overdue then w.meta.(lastSeenState := Stalled) else w.meta, handler := Marked)
    case PingReply => w.(replies := w.replies + [w.meta.lastSeenState], handler := Idle)
    case ReplyNotSent => w.(handler := Idle)
  }

  ghost predicate IsRun(w: World, es: seq<Event>)
    decreases |es|
  {
    es == [] || (Enabled(w, es[0]) && IsRun(Apply(w, es[0]), es[1..]))
  }

  ghost function After(w: World, es: seq<Event>): World
    requires IsRun(w, es)
    decreases |es|
  {
    if es == [] then w else After(Apply(w, es[0]), es[1..])
  }

  const INITIAL := World(Meta(false, 0, 0, Starting), StartingUp, Idle, [])

  /** A failure has been recorded, which the component's thread does only as it ends. */
  predicate FailureRecorded(w: World) {
    w.meta.lastSeenState == Failed && w.phase.Over?
  }

  /** Every reply that any continuation adds says that the component has failed. */
  ghost predicate AlwaysAnswersFailure(w: World) {
    forall es :: IsRun(w, es) ==> AddsFailuresOnly(w, es)
  }

  ghost predicate AddsFailuresOnly(w: World, es: seq<Event>)
    requires IsRun(w, es)
  {
    var replies := After(w, es).replies;
    w.replies <= replies && forall i :: |w.replies| <= i < |replies| ==> replies[i] == Failed
  }

  lemma {:induction false} FailureStays(w: World, es: seq<Event>)
    requires FailureRecorded(w) && w.handler != Checked(true) && IsRun(w, es)
    ensures AddsFailuresOnly(w, es) && FailureRecorded(After(w, es))
    decreases |es|
  {
    if es != [] {
      FailureStays(Apply(w, es[0]), es[1..]);
    }
  }

  /**
   A recorded failure is absorbing exactly when, as it is recorded, no ping is between its check
   and its marking with the component found overdue.
   */
  lemma FailureAbsorbs(w: World)
    requires FailureRecorded(w)
    ensures AlwaysAnswersFailure(w) <==> w.handler != Checked(true)
  {
    if w.handler == Checked(true) {
      var marked := Apply(w, PingMark);
      var answered := Apply(marked, PingReply);
      var es := [PingMark, PingReply];
      assert es[1..] == [PingReply] && es[1..][1..] == [];
      assert IsRun(answered, []) && IsRun(marked, es[1..]) && IsRun(w, es);
      assert After(w, es) == answered;
      assert answered.replies[|w.replies|] == Stalled;
      assert !AddsFailuresOnly(w, es);
    } else {
      forall es | IsRun(w, es) ensures AddsFailuresOnly(w, es) {
        FailureStays(w, es);
      }
    }
  }

  /** The three steps of answering a ping, with none in between, are the handler's one step. */
  lemma PingInOneStep(w: World, clock: int)
    requires w.handler.Idle?
    ensures var es := [PingCheck(clock), PingMark, PingReply];
            && IsRun(w, es)
            && After(w, es) == w.(meta := PingStep(w.meta, clock),
                                  replies := w.replies + [PingStep(w.meta, clock).lastSeenState])
  {
    var es := [PingCheck(clock), PingMark, PingReply];
    var w1 := Apply(w, es[0]);
    var w2 := Apply(w1, es[1]);
    var w3 := Apply(w2, es[2]);
    assert es[1..][0] == es[1] && es[1..][1..][0] == es[2] && es[1..][1..][1..] == [];
    assert IsRun(w3, []) && IsRun(w2, es[1..][1..]) && IsRun(w1, es[1..]);
    assert After(w2, es[1..][1..]) == w3;
    assert After(w1, es[1..]) == w3;
  }

  // ---------- Times ----------

  /** The component has been seen alive within three seconds, and not later than now. */
  predicate InTime(aliveAt: int, pingedAt: int) {
    aliveAt <= pingedAt <= aliveAt + 3000
  }

  /**
   What a ping at clock `pinged` answers after the component last reported itself alive at clock
   `alive`: for every state with a known system time, stalled exactly when the system is ready and
   the report is more than three seconds old or lies in the future.  The offset cancels out.
   */
  lemma PingAfterAlive(m: Meta, alive: int, pinged: int)
    requires m.timeDelta != 0
    ensures var after := PingStep(AliveStep(m, alive), pinged);
            && (after.lastSeenState == Stalled <==> m.systemReady && !InTime(alive, pinged))
            && (after.lastSeenState == Ready <==> !m.systemReady || InTime(alive, pinged))
            && after.lastSeenAlive == alive + m.timeDelta
            && after.systemReady == m.systemReady && after.timeDelta == m.timeDelta
  {
    var seen := AliveStep(m, alive);
    assert TimeAt(seen, pinged) - seen.lastSeenAlive == pinged - alive;
  }

  /** Without a system time the report changes the state only, and the ping compares with the time kept so far. */
  lemma PingWithoutTime(m: Meta, alive: int, pinged: int)
    requires m.timeDelta == 0
    ensures var after := PingStep(AliveStep(m, alive), pinged);
            && (after.lastSeenState == Stalled <==> m.systemReady && !InTime(m.lastSeenAlive, pinged))
            && (after.lastSeenState == Ready <==> !m.systemReady || InTime(m.lastSeenAlive, pinged))
            && after.lastSeenAlive == m.lastSeenAlive
  {
    var seen := AliveStep(m, alive);
    assert TimeAt(seen, pinged) == pinged;
  }

  /** A ping changes nothing but a ready state, and that to stalled only. */
  lemma PingLeaves(m: Meta, clock: int)
    ensures var after := PingStep(m, clock);
            && after.(lastSeenState := m.lastSeenState) == m
            && (after.lastSeenState == m.lastSeenState || (m.lastSeenState == Ready && after.lastSeenState == Stalled))
  {
  }

  /**
   The same over the threads' steps.  Once the component has been told whether the system is ready,
   and at clock `told` that the system time is `t`, another one, and turns at clock `alive`, a ping at
   clock `pinged` is answered with ready exactly when the system is not ready or the turn is in time.
   */
  lemma TimelyReply(w: World, ready: bool, t: int, told: int, alive: int, pinged: int)
    requires w.phase.Looping? && w.handler.Idle? && t != told
    ensures var es := [SystemReady(ready), SystemTime(t, told), Turn(alive), PingCheck(pinged), PingMark, PingReply];
            && IsRun(w, es)
            && var after := After(w, es);
               && after.meta.lastSeenAlive == t + (alive - told) && after.meta.systemReady == ready
               && |after.replies| == |w.replies| + 1
               && after.replies[|w.replies|] == if !ready || InTime(alive, pinged) then Ready else Stalled
  {
    var es := [SystemReady(ready), SystemTime(t, told), Turn(alive), PingCheck(pinged), PingMark, PingReply];
    var w1 := Apply(w, es[0]);
    var w2 := Apply(w1, es[1]);
    var w3 := Apply(w2, es[2]);
    PingInOneStep(w3, pinged);
    assert es[1..][0] == es[1] && es[1..][1..][0] == es[2];
    assert es[1..][1..][1..] == [PingCheck(pinged), PingMark, PingReply];
    assert IsRun(w2, es[1..][1..]) && After(w2, es[1..][1..]) == After(w3, es[1..][1..][1..]);
    assert IsRun(w1, es[1..]) && After(w1, es[1..]) == After(w2, es[1..][1..]);
    PingAfterAlive(w2.meta, alive, pinged);
  }

  /** A failure that is recorded while no ping is being answered is answered from then on. */
  lemma FailureIsAnswered(w: World, e: Event)
    requires Enabled(w, e) && (e == StartupFailed(true) || e == WorkFailed(true)) && w.handler != Checked(true)
    ensures FailureRecorded(Apply(w, e)) && AlwaysAnswersFailure(Apply(w, e))
  {
    FailureAbsorbs(Apply(w, e));
  }

  /** The state that hides a failure is reachable: a ping checks, and the component then fails. */
  lemma FailureCanBeHidden() returns (es: seq<Event>)
    ensures IsRun(INITIAL, es)
    ensures FailureRecorded(After(INITIAL, es)) && After(INITIAL, es).handler == Checked(true)
  {
    es := [Started, SystemReady(true), PingCheck(5000), WorkFailed(true)];
    var w1 := Apply(INITIAL, es[0]);
    var w2 := Apply(w1, es[1]);
    var w3 := Apply(w2, es[2]);
    assert es[1..][0] == es[1] && es[1..][1..][0] == es[2] && es[1..][1..][1..][0] == es[3];
    assert es[1..][1..][1..][1..] == [];
    assert IsRun(w3, es[1..][1..][1..]);
    assert IsRun(w2, es[1..][1..]);
    assert IsRun(w1, es[1..]);
  }

  /** A failure is recorded only as the thread ends: while it loops, it is never the last seen state. */
  lemma {:induction false} FailureOnlyWhenOver(w: World, es: seq<Event>)
    requires IsRun(w, es) && (w.meta.lastSeenState == Failed ==> w.phase.Over?)
    ensures After(w, es).meta.lastSeenState == Failed ==> FailureRecorded(After(w, es))
    decreases |es|
  {
    if es != [] {
      FailureOnlyWhenOver(Apply(w, es[0]), es[1..]);
    }
  }

  /** A failure is the last seen state only if a failing startup or turn recorded it. */
  lemma {:induction false} FailureHasReason(w: World, es: seq<Event>)
    requires IsRun(w, es)
    ensures After(w, es).meta.lastSeenState == Failed ==>
              w.meta.lastSeenState == Failed || StartupFailed(true) in es || WorkFailed(true) in es
    decreases |es|
  {
    if es != [] {
      FailureHasReason(Apply(w, es[0]), es[1..]);
    }
  }

  predicate OfThread(e: Event) {
    e.Started? || e.ReadyNotSent? || e.StartupFailed? || e.Turn? || e.WorkFailed? || e.Exit?
  }

  /** Once the component's thread is past its loop it takes no step, and only pings change the state seen last. */
  lemma {:induction false} OverStays(w: World, es: seq<Event>)
    requires w.phase.Over? && IsRun(w, es)
    ensures After(w, es).phase.Over? && forall i :: 0 <= i < |es| ==> !OfThread(es[i])
    ensures After(w, es).meta.lastSeenState in {w.meta.lastSeenState, Stalled}
    ensures After(w, es).meta.lastSeenAlive == w.meta.lastSeenAlive
    decreases |es|
  {
    if es != [] {
      OverStays(Apply(w, es[0]), es[1..]);
      assert forall i :: 1 <= i < |es| ==> es[i] == es[1..][i - 1];
    }
  }

  /** Leaving the loop on request reports nothing, and is for good. */
  lemma ExitIsSilent(w: World, es: seq<Event>)
    requires Enabled(w, Exit) && IsRun(Apply(w, Exit), es)
    ensures Apply(w, Exit).meta == w.meta && Apply(w, Exit).replies == w.replies
    ensures After(Apply(w, Exit), es).phase.Over?
  {
    OverStays(Apply(w, Exit), es);
  }

  /**
   A startup that fails after its ready state is recorded, and cannot report its failure, is answered
   for as ready, or as stalled when it is overdue.
   */
  lemma FailedStartupSeenReady(w: World, clock: int)
    requires w.phase.StartingUp? && w.handler.Idle?
    ensures var es := [ReadyNotSent, StartupFailed(false), PingCheck(clock), PingMark, PingReply];
            && IsRun(w, es)
            && |After(w, es).replies| == |w.replies| + 1
            && After(w, es).replies[|w.replies|]
            == if w.meta.systemReady && !InTime(w.meta.lastSeenAlive, clock + w.meta.timeDelta) then Stalled else Ready
  {
    var es := [ReadyNotSent, StartupFailed(false), PingCheck(clock), PingMark, PingReply];
    var w1 := Apply(w, es[0]);
    var w2 := Apply(w1, es[1]);
    PingInOneStep(w2, clock);
    assert es[1..][0] == es[1] && es[1..][1..] == [PingCheck(clock), PingMark, PingReply];
    assert IsRun(w1, es[1..]) && After(w1, es[1..]) == After(w2, es[1..][1..]);
  }

  /** A reply that cannot be sent leaves the marking, adds no reply, and the next message can be handled. */
  lemma LostReply(w: World)
    requires Enabled(w, ReplyNotSent)
    ensures var after := Apply(w, ReplyNotSent);
            && after.meta == w.meta && after.replies == w.replies && after.phase == w.phase
            && forall clock :: Enabled(after, PingCheck(clock))
  {
  }

  // ---------- The messenger ----------

  /** The properties of a system manager's message that the messenger looks at. */
  datatype SystemMessage = SystemMessage(ready: Option<bool>, readyTime: Option<int>, ping: bool)

  datatype Reply = Reply(
    component: string, state: State, lastSeenAlive: int, averageActTime: Option<int>, averageReactTime: Option<int>,
    averageTransmitTime: Option<int>, totalMessagesReceived: nat)

  /** What a component reports about its state. */
  datatype StateReport = StateReport(component: string, state: State, details: Option<string>)

  /** Where the message broker fails in a report. */
  datatype Trouble = NoTrouble | Making | Sending

  function Reported(average: int): Option<int> {
    if average == -1 then None else Some(average)
  }

  /** A reply carries an average exactly when it is not -1. */
  predicate Tells(carried: Option<int>, average: int) {
    (carried == None <==> average == -1) && (carried.Some? ==> carried.value == average)
  }

  class MetaMessenger {
    const componentName: string
    var systemReady: bool
    var timeDelta: int
    var lastSeenAlive: int
    var lastSeenState: State
    const statistics: StatisticsKeeper

    ghost function Abs(): Meta
      reads this
    {
      Meta(systemReady, timeDelta, lastSeenAlive, lastSeenState)
    }

    constructor (componentName: string)
      ensures this.componentName == componentName && Abs() == Meta(false, 0, 0, Unknown)
      ensures fresh(statistics) && statistics.Abs() == Fresh(30)
    {
      this.componentName := componentName;
      systemReady, timeDelta, lastSeenAlive, lastSeenState := false, 0, 0, Unknown;
      statistics := new StatisticsKeeper(30);
    }

    method IamAlive(clock: int)
      modifies this
      ensures Abs() == AliveStep(old(Abs()), clock)
      ensures lastSeenState == Ready && systemReady == old(systemReady) && timeDelta == old(timeDelta)
      ensures lastSeenAlive == if timeDelta != 0 then clock + timeDelta else old(lastSeenAlive)
    {
      if timeDelta != 0 {
        lastSeenAlive := clock + timeDelta;
      }
      lastSeenState := Ready;
    }

    /**
     Records a state and sends it, with details if there are any.  Making the message can fail, and
     then nothing is recorded; sending can fail, and then the state is recorded all the same.
     */
    method ReportState(state: State, details: string, trouble: Trouble) returns (sent: Option<StateReport>)
      modifies this
      ensures Abs() == if trouble.Making? then old(Abs()) else old(Abs()).(lastSeenState := state)
      ensures sent.Some? <==> trouble.NoTrouble?
      ensures sent.Some? ==>
                && sent.value.component == componentName && sent.value.state == state
                && sent.value.details == if details != "" then Some(details) else None
    {
      if trouble.Making? {
        return None;
      }
      lastSeenState := state;
      var report := StateReport(componentName, state, None);
      if |details| > 0 {
        report := report.(details := Some(details));
      }
      if trouble.Sending? {
        return None;
      }
      return Some(report);
    }

    /**
     Handles a system manager's message, reading the clock when it sets the time and when it is
     pinged.  Making the reply can fail, and then nothing is checked; sending can fail after that.
     */
    method OnMessage(m: SystemMessage, clockAtTime: int, clockAtPing: int, trouble: Trouble)
        returns (reply: Option<Reply>)
      modifies this
      ensures var told := old(Abs()).(
                systemReady := if m.ready.Some? then m.ready.value else old(systemReady),
                timeDelta := if m.readyTime.Some? then m.readyTime.value - clockAtTime else old(timeDelta));
              && Abs() == (if m.ping && !trouble.Making? then PingStep(told, clockAtPing) else told)
              && (reply.Some? <==> m.ping && trouble.NoTrouble?)
      ensures lastSeenAlive == old(lastSeenAlive)
      ensures lastSeenState ==
                if m.ping && !trouble.Making? && old(lastSeenState) == Ready && systemReady
                   && !InTime(lastSeenAlive, clockAtPing + timeDelta)
                then Stalled else old(lastSeenState)
      ensures reply.Some? ==> Tells(reply.value.averageActTime, Average(statistics.actTimes))
      ensures reply.Some? ==> Tells(reply.value.averageReactTime, Average(statistics.reactTimes))
      ensures reply.Some? ==> Tells(reply.value.averageTransmitTime, Average(statistics.transmitTimes))
      ensures reply.Some? ==>
                && reply.value.component == componentName && reply.value.state == lastSeenState
                && reply.value.lastSeenAlive == lastSeenAlive
                && reply.value.totalMessagesReceived == statistics.messagesReceived
    {
      if m.ready.Some? {
        systemReady := m.ready.value;
      }
      if m.readyTime.Some? {
        timeDelta := m.readyTime.value - clockAtTime;
      }
      if !m.ping || trouble.Making? {
        return None;
      }
      if lastSeenState == Ready && systemReady {
        var time := clockAtPing + timeDelta;
        if lastSeenAlive > time || time - lastSeenAlive > TIMEOUT_PERIOD {
          lastSeenState := Stalled;
        }
      }
      var act := StatisticsKeeper.AverageOf(statistics.actTimes);
      var react := StatisticsKeeper.AverageOf(statistics.reactTimes);
      var transmit := StatisticsKeeper.AverageOf(statistics.transmitTimes);
      if trouble.Sending? {
        return None;
      }
      return Some(Reply(componentName, lastSeenState, lastSeenAlive, Reported(act), Reported(react),
                        Reported(transmit), statistics.messagesReceived));
    }
  }
}
