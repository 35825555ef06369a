/** How the component's loop ends: only when exit is requested, and then within the turn it is in. */
module Exiting {
  import opened HandOver

  /** The steps of the component's thread in its run method. */
  predicate Own<M>(e: Event<M>) {
    || e.StartupDone? || e.StartupFailed? || e.NextTurn? || e.SystemReady? || e.SystemNotReady? || e.ActDone?
    || e.ActFailed? || e.Poll? || e.Wake? || e.PickUp? || e.ReactDone? || e.ReactFailed?
  }

  function OwnSteps<M>(es: seq<Event<M>>): nat {
    if es == [] then 0 else (if Own(es[0]) then 1 else 0) + OwnSteps(es[1..])
  }

  /** The most steps that the thread takes before it ends, once exit is requested. */
  function StepsToEnd<M>(loop: Loop<M>): nat {
    match loop
    case Starting => 2
    case Top => 1
    case Gate => 7
    case Acting => 6
    case Polling => 5
    case Blocked => 4
    case Holding(_) => 3
    case Reacting(_) => 2
    case Ended => 0
    case AssertionFailed => 0
  }

  /** A requested exit stays requested, and each own step brings the end nearer. */
  lemma {:induction false} ExitIsSoon<M>(s: System<M>, es: seq<Event<M>>)
    requires s.exitRequested && IsRun(s, es)
    ensures After(s, es).exitRequested
    ensures OwnSteps(es) + StepsToEnd(After(s, es).loop) <= StepsToEnd(s.loop)
    decreases |es|
  {
    if es != [] {
      assert Apply(s, es[0]).exitRequested;
      ExitIsSoon(Apply(s, es[0]), es[1..]);
    }
  }

  /** The thread never gets stuck: until it has ended, one of its own steps is possible. */
  lemma NeverStuck<M(!new)>(s: System<M>) returns (e: Event<M>)
    requires Inv(s) && !s.loop.Ended?
    ensures Own(e) && Enabled(s, e)
  {
    match s.loop
    case Starting => e := StartupDone;
    case Top => e := NextTurn;
    case Gate => e := SystemReady;
    case Acting => e := ActDone;
    case Polling => e := Poll;
    case Blocked => e := Wake;
    case Holding(_) => e := PickUp;
    case Reacting(_) => e := ReactDone;
  }

  predicate Fails<M>(e: Event<M>) {
    e.StartupFailed? || e.ActFailed? || e.ReactFailed?
  }

  /**
   After a failure, in every continuation, exit stays requested and the thread takes no further step;
   but after a failed startup one, to see that exit is requested, which ends it.
   */
  lemma FailureEnds<M>(s: System<M>, e: Event<M>, es: seq<Event<M>>)
    requires Enabled(s, e) && Fails(e) && IsRun(Apply(s, e), es)
    ensures var end := After(Apply(s, e), es);
            && end.exitRequested
            && OwnSteps(es) <= (if e.StartupFailed? then 1 else 0)
            && (end.loop.Ended? || (e.StartupFailed? && OwnSteps(es) == 0 && end.loop.Top?))
            && (forall i :: 0 <= i < |es| && Own(es[i]) ==> es[i].NextTurn?)
  {
    ExitIsSoon(Apply(s, e), es);
    if e.StartupFailed? {
      TopOnlyTurns(Apply(s, e), es);
    } else {
      EndedOnly(Apply(s, e), es);
    }
  }

  lemma {:induction false} EndedOnly<M>(s: System<M>, es: seq<Event<M>>)
    requires s.loop.Ended? && IsRun(s, es)
    ensures After(s, es).loop.Ended? && forall i :: 0 <= i < |es| ==> !Own(es[i])
    decreases |es|
  {
    if es != [] {
      EndedOnly(Apply(s, es[0]), es[1..]);
      assert forall i :: 1 <= i < |es| ==> es[i] == es[1..][i - 1];
    }
  }

  lemma {:induction false} TopOnlyTurns<M>(s: System<M>, es: seq<Event<M>>)
    requires s.loop.Top? && s.exitRequested && IsRun(s, es)
    ensures After(s, es).loop.Ended? || (After(s, es).loop.Top? && OwnSteps(es) == 0)
    ensures forall i :: 0 <= i < |es| && Own(es[i]) ==> es[i].NextTurn?
    decreases |es|
  {
    if es != [] {
      var next := Apply(s, es[0]);
      if next.loop.Ended? {
        EndedOnly(next, es[1..]);
      } else {
        TopOnlyTurns(next, es[1..]);
      }
      assert forall i :: 1 <= i < |es| ==> es[i] == es[1..][i - 1];
    }
  }

  /** While exit is not requested the thread goes on: it waits for the system, and turns after each turn. */
  lemma GoesOn<M>(s: System<M>)
    requires !s.exitRequested
    ensures Enabled(s, SystemNotReady) ==> Apply(s, SystemNotReady) == s
    ensures Enabled(s, NextTurn) ==> Apply(s, NextTurn) == s.(loop := Gate)
    ensures Enabled(s, ReactDone) ==> Apply(s, ReactDone) == s.(loop := Top)
  {
  }

  /** A wait for the system's readiness ends when exit is requested. */
  lemma ExitEndsWaiting<M>(s: System<M>)
    requires Enabled(s, SystemNotReady) && s.exitRequested
    ensures Apply(s, SystemNotReady).loop.Ended?
  {
  }

  /** Exit is requested in a run exactly when something in it requests it, or did before. */
  lemma {:induction false} ExitHasReason<M>(s: System<M>, es: seq<Event<M>>)
    requires IsRun(s, es)
    ensures After(s, es).exitRequested <==>
              s.exitRequested || exists i :: 0 <= i < |es| && (es[i].RequestExit? || Fails(es[i]))
    decreases |es|
  {
    if es != [] {
      ExitHasReason(Apply(s, es[0]), es[1..]);
      assert forall i :: 1 <= i < |es| ==> es[i] == es[1..][i - 1];
      if i :| 0 <= i < |es| && (es[i].RequestExit? || Fails(es[i])) {
        assert i > 0 ==> es[1..][i - 1].RequestExit? || Fails(es[1..][i - 1]);
      }
    }
  }

  /** The thread ends only when exit is requested. */
  lemma {:induction false} EndsOnRequest<M>(s: System<M>, es: seq<Event<M>>)
    requires IsRun(s, es) && (s.loop.Ended? ==> s.exitRequested)
    ensures After(s, es).loop.Ended? ==> After(s, es).exitRequested
    decreases |es|
  {
    if es != [] {
      EndsOnRequest(Apply(s, es[0]), es[1..]);
    }
  }
}
