/** How long an announced receiver can wait: the number of pick-ups, and of component steps. */
module Overtaking {
  import opened Prelude
  import opened HandOver

  /** The position of a receiver in the queue. */
  function IndexOf(q: seq<ReceiverId>, r: ReceiverId): (i: nat)
    requires r in q
    ensures i < |q| && q[i] == r
  {
    if q[0] == r then 0 else 1 + IndexOf(q[1..], r)
  }

  lemma {:induction false} IndexGrows(q: seq<ReceiverId>, r: ReceiverId, x: ReceiverId)
    requires r in q
    ensures IndexOf(q + [x], r) == IndexOf(q, r)
  {
    if q[0] != r {
      assert (q + [x])[1..] == q[1..] + [x];
      IndexGrows(q[1..], r, x);
    }
  }

  /** How many pick-ups come before that of a receiver which is queued or in hand. */
  function Ahead<M>(s: System<M>, r: ReceiverId): nat
    requires r in s.queue || InHand(s, r)
  {
    if InHand(s, r) then 0 else IndexOf(s.queue, r) + if s.loop.Holding? then 1 else 0
  }

  /** How many steps of the component's thread lie between here and its next pick-up. */
  function StepsToPickUp<M>(loop: Loop<M>): nat {
    match loop
    case Holding(_) => 1
    case Polling => 2
    case Blocked => 2
    case Acting => 3
    case Gate => 4
    case Top => 5
    case Reacting(_) => 6
    case Starting => 6
    case Ended => 0
    case AssertionFailed => 0
  }

  /** The component's own steps, but for its waiting while the whole system is not ready. */
  predicate Turns<M>(e: Event<M>) {
    e.StartupDone? || e.StartupFailed? || e.NextTurn? || e.SystemReady? || e.ActDone? || e.Poll? || e.Wake? ||
    e.PickUp? || e.ReactDone?
  }

  function StepsLeft<M>(s: System<M>, r: ReceiverId): nat
    requires r in s.queue || InHand(s, r)
  {
    6 * Ahead(s, r) + StepsToPickUp(s.loop)
  }

  predicate PicksUp<M>(s: System<M>, e: Event<M>, r: ReceiverId) {
    e.PickUp? && InHand(s, r)
  }

  function One(b: bool): nat { if b then 1 else 0 }

  ghost predicate Nearer<M>(s: System<M>, s': System<M>, r: ReceiverId, pickUp: bool, turn: bool)
    requires r in s.queue || InHand(s, r)
  {
    && (r in s'.queue || InHand(s', r))
    && Ahead(s', r) == Ahead(s, r) - One(pickUp)
    && (!s'.loop.Ended? ==> StepsLeft(s', r) == StepsLeft(s, r) - One(turn))
  }

  lemma TakeBringsNearer<M(!new)>(s: System<M>, otherwise: Loop<M>, r: ReceiverId)
    requires Inv(s) && r in s.queue && (s.loop.Polling? || s.loop.Blocked?)
    ensures Nearer(s, TakeFront(s, otherwise), r, false, true)
  {
  }

  lemma OtherPickUpBringsNearer<M(!new)>(s: System<M>, r: ReceiverId)
    requires Inv(s) && s.loop.Holding? && s.loop.receiver != r && r in s.queue
    ensures Enabled(s, PickUp) && Nearer(s, Apply(s, PickUp), r, true, true)
  {
    hide Inv;
    PickUpKeepsInv(s);
  }

  lemma AnnounceKeepsPlace<M(!new)>(s: System<M>, x: ReceiverId, r: ReceiverId)
    requires r in s.queue || InHand(s, r)
    requires Enabled(s, Announce(x))
    ensures Nearer(s, Apply(s, Announce(x)), r, false, false)
  {
    if r in s.queue {
      IndexGrows(s.queue, r, x);
    }
  }

  /** Each step that is not the receiver's own pick-up brings that pick-up exactly as much nearer. */
  lemma StepBringsNearer<M(!new)>(s: System<M>, e: Event<M>, r: ReceiverId)
    requires Inv(s) && Enabled(s, e) && (r in s.queue || InHand(s, r)) && !PicksUp(s, e, r)
    ensures Nearer(s, Apply(s, e), r, e.PickUp?, Turns(e))
  {
    hide Inv;
    match e
    case Announce(x) => AnnounceKeepsPlace(s, x, r);
    case Poll => TakeBringsNearer(s, Blocked, r);
    case Wake => TakeBringsNearer(s, Top, r);
    case PickUp => OtherPickUpBringsNearer(s, r);
    case _ =>
  }

  ghost predicate NeverPickedUp<M>(s: System<M>, es: seq<Event<M>>, r: ReceiverId)
    requires IsRun(s, es)
    decreases |es|
  {
    es == [] || (!PicksUp(s, es[0], r) && NeverPickedUp(Apply(s, es[0]), es[1..], r))
  }

  function PickUps<M>(es: seq<Event<M>>): nat {
    if es == [] then 0 else One(es[0].PickUp?) + PickUps(es[1..])
  }

  function TurnsIn<M>(es: seq<Event<M>>): nat {
    if es == [] then 0 else One(Turns(es[0])) + TurnsIn(es[1..])
  }

  lemma {:induction false} RunBringsNearer<M(!new)>(s: System<M>, es: seq<Event<M>>, r: ReceiverId)
    requires Inv(s) && IsRun(s, es) && (r in s.queue || InHand(s, r)) && NeverPickedUp(s, es, r)
    ensures var end := After(s, es);
            && (r in end.queue || InHand(end, r))
            && Ahead(end, r) == Ahead(s, r) - PickUps(es)
            && (!end.loop.Ended? ==> StepsLeft(end, r) == StepsLeft(s, r) - TurnsIn(es))
    decreases |es|
  {
    hide Inv, Ahead, StepsLeft, Turns, Apply, Enabled;
    if es != [] {
      StepKeepsInv(s, es[0]);
      StepBringsNearer(s, es[0], r);
      RunBringsNearer(Apply(s, es[0]), es[1..], r);
      if Apply(s, es[0]).loop.Ended? {
        EndedStays(Apply(s, es[0]), es[1..]);
      }
    }
  }

  lemma {:induction false} EndedStays<M>(s: System<M>, es: seq<Event<M>>)
    requires IsRun(s, es) && s.loop.Ended?
    ensures After(s, es).loop.Ended?
    decreases |es|
  {
    if es != [] {
      EndedStays(Apply(s, es[0]), es[1..]);
    }
  }

  /** Once the loop has ended, a message that is not picked up by then never will be. */
  lemma {:induction false} EndStrands<M(!new)>(s: System<M>, es: seq<Event<M>>, r: ReceiverId)
    requires Inv(s) && IsRun(s, es) && s.loop.Ended? && r in s.receivers && s.receivers[r].slot.Some?
    ensures var end := After(s, es);
            r in end.receivers && end.receivers[r].slot == s.receivers[r].slot &&
            end.receivers[r].delivered == s.receivers[r].delivered
    decreases |es|
  {
    if es != [] {
      var s' := Apply(s, es[0]);
      assert Sound(s, r);
      StepKeepsInv(s, es[0]);
      assert s'.receivers[r].slot == s.receivers[r].slot && s'.receivers[r].delivered == s.receivers[r].delivered;
      EndStrands(s', es[1..], r);
    }
  }

  /** Messages can be stranded: any receiver's first message is, when exit is requested before the loop turns. */
  lemma MessageCanBeStranded<M(!new)>(s: System<M>, r: ReceiverId, m: M) returns (es: seq<Event<M>>)
    requires Initial(s) && r in s.receivers
    ensures IsRun(s, es)
    ensures var end := After(s, es);
            Inv(end) && end.loop.Ended? && r in end.receivers && end.receivers[r].slot == Some(m) && Pending(end, r)
  {
    hide Inv;
    es := [Register(r), StartupDone, Deliver(r, m), Announce(r), RequestExit, NextTurn];
    var s1 := Apply(s, es[0]);
    var s2 := Apply(s1, es[1]);
    var s3 := Apply(s2, es[2]);
    var s4 := Apply(s3, es[3]);
    var s5 := Apply(s4, es[4]);
    assert es == [es[0]] + ([es[1]] + ([es[2]] + ([es[3]] + ([es[4]] + ([es[5]] + [])))));
    Consecutive(s5, es[5], []);
    Consecutive(s4, es[4], [es[5]] + []);
    Consecutive(s3, es[3], [es[4]] + ([es[5]] + []));
    Consecutive(s2, es[2], [es[3]] + ([es[4]] + ([es[5]] + [])));
    Consecutive(s1, es[1], [es[2]] + ([es[3]] + ([es[4]] + ([es[5]] + []))));
    Consecutive(s, es[0], [es[1]] + ([es[2]] + ([es[3]] + ([es[4]] + ([es[5]] + [])))));
    NothingLost(s, es);
  }

  lemma Consecutive<M>(s: System<M>, e: Event<M>, es: seq<Event<M>>)
    requires Enabled(s, e) && IsRun(Apply(s, e), es)
    ensures IsRun(s, [e] + es) && After(s, [e] + es) == After(Apply(s, e), es)
  {
    assert ([e] + es)[1..] == es;
  }

  /** A queued receiver has fewer others before it than there are receivers. */
  lemma AheadFits<M(!new)>(s: System<M>, r: ReceiverId)
    requires Inv(s) && (r in s.queue || InHand(s, r))
    ensures Ahead(s, r) < |s.receivers.Keys|
  {
    QueueFits(s);
  }

  /**
   Bounded overtaking and progress.  From any state that satisfies the invariant, while an announced
   receiver's message is not picked up, fewer other pick-ups than there are receivers can happen,
   and as long as the component's loop has not ended its thread takes fewer than six steps per
   receiver.
   */
  lemma PickedUpSoon<M(!new)>(s: System<M>, es: seq<Event<M>>, r: ReceiverId)
    requires Inv(s) && IsRun(s, es) && r in s.receivers && Pending(s, r) && NeverPickedUp(s, es, r)
    ensures PickUps(es) <= Ahead(s, r) < |s.receivers.Keys|
    ensures !After(s, es).loop.Ended? ==> TurnsIn(es) < StepsLeft(s, r) <= 6 * |s.receivers.Keys|
    ensures r in After(s, es).queue || InHand(After(s, es), r)
  {
    hide Apply, Enabled, IndexOf;
    assert Sound(s, r);
    RunBringsNearer(s, es, r);
    AheadFits(s, r);
    RunKeepsInv(s, es);
  }
}
