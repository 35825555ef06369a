/**
 Handing messages over from receivers to their component.  Each receiver's delivery thread fills
 a one-message slot, queues the receiver on the component and waits until the slot is empty; the
 component's thread takes receivers from the queue and empties their slots.  The threads are
 interleaved one atomic step at a time.
 */
module HandOver {
  import opened Prelude

  type ReceiverId = nat

  /**
   A delivery thread: between messages; slot filled but not announced; announced and about to check
   for pick-up; or asleep on the receiver's mutex until notified.
   */
  datatype Delivery = Resting | Filled | Announced | Asleep

  /** A receiver, with the well-formed messages delivered to it and those picked up from it. */
  datatype Receiver<M> = Receiver(
    listening: bool, delivery: Delivery, slot: Option<M>, delivered: seq<M>, pickedUp: seq<M>)

  /** Where the component's thread stands in its run method. */
  datatype Loop<M> =
    | Starting | Top | Gate | Acting | Polling | Blocked
    | Holding(receiver: ReceiverId) | Reacting(message: M)
    | Ended
    | AssertionFailed

  datatype System<M> = System(
    receivers: map<ReceiverId, Receiver<M>>, queue: seq<ReceiverId>, loop: Loop<M>, exitRequested: bool)

  datatype Event<M> =
    // a receiver's delivery thread
    | Deliver(r: ReceiverId, message: M) | DeliverMalformed(r: ReceiverId)
    | Announce(r: ReceiverId) | CheckPickedUp(r: ReceiverId) | WakeEarly(r: ReceiverId)
    // the component's thread
    | Register(r: ReceiverId) | StartupDone | StartupFailed
    | NextTurn | SystemReady | SystemNotReady | ActDone | ActFailed
    | Poll | Wake | PickUp | ReactDone | ReactFailed
    // any thread
    | RequestExit

  predicate Enabled<M>(s: System<M>, e: Event<M>) {
    match e
    case Deliver(r, _) => r in s.receivers && s.receivers[r].listening && s.receivers[r].delivery.Resting?
    case DeliverMalformed(r) => r in s.receivers && s.receivers[r].listening && s.receivers[r].delivery.Resting?
    case Announce(r) => r in s.receivers && s.receivers[r].delivery.Filled?
    case CheckPickedUp(r) => r in s.receivers && s.receivers[r].delivery.Announced?
    case WakeEarly(r) => r in s.receivers && s.receivers[r].delivery.Asleep?
    case Register(r) => r in s.receivers && s.loop.Starting?
    case StartupDone => s.loop.Starting?
    case StartupFailed => s.loop.Starting?
    case NextTurn => s.loop.Top?
    case SystemReady => s.loop.Gate?
    case SystemNotReady => s.loop.Gate?
    case ActDone => s.loop.Acting?
    case ActFailed => s.loop.Acting?
    case Poll => s.loop.Polling?
    case Wake => s.loop.Blocked?
    case PickUp => s.loop.Holding? && s.loop.receiver in s.receivers
    case ReactDone => s.loop.Reacting?
    case ReactFailed => s.loop.Reacting?
    case RequestExit => true
  }

  function Update<M>(s: System<M>, r: ReceiverId, rec: Receiver<M>): System<M> {
    s.(receivers := s.receivers[r := rec])
  }

  /** Takes the receiver at the front of the queue in hand, or carries on without one. */
  function TakeFront<M>(s: System<M>, otherwise: Loop<M>): System<M> {
    if s.queue == [] then s.(loop := otherwise)
    else s.(loop := Holding(s.queue[0]), queue := s.queue[1..])
  }

  function Apply<M>(s: System<M>, e: Event<M>): System<M>
    requires Enabled(s, e)
  {
    match e
    case Deliver(r, m) =>
      var rec := s.receivers[r];
      Update(s, r, rec.(slot := Some(m), delivery := Filled, delivered := rec.delivered + [m]))
    case DeliverMalformed(_) => s
    case Announce(r) => Update(s, r, s.receivers[r].(delivery := Announced)).(queue := s.queue + [r])
    case CheckPickedUp(r) =>
      Update(s, r, s.receivers[r].(delivery := if s.receivers[r].slot.None? then Resting else Asleep))
    case WakeEarly(r) => Update(s, r, s.receivers[r].(delivery := Announced))
    case Register(r) => Update(s, r, s.receivers[r].(listening := true))
    case StartupDone => s.(loop := Top)
    case StartupFailed => s.(loop := Top, exitRequested := true)
    case NextTurn => s.(loop := if s.exitRequested then Ended else Gate)
    case SystemReady => s.(loop := Acting)
    case SystemNotReady => s.(loop := if s.exitRequested then Ended else Gate)
    case ActDone => s.(loop := Polling)
    case ActFailed => s.(loop := Ended, exitRequested := true)
    case Poll => TakeFront(s, Blocked)
    case Wake => TakeFront(s, Top)
    case PickUp =>
      var rec := s.receivers[s.loop.receiver];
      if rec.slot.None? then s.(loop := AssertionFailed)
      else
        Update(s, s.loop.receiver, rec.(slot := None, pickedUp := rec.pickedUp + [rec.slot.value],
                                        delivery := if rec.delivery.Asleep? then Announced else rec.delivery))
        .(loop := Reacting(rec.slot.value))
    case ReactDone => s.(loop := Top)
    case ReactFailed => s.(loop := Ended, exitRequested := true)
    case RequestExit => s.(exitRequested := true)
  }

  ghost predicate Initial<M(!new)>(s: System<M>) {
    s.queue == [] && s.loop == Starting && !s.exitRequested &&
    forall r :: r in s.receivers ==> s.receivers[r] == Receiver(false, Resting, None, [], [])
  }

  ghost predicate IsRun<M>(s: System<M>, es: seq<Event<M>>)
    decreases |es|
  {
    es == [] || (Enabled(s, es[0]) && IsRun(Apply(s, es[0]), es[1..]))
  }

  ghost function After<M>(s: System<M>, es: seq<Event<M>>): System<M>
    requires IsRun(s, es)
    decreases |es|
  {
    if es == [] then s else After(Apply(s, es[0]), es[1..])
  }

  // ---------- The hand-over invariant ----------

  predicate InHand<M>(s: System<M>, r: ReceiverId) {
    s.loop.Holding? && s.loop.receiver == r
  }

  /** Announced, and its message not picked up yet. */
  predicate Pending<M>(s: System<M>, r: ReceiverId)
    requires r in s.receivers
  {
    (s.receivers[r].delivery.Announced? || s.receivers[r].delivery.Asleep?) && s.receivers[r].slot.Some?
  }

  function SlotContent<M>(rec: Receiver<M>): seq<M> {
    if rec.slot.Some? then [rec.slot.value] else []
  }

  /**
   One receiver's part: nothing is lost or reordered, no one sleeps on an empty slot, and the
   receiver is queued or in hand just while its announced message is not picked up.
   */
  ghost predicate Sound<M(!new)>(s: System<M>, r: ReceiverId)
    requires r in s.receivers
  {
    var rec := s.receivers[r];
    && rec.delivered == rec.pickedUp + SlotContent(rec)
    && (rec.delivery.Resting? ==> rec.slot.None?)
    && (rec.delivery.Filled? || rec.delivery.Asleep? ==> rec.slot.Some?)
    && (Pending(s, r) <==> r in s.queue || InHand(s, r))
  }

  ghost predicate NoRepeats(q: seq<ReceiverId>) {
    forall i, j :: 0 <= i < j < |q| ==> q[i] != q[j]
  }

  ghost predicate Inv<M(!new)>(s: System<M>) {
    && (forall r :: r in s.receivers ==> Sound(s, r))
    && (forall r :: r in s.queue ==> r in s.receivers)
    && NoRepeats(s.queue)
    && (s.loop.Holding? ==> s.loop.receiver in s.receivers && s.loop.receiver !in s.queue)
    && !s.loop.AssertionFailed?
  }

  lemma DeliveryKeepsInv<M(!new)>(s: System<M>, e: Event<M>)
    requires Inv(s) && Enabled(s, e)
    requires e.Deliver? || e.Announce? || e.CheckPickedUp? || e.WakeEarly? || e.Register?
    ensures Inv(Apply(s, e))
  {
    var s' := Apply(s, e);
    forall r | r in s'.receivers ensures Sound(s', r) {
      assert Sound(s, r);
    }
  }

  lemma TakeKeepsInv<M(!new)>(s: System<M>, otherwise: Loop<M>)
    requires Inv(s) && !s.loop.Holding? && !otherwise.Holding? && !otherwise.AssertionFailed?
    ensures Inv(TakeFront(s, otherwise))
  {
    var s' := TakeFront(s, otherwise);
    if s.queue != [] {
      assert s.queue == [s.queue[0]] + s.queue[1..];
    }
    forall r | r in s'.receivers ensures Sound(s', r) {
      assert Sound(s, r);
    }
  }

  lemma PickUpKeepsInv<M(!new)>(s: System<M>)
    requires Inv(s) && s.loop.Holding?
    ensures Enabled(s, PickUp) && Inv(Apply(s, PickUp))
    ensures s.receivers[s.loop.receiver].slot.Some?
  {
    assert Sound(s, s.loop.receiver);
    var s' := Apply(s, PickUp);
    forall r | r in s'.receivers ensures Sound(s', r) {
      assert Sound(s, r);
    }
  }

  lemma LoopKeepsInv<M(!new)>(s: System<M>, loop: Loop<M>, exit: bool)
    requires Inv(s) && !s.loop.Holding? && !loop.Holding? && !loop.AssertionFailed?
    ensures Inv(s.(loop := loop, exitRequested := exit))
  {
    var s' := s.(loop := loop, exitRequested := exit);
    forall r | r in s'.receivers ensures Sound(s', r) {
      assert Sound(s, r);
    }
  }

  /** Every step of every thread keeps the invariant. */
  lemma StepKeepsInv<M(!new)>(s: System<M>, e: Event<M>)
    requires Inv(s) && Enabled(s, e)
    ensures Inv(Apply(s, e))
    ensures Apply(s, e).receivers.Keys == s.receivers.Keys
  {
    hide Inv;
    match e
    case Deliver(_, _) => DeliveryKeepsInv(s, e);
    case DeliverMalformed(_) =>
    case Announce(_) => DeliveryKeepsInv(s, e);
    case CheckPickedUp(_) => DeliveryKeepsInv(s, e);
    case WakeEarly(_) => DeliveryKeepsInv(s, e);
    case Register(_) => DeliveryKeepsInv(s, e);
    case Poll => TakeKeepsInv(s, Blocked);
    case Wake => TakeKeepsInv(s, Top);
    case PickUp => PickUpKeepsInv(s);
    case RequestExit => ExitKeepsInv(s);
    case _ => LoopKeepsInv(s, Apply(s, e).loop, Apply(s, e).exitRequested);
  }

  lemma ExitKeepsInv<M(!new)>(s: System<M>)
    requires Inv(s)
    ensures Inv(s.(exitRequested := true))
  {
    var s' := s.(exitRequested := true);
    forall r | r in s'.receivers ensures Sound(s', r) {
      assert Sound(s, r);
    }
  }

  lemma {:induction false} RunKeepsInv<M(!new)>(s: System<M>, es: seq<Event<M>>)
    requires Inv(s) && IsRun(s, es)
    ensures Inv(After(s, es)) && After(s, es).receivers.Keys == s.receivers.Keys
    decreases |es|
  {
    hide Inv;
    if es != [] {
      StepKeepsInv(s, es[0]);
      RunKeepsInv(Apply(s, es[0]), es[1..]);
    }
  }

  /**
   Over every interleaving, for each receiver: the messages picked up, followed by the one in its
   slot, are the well-formed messages delivered to it, in order; it is queued or in hand, and only
   once, exactly while it waits on a full slot; and the component's assertion never fails.
   */
  lemma NothingLost<M(!new)>(s: System<M>, es: seq<Event<M>>)
    requires Initial(s) && IsRun(s, es)
    ensures Inv(After(s, es))
    ensures forall r :: r in s.receivers ==>
              r in After(s, es).receivers &&
              var rec := After(s, es).receivers[r]; rec.delivered == rec.pickedUp + SlotContent(rec)
    ensures |After(s, es).queue| + (if After(s, es).loop.Holding? then 1 else 0) <= |s.receivers|
  {
    assert Inv(s);
    RunKeepsInv(s, es);
    QueueFits(After(s, es));
    assert |After(s, es).receivers.Keys| == |s.receivers.Keys|;
    forall r | r in s.receivers ensures r in After(s, es).receivers && Sound(After(s, es), r) {
      assert r in After(s, es).receivers.Keys;
    }
  }

  lemma {:induction false} DistinctFit(q: seq<ReceiverId>, ids: set<ReceiverId>)
    requires NoRepeats(q) && forall r :: r in q ==> r in ids
    ensures |q| <= |ids|
    decreases |q|
  {
    if q != [] {
      var r, rest := q[0], q[1..];
      assert forall i :: 0 <= i < |rest| ==> rest[i] == q[i + 1];
      DistinctFit(rest, ids - {r});
    }
  }

  /** The queue and the hand together never hold more entries than there are receivers. */
  lemma QueueFits<M(!new)>(s: System<M>)
    requires Inv(s)
    ensures |s.queue| + (if s.loop.Holding? then 1 else 0) <= |s.receivers.Keys|
  {
    var q := if s.loop.Holding? then [s.loop.receiver] + s.queue else s.queue;
    assert NoRepeats(q);
    DistinctFit(q, s.receivers.Keys);
  }

  /** Nothing is delivered to a receiver before the component has registered with it. */
  lemma {:induction false} DeliveredAfterRegistering<M(!new)>(s: System<M>, es: seq<Event<M>>, r: ReceiverId)
    requires IsRun(s, es) && r in s.receivers && !s.receivers[r].listening && Register(r) !in es
    ensures r in After(s, es).receivers
    ensures !After(s, es).receivers[r].listening && After(s, es).receivers[r].delivered == s.receivers[r].delivered
    decreases |es|
  {
    if es != [] {
      DeliveredAfterRegistering(Apply(s, es[0]), es[1..], r);
    }
  }
}
