/**
 What the scheduler's operations mean, apart from how the queue is kept: which events are pending
 after each of them, when an event takes place, and what becomes of every event over a run.
 */
module SimulationLaws {
  import opened Events
  import opened Options
  import opened Simulation

  // ---------- One operation ----------

  /** Everything but the object `id` is as before. */
  ghost predicate OthersStand(s: State, t: State, id: nat) {
    forall j :: j != id ==> UidOf(t, j) == UidOf(s, j)
  }

  /** Scheduling an event that is not pending makes it pending, `delay` from now, and nothing else. */
  lemma ScheduleAdds(s: State, id: nat, delay: real)
    requires Coherent(s) && UidOf(s, id) <= 0
    ensures var o := Step(s, Schedule(id, delay));
      && o.Running? && o.dispatched == None && o.state.clock == s.clock
      && |o.state.queue| == |s.queue| + 1 && UidOf(o.state, id) == s.nextUid && OthersStand(s, o.state, id)
      && forall e :: e in o.state.queue <==>
           e in s.queue || (e.id == id && e.uid == s.nextUid && e.time - s.clock == delay)
  {
    var e := Event(id, s.nextUid, s.clock + delay);
    InsertContents(s.queue, e);
    assert forall x: Event :: x == e <==> x.id == id && x.uid == s.nextUid && x.time - s.clock == delay;
  }

  /** Cancelling leaves exactly the other events pending; the uid of a pending one is negated. */
  lemma CancelTakesOut(s: State, id: nat)
    requires Coherent(s)
    ensures var o := Step(s, Cancel(id));
      && o.Running? && o.dispatched == None && o.state.clock == s.clock && o.state.nextUid == s.nextUid
      && UidOf(o.state, id) == (if 0 < UidOf(s, id) then -UidOf(s, id) else UidOf(s, id))
      && OthersStand(s, o.state, id)
      && forall e :: e in o.state.queue <==> e in s.queue && e.id != id
  {
    if 0 < UidOf(s, id) {
      RemoveContents(s.queue, Event(id, s.objects[id].uid, s.objects[id].time));
    }
  }

  /** A dispatch takes the first of the pending events, and the clock goes to its time. */
  lemma DispatchTakesFirst(s: State)
    requires Coherent(s)
    ensures s.queue == [] ==> Step(s, Dispatch) == Running(s, None)
    ensures var o := Step(s, Dispatch); s.queue != [] && o.Running? ==>
      && o.dispatched.Some? && o.dispatched.value in s.queue && o.state.clock == o.dispatched.value.time
      && (forall e :: e in s.queue ==> e == o.dispatched.value || Before(o.dispatched.value, e))
      && (forall e :: e in o.state.queue <==> e in s.queue && e != o.dispatched.value)
      && UidOf(o.state, o.dispatched.value.id) == -(o.dispatched.value.uid as int)
      && OthersStand(s, o.state, o.dispatched.value.id) && o.state.nextUid == s.nextUid
  {
    if s.queue != [] { TailContents(s.queue); }
  }

  // ---------- Runs ----------

  /** No two pending events have the same uid. */
  ghost predicate Unique(s: State) {
    Coherent(s) && forall e, f :: e in s.queue && f in s.queue && e.uid == f.uid ==> e == f
  }

  /** What is pending after a step was pending before, or has just been scheduled. */
  lemma StepPending(s: State, op: Op)
    requires Unique(s) && Step(s, op).Running?
    ensures var t := Step(s, op).state;
      && Unique(t) && s.nextUid <= t.nextUid
      && (forall e :: e in t.queue ==> e in s.queue || (op.Schedule? && e == Made(s, op)))
      && (forall e :: e in s.queue && op != Cancel(e.id) ==> e in t.queue || Step(s, op).dispatched == Some(e))
      && (Step(s, op).dispatched.Some? ==>
           && Step(s, op).dispatched.value in s.queue && Step(s, op).dispatched.value !in t.queue)
  {
    hide Step, Coherent;
    StepCoherent(s, op);
    match op
    case Schedule(id, delay) =>
      ScheduleAdds(s, id, delay);
      FreshUid(s);
    case Cancel(id) => CancelTakesOut(s, id);
    case Dispatch => DispatchTakesFirst(s);
  }

  lemma FreshUid(s: State)
    requires Coherent(s)
    ensures forall e :: e in s.queue ==> e.uid < s.nextUid
  {
  }

  /** The event that a `Schedule` makes. */
  function Made(s: State, op: Op): Event
    requires op.Schedule?
  {
    Event(op.id, s.nextUid, s.clock + op.delay)
  }

  /** A uid that has been given out and is not pending is never dispatched again. */
  lemma {:induction false} NeverAgain(s: State, ops: seq<Op>, uid: nat)
    requires Unique(s) && uid < s.nextUid && forall e :: e in s.queue ==> e.uid != uid
    ensures forall e :: e in Trace(s, ops) ==> e.uid != uid
    decreases ops
  {
    hide Step, Unique;
    if ops != [] && Step(s, ops[0]).Running? {
      StepPending(s, ops[0]);
      NeverAgain(Step(s, ops[0]).state, ops[1..], uid);
    }
  }

  /** So a cancelled event never takes place. */
  lemma CancelledNeverRuns(s: State, e: Event, ops: seq<Op>)
    requires Unique(s) && e in s.queue
    ensures Step(s, Cancel(e.id)).Running?
    ensures forall f :: f in Trace(Step(s, Cancel(e.id)).state, ops) ==> f.uid != e.uid
  {
    hide Step;
    CancelTakesOut(s, e.id);
    StepPending(s, Cancel(e.id));
    NeverAgain(Step(s, Cancel(e.id)).state, ops, e.uid);
  }

  /** Operation `i` of the run has scheduled the event, at the time it is then `delay` away from. */
  ghost predicate MadeBy(s: State, ops: seq<Op>, i: nat, e: Event) {
    && i < |ops| && ops[i].Schedule? && Final(s, ops[..i]).Running? && UidOf(Final(s, ops[..i]).state, ops[i].id) <= 0
    && e == Made(Final(s, ops[..i]).state, ops[i])
  }

  /** Every dispatched event was pending at the start or is one that some operation has scheduled. */
  lemma {:induction false} DispatchedWasScheduled(s: State, ops: seq<Op>, e: Event)
    requires Unique(s) && e in Trace(s, ops)
    ensures e in s.queue || exists i :: MadeBy(s, ops, i, e)
    decreases ops
  {
    hide Step, Coherent;
    var o := Step(s, ops[0]);
    StepPending(s, ops[0]);
    if o.dispatched != Some(e) {
      DispatchedWasScheduled(o.state, ops[1..], e);
      if e in o.state.queue {
        if e !in s.queue { MadeFirst(s, ops, e); }
      } else {
        var i :| MadeBy(o.state, ops[1..], i, e);
        MadeLater(s, ops, i, e);
      }
    }
  }

  lemma MadeFirst(s: State, ops: seq<Op>, e: Event)
    requires Coherent(s) && ops != [] && ops[0].Schedule? && Step(s, ops[0]).Running? && e == Made(s, ops[0])
    ensures MadeBy(s, ops, 0, e)
  {
    StepCoherent(s, ops[0]);
    assert ops[..0] == [];
  }

  lemma MadeLater(s: State, ops: seq<Op>, i: nat, e: Event)
    requires ops != [] && Step(s, ops[0]).Running? && MadeBy(Step(s, ops[0]).state, ops[1..], i, e)
    ensures MadeBy(s, ops, i + 1, e)
  {
    hide Step;
    var p := ops[..i + 1];
    assert p[0] == ops[0] && p[1..] == ops[1..][..i];
  }

  /** An event that nobody cancels takes place or is pending at the end, and not both. */
  lemma {:induction false} UncancelledRuns(s: State, ops: seq<Op>, e: Event)
    requires Unique(s) && e in s.queue && Final(s, ops).Running?
    requires forall i :: 0 <= i < |ops| ==> ops[i] != Cancel(e.id)
    ensures e in Trace(s, ops) <==> e !in Final(s, ops).state.queue
    decreases ops
  {
    hide Step;
    if ops != [] {
      StepPending(s, ops[0]);
      var o := Step(s, ops[0]);
      if o.dispatched == Some(e) {
        FreshUid(s);
        FinalPending(o.state, ops[1..], e);
      } else {
        UncancelledRuns(o.state, ops[1..], e);
      }
    }
  }

  /** What is not pending and has an old uid does not come back. */
  lemma {:induction false} FinalPending(s: State, ops: seq<Op>, e: Event)
    requires Unique(s) && e !in s.queue && e.uid < s.nextUid && Final(s, ops).Running?
    ensures e !in Final(s, ops).state.queue
    decreases ops
  {
    hide Step, Unique;
    if ops != [] {
      StepPending(s, ops[0]);
      FinalPending(Step(s, ops[0]).state, ops[1..], e);
    }
  }

  /** No event takes place twice. */
  lemma {:induction false} NoneRunsTwice(s: State, ops: seq<Op>)
    requires Unique(s)
    ensures forall i, j :: 0 <= i < j < |Trace(s, ops)| ==> Trace(s, ops)[i].uid != Trace(s, ops)[j].uid
    decreases ops
  {
    hide Step;
    if ops != [] && Step(s, ops[0]).Running? {
      var o := Step(s, ops[0]);
      StepPending(s, ops[0]);
      NoneRunsTwice(o.state, ops[1..]);
      if o.dispatched.Some? {
        FreshUid(s);
        NeverAgain(o.state, ops[1..], o.dispatched.value.uid);
      }
    }
  }

  /** The clock always shows the time of the last event dispatched. */
  lemma {:induction false} ClockIsLast(s: State, ops: seq<Op>)
    requires Coherent(s) && Final(s, ops).Running?
    ensures var t := Trace(s, ops); Final(s, ops).state.clock == if t == [] then s.clock else t[|t| - 1].time
    decreases ops
  {
    hide Step, Coherent;
    if ops != [] {
      StepCoherent(s, ops[0]);
      match ops[0] {
        case Schedule(id, delay) => ScheduleAdds(s, id, delay);
        case Cancel(id) => CancelTakesOut(s, id);
        case Dispatch => DispatchTakesFirst(s);
      }
      ClockIsLast(Step(s, ops[0]).state, ops[1..]);
    }
  }

  lemma StartUnique()
    ensures Unique(Start)
  {
  }
}
