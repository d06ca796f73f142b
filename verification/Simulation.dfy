/**
 `Scheduler`: the simulator loop that stamps, queues, cancels and dispatches
 events, over the reference queue and over the three real ones.
 */
module Simulation {
  import opened Events
  import opened Options
  import LS = ListScheduler
  import HS = HeapScheduler
  import CS = CalendarScheduler

  /** The fields `uid_` and `time_` of an event object. */
  datatype Object = Object(uid: int, time: real)

  /** The scheduler: `queue` is the reference queue; objects not in `objects` were never scheduled. */
  datatype State = State(clock: real, nextUid: nat, objects: map<nat, Object>, queue: seq<Event>)

  /** A handler's calls are flattened into the run: they follow the dispatch that calls it. */
  datatype Op =
    | Schedule(id: nat, delay: real)
    | Cancel(id: nat)
    | Dispatch

  /** The aborts of `schedule` and `dispatch`. */
  datatype Outcome = Running(state: State, dispatched: Option<Event>) | AlreadyPending | BackInTime

  const Start := State(0.0, 1, map[], [])

  function UidOf(s: State, id: nat): int { if id in s.objects then s.objects[id].uid else 0 }

  function Step(s: State, op: Op): Outcome {
    match op
    case Schedule(id, delay) =>
      if 0 < UidOf(s, id) then AlreadyPending else
      var e := Event(id, s.nextUid, s.clock + delay);
      Running(State(s.clock, s.nextUid + 1, s.objects[id := Object(e.uid, e.time)], Insert(s.queue, e)), None)
    case Cancel(id) =>
      if UidOf(s, id) <= 0 then Running(s, None) else
      var o := s.objects[id];
      Running(s.(objects := s.objects[id := Object(-o.uid, o.time)],
                 queue := Remove(s.queue, Event(id, o.uid, o.time))), None)
    case Dispatch =>
      if s.queue == [] then Running(s, None) else
      var e := s.queue[0];
      if e.time < s.clock then BackInTime else
      Running(State(e.time, s.nextUid, s.objects[e.id := Object(0 - e.uid, e.time)], s.queue[1..]), Some(e))
  }

  /** The events dispatched by a run, up to its end or to an abort. */
  function Trace(s: State, ops: seq<Op>): seq<Event>
    decreases ops
  {
    if ops == [] then [] else
    match Step(s, ops[0])
    case Running(t, d) => (if d.Some? then [d.value] else []) + Trace(t, ops[1..])
    case _ => []
  }

  /** How a run ends. */
  function Final(s: State, ops: seq<Op>): Outcome
    decreases ops
  {
    if ops == [] then Running(s, None) else
    match Step(s, ops[0])
    case Running(t, _) => Final(t, ops[1..])
    case stop => stop
  }

  predicate NonNegative(ops: seq<Op>) {
    forall i :: 0 <= i < |ops| && ops[i].Schedule? ==> 0.0 <= ops[i].delay
  }

  /** An event is pending exactly when its uid is positive. */
  ghost predicate Coherent(s: State) {
    && 0 < s.nextUid && Ordered(s.queue)
    && (forall e :: e in s.queue ==>
         0 < e.uid < s.nextUid && e.id in s.objects && s.objects[e.id] == Object(e.uid, e.time))
    && (forall id :: id in s.objects && 0 < s.objects[id].uid ==>
         Event(id, s.objects[id].uid, s.objects[id].time) in s.queue)
  }

  /** Moreover no pending event is in the past. */
  ghost predicate Sound(s: State) {
    Coherent(s) && 0.0 <= s.clock && forall e :: e in s.queue ==> s.clock <= e.time
  }

  /** Any operation, with any delay, leaves positive uids to exactly the pending events. */
  lemma StepCoherent(s: State, op: Op)
    requires Coherent(s)
    ensures Step(s, op).AlreadyPending? <==> op.Schedule? && 0 < UidOf(s, op.id)
    ensures Step(s, op).BackInTime? <==> op.Dispatch? && s.queue != [] && s.queue[0].time < s.clock
    ensures Step(s, op).Running? ==> Coherent(Step(s, op).state) && s.clock <= Step(s, op).state.clock
  {
    match op
    case Schedule(id, delay) =>
      if UidOf(s, id) <= 0 {
        var e := Event(id, s.nextUid, s.clock + delay);
        InsertContents(s.queue, e);
        InsertOrdered(s.queue, e);
      }
    case Cancel(id) =>
      if 0 < UidOf(s, id) {
        RemoveContents(s.queue, Event(id, s.objects[id].uid, s.objects[id].time));
      }
    case Dispatch =>
      if s.queue != [] { TailContents(s.queue); }
  }

  lemma StepSound(s: State, op: Op)
    requires Sound(s) && (op.Schedule? ==> 0.0 <= op.delay)
    ensures !Step(s, op).BackInTime?
    ensures Step(s, op).AlreadyPending? <==> op.Schedule? && 0 < UidOf(s, op.id)
    ensures Step(s, op).Running? ==> Sound(Step(s, op).state) && s.clock <= Step(s, op).state.clock
  {
    StepCoherent(s, op);
    match op
    case Schedule(id, delay) => InsertContents(s.queue, Event(id, s.nextUid, s.clock + delay));
    case Cancel(id) =>
      if 0 < UidOf(s, id) {
        RemoveContents(s.queue, Event(id, s.objects[id].uid, s.objects[id].time));
      }
    case Dispatch =>
      if s.queue != [] {
        TailContents(s.queue);
        assert s.queue[0] in s.queue;
      }
  }

  /** No run with non-negative delays goes backwards in time, and every state it reaches is sound. */
  lemma {:induction false} RunSound(s: State, ops: seq<Op>)
    requires Sound(s) && NonNegative(ops)
    ensures !Final(s, ops).BackInTime?
    ensures Final(s, ops).Running? ==> Sound(Final(s, ops).state)
    ensures forall i, j :: 0 <= i < j < |Trace(s, ops)| ==> Trace(s, ops)[i].time <= Trace(s, ops)[j].time
    ensures forall i :: 0 <= i < |Trace(s, ops)| ==> s.clock <= Trace(s, ops)[i].time
    decreases ops
  {
    if ops != [] {
      StepSound(s, ops[0]);
      if Step(s, ops[0]).Running? {
        RunSound(Step(s, ops[0]).state, ops[1..]);
      }
    }
  }

  /** From a sound state, an event that is scheduled makes the next dispatch abort exactly if its delay is negative. */
  lemma AbortsIffNegative(s: State, id: nat, delay: real)
    requires Sound(s) && UidOf(s, id) <= 0
    ensures var o := Step(s, Schedule(id, delay));
      o.Running? && (Step(o.state, Dispatch) == BackInTime <==> delay < 0.0)
  {
    var e := Event(id, s.nextUid, s.clock + delay);
    InsertContents(s.queue, e);
    assert Insert(s.queue, e)[0] in Insert(s.queue, e);
  }

  /** A negative delay does reach the abort. */
  lemma NegativeDelayGoesBack()
    ensures Final(Start, [Schedule(0, 1.0), Dispatch, Schedule(0, -1.0), Dispatch]) == BackInTime
  {
    var e, f := Event(0, 1, 1.0), Event(0, 2, 0.0);
    var a := State(0.0, 2, map[0 := Object(1, 1.0)], [e]);
    var b := State(1.0, 2, map[0 := Object(-1, 1.0)], []);
    var c := State(1.0, 3, map[0 := Object(2, 0.0)], [f]);
    assert Step(Start, Schedule(0, 1.0)) == Running(a, None);
    assert Step(a, Dispatch) == Running(b, Some(e));
    assert Step(b, Schedule(0, -1.0)) == Running(c, None);
    assert Step(c, Dispatch) == BackInTime;
    var ops := [Schedule(0, 1.0), Dispatch, Schedule(0, -1.0), Dispatch];
    assert ops[1..][1..][1..] == [Dispatch];
    assert ops[1..][1..] == [Schedule(0, -1.0), Dispatch];
    assert ops[1..] == [Dispatch, Schedule(0, -1.0), Dispatch];
    assert Final(c, [Dispatch]) == BackInTime;
  }

  // ---------- Events of negative time ----------

  /** The operation schedules an event before time 0, for which the calendar may have no bucket. */
  predicate Early(s: State, op: Op) { op.Schedule? && UidOf(s, op.id) <= 0 && s.clock + op.delay < 0.0 }

  /** The trace up to the first event of negative time, or to the abort if that comes first. */
  function TraceFromZero(s: State, ops: seq<Op>): seq<Event>
    decreases ops
  {
    if ops == [] || Early(s, ops[0]) then [] else
    match Step(s, ops[0])
    case Running(t, d) => (if d.Some? then [d.value] else []) + TraceFromZero(t, ops[1..])
    case _ => []
  }

  /** All times are from 0 on, so that the calendar's index is the bucket of each, whatever its width and size. */
  ghost predicate FromZero(s: State) {
    Coherent(s) && 0.0 <= s.clock && forall e :: e in s.queue ==> 0.0 <= e.time
  }

  lemma StepFromZero(s: State, op: Op)
    requires FromZero(s) && !Early(s, op) && Step(s, op).Running?
    ensures FromZero(Step(s, op).state)
  {
    StepCoherent(s, op);
    match op
    case Schedule(id, delay) => InsertContents(s.queue, Event(id, s.nextUid, s.clock + delay));
    case Cancel(id) =>
      if 0 < UidOf(s, id) {
        RemoveContents(s.queue, Event(id, s.objects[id].uid, s.objects[id].time));
      }
    case Dispatch =>
      if s.queue != [] {
        TailContents(s.queue);
        assert s.queue[0] in s.queue;
      }
  }

  /** In such a state every index the calendar computes is a bucket, the one the model takes. */
  lemma AllHaveBuckets(s: State, e: Event, w: real, n: nat)
    requires FromZero(s) && e in s.queue && 0.0 < w && 0 < n
    ensures CS.Index(e.time, w, n) == CS.Hash(e.time, w, n) < n
    ensures CS.Index(s.clock, w, n) == CS.Hash(s.clock, w, n) < n
  {
    CS.IndexIsHash(e.time, w, n);
    CS.IndexIsHash(s.clock, w, n);
  }

  /** Operations none of which schedules an event before time 0. */
  predicate NeverEarly(s: State, ops: seq<Op>)
    decreases ops
  {
    ops == [] || (!Early(s, ops[0]) && (Step(s, ops[0]).Running? ==> NeverEarly(Step(s, ops[0]).state, ops[1..])))
  }

  /** The cut trace begins the whole one, and is all of it without such an event. */
  lemma {:induction false} FromZeroIsPrefix(s: State, ops: seq<Op>)
    ensures TraceFromZero(s, ops) <= Trace(s, ops)
    ensures NeverEarly(s, ops) ==> TraceFromZero(s, ops) == Trace(s, ops)
    decreases ops
  {
    hide Step;
    if ops != [] && !Early(s, ops[0]) && Step(s, ops[0]).Running? {
      FromZeroIsPrefix(Step(s, ops[0]).state, ops[1..]);
    }
  }

  /** From a sound state, delays that are not negative schedule no such event. */
  lemma {:induction false} NonNegativeNeverEarly(s: State, ops: seq<Op>)
    requires Sound(s) && NonNegative(ops)
    ensures NeverEarly(s, ops)
    decreases ops
  {
    hide Step;
    if ops != [] {
      StepSound(s, ops[0]);
      if Step(s, ops[0]).Running? { NonNegativeNeverEarly(Step(s, ops[0]).state, ops[1..]); }
    }
  }

  /** The first event of a run may be one: its index in the calendar of four buckets a second wide is -1. */
  lemma NegativeTimeHasNoBucket()
    ensures Early(Start, Schedule(0, -1.0)) && CS.Index(Start.clock - 1.0, 1.0, 4) == -1
    ensures TraceFromZero(Start, [Schedule(0, -1.0), Dispatch]) == []
    ensures Final(Start, [Schedule(0, -1.0), Dispatch]) == BackInTime
  {
    CS.IndexBeforeZero(-1.0, 1.0, 4);
    var ops, e := [Schedule(0, -1.0), Dispatch], Event(0, 1, -1.0);
    var a := State(0.0, 2, map[0 := Object(1, -1.0)], [e]);
    assert Step(Start, ops[0]) == Running(a, None);
    assert ops[1..] == [Dispatch] && Step(a, Dispatch) == BackInTime;
  }

  // ---------- The three queues ----------

  /** The three queues, given the same calls; `live` says that the calendar is among them. */
  class Queues {
    const list: LS.List
    const heap: HS.Heap
    const calendar: CS.Calendar

    ghost function Repr(): set<object>
      reads this, heap, calendar
    {
      {list, heap, heap.elems, calendar, calendar.buckets}
    }

    /** All of them hold the reference queue `q`. */
    ghost predicate Hold(q: seq<Event>, live: bool)
      reads this, Repr()
    {
      && heap.Valid() && list.queue == heap.model == q
      && (live ==> calendar.Valid() && calendar.model == q)
    }

    constructor ()
      ensures Hold([], true) && fresh(Repr())
    {
      list := new LS.List();
      heap := new HS.Heap(100);
      calendar := new CS.Calendar(0.0);
    }

    /** The calendar drops out. */
    lemma Retire(q: seq<Event>)
      requires Hold(q, true)
      ensures Hold(q, false)
    {
    }

    method Add(e: Event, tuning: CS.Tuning, live: bool, ghost q: seq<Event>)
      requires Hold(q, live) && Newest(e, q) && tuning.Sound()
      modifies Repr()
      ensures Hold(Insert(q, e), live) && fresh(Repr() - old(Repr()))
    {
      hide HS.Heap.Valid, CS.Calendar.Valid, Ordered;
      list.Add(e);
      heap.Add(e);
      if live { calendar.Add(e, tuning); }
    }

    method Cancel(e: Event, live: bool, ghost q: seq<Event>)
      requires Hold(q, live) && e in q
      modifies Repr()
      ensures Hold(Remove(q, e), live) && fresh(Repr() - old(Repr()))
    {
      hide HS.Heap.Valid, CS.Calendar.Valid, Ordered;
      list.Cancel(e);
      var _ := heap.Cancel(e);
      if live { calendar.Cancel(e); }
    }

    method Deque(tuning: CS.Tuning, live: bool, ghost q: seq<Event>)
      returns (byList: Option<Event>, byHeap: Option<Event>, byCalendar: Option<Event>)
      requires Hold(q, live) && tuning.Sound()
      modifies Repr()
      ensures byList == byHeap == First(q) && byCalendar == (if live then First(q) else None)
      ensures Hold(Rest(q), live) && fresh(Repr() - old(Repr()))
    {
      hide HS.Heap.Valid, CS.Calendar.Valid, Ordered;
      byList := list.Deque();
      byHeap := heap.Deque();
      byCalendar := None;
      if live { byCalendar := calendar.Deque(tuning); }
    }
  }

  /** One step of the simulator on the queues. */
  method Apply(queues: Queues, s: State, op: Op, tuning: CS.Tuning, live: bool)
    returns (byList: Option<Event>, byHeap: Option<Event>, byCalendar: Option<Event>)
    requires Coherent(s) && queues.Hold(s.queue, live) && Step(s, op).Running? && tuning.Sound()
    requires live ==> FromZero(s) && !Early(s, op)
    modifies queues.Repr()
    ensures queues.Hold(Step(s, op).state.queue, live)
    ensures forall o :: o in queues.Repr() ==> o in old(queues.Repr()) || fresh(o)
    ensures byList == byHeap == Step(s, op).dispatched
    ensures byCalendar == if live then Step(s, op).dispatched else None
  {
    hide Queues.Hold;
    byList, byHeap, byCalendar := None, None, None;
    match op {
      case Schedule(id, delay) =>
        queues.Add(Event(id, s.nextUid, s.clock + delay), tuning, live, s.queue);
      case Cancel(id) =>
        if 0 < UidOf(s, id) {
          queues.Cancel(Event(id, s.objects[id].uid, s.objects[id].time), live, s.queue);
        }
      case Dispatch =>
        byList, byHeap, byCalendar := queues.Deque(tuning, live, s.queue);
    }
  }

  function Extend(t: seq<Event>, e: Option<Event>): seq<Event> {
    match e case None => t case Some(x) => t + [x]
  }

  lemma StartSound()
    ensures Sound(Start) && FromZero(Start)
  {
  }

  lemma TraceEnd(s: State, ops: seq<Op>)
    ensures Trace(s, ops[|ops|..]) == [] == TraceFromZero(s, ops[|ops|..])
  {
  }

  lemma TraceStep(t: seq<Event>, s: State, ops: seq<Op>, k: nat)
    requires k < |ops|
    ensures match Step(s, ops[k])
      case Running(n, d) => t + Trace(s, ops[k..]) == Extend(t, d) + Trace(n, ops[k + 1..])
      case _ => t + Trace(s, ops[k..]) == t
  {
    assert ops[k..][0] == ops[k] && ops[k..][1..] == ops[k + 1..];
  }

  lemma FromZeroStep(t: seq<Event>, s: State, ops: seq<Op>, k: nat)
    requires k < |ops|
    ensures if Early(s, ops[k]) || !Step(s, ops[k]).Running? then t + TraceFromZero(s, ops[k..]) == t
      else t + TraceFromZero(s, ops[k..]) ==
           Extend(t, Step(s, ops[k]).dispatched) + TraceFromZero(Step(s, ops[k]).state, ops[k + 1..])
  {
    hide Step, Early;
    assert ops[k..][0] == ops[k] && ops[k..][1..] == ops[k + 1..];
  }

  /**
   The three queues side by side on one run, whatever the delays and whatever widths the calendar is
   tuned to along the way. The list and the heap dispatch exactly the reference trace, up to the abort
   if there is one; so does the calendar, up to the first event of negative time.
   */
  method Run(ops: seq<Op>, tunings: seq<CS.Tuning>)
    returns (byList: seq<Event>, byHeap: seq<Event>, byCalendar: seq<Event>)
    requires |tunings| == |ops| && forall i :: 0 <= i < |tunings| ==> tunings[i].Sound()
    ensures byList == byHeap == Trace(Start, ops) && byCalendar == TraceFromZero(Start, ops)
  {
    hide Step, Coherent, Trace, TraceFromZero, FromZero, Queues.Hold;
    var queues := new Queues();
    byList, byHeap, byCalendar := [], [], [];
    var s, live := Start, true;
    StartSound();
    assert ops[0..] == ops;
    ghost var footprint := queues.Repr();
    for k := 0 to |ops|
      invariant fresh(footprint) && queues.Repr() <= footprint
      invariant Coherent(s) && queues.Hold(s.queue, live) && (live ==> FromZero(s))
      invariant byList == byHeap && byList + Trace(s, ops[k..]) == Trace(Start, ops)
      invariant if live then byCalendar + TraceFromZero(s, ops[k..]) == TraceFromZero(Start, ops)
                else byCalendar == TraceFromZero(Start, ops)
    {
      var op := ops[k];
      StepCoherent(s, op);
      TraceStep(byList, s, ops, k);
      FromZeroStep(byCalendar, s, ops, k);
      if !Step(s, op).Running? { return; }
      if live && Early(s, op) {
        queues.Retire(s.queue);
        live := false;
      }
      if live { StepFromZero(s, op); }
      var a, b, c := Apply(queues, s, op, tunings[k], live);
      footprint := footprint + queues.Repr();
      byList, byHeap, byCalendar := Extend(byList, a), Extend(byHeap, b), Extend(byCalendar, c);
      s := Step(s, op).state;
    }
    TraceEnd(s, ops);
  }
}
