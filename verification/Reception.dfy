/**
 The receiving side of the ns-2 `MacTdma`, as a state machine over what it hears. The log of all
 arrivals and the list of deliveries record what has happened; the receiver itself keeps neither.
 */
module Reception {
  import opened Options

  const BROADCAST: nat := 0xFFFF_FFFF

  /** A frame as the receiver sees it: power, capture threshold, time on the air and destination. */
  datatype Frame = Frame(power: real, threshold: real, duration: real, dst: nat)

  predicate FrameOk(f: Frame) { 0.0 < f.power && 0.0 <= f.duration }

  datatype RxState = Idle | Recv | Coll | Busy

  /** What became of an arriving frame. */
  datatype Fate = Begun | Captured | Collided | Deaf

  datatype Arrival = Arrival(frame: Frame, at: real, fate: Fate)

  function End(a: Arrival): real { a.at + a.frame.duration }

  /** The frame keeps the receiver occupied. */
  predicate Counts(a: Arrival) { a.fate == Begun || a.fate == Collided }

  /** The new frame is ignored in favour of the one being received. */
  predicate Weaker(current: Frame, f: Frame)
    requires f.power != 0.0
  {
    current.power / f.power >= f.threshold
  }

  /** `first` is the place in the log of the arrival that ended the last idle time. */
  datatype State = State(index: nat, clock: real, rx: RxState, current: Option<Frame>, timer: Option<real>,
                         sending: bool, radio: bool, log: seq<Arrival>, first: nat, delivered: seq<nat>)

  function Start(index: nat): State { State(index, 0.0, Idle, None, None, false, true, [], 0, []) }

  datatype Event = Advance(to: real) | Hear(frame: Frame) | Fire | Sending(on: bool) | Radio(on: bool)

  /** The scheduler never passes the end of the receive timer, and fires it then. */
  predicate Enabled(s: State, e: Event) {
    match e
    case Advance(to) => s.clock <= to && (s.timer.Some? ==> to <= s.timer.value)
    case Hear(f) => FrameOk(f) && (s.rx != Idle ==> s.current.Some? && s.timer.Some?)
    case Fire => s.timer == Some(s.clock) && s.current.Some?
    case _ => true
  }

  function Logged(s: State, f: Frame, fate: Fate): State { s.(log := s.log + [Arrival(f, s.clock, fate)]) }

  /** `collision`: the frame that lasts longer is the one the timer waits for. */
  function Collide(s: State, f: Frame): State
    requires s.timer.Some?
  {
    var t := Logged(s, f, Collided);
    if s.timer.value - s.clock < f.duration then t.(rx := Coll, current := Some(f), timer := Some(s.clock + f.duration))
    else t.(rx := if s.rx == Recv then Coll else s.rx)
  }

  /** `sendUp`. */
  function Heard(s: State, f: Frame): State
    requires Enabled(s, Hear(f))
  {
    if !s.radio || s.sending then Logged(s, f, Deaf)
    else if s.rx == Idle then
      Logged(s, f, Begun).(rx := Recv, current := Some(f), timer := Some(s.clock + f.duration), first := |s.log|)
    else if Weaker(s.current.value, f) then Logged(s, f, Captured)
    else Collide(s, f)
  }

  /** `recvHandler`, when the timer fires. */
  function Fired(s: State): State
    requires Enabled(s, Fire)
  {
    var t := s.(rx := Idle, timer := None);
    if s.rx != Coll && s.rx != Busy && (s.current.value.dst == BROADCAST || s.current.value.dst == s.index)
    then t.(delivered := t.delivered + [s.first]) else t
  }

  function Step(s: State, e: Event): State
    requires Enabled(s, e)
  {
    match e
    case Advance(to) => s.(clock := to)
    case Hear(f) => Heard(s, f)
    case Fire => Fired(s)
    case Sending(on) => s.(sending := on)
    case Radio(on) => s.(radio := on)
  }

  // ----- What holds in every reachable state -----

  /** The receiver is occupied exactly while its timer runs, and it is never in state `Busy`. */
  ghost predicate Occupied(s: State) {
    && s.rx != Busy
    && (s.rx != Idle <==> s.timer.Some?)
    && (s.rx != Idle ==> s.current.Some? && s.clock <= s.timer.value && s.first < |s.log|)
  }

  /** The timer runs until the latest end of the frames since the last idle time that were not captured. */
  ghost predicate Latest(s: State)
    requires Occupied(s)
  {
    s.rx != Idle ==>
      && (forall i :: s.first <= i < |s.log| && Counts(s.log[i]) ==> End(s.log[i]) <= s.timer.value)
      && (exists i :: s.first <= i < |s.log| && Counts(s.log[i]) && End(s.log[i]) == s.timer.value
                      && s.current == Some(s.log[i].frame))
  }

  /** Frames before the last idle time are over; the log is in the order of time. */
  ghost predicate Past(s: State) {
    && (forall i :: 0 <= i < |s.log| ==> s.log[i].at <= s.clock && FrameOk(s.log[i].frame))
    && (forall i, j :: 0 <= i < j < |s.log| ==> s.log[i].at <= s.log[j].at)
    && (s.rx == Idle ==> forall i :: 0 <= i < |s.log| && Counts(s.log[i]) ==> End(s.log[i]) <= s.clock)
    && (s.rx != Idle && s.first < |s.log| ==>
          forall i :: 0 <= i < s.first && Counts(s.log[i]) ==> End(s.log[i]) <= s.log[s.first].at)
  }

  /** While a frame is being received, all that came since was captured by it or not heard. */
  ghost predicate Alone(s: State) {
    s.rx != Idle && s.first < |s.log| ==>
      && s.log[s.first].fate == Begun
      && (s.rx == Recv ==> s.current == Some(s.log[s.first].frame) && s.timer == Some(End(s.log[s.first])))
      && (s.rx == Recv <==> forall i :: s.first < i < |s.log| ==> Shut(s.log[s.first], s.log[i]))
  }

  /** Not heard, or captured with `a` at least the capture threshold times as strong. */
  ghost predicate Shut(a: Arrival, b: Arrival) {
    b.fate == Deaf || (b.fate == Captured && b.frame.threshold * b.frame.power <= a.frame.power)
  }

  ghost predicate Overlap(a: Arrival, b: Arrival) { a.at < End(b) && b.at < End(a) }

  /**
   Arrival `k` was received without disturbance: whatever else was on the air meanwhile was not
   heard, or was captured, by this frame if it came later and by a previous one if it came earlier.
   */
  ghost predicate Clear(log: seq<Arrival>, k: nat)
    requires k < |log|
  {
    && log[k].fate == Begun
    && (forall j :: 0 <= j < k && Overlap(log[k], log[j]) ==> log[j].fate == Deaf || log[j].fate == Captured)
    && (forall j :: k < j < |log| && Overlap(log[k], log[j]) ==> Shut(log[k], log[j]))
  }

  ghost predicate Deliveries(s: State) {
    forall d :: 0 <= d < |s.delivered| ==>
      s.delivered[d] < |s.log| && Clear(s.log, s.delivered[d]) && End(s.log[s.delivered[d]]) <= s.clock
  }

  ghost predicate Sound(s: State) { Occupied(s) && Latest(s) && Past(s) && Alone(s) && Deliveries(s) }
}
