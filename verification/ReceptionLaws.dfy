/** The receiver's laws hold in every state it can get into. */
module ReceptionLaws {
  import opened Options
  import opened Reception

  /** What has been heard so far stays in the log, and the clock stands. */
  lemma HeardLog(s: State, f: Frame)
    requires Enabled(s, Hear(f))
    ensures var t := Heard(s, f);
      && |t.log| == |s.log| + 1 && t.log[..|s.log|] == s.log
      && t.log[|s.log|].at == s.clock && t.log[|s.log|].frame == f
      && t.clock == s.clock && t.delivered == s.delivered && (s.rx != Idle ==> t.first == s.first)
  {
  }

  /** Dividing by the power of the new frame asks whether the other one exceeds it by the threshold. */
  lemma WeakerIff(current: Frame, f: Frame)
    requires FrameOk(f)
    ensures Weaker(current, f) <==> f.threshold * f.power <= current.power
  {
    var q := current.power / f.power;
    assert q * f.power == current.power;
    if f.threshold <= q { assert f.threshold * f.power <= q * f.power; }
    else { assert q * f.power < f.threshold * f.power; }
  }

  /**
   The fate of an arriving frame: deaf, begun if the receiver is idle, and else captured if and only if
   the frame then current is at least the arriving one's threshold times as strong as it.
   */
  lemma FateOfArrival(s: State, f: Frame)
    requires Enabled(s, Hear(f))
    ensures var t := Heard(s, f); var a := t.log[|s.log|];
      && (a.fate == Deaf <==> !s.radio || s.sending)
      && (a.fate == Begun <==> s.radio && !s.sending && s.rx == Idle)
      && (a.fate == Captured <==>
            s.radio && !s.sending && s.rx != Idle && f.threshold * f.power <= s.current.value.power)
      && (a.fate == Collided <==>
            s.radio && !s.sending && s.rx != Idle && s.current.value.power < f.threshold * f.power)
  {
    hide Weaker;
    if s.rx != Idle { WeakerIff(s.current.value, f); }
  }

  lemma HeardLatest(s: State, f: Frame)
    requires Sound(s) && Enabled(s, Hear(f))
    ensures Occupied(Heard(s, f)) && Latest(Heard(s, f))
  {
    hide Past, Deliveries, Weaker;
    var t := Heard(s, f);
    HeardLog(s, f);
    var n := |s.log|;
    if t.rx != Idle {
      if t.timer != s.timer {
        assert Counts(t.log[n]) && End(t.log[n]) == t.timer.value && t.current == Some(t.log[n].frame);
      } else {
        var i :| && s.first <= i < n && Counts(s.log[i])
                 && End(s.log[i]) == s.timer.value && s.current == Some(s.log[i].frame);
        assert t.log[i] == s.log[i];
      }
    }
  }

  lemma HeardPast(s: State, f: Frame)
    requires Sound(s) && Enabled(s, Hear(f))
    ensures Past(Heard(s, f))
  {
    hide Latest, Deliveries, Alone, Weaker;
    var t, n := Heard(s, f), |s.log|;
    HeardLog(s, f);
    assert forall i :: 0 <= i < n ==> t.log[i] == s.log[i];
  }

  lemma HeardAlone(s: State, f: Frame)
    requires Sound(s) && Enabled(s, Hear(f))
    ensures Alone(Heard(s, f))
  {
    hide Latest, Deliveries, Past, Weaker;
    var t, n := Heard(s, f), |s.log|;
    HeardLog(s, f);
    FateOfArrival(s, f);
    assert forall i :: 0 <= i < n ==> t.log[i] == s.log[i];
    if s.rx != Idle {
      var a := s.log[s.first];
      assert t.rx == Recv <==> s.rx == Recv && t.log[n].fate != Collided;
      assert s.rx == Recv ==> (t.log[n].fate != Collided <==> Shut(a, t.log[n]));
      assert (forall i :: s.first < i < n + 1 ==> Shut(a, t.log[i])) <==>
             (forall i :: s.first < i < n ==> Shut(a, s.log[i])) && Shut(a, t.log[n]);
    }
  }

  /** Whatever comes after a frame is over does not overlap it. */
  lemma ClearLater(log: seq<Arrival>, k: nat, a: Arrival)
    requires k < |log| && Clear(log, k) && End(log[k]) <= a.at
    ensures Clear(log + [a], k)
  {
    hide Shut;
    assert forall j :: 0 <= j < |log| ==> (log + [a])[j] == log[j];
  }

  lemma HeardDeliveries(s: State, f: Frame)
    requires Sound(s) && Enabled(s, Hear(f))
    ensures Deliveries(Heard(s, f))
  {
    hide Latest, Alone, Past, Weaker, Clear, End;
    var t, n := Heard(s, f), |s.log|;
    HeardLog(s, f);
    assert t.log == s.log + [t.log[n]];
    forall d | 0 <= d < |t.delivered|
      ensures t.delivered[d] < |t.log| && Clear(t.log, t.delivered[d]) && End(t.log[t.delivered[d]]) <= t.clock
    {
      ClearLater(s.log, s.delivered[d], t.log[n]);
    }
  }

  /** A frame that is received to its end is clear. */
  lemma ReceivedClear(s: State)
    requires Sound(s) && s.rx == Recv
    ensures Clear(s.log, s.first)
  {
    hide Latest, Deliveries, Weaker;
    forall j | 0 <= j < s.first && Overlap(s.log[s.first], s.log[j])
      ensures s.log[j].fate == Deaf || s.log[j].fate == Captured
    {
      assert !Counts(s.log[j]);
    }
  }

  lemma FiredSound(s: State)
    requires Sound(s) && Enabled(s, Fire)
    ensures Sound(Fired(s))
    ensures Fired(s).delivered ==
      s.delivered + if (forall i :: s.first < i < |s.log| ==> Shut(s.log[s.first], s.log[i]))
                       && s.log[s.first].frame.dst in {BROADCAST, s.index} then [s.first] else []
  {
    hide Weaker, Clear, Shut;
    var t := Fired(s);
    if s.rx == Recv { ReceivedClear(s); }
    forall i | 0 <= i < |t.log| && Counts(t.log[i]) ensures End(t.log[i]) <= t.clock {
      if i < s.first { assert End(s.log[i]) <= s.log[s.first].at; }
    }
    forall d | 0 <= d < |t.delivered|
      ensures t.delivered[d] < |t.log| && Clear(t.log, t.delivered[d]) && End(t.log[t.delivered[d]]) <= t.clock
    {
    }
  }

  lemma AdvanceSound(s: State, to: real)
    requires Sound(s) && Enabled(s, Advance(to))
    ensures Sound(s.(clock := to))
  {
    hide Weaker, Clear, Shut;
  }

  /** Every step keeps the laws. */
  lemma StepSound(s: State, e: Event)
    requires Sound(s) && Enabled(s, e)
    ensures Sound(Step(s, e))
  {
    hide Occupied, Latest, Past, Alone, Deliveries, Heard, Fired;
    match e
    case Hear(f) =>
      HeardLatest(s, f);
      HeardPast(s, f);
      HeardAlone(s, f);
      HeardDeliveries(s, f);
    case Fire => FiredSound(s);
    case Advance(to) => AdvanceSound(s, to);
    case Sending(on) => ToggleSound(s, on, s.radio);
    case Radio(on) => ToggleSound(s, s.sending, on);
  }

  lemma ToggleSound(s: State, sending: bool, radio: bool)
    requires Sound(s)
    ensures Sound(s.(sending := sending, radio := radio))
  {
    hide Weaker, Clear, Shut;
  }

  /** The events can all happen, one after the other. */
  ghost predicate Runs(s: State, es: seq<Event>)
    decreases |es|
  {
    es == [] || (Enabled(s, es[0]) && Runs(Step(s, es[0]), es[1..]))
  }

  ghost function Final(s: State, es: seq<Event>): State
    requires Runs(s, es)
    decreases |es|
  {
    if es == [] then s else Final(Step(s, es[0]), es[1..])
  }

  lemma {:induction false} RunSound(s: State, es: seq<Event>)
    requires Sound(s) && Runs(s, es)
    ensures Sound(Final(s, es))
    decreases |es|
  {
    hide Sound, Step, Enabled;
    if es != [] {
      StepSound(s, es[0]);
      RunSound(Step(s, es[0]), es[1..]);
    }
  }

  /** Every state that a receiver can get into is sound. */
  lemma ReachedSound(index: nat, es: seq<Event>)
    requires Runs(Start(index), es)
    ensures Sound(Final(Start(index), es))
  {
    assert Sound(Start(index));
    RunSound(Start(index), es);
  }

  /**
   A frame captured earlier may outlast the one that captured it and be stronger than the next:
   the receiver has forgotten it, and delivers a frame that a stronger one overlaps.
   */
  lemma ForgottenCapture()
    ensures exists es :: Runs(Start(0), es) && var s := Final(Start(0), es);
      && s.delivered == [0, 2] && |s.log| == 3
      && Overlap(s.log[2], s.log[1]) && s.log[1].fate == Captured && s.log[2].frame.power < s.log[1].frame.power
  {
    hide Runs, Final, Step, Enabled;
    FirstFrame();
    NextFrame();
    ChainEnd(Delivered);
    Chain(Ending, Fire, []);
    var last: seq<Event> := [Fire];
    assert last + [] == last;
    Chain(Beginning, Advance(3.0), [Fire]);
    Chain(Resting, Hear(Weak), [Advance(3.0)] + [Fire]);
    var rest := [Hear(Weak)] + ([Advance(3.0)] + [Fire]);
    Chain(Full, Fire, rest);
    Chain(Capturing, Advance(2.0), [Fire] + rest);
    Chain(Receiving, Hear(Long), [Advance(2.0)] + ([Fire] + rest));
    var es := [Hear(Long)] + ([Advance(2.0)] + ([Fire] + rest));
    Chain(Start(0), Hear(Strong), es);
    assert Runs(Start(0), [Hear(Strong)] + es) && Final(Start(0), [Hear(Strong)] + es) == Delivered;
  }

  const Strong := Frame(100.0, 10.0, 2.0, 0)
  const Long := Frame(2.0, 10.0, 9.0, 0)
  const Weak := Frame(1.0, 10.0, 1.0, 0)
  const Heard2 := [Arrival(Strong, 0.0, Begun), Arrival(Long, 0.0, Captured)]
  const Heard3 := Heard2 + [Arrival(Weak, 2.0, Begun)]
  const Receiving := State(0, 0.0, Recv, Some(Strong), Some(2.0), false, true, [Arrival(Strong, 0.0, Begun)], 0, [])
  const Capturing := Receiving.(log := Heard2)
  const Full := Capturing.(clock := 2.0)
  const Resting := Full.(rx := Idle, timer := None, delivered := [0])
  const Beginning := State(0, 2.0, Recv, Some(Weak), Some(3.0), false, true, Heard3, 2, [0])
  const Ending := Beginning.(clock := 3.0)
  const Delivered := Ending.(rx := Idle, timer := None, delivered := [0, 2])

  lemma FirstFrame()
    ensures Enabled(Start(0), Hear(Strong)) && Step(Start(0), Hear(Strong)) == Receiving
    ensures Enabled(Receiving, Hear(Long)) && Step(Receiving, Hear(Long)) == Capturing
    ensures Enabled(Capturing, Advance(2.0)) && Step(Capturing, Advance(2.0)) == Full
    ensures Enabled(Full, Fire) && Step(Full, Fire) == Resting
  {
  }

  lemma NextFrame()
    ensures Enabled(Resting, Hear(Weak)) && Step(Resting, Hear(Weak)) == Beginning
    ensures Enabled(Beginning, Advance(3.0)) && Step(Beginning, Advance(3.0)) == Ending
    ensures Enabled(Ending, Fire) && Step(Ending, Fire) == Delivered
  {
  }

  lemma ChainEnd(s: State)
    ensures Runs(s, []) && Final(s, []) == s
  {
  }

  lemma Chain(s: State, e: Event, es: seq<Event>)
    requires Enabled(s, e) && Runs(Step(s, e), es)
    ensures Runs(s, [e] + es) && Final(s, [e] + es) == Final(Step(s, e), es)
  {
    assert ([e] + es)[1..] == es;
  }

  // ----- When a delivered frame outdoes everything it overlaps -----

  /** Every other frame on the air meanwhile that the node could hear was captured as weaker than this very one. */
  ghost predicate Outdoes(log: seq<Arrival>, k: nat)
    requires k < |log|
  {
    forall j :: 0 <= j < |log| && j != k && Overlap(log[k], log[j]) ==> Shut(log[k], log[j])
  }

  /** When it begins, every frame captured before and still on the air is weaker than it. */
  ghost predicate NoneForgotten(log: seq<Arrival>, k: nat)
    requires k < |log|
  {
    forall j :: 0 <= j < k && log[j].fate == Captured && Overlap(log[k], log[j]) ==> Shut(log[k], log[j])
  }

  /** For every delivery of every run, the one holds if and only if the other does. */
  lemma OutdoesIff(index: nat, es: seq<Event>, d: nat)
    requires Runs(Start(index), es) && d < |Final(Start(index), es).delivered|
    ensures var s := Final(Start(index), es);
      s.delivered[d] < |s.log| && (Outdoes(s.log, s.delivered[d]) <==> NoneForgotten(s.log, s.delivered[d]))
  {
    hide Overlap, Weaker, Final;
    ReachedSound(index, es);
    var s := Final(Start(index), es);
    assert Clear(s.log, s.delivered[d]);
  }

  /** If the event is a frame that is captured, the frame is over when the timer fires. */
  predicate InTime(s: State, e: Event)
    requires Enabled(s, e)
  {
    e.Hear? && s.radio && !s.sending && s.rx != Idle && e.frame.threshold * e.frame.power <= s.current.value.power ==>
      s.clock + e.frame.duration <= s.timer.value
  }

  /** No frame of the run outlasts the timer it is captured under. */
  ghost predicate AllInTime(s: State, es: seq<Event>)
    requires Runs(s, es)
    decreases |es|
  {
    es == [] || (InTime(s, es[0]) && AllInTime(Step(s, es[0]), es[1..]))
  }

  /** Captured frames are over by the time the timer fires, and those before the last idle time are over. */
  ghost predicate Brief(s: State) {
    forall i :: 0 <= i < |s.log| && s.log[i].fate == Captured ==>
      && (s.rx == Idle ==> End(s.log[i]) <= s.clock)
      && (s.rx != Idle && s.timer.Some? && s.first < |s.log| ==>
            End(s.log[i]) <= if i < s.first then s.log[s.first].at else s.timer.value)
  }

  /** No captured frame reaches into one that begins later. */
  ghost predicate Parted(s: State) {
    forall i, k :: 0 <= i < k < |s.log| && s.log[i].fate == Captured && s.log[k].fate == Begun ==>
      End(s.log[i]) <= s.log[k].at
  }

  lemma StepBrief(s: State, e: Event)
    requires Sound(s) && Brief(s) && Parted(s) && Enabled(s, e) && InTime(s, e)
    ensures Brief(Step(s, e)) && Parted(Step(s, e))
  {
    hide Latest, Alone, Deliveries, Weaker;
    if e.Hear? {
      HeardLog(s, e.frame);
      FateOfArrival(s, e.frame);
    }
    var t := Step(s, e);
    assert forall i :: 0 <= i < |s.log| ==> t.log[i] == s.log[i];
  }

  lemma {:induction false} RunBrief(s: State, es: seq<Event>)
    requires Sound(s) && Brief(s) && Parted(s) && Runs(s, es) && AllInTime(s, es)
    ensures Parted(Final(s, es))
    decreases |es|
  {
    hide Sound, Brief, Parted, Step, Enabled, InTime;
    if es != [] {
      StepSound(s, es[0]);
      StepBrief(s, es[0]);
      RunBrief(Step(s, es[0]), es[1..]);
    }
  }

  /**
   If no captured frame outlasts the timer it is captured under, every delivered frame outdoes all that
   it overlaps.
   */
  lemma AllOutdo(index: nat, es: seq<Event>, d: nat)
    requires Runs(Start(index), es) && AllInTime(Start(index), es) && d < |Final(Start(index), es).delivered|
    ensures var s := Final(Start(index), es); s.delivered[d] < |s.log| && Outdoes(s.log, s.delivered[d])
  {
    hide Overlap, Weaker, Final, Outdoes, Shut;
    assert Sound(Start(index)) && Brief(Start(index)) && Parted(Start(index));
    RunBrief(Start(index), es);
    ReachedSound(index, es);
    OutdoesIff(index, es, d);
    var s := Final(Start(index), es);
    var k := s.delivered[d];
    assert Clear(s.log, k);
    forall j | 0 <= j < k && s.log[j].fate == Captured ensures !Overlap(s.log[k], s.log[j]) {
      NoOverlap(s.log[j], s.log[k]);
    }
  }

  lemma NoOverlap(a: Arrival, b: Arrival)
    requires End(a) <= b.at
    ensures !Overlap(b, a)
  {
  }

  // ----- What the log alone says of every fate and every delivery -----

  /** Of all counted frames before `i`, arrival `j` ends last, and it is not over when `i` arrives. */
  ghost predicate Governs(log: seq<Arrival>, j: nat, i: nat)
    requires i < |log|
  {
    && j < i && Counts(log[j]) && log[i].at <= End(log[j])
    && forall m :: 0 <= m < i && Counts(log[m]) ==> End(log[m]) <= End(log[j])
  }

  /**
   A frame begins only when all counted frames are over; one that is captured or collides does so
   with the frame that then ends last, and its power and threshold decide which.
   */
  ghost predicate Judged(log: seq<Arrival>, i: nat)
    requires i < |log|
  {
    match log[i].fate
    case Deaf => true
    case Begun => forall m :: 0 <= m < i && Counts(log[m]) ==> End(log[m]) <= log[i].at
    case Captured =>
      exists j: nat :: Governs(log, j, i) && log[i].frame.threshold * log[i].frame.power <= log[j].frame.power
    case Collided =>
      exists j: nat :: Governs(log, j, i) && log[j].frame.power < log[i].frame.threshold * log[i].frame.power
  }

  ghost predicate AllJudged(log: seq<Arrival>) { forall i :: 0 <= i < |log| ==> Judged(log, i) }

  lemma JudgedStays(log: seq<Arrival>, a: Arrival, i: nat)
    requires i < |log| && Judged(log, i)
    ensures Judged(log + [a], i)
  {
    var all := log + [a];
    assert forall j :: 0 <= j < |log| ==> all[j] == log[j];
    if log[i].fate == Captured {
      var j: nat :| Governs(log, j, i) && log[i].frame.threshold * log[i].frame.power <= log[j].frame.power;
      assert Governs(all, j, i);
    } else if log[i].fate == Collided {
      var j: nat :| Governs(log, j, i) && log[j].frame.power < log[i].frame.threshold * log[i].frame.power;
      assert Governs(all, j, i);
    }
  }

  /** While the receiver is occupied, its current frame is the one that ends last. */
  lemma CurrentGoverns(s: State, a: Arrival) returns (j: nat)
    requires Sound(s) && s.rx != Idle && a.at == s.clock
    ensures j < |s.log| && Governs(s.log + [a], j, |s.log|) && Some(s.log[j].frame) == s.current
  {
    hide Alone, Deliveries, Clear;
    var all := s.log + [a];
    assert forall m :: 0 <= m < |s.log| ==> all[m] == s.log[m];
    j :| && s.first <= j < |s.log| && Counts(s.log[j])
         && End(s.log[j]) == s.timer.value && s.current == Some(s.log[j].frame);
    forall m | 0 <= m < |s.log| && Counts(all[m]) ensures End(all[m]) <= End(all[j]) {
      if m < s.first { assert End(s.log[m]) <= s.log[s.first].at <= s.clock; }
    }
  }

  lemma HeardJudged(s: State, f: Frame)
    requires Sound(s) && Enabled(s, Hear(f)) && AllJudged(s.log)
    ensures AllJudged(Heard(s, f).log)
  {
    hide Judged, Sound, Heard;
    HeardLog(s, f);
    FateOfArrival(s, f);
    var t, n := Heard(s, f), |s.log|;
    assert t.log == s.log + [t.log[n]];
    forall i | 0 <= i < n ensures Judged(t.log, i) { JudgedStays(s.log, t.log[n], i); }
    LastJudged(s, f, t.log[n]);
  }

  lemma LastJudged(s: State, f: Frame, a: Arrival)
    requires Sound(s) && Enabled(s, Hear(f)) && a.at == s.clock && a.frame == f
    requires a.fate == Begun ==> s.rx == Idle
    requires a.fate == Captured ==> s.rx != Idle && f.threshold * f.power <= s.current.value.power
    requires a.fate == Collided ==> s.rx != Idle && s.current.value.power < f.threshold * f.power
    ensures Judged(s.log + [a], |s.log|)
  {
    hide Latest, Alone, Deliveries, Governs;
    if a.fate == Begun {
      assert forall m :: 0 <= m < |s.log| ==> (s.log + [a])[m] == s.log[m];
    } else if a.fate != Deaf {
      var j := CurrentGoverns(s, a);
    }
  }

  /** No arrival after `k` and before the next beginning disturbed it. */
  ghost predicate Undisturbed(log: seq<Arrival>, k: nat)
    requires k < |log|
  {
    forall j :: k < j < |log| && NoneBegun(log, k, j) ==> Shut(log[k], log[j])
  }

  /** No frame begins after `k` up to `j`. */
  ghost predicate NoneBegun(log: seq<Arrival>, k: nat, j: nat)
    requires k <= j < |log|
  {
    forall i :: k < i <= j ==> log[i].fate != Begun
  }

  /** A frame that has begun and is over was delivered exactly if it was for the node and undisturbed. */
  ghost predicate AllDelivered(s: State) {
    && (forall k :: 0 <= k < |s.log| && s.log[k].fate == Begun && (s.rx == Idle || k < s.first) ==>
          (k in s.delivered <==> s.log[k].frame.dst in {BROADCAST, s.index} && Undisturbed(s.log, k)))
    && (forall k :: k in s.delivered ==>
          k < |s.log| && s.log[k].fate == Begun && (s.rx == Idle || k < s.first))
    && (s.rx != Idle ==> s.first < |s.log| && forall i :: s.first < i < |s.log| ==> s.log[i].fate != Begun)
  }

  lemma DisturbedOrNot(log: seq<Arrival>, a: Arrival, k: nat)
    requires k < |log| && (a.fate == Begun || a.fate == Deaf || !NoneBegun(log, k, |log| - 1))
    ensures Undisturbed(log + [a], k) <==> Undisturbed(log, k)
  {
    var all := log + [a];
    assert forall j :: 0 <= j < |log| ==> all[j] == log[j];
    forall j | k < j < |log| ensures NoneBegun(all, k, j) <==> NoneBegun(log, k, j) {}
    if a.fate == Captured || a.fate == Collided {
      var i :| k < i < |log| && log[i].fate == Begun;
      assert all[i].fate == Begun && !NoneBegun(all, k, |log|);
    }
  }

  lemma HeardDelivered(s: State, f: Frame)
    requires Sound(s) && Enabled(s, Hear(f)) && AllDelivered(s)
    ensures AllDelivered(Heard(s, f))
  {
    hide Latest, Past, Deliveries, Weaker, Undisturbed;
    HeardLog(s, f);
    FateOfArrival(s, f);
    var t, n := Heard(s, f), |s.log|;
    assert t.log == s.log + [t.log[n]] && forall i :: 0 <= i < n ==> t.log[i] == s.log[i];
    forall k | 0 <= k < n && s.log[k].fate == Begun && (s.rx == Idle || k < s.first)
      ensures Undisturbed(t.log, k) <==> Undisturbed(s.log, k)
    {
      assert s.rx != Idle ==> !NoneBegun(s.log, k, n - 1);
      DisturbedOrNot(s.log, t.log[n], k);
    }
  }

  lemma FiredDelivered(s: State)
    requires Sound(s) && Enabled(s, Fire) && AllDelivered(s)
    ensures AllDelivered(Fired(s)) && Fired(s).log == s.log
  {
    hide Latest, Past, Weaker, Clear;
    var t := Fired(s);
    FiredSound(s);
    assert Undisturbed(s.log, s.first) <==> forall i :: s.first < i < |s.log| ==> Shut(s.log[s.first], s.log[i]) by {
      assert forall j :: s.first < j < |s.log| ==> NoneBegun(s.log, s.first, j);
    }
    forall k | 0 <= k < |s.log| && s.log[k].fate == Begun ensures k <= s.first {}
  }

  lemma {:induction false} RunJudged(s: State, es: seq<Event>)
    requires Sound(s) && AllJudged(s.log) && AllDelivered(s) && Runs(s, es)
    ensures AllJudged(Final(s, es).log) && AllDelivered(Final(s, es))
    decreases |es|
  {
    hide Sound, AllJudged, Heard, Fired, Undisturbed;
    if es != [] {
      StepSound(s, es[0]);
      match es[0] {
        case Hear(f) =>
          HeardJudged(s, f);
          HeardDelivered(s, f);
        case Fire => FiredDelivered(s);
        case _ =>
      }
      RunJudged(Step(s, es[0]), es[1..]);
    }
  }

  /**
   Over every run, the log alone accounts for every fate and every delivery: which frames were captured
   and which collided by the powers and ends on the air, and that exactly the undisturbed ones were delivered.
   */
  lemma ReachedJudged(index: nat, es: seq<Event>)
    requires Runs(Start(index), es)
    ensures var s := Final(Start(index), es); AllJudged(s.log) && AllDelivered(s)
  {
    assert Sound(Start(index));
    RunJudged(Start(index), es);
  }
}
