/** One detector of `dfs_pri_detector.c`: a bounded queue of pulses and the sequences they may form. */
module PriDetector {
  import opened Options
  import opened Radar
  import opened Pools
  import opened PriSequences

  /** `pulse_event`. */
  datatype Pulse = Pulse(ts: nat, width: nat, chirp: bool)

  /** The pulse is taken up, going by its width, its distance from the last one and its chirp. */
  predicate Accepts(rs: Specs, lastTs: nat, e: Pulse) {
    && rs.widthMin <= e.width <= rs.widthMax
    && rs.tolerance <= (e.ts as int - lastTs) % TWO64
    && (rs.chirp ==> e.chirp)
  }

  class Detector {
    const rs: Specs
    const pools: Pools
    const windowSize: nat
    const maxCount: nat
    ghost const id: nat
    var lastTs: nat
    var sequences: seq<Sequence>
    var pulses: seq<nat>
    var count: nat
    ghost var accepted: set<nat>

    /** What holds of the queue and the sequences between any two calls. */
    ghost predicate Valid()
      reads this
      ensures Valid() ==> Configured()
    {
      && Configured() && lastTs < TWO64
      && count == |pulses| && QueueOk(pulses, rs.tolerance, windowSize, maxCount)
      && (pulses != [] ==> pulses[0] <= lastTs) && Within(pulses, accepted)
      && AllFounded(rs, sequences, accepted, lastTs) && UpTo(accepted, lastTs)
    }

    ghost predicate Configured() {
      SpecsOk(rs) && windowSize == rs.priMax * rs.ppb * rs.numPri && maxCount == 2 * rs.ppb
    }

    /** The pools account for exactly the elements this detector holds. */
    ghost predicate Booked()
      reads this, pools
    {
      pools.Valid() && pools.Holds(id, |pulses|, |sequences|)
    }

    /** Time goes on. */
    ghost predicate Timely(ts: nat)
      reads this
    {
      ts < TWO64 && (pulses != [] || sequences != [] || accepted != {} ==> lastTs <= ts)
    }

    /** The accounts of all other detectors stand. */
    twostate predicate OnlyMine()
      reads this, pools
    {
      && id < |old(pools.pulseLens)| && id < |old(pools.seqLens)|
      && pools.pulseLens == old(pools.pulseLens)[id := |pulses|]
      && pools.seqLens == old(pools.seqLens)[id := |sequences|]
      && pools.live == old(pools.live)
    }

    /** `pri_detector_init`. */
    constructor (specs: Specs, shared: Pools)
      requires SpecsOk(specs) && shared.Valid()
      modifies shared
      ensures Valid() && Booked() && rs == specs && pools == shared && Emptied() && lastTs == 0
      ensures id == |old(shared.live)| && shared.live == old(shared.live) + [true]
      ensures shared.pulseLens == old(shared.pulseLens) + [0] && shared.seqLens == old(shared.seqLens) + [0]
    {
      rs, pools := specs, shared;
      windowSize, maxCount := specs.priMax * specs.ppb * specs.numPri, 2 * specs.ppb;
      lastTs, sequences, pulses, count, accepted := 0, [], [], 0, {};
      ghost var k := shared.Register();
      id := k;
    }

    /** `pulse_queue_dequeue`. */
    method Dequeue() returns (more: bool)
      requires Booked() && count == |pulses|
      modifies this`pulses, this`count, pools
      ensures Booked() && OnlyMine() && count == |pulses| && more == (0 < count)
      ensures pulses == if old(pulses) == [] then [] else old(pulses)[..|old(pulses)| - 1]
    {
      if pulses != [] {
        pools.PutPulse(id);
        pulses := pulses[..|pulses| - 1];
        count := count - 1;
      }
      more := 0 < count;
    }

    /** `pulse_queue_check_window`. */
    method CheckWindow()
      requires Booked() && count == |pulses| && pulses != [] && pulses[0] == lastTs
      modifies this`pulses, this`count, pools
      ensures Booked() && OnlyMine() && count == |pulses|
      ensures pulses == Recent(old(pulses), lastTs as int - windowSize)
    {
      if count < 2 || lastTs <= windowSize { return; }
      var minValid := lastTs - windowSize;
      while pulses != [] && pulses[|pulses| - 1] < minValid
        invariant Booked() && OnlyMine() && count == |pulses|
        invariant Recent(pulses, minValid) == Recent(old(pulses), minValid)
        decreases |pulses|
      {
        var more := Dequeue();
      }
    }

    /** `pulse_queue_enqueue`; the element comes from the pool, or from memory if there is any. */
    method Enqueue(ts: nat, memory: bool) returns (ok: bool)
      requires Booked() && count == |pulses| < maxCount && lastTs == ts
      modifies this`pulses, this`count, this`lastTs, pools
      ensures Booked() && OnlyMine() && count == |pulses| && lastTs == ts
      ensures pulses == if ok then Enqueued(old(pulses), ts, windowSize, maxCount) else old(pulses)
      ensures ok <==> memory || 0 < old(pools.pulses.free)
    {
      hide Recent, Pools.Valid;
      ok := pools.GetPulse(id, memory);
      if !ok { return; }
      pulses := [ts] + pulses;
      count := count + 1;
      lastTs := ts;
      CheckWindow();
      if maxCount <= count {
        var more := Dequeue();
      }
    }

    /** `pseq_handler_add_to_existing_seqs`. */
    method Extend(ts: nat) returns (best: nat)
      requires Booked()
      modifies this`sequences, pools
      ensures Booked() && OnlyMine() && sequences == ExtendAll(rs, old(sequences), ts)
      ensures best == Longest(rs, old(sequences), ts)
    {
      hide Extended, ExtendAll, Longest, Pools.Valid;
      best := 0;
      var kept: seq<Sequence> := [];
      var ss := sequences;
      ExtendNone(rs, ss, ts);
      for i := 0 to |ss|
        modifies pools
        invariant kept == ExtendAll(rs, ss[..i], ts) && best == Longest(rs, ss[..i], ts)
        invariant pools.Valid() && pools.Holds(id, |pulses|, |kept| + |ss| - i)
        invariant pools.pulseLens == old(pools.pulseLens) && pools.live == old(pools.live)
        invariant pools.seqLens == old(pools.seqLens)[id := |kept| + |ss| - i]
      {
        ExtendOne(rs, ss, i, ts);
        var e := Extended(rs, ss[i], ts);
        match e
        case None => pools.PutSeq(id);
        case Some(s) =>
          kept := kept + [s];
          if ss[i].count < s.count && best < s.count { best := s.count; }
      }
      assert ss[..|ss|] == ss;
      sequences := kept;
    }

    /** `pseq_handler_create_sequences`; `memory` is the number of elements that can still be allocated. */
    method Create(ts: nat, minCount: nat, memory: nat) returns (ok: bool, left: nat)
      requires Booked() && SpecsOk(rs) && Fit(pulses, ts)
      modifies this`sequences, pools
      ensures Booked() && OnlyMine()
      ensures ok ==>
        sequences == Created(rs, pulses, ts, minCount, Reach(rs, pulses, ts, |pulses|)) + old(sequences)
      ensures |pulses| < memory ==> ok && 0 < left
    {
      hide Created, Reach, Candidate, SpecsOk, Duration, PriToUse, Pools.Valid, Descending;
      left := memory;
      var i := 0;
      CreatedNone(rs, pulses, ts, minCount);
      while i < |pulses|
        invariant i <= |pulses| && memory <= left + i && Booked() && OnlyMine()
        invariant sequences == Created(rs, pulses, ts, minCount, i) + old(sequences)
        invariant Reach(rs, pulses, ts, i) == i
      {
        var delta := Delta32(ts, pulses[i]);
        if TooFar(rs, delta) { break; }
        CreatedNext(rs, pulses, ts, minCount, i);
        if rs.priMin <= delta {
          var s := Build(rs, pulses, i, ts);
          if minCount < s.count {
            if pools.seqs.free == 0 && left == 0 { return false, 0; }
            left := if pools.seqs.free == 0 then left - 1 else left;
            ok := pools.GetSeq(id, true);
            sequences := [s] + sequences;
          }
        }
        i := i + 1;
      }
      ReachEnd(rs, pulses, ts, i, |pulses|);
      return true, left;
    }

    /** `pri_detector_reset`. */
    method Reset(ts: nat)
      requires Booked() && Configured() && ts < TWO64
      modifies this, pools
      ensures Valid() && Booked() && OnlyMine()
      ensures sequences == [] && pulses == [] && lastTs == ts && accepted == {}
    {
      while sequences != []
        invariant Booked() && OnlyMine()
        decreases |sequences|
      {
        pools.PutSeq(id);
        sequences := sequences[1..];
      }
      while pulses != []
        invariant Booked() && OnlyMine() && sequences == []
        decreases |pulses|
      {
        pools.PutPulse(id);
        pulses := pulses[1..];
      }
      count, lastTs, accepted := 0, ts, {};
    }

    /** `pri_detector_exit`. */
    method Exit()
      requires Booked() && Configured()
      modifies this, pools
      ensures pools.Valid() && id < |old(pools.live)| && pools.live == old(pools.live)[id := false]
      ensures pools.pulseLens == old(pools.pulseLens)[id := 0] && pools.seqLens == old(pools.seqLens)[id := 0]
    {
      Reset(0);
      pools.Deregister(id);
    }

    /** The end of `pri_detector_add_pulse`: a detection, or one more pulse in the queue. */
    method Settle(ts: nat, memory: bool) returns (r: Option<Sequence>)
      requires Valid() && Booked() && lastTs == ts && ts in accepted
      requires pulses != [] ==> pulses[0] + rs.tolerance <= ts
      modifies this`pulses, this`count, this`lastTs, pools
      ensures Valid() && Booked() && OnlyMine() && lastTs == ts && Settled(old(pulses), ts, r)
      ensures memory && r == None ==> pulses == Enqueued(old(pulses), ts, windowSize, maxCount)
    {
      hide Enqueued, AllFounded, AllBacked, QueueOk, Descending, FallsShort, Backed, Within, Pools.Valid;
      QueueGrows(pulses, rs, windowSize, maxCount, accepted, ts);
      r := CheckDetection(rs, sequences);
      if r == None {
        var queued := Enqueue(ts, memory);
      } else {
        IsFounded(rs, sequences, accepted, ts, r.value);
      }
    }

    /** What the pulse makes of the sequences: first of those there are, then of those there may be. */
    method Grow(ts: nat, memory: nat) returns (ok: bool, left: nat)
      requires Booked() && SpecsOk(rs) && Fit(pulses, ts)
      modifies this`sequences, this`lastTs, pools
      ensures Booked() && OnlyMine() && lastTs == ts
      ensures ok ==>
        sequences == Created(rs, pulses, ts, Longest(rs, old(sequences), ts), Reach(rs, pulses, ts, |pulses|))
                     + ExtendAll(rs, old(sequences), ts)
      ensures |pulses| < memory ==> ok && 0 < left
    {
      hide Created, ExtendAll, Longest, Reach, SpecsOk, Pools.Valid, Fit;
      lastTs := ts;
      var best := Extend(ts);
      ok, left := Create(ts, best, memory);
    }

    /** The part of `pri_detector_add_pulse` that follows the filters. */
    method TakeUp(ts: nat, memory: nat) returns (r: Option<Sequence>)
      requires Valid() && Booked() && Timely(ts)
      requires pulses != [] || sequences != [] || accepted != {} ==> lastTs + rs.tolerance <= ts
      modifies this, pools
      ensures Valid() && Booked() && OnlyMine() && lastTs == ts
      ensures Emptied() || (Advanced(old(sequences), old(pulses), old(accepted), ts) && Settled(old(pulses), ts, r))
      ensures Emptied() ==> r == None
      ensures r.Some? && Young(old(pulses), ts) ==> Backed(rs, r.value, accepted)
      ensures |old(pulses)| < memory ==> !Emptied()
      ensures |old(pulses)| < memory && r == None ==> pulses == Enqueued(old(pulses), ts, windowSize, maxCount)
    {
      hide Created, Candidate, ExtendAll, Longest, AllFounded, AllBacked, Reach, Founded, QueueOk, SpecsOk, Descending;
      hide Within, Pools.Valid, Fit, Over, Young, Backed, FallsShort, Enqueued, UpTo;
      ghost var ss, q, known, now := sequences, pulses, accepted, lastTs;
      QueueFits(q, rs, windowSize, maxCount, now, ts);
      GrownFounded(rs, ss, q, known, now, ts);
      var ok, left := Grow(ts, memory);
      if !ok {
        Reset(ts);
        return None;
      }
      accepted := accepted + {ts};
      WithinMore(q, known, ts);
      UpToMore(known, now, ts);
      r := Settle(ts, 0 < left);
      if r.Some? && Young(q, ts) { IsBacked(rs, sequences, accepted, r.value); }
    }

    /**
     `pri_detector_add_pulse`. A pulse that is not accepted changes nothing. With
     room for one element more than there are pulses, nothing is forgotten.
     */
    method AddPulse(e: Pulse, memory: nat) returns (r: Option<Sequence>)
      requires Valid() && Booked() && Timely(e.ts)
      modifies this, pools
      ensures Valid() && Booked() && OnlyMine()
      ensures accepted <= old(accepted) + {e.ts}
      ensures if Accepts(rs, old(lastTs), e) then lastTs == e.ts
              else r == None && lastTs == old(lastTs) && sequences == old(sequences) && pulses == old(pulses)
                   && accepted == old(accepted)
      ensures Accepts(rs, old(lastTs), e) && !Emptied() ==>
              Advanced(old(sequences), old(pulses), old(accepted), e.ts) && Settled(old(pulses), e.ts, r)
      ensures Emptied() ==> r == None
      ensures Accepts(rs, old(lastTs), e) && |old(pulses)| < memory ==>
              !Emptied() && (r == None ==> pulses == Enqueued(old(pulses), e.ts, windowSize, maxCount))
      ensures r.Some? ==> rs.ppbThresh <= r.value.count && r.value.falses <= r.value.count * rs.numPri
      ensures r.Some? ==> !FallsShort(rs, r.value) && Founded(rs, r.value, accepted)
      ensures r.Some? ==> accepted == old(accepted) + {e.ts}
      ensures Accepts(rs, old(lastTs), e) && r == None ==>
              forall i :: 0 <= i < |sequences| ==> FallsShort(rs, sequences[i])
      ensures r.Some? && Young(old(pulses), e.ts) ==> Backed(rs, r.value, accepted)
    {
      hide Created, ExtendAll, Longest, AllFounded, AllBacked, Reach, Founded, QueueOk, Descending;
      hide Within, Backed, Pools.Valid, Enqueued, Young, UpTo;
      if e.width < rs.widthMin || rs.widthMax < e.width { return None; }
      if (e.ts as int - lastTs) % TWO64 < rs.tolerance { return None; }
      if rs.chirp && !e.chirp { return None; }
      QueueFits(pulses, rs, windowSize, maxCount, lastTs, e.ts);
      r := TakeUp(e.ts, memory);
    }

    ghost predicate Emptied() reads this { sequences == [] && pulses == [] && accepted == {} }

    /** All sequences got their due from the pulse. */
    ghost predicate Advanced(ss: seq<Sequence>, q: seq<nat>, known: set<nat>, ts: nat)
      requires SpecsOk(rs) && Fit(q, ts)
      reads this
    {
      && sequences == Created(rs, q, ts, Longest(rs, ss, ts), Reach(rs, q, ts, |q|)) + ExtendAll(rs, ss, ts)
      && accepted == known + {ts}
    }

    /** A sequence stands out, on accepted pulses alone; or none does, and the pulse is queued, memory permitting. */
    ghost predicate Settled(q: seq<nat>, ts: nat, r: Option<Sequence>)
      reads this
    {
      match r
      case Some(s) => s in sequences && !FallsShort(rs, s) && Founded(rs, s, accepted) && pulses == q
      case None =>
        && (forall i :: 0 <= i < |sequences| ==> FallsShort(rs, sequences[i]))
        && (pulses == q || pulses == Enqueued(q, ts, windowSize, maxCount))
    }
  }

  /** The queue is in order and ends before `ts`. */
  ghost predicate Fit(q: seq<nat>, ts: nat) {
    Descending(q, 1) && ts < TWO64 && forall i :: 0 <= i < |q| ==> q[i] <= ts
  }

  lemma CreatedNone(rs: Specs, q: seq<nat>, ts: nat, minCount: nat)
    requires SpecsOk(rs) && Fit(q, ts)
    ensures Created(rs, q, ts, minCount, 0) == [] && Reach(rs, q, ts, 0) == 0
  {
  }

  lemma CreatedNext(rs: Specs, q: seq<nat>, ts: nat, minCount: nat, i: nat)
    requires SpecsOk(rs) && Fit(q, ts) && i < |q| && Reach(rs, q, ts, i) == i && !TooFar(rs, Delta32(ts, q[i]))
    ensures Reach(rs, q, ts, i + 1) == i + 1 && Descending(q, 1) && q[i] <= ts < TWO64
    ensures var older, next := Created(rs, q, ts, minCount, i), Created(rs, q, ts, minCount, i + 1);
      if InRange(rs, Delta32(ts, q[i])) then
        && Duration(rs, PriToUse(rs, Delta32(ts, q[i]))) < TWO32
        && next == if minCount < Candidate(rs, q, i, ts).count then [Candidate(rs, q, i, ts)] + older else older
      else next == older
  {
    hide Candidate, PriToUse, Duration;
    if InRange(rs, Delta32(ts, q[i])) { FirstPair(rs, Delta32(ts, q[i])); }
  }

  /** The count of the longest sequence that the pulse made longer. */
  function Longest(rs: Specs, ss: seq<Sequence>, ts: nat): nat {
    if ss == [] then 0 else
    var best := Longest(rs, ss[..|ss| - 1], ts);
    match Extended(rs, ss[|ss| - 1], ts)
    case None => best
    case Some(s) => if ss[|ss| - 1].count < s.count && best < s.count then s.count else best
  }

  /** It is one that the pulse made longer, and no shorter than any other such. */
  lemma {:induction false} LongestIs(rs: Specs, ss: seq<Sequence>, ts: nat, s: Sequence)
    ensures s in ss && Extended(rs, s, ts).Some? && s.count < Extended(rs, s, ts).value.count ==>
      Extended(rs, s, ts).value.count <= Longest(rs, ss, ts)
    ensures Longest(rs, ss, ts) == 0 || exists x ::
      x in ss && Extended(rs, x, ts).Some? && x.count < Extended(rs, x, ts).value.count == Longest(rs, ss, ts)
  {
    hide Extended;
    if ss != [] {
      var p, l := ss[..|ss| - 1], ss[|ss| - 1];
      LongestIs(rs, p, ts, s);
      assert ss == p + [l];
      if Longest(rs, ss, ts) == Longest(rs, p, ts) != 0 {
        var x :| x in p && Extended(rs, x, ts).Some? && x.count < Extended(rs, x, ts).value.count == Longest(rs, p, ts);
        assert x in ss;
      }
    }
  }

  /** The sequences created: exactly the candidates at intervals in range that have more pulses than `minCount`. */
  lemma {:induction false} CreatedExactly(rs: Specs, q: seq<nat>, ts: nat, minCount: nat, n: nat, s: Sequence)
    requires SpecsOk(rs) && Fit(q, ts) && n <= |q|
    ensures s in Created(rs, q, ts, minCount, n) <==> exists i: nat :: i < n && Fathers(rs, q, ts, minCount, i, s)
  {
    hide Candidate, SpecsOk, Fathers;
    if 0 < n {
      CreatedExactly(rs, q, ts, minCount, n - 1, s);
      LastFathers(rs, q, ts, minCount, n, s);
    }
  }

  /** Pulse `i` of the queue and the new one found the sequence. */
  ghost predicate Fathers(rs: Specs, q: seq<nat>, ts: nat, minCount: nat, i: nat, s: Sequence)
    requires SpecsOk(rs) && Fit(q, ts) && i < |q|
  {
    && InRange(rs, Delta32(ts, q[i]))
    && (FirstPair(rs, Delta32(ts, q[i])); s == Candidate(rs, q, i, ts) && minCount < s.count)
  }

  lemma LastFathers(rs: Specs, q: seq<nat>, ts: nat, minCount: nat, n: nat, s: Sequence)
    requires SpecsOk(rs) && Fit(q, ts) && 0 < n <= |q|
    ensures s in Created(rs, q, ts, minCount, n) <==>
      s in Created(rs, q, ts, minCount, n - 1) || Fathers(rs, q, ts, minCount, n - 1, s)
  {
    hide Candidate, SpecsOk;
  }

  /**
   As long as time goes on, a pulse is taken up if its width fits, it is not too near the last one, and
   it has the chirp.
   */
  lemma AcceptedIff(rs: Specs, lastTs: nat, e: Pulse)
    requires lastTs <= e.ts < TWO64
    ensures Accepts(rs, lastTs, e) <==>
      !(e.width < rs.widthMin || rs.widthMax < e.width || e.ts < lastTs + rs.tolerance || (rs.chirp && !e.chirp))
  {
  }

  lemma ExtendNone(rs: Specs, ss: seq<Sequence>, ts: nat)
    ensures ExtendAll(rs, ss[..0], ts) == [] && Longest(rs, ss[..0], ts) == 0
  {
  }

  lemma ExtendOne(rs: Specs, ss: seq<Sequence>, i: nat, ts: nat)
    requires i < |ss|
    ensures var kept, best := ExtendAll(rs, ss[..i], ts), Longest(rs, ss[..i], ts);
      match Extended(rs, ss[i], ts)
      case None => ExtendAll(rs, ss[..i + 1], ts) == kept && Longest(rs, ss[..i + 1], ts) == best
      case Some(s) =>
        && ExtendAll(rs, ss[..i + 1], ts) == kept + [s]
        && Longest(rs, ss[..i + 1], ts) == if ss[i].count < s.count && best < s.count then s.count else best
  {
    hide Extended;
    assert ss[..i + 1][..i] == ss[..i];
  }

  lemma QueueFits(q: seq<nat>, rs: Specs, window: nat, limit: nat, now: nat, ts: nat)
    requires SpecsOk(rs) && QueueOk(q, rs.tolerance, window, limit) && ts < TWO64
    requires q != [] ==> q[0] <= now && now + rs.tolerance <= ts
    ensures Fit(q, ts) && Over(q, ts) && (q != [] ==> q[0] + rs.tolerance <= ts) && |q| < limit && 0 < rs.tolerance
  {
    forall i | 0 <= i < |q| ensures q[i] <= q[0] {}
  }

  /** The queued pulses come before `ts`. */
  ghost predicate Over(q: seq<nat>, ts: nat) { forall i :: 0 <= i < |q| ==> q[i] < ts }

  lemma GrownUpTo(q: seq<nat>, known: set<nat>, now: nat, ts: nat)
    requires Within(q, known) && UpTo(known, now) && (known != {} ==> now < ts)
    ensures Within(q, known + {ts}) && UpTo(known + {ts}, ts)
  {
  }

  lemma Both(rs: Specs, a: seq<Sequence>, b: seq<Sequence>, known: set<nat>, ts: nat)
    requires AllFounded(rs, a, known, ts) && AllFounded(rs, b, known, ts)
    ensures AllFounded(rs, a + b, known, ts)
    ensures AllBacked(rs, a, known) && AllBacked(rs, b, known) ==> AllBacked(rs, a + b, known)
  {
    hide Founded, Backed;
  }

  lemma GrownFounded(rs: Specs, ss: seq<Sequence>, q: seq<nat>, known: set<nat>, now: nat, ts: nat)
    requires SpecsOk(rs) && AllFounded(rs, ss, known, now) && Fit(q, ts) && Within(q, known)
    requires (ss != [] ==> now < ts) && (known != {} ==> now < ts) && UpTo(known, now)
    requires Over(q, ts)
    ensures var all := Created(rs, q, ts, Longest(rs, ss, ts), Reach(rs, q, ts, |q|)) + ExtendAll(rs, ss, ts);
      AllFounded(rs, all, known + {ts}, ts) && (Young(q, ts) ==> AllBacked(rs, all, known + {ts}))
  {
    hide Created, Backed, Founded, ExtendAll, Longest, Descending, Reach, Young, AllFounded, AllBacked, UpTo, Within;
    GrownUpTo(q, known, now, ts);
    ExtendAllBacked(rs, ss, ts, known, now);
    CreatedFounded(rs, q, ts, Longest(rs, ss, ts), Reach(rs, q, ts, |q|), known + {ts});
    Both(rs, Created(rs, q, ts, Longest(rs, ss, ts), Reach(rs, q, ts, |q|)), ExtendAll(rs, ss, ts), known + {ts}, ts);
  }

  lemma QueueGrows(q: seq<nat>, rs: Specs, window: nat, limit: nat, known: set<nat>, ts: nat)
    requires SpecsOk(rs) && QueueOk(q, rs.tolerance, window, limit) && limit == 2 * rs.ppb && Within(q, known)
    requires ts in known && (q != [] ==> q[0] + rs.tolerance <= ts)
    ensures var e := Enqueued(q, ts, window, limit);
      QueueOk(e, rs.tolerance, window, limit) && Within(e, known) && e != [] && e[0] == ts
    ensures |q| < limit
  {
    hide Enqueued;
    EnqueuedOk(q, ts, rs.tolerance, window, limit);
  }

  lemma UpToMore(known: set<nat>, now: nat, ts: nat)
    requires UpTo(known, now) && (known != {} ==> now <= ts)
    ensures UpTo(known + {ts}, ts)
  {
  }

  lemma WithinMore(q: seq<nat>, known: set<nat>, ts: nat)
    requires Within(q, known)
    ensures Within(q, known + {ts})
  {
  }

  lemma IsFounded(rs: Specs, ss: seq<Sequence>, known: set<nat>, now: nat, s: Sequence)
    requires AllFounded(rs, ss, known, now) && s in ss
    ensures Founded(rs, s, known)
  {
  }

  lemma IsBacked(rs: Specs, ss: seq<Sequence>, known: set<nat>, s: Sequence)
    requires AllBacked(rs, ss, known) && s in ss
    ensures Backed(rs, s, known)
  {
  }
}
