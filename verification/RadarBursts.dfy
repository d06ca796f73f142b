/**
 Detection is complete: a train of pulses that follows one interval, coming after a quiet time, is
 reported by the pulse that makes it as long as the pattern asks for.
 */
module RadarBursts {
  import opened Options
  import opened Radar
  import opened RadarTypes
  import opened Pools
  import opened PriSequences
  import opened PriDetector

  /** The interval that the first two pulses found. */
  function FoundedPri(rs: Specs, ts: seq<nat>): nat
    requires 2 <= |ts| && ts[0] <= ts[1]
  {
    PriToUse(rs, ts[1] - ts[0])
  }

  /**
   A train of pulses: the first interval lies in the range of the pattern, every later one is near a
   multiple of the interval founded so, and from the third pulse on all come within its duration.
   */
  ghost predicate Train(rs: Specs, ts: seq<nat>)
    requires SpecsOk(rs)
  {
    && 2 <= |ts| && ts[0] + rs.tolerance <= ts[1] < TWO64 && InRange(rs, ts[1] - ts[0])
    && var pri := FoundedPri(rs, ts);
    && ts[0] + Duration(rs, pri) < TWO64
    && (forall i :: 2 <= i < |ts| ==> ts[i - 1] + rs.tolerance <= ts[i] <= ts[0] + Duration(rs, pri))
    && (forall i :: 2 <= i < |ts| ==> NearMultiple(ts[i] - ts[i - 1], pri, rs.tolerance))
  }

  function Times(es: seq<Pulse>): (ts: seq<nat>)
    ensures |ts| == |es| && forall i :: 0 <= i < |es| ==> ts[i] == es[i].ts
  {
    seq(|es|, i requires 0 <= i < |es| => es[i].ts)
  }

  /** The pulses pass the filters for width and chirp. */
  predicate Shaped(rs: Specs, es: seq<Pulse>) {
    forall i :: 0 <= i < |es| ==> rs.widthMin <= es[i].width <= rs.widthMax && (rs.chirp ==> es[i].chirp)
  }

  /** All that is left of earlier pulses is overdue, though not by 2^32 microseconds. */
  ghost predicate Quiet(rs: Specs, ss: seq<Sequence>, q: seq<nat>, window: nat, ts: nat) {
    && (forall i :: 0 <= i < |ss| ==> ss[i].deadline < ts)
    && Young(q, ts) && (forall i :: 0 <= i < |q| ==> q[i] + window < ts && TooFar(rs, ts - q[i]))
  }

  // ---------- The first pulse ----------

  lemma {:induction false} OverdueGone(rs: Specs, ss: seq<Sequence>, ts: nat)
    requires forall i :: 0 <= i < |ss| ==> ss[i].deadline < ts
    ensures ExtendAll(rs, ss, ts) == []
  {
    hide Multiple;
    if ss != [] { OverdueGone(rs, ss[..|ss| - 1], ts); }
  }

  lemma {:induction false} NoneInReach(rs: Specs, q: seq<nat>, ts: nat, n: nat)
    requires n <= |q| && Young(q, ts) && forall i :: 0 <= i < |q| ==> TooFar(rs, ts - q[i])
    ensures Reach(rs, q, ts, n) == 0
  {
    hide TooFar;
    if 0 < n { NoneInReach(rs, q, ts, n - 1); }
  }

  lemma FirstAlone(rs: Specs, q: seq<nat>, window: nat, limit: nat, ts: nat)
    requires Descending(q, 1) && 2 <= limit && forall i :: 0 <= i < |q| ==> q[i] + window < ts
    ensures Enqueued(q, ts, window, limit) == [ts]
  {
    hide Recent;
    var all := [ts] + q;
    Prepended(q, ts, 1);
    RecentExact(all, ts as int - window);
    var r := Recent(all, ts as int - window);
    assert all[0] == ts;
    assert q != [] ==> all[1] == q[0];
  }

  /** After a quiet time the first pulse is queued alone. */
  lemma FirstPulse(rs: Specs, ss: seq<Sequence>, q: seq<nat>, window: nat, limit: nat, ts: nat)
    requires SpecsOk(rs) && Fit(q, ts) && Quiet(rs, ss, q, window, ts) && 2 <= limit
    ensures Created(rs, q, ts, Longest(rs, ss, ts), Reach(rs, q, ts, |q|)) + ExtendAll(rs, ss, ts) == []
    ensures Enqueued(q, ts, window, limit) == [ts]
  {
    hide ExtendAll, Longest, TooFar, Enqueued, Descending;
    OverdueGone(rs, ss, ts);
    NoneInReach(rs, q, ts, |q|);
    FirstAlone(rs, q, window, limit, ts);
  }

  // ---------- The sequence of the train ----------

  /** The sequence after pulse `k` of the train: every pulse counted and none false. */
  function Grown(rs: Specs, ts: seq<nat>, k: nat): Sequence
    requires SpecsOk(rs) && 2 <= |ts| && ts[0] <= ts[1] && k < |ts|
  {
    var pri := FoundedPri(rs, ts);
    Sequence(pri, Duration(rs, pri), k + 1, 0, ts[0], ts[k], ts[0] + Duration(rs, pri))
  }

  /** The second pulse founds it. */
  lemma SecondPulse(rs: Specs, ts: seq<nat>)
    requires SpecsOk(rs) && Train(rs, ts)
    ensures Fit([ts[0]], ts[1])
    ensures Grown(rs, ts, 1) in Created(rs, [ts[0]], ts[1], 0, Reach(rs, [ts[0]], ts[1], 1))
  {
    hide Duration, NearMultiple, PriToUse, Members, Oldest;
    var q, t := [ts[0]], ts[1];
    assert Delta32(t, q[0]) == t - q[0];
    FirstPair(rs, t - q[0]);
    MembersNone(rs, q, 0, t, FoundedPri(rs, ts));
    assert Candidate(rs, q, 0, t) == Grown(rs, ts, 1);
    assert Reach(rs, q, t, 0) == 0 && !TooFar(rs, Delta32(t, q[0]));
    assert Reach(rs, q, t, 1) == 1;
    CreatedNone(rs, q, t, 0);
    CreatedNext(rs, q, t, 0, 0);
  }

  /** Every further pulse makes it longer by one. */
  lemma NextPulse(rs: Specs, ts: seq<nat>, k: nat)
    requires SpecsOk(rs) && Train(rs, ts) && 2 <= k < |ts|
    ensures Extended(rs, Grown(rs, ts, k - 1), ts[k]) == Some(Grown(rs, ts, k))
  {
    hide Duration, NearMultiple, PriToUse, Multiple;
    FirstPair(rs, ts[1] - ts[0]);
    Ascends(rs, ts, k - 1);
    var gap := ts[k] - ts[k - 1];
    assert Delta32(ts[k], ts[k - 1]) == gap;
    MultipleExact(gap, FoundedPri(rs, ts), rs.tolerance);
  }

  lemma {:induction false} Ascends(rs: Specs, ts: seq<nat>, k: nat)
    requires SpecsOk(rs) && Train(rs, ts) && k < |ts|
    ensures ts[0] <= ts[k] && (1 <= k ==> ts[k - 1] + rs.tolerance <= ts[k]) && ts[k] < TWO64
  {
    hide Duration, NearMultiple, PriToUse;
    if 0 < k { Ascends(rs, ts, k - 1); }
  }

  lemma {:induction false} ExtendedIsThere(rs: Specs, ss: seq<Sequence>, s: Sequence, ts: nat)
    requires s in ss && Extended(rs, s, ts).Some?
    ensures Extended(rs, s, ts).value in ExtendAll(rs, ss, ts)
  {
    hide Extended;
    if s in ss[..|ss| - 1] { ExtendedIsThere(rs, ss[..|ss| - 1], s, ts); }
  }

  /** One more pulse of the train: its sequence is among those the detector then has. */
  lemma TrainGoesOn(rs: Specs, ts: seq<nat>, k: nat, ss: seq<Sequence>, q: seq<nat>)
    requires SpecsOk(rs) && Train(rs, ts) && 1 <= k < |ts| && Fit(q, ts[k])
    requires if k == 1 then ss == [] && q == [ts[0]] else Grown(rs, ts, k - 1) in ss
    ensures Grown(rs, ts, k) in
      Created(rs, q, ts[k], Longest(rs, ss, ts[k]), Reach(rs, q, ts[k], |q|)) + ExtendAll(rs, ss, ts[k])
  {
    hide Train, Grown, Created, Reach, Fit;
    Ascends(rs, ts, 1);
    if k == 1 {
      SecondPulse(rs, ts);
      assert Longest(rs, ss, ts[1]) == 0;
    } else {
      NextPulse(rs, ts, k);
      ExtendedIsThere(rs, ss, Grown(rs, ts, k - 1), ts[k]);
    }
  }

  lemma LongEnough(rs: Specs, ts: seq<nat>, k: nat)
    requires SpecsOk(rs) && 2 <= |ts| && ts[0] <= ts[1] && k < |ts| && rs.ppbThresh <= k + 1
    ensures !FallsShort(rs, Grown(rs, ts, k))
  {
    assert 0 <= (k + 1) * rs.numPri;
  }

  /** The first pulse of a train, on a detector that holds nothing but what is overdue. */
  method FeedFirst(d: Detector, e: Pulse, memory: nat) returns (r: Option<Sequence>)
    requires d.Valid() && d.Booked() && 2 * d.rs.ppb <= memory
    requires Quiet(d.rs, d.sequences, d.pulses, d.windowSize, e.ts)
    requires d.Timely(e.ts) && Accepts(d.rs, d.lastTs, e)
    modifies d, d.pools
    ensures d.Valid() && d.Booked() && r == None
    ensures d.sequences == [] && d.pulses == [e.ts] && d.lastTs == e.ts
  {
    hide Quiet, Pools.Valid, Created, Reach, ExtendAll, Longest, Enqueued, FallsShort, Backed, Founded;
    ghost var ss, q := d.sequences, d.pulses;
    FirstPulse(d.rs, ss, q, d.windowSize, d.maxCount, e.ts);
    r := d.AddPulse(e, memory);
  }

  /** The next pulse of a train. */
  method FeedNext(d: Detector, es: seq<Pulse>, k: nat, memory: nat) returns (r: Option<Sequence>)
    requires d.Valid() && d.Booked() && 2 * d.rs.ppb <= memory
    requires Train(d.rs, Times(es)) && Shaped(d.rs, es) && 1 <= k < |es| && d.lastTs == es[k - 1].ts
    requires if k == 1 then d.sequences == [] && d.pulses == [es[0].ts]
             else Grown(d.rs, Times(es), k - 1) in d.sequences
    modifies d, d.pools
    ensures d.Valid() && d.Booked() && d.lastTs == es[k].ts && Grown(d.rs, Times(es), k) in d.sequences
    ensures r.Some? ==> !FallsShort(d.rs, r.value)
    ensures r == None ==> forall i :: 0 <= i < |d.sequences| ==> FallsShort(d.rs, d.sequences[i])
  {
    hide Train, Grown, Pools.Valid, Created, Reach, ExtendAll, Longest, Enqueued, FallsShort, Backed, Founded;
    ghost var ss, q, ts := d.sequences, d.pulses, Times(es);
    Ascends(d.rs, ts, k);
    QueueFits(q, d.rs, d.windowSize, d.maxCount, d.lastTs, es[k].ts);
    TrainGoesOn(d.rs, ts, k, ss, q);
    r := d.AddPulse(es[k], memory);
  }

  /**
   So of any train that is as long as the threshold, one pulse is reported: none is missed, as long as
   there is memory for the elements of a full queue.
   */
  method Burst(d: Detector, es: seq<Pulse>, memory: nat) returns (at: nat, r: Option<Sequence>)
    requires d.Valid() && d.Booked() && 2 * d.rs.ppb <= memory
    requires Train(d.rs, Times(es)) && Shaped(d.rs, es) && d.rs.ppbThresh <= |es|
    requires Quiet(d.rs, d.sequences, d.pulses, d.windowSize, es[0].ts)
    requires d.Timely(es[0].ts) && Accepts(d.rs, d.lastTs, es[0])
    modifies d, d.pools
    ensures d.Valid() && d.Booked() && at < |es| && r.Some? && !FallsShort(d.rs, r.value)
  {
    hide Shaped, Quiet, Grown, FallsShort, Pools.Valid, Created, Reach, ExtendAll, Longest, Enqueued, Fit;
    hide Duration, NearMultiple, PriToUse;
    ghost var ts := Times(es);
    Ascends(d.rs, ts, 1);
    at := 0;
    r := FeedFirst(d, es[0], memory);
    at := 1;
    while at < |es| && r == None
      invariant 1 <= at <= |es| && d.Valid() && d.Booked()
      invariant r.Some? ==> at <= |es| && !FallsShort(d.rs, r.value)
      invariant r == None ==> d.lastTs == ts[at - 1]
      invariant r == None ==>
        if at == 1 then d.sequences == [] && d.pulses == [ts[0]] else Grown(d.rs, ts, at - 1) in d.sequences
      invariant r == None ==> forall i :: 0 <= i < |d.sequences| ==> FallsShort(d.rs, d.sequences[i])
    {
      r := FeedNext(d, es, at, memory);
      at := at + 1;
    }
    if r == None { LongEnough(d.rs, ts, at - 1); }
    at := at - 1;
  }

  // ---------- Bursts at a steady interval ----------

  /** A pattern whose threshold is reached within its duration, at any interval in its range. */
  predicate Comfortable(rs: Specs) {
    && rs.ppbThresh <= rs.ppb && rs.tolerance <= rs.priMin
    && (rs.ppbThresh - 1) * PRI_TOLERANCE <= (rs.ppb - rs.ppbThresh) * rs.priMin + 2 * rs.tolerance
  }

  /** Every pattern of every domain is. */
  lemma PatternsComfortable(region: Region, i: nat)
    requires Types(region).Some? && i < |Types(region).value|
    ensures Comfortable(Types(region).value[i])
  {
    hide Comfortable;
    match region
    case Unset =>
    case Fcc => FccComfortable(i);
    case Etsi => EtsiComfortable(i);
    case Jp => JpComfortable(i);
  }

  lemma FccComfortable(i: nat)
    requires i < |FCC|
    ensures Comfortable(FCC[i])
  {
  }

  lemma EtsiComfortable(i: nat)
    requires i < |ETSI|
    ensures Comfortable(ETSI[i])
  {
  }

  lemma JpComfortable(i: nat)
    requires i < |JP|
    ensures Comfortable(JP[i])
  {
  }

  lemma Drift(m: nat, p: nat, pri: nat, d: nat)
    requires p <= pri + d
    ensures m * p <= m * pri + m * d
  {
    Product(p, pri + d, m);
    assert (pri + d) * m == m * pri + m * d;
  }

  lemma Distribute(a: int, b: int, c: int)
    ensures a * c + b * c == (a + b) * c
  {
  }

  lemma ReachedInTime(rs: Specs, p: nat, pri: nat, m: nat)
    requires SpecsOk(rs) && Comfortable(rs) && rs.priMin <= pri && p <= pri + PRI_TOLERANCE && m < rs.ppbThresh
    ensures m * p <= Duration(rs, pri)
  {
    var t, rest := rs.ppbThresh - 1, rs.ppb - rs.ppbThresh;
    Drift(m, p, pri, PRI_TOLERANCE);
    Product(m, t, pri);
    Product(rs.priMin, pri, rest);
    Distribute(t, rest, pri);
    Sums(m * p, m * pri, m * PRI_TOLERANCE, t * pri, rest * rs.priMin, rest * pri, rs.tolerance, (t + rest) * pri);
  }

  lemma Sums(all: int, even: int, odd: int, a: int, low: int, b: int, tolerance: int, total: int)
    requires all <= even + odd && even <= a && odd <= low + 2 * tolerance && low <= b && a + b == total
    ensures all <= total + 2 * tolerance
  {
  }

  function Steady(t: nat, p: nat, n: nat): (ts: seq<nat>)
    ensures |ts| == n
  {
    seq(n, i requires 0 <= i < n => t + i * p)
  }

  lemma SteadyGap(t: nat, p: nat, n: nat, i: nat)
    requires 1 <= i < n
    ensures var ts := Steady(t, p, n); ts[0] == t && ts[i] == t + i * p == ts[i - 1] + p
  {
  }

  /** So a steady burst at any interval in the range is a train as long as the threshold. */
  lemma SteadyIsTrain(rs: Specs, t: nat, p: nat, n: nat)
    requires SpecsOk(rs) && Comfortable(rs) && InRange(rs, p) && 2 <= n && (n == 2 || n <= rs.ppbThresh)
    requires t + p < TWO64 && t + Duration(rs, PriToUse(rs, p)) < TWO64
    ensures Train(rs, Steady(t, p, n))
  {
    hide Duration, NearMultiple, Steady;
    var ts, pri := Steady(t, p, n), PriToUse(rs, p);
    FirstPair(rs, p);
    SteadyGap(t, p, n, 1);
    forall i | 2 <= i < n
      ensures ts[i - 1] + rs.tolerance <= ts[i] <= ts[0] + Duration(rs, pri)
      ensures NearMultiple(ts[i] - ts[i - 1], pri, rs.tolerance)
    {
      SteadyGap(t, p, n, i);
      ReachedInTime(rs, p, pri, i);
    }
  }
}
