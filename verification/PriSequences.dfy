/**
 Sequences of pulses that follow a pulse repetition interval, the pulses that
 bear witness to them, and what one new pulse makes of the known sequences.
 */
module PriSequences {
  import opened Radar
  import opened Options

  /** `pri_sequence`. */
  datatype Sequence = Sequence(pri: nat, dur: nat, count: nat, falses: nat,
                               firstTs: nat, lastTs: nat, deadline: nat)

  /**
   The time stamps of a sequence, newest first; `base` is the place of the pulse it was created for, and
   `queue` is what was queued then.
   */
  datatype Witness = Witness(pulses: seq<nat>, base: nat, queue: seq<nat>)

  /** Newest first, with gaps of at least `gap` in between. */
  ghost predicate Descending(q: seq<nat>, gap: nat) {
    forall i, j :: 0 <= i < j < |q| ==> q[j] + gap <= q[i]
  }

  /** The distance of pulse `i` from its anchor: the founding pulse, or the pulse that was the last when it came. */
  ghost function Anchored(w: Witness, i: nat): int
    requires w.base + 1 < |w.pulses| && i < |w.pulses| && i != w.base
  {
    if w.base < i then w.pulses[w.base] as int - w.pulses[i] else w.pulses[i] as int - w.pulses[i + 1]
  }

  /** `ps.dur`: how long a burst of this PRI may take. */
  function Duration(rs: Specs, pri: nat): nat
    requires 1 <= rs.ppb
  {
    (rs.ppb - 1) * pri + 2 * rs.tolerance
  }

  /** 64-bit addition. */
  function Wrap(x: nat): (r: nat)
    requires x < 2 * TWO64
    ensures r <= x && r < TWO64
  {
    if x < TWO64 then x else x - TWO64
  }

  /**
   The sequence is borne out by the pulses of `w`: as many distinct pulses as it
   counts, each near a positive multiple of its PRI from its anchor, and all of
   them within its duration if the pattern has at least two pulses per burst.
   */
  ghost predicate Follows(rs: Specs, s: Sequence, w: Witness) {
    && 1 <= rs.ppb && s.count == |w.pulses| && w.base + 1 < |w.pulses|
    && Descending(w.pulses, 1)
    && w.pulses[0] == s.lastTs && w.pulses[|w.pulses| - 1] == s.firstTs
    && (forall i :: 0 <= i < |w.pulses| && i != w.base ==> NearMultiple(Anchored(w, i), s.pri, rs.tolerance))
    && 1 <= s.pri && s.dur == Duration(rs, s.pri) < TWO32 && s.deadline <= s.firstTs + s.dur
    && (2 <= rs.ppb ==> s.lastTs - s.firstTs <= s.dur)
  }

  /** `GET_PRI_TO_USE`. */
  function PriToUse(rs: Specs, delta: nat): nat {
    if rs.priMin + PRI_TOLERANCE == rs.priMax as int - PRI_TOLERANCE then rs.priMin + PRI_TOLERANCE else delta
  }

  /** The oldest time stamp considered for a sequence ending at `ts`; it wraps around below zero. */
  function MinValid(ts: nat, dur: nat): int {
    if dur <= ts then ts - dur else ts as int - dur + TWO64
  }

  lemma NearOnce(val: nat, f: nat, tolerance: nat)
    requires -(tolerance as int) <= val - f <= tolerance
    ensures NearMultiple(val, f, tolerance)
  {
    assert 1 * f == f;
  }

  lemma DurationBounds(rs: Specs, pri: nat)
    requires 1 <= rs.ppb < 256 && rs.tolerance < 256 && pri < 0x1_0000
    ensures Duration(rs, pri) < TWO32
    ensures 2 <= rs.ppb ==> pri + 2 * rs.tolerance <= Duration(rs, pri)
  {
    Product(rs.ppb - 1, 255, pri);
    if 2 <= rs.ppb { Product(1, rs.ppb - 1, pri); }
  }

  /** A pulse interval in the PRI range is near the PRI that is then used for it. */
  lemma FirstPair(rs: Specs, delta: nat)
    requires SpecsOk(rs) && rs.priMin <= delta <= rs.priMax
    ensures 1 <= PriToUse(rs, delta) < 0x1_0000
    ensures NearMultiple(delta, PriToUse(rs, delta), rs.tolerance)
    ensures Duration(rs, PriToUse(rs, delta)) < TWO32
    ensures 2 <= rs.ppb ==> delta <= Duration(rs, PriToUse(rs, delta))
  {
    hide NearMultiple, Duration;
    NearOnce(delta, PriToUse(rs, delta), rs.tolerance);
    DurationBounds(rs, PriToUse(rs, delta));
  }

  /** With one pulse per burst the span is not bounded: the founding pair alone outlasts the duration. */
  lemma OnePulsePerBurst(rs: Specs, delta: nat)
    requires SpecsOk(rs) && rs.priMin <= delta <= rs.priMax && rs.ppb == 1 && 2 * rs.tolerance < rs.priMin
    ensures Duration(rs, PriToUse(rs, delta)) < delta
  {
  }

  /** The 32-bit interval of the source. */
  function Delta32(later: nat, earlier: nat): (d: nat)
    ensures earlier <= later && later - earlier < TWO32 ==> d == later - earlier
  {
    (later as int - earlier) % TWO32
  }

  /** A pulse 2^32 microseconds too old looks just like one in the PRI range. */
  lemma DeltaAliases(later: nat, earlier: nat)
    requires earlier + TWO32 <= later
    ensures Delta32(later, earlier) == Delta32(later, earlier + TWO32) < later - earlier
  {
  }

  // ----- Creating sequences -----

  /** Pulse `j` of the queue belongs to a sequence of PRI `pri` founded by the pulse at `ts`. */
  ghost predicate Belongs(rs: Specs, pulses: seq<nat>, j: nat, ts: nat, pri: nat)
    requires j < |pulses| && 1 <= rs.ppb
  {
    MinValid(ts, Duration(rs, pri)) <= pulses[j] && NearMultiple(ts - pulses[j], pri, rs.tolerance)
  }

  /** The pulses after the `i`-th and before the `n`-th that belong to the sequence. */
  ghost function Members(rs: Specs, pulses: seq<nat>, i: nat, ts: nat, pri: nat, n: nat): seq<nat>
    requires i < n <= |pulses| && 1 <= rs.ppb
  {
    if n == i + 1 then []
    else Members(rs, pulses, i, ts, pri, n - 1) + if Belongs(rs, pulses, n - 1, ts, pri) then [pulses[n - 1]] else []
  }

  /** The place of the oldest of them, or `i`. */
  ghost function Oldest(rs: Specs, pulses: seq<nat>, i: nat, ts: nat, pri: nat, n: nat): (k: nat)
    requires i < n <= |pulses| && 1 <= rs.ppb
    ensures i <= k < n && |Members(rs, pulses, i, ts, pri, n)| <= k - i
  {
    if n == i + 1 then i else
    var k := Oldest(rs, pulses, i, ts, pri, n - 1);
    if Belongs(rs, pulses, n - 1, ts, pri) then n - 1 else k
  }

  /** The sequence founded by a pulse at `ts` and pulse `i`: falses are the strangers later than its oldest member. */
  ghost function Candidate(rs: Specs, pulses: seq<nat>, i: nat, ts: nat): Sequence
    requires i < |pulses| && 1 <= rs.ppb && Descending(pulses, 1) && pulses[i] <= ts < TWO64
    requires Duration(rs, PriToUse(rs, Delta32(ts, pulses[i]))) < TWO32
  {
    var pri := PriToUse(rs, Delta32(ts, pulses[i]));
    var dur := Duration(rs, pri);
    var m, k := Members(rs, pulses, i, ts, pri, |pulses|), Oldest(rs, pulses, i, ts, pri, |pulses|);
    Sequence(pri, dur, 2 + |m|, k - i - |m|, pulses[k], ts, Wrap(pulses[k] + dur))
  }

  /** The pulses a candidate stands on. */
  ghost function Evidence(rs: Specs, pulses: seq<nat>, i: nat, ts: nat): Witness
    requires i < |pulses| && 1 <= rs.ppb
  {
    Witness([ts, pulses[i]] + Members(rs, pulses, i, ts, PriToUse(rs, Delta32(ts, pulses[i])), |pulses|), 0, pulses)
  }

  /** Nothing older than a pulse below the window belongs. */
  lemma {:induction false} MembersEnd(rs: Specs, pulses: seq<nat>, i: nat, ts: nat, pri: nat, j: nat, n: nat)
    requires i < j <= n <= |pulses| && 1 <= rs.ppb && Descending(pulses, 1)
    requires j < n ==> pulses[j] < MinValid(ts, Duration(rs, pri))
    ensures Members(rs, pulses, i, ts, pri, n) == Members(rs, pulses, i, ts, pri, j)
    ensures Oldest(rs, pulses, i, ts, pri, n) == Oldest(rs, pulses, i, ts, pri, j)
  {
    hide Duration, MinValid, NearMultiple;
    if j < n {
      MembersEnd(rs, pulses, i, ts, pri, j, n - 1);
      assert pulses[n - 1] <= pulses[j];
    }
  }

  /** Members are queued pulses, older than pulse `i`, and each belongs. */
  lemma {:induction false} MemberBelongs(rs: Specs, pulses: seq<nat>, i: nat, ts: nat, pri: nat, n: nat, x: nat)
    requires i < n <= |pulses| && 1 <= rs.ppb && Descending(pulses, 1)
    requires x in Members(rs, pulses, i, ts, pri, n)
    ensures exists j :: i < j < n && pulses[j] == x && Belongs(rs, pulses, j, ts, pri)
    ensures pulses[n - 1] <= x < pulses[i]
  {
    hide Belongs;
    if x in Members(rs, pulses, i, ts, pri, n - 1) {
      MemberBelongs(rs, pulses, i, ts, pri, n - 1, x);
    } else {
      assert x == pulses[n - 1] && Belongs(rs, pulses, n - 1, ts, pri);
    }
  }

  /** They come in descending order. */
  lemma {:induction false} MembersDescend(rs: Specs, pulses: seq<nat>, i: nat, ts: nat, pri: nat, n: nat)
    requires i < n <= |pulses| && 1 <= rs.ppb && Descending(pulses, 1)
    ensures Descending(Members(rs, pulses, i, ts, pri, n), 1)
  {
    hide Belongs;
    if i + 1 < n {
      MembersDescend(rs, pulses, i, ts, pri, n - 1);
      var m := Members(rs, pulses, i, ts, pri, n - 1);
      forall k | 0 <= k < |m| ensures pulses[n - 1] + 1 <= m[k] {
        MemberBelongs(rs, pulses, i, ts, pri, n - 1, m[k]);
        assert pulses[n - 1] + 1 <= pulses[n - 2];
      }
    }
  }

  /** The oldest is the last of them. */
  lemma {:induction false} OldestIsLast(rs: Specs, pulses: seq<nat>, i: nat, ts: nat, pri: nat, n: nat)
    requires i < n <= |pulses| && 1 <= rs.ppb
    ensures var m := Members(rs, pulses, i, ts, pri, n); var k := Oldest(rs, pulses, i, ts, pri, n);
      if m == [] then k == i else i < k && m[|m| - 1] == pulses[k] && Belongs(rs, pulses, k, ts, pri)
  {
    hide Belongs;
    if i + 1 < n { OldestIsLast(rs, pulses, i, ts, pri, n - 1); }
  }

  /** Members are all the older pulses that belong. */
  lemma {:induction false} MembersComplete(rs: Specs, pulses: seq<nat>, i: nat, ts: nat, pri: nat, n: nat, j: nat)
    requires i < j < n <= |pulses| && 1 <= rs.ppb && Belongs(rs, pulses, j, ts, pri)
    ensures pulses[j] in Members(rs, pulses, i, ts, pri, n)
  {
    hide Belongs;
    if j < n - 1 { MembersComplete(rs, pulses, i, ts, pri, n - 1, j); }
  }

  /** A candidate is borne out by its founding pulses and members. */
  lemma CandidateFollows(rs: Specs, pulses: seq<nat>, i: nat, ts: nat)
    requires SpecsOk(rs) && i < |pulses| && Descending(pulses, 1) && pulses[i] <= ts < TWO64
    requires rs.priMin <= ts - pulses[i] <= rs.priMax
    ensures Duration(rs, PriToUse(rs, Delta32(ts, pulses[i]))) < TWO32
    ensures Follows(rs, Candidate(rs, pulses, i, ts), Evidence(rs, pulses, i, ts))
    ensures forall x :: x in Evidence(rs, pulses, i, ts).pulses ==> x == ts || x in pulses
  {
    hide NearMultiple, Duration, PriToUse, Members, Oldest, Descending, Belongs;
    assert Delta32(ts, pulses[i]) == ts - pulses[i];
    FirstPair(rs, ts - pulses[i]);
    var pri := PriToUse(rs, ts - pulses[i]);
    var m, w := Members(rs, pulses, i, ts, pri, |pulses|), Evidence(rs, pulses, i, ts);
    OldestIsLast(rs, pulses, i, ts, pri, |pulses|);
    forall k | 0 <= k < |m|
      ensures m[k] in pulses && m[k] < pulses[i] && NearMultiple(ts - m[k], pri, rs.tolerance)
    {
      MemberNear(rs, pulses, i, ts, pri, m[k]);
    }
    assert w.pulses == [ts, pulses[i]] + m;
    EvidenceDescends(rs, pulses, i, ts);
    if m != [] { BelongsLate(rs, pulses, Oldest(rs, pulses, i, ts, pri, |pulses|), ts, pri); }
  }

  lemma MemberNear(rs: Specs, pulses: seq<nat>, i: nat, ts: nat, pri: nat, x: nat)
    requires i < |pulses| && 1 <= rs.ppb && Descending(pulses, 1) && x in Members(rs, pulses, i, ts, pri, |pulses|)
    ensures x in pulses && x < pulses[i] && NearMultiple(ts - x, pri, rs.tolerance)
  {
    hide NearMultiple, Duration, Members;
    MemberBelongs(rs, pulses, i, ts, pri, |pulses|, x);
  }

  lemma BelongsLate(rs: Specs, pulses: seq<nat>, j: nat, ts: nat, pri: nat)
    requires j < |pulses| && 1 <= rs.ppb && pulses[j] <= ts < TWO64 && Duration(rs, pri) < TWO32
    requires Belongs(rs, pulses, j, ts, pri)
    ensures ts - pulses[j] <= Duration(rs, pri)
  {
    hide Duration, NearMultiple;
  }

  /** The pulses of the evidence come newest first. */
  lemma EvidenceDescends(rs: Specs, pulses: seq<nat>, i: nat, ts: nat)
    requires i < |pulses| && 1 <= rs.ppb && Descending(pulses, 1) && pulses[i] < ts
    ensures Descending(Evidence(rs, pulses, i, ts).pulses, 1)
  {
    hide NearMultiple, Duration, PriToUse, Members;
    var pri := PriToUse(rs, Delta32(ts, pulses[i]));
    var m := Members(rs, pulses, i, ts, pri, |pulses|);
    MembersDescend(rs, pulses, i, ts, pri, |pulses|);
    forall k | 0 <= k < |m| ensures m[k] + 1 <= pulses[i] { MemberBelongs(rs, pulses, i, ts, pri, |pulses|, m[k]); }
  }

  lemma MembersNone(rs: Specs, pulses: seq<nat>, i: nat, ts: nat, pri: nat)
    requires i < |pulses| && 1 <= rs.ppb
    ensures Members(rs, pulses, i, ts, pri, i + 1) == [] && Oldest(rs, pulses, i, ts, pri, i + 1) == i
  {
  }

  lemma MembersNext(rs: Specs, pulses: seq<nat>, i: nat, ts: nat, pri: nat, j: nat)
    requires i < j < |pulses| && 1 <= rs.ppb
    ensures if Belongs(rs, pulses, j, ts, pri)
      then |Members(rs, pulses, i, ts, pri, j + 1)| == |Members(rs, pulses, i, ts, pri, j)| + 1
           && Oldest(rs, pulses, i, ts, pri, j + 1) == j
      else |Members(rs, pulses, i, ts, pri, j + 1)| == |Members(rs, pulses, i, ts, pri, j)|
           && Oldest(rs, pulses, i, ts, pri, j + 1) == Oldest(rs, pulses, i, ts, pri, j)
  {
    hide Belongs;
  }

  /** The test of the source on a pulse in the window. */
  lemma BelongsExact(rs: Specs, pulses: seq<nat>, j: nat, ts: nat, pri: nat)
    requires j < |pulses| && 1 <= rs.ppb && pulses[j] <= ts < TWO64 && 1 <= pri && Duration(rs, pri) < TWO32
    requires MinValid(ts, Duration(rs, pri)) <= pulses[j]
    ensures Belongs(rs, pulses, j, ts, pri) <==> 0 < Multiple(Delta32(ts, pulses[j]), pri, rs.tolerance)
  {
    hide NearMultiple, Duration, Multiple;
    MultipleExact(ts - pulses[j], pri, rs.tolerance);
  }

  /** The inner loop of `pseq_handler_create_sequences`. */
  method Build(rs: Specs, pulses: seq<nat>, i: nat, ts: nat) returns (s: Sequence)
    requires SpecsOk(rs) && i < |pulses| && Descending(pulses, 1) && pulses[i] <= ts < TWO64
    requires InRange(rs, Delta32(ts, pulses[i]))
    ensures Duration(rs, PriToUse(rs, Delta32(ts, pulses[i]))) < TWO32 && s == Candidate(rs, pulses, i, ts)
  {
    hide NearMultiple, Duration, PriToUse, Multiple, Members, Oldest, Belongs;
    FirstPair(rs, Delta32(ts, pulses[i]));
    var pri := PriToUse(rs, Delta32(ts, pulses[i]));
    MembersNone(rs, pulses, i, ts, pri);
    var dur := Duration(rs, pri);
    var count, falses, strangers, first := 2, 0, 0, pulses[i];
    var j := i + 1;
    while j < |pulses| && MinValid(ts, dur) <= pulses[j]
      invariant i < j <= |pulses|
      invariant count == 2 + |Members(rs, pulses, i, ts, pri, j)|
      invariant first == pulses[Oldest(rs, pulses, i, ts, pri, j)]
      invariant falses == Oldest(rs, pulses, i, ts, pri, j) - i - (count - 2)
      invariant strangers == j - 1 - Oldest(rs, pulses, i, ts, pri, j)
    {
      assert pulses[j] <= pulses[i];
      BelongsExact(rs, pulses, j, ts, pri);
      MembersNext(rs, pulses, i, ts, pri, j);
      if 0 < Multiple(Delta32(ts, pulses[j]), pri, rs.tolerance) {
        count, first := count + 1, pulses[j];
        falses, strangers := falses + strangers, 0;
      } else {
        strangers := strangers + 1;
      }
      j := j + 1;
    }
    MembersEnd(rs, pulses, i, ts, pri, j, |pulses|);
    assert first <= pulses[i];
    s := Sequence(pri, dur, count, falses, first, ts, Wrap(first + dur));
  }

  predicate InRange(rs: Specs, delta: nat) { rs.priMin <= delta <= rs.priMax }

  /** The candidates that outnumber `minCount`, for the first `n` pulses, latest created first. */
  ghost function Created(rs: Specs, pulses: seq<nat>, ts: nat, minCount: nat, n: nat): seq<Sequence>
    requires SpecsOk(rs) && n <= |pulses| && Descending(pulses, 1) && ts < TWO64
    requires forall i :: 0 <= i < |pulses| ==> pulses[i] <= ts
  {
    if n == 0 then [] else
    var older := Created(rs, pulses, ts, minCount, n - 1);
    if InRange(rs, Delta32(ts, pulses[n - 1])) then
      FirstPair(rs, Delta32(ts, pulses[n - 1]));
      var s := Candidate(rs, pulses, n - 1, ts);
      if minCount < s.count then [s] + older else older
    else older
  }

  /** The interval at which the search stops. */
  predicate TooFar(rs: Specs, delta: nat) { rs.priMin <= delta && rs.priMax < delta }

  /** How many of the first `n` pulses the search looks at. */
  ghost function Reach(rs: Specs, pulses: seq<nat>, ts: nat, n: nat): (k: nat)
    requires n <= |pulses|
    ensures k <= n
  {
    if n == 0 then 0 else
    var k := Reach(rs, pulses, ts, n - 1);
    if k == n - 1 && !TooFar(rs, Delta32(ts, pulses[n - 1])) then n else k
  }

  lemma {:induction false} ReachEnd(rs: Specs, pulses: seq<nat>, ts: nat, j: nat, n: nat)
    requires j <= n <= |pulses| && Reach(rs, pulses, ts, j) == j
    requires j < n ==> TooFar(rs, Delta32(ts, pulses[j]))
    ensures Reach(rs, pulses, ts, n) == j
  {
    hide TooFar;
    if j < n { ReachEnd(rs, pulses, ts, j, n - 1); }
  }

  lemma {:induction false} ReachStops(rs: Specs, pulses: seq<nat>, ts: nat, n: nat)
    requires n <= |pulses|
    ensures var k := Reach(rs, pulses, ts, n); k < n ==> TooFar(rs, Delta32(ts, pulses[k]))
  {
    hide TooFar;
    if 0 < n { ReachStops(rs, pulses, ts, n - 1); }
  }

  /** No pulse in the queue is 2^32 microseconds old. */
  ghost predicate Young(pulses: seq<nat>, ts: nat) {
    forall i :: 0 <= i < |pulses| ==> pulses[i] <= ts && ts - pulses[i] < TWO32
  }

  /** Beyond the longest PRI there are no candidates. */
  lemma {:induction false} CreatedEnd(rs: Specs, pulses: seq<nat>, ts: nat, minCount: nat, j: nat, n: nat)
    requires SpecsOk(rs) && j <= n <= |pulses| && Descending(pulses, 1) && ts < TWO64 && Young(pulses, ts)
    requires j < n ==> rs.priMax < ts - pulses[j]
    ensures Created(rs, pulses, ts, minCount, n) == Created(rs, pulses, ts, minCount, j)
  {
    hide Candidate, SpecsOk;
    if j < n {
      CreatedEnd(rs, pulses, ts, minCount, j, n - 1);
      assert pulses[n - 1] <= pulses[j];
    }
  }

  /**
   In the first moments of the clock, before a duration has passed, the window wraps around: no queued
   pulse belongs to a new sequence but the one it is founded with.
   */
  lemma EarlyPair(rs: Specs, pulses: seq<nat>, i: nat, ts: nat)
    requires SpecsOk(rs) && i < |pulses| && Descending(pulses, 1) && pulses[i] <= ts < TWO64
    requires ts < Duration(rs, PriToUse(rs, Delta32(ts, pulses[i]))) < TWO32
    ensures Candidate(rs, pulses, i, ts).count == 2 && Candidate(rs, pulses, i, ts).falses == 0
  {
    hide Duration, NearMultiple, PriToUse, Members, Oldest;
    NoneEarly(rs, pulses, i, ts, PriToUse(rs, Delta32(ts, pulses[i])), |pulses|);
  }

  lemma {:induction false} NoneEarly(rs: Specs, pulses: seq<nat>, i: nat, ts: nat, pri: nat, n: nat)
    requires i < n <= |pulses| && 1 <= rs.ppb && Descending(pulses, 1)
    requires pulses[i] <= ts < Duration(rs, pri) < TWO32
    ensures Members(rs, pulses, i, ts, pri, n) == [] && Oldest(rs, pulses, i, ts, pri, n) == i
  {
    hide Duration, NearMultiple;
    if i + 1 < n {
      NoneEarly(rs, pulses, i, ts, pri, n - 1);
      assert pulses[n - 1] + 1 <= pulses[i];
    }
  }

  /** Where no queued pulse is too old for a 32-bit interval, stopping early loses no candidate. */
  lemma NoCandidateLost(rs: Specs, pulses: seq<nat>, ts: nat, minCount: nat)
    requires SpecsOk(rs) && Descending(pulses, 1) && ts < TWO64 && Young(pulses, ts)
    ensures Created(rs, pulses, ts, minCount, Reach(rs, pulses, ts, |pulses|)) ==
      Created(rs, pulses, ts, minCount, |pulses|)
  {
    hide Created;
    ReachStops(rs, pulses, ts, |pulses|);
    CreatedEnd(rs, pulses, ts, minCount, Reach(rs, pulses, ts, |pulses|), |pulses|);
  }

  // ----- Intervals of 2^32 microseconds and more -----

  /** Two pulses taken for neighbours though 2^32 microseconds or more apart; the sequence is overdue at once. */
  ghost predicate Aliased(s: Sequence, accepted: set<nat>) {
    && s.count == 2 && s.falses == 0 && s.firstTs in accepted && s.lastTs in accepted
    && s.firstTs + TWO32 <= s.lastTs && s.deadline < s.lastTs
  }

  lemma {:induction false} NoOldMembers(rs: Specs, pulses: seq<nat>, i: nat, ts: nat, pri: nat, n: nat)
    requires i < n <= |pulses| && 1 <= rs.ppb && Descending(pulses, 1)
    requires pulses[i] + TWO32 <= ts < TWO64 && Duration(rs, pri) < TWO32
    ensures Members(rs, pulses, i, ts, pri, n) == [] && Oldest(rs, pulses, i, ts, pri, n) == i
  {
    hide Duration, NearMultiple;
    if i + 1 < n {
      NoOldMembers(rs, pulses, i, ts, pri, n - 1);
      assert pulses[n - 1] + 1 <= pulses[i];
    }
  }

  /** A candidate over too long an interval has its two founding pulses and no others. */
  lemma CandidateAliased(rs: Specs, pulses: seq<nat>, i: nat, ts: nat, accepted: set<nat>)
    requires SpecsOk(rs) && i < |pulses| && Descending(pulses, 1) && pulses[i] + TWO32 <= ts < TWO64
    requires InRange(rs, Delta32(ts, pulses[i])) && pulses[i] in accepted && ts in accepted
    ensures Duration(rs, PriToUse(rs, Delta32(ts, pulses[i]))) < TWO32
    ensures Aliased(Candidate(rs, pulses, i, ts), accepted)
    ensures !FallsShort(rs, Candidate(rs, pulses, i, ts)) <==> rs.ppbThresh <= 2
  {
    hide Duration, NearMultiple, PriToUse, Members, Oldest;
    FirstPair(rs, Delta32(ts, pulses[i]));
    NoOldMembers(rs, pulses, i, ts, PriToUse(rs, Delta32(ts, pulses[i])), |pulses|);
  }

  /** No pulses bear it out where a burst has more than one pulse. */
  lemma AliasedNotBacked(rs: Specs, s: Sequence, accepted: set<nat>, known: set<nat>)
    requires Aliased(s, accepted) && 2 <= rs.ppb
    ensures !Backed(rs, s, known)
  {
    hide Duration, NearMultiple, Descending;
  }

  // ----- Extending sequences -----

  /** What a pulse at `ts` makes of one sequence: gone, longer, or with one more false pulse. */
  function Extended(rs: Specs, s: Sequence, ts: nat): Option<Sequence> {
    if s.deadline < ts then None
    else if 0 < Multiple(Delta32(ts, s.lastTs), s.pri, rs.tolerance) then Some(s.(lastTs := ts, count := s.count + 1))
    else Some(s.(falses := s.falses + 1))
  }

  function ExtendAll(rs: Specs, ss: seq<Sequence>, ts: nat): seq<Sequence> {
    if ss == [] then [] else
    var rest := ExtendAll(rs, ss[..|ss| - 1], ts);
    match Extended(rs, ss[|ss| - 1], ts)
    case None => rest
    case Some(s) => rest + [s]
  }

  /** A longer sequence is borne out by the pulses of the shorter one and the new one. */
  lemma ExtendedFollows(rs: Specs, s: Sequence, w: Witness, ts: nat)
    requires Follows(rs, s, w) && s.lastTs < ts <= s.deadline
    requires 0 < Multiple(Delta32(ts, s.lastTs), s.pri, rs.tolerance)
    ensures Follows(rs, s.(lastTs := ts, count := s.count + 1), Witness([ts] + w.pulses, w.base + 1, w.queue))
  {
    hide NearMultiple, Multiple, Duration;
    var v := Witness([ts] + w.pulses, w.base + 1, w.queue);
    assert s.firstTs <= s.lastTs;
    MultipleNear(ts - s.lastTs, s.pri, rs.tolerance);
    forall i | 0 <= i < |v.pulses| && i != v.base ensures NearMultiple(Anchored(v, i), s.pri, rs.tolerance) {
      if 0 < i { assert Anchored(v, i) == Anchored(w, i - 1); }
    }
  }

  /**
   The pulses that the sequence has missed: accepted since its founding, or queued then between the
   oldest of its pulses and the one it was founded with, and not among its pulses.
   */
  ghost function Missed(w: Witness, accepted: set<nat>): set<nat>
    requires w.base + 1 < |w.pulses|
  {
    set x | x in accepted && x !in w.pulses &&
      (w.pulses[w.base] < x || (x in w.queue && w.pulses[|w.pulses| - 1] < x < w.pulses[w.base + 1]))
  }

  /** It stands on pulses that were all accepted, and its falses are exactly the pulses it has missed. */
  ghost predicate StandsOn(rs: Specs, s: Sequence, w: Witness, accepted: set<nat>) {
    Follows(rs, s, w) && Within(w.pulses, accepted) && Within(w.queue, accepted) && s.falses == |Missed(w, accepted)|
  }

  ghost predicate Backed(rs: Specs, s: Sequence, accepted: set<nat>) {
    exists w :: StandsOn(rs, s, w, accepted)
  }

  /** No accepted pulse comes after `now`. */
  ghost predicate UpTo(accepted: set<nat>, now: nat) { forall x :: x in accepted ==> x <= now }

  ghost predicate Within(q: seq<nat>, accepted: set<nat>) { forall i :: 0 <= i < |q| ==> q[i] in accepted }

  /** The sequence stands on its pulses, or on two that the 32-bit interval takes for neighbours. */
  ghost predicate Founded(rs: Specs, s: Sequence, accepted: set<nat>) {
    Backed(rs, s, accepted) || Aliased(s, accepted)
  }

  /** It takes more than one pulse. */
  lemma FoundedByTwo(rs: Specs, s: Sequence, accepted: set<nat>, ts: nat)
    requires Founded(rs, s, accepted)
    ensures exists x :: x in accepted && x != ts
  {
    hide NearMultiple, Duration;
    if Backed(rs, s, accepted) {
      var w :| StandsOn(rs, s, w, accepted);
      assert w.pulses[0] in accepted && w.pulses[1] in accepted && w.pulses[1] + 1 <= w.pulses[0];
    } else {
      assert s.firstTs in accepted && s.lastTs in accepted;
    }
  }

  /** A detection that takes three pulses is backed, however far apart the pulses come. */
  lemma ThreeAreBacked(rs: Specs, s: Sequence, accepted: set<nat>)
    requires Founded(rs, s, accepted) && !FallsShort(rs, s) && 3 <= rs.ppbThresh
    ensures Backed(rs, s, accepted)
  {
    hide Backed;
  }

  /** Every sequence is founded, and none is ahead of the clock. */
  ghost predicate AllFounded(rs: Specs, ss: seq<Sequence>, accepted: set<nat>, now: nat) {
    forall i :: 0 <= i < |ss| ==> ss[i].lastTs <= now && Founded(rs, ss[i], accepted)
  }

  ghost predicate AllBacked(rs: Specs, ss: seq<Sequence>, accepted: set<nat>) {
    forall i :: 0 <= i < |ss| ==> Backed(rs, ss[i], accepted)
  }

  /** A sequence that lives to see the next pulse is backed, and that pulse is in it or missed by it. */
  lemma ExtendedBacked(rs: Specs, s: Sequence, ts: nat, accepted: set<nat>, now: nat)
    requires Founded(rs, s, accepted) && s.lastTs <= now < ts && UpTo(accepted, now) && Extended(rs, s, ts).Some?
    ensures Backed(rs, Extended(rs, s, ts).value, accepted + {ts})
  {
    hide StandsOn, Multiple, Follows;
    assert ts !in accepted;
    var w :| StandsOn(rs, s, w, accepted);
    if 0 < Multiple(Delta32(ts, s.lastTs), s.pri, rs.tolerance) {
      LongerStands(rs, s, w, ts, accepted);
    } else {
      FalseStands(rs, s, w, ts, accepted);
    }
  }

  lemma LongerStands(rs: Specs, s: Sequence, w: Witness, ts: nat, accepted: set<nat>)
    requires StandsOn(rs, s, w, accepted) && s.lastTs < ts <= s.deadline && ts !in accepted
    requires 0 < Multiple(Delta32(ts, s.lastTs), s.pri, rs.tolerance)
    ensures StandsOn(rs, s.(lastTs := ts, count := s.count + 1), Witness([ts] + w.pulses, w.base + 1, w.queue),
                     accepted + {ts})
  {
    hide Follows, Multiple, Missed;
    ExtendedFollows(rs, s, w, ts);
    assert w.base + 1 < |w.pulses| by { WitnessPair(rs, s, w); }
    JoinedNotMissed(rs, s, w, accepted, ts);
  }

  lemma FalseStands(rs: Specs, s: Sequence, w: Witness, ts: nat, accepted: set<nat>)
    requires StandsOn(rs, s, w, accepted) && s.lastTs < ts && ts !in accepted
    ensures StandsOn(rs, s.(falses := s.falses + 1), w, accepted + {ts})
  {
    hide Missed, NearMultiple, Duration, Descending;
    MissedOneMore(rs, s, w, accepted, ts);
  }

  lemma WitnessPair(rs: Specs, s: Sequence, w: Witness)
    requires Follows(rs, s, w)
    ensures w.base + 1 < |w.pulses|
  {
    hide NearMultiple, Duration, Descending;
  }

  lemma JoinedNotMissed(rs: Specs, s: Sequence, w: Witness, accepted: set<nat>, ts: nat)
    requires Follows(rs, s, w)
    ensures Missed(Witness([ts] + w.pulses, w.base + 1, w.queue), accepted + {ts}) == Missed(w, accepted) - {ts}
    ensures ts !in accepted ==>
      Missed(Witness([ts] + w.pulses, w.base + 1, w.queue), accepted + {ts}) == Missed(w, accepted)
  {
    hide NearMultiple, Duration, Descending;
    var v := Witness([ts] + w.pulses, w.base + 1, w.queue);
    assert v.pulses[v.base] == w.pulses[w.base] && v.pulses[v.base + 1] == w.pulses[w.base + 1];
    assert forall x :: x in v.pulses <==> x == ts || x in w.pulses;
  }

  lemma MissedOneMore(rs: Specs, s: Sequence, w: Witness, accepted: set<nat>, ts: nat)
    requires Follows(rs, s, w) && s.lastTs < ts && ts !in accepted
    ensures |Missed(w, accepted + {ts})| == |Missed(w, accepted)| + 1
  {
    hide NearMultiple, Duration;
    assert forall i :: 0 <= i < |w.pulses| ==> w.pulses[i] <= w.pulses[0] == s.lastTs;
    assert Missed(w, accepted + {ts}) == Missed(w, accepted) + {ts};
    assert ts !in Missed(w, accepted);
  }

  lemma {:induction false} ExtendAllBacked(rs: Specs, ss: seq<Sequence>, ts: nat, accepted: set<nat>, now: nat)
    requires AllFounded(rs, ss, accepted, now) && (ss != [] ==> now < ts && UpTo(accepted, now))
    ensures AllBacked(rs, ExtendAll(rs, ss, ts), accepted + {ts})
    ensures AllFounded(rs, ExtendAll(rs, ss, ts), accepted + {ts}, ts)
  {
    hide Backed, Multiple, Aliased;
    if ss != [] {
      ExtendAllBacked(rs, ss[..|ss| - 1], ts, accepted, now);
      var s := ss[|ss| - 1];
      assert Founded(rs, s, accepted) && s.lastTs <= now;
      if Extended(rs, s, ts).Some? { ExtendedBacked(rs, s, ts, accepted, now); }
    }
  }

  function Elements(q: seq<nat>): set<nat> { set x | x in q }

  lemma {:induction false} DescendingSize(q: seq<nat>)
    requires Descending(q, 1)
    ensures |Elements(q)| == |q|
  {
    if q != [] {
      var p := q[..|q| - 1];
      DescendingSize(p);
      assert q == p + [q[|q| - 1]];
      assert Elements(q) == Elements(p) + {q[|q| - 1]} && q[|q| - 1] !in p;
    }
  }

  /** The falses of a candidate are the queued pulses it has passed over. */
  lemma CandidateMissed(rs: Specs, pulses: seq<nat>, i: nat, ts: nat, accepted: set<nat>)
    requires SpecsOk(rs) && i < |pulses| && Descending(pulses, 1) && pulses[i] < ts < TWO64
    requires Within(pulses, accepted) && UpTo(accepted, ts)
    requires Duration(rs, PriToUse(rs, Delta32(ts, pulses[i]))) < TWO32
    ensures Candidate(rs, pulses, i, ts).falses == |Missed(Evidence(rs, pulses, i, ts), accepted)|
  {
    hide NearMultiple, Duration, PriToUse, Members, Oldest, Belongs, Missed;
    var pri := PriToUse(rs, Delta32(ts, pulses[i]));
    var m, k := Members(rs, pulses, i, ts, pri, |pulses|), Oldest(rs, pulses, i, ts, pri, |pulses|);
    var passed := pulses[i + 1..k + 1];
    MembersDescend(rs, pulses, i, ts, pri, |pulses|);
    DescendingSize(m);
    DescendingSize(passed);
    MembersPassed(rs, pulses, i, ts, pri);
    assert |Elements(passed) - Elements(m)| == |Elements(passed)| - |Elements(m)|;
    MissedArePassed(rs, pulses, i, ts, accepted);
  }

  /** The members are among the pulses passed. */
  lemma MembersPassed(rs: Specs, pulses: seq<nat>, i: nat, ts: nat, pri: nat)
    requires i < |pulses| && 1 <= rs.ppb && Descending(pulses, 1)
    ensures var k := Oldest(rs, pulses, i, ts, pri, |pulses|);
      Elements(Members(rs, pulses, i, ts, pri, |pulses|)) <= Elements(pulses[i + 1..k + 1])
  {
    hide NearMultiple, Duration, Members, Oldest, Belongs;
    var m, k := Members(rs, pulses, i, ts, pri, |pulses|), Oldest(rs, pulses, i, ts, pri, |pulses|);
    OldestIsLast(rs, pulses, i, ts, pri, |pulses|);
    MembersDescend(rs, pulses, i, ts, pri, |pulses|);
    forall x | x in m ensures x in pulses[i + 1..k + 1] {
      MemberBelongs(rs, pulses, i, ts, pri, |pulses|, x);
      var j :| i < j < |pulses| && pulses[j] == x;
      assert m[|m| - 1] <= x;
      assert j <= k;
      assert pulses[i + 1..k + 1][j - i - 1] == x;
    }
  }

  lemma MissedArePassed(rs: Specs, pulses: seq<nat>, i: nat, ts: nat, accepted: set<nat>)
    requires SpecsOk(rs) && i < |pulses| && Descending(pulses, 1) && pulses[i] < ts
    requires Within(pulses, accepted) && UpTo(accepted, ts)
    ensures var pri := PriToUse(rs, Delta32(ts, pulses[i]));
      var m, k := Members(rs, pulses, i, ts, pri, |pulses|), Oldest(rs, pulses, i, ts, pri, |pulses|);
      Missed(Evidence(rs, pulses, i, ts), accepted) == Elements(pulses[i + 1..k + 1]) - Elements(m)
  {
    hide NearMultiple, Duration, PriToUse, Members, Oldest, Belongs, Missed;
    var pri := PriToUse(rs, Delta32(ts, pulses[i]));
    var m, k := Members(rs, pulses, i, ts, pri, |pulses|), Oldest(rs, pulses, i, ts, pri, |pulses|);
    var w, passed := Evidence(rs, pulses, i, ts), pulses[i + 1..k + 1];
    OldestIsLast(rs, pulses, i, ts, pri, |pulses|);
    assert w.pulses[|w.pulses| - 1] == pulses[k];
    assert m != [] ==> pulses[k] in m;
    forall x | x in Missed(w, accepted) ensures x in passed && x !in m {
      MissedIsPassed(pulses, i, k, ts, m, accepted, x);
    }
    forall x | x in passed && x !in m ensures x in Missed(w, accepted) {
      PassedIsMissed(pulses, i, k, ts, m, accepted, x);
    }
  }

  lemma MissedIsPassed(pulses: seq<nat>, i: nat, k: nat, ts: nat, m: seq<nat>, accepted: set<nat>, x: nat)
    requires i <= k < |pulses| && Descending(pulses, 1) && UpTo(accepted, ts) && i < |pulses|
    requires ([ts, pulses[i]] + m)[|m| + 1] == pulses[k]
    requires x in Missed(Witness([ts, pulses[i]] + m, 0, pulses), accepted)
    ensures x in pulses[i + 1..k + 1] && x !in m
  {
    var j :| 0 <= j < |pulses| && pulses[j] == x;
    assert pulses[k] < x < pulses[i];
    assert i < j < k;
    assert pulses[i + 1..k + 1][j - i - 1] == x;
  }

  lemma PassedIsMissed(pulses: seq<nat>, i: nat, k: nat, ts: nat, m: seq<nat>, accepted: set<nat>, x: nat)
    requires i <= k < |pulses| && Descending(pulses, 1) && pulses[i] < ts && Within(pulses, accepted)
    requires ([ts, pulses[i]] + m)[|m| + 1] == pulses[k] && (if m == [] then k == i else pulses[k] in m)
    requires x in pulses[i + 1..k + 1] && x !in m
    ensures x in Missed(Witness([ts, pulses[i]] + m, 0, pulses), accepted)
  {
    var j :| 0 <= j < |pulses[i + 1..k + 1]| && pulses[i + 1..k + 1][j] == x;
    assert pulses[i + 1 + j] == x && i + 1 + j != k;
  }

  lemma CandidateFounded(rs: Specs, pulses: seq<nat>, i: nat, ts: nat, accepted: set<nat>)
    requires SpecsOk(rs) && i < |pulses| && Descending(pulses, 1) && pulses[i] < ts < TWO64
    requires Within(pulses, accepted) && ts in accepted && UpTo(accepted, ts) && InRange(rs, Delta32(ts, pulses[i]))
    ensures Duration(rs, PriToUse(rs, Delta32(ts, pulses[i]))) < TWO32
    ensures Founded(rs, Candidate(rs, pulses, i, ts), accepted)
    ensures ts - pulses[i] < TWO32 ==> Backed(rs, Candidate(rs, pulses, i, ts), accepted)
  {
    hide Follows, NearMultiple, Members, Oldest, Duration, PriToUse, Aliased, Missed;
    if ts - pulses[i] < TWO32 {
      CandidateFollows(rs, pulses, i, ts);
      CandidateMissed(rs, pulses, i, ts, accepted);
      var e := Evidence(rs, pulses, i, ts);
      forall k | 0 <= k < |e.pulses| ensures e.pulses[k] in accepted { assert e.pulses[k] in e.pulses; }
      assert StandsOn(rs, Candidate(rs, pulses, i, ts), e, accepted);
    } else {
      CandidateAliased(rs, pulses, i, ts, accepted);
    }
  }

  lemma {:induction false} CreatedFounded(rs: Specs, pulses: seq<nat>, ts: nat, minCount: nat, n: nat,
                                          accepted: set<nat>)
    requires SpecsOk(rs) && n <= |pulses| && Descending(pulses, 1) && ts < TWO64
    requires forall i :: 0 <= i < |pulses| ==> pulses[i] < ts
    requires Within(pulses, accepted) && ts in accepted && UpTo(accepted, ts)
    ensures AllFounded(rs, Created(rs, pulses, ts, minCount, n), accepted, ts)
    ensures Young(pulses, ts) ==> AllBacked(rs, Created(rs, pulses, ts, minCount, n), accepted)
  {
    hide Backed, Aliased, Members, Oldest, Duration, PriToUse, UpTo;
    if 0 < n {
      CreatedFounded(rs, pulses, ts, minCount, n - 1, accepted);
      if InRange(rs, Delta32(ts, pulses[n - 1])) { CandidateFounded(rs, pulses, n - 1, ts, accepted); }
    }
  }

  // ----- Detection -----

  predicate Detected(rs: Specs, s: Sequence) { rs.ppbThresh <= s.count && s.falses <= s.count * rs.numPri }

  /** Some test fails: too few pulses, or more false ones than the pattern allows for so many. */
  ghost predicate FallsShort(rs: Specs, s: Sequence) { s.count < rs.ppbThresh || s.count * rs.numPri < s.falses }

  /** `pseq_handler_check_detection`. */
  method CheckDetection(rs: Specs, ss: seq<Sequence>) returns (r: Option<Sequence>)
    ensures r == None <==> forall i :: 0 <= i < |ss| ==> FallsShort(rs, ss[i])
    ensures r.Some? ==> !FallsShort(rs, r.value)
    ensures r.Some? ==> rs.ppbThresh <= r.value.count && r.value.falses <= r.value.count * rs.numPri
    ensures r.Some? ==> exists k ::
      0 <= k < |ss| && r.value == ss[k] && forall i :: 0 <= i < k ==> FallsShort(rs, ss[i])
  {
    hide Detected, FallsShort;
    for k := 0 to |ss|
      invariant forall i :: 0 <= i < k ==> FallsShort(rs, ss[i])
    {
      DetectedIff(rs, ss[k]);
      if Detected(rs, ss[k]) { return Some(ss[k]); }
    }
    return None;
  }

  lemma DetectedIff(rs: Specs, s: Sequence)
    ensures Detected(rs, s) <==> !FallsShort(rs, s)
    ensures Detected(rs, s) <==> rs.ppbThresh <= s.count && s.falses <= s.count * rs.numPri
  {
  }

  // ----- The pulse queue -----

  /** The queue without the old pulses at its tail. */
  function Recent(q: seq<nat>, bound: int): seq<nat> {
    if q == [] || bound <= q[|q| - 1] then q else Recent(q[..|q| - 1], bound)
  }

  /** In a descending queue these are exactly the pulses not older than the bound. */
  lemma {:induction false} RecentExact(q: seq<nat>, bound: int)
    requires Descending(q, 0)
    ensures Recent(q, bound) <= q
    ensures forall i :: 0 <= i < |q| ==> (i < |Recent(q, bound)| <==> bound <= q[i])
  {
    if q != [] && q[|q| - 1] < bound {
      var p := q[..|q| - 1];
      RecentExact(p, bound);
      forall i | 0 <= i < |q| ensures i < |Recent(q, bound)| <==> bound <= q[i] {
        if i < |p| { assert p[i] == q[i]; }
      }
    } else {
      forall i | 0 <= i < |q| ensures bound <= q[i] { assert q[|q| - 1] <= q[i]; }
    }
  }

  /** The queue after a pulse at `ts` has come in, without old pulses and shorter than `limit`. */
  function Enqueued(q: seq<nat>, ts: nat, window: nat, limit: nat): seq<nat> {
    var r := Recent([ts] + q, ts as int - window);
    if limit <= |r| && r != [] then r[..|r| - 1] else r
  }

  /** What holds of every pulse queue. */
  ghost predicate QueueOk(q: seq<nat>, gap: nat, window: nat, limit: nat) {
    && Descending(q, gap) && |q| < limit
    && (q != [] ==> q[0] - q[|q| - 1] <= window)
  }

  lemma Prepended(q: seq<nat>, ts: nat, gap: nat)
    requires Descending(q, gap) && (q != [] ==> q[0] + gap <= ts)
    ensures Descending([ts] + q, gap)
  {
    var all := [ts] + q;
    forall i, j | 0 <= i < j < |all| ensures all[j] + gap <= all[i] {
      assert all[j] == q[j - 1] && q[j - 1] <= q[0];
    }
  }

  lemma EnqueuedOk(q: seq<nat>, ts: nat, gap: nat, window: nat, limit: nat)
    requires QueueOk(q, gap, window, limit) && 2 <= limit && (q != [] ==> q[0] + gap <= ts)
    ensures QueueOk(Enqueued(q, ts, window, limit), gap, window, limit)
    ensures Enqueued(q, ts, window, limit) <= [ts] + q && 1 <= |Enqueued(q, ts, window, limit)|
  {
    hide Recent, Descending;
    Prepended(q, ts, gap);
    var r := Recent([ts] + q, ts as int - window);
    EnoughRecent(q, ts, gap, window);
    var e := Enqueued(q, ts, window, limit);
    Shorter([ts] + q, |e|, gap);
    assert e == ([ts] + q)[..|e|] && e[0] == ts && e[|e| - 1] == r[|e| - 1];
  }

  /** The queue takes in the pulse and keeps, of what it had, the newest that lie in the window, up to the limit. */
  lemma EnqueuedExactly(q: seq<nat>, ts: nat, gap: nat, window: nat, limit: nat)
    requires QueueOk(q, gap, window, limit) && 2 <= limit && (q != [] ==> q[0] + gap <= ts)
    ensures var e, all := Enqueued(q, ts, window, limit), [ts] + q;
      e <= all && forall i :: 0 <= i < |all| ==> (i < |e| <==> ts as int - window <= all[i] && i < limit - 1)
  {
    hide Recent, Descending;
    Prepended(q, ts, gap);
    Loosely([ts] + q, gap);
    RecentExact([ts] + q, ts as int - window);
    EnoughRecent(q, ts, gap, window);
  }

  lemma Loosely(q: seq<nat>, gap: nat)
    requires Descending(q, gap)
    ensures Descending(q, 0)
  {
  }

  lemma Shorter(q: seq<nat>, n: nat, gap: nat)
    requires Descending(q, gap) && n <= |q|
    ensures Descending(q[..n], gap)
  {
  }

  lemma EnoughRecent(q: seq<nat>, ts: nat, gap: nat, window: nat)
    requires Descending([ts] + q, gap)
    ensures var r := Recent([ts] + q, ts as int - window);
      && r <= [ts] + q && 0 < |r| && forall i :: 0 <= i < |r| ==> ts as int - window <= r[i]
  {
    hide Recent;
    RecentExact([ts] + q, ts as int - window);
    assert ([ts] + q)[0] == ts;
  }
}
