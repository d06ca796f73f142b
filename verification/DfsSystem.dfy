/**
 Any number of pattern detectors on the one pair of pools that the source has, and what the
 counters of the pools say about the queues and sequences of all their detectors.
 */
module DfsSystem {
  import opened Options
  import opened Radar
  import opened RadarTypes
  import opened Pools
  import opened PriSequences
  import opened PriDetector
  import opened PatternDetector

  /** All detectors, one pattern detector after the other. */
  ghost function Together(crews: seq<seq<Detector>>): seq<Detector> {
    if crews == [] then [] else crews[0] + Together(crews[1..])
  }

  /** No account is in two crews. */
  ghost predicate Separate(crews: seq<seq<Detector>>) {
    forall m, n :: 0 <= m < n < |crews| ==> Ids(crews[m]) !! Ids(crews[n])
  }

  /** Every live account belongs to a crew. */
  ghost predicate Covered(live: seq<bool>, crews: seq<seq<Detector>>) {
    forall i :: 0 <= i < |live| && live[i] ==> exists m :: 0 <= m < |crews| && i in Ids(crews[m])
  }

  /** The lengths of the queues, and of the lists of sequences. */
  ghost function PulseLens(ds: seq<Detector>): (r: seq<nat>)
    reads ds
    ensures |r| == |ds| && forall i :: 0 <= i < |ds| ==> r[i] == |ds[i].pulses|
  {
    if ds == [] then [] else [|ds[0].pulses|] + PulseLens(ds[1..])
  }

  ghost function SeqLens(ds: seq<Detector>): (r: seq<nat>)
    reads ds
    ensures |r| == |ds| && forall i :: 0 <= i < |ds| ==> r[i] == |ds[i].sequences|
  {
    if ds == [] then [] else [|ds[0].sequences|] + SeqLens(ds[1..])
  }

  ghost function IdList(ds: seq<Detector>): (r: seq<nat>)
    ensures |r| == |ds| && forall i :: 0 <= i < |ds| ==> r[i] == ds[i].id
  {
    if ds == [] then [] else [ds[0].id] + IdList(ds[1..])
  }

  /** Each detector's account says what it holds. */
  ghost predicate Holding(ds: seq<Detector>, shared: Pools)
    reads ds, shared
  {
    forall i :: 0 <= i < |ds| ==> shared.Holds(ds[i].id, |ds[i].pulses|, |ds[i].sequences|)
  }

  /** Distinct detectors with all live accounts: what they hold is what the pools have handed out. */
  lemma BooksAreTrue(ds: seq<Detector>, shared: Pools)
    requires shared.Valid() && Distinct(ds)
    requires Holding(ds, shared)
    requires forall k :: 0 <= k < |shared.live| && shared.live[k] ==> k in Ids(ds)
    ensures shared.pulses.used == Sum(PulseLens(ds)) && shared.seqs.used == Sum(SeqLens(ds))
    ensures shared.pulses.made == shared.pulses.free + Sum(PulseLens(ds))
    ensures shared.seqs.made == shared.seqs.free + Sum(SeqLens(ds))
    ensures shared.references == |ds|
  {
    hide Sum, Live, PulseLens, SeqLens, IdList, Distinct, Holding, Ids;
    var ids := IdList(ds);
    IdsHold(ds, shared);
    IdsCover(ds, shared.live);
    SumOf(shared.pulseLens, ids, PulseLens(ds));
    SumOf(shared.seqLens, ids, SeqLens(ds));
    LiveOf(shared.live, ids);
  }

  lemma IdsHold(ds: seq<Detector>, shared: Pools)
    requires Distinct(ds) && Holding(ds, shared)
    ensures var ids := IdList(ds);
      && (forall i, j :: 0 <= i < j < |ids| ==> ids[i] != ids[j])
      && (forall i :: 0 <= i < |ids| ==> ids[i] < |shared.live| && shared.live[ids[i]])
      && (forall i :: 0 <= i < |ids| ==> ids[i] < |shared.pulseLens| && shared.pulseLens[ids[i]] == PulseLens(ds)[i])
      && (forall i :: 0 <= i < |ids| ==> ids[i] < |shared.seqLens| && shared.seqLens[ids[i]] == SeqLens(ds)[i])
  {
    hide PulseLens, SeqLens, IdList;
  }

  lemma IdsCover(ds: seq<Detector>, live: seq<bool>)
    requires forall k :: 0 <= k < |live| && live[k] ==> k in Ids(ds)
    ensures forall k :: 0 <= k < |live| && live[k] ==> k in IdList(ds)
  {
    hide IdList;
    forall k | 0 <= k < |live| && live[k] ensures k in IdList(ds) {
      var i :| 0 <= i < |ds| && ds[i].id == k;
      assert IdList(ds)[i] == k;
    }
  }

  lemma {:induction false} TogetherIds(crews: seq<seq<Detector>>, i: nat)
    ensures i in Ids(Together(crews)) <==> exists m :: 0 <= m < |crews| && i in Ids(crews[m])
  {
    if crews != [] {
      TogetherIds(crews[1..], i);
      IdsJoin(crews[0], Together(crews[1..]));
      if m :| 0 <= m < |crews| && i in Ids(crews[m]) {
        if 0 < m { assert crews[1..][m - 1] == crews[m]; }
      }
      if m :| 0 <= m < |crews[1..]| && i in Ids(crews[1..][m]) { assert crews[1..][m] == crews[m + 1]; }
    }
  }

  lemma IdsJoin(a: seq<Detector>, b: seq<Detector>)
    ensures Ids(a + b) == Ids(a) + Ids(b)
  {
    var u := a + b;
    forall x | x in Ids(a) ensures x in Ids(u) {
      var i :| 0 <= i < |a| && a[i].id == x;
      assert u[i] == a[i];
    }
    forall x | x in Ids(b) ensures x in Ids(u) {
      var i :| 0 <= i < |b| && b[i].id == x;
      assert u[|a| + i] == b[i];
    }
  }

  lemma DistinctJoin(a: seq<Detector>, b: seq<Detector>)
    requires Distinct(a) && Distinct(b) && Ids(a) !! Ids(b)
    ensures Distinct(a + b)
  {
    var u := a + b;
    forall i, j | 0 <= i < j < |u| ensures u[i].id != u[j].id {
      if i < |a| <= j { assert a[i].id in Ids(a) && b[j - |a|].id in Ids(b); }
    }
  }

  lemma {:induction false} TogetherDistinct(crews: seq<seq<Detector>>)
    requires Separate(crews) && forall m :: 0 <= m < |crews| ==> Distinct(crews[m])
    ensures Distinct(Together(crews))
  {
    hide Ids;
    if crews != [] {
      TogetherDistinct(crews[1..]);
      forall i | i in Ids(Together(crews[1..])) ensures i !in Ids(crews[0]) {
        TogetherIds(crews[1..], i);
        var m :| 0 <= m < |crews[1..]| && i in Ids(crews[1..][m]);
        assert crews[1..][m] == crews[m + 1] && Ids(crews[0]) !! Ids(crews[m + 1]);
      }
      DistinctJoin(crews[0], Together(crews[1..]));
    }
  }

  /** When the accounts of crew `k` have moved to those of `ds`, the crews are still separate and cover what is live. */
  lemma CrewReplaced(crews: seq<seq<Detector>>, k: nat, ds: seq<Detector>, a: Books, b: Books)
    requires k < |crews| && Separate(crews) && Covered(a.live, crews) && Moved(Ids(crews[k]), Ids(ds), a, b)
    requires forall m, i :: 0 <= m < |crews| && i in Ids(crews[m]) ==> i < |a.live|
    ensures Separate(crews[k := ds]) && Covered(b.live, crews[k := ds])
  {
    hide Ids;
    var after := crews[k := ds];
    forall m, n | 0 <= m < n < |after| ensures Ids(after[m]) !! Ids(after[n]) {
      assert Ids(crews[m]) !! Ids(crews[n]);
    }
    forall i | 0 <= i < |b.live| && b.live[i] ensures exists m :: 0 <= m < |after| && i in Ids(after[m]) {
      if i in Ids(ds) {
        assert after[k] == ds;
      } else {
        var m :| 0 <= m < |crews| && i in Ids(crews[m]);
        assert m != k && after[m] == crews[m];
      }
    }
  }

  /** The accounts `x` are the same in both books. */
  ghost predicate SameBooks(x: set<nat>, a: Books, b: Books) {
    forall i :: i in x ==>
      && i < |a.live| && i < |a.pulses| && i < |a.seqs| && i < |b.live| && i < |b.pulses| && i < |b.seqs|
      && b.live[i] == a.live[i] && b.pulses[i] == a.pulses[i] && b.seqs[i] == a.seqs[i]
  }

  lemma MovedElsewhere(x: set<nat>, y: set<nat>, z: set<nat>, a: Books, b: Books)
    requires Moved(x, y, a, b) && z !! x && forall i :: i in z ==> i < |a.live|
    ensures SameBooks(z, a, b)
  {
  }

  lemma IdIn(ds: seq<Detector>, j: nat)
    requires j < |ds|
    ensures ds[j].id in Ids(ds)
  {
  }

  lemma CrewAdded(crews: seq<seq<Detector>>, live: seq<bool>)
    requires Separate(crews) && Covered(live, crews)
    ensures Separate(crews + [[]]) && Covered(live, crews + [[]])
  {
    var after := crews + [[]];
    forall i | 0 <= i < |live| && live[i] ensures exists m :: 0 <= m < |after| && i in Ids(after[m]) {
      var m :| 0 <= m < |crews| && i in Ids(crews[m]);
      assert after[m] == crews[m];
    }
  }

  lemma CrewFreed(crews: seq<seq<Detector>>, k: nat, live: seq<bool>)
    requires k < |crews| && crews[k] == [] && Separate(crews) && Covered(live, crews)
    ensures Separate(crews[..k] + crews[k + 1..]) && Covered(live, crews[..k] + crews[k + 1..])
  {
    assert Ids([]) == {};
    var after := crews[..k] + crews[k + 1..];
    forall m, n | 0 <= m < n < |after| ensures Ids(after[m]) !! Ids(after[n]) {
      assert after[m] == crews[if m < k then m else m + 1] && after[n] == crews[if n < k then n else n + 1];
    }
    forall i | 0 <= i < |live| && live[i] ensures exists m :: 0 <= m < |after| && i in Ids(after[m]) {
      var m :| 0 <= m < |crews| && i in Ids(crews[m]);
      assert after[if m < k then m else m - 1] == crews[m];
    }
  }

  lemma SeparateAt(crews: seq<seq<Detector>>, k: nat, m: nat)
    requires Separate(crews) && k < |crews| && m < |crews| && k != m
    ensures Ids(crews[m]) !! Ids(crews[k])
  {
    hide Ids;
  }

  /** What can be asked of a pattern detector. */
  datatype Call = AddPulse(freq: nat, pulse: Pulse, room: nat, memory: nat -> nat) | SetDomain(region: Region) | Exit

  /** A pulse comes with a 64-bit time stamp. */
  predicate Possible(call: Call) { call.AddPulse? ==> call.pulse.ts < TWO64 }

  /** What a driver may do: begin with a pattern detector, use one, or let one go. */
  datatype Op = Begin(region: Region) | On(k: nat, call: Call) | End(k: nat)

  class Dfs {
    const pools: Pools
    var monitors: seq<PatternDetector>
    ghost var crews: seq<seq<Detector>>
    ghost var footprint: set<Detector>

    /** Every pattern detector is in order, and the accounts are those of their detectors. */
    ghost predicate Valid()
      reads this, pools, monitors, footprint
    {
      && pools.Valid() && |crews| == |monitors|
      && (forall m, n :: 0 <= m < n < |monitors| ==> monitors[m] != monitors[n])
      && (forall m :: 0 <= m < |monitors| ==> monitors[m].pools == pools && crews[m] == Flat(monitors[m].channels))
      && (forall m, j :: 0 <= m < |crews| && 0 <= j < |crews[m]| ==> crews[m][j] in footprint)
      && (forall m :: 0 <= m < |monitors| ==> monitors[m].Valid())
      && Separate(crews) && Covered(pools.live, crews)
    }

    constructor ()
      ensures Valid() && monitors == [] && footprint == {} && fresh(pools)
    {
      pools := new Pools();
      monitors, crews, footprint := [], [], {};
    }

    /** The accounts of a crew are registered. */
    lemma Registered(m: nat)
      requires Valid() && m < |crews|
      ensures forall i :: i in Ids(crews[m]) ==> i < |pools.live|
    {
      hide Detector.Valid, Pools.Valid, FallsShort, Types;
      assert monitors[m].Valid();
      forall i | i in Ids(crews[m]) ensures i < |pools.live| {
        var j :| 0 <= j < |crews[m]| && crews[m][j].id == i;
        assert Fine(crews[m][j], pools, monitors[m].lastPulseTs);
      }
    }

    /** No detector is in two crews. */
    lemma ApartFrom(k: nat, m: nat, j: nat)
      requires Valid() && k < |crews| && m < |crews| && m != k && j < |crews[m]|
      ensures crews[m][j] !in crews[k]
    {
      hide Detector.Valid, Pools.Valid, PatternDetector.Valid;
      assert Ids(crews[m]) !! Ids(crews[k]) && crews[m][j].id in Ids(crews[m]);
    }

    /** Carries out a call on pattern detector `k`. */
    method Call(k: nat, call: Call) returns (ok: bool)
      requires Valid() && k < |monitors| && Possible(call)
      modifies monitors[k], pools, crews[k]
      ensures monitors[k].Valid() && monitors[k].Accounted()
      ensures forall d :: d in Flat(monitors[k].channels) ==> d in crews[k] || fresh(d)
      ensures call.Exit? ==> Flat(monitors[k].channels) == []
      ensures call.SetDomain? ==>
        Flat(monitors[k].channels) == [] || Flat(monitors[k].channels) == old(Flat(monitors[k].channels))
    {
      hide Pools.Valid, PatternDetector.Valid, Moved, Ids, Separate, Covered;
      ok := true;
      match call
      case AddPulse(freq, e, room, memory) =>
        ghost var i, s, known;
        ok, i, s, known := monitors[k].AddPulse(freq, e, room, memory);
      case SetDomain(r) =>
        ok := monitors[k].SetDomain(r);
      case Exit =>
        monitors[k].ExitChannels();
    }

    /** Any call on any pattern detector keeps all of them in order, and the accounts those of their detectors. */
    method Handle(k: nat, call: Call) returns (ok: bool)
      requires Valid() && k < |monitors| && Possible(call)
      modifies this`crews, this`footprint, pools, monitors, footprint
      ensures Valid() && crews == old(crews)[k := crews[k]] && fresh(footprint - old(footprint))
      ensures call.Exit? ==> crews[k] == []
      ensures call.SetDomain? ==> crews[k] == [] || crews[k] == old(crews[k])
    {
      hide Orderly, PatternDetector.Set, Pools.Valid, Ids, Moved, Distinct, Flat, Separate, Covered;
      forall m, j | 0 <= m < |crews| && m != k && 0 <= j < |crews[m]| ensures crews[m][j] !in crews[k] {
        ApartFrom(k, m, j);
      }
      forall m | 0 <= m < |crews| ensures forall i :: i in Ids(crews[m]) ==> i < |pools.live| { Registered(m); }
      ghost var a := pools.Accounts();
      ok := Call(k, call);
      ghost var ds := Flat(monitors[k].channels);
      CrewReplaced(crews, k, ds, a, pools.Accounts());
      forall m | 0 <= m < |monitors| && m != k ensures monitors[m].Valid() {
        SeparateAt(crews, k, m);
        MovedElsewhere(Ids(crews[k]), Ids(ds), Ids(crews[m]), a, pools.Accounts());
        forall j | 0 <= j < |crews[m]| ensures Fine(crews[m][j], pools, monitors[m].lastPulseTs) {
          assert old(Fine(crews[m][j], pools, monitors[m].lastPulseTs));
          IdIn(crews[m], j);
        }
      }
      crews, footprint := crews[k := ds], footprint + set d | d in ds;
    }

    /** A new pattern detector, without a domain. */
    method Append()
      requires Valid()
      modifies this`monitors, this`crews
      ensures Valid() && crews == old(crews) + [[]] && |monitors| == |old(monitors)| + 1
      ensures monitors[..|old(monitors)|] == old(monitors) && fresh(monitors[|old(monitors)|])
      ensures monitors[|old(monitors)|].channels == []
    {
      hide Orderly, PatternDetector.Set, Pools.Valid, Distinct, Ids, Separate, Covered, Crew;
      var p := new PatternDetector(pools);
      assert Flat(p.channels) == [];
      CrewAdded(crews, pools.live);
      monitors, crews := monitors + [p], crews + [[]];
    }

    /** A pattern detector without channels is freed. */
    method Free(k: nat)
      requires Valid() && k < |monitors| && crews[k] == []
      modifies this`monitors, this`crews
      ensures Valid() && monitors == old(monitors)[..k] + old(monitors)[k + 1..]
      ensures crews == old(crews)[..k] + old(crews)[k + 1..]
    {
      hide Orderly, PatternDetector.Set, Pools.Valid, Distinct, Ids, Separate, Covered, Crew;
      CrewFreed(crews, k, pools.live);
      ghost var was := monitors;
      monitors, crews := monitors[..k] + monitors[k + 1..], crews[..k] + crews[k + 1..];
      forall m | 0 <= m < |monitors|
        ensures monitors[m].pools == pools && crews[m] == Flat(monitors[m].channels) && monitors[m].Valid()
      {
        assert monitors[m] == was[if m < k then m else m + 1];
      }
    }

    /** `dfs_pattern_detector_init`: one more pattern detector, if its domain can be set. */
    method Open(r: Region) returns (ok: bool)
      requires Valid()
      modifies this`monitors, this`crews, this`footprint, pools, monitors, footprint
      ensures Valid() && fresh(footprint - old(footprint))
      ensures if ok then crews == old(crews) + [[]] && |monitors| == |old(monitors)| + 1
                && monitors[..|old(monitors)|] == old(monitors) && fresh(monitors[|old(monitors)|])
              else crews == old(crews) && monitors == old(monitors)
    {
      hide Pools.Valid, PatternDetector.Valid, Separate, Covered, Flat;
      Append();
      var k := |monitors| - 1;
      ok := Handle(k, SetDomain(r));
      if !ok { Free(k); }
    }

    /** `dpd_exit`. */
    method Close(k: nat)
      requires Valid() && k < |monitors|
      modifies this`monitors, this`crews, this`footprint, pools, monitors, footprint
      ensures Valid() && fresh(footprint - old(footprint))
      ensures monitors == old(monitors)[..k] + old(monitors)[k + 1..]
      ensures monitors == [] ==> NothingLeft()
    {
      var ok := Handle(k, Exit);
      Free(k);
      CountersAreSums();
    }

    /** One operation; one on a pattern detector that is not there does nothing. */
    method Serve(op: Op)
      requires Valid() && (op.On? ==> Possible(op.call))
      modifies this`monitors, this`crews, this`footprint, pools, monitors, footprint
      ensures Valid() && fresh(footprint - old(footprint))
      ensures forall i :: 0 <= i < |monitors| ==> monitors[i] in old(monitors) || fresh(monitors[i])
    {
      hide Pools.Valid, PatternDetector.Valid, Separate, Covered, Flat;
      match op
      case Begin(r) => var ok := Open(r);
      case On(k, call) => if k < |monitors| { var ok := Handle(k, call); }
      case End(k) => if k < |monitors| { Close(k); }
    }

    /** Lets all pattern detectors go. */
    method Shutdown()
      requires Valid()
      modifies this`monitors, this`crews, this`footprint, pools, monitors, footprint
      ensures Valid() && monitors == [] && NothingLeft()
    {
      hide Pools.Valid, PatternDetector.Valid, Separate, Covered, Flat, Dfs.Valid;
      assert monitors == [] ==> NothingLeft() by { if monitors == [] { EmptyHanded(); } }
      while monitors != []
        invariant Valid() && fresh(footprint - old(footprint)) && (monitors == [] ==> NothingLeft())
        invariant forall i :: 0 <= i < |monitors| ==> monitors[i] in old(monitors)
        decreases |monitors|
      {
        Close(0);
      }
    }

    ghost predicate NothingLeft()
      reads this, pools
    {
      pools.references == 0 && pools.pulses.made == 0 && pools.seqs.made == 0
    }

    lemma EmptyHanded()
      requires Valid() && monitors == []
      ensures NothingLeft()
    {
      hide Pools.Valid;
      CountersAreSums();
    }

    /** The pools' counters are the sums over the real queues and lists of all detectors. */
    ghost predicate Balanced()
      reads this, pools, Together(crews)
    {
      && pools.pulses.used == Sum(PulseLens(Together(crews))) && pools.seqs.used == Sum(SeqLens(Together(crews)))
      && pools.pulses.made == pools.pulses.free + pools.pulses.used
      && pools.seqs.made == pools.seqs.free + pools.seqs.used
      && pools.references == |Together(crews)|
    }

    /** Whatever has happened, the counters of the pools are the sums over all detectors. */
    lemma CountersAreSums()
      requires Valid()
      ensures Balanced() && (Together(crews) == [] ==> NothingLeft())
    {
      hide Pools.Valid, PatternDetector.Valid, Ids, Together, Distinct, PulseLens, SeqLens, Sum;
      var ds := Together(crews);
      forall m | 0 <= m < |crews| ensures Distinct(crews[m]) && Holding(crews[m], pools) { InOrder(monitors[m]); }
      TogetherDistinct(crews);
      TogetherHolds(crews, pools);
      forall k | 0 <= k < |pools.live| && pools.live[k] ensures k in Ids(ds) { TogetherIds(crews, k); }
      BooksAreTrue(ds, pools);
      if pools.references == 0 { NothingMade(pools); }
    }
  }

  /**
   Every run of the whole: after any operations on any number of pattern detectors the counters are
   the sums over what is there, and once all are let go nothing is allocated or referenced.
   */
  method Run(ops: seq<Op>, last: bool) returns (d: Dfs)
    requires forall i :: 0 <= i < |ops| && ops[i].On? ==> Possible(ops[i].call)
    ensures d.Valid() && d.Balanced() && (d.monitors == [] ==> d.NothingLeft())
    ensures last ==> d.monitors == []
  {
    hide Dfs.Valid, Dfs.Balanced, Dfs.NothingLeft, Possible;
    d := new Dfs();
    for k := 0 to |ops|
      invariant d.Valid() && fresh(d) && fresh(d.pools) && fresh(d.footprint)
      invariant forall i :: 0 <= i < |d.monitors| ==> fresh(d.monitors[i])
    {
      d.Serve(ops[k]);
    }
    if last { d.Shutdown(); }
    d.CountersAreSums();
    if d.monitors == [] { d.EmptyHanded(); }
  }

  lemma InOrder(p: PatternDetector)
    requires p.Valid()
    ensures Distinct(Flat(p.channels)) && Holding(Flat(p.channels), p.pools)
  {
    hide Detector.Valid, Pools.Valid, FallsShort, Types, Distinct;
    forall i | 0 <= i < |Flat(p.channels)|
      ensures p.pools.Holds(Flat(p.channels)[i].id, |Flat(p.channels)[i].pulses|, |Flat(p.channels)[i].sequences|)
    {
      assert Fine(Flat(p.channels)[i], p.pools, p.lastPulseTs);
    }
  }

  lemma NothingMade(shared: Pools)
    requires shared.Valid() && shared.references == 0
    ensures shared.pulses.made == 0 && shared.seqs.made == 0
  {
  }

  lemma {:induction false} TogetherHolds(crews: seq<seq<Detector>>, shared: Pools)
    requires forall m :: 0 <= m < |crews| ==> Holding(crews[m], shared)
    ensures Holding(Together(crews), shared)
  {
    if crews != [] {
      forall m | 0 <= m < |crews[1..]| ensures Holding(crews[1..][m], shared) { assert crews[1..][m] == crews[m + 1]; }
      TogetherHolds(crews[1..], shared);
    }
  }
}
