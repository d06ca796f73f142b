/** `dfs_pattern_detector.c`: a list of channels, each with one detector per radar pattern of the domain. */
module PatternDetector {
  import opened Options
  import opened Radar
  import opened RadarTypes
  import opened Pools
  import opened PriSequences
  import opened PriDetector

  /** `channel_detector`. */
  datatype Channel = Channel(freq: nat, detectors: seq<Detector>)

  /** All detectors, channel after channel. */
  function Flat(cs: seq<Channel>): seq<Detector> {
    if cs == [] then [] else cs[0].detectors + Flat(cs[1..])
  }

  /** A detector in good order: nothing in it is later than `now`, and no sequence in it is a detection. */
  ghost predicate Fine(d: Detector, shared: Pools, now: nat)
    reads d, shared
  {
    d.pools == shared && Orderly(d, now) && shared.Holds(d.id, |d.pulses|, |d.sequences|)
  }

  ghost predicate Orderly(d: Detector, now: nat)
    reads d
  {
    && d.Valid()
    && (d.pulses != [] || d.sequences != [] || d.accepted != {} ==> d.lastTs <= now)
    && (forall i :: 0 <= i < |d.sequences| ==> FallsShort(d.rs, d.sequences[i]))
  }

  /** Distinct detectors in good order, all drawing on the same pools. */
  ghost predicate Crew(ds: seq<Detector>, shared: Pools, now: nat)
    reads ds, shared
  {
    && shared.Valid()
    && (forall i :: 0 <= i < |ds| ==> Fine(ds[i], shared, now))
    && Distinct(ds)
  }

  ghost predicate Distinct(ds: seq<Detector>) { forall i, j :: 0 <= i < j < |ds| ==> ds[i].id != ds[j].id }

  /** The accounts of the detectors. */
  ghost function Ids(ds: seq<Detector>): set<nat> { set i | 0 <= i < |ds| :: ds[i].id }

  lemma DistinctSlice(crew: seq<Detector>, at: nat, ds: seq<Detector>)
    requires Distinct(crew) && at + |ds| <= |crew| && crew[at..at + |ds|] == ds
    ensures Distinct(ds)
  {
    forall n, m | 0 <= n < m < |ds| ensures ds[n].id != ds[m].id {
      assert ds[n] == crew[at + n] && ds[m] == crew[at + m];
    }
  }

  /** Resets every detector of the list. */
  method ResetAll(ds: seq<Detector>, shared: Pools, ghost now: nat, ts: nat)
    requires Crew(ds, shared, now) && ts < TWO64
    modifies ds, shared
    ensures Crew(ds, shared, 0) && Moved(Ids(ds), Ids(ds), old(shared.Accounts()), shared.Accounts())
    ensures forall i :: 0 <= i < |ds| ==> ds[i].Emptied() && ds[i].lastTs == ts
  {
    hide Detector.Valid, Pools.Valid, FallsShort, Moved;
    CrewUnmoved(ds, shared, now);
    for k := 0 to |ds|
      invariant Crew(ds, shared, now) && Moved(Ids(ds), Ids(ds), old(shared.Accounts()), shared.Accounts())
      invariant forall i :: 0 <= i < k ==> ds[i].Emptied() && ds[i].lastTs == ts
    {
      assert Fine(ds[k], shared, now) && ds[k].id in Ids(ds);
      ghost var a, b := old(shared.Accounts()), shared.Accounts();
      ds[k].Reset(ts);
      MovedOne(Ids(ds), ds[k].id, 0, 0, b, shared.Accounts());
      MovedTwice(Ids(ds), Ids(ds), Ids(ds), a, b, shared.Accounts());
    }
  }

  /** Lets the first `n` detectors of the list go. */
  method ExitFirst(n: nat, ds: seq<Detector>, shared: Pools, ghost now: nat)
    requires Crew(ds, shared, now) && n <= |ds|
    modifies ds[..n], shared
    ensures Crew(ds[n..], shared, now) && Moved(Ids(ds), Ids(ds[n..]), old(shared.Accounts()), shared.Accounts())
  {
    hide Detector.Valid, Pools.Valid, FallsShort, Moved;
    CrewUnmoved(ds, shared, now);
    assert ds[0..] == ds;
    for k := 0 to n
      invariant shared.Valid() && Moved(Ids(ds), Ids(ds[k..]), old(shared.Accounts()), shared.Accounts())
      invariant forall i :: k <= i < |ds| ==> Fine(ds[i], shared, now)
    {
      assert Fine(ds[k], shared, now) && ds[k] in ds[..n];
      IdsWithout(ds, k);
      ghost var a, b := old(shared.Accounts()), shared.Accounts();
      ds[k].Exit();
      MovedOut(Ids(ds[k..]), ds[k].id, b, shared.Accounts());
      MovedTwice(Ids(ds), Ids(ds[k..]), Ids(ds[k + 1..]), a, b, shared.Accounts());
    }
    DistinctSlice(ds, n, ds[n..]);
  }

  lemma CrewUnmoved(ds: seq<Detector>, shared: Pools, now: nat)
    requires Crew(ds, shared, now)
    ensures Moved(Ids(ds), Ids(ds), shared.Accounts(), shared.Accounts())
  {
    hide Fine;
    MovedNot(Ids(ds), shared.Accounts());
  }

  lemma IdsWithout(ds: seq<Detector>, k: nat)
    requires k < |ds| && Distinct(ds)
    ensures Ids(ds[k + 1..]) == Ids(ds[k..]) - {ds[k].id} && ds[k].id in Ids(ds[k..])
  {
    var a, b := ds[k..], ds[k + 1..];
    assert a[0] == ds[k];
    forall x | x in Ids(b) ensures x in Ids(a) && x != ds[k].id {
      var i :| 0 <= i < |b| && b[i].id == x;
      assert a[i + 1] == b[i] && ds[k + 1 + i] == b[i];
    }
    forall x | x in Ids(a) && x != ds[k].id ensures x in Ids(b) {
      var i :| 0 <= i < |a| && a[i].id == x;
      assert a[i] == ds[k + i] && b[i - 1] == a[i];
    }
  }

  /** Where the detectors of channel `c` begin. */
  ghost function Offset(cs: seq<Channel>, c: nat): nat
    requires c <= |cs|
  {
    if c == 0 then 0 else |cs[0].detectors| + Offset(cs[1..], c - 1)
  }

  lemma {:induction false} FlatSlice(cs: seq<Channel>, c: nat)
    requires c < |cs|
    ensures Offset(cs, c) + |cs[c].detectors| <= |Flat(cs)|
    ensures Flat(cs)[Offset(cs, c)..Offset(cs, c) + |cs[c].detectors|] == cs[c].detectors
  {
    if 0 < c { FlatSlice(cs[1..], c - 1); }
  }

  /** The detectors of a channel are distinct members of the crew. */
  lemma ChannelOfCrew(cs: seq<Channel>, c: nat, shared: Pools, now: nat)
    requires c < |cs| && Crew(Flat(cs), shared, now)
    ensures var ds, at := cs[c].detectors, Offset(cs, c);
      && at + |ds| <= |Flat(cs)| && Flat(cs)[at..at + |ds|] == ds
      && Distinct(ds)
  {
    hide Fine, Flat, Offset, Distinct;
    FlatSlice(cs, c);
    DistinctSlice(Flat(cs), Offset(cs, c), cs[c].detectors);
  }

  /** What is empty in all channels is empty in each. */
  lemma ChannelEmptied(cs: seq<Channel>, c: nat, reset: nat)
    requires c < |cs| && forall i :: 0 <= i < |Flat(cs)| ==> Flat(cs)[i].Emptied() && Flat(cs)[i].lastTs == reset
    ensures forall i :: 0 <= i < |cs[c].detectors| ==>
      cs[c].detectors[i].Emptied() && cs[c].detectors[i].lastTs == reset
  {
    FlatSlice(cs, c);
    var ds, at, crew := cs[c].detectors, Offset(cs, c), Flat(cs);
    forall n | 0 <= n < |ds| ensures ds[n].Emptied() && ds[n].lastTs == reset { assert ds[n] == crew[at + n]; }
  }

  lemma CrewLater(ds: seq<Detector>, shared: Pools, now: nat, later: nat)
    requires Crew(ds, shared, now) && now <= later
    ensures Crew(ds, shared, later)
  {
    hide Detector.Valid, Pools.Valid, FallsShort;
    forall i | 0 <= i < |ds| ensures Fine(ds[i], shared, later) { assert Fine(ds[i], shared, now); }
  }

  lemma NotTwice(rs: Specs, e: Pulse)
    requires SpecsOk(rs)
    ensures !Accepts(rs, e.ts, e)
  {
  }

  /** Hands the pulse to detector `j` of the crew, and resets it on a detection. */
  method Feed(ghost crew: seq<Detector>, ghost j: nat, d: Detector, shared: Pools, e: Pulse, memory: nat)
    returns (hit: bool, ghost s: Option<Sequence>, ghost known: set<nat>)
    requires Crew(crew, shared, e.ts) && j < |crew| && d == crew[j] && e.ts < TWO64
    modifies d, shared
    ensures Crew(crew, shared, e.ts) && Moved(Ids(crew), Ids(crew), old(shared.Accounts()), shared.Accounts())
    ensures hit == s.Some? && known <= old(d.accepted) + {e.ts} && !Accepts(d.rs, d.lastTs, e)
    ensures hit ==> !FallsShort(d.rs, s.value) && Founded(d.rs, s.value, known) && d.pulses == [] && d.sequences == []
    ensures hit && Young(old(d.pulses), e.ts) ==> Backed(d.rs, s.value, known)
  {
    hide Detector.Valid, Pools.Valid, FallsShort, Backed, Founded, Young, Detector.Advanced, Accepts, Moved;
    assert Fine(crew[j], shared, e.ts) && crew[j].id in Ids(crew);
    ghost var a := shared.Accounts();
    NotTwice(d.rs, e);
    var r := d.AddPulse(e, memory);
    hit, s, known := r.Some?, r, d.accepted;
    if r.Some? {
      d.Reset(e.ts);
    }
    MovedOne(Ids(crew), d.id, |d.pulses|, |d.sequences|, a, shared.Accounts());
  }

  class PatternDetector {
    const pools: Pools
    var channels: seq<Channel>
    var lastPulseTs: nat
    var region: Region
    var radarSpec: seq<Specs>

    /** What holds between any two calls, whatever the time stamps do. */
    ghost predicate Valid()
      reads this, pools, Flat(channels)
    {
      Crew(Flat(channels), pools, lastPulseTs) && Set()
    }

    ghost predicate Set()
      reads this
    {
      && lastPulseTs < TWO64 && Equipped(channels, radarSpec)
      && (forall c, d :: 0 <= c < d < |channels| ==> channels[c].freq != channels[d].freq)
      && (region != Unset ==> Types(region) == Some(radarSpec))
      && (forall i :: 0 <= i < |radarSpec| ==> SpecsOk(radarSpec[i]))
    }

    /** The accounts of the detectors have become those of the present detectors, and no others have changed. */
    twostate predicate Accounted()
      reads this, pools
    {
      Moved(old(Ids(Flat(channels))), Ids(Flat(channels)), old(pools.Accounts()), pools.Accounts())
    }

    /** `default_dpd`, before `dfs_pattern_detector_init` sets its domain. */
    constructor (shared: Pools)
      requires shared.Valid()
      ensures Valid() && pools == shared && channels == [] && region == Unset && lastPulseTs == 0
    {
      pools, channels, lastPulseTs, region, radarSpec := shared, [], 0, Unset, [];
    }

    /** `dpd_exit`, and the part of `dpd_set_domain` that lets the channels go. */
    method ExitChannels()
      requires Valid()
      modifies this`channels, pools, Flat(channels)
      ensures Valid() && channels == [] && Accounted()
    {
      var crew := Flat(channels);
      ExitFirst(|crew|, crew, pools, lastPulseTs);
      channels := [];
      assert crew[..|crew|] == crew && crew[|crew|..] == [];
    }

    /** `dpd_set_domain`. */
    method SetDomain(r: Region) returns (ok: bool)
      requires Valid()
      modifies this, pools, Flat(channels)
      ensures Valid() && Accounted() && ok == (r != Unset || old(region) == Unset)
      ensures region == (if ok then r else Unset)
      ensures r == old(region) || !ok ==> channels == old(channels) && radarSpec == old(radarSpec)
      ensures r != old(region) && ok ==> channels == []
    {
      hide Types, Crew, Suits, Moved;
      CrewUnmoved(Flat(channels), pools, lastPulseTs);
      if region == r { return true; }
      region := Unset;
      var types := Types(r);
      if types == None { return false; }
      ExitChannels();
      radarSpec := types.value;
      region := r;
      return true;
    }

    /** `channel_detector_create`; there is memory for `room` detectors. */
    method CreateChannel(freq: nat, room: nat) returns (ok: bool)
      requires Valid() && forall c :: 0 <= c < |channels| ==> channels[c].freq != freq
      modifies this`channels, pools
      ensures Valid() && Accounted() && ok == (|radarSpec| <= room)
      ensures ok ==> 0 < |channels| && channels[0].freq == freq && channels[1..] == old(channels) && IsNew(channels[0])
      ensures !ok ==> channels == old(channels)
      ensures forall d :: d in Flat(channels) ==> d in old(Flat(channels)) || fresh(d)
    {
      hide Detector.Valid, Pools.Valid, FallsShort, Types, Moved, Ids, Fine;
      var crew := Flat(channels);
      ghost var a := pools.Accounts();
      ok := |radarSpec| <= room;
      var ds := MakeDetectors(if ok then radarSpec else radarSpec[..room], pools, crew, lastPulseTs);
      if ok {
        channels := [Channel(freq, ds)] + channels;
        assert channels[1..] == old(channels);
        assert Flat(channels) == ds + crew;
      } else {
        ghost var b := pools.Accounts();
        assert (ds + crew)[..|ds|] == ds && (ds + crew)[|ds|..] == crew;
        ExitFirst(|ds|, ds + crew, pools, lastPulseTs);
        MovedTwice(Ids(crew), Ids(ds + crew), Ids(crew), a, b, pools.Accounts());
      }
    }

    /** `channel_detector_get`. */
    method GetChannel(freq: nat, room: nat) returns (ok: bool, c: nat, ghost found: bool)
      requires Valid()
      modifies this`channels, pools
      ensures Valid() && Accounted() && found == Known(old(channels), freq) && ok == (found || |radarSpec| <= room)
      ensures ok ==> c < |channels| && channels[c].freq == freq
      ensures if found || !ok then channels == old(channels)
              else c == 0 && channels[1..] == old(channels) && IsNew(channels[0])
      ensures forall d :: d in Flat(channels) ==> d in old(Flat(channels)) || fresh(d)
    {
      hide Crew, Types, Moved;
      CrewUnmoved(Flat(channels), pools, lastPulseTs);
      ok, c, found := true, 0, true;
      while c < |channels|
        invariant c <= |channels| && forall i :: 0 <= i < c ==> channels[i].freq != freq
      {
        if channels[c].freq == freq { return; }
        c := c + 1;
      }
      ok := CreateChannel(freq, room);
      c, found := 0, false;
    }

    /** Hands the pulse to the detectors of a channel in turn, up to the first detection. */
    method Match(c: nat, e: Pulse, memory: nat -> nat)
      returns (hit: bool, ghost k: nat, ghost s: Option<Sequence>, ghost known: set<nat>)
      requires Valid() && c < |channels| && lastPulseTs == e.ts
      modifies pools, Flat(channels)
      ensures Valid() && Accounted()
      ensures hit ==> s.Some? && k < |radarSpec|
      ensures hit ==> !FallsShort(radarSpec[k], s.value) && Founded(radarSpec[k], s.value, known)
      ensures hit ==> k < |channels[c].detectors| && known <= old(channels[c].detectors[k].accepted) + {e.ts}
      ensures hit && Young(old(channels[c].detectors[k].pulses), e.ts) ==> Backed(radarSpec[k], s.value, known)
      ensures !hit ==> Dealt(channels[c], e)
    {
      hide Detector.Valid, Pools.Valid, FallsShort, Backed, Founded, Young, Types, Crew, Accepts, Flat, Offset;
      hide Moved, Ids;
      CrewUnmoved(Flat(channels), pools, e.ts);
      hit, k, s, known := false, 0, None, {};
      var ds := channels[c].detectors;
      ghost var crew, at := Flat(channels), Offset(channels, c);
      ChannelOfCrew(channels, c, pools, e.ts);
      for i := 0 to |ds|
        invariant Crew(crew, pools, e.ts) && Moved(Ids(crew), Ids(crew), old(pools.Accounts()), pools.Accounts())
        invariant forall n :: i <= n < |ds| ==>
          ds[n].accepted == old(ds[n].accepted) && ds[n].pulses == old(ds[n].pulses)
        invariant forall n :: 0 <= n < i ==> !Accepts(ds[n].rs, ds[n].lastTs, e)
      {
        k := i;
        assert ds[i] == crew[at + i];
        ghost var b := pools.Accounts();
        hit, s, known := Feed(crew, at + i, ds[i], pools, e, memory(i));
        MovedTwice(Ids(crew), Ids(crew), Ids(crew), old(pools.Accounts()), b, pools.Accounts());
        if hit { return; }
      }
    }

    /** Resets all channels if time has jumped back, with the old time; then takes the new time. */
    method NoteTime(c: nat, ts: nat)
      requires Valid() && c < |channels| && ts < TWO64
      modifies this`lastPulseTs, pools, Flat(channels)
      ensures Valid() && Accounted() && lastPulseTs == ts
      ensures ts < old(lastPulseTs) ==> forall i :: 0 <= i < |channels[c].detectors| ==>
        channels[c].detectors[i].Emptied() && channels[c].detectors[i].lastTs == old(lastPulseTs)
      ensures old(lastPulseTs) <= ts ==> forall i :: 0 <= i < |channels[c].detectors| ==>
        && channels[c].detectors[i].accepted == old(channels[c].detectors[i].accepted)
        && channels[c].detectors[i].pulses == old(channels[c].detectors[i].pulses)
    {
      hide Detector.Valid, Pools.Valid, FallsShort, Types, Flat, Fine, Moved, Ids;
      CrewUnmoved(Flat(channels), pools, lastPulseTs);
      if ts < lastPulseTs {
        ResetAll(Flat(channels), pools, lastPulseTs, lastPulseTs);
        ChannelEmptied(channels, c, lastPulseTs);
        CrewLater(Flat(channels), pools, 0, ts);
      } else {
        CrewLater(Flat(channels), pools, lastPulseTs, ts);
      }
      lastPulseTs := ts;
    }

    /** The part of `dpd_add_pulse` that follows the choice of the channel. */
    method Deal(c: nat, e: Pulse, memory: nat -> nat)
      returns (hit: bool, ghost k: nat, ghost s: Option<Sequence>, ghost known: set<nat>)
      requires Valid() && c < |channels| && e.ts < TWO64
      modifies this`lastPulseTs, pools, Flat(channels)
      ensures Valid() && Accounted() && lastPulseTs == e.ts
      ensures hit ==> old(lastPulseTs) <= e.ts && k < |radarSpec| && k < |channels[c].detectors|
      ensures hit ==> Sighting(radarSpec[k], s, known, old(channels[c].detectors[k].accepted),
                               old(channels[c].detectors[k].pulses), e.ts)
      ensures hit ==> old(channels[c].detectors[k].accepted) != {}
      ensures !hit ==> Dealt(channels[c], e)
    {
      hide Detector.Valid, Pools.Valid, FallsShort, Backed, Founded, Young, Types, Fine, Accepts, Crew, Moved, Ids;
      ghost var x, a := Ids(Flat(channels)), pools.Accounts();
      NoteTime(c, e.ts);
      ghost var b := pools.Accounts();
      hit, k, s, known := Match(c, e, memory);
      MovedTwice(x, x, x, a, b, pools.Accounts());
      if hit {
        FoundedByTwo(radarSpec[k], s.value, known, e.ts);
        if 3 <= radarSpec[k].ppbThresh { ThreeAreBacked(radarSpec[k], s.value, known); }
      }
    }

    /**
     `dpd_add_pulse`. A detection stands on accepted pulses alone; without one no sequence stands
     out anywhere, and every detector of the channel has dealt with the pulse, if there is a channel.
     */
    method AddPulse(freq: nat, e: Pulse, room: nat, memory: nat -> nat)
      returns (hit: bool, ghost k: nat, ghost s: Option<Sequence>, ghost known: set<nat>)
      requires Valid() && e.ts < TWO64
      modifies this, pools, Flat(channels)
      ensures Valid() && Accounted() && region == old(region) && radarSpec == old(radarSpec)
      ensures forall d :: d in Flat(channels) ==> d in old(Flat(channels)) || fresh(d)
      ensures region == Unset ==> hit && channels == old(channels) && lastPulseTs == old(lastPulseTs)
      ensures var served := Known(old(channels), freq) || |radarSpec| <= room;
        region != Unset ==> if served then lastPulseTs == e.ts && (hit || (exists c ::
            0 <= c < |channels| && channels[c].freq == freq && Dealt(channels[c], e)))
          else !hit && channels == old(channels) && lastPulseTs == old(lastPulseTs)
      ensures region != Unset && hit ==> old(lastPulseTs) <= e.ts && channels == old(channels) && k < |radarSpec|
      ensures region != Unset && hit ==> exists c ::
        && 0 <= c < |old(channels)| && old(channels)[c].freq == freq && k < |old(channels)[c].detectors|
        && Sighting(radarSpec[k], s, known, old(channels[c].detectors[k].accepted),
                    old(channels[c].detectors[k].pulses), e.ts)
    {
      hide Detector.Valid, Pools.Valid, Sighting, Types, Fine, Accepts, Crew, Moved, Ids;
      CrewUnmoved(Flat(channels), pools, lastPulseTs);
      ghost var x, a := Ids(Flat(channels)), pools.Accounts();
      k, s, known := 0, None, {};
      if region == Unset { return true, k, s, known; }
      ghost var found;
      var ok, c;
      ok, c, found := GetChannel(freq, room);
      if !ok { return false, k, s, known; }
      assert !found ==> IsNew(channels[c]);
      ghost var y, b := Ids(Flat(channels)), pools.Accounts();
      hit, k, s, known := Deal(c, e, memory);
      MovedTwice(x, y, y, a, b, pools.Accounts());
    }
  }

  /** A detection: what it stands on was known before but for the pulse at `ts`. */
  ghost predicate Sighting(rs: Specs, s: Option<Sequence>, known: set<nat>, was: set<nat>, queue: seq<nat>, ts: nat) {
    && s.Some? && !FallsShort(rs, s.value) && Founded(rs, s.value, known) && known <= was + {ts}
    && (Young(queue, ts) || 3 <= rs.ppbThresh ==> Backed(rs, s.value, known))
  }

  /** There is a channel of this frequency. */
  ghost predicate Known(cs: seq<Channel>, freq: nat) { exists i :: 0 <= i < |cs| && cs[i].freq == freq }

  /** A channel made since the call began. */
  twostate predicate IsNew(new c: Channel)
    reads c.detectors
  {
    forall k :: 0 <= k < |c.detectors| ==> fresh(c.detectors[k]) && c.detectors[k].Emptied()
  }

  /** No detector of the channel would take up the pulse again. */
  ghost predicate Dealt(c: Channel, e: Pulse)
    reads c.detectors
  {
    forall i :: 0 <= i < |c.detectors| ==> !Accepts(c.detectors[i].rs, c.detectors[i].lastTs, e)
  }

  /** Every channel has one detector for each pattern. */
  ghost predicate Equipped(cs: seq<Channel>, specs: seq<Specs>) {
    forall c :: 0 <= c < |cs| ==> Suits(cs[c].detectors, specs)
  }

  ghost predicate Suits(ds: seq<Detector>, specs: seq<Specs>) {
    |ds| == |specs| && forall k :: 0 <= k < |ds| ==> ds[k].rs == specs[k]
  }

  /** One more detector for a crew. */
  method MakeDetector(specs: Specs, shared: Pools, ghost crew: seq<Detector>, ghost now: nat) returns (d: Detector)
    requires Crew(crew, shared, now) && SpecsOk(specs)
    modifies shared
    ensures Crew(crew + [d], shared, now) && fresh(d) && d.Emptied() && d.rs == specs
    ensures Moved(Ids(crew), Ids(crew + [d]), old(shared.Accounts()), shared.Accounts())
  {
    hide Detector.Valid, Pools.Valid, FallsShort, Moved;
    forall i | 0 <= i < |crew| ensures crew[i].id < |shared.live| { assert Fine(crew[i], shared, now); }
    ghost var a := shared.Accounts();
    d := new Detector(specs, shared);
    MovedIn(Ids(crew), a, shared.Accounts());
    IdsWith(crew, d);
  }

  lemma IdsWith(crew: seq<Detector>, d: Detector)
    ensures Ids(crew + [d]) == Ids(crew) + {d.id}
  {
    var a := crew + [d];
    assert a[|crew|] == d;
    forall x | x in Ids(crew) ensures x in Ids(a) {
      var i :| 0 <= i < |crew| && crew[i].id == x;
      assert a[i] == crew[i];
    }
  }

  /** The order of a crew makes no difference. */
  lemma CrewTurned(a: seq<Detector>, b: seq<Detector>, shared: Pools, now: nat)
    requires Crew(a + b, shared, now)
    ensures Crew(b + a, shared, now) && Ids(b + a) == Ids(a + b)
  {
    hide Fine;
    var u, v := a + b, b + a;
    forall i | 0 <= i < |v| ensures Fine(v[i], shared, now) && v[i].id in Ids(u) {
      assert v[i] == u[if i < |b| then |a| + i else i - |b|];
    }
    forall i, j | 0 <= i < j < |v| ensures v[i].id != v[j].id {
      assert v[i] == u[if i < |b| then |a| + i else i - |b|] && v[j] == u[if j < |b| then |a| + j else j - |b|];
    }
    forall x | x in Ids(u) ensures x in Ids(v) {
      var i :| 0 <= i < |u| && u[i].id == x;
      assert u[i] == v[if i < |a| then |b| + i else i - |a|];
    }
  }

  /** One new detector for each pattern; with the old ones they make up a crew. */
  method MakeDetectors(specs: seq<Specs>, shared: Pools, ghost crew: seq<Detector>, ghost now: nat)
    returns (ds: seq<Detector>)
    requires Crew(crew, shared, now) && forall i :: 0 <= i < |specs| ==> SpecsOk(specs[i])
    modifies shared
    ensures Crew(ds + crew, shared, now) && Suits(ds, specs)
    ensures Moved(Ids(crew), Ids(ds + crew), old(shared.Accounts()), shared.Accounts())
    ensures forall k :: 0 <= k < |ds| ==> fresh(ds[k]) && ds[k].Emptied()
  {
    hide Crew, Moved, Ids;
    ds := [];
    CrewUnmoved(crew, shared, now);
    assert crew + [] == crew;
    for k := 0 to |specs|
      invariant Crew(crew + ds, shared, now)
      invariant Moved(Ids(crew), Ids(crew + ds), old(shared.Accounts()), shared.Accounts())
      invariant |ds| == k && forall i :: 0 <= i < k ==> fresh(ds[i]) && ds[i].Emptied() && ds[i].rs == specs[i]
    {
      ghost var b := shared.Accounts();
      var d := MakeDetector(specs[k], shared, crew + ds, now);
      assert crew + (ds + [d]) == crew + ds + [d];
      MovedTwice(Ids(crew), Ids(crew + ds), Ids(crew + ds + [d]), old(shared.Accounts()), b, shared.Accounts());
      ds := ds + [d];
    }
    CrewTurned(crew, ds, shared, now);
  }

  /** The Japanese chirp-width pattern, whose threshold is two pulses. */
  const JP_SEVEN: Specs := Specs(48, 105, 984, 2016, 1, 3, 2, PRI_TOLERANCE, false)

  /** Two pulses 2^32 microseconds and a PRI apart are a detection of this pattern that no pulses bear out. */
  lemma FalseAlarm(first: nat, ts: nat, known: set<nat>)
    requires first + TWO32 <= ts < TWO64 && 984 <= Delta32(ts, first) <= 2016
    ensures JP[7] == JP_SEVEN && Duration(JP_SEVEN, PriToUse(JP_SEVEN, Delta32(ts, first))) < TWO32
    ensures var c := Candidate(JP_SEVEN, [first], 0, ts);
      && Created(JP_SEVEN, [first], ts, 0, Reach(JP_SEVEN, [first], ts, 1)) == [c]
      && !FallsShort(JP_SEVEN, c) && !Backed(JP_SEVEN, c, known)
  {
    hide Duration, PriToUse, Backed, Candidate, Delta32;
    CandidateAliased(JP_SEVEN, [first], 0, ts, {first, ts});
    AliasedNotBacked(JP_SEVEN, Candidate(JP_SEVEN, [first], 0, ts), {first, ts}, known);
  }

  /** Of all patterns only that one and the FCC chirp have so low a threshold. */
  lemma LowThresholds(region: Region, i: nat)
    requires Types(region).Some? && i < |Types(region).value|
    ensures Types(region).value[i].ppbThresh <= 2 <==> region in {Fcc, Jp} && i == 7
  {
    match region
    case Unset =>
    case Fcc => FccThresholds(i);
    case Etsi => EtsiThresholds(i);
    case Jp => JpThresholds(i);
  }

  lemma FccThresholds(i: nat)
    requires i < |FCC|
    ensures FCC[i].ppbThresh <= 2 <==> i == 7
  {
  }

  lemma EtsiThresholds(i: nat)
    requires i < |ETSI|
    ensures 3 <= ETSI[i].ppbThresh
  {
  }

  lemma JpThresholds(i: nat)
    requires i < |JP|
    ensures JP[i].ppbThresh <= 2 <==> i == 7
  {
  }
}
