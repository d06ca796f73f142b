/** Over runs of a SATMAC node: the entry of a station that is named in every round stays in the table. */
module SatmacRenewal {
  import opened Options
  import opened SlotTable
  import opened SlotLaws
  import opened SlotRenewal
  import opened SlotMachine
  import opened SatmacRuns
  import opened SatmacLaws

  // ---------- What the node does after merging leaves the entries of others alone ----------

  /** Another station's entry is as it was, but for the counters. */
  predicate Spared(c: Config, a: Tag, b: Tag) {
    a.sti != 0 && a.sti != c.sti ==>
      && b.sti == a.sti && b.busy == a.busy && b.life == a.life && b.existed == a.existed
      && b.locker == a.locker && b.psf == a.psf
  }

  lemma SparedTwice(c: Config, a: Tag, b: Tag, d: Tag)
    requires Spared(c, a, b) && Spared(c, b, d)
    ensures Spared(c, a, d)
  {
  }

  lemma SendSpares(c: Config, n: Node, k: nat)
    requires n.frameLen <= |n.tags| && k < |n.tags|
    ensures Spared(c, n.tags[k], Send(c, n).node.tags[k])
  {
  }

  /** A slot that may be chosen is nobody else's. */
  lemma ClaimSpares(c: Config, n: Node, threshold: int, strict: bool, draw: nat, k: nat)
    requires Runs(c, n) && k < |n.tags| && 1 <= threshold
    ensures var j := Bch(c, n.tags, n.frameLen, threshold, strict, draw);
      0 <= j ==> (n.tags[j].sti == 0 || n.tags[j].sti == c.sti)
                 && Spared(c, n.tags[k], n.tags[j := Claim(c, n.tags[j])][k])
  {
    hide Bch;
    var j := Bch(c, n.tags, n.frameLen, threshold, strict, draw);
    if 0 <= j { assert Sane(n.tags[j]); }
  }

  lemma GiveUpSpares(c: Config, n: Node, draw: Draw, k: nat)
    requires Runs(c, n) && n.slotCount < |n.tags| && k < |n.tags|
    ensures GiveUp(c, n, draw).Done? && |GiveUp(c, n, draw).node.tags| == |n.tags|
    ensures Spared(c, n.tags[k], GiveUp(c, n, draw).node.tags[k])
  {
    hide Bch;
    GiveUpKeeps(c, n, draw, k);
  }

  lemma MoveSpares(c: Config, tags: seq<Tag>, s: nat, j: nat, lock: bool, k: nat)
    requires s < |tags| && j < |tags| && k < |tags|
    requires (tags[s].sti == 0 || tags[s].sti == c.sti) && (tags[j].sti == 0 || tags[j].sti == c.sti)
    ensures Spared(c, tags[k], Move(c, tags, s, j, lock)[k])
  {
  }

  lemma AdjustSpares(c: Config, n: Node, draw: Draw, k: nat)
    requires Runs(c, n) && n.slotCount == n.slotNum < |n.tags| && Usable(c, n.tags[n.slotCount]) && k < |n.tags|
    ensures Spared(c, n.tags[k], Adjust(c, n, draw).tags[k])
    ensures Usable(c, Adjust(c, n, draw).tags[n.slotCount])
  {
    hide Bch, AdjustNeeded, AdjustedLen, Move, Claim;
    var j := Bch(c, n.tags, n.frameLen, n.freeThreshold, true, draw.bch);
    ClaimSpares(c, n, n.freeThreshold, true, draw.bch, k);
    ClaimSpares(c, n, n.freeThreshold, true, draw.bch, n.slotCount);
    if 0 <= j {
      MoveSpares(c, n.tags, n.slotCount, j, false, k);
      MovedUsable(c, n.tags, n.slotCount, j);
    }
  }

  lemma MovedUsable(c: Config, tags: seq<Tag>, s: nat, j: nat)
    requires s < |tags| && j < |tags| && Usable(c, tags[s])
    ensures Usable(c, Move(c, tags, s, j, false)[s]) && Usable(c, tags[j := Claim(c, tags[j])][s])
  {
  }

  lemma WanderSpares(c: Config, n: Node, draw: Draw, sent: Option<Fi>, k: nat)
    requires Runs(c, n) && n.slotCount < |n.tags| && k < |n.tags|
    requires n.tags[n.slotCount].sti == 0 || n.tags[n.slotCount].sti == c.sti
    requires Wander(c, n, draw, sent).Done?
    ensures |Wander(c, n, draw, sent).node.tags| == |n.tags|
    ensures Spared(c, n.tags[k], Wander(c, n, draw, sent).node.tags[k])
  {
    hide Bch, Move;
    var j := Bch(c, n.tags, n.frameLen, n.freeThreshold, false, draw.redraw);
    ClaimSpares(c, n, n.freeThreshold, false, draw.redraw, k);
    if 0 <= j { MoveSpares(c, n.tags, n.slotCount, j, true, k); }
  }

  lemma WorkSpares(c: Config, n: Node, draw: Draw, k: nat)
    requires Runs(c, n) && n.phase == WorkFi && n.slotCount == n.slotNum < |n.tags| && k < |n.tags|
    requires Usable(c, n.tags[n.slotCount]) && WorkStep(c, n, draw).Done?
    ensures |WorkStep(c, n, draw).node.tags| == |n.tags|
    ensures Spared(c, n.tags[k], WorkStep(c, n, draw).node.tags[k])
  {
    hide Adjust, Wander, ResetCounts, Spared;
    AdjustRuns(c, n, draw);
    AdjustSpares(c, n, draw, k);
    var a := Adjust(c, n, draw);
    var e := Send(c, a);
    SendRuns(c, a);
    SendSpares(c, a, k);
    SentUsable(c, a, n.slotCount);
    WanderSpares(c, e.node, draw, e.sent, k);
    SparedTwice(c, n.tags[k], a.tags[k], e.node.tags[k]);
    SparedTwice(c, n.tags[k], e.node.tags[k], WorkStep(c, n, draw).node.tags[k]);
  }

  lemma SentUsable(c: Config, n: Node, s: nat)
    requires n.frameLen <= |n.tags| && s < |n.tags| && Usable(c, n.tags[s])
    ensures Send(c, n).node.tags[s].sti in {0, c.sti}
  {
  }

  /** A node with two slots leaves every entry alone but that of the candidate, if its slot is usable. */
  lemma SwitchSpares(c: Config, n: Node, draw: Draw, k: nat)
    requires Runs(c, n) && n.phase == WorkAdj && n.slotCount == n.slotNum < |n.tags| && k < |n.tags|
    requires !(k == n.candidate && Usable(c, n.tags[n.slotNum]))
    ensures SwitchStep(c, n, draw).Done? && |SwitchStep(c, n, draw).node.tags| == |n.tags|
    ensures Spared(c, n.tags[k], SwitchStep(c, n, draw).node.tags[k])
  {
    hide Bch, ResetCounts, Retry, Spared;
    SwitchKeeps(c, n, draw, k);
    var s, j := n.slotCount, n.candidate;
    if Usable(c, n.tags[s]) {
      var a := n.(phase := WorkFi, slotNum := j, tags := n.tags[s := Release(n.tags[s], true)]);
      var b := n.(phase := WorkFi, tags := n.tags[j := Release(n.tags[j], true)]);
      DropSpares(c, n, s, k, a);
      SendSpares(c, a, k);
      SparedTwice(c, n.tags[k], a.tags[k], Send(c, a).node.tags[k]);
      assert b.tags[k] == n.tags[k];
      SendSpares(c, b, k);
    } else if Usable(c, n.tags[j]) {
      SameSpared(c, n.tags[k]);
    } else {
      var m := if n.tags[j].sti == c.sti then n.(tags := n.tags[j := Release(n.tags[j], true)]) else n;
      TagSane(c, n, j, true);
      RetryKeeps(c, m, draw);
      DropSpares(c, n, j, k, n.(tags := n.tags[j := Release(n.tags[j], true)]));
      SameSpared(c, n.tags[k]);
    }
  }

  lemma SameSpared(c: Config, t: Tag)
    ensures Spared(c, t, t)
  {
  }

  /** Dropping a slot that is nobody else's spares the others. */
  lemma DropSpares(c: Config, n: Node, j: nat, k: nat, m: Node)
    requires j < |n.tags| && k < |n.tags| && m.tags == n.tags[j := Release(n.tags[j], true)]
    ensures n.tags[j].sti == 0 || n.tags[j].sti == c.sti || k != j ==> Spared(c, n.tags[k], m.tags[k])
  {
  }

  /** That one it frees and locks, though another station has it by then. */
  lemma SwitchDrops(c: Config, n: Node, draw: Draw)
    requires Runs(c, n) && n.phase == WorkAdj && n.slotCount == n.slotNum < |n.tags| && n.candidate != n.slotNum
    requires n.tags[n.candidate].sti != 0 && n.tags[n.candidate].sti != c.sti
    ensures SwitchStep(c, n, draw).Done? && |SwitchStep(c, n, draw).node.tags| == |n.tags|
    ensures var u := SwitchStep(c, n, draw).node.tags[n.candidate];
      if Usable(c, n.tags[n.slotNum]) then u.sti == 0 && u.locker else u.sti == n.tags[n.candidate].sti
  {
    hide Bch;
    SwitchKeeps(c, n, draw, n.candidate);
  }

  /** The node is about to drop its candidate slot `k`. */
  ghost predicate Drops(c: Config, n: Node, k: nat)
    requires Runs(c, n)
  {
    && n.phase == WorkAdj && k == n.candidate && 0 <= n.slotNum < |Refresh(c, n).tags|
    && Usable(c, Refresh(c, n).tags[n.slotNum])
  }

  lemma RoundSpares(c: Config, n: Node, draw: Draw, k: nat)
    requires Runs(c, n) && n.slotCount == n.slotNum < n.frameLen && n.phase != Init && n.phase != Listen
    requires OwnSlotStep(c, n, draw).Done? && k < |n.tags| && !Drops(c, n, k)
    ensures |OwnSlotStep(c, n, draw).node.tags| == |n.tags|
    ensures Spared(c, Refresh(c, n).tags[k], OwnSlotStep(c, n, draw).node.tags[k])
  {
    hide Refresh, WorkStep, SwitchStep, GiveUp, ResetCounts, Spared;
    var m, s := Refresh(c, n), n.slotCount;
    match n.phase
    case WaitRequest =>
      if Usable(c, m.tags[s]) { ClaimSends(c, m, k); } else { GiveUpSpares(c, m, draw, k); }
    case Request =>
      SendSpares(c, m.(phase := WorkFi), k);
      GiveUpSpares(c, m, draw, k);
    case WorkFi =>
      if Usable(c, m.tags[s]) { WorkSpares(c, m, draw, k); } else { GiveUpSpares(c, m, draw, k); }
    case WorkAdj => SwitchSpares(c, m, draw, k);
  }

  lemma ClaimSends(c: Config, n: Node, k: nat)
    requires n.frameLen <= |n.tags| && n.slotCount < |n.tags| && k < |n.tags| && Usable(c, n.tags[n.slotCount])
    ensures Spared(c, n.tags[k],
      Send(c, n.(phase := Request, tags := n.tags[n.slotCount := Claim(c, n.tags[n.slotCount])])).node.tags[k])
  {
    var e := n.(phase := Request, tags := n.tags[n.slotCount := Claim(c, n.tags[n.slotCount])]);
    SendSpares(c, e, k);
  }

  lemma ListenSpares(c: Config, n: Node, draw: Draw, k: nat)
    requires Runs(c, n) && n.phase == Listen && n.slotCount < n.frameLen && k < TABLE_SIZE
    ensures ListenStep(c, n, draw).Done? && |ListenStep(c, n, draw).node.tags| == TABLE_SIZE
    ensures Spared(c, if n.backoff == 0 then Listened(c, n).tags[k] else n.tags[k], ListenStep(c, n, draw).node.tags[k])
  {
    hide Bch, Listened, ResetCounts;
    ListenKeeps(c, n, draw, k);
    if n.backoff == 0 {
      var m, s := Listened(c, n), n.slotCount;
      ClaimSpares(c, m, m.freeThreshold, false, draw.bch, k);
      var e := m.(slotNum := s, phase := Request, tags := m.tags[s := Claim(c, m.tags[s])]);
      SendSpares(c, e, k);
    }
  }

  // ---------- Rounds and runs ----------

  /** What the node merges into: a blank table, the aged one, or without memory its own slots alone. */
  function Ground(c: Config, n: Node): (r: seq<Tag>)
    requires n.frameLen <= |n.tags| == TABLE_SIZE
    ensures |r| == TABLE_SIZE
  {
    if n.phase == Listen then seq(TABLE_SIZE, _ => FreeTag)
    else if c.memory then ExpireAll(c, n.tags, n.frameLen, n.slotNum, n.candidate)
    else ClearOthers(c, n.tags, n.frameLen)
  }

  /**
   In the node's own slot the station is named and not displaced, and the node does not drop its slot
   as a candidate.
   */
  ghost predicate KeptAlive(c: Config, n: Node, k: nat, x: nat)
    requires Runs(c, n) && k < TABLE_SIZE
  {
    n.phase != Init && (n.phase == Listen ==> n.backoff == 0) ==>
      && AnyNames(n.received, k, x) && !Drops(c, n, k)
      && (forall fi :: fi in n.received ==> |fi.marks| <= TABLE_SIZE)
      && !Displaced(c, Ground(c, n), n.frameLen, n.received, k, x)
  }

  lemma SparedLasting(c: Config, a: Tag, b: Tag, x: nat)
    requires Spared(c, a, b) && Lasting(a, x) && x != 0 && x != c.sti
    ensures Lasting(b, x) && (Fresh(c, a, x) ==> Fresh(c, b, x))
  {
  }

  lemma RefreshHolds(c: Config, n: Node, k: nat, x: nat)
    requires Runs(c, n) && n.phase != Init && n.phase != Listen && k < TABLE_SIZE && 2 <= c.lifetime
    requires x != 0 && x != c.sti && Lasting(n.tags[k], x) && KeptAlive(c, n, k, x)
    ensures var u := Refresh(c, n).tags[k]; Lasting(u, x) && (AnySpeaks(n.received, k, x) ==> Fresh(c, u, x))
  {
    hide Displaced, AnyNames, AnySpeaks, Drops, MergeAll;
    if c.memory {
      SynthesizeKeeps(c, n.tags, n.frameLen, n.slotNum, n.candidate, n.received, k, x);
    } else {
      BlankKeeps(c, ClearOthers(c, n.tags, n.frameLen), n.frameLen, n.received, k, x);
    }
  }

  /** A round of the node keeps the entry, and at one hop with the full lifetime if its owner was heard. */
  lemma RoundHolds(c: Config, n: Node, draw: Draw, k: nat, x: nat)
    requires Runs(c, n) && n.slotCount == n.slotNum < n.frameLen && n.phase != Init && n.phase != Listen
    requires OwnSlotStep(c, n, draw).Done? && k < TABLE_SIZE && 2 <= c.lifetime
    requires x != 0 && x != c.sti && Lasting(n.tags[k], x) && KeptAlive(c, n, k, x)
    ensures |OwnSlotStep(c, n, draw).node.tags| == TABLE_SIZE
    ensures var u := OwnSlotStep(c, n, draw).node.tags[k];
      Lasting(u, x) && (AnySpeaks(n.received, k, x) ==> Fresh(c, u, x))
  {
    hide OwnSlotStep, Displaced, AnyNames, AnySpeaks, Lasting, Fresh, Synthesize, Spared, Drops;
    RefreshHolds(c, n, k, x);
    RoundSpares(c, n, draw, k);
    SparedLasting(c, Refresh(c, n).tags[k], OwnSlotStep(c, n, draw).node.tags[k], x);
  }

  lemma ListenHolds(c: Config, n: Node, draw: Draw, k: nat, x: nat)
    requires Runs(c, n) && n.phase == Listen && n.slotCount < n.frameLen && k < TABLE_SIZE && 2 <= c.lifetime
    requires x != 0 && x != c.sti && Lasting(n.tags[k], x) && KeptAlive(c, n, k, x)
    ensures ListenStep(c, n, draw).Done? && |ListenStep(c, n, draw).node.tags| == TABLE_SIZE
    ensures var u := ListenStep(c, n, draw).node.tags[k];
      Lasting(u, x) && (n.backoff == 0 && AnySpeaks(n.received, k, x) ==> Fresh(c, u, x))
  {
    hide ListenStep, Displaced, AnyNames, AnySpeaks, Lasting, Fresh, Spared, MergeAll;
    ListenSpares(c, n, draw, k);
    if n.backoff == 0 {
      var blank := seq(TABLE_SIZE, _ => FreeTag);
      BlankKeeps(c, blank, n.frameLen, n.received, k, x);
      assert Listened(c, n).tags == MergeAll(c, blank, n.frameLen, n.received).0;
      SparedLasting(c, Listened(c, n).tags[k], ListenStep(c, n, draw).node.tags[k], x);
    } else {
      SparedLasting(c, n.tags[k], ListenStep(c, n, draw).node.tags[k], x);
    }
  }

  /** The same for any slot: only in the node's own one does anything depend on what was heard. */
  ghost predicate StepKeptAlive(c: Config, n: Node, k: nat, x: nat)
    requires Runs(c, n) && k < TABLE_SIZE
  {
    NextRuns(c, n);
    NextSlot(n).slotCount == n.slotNum ==> KeptAlive(c, NextSlot(n), k, x)
  }

  lemma StepHolds(c: Config, n: Node, draw: Draw, k: nat, x: nat)
    requires Runs(c, n) && SlotStep(c, n, draw).Done? && k < TABLE_SIZE && 2 <= c.lifetime
    requires x != 0 && x != c.sti && Lasting(n.tags[k], x) && StepKeptAlive(c, n, k, x)
    ensures Runs(c, SlotStep(c, n, draw).node) && Lasting(SlotStep(c, n, draw).node.tags[k], x)
    ensures Round(n) && AnySpeaks(NextSlot(n).received, k, x) ==> Fresh(c, SlotStep(c, n, draw).node.tags[k], x)
  {
    hide KeptAlive, OwnSlotStep, ListenStep, Lasting, Fresh, AnySpeaks;
    StepRuns(c, n, draw);
    NextRuns(c, n);
    var m := NextSlot(n);
    if m.slotCount == m.slotNum {
      if m.phase == Listen { ListenHolds(c, m, draw, k, x); OwnSlotListens(c, m, draw); }
      else if m.phase == Init { OwnSlotStarts(c, m, draw); }
      else { RoundHolds(c, m, draw, k, x); }
    }
  }

  /** In every own slot of the run it is named and not displaced. */
  ghost predicate NamedRun(c: Config, n: Node, events: seq<Event>, k: nat, x: nat)
    requires Runs(c, n) && k < TABLE_SIZE
    decreases events
  {
    events == [] ||
    match events[0]
    case Hear(fi) =>
      Hearable(c, n, fi) ==> (HearsRuns(c, n, fi); NamedRun(c, Hears(n, fi), events[1..], k, x))
    case Slot(draw) =>
      StepKeptAlive(c, n, k, x) &&
      (StepRuns(c, n, draw);
       SlotStep(c, n, draw).Done? ==> NamedRun(c, SlotStep(c, n, draw).node, events[1..], k, x))
  }

  /**
   Over every run in which it is, the entry stays in the table, whether its owner is heard, it is at two
   hops, or it is demoted to two hops on the way.
   */
  lemma {:induction false} RunHolds(c: Config, n: Node, events: seq<Event>, k: nat, x: nat)
    requires Runs(c, n) && Run(c, n, events).Some? && k < TABLE_SIZE && 2 <= c.lifetime
    requires x != 0 && x != c.sti && Lasting(n.tags[k], x) && NamedRun(c, n, events, k, x)
    ensures Runs(c, Run(c, n, events).value) && Lasting(Run(c, n, events).value.tags[k], x)
    decreases events
  {
    hide StepKeptAlive, SlotStep, Lasting;
    RunRuns(c, n, events);
    if events != [] {
      match events[0]
      case Hear(fi) =>
        HearsRuns(c, n, fi);
        RunHolds(c, Hears(n, fi), events[1..], k, x);
      case Slot(draw) =>
        StepHolds(c, n, draw, k, x);
        RunHolds(c, SlotStep(c, n, draw).node, events[1..], k, x);
    }
  }
}
