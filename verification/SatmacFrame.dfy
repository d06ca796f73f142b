/** When a SATMAC node's own slot stays within its frame. */
module SatmacFrame {
  import opened SlotTable
  import opened SlotMachine
  import opened SatmacRuns
  import opened SatmacLaws
  import opened Options

  /** The node halves its frame. */
  predicate Halves(c: Config, n: Node)
    requires 0 <= n.slotNum < |n.tags| && n.frameLen <= |n.tags|
  {
    && c.adjustFrame && !AdjustNeeded(c, n.tags, n.frameLen, n.freeThreshold, n.slotNum)
    && AdjustedLen(c, n.tags, n.frameLen, n.freeThreshold) < n.frameLen
  }

  /** Adjusting leaves the slot beyond the frame exactly when it halves a frame whose upper half the slot is in. */
  lemma AdjustStrands(c: Config, n: Node, draw: Draw)
    requires Runs(c, n) && n.slotCount < |n.tags| && 0 <= n.slotNum < n.frameLen
    ensures Adjust(c, n, draw).frameLen <= Adjust(c, n, draw).slotNum <==> Halves(c, n) && n.frameLen / 2 <= n.slotNum
    ensures Halves(c, n) && n.frameLen / 2 <= n.slotNum ==> n.tags[n.slotNum].sti == 0
    ensures Halves(c, n) ==> Adjust(c, n, draw).tags == n.tags && Adjust(c, n, draw).frameLen == n.frameLen / 2
  {
    hide AdjustNeeded, Sparse, FreeCount, Bch;
    assert Sane(n.tags[n.slotNum]);
  }

  /** The work phase leaves it there unless the node then moves because it hears nobody. */
  lemma WorkStrands(c: Config, n: Node, draw: Draw)
    requires Runs(c, n) && n.phase == WorkFi && n.slotCount < |n.tags| && 0 <= n.slotNum < n.frameLen
    requires WorkStep(c, n, draw).Done?
    ensures Runs(c, Adjust(c, n, draw))
    ensures var m := WorkStep(c, n, draw).node;
      m.frameLen <= m.slotNum <==>
      && Halves(c, n) && n.frameLen / 2 <= n.slotNum
      && !(c.randomIfSingle && n.bchLock == 0 && IsSingle(c, n.tags, n.frameLen / 2))
  {
    hide Adjust, Bch, Move, Halves;
    AdjustRuns(c, n, draw);
    AdjustStrands(c, n, draw);
    SendSingle(c, Adjust(c, n, draw));
  }

  lemma SendSingle(c: Config, n: Node)
    requires n.frameLen <= |n.tags|
    ensures IsSingle(c, Send(c, n).node.tags, n.frameLen) <==> IsSingle(c, n.tags, n.frameLen)
  {
    assert forall k :: 0 <= k < n.frameLen ==> Send(c, n).node.tags[k].sti == n.tags[k].sti;
  }

  /** The node's slot is in its frame afterwards, if the step ends. */
  ghost predicate InFrame(o: Outcome) { o.Done? ==> o.node.slotNum < o.node.frameLen }

  lemma RetryInFrame(c: Config, n: Node, draw: Draw)
    requires Runs(c, n) && n.slotCount < n.frameLen
    ensures InFrame(Retry(c, n, draw)) && InFrame(GiveUp(c, n, draw))
  {
    hide Bch, Release;
  }

  lemma ListenInFrame(c: Config, n: Node, draw: Draw)
    requires Runs(c, n) && n.phase == Listen && n.slotCount == n.slotNum < n.frameLen
    ensures InFrame(ListenStep(c, n, draw))
  {
    hide Bch, Synthesize, Claim;
  }

  lemma SwitchInFrame(c: Config, n: Node, draw: Draw)
    requires Runs(c, n) && n.phase == WorkAdj && n.slotCount == n.slotNum < n.frameLen
    ensures InFrame(SwitchStep(c, n, draw))
  {
    hide Bch, Release, Usable, ResetCounts;
  }

  /**
   Nothing else in the node's slot does: its slot leaves the frame exactly when merging has emptied
   it, the frame is then halved around it, and the node does not move because it hears nobody.
   */
  lemma OwnSlotStrands(c: Config, n: Node, draw: Draw)
    requires Runs(c, n) && n.slotCount == n.slotNum < n.frameLen && OwnSlotStep(c, n, draw).Done?
    ensures var o, m := OwnSlotStep(c, n, draw).node, Refresh(c, n);
      o.frameLen <= o.slotNum <==>
      && n.phase == WorkFi && Halves(c, m) && m.frameLen / 2 <= m.slotNum
      && !(c.randomIfSingle && n.bchLock == 0 && IsSingle(c, m.tags, m.frameLen / 2))
  {
    hide WorkStep, ListenStep, SwitchStep, GiveUp, Refresh, Claim, ResetCounts, Halves, Adjust;
    var m := Refresh(c, n);
    RetryInFrame(c, m, draw);
    if n.phase == Listen { ListenInFrame(c, n, draw); }
    if n.phase == WorkAdj { SwitchInFrame(c, m, draw); }
    if n.phase == WorkFi {
      AdjustStrands(c, m, draw);
      if Usable(c, m.tags[n.slotCount]) { WorkStrands(c, m, draw); }
    }
  }

  // ---------- A slot that leaves the frame ----------

  const OWN: Tag := Tag(SLOT_1HOP, 1, 1, 1, 0, false, 0, false, false)
  const HEARD: Tag := Tag(SLOT_1HOP, 7, 0, 0, 3, false, 0, false, false)

  /** Station 7 keeps slot 0 and hands slot 3 to station 8, which knows of no slot at all. */
  const SEIZING: Fi := Fi(7, [Mark(SLOT_1HOP, 7, 0, 0), Mark(SLOT_2HOP, 9, 1, 0), Mark(SLOT_FREE, 0, 0, 0),
                              Mark(SLOT_COLLISION, 8, 0, 0)], 4)
  const EMPTYING: Fi := Fi(8, [Mark(SLOT_FREE, 0, 0, 0), Mark(SLOT_FREE, 0, 0, 0), Mark(SLOT_FREE, 0, 0, 0),
                               Mark(SLOT_FREE, 0, 0, 0)], 4)

  /** Slots 0 to 2: station 7's, one that is free but in use three hops away, and one that is free. */
  predicate FirstThree(tags: seq<Tag>, count3: nat) {
    && |tags| == TABLE_SIZE && tags[0].sti == 7 && tags[0].busy == SLOT_1HOP && tags[0].psf == 0 && !tags[0].locker
    && tags[1] == FreeTag.(count3 := count3) && tags[2] == FreeTag
  }

  lemma SlotSeized(c: Config, tags: seq<Tag>)
    requires c.sti == 1 && FirstThree(tags, 0) && tags[3] == OWN
    ensures var r := Merge(c, tags, 4, SEIZING);
      r.1 == 4 && FirstThree(r.0, 1) && r.0[3].sti == 8 && r.0[3].busy == SLOT_2HOP && !r.0[3].locker
  {
    hide OwnPass, OtherPass;
    forall k | 0 <= k < 4 ensures MergedTags(c, tags, 4, SEIZING)[k] ==
      OtherRule(c, OwnSlot(c, tags, 4, SEIZING, k), SEIZING.marks[k], 7)
    {
      MergedAt(c, tags, 4, SEIZING, k);
    }
  }

  lemma SlotEmptied(c: Config, tags: seq<Tag>)
    requires c.sti == 1 && FirstThree(tags, 1) && tags[3].sti == 8 && tags[3].busy == SLOT_2HOP && !tags[3].locker
    ensures var r := Merge(c, tags, 4, EMPTYING);
      r.1 == 4 && FirstThree(r.0, 1) && r.0[3].sti == 0 && r.0[3].busy == SLOT_FREE && r.0[3].count3 == 0
  {
    hide OwnPass, OtherPass;
    forall k | 0 <= k < 4 ensures MergedTags(c, tags, 4, EMPTYING)[k] ==
      OtherRule(c, OwnSlot(c, tags, 4, EMPTYING, k), EMPTYING.marks[k], 8)
    {
      MergedAt(c, tags, 4, EMPTYING, k);
    }
  }

  lemma FreeStep(tags: seq<Tag>, n: nat, quiet: bool)
    requires n < |tags|
    ensures FreeCount(tags, 0, quiet) == 0
    ensures FreeCount(tags, n + 1, quiet) == FreeCount(tags, n, quiet) +
      if tags[n].busy == SLOT_FREE && (quiet ==> tags[n].count3 == 0) then 1 else 0
  {
  }

  lemma FreeOfFour(tags: seq<Tag>)
    requires FirstThree(tags, 1) && tags[3].busy == SLOT_FREE && tags[3].count3 == 0
    ensures FreeCount(tags, 4, true) == 2 && FreeCount(tags, 4, false) == 3 && FreeCount(tags, 2, true) == 0
  {
    hide FreeCount;
    FreeStep(tags, 0, true);
    FreeStep(tags, 1, true);
    FreeStep(tags, 2, true);
    FreeStep(tags, 3, true);
    FreeStep(tags, 0, false);
    FreeStep(tags, 1, false);
    FreeStep(tags, 2, false);
    FreeStep(tags, 3, false);
  }

  lemma RefreshedFour(c: Config, n: Node)
    requires c.sti == 1 && c.memory && c.lifetime == 3
    requires Runs(c, n) && n.frameLen == 4 && n.slotNum == 3 && n.received == [SEIZING, EMPTYING]
    requires n.tags[0] == HEARD && n.tags[1] == FreeTag && n.tags[2] == FreeTag && n.tags[3] == OWN
    ensures var m := Refresh(c, n);
      m.frameLen == 4 && FirstThree(m.tags, 1) && m.tags[3].busy == SLOT_FREE && m.tags[3].count3 == 0
  {
    hide Merge;
    var f, a := n.received, ExpireAll(c, n.tags, 4, n.slotNum, n.candidate);
    assert FirstThree(a, 0) && a[3] == OWN;
    SlotSeized(c, a);
    var x := Merge(c, a, 4, SEIZING);
    SlotEmptied(c, x.0);
    var y := Merge(c, x.0, 4, EMPTYING);
    assert f[1..] == [EMPTYING];
    assert MergeAll(c, x.0, 4, [EMPTYING]) == y by { assert [EMPTYING][1..] == []; }
    assert MergeAll(c, a, 4, f) == y;
    assert !HasLock(n.tags, 4);
  }

  /** A node whose last slot is about to be taken and emptied, with a frame that is then sparse. */
  ghost predicate Doomed(c: Config, n: Node) {
    && c.sti == 1 && c.memory && c.lifetime == 3 && c.lower == 2
    && c.adjustFrame && !c.adjust && !c.randomIfSingle
    && Runs(c, n) && n.phase == WorkFi && n.frameLen == 4 && n.slotNum == 3 && n.slotCount == 3
    && n.freeThreshold == 1 && n.received == [SEIZING, EMPTYING]
    && n.tags[0] == HEARD && n.tags[1] == FreeTag && n.tags[2] == FreeTag && n.tags[3] == OWN
  }

  /** It does happen: the node's slot leaves the frame. */
  lemma HalvingStrands(c: Config, n: Node, draw: Draw)
    requires Doomed(c, n)
    ensures OwnSlotStep(c, n, draw).Done?
    ensures OwnSlotStep(c, n, draw).node.frameLen <= OwnSlotStep(c, n, draw).node.slotNum
  {
    hide Refresh, OwnSlotStep, Adjust, FreeCount;
    RefreshedFour(c, n);
    FreeOfFour(Refresh(c, n).tags);
    FaultsIff(c, n, draw);
    OwnSlotStrands(c, n, draw);
  }

  const SETTINGS: Config := Config(1, 3, true, false, true, true, 0, 2, 512, false, false)
  const VICTIM: Node := Node(WorkFi, seq(TABLE_SIZE, k => if k == 0 then HEARD else if k == 3 then OWN else FreeTag),
                             4, 3, 3, 0, 0, 0, 0, 1, [SEIZING, EMPTYING])

  /** There is such a node. */
  lemma VictimIsDoomed()
    ensures Doomed(SETTINGS, VICTIM)
  {
    assert forall fi :: fi in VICTIM.received ==> fi == SEIZING || fi == EMPTYING;
  }

  // ---------- What becomes of the node ----------

  /** A slot beyond the frame never comes round: the node is mute, and nothing changes but its count of slots. */
  lemma StrandedIsMute(c: Config, n: Node, draw: Draw)
    requires Runs(c, n) && n.frameLen <= n.slotNum
    ensures SlotStep(c, n, draw) == Done(NextSlot(n), None)
    ensures NextSlot(n).frameLen <= NextSlot(n).slotNum
  {
  }

  /** For good. */
  lemma {:induction false} MuteForGood(c: Config, n: Node, events: seq<Event>)
    requires Runs(c, n) && n.frameLen <= n.slotNum
    ensures var r := Run(c, n, events);
      r.Some? ==> r.value.tags == n.tags && r.value.frameLen == n.frameLen && r.value.slotNum == n.slotNum
    decreases events
  {
    if events != [] {
      match events[0]
      case Hear(fi) =>
        if Hearable(c, n, fi) { HearsRuns(c, n, fi); MuteForGood(c, Hears(n, fi), events[1..]); }
      case Slot(draw) =>
        StrandedIsMute(c, n, draw);
        StepRuns(c, n, draw);
        MuteForGood(c, NextSlot(n), events[1..]);
    }
  }

  /** So the doomed node never sends or changes its table again. */
  lemma DoomedIsMute(c: Config, n: Node, draw: Draw, events: seq<Event>)
    requires Doomed(c, n)
    ensures OwnSlotStep(c, n, draw).Done? && Runs(c, OwnSlotStep(c, n, draw).node)
    ensures var m := OwnSlotStep(c, n, draw).node; var r := Run(c, m, events);
      r.Some? ==> r.value.tags == m.tags && r.value.frameLen <= r.value.slotNum
  {
    hide OwnSlotStep, Run;
    HalvingStrands(c, n, draw);
    OwnSlotRuns(c, n, draw);
    MuteForGood(c, OwnSlotStep(c, n, draw).node, events);
  }
}
