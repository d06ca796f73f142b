/** Whole runs of a SATMAC node: slots and received FIs in any order, with any random draws. */
module SatmacRuns {
  import opened SlotTable
  import opened SlotLaws
  import opened SlotMachine
  import opened Options

  datatype Event = Hear(fi: Fi) | Slot(draw: Draw)

  /** `recvFI`: without frame adjustment an FI is read as long as the node's own frame. */
  ghost predicate Hearable(c: Config, n: Node, fi: Fi) {
    Fits(fi) && (c.adjustFrame || |fi.marks| == n.frameLen)
  }

  function Hears(n: Node, fi: Fi): Node {
    n.(received := n.received + [fi.(remain := n.frameLen)])
  }

  /** The node after a run, unless the run leaves the table or hears what it cannot read. */
  ghost function Run(c: Config, n: Node, events: seq<Event>): Option<Node>
    requires Runs(c, n)
    decreases events
  {
    if events == [] then Some(n) else
    match events[0]
    case Hear(fi) =>
      if Hearable(c, n, fi) then HearsRuns(c, n, fi); Run(c, Hears(n, fi), events[1..]) else None
    case Slot(draw) =>
      StepRuns(c, n, draw);
      match SlotStep(c, n, draw)
      case Done(m, _) => Run(c, m, events[1..])
      case Fault => None
  }

  /** `Start`: a blank table, in the slot before the node's first one. */
  ghost predicate Starts(c: Config, n: Node) {
    && c.sti != 0 && FrameSize(n.frameLen) && FrameSize(c.upper) && 1 <= n.freeThreshold
    && n.phase == Init && n.received == []
    && |n.tags| == TABLE_SIZE && forall k :: 0 <= k < TABLE_SIZE ==> n.tags[k] == FreeTag
  }

  // ---------- The table stays sane ----------

  lemma HearsRuns(c: Config, n: Node, fi: Fi)
    requires Runs(c, n) && Fits(fi)
    ensures Runs(c, Hears(n, fi))
  {
  }

  lemma TagSane(c: Config, n: Node, k: nat, lock: bool)
    requires Runs(c, n) && k < |n.tags|
    ensures Runs(c, n.(tags := n.tags[k := Release(n.tags[k], lock)]))
    ensures k < n.frameLen ==> Runs(c, n.(tags := n.tags[k := Claim(c, n.tags[k])]))
  {
  }

  lemma RetryRuns(c: Config, n: Node, draw: Draw)
    requires Runs(c, n)
    ensures Retry(c, n, draw).Done? && Runs(c, Retry(c, n, draw).node)
  {
  }

  lemma GiveUpRuns(c: Config, n: Node, draw: Draw)
    requires Runs(c, n) && n.slotCount < |n.tags|
    ensures GiveUp(c, n, draw).Done? && Runs(c, GiveUp(c, n, draw).node)
  {
    TagSane(c, n, n.slotCount, true);
    var t := n.tags[n.slotCount];
    RetryRuns(c, if t.sti == c.sti then n.(tags := n.tags[n.slotCount := Release(t, true)]) else n, draw);
  }

  lemma ListenRuns(c: Config, n: Node, draw: Draw)
    requires Runs(c, n) && n.phase == Listen && n.slotCount < n.frameLen
    ensures ListenStep(c, n, draw).Done? && Runs(c, ListenStep(c, n, draw).node)
  {
    var m := Listened(c, n);
    var s := m.slotCount;
    TagSane(c, m, s, true);
    SendRuns(c, m.(slotNum := s, phase := Request, tags := m.tags[s := Claim(c, m.tags[s])]));
  }

  lemma WanderRuns(c: Config, n: Node, draw: Draw, sent: Option<Fi>)
    requires Runs(c, n) && n.slotCount < |n.tags|
    ensures Wander(c, n, draw, sent).Done? ==> Runs(c, Wander(c, n, draw, sent).node)
  {
    var k := Bch(c, n.tags, n.frameLen, n.freeThreshold, false, draw.redraw);
    if 0 <= k { MoveSane(c, n.tags, n.frameLen, n.slotCount, k, true); }
  }

  lemma MoveSane(c: Config, tags: seq<Tag>, len: nat, s: nat, k: nat, lock: bool)
    requires c.sti != 0 && SaneTable(tags, len) && s < |tags| && k < len
    ensures SaneTable(Move(c, tags, s, k, lock), len)
  {
  }

  lemma WorkRuns(c: Config, n: Node, draw: Draw)
    requires Runs(c, n) && n.phase == WorkFi && n.slotCount < |n.tags| && 0 <= n.slotNum < |n.tags|
    ensures WorkStep(c, n, draw).Done? ==> Runs(c, WorkStep(c, n, draw).node)
  {
    AdjustRuns(c, n, draw);
    var e := Send(c, Adjust(c, n, draw));
    SendRuns(c, Adjust(c, n, draw));
    WanderRuns(c, e.node, draw, e.sent);
  }

  lemma SwitchRuns(c: Config, n: Node, draw: Draw)
    requires Runs(c, n) && n.phase == WorkAdj && n.slotCount < |n.tags| && 0 <= n.slotNum < |n.tags|
    ensures SwitchStep(c, n, draw).Done? && Runs(c, SwitchStep(c, n, draw).node)
  {
    var s, k := n.slotCount, n.candidate;
    if Usable(c, n.tags[s]) && n.tags[k].count3 <= n.tags[s].count3 && Usable(c, n.tags[k]) {
      TagSane(c, n, n.slotNum, true);
      SendRuns(c, n.(phase := WorkFi, slotNum := k, tags := n.tags[n.slotNum := Release(n.tags[n.slotNum], true)]));
    } else if Usable(c, n.tags[s]) {
      TagSane(c, n, k, true);
      SendRuns(c, n.(phase := WorkFi, tags := n.tags[k := Release(n.tags[k], true)]));
    } else if !Usable(c, n.tags[k]) {
      TagSane(c, n, k, true);
      RetryRuns(c, if n.tags[k].sti == c.sti then n.(tags := n.tags[k := Release(n.tags[k], true)]) else n, draw);
    }
  }

  lemma OwnSlotRuns(c: Config, n: Node, draw: Draw)
    requires Runs(c, n) && n.slotCount == n.slotNum < n.frameLen
    ensures OwnSlotStep(c, n, draw).Done? ==> Runs(c, OwnSlotStep(c, n, draw).node)
  {
    var m := Refresh(c, n);
    var s := n.slotCount;
    match n.phase
    case Init =>
    case Listen => ListenRuns(c, n, draw);
    case WaitRequest =>
      TagSane(c, m, s, true);
      SendRuns(c, m.(phase := Request, tags := m.tags[s := Claim(c, m.tags[s])]));
      GiveUpRuns(c, m, draw);
    case Request =>
      SendRuns(c, m.(phase := WorkFi));
      GiveUpRuns(c, m, draw);
    case WorkFi =>
      GiveUpRuns(c, m, draw);
      WorkRuns(c, m, draw);
    case WorkAdj => SwitchRuns(c, m, draw);
  }

  lemma StepRuns(c: Config, n: Node, draw: Draw)
    requires Runs(c, n)
    ensures SlotStep(c, n, draw).Done? ==> Runs(c, SlotStep(c, n, draw).node)
  {
    FadeFits(n.received);
    var m := NextSlot(n);
    assert Runs(c, m);
    if m.slotCount == m.slotNum { OwnSlotRuns(c, m, draw); }
  }

  /**
   Over every run from the start, a tag is free exactly when it names no
   station, and no tag beyond the frame names one.
   */
  lemma {:induction false} RunSane(c: Config, n: Node, events: seq<Event>)
    requires Starts(c, n)
    ensures Runs(c, n)
    ensures var r := Run(c, n, events); r.Some? ==> SaneTable(r.value.tags, r.value.frameLen)
  {
    assert AllFit(n.received);
    RunRuns(c, n, events);
  }

  lemma {:induction false} RunRuns(c: Config, n: Node, events: seq<Event>)
    requires Runs(c, n)
    ensures Run(c, n, events).Some? ==> Runs(c, Run(c, n, events).value)
    decreases events
  {
    if events != [] {
      match events[0]
      case Hear(fi) =>
        if Hearable(c, n, fi) {
          HearsRuns(c, n, fi);
          RunRuns(c, Hears(n, fi), events[1..]);
        }
      case Slot(draw) =>
        StepRuns(c, n, draw);
        var o := SlotStep(c, n, draw);
        if o.Done? { RunRuns(c, o.node, events[1..]); }
    }
  }
}
