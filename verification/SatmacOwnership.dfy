/** Which slots a SATMAC node asks for, claims, keeps and gives up, phase by phase and over runs. */
module SatmacOwnership {
  import opened Options
  import opened SlotTable
  import opened SlotLaws
  import opened SlotRenewal
  import opened SlotMachine
  import opened SatmacRuns
  import opened SatmacLaws
  import opened FrameLength
  import opened SatmacPhases

  /** The slot is the node's own and uncontested. */
  predicate Mine(c: Config, t: Tag) { t.sti == c.sti && t.busy == SLOT_1HOP }

  /** Freshly claimed, with the node as its only user. */
  predicate Claimed(c: Config, t: Tag) { Mine(c, t) && t.count2 == t.count3 == 1 && t.psf == 0 }

  /** Given up, and locked or not. */
  predicate Released(t: Tag, lock: bool) {
    t.sti == 0 && t.busy == SLOT_FREE && t.count2 == t.count3 == 0 && t.psf == 0 && (t.locker <==> lock)
  }

  /** Nothing but the slots of `s` has changed. */
  ghost predicate OnlyAt(s: set<nat>, a: seq<Tag>, b: seq<Tag>) {
    |a| == |b| && forall k: nat :: k < |a| && k !in s ==> b[k] == a[k]
  }

  // ---------- Listening, asking and claiming ----------

  lemma InitLaw(c: Config, n: Node, draw: Draw)
    requires Runs(c, n) && n.slotCount == n.slotNum < n.frameLen && n.phase == Init
    ensures var o := OwnSlotStep(c, n, draw);
      o.Done? && o.sent == None && o.node.phase == Listen && o.node.backoff == 0 && o.node.tags == n.tags
  {
  }

  /** A listening node counts its back-off down; then it claims the slot it is in, asks for another, or backs off. */
  lemma ListenLaw(c: Config, n: Node, draw: Draw)
    requires Runs(c, n) && n.phase == Listen && n.slotCount < n.frameLen
    ensures var o := ListenStep(c, n, draw); o.Done? && |o.node.tags| == TABLE_SIZE
    ensures var o := ListenStep(c, n, draw); n.backoff != 0 ==>
      && o.sent == None && o.node.phase == Listen && o.node.backoff == n.backoff - 1
      && o.node.tags == n.tags && o.node.slotNum == n.slotNum
    ensures var o := ListenStep(c, n, draw); n.backoff == 0 ==>
      var m := Listened(c, n); var s := Choice(c, m.tags, m.frameLen, m.freeThreshold, false);
      && (s == {} ==>
           o.sent == None && o.node.phase == Listen && o.node.slotNum == n.slotCount && 0 <= o.node.backoff <= 20)
      && (s != {} && o.sent == None ==>
           o.node.phase == WaitRequest && o.node.slotNum in s && o.node.slotNum != n.slotCount)
      && (o.sent.Some? ==>
           && n.slotCount in s && o.node.phase == Request && o.node.slotNum == n.slotCount
           && Claimed(c, o.node.tags[n.slotCount]) && Speaks(o.sent.value, n.slotCount, c.sti))
  {
    hide Bch, Choice, Listened, Speaks, ResetCounts;
    ListenRuns(c, n, draw);
    if n.backoff == 0 {
      var m, s := Listened(c, n), n.slotCount;
      BchChoice(c, m.tags, m.frameLen, m.freeThreshold, false, draw.bch);
      ClaimSpeaks(c, m.(slotNum := s), Request, s);
    }
  }

  /** Claiming a slot and sending says so. */
  lemma ClaimSpeaks(c: Config, n: Node, phase: Phase, s: nat)
    requires n.frameLen <= |n.tags| && s < n.frameLen
    ensures var o := Send(c, n.(phase := phase, tags := n.tags[s := Claim(c, n.tags[s])]));
      && o.Done? && o.sent.Some? && Speaks(o.sent.value, s, c.sti)
      && Claimed(c, o.node.tags[s]) && o.node.phase == phase && o.node.slotNum == n.slotNum
      && |o.node.tags| == |n.tags|
  {
    SendSays(c, n.(phase := phase, tags := n.tags[s := Claim(c, n.tags[s])]));
  }

  /** A node that has asked for a slot claims it, if it is usable when it comes round, or steps back. */
  lemma WaitLaw(c: Config, n: Node, draw: Draw)
    requires Runs(c, n) && n.slotCount == n.slotNum < n.frameLen && n.phase == WaitRequest
    ensures var o, m := OwnSlotStep(c, n, draw), Refresh(c, n);
      && o.Done? && |o.node.tags| == TABLE_SIZE && (o.sent.Some? <==> Usable(c, m.tags[n.slotNum]))
      && (o.sent.Some? ==>
           && o.node.phase == Request && o.node.slotNum == n.slotNum
           && Claimed(c, o.node.tags[n.slotNum]) && Speaks(o.sent.value, n.slotNum, c.sti))
      && (o.sent == None ==> o == GiveUp(c, m, draw) && o.node.tags[n.slotNum].sti != c.sti)
  {
    hide Refresh, GiveUp, Speaks, ResetCounts, SteppedBack;
    var m := Refresh(c, n);
    ClaimSpeaks(c, m, Request, n.slotCount);
    GiveUpSteps(c, m, draw);
  }

  /** A node that has claimed a slot works in it from the next frame on, if nobody objects, or steps back. */
  lemma RequestLaw(c: Config, n: Node, draw: Draw)
    requires Runs(c, n) && n.slotCount == n.slotNum < n.frameLen && n.phase == Request
    ensures var o, m := OwnSlotStep(c, n, draw), Refresh(c, n);
      && o.Done? && |o.node.tags| == TABLE_SIZE && (o.sent.Some? <==> Usable(c, m.tags[n.slotNum]))
      && (o.sent.Some? ==>
           && o.node.phase == WorkFi && o.node.slotNum == n.slotNum && SaysTable(c, o.sent.value, m.tags, m.frameLen)
           && CountsAfresh(c, m.tags, o.node.tags, m.frameLen))
      && (o.sent == None ==> o == GiveUp(c, m, draw) && o.node.tags[n.slotNum].sti != c.sti)
  {
    hide Refresh, GiveUp, ResetCounts, SteppedBack, SaysTable, CountsAfresh;
    var m := Refresh(c, n);
    SendSays(c, m.(phase := WorkFi));
    GiveUpSteps(c, m, draw);
  }

  // ---------- Working ----------

  /** What adjusting does: another slot, or a second one as a candidate, or another frame length. */
  lemma AdjustLaw(c: Config, n: Node, draw: Draw)
    requires Runs(c, n) && n.slotCount == n.slotNum < n.frameLen && n.phase == WorkFi
    ensures var m := Adjust(c, n, draw); var s := Choice(c, n.tags, n.frameLen, n.freeThreshold, true);
      if AdjustNeeded(c, n.tags, n.frameLen, n.freeThreshold, n.slotNum) then
        && m.frameLen == n.frameLen && m.freeThreshold == n.freeThreshold
        && (s == {} ==> m.phase == WorkFi && m.slotNum == n.slotNum && m.tags == n.tags)
        && (s != {} && c.singleSlot ==>
             && m.phase == WorkFi && m.slotNum in s && Claimed(c, m.tags[m.slotNum])
             && (m.slotNum != n.slotNum ==> Released(m.tags[n.slotNum], false))
             && OnlyAt({m.slotNum as nat, n.slotCount}, n.tags, m.tags))
        && (s != {} && !c.singleSlot ==>
             && m.phase == WorkAdj && m.slotNum == n.slotNum && m.candidate in s && Claimed(c, m.tags[m.candidate])
             && OnlyAt({m.candidate as nat}, n.tags, m.tags))
      else
        && m.phase == WorkFi && m.slotNum == n.slotNum && m.tags == n.tags
        && (if c.adjustFrame
            then m.frameLen == AdjustedLen(c, n.tags, n.frameLen, n.freeThreshold)
                 && m.freeThreshold == Threshold(m.frameLen)
            else m.frameLen == n.frameLen && m.freeThreshold == n.freeThreshold)
  {
    hide Bch, Choice, AdjustNeeded, AdjustedLen, Runs;
    assert |n.tags| == TABLE_SIZE && n.frameLen <= |n.tags| && 1 <= n.freeThreshold by { RunsBasics(c, n); }
    BchChoice(c, n.tags, n.frameLen, n.freeThreshold, true, draw.bch);
  }

  lemma RunsBasics(c: Config, n: Node)
    requires Runs(c, n)
    ensures |n.tags| == TABLE_SIZE && 0 < n.frameLen <= |n.tags| && 1 <= n.freeThreshold
  {
  }

  /**
   A working node that hears nobody moves to another slot every sixth frame; if it hears somebody the
   count begins anew.
   */
  lemma LoneLaw(c: Config, n: Node, draw: Draw, sent: Option<Fi>)
    requires Runs(c, n) && n.slotCount < |n.tags| && Wander(c, n, draw, sent).Done?
    ensures var o := Wander(c, n, draw, sent); var s := Choice(c, n.tags, n.frameLen, n.freeThreshold, false);
      var lone := c.randomIfSingle && forall k :: 0 <= k < n.frameLen ==> n.tags[k].sti in {0, c.sti};
      && o.sent == sent && |o.node.tags| == TABLE_SIZE && o.node.phase == n.phase
      && (!lone ==> o.node.bchLock == 5 && o.node.slotNum == n.slotNum && o.node.tags == n.tags)
      && (lone && n.bchLock != 0 ==>
           o.node.bchLock == n.bchLock - 1 && o.node.slotNum == n.slotNum && o.node.tags == n.tags)
      && (lone && n.bchLock == 0 ==>
           && o.node.bchLock == 5 && o.node.slotNum in s && Claimed(c, o.node.tags[o.node.slotNum])
           && (o.node.slotNum != n.slotCount ==> Released(o.node.tags[n.slotCount], true))
           && OnlyAt({o.node.slotNum as nat, n.slotCount}, n.tags, o.node.tags))
  {
    hide Bch, Choice;
    BchChoice(c, n.tags, n.frameLen, n.freeThreshold, false, draw.redraw);
  }

  /**
   A node with a candidate slot ends up with one slot, if it has a usable one: of two the one with fewer
   users three hops away, the candidate if they are equal; the other is given up.
   */
  lemma SwitchLaw(c: Config, n: Node, draw: Draw)
    requires Runs(c, n) && n.phase == WorkAdj && n.slotCount == n.slotNum < n.frameLen && n.slotNum != n.candidate
    ensures var o := SwitchStep(c, n, draw); o.Done? && |o.node.tags| == TABLE_SIZE
    ensures var o, s, k := SwitchStep(c, n, draw), n.tags[n.slotNum], n.tags[n.candidate];
      && (Usable(c, s) || Usable(c, k) ==> o.node.phase == WorkFi)
      && (Usable(c, s) ==> o.sent.Some?) && (!Usable(c, s) ==> o.sent == None)
      && (Usable(c, s) && Usable(c, k) && k.count3 <= s.count3 ==>
           o.node.slotNum == n.candidate && Freed(o.node.tags[n.slotNum]) && Alike(o.node.tags[n.candidate], k))
      && (Usable(c, s) && !(Usable(c, k) && k.count3 <= s.count3) ==>
           o.node.slotNum == n.slotNum && Freed(o.node.tags[n.candidate]) && Alike(o.node.tags[n.slotNum], s))
      && (!Usable(c, s) && Usable(c, k) ==> o.node.slotNum == n.candidate && o.node.tags == n.tags)
      && (!Usable(c, s) && !Usable(c, k) ==>
           o.node.phase in {Listen, WaitRequest} && o.node.tags[n.candidate].sti != c.sti)
  {
    hide Bch, Choice;
    SwitchRuns(c, n, draw);
  }

  predicate Freed(t: Tag) { t.sti == 0 && t.busy == SLOT_FREE && t.locker }

  predicate Alike(t: Tag, u: Tag) { t.sti == u.sti && t.busy == u.busy && t.life == u.life && t.locker == u.locker }

  // ---------- A node takes no slot for its own but the one it is in, and its candidate ----------

  ghost predicate HoldsOnly(c: Config, n: Node) {
    forall k: nat :: k < |n.tags| && Mine(c, n.tags[k]) ==>
      || (n.phase in {Request, WorkFi, WorkAdj} && k == n.slotNum)
      || (n.phase == WorkAdj && k == n.candidate)
  }

  lemma MergeNotMine(c: Config, tags: seq<Tag>, len: nat, fi: Fi, k: nat)
    requires c.sti != 0 && len <= |tags| && |fi.marks| <= |tags| && k < |tags| && !Mine(c, tags[k]) && Fits(fi)
    ensures !Mine(c, Merge(c, tags, len, fi).0[k])
  {
    hide OwnPass;
    MergedAt(c, tags, len, fi, k);
  }

  lemma {:induction false} MergeAllNotMine(c: Config, tags: seq<Tag>, len: nat, fis: seq<Fi>, k: nat)
    requires c.sti != 0 && len <= |tags| && k < |tags| && !Mine(c, tags[k]) && AllFit(fis)
    requires forall fi :: fi in fis ==> |fi.marks| <= |tags|
    ensures !Mine(c, MergeAll(c, tags, len, fis).0[k])
    decreases fis
  {
    hide Merge, Mine, Fits;
    if fis != [] {
      MergeNotMine(c, tags, len, fis[0], k);
      var m := Merge(c, tags, len, fis[0]);
      MergeAllNotMine(c, m.0, m.1, fis[1..], k);
    }
  }

  /** What a round hears never makes a slot the node's own. */
  lemma RefreshNotMine(c: Config, n: Node, k: nat)
    requires Runs(c, n) && k < TABLE_SIZE && !Mine(c, n.tags[k])
    ensures !Mine(c, Refresh(c, n).tags[k])
  {
    hide MergeAll, Fits;
    FitAll(n.received);
    var tags := if c.memory then n.tags else ClearOthers(c, n.tags, n.frameLen);
    var aged := Base(c, tags, n.frameLen, n.slotNum, n.candidate, true);
    assert !Mine(c, aged[k]);
    MergeAllNotMine(c, aged, n.frameLen, n.received, k);
  }

  lemma RefreshHolds(c: Config, n: Node)
    requires Runs(c, n) && HoldsOnly(c, n)
    ensures HoldsOnly(c, Refresh(c, n))
  {
    hide Refresh, Mine;
    var m := Refresh(c, n);
    RunsBasics(c, n);
    RunsBasics(c, m);
    forall k: nat | k < |m.tags| && Mine(c, m.tags[k]) ensures Mine(c, n.tags[k]) {
      if !Mine(c, n.tags[k]) { RefreshNotMine(c, n, k); }
    }
  }

  /**
   The node moves twice in one slot, leaving a slot of its own behind: it adjusts to another slot and then,
   as it hears nobody, draws a third.
   */
  ghost predicate Strays(c: Config, n: Node, draw: Draw)
    requires Runs(c, n) && n.slotCount == n.slotNum < n.frameLen && OwnSlotStep(c, n, draw).Done?
  {
    var m := Refresh(c, n);
    var a := Adjust(c, m, draw);
    && n.phase == WorkFi && Usable(c, m.tags[n.slotCount]) && c.singleSlot && c.randomIfSingle && n.bchLock == 0
    && AdjustNeeded(c, m.tags, m.frameLen, m.freeThreshold, m.slotNum)
    && Choice(c, m.tags, m.frameLen, m.freeThreshold, true) != {}
    && a.slotNum !in {n.slotCount as int, OwnSlotStep(c, n, draw).node.slotNum}
    && forall k :: 0 <= k < a.frameLen && k < |a.tags| ==> a.tags[k].sti in {0, c.sti}
  }

  lemma AdjustHolds(c: Config, n: Node, draw: Draw)
    requires Runs(c, n) && n.slotCount == n.slotNum < n.frameLen && n.phase == WorkFi && HoldsOnly(c, n)
    ensures HoldsOnly(c, Adjust(c, n, draw))
  {
    hide Adjust, AdjustNeeded, Choice, Mine;
    RunsBasics(c, n);
    AdjustLaw(c, n, draw);
    NotMine(c);
  }

  lemma NotMine(c: Config)
    ensures forall t: Tag, lock: bool :: Released(t, lock) && c.sti != 0 ==> !Mine(c, t)
    ensures forall t: Tag :: Freed(t) && c.sti != 0 ==> !Mine(c, t)
  {
  }

  lemma SendHolds(c: Config, n: Node)
    requires n.frameLen <= |n.tags| && HoldsOnly(c, n)
    ensures HoldsOnly(c, Send(c, n).node)
  {
    hide ResetCounts;
    SendSays(c, n);
    var m := Send(c, n).node;
    forall k: nat | k < |m.tags| && Mine(c, m.tags[k]) ensures Mine(c, n.tags[k]) {}
  }

  lemma WanderHolds(c: Config, n: Node, draw: Draw, sent: Option<Fi>)
    requires Runs(c, n) && n.slotCount < |n.tags| && Wander(c, n, draw, sent).Done? && HoldsOnly(c, n)
    requires n.phase in {WorkFi, WorkAdj} && n.candidate == Wander(c, n, draw, sent).node.candidate
    requires n.slotNum in {n.slotCount as int, Wander(c, n, draw, sent).node.slotNum}
      || !(c.randomIfSingle && n.bchLock == 0 && IsSingle(c, n.tags, n.frameLen))
    ensures HoldsOnly(c, Wander(c, n, draw, sent).node)
  {
    hide Wander, Choice, Mine;
    RunsBasics(c, n);
    LoneLaw(c, n, draw, sent);
    NotMine(c);
  }

  lemma WanderCandidate(c: Config, n: Node, draw: Draw, sent: Option<Fi>)
    requires Runs(c, n) && n.slotCount < |n.tags| && Wander(c, n, draw, sent).Done?
    ensures Wander(c, n, draw, sent).node.candidate == n.candidate
  {
    hide Bch;
  }

  lemma WorkHolds(c: Config, n: Node, draw: Draw)
    requires Runs(c, n) && n.slotCount == n.slotNum < n.frameLen && n.phase == WorkFi && HoldsOnly(c, n)
    requires WorkStep(c, n, draw).Done?
    requires Adjust(c, n, draw).slotNum in {n.slotCount as int, WorkStep(c, n, draw).node.slotNum} || !(
               c.singleSlot && c.randomIfSingle && n.bchLock == 0
               && AdjustNeeded(c, n.tags, n.frameLen, n.freeThreshold, n.slotNum)
               && Choice(c, n.tags, n.frameLen, n.freeThreshold, true) != {}
               && forall k :: 0 <= k < Adjust(c, n, draw).frameLen && k < |Adjust(c, n, draw).tags| ==>
                    Adjust(c, n, draw).tags[k].sti in {0, c.sti})
    ensures HoldsOnly(c, WorkStep(c, n, draw).node)
  {
    hide Adjust, Wander, AdjustNeeded, Choice, Mine, ResetCounts;
    AdjustRuns(c, n, draw);
    AdjustLaw(c, n, draw);
    AdjustHolds(c, n, draw);
    var a := Adjust(c, n, draw);
    SendSays(c, a);
    SendHolds(c, a);
    SendRuns(c, a);
    var e := Send(c, a);
    SentLone(c, a);
    WanderCandidate(c, e.node, draw, e.sent);
    WanderHolds(c, e.node, draw, e.sent);
  }

  lemma SentLone(c: Config, n: Node)
    requires n.frameLen <= |n.tags|
    ensures IsSingle(c, Send(c, n).node.tags, n.frameLen) <==>
      forall k :: 0 <= k < n.frameLen && k < |n.tags| ==> n.tags[k].sti in {0, c.sti}
  {
    hide ResetCounts;
    SendSays(c, n);
  }

  lemma GiveUpHolds(c: Config, n: Node, draw: Draw)
    requires Runs(c, n) && n.slotCount == n.slotNum < n.frameLen && HoldsOnly(c, n) && n.phase != WorkAdj
    ensures HoldsOnly(c, GiveUp(c, n, draw).node)
  {
    hide GiveUp, SteppedBack, Choice;
    GiveUpSteps(c, n, draw);
    var m := GiveUp(c, n, draw).node;
    forall k: nat | k < |m.tags| ensures !Mine(c, m.tags[k]) {
      if k != n.slotCount { assert m.tags[k] == n.tags[k]; }
    }
  }

  lemma SwitchHolds(c: Config, n: Node, draw: Draw)
    requires Runs(c, n) && n.slotCount == n.slotNum < n.frameLen && n.phase == WorkAdj && HoldsOnly(c, n)
    ensures SwitchStep(c, n, draw).Done? && HoldsOnly(c, SwitchStep(c, n, draw).node)
  {
    hide Bch, Choice, ResetCounts, Retry;
    RunsBasics(c, n);
    var s, k := n.slotCount, n.candidate;
    if Usable(c, n.tags[s]) {
      var a := n.(phase := WorkFi, slotNum := k, tags := n.tags[s := Release(n.tags[s], true)]);
      var b := n.(phase := WorkFi, tags := n.tags[k := Release(n.tags[k], true)]);
      DroppedHolds(c, n, s, a);
      DroppedHolds(c, n, k, b);
      if n.tags[k].count3 <= n.tags[s].count3 && Usable(c, n.tags[k]) { SendHolds(c, a); } else { SendHolds(c, b); }
    } else if Usable(c, n.tags[k]) {
    } else {
      var m := if n.tags[k].sti == c.sti then n.(tags := n.tags[k := Release(n.tags[k], true)]) else n;
      TagSane(c, n, k, true);
      assert Runs(c, m);
      RetrySteps(c, m, draw);
      assert forall j: nat :: j < |m.tags| ==> !Mine(c, m.tags[j]);
    }
  }

  /** Of two slots one is dropped, and the node is in the other. */
  lemma DroppedHolds(c: Config, n: Node, k: nat, m: Node)
    requires c.sti != 0 && n.phase == WorkAdj && HoldsOnly(c, n) && k < |n.tags| && m.phase == WorkFi
    requires m.tags == n.tags[k := Release(n.tags[k], true)]
    requires m.slotNum == (if k == n.slotNum then n.candidate else n.slotNum)
    requires k in {n.slotNum, n.candidate}
    ensures HoldsOnly(c, m)
  {
  }

  lemma ListenHoldsOnly(c: Config, n: Node, draw: Draw)
    requires Runs(c, n) && n.slotCount == n.slotNum < n.frameLen && n.phase == Listen && HoldsOnly(c, n)
    ensures ListenStep(c, n, draw).Done? && HoldsOnly(c, ListenStep(c, n, draw).node)
  {
    hide Listened, Choice, ResetCounts, Mine, Claim;
    ListenLaw(c, n, draw);
    if n.backoff == 0 {
      ListenedNotMine(c, n);
      ListenedOnly(c, n, draw);
    }
  }

  lemma ListenedNotMine(c: Config, n: Node)
    requires Runs(c, n)
    ensures |Listened(c, n).tags| == TABLE_SIZE && forall k: nat :: k < TABLE_SIZE ==> !Mine(c, Listened(c, n).tags[k])
  {
    hide MergeAll, Fits;
    FitAll(n.received);
    var blank := seq(TABLE_SIZE, _ => FreeTag);
    forall k: nat | k < TABLE_SIZE ensures !Mine(c, Listened(c, n).tags[k]) {
      MergeAllNotMine(c, blank, n.frameLen, n.received, k);
    }
  }

  lemma ListenedOnly(c: Config, n: Node, draw: Draw)
    requires Runs(c, n) && n.slotCount == n.slotNum < n.frameLen && n.phase == Listen && n.backoff == 0
    requires forall k: nat :: k < TABLE_SIZE ==> !Mine(c, Listened(c, n).tags[k])
    ensures ListenStep(c, n, draw).Done?
    ensures forall k: nat :: k < |ListenStep(c, n, draw).node.tags| && Mine(c, ListenStep(c, n, draw).node.tags[k]) ==>
      ListenStep(c, n, draw).sent.Some? && k == n.slotCount
  {
    hide Listened, Bch;
    ListenRuns(c, n, draw);
  }

  /** Every own slot keeps that, unless the node strays. */
  lemma OwnSlotHolds(c: Config, n: Node, draw: Draw)
    requires Runs(c, n) && n.slotCount == n.slotNum < n.frameLen && HoldsOnly(c, n)
    requires OwnSlotStep(c, n, draw).Done? && !Strays(c, n, draw)
    ensures HoldsOnly(c, OwnSlotStep(c, n, draw).node)
  {
    hide Refresh, WorkStep, SwitchStep, ListenStep, GiveUp, Adjust, AdjustNeeded, Choice, ResetCounts, HoldsOnly;
    var m, s := Refresh(c, n), n.slotCount;
    RefreshHolds(c, n);
    match n.phase
    case Init => InitHolds(c, n, draw);
    case Listen => ListenHoldsOnly(c, n, draw);
    case WaitRequest =>
      if Usable(c, m.tags[s]) { ClaimHolds(c, m); } else { GiveUpHolds(c, m, draw); }
    case Request =>
      if Usable(c, m.tags[s]) { WorkingHolds(c, m); } else { GiveUpHolds(c, m, draw); }
    case WorkFi =>
      if Usable(c, m.tags[s]) { WorkHolds(c, m, draw); } else { GiveUpHolds(c, m, draw); }
    case WorkAdj => SwitchHolds(c, m, draw);
  }

  lemma InitHolds(c: Config, n: Node, draw: Draw)
    requires Runs(c, n) && n.slotCount == n.slotNum < n.frameLen && n.phase == Init && HoldsOnly(c, n)
    ensures OwnSlotStep(c, n, draw).Done? && HoldsOnly(c, OwnSlotStep(c, n, draw).node)
  {
    InitLaw(c, n, draw);
  }

  lemma ClaimHolds(c: Config, n: Node)
    requires n.frameLen <= |n.tags| && n.slotCount == n.slotNum < n.frameLen
    requires n.phase == WaitRequest && HoldsOnly(c, n)
    ensures var e := n.(phase := Request, tags := n.tags[n.slotCount := Claim(c, n.tags[n.slotCount])]);
      HoldsOnly(c, Send(c, e).node)
  {
    hide ResetCounts, Claim;
    var e := n.(phase := Request, tags := n.tags[n.slotCount := Claim(c, n.tags[n.slotCount])]);
    assert HoldsOnly(c, e);
    SendHolds(c, e);
  }

  lemma WorkingHolds(c: Config, n: Node)
    requires n.frameLen <= |n.tags| && n.phase == Request && HoldsOnly(c, n)
    ensures HoldsOnly(c, Send(c, n.(phase := WorkFi)).node)
  {
    hide ResetCounts;
    SendHolds(c, n.(phase := WorkFi));
  }

  /** If it does, it takes two slots for its own and is in one of them only. */
  lemma TwoSlots(c: Config, n: Node, draw: Draw)
    requires Runs(c, n) && n.slotCount == n.slotNum < n.frameLen && OwnSlotStep(c, n, draw).Done? && Strays(c, n, draw)
    ensures var o, a := OwnSlotStep(c, n, draw), Adjust(c, Refresh(c, n), draw);
      && |o.node.tags| == TABLE_SIZE && 0 <= a.slotNum < TABLE_SIZE && 0 <= o.node.slotNum < TABLE_SIZE
      && o.node.phase == WorkFi && Mine(c, o.node.tags[a.slotNum]) && Mine(c, o.node.tags[o.node.slotNum])
      && a.slotNum != o.node.slotNum && !HoldsOnly(c, o.node)
  {
    hide Refresh, Adjust, Wander, AdjustNeeded, Choice, ResetCounts, Mine, Released;
    var m := Refresh(c, n);
    RunsBasics(c, m);
    ChoiceWithin(c, m.tags, m.frameLen, m.freeThreshold, true);
    AdjustRuns(c, m, draw);
    AdjustLaw(c, m, draw);
    var a := Adjust(c, m, draw);
    SendSays(c, a);
    SendRuns(c, a);
    var e := Send(c, a);
    ChoiceWithin(c, e.node.tags, e.node.frameLen, e.node.freeThreshold, false);
    assert Mine(c, e.node.tags[a.slotNum]) by { SentMine(c, a, a.slotNum); }
    SentLone(c, a);
    LoneLaw(c, e.node, draw, e.sent);
  }

  lemma SentMine(c: Config, n: Node, k: nat)
    requires n.frameLen <= |n.tags| && k < |n.tags| && Claimed(c, n.tags[k])
    ensures Mine(c, Send(c, n).node.tags[k])
  {
  }

  /** No slot of the run strays. */
  ghost predicate StraightRun(c: Config, n: Node, events: seq<Event>)
    requires Runs(c, n)
    decreases events
  {
    events == [] ||
    match events[0]
    case Hear(fi) => Hearable(c, n, fi) ==> (HearsRuns(c, n, fi); StraightRun(c, Hears(n, fi), events[1..]))
    case Slot(draw) =>
      NextRuns(c, n);
      StepRuns(c, n, draw);
      SlotStep(c, n, draw).Done? ==>
        && (NextSlot(n).slotCount == n.slotNum ==> !Strays(c, NextSlot(n), draw))
        && StraightRun(c, SlotStep(c, n, draw).node, events[1..])
  }

  /** Over every such run the node takes no other slot for its own. */
  lemma {:induction false} RunHoldsOnly(c: Config, n: Node, events: seq<Event>)
    requires Runs(c, n) && HoldsOnly(c, n) && StraightRun(c, n, events) && Run(c, n, events).Some?
    ensures HoldsOnly(c, Run(c, n, events).value)
    decreases events
  {
    hide HoldsOnly, OwnSlotStep, Strays;
    if events != [] {
      match events[0]
      case Hear(fi) =>
        HearsRuns(c, n, fi);
        SameHolds(c, n, Hears(n, fi));
        RunHoldsOnly(c, Hears(n, fi), events[1..]);
      case Slot(draw) =>
        NextRuns(c, n);
        StepRuns(c, n, draw);
        var m := NextSlot(n);
        SameHolds(c, n, m);
        if m.slotCount == m.slotNum { OwnSlotHolds(c, m, draw); }
        RunHoldsOnly(c, SlotStep(c, n, draw).node, events[1..]);
    }
  }

  lemma SameHolds(c: Config, n: Node, m: Node)
    requires HoldsOnly(c, n) && m.tags == n.tags && m.phase == n.phase
    requires m.slotNum == n.slotNum && m.candidate == n.candidate
    ensures HoldsOnly(c, m)
  {
  }

  /** From its start, a node that does not adjust to single slots or does not move when alone never strays. */
  lemma {:induction false} NeverStrays(c: Config, n: Node, events: seq<Event>)
    requires Runs(c, n) && !(c.singleSlot && c.randomIfSingle)
    ensures StraightRun(c, n, events)
    decreases events
  {
    hide OwnSlotStep, SlotStep;
    if events != [] {
      match events[0]
      case Hear(fi) =>
        if Hearable(c, n, fi) { HearsRuns(c, n, fi); NeverStrays(c, Hears(n, fi), events[1..]); }
      case Slot(draw) =>
        NextRuns(c, n);
        StepRuns(c, n, draw);
        if SlotStep(c, n, draw).Done? { NeverStrays(c, SlotStep(c, n, draw).node, events[1..]); }
    }
  }

  lemma StartsWithNone(c: Config, n: Node)
    requires Starts(c, n)
    ensures Runs(c, n) && HoldsOnly(c, n)
  {
    assert AllFit(n.received);
  }

  // ---------- Ageing of the node's own slots ----------

  /** The slot the node is in and its candidate do not age. */
  lemma OwnSlotsStay(c: Config, n: Node, k: nat)
    requires Runs(c, n) && c.memory && n.received == [] && k < n.frameLen && n.tags[k].sti == c.sti
    requires k == n.slotNum || k == n.candidate
    ensures Refresh(c, n).tags[k] == n.tags[k].(locker := false)
  {
    assert MergeAll(c, Base(c, n.tags, n.frameLen, n.slotNum, n.candidate, true), n.frameLen, []).0 ==
      Base(c, n.tags, n.frameLen, n.slotNum, n.candidate, true);
  }

  /** One it has left behind does: it is gone, and locked, in the next round, if it was claimed on a free slot. */
  lemma StraySlotGoes(c: Config, n: Node, k: nat)
    requires Runs(c, n) && c.memory && n.received == [] && k < n.frameLen && Mine(c, n.tags[k])
    requires k != n.slotNum && k != n.candidate && n.tags[k].life == 0 && !n.tags[k].existed
    ensures Refresh(c, n).tags[k].sti == 0
  {
    assert MergeAll(c, Base(c, n.tags, n.frameLen, n.slotNum, n.candidate, true), n.frameLen, []).0 ==
      Base(c, n.tags, n.frameLen, n.slotNum, n.candidate, true);
  }
}
