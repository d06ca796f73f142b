/** What a SATMAC node promises its neighbours: when it stays silent, and when it forgets. */
module SatmacLaws {
  import opened SlotTable
  import opened SlotLaws
  import opened SlotMachine
  import opened SatmacRuns
  import opened Options

  // ---------- Silence in a contested slot ----------

  /** The node is in its slot and past listening, and the slot is its own and uncontested so far. */
  ghost predicate InOwnSlot(c: Config, n: Node) {
    && Runs(c, n) && n.slotCount == n.slotNum < n.frameLen
    && n.phase != Init && n.phase != Listen
    && n.tags[n.slotNum].sti == c.sti && n.tags[n.slotNum].busy == SLOT_1HOP
  }

  /** The table that the FIs of the round are merged into. */
  function Aged(c: Config, n: Node): seq<Tag>
    requires n.frameLen <= |n.tags|
  {
    if c.memory then ExpireAll(c, n.tags, n.frameLen, n.slotNum, n.candidate) else ClearOthers(c, n.tags, n.frameLen)
  }

  /** Unless an FI seizes it, the slot stays usable after the merging exactly when no FI objects. */
  lemma StillUsable(c: Config, n: Node)
    requires InOwnSlot(c, n)
    requires forall fi :: fi in n.received ==> !Seizes(c, fi, n.slotNum)
    ensures AllFit(n.received) && (forall fi :: fi in n.received ==> |fi.marks| <= |n.tags|)
    ensures Usable(c, Refresh(c, n).tags[n.slotNum]) <==> !Objected(c, Aged(c, n), n.frameLen, n.received, n.slotNum)
  {
    assert Held(c, Aged(c, n)[n.slotNum]) && Aged(c, n)[n.slotNum].busy == SLOT_1HOP;
    HeldMergeAll(c, Aged(c, n), n.frameLen, n.received, n.slotNum);
  }

  /** In its slot a node past listening sends an FI exactly when its slot is still usable. */
  lemma SendsIfUsable(c: Config, n: Node, draw: Draw)
    requires InOwnSlot(c, n) && OwnSlotStep(c, n, draw).Done?
    ensures OwnSlotStep(c, n, draw).sent.Some? <==> Usable(c, Refresh(c, n).tags[n.slotNum])
  {
    hide Refresh, Bch, Adjust, Move, Claim, Release, Usable, ResetCounts, Marks, IsSingle, SaneTable;
  }

  /**
   A node that begins its slot with its own uncontested tag sends its FI exactly
   when no received FI objects, provided none seizes the slot as collided under
   another id.
   */
  lemma SendsIffUnopposed(c: Config, n: Node, draw: Draw)
    requires InOwnSlot(c, n) && OwnSlotStep(c, n, draw).Done?
    requires forall fi :: fi in n.received ==> !Seizes(c, fi, n.slotNum)
    ensures forall fi :: fi in n.received ==> |fi.marks| <= |n.tags|
    ensures OwnSlotStep(c, n, draw).sent.Some? <==> !Objected(c, Aged(c, n), n.frameLen, n.received, n.slotNum)
  {
    StillUsable(c, n);
    SendsIfUsable(c, n, draw);
  }

  /** In particular it stays silent when any received FI, in any place, gives the slot to another one-hop owner. */
  lemma SilentWhenClaimed(c: Config, n: Node, draw: Draw, fi: Fi)
    requires InOwnSlot(c, n) && OwnSlotStep(c, n, draw).Done?
    requires forall f :: f in n.received ==> !Seizes(c, f, n.slotNum)
    requires fi in n.received && Claims(c, fi, n.slotNum)
    ensures OwnSlotStep(c, n, draw).sent == None
  {
    SendsIffUnopposed(c, n, draw);
    var i :| 0 <= i < |n.received| && n.received[i] == fi;
    ClaimObjects(c, Aged(c, n), n.frameLen, n.received, n.slotNum, i);
  }

  /** What becomes of the node's slot by the FIs of the round. */
  function SlotFate(c: Config, n: Node): Fate
    requires 0 <= n.slotNum < n.frameLen <= |n.tags| && forall fi :: fi in n.received ==> |fi.marks| <= |n.tags|
  {
    FateAfter(c, Mine, Aged(c, n), n.frameLen, n.received, n.slotNum, Aged(c, n)[n.slotNum].locker)
  }

  /**
   Whatever the FIs say, seizing ones included: a node that begins its slot with its own
   uncontested tag sends its FI exactly when the slot stays so or is emptied.
   */
  lemma SendsIff(c: Config, n: Node, draw: Draw)
    requires InOwnSlot(c, n) && OwnSlotStep(c, n, draw).Done?
    ensures forall fi :: fi in n.received ==> |fi.marks| <= |n.tags|
    ensures OwnSlotStep(c, n, draw).sent.Some? <==> SlotFate(c, n).Mine? || SlotFate(c, n).Emptied?
  {
    hide SlotFate, OwnSlotStep, Refresh;
    FateUsable(c, n);
    SendsIfUsable(c, n, draw);
  }

  /** The slot is usable after the merging exactly with one of these two fates. */
  lemma FateUsable(c: Config, n: Node)
    requires InOwnSlot(c, n)
    ensures forall fi :: fi in n.received ==> |fi.marks| <= |n.tags|
    ensures Usable(c, Refresh(c, n).tags[n.slotNum]) <==> SlotFate(c, n).Mine? || SlotFate(c, n).Emptied?
  {
    hide FateAfter, MergeAll, Expire;
    assert forall fi :: fi in n.received ==> Fits(fi) && |fi.marks| <= |n.tags|;
    var a := Aged(c, n);
    assert Shows(c, a[n.slotNum], Mine, a[n.slotNum].locker) by { OwnExpires(c, n.tags[n.slotNum]); }
    FateShows(c, Mine, a, n.frameLen, n.received, n.slotNum, a[n.slotNum].locker);
  }

  lemma OwnExpires(c: Config, t: Tag)
    requires t.sti == c.sti != 0
    ensures Expire(c, t, true) == t.(locker := false)
  {
  }

  /**
   So a node whose slot an FI gives to another one-hop owner is silent unless the slot is taken from it
   and then emptied.
   */
  lemma SilentIffNotEmptied(c: Config, n: Node, draw: Draw, fi: Fi)
    requires InOwnSlot(c, n) && OwnSlotStep(c, n, draw).Done?
    requires fi in n.received && Claims(c, fi, n.slotNum)
    ensures forall f :: f in n.received ==> |f.marks| <= |n.tags|
    ensures OwnSlotStep(c, n, draw).sent == None <==> !SlotFate(c, n).Emptied?
  {
    hide FateAfter, OwnSlotStep;
    SendsIff(c, n, draw);
    var i :| 0 <= i < |n.received| && n.received[i] == fi;
    ClaimedNotMine(c, Mine, Aged(c, n), n.frameLen, n.received, n.slotNum, Aged(c, n)[n.slotNum].locker, i);
  }

  /**
   The proviso is needed: one FI claims the slot, a second seizes it for
   station 8, and a third from station 8 itself leaves it free, so that the
   node finds its contested slot usable and sends.
   */
  lemma SeizureLetsItSend(c: Config, n: Node, draw: Draw)
    requires c.sti == 1 && c.memory && InOwnSlot(c, n) && n.phase == Request && n.slotNum == 0
    requires n.tags[0] == Tag(SLOT_1HOP, 1, 1, 1, 0, false, 0, false, false)
    requires n.received == [Fi(9, [Mark(SLOT_1HOP, 9, 0, 0)], 5), Fi(7, [Mark(SLOT_COLLISION, 8, 0, 0)], 5),
                            Fi(8, [Mark(SLOT_FREE, 0, 0, 0)], 5)]
    ensures Claims(c, n.received[0], n.slotNum) && OwnSlotStep(c, n, draw).sent.Some?
  {
    var f, a := n.received, Aged(c, n);
    assert a[0] == n.tags[0];
    var x := Merge(c, a, n.frameLen, f[0]);
    MergedAt(c, a, n.frameLen, f[0], 0);
    assert x.0[0].sti == 1;
    var y := Merge(c, x.0, x.1, f[1]);
    MergedAt(c, x.0, x.1, f[1], 0);
    assert y.0[0].sti == 8;
    var z := Merge(c, y.0, y.1, f[2]);
    MergedAt(c, y.0, y.1, f[2], 0);
    assert z.0[0].sti == 0;
    assert MergeAll(c, y.0, y.1, f[2..]) == z by { assert f[2..][0] == f[2] && f[2..][1..] == []; }
    assert MergeAll(c, x.0, x.1, f[1..]) == z by { assert f[1..][0] == f[1] && f[1..][1..] == f[2..]; }
    assert MergeAll(c, a, n.frameLen, f) == z;
    assert Refresh(c, n).tags[0].sti == 0;
  }

  // ---------- Choosing a slot can fail ----------

  lemma {:induction false} NoCandidates(c: Config, tags: seq<Tag>, n: nat, strict: bool)
    requires n <= |tags|
    ensures Candidates(c, tags, n, strict, false) == [] <==> forall k :: 0 <= k < n ==> !Eligible(c, tags[k], strict)
  {
    if 0 < n { NoCandidates(c, tags, n - 1, strict); }
  }

  /**
   `determine_BCH` finds a slot exactly when one is eligible, so a lone node's re-draw fails only when
   every slot is locked.
   */
  lemma BchFails(c: Config, tags: seq<Tag>, len: nat, threshold: int, strict: bool, draw: nat)
    requires len <= |tags| && 1 <= threshold
    ensures Bch(c, tags, len, threshold, strict, draw) < 0 <==>
      forall k :: 0 <= k < len ==> !Eligible(c, tags[k], strict)
  {
    NoCandidates(c, tags, len, strict);
    var r := Bch(c, tags, len, threshold, strict, draw);
    if 0 <= r { assert Eligible(c, tags[r], strict); }
  }

  /** The node hears nobody and has no slot to go to: all are locked. */
  ghost predicate Cornered(c: Config, tags: seq<Tag>, len: nat)
    requires len <= |tags|
  {
    IsSingle(c, tags, len) && forall k :: 0 <= k < len ==> !Eligible(c, tags[k], false)
  }

  /** The re-draw of a node that hears nobody fails exactly when it is due and no slot is eligible. */
  lemma WanderFaults(c: Config, n: Node, draw: Draw, sent: Option<Fi>)
    requires n.frameLen <= |n.tags| && n.slotCount < |n.tags| && 1 <= n.freeThreshold
    ensures Wander(c, n, draw, sent) == Fault <==> c.randomIfSingle && n.bchLock == 0 && Cornered(c, n.tags, n.frameLen)
  {
    hide IsSingle, Eligible;
    BchFails(c, n.tags, n.frameLen, n.freeThreshold, false, draw.redraw);
  }

  /** Sending an FI makes no difference to it. */
  lemma SendCornered(c: Config, n: Node)
    requires n.frameLen <= |n.tags|
    ensures Cornered(c, Send(c, n).node.tags, n.frameLen) <==> Cornered(c, n.tags, n.frameLen)
  {
    var t := Send(c, n).node.tags;
    assert forall k :: 0 <= k < n.frameLen ==>
      t[k].sti == n.tags[k].sti && (Eligible(c, t[k], false) <==> Eligible(c, n.tags[k], false));
  }

  /** So does the work phase, in terms of the table after the adjusting. */
  lemma WorkFaults(c: Config, n: Node, draw: Draw)
    requires Runs(c, n) && n.phase == WorkFi && n.slotCount < |n.tags| && 0 <= n.slotNum < |n.tags|
    ensures Runs(c, Adjust(c, n, draw))
    ensures WorkStep(c, n, draw) == Fault <==>
      c.randomIfSingle && n.bchLock == 0 && Cornered(c, Adjust(c, n, draw).tags, Adjust(c, n, draw).frameLen)
  {
    hide Adjust, Wander, Cornered;
    AdjustRuns(c, n, draw);
    var a := Adjust(c, n, draw);
    var e := Send(c, a);
    WanderFaults(c, e.node, draw, e.sent);
    SendCornered(c, a);
  }

  /** Nothing else in a slot fails: the condition is on the table as merging has left it. */
  lemma FaultsIff(c: Config, n: Node, draw: Draw)
    requires Runs(c, n) && n.slotCount == n.slotNum < n.frameLen
    ensures var m := Refresh(c, n); var a := Adjust(c, m, draw);
      OwnSlotStep(c, n, draw) == Fault <==>
      && n.phase == WorkFi && c.randomIfSingle && n.bchLock == 0
      && Usable(c, m.tags[n.slotCount]) && a.frameLen <= |a.tags| && Cornered(c, a.tags, a.frameLen)
  {
    hide WorkStep, SwitchStep, ListenStep, GiveUp, Refresh, Adjust, Cornered;
    var m := Refresh(c, n);
    if n.phase == Listen { ListenRuns(c, n, draw); }
    if n.phase == WorkAdj { SwitchRuns(c, m, draw); }
    if n.phase == WorkFi { WorkFaults(c, m, draw); }
    GiveUpRuns(c, m, draw);
  }

  /** It does fail: the only slot is taken from the node and emptied, and so locked, and the node then hears nobody. */
  lemma RedrawFails(c: Config, n: Node, draw: Draw)
    requires c.sti == 1 && c.memory && c.randomIfSingle && !c.adjust && !c.adjustFrame
    requires Runs(c, n) && n.phase == WorkFi && n.frameLen == 1 && n.slotNum == 0 && n.slotCount == 0 && n.bchLock == 0
    requires n.tags[0] == Tag(SLOT_1HOP, 1, 1, 1, 0, false, 0, false, false)
    requires n.received == [Fi(7, [Mark(SLOT_COLLISION, 8, 0, 0)], 5), Fi(8, [Mark(SLOT_FREE, 0, 0, 0)], 5)]
    ensures OwnSlotStep(c, n, draw) == Fault
  {
    var f, a := n.received, Aged(c, n);
    assert a[0] == n.tags[0];
    var x := Merge(c, a, 1, f[0]);
    MergedAt(c, a, 1, f[0], 0);
    var y := Merge(c, x.0, x.1, f[1]);
    MergedAt(c, x.0, x.1, f[1], 0);
    assert x.1 == 1 && y.1 == 1 && y.0[0].sti == 0 && y.0[0].locker;
    assert MergeAll(c, x.0, x.1, f[1..]) == y by { assert f[1..][0] == f[1] && f[1..][1..] == []; }
    assert MergeAll(c, a, 1, f) == y;
    assert !HasLock(n.tags, 1);
    var m := Refresh(c, n);
    assert m.tags == y.0 && m.frameLen == 1;
    assert Adjust(c, m, draw) == m;
    FaultsIff(c, n, draw);
  }

  // ---------- Forgetting ----------

  /** A slot in which the table ages: the node's own, past listening. */
  predicate Round(n: Node)
    requires 0 < n.frameLen
  {
    n.phase != Init && n.phase != Listen && NextSlot(n).slotCount == n.slotNum
  }

  /** A tag that is kept as it is, given up, or the node's own. */
  predicate Kept(c: Config, a: Tag, b: Tag) {
    && (Mortal(c, a) ==> Mortal(c, b))
    && (b.sti == 0 || b.sti == c.sti ||
        (b.sti == a.sti && b.busy == a.busy && b.life == a.life && b.existed == a.existed))
  }

  lemma KeptRank(c: Config, a: Tag, b: Tag, x: nat)
    requires Kept(c, a, b) && x != 0 && x != c.sti && Mortal(c, a) && 0 <= c.lifetime
    ensures Mortal(c, b) && Rank(c, b, x) <= Rank(c, a, x)
  {
  }

  lemma SendKeeps(c: Config, n: Node, k: nat)
    requires n.frameLen <= |n.tags| && k < |n.tags|
    ensures Kept(c, n.tags[k], Send(c, n).node.tags[k])
  {
  }

  lemma RetryKeeps(c: Config, n: Node, draw: Draw)
    requires Runs(c, n)
    ensures Retry(c, n, draw).Done? && Retry(c, n, draw).node.tags == n.tags
  {
  }

  lemma GiveUpKeeps(c: Config, n: Node, draw: Draw, k: nat)
    requires Runs(c, n) && n.slotCount < |n.tags| && k < |n.tags|
    ensures GiveUp(c, n, draw).Done? && |GiveUp(c, n, draw).node.tags| == |n.tags|
    ensures Kept(c, n.tags[k], GiveUp(c, n, draw).node.tags[k])
  {
    RetryKeeps(c, n, draw);
    TagSane(c, n, n.slotCount, true);
    RetryKeeps(c, n.(tags := n.tags[n.slotCount := Release(n.tags[n.slotCount], true)]), draw);
  }

  lemma SwitchKeeps(c: Config, n: Node, draw: Draw, k: nat)
    requires Runs(c, n) && n.phase == WorkAdj && n.slotCount < |n.tags| && 0 <= n.slotNum < |n.tags| && k < |n.tags|
    ensures SwitchStep(c, n, draw).Done? && |SwitchStep(c, n, draw).node.tags| == |n.tags|
    ensures Kept(c, n.tags[k], SwitchStep(c, n, draw).node.tags[k])
  {
    var s, j := n.slotCount, n.candidate;
    var a, b := n.tags[n.slotNum := Release(n.tags[n.slotNum], true)], n.tags[j := Release(n.tags[j], true)];
    if Usable(c, n.tags[s]) {
      var m := if n.tags[j].count3 <= n.tags[s].count3 && Usable(c, n.tags[j])
        then n.(phase := WorkFi, slotNum := j, tags := a) else n.(phase := WorkFi, tags := b);
      SendKeeps(c, m, k);
      KeptTwice(c, n.tags[k], m.tags[k], Send(c, m).node.tags[k]);
    } else if !Usable(c, n.tags[j]) {
      TagSane(c, n, j, true);
      RetryKeeps(c, n, draw);
      RetryKeeps(c, n.(tags := b), draw);
    }
  }

  lemma MoveKeeps(c: Config, tags: seq<Tag>, s: nat, j: nat, lock: bool, k: nat)
    requires s < |tags| && j < |tags| && k < |tags|
    ensures Kept(c, tags[k], Move(c, tags, s, j, lock)[k])
  {
  }

  lemma AdjustKeeps(c: Config, n: Node, draw: Draw, k: nat)
    requires Runs(c, n) && n.slotCount < |n.tags| && 0 <= n.slotNum < |n.tags| && k < |n.tags|
    ensures Kept(c, n.tags[k], Adjust(c, n, draw).tags[k])
  {
    var j := Bch(c, n.tags, n.frameLen, n.freeThreshold, true, draw.bch);
    if 0 <= j { MoveKeeps(c, n.tags, n.slotCount, j, false, k); }
  }

  lemma WanderKeeps(c: Config, n: Node, draw: Draw, sent: Option<Fi>, k: nat)
    requires n.frameLen <= |n.tags| && n.slotCount < |n.tags| && 1 <= n.freeThreshold && k < |n.tags|
    requires Wander(c, n, draw, sent).Done?
    ensures |Wander(c, n, draw, sent).node.tags| == |n.tags|
    ensures Kept(c, n.tags[k], Wander(c, n, draw, sent).node.tags[k])
  {
    var j := Bch(c, n.tags, n.frameLen, n.freeThreshold, false, draw.redraw);
    if 0 <= j { MoveKeeps(c, n.tags, n.slotCount, j, true, k); }
  }

  lemma KeptTwice(c: Config, a: Tag, b: Tag, d: Tag)
    requires Kept(c, a, b) && Kept(c, b, d)
    ensures Kept(c, a, d)
  {
  }

  lemma WorkKeeps(c: Config, n: Node, draw: Draw, k: nat)
    requires Runs(c, n) && n.phase == WorkFi && n.slotCount < |n.tags| && 0 <= n.slotNum < |n.tags| && k < |n.tags|
    requires WorkStep(c, n, draw).Done?
    ensures |WorkStep(c, n, draw).node.tags| == |n.tags|
    ensures Kept(c, n.tags[k], WorkStep(c, n, draw).node.tags[k])
  {
    AdjustRuns(c, n, draw);
    AdjustKeeps(c, n, draw, k);
    var a := Adjust(c, n, draw);
    var e := Send(c, a);
    SendKeeps(c, a, k);
    KeptTwice(c, n.tags[k], a.tags[k], e.node.tags[k]);
    WanderKeeps(c, e.node, draw, e.sent, k);
    KeptTwice(c, n.tags[k], e.node.tags[k], WorkStep(c, n, draw).node.tags[k]);
  }

  /** A slot in the table after a round, whatever the handler then does with it. */
  lemma RoundKeeps(c: Config, n: Node, draw: Draw, k: nat)
    requires Runs(c, n) && n.slotCount == n.slotNum < n.frameLen && n.phase != Init && n.phase != Listen
    requires OwnSlotStep(c, n, draw).Done? && k < |n.tags|
    ensures |OwnSlotStep(c, n, draw).node.tags| == |n.tags|
    ensures Kept(c, Refresh(c, n).tags[k], OwnSlotStep(c, n, draw).node.tags[k])
  {
    var m, s := Refresh(c, n), n.slotCount;
    match n.phase
    case WaitRequest =>
      SendKeeps(c, m.(phase := Request, tags := m.tags[s := Claim(c, m.tags[s])]), k);
      GiveUpKeeps(c, m, draw, k);
    case Request =>
      SendKeeps(c, m.(phase := WorkFi), k);
      GiveUpKeeps(c, m, draw, k);
    case WorkFi =>
      GiveUpKeeps(c, m, draw, k);
      if Usable(c, m.tags[s]) { WorkKeeps(c, m, draw, k); }
    case WorkAdj => SwitchKeeps(c, m, draw, k);
  }

  /** The table that the node's own slot merges FIs into: an empty one while it listens. */
  function MergedInto(c: Config, n: Node): (r: seq<Tag>)
    requires n.frameLen <= |n.tags| == TABLE_SIZE
    ensures |r| == TABLE_SIZE
  {
    if n.phase == Listen then seq(TABLE_SIZE, _ => FreeTag)
    else Base(c, n.tags, n.frameLen, n.slotNum, n.candidate, true)
  }

  /** In its own slot the node merges an FI that renews the entry of `x` in slot `k`. */
  ghost predicate Revives(c: Config, n: Node, k: nat, x: nat)
    requires Runs(c, n) && k < TABLE_SIZE
  {
    && n.phase != Init && (n.phase == Listen ==> n.backoff == 0)
    && (forall fi :: fi in n.received ==> |fi.marks| <= TABLE_SIZE)
    && Renewed(c, MergedInto(c, n), n.frameLen, n.received, k, x)
  }

  /** The entry of `x` in slot `k` lives on, and no longer unless it is revived. */
  ghost predicate Ages(c: Config, a: Tag, b: Tag, x: nat, revived: bool, round: bool) {
    && Mortal(c, b)
    && (x != 0 && x != c.sti && !revived ==>
         && Rank(c, b, x) <= Rank(c, a, x)
         && (round && Rank(c, a, x) != 0 ==> Rank(c, b, x) < Rank(c, a, x)))
  }

  lemma FitAll(fis: seq<Fi>)
    requires AllFit(fis)
    ensures forall fi :: fi in fis ==> |fi.marks| <= TABLE_SIZE
  {
    assert forall fi :: fi in fis ==> Fits(fi);
  }

  lemma RoundAges(c: Config, n: Node, draw: Draw, k: nat, x: nat)
    requires Runs(c, n) && n.slotCount == n.slotNum < n.frameLen && n.phase != Init && n.phase != Listen
    requires OwnSlotStep(c, n, draw).Done? && k < |n.tags|
    requires c.memory && 2 <= c.lifetime && Mortal(c, n.tags[k])
    ensures |OwnSlotStep(c, n, draw).node.tags| == |n.tags|
    ensures Ages(c, n.tags[k], OwnSlotStep(c, n, draw).node.tags[k], x, Revives(c, n, k, x), true)
  {
    hide Renewed, OwnSlotStep, Synthesize, Rank;
    FitAll(n.received);
    SynthesizeLife(c, n.tags, n.frameLen, n.slotNum, n.candidate, true, n.received, k, x);
    RoundKeeps(c, n, draw, k);
    if x != 0 && x != c.sti { KeptRank(c, Refresh(c, n).tags[k], OwnSlotStep(c, n, draw).node.tags[k], x); }
  }

  /** What listening leaves in the table. */
  lemma ListenKeeps(c: Config, n: Node, draw: Draw, k: nat)
    requires Runs(c, n) && n.phase == Listen && n.slotCount < n.frameLen && k < TABLE_SIZE
    ensures ListenStep(c, n, draw).Done? && |ListenStep(c, n, draw).node.tags| == TABLE_SIZE
    ensures Kept(c, if n.backoff == 0 then Listened(c, n).tags[k] else n.tags[k], ListenStep(c, n, draw).node.tags[k])
  {
    ListenRuns(c, n, draw);
    if n.backoff == 0 {
      var m, s := Listened(c, n), n.slotCount;
      if Bch(c, m.tags, m.frameLen, m.freeThreshold, false, draw.bch) == s {
        var e := m.(slotNum := s, phase := Request, tags := m.tags[s := Claim(c, m.tags[s])]);
        SendKeeps(c, e, k);
        KeptTwice(c, m.tags[k], e.tags[k], Send(c, e).node.tags[k]);
      }
    }
  }

  lemma ListenAges(c: Config, n: Node, draw: Draw, k: nat, x: nat)
    requires Runs(c, n) && n.phase == Listen && n.slotCount < n.frameLen && k < |n.tags|
    requires 2 <= c.lifetime && Mortal(c, n.tags[k])
    ensures ListenStep(c, n, draw).Done? && |ListenStep(c, n, draw).node.tags| == |n.tags|
    ensures Ages(c, n.tags[k], ListenStep(c, n, draw).node.tags[k], x, Revives(c, n, k, x), false)
  {
    hide Renewed, ListenStep, Synthesize;
    FitAll(n.received);
    ListenKeeps(c, n, draw, k);
    var blank := seq(TABLE_SIZE, _ => FreeTag);
    SynthesizeLife(c, blank, n.frameLen, n.slotNum, n.candidate, false, n.received, k, x);
    if x != 0 && x != c.sti {
      KeptRank(c, if n.backoff == 0 then Listened(c, n).tags[k] else n.tags[k], ListenStep(c, n, draw).node.tags[k], x);
    }
  }

  /** In this slot the node merges an FI that renews the entry. */
  ghost predicate StepRevives(c: Config, n: Node, k: nat, x: nat)
    requires Runs(c, n) && k < TABLE_SIZE
  {
    NextRuns(c, n);
    NextSlot(n).slotCount == n.slotNum && Revives(c, NextSlot(n), k, x)
  }

  lemma NextRuns(c: Config, n: Node)
    requires Runs(c, n)
    ensures Runs(c, NextSlot(n))
  {
    FadeFits(n.received);
  }

  lemma StepAges(c: Config, n: Node, draw: Draw, k: nat, x: nat)
    requires Runs(c, n) && SlotStep(c, n, draw).Done? && k < |n.tags|
    requires c.memory && 2 <= c.lifetime && Mortal(c, n.tags[k])
    ensures Runs(c, SlotStep(c, n, draw).node)
    ensures Ages(c, n.tags[k], SlotStep(c, n, draw).node.tags[k], x, StepRevives(c, n, k, x), Round(n))
  {
    hide Revives, OwnSlotStep, ListenStep, Rank;
    StepRuns(c, n, draw);
    NextRuns(c, n);
    var m := NextSlot(n);
    if m.slotCount == m.slotNum {
      if m.phase == Listen { ListenAges(c, m, draw, k, x); OwnSlotListens(c, m, draw); }
      else if m.phase == Init { OwnSlotStarts(c, m, draw); }
      else { RoundAges(c, m, draw, k, x); }
    }
  }

  lemma OwnSlotListens(c: Config, n: Node, draw: Draw)
    requires Runs(c, n) && n.slotCount == n.slotNum < n.frameLen && n.phase == Listen
    ensures OwnSlotStep(c, n, draw) == ListenStep(c, n, draw)
  {
  }

  lemma OwnSlotStarts(c: Config, n: Node, draw: Draw)
    requires Runs(c, n) && n.slotCount == n.slotNum < n.frameLen && n.phase == Init
    ensures OwnSlotStep(c, n, draw).Done? && OwnSlotStep(c, n, draw).node.tags == n.tags
  {
  }

  /** The rounds of a run. */
  ghost function Rounds(c: Config, n: Node, events: seq<Event>): nat
    requires Runs(c, n)
    decreases events
  {
    if events == [] then 0 else
    match events[0]
    case Hear(fi) =>
      if Hearable(c, n, fi) then HearsRuns(c, n, fi); Rounds(c, Hears(n, fi), events[1..]) else 0
    case Slot(draw) =>
      StepRuns(c, n, draw);
      match SlotStep(c, n, draw)
      case Done(m, _) => (if Round(n) then 1 else 0) + Rounds(c, m, events[1..])
      case Fault => 0
  }

  /** No slot of the run merges an FI that renews the entry. */
  ghost predicate QuietRun(c: Config, n: Node, events: seq<Event>, k: nat, x: nat)
    requires Runs(c, n) && k < TABLE_SIZE
    decreases events
  {
    events == [] ||
    match events[0]
    case Hear(fi) =>
      Hearable(c, n, fi) ==> (HearsRuns(c, n, fi); QuietRun(c, Hears(n, fi), events[1..], k, x))
    case Slot(draw) =>
      !StepRevives(c, n, k, x) &&
      (StepRuns(c, n, draw);
       SlotStep(c, n, draw).Done? ==> QuietRun(c, SlotStep(c, n, draw).node, events[1..], k, x))
  }

  lemma {:induction false} RunAges(c: Config, n: Node, events: seq<Event>, k: nat, x: nat)
    requires Runs(c, n) && Run(c, n, events).Some? && k < TABLE_SIZE
    requires c.memory && 2 <= c.lifetime && Mortal(c, n.tags[k]) && x != 0 && x != c.sti
    ensures Runs(c, Run(c, n, events).value)
    ensures var t := Run(c, n, events).value.tags[k];
      && Mortal(c, t)
      && (QuietRun(c, n, events, k, x) ==>
            Rank(c, t, x) <= 0 || Rank(c, t, x) + Rounds(c, n, events) <= Rank(c, n.tags[k], x))
    decreases events
  {
    hide StepRevives, SlotStep, Rank;
    RunRuns(c, n, events);
    if events != [] {
      match events[0]
      case Hear(fi) =>
        HearsRuns(c, n, fi);
        RunAges(c, Hears(n, fi), events[1..], k, x);
      case Slot(draw) =>
        StepAges(c, n, draw, k, x);
        RunAges(c, SlotStep(c, n, draw).node, events[1..], k, x);
    }
  }

  /** In every state a node reaches from its start, no entry has more than the configured life. */
  lemma ReachedMortal(c: Config, n: Node, events: seq<Event>, k: nat)
    requires Starts(c, n) && c.memory && 2 <= c.lifetime && k < |n.tags|
    ensures Runs(c, n) && (Run(c, n, events).Some? ==>
      |Run(c, n, events).value.tags| == TABLE_SIZE && Mortal(c, Run(c, n, events).value.tags[k]))
  {
    assert AllFit(n.received);
    if Run(c, n, events).Some? {
      RunAges(c, n, events, k, c.sti + 1);
    }
  }

  /**
   With slot memory and a lifetime of at least two, the entry of another station is gone after
   `lifetime` rounds, whether or not it becomes a two-hop entry on the way, unless an FI was merged
   that named the station, or a neighbour's own claim to the slot while the entry was a one-hop one.
   */
  lemma RunForgets(c: Config, n: Node, events: seq<Event>, k: nat, x: nat)
    requires Runs(c, n) && Run(c, n, events).Some? && k < TABLE_SIZE
    requires c.memory && 2 <= c.lifetime && Mortal(c, n.tags[k]) && x != 0 && x != c.sti
    requires QuietRun(c, n, events, k, x)
    requires c.lifetime <= Rounds(c, n, events)
    ensures |Run(c, n, events).value.tags| == TABLE_SIZE && Run(c, n, events).value.tags[k].sti != x
  {
    RunAges(c, n, events, k, x);
  }

  // ---------- Forgetting what nobody names ----------

  ghost predicate AllSilent(c: Config, fis: seq<Fi>, k: nat, x: nat, far: bool) {
    forall fi :: fi in fis ==> Silent(c, fi, k, x, far)
  }

  lemma FadeSilent(c: Config, fis: seq<Fi>, k: nat, x: nat, far: bool)
    requires AllSilent(c, fis, k, x, far)
    ensures AllSilent(c, Fade(fis), k, x, far)
  {
    forall fi | fi in Fade(fis) ensures Silent(c, fi, k, x, far) {
      Faded(fis, fi);
      assert Silent(c, fi.(remain := fi.remain + 1), k, x, far);
    }
  }

  lemma KeptNotNear(c: Config, a: Tag, b: Tag, x: nat)
    requires Kept(c, a, b) && NotNear(a, x) && x != 0 && x != c.sti
    ensures NotNear(b, x)
  {
  }

  /** In its own slot the node leaves an entry that nothing names unrenewed, and no nearer than it was. */
  lemma OwnSlotSilent(c: Config, n: Node, draw: Draw, k: nat, x: nat, far: bool)
    requires Runs(c, n) && n.slotCount == n.slotNum < n.frameLen && OwnSlotStep(c, n, draw).Done? && k < TABLE_SIZE
    requires c.memory && x != 0 && x != c.sti && AllSilent(c, n.received, k, x, far) && (far ==> NotNear(n.tags[k], x))
    ensures !Revives(c, n, k, x) && |OwnSlotStep(c, n, draw).node.tags| == TABLE_SIZE
    ensures far ==> NotNear(OwnSlotStep(c, n, draw).node.tags[k], x)
  {
    hide Renewed, MergeAll, OwnSlotStep, ListenStep, Expire;
    FitAll(n.received);
    if n.phase == Init {
      OwnSlotStarts(c, n, draw);
    } else {
      assert far ==> NotNear(MergedInto(c, n)[k], x) by {
        ExpireNotNear(c, n.tags[k], k == n.slotNum || k == n.candidate, x);
      }
      SilentMerge(c, MergedInto(c, n), n.frameLen, n.received, k, x, far);
      if n.phase == Listen {
        OwnSlotListens(c, n, draw);
        ListenKeeps(c, n, draw, k);
        if far && n.backoff == 0 { KeptNotNear(c, Listened(c, n).tags[k], ListenStep(c, n, draw).node.tags[k], x); }
      } else {
        RoundKeeps(c, n, draw, k);
        if far { KeptNotNear(c, Refresh(c, n).tags[k], OwnSlotStep(c, n, draw).node.tags[k], x); }
      }
    }
  }

  lemma ExpireNotNear(c: Config, t: Tag, kept: bool, x: nat)
    ensures NotNear(t, x) && x != 0 ==> NotNear(Expire(c, t, kept), x)
  {
  }

  /** No FI heard in the run names the station in the slot; unless `far`, none is a neighbour's own claim to it. */
  ghost predicate SilentRun(c: Config, events: seq<Event>, k: nat, x: nat, far: bool) {
    forall i :: 0 <= i < |events| && events[i].Hear? ==> Silent(c, events[i].fi, k, x, far)
  }

  lemma {:induction false} SilentIsQuiet(c: Config, n: Node, events: seq<Event>, k: nat, x: nat, far: bool)
    requires Runs(c, n) && Run(c, n, events).Some? && k < TABLE_SIZE && c.memory && x != 0 && x != c.sti
    requires AllSilent(c, n.received, k, x, far) && SilentRun(c, events, k, x, far) && (far ==> NotNear(n.tags[k], x))
    ensures QuietRun(c, n, events, k, x)
    decreases events
  {
    hide Revives, OwnSlotStep, NotNear, Silent;
    if events != [] {
      assert SilentRun(c, events[1..], k, x, far);
      match events[0]
      case Hear(fi) =>
        HearsRuns(c, n, fi);
        assert Silent(c, fi.(remain := n.frameLen), k, x, far) by { SilentAnyway(c, fi, n.frameLen, k, x, far); }
        SilentIsQuiet(c, Hears(n, fi), events[1..], k, x, far);
      case Slot(draw) =>
        StepRuns(c, n, draw);
        NextRuns(c, n);
        FadeSilent(c, n.received, k, x, far);
        if NextSlot(n).slotCount == n.slotNum { OwnSlotSilent(c, NextSlot(n), draw, k, x, far); }
        SilentIsQuiet(c, SlotStep(c, n, draw).node, events[1..], k, x, far);
    }
  }

  lemma SilentAnyway(c: Config, fi: Fi, remain: int, k: nat, x: nat, far: bool)
    requires Silent(c, fi, k, x, far)
    ensures Silent(c, fi.(remain := remain), k, x, far)
  {
  }

  /**
   An entry that is not one hop away is gone after `lifetime` rounds in which no FI names the station.
   A one-hop entry is, too, if moreover no neighbour claims the slot for itself.
   */
  lemma UnnamedForgotten(c: Config, n: Node, events: seq<Event>, k: nat, x: nat, far: bool)
    requires Runs(c, n) && Run(c, n, events).Some? && k < TABLE_SIZE
    requires c.memory && 2 <= c.lifetime && Mortal(c, n.tags[k]) && x != 0 && x != c.sti
    requires AllSilent(c, n.received, k, x, far) && SilentRun(c, events, k, x, far)
    requires far ==> NotNear(n.tags[k], x)
    requires c.lifetime <= Rounds(c, n, events)
    ensures |Run(c, n, events).value.tags| == TABLE_SIZE && Run(c, n, events).value.tags[k].sti != x
  {
    SilentIsQuiet(c, n, events, k, x, far);
    RunForgets(c, n, events, k, x);
  }
}
