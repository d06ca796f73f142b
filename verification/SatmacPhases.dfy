/**
 The course a SATMAC node takes from slot to slot, apart from how the handler computes it: what it
 sends, where it goes when it sends or does not, and which slots it takes for its own.
 */
module SatmacPhases {
  import opened Modulo
  import opened Options
  import opened SlotTable
  import opened SlotLaws
  import opened SlotRenewal
  import opened SlotMachine
  import opened SatmacRuns
  import opened SatmacLaws
  import opened FrameLength

  // ---------- Time ----------

  /** What is left of the received FIs: those with more than one slot to live, in their order, with one less. */
  lemma {:induction false} FadedIff(fis: seq<Fi>, fi: Fi)
    ensures fi in Fade(fis) <==> fi.(remain := fi.remain + 1) in fis && 0 < fi.remain
  {
    if fis != [] {
      FadedIff(fis[1..], fi);
      assert fis == [fis[0]] + fis[1..];
      assert fi == fis[0].(remain := fis[0].remain - 1) <==> fi.(remain := fi.remain + 1) == fis[0];
    }
  }

  /** The FI a slot later, if there is anything left of it. */
  function Older(fi: Fi): seq<Fi> { if 1 < fi.remain then [fi.(remain := fi.remain - 1)] else [] }

  lemma FadeFirst(fis: seq<Fi>)
    requires fis != []
    ensures Fade(fis) == Older(fis[0]) + Fade(fis[1..])
  {
  }

  lemma {:induction false} FadeInOrder(a: seq<Fi>, b: seq<Fi>)
    ensures Fade(a + b) == Fade(a) + Fade(b)
  {
    hide Fade, Older;
    if a == [] {
      assert a + b == b && Fade(a) == [] by { FadeNothing(a, b); }
    } else {
      FadeInOrder(a[1..], b);
      FadeFirst(a);
      FadeFirst(a + b);
      assert (a + b)[0] == a[0] && (a + b)[1..] == a[1..] + b;
    }
  }

  lemma FadeNothing(a: seq<Fi>, b: seq<Fi>)
    requires a == []
    ensures a + b == b && Fade(a) == []
  {
  }

  /** The node after `j` slots in which it does nothing. */
  function Idly(n: Node, j: nat): Node
    requires 0 < n.frameLen
    ensures Idly(n, j).frameLen == n.frameLen
  {
    if j == 0 then n else NextSlot(Idly(n, j - 1))
  }

  lemma {:induction false} IdlyCounts(n: Node, j: nat)
    requires 0 < n.frameLen
    ensures Idly(n, j).total == n.total + j && (0 < j ==> Idly(n, j).slotCount == (n.total + j) % n.frameLen)
  {
    if 0 < j { IdlyCounts(n, j - 1); }
  }

  /** Of any frame of slots exactly one is the node's. */
  lemma OncePerFrame(n: Node) returns (j: nat)
    requires 0 <= n.slotNum < n.frameLen
    ensures 1 <= j <= n.frameLen && Idly(n, j).slotCount == n.slotNum
    ensures forall i :: 1 <= i <= n.frameLen && Idly(n, i).slotCount == n.slotNum ==> i == j
  {
    hide Idly;
    var len, at := n.frameLen, (n.total + 1) % n.frameLen;
    j := 1 + if at <= n.slotNum then n.slotNum - at else n.slotNum - at + len;
    Residue(n.total + 1, j - 1, len, n.slotNum);
    IdlyCounts(n, j);
    forall i | 1 <= i <= len && Idly(n, i).slotCount == n.slotNum ensures i == j {
      IdlyCounts(n, i);
      SameResidue(n.total + i, n.total + j, len);
    }
  }

  lemma Residue(a: nat, d: nat, len: nat, s: nat)
    requires 0 < len && s < len && d == if a % len <= s then s - a % len else s - a % len + len
    ensures (a + d) % len == s
  {
    var q, r := a / len, a % len;
    assert a == q * len + r;
    Remainder(len, if r <= s then q else q + 1, s);
  }

  /** A received FI is kept for one frame of the node: it is merged in every slot of it, and in none after. */
  lemma {:induction false} KeptAFrame(n: Node, fi: Fi, j: nat)
    requires 0 < n.frameLen && j <= n.frameLen
    ensures j < n.frameLen ==> fi.(remain := n.frameLen - j) in Idly(Hears(n, fi), j).received
    ensures forall f :: f in Idly(Hears(n, fi), j).received && 0 < j ==>
      f.(remain := f.remain + j) in Hears(n, fi).received && 0 < f.remain
  {
    hide Idly, Fade;
    var h := Hears(n, fi);
    IdlyNext(h, 0);
    IdlyNext(h, j);
    if 0 < j {
      KeptAFrame(n, fi, j - 1);
      var was, now := Idly(h, j - 1).received, Idly(h, j).received;
      FadedIff(was, fi.(remain := n.frameLen - j));
      forall f | f in now ensures f.(remain := f.remain + j) in h.received && 0 < f.remain {
        FadedIff(was, f);
        var g := f.(remain := f.remain + 1);
        assert g in was && g.(remain := g.remain + (j - 1)) == f.(remain := f.remain + j);
      }
    }
  }

  lemma IdlyNext(n: Node, j: nat)
    requires 0 < n.frameLen
    ensures if j == 0 then Idly(n, j) == n else Idly(n, j).received == Fade(Idly(n, j - 1).received)
  {
  }

  // ---------- Thresholds ----------

  /** The threshold of free slots grows by one with each doubling, from 2 in a frame of 16 to 5 in one of 128. */
  lemma ThresholdLadder(len: nat)
    ensures Threshold(16) == 2 && (len in {16, 32, 64} ==> Threshold(2 * len) == Threshold(len) + 1)
    ensures len !in {16, 32, 64} ==> Threshold(len) == 5
  {
  }

  // ---------- Without memory ----------

  lemma {:induction false} UnnamedStaysOut(c: Config, tags: seq<Tag>, len: nat, fis: seq<Fi>, k: nat, x: nat)
    requires len <= |tags| && k < |tags| && forall fi :: fi in fis ==> |fi.marks| <= |tags|
    requires x != 0 && tags[k].sti != x && forall fi :: fi in fis && k < |fi.marks| ==> fi.marks[k].sti != x
    ensures MergeAll(c, tags, len, fis).0[k].sti != x
    decreases fis
  {
    hide Merge;
    if fis != [] {
      var m := Merge(c, tags, len, fis[0]);
      assert k < |fis[0].marks| ==> fis[0].marks[k].sti != x;
      OneStaysOut(c, tags, len, fis[0], k, x);
      UnnamedStaysOut(c, m.0, m.1, fis[1..], k, x);
    }
  }

  lemma OneStaysOut(c: Config, tags: seq<Tag>, len: nat, fi: Fi, k: nat, x: nat)
    requires len <= |tags| && |fi.marks| <= |tags| && k < |tags|
    requires x != 0 && tags[k].sti != x && (k < |fi.marks| ==> fi.marks[k].sti != x)
    ensures Merge(c, tags, len, fi).0[k].sti != x
  {
    hide OwnPass, OwnRule, OtherRule, IsNewNeighbor;
    MergedAt(c, tags, len, fi, k);
    if k < |fi.marks| {
      var known := k < Min(len, |fi.marks|) && IsNewNeighbor(OwnPass(c, tags, len, fi, k), len, fi.sender);
      OwnRuleStaysOut(c, tags[k], fi.marks[k], fi.sender, known, x);
      OtherRuleStaysOut(c, OwnSlot(c, tags, len, fi, k), fi.marks[k], fi.sender, x);
    }
  }

  lemma OwnRuleStaysOut(c: Config, t: Tag, m: Mark, sender: nat, newNeighbor: bool, x: nat)
    requires x != 0 && t.sti != x && m.sti != x
    ensures OwnRule(c, t, m, sender, newNeighbor).sti != x
  {
  }

  lemma OtherRuleStaysOut(c: Config, t: Tag, m: Mark, sender: nat, x: nat)
    requires x != 0 && t.sti != x && m.sti != x
    ensures OtherRule(c, t, m, sender).sti != x
  {
  }

  /** A node without slot memory forgets, in one round, every station that no FI of the round names. */
  lemma NoMemoryForgets(c: Config, n: Node, k: nat, x: nat)
    requires Runs(c, n) && !c.memory && k < TABLE_SIZE && x != 0 && x != c.sti
    requires forall fi :: fi in n.received && k < |fi.marks| ==> fi.marks[k].sti != x
    ensures Refresh(c, n).tags[k].sti != x
  {
    hide MergeAll;
    FitAll(n.received);
    var tags := ClearOthers(c, n.tags, n.frameLen);
    UnnamedStaysOut(c, tags, n.frameLen, n.received, k, x);
  }

  // ---------- What is sent ----------

  /** An FI says of every slot of the frame who has it and how near, and how many users were counted, up to three. */
  ghost predicate SaysTable(c: Config, fi: Fi, tags: seq<Tag>, len: nat)
    requires len <= |tags|
  {
    && fi.sender == c.sti && |fi.marks| == len
    && forall k :: 0 <= k < len ==>
         && fi.marks[k].sti == tags[k].sti && fi.marks[k].busy == tags[k].busy && fi.marks[k].psf == 0
         && (if tags[k].count2 <= 3 then fi.marks[k].count2 == tags[k].count2 else fi.marks[k].count2 == 3)
  }

  /** With the FI the counting of the next frame begins: the node itself is counted in its slots, nobody in others. */
  ghost predicate CountsAfresh(c: Config, a: seq<Tag>, b: seq<Tag>, len: nat) {
    && |a| == |b| && (forall k :: len <= k < |a| ==> b[k] == a[k])
    && forall k :: 0 <= k < len && k < |a| ==>
         && b[k].sti == a[k].sti && b[k].busy == a[k].busy && b[k].life == a[k].life && b[k].locker == a[k].locker
         && (if a[k].sti == c.sti then b[k].count2 == b[k].count3 == 1
             else b[k].count2 == b[k].count3 == 0 && !b[k].c3flag)
  }

  lemma SendSays(c: Config, n: Node)
    requires n.frameLen <= |n.tags|
    ensures Send(c, n).Done? && Send(c, n).sent.Some? && SaysTable(c, Send(c, n).sent.value, n.tags, n.frameLen)
    ensures CountsAfresh(c, n.tags, Send(c, n).node.tags, n.frameLen)
    ensures Send(c, n).node == n.(tags := Send(c, n).node.tags)
  {
  }

  // ---------- Stepping back ----------

  /** The node has no slot of its own any more: it has chosen another one to ask for, or listens for up to 20 frames. */
  ghost predicate SteppedBack(c: Config, n: Node, m: Node)
    requires n.frameLen <= |n.tags|
  {
    var s := Choice(c, n.tags, n.frameLen, n.freeThreshold, false);
    if m.phase == Listen then m.slotNum == n.slotCount && 0 <= m.backoff <= 20 && (s == {} || n.slotCount in s)
    else m.phase == WaitRequest && m.slotNum != n.slotCount && m.slotNum in s
  }

  lemma RetrySteps(c: Config, n: Node, draw: Draw)
    requires Runs(c, n)
    ensures var o := Retry(c, n, draw);
      o.Done? && o.sent == None && o.node.tags == n.tags && SteppedBack(c, n, o.node)
  {
    hide Bch, Choice;
    BchChoice(c, n.tags, n.frameLen, n.freeThreshold, false, draw.bch);
  }

  /** Any back-off of up to 20 frames may be drawn. */
  lemma BackOffDrawn(c: Config, n: Node, draw: Draw, b: nat)
    requires Runs(c, n) && draw.backoff == b <= 20 && Retry(c, n, draw).node.phase == Listen
    ensures Retry(c, n, draw).node.backoff == b
  {
    hide Bch;
  }

  /** Giving up drops the node's own tag and locks the slot for a round. */
  lemma GiveUpSteps(c: Config, n: Node, draw: Draw)
    requires Runs(c, n) && n.slotCount < |n.tags|
    ensures var o := GiveUp(c, n, draw); var t := n.tags[n.slotCount];
      && o.Done? && o.sent == None && |o.node.tags| == |n.tags| && o.node.frameLen == n.frameLen
      && o.node.freeThreshold == n.freeThreshold && SteppedBack(c, o.node.(slotCount := n.slotCount), o.node)
      && (forall k :: 0 <= k < |n.tags| && k != n.slotCount ==> o.node.tags[k] == n.tags[k])
      && var u := o.node.tags[n.slotCount];
         if t.sti == c.sti then u.sti == 0 && u.busy == SLOT_FREE && u.locker && u.count2 == u.count3 == 0 else u == t
  {
    hide Bch, Choice;
    var t := n.tags[n.slotCount];
    var m := if t.sti == c.sti then n.(tags := n.tags[n.slotCount := Release(t, true)]) else n;
    assert Runs(c, m);
    RetrySteps(c, m, draw);
  }
}
