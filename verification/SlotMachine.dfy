/**
 The SATMAC slot state machine: what `slotHandler` does at the beginning of
 every slot, as a function of the node's state, the received FIs and the random
 draws of the node.
 */
module SlotMachine {
  import opened SlotTable
  import opened Options

  /** `NodeState`. */
  datatype Phase = Init | Listen | WaitRequest | Request | WorkFi | WorkAdj

  datatype Node = Node(phase: Phase, tags: seq<Tag>, frameLen: nat, slotNum: int,
                       slotCount: nat, total: nat, candidate: int, backoff: int,
                       bchLock: int, freeThreshold: int, received: seq<Fi>)

  /** The random draws of one slot: two slot choices and a back-off, each reduced to the range in use. */
  datatype Draw = Draw(bch: nat, redraw: nat, backoff: nat)

  /** The node after a slot and the FI it sent, or an access outside the table. */
  datatype Outcome = Done(node: Node, sent: Option<Fi>) | Fault

  // ---------- Choosing a slot ----------

  predicate Eligible(c: Config, t: Tag, strict: bool) {
    (t.busy == SLOT_FREE || (!strict && t.sti == c.sti)) && !t.locker
  }

  /** The eligible slots below `n`, in order; `quiet` asks for no three-hop users. */
  function Candidates(c: Config, tags: seq<Tag>, n: nat, strict: bool, quiet: bool): (r: seq<nat>)
    requires n <= |tags|
    ensures forall i :: 0 <= i < |r| ==> r[i] < n && Eligible(c, tags[r[i]], strict)
  {
    if n == 0 then [] else
    Candidates(c, tags, n - 1, strict, quiet) +
    if Eligible(c, tags[n - 1], strict) && (quiet ==> tags[n - 1].count3 == 0) then [n - 1] else []
  }

  /** The free slots below `n`, all of them or those without three-hop users. */
  function FreeCount(tags: seq<Tag>, n: nat, quiet: bool): nat
    requires n <= |tags|
  {
    if n == 0 then 0 else
    FreeCount(tags, n - 1, quiet) +
    if tags[n - 1].busy == SLOT_FREE && (quiet ==> tags[n - 1].count3 == 0) then 1 else 0
  }

  /** At most 60% of the slots in use within three hops and at most 40% within two. */
  predicate Sparse(tags: seq<Tag>, len: nat)
    requires len <= |tags|
  {
    10 * (len - FreeCount(tags, len, true)) <= 6 * len && 10 * (len - FreeCount(tags, len, false)) <= 4 * len
  }

  function Pick(s: seq<nat>, random: bool, draw: nat): (r: nat)
    requires s != []
    ensures r in s
  {
    if random then s[draw % |s|] else s[0]
  }

  /** `determine_BCH`: -1 when no slot is eligible. */
  function Bch(c: Config, tags: seq<Tag>, len: nat, threshold: int, strict: bool, draw: nat): (r: int)
    requires len <= |tags| && 1 <= threshold
    ensures -1 <= r < len
    ensures 0 <= r ==> Eligible(c, tags[r], strict)
  {
    var low := if c.adjust then Candidates(c, tags, len / 2, strict, true) else [];
    var quiet := Candidates(c, tags, len, strict, c.adjust);
    var all := Candidates(c, tags, len, strict, false);
    if c.adjustFrame && c.lower < len && Sparse(tags, len) && low != [] then Pick(low, true, draw)
    else if !c.adjust then if quiet != [] then Pick(quiet, true, draw) else -1
    else if threshold <= |quiet| then Pick(quiet, c.randomBch, draw)
    else if all != [] then Pick(all, c.randomBch, draw)
    else -1
  }

  /** `adjust_is_needed`. */
  predicate AdjustNeeded(c: Config, tags: seq<Tag>, len: nat, threshold: int, slot: nat)
    requires slot < |tags| && len <= |tags|
  {
    || (c.adjust && c.c3Threshold <= tags[slot].count3 && threshold <= FreeCount(tags, len, true))
    || (c.adjustFrame && len / 2 <= slot && c.lower < len && Sparse(tags, len) && FreeCount(tags, len / 2, true) != 0)
  }

  // ---------- The frame length ----------

  predicate UpperHalfFree(tags: seq<Tag>, len: nat)
    requires len <= |tags|
  {
    forall k :: len / 2 <= k < len ==> tags[k].busy == SLOT_FREE
  }

  function Threshold(len: nat): int {
    if len == 16 then 2 else if len == 32 then 3 else if len == 64 then 4 else 5
  }

  /** `adjFrameLen`: a crowded frame doubles, a sparse one with a free upper half is halved. */
  function AdjustedLen(c: Config, tags: seq<Tag>, len: nat, threshold: int): nat
    requires len <= |tags|
  {
    var ehs, ths := FreeCount(tags, len, true), FreeCount(tags, len, false);
    if (ehs <= threshold || 9 * len <= 10 * (len - ehs)) && len < c.upper then 2 * len
    else if UpperHalfFree(tags, len) && threshold < ths && threshold < ehs && Sparse(tags, len) && c.lower < len
    then len / 2
    else len
  }

  // ---------- Parts of the handler ----------

  function Claim(c: Config, t: Tag): Tag {
    t.(busy := SLOT_1HOP, sti := c.sti, count2 := 1, count3 := 1, psf := 0)
  }

  function Release(t: Tag, lock: bool): Tag {
    t.(busy := SLOT_FREE, sti := 0, count2 := 0, count3 := 0, psf := 0, locker := lock)
  }

  /** Slot `s` is given up for slot `k`. */
  function Move(c: Config, tags: seq<Tag>, s: nat, k: nat, lock: bool): (r: seq<Tag>)
    requires s < |tags| && k < |tags|
    ensures |r| == |tags|
  {
    var left := tags[s := Release(tags[s], lock)];
    left[k := Claim(c, left[k])]
  }

  /** The slot is the node's own and uncontested, or nobody's. */
  predicate Usable(c: Config, t: Tag) {
    (t.sti == c.sti && t.busy == SLOT_1HOP) || t.sti == 0
  }

  /** `fade_received_fi_list(1)`. */
  function Fade(fis: seq<Fi>): seq<Fi> {
    if fis == [] then [] else
    var f := fis[0].(remain := fis[0].remain - 1);
    (if 0 < f.remain then [f] else []) + Fade(fis[1..])
  }

  /** What is left has been there before, with one slot more to live. */
  lemma {:induction false} Faded(fis: seq<Fi>, fi: Fi)
    requires fi in Fade(fis)
    ensures fi.(remain := fi.remain + 1) in fis && 0 < fi.remain
  {
    if fi in Fade(fis[1..]) { Faded(fis[1..], fi); }
  }

  lemma FadeFits(fis: seq<Fi>)
    requires AllFit(fis)
    ensures AllFit(Fade(fis))
  {
    forall fi | fi in Fade(fis) ensures Fits(fi) {
      Faded(fis, fi);
      assert Fits(fi.(remain := fi.remain + 1));
    }
  }

  /** `clear_others_slot_status`. */
  function ClearOthers(c: Config, tags: seq<Tag>, len: nat): (r: seq<Tag>)
    ensures |r| == |tags|
  {
    seq(|tags|, k requires 0 <= k < |tags| =>
      if k < len && tags[k].sti != c.sti then Release(tags[k], false) else tags[k])
  }

  predicate IsSingle(c: Config, tags: seq<Tag>, len: nat)
    requires len <= |tags|
  {
    forall k :: 0 <= k < len ==> tags[k].sti == 0 || tags[k].sti == c.sti
  }

  /** What the FI header takes from a tag; the 2-bit counter saturates, the psf has no bits. */
  function MarkOf(t: Tag): Mark { Mark(t.busy, t.sti, Min(t.count2, 3), 0) }

  function Marks(tags: seq<Tag>, len: nat): seq<Mark>
    requires len <= |tags|
  {
    seq(len, k requires 0 <= k < len => MarkOf(tags[k]))
  }

  /** Building the FI header also restarts the counters of the frame. */
  function ResetCounts(c: Config, tags: seq<Tag>, len: nat): (r: seq<Tag>)
    ensures |r| == |tags|
  {
    seq(|tags|, k requires 0 <= k < |tags| =>
      if len <= k then tags[k]
      else if tags[k].sti == c.sti then tags[k].(count2 := 1, count3 := 1)
      else tags[k].(c3flag := false, count2 := 0, count3 := 0))
  }

  /** `generate_send_FI_packet`. */
  function Send(c: Config, n: Node): (o: Outcome)
    requires n.frameLen <= |n.tags|
    ensures o.Done? ==> o.node.received == n.received && |o.node.tags| == |n.tags|
  {
    Done(n.(tags := ResetCounts(c, n.tags, n.frameLen)), Some(Fi(c.sti, Marks(n.tags, n.frameLen), 0)))
  }

  /** A state in which the handler can run. */
  ghost predicate Runs(c: Config, n: Node) {
    && SaneTable(n.tags, n.frameLen) && AllFit(n.received)
    && c.sti != 0 && 1 <= n.freeThreshold
    && FrameSize(c.upper)
    && (n.phase == WorkAdj ==> 0 <= n.candidate < n.frameLen)
  }

  /** The FIs of the round merged into the table; without slot memory the others are forgotten first. */
  function Refresh(c: Config, n: Node): (m: Node)
    requires Runs(c, n)
    ensures Runs(c, m) && n.frameLen <= m.frameLen && n.phase == m.phase
    ensures m == n.(tags := m.tags, frameLen := m.frameLen)
  {
    var tags := if c.memory then n.tags else ClearOthers(c, n.tags, n.frameLen);
    assert SaneTable(tags, n.frameLen);
    SynthesizeSane(c, tags, n.frameLen, n.slotNum, n.candidate, true, n.received);
    var r := Synthesize(c, tags, n.frameLen, n.slotNum, n.candidate, true, n.received);
    n.(tags := r.0, frameLen := r.1)
  }

  /** A slot chosen anew, or back to listening with a back-off of at most twenty frames. */
  function Retry(c: Config, n: Node, draw: Draw): (o: Outcome)
    requires Runs(c, n)
    ensures o.Done? ==> o.node.received == n.received && |o.node.tags| == |n.tags|
  {
    var slot := Bch(c, n.tags, n.frameLen, n.freeThreshold, false, draw.bch);
    if slot < 0 || slot == n.slotCount
    then Done(n.(phase := Listen, slotNum := n.slotCount, backoff := draw.backoff % 21), None)
    else Done(n.(phase := WaitRequest, slotNum := slot), None)
  }

  /** The node's slot is lost: its own tag is dropped and locked for a frame. */
  function GiveUp(c: Config, n: Node, draw: Draw): (o: Outcome)
    requires Runs(c, n) && n.slotCount < |n.tags|
    ensures o.Done? ==> o.node.received == n.received && |o.node.tags| == |n.tags|
  {
    var t := n.tags[n.slotCount];
    Retry(c, if t.sti == c.sti then n.(tags := n.tags[n.slotCount := Release(t, true)]) else n, draw)
  }

  /** A blank table with the received FIs merged into it. */
  function Listened(c: Config, n: Node): (m: Node)
    requires Runs(c, n)
    ensures Runs(c, m) && n.frameLen <= m.frameLen && |m.tags| == |n.tags|
    ensures m == n.(tags := m.tags, frameLen := m.frameLen)
  {
    var blank := seq(TABLE_SIZE, _ => FreeTag);
    SynthesizeSane(c, blank, n.frameLen, n.slotNum, n.candidate, false, n.received);
    var r := Synthesize(c, blank, n.frameLen, n.slotNum, n.candidate, false, n.received);
    n.(tags := r.0, frameLen := r.1)
  }

  /** NODE_LISTEN: the table is built afresh from the received FIs. */
  function ListenStep(c: Config, n: Node, draw: Draw): (o: Outcome)
    requires Runs(c, n) && n.phase == Listen && n.slotCount < n.frameLen
    ensures o.Done? ==> o.node.received == n.received && |o.node.tags| == |n.tags|
  {
    if n.backoff != 0 then Done(n.(backoff := n.backoff - 1), None) else
    var m := Listened(c, n);
    var slot := Bch(c, m.tags, m.frameLen, m.freeThreshold, false, draw.bch);
    var s := m.slotCount;
    if slot < 0 then Done(m.(slotNum := s, backoff := draw.backoff % 21), None)
    else if slot == s then
      Send(c, m.(slotNum := slot, phase := Request, tags := m.tags[s := Claim(c, m.tags[s])]))
    else Done(m.(slotNum := slot, phase := WaitRequest), None)
  }

  /** NODE_WORK_FI with a usable slot, up to the sending: another slot or another frame length. */
  function Adjust(c: Config, n: Node, draw: Draw): (m: Node)
    requires Runs(c, n) && n.slotCount < |n.tags| && 0 <= n.slotNum < |n.tags|
    ensures |m.tags| == |n.tags| && m.received == n.received && m.slotCount == n.slotCount && m.bchLock == n.bchLock
    ensures m.frameLen == n.frameLen || m.frameLen == AdjustedLen(c, n.tags, n.frameLen, n.freeThreshold)
  {
    var s := n.slotCount;
    if AdjustNeeded(c, n.tags, n.frameLen, n.freeThreshold, n.slotNum) then
      var k := Bch(c, n.tags, n.frameLen, n.freeThreshold, true, draw.bch);
      if k < 0 then n.(candidate := k)
      else if c.singleSlot then
        n.(candidate := k, slotNum := k, tags := Move(c, n.tags, s, k, false))
      else n.(candidate := k, phase := WorkAdj, tags := n.tags[k := Claim(c, n.tags[k])])
    else if c.adjustFrame then
      var len := AdjustedLen(c, n.tags, n.frameLen, n.freeThreshold);
      n.(frameLen := len, freeThreshold := Threshold(len))
    else n
  }

  /** After the sending, a node that hears nobody moves to a random slot every few frames. */
  function Wander(c: Config, n: Node, draw: Draw, sent: Option<Fi>): (o: Outcome)
    requires n.frameLen <= |n.tags| && n.slotCount < |n.tags| && 1 <= n.freeThreshold
    ensures o.Done? ==> o.node.received == n.received && |o.node.tags| == |n.tags|
    ensures o.Done? ==> o.node.frameLen == n.frameLen && o.sent == sent
  {
    if !c.randomIfSingle || !IsSingle(c, n.tags, n.frameLen) then Done(n.(bchLock := 5), sent)
    else if n.bchLock != 0 then Done(n.(bchLock := n.bchLock - 1), sent)
    else
      var k := Bch(c, n.tags, n.frameLen, n.freeThreshold, false, draw.redraw);
      if k < 0 then Fault else
      Done(n.(slotNum := k, tags := Move(c, n.tags, n.slotCount, k, true), bchLock := 5), sent)
  }

  /** NODE_WORK_FI with a usable slot. */
  function WorkStep(c: Config, n: Node, draw: Draw): (o: Outcome)
    requires Runs(c, n) && n.phase == WorkFi && n.slotCount < |n.tags| && 0 <= n.slotNum < |n.tags|
    ensures o.Done? ==> o.node.received == n.received && |o.node.tags| == |n.tags|
  {
    AdjustRuns(c, n, draw);
    var e := Send(c, Adjust(c, n, draw));
    Wander(c, e.node, draw, e.sent)
  }

  /** NODE_WORK_ADJ: the candidate slot replaces the slot, or is dropped. */
  function SwitchStep(c: Config, n: Node, draw: Draw): (o: Outcome)
    requires Runs(c, n) && n.phase == WorkAdj && n.slotCount < |n.tags| && 0 <= n.slotNum < |n.tags|
    ensures o.Done? ==> o.node.received == n.received && |o.node.tags| == |n.tags|
  {
    var s, k := n.slotCount, n.candidate;
    if Usable(c, n.tags[s]) then
      if n.tags[k].count3 <= n.tags[s].count3 && Usable(c, n.tags[k]) then
        Send(c, n.(phase := WorkFi, slotNum := k, tags := n.tags[n.slotNum := Release(n.tags[n.slotNum], true)]))
      else
        Send(c, n.(phase := WorkFi, tags := n.tags[k := Release(n.tags[k], true)]))
    else if Usable(c, n.tags[k]) then Done(n.(phase := WorkFi, slotNum := k), None)
    else Retry(c, if n.tags[k].sti == c.sti then n.(tags := n.tags[k := Release(n.tags[k], true)]) else n, draw)
  }

  /** The handler in the node's own slot. */
  function OwnSlotStep(c: Config, n: Node, draw: Draw): (o: Outcome)
    requires Runs(c, n) && n.slotCount == n.slotNum < n.frameLen
    ensures o.Done? ==> o.node.received == n.received && |o.node.tags| == |n.tags|
  {
    var s := n.slotCount;
    match n.phase
    case Init => Done(n.(phase := Listen, backoff := 0), None)
    case Listen => ListenStep(c, n, draw)
    case WaitRequest =>
      var m := Refresh(c, n);
      if Usable(c, m.tags[s]) then Send(c, m.(phase := Request, tags := m.tags[s := Claim(c, m.tags[s])]))
      else GiveUp(c, m, draw)
    case Request =>
      var m := Refresh(c, n);
      if Usable(c, m.tags[s]) then Send(c, m.(phase := WorkFi)) else GiveUp(c, m, draw)
    case WorkFi =>
      var m := Refresh(c, n);
      if Usable(c, m.tags[s]) then WorkStep(c, m, draw) else GiveUp(c, m, draw)
    case WorkAdj => SwitchStep(c, Refresh(c, n), draw)
  }

  /** The state at the beginning of the next slot. */
  function NextSlot(n: Node): Node
    requires 0 < n.frameLen
  {
    n.(total := n.total + 1, slotCount := (n.total + 1) % n.frameLen, received := Fade(n.received))
  }

  /** `slotHandler`. */
  function SlotStep(c: Config, n: Node, draw: Draw): Outcome
    requires Runs(c, n)
  {
    FadeFits(n.received);
    var m := NextSlot(n);
    if m.slotCount == m.slotNum then OwnSlotStep(c, m, draw) else Done(m, None)
  }

  // ---------- What every slot keeps ----------

  lemma AdjustRuns(c: Config, n: Node, draw: Draw)
    requires Runs(c, n) && n.slotCount < |n.tags| && 0 <= n.slotNum < |n.tags| && n.phase == WorkFi
    ensures Runs(c, Adjust(c, n, draw))
  {
  }

  lemma SendRuns(c: Config, n: Node)
    requires Runs(c, n)
    ensures Runs(c, Send(c, n).node)
  {
  }
}
