/**
 `TdmaSatmac`: the node as the source keeps it, with a table that is updated in
 place. Every method is proved to do what the slot machine says.
 */
module SatmacNode {
  import opened SlotTable
  import opened SlotMachine
  import opened SatmacRuns
  import opened Options

  class TdmaSatmac {
    const config: Config
    var phase: Phase
    var tags: array<Tag>
    var frameLen: nat
    var slotNum: int
    var slotCount: nat
    var total: nat
    var candidate: int
    var backoff: int
    var bchLock: int
    var freeThreshold: int
    var received: seq<Fi>

    ghost function View(): Node
      reads this, tags
    {
      Node(phase, tags[..], frameLen, slotNum, slotCount, total, candidate, backoff, bchLock, freeThreshold, received)
    }

    ghost predicate Valid()
      reads this, tags
    {
      Runs(config, View())
    }

    method SetTag(k: nat, t: Tag)
      requires k < tags.Length
      modifies tags
      ensures tags[..] == old(tags[..])[k := t]
    {
      tags[k] := t;
    }

    // ---------- merge_fi ----------

    method IsNew(sti: nat) returns (b: bool)
      requires frameLen <= tags.Length
      ensures b == IsNewNeighbor(tags[..], frameLen, sti)
    {
      for k := 0 to frameLen
        invariant forall j :: 0 <= j < k ==> tags[j].sti != sti
      {
        if tags[k].sti == sti {
          assert tags[..][k].sti == sti;
          return false;
        }
      }
      return true;
    }

    /** The first loop: the node's own slots. */
    method MergeOwn(fi: Fi)
      requires frameLen <= tags.Length && |fi.marks| <= tags.Length
      modifies tags
      ensures tags[..] == OwnPass(config, old(tags[..]), frameLen, fi, Min(frameLen, |fi.marks|))
    {
      for k := 0 to Min(frameLen, |fi.marks|)
        invariant tags[..] == OwnPass(config, old(tags[..]), frameLen, fi, k)
      {
        var isNew := IsNew(fi.sender);
        SetTag(k, OwnRule(config, tags[k], fi.marks[k], fi.sender, isNew));
      }
    }

    /** The second loop: all other slots, and the frame length that a longer FI restores. */
    method MergeOther(fi: Fi)
      requires SaneTable(tags[..], frameLen) && Fits(fi)
      modifies tags, this`frameLen
      ensures tags[..] == OtherPass(config, old(tags[..]), fi, |fi.marks|)
      ensures frameLen == MergedLen(tags[..], old(frameLen), fi)
    {
      ghost var before := tags[..];
      assert tags[..] == OtherPass(config, before, fi, 0);
      for k := 0 to |fi.marks|
        invariant tags[..] == OtherPass(config, before, fi, k)
        invariant frameLen == old(frameLen) || frameLen == |fi.marks|
        invariant frameLen == if Stationed(tags[..], old(frameLen), k) then |fi.marks| else old(frameLen)
      {
        // The "Protocol ERROR" of the source: a station beyond the frame.
        assert frameLen <= k ==> before[k].sti == 0;
        OtherStep(config, before, fi, k);
        StationedStep(tags[..], old(frameLen), k, OtherRule(config, tags[k], fi.marks[k], fi.sender));
        SetTag(k, OtherRule(config, tags[k], fi.marks[k], fi.sender));
        if frameLen <= k && tags[k].sti != 0 { frameLen := |fi.marks|; }
      }
    }

    method MergeFi(fi: Fi)
      requires config.sti != 0 && SaneTable(tags[..], frameLen) && Fits(fi)
      modifies tags, this`frameLen
      ensures (tags[..], frameLen) == Merge(config, old(tags[..]), old(frameLen), fi)
      ensures SaneTable(tags[..], frameLen)
    {
      MergeSane(config, tags[..], frameLen, fi);
      OwnPassSane(config, tags[..], frameLen, fi, Min(frameLen, |fi.marks|));
      MergeOwn(fi);
      MergeOther(fi);
    }

    // ---------- synthesize_fi_list ----------

    /** The ageing loop; reports whether a free slot was locked. */
    method ExpireSlots() returns (unlock: bool)
      requires frameLen <= tags.Length
      modifies tags
      ensures tags[..] == ExpireAll(config, old(tags[..]), frameLen, slotNum, candidate)
      ensures unlock == HasLock(old(tags[..]), frameLen)
    {
      unlock := false;
      ghost var before := tags[..];
      assert tags[..] == ExpireAll(config, before, 0, slotNum, candidate);
      for k := 0 to frameLen
        invariant tags[..] == ExpireAll(config, before, k, slotNum, candidate)
        invariant unlock == HasLock(before, k)
      {
        if tags[k].locker && tags[k].sti == 0 { unlock := true; }
        ExpireStep(config, before, k, slotNum, candidate);
        SetTag(k, Expire(config, tags[k], k == slotNum || k == candidate));
      }
    }

    method UnlockSlots()
      requires frameLen <= tags.Length
      modifies tags
      ensures tags[..] == UnlockAll(old(tags[..]), frameLen)
    {
      ghost var before := tags[..];
      assert tags[..] == UnlockAll(before, 0);
      for k := 0 to frameLen
        invariant tags[..] == UnlockAll(before, k)
      {
        UnlockStep(before, k);
        if tags[k].sti == 0 { SetTag(k, tags[k].(locker := false)); }
      }
    }

    method MergeReceived()
      requires config.sti != 0 && SaneTable(tags[..], frameLen) && AllFit(received)
      modifies tags, this`frameLen
      ensures (tags[..], frameLen) == MergeAll(config, old(tags[..]), old(frameLen), received)
    {
      var i := 0;
      while i < |received|
        invariant 0 <= i <= |received| && SaneTable(tags[..], frameLen)
        invariant AllFit(received[i..])
        invariant MergeAll(config, tags[..], frameLen, received[i..]) ==
                  MergeAll(config, old(tags[..]), old(frameLen), received)
      {
        assert received[i..][0] == received[i] && received[i..][1..] == received[i + 1..];
        assert received[i] in received[i..];
        MergeFi(received[i]);
        i := i + 1;
      }
    }

    method SynthesizeFiList(ages: bool)
      requires config.sti != 0 && SaneTable(tags[..], frameLen) && AllFit(received)
      modifies tags, this`frameLen
      ensures (tags[..], frameLen) ==
        Synthesize(config, old(tags[..]), old(frameLen), slotNum, candidate, ages, received)
    {
      var unlock := false;
      if ages && config.memory {
        ExpireAllSane(config, tags[..], frameLen, slotNum, candidate);
        unlock := ExpireSlots();
      }
      MergeReceived();
      if unlock { UnlockSlots(); }
    }

    method ForgetOthers()
      requires frameLen <= tags.Length
      modifies tags
      ensures tags[..] == ClearOthers(config, old(tags[..]), frameLen)
    {
      ghost var before := tags[..];
      assert tags[..] == ClearOthers(config, before, 0);
      for k := 0 to frameLen
        invariant tags[..] == ClearOthers(config, before, k)
      {
        ClearStep(config, before, k);
        if tags[k].sti != config.sti { SetTag(k, Release(tags[k], false)); }
      }
    }

    method RefreshTable()
      requires Valid()
      modifies tags, this`frameLen
      ensures View() == Refresh(config, old(View()))
    {
      if !config.memory {
        ClearSane(config, tags[..], frameLen);
        ForgetOthers();
      }
      SynthesizeFiList(true);
    }

    // ---------- determine_BCH, adjust_is_needed, adjFrameLen ----------

    method CountFree(n: nat) returns (ths: nat, ehs: nat)
      requires n <= tags.Length
      ensures ths == FreeCount(tags[..], n, false) && ehs == FreeCount(tags[..], n, true)
    {
      ths, ehs := 0, 0;
      for k := 0 to n
        invariant ths == FreeCount(tags[..], k, false) && ehs == FreeCount(tags[..], k, true)
      {
        if tags[k].busy == SLOT_FREE {
          ths := ths + 1;
          if tags[k].count3 == 0 { ehs := ehs + 1; }
        }
      }
    }

    /** The candidate lists of `determine_BCH`. */
    method Collect(strict: bool) returns (all: seq<nat>, quiet: seq<nat>, low: seq<nat>)
      requires frameLen <= tags.Length
      ensures all == Candidates(config, tags[..], frameLen, strict, false)
      ensures quiet == Candidates(config, tags[..], frameLen, strict, config.adjust)
      ensures low == if config.adjust then Candidates(config, tags[..], frameLen / 2, strict, true) else []
    {
      all, quiet, low := [], [], [];
      ghost var t := tags[..];
      for k := 0 to frameLen
        invariant all == Candidates(config, t, k, strict, false)
        invariant quiet == Candidates(config, t, k, strict, config.adjust)
        invariant config.adjust ==> low == Candidates(config, t, Min(k, frameLen / 2), strict, true)
        invariant !config.adjust ==> low == []
      {
        assert t[k] == tags[k];
        if Eligible(config, tags[k], strict) {
          all := all + [k];
          if !config.adjust || tags[k].count3 == 0 { quiet := quiet + [k]; }
          if config.adjust && tags[k].count3 == 0 && k < frameLen / 2 { low := low + [k]; }
        }
      }
    }

    method DetermineBch(strict: bool, draw: nat) returns (slot: int)
      requires frameLen <= tags.Length && 1 <= freeThreshold
      ensures slot == Bch(config, tags[..], frameLen, freeThreshold, strict, draw)
    {
      var all, quiet, low := Collect(strict);
      var ths, ehs := CountFree(frameLen);
      if config.adjustFrame && config.lower < frameLen && 10 * (frameLen - ehs) <= 6 * frameLen
         && 10 * (frameLen - ths) <= 4 * frameLen && low != [] {
        return Pick(low, true, draw);
      }
      if !config.adjust {
        return if quiet != [] then Pick(quiet, true, draw) else -1;
      }
      if freeThreshold <= |quiet| { return Pick(quiet, config.randomBch, draw); }
      return if all != [] then Pick(all, config.randomBch, draw) else -1;
    }

    method AdjustIsNeeded(slot: nat) returns (b: bool)
      requires slot < tags.Length && frameLen <= tags.Length
      ensures b == AdjustNeeded(config, tags[..], frameLen, freeThreshold, slot)
    {
      var ths, ehs := CountFree(frameLen);
      var _, low := CountFree(frameLen / 2);
      return
        || (config.adjust && config.c3Threshold <= tags[slot].count3 && freeThreshold <= ehs)
        || (config.adjustFrame && frameLen / 2 <= slot && config.lower < frameLen
            && 10 * (frameLen - ehs) <= 6 * frameLen && 10 * (frameLen - ths) <= 4 * frameLen && low != 0);
    }

    method AdjFrameLen()
      requires frameLen <= tags.Length
      modifies this`frameLen, this`freeThreshold
      ensures frameLen == AdjustedLen(config, tags[..], old(frameLen), old(freeThreshold))
      ensures freeThreshold == Threshold(frameLen)
    {
      var cut := true;
      for k := 0 to frameLen
        invariant cut == forall j :: frameLen / 2 <= j < k ==> tags[..][j].busy == SLOT_FREE
      {
        if tags[k].busy != SLOT_FREE && frameLen / 2 <= k {
          assert tags[..][k].busy != SLOT_FREE;
          cut := false;
        }
      }
      var ths, ehs := CountFree(frameLen);
      if (ehs <= freeThreshold || 9 * frameLen <= 10 * (frameLen - ehs)) && frameLen < config.upper {
        frameLen := 2 * frameLen;
      } else if cut && freeThreshold < ths && freeThreshold < ehs
                && 10 * (frameLen - ehs) <= 6 * frameLen && 10 * (frameLen - ths) <= 4 * frameLen
                && config.lower < frameLen {
        frameLen := frameLen / 2;
      }
      freeThreshold := Threshold(frameLen);
    }

    // ---------- generate_send_FI_packet ----------

    /** The FI is built from the table, whose counters restart on the way. */
    method SendFi() returns (fi: Fi)
      requires frameLen <= tags.Length
      modifies tags
      ensures Done(View(), Some(fi)) == Send(config, old(View()))
    {
      ghost var before := tags[..];
      var marks: seq<Mark> := [];
      assert tags[..] == ResetCounts(config, before, 0);
      for k := 0 to frameLen
        invariant marks == Marks(before, k)
        invariant tags[..] == ResetCounts(config, before, k)
      {
        ResetStep(config, before, k);
        marks := marks + [MarkOf(tags[k])];
        if tags[k].sti == config.sti {
          SetTag(k, tags[k].(count2 := 1, count3 := 1));
        } else {
          SetTag(k, tags[k].(c3flag := false, count2 := 0, count3 := 0));
        }
      }
      fi := Fi(config.sti, marks, 0);
    }

    // ---------- slotHandler ----------

    /** The loop of `fade_received_fi_list(1)`. */
    method FadeReceived()
      modifies this`received
      ensures received == Fade(old(received))
    {
      hide Fade;
      var kept: seq<Fi> := [];
      var fis := received;
      FadeNone(fis);
      for i := 0 to |fis|
        invariant kept == Fade(fis[..i])
      {
        FadeOne(fis, i);
        var f := fis[i].(remain := fis[i].remain - 1);
        if 0 < f.remain { kept := kept + [f]; }
      }
      assert fis[..|fis|] == fis;
      received := kept;
    }

    method ChooseAgain(draw: Draw)
      requires Valid()
      modifies this`slotNum, this`phase, this`backoff
      ensures Done(View(), None) == Retry(config, old(View()), draw)
    {
      slotNum := DetermineBch(false, draw.bch);
      if slotNum < 0 || slotNum == slotCount {
        phase, slotNum, backoff := Listen, slotCount, draw.backoff % 21;
      } else {
        phase := WaitRequest;
      }
    }

    method LoseSlot(draw: Draw)
      requires Valid() && slotCount < tags.Length
      modifies this`slotNum, this`phase, this`backoff, tags
      ensures Done(View(), None) == GiveUp(config, old(View()), draw)
    {
      if tags[slotCount].sti == config.sti {
        ReleaseSane(config, tags[..], frameLen, slotCount, true);
        SetTag(slotCount, Release(tags[slotCount], true));
      }
      ChooseAgain(draw);
    }

    /** A new table, filled from the received FIs. */
    method Listening()
      requires Valid()
      modifies this`tags, this`frameLen
      ensures View() == Listened(config, old(View())) && fresh(tags)
    {
      tags := new Tag[TABLE_SIZE](_ => FreeTag);
      assert tags[..] == seq(TABLE_SIZE, _ => FreeTag);
      SynthesizeFiList(false);
    }

    method ListenPhase(draw: Draw) returns (sent: Option<Fi>)
      requires Valid() && phase == Listen && slotCount < frameLen
      modifies this, tags
      ensures Done(View(), sent) == ListenStep(config, old(View()), draw)
      ensures tags == old(tags) || fresh(tags)
    {
      sent := None;
      if backoff != 0 {
        backoff := backoff - 1;
        return;
      }
      Listening();
      slotNum := DetermineBch(false, draw.bch);
      if slotNum < 0 {
        slotNum, backoff := slotCount, draw.backoff % 21;
      } else if slotNum == slotCount {
        phase := Request;
        SetTag(slotCount, Claim(config, tags[slotCount]));
        var fi := SendFi();
        sent := Some(fi);
      } else {
        phase := WaitRequest;
      }
    }

    /** Another slot or another frame length, before the FI is sent. */
    method AdjustSlot(draw: Draw)
      requires Valid() && slotCount < tags.Length && 0 <= slotNum < tags.Length
      modifies this, tags
      ensures View() == Adjust(config, old(View()), draw) && tags == old(tags)
    {
      var needed := AdjustIsNeeded(slotNum);
      if needed {
        candidate := DetermineBch(true, draw.bch);
        if 0 <= candidate {
          if config.singleSlot {
            slotNum := candidate;
            SetTag(slotCount, Release(tags[slotCount], false));
            SetTag(slotNum, Claim(config, tags[slotNum]));
          } else {
            phase := WorkAdj;
            SetTag(candidate, Claim(config, tags[candidate]));
          }
        }
      } else if config.adjustFrame {
        AdjFrameLen();
      }
    }

    method HearsNobody() returns (b: bool)
      requires frameLen <= tags.Length
      ensures b == IsSingle(config, tags[..], frameLen)
    {
      for k := 0 to frameLen
        invariant forall j :: 0 <= j < k ==> tags[..][j].sti == 0 || tags[..][j].sti == config.sti
      {
        if tags[k].sti != 0 && tags[k].sti != config.sti {
          assert !(tags[..][k].sti == 0 || tags[..][k].sti == config.sti);
          return false;
        }
      }
      return true;
    }

    method WanderOff(draw: Draw, ghost sent: Option<Fi>) returns (ok: bool)
      requires frameLen <= tags.Length && slotCount < tags.Length && 1 <= freeThreshold
      modifies this`slotNum, this`bchLock, tags
      ensures ok == Wander(config, old(View()), draw, sent).Done?
      ensures ok ==> Done(View(), sent) == Wander(config, old(View()), draw, sent)
    {
      ok := true;
      var single := HearsNobody();
      if config.randomIfSingle && single {
        if bchLock == 0 {
          slotNum := DetermineBch(false, draw.redraw);
          if slotNum < 0 { return false; }
          SetTag(slotCount, Release(tags[slotCount], true));
          SetTag(slotNum, Claim(config, tags[slotNum]));
          bchLock := 5;
        } else {
          bchLock := bchLock - 1;
        }
      } else {
        bchLock := 5;
      }
    }

    method WorkPhase(draw: Draw) returns (sent: Option<Fi>, ok: bool)
      requires Valid() && phase == WorkFi && slotCount < tags.Length && 0 <= slotNum < tags.Length
      modifies this, tags
      ensures tags == old(tags) && ok == WorkStep(config, old(View()), draw).Done?
      ensures ok ==> Done(View(), sent) == WorkStep(config, old(View()), draw)
    {
      AdjustRuns(config, View(), draw);
      AdjustSlot(draw);
      var fi := SendFi();
      sent := Some(fi);
      ok := WanderOff(draw, sent);
    }

    method SwitchPhase(draw: Draw) returns (sent: Option<Fi>)
      requires Valid() && phase == WorkAdj && slotCount < tags.Length && 0 <= slotNum < tags.Length
      modifies this, tags
      ensures Done(View(), sent) == SwitchStep(config, old(View()), draw) && tags == old(tags)
    {
      sent := None;
      if Usable(config, tags[slotCount]) {
        phase := WorkFi;
        if tags[candidate].count3 <= tags[slotCount].count3 && Usable(config, tags[candidate]) {
          SetTag(slotNum, Release(tags[slotNum], true));
          slotNum := candidate;
        } else {
          SetTag(candidate, Release(tags[candidate], true));
        }
        var fi := SendFi();
        sent := Some(fi);
      } else if Usable(config, tags[candidate]) {
        phase, slotNum := WorkFi, candidate;
      } else {
        if tags[candidate].sti == config.sti {
          ReleaseSane(config, tags[..], frameLen, candidate, true);
          SetTag(candidate, Release(tags[candidate], true));
        }
        ChooseAgain(draw);
      }
    }

    method OwnSlot(draw: Draw) returns (sent: Option<Fi>, ok: bool)
      requires Valid() && slotCount == slotNum < frameLen
      modifies this, tags
      ensures ok == OwnSlotStep(config, old(View()), draw).Done?
      ensures ok ==> Done(View(), sent) == OwnSlotStep(config, old(View()), draw)
      ensures tags == old(tags) || fresh(tags)
    {
      sent, ok := None, true;
      match phase {
        case Init =>
          phase, backoff := Listen, 0;
          return;
        case Listen =>
          sent := ListenPhase(draw);
          return;
        case _ =>
      }
      RefreshTable();
      if phase == WorkAdj {
        sent := SwitchPhase(draw);
      } else if !Usable(config, tags[slotCount]) {
        LoseSlot(draw);
      } else if phase == WorkFi {
        sent, ok := WorkPhase(draw);
      } else {
        if phase == WaitRequest {
          SetTag(slotCount, Claim(config, tags[slotCount]));
          phase := Request;
        } else {
          phase := WorkFi;
        }
        var fi := SendFi();
        sent := Some(fi);
      }
    }

    /** The next slot begins: it is counted, and the received FIs age. */
    method Advance()
      requires Valid()
      modifies this`total, this`slotCount, this`received
      ensures View() == NextSlot(old(View())) && Valid()
    {
      FadeFits(received);
      total := total + 1;
      slotCount := total % frameLen;
      FadeReceived();
    }

    /** `slotHandler`; not `ok` means that it would have used -1 as a slot. */
    method SlotHandler(draw: Draw) returns (sent: Option<Fi>, ok: bool)
      requires Valid()
      modifies this, tags
      ensures ok == SlotStep(config, old(View()), draw).Done?
      ensures ok ==> Valid() && Done(View(), sent) == SlotStep(config, old(View()), draw)
      ensures tags == old(tags) || fresh(tags)
    {
      StepRuns(config, View(), draw);
      Advance();
      sent, ok := None, true;
      if slotCount == slotNum { sent, ok := OwnSlot(draw); }
    }

    /** `recvFI`: the FI goes to the end of the list, to be kept for one frame. */
    method RecvFi(fi: Fi)
      requires Valid() && Hearable(config, View(), fi)
      modifies this`received
      ensures View() == Hears(old(View()), fi) && Valid()
    {
      HearsRuns(config, View(), fi);
      received := received + [fi.(remain := frameLen)];
    }

    /** `Start`; the counters that the source leaves unset are arguments. */
    constructor (config: Config, frameLen: nat, threshold: int, candidate: int, backoff: int, bchLock: int)
      requires config.sti != 0 && FrameSize(frameLen) && FrameSize(config.upper) && 1 <= threshold
      ensures Valid() && Starts(this.config, View()) && fresh(tags)
      ensures this.config == config && this.frameLen == frameLen
    {
      this.config, this.frameLen, this.freeThreshold := config, frameLen, threshold;
      this.candidate, this.backoff, this.bchLock := candidate, backoff, bchLock;
      phase, total, slotCount, received := Init, 0, 0, [];
      slotNum := 1 % frameLen;
      tags := new Tag[TABLE_SIZE](_ => FreeTag);
    }
  }

  lemma StationedStep(tags: seq<Tag>, a: nat, k: nat, t: Tag)
    requires k < |tags|
    ensures Stationed(tags[k := t], a, k + 1) <==> Stationed(tags, a, k) || (a <= k && t.sti != 0)
  {
    if Stationed(tags, a, k) {
      var j :| a <= j < k && tags[j].sti != 0;
      assert tags[k := t][j].sti != 0;
    }
    if a <= k && t.sti != 0 { assert tags[k := t][k].sti != 0; }
  }

  lemma OtherStep(c: Config, tags: seq<Tag>, fi: Fi, k: nat)
    requires k < |fi.marks| <= |tags|
    ensures OtherPass(c, tags, fi, k)[k] == tags[k]
    ensures OtherPass(c, tags, fi, k + 1) ==
            OtherPass(c, tags, fi, k)[k := OtherRule(c, tags[k], fi.marks[k], fi.sender)]
  {
  }

  lemma {:induction false} OwnPassSane(c: Config, tags: seq<Tag>, len: nat, fi: Fi, k: nat)
    requires c.sti != 0 && SaneTable(tags, len) && Fits(fi) && k <= len && k <= |fi.marks|
    ensures SaneTable(OwnPass(c, tags, len, fi, k), len)
    decreases k
  {
    if 0 < k {
      OwnPassSane(c, tags, len, fi, k - 1);
      var r := OwnPass(c, tags, len, fi, k - 1);
      OwnRuleSane(c, r[k - 1], fi.marks[k - 1], fi.sender, IsNewNeighbor(r, len, fi.sender));
    }
  }

  lemma ExpireStep(c: Config, tags: seq<Tag>, k: nat, slot: int, candidate: int)
    requires k < |tags|
    ensures ExpireAll(c, tags, k, slot, candidate)[k] == tags[k]
    ensures ExpireAll(c, tags, k + 1, slot, candidate) ==
            ExpireAll(c, tags, k, slot, candidate)[k := Expire(c, tags[k], k == slot || k == candidate)]
    ensures HasLock(tags, k + 1) <==> HasLock(tags, k) || (tags[k].locker && tags[k].sti == 0)
  {
  }

  lemma UnlockStep(tags: seq<Tag>, k: nat)
    requires k < |tags|
    ensures UnlockAll(tags, k)[k] == tags[k]
    ensures UnlockAll(tags, k + 1) ==
            UnlockAll(tags, k)[k := if tags[k].sti == 0 then tags[k].(locker := false) else tags[k]]
  {
  }

  lemma ClearStep(c: Config, tags: seq<Tag>, k: nat)
    requires k < |tags|
    ensures ClearOthers(c, tags, k)[k] == tags[k]
    ensures ClearOthers(c, tags, k + 1) ==
            ClearOthers(c, tags, k)[k := if tags[k].sti != c.sti then Release(tags[k], false) else tags[k]]
  {
  }

  lemma ClearSane(c: Config, tags: seq<Tag>, len: nat)
    requires SaneTable(tags, len)
    ensures SaneTable(ClearOthers(c, tags, len), len)
  {
  }

  lemma ResetStep(c: Config, tags: seq<Tag>, k: nat)
    requires k < |tags|
    ensures ResetCounts(c, tags, k)[k] == tags[k]
    ensures ResetCounts(c, tags, k + 1) ==
            ResetCounts(c, tags, k)[k := if tags[k].sti == c.sti then tags[k].(count2 := 1, count3 := 1)
                                         else tags[k].(c3flag := false, count2 := 0, count3 := 0)]
  {
  }

  lemma ReleaseSane(c: Config, tags: seq<Tag>, len: nat, k: nat, lock: bool)
    requires SaneTable(tags, len) && k < |tags|
    ensures SaneTable(tags[k := Release(tags[k], lock)], len)
  {
  }

  lemma FadeNone(fis: seq<Fi>)
    ensures Fade(fis[..0]) == []
  {
  }

  lemma {:induction false} FadeOne(fis: seq<Fi>, i: nat)
    requires i < |fis|
    ensures var f := fis[i].(remain := fis[i].remain - 1);
      Fade(fis[..i + 1]) == Fade(fis[..i]) + if 0 < f.remain then [f] else []
    decreases i
  {
    if 0 < i {
      assert fis[..i + 1][1..] == fis[1..][..i] && fis[..i][1..] == fis[1..][..i - 1];
      FadeOne(fis[1..], i - 1);
    }
  }
}
