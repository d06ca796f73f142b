/**
 What the counting of free slots decides, over the sets of slots themselves: when a SATMAC node
 doubles or halves its frame, when it looks for another slot, and which slots it may take.
 */
module FrameLength {
  import opened Options
  import opened SlotTable
  import opened SlotMachine
  import opened SatmacRuns
  import opened SatmacLaws

  /** The free slots below `n`, all of them or those without three-hop users. */
  function FreeSlots(tags: seq<Tag>, n: nat, quiet: bool): set<nat>
    requires n <= |tags|
  {
    set k | 0 <= k < n && tags[k].busy == SLOT_FREE && (quiet ==> tags[k].count3 == 0)
  }

  lemma {:induction false} FreeCountIs(tags: seq<Tag>, n: nat, quiet: bool)
    requires n <= |tags|
    ensures FreeCount(tags, n, quiet) == |FreeSlots(tags, n, quiet)| <= n
  {
    if 0 < n {
      FreeCountIs(tags, n - 1, quiet);
      var s, t := FreeSlots(tags, n - 1, quiet), FreeSlots(tags, n, quiet);
      assert t == s || t == s + {n - 1};
      assert n - 1 !in s;
    }
  }

  /** At most 60% of the slots in use within three hops and at most 40% within two. */
  ghost predicate ThinlyUsed(tags: seq<Tag>, len: nat)
    requires len <= |tags|
  {
    && 10 * (len - |FreeSlots(tags, len, true)|) <= 6 * len
    && 10 * (len - |FreeSlots(tags, len, false)|) <= 4 * len
  }

  lemma SparseIff(tags: seq<Tag>, len: nat)
    requires len <= |tags|
    ensures Sparse(tags, len) <==> ThinlyUsed(tags, len)
  {
    FreeCountIs(tags, len, true);
    FreeCountIs(tags, len, false);
  }

  /**
   Below the upper bound a frame doubles exactly when no more slots than the threshold are free of all
   users within three hops, or at least nine tenths of them are in use.
   */
  lemma DoublesIff(c: Config, tags: seq<Tag>, len: nat, threshold: int)
    requires 0 < len <= |tags|
    ensures AdjustedLen(c, tags, len, threshold) == 2 * len <==>
      && len < c.upper
      && (|FreeSlots(tags, len, true)| <= threshold || 9 * len <= 10 * (len - |FreeSlots(tags, len, true)|))
  {
    hide FreeCount, FreeSlots, Sparse;
    FreeCountIs(tags, len, true);
  }

  /**
   Above the lower bound it is halved exactly when its upper half is free, more slots than the threshold
   are free in either sense, and it is thinly used. Otherwise its length stays.
   */
  lemma HalvesIff(c: Config, tags: seq<Tag>, len: nat, threshold: int)
    requires 0 < len <= |tags|
    ensures AdjustedLen(c, tags, len, threshold) == len / 2 <==>
      && c.lower < len && ThinlyUsed(tags, len)
      && threshold < |FreeSlots(tags, len, true)| && threshold < |FreeSlots(tags, len, false)|
      && forall k: nat :: len / 2 <= k < len ==> k in FreeSlots(tags, len, false)
    ensures AdjustedLen(c, tags, len, threshold) in {len / 2, len, 2 * len}
  {
    hide FreeCount, Sparse;
    FreeCountIs(tags, len, true);
    FreeCountIs(tags, len, false);
    SparseIff(tags, len);
    forall k: nat | k < len ensures tags[k].busy == SLOT_FREE <==> k in FreeSlots(tags, len, false) {}
    assert 10 * (len - |FreeSlots(tags, len, true)|) <= 6 * len ==> 10 * (len - |FreeSlots(tags, len, true)|) < 9 * len;
  }

  /** `adjust_is_needed` over the sets of slots. */
  lemma NeededIff(c: Config, tags: seq<Tag>, len: nat, threshold: int, slot: nat)
    requires slot < |tags| && len <= |tags|
    ensures AdjustNeeded(c, tags, len, threshold, slot) <==>
      || (c.adjust && c.c3Threshold <= tags[slot].count3 && threshold <= |FreeSlots(tags, len, true)|)
      || (c.adjustFrame && c.lower < len && ThinlyUsed(tags, len) && len / 2 <= slot
          && exists k :: k in FreeSlots(tags, len / 2, true))
  {
    hide FreeCount, Sparse;
    FreeCountIs(tags, len, true);
    FreeCountIs(tags, len / 2, true);
    SparseIff(tags, len);
    assert |FreeSlots(tags, len / 2, true)| != 0 <==> exists k :: k in FreeSlots(tags, len / 2, true);
  }

  // ---------- Choosing a slot ----------

  /** The slots below `n` that may be taken, all of them or those without three-hop users. */
  function OpenSlots(c: Config, tags: seq<Tag>, n: nat, strict: bool, quiet: bool): set<nat>
    requires n <= |tags|
  {
    set k | 0 <= k < n && !tags[k].locker && (tags[k].busy == SLOT_FREE || (!strict && tags[k].sti == c.sti))
            && (quiet ==> tags[k].count3 == 0)
  }

  /** The candidate list holds exactly those, each once and in ascending order. */
  lemma {:induction false} CandidatesAre(c: Config, tags: seq<Tag>, n: nat, strict: bool, quiet: bool)
    requires n <= |tags|
    ensures var s := Candidates(c, tags, n, strict, quiet);
      && |s| == |OpenSlots(c, tags, n, strict, quiet)|
      && (forall k :: k in s <==> k in OpenSlots(c, tags, n, strict, quiet))
      && Ascends(s)
  {
    hide Candidates, OpenSlots;
    CandidatesHold(c, tags, n, strict, quiet);
    CandidatesAscend(c, tags, n, strict, quiet);
  }

  ghost predicate Ascends(s: seq<nat>) { forall i, j :: 0 <= i < j < |s| ==> s[i] < s[j] }

  lemma NoneAscend()
    ensures Ascends([])
  {
  }

  lemma AscendsOn(s: seq<nat>, x: nat)
    requires Ascends(s) && forall i :: 0 <= i < |s| ==> s[i] < x
    ensures Ascends(s + [x])
  {
  }

  lemma {:induction false} CandidatesHold(c: Config, tags: seq<Tag>, n: nat, strict: bool, quiet: bool)
    requires n <= |tags|
    ensures var s, t := Candidates(c, tags, n, strict, quiet), OpenSlots(c, tags, n, strict, quiet);
      |s| == |t| && forall k :: k in s <==> k in t
  {
    hide Eligible, OpenSlots;
    if n == 0 {
      NoneBelow(c, tags, strict, quiet);
    } else {
      CandidatesHold(c, tags, n - 1, strict, quiet);
      OneMore(c, tags, n - 1, strict, quiet);
    }
  }

  lemma {:induction false} CandidatesAscend(c: Config, tags: seq<Tag>, n: nat, strict: bool, quiet: bool)
    requires n <= |tags|
    ensures Ascends(Candidates(c, tags, n, strict, quiet))
  {
    hide Eligible, Ascends;
    if 0 < n {
      CandidatesAscend(c, tags, n - 1, strict, quiet);
      var p, s := Candidates(c, tags, n - 1, strict, quiet), Candidates(c, tags, n, strict, quiet);
      assert s == p || s == p + [n - 1];
      AscendsOn(p, n - 1);
    } else {
      NoneAscend();
    }
  }

  lemma NoneBelow(c: Config, tags: seq<Tag>, strict: bool, quiet: bool)
    ensures OpenSlots(c, tags, 0, strict, quiet) == {}
  {
  }

  lemma OneMore(c: Config, tags: seq<Tag>, n: nat, strict: bool, quiet: bool)
    requires n < |tags|
    ensures var s, t := OpenSlots(c, tags, n, strict, quiet), OpenSlots(c, tags, n + 1, strict, quiet);
      && n !in s && (forall k :: k in s ==> k < n)
      && t == if Eligible(c, tags[n], strict) && (quiet ==> tags[n].count3 == 0) then s + {n} else s
  {
  }

  /**
   The slots `determine_BCH` chooses from: quiet ones of the lower half if the frame is thinly used and
   might be halved, else quiet ones if there are enough of them, else any; without adjustment, any.
   */
  ghost function Choice(c: Config, tags: seq<Tag>, len: nat, threshold: int, strict: bool): set<nat>
    requires len <= |tags|
  {
    var low, quiet := OpenSlots(c, tags, len / 2, strict, true), OpenSlots(c, tags, len, strict, true);
    if c.adjust && c.adjustFrame && c.lower < len && ThinlyUsed(tags, len) && low != {} then low
    else if c.adjust && threshold <= |quiet| then quiet
    else OpenSlots(c, tags, len, strict, false)
  }

  lemma ChoiceWithin(c: Config, tags: seq<Tag>, len: nat, threshold: int, strict: bool)
    requires len <= |tags|
    ensures forall k :: k in Choice(c, tags, len, threshold, strict) ==> k < len
  {
  }

  /** The choice is left to chance, but for the first slot where that is turned off. */
  ghost predicate AtRandom(c: Config, tags: seq<Tag>, len: nat, strict: bool)
    requires len <= |tags|
  {
    || c.randomBch || !c.adjust
    || (c.adjustFrame && c.lower < len && ThinlyUsed(tags, len) && OpenSlots(c, tags, len / 2, strict, true) != {})
  }

  /** The chosen slot is one of them, if there are any; every one may be drawn, or the first is taken. */
  lemma BchChoice(c: Config, tags: seq<Tag>, len: nat, threshold: int, strict: bool, draw: nat)
    requires len <= |tags| && 1 <= threshold
    ensures var s, r := Choice(c, tags, len, threshold, strict), Bch(c, tags, len, threshold, strict, draw);
      && (r < 0 <==> s == {}) && (0 <= r ==> r in s)
      && (0 <= r && !AtRandom(c, tags, len, strict) ==> forall k :: k in s ==> r <= k)
  {
    hide Candidates, Sparse, OpenSlots, ThinlyUsed, Eligible;
    CandidatesAre(c, tags, len / 2, strict, true);
    CandidatesAre(c, tags, len, strict, true);
    CandidatesAre(c, tags, len, strict, false);
    SparseIff(tags, len);
    EmptyOrNot(Candidates(c, tags, len / 2, strict, true), OpenSlots(c, tags, len / 2, strict, true));
    EmptyOrNot(Candidates(c, tags, len, strict, true), OpenSlots(c, tags, len, strict, true));
    EmptyOrNot(Candidates(c, tags, len, strict, false), OpenSlots(c, tags, len, strict, false));
  }

  lemma EmptyOrNot(s: seq<nat>, t: set<nat>)
    requires |s| == |t| && (forall k :: k in s <==> k in t) && Ascends(s)
    ensures s == [] <==> t == {}
    ensures s != [] ==> forall k :: k in t ==> s[0] <= k
  {
    if s != [] { assert s[0] in t; }
  }

  lemma Drawn(s: seq<nat>, k: nat) returns (draw: nat)
    requires k in s
    ensures Pick(s, true, draw) == k
  {
    draw :| 0 <= draw < |s| && s[draw] == k;
    assert draw % |s| == draw;
  }

  lemma AnyCanBeDrawn(c: Config, tags: seq<Tag>, len: nat, threshold: int, strict: bool, k: nat) returns (draw: nat)
    requires len <= |tags| && 1 <= threshold && AtRandom(c, tags, len, strict)
    requires k in Choice(c, tags, len, threshold, strict)
    ensures Bch(c, tags, len, threshold, strict, draw) == k
  {
    hide Candidates, Sparse, OpenSlots, ThinlyUsed, Eligible, Pick;
    var low, quiet := Candidates(c, tags, len / 2, strict, true), Candidates(c, tags, len, strict, true);
    var all := Candidates(c, tags, len, strict, false);
    CandidatesAre(c, tags, len / 2, strict, true);
    CandidatesAre(c, tags, len, strict, true);
    CandidatesAre(c, tags, len, strict, false);
    SparseIff(tags, len);
    EmptyOrNot(low, OpenSlots(c, tags, len / 2, strict, true));
    if c.adjust && c.adjustFrame && c.lower < len && Sparse(tags, len) && low != [] {
      draw := Drawn(low, k);
    } else if c.adjust && threshold <= |quiet| {
      draw := Drawn(quiet, k);
    } else {
      draw := Drawn(all, k);
    }
  }

  // ---------- What a node then does ----------

  /**
   A working node that is left without a slot free of users within three hops sends an FI of twice the
   length, below the bound, if frames are adjusted and its slot is usable.
   */
  lemma CrowdedDoubles(c: Config, n: Node, draw: Draw)
    requires Runs(c, n) && n.slotCount == n.slotNum < n.frameLen && n.phase == WorkFi && c.adjustFrame
    requires Usable(c, Refresh(c, n).tags[n.slotNum]) && Refresh(c, n).frameLen < c.upper
    requires FreeSlots(Refresh(c, n).tags, Refresh(c, n).frameLen, true) == {}
    requires OwnSlotStep(c, n, draw).Done?
    ensures var o := OwnSlotStep(c, n, draw);
      && o.sent.Some? && |o.sent.value.marks| == 2 * Refresh(c, n).frameLen == o.node.frameLen
  {
    hide Refresh, FreeCount, Sparse, Bch, Wander;
    var m := Refresh(c, n);
    DoublesIff(c, m.tags, m.frameLen, m.freeThreshold);
    NeededIff(c, m.tags, m.frameLen, m.freeThreshold, n.slotNum);
    assert FreeSlots(m.tags, m.frameLen / 2, true) <= FreeSlots(m.tags, m.frameLen, true);
    AdjustRuns(c, m, draw);
  }
}
