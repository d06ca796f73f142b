/**
 What the counters and locks of the SATMAC slot table mean: how many users an FI list reports for a
 slot, how long a freed slot stays locked, and whose silence about a slot counts as an objection.
 */
module SlotCounting {
  import opened SlotTable
  import opened SlotLaws
  import opened SlotRenewal

  // ---------- Users three hops away ----------

  /** The users an FI reports for slot `k` from beyond its sender's own neighbours. */
  function Beyond(c: Config, fi: Fi, k: nat): nat {
    if k < |fi.marks| && fi.marks[k].busy == SLOT_2HOP && fi.marks[k].sti != 0 && fi.marks[k].sti != c.sti
    then fi.marks[k].count2 else 0
  }

  function AllBeyond(c: Config, fis: seq<Fi>, k: nat): nat {
    if fis == [] then 0 else Beyond(c, fis[0], k) + AllBeyond(c, fis[1..], k)
  }

  /** The FI puts no station into slot `k`. */
  predicate LeavesFree(c: Config, fi: Fi, k: nat) {
    k < |fi.marks| ==> fi.marks[k].sti in {0, c.sti} || fi.marks[k].busy !in {SLOT_1HOP, SLOT_COLLISION}
  }

  /** A slot that stays free counts the users that all FIs report for it from three hops away, and nothing else. */
  lemma {:induction false} FreeCounts(c: Config, tags: seq<Tag>, len: nat, fis: seq<Fi>, k: nat)
    requires c.sti != 0 && len <= |tags| && k < |tags| && forall fi :: fi in fis ==> |fi.marks| <= |tags|
    requires tags[k].sti == 0 && tags[k].busy == SLOT_FREE && !tags[k].locker
    requires forall fi :: fi in fis ==> LeavesFree(c, fi, k)
    ensures MergeAll(c, tags, len, fis).0[k] == tags[k].(count3 := tags[k].count3 + AllBeyond(c, fis, k))
    decreases fis
  {
    hide Merge, OtherRule;
    if fis != [] {
      var m := Merge(c, tags, len, fis[0]);
      MergedOther(c, tags, len, fis[0], k);
      assert LeavesFree(c, fis[0], k);
      if k < |fis[0].marks| { FreeMark(c, tags[k], fis[0], k); }
      FreeCounts(c, m.0, m.1, fis[1..], k);
    }
  }

  lemma FreeMark(c: Config, t: Tag, fi: Fi, k: nat)
    requires c.sti != 0 && k < |fi.marks| && LeavesFree(c, fi, k)
    requires t.sti == 0 && t.busy == SLOT_FREE && !t.locker
    ensures OtherRule(c, t, fi.marks[k], fi.sender) == t.(count3 := t.count3 + Beyond(c, fi, k))
  {
  }

  /** So does the node's own slot, as long as no FI takes it away. */
  lemma {:induction false} OwnCounts(c: Config, tags: seq<Tag>, len: nat, fis: seq<Fi>, s: nat)
    requires c.sti != 0 && s < len <= |tags| == TABLE_SIZE && Held(c, tags[s])
    requires AllFit(fis) && forall fi :: fi in fis ==> !Seizes(c, fi, s)
    ensures var t := MergeAll(c, tags, len, fis).0[s];
      t.count3 == tags[s].count3 + AllBeyond(c, fis, s) && t.count2 == tags[s].count2
    decreases fis
  {
    hide Merge, Held, Seizes;
    if fis != [] {
      assert Fits(fis[0]);
      var m := Merge(c, tags, len, fis[0]);
      HeldMerge(c, tags, len, fis[0], s);
      OwnMark(c, tags, len, fis[0], s);
      OwnCounts(c, m.0, m.1, fis[1..], s);
    }
  }

  lemma OwnMark(c: Config, tags: seq<Tag>, len: nat, fi: Fi, s: nat)
    requires c.sti != 0 && s < len <= |tags| && |fi.marks| <= |tags| && Fits(fi)
    requires Held(c, tags[s]) && !Seizes(c, fi, s)
    ensures var t := Merge(c, tags, len, fi).0[s];
      t.count3 == tags[s].count3 + Beyond(c, fi, s) && t.count2 == tags[s].count2
  {
    MergedAt(c, tags, len, fi, s);
  }

  // ---------- Users of a station's slot ----------

  /** Somebody else is reported as a one-hop user of the slot that `x` has. */
  predicate Shares(c: Config, m: Mark, x: nat) { m.busy == SLOT_1HOP && m.sti != 0 && m.sti != x && m.sti != c.sti }

  /** The mark counts `x` itself: its own claim, or, at two hops, anybody's word. */
  predicate Counts(t: Tag, m: Mark, sender: nat, x: nat) {
    m.busy == SLOT_1HOP && m.sti == x && (t.busy == SLOT_2HOP || sender == x)
  }

  /**
   What a mark adds to the counters of an entry that it does not displace: one user and that user's
   reports for each other station, and for the station itself the first time only.
   */
  lemma MarkCounts(c: Config, t: Tag, fi: Fi, k: nat, x: nat)
    requires x != 0 && x != c.sti && c.sti != 0 && Opens(t, x) && t.sti == x
    requires k < |fi.marks| && fi.marks[k].psf == 0 && !Displaces(c, t, fi, k, x)
    ensures var m, u := fi.marks[k], OtherRule(c, t, fi.marks[k], fi.sender);
      var counted := Shares(c, m, x) || (Counts(t, m, fi.sender, x) && !t.c3flag);
      && u.count2 == t.count2 + (if counted then 1 else 0)
      && u.count3 == t.count3 + (if counted then m.count2 else 0)
                     + (if t.busy == SLOT_1HOP && m.sti != x then Beyond(c, fi, k) else 0)
      && (u.c3flag <==> t.c3flag || Counts(t, m, fi.sender, x))
  {
  }

  /** A station that enters a free slot is its first user; one that takes a slot as a collision likewise. */
  lemma EntryCounts(c: Config, t: Tag, fi: Fi, k: nat)
    requires c.sti != 0 && k < |fi.marks| && fi.marks[k].psf == 0 && fi.marks[k].sti !in {0, c.sti} && !t.locker
    ensures var m, u := fi.marks[k], OtherRule(c, t, fi.marks[k], fi.sender);
      && (t.sti == 0 && t.busy == SLOT_FREE && m.busy == SLOT_1HOP ==>
           u.count2 == 1 && u.count3 == m.count2 && u.c3flag)
      && (t.sti != m.sti && t.sti != c.sti && t.busy in {SLOT_1HOP, SLOT_2HOP} && m.busy == SLOT_COLLISION ==>
           u.sti == m.sti && u.busy == SLOT_2HOP && u.life == c.lifetime && u.count2 == 1 && u.count3 == 1)
  {
  }

  function Sharers(c: Config, fis: seq<Fi>, k: nat, x: nat): nat {
    if fis == [] then 0 else
    (if k < |fis[0].marks| && Shares(c, fis[0].marks[k], x) then 1 else 0) + Sharers(c, fis[1..], k, x)
  }

  /** Over a list, the station itself is counted once however often it is named, and everybody else every time. */
  lemma {:induction false} CountedOnce(c: Config, tags: seq<Tag>, len: nat, fis: seq<Fi>, k: nat, x: nat)
    requires x != 0 && x != c.sti && c.sti != 0 && AllFit(fis)
    requires len <= |tags| && k < |tags| && Opens(tags[k], x) && forall fi :: fi in fis ==> |fi.marks| <= |tags|
    requires tags[k].sti == x && !Displaced(c, tags, len, fis, k, x)
    ensures var t, u := tags[k], MergeAll(c, tags, len, fis).0[k];
      && u.count2 == t.count2 + Sharers(c, fis, k, x) + (if u.c3flag && !t.c3flag then 1 else 0)
      && (t.c3flag || AnySpeaks(fis, k, x) ==> u.c3flag)
    decreases fis
  {
    hide Merge, Displaces, OtherRule, Opens, NoWorse, Fresh, Vouched;
    if fis != [] {
      assert Fits(fis[0]);
      var m := Merge(c, tags, len, fis[0]);
      MergeKeeps(c, tags, len, fis[0], k, x);
      StillOpen(c, tags[k], m.0[k], x);
      StillNotOwn(c, tags[k], x);
      MergedOther(c, tags, len, fis[0], k);
      if k < |fis[0].marks| { MarkCounts(c, tags[k], fis[0], k, x); }
      CountedOnce(c, m.0, m.1, fis[1..], k, x);
      assert AnySpeaks(fis, k, x) ==> Speaks(fis[0], k, x) || AnySpeaks(fis[1..], k, x) by {
        assert fis == [fis[0]] + fis[1..];
      }
    }
  }

  lemma StillOpen(c: Config, t: Tag, u: Tag, x: nat)
    requires NoWorse(c, t, u, x) && t.sti == x
    ensures Opens(u, x) && u.sti == x
  {
  }

  lemma StillNotOwn(c: Config, t: Tag, x: nat)
    requires Opens(t, x) && x != c.sti && c.sti != 0
    ensures t.sti != c.sti
  {
  }

  // ---------- Locks ----------

  lemma {:induction false} LockedStays(c: Config, tags: seq<Tag>, len: nat, fis: seq<Fi>, k: nat)
    requires c.sti != 0 && len <= |tags| && k < |tags| && forall fi :: fi in fis ==> |fi.marks| <= |tags|
    requires tags[k].locker && tags[k].sti == 0
    ensures MergeAll(c, tags, len, fis).0[k] == tags[k]
    decreases fis
  {
    hide Merge;
    if fis != [] {
      MergedOther(c, tags, len, fis[0], k);
      var m := Merge(c, tags, len, fis[0]);
      LockedStays(c, m.0, m.1, fis[1..], k);
    }
  }

  /**
   A freed slot is locked for one round: whatever the FIs of that round say it stays free, and then it is
   open again. Nor does any other free slot of the frame stay locked in a round that ends a lock.
   */
  lemma LockLastsARound(c: Config, tags: seq<Tag>, len: nat, slot: int, candidate: int, fis: seq<Fi>, k: nat)
    requires SaneTable(tags, len) && AllFit(fis) && c.sti != 0 && c.memory && k < len
    requires tags[k].locker && tags[k].sti == 0
    ensures var r := Synthesize(c, tags, len, slot, candidate, true, fis);
      && r.0[k] == tags[k].(locker := false)
      && forall j :: 0 <= j < r.1 && r.0[j].sti == 0 ==> !r.0[j].locker
  {
    hide MergeAll;
    var aged := ExpireAll(c, tags, len, slot, candidate);
    assert HasLock(tags, len);
    LockedStays(c, aged, len, fis, k);
  }

  /** Where no lock ends, a free slot is locked afterwards only if it was emptied in this very round. */
  lemma LockIsNew(c: Config, tags: seq<Tag>, len: nat, slot: int, candidate: int, fis: seq<Fi>, k: nat)
    requires SaneTable(tags, len) && AllFit(fis) && c.sti != 0 && c.memory && k < len && tags[k].sti == 0
    requires forall j :: 0 <= j < len && tags[j].sti == 0 ==> !tags[j].locker
    requires forall fi :: fi in fis ==> LeavesFree(c, fi, k)
    ensures !Synthesize(c, tags, len, slot, candidate, true, fis).0[k].locker
  {
    hide MergeAll;
    var aged := ExpireAll(c, tags, len, slot, candidate);
    FreeCounts(c, aged, len, fis, k);
  }

  // ---------- Silence about a slot ----------

  /** The first loop leaves the slots of others alone. */
  lemma {:induction false} OwnPassOthers(c: Config, tags: seq<Tag>, len: nat, fi: Fi, k: nat, j: nat)
    requires k <= len <= |tags| && k <= |fi.marks| && j < |tags| && tags[j].sti != c.sti
    ensures OwnPass(c, tags, len, fi, k)[j] == tags[j]
    decreases k
  {
    if 0 < k { OwnPassOthers(c, tags, len, fi, k - 1, j); }
  }

  /**
   An FI that calls the node's slot free objects to it if its sender has a slot in the node's table, and
   so can be expected to know the node; from a station without one it does not.
   */
  lemma FreeMarkObjects(c: Config, tags: seq<Tag>, len: nat, fi: Fi, s: nat)
    requires c.sti != 0 && s < len <= |tags| && |fi.marks| <= |tags| && Fits(fi) && fi.sender != c.sti
    requires tags[s].sti == c.sti && tags[s].busy == SLOT_1HOP && tags[s].psf == 0
    requires s < |fi.marks| && fi.marks[s].sti == 0 && fi.marks[s].busy == SLOT_FREE
    requires forall j :: 0 <= j < len && j != s ==> tags[j].sti != c.sti
    ensures Merge(c, tags, len, fi).0[s].busy ==
      if exists j :: 0 <= j < len && tags[j].sti == fi.sender then SLOT_COLLISION else SLOT_1HOP
  {
    MergedAt(c, tags, len, fi, s);
    var p := OwnPass(c, tags, len, fi, s);
    forall j | 0 <= j < len ensures p[j].sti == fi.sender <==> tags[j].sti == fi.sender {
      if j != s { OwnPassOthers(c, tags, len, fi, s, j); }
    }
  }
}
