/**
 The other side of forgetting: a station that is heard, or only named, in every round keeps its entry
 in the table, with its lifetime renewed.
 */
module SlotRenewal {
  import opened SlotTable
  import opened SlotLaws

  /** The FI claims slot `k` for its own sender `x`. */
  predicate Speaks(fi: Fi, k: nat, x: nat) { Names(fi, k, x) && fi.sender == x }

  /** The FI gives slot `k` to `x` as a one-hop neighbour of its sender, or as the sender itself. */
  predicate Names(fi: Fi, k: nat, x: nat) {
    k < |fi.marks| && fi.marks[k].sti == x && fi.marks[k].busy == SLOT_1HOP
  }

  ghost predicate AnySpeaks(fis: seq<Fi>, k: nat, x: nat) { exists fi :: fi in fis && Speaks(fi, k, x) }

  ghost predicate AnyNames(fis: seq<Fi>, k: nat, x: nat) { exists fi :: fi in fis && Names(fi, k, x) }

  /** The slot is an entry of `x`, or free and may become one. */
  predicate Opens(t: Tag, x: nat) {
    && !t.locker && t.psf == 0
    && ((t.sti == x && (t.busy == SLOT_1HOP || t.busy == SLOT_2HOP)) || (t.sti == 0 && t.busy == SLOT_FREE))
  }

  /**
   The FI takes the slot from `x`: it is a collision under another id, another station's claim (its own
   one, if `x` is at one hop; any, if the slot is still free), or `x` itself leaving the slot.
   */
  predicate Displaces(c: Config, t: Tag, fi: Fi, k: nat, x: nat) {
    k < |fi.marks| && var m := fi.marks[k];
    if m.sti == 0 then fi.sender == x && t.sti == x
    else
      && m.sti != x && m.sti != c.sti
      && (m.busy == SLOT_COLLISION
          || (m.busy == SLOT_1HOP && (t.sti == 0 || (t.busy == SLOT_1HOP && m.sti == fi.sender))))
  }

  /** The FIs do so, each against the table it meets. */
  predicate Displaced(c: Config, tags: seq<Tag>, len: nat, fis: seq<Fi>, k: nat, x: nat)
    requires k < |tags| && len <= |tags| && forall fi :: fi in fis ==> |fi.marks| <= |tags|
    decreases fis
  {
    fis != [] &&
    (Displaces(c, tags[k], fis[0], k, x) ||
     var m := Merge(c, tags, len, fis[0]); Displaced(c, m.0, m.1, fis[1..], k, x))
  }

  /** What is still so, whatever else is merged: the entry, its distance, and its renewal. */
  predicate NoWorse(c: Config, t: Tag, u: Tag, x: nat) {
    && Opens(u, x) && (u.life == t.life || u.life == c.lifetime)
    && (t.sti == x ==> u.sti == x)
    && (t.sti == x && t.busy == SLOT_1HOP ==> u.busy == SLOT_1HOP && (t.existed ==> u.existed))
  }

  /** Heard from its owner: at one hop and with the full lifetime. */
  predicate Fresh(c: Config, t: Tag, x: nat) { t.sti == x && t.busy == SLOT_1HOP && t.life == c.lifetime }

  /** Named by somebody: renewed, or at one hop and known to somebody else. */
  predicate Vouched(c: Config, t: Tag, x: nat) {
    t.sti == x && (t.life == c.lifetime || (t.busy == SLOT_1HOP && t.existed))
  }

  lemma MarkKeeps(c: Config, t: Tag, fi: Fi, k: nat, x: nat)
    requires x != 0 && x != c.sti && c.sti != 0 && Opens(t, x) && k < |fi.marks| && fi.marks[k].psf == 0
    requires !Displaces(c, t, fi, k, x)
    ensures var u := OtherRule(c, t, fi.marks[k], fi.sender);
      && NoWorse(c, t, u, x)
      && (Speaks(fi, k, x) ==> Fresh(c, u, x)) && (Names(fi, k, x) ==> Vouched(c, u, x))
  {
  }

  /** And the other way round: a mark that displaces it does take the entry away, or into collision. */
  lemma MarkDisplaces(c: Config, t: Tag, fi: Fi, k: nat, x: nat)
    requires x != 0 && x != c.sti && c.sti != 0 && Opens(t, x) && k < |fi.marks| && fi.marks[k].psf == 0
    requires Displaces(c, t, fi, k, x)
    ensures !Opens(OtherRule(c, t, fi.marks[k], fi.sender), x)
  {
  }

  /** Slot `k` after merging an FI, if it is not the node's own. */
  lemma MergedOther(c: Config, tags: seq<Tag>, len: nat, fi: Fi, k: nat)
    requires len <= |tags| && |fi.marks| <= |tags| && k < |tags| && tags[k].sti != c.sti
    ensures Merge(c, tags, len, fi).0[k] ==
      if k < |fi.marks| then OtherRule(c, tags[k], fi.marks[k], fi.sender) else tags[k]
  {
    hide OtherRule, OwnPass;
    MergedAt(c, tags, len, fi, k);
  }

  lemma MergeKeeps(c: Config, tags: seq<Tag>, len: nat, fi: Fi, k: nat, x: nat)
    requires x != 0 && x != c.sti && c.sti != 0 && Fits(fi)
    requires len <= |tags| && |fi.marks| <= |tags| && k < |tags| && Opens(tags[k], x)
    requires !Displaces(c, tags[k], fi, k, x)
    ensures var u := Merge(c, tags, len, fi).0[k];
      && NoWorse(c, tags[k], u, x)
      && (Speaks(fi, k, x) ==> Fresh(c, u, x)) && (Names(fi, k, x) ==> Vouched(c, u, x))
  {
    hide OtherRule, Merge, Displaces;
    MergedOther(c, tags, len, fi, k);
    if k < |fi.marks| { MarkKeeps(c, tags[k], fi, k, x); }
  }

  /** Merging any list that does not displace it keeps an entry, and renews it if its owner is heard or it is named. */
  lemma {:induction false} MergeAllKeeps(c: Config, tags: seq<Tag>, len: nat, fis: seq<Fi>, k: nat, x: nat)
    requires x != 0 && x != c.sti && c.sti != 0 && AllFit(fis)
    requires len <= |tags| && k < |tags| && Opens(tags[k], x) && forall fi :: fi in fis ==> |fi.marks| <= |tags|
    requires !Displaced(c, tags, len, fis, k, x)
    ensures var u := MergeAll(c, tags, len, fis).0[k];
      && NoWorse(c, tags[k], u, x)
      && (Fresh(c, tags[k], x) || AnySpeaks(fis, k, x) ==> Fresh(c, u, x))
      && (Vouched(c, tags[k], x) || AnyNames(fis, k, x) ==> Vouched(c, u, x))
    decreases fis
  {
    hide Merge, Displaces, Fits;
    if fis != [] {
      var m := Merge(c, tags, len, fis[0]);
      MergeKeeps(c, tags, len, fis[0], k, x);
      MergeAllKeeps(c, m.0, m.1, fis[1..], k, x);
      assert fis == [fis[0]] + fis[1..];
      assert AnySpeaks(fis, k, x) ==> Speaks(fis[0], k, x) || AnySpeaks(fis[1..], k, x);
      assert AnyNames(fis, k, x) ==> Names(fis[0], k, x) || AnyNames(fis[1..], k, x);
    }
  }

  // ---------- Expiry ----------

  /** An entry that outlives the next expiry: time is left, or it is at one hop and known to somebody else. */
  predicate Lasting(t: Tag, x: nat) {
    && t.sti == x && Opens(t, x) && 1 <= t.life
    && (2 <= t.life || (t.busy == SLOT_1HOP && t.existed))
  }

  /**
   What expiry makes of another station's entry: a round less to live; a two-hop entry, if that was its
   last round and somebody else knows the station; or a free slot, locked if the entry was not at two hops.
   */
  lemma ExpireExactly(c: Config, t: Tag, kept: bool)
    requires t.sti != 0 && t.sti != c.sti && 0 <= t.life
    ensures var u := Expire(c, t, kept);
      && (2 <= t.life ==> u.sti == t.sti && u.busy == t.busy && u.life == t.life - 1 && !u.existed && !u.locker)
      && (t.life <= 1 && t.busy == SLOT_1HOP && t.existed ==>
            u.sti == t.sti && u.busy == SLOT_2HOP && u.life == c.lifetime - 1 && !u.existed && !u.locker)
      && (t.life <= 1 && !(t.busy == SLOT_1HOP && t.existed) ==>
            u.sti == 0 && u.busy == SLOT_FREE && (u.locker <==> t.busy != SLOT_2HOP))
  {
  }

  lemma ExpireLasts(c: Config, t: Tag, kept: bool, x: nat)
    requires x != 0 && x != c.sti && 2 <= c.lifetime && Lasting(t, x)
    ensures var u := Expire(c, t, kept); u.sti == x && Opens(u, x) && 1 <= u.life
  {
  }

  lemma VouchedLasts(c: Config, t: Tag, u: Tag, x: nat)
    requires 2 <= c.lifetime && t.sti == x && 1 <= t.life && NoWorse(c, t, u, x) && Vouched(c, u, x)
    ensures Lasting(u, x)
  {
  }

  /** A round in which the station is named, and not displaced, leaves its entry fit for the next one. */
  lemma SynthesizeKeeps(c: Config, tags: seq<Tag>, len: nat, slot: int, candidate: int, fis: seq<Fi>, k: nat, x: nat)
    requires SaneTable(tags, len) && AllFit(fis) && k < |tags| && c.memory && 2 <= c.lifetime
    requires x != 0 && x != c.sti && c.sti != 0 && Lasting(tags[k], x) && AnyNames(fis, k, x)
    requires !Displaced(c, Base(c, tags, len, slot, candidate, true), len, fis, k, x)
    ensures var u := Synthesize(c, tags, len, slot, candidate, true, fis).0[k];
      Lasting(u, x) && (AnySpeaks(fis, k, x) ==> Fresh(c, u, x))
  {
    hide Expire, Displaced, MergeAll, AnyNames, AnySpeaks;
    var aged := ExpireAll(c, tags, len, slot, candidate);
    assert k < len;
    ExpireLasts(c, tags[k], k == slot || k == candidate, x);
    MergeAllKeeps(c, aged, len, fis, k, x);
    VouchedLasts(c, aged[k], MergeAll(c, aged, len, fis).0[k], x);
  }

  /** Into a free slot it is entered with the full lifetime. */
  lemma BlankKeeps(c: Config, tags: seq<Tag>, len: nat, fis: seq<Fi>, k: nat, x: nat)
    requires x != 0 && x != c.sti && c.sti != 0 && AllFit(fis) && 2 <= c.lifetime
    requires len <= |tags| && k < |tags| && forall fi :: fi in fis ==> |fi.marks| <= |tags|
    requires tags[k].sti == 0 && Opens(tags[k], x)
    requires !Displaced(c, tags, len, fis, k, x) && AnyNames(fis, k, x)
    ensures var u := MergeAll(c, tags, len, fis).0[k];
      Lasting(u, x) && u.life == c.lifetime && (AnySpeaks(fis, k, x) ==> Fresh(c, u, x))
    decreases fis
  {
    hide Displaced, MergeAll, AnyNames, AnySpeaks;
    MergeAllKeeps(c, tags, len, fis, k, x);
    EnteredFull(c, tags, len, fis, k, x);
  }

  lemma {:induction false} EnteredFull(c: Config, tags: seq<Tag>, len: nat, fis: seq<Fi>, k: nat, x: nat)
    requires x != 0 && x != c.sti && c.sti != 0 && AllFit(fis)
    requires len <= |tags| && k < |tags| && Opens(tags[k], x) && forall fi :: fi in fis ==> |fi.marks| <= |tags|
    requires tags[k].sti == 0 || tags[k].life == c.lifetime
    requires !Displaced(c, tags, len, fis, k, x)
    ensures var u := MergeAll(c, tags, len, fis).0[k]; u.sti == 0 || u.life == c.lifetime
    decreases fis
  {
    hide Merge, Displaces, OtherRule;
    if fis != [] {
      var m := Merge(c, tags, len, fis[0]);
      MergeKeeps(c, tags, len, fis[0], k, x);
      MergedOther(c, tags, len, fis[0], k);
      if k < |fis[0].marks| { MarkEnters(c, tags[k], fis[0], k, x); }
      EnteredFull(c, m.0, m.1, fis[1..], k, x);
    }
  }

  lemma MarkEnters(c: Config, t: Tag, fi: Fi, k: nat, x: nat)
    requires x != 0 && x != c.sti && c.sti != 0 && Opens(t, x) && k < |fi.marks| && fi.marks[k].psf == 0
    requires !Displaces(c, t, fi, k, x) && (t.sti == 0 || t.life == c.lifetime)
    ensures var u := OtherRule(c, t, fi.marks[k], fi.sender); u.sti == 0 || u.life == c.lifetime
  {
  }
}
