/** What merging and ageing promise about a node's own slot and about the slots of others. */
module SlotLaws {
  import opened SlotTable

  // ---------- The node's own slot ----------

  /** The FI names another station as one-hop owner of slot `s`. */
  predicate Claims(c: Config, fi: Fi, s: nat) {
    s < |fi.marks| && fi.marks[s].busy == SLOT_1HOP && fi.marks[s].sti != 0 && fi.marks[s].sti != c.sti
  }

  /** The FI marks slot `s` as collided under another station's id, which takes the slot away. */
  predicate Seizes(c: Config, fi: Fi, s: nat) {
    s < |fi.marks| && fi.marks[s].busy == SLOT_COLLISION && fi.marks[s].sti != 0 && fi.marks[s].sti != c.sti
  }

  /** The mark speaks against the node's own slot; `known` says that its sender has a slot. */
  predicate Opposes(c: Config, m: Mark, known: bool) {
    if m.sti == c.sti then m.busy == SLOT_FREE
    else if m.sti != 0 then m.busy == SLOT_1HOP || m.busy == SLOT_FREE
    else m.busy == SLOT_FREE && known
  }

  /** The FI speaks against the node's own slot `s`, given the table it is merged into. */
  predicate Objects(c: Config, tags: seq<Tag>, len: nat, fi: Fi, s: nat)
    requires s < len <= |tags| && |fi.marks| <= |tags|
  {
    s < |fi.marks| && Opposes(c, fi.marks[s], !IsNewNeighbor(OwnPass(c, tags, len, fi, s), len, fi.sender))
  }

  /** Some FI of the list speaks against slot `s` when its turn comes. */
  predicate Objected(c: Config, tags: seq<Tag>, len: nat, fis: seq<Fi>, s: nat)
    requires s < len <= |tags| && forall fi :: fi in fis ==> |fi.marks| <= |tags|
    decreases fis
  {
    fis != [] &&
    (Objects(c, tags, len, fis[0], s) ||
     var m := Merge(c, tags, len, fis[0]); Objected(c, m.0, m.1, fis[1..], s))
  }

  /** The slot carries the node's own id, contested or not. */
  predicate Held(c: Config, t: Tag) {
    t.sti == c.sti && t.psf == 0 && (t.busy == SLOT_1HOP || t.busy == SLOT_COLLISION)
  }

  lemma HeldRules(c: Config, t: Tag, m: Mark, sender: nat, newNeighbor: bool)
    requires c.sti != 0 && Held(c, t) && m.psf == 0
    requires !(m.busy == SLOT_COLLISION && m.sti != 0 && m.sti != c.sti)
    ensures var u := OwnRule(c, t, m, sender, newNeighbor);
      && Held(c, u) && OtherRule(c, u, m, sender) == u
      && (u.busy == SLOT_COLLISION <==> t.busy == SLOT_COLLISION || Opposes(c, m, !newNeighbor))
  {
  }

  lemma HeldMerge(c: Config, tags: seq<Tag>, len: nat, fi: Fi, s: nat)
    requires c.sti != 0 && s < len <= |tags| && |fi.marks| <= |tags| && Fits(fi)
    requires Held(c, tags[s]) && !Seizes(c, fi, s)
    ensures var t := Merge(c, tags, len, fi).0[s];
      Held(c, t) && (t.busy == SLOT_COLLISION <==> tags[s].busy == SLOT_COLLISION || Objects(c, tags, len, fi, s))
  {
    MergedAt(c, tags, len, fi, s);
    if s < |fi.marks| {
      HeldRules(c, tags[s], fi.marks[s], fi.sender, IsNewNeighbor(OwnPass(c, tags, len, fi, s), len, fi.sender));
    }
  }

  /** Unless the slot is seized, the node keeps its id on it, and loses its use exactly when some FI objects. */
  lemma {:induction false} HeldMergeAll(c: Config, tags: seq<Tag>, len: nat, fis: seq<Fi>, s: nat)
    requires c.sti != 0 && s < len <= |tags| == TABLE_SIZE && Held(c, tags[s])
    requires AllFit(fis) && forall fi :: fi in fis ==> !Seizes(c, fi, s)
    ensures var t := MergeAll(c, tags, len, fis).0[s];
      Held(c, t) && (t.busy == SLOT_COLLISION <==> tags[s].busy == SLOT_COLLISION || Objected(c, tags, len, fis, s))
    decreases fis
  {
    if fis != [] {
      assert fis[0] in fis;
      HeldMerge(c, tags, len, fis[0], s);
      var m := Merge(c, tags, len, fis[0]);
      HeldMergeAll(c, m.0, m.1, fis[1..], s);
    }
  }

  /** A claim of the slot by another station is an objection, wherever it stands in the list. */
  lemma {:induction false} ClaimObjects(c: Config, tags: seq<Tag>, len: nat, fis: seq<Fi>, s: nat, i: nat)
    requires s < len <= |tags| && forall fi :: fi in fis ==> |fi.marks| <= |tags|
    requires i < |fis| && Claims(c, fis[i], s)
    ensures Objected(c, tags, len, fis, s)
    decreases fis
  {
    if 0 < i {
      var m := Merge(c, tags, len, fis[0]);
      assert fis[1..][i - 1] == fis[i];
      ClaimObjects(c, m.0, m.1, fis[1..], s, i - 1);
    }
  }

  /** Merging never puts the node's own id on a slot that did not carry it. */
  lemma {:induction false} NoNewOwnSlot(c: Config, tags: seq<Tag>, len: nat, fis: seq<Fi>, k: nat)
    requires c.sti != 0 && len <= |tags| && k < |tags| && forall fi :: fi in fis ==> |fi.marks| <= |tags|
    requires tags[k].sti != c.sti
    ensures MergeAll(c, tags, len, fis).0[k].sti != c.sti
    decreases fis
  {
    if fis != [] {
      assert fis[0] in fis;
      MergedAt(c, tags, len, fis[0], k);
      var m := Merge(c, tags, len, fis[0]);
      NoNewOwnSlot(c, m.0, m.1, fis[1..], k);
    }
  }

  /**
   What becomes of the node's own slot: still its own, uncontested or contested; held by another
   station at one hop or two; a collision of others; or emptied, and locked for this round.
   */
  datatype Fate = Mine | Contested | Near(owner: nat) | Far(owner: nat) | Stuck(owner: nat) | Emptied

  /** How one mark changes it; `known` says that the sender has a slot, `locked` that the slot is locked. */
  function Next(c: Config, f: Fate, m: Mark, sender: nat, known: bool, locked: bool): Fate {
    var other := m.sti != 0 && m.sti != c.sti;
    match f
    case Mine =>
      if other && m.busy == SLOT_COLLISION then Far(m.sti)
      else if Opposes(c, m, known) then Contested else Mine
    case Contested => if other && m.busy == SLOT_COLLISION then Far(m.sti) else Contested
    case Far(y) =>
      if locked then f
      else if other && m.sti != y && m.busy == SLOT_COLLISION then Far(m.sti)
      else if m.sti == y == sender && m.busy == SLOT_1HOP then Near(y)
      else if m.sti == 0 && sender == y then Emptied
      else f
    case Near(y) =>
      if locked then f
      else if other && m.sti != y && m.busy == SLOT_COLLISION then Far(m.sti)
      else if other && m.sti == sender && m.sti != y && m.busy == SLOT_1HOP then Stuck(y)
      else if m.sti == 0 && sender == y then Emptied
      else f
    case _ => f
  }

  /** The tag of the slot tells its fate. */
  predicate Shows(c: Config, t: Tag, f: Fate, locked: bool) {
    && t.psf == 0
    && match f
       case Mine => t.sti == c.sti && t.busy == SLOT_1HOP && t.locker == locked
       case Contested => t.sti == c.sti && t.busy == SLOT_COLLISION && t.locker == locked
       case Near(y) => t.sti == y && y != 0 && y != c.sti && t.busy == SLOT_1HOP && t.locker == locked
       case Far(y) => t.sti == y && y != 0 && y != c.sti && t.busy == SLOT_2HOP && t.locker == locked
       case Stuck(y) => t.sti == y && y != 0 && y != c.sti && t.busy == SLOT_COLLISION
       case Emptied => t.sti == 0 && t.busy == SLOT_FREE && t.locker
  }

  lemma NextRules(c: Config, t: Tag, f: Fate, m: Mark, sender: nat, newNeighbor: bool, locked: bool)
    requires c.sti != 0 && Shows(c, t, f, locked) && m.psf == 0
    ensures var u := OtherRule(c, OwnRule(c, t, m, sender, newNeighbor), m, sender);
      Shows(c, u, Next(c, f, m, sender, !newNeighbor, locked), locked)
  {
  }

  /** The fate after all FIs of the list, each merged in its turn. */
  function FateAfter(c: Config, f: Fate, tags: seq<Tag>, len: nat, fis: seq<Fi>, s: nat, locked: bool): Fate
    requires s < len <= |tags| && forall fi :: fi in fis ==> |fi.marks| <= |tags|
    decreases fis
  {
    if fis == [] then f else
    var fi, m := fis[0], Merge(c, tags, len, fis[0]);
    var g := if s < |fi.marks|
      then Next(c, f, fi.marks[s], fi.sender, !IsNewNeighbor(OwnPass(c, tags, len, fi, s), len, fi.sender), locked)
      else f;
    FateAfter(c, g, m.0, m.1, fis[1..], s, locked)
  }

  /** Whatever the FIs say, the slot ends up as its fate has it. */
  lemma {:induction false} FateShows(c: Config, f: Fate, tags: seq<Tag>, len: nat, fis: seq<Fi>, s: nat, locked: bool)
    requires c.sti != 0 && s < len <= |tags| == TABLE_SIZE && AllFit(fis) && Shows(c, tags[s], f, locked)
    requires forall fi :: fi in fis ==> |fi.marks| <= |tags|
    ensures Shows(c, MergeAll(c, tags, len, fis).0[s], FateAfter(c, f, tags, len, fis, s, locked), locked)
    decreases fis
  {
    hide Next, OtherRule, OwnRule, Shows;
    if fis != [] {
      var fi, m := fis[0], Merge(c, tags, len, fis[0]);
      assert fi in fis && Fits(fi);
      MergedAt(c, tags, len, fi, s);
      if s < |fi.marks| {
        var b := IsNewNeighbor(OwnPass(c, tags, len, fi, s), len, fi.sender);
        NextRules(c, tags[s], f, fi.marks[s], fi.sender, b, locked);
        FateShows(c, Next(c, f, fi.marks[s], fi.sender, !b, locked), m.0, m.1, fis[1..], s, locked);
      } else {
        FateShows(c, f, m.0, m.1, fis[1..], s, locked);
      }
    }
  }

  /** A slot that is no longer the node's own and uncontested does not become so again. */
  lemma {:induction false} NeverMineAgain(c: Config, f: Fate, tags: seq<Tag>, len: nat, fis: seq<Fi>, s: nat,
                                          locked: bool)
    requires s < len <= |tags| && (forall fi :: fi in fis ==> |fi.marks| <= |tags|) && f != Mine
    ensures FateAfter(c, f, tags, len, fis, s, locked) != Mine
    decreases fis
  {
    if fis != [] {
      var fi, m := fis[0], Merge(c, tags, len, fis[0]);
      var g := if s < |fi.marks|
        then Next(c, f, fi.marks[s], fi.sender, !IsNewNeighbor(OwnPass(c, tags, len, fi, s), len, fi.sender), locked)
        else f;
      NeverMineAgain(c, g, m.0, m.1, fis[1..], s, locked);
    }
  }

  /** A slot is lost, and so emptied, only after an FI has marked it as a collision under another id. */
  lemma {:induction false} LostAfterSeizure(c: Config, f: Fate, tags: seq<Tag>, len: nat, fis: seq<Fi>, s: nat,
                                            locked: bool)
    requires s < len <= |tags| && (forall fi :: fi in fis ==> |fi.marks| <= |tags|) && (f.Mine? || f.Contested?)
    requires forall fi :: fi in fis ==> !Seizes(c, fi, s)
    ensures var g := FateAfter(c, f, tags, len, fis, s, locked); g.Mine? || g.Contested?
    decreases fis
  {
    hide Merge, OwnPass;
    if fis != [] {
      var fi, m := fis[0], Merge(c, tags, len, fis[0]);
      var g := if s < |fi.marks|
        then Next(c, f, fi.marks[s], fi.sender, !IsNewNeighbor(OwnPass(c, tags, len, fi, s), len, fi.sender), locked)
        else f;
      assert !Seizes(c, fi, s);
      LostAfterSeizure(c, g, m.0, m.1, fis[1..], s, locked);
    }
  }

  /** Nor is it uncontested once any FI has given it to another one-hop owner. */
  lemma {:induction false} ClaimedNotMine(c: Config, f: Fate, tags: seq<Tag>, len: nat, fis: seq<Fi>, s: nat,
                                          locked: bool, i: nat)
    requires s < len <= |tags| && (forall fi :: fi in fis ==> |fi.marks| <= |tags|)
    requires i < |fis| && Claims(c, fis[i], s)
    ensures FateAfter(c, f, tags, len, fis, s, locked) != Mine
    decreases fis
  {
    var fi, m := fis[0], Merge(c, tags, len, fis[0]);
    var g := if s < |fi.marks|
      then Next(c, f, fi.marks[s], fi.sender, !IsNewNeighbor(OwnPass(c, tags, len, fi, s), len, fi.sender), locked)
      else f;
    if i == 0 {
      NeverMineAgain(c, g, m.0, m.1, fis[1..], s, locked);
    } else {
      assert fis[1..][i - 1] == fis[i];
      ClaimedNotMine(c, g, m.0, m.1, fis[1..], s, locked, i - 1);
    }
  }

  // ---------- The slots of others ----------

  /**
   Merged into a slot with tag `t`, the FI can give station `x` a longer life there: it names the
   station, or the station's entry is a one-hop one and the sender claims the slot for itself.
   */
  predicate Renews(c: Config, t: Tag, fi: Fi, k: nat, x: nat) {
    && k < |fi.marks|
    && (fi.marks[k].sti == x || (t.sti == x && t.busy == SLOT_1HOP && !t.locker && OwnClaim(c, fi, k)))
  }

  /** The sender claims slot `k` for itself. */
  predicate OwnClaim(c: Config, fi: Fi, k: nat) {
    && k < |fi.marks| && fi.marks[k].busy == SLOT_1HOP && fi.marks[k].sti == fi.sender
    && fi.sender != 0 && fi.sender != c.sti
  }

  /** Some FI of the list does so when its turn comes. */
  predicate Renewed(c: Config, tags: seq<Tag>, len: nat, fis: seq<Fi>, k: nat, x: nat)
    requires k < |tags| && len <= |tags| && forall fi :: fi in fis ==> |fi.marks| <= |tags|
    decreases fis
  {
    fis != [] &&
    (Renews(c, tags[k], fis[0], k, x) || var m := Merge(c, tags, len, fis[0]); Renewed(c, m.0, m.1, fis[1..], k, x))
  }

  /** How many rounds the entry of station `x` in a slot can last without being refreshed. */
  function Rank(c: Config, t: Tag, x: nat): int {
    if t.sti != x then 0
    else if t.busy == SLOT_1HOP && t.existed && t.life <= 1 then c.lifetime
    else if t.life <= 0 then 1
    else t.life
  }

  /** No entry has a longer life than the configured one. */
  predicate Mortal(c: Config, t: Tag) { 0 <= t.life <= c.lifetime }

  lemma OwnRuleLife(c: Config, t: Tag, m: Mark, sender: nat, newNeighbor: bool, x: nat)
    requires 0 <= c.lifetime && Mortal(c, t)
    ensures Mortal(c, OwnRule(c, t, m, sender, newNeighbor))
    ensures x != 0 && x != c.sti && m.sti != x ==>
      Rank(c, OwnRule(c, t, m, sender, newNeighbor), x) <= Rank(c, t, x)
  {
  }

  lemma OtherRuleLife(c: Config, t: Tag, m: Mark, sender: nat, x: nat)
    requires 0 <= c.lifetime && Mortal(c, t)
    ensures Mortal(c, OtherRule(c, t, m, sender))
    ensures x != 0 && 1 <= c.lifetime && m.sti != x
      && !(t.sti == x && t.busy == SLOT_1HOP && !t.locker && m.busy == SLOT_1HOP && m.sti == sender
           && m.sti != 0 && m.sti != c.sti)
      ==> Rank(c, OtherRule(c, t, m, sender), x) <= Rank(c, t, x)
  {
  }

  /** An FI keeps lives bounded, and one that does not renew the entry does not lengthen its life. */
  lemma MergeLife(c: Config, tags: seq<Tag>, len: nat, fi: Fi, k: nat, x: nat)
    requires 0 <= c.lifetime && len <= |tags| && |fi.marks| <= |tags| && k < |tags| && Mortal(c, tags[k])
    ensures Mortal(c, Merge(c, tags, len, fi).0[k])
    ensures x != 0 && x != c.sti && 1 <= c.lifetime && !Renews(c, tags[k], fi, k, x) ==>
      Rank(c, Merge(c, tags, len, fi).0[k], x) <= Rank(c, tags[k], x)
  {
    MergedAt(c, tags, len, fi, k);
    if k < |fi.marks| {
      if k < len {
        OwnRuleLife(c, tags[k], fi.marks[k], fi.sender, IsNewNeighbor(OwnPass(c, tags, len, fi, k), len, fi.sender), x);
      }
      OtherRuleLife(c, OwnSlot(c, tags, len, fi, k), fi.marks[k], fi.sender, x);
    }
  }

  lemma {:induction false} MergeAllLife(c: Config, tags: seq<Tag>, len: nat, fis: seq<Fi>, k: nat, x: nat)
    requires len <= |tags| && forall fi :: fi in fis ==> |fi.marks| <= |tags|
    requires k < |tags| && 0 <= c.lifetime && Mortal(c, tags[k])
    ensures var t := MergeAll(c, tags, len, fis).0[k];
      && Mortal(c, t)
      && (x != 0 && x != c.sti && 1 <= c.lifetime && !Renewed(c, tags, len, fis, k, x) ==>
           Rank(c, t, x) <= Rank(c, tags[k], x))
    decreases fis
  {
    if fis != [] {
      assert fis[0] in fis;
      MergeLife(c, tags, len, fis[0], k, x);
      var m := Merge(c, tags, len, fis[0]);
      MergeAllLife(c, m.0, m.1, fis[1..], k, x);
    }
  }

  /** One round of ageing takes one from the life left, also where a one-hop entry becomes a two-hop one. */
  lemma ExpireLife(c: Config, t: Tag, kept: bool, x: nat)
    requires 2 <= c.lifetime && Mortal(c, t)
    ensures Mortal(c, Expire(c, t, kept))
    ensures x != 0 && x != c.sti ==>
      Rank(c, Expire(c, t, kept), x) <= if Rank(c, t, x) == 0 then 0 else Rank(c, t, x) - 1
  {
  }

  /** The table that `synthesize_fi_list` merges into. */
  function Base(c: Config, tags: seq<Tag>, len: nat, slot: int, candidate: int, ages: bool): (r: seq<Tag>)
    requires len <= |tags|
    ensures |r| == |tags|
  {
    if ages && c.memory then ExpireAll(c, tags, len, slot, candidate) else tags
  }

  /** A round of `synthesize_fi_list` without a renewal brings the entry one round closer to its end. */
  lemma SynthesizeLife(c: Config, tags: seq<Tag>, len: nat, slot: int, candidate: int, ages: bool, fis: seq<Fi>,
                       k: nat, x: nat)
    requires SaneTable(tags, len) && AllFit(fis)
    requires k < |tags| && 2 <= c.lifetime && Mortal(c, tags[k])
    ensures var t := Synthesize(c, tags, len, slot, candidate, ages, fis).0[k];
      && Mortal(c, t)
      && (x != 0 && x != c.sti && !Renewed(c, Base(c, tags, len, slot, candidate, ages), len, fis, k, x) ==>
           && Rank(c, t, x) <= Rank(c, tags[k], x)
           && (ages && c.memory && Rank(c, tags[k], x) != 0 ==> Rank(c, t, x) < Rank(c, tags[k], x)))
  {
    hide Renewed, MergeAll, Expire;
    var aged := Base(c, tags, len, slot, candidate, ages);
    if ages && c.memory && k < len { ExpireLife(c, tags[k], k == slot || k == candidate, x); }
    MergeAllLife(c, aged, len, fis, k, x);
  }

  // ---------- Entries that are not one hop away ----------

  /** Slot tag `t` does not hold `x` as a one-hop station. */
  predicate NotNear(t: Tag, x: nat) { t.sti != x || t.busy != SLOT_1HOP }

  /** The FI does not name `x` in slot `k`; unless `far`, its sender does not claim the slot either. */
  predicate Silent(c: Config, fi: Fi, k: nat, x: nat, far: bool) {
    k < |fi.marks| ==> fi.marks[k].sti != x && (far || !OwnClaim(c, fi, k))
  }

  lemma RulesNotNear(c: Config, t: Tag, m: Mark, sender: nat, newNeighbor: bool, x: nat)
    requires NotNear(t, x) && m.sti != x && x != 0 && x != c.sti
    ensures NotNear(OwnRule(c, t, m, sender, newNeighbor), x) && NotNear(OtherRule(c, t, m, sender), x)
  {
  }

  /** FIs that do not name the station leave its entry where it is, and renew it at most if it is one hop away. */
  lemma {:induction false} SilentMerge(c: Config, tags: seq<Tag>, len: nat, fis: seq<Fi>, k: nat, x: nat, far: bool)
    requires k < |tags| && len <= |tags| && (forall fi :: fi in fis ==> |fi.marks| <= |tags|)
    requires x != 0 && x != c.sti && (far ==> NotNear(tags[k], x))
    requires forall fi :: fi in fis ==> Silent(c, fi, k, x, far)
    ensures !Renewed(c, tags, len, fis, k, x)
    ensures far ==> NotNear(MergeAll(c, tags, len, fis).0[k], x)
    decreases fis
  {
    if fis != [] {
      var fi, m := fis[0], Merge(c, tags, len, fis[0]);
      assert fi in fis;
      MergedAt(c, tags, len, fi, k);
      if far && k < |fi.marks| {
        var b := k < len && IsNewNeighbor(OwnPass(c, tags, len, fi, k), len, fi.sender);
        RulesNotNear(c, tags[k], fi.marks[k], fi.sender, b, x);
        RulesNotNear(c, OwnSlot(c, tags, len, fi, k), fi.marks[k], fi.sender, b, x);
      }
      SilentMerge(c, m.0, m.1, fis[1..], k, x, far);
    }
  }

  /**
   A mark that does not name the station renews its entry exactly when it is a one-hop neighbour's
   claim to a one-hop slot.
   */
  lemma RenewedUnnamed(c: Config, t: Tag, m: Mark, sender: nat)
    requires Sane(t) && t.sti != 0 && t.sti != c.sti && !t.locker && t.life < c.lifetime
    requires m.psf == 0 && m.sti != t.sti
    ensures var u := OtherRule(c, t, m, sender);
      u.sti == t.sti && t.life < u.life <==>
      t.busy == SLOT_1HOP && m.busy == SLOT_1HOP && m.sti == sender && m.sti != 0 && m.sti != c.sti
  {
  }

  /**
   Silence about the station alone is not enough: a neighbour's own claim of the
   slot turns the entry into a collision under the old id and renews its life.
   */
  lemma ConflictRenewsEntry()
    ensures exists c: Config, t: Tag, fi: Fi ::
      && c.lifetime == 2 && c.memory && t.sti == 7 && Mortal(c, t) && Sane(t) && fi.sender == 9
      && fi.marks == [Mark(SLOT_1HOP, 9, 0, 0)]
      && OtherRule(c, Expire(c, t, false), fi.marks[0], fi.sender).sti == 7
      && Expire(c, OtherRule(c, Expire(c, t, false), fi.marks[0], fi.sender), false).sti == 7
  {
    var c := Config(1, 2, true, true, true, false, 2, 32, 128, true, true);
    var t := Tag(SLOT_1HOP, 7, 0, 0, 2, false, 0, false, false);
    var fi := Fi(9, [Mark(SLOT_1HOP, 9, 0, 0)], 5);
    assert fi.marks[0] == Mark(SLOT_1HOP, 9, 0, 0);
    var u := OtherRule(c, Expire(c, t, false), fi.marks[0], fi.sender);
    assert u == Tag(SLOT_COLLISION, 7, 0, 0, 2, false, 0, false, false);
    assert Expire(c, u, false).sti == 7;
    assert c.lifetime == 2 && c.memory && t.sti == 7 && Mortal(c, t) && Sane(t) && fi.sender == 9;
  }
}
