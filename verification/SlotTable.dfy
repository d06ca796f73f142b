/**
 The SATMAC slot table: what a node knows about every slot of the frame, and
 the rules by which frame information (FI) received from neighbours changes it.
 */
module SlotTable {

  const SLOT_FREE: nat := 0
  const SLOT_2HOP: nat := 1
  const SLOT_1HOP: nat := 2
  const SLOT_COLLISION: nat := 3

  /** The number of entries every table has. */
  const TABLE_SIZE: nat := 512

  /** `slot_tag`. */
  datatype Tag = Tag(busy: nat, sti: nat, count2: nat, count3: nat, life: int,
                     existed: bool, psf: nat, c3flag: bool, locker: bool)

  const FreeTag := Tag(SLOT_FREE, 0, 0, 0, 0, false, 0, false, false)

  /** What an FI says about one slot. A decoded `busy` may be any byte, see the codec. */
  datatype Mark = Mark(busy: nat, sti: nat, count2: nat, psf: nat)

  /** A received `Frame_info`: its frame length is `|marks|`. */
  datatype Fi = Fi(sender: nat, marks: seq<Mark>, remain: int)

  /** The settings of a node; `sti` is its own station id. */
  datatype Config = Config(sti: nat, lifetime: int, memory: bool,
                           adjust: bool, adjustFrame: bool, singleSlot: bool,
                           c3Threshold: nat, lower: nat, upper: nat,
                           randomIfSingle: bool, randomBch: bool)

  // ---------- The rules of merge_fi, slot by slot ----------

  function TakeOver(c: Config, t: Tag, m: Mark, busy: nat): Tag {
    t.(life := c.lifetime, sti := m.sti, count2 := t.count2 + 1, count3 := t.count3 + m.count2, busy := busy)
  }

  function Collided(c: Config, t: Tag, m: Mark): Tag {
    t.(life := c.lifetime, sti := m.sti, count2 := 1, count3 := 1, busy := SLOT_2HOP)
  }

  function Vacated(t: Tag): Tag {
    t.(life := 0, sti := 0, count2 := 0, count3 := 0, busy := SLOT_FREE, locker := true)
  }

  function CountOnce(t: Tag, m: Mark): Tag {
    if t.c3flag then t else t.(c3flag := true, count2 := t.count2 + 1, count3 := t.count3 + m.count2)
  }

  /** The first loop of `merge_fi`: what an FI does to a slot under the node's own id. */
  function OwnRule(c: Config, t: Tag, m: Mark, sender: nat, newNeighbor: bool): Tag {
    if t.sti != c.sti then t
    else if m.sti != t.sti && m.sti != 0 then
      if m.busy == SLOT_1HOP then
        if t.psf < m.psf then TakeOver(c, t, m, if m.sti == sender then SLOT_1HOP else SLOT_2HOP)
        else if m.psf == t.psf then t.(busy := SLOT_COLLISION)
        else t
      else if m.busy == SLOT_2HOP then t.(count3 := t.count3 + m.count2)
      else if m.busy == SLOT_FREE then t.(busy := SLOT_COLLISION)
      else if m.busy == SLOT_COLLISION then Collided(c, t, m)
      else t
    else if m.sti == t.sti then
      if m.busy == SLOT_FREE then t.(busy := SLOT_COLLISION) else t
    else if m.busy == SLOT_FREE && !newNeighbor then t.(busy := SLOT_COLLISION)
    else t
  }

  /** The second loop of `merge_fi`: what an FI does to any other slot. */
  function OtherRule(c: Config, t: Tag, m: Mark, sender: nat): Tag {
    if t.locker || t.sti == c.sti || m.sti == c.sti then t
    else if t.busy == SLOT_1HOP then NearRule(c, t, m, sender)
    else if t.busy == SLOT_2HOP then FarRule(c, t, m, sender)
    else if t.busy == SLOT_FREE && t.sti == 0 && m.sti != 0 then FreeRule(c, t, m, sender)
    else t
  }

  function NearRule(c: Config, t: Tag, m: Mark, sender: nat): Tag {
    if t.sti != m.sti && m.sti != 0 then
      if m.busy == SLOT_1HOP then
        if m.sti != sender then t.(count2 := t.count2 + 1, count3 := t.count3 + m.count2)
        else if t.psf < m.psf then TakeOver(c, t, m, SLOT_1HOP)
        else if m.psf == t.psf then t.(life := c.lifetime, busy := SLOT_COLLISION)
        else t
      else if m.busy == SLOT_2HOP then t.(count3 := t.count3 + m.count2)
      else if m.busy == SLOT_COLLISION then Collided(c, t, m)
      else t
    else if t.sti == m.sti then
      if m.busy != SLOT_1HOP then t
      else if m.sti == sender then CountOnce(t.(life := c.lifetime), m)
      else t.(existed := true)
    else if sender == t.sti then Vacated(t)
    else t
  }

  function FarRule(c: Config, t: Tag, m: Mark, sender: nat): Tag {
    if t.sti != m.sti && m.sti != 0 then
      if m.busy == SLOT_1HOP then t.(count2 := t.count2 + 1, count3 := t.count3 + m.count2)
      else if m.busy == SLOT_COLLISION then Collided(c, t, m)
      else t
    else if t.sti == m.sti then
      if m.busy != SLOT_1HOP then t
      else CountOnce(t.(life := c.lifetime, busy := if m.sti == sender then SLOT_1HOP else t.busy), m)
    else if sender == t.sti then Vacated(t)
    else t
  }

  function FreeRule(c: Config, t: Tag, m: Mark, sender: nat): Tag {
    if m.busy == SLOT_1HOP then
      t.(life := c.lifetime, sti := m.sti, count2 := 1, count3 := m.count2, c3flag := true,
         busy := if m.sti == sender then SLOT_1HOP else SLOT_2HOP)
    else if m.busy == SLOT_2HOP then t.(count3 := t.count3 + m.count2)
    else if m.busy == SLOT_COLLISION then Collided(c, t, m)
    else t
  }

  // ---------- merge_fi ----------

  function Min(a: nat, b: nat): nat { if a < b then a else b }

  /** `isNewNeighbor`: the station owns no slot of the frame. */
  predicate IsNewNeighbor(tags: seq<Tag>, len: nat, sti: nat)
    requires len <= |tags|
  {
    forall k :: 0 <= k < len ==> tags[k].sti != sti
  }

  /** The table after the first loop has passed `k` slots. */
  function OwnPass(c: Config, tags: seq<Tag>, len: nat, fi: Fi, k: nat): (r: seq<Tag>)
    requires k <= len <= |tags| && k <= |fi.marks|
    ensures |r| == |tags|
    ensures forall j :: k <= j < |tags| ==> r[j] == tags[j]
    decreases k
  {
    if k == 0 then tags else
    var r := OwnPass(c, tags, len, fi, k - 1);
    r[k - 1 := OwnRule(c, r[k - 1], fi.marks[k - 1], fi.sender, IsNewNeighbor(r, len, fi.sender))]
  }

  /** The table after the second loop has passed `k` slots. */
  function OtherPass(c: Config, tags: seq<Tag>, fi: Fi, k: nat): (r: seq<Tag>)
    requires k <= |fi.marks| <= |tags|
    ensures |r| == |tags|
  {
    seq(|tags|, j requires 0 <= j < |tags| =>
      if j < k then OtherRule(c, tags[j], fi.marks[j], fi.sender) else tags[j])
  }

  function MergedTags(c: Config, tags: seq<Tag>, len: nat, fi: Fi): (r: seq<Tag>)
    requires len <= |tags| && |fi.marks| <= |tags|
    ensures |r| == |tags|
  {
    OtherPass(c, OwnPass(c, tags, len, fi, Min(len, |fi.marks|)), fi, |fi.marks|)
  }

  /** Some slot from `a` up to `b` names a station. */
  predicate Stationed(tags: seq<Tag>, a: nat, b: nat)
    requires b <= |tags|
  {
    exists k :: a <= k < b && tags[k].sti != 0
  }

  /** A longer FI that puts a station beyond the frame makes the frame as long as the FI. */
  function MergedLen(tags: seq<Tag>, len: nat, fi: Fi): nat
    requires |fi.marks| <= |tags|
  {
    if Stationed(tags, len, |fi.marks|) then |fi.marks| else len
  }

  /** `merge_fi` of one FI: the table and the frame length. */
  function Merge(c: Config, tags: seq<Tag>, len: nat, fi: Fi): (r: (seq<Tag>, nat))
    requires len <= |tags| && |fi.marks| <= |tags|
    ensures |r.0| == |tags| && len <= r.1 <= |tags|
  {
    var t := MergedTags(c, tags, len, fi);
    (t, MergedLen(t, len, fi))
  }

  function MergeAll(c: Config, tags: seq<Tag>, len: nat, fis: seq<Fi>): (r: (seq<Tag>, nat))
    requires len <= |tags| && forall fi :: fi in fis ==> |fi.marks| <= |tags|
    ensures |r.0| == |tags| && len <= r.1 <= |tags|
    decreases fis
  {
    if fis == [] then (tags, len) else
    var m := Merge(c, tags, len, fis[0]);
    MergeAll(c, m.0, m.1, fis[1..])
  }

  // ---------- synthesize_fi_list ----------

  /** The expiry of one slot; `kept` marks the node's current and candidate slots. */
  function Expire(c: Config, tag: Tag, kept: bool): Tag {
    var t := if tag.locker && tag.sti != 0 then tag.(locker := false) else tag;
    if (t.sti == c.sti && kept) || t.sti == 0 then t else
    var life := if 0 < t.life then t.life - 1 else t.life;
    if life != 0 then t.(life := life, existed := false)
    else if t.busy == SLOT_1HOP && t.existed then
      t.(busy := SLOT_2HOP, life := c.lifetime - 1, locker := false, existed := false)
    else Tag(SLOT_FREE, 0, 0, 0, 0, false, 0, false, t.busy != SLOT_2HOP)
  }

  function ExpireAll(c: Config, tags: seq<Tag>, len: nat, slot: int, candidate: int): (r: seq<Tag>)
    requires len <= |tags|
    ensures |r| == |tags|
  {
    seq(|tags|, k requires 0 <= k < |tags| =>
      if k < len then Expire(c, tags[k], k == slot || k == candidate) else tags[k])
  }

  predicate HasLock(tags: seq<Tag>, len: nat)
    requires len <= |tags|
  {
    exists k :: 0 <= k < len && tags[k].locker && tags[k].sti == 0
  }

  function UnlockAll(tags: seq<Tag>, len: nat): (r: seq<Tag>)
    requires len <= |tags|
    ensures |r| == |tags|
  {
    seq(|tags|, k requires 0 <= k < |tags| =>
      if k < len && tags[k].sti == 0 then tags[k].(locker := false) else tags[k])
  }

  /** `synthesize_fi_list`; slots age only outside NODE_LISTEN and with slot memory. */
  function Synthesize(c: Config, tags: seq<Tag>, len: nat, slot: int, candidate: int, ages: bool, fis: seq<Fi>)
    : (r: (seq<Tag>, nat))
    requires len <= |tags| && forall fi :: fi in fis ==> |fi.marks| <= |tags|
    ensures |r.0| == |tags| && len <= r.1 <= |tags|
  {
    var aged := if ages && c.memory then ExpireAll(c, tags, len, slot, candidate) else tags;
    var m := MergeAll(c, aged, len, fis);
    if ages && c.memory && HasLock(tags, len) then (UnlockAll(m.0, m.1), m.1) else m
  }

  // ---------- What every rule keeps ----------

  /** A tag is free exactly when it names no station. */
  predicate Sane(t: Tag) {
    t.busy <= SLOT_COLLISION && (t.busy == SLOT_FREE <==> t.sti == 0) && t.psf == 0
  }

  /** The powers of two that the table can hold. */
  predicate FrameSize(n: nat) {
    || n == 1 || n == 2 || n == 4 || n == 8 || n == 16
    || n == 32 || n == 64 || n == 128 || n == 256 || n == 512
  }

  /** A sane table in which nothing lies beyond the frame. */
  ghost predicate SaneTable(tags: seq<Tag>, len: nat) {
    && FrameSize(len) && len <= |tags| == TABLE_SIZE
    && (forall k :: 0 <= k < |tags| ==> Sane(tags[k]))
    && (forall k :: len <= k < |tags| ==> tags[k].sti == 0)
  }

  /** An FI that fits the table, with the psf that the 0-bit field decodes to. */
  ghost predicate Fits(fi: Fi) {
    FrameSize(|fi.marks|) && forall k :: 0 <= k < |fi.marks| ==> fi.marks[k].psf == 0
  }

  ghost predicate AllFit(fis: seq<Fi>) {
    forall fi :: fi in fis ==> Fits(fi)
  }

  lemma OwnRuleSane(c: Config, t: Tag, m: Mark, sender: nat, newNeighbor: bool)
    requires Sane(t) && m.psf == 0 && c.sti != 0
    ensures Sane(OwnRule(c, t, m, sender, newNeighbor))
  {
  }

  lemma OtherRuleSane(c: Config, t: Tag, m: Mark, sender: nat)
    requires Sane(t) && m.psf == 0
    ensures Sane(OtherRule(c, t, m, sender))
  {
  }

  /** What the first loop leaves in slot `j`, in terms of the tag that was there. */
  lemma {:induction false} OwnPassAt(c: Config, tags: seq<Tag>, len: nat, fi: Fi, k: nat, j: nat)
    requires j < k <= len <= |tags| && k <= |fi.marks|
    ensures OwnPass(c, tags, len, fi, k)[j] ==
      OwnRule(c, tags[j], fi.marks[j], fi.sender, IsNewNeighbor(OwnPass(c, tags, len, fi, j), len, fi.sender))
    decreases k
  {
    if j < k - 1 { OwnPassAt(c, tags, len, fi, k - 1, j); }
  }

  /** Slot `k` after the first loop. */
  function OwnSlot(c: Config, tags: seq<Tag>, len: nat, fi: Fi, k: nat): Tag
    requires k < |tags| && len <= |tags|
  {
    if k < Min(len, |fi.marks|) then
      OwnRule(c, tags[k], fi.marks[k], fi.sender, IsNewNeighbor(OwnPass(c, tags, len, fi, k), len, fi.sender))
    else tags[k]
  }

  /** `merge_fi` seen at one slot. */
  lemma MergedAt(c: Config, tags: seq<Tag>, len: nat, fi: Fi, k: nat)
    requires len <= |tags| && |fi.marks| <= |tags| && k < |tags|
    ensures MergedTags(c, tags, len, fi)[k] ==
      if k < |fi.marks| then OtherRule(c, OwnSlot(c, tags, len, fi, k), fi.marks[k], fi.sender) else tags[k]
  {
    var n := Min(len, |fi.marks|);
    if k < n { OwnPassAt(c, tags, len, fi, n, k); }
  }

  lemma MergeSane(c: Config, tags: seq<Tag>, len: nat, fi: Fi)
    requires c.sti != 0 && SaneTable(tags, len) && Fits(fi)
    ensures SaneTable(Merge(c, tags, len, fi).0, Merge(c, tags, len, fi).1)
  {
    var t := MergedTags(c, tags, len, fi);
    forall k | 0 <= k < |t| ensures Sane(t[k]) && (|fi.marks| <= k ==> t[k] == tags[k]) {
      MergedAt(c, tags, len, fi, k);
      if k < |fi.marks| {
        if k < len {
          OwnRuleSane(c, tags[k], fi.marks[k], fi.sender, IsNewNeighbor(OwnPass(c, tags, len, fi, k), len, fi.sender));
        }
        OtherRuleSane(c, OwnSlot(c, tags, len, fi, k), fi.marks[k], fi.sender);
      }
    }
  }

  lemma {:induction false} MergeAllSane(c: Config, tags: seq<Tag>, len: nat, fis: seq<Fi>)
    requires c.sti != 0 && SaneTable(tags, len) && AllFit(fis)
    ensures SaneTable(MergeAll(c, tags, len, fis).0, MergeAll(c, tags, len, fis).1)
    decreases fis
  {
    if fis != [] {
      MergeSane(c, tags, len, fis[0]);
      var m := Merge(c, tags, len, fis[0]);
      MergeAllSane(c, m.0, m.1, fis[1..]);
    }
  }

  lemma ExpireSane(c: Config, t: Tag, kept: bool)
    requires Sane(t)
    ensures Sane(Expire(c, t, kept)) && (t.sti == 0 ==> Expire(c, t, kept).sti == 0)
  {
  }

  lemma ExpireAllSane(c: Config, tags: seq<Tag>, len: nat, slot: int, candidate: int)
    requires SaneTable(tags, len)
    ensures SaneTable(ExpireAll(c, tags, len, slot, candidate), len)
  {
    var r := ExpireAll(c, tags, len, slot, candidate);
    forall k | 0 <= k < |r| ensures Sane(r[k]) {
      ExpireSane(c, tags[k], k == slot || k == candidate);
    }
  }

  lemma UnlockAllSane(tags: seq<Tag>, len: nat)
    requires SaneTable(tags, len)
    ensures SaneTable(UnlockAll(tags, len), len)
  {
  }

  lemma SynthesizeSane(c: Config, tags: seq<Tag>, len: nat, slot: int, candidate: int, ages: bool, fis: seq<Fi>)
    requires c.sti != 0 && SaneTable(tags, len) && AllFit(fis)
    ensures var r := Synthesize(c, tags, len, slot, candidate, ages, fis); SaneTable(r.0, r.1)
  {
    var aged := if ages && c.memory then ExpireAll(c, tags, len, slot, candidate) else tags;
    ExpireAllSane(c, tags, len, slot, candidate);
    MergeAllSane(c, aged, len, fis);
    var m := MergeAll(c, aged, len, fis);
    UnlockAllSane(m.0, m.1);
  }
}
