/**
 The key-cache slot allocator of `key.c`, for a cache of 128 entries. A bitmap is
 an array of bits; what it means is the set of the positions that are set.
 */
module KeyCache {

  const KEYMAX: nat := 128
  /** Slots 0 to 3 are for static keys (`IEEE80211_WEP_NKID`). */
  const NKID: nat := 4

  datatype Cipher = Clear | Wep | Tkip | Ccmp | Unknown

  datatype Interface = AccessPoint | Adhoc | Client

  /** What `ath_key_config` looks at: the key, the interface, and whether there is a station. */
  datatype Key = Key(cipher: Cipher, len: nat, pairwise: bool, vif: Interface, sta: bool, idx: nat)

  datatype Result = Ok(idx: nat) | NotSupported | IoError | NoSpace

  /** The slots of a key: its index, and for TKIP the MIC entries, four in all if they are split. */
  function Group(split: bool, idx: nat, cipher: Cipher): set<nat> {
    if cipher != Tkip then {idx}
    else if split then {idx, idx + 32, idx + 64, idx + 96}
    else {idx, idx + 64}
  }

  /** The slots kept for static keys and for the MIC entries of TKIP group keys. */
  predicate Reserved(split: bool, s: nat) {
    s < NKID || 64 <= s < 64 + NKID || (split && (32 <= s < 32 + NKID || 96 <= s < 96 + NKID))
  }

  function Bits(s: seq<bool>): set<nat> { set i | 0 <= i < |s| && s[i] :: i }

  lemma BitsUpdate(s: seq<bool>, i: nat, b: bool)
    requires i < |s|
    ensures Bits(s[i := b]) == if b then Bits(s) + {i} else Bits(s) - {i}
  {
    var t := s[i := b];
    forall j | 0 <= j < |s| ensures j in Bits(t) <==> if j == i then b else j in Bits(s) {
      assert j in Bits(t) <==> t[j];
    }
  }

  method SetBit(a: array<bool>, i: nat)
    requires i < a.Length
    modifies a
    ensures Bits(a[..]) == old(Bits(a[..])) + {i}
  {
    a[i] := true;
    BitsUpdate(old(a[..]), i, true);
    assert a[..] == old(a[..])[i := true];
  }

  method ClearBit(a: array<bool>, i: nat)
    requires i < a.Length
    modifies a
    ensures Bits(a[..]) == old(Bits(a[..])) - {i}
  {
    a[i] := false;
    BitsUpdate(old(a[..]), i, false);
    assert a[..] == old(a[..])[i := false];
  }

  /** The slots of live keys: taken together, and those of one cipher. */
  ghost predicate Taken(split: bool, live: map<nat, Cipher>, s: nat) {
    exists k :: k in live && s in Group(split, k, live[k])
  }

  ghost predicate TakenByTkip(split: bool, live: map<nat, Cipher>, s: nat) {
    exists k :: k in live && live[k] == Tkip && s in Group(split, k, Tkip)
  }

  ghost predicate OffReserved(split: bool, g: set<nat>) {
    forall s :: s in g ==> s < KEYMAX && !Reserved(split, s)
  }

  /** The groups of the live keys lie off the reserved slots and do not overlap. */
  ghost predicate Apart(split: bool, live: map<nat, Cipher>) {
    && (forall k :: k in live ==> OffReserved(split, Group(split, k, live[k])))
    && (forall j, k :: j in live && k in live && j != k ==> Group(split, j, live[j]) !! Group(split, k, live[k]))
  }

  /** Off the reserved slots the bitmaps say exactly which slots the live keys have. */
  ghost predicate Exact(split: bool, live: map<nat, Cipher>, key: set<nat>, tkip: set<nat>, ccmp: set<nat>) {
    forall s :: 0 <= s < KEYMAX && !Reserved(split, s) ==> ExactAt(split, live, key, tkip, ccmp, s)
  }

  ghost predicate ExactAt(split: bool, live: map<nat, Cipher>, key: set<nat>, tkip: set<nat>, ccmp: set<nat>, s: nat) {
    && (s in key <==> Taken(split, live, s))
    && (s in tkip <==> TakenByTkip(split, live, s))
    && (s in ccmp <==> s in live && live[s] == Ccmp)
  }

  /** The bitmaps after a key has been put at `idx`, and after it has been taken away. */
  function Put(split: bool, idx: nat, c: Cipher, key: set<nat>, tkip: set<nat>, ccmp: set<nat>)
    : (set<nat>, set<nat>, set<nat>)
  {
    (key + Group(split, idx, c), if c == Tkip then tkip + Group(split, idx, c) else tkip,
     if c == Ccmp then ccmp + {idx} else ccmp)
  }

  function Drop(split: bool, idx: nat, c: Cipher, key: set<nat>, tkip: set<nat>, ccmp: set<nat>)
    : (set<nat>, set<nat>, set<nat>)
  {
    if idx < NKID then (key, tkip, ccmp)
    else (key - Group(split, idx, c), if c == Tkip then tkip - Group(split, idx, c) else tkip, ccmp - {idx})
  }

  /** The group is free, and off the reserved slots. */
  ghost predicate Free(split: bool, key: set<nat>, idx: nat, c: Cipher) {
    Group(split, idx, c) !! key && OffReserved(split, Group(split, idx, c))
  }

  /**
   Which bits a key takes: its own in the key map; for CCMP also in the CCMP map; for TKIP that of its MIC
   entry 64 further on too, and if these are split those 32 and 96 further on, all in the TKIP map as well.
   */
  lemma PutIs(split: bool, idx: nat, c: Cipher, key: set<nat>, tkip: set<nat>, ccmp: set<nat>, s: nat)
    ensures var p := Put(split, idx, c, key, tkip, ccmp);
      var parts := if c != Tkip then {0} else if split then {0, 32, 64, 96} else {0, 64};
      && (s in p.0 <==> s in key || s - idx in parts)
      && (s in p.1 <==> s in tkip || (c == Tkip && s - idx in parts))
      && (s in p.2 <==> s in ccmp || (c == Ccmp && s == idx))
  {
  }

  lemma GroupHas(split: bool, idx: nat, c: Cipher)
    ensures idx in Group(split, idx, c)
  {
  }

  lemma KindsOfTaken(split: bool, live: map<nat, Cipher>, s: nat)
    ensures TakenByTkip(split, live, s) || s in live ==> Taken(split, live, s)
  {
    hide Group;
    if s in live { GroupHas(split, s, live[s]); }
  }

  lemma TakenMore(split: bool, live: map<nat, Cipher>, idx: nat, c: Cipher, s: nat)
    requires idx !in live
    ensures Taken(split, live[idx := c], s) <==> Taken(split, live, s) || s in Group(split, idx, c)
    ensures TakenByTkip(split, live[idx := c], s) <==>
      TakenByTkip(split, live, s) || (c == Tkip && s in Group(split, idx, c))
  {
    hide Group;
    var after := live[idx := c];
    if s in Group(split, idx, c) { assert idx in after && after[idx] == c; }
    if k :| k in live && s in Group(split, k, live[k]) { assert k in after && after[k] == live[k]; }
    if k :| k in live && live[k] == Tkip && s in Group(split, k, Tkip) { assert k in after && after[k] == Tkip; }
  }

  /** A free group is apart from those of the live keys. */
  lemma FreeApart(split: bool, live: map<nat, Cipher>, key: set<nat>, tkip: set<nat>, ccmp: set<nat>, idx: nat,
                  c: Cipher)
    requires Apart(split, live) && Exact(split, live, key, tkip, ccmp) && Free(split, key, idx, c)
    ensures idx !in live && Apart(split, live[idx := c]) && NKID <= idx
  {
    hide Group;
    GroupHas(split, idx, c);
    assert !Reserved(split, idx);
    forall k | k in live ensures Group(split, k, live[k]) !! Group(split, idx, c) {
      forall s | s in Group(split, k, live[k]) ensures s in key { assert Taken(split, live, s); }
    }
    KindsOfTaken(split, live, idx);
    var after := live[idx := c];
    forall j, k | j in after && k in after && j != k ensures Group(split, j, after[j]) !! Group(split, k, after[k]) {}
  }

  /** A free group can be given to a new key. */
  lemma PutKeeps(split: bool, live: map<nat, Cipher>, key: set<nat>, tkip: set<nat>, ccmp: set<nat>, idx: nat,
                 c: Cipher)
    requires Apart(split, live) && Exact(split, live, key, tkip, ccmp) && Free(split, key, idx, c)
    ensures var p := Put(split, idx, c, key, tkip, ccmp);
      idx !in live && Apart(split, live[idx := c]) && Exact(split, live[idx := c], p.0, p.1, p.2)
  {
    FreeApart(split, live, key, tkip, ccmp, idx, c);
    hide Reserved, ExactAt, Apart, Free, Put;
    var after, p := live[idx := c], Put(split, idx, c, key, tkip, ccmp);
    forall s | 0 <= s < KEYMAX && !Reserved(split, s) ensures ExactAt(split, after, p.0, p.1, p.2, s) {
      PutAt(split, live, key, tkip, ccmp, idx, c, s);
    }
  }

  lemma PutAt(split: bool, live: map<nat, Cipher>, key: set<nat>, tkip: set<nat>, ccmp: set<nat>, idx: nat,
              c: Cipher, s: nat)
    requires idx !in live && ExactAt(split, live, key, tkip, ccmp, s)
    ensures var p := Put(split, idx, c, key, tkip, ccmp); ExactAt(split, live[idx := c], p.0, p.1, p.2, s)
  {
    hide Group, Taken, TakenByTkip;
    TakenMore(split, live, idx, c, s);
  }

  /** Taking a live key away leaves the others apart, and its group is free. */
  lemma DropFrees(split: bool, live: map<nat, Cipher>, idx: nat, s: nat)
    requires Apart(split, live) && idx in live
    ensures Apart(split, live - {idx}) && NKID <= idx
    ensures s in Group(split, idx, live[idx]) ==> !Taken(split, live - {idx}, s)
  {
    hide Group;
    GroupHas(split, idx, live[idx]);
    assert !Reserved(split, idx);
    var rest := live - {idx};
    assert forall k :: k in rest ==> k in live && live[k] == rest[k];
  }

  lemma DropKeeps(split: bool, live: map<nat, Cipher>, key: set<nat>, tkip: set<nat>, ccmp: set<nat>, idx: nat)
    requires Apart(split, live) && Exact(split, live, key, tkip, ccmp) && idx in live
    ensures var p := Drop(split, idx, live[idx], key, tkip, ccmp);
      Apart(split, live - {idx}) && Exact(split, live - {idx}, p.0, p.1, p.2)
  {
    hide Reserved, ExactAt, Apart, Drop;
    DropFrees(split, live, idx, idx);
    var rest, p := live - {idx}, Drop(split, idx, live[idx], key, tkip, ccmp);
    forall s | 0 <= s < KEYMAX && !Reserved(split, s) ensures ExactAt(split, rest, p.0, p.1, p.2, s) {
      DropAt(split, live, key, tkip, ccmp, idx, s);
    }
  }

  lemma DropAt(split: bool, live: map<nat, Cipher>, key: set<nat>, tkip: set<nat>, ccmp: set<nat>, idx: nat, s: nat)
    requires idx in live && Apart(split, live) && ExactAt(split, live, key, tkip, ccmp, s)
    ensures var p := Drop(split, idx, live[idx], key, tkip, ccmp); ExactAt(split, live - {idx}, p.0, p.1, p.2, s)
  {
    hide Group, Taken, TakenByTkip, Apart;
    var c, rest := live[idx], live - {idx};
    assert rest[idx := c] == live;
    TakenMore(split, rest, idx, c, s);
    DropFrees(split, live, idx, s);
    KindsOfTaken(split, rest, s);
  }

  /** Configuring a key and deleting it again leaves every bitmap as it was. */
  lemma RoundTrip(split: bool, live: map<nat, Cipher>, key: set<nat>, tkip: set<nat>, ccmp: set<nat>, idx: nat,
                  c: Cipher)
    requires Apart(split, live) && Exact(split, live, key, tkip, ccmp) && Free(split, key, idx, c)
    ensures var p := Put(split, idx, c, key, tkip, ccmp); Drop(split, idx, c, p.0, p.1, p.2) == (key, tkip, ccmp)
  {
    FreeApart(split, live, key, tkip, ccmp, idx, c);
    hide Group, Reserved, Taken, TakenByTkip, Apart;
    GroupHas(split, idx, c);
    forall s | s in Group(split, idx, c) ensures s !in tkip && s !in ccmp { KindsOfTaken(split, live, s); }
    var p := Put(split, idx, c, key, tkip, ccmp);
    var q := Drop(split, idx, c, p.0, p.1, p.2);
    assert q.0 == key && q.1 == tkip && q.2 == ccmp;
  }

  /** A static key that is deleted leaves its marks behind: its slot is below 4. */
  lemma StaticStays(split: bool, key: set<nat>, tkip: set<nat>, ccmp: set<nat>, idx: nat, c: Cipher)
    requires idx < NKID && idx !in key
    ensures var p := Put(split, idx, c, key, tkip, ccmp); Drop(split, idx, c, p.0, p.1, p.2).0 != key
  {
    GroupHas(split, idx, c);
    assert idx in Put(split, idx, c, key, tkip, ccmp).0;
  }
}
