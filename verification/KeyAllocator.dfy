/** `ath_key_config` and `ath_key_delete` over the three bitmaps of `ath_common`. */
module KeyAllocator {
  import opened KeyCache

  /** Whether the hardware takes an entry: `ath_hw_set_keycache_entry`. */
  predicate EntryOk(entry: nat, cipher: Cipher, len: nat, ccm: bool) {
    && entry < KEYMAX
    && match cipher
       case Clear => true
       case Wep => 5 <= len
       case Tkip => entry + 64 < KEYMAX
       case Ccmp => ccm
       case Unknown => false
  }

  /** Whether the hardware takes the key: with split MIC entries a TKIP key for a station needs two. */
  predicate HardwareOk(split: bool, ccm: bool, idx: nat, cipher: Cipher, len: nat, mac: bool) {
    EntryOk(idx, cipher, len, ccm) && (cipher == Tkip && mac && split ==> EntryOk(idx + 32, cipher, len, ccm))
  }

  /** The slots that go together for TKIP are all used or all free. */
  predicate Uniform(split: bool, k: seq<bool>, i: nat)
    requires |k| == KEYMAX && i < if split then 32 else 64
  {
    k[i] == k[i + 64] && (split ==> k[i] == k[i + 32] == k[i + 96])
  }

  /** The first slot of the TKIP group a slot would be in. */
  function Base(split: bool, s: nat): nat { if split then s % 32 else s % 64 }

  /** All slots of the key are in the cache. */
  predicate InBounds(split: bool, idx: nat, cipher: Cipher) {
    idx + (if cipher != Tkip then 0 else if split then 96 else 64) < KEYMAX
  }

  lemma LastInBounds(split: bool, idx: nat, cipher: Cipher)
    requires OffReserved(split, Group(split, idx, cipher))
    ensures InBounds(split, idx, cipher)
  {
    assert (if cipher != Tkip then idx else if split then idx + 96 else idx + 64) in Group(split, idx, cipher);
  }

  class Cache {
    const split: bool
    const ccm: bool
    const keymap: array<bool>
    const tkipKeymap: array<bool>
    const ccmpKeymap: array<bool>
    ghost var live: map<nat, Cipher>

    ghost predicate Shape() {
      && keymap.Length == tkipKeymap.Length == ccmpKeymap.Length == KEYMAX
      && keymap != tkipKeymap && keymap != ccmpKeymap && tkipKeymap != ccmpKeymap
    }

    /** What holds between any two calls. */
    ghost predicate Valid()
      reads this, keymap, tkipKeymap, ccmpKeymap
    {
      Shape() && Apart(split, live) && Exact(split, live, Bits(keymap[..]), Bits(tkipKeymap[..]), Bits(ccmpKeymap[..]))
    }

    ghost function Maps(): (set<nat>, set<nat>, set<nat>)
      reads keymap, tkipKeymap, ccmpKeymap
    {
      (Bits(keymap[..]), Bits(tkipKeymap[..]), Bits(ccmpKeymap[..]))
    }

    constructor (combined: bool, aesccm: bool)
      ensures Valid() && split == !combined && ccm == aesccm && live == map[] && Maps() == ({}, {}, {})
      ensures fresh(keymap) && fresh(tkipKeymap) && fresh(ccmpKeymap)
    {
      split, ccm, live := !combined, aesccm, map[];
      keymap := new bool[KEYMAX](_ => false);
      tkipKeymap := new bool[KEYMAX](_ => false);
      ccmpKeymap := new bool[KEYMAX](_ => false);
      new;
      assert Bits(keymap[..]) == {} && Bits(tkipKeymap[..]) == {} && Bits(ccmpKeymap[..]) == {};
    }

    /** `test_bit` on the key map; beyond its end lies the TKIP key map. */
    function Bit(i: nat): bool
      requires Shape() && i < 2 * KEYMAX
      reads keymap, tkipKeymap
    {
      if i < KEYMAX then keymap[i] else tkipKeymap[i - KEYMAX]
    }

    /** No part of the TKIP key at `i` is allocated. */
    predicate Fits(i: nat)
      requires Shape() && i < 64
      reads keymap, tkipKeymap
    {
      !Bit(i) && !Bit(i + 64) && (split ==> !Bit(i + 32) && !Bit(i + 64 + 32))
    }

    /** `ath_reserve_key_cache_slot_tkip`: the first slot that fits. */
    method ReserveTkip() returns (r: int)
      requires Shape()
      ensures r == -1 || NKID <= r < 64
      ensures NKID <= r < 64 ==> Fits(r)
      ensures forall i :: NKID <= i < 64 && (r == -1 || i < r) ==> !Fits(i)
    {
      for i := NKID to KEYMAX / 2
        invariant forall j :: NKID <= j < i ==> !Fits(j)
      {
        if Bit(i) || Bit(i + 64) { continue; }
        if split && (Bit(i + 32) || Bit(i + 64 + 32)) { continue; }
        return i;
      }
      return -1;
    }

    /** The first loops of `ath_reserve_key_cache_slot`: a free slot whose TKIP group is already in use. */
    method ReservePartial() returns (r: int)
      requires Shape()
      ensures r == -1 ==> forall i :: NKID <= i < (if split then 32 else 64) ==> Uniform(split, keymap[..], i)
      ensures r != -1 ==>
        0 <= r < KEYMAX && !Reserved(split, r) && !keymap[r] && !Uniform(split, keymap[..], Base(split, r))
    {
      if split {
        for i := NKID to KEYMAX / 4
          invariant forall j :: NKID <= j < i ==> Uniform(split, keymap[..], j)
        {
          if !keymap[i] && (keymap[i + 32] || keymap[i + 64] || keymap[i + 64 + 32]) { return i; }
          if !keymap[i + 32] && (keymap[i] || keymap[i + 64] || keymap[i + 64 + 32]) { return i + 32; }
          if !keymap[i + 64] && (keymap[i] || keymap[i + 32] || keymap[i + 64 + 32]) { return i + 64; }
          if !keymap[i + 64 + 32] && (keymap[i] || keymap[i + 32] || keymap[i + 64]) { return i + 64 + 32; }
        }
      } else {
        for i := NKID to KEYMAX / 2
          invariant forall j :: NKID <= j < i ==> Uniform(split, keymap[..], j)
        {
          if !keymap[i] && keymap[i + 64] { return i; }
          if keymap[i] && !keymap[i + 64] { return i + 64; }
        }
      }
      return -1;
    }

    /** The last loop of `ath_reserve_key_cache_slot`: the first free slot that is not reserved. */
    method ReserveAny() returns (r: int)
      requires Shape()
      ensures r == -1 || (0 <= r < KEYMAX && !Reserved(split, r) && !keymap[r])
      ensures forall i :: 0 <= i < KEYMAX && !Reserved(split, i) && (r == -1 || i < r) ==> keymap[i]
    {
      for i := NKID to KEYMAX
        invariant forall j :: 0 <= j < i && !Reserved(split, j) ==> keymap[j]
      {
        if 64 <= i < 64 + NKID { continue; }
        if split {
          if 32 <= i < 32 + NKID { continue; }
          if 64 + 32 <= i < 64 + 32 + NKID { continue; }
        }
        if !keymap[i] { return i; }
      }
      return -1;
    }

    /** `ath_reserve_key_cache_slot` for a cipher other than TKIP. */
    method ReserveOther() returns (r: int)
      requires Shape()
      ensures r == -1 || (0 <= r < KEYMAX && !Reserved(split, r) && !keymap[r])
      ensures r == -1 ==> forall i :: 0 <= i < KEYMAX && !Reserved(split, i) ==> keymap[i]
      ensures 0 <= r < KEYMAX && Uniform(split, keymap[..], Base(split, r)) ==>
        forall i :: NKID <= i < (if split then 32 else 64) ==> Uniform(split, keymap[..], i)
    {
      r := ReservePartial();
      if r == -1 { r := ReserveAny(); }
    }

    /** The bits that `ath_key_config` sets. */
    method Mark(idx: nat, cipher: Cipher)
      requires Shape() && InBounds(split, idx, cipher)
      modifies keymap, tkipKeymap, ccmpKeymap
      ensures var m := old(Maps()); Maps() == Put(split, idx, cipher, m.0, m.1, m.2)
    {
      hide Bits;
      SetBit(keymap, idx);
      if cipher == Ccmp { SetBit(ccmpKeymap, idx); }
      if cipher == Tkip {
        SetBit(keymap, idx + 64);
        SetBit(tkipKeymap, idx);
        SetBit(tkipKeymap, idx + 64);
        if split {
          SetBit(keymap, idx + 32);
          SetBit(keymap, idx + 64 + 32);
          SetBit(tkipKeymap, idx + 32);
          SetBit(tkipKeymap, idx + 64 + 32);
        }
      }
      assert Maps().0 == old(Maps()).0 + Group(split, idx, cipher);
      assert cipher == Tkip ==> Maps().1 == old(Maps()).1 + Group(split, idx, cipher);
    }

    /** `ath_key_delete`. A static key keeps its bits. */
    method Delete(idx: nat, cipher: Cipher)
      requires Valid() && (idx < NKID || (idx in live && live[idx] == cipher))
      modifies this`live, keymap, tkipKeymap, ccmpKeymap
      ensures Valid() && live == old(live) - {idx}
      ensures var m := old(Maps()); Maps() == Drop(split, idx, cipher, m.0, m.1, m.2)
    {
      if idx < NKID {
        assert idx !in live by { if idx in live { DropFrees(split, live, idx, idx); } }
        return;
      }
      ghost var m := Maps();
      LastInBounds(split, idx, cipher);
      DropKeeps(split, live, m.0, m.1, m.2, idx);
      live := live - {idx};
      Unmark(idx, cipher);
    }

    /** The bits that `ath_key_delete` clears. */
    method Unmark(idx: nat, cipher: Cipher)
      requires Shape() && NKID <= idx && InBounds(split, idx, cipher)
      modifies keymap, tkipKeymap, ccmpKeymap
      ensures var m := old(Maps()); Maps() == Drop(split, idx, cipher, m.0, m.1, m.2)
    {
      hide Bits;
      ClearBit(keymap, idx);
      ClearBit(ccmpKeymap, idx);
      if cipher != Tkip { return; }
      ClearBit(keymap, idx + 64);
      ClearBit(tkipKeymap, idx);
      ClearBit(tkipKeymap, idx + 64);
      if split {
        ClearBit(keymap, idx + 32);
        ClearBit(keymap, idx + 64 + 32);
        ClearBit(tkipKeymap, idx + 32);
        ClearBit(tkipKeymap, idx + 64 + 32);
      }
      assert Maps().0 == old(Maps()).0 - Group(split, idx, cipher);
      assert Maps().1 == old(Maps()).1 - Group(split, idx, cipher);
    }

    /** The slot a key is meant for, and whether it comes with an address; or an error. */
    method Choose(key: Key) returns (r: Result, mac: bool)
      requires Shape()
      ensures r.IoError? <==> Refused(key)
      ensures r.NotSupported? <==> key.pairwise && !key.sta
      ensures Static(key) ==> r == Ok(key.idx) && mac == key.pairwise
      ensures r.Ok? && !Static(key) ==> mac && Granted(r.idx, key.cipher)
      ensures r.NoSpace? <==> !(key.pairwise && !key.sta) && !Refused(key) && !Static(key) && Exhausted(key.cipher)
    {
      var idx;
      if !key.pairwise {
        match key.vif {
          case AccessPoint => mac := true;
          case Adhoc => mac := key.sta;
          case Client => mac := false;
        }
        if !mac { return Ok(key.idx), mac; }
      } else if key.idx != 0 {
        if !key.sta { return NotSupported, false; }
        mac := true;
        if key.vif == AccessPoint { return IoError, mac; }
        return Ok(key.idx), mac;
      } else {
        if !key.sta { return NotSupported, false; }
        mac := true;
      }
      if key.cipher == Tkip { idx := ReserveTkip(); } else { idx := ReserveOther(); }
      r := if idx < 0 then NoSpace else Ok(idx);
      assert 0 <= idx ==> Granted(idx, key.cipher);
    }

    /** The slot is one that the search for a free slot may yield. */
    ghost predicate Granted(idx: nat, cipher: Cipher)
      requires Shape()
      reads keymap, tkipKeymap
    {
      if cipher == Tkip then NKID <= idx < 64 && Fits(idx)
      else idx < KEYMAX && !Reserved(split, idx) && !keymap[idx]
    }

    /** The slot the key would go to. */
    ghost predicate Offered(key: Key, idx: nat)
      requires Shape()
      reads keymap, tkipKeymap
    {
      if Static(key) then idx == key.idx else Granted(idx, key.cipher)
    }

    /** There is no such slot. */
    ghost predicate Exhausted(cipher: Cipher)
      requires Shape()
      reads keymap, tkipKeymap
    {
      forall i :: 0 <= i < KEYMAX ==> !Granted(i, cipher)
    }

    /** `ath_key_config`; index 0 to 3 names a static slot. */
    method Config(key: Key) returns (r: Result)
      requires Valid() && key.idx < NKID
      modifies this`live, keymap, tkipKeymap, ccmpKeymap
      ensures Valid()
      ensures !r.Ok? ==> Maps() == old(Maps()) && live == old(live)
      ensures r.Ok? ==> var m := old(Maps()); Maps() == Put(split, r.idx, key.cipher, m.0, m.1, m.2)
      ensures r.Ok? && Static(key) ==> r.idx == key.idx && live == old(live)
      ensures r.Ok? && !Static(key) ==> r.idx !in old(live) && live == old(live)[r.idx := key.cipher]
      ensures r.Ok? && !Static(key) ==> Free(split, old(Maps()).0, r.idx, key.cipher)
      ensures r.Ok? && split && key.cipher == Tkip ==> r.idx < 32
      ensures r.NotSupported? <==> key.cipher == Unknown || (key.pairwise && !key.sta)
      ensures r.NoSpace? <==>
        && key.cipher != Unknown && !(key.pairwise && !key.sta) && !Refused(key) && !Static(key)
        && old(Exhausted(key.cipher))
      ensures r.IoError? ==> Refused(key) || exists idx: nat ::
        && old(Offered(key, idx))
        && !Takes(split, ccm, idx, key.cipher, key.len, !Static(key) || key.pairwise)
      ensures r.Ok? ==> !Refused(key) && Takes(split, ccm, r.idx, key.cipher, key.len, !Static(key) || key.pairwise)
      ensures r.Ok? && key.pairwise ==> key.sta
      ensures r.Ok? && key.pairwise ==>
        if key.idx == 0 then NKID <= r.idx else key.vif != AccessPoint && r.idx == key.idx
      ensures r.Ok? && !key.pairwise ==>
        if key.vif == Client || (key.vif == Adhoc && !key.sta) then r.idx == key.idx else NKID <= r.idx
    {
      hide Bits;
      if key.cipher == Unknown { return NotSupported; }
      var mac;
      r, mac := Choose(key);
      if !r.Ok? { return; }
      assert old(Offered(key, r.idx));
      TakesIff(split, ccm, r.idx, key.cipher, key.len, mac);
      if !HardwareOk(split, ccm, r.idx, key.cipher, key.len, mac) { return IoError; }
      ghost var m := Maps();
      if !Static(key) {
        GrantedFree(r.idx, key.cipher);
        PutKeeps(split, live, m.0, m.1, m.2, r.idx, key.cipher);
        live := live[r.idx := key.cipher];
      } else {
        StaticKeeps(split, live, m.0, m.1, m.2, r.idx, key.cipher);
      }
      Mark(r.idx, key.cipher);
    }

    /** What the hardware takes of a granted slot is free. */
    lemma GrantedFree(idx: nat, cipher: Cipher)
      requires Shape() && Granted(idx, cipher) && (cipher == Tkip && split ==> idx < 32)
      ensures Free(split, Bits(keymap[..]), idx, cipher)
    {
    }
  }

  /** The key goes to the slot of its own index. */
  predicate Static(key: Key) {
    if key.pairwise then key.sta && key.idx != 0 && key.vif != AccessPoint
    else key.vif == Client || (key.vif == Adhoc && !key.sta)
  }

  /** A unicast key of an access point with an index other than 0. */
  predicate Refused(key: Key) { key.pairwise && key.sta && key.idx != 0 && key.vif == AccessPoint }

  /** Static keys stay on the reserved slots. */
  lemma StaticKeeps(split: bool, live: map<nat, Cipher>, key: set<nat>, tkip: set<nat>, ccmp: set<nat>, idx: nat,
                    c: Cipher)
    requires Exact(split, live, key, tkip, ccmp) && idx < NKID
    ensures var p := Put(split, idx, c, key, tkip, ccmp); Exact(split, live, p.0, p.1, p.2)
  {
    hide Taken, TakenByTkip;
    var p := Put(split, idx, c, key, tkip, ccmp);
    forall s | 0 <= s < KEYMAX && !Reserved(split, s) ensures ExactAt(split, live, p.0, p.1, p.2, s) {
      assert ExactAt(split, live, key, tkip, ccmp, s);
    }
  }

  /**
   What the hardware takes: a known cipher at a slot of the cache, a WEP key of at least 40 bits, CCMP where
   there is support for it, and a TKIP key with room for its MIC entry, or for two pairs if they are split.
   */
  ghost predicate Takes(split: bool, ccm: bool, idx: nat, cipher: Cipher, len: nat, mac: bool) {
    && idx < 128 && cipher != Unknown && (cipher == Wep ==> 40 <= 8 * len) && (cipher == Ccmp ==> ccm)
    && (cipher == Tkip ==> idx < 64 && (split && mac ==> idx < 32))
  }

  lemma TakesIff(split: bool, ccm: bool, idx: nat, cipher: Cipher, len: nat, mac: bool)
    ensures HardwareOk(split, ccm, idx, cipher, len, mac) <==> Takes(split, ccm, idx, cipher, len, mac)
  {
  }

  /** The reserved slots are those that TKIP keys at the four static indices would take. */
  lemma ReservedIff(split: bool, s: nat)
    ensures Reserved(split, s) <==> exists i :: 0 <= i < 4 && s in Group(split, i, Tkip)
  {
    if Reserved(split, s) { assert s in Group(split, s % 32, Tkip); }
  }

  /** A TKIP group is uniform if all its slots are taken or none is; every slot is in the group of its base. */
  lemma UniformIff(split: bool, k: seq<bool>, i: nat)
    requires |k| == KEYMAX && i < if split then 32 else 64
    ensures Uniform(split, k, i) <==>
      forall s, t :: s in Group(split, i, Tkip) && t in Group(split, i, Tkip) ==> k[s] == k[t]
  {
  }

  lemma BaseGroup(split: bool, s: nat)
    requires s < KEYMAX
    ensures s in Group(split, Base(split, s), Tkip)
  {
  }
}
