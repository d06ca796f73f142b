/**
 The singleton pools of pulse and sequence elements that all detectors share.
 A pooled element holds nothing that is read again, so a pool is its size. The
 ghost sequences record, for every detector ever registered, how many elements
 of each kind it holds.
 */
module Pools {

  function Sum(s: seq<nat>): nat { if s == [] then 0 else s[0] + Sum(s[1..]) }

  function Live(s: seq<bool>): nat { if s == [] then 0 else (if s[0] then 1 else 0) + Live(s[1..]) }

  lemma SumUpdate(s: seq<nat>, i: nat, x: nat)
    requires i < |s|
    ensures Sum(s[i := x]) == Sum(s) - s[i] + x && s[i] <= Sum(s)
  {
    if i == 0 {
      assert s[i := x][1..] == s[1..];
    } else {
      assert s[i := x][1..] == s[1..][i - 1 := x];
      SumUpdate(s[1..], i - 1, x);
    }
  }

  lemma SumAppend(s: seq<nat>)
    ensures Sum(s + [0]) == Sum(s)
  {
    if s != [] {
      assert (s + [0])[1..] == s[1..] + [0];
      SumAppend(s[1..]);
    }
  }

  lemma SumZero(s: seq<nat>)
    requires forall i :: 0 <= i < |s| ==> s[i] == 0
    ensures Sum(s) == 0
  {
  }

  lemma LiveUpdate(s: seq<bool>, i: nat)
    requires i < |s| && s[i]
    ensures Live(s[i := false]) == Live(s) - 1
  {
    if i == 0 {
      assert s[i := false][1..] == s[1..];
    } else {
      assert s[i := false][1..] == s[1..][i - 1 := false];
      LiveUpdate(s[1..], i - 1);
    }
  }

  lemma LiveAppend(s: seq<bool>)
    ensures Live(s + [true]) == Live(s) + 1
  {
    if s != [] {
      assert (s + [true])[1..] == s[1..] + [true];
      LiveAppend(s[1..]);
    }
  }

  lemma NoneLive(s: seq<bool>, i: nat)
    requires Live(s) == 0 && i < |s|
    ensures !s[i]
  {
    if 0 < i { NoneLive(s[1..], i - 1); }
  }

  /** One pool: free elements, those handed out, and all that exist (`pulse_allocated`, `pseq_allocated`). */
  datatype Stock = Stock(free: nat, used: nat, made: nat) {
    predicate Balanced(lens: seq<nat>) { made == free + used && used == Sum(lens) }
  }

  /** Frees every element of a pool. */
  method Drain(s: Stock) returns (t: Stock)
    requires s.free <= s.made
    ensures t == Stock(0, s.used, s.made - s.free)
  {
    t := s;
    while 0 < t.free
      invariant t.free <= t.made && t == Stock(t.free, s.used, s.made - (s.free - t.free))
    {
      t := t.(free := t.free - 1, made := t.made - 1);
    }
  }

  /** The accounts of all detectors ever registered: whether they are live, and how many elements they hold. */
  datatype Books = Books(live: seq<bool>, pulses: seq<nat>, seqs: seq<nat>)

  /**
   The accounts `x` have become the accounts `y`: no other account has changed, what is new in `y` is
   newly registered, and whatever is live is in `y` or was there, outside `x`, before.
   */
  ghost predicate Moved(x: set<nat>, y: set<nat>, a: Books, b: Books) {
    && |a.pulses| == |a.seqs| == |a.live| <= |b.live| == |b.pulses| == |b.seqs|
    && (forall i :: 0 <= i < |a.live| && i !in x ==>
          b.live[i] == a.live[i] && b.pulses[i] == a.pulses[i] && b.seqs[i] == a.seqs[i])
    && (forall i :: i in y ==> i in x || |a.live| <= i)
    && (forall i :: 0 <= i < |b.live| && b.live[i] ==> i in y || (i < |a.live| && i !in x))
  }

  lemma MovedTwice(x: set<nat>, y: set<nat>, z: set<nat>, a: Books, b: Books, c: Books)
    requires Moved(x, y, a, b) && Moved(y, z, b, c)
    ensures Moved(x, z, a, c)
  {
  }

  lemma MovedNot(x: set<nat>, a: Books)
    requires |a.pulses| == |a.seqs| == |a.live|
    ensures Moved(x, x, a, a)
  {
  }

  /** Only account `id` has changed. */
  lemma MovedOne(x: set<nat>, id: nat, n: nat, m: nat, a: Books, b: Books)
    requires |a.pulses| == |a.seqs| == |a.live| && id in x && id < |a.live|
    requires b == Books(a.live, a.pulses[id := n], a.seqs[id := m])
    ensures Moved(x, x, a, b)
  {
  }

  /** Account `id` is gone. */
  lemma MovedOut(x: set<nat>, id: nat, a: Books, b: Books)
    requires |a.pulses| == |a.seqs| == |a.live| && id in x && id < |a.live|
    requires b == Books(a.live[id := false], a.pulses[id := 0], a.seqs[id := 0])
    ensures Moved(x, x - {id}, a, b)
  {
  }

  /** A new account has come. */
  lemma MovedIn(x: set<nat>, a: Books, b: Books)
    requires |a.pulses| == |a.seqs| == |a.live|
    requires b == Books(a.live + [true], a.pulses + [0], a.seqs + [0])
    ensures Moved(x, x + {|a.live|}, a, b)
  {
  }

  /** If `ids` are all the accounts that hold anything, what they hold is all there is. */
  lemma {:induction false} SumOf(lens: seq<nat>, ids: seq<nat>, held: seq<nat>)
    requires |ids| == |held| && (forall i, j :: 0 <= i < j < |ids| ==> ids[i] != ids[j])
    requires forall i :: 0 <= i < |ids| ==> ids[i] < |lens| && lens[ids[i]] == held[i]
    requires forall k :: 0 <= k < |lens| && k !in ids ==> lens[k] == 0
    ensures Sum(lens) == Sum(held)
    decreases |ids|
  {
    if ids == [] {
      SumZero(lens);
    } else {
      var rest := lens[ids[0] := 0];
      SumUpdate(lens, ids[0], 0);
      forall i | 0 <= i < |ids[1..]| ensures ids[1..][i] < |rest| && rest[ids[1..][i]] == held[1..][i] {
        assert ids[1..][i] == ids[i + 1] && ids[0] != ids[i + 1];
      }
      forall k | 0 <= k < |rest| && k !in ids[1..] ensures rest[k] == 0 {
        if k in ids { assert k == ids[0]; }
      }
      SumOf(rest, ids[1..], held[1..]);
    }
  }

  /** If `ids` are the live accounts, their number is the number of references. */
  lemma {:induction false} LiveOf(live: seq<bool>, ids: seq<nat>)
    requires forall i, j :: 0 <= i < j < |ids| ==> ids[i] != ids[j]
    requires forall i :: 0 <= i < |ids| ==> ids[i] < |live| && live[ids[i]]
    requires forall k :: 0 <= k < |live| && live[k] ==> k in ids
    ensures Live(live) == |ids|
    decreases |ids|
  {
    if ids == [] {
      NoLive(live);
    } else {
      var rest := live[ids[0] := false];
      LiveUpdate(live, ids[0]);
      forall i | 0 <= i < |ids[1..]| ensures ids[1..][i] < |rest| && rest[ids[1..][i]] {
        assert ids[1..][i] == ids[i + 1] && ids[0] != ids[i + 1];
      }
      forall k | 0 <= k < |rest| && rest[k] ensures k in ids[1..] {
        assert k in ids && k != ids[0];
      }
      LiveOf(rest, ids[1..]);
    }
  }

  lemma NoLive(live: seq<bool>)
    requires forall k :: 0 <= k < |live| ==> !live[k]
    ensures Live(live) == 0
  {
  }

  class Pools {
    var references: nat
    var pulses: Stock
    var seqs: Stock
    ghost var pulseLens: seq<nat>
    ghost var seqLens: seq<nat>
    ghost var live: seq<bool>

    /** The books balance, and nothing stays allocated without a reference. */
    ghost predicate Valid()
      reads this
      ensures Valid() ==> |pulseLens| == |seqLens| == |live|
    {
      && |pulseLens| == |seqLens| == |live| && references == Live(live)
      && pulses.Balanced(pulseLens) && seqs.Balanced(seqLens)
      && (forall i :: 0 <= i < |live| && !live[i] ==> pulseLens[i] == 0 && seqLens[i] == 0)
      && (references == 0 ==> pulses.made == 0 && seqs.made == 0)
    }

    ghost predicate Holds(id: nat, pulseCount: nat, seqCount: nat)
      reads this
    {
      && id < |pulseLens| && id < |seqLens| && id < |live| && live[id]
      && pulseLens[id] == pulseCount && seqLens[id] == seqCount
    }

    ghost function Accounts(): Books
      reads this
    {
      Books(live, pulseLens, seqLens)
    }

    constructor ()
      ensures Valid() && references == 0 && live == []
    {
      references := 0;
      pulses, seqs := Stock(0, 0, 0), Stock(0, 0, 0);
      pulseLens, seqLens, live := [], [], [];
      new;
      assert Sum(pulseLens) == 0 && Sum(seqLens) == 0 && Live(live) == 0;
    }

    /** `pool_register_ref`, for a new detector. */
    method Register() returns (ghost id: nat)
      requires Valid()
      modifies this
      ensures Valid() && id == |old(live)| && Holds(id, 0, 0)
      ensures pulseLens == old(pulseLens) + [0] && seqLens == old(seqLens) + [0] && live == old(live) + [true]
    {
      references := references + 1;
      SumAppend(pulseLens);
      SumAppend(seqLens);
      LiveAppend(live);
      id := |live|;
      pulseLens, seqLens, live := pulseLens + [0], seqLens + [0], live + [true];
    }

    /** `pool_deregister_ref`: the last one out frees both pools. */
    method Deregister(ghost id: nat)
      requires Valid() && Holds(id, 0, 0)
      modifies this
      ensures Valid() && live == old(live)[id := false]
      ensures pulseLens == old(pulseLens) && seqLens == old(seqLens)
      ensures references == 0 ==> pulses.made == 0 && seqs.made == 0
    {
      LiveUpdate(live, id);
      live := live[id := false];
      references := references - 1;
      if references == 0 {
        forall i | 0 <= i < |live| ensures pulseLens[i] == 0 && seqLens[i] == 0 { NoneLive(live, i); }
        SumZero(pulseLens);
        SumZero(seqLens);
        pulses := Drain(pulses);
        seqs := Drain(seqs);
      }
    }

    /** `pool_put_pulse_elem`. */
    method PutPulse(ghost id: nat)
      requires Valid() && id < |pulseLens| && id < |live| && live[id] && 0 < pulseLens[id]
      modifies this
      ensures Valid() && pulseLens == old(pulseLens)[id := old(pulseLens)[id] - 1]
      ensures seqLens == old(seqLens) && live == old(live)
    {
      SumUpdate(pulseLens, id, pulseLens[id] - 1);
      pulses := pulses.(free := pulses.free + 1, used := pulses.used - 1);
      pulseLens := pulseLens[id := pulseLens[id] - 1];
      assert 0 < references by { if references == 0 { NoneLive(live, id); } }
    }

    /** `pool_put_pseq_elem`. */
    method PutSeq(ghost id: nat)
      requires Valid() && id < |seqLens| && id < |live| && live[id] && 0 < seqLens[id]
      modifies this
      ensures Valid() && seqLens == old(seqLens)[id := old(seqLens)[id] - 1]
      ensures pulseLens == old(pulseLens) && live == old(live)
    {
      SumUpdate(seqLens, id, seqLens[id] - 1);
      seqs := seqs.(free := seqs.free + 1, used := seqs.used - 1);
      seqLens := seqLens[id := seqLens[id] - 1];
      assert 0 < references by { if references == 0 { NoneLive(live, id); } }
    }

    /** `pool_get_pulse_elem`, and a new element if the pool is empty and there is memory. */
    method GetPulse(ghost id: nat, memory: bool) returns (ok: bool)
      requires Valid() && id < |pulseLens| && id < |live| && live[id]
      modifies this
      ensures Valid() && seqLens == old(seqLens) && live == old(live)
      ensures ok <==> 0 < old(pulses.free) || memory
      ensures pulseLens == if ok then old(pulseLens)[id := old(pulseLens)[id] + 1] else old(pulseLens)
    {
      assert 0 < references by { if references == 0 { NoneLive(live, id); } }
      ok := true;
      if 0 < pulses.free {
        pulses := pulses.(free := pulses.free - 1, used := pulses.used + 1);
      } else if memory {
        pulses := pulses.(made := pulses.made + 1, used := pulses.used + 1);
      } else {
        return false;
      }
      SumUpdate(pulseLens, id, pulseLens[id] + 1);
      pulseLens := pulseLens[id := pulseLens[id] + 1];
    }

    /** `pool_get_pseq_elem`, likewise. */
    method GetSeq(ghost id: nat, memory: bool) returns (ok: bool)
      requires Valid() && id < |seqLens| && id < |live| && live[id]
      modifies this
      ensures Valid() && pulseLens == old(pulseLens) && live == old(live)
      ensures ok <==> 0 < old(seqs.free) || memory
      ensures seqLens == if ok then old(seqLens)[id := old(seqLens)[id] + 1] else old(seqLens)
    {
      assert 0 < references by { if references == 0 { NoneLive(live, id); } }
      ok := true;
      if 0 < seqs.free {
        seqs := seqs.(free := seqs.free - 1, used := seqs.used + 1);
      } else if memory {
        seqs := seqs.(made := seqs.made + 1, used := seqs.used + 1);
      } else {
        return false;
      }
      SumUpdate(seqLens, id, seqLens[id] + 1);
      seqLens := seqLens[id := seqLens[id] + 1];
    }
  }
}
