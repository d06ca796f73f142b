/** What the codec's straddling fields do to SATMAC: no claim is ever heard in a slot 2 modulo 8. */
module SatmacStraddling {
  import opened Bits
  import opened FiPackets
  import opened SlotTable
  import opened SlotLaws
  import opened SlotMachine
  import opened SatmacLaws

  /** The marks of the FI are what the ns-3 packet of `sent` decodes to. */
  ghost predicate DecodedFrom(fi: Fi, sent: seq<Mark>) {
    |fi.marks| == |sent| && forall i :: 0 <= i < |sent| ==> fi.marks[i] == Arrived(i, Cut(NS3, sent[i]))
  }

  /** Each FI of the list is decoded from the marks in the same place. */
  ghost predicate AllDecoded(fis: seq<Fi>, sent: seq<seq<Mark>>) {
    |fis| == |sent| && forall j :: 0 <= j < |fis| ==> DecodedFrom(fis[j], sent[j])
  }

  lemma BusyHeard(i: nat, m: Mark)
    requires i % 8 == 2
    ensures var b := Arrived(i, Cut(NS3, m)).busy;
      b != SLOT_1HOP && b != SLOT_COLLISION && (b == SLOT_FREE <==> Low(m.busy, 2) == 0)
  {
    assert Pow2(2) == 4;
  }

  /** Whatever was sent, no decoded FI claims or seizes the slot. */
  lemma ClaimsUnheard(c: Config, fi: Fi, sent: seq<Mark>, s: nat)
    requires s % 8 == 2 && DecodedFrom(fi, sent)
    ensures !Claims(c, fi, s) && !Seizes(c, fi, s)
  {
    hide Arrived, Cut;
    if s < |sent| { BusyHeard(s, sent[s]); }
  }

  /** Marks that are neither free, one-hop nor collision leave the slot the node's own. */
  lemma {:induction false} StaysMine(c: Config, tags: seq<Tag>, len: nat, fis: seq<Fi>, s: nat, locked: bool)
    requires s < len <= |tags| && forall fi :: fi in fis ==> |fi.marks| <= |tags|
    requires forall fi :: fi in fis && s < |fi.marks| ==> fi.marks[s].busy !in {SLOT_FREE, SLOT_1HOP, SLOT_COLLISION}
    ensures FateAfter(c, Mine, tags, len, fis, s, locked) == Mine
    decreases fis
  {
    hide Merge, OwnPass;
    if fis != [] {
      var fi, m := fis[0], Merge(c, tags, len, fis[0]);
      assert s < |fi.marks| ==> fi.marks[s].busy !in {SLOT_FREE, SLOT_1HOP, SLOT_COLLISION};
      StaysMine(c, m.0, m.1, fis[1..], s, locked);
    }
  }

  /**
   So a node in such a slot sends exactly if no free mark objects, and it always sends if every
   FI it has received was sent with the slot in use, by whomever: claims cannot silence it.
   */
  lemma ClaimsCannotSilence(c: Config, n: Node, draw: Draw, sent: seq<seq<Mark>>)
    requires InOwnSlot(c, n) && OwnSlotStep(c, n, draw).Done? && n.slotNum % 8 == 2 && AllDecoded(n.received, sent)
    ensures forall fi :: fi in n.received ==> |fi.marks| <= |n.tags|
    ensures OwnSlotStep(c, n, draw).sent.Some? <==> !Objected(c, Aged(c, n), n.frameLen, n.received, n.slotNum)
    ensures (forall j :: 0 <= j < |sent| && n.slotNum < |sent[j]| ==> Low(sent[j][n.slotNum].busy, 2) != 0) ==>
      OwnSlotStep(c, n, draw).sent.Some?
  {
    hide OwnSlotStep, Arrived, Cut, Low, Objected, FateAfter;
    var s := n.slotNum;
    forall fi | fi in n.received ensures !Seizes(c, fi, s) {
      var j :| 0 <= j < |n.received| && n.received[j] == fi;
      ClaimsUnheard(c, fi, sent[j], s);
    }
    SendsIffUnopposed(c, n, draw);
    SendsIff(c, n, draw);
    if forall j :: 0 <= j < |sent| && s < |sent[j]| ==> Low(sent[j][s].busy, 2) != 0 {
      forall fi | fi in n.received && s < |fi.marks|
        ensures fi.marks[s].busy !in {SLOT_FREE, SLOT_1HOP, SLOT_COLLISION}
      {
        var j :| 0 <= j < |n.received| && n.received[j] == fi;
        assert DecodedFrom(fi, sent[j]);
        BusyHeard(s, sent[j][s]);
      }
      StaysMine(c, Aged(c, n), n.frameLen, n.received, s, Aged(c, n)[s].locker);
    }
  }
}
