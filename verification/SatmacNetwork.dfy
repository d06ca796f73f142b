/**
 A network of SATMAC nodes: every FI that was ever sent may reach any node at
 any time, any number of times or never, and its marks may be misread.
 */
module SatmacNetwork {
  import opened Bits
  import opened FiCodec
  import opened FiPackets
  import opened SlotTable
  import opened SlotMachine
  import opened SatmacRuns
  import opened Options

  datatype Net = Net(configs: map<nat, Config>, nodes: map<nat, Node>, air: set<Fi>)

  datatype Step =
    | SlotOf(id: nat, draw: Draw)
    | Deliver(id: nat, sent: Fi, heard: Fi)

  predicate InBounds(lo: nat, hi: nat, len: nat) { lo <= len <= hi && FrameSize(len) }

  /** Every FI of the list has a frame length within the bounds. */
  ghost predicate Short(lo: nat, hi: nat, fis: seq<Fi>) {
    forall fi :: fi in fis ==> InBounds(lo, hi, |fi.marks|)
  }

  ghost predicate NodeOk(lo: nat, hi: nat, c: Config, n: Node) {
    && c.lower == lo && c.upper == hi && FrameSize(lo) && FrameSize(hi)
    && Runs(c, n) && InBounds(lo, hi, n.frameLen) && Short(lo, hi, n.received)
  }

  /** All frame lengths of the network, in use, received or on the air, are powers of two within the bounds. */
  ghost predicate NetOk(lo: nat, hi: nat, s: Net) {
    && s.configs.Keys == s.nodes.Keys
    && (forall i :: i in s.nodes ==> NodeOk(lo, hi, s.configs[i], s.nodes[i]))
    && (forall fi :: fi in s.air ==> InBounds(lo, hi, |fi.marks|))
  }

  /**
   What is heard of an FI on the air: its length, or without frame adjustment the node's own, and marks
   of any content.
   */
  ghost predicate Heard(c: Config, n: Node, sent: Fi, heard: Fi) {
    && Hearable(c, n, heard)
    && (c.adjustFrame ==> |heard.marks| == |sent.marks|)
  }

  ghost predicate Next(s: Net, t: Net, step: Step) {
    step.id in s.nodes && step.id in s.configs &&
    var c, n := s.configs[step.id], s.nodes[step.id];
    match step
    case SlotOf(id, draw) =>
      && Runs(c, n) && SlotStep(c, n, draw).Done?
      && var o := SlotStep(c, n, draw);
         t == Net(s.configs, s.nodes[id := o.node], s.air + if o.sent.Some? then {o.sent.value} else {})
    case Deliver(id, sent, heard) =>
      sent in s.air && Heard(c, n, sent, heard) && t == s.(nodes := s.nodes[id := Hears(n, heard)])
  }

  // ---------- Frame lengths through one slot ----------

  lemma {:induction false} MergeAllLen(c: Config, tags: seq<Tag>, len: nat, fis: seq<Fi>, lo: nat, hi: nat)
    requires len <= |tags| && forall fi :: fi in fis ==> |fi.marks| <= |tags|
    requires InBounds(lo, hi, len) && Short(lo, hi, fis)
    ensures InBounds(lo, hi, MergeAll(c, tags, len, fis).1)
    decreases fis
  {
    if fis != [] {
      assert fis[0] in fis;
      var m := Merge(c, tags, len, fis[0]);
      MergeAllLen(c, m.0, m.1, fis[1..], lo, hi);
    }
  }

  lemma SynthesizeLen(c: Config, tags: seq<Tag>, len: nat, slot: int, candidate: int, ages: bool, fis: seq<Fi>,
                      lo: nat, hi: nat)
    requires SaneTable(tags, len) && AllFit(fis) && InBounds(lo, hi, len) && Short(lo, hi, fis)
    ensures InBounds(lo, hi, Synthesize(c, tags, len, slot, candidate, ages, fis).1)
  {
    var aged := if ages && c.memory then ExpireAll(c, tags, len, slot, candidate) else tags;
    MergeAllLen(c, aged, len, fis, lo, hi);
  }

  lemma RefreshLen(c: Config, n: Node, lo: nat, hi: nat)
    requires NodeOk(lo, hi, c, n)
    ensures InBounds(lo, hi, Refresh(c, n).frameLen)
  {
    var tags := if c.memory then n.tags else ClearOthers(c, n.tags, n.frameLen);
    assert SaneTable(tags, n.frameLen);
    SynthesizeLen(c, tags, n.frameLen, n.slotNum, n.candidate, true, n.received, lo, hi);
  }

  lemma ListenedLen(c: Config, n: Node, lo: nat, hi: nat)
    requires NodeOk(lo, hi, c, n)
    ensures InBounds(lo, hi, Listened(c, n).frameLen)
  {
    SynthesizeLen(c, seq(TABLE_SIZE, _ => FreeTag), n.frameLen, n.slotNum, n.candidate, false, n.received, lo, hi);
  }

  /** Doubling below the upper and halving above the lower of two powers of two stays between them. */
  lemma AdjustedBounds(c: Config, tags: seq<Tag>, len: nat, threshold: int)
    requires len <= |tags| && FrameSize(c.lower) && FrameSize(c.upper) && InBounds(c.lower, c.upper, len)
    ensures InBounds(c.lower, c.upper, AdjustedLen(c, tags, len, threshold))
  {
  }

  /** The length in use and the length sent after a slot. */
  ghost predicate LensOk(lo: nat, hi: nat, o: Outcome) {
    o.Done? ==> InBounds(lo, hi, o.node.frameLen) && (o.sent.Some? ==> InBounds(lo, hi, |o.sent.value.marks|))
  }

  lemma GiveUpLen(c: Config, n: Node, draw: Draw, lo: nat, hi: nat)
    requires Runs(c, n) && n.slotCount < |n.tags| && InBounds(lo, hi, n.frameLen)
    ensures LensOk(lo, hi, GiveUp(c, n, draw))
  {
  }

  lemma SwitchLen(c: Config, n: Node, draw: Draw, lo: nat, hi: nat)
    requires Runs(c, n) && n.phase == WorkAdj && n.slotCount < |n.tags| && 0 <= n.slotNum < |n.tags|
    requires InBounds(lo, hi, n.frameLen)
    ensures LensOk(lo, hi, SwitchStep(c, n, draw))
  {
  }

  lemma WorkLen(c: Config, n: Node, draw: Draw, lo: nat, hi: nat)
    requires Runs(c, n) && n.phase == WorkFi && n.slotCount < |n.tags| && 0 <= n.slotNum < |n.tags|
    requires c.lower == lo && c.upper == hi && FrameSize(lo) && FrameSize(hi) && InBounds(lo, hi, n.frameLen)
    ensures LensOk(lo, hi, WorkStep(c, n, draw))
  {
    hide Adjust, Wander, AdjustedLen;
    AdjustRuns(c, n, draw);
    AdjustedBounds(c, n.tags, n.frameLen, n.freeThreshold);
    assert InBounds(lo, hi, Adjust(c, n, draw).frameLen);
  }

  lemma ListenLen(c: Config, n: Node, draw: Draw, lo: nat, hi: nat)
    requires NodeOk(lo, hi, c, n) && n.phase == Listen && n.slotCount < n.frameLen
    ensures LensOk(lo, hi, ListenStep(c, n, draw))
  {
    ListenedLen(c, n, lo, hi);
  }

  lemma OwnSlotLen(c: Config, n: Node, draw: Draw, lo: nat, hi: nat)
    requires NodeOk(lo, hi, c, n) && n.slotCount == n.slotNum < n.frameLen
    ensures LensOk(lo, hi, OwnSlotStep(c, n, draw))
  {
    RefreshLen(c, n, lo, hi);
    var m := Refresh(c, n);
    match n.phase
    case Init =>
    case Listen => ListenLen(c, n, draw, lo, hi);
    case WaitRequest => GiveUpLen(c, m, draw, lo, hi);
    case Request => GiveUpLen(c, m, draw, lo, hi);
    case WorkFi =>
      GiveUpLen(c, m, draw, lo, hi);
      WorkLen(c, m, draw, lo, hi);
    case WorkAdj => SwitchLen(c, m, draw, lo, hi);
  }

  lemma FadeShort(fis: seq<Fi>, lo: nat, hi: nat)
    requires Short(lo, hi, fis)
    ensures Short(lo, hi, Fade(fis))
  {
    forall fi | fi in Fade(fis) ensures InBounds(lo, hi, |fi.marks|) {
      Faded(fis, fi);
      assert InBounds(lo, hi, |fi.(remain := fi.remain + 1).marks|);
    }
  }

  lemma SlotLen(c: Config, n: Node, draw: Draw, lo: nat, hi: nat)
    requires NodeOk(lo, hi, c, n)
    ensures LensOk(lo, hi, SlotStep(c, n, draw))
    ensures SlotStep(c, n, draw).Done? ==> NodeOk(lo, hi, c, SlotStep(c, n, draw).node)
  {
    StepRuns(c, n, draw);
    FadeFits(n.received);
    FadeShort(n.received, lo, hi);
    var m := NextSlot(n);
    assert NodeOk(lo, hi, c, m);
    if m.slotCount == m.slotNum { OwnSlotLen(c, m, draw, lo, hi); }
  }

  // ---------- The network ----------

  lemma NextOk(lo: nat, hi: nat, s: Net, t: Net, step: Step)
    requires NetOk(lo, hi, s) && Next(s, t, step)
    ensures NetOk(lo, hi, t)
  {
    hide SlotStep, Runs, FrameSize;
    var c, n := s.configs[step.id], s.nodes[step.id];
    match step
    case SlotOf(id, draw) => SlotLen(c, n, draw, lo, hi);
    case Deliver(id, sent, heard) =>
      HearsRuns(c, n, heard);
      assert NodeOk(lo, hi, c, Hears(n, heard));
  }

  /** A run of the network, state by state. */
  ghost predicate IsRun(states: seq<Net>, steps: seq<Step>) {
    && |states| == |steps| + 1
    && forall k :: 0 <= k < |steps| ==> Next(states[k], states[k + 1], steps[k])
  }

  /** If it starts so, every frame length in the network stays a power of two within the bounds, over every run. */
  lemma {:induction false} LengthsStay(lo: nat, hi: nat, states: seq<Net>, steps: seq<Step>, k: nat)
    requires IsRun(states, steps) && k < |states| && NetOk(lo, hi, states[0])
    ensures NetOk(lo, hi, states[k])
    decreases k
  {
    if 0 < k {
      LengthsStay(lo, hi, states, steps, k - 1);
      assert Next(states[k - 1], states[k - 1 + 1], steps[k - 1]);
      NextOk(lo, hi, states[k - 1], states[k], steps[k - 1]);
    }
  }

  /** The logarithm that the header's 4-bit field carries. */
  function Log2(n: nat): (log: nat)
    requires FrameSize(n)
    ensures log < Pow2(4) && Pow2(log) == n
  {
    if n == 1 then 0 else if n == 2 then 1 else if n == 4 then 2 else if n == 8 then 3 else if n == 16 then 4
    else if n == 32 then 5 else if n == 64 then 6 else if n == 128 then 7 else if n == 256 then 8 else 9
  }

  /**
   So every length that is ever advertised is carried exactly: its logarithm fits the header field,
   and whatever packet has it there decodes to that length.
   */
  lemma AdvertisedExactly(lo: nat, hi: nat, states: seq<Net>, steps: seq<Step>, k: nat, fi: Fi, packet: seq<Byte>)
    requires IsRun(states, steps) && k < |states| && NetOk(lo, hi, states[0]) && fi in states[k].air
    ensures InBounds(lo, hi, |fi.marks|) && Log2(|fi.marks|) < Pow2(NS3.frameLen)
    ensures HeaderCarries(packet, NS3, Low(fi.sender, NS3.sti), Log2(|fi.marks|)) ==>
      && Decoded(packet, 0, NS3.sti) == Low(fi.sender, NS3.sti)
      && Pow2(Decoded(packet, NS3.sti, NS3.frameLen)) == |fi.marks|
  {
    hide Decoded, Field, Next, NetOk;
    LengthsStay(lo, hi, states, steps, k);
    assert InBounds(lo, hi, |fi.marks|) by { InAir(lo, hi, states[k], fi); }
    if HeaderCarries(packet, NS3, Low(fi.sender, NS3.sti), Log2(|fi.marks|)) {
      AlignedExact(packet, 0, 9);
      AlignedExact(packet, 9, 4);
    }
  }

  lemma InAir(lo: nat, hi: nat, s: Net, fi: Fi)
    requires NetOk(lo, hi, s) && fi in s.air
    ensures InBounds(lo, hi, |fi.marks|)
  {
  }
}
