# Verified models of the VANET TDMA code

This project models the algorithms with a correctness argument behind them in the
ns-2, ns-3 and driver parts of the repository, and proves that argument. Each
state-changing component is a class whose methods are proved against functions on
values; the laws are lemmas about those functions, or invariants that every method keeps.

- **Event schedulers** (`Events`, `ListScheduler`, `HeapScheduler`, `CalendarScheduler`,
  `Simulation`, `SimulationLaws`): the sorted list is the reference. The binary heap and the
  calendar queue keep a ghost copy of that list and dequeue what it would. Since a later event
  has the larger `uid_`, first-in-first-out among equal times is the order of `(time, uid)`.
- **Frame information (FI) codec** (`Bits`, `FiCodec`, `FiPackets`): bit fields in a byte
  buffer, the ns-2 layout (28 bits a slot) and the ns-3 layout (13 bits a slot).
- **SATMAC**: `SlotTable` has the slot table and `SlotMachine` the slot state machine of one
  node, both as functions; `SatmacNode` is the code, on an array, proved against them. Their
  meaning is stated apart from them: silence and objections (`SlotLaws`, `SatmacLaws`), renewal
  (`SlotRenewal`, `SatmacRenewal`), counters and locks (`SlotCounting`), frame lengths and slot
  choice (`FrameLength`, `SatmacFrame`), phases and ownership (`SatmacPhases`, `SatmacOwnership`),
  what the codec does to claims (`SatmacStraddling`). `SatmacRuns` has the runs of a node and
  `SatmacNetwork` those of a network with FIs in flight. `Modulo` holds two facts on remainders.
- **DFS radar detection** (`Radar`, `RadarTypes`, `Pools`, `PriSequences`, `PriDetector`,
  `RadarBursts`, `PatternDetector`, `DfsSystem`): the pulse repetition interval (PRI) detectors,
  the element pools they share, the trains of pulses they must report, the pattern detector that
  feeds them channel by channel, and any number of pattern detectors on the same pools.
- **Key cache** (`KeyCache`, `KeyAllocator`), **node list** (`Ordering`, `Geometry`,
  `NodeList`) and **receiver** (`Reception`, `ReceptionLaws`, `Receiver`).

`dafny verify dfyconfig.toml` checks the whole project.

## What turned out not to hold

Where a promise fails as it stands, the model keeps the code as it is, a lemma shows an
input on which it fails, and another says exactly when it holds.

- The scheduler's abort on going back in time is reached by a negative delay
  (`Simulation.NegativeDelayGoesBack`), and from any sound state by nothing else
  (`Simulation.AbortsIffNegative`). The list and the heap agree even then, up to the abort
  (`Simulation.Run`).
- The calendar agrees with them only up to the first event of negative time. Its index truncates
  toward zero: it is the event's bucket from time 0 on (`CalendarScheduler.IndexIsHash`), and
  before that it is negative if and only if the number of whole widths before 0 is no multiple of
  the number of buckets (`CalendarScheduler.IndexBeforeZero`). Scheduling one event with delay -1
  at the start is enough (`Simulation.NegativeTimeHasNoBucket`).
- `decode_value` misplaces the first part of a field of fewer than eight bits that crosses a
  byte boundary. It is right if and only if that part is zero (`FiCodec.DecodeExact`). The
  ns-3 layout has such fields: `busy` at slots 2 modulo 8 and `count` at slots 3 modulo 8
  arrive 126 too large when they are 2 or 3, and such one-hop claims are ignored by the
  receiver (`FiPackets.Ns3Exact`, `FiPackets.ClaimsLost`).
- A field that does not fit its width is carried by its low bits, so a round trip returns an FI
  cut to its widths (`FiPackets.Ns2RoundTrip`).
- A node whose slot another station claims may still send in it
  (`SatmacLaws.SeizureLetsItSend`). For every list of received FIs, what becomes of the own slot
  is folded from its marks, from whether the table knows each sender, and from whether the slot
  is locked (`SlotLaws.FateShows`). The node sends if and only if the slot stays uncontested or is
  emptied in the end (`SatmacLaws.SendsIff`), so a claimed node stays silent if and only if it is
  not emptied (`SatmacLaws.SilentIffNotEmptied`). It is emptied only after an FI has marked the
  slot as a collision under another id (`SlotLaws.LostAfterSeizure`).
- In the ns-3 code no claim at all is heard in a slot 2 modulo 8, whoever makes it: the decoded
  FIs neither claim nor seize it, so a node that holds such a slot sends although every FI it has
  received gives the slot to others (`SatmacStraddling.ClaimsCannotSilence`).
- A table entry that no FI names may still be kept alive, but only while it is a one-hop entry
  and a one-hop neighbour claims the same slot (`SlotLaws.ConflictRenewsEntry`,
  `SlotLaws.RenewedUnnamed`). A run without such a renewal forgets the entry in as many rounds
  as the slot lifetime (`SatmacLaws.RunForgets`); a two-hop entry that no FI names is always
  forgotten (`SatmacLaws.UnnamedForgotten`).
- `determine_BCH` may find no slot at the re-draw of a node that hears nobody, where the code
  would index the table with -1 (`SatmacLaws.RedrawFails`). The model yields `Fault` there, if
  and only if re-drawing is on and due, nobody else is heard and no slot is eligible
  (`SatmacLaws.WanderFaults`, `SatmacLaws.WorkFaults`, `SatmacLaws.FaultsIff`).
- Halving the frame may leave the node's slot number at the end of the frame or beyond, which
  the assertion at tdma-satmac.cc:1676 forbids but for the end itself
  (`SatmacFrame.HalvingStrands`, for the node of `SatmacFrame.VictimIsDoomed`). This happens if
  and only if the merged table halves the frame and the slot is in the upper half, which merging
  has then emptied, and no re-draw follows (`SatmacFrame.OwnSlotStrands`). Without the assertion
  such a node never sends or changes its table again (`SatmacFrame.StrandedIsMute`,
  `SatmacFrame.MuteForGood`).
- A node may take two slots for its own and be in one of them only: when it adjusts to another
  slot and then, hearing nobody, draws a third in the same slot. It does so if and only if both
  are on, due and possible (`SatmacOwnership.OwnSlotHolds`, `SatmacOwnership.TwoSlots`); with
  either turned off it never does (`SatmacOwnership.NeverStrays`), and a slot left behind expires
  (`SatmacOwnership.StraySlotGoes`).
- A station that is named in every round, and that no FI displaces, keeps its entry
  (`SatmacRenewal.RunHolds`), but for one case: a node with a candidate slot and a usable slot frees
  the candidate whoever has it by then (`SatmacRenewal.SwitchDrops`).
- In the first moments of the clock, before a sequence's duration has passed, the window of
  `pseq_handler_create_sequences` wraps around and no older pulse is counted
  (`PriSequences.EarlyPair`).
- With one pulse per burst (FCC type 5) the founding pair of a sequence already outlasts the
  sequence's duration (`PriSequences.OnePulsePerBurst`), so the bound on the span is for
  patterns of at least two.
- A pulse 2^32 microseconds too old looks like a recent one (`PriSequences.DeltaAliases`). A pair
  of such pulses is a sequence of count 2 that nothing can join, and it is a detection if and
  only if the threshold is at most 2 (`PriSequences.CandidateAliased`). That is so for exactly two
  patterns, the FCC chirp and the eighth Japanese one (`PatternDetector.LowThresholds`), and for
  the latter no pulses bear the detection out (`PatternDetector.FalseAlarm`). Every other
  detection is borne out by its pulses, however far apart they come.
- Deleting a static key, one below slot 4, leaves its bits set (`KeyCache.StaticStays`).
- `removeNodeFromList` never removes the last node (`NodeList.Channel.Remove`).
- `getAffectedNodes` lays its window around the position the sender had before all positions
  were brought up to date. The window is right for every placement of the other nodes if and
  only if the sender has not moved in the plane (`Geometry.WindowExact`).
- The statements of `updateNodesList` that relink a node are never reached for a node of the
  list (`NodeList.Channel.UpdateNodesList`), nor is `MAC_BUSY` in the receiver
  (`ReceptionLaws.ReachedSound`).
- A frame that was captured may outlast the one that captured it. The receiver forgets it, and
  may then deliver a weaker frame that it overlaps (`ReceptionLaws.ForgottenCapture`). A
  delivered frame outdoes everything it overlaps if and only if it outdoes the captured frames
  still on the air when it begins (`ReceptionLaws.OutdoesIff`), and that is so in every run in
  which no captured frame outlasts the timer it was captured under (`ReceptionLaws.AllOutdo`).

## Model

| member | source | states |
|---|---|---|
| `Events.InsertOrdered` | ns2/patch/common/scheduler.cc:301-317 | inserting the newest event after its equals keeps the queue in order of time, first in first out among equal times |
| `Events.InsertAt` | ns2/patch/common/scheduler.cc:301-317 | the event goes in after everything not later than it and before the first later one, and nothing else moves |
| `Events.RemoveContents` | ns2/patch/common/scheduler.cc:319-331 | cancelling takes out exactly the named event and keeps the order |
| `Events.OrderedUnique` | ns2/patch/common/scheduler.cc:301-351 | two queues in order with the same events are the same queue, so order and contents determine what is dequeued |
| `ListScheduler.List.Add` | ns2/patch/common/scheduler.cc:301-317 | the scan for the place is the reference insertion |
| `ListScheduler.List.Cancel` | ns2/patch/common/scheduler.cc:319-331 | takes out the pending event and nothing else |
| `ListScheduler.List.Deque` | ns2/patch/common/scheduler.cc:344-351 | yields the first event, or none, and leaves the rest |
| `HeapScheduler.RootIsLeast` | ns2/patch/common/scheduler.cc:465-496 | parent order alone makes the root least in (key, s_key) order |
| `HeapScheduler.RootIsHead` | ns2/patch/common/scheduler.cc:497-531 | the root of a heap holding the reference queue is the head of that queue |
| `HeapScheduler.Promote` | ns2/patch/common/scheduler.cc:411-435 | raising an element to its parent's place, whatever its key, moves the only disorder to the parent's place |
| `HeapScheduler.Sink` | ns2/patch/common/scheduler.cc:497-531 | swapping with the smaller child moves the only disorder to that child's place |
| `HeapScheduler.Heap.Place` | ns2/patch/common/scheduler.cc:465-496 | sifting up yields a heap with exactly the old elements and the new one |
| `HeapScheduler.Heap.Add` | ns2/patch/common/scheduler.cc:437-496 | the heap then holds the reference queue with the event inserted, growing its array if it is full |
| `HeapScheduler.Heap.SmallerChild` | ns2/patch/common/scheduler.cc:505-529 | finds a child that no other child precedes, or that there is none |
| `HeapScheduler.Heap.Heapify` | ns2/patch/common/scheduler.cc:505-529 | from disorder at the root alone to a heap of the same elements |
| `HeapScheduler.Heap.ExtractRoot` | ns2/patch/common/scheduler.cc:497-531 | takes out exactly the root, also when the root alone is out of order |
| `HeapScheduler.Heap.Deque` | ns2/patch/common/scheduler.cc:554-558 | yields what the reference queue would and leaves its rest |
| `HeapScheduler.Heap.Member` | ns2/patch/common/scheduler.cc:378-409 | one more than the place of the event, or 0 if and only if it is absent |
| `HeapScheduler.Heap.BringToRoot` | ns2/patch/common/scheduler.cc:411-435 | the swaps towards the root bring the element there and disturb the order at the root alone |
| `HeapScheduler.Heap.Delete` | ns2/patch/common/scheduler.cc:411-435 | takes out exactly the named element and restores the heap |
| `HeapScheduler.Heap.Cancel` | ns2/patch/common/scheduler.cc:411-435 | the heap then holds the reference queue without the event; an absent event changes nothing |
| `CalendarScheduler.HitDay` | ns2/patch/common/scheduler.cc:713-775 | a bucket head inside the early-exit window is in the very day that is being probed |
| `CalendarScheduler.IndexIsHash` | ns2/patch/common/scheduler.cc:573 | for a time of at least 0 the source's index, which truncates toward zero, is the bucket the laws are about |
| `CalendarScheduler.IndexBeforeZero` | ns2/patch/common/scheduler.cc:573 | for a negative time it counts back from 0, so it lies outside the buckets if and only if the whole widths before 0 are no multiple of their number |
| `CalendarScheduler.HitIsLeast` | ns2/patch/common/scheduler.cc:713-775 | with at least four buckets, an early exit from any of the three windows is at the earliest pending time |
| `CalendarScheduler.NoHitIsLeast` | ns2/patch/common/scheduler.cc:713-775 | without one, the running minimum or the head of the last bucket is at the earliest pending time |
| `CalendarScheduler.LeastIsHead` | ns2/patch/common/scheduler.cc:713-775 | a bucket head at the earliest time is the head of the reference queue, first in first out included |
| `CalendarScheduler.HeadIsFront` | ns2/patch/common/scheduler.cc:777-844 | the head of the reference queue is at the front of its bucket |
| `CalendarScheduler.CircularNeighbours` | ns2/patch/common/scheduler.cc:963-1002 | comparing times with the circular neighbours tells whether the event is alone at its time |
| `CalendarScheduler.LinkEffect` | ns2/patch/common/scheduler.cc:605-661 | linking an event keeps every bucket's events, order and number of distinct times, and their sum |
| `CalendarScheduler.UnlinkEffect` | ns2/patch/common/scheduler.cc:963-1002 | unlinking an event does the same, and the count it takes down is positive |
| `CalendarScheduler.Calendar.Reinit` | ns2/patch/common/scheduler.cc:846-867 | a calendar of that size and width without events, whose last bucket is that of the clock |
| `CalendarScheduler.Calendar.Restore` | ns2/patch/common/scheduler.cc:663-711 | going in before its equals, the event keeps the arrival order when the later ones are already there |
| `CalendarScheduler.Calendar.RestoreBucket` | ns2/patch/common/scheduler.cc:869-926 | an old bucket taken from tail to head ends up in its hash buckets in its old order |
| `CalendarScheduler.Calendar.NewWidth` | ns2/patch/common/scheduler.cc:929-961 | four average gaps if one is known; else the width stays if the first of the fullest buckets has at most four times, or is four times what that bucket spans, shared among its times; it is positive either way |
| `CalendarScheduler.Calendar.Resize` | ns2/patch/common/scheduler.cc:869-926 | to any size and positive width: same events in the same order, each in its hash bucket, counters right, and at least four buckets |
| `CalendarScheduler.Calendar.WindBack` | ns2/patch/common/scheduler.cc:605-615 | an event before the clock takes the clock and the last bucket back to it |
| `CalendarScheduler.Calendar.Add` | ns2/patch/common/scheduler.cc:605-661 | the calendar then holds the reference queue with the event inserted, resized or not |
| `CalendarScheduler.Calendar.Scan` | ns2/patch/common/scheduler.cc:713-775 | what the three loops have probed and either a hit or the running minimum over all but the last bucket |
| `CalendarScheduler.Calendar.Search` | ns2/patch/common/scheduler.cc:713-775 | finds a bucket whose head no pending event precedes in time |
| `CalendarScheduler.Calendar.Head` | ns2/patch/common/scheduler.cc:713-775 | yields the head of the reference queue and moves the clock to it |
| `CalendarScheduler.Calendar.Deque` | ns2/patch/common/scheduler.cc:777-844 | yields what the reference queue would and leaves its rest, with every counter right, resized or not |
| `CalendarScheduler.Calendar.UnlinkInPlace` | ns2/patch/common/scheduler.cc:963-1002 | takes the event out of its bucket and keeps qsize_, count_ and stat_qsize_ right |
| `CalendarScheduler.Calendar.Cancel` | ns2/patch/common/scheduler.cc:963-1002 | the calendar then holds the reference queue without the event |
| `Simulation.StepSound` | ns2/patch/common/scheduler.cc:82-151 | with a non-negative delay, no pending time is before the clock, and scheduling fails exactly for a pending object |
| `Simulation.StepCoherent` | ns2/patch/common/scheduler.cc:82-151 | whatever the delay, an event object is pending exactly when its uid_ is positive, the queue is in order of time and uid_, and every uid_ is below the next |
| `Simulation.RunSound` | ns2/patch/common/scheduler.cc:82-151 | over every sequence of operations with non-negative delays, the backwards-in-time abort is not reached and events are dispatched in order of time |
| `Simulation.AbortsIffNegative` | ns2/patch/common/scheduler.cc:98-103 | from every sound state, the next dispatch after scheduling an event aborts if and only if its delay was negative |
| `Simulation.NegativeDelayGoesBack` | ns2/patch/common/scheduler.cc:98-103 | an operation sequence with a negative delay that reaches the abort |
| `Simulation.StepFromZero` | ns2/patch/common/scheduler.cc:98-118 | as long as no event of negative time is scheduled, the clock and all pending times are at least 0 |
| `Simulation.AllHaveBuckets` | ns2/patch/common/scheduler.cc:605-617 | in such a state every index the calendar computes for a pending event or the clock is a bucket, at any width and size |
| `Simulation.FromZeroIsPrefix` | ns2/patch/common/scheduler.cc:82-151 | what the calendar dispatches up to then begins the reference trace, and is all of it if no such event is scheduled |
| `Simulation.NonNegativeNeverEarly` | ns2/patch/common/scheduler.cc:98-118 | no run with non-negative delays schedules one |
| `Simulation.NegativeTimeHasNoBucket` | ns2/patch/common/scheduler.cc:605-617 | the first event of a run with delay -1 gets index -1 in the calendar's four initial buckets, before any abort |
| `SimulationLaws.ScheduleAdds` | ns2/patch/common/scheduler.cc:82-118 | scheduling a non-pending event adds exactly one pending event, of that id and a fresh uid_, `delay` away from the clock |
| `SimulationLaws.CancelTakesOut` | ns2/patch/common/scheduler.cc:319-331 | cancelling leaves exactly the other events pending and negates the uid_ of a pending one; any other id changes nothing |
| `SimulationLaws.DispatchTakesFirst` | ns2/patch/common/scheduler.cc:142-151 | a dispatch takes the pending event that all others come after, sets the clock to its time and negates its uid_ |
| `SimulationLaws.CancelledNeverRuns` | ns2/patch/common/scheduler.cc:319-331 | no later trace of any run holds the uid_ of a cancelled event |
| `SimulationLaws.DispatchedWasScheduled` | ns2/patch/common/scheduler.cc:98-118 | every dispatched event was pending at the start or was scheduled by some operation of the run, for the time it takes place at |
| `SimulationLaws.UncancelledRuns` | ns2/patch/common/scheduler.cc:120-151 | an event that nobody cancels is dispatched or pending at the end of the run, and not both |
| `SimulationLaws.NoneRunsTwice` | ns2/patch/common/scheduler.cc:120-151 | no event takes place twice |
| `SimulationLaws.ClockIsLast` | ns2/patch/common/scheduler.cc:142-151 | the clock always shows the time of the last event dispatched |
| `Simulation.Apply` | ns2/patch/common/scheduler.cc:82-151 | after any operation, a negative delay included, the list and the heap hold the same queue and dispatched the same event, and so does the calendar as long as no event of negative time was scheduled; what each operation does to the queue is `SimulationLaws.ScheduleAdds`, `CancelTakesOut` and `DispatchTakesFirst` |
| `Simulation.Run` | ns2/patch/common/scheduler.cc:301-1002 | for every sequence of schedule, cancel and dispatch, with any delays, the list and the heap dispatch exactly the reference trace, up to its abort; the calendar, whatever its width tuning, does up to the first event of negative time; which events a trace holds, and when, is `SimulationLaws.DispatchedWasScheduled`, `UncancelledRuns` and `CancelledNeverRuns` |
| `FiCodec.StoreExtends` | ns2/mac/mac-tdma.cc:1692-1737 | one masked, shifted byte update adds exactly its bits of the value and touches no other bit |
| `FiCodec.SetValue` | ns3/satmac/model/satmac-packet.cc:196-241 | sets exactly the one bits of the value in the bits at the cursor, whatever bytes they span, and advances the cursor past them |
| `FiCodec.FieldSplit` | ns3/satmac/model/satmac-packet.cc:243-321 | a field is its high part shifted by the width of its low part, plus the low part |
| `FiCodec.PieceExact` | ns3/satmac/model/satmac-packet.cc:257-283 | a piece of at most eight bits is read right if and only if it lies in one byte, is a whole byte, or has a zero first part |
| `FiCodec.DecodeExact` | ns3/satmac/model/satmac-packet.cc:243-321 | for every buffer, cursor and length: the decoded value is the field if and only if no nonzero sub-byte head straddles a byte boundary |
| `FiCodec.ReadPiece` | ns3/satmac/model/satmac-packet.cc:285-315 | joins the pieces of up to eight bits to the value read so far and advances the cursor |
| `FiCodec.DecodeValue` | ns2/mac/mac-tdma.cc:1814-1891 | reads exactly the bits at the cursor and advances it past them, yielding the value whose exactness `DecodeExact` settles |
| `FiPackets.PutField` | ns2/mac/mac-tdma.cc:1915-1926 | the sub-byte head and the whole bytes of a value written one after the other make up one field, which holds the low bits of the value |
| `FiPackets.AppendSlot` | ns2/mac/mac-tdma.cc:1931-1950 | the four fields of a slot are carried at their offsets, cut to their widths, and all earlier fields are kept |
| `FiPackets.Encode` | ns2/mac/mac-tdma.cc:1893-1961 | for any sender, logarithm and marks: a packet of the right size carries the low bits of each at its place |
| `FiPackets.DecodeSlot` | ns2/mac/mac-tdma.cc:1202-1223 | reads the four fields of a slot in order and stops at the next slot |
| `FiPackets.Decode` | ns2/mac/mac-tdma.cc:1148-1200 | reads the sender, the length and one mark for each slot of the received frame, or of the own frame if frames are not adjusted |
| `FiPackets.Ns2Aligned` | ns2/mac/mac-tdma.cc:1931-1950 | in the 28-bit layout no sub-byte head straddles a byte boundary, for every slot |
| `FiPackets.Ns2Exact` | ns2/mac/mac-tdma.cc:1148-1223 | whatever carries an FI in the ns-2 layout decodes to it |
| `FiPackets.Ns2RoundTrip` | ns2/mac/mac-tdma.cc:1893-1961 | decoding an encoded ns-2 packet returns the sender and every slot's busy, sti, count and psf, each cut to its width, and unchanged if it fits |
| `FiPackets.StraddledRead` | ns3/satmac/model/satmac-packet.cc:272-282 | a two-bit field across a byte boundary reads 126 too large if and only if its high bit is set |
| `FiPackets.Ns3Layout` | ns3/satmac/model/satmac-packet.cc:130-156 | for every slot: busy straddles exactly at slots 2 modulo 8, count exactly at slots 3 modulo 8, sti never |
| `FiPackets.Ns3Exact` | ns3/satmac/model/satmac-packet.cc:323-345 | what an ns-3 FI decodes to, slot by slot |
| `FiPackets.Ns3RoundTrip` | ns3/satmac/model/satmac-packet.cc:100-168 | encoding and decoding returns a slot cut to its widths if and only if it is not at 2 modulo 8 with busy of at least 2, nor at 3 modulo 8 with count of at least 2 |
| `FiPackets.ClaimsLost` | ns3/satmac/model/tdma-satmac.cc:971-1230 | a one-hop or collision mark at a slot 2 modulo 8 arrives with a value that neither merging pass acts on |
| `SatmacStraddling.ClaimsUnheard` | ns3/satmac/model/tdma-satmac.cc:971-1230 | whatever was sent, no decoded ns-3 FI claims or seizes a slot 2 modulo 8 |
| `SatmacStraddling.ClaimsCannotSilence` | ns3/satmac/model/tdma-satmac.cc:1741-1996 | a node holding such a slot sends if and only if no free mark objects, and always if every received FI was sent with the slot in use |
| `SlotTable.OwnRuleSane` | ns3/satmac/model/tdma-satmac.cc:979-1050 | updating the own slots keeps a tag free exactly when its sti is 0 |
| `SlotTable.OtherRuleSane` | ns3/satmac/model/tdma-satmac.cc:1052-1223 | updating all other slots keeps it too |
| `SlotTable.MergedAt` | ns3/satmac/model/tdma-satmac.cc:971-1230 | what merging makes of each slot, from that slot and its mark alone and whether the sender was known; its meaning is `SlotRenewal.MarkKeeps`, `MarkDisplaces` and `SlotCounting.MarkCounts` |
| `SlotTable.MergeSane` | ns3/satmac/model/tdma-satmac.cc:971-1230 | merging keeps every tag sane and every tag beyond the frame free, and a longer frame is taken over exactly when it has an entry beyond the own |
| `SlotTable.ExpireAllSane` | ns3/satmac/model/tdma-satmac.cc:1279-1326 | expiry keeps the table sane |
| `SlotTable.SynthesizeSane` | ns3/satmac/model/tdma-satmac.cc:1273-1339 | expiring, merging any received FIs and unlocking keep the table sane |
| `SlotLaws.HeldMergeAll` | ns3/satmac/model/tdma-satmac.cc:971-1075 | after merging any FIs none of which marks it as a collision, the own slot is still held, and in collision exactly if it was or one of them objects |
| `SlotLaws.ClaimObjects` | ns3/satmac/model/tdma-satmac.cc:971-1075 | a one-hop claim by another station is an objection, wherever it comes in the order of merging |
| `SlotLaws.NextRules` | ns3/satmac/model/tdma-satmac.cc:979-1223 | what one mark makes of the own slot, by both passes: mine, contested, lost at one or two hops, stuck in collision, or emptied |
| `SlotLaws.FateShows` | ns3/satmac/model/tdma-satmac.cc:971-1230 | after merging any list of FIs, seizing ones included, the slot shows the fate folded from the marks, from which senders the table knows and from the slot's lock |
| `SlotLaws.LostAfterSeizure` | ns3/satmac/model/tdma-satmac.cc:1013-1022 | the slot is lost, and so emptied, only if some FI of the list marks it as a collision under another id |
| `SlotLaws.ClaimedNotMine` | ns3/satmac/model/tdma-satmac.cc:979-1050 | wherever a claim comes in the list, the slot does not end up uncontested |
| `SlotLaws.NoNewOwnSlot` | ns3/satmac/model/tdma-satmac.cc:971-1230 | merging never puts a slot under the node's own id |
| `SlotLaws.ExpireLife` | ns3/satmac/model/tdma-satmac.cc:1279-1326 | each expiry round takes another station's entry one step nearer its end, the demotion to two hops included |
| `SlotLaws.SynthesizeLife` | ns3/satmac/model/tdma-satmac.cc:1273-1339 | a round of expiry and merging takes an entry one step nearer its end unless a mark names its station, or a one-hop neighbour claims the slot while the entry is one-hop; lifetimes stay in bounds |
| `SlotLaws.SilentMerge` | ns3/satmac/model/tdma-satmac.cc:1052-1223 | marks that do not name a station never renew its two-hop entry nor bring it to one hop, whoever claims the slot |
| `SlotLaws.RenewedUnnamed` | ns3/satmac/model/tdma-satmac.cc:1076-1090 | a mark that does not name a station renews its entry if and only if it is a one-hop neighbour's own claim to a one-hop slot |
| `SlotLaws.ConflictRenewsEntry` | ns3/satmac/model/tdma-satmac.cc:1076-1090 | an entry of lifetime 2 that survives two rounds though no FI mentions its station |
| `SlotRenewal.MarkKeeps` | ns3/satmac/model/tdma-satmac.cc:1052-1223 | a mark that does not displace an entry keeps it; the owner's own claim brings it to one hop with the full lifetime; anybody's word renews it or vouches for it |
| `SlotRenewal.MarkDisplaces` | ns3/satmac/model/tdma-satmac.cc:1052-1223 | a mark that displaces it does take it away, or into collision |
| `SlotRenewal.MergeAllKeeps` | ns3/satmac/model/tdma-satmac.cc:971-1230 | merging any list that does not displace it keeps the entry, and renews it if the owner is heard or the station is named anywhere in the list |
| `SlotRenewal.ExpireExactly` | ns3/satmac/model/tdma-satmac.cc:1279-1326 | expiry takes a round off an entry, or demotes it to two hops if somebody else knows the station, or frees the slot, locked unless the entry was at two hops |
| `SlotRenewal.SynthesizeKeeps` | ns3/satmac/model/tdma-satmac.cc:1273-1339 | a round in which the station is named and not displaced leaves its entry fit for the next; if its owner is heard, at one hop with the full lifetime |
| `SlotRenewal.BlankKeeps` | ns3/satmac/model/tdma-satmac.cc:1694-1712 | into a free slot the station is entered with the full lifetime |
| `SlotCounting.FreeCounts` | ns3/satmac/model/tdma-satmac.cc:1199-1223 | a slot that stays free counts exactly the users that all FIs report from three hops away |
| `SlotCounting.OwnCounts` | ns3/satmac/model/tdma-satmac.cc:979-1050 | so does the node's own slot, as long as no FI takes it away |
| `SlotCounting.MarkCounts` | ns3/satmac/model/tdma-satmac.cc:1076-1198 | what a mark adds to an entry's counters: one user, with that user's reports, for each other station, and for the station itself the first time only |
| `SlotCounting.EntryCounts` | ns3/satmac/model/tdma-satmac.cc:1199-1223 | a station that enters a free slot, or takes one as a collision, is its first user |
| `SlotCounting.CountedOnce` | ns3/satmac/model/tdma-satmac.cc:1052-1223 | over any list the station itself is counted once however often it is named, everybody else every time |
| `SlotCounting.LockLastsARound` | ns3/satmac/model/tdma-satmac.cc:1279-1339 | a freed slot stays free for one round, whatever the FIs say, and is open again after it; no free slot of the frame stays locked then |
| `SlotCounting.LockIsNew` | ns3/satmac/model/tdma-satmac.cc:1279-1339 | where no lock ends, a slot that was free is not locked |
| `SlotCounting.FreeMarkObjects` | ns3/satmac/model/tdma-satmac.cc:1041-1049 | an FI that calls the node's slot free objects to it if and only if its sender has a slot in the node's table |
| `SlotMachine.Bch` | ns3/satmac/model/tdma-satmac.cc:794-892 | the chosen slot lies in the frame and is free, or the node's own if that is allowed, and not locked; `FrameLength.BchChoice` says which |
| `SlotMachine.Refresh` | ns3/satmac/model/tdma-satmac.cc:1741-1748 | bringing the table up to date keeps the node's invariant, never shortens the frame and changes nothing but the table and its length |
| `SlotMachine.AdjustRuns` | ns3/satmac/model/tdma-satmac.cc:1836-1875 | moving to another slot, doubling or halving the frame keep the node's invariant |
| `SlotMachine.SendRuns` | ns3/satmac/model/tdma-satmac.cc:1439-1471 | sending an FI and clearing the counters keeps it |
| `FrameLength.FreeCountIs` | ns3/satmac/model/tdma-satmac.cc:1384-1396 | the count of free slots is the size of the set of slots that are free, with or without users three hops away |
| `FrameLength.DoublesIff` | ns3/satmac/model/tdma-satmac.cc:1397-1403 | below the upper bound the frame doubles if and only if at most the threshold of slots are free of users within three hops, or at least nine tenths of it are in use |
| `FrameLength.HalvesIff` | ns3/satmac/model/tdma-satmac.cc:1404-1409 | it is halved if and only if it is above the lower bound and thinly used, more slots than the threshold are free in either sense, and its upper half is free; otherwise it stays |
| `FrameLength.NeededIff` | ns3/satmac/model/tdma-satmac.cc:1345-1372 | another slot is looked for if and only if the slot has too many users three hops away and enough others are free, or the frame could be halved but for it |
| `FrameLength.CandidatesAre` | ns3/satmac/model/tdma-satmac.cc:808-830 | each candidate list holds exactly the slots that may be taken, once each and in order |
| `FrameLength.BchChoice` | ns3/satmac/model/tdma-satmac.cc:832-892 | which set the slot is chosen from: the lower half of a thinly used frame, else quiet slots if there are enough, else any; no slot if and only if that set is empty; the first one where chance is turned off |
| `FrameLength.AnyCanBeDrawn` | ns3/satmac/model/tdma-satmac.cc:832-892 | where it is not, every slot of the set can be drawn |
| `FrameLength.CrowdedDoubles` | ns3/satmac/model/tdma-satmac.cc:1836-1880 | a working node without a slot free of users within three hops sends an FI of twice the length, below the bound |
| `SatmacRuns.StepRuns` | ns3/satmac/model/tdma-satmac.cc:1619-1998 | every slot, in every phase and for every random draw, keeps the node's invariant |
| `SatmacRuns.RunSane` | ns3/satmac/model/tdma-satmac.cc:1619-1998 | over every run from start-up, a tag is free exactly when its sti is 0 and every tag at or beyond the frame length is free |
| `SatmacLaws.SendsIffUnopposed` | ns3/satmac/model/tdma-satmac.cc:1741-1996 | where no FI marks the held slot as a collision under another id, the node sends in it if and only if no received FI objects |
| `SatmacLaws.SendsIff` | ns3/satmac/model/tdma-satmac.cc:1741-1996 | in its own held slot, for every list of received FIs, a node sends if and only if the marks leave the slot uncontested or empty it |
| `SatmacLaws.SilentWhenClaimed` | ns3/satmac/model/tdma-satmac.cc:1741-1996 | without such a mark it sends nothing if any received FI lists another station as one-hop owner, whatever the order of the FIs |
| `SatmacLaws.SilentIffNotEmptied` | ns3/satmac/model/tdma-satmac.cc:1741-1996 | for every list with a claim in it, it stays silent if and only if the marks do not empty the slot in the end |
| `SatmacLaws.SeizureLetsItSend` | ns3/satmac/model/tdma-satmac.cc:1013-1022 | a list after which it sends in spite of such a claim |
| `SatmacLaws.BchFails` | ns3/satmac/model/tdma-satmac.cc:794-892 | no slot is found if and only if no slot of the frame is eligible |
| `SatmacLaws.WanderFaults` | ns3/satmac/model/tdma-satmac.cc:1882-1900 | the re-draw indexes the table with -1 if and only if it is on and due, nobody else is heard and no slot is eligible |
| `SatmacLaws.WorkFaults` | ns3/satmac/model/tdma-satmac.cc:1836-1930 | in the working phase that is the state after adjusting the frame, which sending does not change |
| `SatmacLaws.FaultsIff` | ns3/satmac/model/tdma-satmac.cc:1741-1996 | in the own slot, in any phase, the step faults if and only if the node works with a re-draw on and due, its slot is usable after merging, and the adjusted table has nobody else and no eligible slot |
| `SatmacLaws.RedrawFails` | ns3/satmac/model/tdma-satmac.cc:1882-1900 | a node and received FIs that bring it about |
| `SatmacLaws.RoundAges` | ns3/satmac/model/tdma-satmac.cc:1741-1996 | every round of the node, whatever phase it goes to, takes an entry one step nearer its end unless the FIs received renew it as it stands at that moment |
| `SatmacLaws.RunAges` | ns3/satmac/model/tdma-satmac.cc:1619-1998 | over every run without such a renewal the entry loses one step in each round, and lifetimes stay in bounds over every run |
| `SatmacLaws.RunForgets` | ns3/satmac/model/tdma-satmac.cc:1273-1331 | after as many rounds without such a renewal as the slot lifetime the entry is gone |
| `SatmacLaws.SilentIsQuiet` | ns3/satmac/model/tdma-satmac.cc:1619-1998 | FIs that do not name a station never renew its two-hop entry in any run, and none at all if no sender claims the slot either |
| `SatmacLaws.UnnamedForgotten` | ns3/satmac/model/tdma-satmac.cc:1273-1331 | so after as many rounds as the lifetime a two-hop entry that no FI names is gone, whoever claims the slot |
| `SatmacLaws.ReachedMortal` | ns3/satmac/model/tdma-satmac.cc:1619-1998 | in every reachable state each lifetime is between 0 and the configured one, which `RunForgets` starts from |
| `SatmacRenewal.RoundSpares` | ns3/satmac/model/tdma-satmac.cc:1741-1996 | what a node does after merging leaves the entries of others alone, in every phase, but for a candidate slot that it drops |
| `SatmacRenewal.SwitchDrops` | ns3/satmac/model/tdma-satmac.cc:1931-1960 | with a usable slot the node frees and locks its candidate slot though another station has it; otherwise it leaves it |
| `SatmacRenewal.RoundHolds` | ns3/satmac/model/tdma-satmac.cc:1741-1996 | a round in which a station is named and not displaced keeps its entry, and at one hop with the full lifetime if its owner was heard |
| `SatmacRenewal.RunHolds` | ns3/satmac/model/tdma-satmac.cc:1619-1998 | over every run in which it is so in every own slot, with or without slot memory, the entry stays, whether at one hop, at two hops or demoted on the way, given a lifetime of at least two rounds |
| `SatmacPhases.FadedIff` | ns3/satmac/model/tdma-satmac.cc:1246-1271 | exactly the received FIs with more than one slot to live are left, with one less |
| `SatmacPhases.FadeInOrder` | ns3/satmac/model/tdma-satmac.cc:1246-1271 | and in their order |
| `SatmacPhases.KeptAFrame` | ns3/satmac/model/tdma-satmac.cc:914-969 | a received FI is there in every slot of the frame that follows and in none after |
| `SatmacPhases.OncePerFrame` | ns3/satmac/model/tdma-satmac.cc:1619-1630 | of any frame of slots exactly one is the node's |
| `SatmacPhases.ThresholdLadder` | ns3/satmac/model/tdma-satmac.cc:1411-1426 | the threshold grows by one with each doubling, from 2 in a frame of 16 to 5 |
| `SatmacPhases.NoMemoryForgets` | ns3/satmac/model/tdma-satmac.cc:1741-1748 | without slot memory a station that no FI of the round names is forgotten in that round |
| `SatmacPhases.SendSays` | ns3/satmac/model/tdma-satmac.cc:1439-1471 | an FI says of every slot who has it, how near, and how many users were counted up to three; with it the counters begin anew |
| `SatmacPhases.RetrySteps` | ns3/satmac/model/tdma-satmac.cc:1908-1929 | a node without a slot asks for another one of those open to it, or listens for up to 20 frames if there is none or it draws the slot it is in |
| `SatmacPhases.GiveUpSteps` | ns3/satmac/model/tdma-satmac.cc:1898-1929 | giving up frees and locks the node's own tag, leaves every other tag and steps back so |
| `SatmacOwnership.ListenLaw` | ns3/satmac/model/tdma-satmac.cc:1694-1740 | a listening node counts its back-off down; then it claims the slot it is in and says so, asks for another one, or backs off |
| `SatmacOwnership.WaitLaw` | ns3/satmac/model/tdma-satmac.cc:1741-1775 | a node that has asked for a slot claims it, and its FI says so, if and only if it is usable when it comes round; else it has no slot |
| `SatmacOwnership.RequestLaw` | ns3/satmac/model/tdma-satmac.cc:1776-1835 | a node that has claimed a slot works in it from then on if and only if it is still usable; else it has no slot |
| `SatmacOwnership.AdjustLaw` | ns3/satmac/model/tdma-satmac.cc:1836-1875 | adjusting takes another slot and frees the old one, or claims a candidate, from the slots open to it; or it changes nothing but length and threshold |
| `SatmacOwnership.LoneLaw` | ns3/satmac/model/tdma-satmac.cc:1882-1900 | a working node that hears nobody moves every sixth frame to a slot open to it, freeing and locking its own; hearing somebody restarts the count |
| `SatmacOwnership.SwitchLaw` | ns3/satmac/model/tdma-satmac.cc:1931-1996 | of two usable slots the node keeps the one with fewer users three hops away, the candidate if they are equal, and frees the other |
| `SatmacOwnership.OwnSlotHolds` | ns3/satmac/model/tdma-satmac.cc:1678-1998 | in every phase the node takes no slot for its own but the one it is in, and its candidate, unless it moves twice in one slot |
| `SatmacOwnership.TwoSlots` | ns3/satmac/model/tdma-satmac.cc:1836-1900 | if it does, it takes two slots for its own and is in one of them |
| `SatmacOwnership.RunHoldsOnly` | ns3/satmac/model/tdma-satmac.cc:1619-1998 | over every run without such a double move it takes no other slot for its own |
| `SatmacOwnership.NeverStrays` | ns3/satmac/model/tdma-satmac.cc:1836-1900 | there is none in any run if either kind of move is turned off |
| `SatmacOwnership.OwnSlotsStay` | ns3/satmac/model/tdma-satmac.cc:1279-1326 | the slot a node is in and its candidate do not age |
| `SatmacOwnership.StraySlotGoes` | ns3/satmac/model/tdma-satmac.cc:1279-1326 | a slot it has left behind is gone in the next round |
| `SatmacFrame.AdjustStrands` | ns3/satmac/model/tdma-satmac.cc:1374-1428 | adjusting leaves the slot beyond the frame if and only if it halves it and the slot is in the upper half, and then merging has emptied that slot |
| `SatmacFrame.WorkStrands` | ns3/satmac/model/tdma-satmac.cc:1836-1930 | the working phase does if and only if adjusting does and no re-draw follows, which the halved table decides |
| `SatmacFrame.OwnSlotStrands` | ns3/satmac/model/tdma-satmac.cc:1678-1996 | a step in the own slot, in any phase, does if and only if the node works, the merged table halves the frame around its slot, and no re-draw follows |
| `SatmacFrame.HalvingStrands` | ns3/satmac/model/tdma-satmac.cc:1374-1428 | two received FIs that take the last slot of a frame of four and empty it leave the slot number at the end of the halved frame or beyond |
| `SatmacFrame.VictimIsDoomed` | ns3/satmac/model/tdma-satmac.cc:1374-1428 | there is such a node, with a sane table |
| `SatmacFrame.StrandedIsMute` | ns3/satmac/model/tdma-satmac.cc:1676-1678 | a slot number beyond the frame never comes up: each slot only ages the received FIs and advances the counter |
| `SatmacFrame.MuteForGood` | ns3/satmac/model/tdma-satmac.cc:1619-1998 | so over every further run the node keeps its table, frame and slot number |
| `SatmacFrame.DoomedIsMute` | ns3/satmac/model/tdma-satmac.cc:1619-1998 | no further run brings that node's slot back into the frame |
| `SatmacNode.TdmaSatmac.MergeOwn` | ns3/satmac/model/tdma-satmac.cc:979-1050 | the first loop over the table array is the pass over the own slots |
| `SatmacNode.TdmaSatmac.MergeOther` | ns3/satmac/model/tdma-satmac.cc:1052-1228 | the second loop is the pass over the other slots, of which `SlotRenewal.MarkKeeps` and `SlotCounting.MarkCounts` say what it renews and counts; its "Protocol ERROR" branch is not reached |
| `SatmacNode.TdmaSatmac.MergeFi` | ns3/satmac/model/tdma-satmac.cc:971-1230 | both loops together merge one FI, as `SlotRenewal.MergeAllKeeps` says of a list of them, and keep the table sane |
| `SatmacNode.TdmaSatmac.ExpireSlots` | ns3/satmac/model/tdma-satmac.cc:1279-1326 | every slot of the frame ages once, and a lock from the last frame is noticed |
| `SatmacNode.TdmaSatmac.UnlockSlots` | ns3/satmac/model/tdma-satmac.cc:1333-1339 | frees the locks of empty slots and nothing else |
| `SatmacNode.TdmaSatmac.SynthesizeFiList` | ns3/satmac/model/tdma-satmac.cc:1273-1339 | expiry, merging in list order and unlocking |
| `SatmacNode.TdmaSatmac.RefreshTable` | ns3/satmac/model/tdma-satmac.cc:1741-1748 | the table is brought up to date from memory, or from the received FIs alone |
| `SatmacNode.TdmaSatmac.DetermineBch` | ns3/satmac/model/tdma-satmac.cc:794-892 | the candidate lists built in one scan give the slot chosen among the eligible ones |
| `SatmacNode.TdmaSatmac.AdjustIsNeeded` | ns3/satmac/model/tdma-satmac.cc:1345-1372 | too many third-hop claims with enough free slots, or a sparse frame with the slot in its upper half |
| `SatmacNode.TdmaSatmac.AdjFrameLen` | ns3/satmac/model/tdma-satmac.cc:1374-1428 | doubles a crowded frame, halves a sparse one whose upper half is free, within the bounds, and sets the threshold for the new length; exactly when is `FrameLength.DoublesIff` and `HalvesIff` |
| `SatmacNode.TdmaSatmac.SendFi` | ns3/satmac/model/satmac-packet.cc:130-166 | the FI says what the table said, with counts of at most 3, and the counters are cleared |
| `SatmacNode.TdmaSatmac.FadeReceived` | ns3/satmac/model/tdma-satmac.cc:1246-1271 | each kept FI has one slot less to live, and those without one are dropped |
| `SatmacNode.TdmaSatmac.ListenPhase` | ns3/satmac/model/tdma-satmac.cc:1694-1740 | listens, chooses a slot from a fresh table and claims it, or waits |
| `SatmacNode.TdmaSatmac.WorkPhase` | ns3/satmac/model/tdma-satmac.cc:1836-1930 | adjusts, sends, and moves on if nobody else is heard; it reports the re-draw that finds no slot |
| `SatmacNode.TdmaSatmac.SwitchPhase` | ns3/satmac/model/tdma-satmac.cc:1931-1996 | keeps the better of the two slots it holds, or gives up |
| `SatmacNode.TdmaSatmac.OwnSlot` | ns3/satmac/model/tdma-satmac.cc:1678-1998 | the step of the state machine in the own slot, in every phase, the failing re-draw included |
| `SatmacNode.TdmaSatmac.SlotHandler` | ns3/satmac/model/tdma-satmac.cc:1619-1998 | one slot is one step of the state machine whose runs the laws are about, and fails exactly where that step does |
| `SatmacNode.TdmaSatmac.RecvFi` | ns3/satmac/model/tdma-satmac.cc:914-969 | a received FI is kept for one frame |
| `SatmacNode.TdmaSatmac.constructor` | ns3/satmac/model/tdma-satmac.cc:217-243 | a node starts with a free table, from which every run is covered |
| `SatmacNetwork.AdjustedBounds` | ns3/satmac/model/tdma-satmac.cc:1374-1428 | doubling and halving keep the length a power of two within the bounds |
| `SatmacNetwork.SlotLen` | ns3/satmac/model/tdma-satmac.cc:1619-1998 | a slot of a node keeps its own length and the one it advertises a power of two within the bounds |
| `SatmacNetwork.LengthsStay` | ns3/satmac/model/tdma-satmac.cc:914-938 | over every run of a network with FIs in flight, all lengths and all advertised lengths stay powers of two within the bounds |
| `SatmacNetwork.AdvertisedExactly` | ns3/satmac/model/satmac-packet.cc:126-128 | over every run of a network and for every sender id, the frame length decoded from the header that an FI in flight is encoded with is the length advertised, and the sender decoded is the low bits of the sender's id |
| `Radar.MultipleExact` | real/ath/dfs_pri_detector.c:45-71 | the factor is positive if and only if some positive multiple of the interval lies within the tolerance |
| `RadarTypes.Types` | real/ath/dfs_pattern_detector.c:40-148 | every supported domain has patterns, all of them fit for a detector |
| `RadarTypes.Rounded` | real/ath/dfs_pattern_detector.c:40-52 | PRIs and widths are rounded to the nearest, the widths 5% down and up |
| `RadarTypes.ThresholdLeast` | real/ath/dfs_pattern_detector.c:37-39 | the threshold is the least number of pulses above the given share of all but one |
| `Pools.Pools.Register` | real/ath/dfs_pri_detector.c:87-93 | a new reference holds nothing |
| `Pools.Pools.Deregister` | real/ath/dfs_pri_detector.c:95-117 | when the last reference goes, nothing stays allocated |
| `Pools.Pools.PutPulse` | real/ath/dfs_pri_detector.c:119-125 | one element goes from the detector to the pool and the books balance |
| `Pools.Pools.GetPulse` | real/ath/dfs_pri_detector.c:148-159 | an element comes from the pool, or from memory if the pool is empty; it fails if and only if there is neither |
| `Pools.Pools.PutSeq` | real/ath/dfs_pri_detector.c:127-133 | the same for sequences |
| `Pools.Pools.GetSeq` | real/ath/dfs_pri_detector.c:135-145 | the same for sequences |
| `PriSequences.FirstPair` | real/ath/dfs_pri_detector.c:28-30 | an interval in the PRI range is near the PRI used for it, and within the duration for at least two pulses per burst |
| `PriSequences.OnePulsePerBurst` | real/ath/dfs_pri_detector.c:249-252 | with one pulse per burst the pair outlasts the duration |
| `PriSequences.DeltaAliases` | real/ath/dfs_pri_detector.c:234 | the 32-bit interval does not tell pulses 2^32 microseconds apart |
| `PriSequences.MemberBelongs` | real/ath/dfs_pri_detector.c:254-279 | a pulse counted for a new sequence is a queued pulse in the window, near a multiple of the PRI |
| `PriSequences.MembersComplete` | real/ath/dfs_pri_detector.c:254-279 | every such pulse is counted |
| `PriSequences.MembersEnd` | real/ath/dfs_pri_detector.c:256-262 | stopping at the first pulse below the window, which wraps around below zero, loses none |
| `PriSequences.CandidateFollows` | real/ath/dfs_pri_detector.c:225-285 | a new sequence is borne out by its pulses: as many as it counts, distinct, near multiples of its PRI from the founding pulse, within its duration |
| `PriSequences.Build` | real/ath/dfs_pri_detector.c:244-285 | the inner loop computes that sequence, falses being the queued strangers later than its oldest member |
| `PriSequences.CreatedEnd` | real/ath/dfs_pri_detector.c:236-242 | where no queued pulse is 2^32 microseconds old, there are no candidates after the first interval above the PRI range |
| `PriSequences.NoCandidateLost` | real/ath/dfs_pri_detector.c:236-242 | so stopping there loses no candidate |
| `PriSequences.CandidateAliased` | real/ath/dfs_pri_detector.c:234-285 | a new sequence over 2^32 microseconds or more has two pulses, is overdue at once, and is a detection if and only if the threshold is at most 2 |
| `PriSequences.AliasedNotBacked` | real/ath/dfs_pri_detector.c:234-285 | no pulses bear it out where a burst has two pulses or more |
| `PriSequences.ExtendedFollows` | real/ath/dfs_pri_detector.c:303-334 | a pulse that makes a sequence longer keeps it borne out, its anchor being the last pulse, within the same duration |
| `PriSequences.ExtendedBacked` | real/ath/dfs_pri_detector.c:303-334 | a pulse that a sequence lives to see is in it or counted as false: its falses stay exactly the accepted pulses since its founding that are not in it and the strangers that were queued then, later than its oldest member |
| `PriSequences.CandidateMissed` | real/ath/dfs_pri_detector.c:254-279 | the falses of a new sequence are exactly the queued pulses it has passed over |
| `PriSequences.EarlyPair` | real/ath/dfs_pri_detector.c:256 | before a duration has passed since time 0 the window wraps around, and a new sequence has its two founding pulses only |
| `PriSequences.ExtendAllBacked` | real/ath/dfs_pri_detector.c:303-334 | every sequence that lives to see another pulse is borne out by accepted pulses |
| `PriSequences.CreatedFounded` | real/ath/dfs_pri_detector.c:225-301 | all new sequences are borne out by accepted pulses, but for pairs 2^32 microseconds or more apart |
| `PriSequences.FoundedByTwo` | real/ath/dfs_pri_detector.c:244-248 | a sequence takes at least two accepted pulses |
| `PriSequences.ThreeAreBacked` | real/ath/dfs_pri_detector.c:336-355 | a detection that takes three pulses is borne out by them, however far apart the pulses come |
| `PriSequences.CheckDetection` | real/ath/dfs_pri_detector.c:336-355 | the first sequence with at least the threshold of pulses and at most `num_pri` times as many falses as pulses; none if and only if every sequence fails one of the two inequalities |
| `PriSequences.RecentExact` | real/ath/dfs_pri_detector.c:181-200 | dropping old pulses from the tail keeps exactly those within the window |
| `PriSequences.EnqueuedOk` | real/ath/dfs_pri_detector.c:202-223 | the queue stays descending with gaps of at least the tolerance, shorter than its limit and within the window of its newest pulse |
| `PriSequences.EnqueuedExactly` | real/ath/dfs_pri_detector.c:202-223 | the queue keeps exactly the newest pulses that lie in the window, up to the limit |
| `PriDetector.Detector.constructor` | real/ath/dfs_pri_detector.c:418-437 | a detector starts empty, with a pool reference of its own |
| `PriDetector.Detector.Dequeue` | real/ath/dfs_pri_detector.c:169-179 | the oldest pulse goes back to the pool |
| `PriDetector.Detector.CheckWindow` | real/ath/dfs_pri_detector.c:181-200 | the pulses older than the window go back to the pool, no others |
| `PriDetector.Detector.Enqueue` | real/ath/dfs_pri_detector.c:202-223 | the pulse comes to the front of the queue, which is then cut to window and limit; without memory nothing changes |
| `PriDetector.Detector.Extend` | real/ath/dfs_pri_detector.c:303-334 | each sequence is dropped, made longer or given a false pulse, and the count of the longest that grew is returned |
| `PriDetector.Detector.Create` | real/ath/dfs_pri_detector.c:225-301 | all candidates up to the first interval above the PRI range that outnumber the longest extended sequence are added, none else, unless memory runs out |
| `PriDetector.Detector.Reset` | real/ath/dfs_pri_detector.c:359-373 | all elements go back to the pools |
| `PriDetector.Detector.Exit` | real/ath/dfs_pri_detector.c:375-380 | all elements go back and the reference is dropped |
| `PriDetector.Detector.TakeUp` | real/ath/dfs_pri_detector.c:401-416 | queue and sequences advance as specified or, when memory runs out, are emptied |
| `PriDetector.Detector.AddPulse` | real/ath/dfs_pri_detector.c:382-416 | for every pulse, however late: a reported sequence has at least the threshold of pulses and at most `num_pri` times as many falses, all of them accepted pulses that bear it out unless it is a pair 2^32 microseconds or more apart; without a report every sequence fails one of the two inequalities; a pulse outside the filters changes nothing; accounts of other detectors stand |
| `PriDetector.AcceptedIff` | real/ath/dfs_pri_detector.c:392-400 | while time goes on, the filters pass a pulse if and only if its width fits, it is at least the tolerance after the last one, and it has the chirp the pattern asks for |
| `PriDetector.LongestIs` | real/ath/dfs_pri_detector.c:303-334 | the count returned is the largest of a sequence that the pulse made longer, or 0 |
| `PriDetector.CreatedExactly` | real/ath/dfs_pri_detector.c:225-301 | the sequences created are exactly those founded at an interval in range with more pulses than that |
| `RadarBursts.FirstPulse` | real/ath/dfs_pri_detector.c:382-416 | after a quiet time the first pulse of a train is queued alone |
| `RadarBursts.SecondPulse` | real/ath/dfs_pri_detector.c:225-301 | the second founds a sequence of the two |
| `RadarBursts.NextPulse` | real/ath/dfs_pri_detector.c:303-334 | each further one makes that sequence longer by one, without a false pulse |
| `RadarBursts.Burst` | real/ath/dfs_pri_detector.c:382-416 | completeness: of every train of in-shape pulses as long as the threshold, at intervals near multiples of one PRI in range and within its duration, coming after a quiet time, some pulse is reported |
| `RadarBursts.SteadyIsTrain` | real/ath/dfs_pri_detector.c:244-252 | pulses at any one interval in the range are such a train, for every pattern whose threshold fits its duration |
| `RadarBursts.PatternsComfortable` | real/ath/dfs_pattern_detector.c:40-148 | every pattern of every domain is one |
| `PatternDetector.ResetAll` | real/ath/dfs_pattern_detector.c:166-175 | all detectors are emptied and given the time passed on, and no other account changes |
| `PatternDetector.ExitFirst` | real/ath/dfs_pattern_detector.c:178-192 | the first detectors of the list drop their references, the rest stay in order, and no other account changes |
| `PatternDetector.MakeDetectors` | real/ath/dfs_pattern_detector.c:194-219 | one empty detector for each pattern, with accounts of their own, and no other account changes |
| `PatternDetector.Feed` | real/ath/dfs_pattern_detector.c:293-304 | a detection stands on pulses the detector accepted, and empties it; the pulse would not be accepted again; no account outside the crew changes |
| `PatternDetector.FalseAlarm` | real/ath/dfs_pattern_detector.c:103-120 | two pulses 2^32 microseconds and a PRI apart are a detection of the eighth Japanese pattern that no pulses bear out |
| `PatternDetector.LowThresholds` | real/ath/dfs_pattern_detector.c:53-120 | of all patterns exactly the eighth of FCC and of Japan have a threshold of at most 2 |
| `PatternDetector.PatternDetector.CreateChannel` | real/ath/dfs_pattern_detector.c:194-226 | a channel of empty detectors is put first, or, without memory for all of them, those already made are let go and every account is as before |
| `PatternDetector.PatternDetector.GetChannel` | real/ath/dfs_pattern_detector.c:237-246 | the channel of that frequency, made and put first if and only if there was none and there is memory; no account of another pattern detector changes |
| `PatternDetector.PatternDetector.NoteTime` | real/ath/dfs_pattern_detector.c:287-290 | if time has jumped back all channels are emptied, with the old time as their last; either way no queued pulse is ahead of the new time, and no other account changes |
| `PatternDetector.PatternDetector.Match` | real/ath/dfs_pattern_detector.c:292-307 | the first detection of the channel, or every detector of it has dealt with the pulse; no other account changes |
| `PatternDetector.PatternDetector.AddPulse` | real/ath/dfs_pattern_detector.c:270-307 | every queue law and every account holds after any pulse, wraparound and lack of memory included, and no other account changes; a detection stands on pulses accepted in that channel and never follows a wraparound or a new channel at once |
| `PatternDetector.PatternDetector.SetDomain` | real/ath/dfs_pattern_detector.c:315-339 | changing to a supported domain lets all channels go with their accounts; an unsupported one leaves them and unsets the region; no other account changes |
| `PatternDetector.PatternDetector.ExitChannels` | real/ath/dfs_pattern_detector.c:261-268 | every detector's reference is dropped, and no other account changes |
| `DfsSystem.BooksAreTrue` | real/ath/dfs_pri_detector.c:82-159 | if distinct detectors hold all live accounts, the pools' use counts are the sums of the lengths of their queues and sequence lists, and what was allocated is that plus the pools |
| `DfsSystem.Dfs.Handle` | real/ath/dfs_pattern_detector.c:261-339 | any call on any of several pattern detectors on the same pools keeps all of them in order, and the live accounts those of their detectors |
| `DfsSystem.Dfs.Open` | real/ath/dfs_pattern_detector.c:349-373 | a new pattern detector without channels joins the others, which keep their detectors, or the list is as before if its domain cannot be set; all stay in order |
| `DfsSystem.Dfs.Close` | real/ath/dfs_pattern_detector.c:261-268 | one goes, the others stay in order, and when the last one goes no reference and no element is left |
| `DfsSystem.Dfs.Shutdown` | real/ath/dfs_pattern_detector.c:261-268 | letting all of them go, in whatever state, leaves no reference and no element |
| `DfsSystem.Run` | real/ath/dfs_pri_detector.c:82-159 | over every sequence of openings, calls and closings from nothing, the global counters are the sums over the real queues and lists, and nothing is left once all are closed |
| `DfsSystem.Dfs.CountersAreSums` | real/ath/dfs_pri_detector.c:82-85 | at any time between calls the global counters are the sums over the real queues and lists of all detectors |
| `KeyCache.PutKeeps` | real/ath/key.c:549-578 | giving a free group to a key keeps the groups of live keys apart and off the reserved slots, and the bitmaps exact |
| `KeyCache.DropKeeps` | real/ath/key.c:584-608 | taking a live key away does too |
| `KeyCache.RoundTrip` | real/ath/key.c:549-608 | deletion clears exactly what configuration set, in all three bitmaps |
| `KeyCache.PutIs` | real/ath/key.c:561-575 | which bits a key takes in each map, by its distance from the index: 0; for TKIP also 64, and 32 and 96 if MIC entries are split |
| `KeyCache.StaticStays` | real/ath/key.c:586-588 | a static key that is deleted leaves its slot marked |
| `KeyAllocator.Cache.ReserveTkip` | real/ath/key.c:386-403 | the least slot with all parts of a TKIP key free, or none if and only if there is none; bits read beyond the key map come from the next one |
| `KeyAllocator.Cache.ReservePartial` | real/ath/key.c:414-446 | a free slot whose TKIP group is partly used, or all groups are wholly used or wholly free |
| `KeyAllocator.Cache.ReserveAny` | real/ath/key.c:448-468 | the least free slot that is not reserved, or none if and only if there is none |
| `KeyAllocator.Cache.ReserveOther` | real/ath/key.c:405-468 | a partly used group is preferred, and none is found only if every unreserved slot is taken |
| `KeyAllocator.Cache.Mark` | real/ath/key.c:561-575 | sets the bits of the key's group and no others |
| `KeyAllocator.Cache.Unmark` | real/ath/key.c:590-607 | clears the bits of the key's group and no others |
| `KeyAllocator.Cache.Choose` | real/ath/key.c:504-547 | which keys are static, refused or not supported, and that any other gets a slot the search may yield |
| `KeyAllocator.TakesIff` | real/ath/key.c:123-327 | what the hardware takes: a known cipher within the cache, WEP of at least 40 bits, CCMP where supported, TKIP with room for its MIC entries |
| `KeyAllocator.ReservedIff` | real/ath/key.c:448-468 | the reserved slots are those that TKIP keys at the four static indices would take |
| `KeyAllocator.UniformIff` | real/ath/key.c:414-446 | a group is partly used if and only if two of its slots differ |
| `KeyAllocator.Cache.Config` | real/ath/key.c:473-578 | over every run live groups stay disjoint and off the reserved slots; which keys go to their own index, which get a slot, and exactly when there is no space, no support or a hardware error; failure changes nothing; a split-MIC key never gets a slot of 32 or more |
| `KeyAllocator.Cache.Delete` | real/ath/key.c:584-608 | a live key's group is cleared and no other bit changes |
| `Ordering.NeighboursAscend` | ns2/patch/mac/channel.cc:483-503 | neighbours in order make the whole list ascend |
| `Ordering.InversionsSwapped` | ns2/patch/mac/channel.cc:455-478 | a swap of neighbours out of order takes away exactly one inversion |
| `NodeList.Channel.Add` | ns2/patch/mac/channel.cc:399-417 | the node is linked in at the end, in both directions |
| `NodeList.Channel.Remove` | ns2/patch/mac/channel.cc:419-441 | the node is taken out if and only if it is in the list and not its last |
| `NodeList.Channel.Relink` | ns2/patch/mac/channel.cc:459-475 | the links of the two nodes and their outer neighbours change, and no others |
| `NodeList.Channel.SwapNext` | ns2/patch/mac/channel.cc:459-475 | the two nodes change places and the list is linked in both directions |
| `NodeList.Channel.Pass` | ns2/patch/mac/channel.cc:452-480 | a pass takes away inversions, or finds the list sorted and leaves it, though it skips a node after each swap |
| `NodeList.Channel.SortLists` | ns2/patch/mac/channel.cc:443-481 | it ends, with a sorted permutation in consistent double links |
| `NodeList.Channel.IsListSorted` | ns2/patch/mac/channel.cc:483-503 | true if and only if the list is sorted and not empty |
| `NodeList.Channel.UpdateNodesList` | ns2/patch/mac/channel.cc:505-588 | the list ends up sorted, unchanged if it was, and the relinking statements are not reached |
| `NodeList.Channel.SearchLeft` | ns2/patch/mac/channel.cc:628-640 | stopping at the window's left edge loses no node of the left part |
| `NodeList.Channel.SearchRight` | ns2/patch/mac/channel.cc:641-652 | stopping at its right edge loses no node of the right part |
| `NodeList.Channel.GetAffectedNodes` | ns2/patch/mac/channel.cc:591-660 | each node once, exactly those within radius and stale window; exactly those within the radius, as a full scan gives, if the sender has not moved in the plane |
| `Geometry.InSquare` | ns2/patch/mac/channel.cc:605-640 | whatever is within the radius is within the square window |
| `Geometry.WithinOnAxis` | ns2/patch/mac/channel.cc:628-652 | along each axis, within the radius is within that distance |
| `Geometry.WindowExact` | ns2/patch/mac/channel.cc:605-621 | the window misses no node, wherever the nodes are, if and only if the sender kept its x and y |
| `Geometry.MissedNode` | ns2/patch/mac/channel.cc:605-621 | a node within the radius that a search around a stale position misses |
| `ReceptionLaws.HeardLatest` | ns2/mac/mac-tdma.cc:779-976 | the timer runs exactly while the receiver is occupied, until the latest end of the frames since idle that were not captured |
| `ReceptionLaws.FateOfArrival` | ns2/mac/mac-tdma.cc:779-826 | a frame heard while the receiver is occupied is captured if and only if the current frame's power is at least its threshold times its power, and collides otherwise; deaf and begun likewise exactly |
| `ReceptionLaws.HeardAlone` | ns2/mac/mac-tdma.cc:779-976 | the receiver is in MAC_RECV exactly while everything since the frame began was not heard, or was captured with a threshold times its power of at most the power of the frame |
| `ReceptionLaws.ReceivedClear` | ns2/mac/mac-tdma.cc:2943-2998 | a frame received to its end was overlapped only by captured frames and frames not heard |
| `ReceptionLaws.FiredSound` | ns2/mac/mac-tdma.cc:2943-2998 | the frame is delivered if and only if it is addressed to the node and nothing collided with it |
| `ReceptionLaws.StepSound` | ns2/mac/mac-tdma.cc:779-976 | every event keeps all receiver laws |
| `ReceptionLaws.ReachedSound` | ns2/mac/mac-tdma.cc:779-826 | they hold in every reachable state, MAC_BUSY is never reached, and every delivery so far was clear |
| `ReceptionLaws.HeardJudged` | ns2/mac/mac-tdma.cc:779-976 | the frame that decides is the one that ends last of those not captured and is not over yet |
| `ReceptionLaws.ReachedJudged` | ns2/mac/mac-tdma.cc:779-976 | over every run the log alone accounts for every fate, by powers and ends on the air, and exactly the frames for the node that nothing disturbed were delivered |
| `ReceptionLaws.ForgottenCapture` | ns2/mac/mac-tdma.cc:813-823 | a delivered frame that a stronger one overlaps, which an earlier frame had captured |
| `ReceptionLaws.OutdoesIff` | ns2/mac/mac-tdma.cc:779-826 | for every delivery of every run: the frame outdoes all audible frames it overlaps if and only if it outdoes the captured ones still on the air when it began |
| `ReceptionLaws.StepBrief` | ns2/mac/mac-tdma.cc:804-824 | while no captured frame outlasts the timer it was captured under, none is on the air when the next frame begins |
| `ReceptionLaws.AllOutdo` | ns2/mac/mac-tdma.cc:779-826 | so in every run in which none does, every delivered frame outdoes all audible frames it overlaps |
| `Receiver.Timer.Begin` | ns2/mac/mac-tdma.cc:93-109 | the timer is due after the given time |
| `Receiver.Timer.Stop` | ns2/mac/mac-tdma.cc:129-144 | the timer is no longer due |
| `Receiver.Mac.SendUp` | ns2/mac/mac-tdma.cc:779-826 | an arriving frame is one step of the receiver machine, whose outcome `ReceptionLaws.FateOfArrival` gives in powers and thresholds, and the timer's assertions hold |
| `Receiver.Mac.Collision` | ns2/mac/mac-tdma.cc:915-976 | the longer of the colliding frames is waited for, and the branches for other states are not reached |
| `Receiver.Mac.Handle` | ns2/mac/mac-tdma.cc:185-193 | the end of the timer is one step of the machine, passing up the frame exactly when it is delivered |

## Left out

- CalendarScheduler.Calendar.Resize: the running averages that tune the width, with their square root, are left open as `Tuning`.
- CalendarScheduler.Calendar.Add: what the source's calendar does once an event of negative time has been scheduled is not modelled; `Simulation.Run` stops its calendar there.
- RadarBursts.Burst: for one detector and with memory for a full queue; another detector of the channel may report first.
- HeapScheduler.Heap.Add: s_key and uid_ grow without bound, so the 2^31 and 2^63 limits of the source's counters are not modelled.
- Simulation.Run: handlers are not modelled; what they schedule and cancel is the sequence of operations.
- FiPackets.Encode: fields are natural numbers; the ns-3 code cuts a count to 3 before (`SlotMachine.MarkOf`).
- SlotMachine.Refresh: the over-read of one tag before the length test in merge_fi is left out, as its value is never used.
- SatmacNode.TdmaSatmac.DetermineBch: the candidate lists are not limited to the 256 entries of the source's arrays.
- SatmacNode.TdmaSatmac.AdjFrameLen: ratios are exact, where the source compares floating-point quotients.
- SatmacNode.TdmaSatmac.SlotHandler: random draws are parameters; test mode, counters and logging are left out, and so is the assertion that `SatmacFrame` is about.
- SatmacNode.TdmaSatmac.RecvFi: requires an advertised length of at most the 512 entries of the table, beyond which the source writes past its end.
- PriDetector.Detector.AddPulse: requires time stamps that do not go back, as its caller sees to; allocation failure is a number of elements that can still be allocated.
- PatternDetector.PatternDetector.CreateChannel: lack of memory for the array of detectors, whose clean-up the source cannot survive, is not modelled.
- KeyAllocator.Cache.Config: a key index is 0 to 3, as in IEEE 802.11; register writes are left out but for their success, and the cache has 128 entries.
- NodeList.Channel.GetAffectedNodes: distances are compared squared and exactly; `update_position`, which is not in the repository, is a map of new positions.
- NodeList.Channel.UpdateNodesList: for nodes of the list only.
- Reception.Heard: frames have positive power, so that the quotient of powers is defined; `recv` clears the error flag, so no frame has it.
- Linked lists other than the node list are sequences: the scheduler's lists and buckets, the received FIs, the pulse queues and the pools, whose elements are only counted. Aliasing of their links is not captured.
- Real numbers stand for floating-point times, widths and powers.
- Tcl bindings, tracing, logging, simulation scripts, net devices, MacLow, OcbWifiMac and queues are left out: they hold no state that the laws are about.
- The lower MAC of the ns-2 code other than codec and receiver, and `ns2/adhoc-mac`, repeat what is modelled for ns-3 or are simpler forms of it.
- Regulatory tables (`real/ath/regd*`) are plain look-ups.
