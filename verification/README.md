# A verified model of the CALICE AHCAL data acquisition

The acquisition has three layers, and this project models all three in Dafny:

1. **AHCAL reader** (`ScReader`). A byte stream is cut into LDA packets; ASIC packets and time
   stamps are filed by readout cycle (ROC); counters that arrive shortened are extended; a bounded
   buffer lets packets of different cycles arrive out of order; and events are built in one of four
   modes.
2. **BIF producer**. A resumable parser of 64-bit words follows the shutter and the triggers, numbers
   the readout cycles against a 12-bit hardware counter, fills gaps, and builds events in one of three
   modes.
3. **Data collectors**. Events of independent producers are merged as they arrive: by overlapping
   times, by times and telescope trigger number, by (ROC, BXID), by matching hodoscopes, or by
   trigger number.

## How it is organised

For each component there is a specification on values (what one packet, word or event does to the
state), lemmas about whole runs of it, and a class with the fields of the source whose methods are
proved to do what the specification says. The modules `...Meaning`, `...Contents`, `StampPackets`,
`FullCells`, `BxidWindows`, `BifCounts`, `TelNumbers` and `TrigidLoss` say what results mean in terms of
bytes, words, tags, times and numbers, written out independently of how the specification gets there.

| part | specification and properties | class |
|---|---|---|
| counters, Gray code, integer division, ordered map, sequences | `Counters`, `GrayCode`, `CppDivision`, `OrderedMap`, `Sequences` | methods in the same files |
| LDA packets, ASIC packets, time stamps | `LdaStream`, `AsicPacket`, `AsicMeaning`, `LdaTimestamps`, `StampPackets`, `TimeMeaning` | `ScReader.dfy` |
| building modes | `EventBuilding` (ROC, TRIGGERID, reordering), `GapMeaning`, `ValidatedBuilding`, `ValidatedSteps`, `BxidBuilding` | `ScReader.dfy` |
| validated mode over a run | `ValidatedVisits`, `ValidatedRuns`, `ValidatedEvents`, `ValidatedContents` | |
| reader as a whole | `ScReading`, `ReadArrivals`, `SentData`, `FullCells`, `RocReading`, `TrigidReading`, `ValidatedReading`, `BxidReading`, `TimesReading` | `ScReader.dfy` |
| what events hold in the other modes | `LeftCycles`, `RocContents`, `TrigidContents`, `BxidWindows` | |
| BIF producer | `BifProcessing`, `BifProperties`, `BifRecords`, `BifGroups`, `BifMeaning`, `BifCounts`, `BifSending` | `BifProducer.dfy` |
| timestamp collector | `TsMerging`, `TsOverlaps` | `TsCollector.dfy` |
| telescope collector | `TelMerging`, `TelNumbers` | `TelCollector.dfy` |
| BXID collector | `BxidMerging`, `BxidJoin`, `BxidMeaning` | `BxidCollector.dfy` |
| hodoscope collector | `HodoscopeJoin`, `HodoscopeMeaning` | `HodoscopeCollector.dfy` |
| trigger number collector | `TrigidSync`, `TrigidLoss` | `TrigidSyncCollector.dfy` |

Machine integers are written out: 8-, 16-, 32- and 64-bit wrap-around, narrowing casts and division
toward zero appear as explicit arithmetic. Configuration values are constructor parameters. A
`std::map` is a sorted sequence of entries (a Dafny map in the trigger number collector, where the
order does not matter), a `std::deque` a sequence.

## Where the code differs from what one would expect

Each of these is part of the model. The lemma named with it says what happens; where the name is
followed by "exact", it also proves exactly when:

- A cycle step is narrowed to 8 bits before the jump check, so steps from 128 on are not reset
  (`ScReading.CycleRecovered`, exact).
- A dropped memory cell does not consume its channel words; the packet is decoded right only if the
  dropped cells come last (`AsicPacket.RoundTripExactly`, exact).
- A time of 0 means "not received" and can break the time accounting (`LdaTimestamps.AccountedExactly`,
  exact; `LdaTimestamps.ZeroTimeUnbalanced` is an instance).
- In validated mode a crossing behind the first full memory cell costs one of its triggers
  (`ValidatedBuilding.OneSkippedPerCrossing`, exact), and a packet for a cycle at or below a visited one
  is handled apart, out of order (`ValidatedRuns.VisitsExact`, exact).
- In BUILD_BXID_ALL mode the time data of a cycle is erased before it would be attached, so its tags
  and block are never added. This has no lemma: it shows in the shape of `CrossingEvent`, which has a
  time window and blocks only.
- Internal BIF triggers keep 32 bits of their time (`BifRecords.InternalTime`, exact); BXID events
  repeat triggers (`BifRecords.BxidPayload`, exact).
- The timestamp merge does not end when the smaller end of the front events is not above their smaller
  begin (`TsMerging.ConsumesExactly`, exact; `TsMerging.StuckForever`), and can miss overlaps
  (`TsOverlaps.OverlapsMeet`, exact; `TsOverlaps.OverlapMissed` is an instance). Its check for the first
  event looks at the AHCAL event twice and never at the BIF event.
- The BXID merge does not end without an active detector (`BxidMerging.NeverHalts`).
- The telescope merge drops a BIF event that it takes alone (`TelMerging.LostAlone`, exact). Behind an
  event without length it takes no more BIF or AHCAL events; then it either never ends or sends the
  telescope events that wait (`TelMerging.LoopsExactly`, exact), and can write a BIF event without the
  telescope event of its number (`TelMerging.LoneBifUnmatched`; `TelMerging.TriggerFromCal` says
  exactly which written events have no AHCAL event).
- The trigger number merge writes at most one event for each event received, and stalls on an empty
  queue (`TrigidSync.StallsExactly`, exact). It loses what waits when a producer connects again, at a
  reset, and at a disconnection (`TrigidLoss.LossExactly`, exact).
- A crossing 0 for the first full memory cell 16 counts as none seen yet, so the limit is that of the
  cells after it (`FullCells.LimitOfNotes`, exact).
- Crossing 0 of a trigger is twice as wide as the others, because division rounds toward zero
  (`ValidatedBuilding.TriggerBxidExact` and `BifMeaning.BifBxidExact`, exact).
- A BIF counter that repeats the one of the last, closed cycle counts as 4096 cycles later, with 4095
  built in between (`BifCounts.Arrival` and `BifCounts.ArrivalBuilds`, exact); repeating the counter of
  the open first cycle starts the run anew (`BifCounts.OnFirst`, exact).
- The first trigger number of a run is noticed only if it does not continue the sequence, so a first
  number of 0 is not (`BifMeaning.FirstNumberIs`, exact).

## Model

| member | source | states |
|---|---|---|
| Counters.UpdateCntModulo | user/calice/AHCAL/module/src/ScReader.cc:1639-1647 | The result is the only number congruent to the short counter in the window of 2^bits numbers that starts `maxBack` below the old counter. |
| Counters.ReconstructCongruent | user/calice/AHCAL/module/src/ScReader.cc:1639-1647 | The reconstructed number lies in that window and has the received residue, also for negative counters. |
| Counters.ReconstructUnique | user/calice/AHCAL/module/src/ScReader.cc:1639-1647 | No other number of the window has the residue. |
| Counters.RunRecovered | user/calice/AHCAL/module/src/ScReader.cc:1639-1647 | A whole sequence of true counters is recovered from their short forms if and only if every step stays in the window. |
| GrayCode.GrayRecode | user/calice/AHCAL/module/src/ScReader.cc:1656-1669 | Recodes step by step to the specified bits: the partial decoding of the ASIC is undone and finished. |
| GrayCode.BxidRecovered | user/calice/AHCAL/module/src/ScReader.cc:1656-1669 | The word sent for a bunch crossing (Gray code, partially decoded by the readout) comes back as that crossing, for all 16-bit values. |
| GrayCode.PartiallyDecodedMeaning | user/calice/AHCAL/module/src/ScReader.cc:1656-1669 | A word is the one sent for a crossing if and only if its bits 12-15 are those of the Gray code of the crossing and the Gray code of its bits 0-11 is bits 0-11 of that code: so the partial decoding is determined. |
| AsicPacket.RoundTrip | user/calice/AHCAL/module/src/ScReader.cc:1196-1306 | For any number of memory cells, decoding a packet of 12+146*N payload bytes gives one block per accepted cell, with crossing, cell number, chip number and the 36 TDC and ADC words in reversed channel order, if no accepted cell follows a dropped one. |
| AsicPacket.RoundTripExactly | user/calice/AHCAL/module/src/ScReader.cc:1271-1306 | That condition is exact: packets with given identifiers are decoded right whatever their channels hold if and only if the dropped cells form a suffix of the readout order. |
| AsicPacket.InSequenceSuffices | user/calice/AHCAL/module/src/ScReader.cc:1234-1274 | Identifiers that never grow in readout order (what the reader itself expects) make the dropped cells a suffix. |
| AsicPacket.EncodeLayout | user/calice/AHCAL/module/src/ScReader.cc:1196-1306 | Header, channel words, identifiers and tail stand where the reader looks for them. |
| AsicMeaning.ExpectedExactly | user/calice/AHCAL/module/src/ScReader.cc:1234-1306 | The blocks of a packet are those of the memory cells whose crossing is not below the minimum, each with its cycle, crossing, cell number, chip and channel words. |
| AsicMeaning.ExpectedOrder | user/calice/AHCAL/module/src/ScReader.cc:1234 | They come from the last memory cell to the first. |
| AsicMeaning.ChipRecovered | user/calice/AHCAL/module/src/ScReader.cc:1219-1229 | When the bits kept of the ASIC number leave room below the bit of the DIF number, the DIF number is the quotient of the chip number, and the ASIC number is its remainder, up to the bits kept and the two offsets. |
| AsicMeaning.ChipAlone | user/calice/AHCAL/module/src/ScReader.cc:1219-1229 | Without the DIF number the chip number is that of the ASIC, up to the bits kept and the two offsets. |
| LdaStream.NextStable | user/calice/AHCAL/module/src/ScReader.cc:301-408 | A decision about the front of the buffer, once taken, does not change with the bytes that follow. |
| LdaStream.ScanSplit | user/calice/AHCAL/module/src/ScReader.cc:155-427 | Scanning a part, then the left-over with the rest, is scanning all at once. |
| LdaStream.ChunkingIrrelevant | user/calice/AHCAL/module/src/ScReader.cc:155-427 | However a stream is cut into reads, the same frames come out in the same order, up to the first section of another kind if there is one. |
| LdaStream.LeftoverNeedsMore | user/calice/AHCAL/module/src/ScReader.cc:301-342 | What is left in the buffer holds no further frame. |
| LdaStream.ScanPackets | user/calice/AHCAL/module/src/ScReader.cc:292-408 | A stream of whole packets is cut at the packet boundaries and leaves nothing over. |
| LdaStream.PacketWhole | user/calice/AHCAL/module/src/ScReader.cc:334-402 | The packets that front ends send are recognised whole, as ASIC data. |
| StampPackets.KindsExactly | user/calice/AHCAL/module/src/ScReader.cc:334-402 | Which complete packets are taken as ASIC data, which as time stamps and which are passed over, exactly: by length, status byte and the four bytes after the header. |
| StampPackets.StampReadBack | user/calice/AHCAL/module/src/ScReader.cc:1309-1317 | The 26 bytes that the LDA sends for a kind, a cycle, a raw number and a time below 2^48, written out one by one, are recognised as a whole time stamp packet and read back as exactly these four values, whatever the other bytes. |
| StampPackets.StampsOnly | user/calice/AHCAL/module/src/ScReader.cc:1309-1317 | And every packet taken as a time stamp is one of these. |
| LdaTimestamps.AccountedExactly | user/calice/AHCAL/module/src/ScReader.cc:1381-1474 | After every packet of a run of starts, stops and triggers in any order the statistics add up (on-time plus off-time is last minus first time mod 2^64, both are the sums of their recorded lengths, the histogram counts the cycles, and its triggers with those of the open cycle are the triggers inside cycles) if and only if the effective starts and stops fit: a non-zero time follows a non-zero time or is that of a start with only zeros before, and no cycle that started at time 0 and was stopped saw an accepted trigger. |
| LdaTimestamps.ReachableAccounted | user/calice/AHCAL/module/src/ScReader.cc:1381-1427 | In particular they add up if no effective start or stop has time 0, whatever the times of other packets. |
| LdaTimestamps.ZeroTimeUnbalanced | user/calice/AHCAL/module/src/ScReader.cc:1388-1420 | An instance of the other side: a start at time 0 and a stop at another time. |
| LdaTimestamps.TriggerIdExtension | user/calice/AHCAL/module/src/ScReader.cc:1429-1467 | Over any run the 32-bit trigger number is the first raw number minus one, plus accepted, plus lost triggers (mod 2^32), and its low half is the last accepted raw number; rejected packets change neither. |
| LdaTimestamps.TriggerListsConsistent | user/calice/AHCAL/module/src/ScReader.cc:1429-1474 | In every cycle there are as many trigger times as numbers, and the numbers strictly increase, as long as the extended number fits 31 bits. |
| LdaTimestamps.RunTriggerIds | user/calice/AHCAL/module/src/ScReader.cc:1429-1467 | The same for the trigger number from any state that satisfies the invariant, which every packet keeps. |
| TimeMeaning.CycleFound | user/calice/AHCAL/module/src/ScReader.cc:1319-1337 | A time stamp packet is filed under its true cycle when that is at most 127 behind and 128 ahead of the last one. |
| TimeMeaning.AcceptsExactly | user/calice/AHCAL/module/src/ScReader.cc:1429-1467 | A trigger is accepted if and only if its number is the next one, or ahead by less than the allowed skip. |
| TimeMeaning.RunHas | user/calice/AHCAL/module/src/ScReader.cc:1381-1474 | Over a run of packets with recovered cycles: each cycle has the times of its last start and last stop packet, and the numbers and times of its accepted triggers, in order. |
| TimeMeaning.OutsideCounted | user/calice/AHCAL/module/src/ScReader.cc:1381-1474 | After any run: whether an acquisition is open is decided by the last start or stop, and the triggers that came outside are counted, accepted or not. |
| OrderedMap.GroupMeaning | user/calice/AHCAL/module/src/ScReader.cc:1194-1302 | Filing items by key gives a sorted table with one entry per key that occurs, each with everything filed under it in arrival order. |
| EventBuilding.BuildRocMeaning | user/calice/AHCAL/module/src/ScReader.cc:983-1045 | A ROC-mode pass turns the lowest cycles, all but the kept ones, into one event each, in order, with all their blocks. |
| EventBuilding.BuildRocNumbers | user/calice/AHCAL/module/src/ScReader.cc:983-990 | With dummies the numbers of a pass are those of the gap filling over its cycles. |
| RocContents.PassContents | user/calice/AHCAL/module/src/ScReader.cc:985-1045 | The real events of a ROC-mode pass are those of the cycles it takes, in order, each with its blocks and with the start, the stop and the time range that arrived for it; the data of all other cycles stays. |
| EventBuilding.FillContiguous | user/calice/AHCAL/module/src/ScReader.cc:1071-1075 | Gap filling hands out one contiguous sequence if and only if the real numbers strictly increase from beyond the last one. |
| EventBuilding.FillReals | user/calice/AHCAL/module/src/ScReader.cc:1071-1075 | The real events stand exactly at the real numbers. |
| GapMeaning.DummiesExactly | user/calice/AHCAL/module/src/ScReader.cc:988-989 | For any numbers, rising or not: a dummy is handed out exactly for each number that is below a real one and beyond everything handed out before it, each event moving the numbering on by at least one. |
| GapMeaning.LastStands | user/calice/AHCAL/module/src/ScReader.cc:988-989 | Where the numbering stands afterwards: one further for each event, or at a real number and one further for each event after it, whichever is more. |
| EventBuilding.BuildTrigNumbers | user/calice/AHCAL/module/src/ScReader.cc:1047-1148 | With dummies a TRIGGERID pass numbers its events by the gap filling over the in-acquisition triggers. |
| EventBuilding.TrigidGapFilling | user/calice/AHCAL/module/src/ScReader.cc:1047-1148 | For one pass: contiguous if and only if those trigger numbers strictly increase; real events exactly at them. |
| TrigidContents.PassContents | user/calice/AHCAL/module/src/ScReader.cc:1047-1148 | The real events of a TRIGGERID pass are, in order, exactly those of the cycles it takes and of their triggers with a time from start to stop and at most one second between start and stop: each with the number and the time of its trigger, its cycle, and all blocks filed for the cycle. |
| EventBuilding.ReorderingExact | user/calice/AHCAL/module/src/ScReader.cc:985-1044 | Bounded reordering: every cycle leaves once, complete and in increasing order, however the packets are batched, if and only if no packet belongs to a cycle at or below all but the `keep` highest cycles seen before it. |
| EventBuilding.BoundSuffices | user/calice/AHCAL/module/src/ScReader.cc:985-1044 | It is enough that no cycle lies at or below the highest one seen minus `keep`. |
| EventBuilding.StreamGroups | user/calice/AHCAL/module/src/ScReader.cc:985-1044 | Cycles that left and cycles still buffered are at every moment the grouping of all packets. |
| EventBuilding.LateItemMisplaced | user/calice/AHCAL/module/src/ScReader.cc:985-1044 | A late packet leaves behind a cycle that it should have preceded. |
| ValidatedBuilding.TriggerBxidExact | user/calice/AHCAL/module/src/ScReader.cc:674-679 | The calculated crossing is the one in which the trigger's time lies (crossing 0 beginning one width early, because division rounds toward zero) if and only if that fits an `int`; else it differs by a multiple of 2^32. |
| ValidatedBuilding.TriggersAccounted | user/calice/AHCAL/module/src/ScReader.cc:698-860 | Every trigger is accounted for once, in order: joined, alone in an empty event, or skipped. |
| ValidatedBuilding.MatchesSound | user/calice/AHCAL/module/src/ScReader.cc:698-860 | A data event holds all triggers of one complete crossing and all data filed under it; a skipped trigger belongs to an incomplete crossing with data. |
| ValidatedBuilding.DataBxidsRise | user/calice/AHCAL/module/src/ScReader.cc:698-860 | No crossing of a cycle has two data events, so no block lands in two. |
| ValidatedBuilding.OneSkippedPerCrossing | user/calice/AHCAL/module/src/ScReader.cc:739-751 | An incomplete crossing with data costs exactly one trigger, no other crossing costs any. |
| ValidatedBuilding.CompleteJoins | user/calice/AHCAL/module/src/ScReader.cc:754-856 | A complete crossing with data and triggers has its data event, with all of its triggers. |
| ValidatedBuilding.CycleMatching | user/calice/AHCAL/module/src/ScReader.cc:632-860 | One readout cycle, from its blocks and triggers as they arrived: the outcomes hold the triggers once each; data events hold exactly the blocks of their crossing, in rising order of crossings; each crossing loses one trigger if it has triggers and data behind the first full cell, else none; and one with triggers and complete data is joined, with all its triggers. |
| ValidatedVisits.TakenJoin | user/calice/AHCAL/module/src/ScReader.cc:610-879 | The visits of a pass, then those still due, are those due before: a pass loses, repeats and reorders none. |
| ValidatedVisits.FileAbsorbs | user/calice/AHCAL/module/src/ScReader.cc:1194-1302 | Filing a packet adds its blocks or times to the visit due for its cycle, or inserts one at its place. |
| ValidatedRuns.VisitsExact | user/calice/AHCAL/module/src/ScReader.cc:610-879 | For any packets in any batches: the visits of a run, with the cycles left at its end (none has data), are the cycles of everything that arrived, each once, with all blocks and times and in order, if and only if no packet that brings something comes for a cycle at or below a visited one; otherwise the visits are not even in order. |
| ValidatedRuns.DistanceSuffices | user/calice/AHCAL/module/src/ScReader.cc:610-626 | It is enough that no packet comes for a cycle at or below the highest cycle with an ASIC packet so far minus the buffered number, however the packets are batched. |
| ValidatedEvents.BuildIsTaken | user/calice/AHCAL/module/src/ScReader.cc:610-879 | The events of a pass are those of its visits, and it leaves the same buffers. |
| ValidatedEvents.TriggersToldExactly | user/calice/AHCAL/module/src/ScReader.cc:648-879 | Over a run, late packets or not: the triggers in the events, with the skipped ones, are those that the trigger tables of the visited cycles accept (of cycles with a start time, with a crossing of at most 65535), each once; for each cycle and crossing as many are skipped as there are visits at which the crossing has triggers and data behind the first full cell. |
| ValidatedEvents.EventsRight | user/calice/AHCAL/module/src/ScReader.cc:648-860 | In any run, late packets or not: every event is one of a visited cycle, and its crossing, triggers, numbers and blocks are those that the visit has for it. |
| ValidatedEvents.ArrivedAccepted | user/calice/AHCAL/module/src/ScReader.cc:664-688 | The triggers that a visit has are those at the positions of the list that are accepted, in order, each with its crossing, number and time. |
| ValidatedEvents.RunCounts | user/calice/AHCAL/module/src/ScReader.cc:727 | The counter of built events counts the empty ones only. |
| ValidatedContents.ValidatedPass | user/calice/AHCAL/module/src/ScReader.cc:610-879 | A single pass from any buffers: each data event holds exactly the buffered blocks of its cycle and crossing, and the data events come in strictly increasing order of both. |
| ValidatedContents.DataExactly | user/calice/AHCAL/module/src/ScReader.cc:610-879 | A run with no packet late: its data events are those of everything that arrived, handled at once; each holds exactly the blocks that arrived for its cycle and crossing, and no two share both. |
| ValidatedContents.EventsExactly | user/calice/AHCAL/module/src/ScReader.cc:610-879 | And each of its events, with data or empty, is right for everything that arrived for its cycle: the crossing, all triggers joined and the blocks. |
| ValidatedContents.MatchableHasEvent | user/calice/AHCAL/module/src/ScReader.cc:754-856 | And each crossing with triggers and complete data has its data event, with all these triggers. |
| BxidBuilding.AllPass | user/calice/AHCAL/module/src/ScReader.cc:881-981 | BUILD_BXID_ALL: the events of a pass strictly increase in cycle and crossing, each non-empty, and hold exactly the blocks of the complete crossings of the cycles processed, in arrival order. |
| BxidWindows.WindowIs | user/calice/AHCAL/module/src/ScReader.cc:934-975 | There is a time window if and only if the start is known and times are not ignored; it is the crossing of that number after start and offset, with one tick on either side, wherever 64 bits suffice. |
| BxidWindows.PassWindows | user/calice/AHCAL/module/src/ScReader.cc:881-981 | The events of a pass have the windows of their crossings, from the start that arrived for their cycle. |
| BxidBuilding.TableMeaning | user/calice/AHCAL/module/src/ScReader.cc:890-906 | Blocks behind the first full memory cell 16 are dropped, the others grouped by crossing. |
| ScReading.CycleRecovered | user/calice/AHCAL/module/src/ScReader.cc:1176-1191 | A true cycle step is recovered if and only if it lies in the window of 256 and not between the allowed jump and 127; the 8-bit narrowing lets steps from 128 on escape the reset. |
| RocReading.ReadsFindRecorded | user/calice/AHCAL/module/src/ScReader.cc:155-427 | The reads of a run together find exactly the packets sent, with their true cycles. |
| RocReading.EndToEnd | user/calice/AHCAL/module/src/ScReader.cc:983-1045 | From bytes to events in ROC mode: for packets with recoverable steps, none late, the events are the packets grouped by true cycle in increasing order, however the bytes are cut into reads. |
| RocContents.RocReads | user/calice/AHCAL/module/src/ScReader.cc:155-450 | Over a run of reads in ROC mode, none late: the events are those of the cycles of the uncut stream, each once, in order, with blocks and times. |
| RocContents.EndToEndTimes | user/calice/AHCAL/module/src/ScReader.cc:983-1045 | From the packets sent: each true cycle has its event, in order, with everything recorded for it and the times sent for it. |
| RocReading.RocGapFilling | user/calice/AHCAL/module/src/ScReader.cc:983-990 | Over a run in ROC mode with dummies: numbers 0, 1, 2, ... if and only if the built cycles strictly increase from at least 0; real events exactly at the cycles. |
| RocReading.EndToEndNumbers | user/calice/AHCAL/module/src/ScReader.cc:983-990 | From the packets sent: with recoverable steps and none late, the numbers are 0, 1, 2, ... for any cut of the bytes if and only if no true cycle is negative; real events exactly at the cycles sent. |
| TrigidReading.TrigidRun | user/calice/AHCAL/module/src/ScReader.cc:1047-1148 | Over a run in TRIGGERID mode with dummies: contiguous from the configured start if and only if the in-acquisition trigger numbers strictly increase over the processed cycles; real events exactly at them. |
| TrigidContents.TrigidReads | user/calice/AHCAL/module/src/ScReader.cc:155-450 | Over a run of reads in TRIGGERID mode, none late: the real events are, in order, those of the cycles of the uncut stream and of their triggers inside the acquisition, with all blocks of the cycle. |
| TrigidContents.EndToEndTrigid | user/calice/AHCAL/module/src/ScReader.cc:1047-1148 | From the packets sent: each trigger inside the acquisition of a true cycle with data has, in order, its event with its number, its time and everything recorded for the cycle, and there are no other real events. |
| FullCells.LimitOfNotes | user/calice/AHCAL/module/src/ScReader.cc:1246-1251 | Without naming the update: the limit of a cycle is none if no sixteenth cell was recorded for it, else the least crossing of these cells since the last 0. |
| FullCells.NotesAreLimits | user/calice/AHCAL/module/src/ScReader.cc:1246-1251 | The same from any table: the limit is that of the crossings behind it and those recorded since. |
| ValidatedReading.VisitsOfReads | user/calice/AHCAL/module/src/ScReader.cc:155-450 | Over a run of reads in validated mode: the cycles visited, with those left without data, are the cycles of the uncut stream, each once and complete, if and only if no packet comes late. |
| ValidatedReading.TriggersOfReads | user/calice/AHCAL/module/src/ScReader.cc:155-450 | Over any run of reads in validated mode: every trigger that the table of a visited cycle accepts is in exactly one event or skipped, and exactly how many are skipped. |
| ValidatedReading.DataOfReads | user/calice/AHCAL/module/src/ScReader.cc:155-450 | With no packet late, the data events of a run of reads do not depend on how the bytes are cut; each holds exactly the blocks and all accepted triggers of its cycle and crossing in the stream, no two share both, and each crossing with triggers and complete data has one. |
| ValidatedReading.EndToEndValidated | user/calice/AHCAL/module/src/ScReader.cc:155-450 | From the packets that the front ends send: with recoverable cycle steps and no packet too far behind, each data event of any cut holds exactly what was recorded for its true cycle and crossing, in order, with the triggers sent for it; no two share both; the data events are the same for every cut; and each crossing with triggers and data has one if it is not beyond the least crossing of the sixteenth cells sent for the cycle since the last 0. |
| BxidReading.AllRun | user/calice/AHCAL/module/src/ScReader.cc:881-981 | Over a run of reads in BUILD_BXID_ALL mode, none late: the events come in strictly increasing order of cycle and crossing, and hold exactly the blocks of the uncut stream up to the least crossing of the sixteenth cells of the cycle since the last 0. |
| BxidReading.EndToEndAll | user/calice/AHCAL/module/src/ScReader.cc:881-981 | The same from the packets that the front ends send, under their true cycles, with the least crossing of the sixteenth cells sent. |
| BxidWindows.EndToEndWindows | user/calice/AHCAL/module/src/ScReader.cc:881-981 | And for any cut each event has the window of its crossing, from the start sent for its true cycle. |
| TimesReading.TimesOfReads | user/calice/AHCAL/module/src/ScReader.cc:1309-1477 | Statistics, trigger number and acquisition state after a run of reads are those of the time stamp packets of the uncut stream, in every building mode. |
| TimesReading.TimesOfSent | user/calice/AHCAL/module/src/ScReader.cc:1309-1477 | So for any cut of the packets sent they are those of the time stamps sent. |
| TimesReading.ReadsAccounted | user/calice/AHCAL/module/src/ScReader.cc:1381-1474 | So over a run of reads the statistics add up when the effective starts and stops of the stream fit, and the trigger number is the first raw number minus one plus accepted plus lost. |
| ScReaderObject.ScReader.constructor | user/calice/AHCAL/module/src/ScReader.cc:27-56 | The state in which a run starts, for each building mode. |
| ScReaderObject.ScReader.UpdateCycleNo | user/calice/AHCAL/module/src/ScReader.cc:1173-1191 | The readout cycle field becomes the reconstructed cycle, or stays when the narrowed step is too large. |
| ScReaderObject.ScReader.NoteStop | user/calice/AHCAL/module/src/ScReader.cc:1246-1251 | The table of full crossings takes one more sixteenth cell; `FullCells.NotesAreLimits` says that this keeps the least of them, counted from the last 0. |
| ScReaderObject.ScReader.ReadChannels | user/calice/AHCAL/module/src/ScReader.cc:1277-1298 | 36 words, collected in sending order and copied out backwards. |
| ScReaderObject.ScReader.ReadBlock | user/calice/AHCAL/module/src/ScReader.cc:1275-1303 | The block of one accepted memory cell. |
| ScReaderObject.ScReader.ReadCell | user/calice/AHCAL/module/src/ScReader.cc:1229-1304 | One memory cell: a block or none, and the channel group read next; a dropped cell consumes no group. |
| ScReaderObject.ScReader.ReadCells | user/calice/AHCAL/module/src/ScReader.cc:1229-1305 | The loop over the memory cells gives the specified blocks. |
| ScReaderObject.ScReader.ReadAHCALData | user/calice/AHCAL/module/src/ScReader.cc:1172-1307 | One ASIC packet changes cycle, buffer and full-cell table as specified. |
| ScReaderObject.ScReader.StartAcquisition | user/calice/AHCAL/module/src/ScReader.cc:1381-1403 | Statistics after a start, in or out of an acquisition. |
| ScReaderObject.ScReader.StopAcquisition | user/calice/AHCAL/module/src/ScReader.cc:1405-1427 | Statistics after a stop, in or out of an acquisition. |
| ScReaderObject.ScReader.TriggerIncrement | user/calice/AHCAL/module/src/ScReader.cc:1429-1474 | Trigger number, lost count and lists after a trigger packet; the rejected case. |
| ScReaderObject.ScReader.TimedPacket | user/calice/AHCAL/module/src/ScReader.cc:1329-1475 | Cycle correction and dispatch of start, stop and trigger packets. |
| ScReaderObject.ScReader.ReadLDATimestamp | user/calice/AHCAL/module/src/ScReader.cc:1309-1477 | One timestamp packet changes the state as specified; `StampPackets.StampReadBack` and `TimeMeaning.RunHas` say what is read and filed. |
| ScReaderObject.ScReader.InsertDummiesBefore | user/calice/AHCAL/module/src/ScReader.cc:988-989 | The dummies in front of a cycle and the last number. |
| ScReaderObject.ScReader.BuildROCEvents | user/calice/AHCAL/module/src/ScReader.cc:983-1045 | The loop does the ROC-mode pass. |
| ScReaderObject.ScReader.BuildTriggers | user/calice/AHCAL/module/src/ScReader.cc:1052-1143 | The events of one cycle in TRIGGERID mode, with its blocks; `TrigidContents.PassContents` says which they are. |
| ScReaderObject.ScReader.BuildTRIGIDEvents | user/calice/AHCAL/module/src/ScReader.cc:1047-1148 | The loop does the TRIGGERID pass, of which `TrigidContents.PassContents` says what the events hold. |
| ScReaderObject.ScReader.TableOf | user/calice/AHCAL/module/src/ScReader.cc:632-644 | Blocks into the table by crossing. |
| ScReaderObject.ScReader.TriggerTable | user/calice/AHCAL/module/src/ScReader.cc:648-683 | Triggers into the multimap by calculated crossing, late ones ignored. |
| ScReaderObject.ScReader.KickOut | user/calice/AHCAL/module/src/ScReader.cc:713-725 | Data in front of the next trigger is passed over without changing the matches. |
| ScReaderObject.ScReader.CountIntraBxid | user/calice/AHCAL/module/src/ScReader.cc:767-781 | The number of following triggers with the same crossing. |
| ScReaderObject.ScReader.JoinTriggers | user/calice/AHCAL/module/src/ScReader.cc:739-856 | The data event of a crossing with all its triggers, and where the iterators stand behind it. |
| ScReaderObject.ScReader.MatchOne | user/calice/AHCAL/module/src/ScReader.cc:698-860 | One pass of the trigger loop: empty, skipped or joined. |
| ScReaderObject.ScReader.MatchTriggers | user/calice/AHCAL/module/src/ScReader.cc:698-860 | The trigger loop gives the specified outcomes. |
| ScReaderObject.ScReader.BuildValidatedBXIDEvents | user/calice/AHCAL/module/src/ScReader.cc:610-879 | The loop does the validated pass. |
| ScReaderObject.ScReader.CompleteBlocks | user/calice/AHCAL/module/src/ScReader.cc:890-906 | The blocks up to the first full memory cell 16. |
| ScReaderObject.ScReader.SendCrossings | user/calice/AHCAL/module/src/ScReader.cc:934-975 | One event for each crossing, with its time window. |
| ScReaderObject.ScReader.BuildBXIDEvents | user/calice/AHCAL/module/src/ScReader.cc:881-981 | The loop does the BUILD_BXID_ALL pass. |
| ScReaderObject.ScReader.BuildEvents | user/calice/AHCAL/module/src/ScReader.cc:429-450 | Dispatch over the four building modes. |
| ScReaderObject.ScReader.ReadFrame | user/calice/AHCAL/module/src/ScReader.cc:344-408 | One complete packet applied to the state. |
| ScReaderObject.ScReader.Read | user/calice/AHCAL/module/src/ScReader.cc:155-427 | All complete packets applied, the rest left in the buffer, then events built. |
| BifProperties.CutSplit | user/calice/BIF_AHCAL/module/src/caliceahcalbif_Producer.cc:496-506 | Cutting words into packets in two portions, the left-over word first, is cutting them at once. |
| BifProperties.AtMostOneLeft | user/calice/BIF_AHCAL/module/src/caliceahcalbif_Producer.cc:641-643 | At most one word is carried over: the last one, a first word without its second. |
| BifProperties.ProcessTwice | user/calice/BIF_AHCAL/module/src/caliceahcalbif_Producer.cc:468-734 | Two calls leave the same state, event queue, carry-over and raw file as one call with all words. |
| BifProperties.PortionsIrrelevant | user/calice/BIF_AHCAL/module/src/caliceahcalbif_Producer.cc:468-734 | The same for any number of portions. |
| BifProperties.RunReplays | user/calice/BIF_AHCAL/module/src/caliceahcalbif_Producer.cc:636-639 | The raw file holds exactly the words, each once; processing it again reproduces the run. |
| BifProperties.OnSynchronised | user/calice/BIF_AHCAL/module/src/caliceahcalbif_Producer.cc:513-570 | After a shutter-on the cycle is congruent to the hardware counter minus the first one, mod 4096, and has not fallen. |
| BifProperties.RunInStep | user/calice/BIF_AHCAL/module/src/caliceahcalbif_Producer.cc:513-574 | So at every shutter-on of any run, and the cycles never fall between them. |
| BifProperties.RunCyc | user/calice/BIF_AHCAL/module/src/caliceahcalbif_Producer.cc:513-625 | The readout cycle of the full state follows the small cycle machine used in these statements. |
| BifProperties.RunTags | user/calice/BIF_AHCAL/module/src/caliceahcalbif_Producer.cc:744-771 | In ROC mode the ROC tags of a run are the cycle numbers built, plus CountRocFrom. |
| BifProperties.GaplessExactly | user/calice/BIF_AHCAL/module/src/caliceahcalbif_Producer.cc:513-625 | Gapless numbering if and only if no stop comes without a start and no open cycle is followed by a start 501 to 4094 cycles ahead. |
| BifProperties.RocTagsGapless | user/calice/BIF_AHCAL/module/src/caliceahcalbif_Producer.cc:513-625 | The same for the emitted tags: CountRocFrom, +1, +2, ..., each once. |
| BifRecords.SplitFlat | user/calice/BIF_AHCAL/module/src/caliceahcalbif_Producer.cc:736-742 | Records written word by word are read back. |
| BifRecords.FlatSplit | user/calice/BIF_AHCAL/module/src/caliceahcalbif_Producer.cc:782-796 | Whole cycle data is nothing but its records. |
| BifRecords.RunRecords | user/calice/BIF_AHCAL/module/src/caliceahcalbif_Producer.cc:468-734 | Over any run, in every mode: the events are those of the builds, in order; cycle data is whole 4-word records, now and at each build; and the builds, with the open cycle, have exactly the accepted trigger records, each once, in order. |
| BifRecords.TriggersConserved | user/calice/BIF_AHCAL/module/src/caliceahcalbif_Producer.cc:468-734 | So in ROC and TRIGGERS mode the events, with the open cycle, carry exactly the accepted trigger records, each once, in order. |
| BifRecords.TriggerTimes | user/calice/BIF_AHCAL/module/src/caliceahcalbif_Producer.cc:799-843 | In TRIGGERS mode the times of the events of a run, with those of the open cycle, are the times of the accepted triggers, each once, in order. |
| BifRecords.BxidRun | user/calice/BIF_AHCAL/module/src/caliceahcalbif_Producer.cc:897-983 | In BXID mode the events of a run carry the accepted triggers, repeated build by build, with one event for each run of equal crossings in each build. |
| BifRecords.TriggerEventsCarry | user/calice/BIF_AHCAL/module/src/caliceahcalbif_Producer.cc:773-847 | TRIGGERS mode: one event per trigger record, in order, which carries exactly that record. |
| BifRecords.TriggerEventsTell | user/calice/BIF_AHCAL/module/src/caliceahcalbif_Producer.cc:799-843 | Event i tells time, number and crossing of trigger i; `BifMeaning.BifBxidExact` says which crossing that is. |
| BifRecords.TimeKept | user/calice/BIF_AHCAL/module/src/caliceahcalbif_Producer.cc:736-742 | The two halves give a time back if and only if it fits 64 bits. |
| BifRecords.ExternalTime | user/calice/BIF_AHCAL/module/src/caliceahcalbif_Producer.cc:684-716 | An external trigger outside the ignore period leaves one record for each of its inputs, highest first, with the full time; inside it leaves none. |
| BifRecords.InternalTime | user/calice/BIF_AHCAL/module/src/caliceahcalbif_Producer.cc:663-683 | An internal trigger keeps its time if and only if the time fits 32 bits. |
| BifRecords.BxidGrouping | user/calice/BIF_AHCAL/module/src/caliceahcalbif_Producer.cc:897-983 | BXID mode: one event per run of triggers with equal crossing, telling the crossing and the first trigger's time and number; `BifMeaning.BifBxidExact` says which crossing that is. |
| BifRecords.BxidPayload | user/calice/BIF_AHCAL/module/src/caliceahcalbif_Producer.cc:897-983 | BXID mode repeats each trigger in the payload, except the first one of each later run: exactly how often. |
| BifGroups.GroupsMeaning | user/calice/BIF_AHCAL/module/src/caliceahcalbif_Producer.cc:897-983 | The groups of a list of triggers are that list, cut exactly where the crossing changes. |
| BifGroups.BxidEventsAre | user/calice/BIF_AHCAL/module/src/caliceahcalbif_Producer.cc:897-983 | BXID mode builds one event for each group: with its crossing, number and time of its first trigger, and all of its triggers between the start and the stop record. |
| BifMeaning.FirstRead | user/calice/BIF_AHCAL/module/src/caliceahcalbif_Producer.cc:501-506 | The first word of a packet, put together from type, 12 middle bits and 48-bit time, is read back as these. |
| BifMeaning.FirstOnly | user/calice/BIF_AHCAL/module/src/caliceahcalbif_Producer.cc:501-506 | Every word is one of these. |
| BifMeaning.SecondRead | user/calice/BIF_AHCAL/module/src/caliceahcalbif_Producer.cc:645-661 | The second word, put together from four fine bytes and a number, gives the number, and for each input the fine time of its own byte: its 5 low bits after adding 24. |
| BifMeaning.InputsRead | user/calice/BIF_AHCAL/module/src/caliceahcalbif_Producer.cc:688-689 | Each of the four inputs is set in the word if and only if the trigger came from it. |
| BifMeaning.ExternalRecords | user/calice/BIF_AHCAL/module/src/caliceahcalbif_Producer.cc:684-716 | So an external trigger leaves, highest input first, one record for each input it came from, with the number and with 32 times its time plus the fine time of that input; none if at most the ignore period has passed since the last one taken. |
| BifMeaning.InternalRecord | user/calice/BIF_AHCAL/module/src/caliceahcalbif_Producer.cc:663-683 | An internal trigger leaves one record, with the low 32 bits of its time and the fine time of input 0. |
| BifMeaning.BifBxidExact | user/calice/BIF_AHCAL/module/src/caliceahcalbif_Producer.cc:817-902 | The crossing of a trigger is the one in which its time, less 32 start times and the offset, lies (crossing 0 beginning one width early) if and only if that fits an `int`; else it differs by a multiple of 2^32. |
| BifMeaning.RunTells | user/calice/BIF_AHCAL/module/src/caliceahcalbif_Producer.cc:744-983 | Over any run, in each of the three modes, with no reference to how events are built: those of each build tell its cycle, its records, and in TRIGGERS and BXID mode number, time and crossing of each trigger or group, from the start time of the cycle built. |
| BifMeaning.TimesKept | user/calice/BIF_AHCAL/module/src/caliceahcalbif_Producer.cc:513-590 | Start and stop time are at every moment those of the last shutter-on and shutter-off words. |
| BifMeaning.PacketTimes | user/calice/BIF_AHCAL/module/src/caliceahcalbif_Producer.cc:513-624 | And so at each build, but that of a cycle still open when the next one starts, which is built with the times it had. |
| BifMeaning.OnRecord | user/calice/BIF_AHCAL/module/src/caliceahcalbif_Producer.cc:513-574 | A shutter-on word leaves the record of its cycle, behind those of the open one if nothing is built. |
| BifMeaning.OffRecord | user/calice/BIF_AHCAL/module/src/caliceahcalbif_Producer.cc:575-625 | A shutter-off word builds the open cycle from its records and its own record, and leaves none. |
| BifMeaning.OnTimeKept | user/calice/BIF_AHCAL/module/src/caliceahcalbif_Producer.cc:584-592 | Over any run the on-time is the sum, mod 2^64, of the distances between each shutter-off word and the last shutter-on word before it, in whichever order their times are. |
| BifMeaning.PacketNumber | user/calice/BIF_AHCAL/module/src/caliceahcalbif_Producer.cc:645-657 | What a packet does to the trigger number and the first number of the run. |
| BifMeaning.FirstNumberIs | user/calice/BIF_AHCAL/module/src/caliceahcalbif_Producer.cc:645-657 | From a shutter-on word to the next the first number of the run is the first one that does not continue the sequence, while none is known. |
| BifCounts.RunCounted | user/calice/BIF_AHCAL/module/src/caliceahcalbif_Producer.cc:513-570 | At every moment of any run cycles are counted from a 12-bit counter, which the following rows take for granted. |
| BifCounts.FirstArrival | user/calice/BIF_AHCAL/module/src/caliceahcalbif_Producer.cc:541-549 | The first cycle of a run has number 0, whatever its counter. |
| BifCounts.Arrival | user/calice/BIF_AHCAL/module/src/caliceahcalbif_Producer.cc:513-570 | A later one has the number that its 12-bit counter stands for, counted from the first one: the number of the open cycle again if it repeats its counter, but 4096 more if it repeats that of a closed one. An open cycle is built if and only if the one that arrives is 1 to 501 cycles later. |
| BifCounts.ArrivalBuilds | user/calice/BIF_AHCAL/module/src/caliceahcalbif_Producer.cc:513-570 | How often a shutter-on word builds: once for each missing cycle, and for the open one. |
| BifCounts.TriggersCounted | user/calice/BIF_AHCAL/module/src/caliceahcalbif_Producer.cc:645-716 | Over any run: the time of the last external trigger taken (more than the ignore period after the one before it), how many triggers were taken in the open cycle, and the sum of these counts over the closed cycles, mod 2^32. |
| BifCounts.OnFirst | user/calice/BIF_AHCAL/module/src/caliceahcalbif_Producer.cc:541-549 | A shutter-on word sets the start of the run and asks for the first trigger number exactly when it opens the first cycle, or repeats the counter of that one while it is open. |
| BifSending.SendKeepsOne | user/calice/BIF_AHCAL/module/src/caliceahcalbif_Producer.cc:1006-1029 | During the run one event stays back; nothing is lost, repeated or reordered. |
| BifSending.SendRest | user/calice/BIF_AHCAL/module/src/caliceahcalbif_Producer.cc:1006-1029 | At the end all leave, and the last one is marked. |
| BifSending.RunBehind | user/calice/BIF_AHCAL/module/src/caliceahcalbif_Producer.cc:468-734 | What is built does not depend on the events that wait. |
| BifSending.WholeRun | user/calice/BIF_AHCAL/module/src/caliceahcalbif_Producer.cc:155-187 | A whole run, sending while words come in: what leaves is what the words at once would build, in order, BORE on the first only, EORE on the last only. |
| BifProducerObject.PickRecords | user/calice/BIF_AHCAL/module/src/caliceahcalbif_Producer.cc:776-796 | Trigger records, last start and last stop record of the cycle data. |
| BifProducerObject.MakeTriggerEvents | user/calice/BIF_AHCAL/module/src/caliceahcalbif_Producer.cc:799-844 | One event per trigger. |
| BifProducerObject.MakeBxidEvents | user/calice/BIF_AHCAL/module/src/caliceahcalbif_Producer.cc:873-984 | One event per run of equal crossings, as specified. |
| BifProducerObject.BifProducer.constructor | user/calice/BIF_AHCAL/module/src/caliceahcalbif_Producer.cc:116-124 | A producer at the start of a run. |
| BifProducerObject.BifProducer.TriggerPushBack | user/calice/BIF_AHCAL/module/src/caliceahcalbif_Producer.cc:736-742 | Four words appended. |
| BifProducerObject.BifProducer.BuildEudaqEvents | user/calice/BIF_AHCAL/module/src/caliceahcalbif_Producer.cc:989-1004 | Events of the open cycle appended, cycle data cleared, in all three modes. |
| BifProducerObject.BifProducer.BuildMissing | user/calice/BIF_AHCAL/module/src/caliceahcalbif_Producer.cc:560-568 | One build for each missing cycle. |
| BifProducerObject.BifProducer.UnstoppedCycle | user/calice/BIF_AHCAL/module/src/caliceahcalbif_Producer.cc:514-535 | A start while a cycle is open: build it, correct a repeated counter, or neither. |
| BifProducerObject.BifProducer.OpenCycle | user/calice/BIF_AHCAL/module/src/caliceahcalbif_Producer.cc:536-548 | The arriving cycle becomes the open one; the first one sets the reference. |
| BifProducerObject.BifProducer.FillMissing | user/calice/BIF_AHCAL/module/src/caliceahcalbif_Producer.cc:549-570 | Cycles between the expected one and the one that arrived. |
| BifProducerObject.BifProducer.ShutterOnWord | user/calice/BIF_AHCAL/module/src/caliceahcalbif_Producer.cc:513-574 | The whole shutter-on word. |
| BifProducerObject.BifProducer.ShutterOffWord | user/calice/BIF_AHCAL/module/src/caliceahcalbif_Producer.cc:575-625 | The whole shutter-off word. |
| BifProducerObject.BifProducer.CountTrigger | user/calice/BIF_AHCAL/module/src/caliceahcalbif_Producer.cc:645-657 | Trigger number and first trigger of the run. |
| BifProducerObject.BifProducer.RecordTrigger | user/calice/BIF_AHCAL/module/src/caliceahcalbif_Producer.cc:662-719 | Records, trigger count and last trigger time of a packet. |
| BifProducerObject.BifProducer.PushInputs | user/calice/BIF_AHCAL/module/src/caliceahcalbif_Producer.cc:688-711 | A record for each input that is set, highest first. |
| BifProducerObject.BifProducer.TriggerWords | user/calice/BIF_AHCAL/module/src/caliceahcalbif_Producer.cc:644-719 | The whole trigger packet. |
| BifProducerObject.BifProducer.NextPacket | user/calice/BIF_AHCAL/module/src/caliceahcalbif_Producer.cc:496-722 | The packet at a position: state, raw file, and whether it is complete. |
| BifProducerObject.BifProducer.ProcessQueuedBifData | user/calice/BIF_AHCAL/module/src/caliceahcalbif_Producer.cc:468-734 | The word loop with carry-over and raw file does what the specification says. |
| BifProducerObject.BifProducer.SendAllEvents | user/calice/BIF_AHCAL/module/src/caliceahcalbif_Producer.cc:1006-1029 | Sends down to the minimum size with the marks. |
| BifProducerObject.BifProducer.ReadOut | user/calice/BIF_AHCAL/module/src/caliceahcalbif_Producer.cc:155-176 | One pass of the run loop. |
| TsMerging.ClockExact | user/calice/module/src/CaliceTsDataCollector.cc:105-107 | The clock mapping is exact if and only if the mapped time fits 64 bits. |
| TsMerging.ConsumesExactly | user/calice/module/src/CaliceTsDataCollector.cc:114-157 | A step takes an event if and only if the smaller begin of the front events is below their smaller end. |
| TsMerging.StuckForever | user/calice/module/src/CaliceTsDataCollector.cc:114-157 | A step that takes nothing repeats forever. |
| TsMerging.NeverStuck | user/calice/module/src/CaliceTsDataCollector.cc:114-157 | Events that begin before they end let the loop go on until a queue is empty. |
| TsMerging.MergeLater | user/calice/module/src/CaliceTsDataCollector.cc:96-157 | Merging first and the rest later is merging all at once. |
| TsMerging.ArrivalOrderIrrelevant | user/calice/module/src/CaliceTsDataCollector.cc:77-157 | State and written events are a function of the two streams, whatever the order of arrival. |
| TsMerging.Conserved | user/calice/module/src/CaliceTsDataCollector.cc:134-149 | For any times: events written as new, then those waiting, are the received ones in order. |
| TsMerging.RunSound | user/calice/module/src/CaliceTsDataCollector.cc:77-157 | With rising times: written events are numbered from 0, have non-empty monotone windows, and all they hold overlaps the window and each other, also re-attached events; nothing is lost. |
| TsOverlaps.OverlapsMeet | user/calice/module/src/CaliceTsDataCollector.cc:114-157 | Streams with rising times: every two taken events that overlap are in one written event if and only if there are no neighbours b1, b2 and c1, c2 among the taken ones with b1 over c1, b2 over c2, and b1 over c2 or b2 over c1. |
| TsOverlaps.RunComplete | user/calice/module/src/CaliceTsDataCollector.cc:77-157 | The same for a run, whatever the order of arrival. |
| TsOverlaps.OverlapMissed | user/calice/module/src/CaliceTsDataCollector.cc:134-152 | An instance of such neighbours, and the events they miss. |
| TsCollectorObject.TsCollector.constructor | user/calice/module/src/CaliceTsDataCollector.cc:49-58 | The state at the start of a run. |
| TsCollectorObject.TsCollector.SyncOne | user/calice/module/src/CaliceTsDataCollector.cc:114-156 | One pass of the loop. |
| TsCollectorObject.TsCollector.SyncAll | user/calice/module/src/CaliceTsDataCollector.cc:114-157 | The loop, up to an empty queue or a step that takes nothing. |
| TsCollectorObject.TsCollector.DoReceive | user/calice/module/src/CaliceTsDataCollector.cc:77-159 | Queueing, clock setting and merging; when it throws and when it would not return. |
| TelMerging.LostAlone | user/calice/module/src/CaliceTelDataCollector.cc:208-234 | A step that takes an event has no trigger number, and its event is dropped, if and only if it takes a BIF event and attaches nothing else. |
| TelMerging.TriggerFromCal | user/calice/module/src/CaliceTelDataCollector.cc:208-231 | A step with a trigger number attaches an AHCAL event, the front or the last one, if and only if its window is not empty or the last AHCAL event ends behind the begin of the window; else it attaches the last BIF event alone. |
| TelMerging.FindHere | user/calice/module/src/CaliceTelDataCollector.cc:237-254 | Next and last telescope event tell whether the stream has a number. |
| TelMerging.RepeatsForever | user/calice/module/src/CaliceTelDataCollector.cc:193-257 | A step that takes no event from any of the three queues is repeated forever: nothing it looks at has changed. |
| TelMerging.LoopsExactly | user/calice/module/src/CaliceTelDataCollector.cc:193-257 | At a step that takes no BIF or AHCAL event the loop never ends if and only if the step has no trigger number or some waiting telescope event has a higher one; else it sends the telescope events and returns. |
| TelMerging.LoopsForRising | user/calice/module/src/CaliceTelDataCollector.cc:193-257 | With rising telescope numbers: if and only if the step has no trigger number or its number is below the last waiting one. |
| TelMerging.TimedEnds | user/calice/module/src/CaliceTelDataCollector.cc:193-257 | Events that begin before they end always let the loop end. |
| TelMerging.TelescopeMatched | user/calice/module/src/CaliceTelDataCollector.cc:102-258 | Over any run without overflow, telescope numbers strictly increasing, AHCAL numbers not falling: each written event has a trigger number and no telescope event but that of its number; with an AHCAL event it has this one if the telescope ever sends it; each telescope event is written as new once, in order; all steps with a trigger number are written, and nothing else is lost. |
| TelMerging.TimedMatched | user/calice/module/src/CaliceTelDataCollector.cc:102-258 | If also all BIF and AHCAL events begin before they end, every written event has an AHCAL event, and so the telescope event of its number if the telescope ever sends it. |
| TelMerging.LoneBifUnmatched | user/calice/module/src/CaliceTelDataCollector.cc:208-256 | Otherwise not: a BIF event attached again without an AHCAL event is written before the telescope has sent its number, and once more when it does. |
| TelMerging.LoneBifHere | user/calice/module/src/CaliceTelDataCollector.cc:193-234 | Events with which the merge gets there: an AHCAL event without times behind a BIF event that was taken alone. |
| TelMerging.FewNeverOverflow | user/calice/module/src/CaliceTelDataCollector.cc:116-153 | No queue overflows if the run has at most 100000 AHCAL, 10000 BIF and 10000 telescope events. |
| TelMerging.TelescopeSound | user/calice/module/src/CaliceTelDataCollector.cc:193-231 | The merge is a number of steps of the merge of the whole streams, whatever the telescope sends; with rising times everything merged overlaps. |
| TelNumbers.RunNumbered | user/calice/module/src/CaliceTelDataCollector.cc:193-257 | Over any run, with overflows or without, the written events have the numbers 0, 1, 2, ... mod 2^32. |
| TelNumbers.ShiftedMatch | user/calice/module/src/CaliceTelDataCollector.cc:116-153 | An AHCAL trigger number and a telescope event number are equal once shifted if and only if the telescope is ahead by the configured shift, mod 2^32; for shifts of either sign. |
| TelNumbers.ShiftKeeps | user/calice/module/src/CaliceTelDataCollector.cc:116-153 | Nothing else of an event changes. |
| TelNumbers.StreamIsSent | user/calice/module/src/CaliceTelDataCollector.cc:116-153 | The stream that a producer queues is what it sent in the run, shifted; events of other runs and fake ones are left out. |
| TelNumbers.OverflowEmpties | user/calice/module/src/CaliceTelDataCollector.cc:116-153 | A queue with 100000 AHCAL events, or 10000 others, is emptied with the next event of its producer, and nothing else changes. |
| TelNumbers.BelowLimitQueued | user/calice/module/src/CaliceTelDataCollector.cc:116-153 | Below that the event is queued and the merge goes on. |
| TelNumbers.StartsExactly | user/calice/module/src/CaliceTelDataCollector.cc:155-191 | The merge starts with the first arrival with which all three streams have begun, each with an event that begins the run, and not before; the clock is set from the first BIF and AHCAL events. |
| TelCollectorObject.TelescopeCollector.constructor | user/calice/module/src/CaliceTelDataCollector.cc:52-67 | The state at the start of a run. |
| TelCollectorObject.TelescopeCollector.TakeBif | user/calice/module/src/CaliceTelDataCollector.cc:208-217 | The BIF event of a window: new, again or none. |
| TelCollectorObject.TelescopeCollector.TakeCal | user/calice/module/src/CaliceTelDataCollector.cc:219-229 | The AHCAL event of a window: new, again or none. |
| TelCollectorObject.TelescopeCollector.MergeFronts | user/calice/module/src/CaliceTelDataCollector.cc:196-231 | One step of the merge and its trigger number. |
| TelCollectorObject.TelescopeCollector.SendBelow | user/calice/module/src/CaliceTelDataCollector.cc:237-246 | Telescope events below the number leave alone. |
| TelCollectorObject.TelescopeCollector.SendSynced | user/calice/module/src/CaliceTelDataCollector.cc:247-256 | The merged event with its telescope event. |
| TelCollectorObject.TelescopeCollector.SyncOne | user/calice/module/src/CaliceTelDataCollector.cc:196-256 | One pass of the loop. |
| TelCollectorObject.TelescopeCollector.SyncAll | user/calice/module/src/CaliceTelDataCollector.cc:193-257 | The loop, up to its guard or a pass that takes no event from any queue; which of the two. |
| TelCollectorObject.TelescopeCollector.Queue | user/calice/module/src/CaliceTelDataCollector.cc:116-153 | Queueing with shifted numbers; an overlong queue is emptied. |
| TelCollectorObject.TelescopeCollector.DoReceive | user/calice/module/src/CaliceTelDataCollector.cc:102-258 | The whole receive; when it throws and when it would not return. |
| BxidMerging.MinKeyMeaning | user/calice/module/src/CaliceAhcalBifBxidDataCollector.cc:352-362 | The key processed is the least of the front events and belongs to one of them. |
| BxidMerging.PassTakes | user/calice/module/src/CaliceAhcalBifBxidDataCollector.cc:247-423 | Every pass takes an event from a queue if a detector is active, so the loop ends. |
| BxidMerging.NeverHalts | user/calice/module/src/CaliceAhcalBifBxidDataCollector.cc:281-347 | Without an active detector no pass ends the loop. |
| BxidMerging.BuildWaits | user/calice/module/src/CaliceAhcalBifBxidDataCollector.cc:281-347 | The loop ends with an active detector's queue empty. |
| BxidMerging.RunConserves | user/calice/module/src/CaliceAhcalBifBxidDataCollector.cc:132-208 | Any run with producers coming and going and any tags in any order: every accepted event is in exactly one place (queued, written, thrown away, discarded), copies counted; written numbers are 0, 1, 2, ...; a merged event has one key. |
| BxidJoin.BuildAdd | user/calice/module/src/CaliceAhcalBifBxidDataCollector.cc:175-207 | Merging before or after an event is queued gives the same. |
| BxidJoin.ArrivalOrderIrrelevant | user/calice/module/src/CaliceAhcalBifBxidDataCollector.cc:175-423 | Any active detectors, at least one, and any tags: what is written and thrown away, table events aside, is a function of the streams. |
| BxidJoin.WrittenIsJoin | user/calice/module/src/CaliceAhcalBifBxidDataCollector.cc:246-423 | AHCAL and any of the other detectors active, well-tagged, strictly increasing streams: the written events are the join, for each AHCAL event up to the smallest last key of the active streams that all active, mandatory streams match. |
| BxidJoin.JoinRises | user/calice/module/src/CaliceAhcalBifBxidDataCollector.cc:352-422 | The keys of the join strictly increase. |
| BxidMeaning.WrittenExactly | user/calice/module/src/CaliceAhcalBifBxidDataCollector.cc:246-423 | In terms of the tags alone, streams in time order: an AHCAL event is written if and only if every active detector has sent an event of its cycle and crossing or later, and every active, mandatory one an event of exactly these; with it go the events of the other detectors with that cycle and crossing, and nothing else; in time order. |
| BxidMeaning.RunSorts | user/calice/module/src/CaliceAhcalBifBxidDataCollector.cc:276-347 | Any run, with any tags: no event without tags and no BIF event before crossing -100 gets into a merged event, and nothing else is discarded. |
| BxidMeaning.RunFlags | user/calice/module/src/CaliceAhcalBifBxidDataCollector.cc:132-173 | Any run: a detector is waited for exactly if the last that happened to its connection is that it connected; which are mandatory never changes. |
| BxidCollectorObject.BxidCollector.constructor | user/calice/module/src/CaliceAhcalBifBxidDataCollector.cc:103-130 | The state at the start of a run; which detectors are mandatory. |
| BxidCollectorObject.BxidCollector.SetActive | user/calice/module/src/CaliceAhcalBifBxidDataCollector.cc:132-173 | Connecting and disconnecting change one flag. |
| BxidCollectorObject.BxidCollector.Inspect | user/calice/module/src/CaliceAhcalBifBxidDataCollector.cc:281-347 | Whether a pass ends the loop, discards an event, or joins. |
| BxidCollectorObject.BxidCollector.DiscardOne | user/calice/module/src/CaliceAhcalBifBxidDataCollector.cc:286-346 | The front event of a queue is discarded. |
| BxidCollectorObject.BxidCollector.LeastKey | user/calice/module/src/CaliceAhcalBifBxidDataCollector.cc:352-362 | The least readout cycle and its least crossing. |
| BxidCollectorObject.BxidCollector.TakeFront | user/calice/module/src/CaliceAhcalBifBxidDataCollector.cc:373-379 | The front event if it has the key. |
| BxidCollectorObject.BxidCollector.TakeFronts | user/calice/module/src/CaliceAhcalBifBxidDataCollector.cc:373-413 | All front events with the key, and a table event. |
| BxidCollectorObject.BxidCollector.HasAll | user/calice/module/src/CaliceAhcalBifBxidDataCollector.cc:415-418 | Whether no active, mandatory part is missing. |
| BxidCollectorObject.BxidCollector.Finish | user/calice/module/src/CaliceAhcalBifBxidDataCollector.cc:414-422 | Written and numbered, or counted as thrown away. |
| BxidCollectorObject.BxidCollector.JoinOne | user/calice/module/src/CaliceAhcalBifBxidDataCollector.cc:349-422 | The joining pass. |
| BxidCollectorObject.BxidCollector.BuildEvents | user/calice/module/src/CaliceAhcalBifBxidDataCollector.cc:220-424 | The loop. |
| BxidCollectorObject.BxidCollector.DoReceive | user/calice/module/src/CaliceAhcalBifBxidDataCollector.cc:175-208 | The whole receive; when it does not return. |
| HodoscopeJoin.PassPops | user/calice/module/src/AhcalHodoscopeDataCollector.cc:135-239 | Every pass that does not leave the loop pops an event. |
| HodoscopeJoin.FrontsDecide | user/calice/module/src/AhcalHodoscopeDataCollector.cc:165-195 | With no queue empty and no event behind, the fronts tell all matches. |
| HodoscopeJoin.BuildExhausts | user/calice/module/src/AhcalHodoscopeDataCollector.cc:135-239 | When the loop is left, the queues alone give nothing more. |
| HodoscopeJoin.PassKeeps | user/calice/module/src/AhcalHodoscopeDataCollector.cc:135-239 | A pass keeps what is written plus what queues and events to come will give. |
| HodoscopeJoin.WrittenIsSemiJoin | user/calice/module/src/AhcalHodoscopeDataCollector.cc:106-239 | At least two hodoscopes, strictly increasing keys: the written events are the tagged AHCAL events that some hodoscope matches, each with all events that match, as far as all hodoscopes have got, whatever the order of arrival. |
| HodoscopeMeaning.WrittenExactly | user/calice/module/src/AhcalHodoscopeDataCollector.cc:137-239 | In terms of the tags alone, streams in time order: an AHCAL event is written if and only if it has both tags and a crossing other than 0, every hodoscope has sent an event of its cycle and crossing or later, and some hodoscope one of exactly these; with it go all hodoscope events with that cycle and crossing, and nothing else; in time order. |
| HodoscopeMeaning.Accounted | user/calice/module/src/AhcalHodoscopeDataCollector.cc:137-239 | Whatever arrives in whatever order: each AHCAL event with both tags and a crossing other than 0 is written, counted as unmatched, or queued. |
| HodoscopeCollectorObject.HodoscopeCollector.LookAtHodoscopes | user/calice/module/src/AhcalHodoscopeDataCollector.cc:161-195 | Pops events behind the AHCAL event and finds a match, up to an empty queue. |
| HodoscopeCollectorObject.HodoscopeCollector.TakeMatches | user/calice/module/src/AhcalHodoscopeDataCollector.cc:221-230 | Takes the matching front events. |
| HodoscopeCollectorObject.HodoscopeCollector.PassOnce | user/calice/module/src/AhcalHodoscopeDataCollector.cc:137-238 | One pass of the loop. |
| HodoscopeCollectorObject.HodoscopeCollector.BuildEvent | user/calice/module/src/AhcalHodoscopeDataCollector.cc:135-240 | The loop. |
| HodoscopeCollectorObject.HodoscopeCollector.DoReceive | user/calice/module/src/AhcalHodoscopeDataCollector.cc:106-133 | The whole receive; the unknown producer. |
| TrigidSync.RunSubsequence | user/calice/module/src/TrigidSyncDataCollector.cc:38-114 | Any run with connects, disconnects and resets: what was written from a producer and what it has waiting are received events, each at most once and in order. |
| TrigidSync.RunAgrees | user/calice/module/src/TrigidSyncDataCollector.cc:87-96 | Every written event is non-empty and all its events have its trigger number. |
| TrigidSync.StallsExactly | user/calice/module/src/TrigidSyncDataCollector.cc:69-114 | When only events arrive, nothing is written if and only if some queue, also one of a producer that disconnected, had no event and gets none. |
| TrigidLoss.ActKnown | user/calice/module/src/TrigidSyncDataCollector.cc:38-114 | What one action does to the events of a producer that are written or wait: it adds an accepted arrival, and takes away those that wait at a reset, at a new connection of the producer, and at a disconnect with which as many connections are inactive as there are queues; nothing else. |
| TrigidLoss.RunLoses | user/calice/module/src/TrigidSyncDataCollector.cc:38-114 | So at every action of any run with connections, disconnections and resets. |
| TrigidLoss.LossExactly | user/calice/module/src/TrigidSyncDataCollector.cc:38-114 | Everything accepted from a producer is written or waits, in order, if and only if no action of the run takes away waiting events of it. |
| TrigidLoss.ActQueues | user/calice/module/src/TrigidSyncDataCollector.cc:38-114 | Which queues there are and which connections are inactive after any action. |
| TrigidSync.EmptyQueueStalls | user/calice/module/src/TrigidSyncDataCollector.cc:76-85 | Such a queue then stays empty, whatever the others send. |
| TrigidSync.RunIsSteps | user/calice/module/src/TrigidSyncDataCollector.cc:69-114 | Fixed producers: the state is that of the outer join of the whole streams after as many steps as events were written. |
| TrigidSync.OrderOnlyDelays | user/calice/module/src/TrigidSyncDataCollector.cc:69-114 | Two orders of arrival write the same events; one may only be behind. |
| TrigidSync.OuterJoinSafe | user/calice/module/src/TrigidSyncDataCollector.cc:69-114 | Fixed producers, strictly increasing numbers: written numbers strictly increase, and what was written from a producer, then what waits, is exactly what it sent. |
| TrigidSync.SameTriggerSameEvent | user/calice/module/src/TrigidSyncDataCollector.cc:87-96 | Equal trigger numbers are never in different written events. |
| TrigidSyncCollectorObject.TrigidSyncCollector.DoConnect | user/calice/module/src/TrigidSyncDataCollector.cc:38-42 | A fresh queue; the connection is active. |
| TrigidSyncCollectorObject.TrigidSyncCollector.DoDisconnect | user/calice/module/src/TrigidSyncDataCollector.cc:44-51 | The connection is inactive; when as many are as there are queues, everything is cleared, and otherwise no queue changes: `TrigidLoss.LossExactly` says what that loses. |
| TrigidSyncCollectorObject.TrigidSyncCollector.DoReset | user/calice/module/src/TrigidSyncDataCollector.cc:62-67 | Everything is cleared. |
| TrigidSyncCollectorObject.TrigidSyncCollector.LowestTrigger | user/calice/module/src/TrigidSyncDataCollector.cc:76-85 | The lowest front trigger number, unless a queue is empty. |
| TrigidSyncCollectorObject.TrigidSyncCollector.PopTrigger | user/calice/module/src/TrigidSyncDataCollector.cc:90-96 | Takes all front events with the number. |
| TrigidSyncCollectorObject.TrigidSyncCollector.ForgetClosed | user/calice/module/src/TrigidSyncDataCollector.cc:98-110 | Inactive connections with nothing left are forgotten. |
| TrigidSyncCollectorObject.TrigidSyncCollector.DoReceive | user/calice/module/src/TrigidSyncDataCollector.cc:69-114 | The whole receive, with at most one event written. |

## Left out

- LED, slow-control and HV sections of `Read`, and timestamp or temperature packets with a length other than 16, or packets with fewer than 4 payload bytes: the search stops there and reports something foreign.
- Contents of temperature packets, their block in events, and the other informational blocks and tags of AHCAL events, among them the per-ASIC table of full memory cells and the error status tag.
- `DebugKeepBuffered`, and reading while it is set.
- Validated mode with `MinimumEventHits` other than 0 or with dummies: an unmatched trigger then falls through to later data, and the numbers have gaps by construction.
- Overflow of the signed `int` counters of the reader.
- The value INT_MIN, which the BIF builder uses as a marker: the model keeps the marker apart from a crossing of that value.
- Time windows of the events of the validated mode, which have the formula of BUILD_BXID_ALL mode, and their tag with the time of the trigger inside its crossing.
- ScReaderObject.ScReader.ReadCells: calls the specification of the Gray recoding through a constant field; the step-by-step recoding is the method `GrayCode.GrayRecode`, proved equal to it.
- AHCAL `sendallevents`: its hit filter may drop the event that carries a run mark.
- LdaStream.ChunkingIrrelevant: says nothing of the frames behind the first LED, slow-control or HV section, which the model does not read.
- RocReading.EndToEnd, ValidatedReading.EndToEndValidated, BxidReading.EndToEndAll: for streams of packets only, without such sections.
- ScReaderObject.ScReader.NoteStop: without the table of full memory cells that the source keeps for each ASIC beside it, which only feeds a tag.
- ScReaderObject.ScReader.BuildValidatedBXIDEvents: without dummies, with a minimum of 0 hits, and for a bunch crossing width other than 0, by which the source would divide; `ScReaderObject.ScReader.BuildEvents` and `ScReaderObject.ScReader.Read` ask the same of a configuration in validated mode.
- ScReaderObject.ScReader.BuildEvents: see BuildValidatedBXIDEvents.
- ScReaderObject.ScReader.Read: see BuildValidatedBXIDEvents.
- BxidJoin.WrittenIsJoin: for an active, mandatory AHCAL and events from active detectors only; what is written while none of the AHCAL events is required has no such join.
- BxidJoin.ArrivalOrderIrrelevant: leaves the table events aside, because each merged event takes whatever table event happens to wait.
- TelMerging.TelescopeMatched: for runs in which no queue is emptied for its length (`TelMerging.FewNeverOverflow` gives a bound); the emptying itself is modelled.
- ROC offsets of the BXID collector, which are constants 0; start and stop of further runs on the same collector or producer object.
- Connecting and disconnecting at the hodoscope collector, more than one AHCAL producer there, and its TDC histograms.
- The order of the sub-events inside an event of the trigger number collector.
- The other collectors (`AhcalBifTluAlpideTable`, `Alpide`, `Calice`), which are near copies or simpler.
- Sockets, files, register access, configuration parsing, logging, mutexes and threads; each receive, read or processing call is one atomic step.
- EUDAQ event internals, converters, run control, floating-point statistics and the DESY table.
- BIF words of the types 8 to 15: taken as packets of two words without effect but on the trigger number, as the code does; only the warning is missing.
