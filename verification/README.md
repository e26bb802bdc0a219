# A verified model of tsanalytics

tsanalytics scans an MPEG-2 transport stream once, packet by packet.  For each PID it detects
continuity losses and reassembles sections, and it adds the losses up in three views: per PID,
per percentile of the file and per broadcast time.  This project models its core in Dafny and
proves what those parts are for.  `dafny verify dfyconfig.toml` checks everything.

## How the model is laid out

| file | what it holds |
|---|---|
| Bytes, Sums | bytes, packets, the memory that the C code reads; sums of counters |
| BitReader, Sections | `getBit`; the section header that all tables share |
| Header, Adaptation, AdaptationCoding | packet header and adaptation field, and the fields' encodings |
| PacketCoding | whole packets as the standard writes them, and what the program takes from them |
| Continuity | the continuity monitor |
| ContinuityRules | the rules from the packets of a stream: which packet adds a loss |
| LossBound, PidIndependence, GapCount | its behaviour over whole streams: bounds, interleaving, exact counts |
| DropLists, GroupBy | the linked list of losses, what a sequence of calls leaves in it |
| SectionAssembly, Reassembly, Deliveries, Crc32 | section buffers, whole transmissions, what is reported, the CRC |
| Pat, Pmt, Eit, Tot, Calendar | table decoders with their encoders, dates and clock times |
| Analysis, Analyzers | the packet loop as a state machine, and on arrays, buffers and lists |
| Accounting, Views | theorems over every run of the loop |
| FileLoss, JudgedFile, Samples | files from which packets were deleted; concrete files and packets |
| BroadcastTime, ProgramTable | from packets to the times and the programs of a run |
| Report, Columns, Tsanalytics | the printed lists, their columns and keys, the whole program |

Code that works in place is modelled in place: the 8192 counters and the reassembly buffers are
arrays, the loss lists are linked nodes, and each such method is proved equal to a function of
the old state.  The theorems are about those functions, for all inputs and all runs.

## The main results

- Losses are never overstated.  Delete any packets from any stream of a PID: the report grows by
  at most one loss for each maximal deleted stretch (`LossBound.DropsNeverOverstateLoss`) and
  falls by at most that and the deleted packets (`LossBound.DeletionHidesAtMost`).  The sum over all
  PIDs of a file, counting the stretches of each PID, grows by no more than that if the complete
  file is not judged to be no transport stream, and falls by no more than that if what is left of
  it is not (`FileLoss.FileLossBound`).  Both conditions matter: there are files that break the
  bounds without them (`JudgedFile.JudgedFileExceedsBound`, `JudgedFile.JudgedRestFallsShort`).
  What a judgement hides is counted exactly (`FileLoss.SkippedExactly`), and with it the growing
  bound holds exactly when nothing is hidden (`JudgedFile.BoundedExactly`).
- Which packet adds a loss is told from the packets alone, with and without a payload
  (`ContinuityRules.WithoutPayload`, `ContinuityRules.Repeated`), and a stream that is counted as
  the standard says reports none (`ContinuityRules.WellCountedIsClean`).
- In streams with regular counters the report is exact, whatever is deleted
  (`GapCount.GapsReported`, `FileLoss.FileGapsReported`).
- The three views agree, in every state, up to what full counters turned away
  (`Views.ViewsConserve`, `Views.ThreeViewsAgree`), and each loss is filed under the last time
  completed before it (`Views.ListsAreAdds`) and under its packet's percentile (`Views.PercentList`).
- The printed output says the same: each line has what its PID's own packets give, the columns
  sum to the tallies, and within the limits of printing the three lists have the same sums
  (`Tsanalytics.OutputMeaning`, `Tsanalytics.PrintedViewsAgree`, `Tsanalytics.PrintedPrograms`).
- A section of at least seven bytes, sent in any packets among any others with its length field
  in the first of them, is reported once if those packets carry at least one byte more than the
  section, and otherwise never (`Deliveries.DeliveredOnce`).  The times of a
  run are those of the time offset tables so delivered (`BroadcastTime.TimesAreDelivered`,
  `BroadcastTime.TimeIsRead`), its program table is the first delivered
  (`ProgramTable.FirstPatIsTaken`).
- The table-driven CRC is polynomial division (`Crc32.Compute`) and catches every burst of up to
  32 bits in a section of any length (`Crc32.BurstDetected`), also in a section that was
  reassembled from packets (`Deliveries.CorruptedTransmission`).
- Every decoder inverts its encoder, and loop constants that look off by some bytes are shown to
  be exact (`Pmt.PmtRoundTrip`, `Eit.EitRoundTrip`, `Eit.DecodedInFull`).
- The adaptation field parser accepts exactly the fields of the standard with a flag byte, and
  one further, disjoint kind (`AdaptationCoding.AcceptedExactly`).
- The date formula is the Gregorian calendar (`Calendar.MjdNext`).

## Where code and documentation differ

The model follows the code.

- `total` is raised twice for each packet, in tsanalytics.c:173 and m2tlib/drop_count.c:94.
- The repository's README.md:189 gives 100 as the limit of consecutive sync errors.  The
  comparison is strict and made before the count grows, so the 102nd consecutive packet decides.
- A section is complete only when its size is exceeded (m2tlib/packet.c:100).  One that ends
  exactly with a packet is not reported by that packet, and if the next packet of the PID starts
  a unit it never is (`Deliveries.ExactFitIsLost`, `Deliveries.ReportedOnce`).
- A comment at m2tlib/packet.c:108 says that the PAT has no CRC; the code never checks PID 0, and
  no verdict changes the result for other PIDs.
- A comment at m2tlib/drop_count.c:126 says that an index out of range results if no PID is used;
  the code uses 8191.
- With adaptation field control 3 the payload is taken to begin at 4 + adaptation_field_length
  (m2tlib/head.c:78), without the length byte.  All statements about sections are about the
  bytes from there on (`PacketCoding.ShiftedPayloadContributed`).
- The comment at m2tlib/eit.c:44-46 counts five bytes for a four-byte CRC; `Eit.EventsRoundTrip`
  shows why that is harmless.
- An adaptation field extension of length 0, which the standard does not have, is accepted if
  the next byte sets no flag (`AdaptationCoding.EmptyExtension`).
- A clock reference keeps the standard's bits only if its base is below 2^32 and its extension
  below 256: the extension's top bit is put at the wrong place (m2tlib/head_adapt.c:49), and the
  first byte is shifted into the sign (`AdaptationCoding.ClockExactly`).
- The list of programs ends in a comma if the PAT's last entry is the network's and there is a
  program (`Report.ProgramsJoined`).
- The duration of an event in seconds depends on the order in which a compiler evaluates three
  reads, unless all three give the same number (`Eit.SecondsDetermined`).

## What stands for the surroundings

- `Memory` is an object's bytes and whatever lies behind it.  `getBit` always loads eight bytes,
  so a decoder may touch bytes behind its section; every theorem holds for all such bytes.
- `Surroundings` holds what `st_packet` may find outside what it was given: the memory behind
  the packet and the memory behind the reassembly buffer.
- `stale` parameters are uninitialised C structures.  No result depends on them where the
  source's result is used.
- Where C leaves the order of evaluation open, every order is allowed for.
- The time key is the decoded time itself; its text is `Clock(tm)`.  Every decoded number has at
  most two digits and every year four, so the text determines it.

## Model

| member | source | states |
|---|---|---|
| `Continuity.TallyErrors` | m2tlib/drop_count.c:18-27 | the per-packet indications are reset and the error and scrambling tallies grow by exactly the packet's own flags; no other PID changes |
| `Continuity.Judge` | m2tlib/drop_count.c:41-72 | the loss verdict and the repeat counter are those of the continuity rules, whatever the previous header held when the PID is new |
| `Continuity.Record` | m2tlib/drop_count.c:77-104 | a loss is tallied and ends the repeat, the packet becomes the stored one, the PID becomes used, the total grows by one; no other PID changes |
| `Continuity.DropCheckAndCount` | m2tlib/drop_count.c:8-107 | the whole array afterwards is the old one with one step of the monitor on the packet's own PID; the result is 0 exactly for a lost, erroneous or scrambled packet; the uninitialised header of an unused entry never matters |
| `Continuity.StagesAreStep` | m2tlib/drop_count.c:18-104 | resetting and tallying before the rules does not influence them, and the three stages make up one monitor step |
| `ContinuityRules.NeverLost` | m2tlib/drop_count.c:41-45 | the first packet of a PID, a null packet and a packet that announces a discontinuity never add a loss |
| `ContinuityRules.WithoutPayload` | m2tlib/drop_count.c:46-48 | behind any non-empty stream a packet without a payload adds a loss exactly if its counter differs from the last packet's |
| `ContinuityRules.WithPayload` | m2tlib/drop_count.c:61-69 | behind any non-empty stream a packet with a payload and another counter adds a loss exactly if the counter is not the next one modulo 16 |
| `ContinuityRules.SameCounterOtherPacket` | m2tlib/drop_count.c:50-54 | a packet with a payload that repeats the last counter but not the last packet is a loss |
| `ContinuityRules.Repeated` | m2tlib/drop_count.c:50-60 | of n copies of a packet that came with a new counter the first is accepted, and every second one is a loss |
| `ContinuityRules.WellCountedIsClean` | m2tlib/drop_count.c:41-72 | any mixture of packets with and without a payload, whose counter rises by one at each of the former and stays at each of the latter, reports no loss |
| `ContinuityRules.TalliesCountFields` | m2tlib/drop_count.c:18-27 | the error and scrambling tallies of any stream count its packets whose encoded transport_error_indicator and transport_scrambling_control are not zero |
| `ContinuityRules.FillersJudged` | m2tlib/drop_count.c:46-48 | concrete packets that an adaptation field fills: with the last counter no loss, with the next one a loss |
| `LossBound.RunInvariant` | m2tlib/drop_count.c:52-94 | after any packets of a PID the repeat counter is at most 1, the stored packet is the last one, and `total` is twice their number |
| `LossBound.LockstepKeep` | m2tlib/drop_count.c:41-91 | potential argument, a packet that both runs see: the thinned run's losses plus its deferred repeat stay within the full run's losses plus the deleted stretches |
| `LossBound.LockstepResume` | m2tlib/drop_count.c:41-91 | potential argument, first packet after a deleted stretch: the stretch pays for one reported loss or one deferred one |
| `LossBound.LockstepRun` | m2tlib/drop_count.c:41-91 | the lockstep relation holds after every stream and every choice of deleted packets |
| `LossBound.DropsNeverOverstateLoss` | m2tlib/drop_count.c:41-91 | for every stream of one PID and every subsequence of it, the reported losses exceed those of the full stream by at most the number of maximal deleted stretches, hence of deleted packets |
| `LossBound.ExchangedRun` | m2tlib/drop_count.c:41-91 | the same potential with the runs exchanged: what the full stream reports stays within what its subsequence reports plus one for each deleted packet and stretch |
| `LossBound.DeletionHidesAtMost` | m2tlib/drop_count.c:41-91 | for every stream and every subsequence of it, the losses fall by at most the deleted packets plus the maximal deleted stretches |
| `LossBound.RegularIsClean` | m2tlib/drop_count.c:50-69 | payload packets whose counters rise by one modulo 16 report no loss |
| `LossBound.FirstSurvivor` | m2tlib/drop_count.c:50-69 | the first packet after a gap of k reports it unless k is a multiple of 16, or k mod 16 is 15 and the neighbours are identical |
| `LossBound.GapDetection` | m2tlib/drop_count.c:50-69 | deleting k consecutive packets of a regular stream raises exactly one loss in all, at the next packet, under exactly that condition, and none otherwise |
| `GapCount.JudgedGap` | m2tlib/drop_count.c:50-69 | a payload packet k + 1 counters ahead is a loss exactly if k is no multiple of 16, except that identical packets with k mod 16 = 15 count as a repeat and every second of those is a loss |
| `GapCount.GapsReported` | m2tlib/drop_count.c:41-91 | whatever packets are deleted from a regular stream, the losses are exactly the gaps that are noticed, each computed from the kept positions and the packets alone |
| `GapCount.OddGapsReported` | m2tlib/drop_count.c:41-91 | if packets at distances divisible by 16 differ, the losses are exactly the gaps whose length is no multiple of 16 |
| `GapCount.PidGapsReported` | m2tlib/drop_count.c:41-91 | in any interleaving of regular streams with any packets deleted, each PID's losses are exactly the gaps noticed in its own packets, and null packets are never a loss |
| `GapCount.StreamGapsReported` | m2tlib/drop_count.c:41-91 | so the total over all PIDs is exactly the sum of the gaps noticed in each |
| `GapCount.SilentGap` | m2tlib/drop_count.c:50-60 | a concrete regular stream in which fifteen deleted packets between identical ones are not reported |
| `PidIndependence.Independence` | m2tlib/drop_count.c:15-94 | for every interleaving each entry is the result of that PID's packets alone |
| `PidIndependence.ReachableEntry` | m2tlib/drop_count.c:15-16 | in every reachable array a used entry stores a packet of its own PID with the sync byte, a PID is used exactly when seen, and repeats are at most 1 |
| `PidIndependence.SurvivorsOfPid` | m2tlib/drop_count.c:15-94 | deleting packets and selecting a PID commute |
| `PidIndependence.DeletedByPid` | m2tlib/drop_count.c:15-94 | the deleted packets of all PIDs add up to the deleted packets |
| `PidIndependence.PidBounds` | m2tlib/drop_count.c:41-91 | for each PID of an interleaved stream, deleting packets changes its losses by no more than that PID's deleted stretches (and packets, downwards) |
| `PidIndependence.StretchesAtMostDeleted` | m2tlib/drop_count.c:41-91 | over all PIDs there are at most as many deleted stretches as deleted packets |
| `PidIndependence.TotalDropsNeverOverstateLoss` | m2tlib/drop_count.c:41-91 | summed over all PIDs of any interleaved stream, losses grow by at most one for each maximal deleted stretch of a PID and fall by at most that plus the deleted packets |
| `DropLists.ScanResult` | drop_list.c:34-50 | the search stops at the first node with the key, at the end, or at the 100001st node without comparing its key |
| `DropLists.DropNode.Increment` | drop_list.c:62-64 | each counter takes its increment unless it has reached 99999999 |
| `DropLists.DropList.Locate` | drop_list.c:21-50 | the node to increment is the search's, appended at the end with zero counters if the key is new; all other nodes keep order and contents |
| `DropLists.DropList.Append` | drop_list.c:40-45 | the list grows by one zeroed node behind the last; it never exceeds 100001 nodes |
| `DropLists.DropList.AddDrop` | drop_list.c:16-68 | the contents afterwards are the specified update of the old contents; the list stays well linked and at most 100001 long |
| `DropLists.DropList.FreeAll` | drop_list.c:71-81 | every node is freed exactly once, in order: the loop's limit of a million is never reached |
| `GroupBy.ScanIsSlot` | drop_list.c:34-50 | the pointer walk finds the key's bucket of the group-by |
| `GroupBy.ListIsGroupBy` | drop_list.c:16-68 | after any sequence of calls with increments 0 or 1: distinct keys in first-seen order, min(distinct keys, 100001) of them, each counter the capped sum of its bucket's increments |
| `GroupBy.EveryKeyIsExact` | drop_list.c:34-64 | each of the first 100000 keys, and each key if there are at most 100001, has the counter min(99999999, sum of that key's increments) |
| `GroupBy.AddedTotal` | drop_list.c:62-64 | one call raises the list's total by its increment less what a full counter turns away |
| `GroupBy.Conservation` | drop_list.c:62-64 | list total plus what full counters turned away is the sum of all increments, even past the length cap |
| `GroupBy.NothingSuppressed` | drop_list.c:62-64 | as long as no counter has reached the cap nothing was turned away |
| `Analyzers.PacketTable.constructor` | tsanalytics.c:69-73 | 8192 empty slots, only PID 0 and PID 0x14 enabled |
| `Analyzers.PacketTable.Collect` | tsanalytics.c:185-195 | only the packet's own slot changes, by the step of its PID; the others keep their buffers |
| `Analyzers.CollectInto` | tsanalytics.c:185-195 | packets with an error, without payload or of a PID that is not enabled leave the slot as it is; a completed PAT disables its PID |
| `Analyzers.LossLog.Log` | tsanalytics.c:181-182 | both lists take the increments that the checked entry holds, under the current time and the current percentile; they never share nodes |
| `Analyzers.NowFields` | tsanalytics.c:176-182 | the increments found in the entry after the check are those of this packet, although the loop raised `total` before |
| `Analyzers.CountPacket` | tsanalytics.c:172-176 | the loop's count and the check together advance the packet's PID by one step of the monitor |
| `Analyzers.Analyzer.CheckDrop` | tsanalytics.c:172-183 | counters and both lists advance together; slots, times and sync state stay |
| `Analyzers.Analyzer.CountSyncError` | tsanalytics.c:160-166 | the limit is compared with the repeat count before it grows |
| `Analyzers.Analyzer.TakeTime` | tsanalytics.c:197-220 | a section that is taken for a time offset table sets the current and last time, and the first one if there was none |
| `Analyzers.Analyzer.TakeSection` | tsanalytics.c:192-220 | a completed section on PID 0 becomes the program table, one on PID 0x14 a time if it is valid, whatever the uninitialised structures hold |
| `Analyzers.Analyzer.CollectAndTime` | tsanalytics.c:185-222 | the rest of a packet's turn, on the mutable buffers, is the state machine's |
| `Analyzers.Analyzer.Process` | tsanalytics.c:138-224 | one turn of the loop on arrays, buffers and linked lists is one step of the state machine |
| `Analyzers.Analyze` | tsanalytics.c:136-224 | for every input the loop ends in the state that the state machine reaches |
| `Accounting.RepeatIsBadRun` | tsanalytics.c:159-170 | until the latch the repeat counter is the length of the current run of packets without the sync byte |
| `Accounting.LatchIffBadStretch` | tsanalytics.c:159-170 | at every point the file is judged no transport stream exactly if 102 consecutive packets so far lacked the sync byte |
| `Accounting.LatchedForever` | tsanalytics.c:150-153 | after the latch no part of the state changes any more |
| `Accounting.CountsAreRun` | tsanalytics.c:172-176 | in every state the counter array is that of the accepted packets, in order |
| `Accounting.TotalOfRun` | tsanalytics.c:173 | the `total` fields sum to twice the counted packets |
| `Accounting.ReadCount` | tsanalytics.c:136-173 | packets read = accepted + sync errors + skipped after the latch |
| `Accounting.PacketAccounting` | tsanalytics.c:136-173 | at every point of every run twice the packets read is the sum of `total` plus twice the sync errors plus twice the packets skipped after the latch |
| `Accounting.EntriesAreIndependent` | tsanalytics.c:172-176 | in every state of every run each PID's entry is the monitor's result on that PID's accepted packets |
| `Accounting.StoredPackets` | m2tlib/drop_count.c:15-16 | in every state of every run a PID is used exactly if one of its packets was accepted, and then the stored packet is one of its own with the sync byte; repeats are at most 1 |
| `FileLoss.AllAccepted` | tsanalytics.c:159-170 | if every packet has the sync byte every packet is accepted |
| `FileLoss.AcceptedIsSynced` | tsanalytics.c:150-173 | the counted packets are the first ones with the sync byte, and all of them if the file is not judged |
| `FileLoss.SurvivorsOfSynced` | tsanalytics.c:159-170 | deleting packets and dropping those without the sync byte commute |
| `FileLoss.DropsMonotone` | tsanalytics.c:172-183 | more packets of the same stream never report fewer losses |
| `FileLoss.FileDropsOfSynced` | tsanalytics.c:136-183 | a file reports at most the losses among all its packets with the sync byte, and exactly those if it is not judged |
| `FileLoss.SkippedExactly` | tsanalytics.c:150-183 | what a file reports plus the losses among the packets skipped by its judgement are all the losses among its packets with the sync byte |
| `FileLoss.NoneSkipped` | tsanalytics.c:150-170 | nothing is hidden exactly if no packet with the sync byte after 102 consecutive ones without it is a loss to a monitor of all synced packets |
| `FileLoss.FileLossBound` | tsanalytics.c:136-183 | delete any packets from any file, with or without sync bytes: what is left reports at most one more loss for each maximal deleted stretch of a PID than there are among the synced packets, hence than the complete file reports if that is not judged; and the complete file reports at most that and one for each deleted packet more than there are among the synced packets left, hence than what is left reports if that hides nothing, as when it is not judged |
| `FileLoss.FileGapsReported` | tsanalytics.c:136-183 | if a file's PIDs have regular streams, then whatever is deleted, what is left reports exactly the gaps that are noticed, less what its own judgement hides |
| `JudgedFile.BoundedExactly` | tsanalytics.c:150-170 | a file's own losses bound, up to deleted stretches, those of everything left of it if and only if no packet after 102 consecutive ones without the sync byte would have been a loss; in particular if it is not judged |
| `JudgedFile.JudgedFileExceedsBound` | tsanalytics.c:150-170 | a concrete judged file with no reported loss, from which deleting one packet without the sync byte leaves at least two |
| `JudgedFile.JudgedRestFallsShort` | tsanalytics.c:162-165 | a concrete file that is not judged and reports at least three losses, from which deleting the one packet between two stretches without the sync byte leaves a judged file that reports none |
| `Accounting.SlotsAreIndependent` | tsanalytics.c:185-195 | in every state each PID's buffer is the result of that PID's accepted packets alone |
| `Accounting.StaysEnabled` | tsanalytics.c:185-195 | a PID other than the PAT's keeps collecting all its eligible packets |
| `Accounting.TotBuffer` | tsanalytics.c:185-200 | in every state the time offset table's buffer starts with the contributions of its PID's eligible packets since the last unit start |
| `Views.TimesHaveDays` | m2tlib/util.c:120 | no decoded date has day 0, which the program uses as its mark for no time yet |
| `Views.TimesAreTracked` | tsanalytics.c:203-214 | in every state the current, first and last time are the last, first and last of the times completed so far |
| `Views.ListsAreAdds` | tsanalytics.c:176-183 | in every state the time list holds each anomaly under the last time completed strictly before its packet (unknown if none), and the percent list under its percentile |
| `Views.PercentBounds` | tsanalytics.c:142 | percentiles never decrease along the file and stay below 100 |
| `Views.PercentIs` | tsanalytics.c:142 | packet i of n is filed under k if and only if k * n <= 100 * i < (k + 1) * n |
| `Views.OfPercentile` | tsanalytics.c:142-182 | what is added under k in all is the sum over the anomalies at exactly those positions |
| `Views.PercentsAscend` | tsanalytics.c:142 | the percent list's keys appear in strictly ascending order |
| `Views.PercentList` | tsanalytics.c:142-182 | in every state the percent list's keys are strictly ascending percentages 0..99, and the counter under k is min(99999999, sum over the anomalies at positions i with k * n <= 100 * i < (k + 1) * n) |
| `Views.TimeList` | tsanalytics.c:176-214 | in every state the time list is the capped group-by of the anomalies by the last time before each |
| `Views.SameAmounts` | m2tlib/drop_count.c:24-27 | what the PIDs are charged is what either list is given, for each of the three kinds of anomaly |
| `Views.ViewsConserve` | tsanalytics.c:176-183 | in every state, for each kind, the sum over all PIDs is the sum over either list plus what its full counters turned away |
| `Views.ThreeViewsAgree` | tsanalytics.c:176-183 | in every state whose list counters are below 99999999 the sums over PIDs, percentiles and times are equal, even past the length cap |
| `BroadcastTime.TimesAreDelivered` | tsanalytics.c:185-214 | the times of every run are exactly those of the valid tables that the packets of PID 0x14 deliver, in order, where deliveries are computed from the packets alone |
| `BroadcastTime.TransmittedTable` | tsanalytics.c:188-214 | behind any earlier packets of its PID a transmitted section of any table adds its time exactly if it passes the announced size, that is at least 7, and it has table id 0x73, syntax 0 and length at most 1021; any other section adds nothing |
| `BroadcastTime.TimeIsRead` | tsanalytics.c:136-222 | in any file, once the packets of a transmitted section are processed its time is the current key and the last time under exactly that condition; else, as for any other table, the times are those of before |
| `BroadcastTime.AnnouncesLength` | m2tlib/packet.c:42-46 | the announced size is the table's own length plus 3 if three of its bytes arrive in the first packet |
| `ProgramTable.FirstPatIsTaken` | tsanalytics.c:192-195 | in every state of every run the program table is the first one that PID 0 delivers; later ones are not looked at |
| `ProgramTable.ProgramsAreRead` | tsanalytics.c:185-195 | the first table transmitted on PID 0 is read with all its programs, once and in order, exactly if the transmission passes its size; otherwise there is still none |
| `Report.MarkLastDropCount` | m2tlib/drop_count.c:109-128 | exactly the highest used PID is marked, 8191 if none is, and nothing else changes |
| `Report.ConvJsonDropPid` | conv_json.c:18-40 | each used PID yields a line, followed by a comma unless it is marked |
| `Report.MarkedPidsAreJoined` | conv_json.c:24-35 | on a marked array that is the used PIDs separated by commas with none trailing, also if there are none |
| `Report.ReportPids` | tsanalytics.c:227 | marking and printing any array gives its used PIDs separated by commas |
| `Report.LinesAscend` | conv_json.c:24-35 | the lines are of used PIDs only, in ascending order, and the columns total, drop, error and scrambling of each are the entry's fields of those names |
| `Report.LinesComplete` | conv_json.c:24-35 | every used PID has a line that shows its entry |
| `Report.JoinedShape` | conv_json.c:32-33 | a joined list has items in the even places, commas in the odd ones and an item at either end |
| `Report.FirstLinesAre` | conv_json.c:48-66 | what is printed of a list is its first 20000 entries, or all if there are fewer |
| `Report.ConvJsonDropKey` | conv_json.c:43-73 | the first min(20000, length) entries of any list, in order, separated by commas with none trailing |
| `Report.ReportPrograms` | tsanalytics.c:305-314 | each entry with a non-zero program yields an item, followed by a comma unless the entry is the table's last |
| `Report.ProgramsJoined` | tsanalytics.c:305-314 | the programs are separated by commas with none trailing if and only if the last entry is a program or there is no program; otherwise exactly one comma trails |
| `Report.NetworkEntryLast` | tsanalytics.c:305-314 | a concrete table with a trailing comma |
| `Columns.ItemsOfJoined` | conv_json.c:32-33 | the items between the commas of a joined list are what was joined |
| `Columns.PrintedColumns` | conv_json.c:24-35 | in every state each column of the PID list sums to the tallies of all 8192 PIDs of that kind, and the column of totals to all totals, although unused PIDs have no line |
| `Columns.TimeKeys` | tsanalytics.c:176-214 | every key given to the time list is a time that a table gave before, or says that there was none |
| `Columns.PercentListShort` | tsanalytics.c:142-182 | in every state the percent list has at most 100 entries, under strictly ascending percentages below 100 |
| `Tsanalytics.Run` | tsanalytics.c:136-333 | the program without its hashes prints the file's own data alone for a judged file, and otherwise counts, times, PAT and the three lists of the final state |
| `Tsanalytics.PrintedPids` | tsanalytics.c:318 | the printed PID list is joined, has a line for exactly the PIDs with counted packets, in ascending order, and each line shows what the monitor makes of that PID's packets alone |
| `Tsanalytics.PrintedKeys` | tsanalytics.c:322-326 | drop_percent is the whole percent list, ascending, and drop_tot the first min(20000, length) entries of the time list, both joined |
| `Tsanalytics.PrintedPercentages` | tsanalytics.c:322 | the counters printed under k are the capped sums over the anomalies in the k-th percentile of the file |
| `Tsanalytics.PrintedTimes` | tsanalytics.c:326 | every printed time is one that a table gave, or unknown, and its counters are the capped sums of the anomalies filed under it |
| `Tsanalytics.PrintedViewsAgree` | tsanalytics.c:318-326 | while no printed counter is 99999999 and drop_tot has fewer than 20000 lines, each kind of anomaly has the same sum in all three printed lists |
| `Tsanalytics.PrintedPrograms` | tsanalytics.c:303-314 | if the first table on PID 0 is transmitted past its size, the printed transport_stream_id is the encoded one and the printed programs are the encoded non-zero ones in order, well joined exactly unless a network association ends a list with programs |
| `Tsanalytics.OutputMeaning` | tsanalytics.c:281-326 | TSInfo is missing exactly if 102 consecutive packets lacked the sync byte; otherwise twice packet_total is the sum of the printed totals plus twice sync_error, each printed column sums to the tallies of its kind and within the limits of printing to the totals of both other lists, lines, percentages and times are as stated above, the first and last time are the first and last completed, and the programs are those of the first PAT delivered |
| `SectionAssembly.StepKeepsValid` | m2tlib/packet.c:28-119 | every step keeps the buffer invariant: while a section loads at most `size` bytes are copied into size + 188, so every copy fits and 16-bit fields never wrap |
| `SectionAssembly.ReadLength` | m2tlib/packet.c:42-43 | the 12 bits read at the assumed payload start are the section_length field there |
| `SectionAssembly.PacketSlot.Open` | m2tlib/packet.c:35-60 | a unit start resets the copied bytes and gives a zeroed buffer of the announced size plus 188, whatever the slot held |
| `SectionAssembly.PacketSlot.Append` | m2tlib/packet.c:92-93 | the bytes go behind those already copied and the rest of the buffer stays |
| `SectionAssembly.PacketSlot.Close` | m2tlib/packet.c:99-125 | a section is complete only when exceeded; below 7 bytes it is dropped; PID 0 is not checked, others get the CRC verdict by the length field that the buffer holds |
| `SectionAssembly.PacketSlot.Store` | m2tlib/packet.c:11-128 | on the heap, slot and result are those of the specified step, and the invariant is kept |
| `SectionAssembly.PacketSlot.Free` | m2tlib/packet.c:131-141 | everything but the enabling is cleared |
| `SectionAssembly.VerdictKept` | m2tlib/packet.c:99-113 | crc_check changes only with a call that returns 1, and never on PID 0 |
| `Reassembly.BufferHoldsContributions` | m2tlib/packet.c:28-93 | in every reachable state the buffer starts with exactly the contributions of the packets accepted since the last unit start |
| `Reassembly.Gathering` | m2tlib/packet.c:28-119 | whatever the slot held before, a transmission that has not yet passed its announced size is gathered in full and in order |
| `Reassembly.HeaderInOnePiece` | m2tlib/packet.c:42-46 | if three bytes arrive in the first packet the announced size is the section's own length field plus 3 |
| `Reassembly.GatheredVerdict` | m2tlib/packet.c:112 | if the header arrived in one piece the verdict on a gathered section is the CRC of exactly its own bytes |
| `Reassembly.SectionDelivered` | m2tlib/packet.c:99-125 | a packet of a transmission whose earlier packets did not pass the size reports exactly if it passes it; then all section bytes are present and, except on PID 0, crc_check is their CRC verdict |
| `Deliveries.SlotFollows` | m2tlib/packet.c:28-125 | in every reachable state loading, size and the whole buffer are functions of the PID's packets; a call returns 1 exactly if its packet completes a section, and then crc_check is the verdict on that buffer |
| `Deliveries.DeliveredOnce` | m2tlib/packet.c:99-125 | behind any earlier packets a transmission is reported exactly once if it passes its announced size and that is at least 7, else never, and the reported buffer starts with the section |
| `Deliveries.ReportedOnce` | m2tlib/packet.c:99-125 | from any slot whatever, the calls for a transmission return 1 once under that condition and otherwise never |
| `Deliveries.LoadingUntilPassed` | m2tlib/packet.c:99-119 | a transmission keeps its slot loading exactly until it passes its announced size |
| `Deliveries.ReportsAreDeliveries` | m2tlib/packet.c:121-125 | over a PID's whole history the calls that return 1 are the deliveries |
| `Deliveries.VerdictStays` | m2tlib/packet.c:109-113 | once a transmission on a PID other than 0 has passed its size, and to its end, crc_check is the CRC verdict on its section |
| `Deliveries.CorruptedTransmission` | m2tlib/packet.c:109-113 | of two transmissions of the same announced size whose sections differ, but only inside 32 consecutive bits, at most one is recorded as correct, from any slots |
| `Deliveries.ExactFitIsLost` | m2tlib/packet.c:100 | a concrete packet whose section ends exactly with it: it is transmitted in full and never reported, whatever the slot held |
| `Crc32.TableEntry` | m2tlib/crc32.c:10-54 | each of the 256 table words is its index shifted out through eight division steps by 0x04C11DB7 |
| `Crc32.TableStep` | m2tlib/crc32.c:60 | a table step is eight steps of bit-at-a-time division, for every register and byte |
| `Crc32.Update` | m2tlib/crc32.c:60 | the program's update divides by the bits of the byte |
| `Crc32.Compute` | m2tlib/crc32.c:7-64 | for every byte string the table-driven loop is the remainder of bit-at-a-time division from an all-ones register; none for a negative length |
| `Crc32.CheckValue` | m2tlib/crc32.c:56-64 | the digits 1 to 9 in ASCII leave 0x0376E6E7, the catalogued check value of CRC-32/MPEG-2 |
| `Crc32.AcceptedSection` | m2tlib/crc32.c:79-87 | the stored word equals the computed one exactly if the division of data and word together leaves zero |
| `Crc32.Check` | m2tlib/crc32.c:70-93 | for every section_length from 1 on the result is 1 exactly if all section_length + 3 bytes divide without remainder; for 0 the cursor wraps and a word far behind is compared with the untouched register |
| `Crc32.CursorLands` | m2tlib/crc32.c:79 | the 64-bit cursor lands on the last four of section_length + 3 bytes, also when it moves backwards, and wraps only for length 0 |
| `Crc32.DivideBitInjective` | m2tlib/crc32.c:60 | a division step loses nothing of the register |
| `Crc32.ShortBurst` | m2tlib/crc32.c:59-61 | two different strings of the same length up to 32 bits never lead to the same register |
| `Crc32.BurstChangesRemainder` | m2tlib/crc32.c:59-61 | strings of any length that differ only inside 32 consecutive bits have different remainders |
| `Crc32.BurstDetected` | m2tlib/crc32.c:70-93 | of two different sections with the same section_length, at least 1, that agree outside 32 consecutive bits, check bits included, at most one passes the check |
| `Crc32.FourBytesAreABurst` | m2tlib/crc32.c:70-93 | any four consecutive corrupted bytes are such a burst |
| `Header.StHead` | m2tlib/head.c:39-101 | with the sync byte every field is that of the packet; without it only the first eight bytes of the structure are cleared |
| `Header.HeaderFields` | m2tlib/head.c:54-60 | the bit reads in sequence are the header's fields |
| `Header.HeadRoundTrip` | m2tlib/head.c:54-101 | from the four encoded header bytes every field comes back, and the payload is taken to begin at 4, 0, 4 + length byte or 4 for control 1, 2, 3 and 0, one byte later if a unit starts |
| `Header.EveryPacketHasFields` | m2tlib/head.c:54-60 | conversely every packet with the sync byte is the encoding of the fields that are read from it |
| `BitReader.LoadWord` | m2tlib/util.c:32-39 | the loop assembles eight bytes into their 64-bit big-endian value |
| `BitReader.OrDisjoint` | m2tlib/util.c:38 | or-ing into cleared low bits is addition |
| `BitReader.CutLeading` | m2tlib/util.c:42-44 | shifting left and back, with overflow, drops exactly the bits before the cursor |
| `BitReader.CutTrailing` | m2tlib/util.c:47 | shifting right drops exactly the bits behind the field |
| `BitReader.GetBit` | m2tlib/util.c:8-57 | the value of the gbit bits from boff on, big-endian, and a cursor advanced by gbit, whenever the field lies in the eight bytes loaded |
| `BitReader.BitsSplit` | m2tlib/util.c:8-57 | reading m bits and then n bits splits a read of m + n bits |
| `BitReader.NumberOfBits` | m2tlib/util.c:8-57 | the bits of a number read back as that number |
| `Sections.ReadHeader` | m2tlib/pat.c:14-24 | the eight common header bytes, field by field, and the cursor behind them |
| `Sections.HeaderRoundTrip` | m2tlib/pat.c:14-24 | decoding inverts encoding of the common header for all values of the reserved bits |
| `Pat.StPat` | m2tlib/pat.c:9-64 | on any memory the header, the count by the wrapping formula, and that many entries in order |
| `Pat.ReadEntry` | m2tlib/pat.c:45-54 | an entry's PID goes to the network PID for program 0 and to the map PID otherwise |
| `Pat.EntryRoundTrip` | m2tlib/pat.c:45-54 | an encoded association comes back with its program and its PID in the network field for program 0 and in the map field otherwise, the other field 0 |
| `Pat.CountOfPids` | m2tlib/pat.c:27 | from length 9 on the count is what fits between header and CRC; it wraps exactly below length 6 |
| `Pat.EntriesRoundTrip` | m2tlib/pat.c:35-64 | all encoded associations come back once and in order |
| `Pat.PatRoundTrip` | m2tlib/pat.c:9-64 | decoding inverts encoding for every well-formed section, whatever the reserved bits, the CRC and the bytes behind |
| `Pat.GetPmtPid` | m2tlib/pat.c:102-116 | the walk returns the map PID of the first entry of a non-zero program, 0 if there is none |
| `Pat.LookupDecoded` | m2tlib/pat.c:102-116 | looking a non-zero program up in a decoded table gives the PID of its first association, 0 if it has none |
| `Pmt.StPmt` | m2tlib/pmt.c:7-73 | for every length from 4 on, on any memory, the loop ends and decodes the streams that start before section_length - 4 |
| `Pmt.LoopEnds` | m2tlib/pmt.c:38-45 | below length 4, and only there, the 64-bit end wraps so that no cursor value ends the loop: the source never returns |
| `Pmt.ReadStream` | m2tlib/pmt.c:53-60 | an entry's fixed part is read and the cursor moves by five bytes and its descriptors |
| `Pmt.StreamRoundTrip` | m2tlib/pmt.c:53-57 | an encoded entry comes back with its stream type, PID and descriptor length |
| `Pmt.StreamsRoundTrip` | m2tlib/pmt.c:45-71 | every loop bound up to four bytes short of the entries' end decodes each entry exactly once |
| `Pmt.PmtRoundTrip` | m2tlib/pmt.c:7-73 | every well-formed section gives back its PCR PID and, once and in order, each stream's type, PID and descriptor length; the CRC is never taken for a stream |
| `Eit.StEit` | m2tlib/eit.c:13-161 | accepted exactly for the EIT table ids with syntax 1 and length up to 4093; the event list is that of the two nested loops, empty if rejected, with a possible duration in seconds for each event |
| `Eit.AcceptedHeader` | m2tlib/eit.c:51-62 | an encoded header is accepted if and only if its table id is 0x4E or 0x50 to 0x5F, its syntax 1 and its length at most 4093 |
| `Eit.ReadEvents` | m2tlib/eit.c:68-157 | on any memory the events by the outer loop's three ways to stop, each with a possible duration in seconds |
| `Eit.ReadEvent` | m2tlib/eit.c:77-99 | an event's fixed part, one of the possible durations in seconds, and a cursor moved by twelve bytes |
| `Eit.ReadDuration` | m2tlib/eit.c:88-94 | the 24-bit duration, and its bytes as hours, minutes and seconds in whichever order the reads happen |
| `Eit.SecondsDetermined` | m2tlib/eit.c:92-94 | the duration meant is one of the values that C allows, and the only one if and only if hours, minutes and seconds are the same number |
| `Eit.SecondsOfPacked` | m2tlib/eit.c:92-94 | packed decimal hours, minutes and seconds, read in order, are 3600, 60 and 1 times their values |
| `Eit.ReadDescriptors` | m2tlib/eit.c:113-146 | the inner loop and the byte it stops at |
| `Eit.DescriptorsRoundTrip` | m2tlib/eit.c:113-146 | up to 100 encoded descriptors come back in order and the cursor stops right behind them |
| `Eit.EventRoundTrip` | m2tlib/eit.c:77-99 | decoding inverts encoding of an event's fixed part |
| `Eit.EventsRoundTrip` | m2tlib/eit.c:47-157 | the start value of the byte counter may be off by up to eleven without effect |
| `Eit.EitRoundTrip` | m2tlib/eit.c:13-161 | for every well-formed section with at most 100 descriptors per event exactly the first min(100, n) events are decoded, with all descriptors in order |
| `Eit.DecodedInFull` | m2tlib/eit.c:68-157 | a well-formed section is decoded in full if and only if it has at most 100 events and each at most 100 descriptors |
| `Eit.LimitsAreReached` | m2tlib/eit.c:68-114 | concrete well-formed sections, one with 101 events and one with 101 descriptors, that are not decoded in full |
| `Eit.EventLimits` | m2tlib/eit.c:68-157 | on any memory at most 100 events with at most 100 descriptors each are built |
| `Tot.StTot` | m2tlib/tot.c:12-45 | valid exactly for table id 0x73, syntax 0 and length up to 1021; then the time is decoded, otherwise it keeps its stale value |
| `Tot.TotRoundTrip` | m2tlib/tot.c:12-45 | encoded bytes with any table id, syntax bit and length are valid if and only if the id is 0x73, the syntax 0 and the length at most 1021, and give back their date and clock |
| `Adaptation.Extract` | m2tlib/head_adapt.c:10-138 | on every input the described structure, clock values included, if all declared fields fit, otherwise the zero structure, reading only bytes that the length byte covers |
| `Adaptation.ExtractFixed` | m2tlib/head_adapt.c:18-85 | the pointer never passes the declared end; the fields before the extension are read if and only if they fit |
| `Adaptation.ExtractExtension` | m2tlib/head_adapt.c:87-136 | the remaining-byte counter rejects exactly the extensions that announce more than they hold |
| `Adaptation.AllOrNothing` | m2tlib/head_adapt.c:18-136 | the zero structure means exactly that the field does not fit |
| `Adaptation.OnlyDeclaredBytes` | m2tlib/head_adapt.c:23-136 | bytes behind the declared length have no influence |
| `AdaptationCoding.ExtensionRoundTrip` | m2tlib/head_adapt.c:87-136 | an encoded extension is accepted and its offset, rate, splice type and time stamp come back |
| `AdaptationCoding.SourceRoundTrip` | m2tlib/head_adapt.c:23-138 | every encoded field with a flag byte, of length 1 to 183, is accepted and decoded back, whatever follows it |
| `AdaptationCoding.RoundTrip` | m2tlib/head_adapt.c:10-138 | the same for every field of section 2.4.3.4 of ISO/IEC 13818-1, the single zero byte included, which reads as the zero structure |
| `AdaptationCoding.FieldEncoded` | m2tlib/head_adapt.c:23-136 | conversely an accepted field is the encoding of what was read |
| `AdaptationCoding.EncodedIsNotEmpty` | m2tlib/head_adapt.c:87-103 | no field of the standard has an empty extension |
| `AdaptationCoding.AcceptedExactly` | m2tlib/head_adapt.c:18-136 | the bytes start with a field of the standard if and only if the length byte is 0 or they are accepted and have no empty extension; fields with an empty extension are accepted too and are disjoint from those |
| `AdaptationCoding.EmptyExtensionExists` | m2tlib/head_adapt.c:87-103 | a concrete accepted field that is none of the standard's |
| `AdaptationCoding.ClockExactly` | m2tlib/head_adapt.c:47-49 | the clock value is the standard's 42 bits if and only if the base is below 2^32 and the extension below 256 |
| `AdaptationCoding.ClockFails` | m2tlib/head_adapt.c:47-49 | concrete clock references whose value is wrong |
| `PacketCoding.AdaptationRead` | m2tlib/head.c:89-93 | a packet with an encoded adaptation field behind its header reads as that field, and announces a discontinuity exactly if the field says so |
| `PacketCoding.NoAdaptation` | m2tlib/head.c:89-93 | a packet whose encoded control announces no adaptation field reads as the zero structure |
| `PacketCoding.PayloadContributed` | m2tlib/head.c:68-86 | a packet written without an adaptation field contributes its payload, less the first byte if it starts a unit |
| `PacketCoding.ShiftedPayloadContributed` | m2tlib/head.c:76-86 | a packet written as header, adaptation field and payload contributes the field's last byte and then the payload, or just the payload if it starts a unit |
| `PacketCoding.CopyableExactly` | m2tlib/packet.c:77-85 | a packet is copied from exactly if the offset computed from its encoded fields is at most 188 |
| `PacketCoding.LeftAlone` | tsanalytics.c:185-187 | packets whose encoded error indicator is set or whose control is 2 change no slot, time or program table |
| `PacketCoding.HandedToSlot` | tsanalytics.c:185-195 | all others change exactly the slot of their encoded PID, by one step if it is enabled, and a PAT that this completes disables it |
| `PacketCoding.EnabledAtStart` | tsanalytics.c:69-73 | at the start exactly PID 0 and PID 0x14 are enabled |
| `Calendar.MjdNext` | m2tlib/util.c:110-122 | for every day number the conversion of the next one is the next day of the Gregorian calendar, and every result is a valid date |
| `Calendar.MjdEpoch` | m2tlib/util.c:110-122 | day 0 is 17 November 1858 |
| `Calendar.MjdIncreasing` | m2tlib/util.c:110-122 | later day numbers are later dates, so no two share one |
| `Calendar.CenturyNext` | m2tlib/util.c:115-120 | the divisions by 1461, 4 and 306 advance day by day inside a century that starts in March |
| `Calendar.CenturyWrap` | m2tlib/util.c:113-115 | a century ends with 29 February only every fourth time and the next starts on 1 March |
| `Calendar.MjdFits` | m2tlib/util.c:111-118 | for 16-bit day numbers no intermediate value leaves a 32-bit int or is negative, so truncating division is the mathematical one |
| `Calendar.HexToDigiValue` | m2tlib/util.c:96-102 | print as hexadecimal and read as decimal: the digits, cut at the first letter |
| `Calendar.PackedDecimal` | m2tlib/util.c:94-102 | the byte's digits come back as they read exactly if both are decimal |
| `Calendar.LetterCutsShort` | m2tlib/util.c:94-102 | a concrete byte whose digits do not come back |
| `Calendar.PackedRoundTrip` | m2tlib/util.c:94-102 | a packed decimal 0..99 comes back |
| `Calendar.TimeToTm` | m2tlib/util.c:124-136 | date and clock of the five bytes, with a valid date |
| `Calendar.TimeInjective` | m2tlib/util.c:124-136 | for decimal clock digits two times are equal exactly if their five bytes are, so the text is a faithful key |

## Left out

- Opening and reading files, arguments, hashes: the model starts from a sequence of 188-byte packets.
- Formatting of the output: numbers, braces and indentation; lists are items and commas, times are values.
- m2tlib/descriptor.c and the dump functions.
- malloc and free: buffers have capacity and contents, lists have nodes, but allocation failure, lifetimes and the doubled allocation at m2tlib/packet.c:52-55 are not modelled.
- The lists of PAT entries, PMT streams, EIT events and descriptors are kept as sequences that the loops extend; the `next` pointers themselves are not modelled there (they are for the loss lists).
- Widths of counters: packet counts, tallies and bit cursors are unbounded; the source's are 64 bits wide, and each is at most a small multiple of the number of packets or of a section's bits.
- The 32-bit words of the CRC are strings of 32 bits; only the table's literals are machine words, and they are looked up in rows of sixteen.
- Pmt.StPmt: requires section_length at least 4; below that the source does not return (`Pmt.LoopEnds`).
- Tsanalytics.Run: does not model the hashes, nor what is printed of the PAT's structure when no PAT was complete, because the source then reads uninitialised memory.
- Adaptation.ExtractFixed: takes the shift of a byte above 127 into the sign of an int as two's complement, which C leaves undefined.
- BitReader.GetBit: requires the field to lie in the eight bytes loaded, which every call in the source satisfies; beyond that the C shift is undefined.
- Header.StHead: a packet is read without memory behind it, because all header fields end within its first twelve bytes; the part of a structure that is cleared without the sync byte is that of a machine with 8-byte pointers.
