# Verification of the BLE concentrator's collect-and-deliver pipeline

A Dafny model of the firmware of a BLE concentrator, and of the bench server that reads its uplinks, from the radio
callback to the decoded record. `dafny verify dfyconfig.toml` checks all of it.

An endpoint's advertisement is put in a bounded pool by the radio callback (`Intake`, `Acquisition`, `RingQueue`),
parsed by the acquisition thread (`AdParser`) and recorded in the device table (`TableModel`, `DeviceTable`). The comms
thread takes a snapshot of what is pending, fragments it, hands the fragments to the link and acknowledges what was
accepted (`Dispatch`, `CommsService`, `CommsProtocol`), while advertisements keep landing. On a TCP link the bytes go
out in partial writes (`SocketLink`) and are read in arbitrary chunks by a server that reassembles fragments from a
stream without framing (`UplinkReceiver`). Around all of it, the application state machine joins the network, retries
and stops (`AppModel`, `Application`, `HardErrorSilence`).

How the model is built:

- Code that changes state in place is a class with the same fields, arrays and loops (`DeviceTable`, `CommsService`,
  `Acquisition`, `SocketLink`, `RingQueue.Queue`, `Application`). Each of its methods is proved to leave exactly the
  state a specification function gives, and the properties are proved about those functions over whole runs.
- Two threads meet in `Delivery`: a step is one locked section of the table or one answer of the link, and steps
  interleave freely. The state also keeps what the firmware does not: the history of advertisements, which of them each
  slot shows, unbounded update counts and everything the link accepted. `CycleTrace` and `Runs.CyclesLead` show
  that the dispatch code is such a run, so what holds of all runs holds of the code.
- The link, the clock, the acquisition thread's timing and the counters it owns are parameters of a cycle
  (`Dispatch.Env`), unconstrained unless a theorem says otherwise. Capacities, payload limits, the silence limit and the
  staleness limit are parameters too.
- The record size is a parameter of the receiver and the link, and 26 wherever fragments are built.
- In `AppModel` a step handles one event of one thread, or fires a timer, or posts an event from outside. Every handler
  posts at most one event to the comms port, so nothing could come between two posts of one handler.

Main results:

- What was acknowledged was sent, and the server has it exactly when it has read that far; nothing it reads was made up
  (`EndToEnd`), and no advertisement is read twice (`ReadOnce`). `DeliveryExact.DeliveryHoldsExactly` is the exact
  condition under which the 16-bit acknowledgement counters keep their promise.
- The table is a cache of the most recently heard devices (`Recency`).
- Exactly when a cycle transmits what, with which header (`CycleLaws`, `HeaderCounts`, `Histories`); fragmentation,
  bounded draining, true ages, the silence bound and the distance between heartbeats (`Dispatch`, `Drain`, `Timing`,
  `Heartbeats`).
- The byte stream delivers exactly the sends that succeeded and have been read, however it is cut (`SocketLink`,
  `UplinkReceiver`).
- Every report is accounted for and none is stranded (`Intake`, `IntakeTrace`), and every record the server has was a
  report once (`Firmware`, one machine with the steps of the application, the intake and the protocol).
- There is exactly one join attempt where there should be one, each answer leads where it should, the backoff doubles
  to its cap, and HARD_ERROR falls silent exactly when its stop finds room (`AppModel`, `Transitions`,
  `HardErrorSilence`).

Where the code and what is written about it differ, the model follows the code:

- src/svc/device_table/subsystem.hpp:73-76 calls the acknowledgement race-free. It is, except when the 16-bit counter
  comes round or a device is evicted and returns in flight: `DeliveryExact.DeliveryHoldsExactly`,
  `Delivery.WrapLosesReading`, `Delivery.EvictAndReturnLosesReading`.
- src/svc/comms/subsystem.cpp:448-451 says the next snapshot leads with what was deferred, and calls that exact. The
  snapshot is in slot order: `Fairness.CarriedExactly` has the rule, `Fairness.SecondDeviceWaitsForEver` a device that
  starves another on a link with room for one record a cycle, such as 53 bytes with an allowance of one.
- src/svc/comms/subsystem.cpp:218-220 acknowledges only what actually left the device. What left it is what the kernel
  took, and bytes on their way when the peer dies are acknowledged all the same: `InFlight.BytesInFlightAreLost`.
- src/app/state_machine/soft_error/soft_error.cpp:30-34 says the backoff survives leaving and re-entering the state.
  The state is left only by a successful join, which resets it, or for good: `AppModel.DelaysDoubleToTheCap` shows that
  every visit starts at 30 s.
- src/hal/link/link.md:168-171 says the state machine's error path rebuilds a broken connection. Nothing in the machine
  posts the soft error that would: `AppModel.RejoinsExactly`, `AppModel.OnlySoftErrorRejoins`.
- tests/utils/uplink_protocol.py:25-28 still decodes 25-byte records, the firmware sends 26:
  `SocketLink.ShortRecordsLeaveBytes` says what that does to the stream.
- src/svc/comms/comms_protocol.hpp:36-44 says a heartbeat has nothing new to report. One sent because no record fits may
  have devices pending: `Histories.HeartbeatExactly`.
- src/svc/comms/comms_protocol.hpp:53 says the sequence number increments once per dispatch cycle. Cycles that send
  nothing take none: `Histories.TakesNumberExactly`.
- docs/ARCHITECTURE.md:223-239 and :303 still describe 25-byte records and a heartbeat counted in cycles.

## Model

| member | source | states |
|---|---|---|
| EndToEnd.AcknowledgedWasSent | src/svc/comms/subsystem.cpp:209-224 | the purpose of the pipeline: over any number of cycles, advertisements landing anywhere, any refusals, any number of connections, partial writes and read chunks, in every sound run (see `DeliveryExact`) the very reading the table shows of a device that is not pending was sent, and the server has decoded it if and only if it has read that far |
| EndToEnd.NoReadingIsLost | src/svc/comms/subsystem.cpp:209-224 | once the server has read what the link accepted, it has the very reading the table shows of every device that is not pending |
| EndToEnd.SentIsReadExactly | tests/utils/uplink_protocol.py:174-200 | a record sent at some place is decoded there, with the same address, strength and reading, if and only if the bytes read cover its fragment |
| InFlight.BytesInFlightAreLost | src/hal/link/socket/socket_link.cpp:143-146 | a sound run in which a reading is acknowledged and the server never gets it, because the first read of the server finds the connection gone while its bytes are on their way: for every advertisement, configuration and fragment size |
| EndToEnd.NothingIsInvented | tests/utils/uplink_protocol.py:174-200 | every record the server decodes repeats the address, signal strength and reading of an advertisement that was heard, in any run and however far the server has read |
| Firmware.EveryRecordWasReceived | src/svc/acquisition/subsystem.cpp:147-197 | from the radio to the server: for every history of cycles that is what some run of the whole firmware does to its table, every decoded record is the frame inside a report the radio delivered, with its address and strength |
| Firmware.HeardIsDrained | src/svc/acquisition/subsystem.cpp:147-197 | over any run of the whole firmware, what the table has heard is what the reports drained say, in order, and received = drained + pooled + dropped |
| ReadOnce.ReadAtMostOnce | src/svc/device_table/subsystem.cpp:183-188 | no two records the server decodes, on whatever connections, stand for the same advertisement: each is read at most once, in any run |
| Firmware.ReplayIsAdverts | src/svc/acquisition/subsystem.cpp:154-174 | draining reports leaves the table the acknowledgement protocol has after the advertisements of those that parse |
| EndToEnd.ServerReadsAcceptedUplinks | tests/utils/uplink_server.py:110-141 | of every connection the server has decoded exactly the accepted uplinks that the bytes read so far cover, in order, header and every record field, and has not lost sync |
| Runs.CyclesLead | src/svc/comms/subsystem.cpp:315-457 | any number of dispatch cycles is one run of the acknowledgement protocol, and what the protocol counts as accepted is, entry by entry, what the accepted uplinks carried |
| EndToEnd.PayloadReads | tests/utils/uplink_protocol.py:149-171 | the payload of an uplink whose count is honest is a whole fragment to the receiver and parses back to the header and records it was built from |
| DeliveryExact.DeliveryHoldsExactly | src/svc/device_table/subsystem.hpp:69-83 | the "race-free" claim, exactly: a run keeps the delivery promise at every step if and only if no advertisement brings a counter round to its acknowledged value and no acknowledgement meets its own number on a newer reading |
| DeliveryExact.CalmRunsAreSound | src/svc/device_table/subsystem.hpp:69-83 | fewer than 2^16 advertisements between two acknowledgements, and no evicted device returning while its record is in flight, are enough for both |
| DeliveryExact.SoundMeansDelivered | src/svc/device_table/subsystem.cpp:199-216 | at the end of a sound run a device that is not pending has had exactly the advertisement its slot shows carried by an accepted fragment |
| Delivery.NotPendingMeansDelivered | src/svc/device_table/subsystem.cpp:124-216 | the same over every calm interleaving from an empty table, traced to the position of the advertisement in the history |
| UnackedPending.UnacknowledgedStaysPending | src/svc/comms/subsystem.cpp:212-224 | in every sound run whatever is in flight and not yet acknowledged, in particular every record of a refused fragment and of those behind it, is still pending |
| UnackedPending.UnacknowledgedStaysPendingExactly | src/svc/comms/subsystem.cpp:218-220 | in every run it stays so at every step if and only if no advertisement of an awaited device brings its counter round to the acknowledged value; eviction does not matter |
| UnackedPending.WrapInFlight | src/svc/device_table/subsystem.cpp:143 | a concrete run in which it does: 2^16 advertisements and nothing accepted |
| AtMostOnce.AcceptedAtMostOnce | src/svc/device_table/subsystem.cpp:183-188 | in every run, with no assumption, the link accepts no advertisement twice |
| Delivery.PendingExactly | src/svc/device_table/subsystem.cpp:183-188 | in every run a device looks delivered exactly when the true number of its advertisements since the last acknowledgement is a multiple of 2^16 |
| Delivery.StepKeepsProtocol | src/svc/device_table/subsystem.cpp:124-216 | the protocol invariant, over both threads: counters, acknowledged prefix and in-flight copies stay in step through every calm step |
| Delivery.HeardExactly | src/svc/device_table/subsystem.cpp:143-146 | recording an advertisement keeps the promise if and only if the incremented counter of a known device differs from the acknowledged one |
| Delivery.AckExactly | src/svc/device_table/subsystem.cpp:203-213 | acknowledging keeps the promise if and only if the slot it writes, if any, shows something delivered |
| Delivery.WrapLosesReading | src/svc/device_table/subsystem.cpp:143 | 2^16 advertisements without an uplink: a concrete run after which an undelivered reading no longer looks pending |
| Delivery.EvictAndReturnLosesReading | src/svc/device_table/subsystem.cpp:137-143 | a concrete run in which a device evicted and heard again in flight has its unsent reading acknowledged |
| CycleTrace.CycleIsRun | src/svc/comms/subsystem.cpp:315-457 | each dispatch cycle, for every behaviour of the link, the clock and the acquisition thread, is a run of the protocol that leaves the very same table and accepted entries |
| Recency.MostRecentlyHeard | src/svc/device_table/subsystem.cpp:51-149 | in every run under a clock that never goes back, acknowledgements included: one slot per address, holding its last advertisement; whoever was heard but is absent was last heard no later than every device present, and no slot is free; the eviction counter is true up to its ceiling |
| DeviceTable.DeviceTable.constructor | src/svc/device_table/subsystem.cpp:103-122 | the table starts with every slot blank and no evictions |
| DeviceTable.DeviceTable.FindEntry | src/svc/device_table/subsystem.cpp:51-62 | the loop finds the first slot in use with this address, or none |
| DeviceTable.DeviceTable.ClaimSlot | src/svc/device_table/subsystem.cpp:71-99 | the two loops choose the first free slot, else the first of those heard longest ago; only an eviction counts, up to the ceiling |
| DeviceTable.DeviceTable.Upsert | src/svc/device_table/subsystem.cpp:124-149 | the in-place update is the specification transition of one advertisement, slots and counter |
| DeviceTable.DeviceTable.TakeSnapshot | src/svc/device_table/subsystem.cpp:151-197 | the copying loop returns the specification snapshot, for any limit |
| DeviceTable.DeviceTable.MarkReported | src/svc/device_table/subsystem.cpp:199-216 | acknowledges exactly the slot whose address and counter match, nothing else |
| TableModel.UpsertedShows | src/svc/device_table/subsystem.cpp:128-146 | after an advertisement its slot shows it, and no other slot has changed |
| TableModel.SnapshotExact | src/svc/device_table/subsystem.cpp:158-196 | asked for the full capacity, a snapshot is exactly the reportable entries, in slot order |
| TableModel.SnapshotIsFront | src/svc/device_table/subsystem.cpp:165-168 | asked for fewer, a snapshot is the first that many of the full one |
| TableModel.ReportableInPlainTerms | src/svc/device_table/subsystem.cpp:158-181 | the unsigned age test is a test of the true age: an entry refreshed after the clock was read is left for later |
| CycleLaws.ProbesExactly | src/svc/comms/subsystem.cpp:271-334 | an empty frame goes out exactly when the link is up and its rate cannot carry the 12-byte header; it is then all the cycle transmits, and table and statics stay as they were |
| CycleLaws.SilentExactly | src/svc/comms/subsystem.cpp:315-392 | exactly when a cycle transmits nothing: no link, no room beside other traffic, nothing to report and no silence to break, or no uplink allowed |
| CycleLaws.HeartbeatsExactly | src/svc/comms/subsystem.cpp:245-269 | with room for records and nothing to report, something goes out exactly when the limit is not zero and the last uplink is at least that long ago, and it is a single heartbeat |
| CycleLaws.HeadersAreTrue | src/svc/comms/subsystem.cpp:174-194 | every header names the concentrator, its own index, a common count that is at least the number transmitted, its records, min(dropped reports, 255) and known flags only; one without records is fragment 0 of 1 |
| CycleLaws.SilenceClockExactly | src/svc/comms/subsystem.cpp:212-228 | whatever the link answers, the silence clock shows when the last accepted uplink with a header left; refused uplinks, header-only ones included, and probes leave it alone |
| HeaderCounts.HeaderCountsAreTrue | src/svc/comms/subsystem.cpp:181-182 | in every history the header of every uplink, heartbeats included, says min(n, 255) for the n devices really evicted up to that moment, and min(n, 255) for the reports dropped |
| HeaderCounts.ServerReadsTrueCounts | tests/utils/uplink_protocol.py:127-146 | and those are the counts in the header of every fragment the server decodes |
| Dispatch.CycleFragments | src/svc/comms/subsystem.cpp:357-441 | for every snapshot, payload limit and allowance the accepted fragments concatenate to a prefix of the snapshot; each is non-empty, fits, and carries its index of a common count; only the last can be refused; full success sends min(total, per fragment x allowance) |
| Dispatch.FragmentCountFits | src/svc/comms/subsystem.cpp:398-427 | no fragment within the count is empty and together they reach min(total, per fragment x allowance): the 8-bit count and loop never overrun |
| CommsService.CommsService.BuildFragment | src/svc/comms/subsystem.cpp:196-207 | the bytes copied into the buffer are the encoding of the header and the records, within 255 bytes |
| CommsService.CommsService.SendFragment | src/svc/comms/subsystem.cpp:167-237 | header flags and counters, the one transmission, and acknowledgement and silence clock only on acceptance |
| CommsService.CommsService.AcknowledgeAll | src/svc/comms/subsystem.cpp:221-224 | acknowledges the entries one lock at a time, with advertisements in between |
| CommsService.CommsService.SendHeader | src/svc/comms/subsystem.cpp:263-268 | a header without records under a new sequence number, counting as the boot uplink if accepted |
| CommsService.CommsService.SendHeartbeatIfDue | src/svc/comms/subsystem.cpp:245-269 | a heartbeat only after the configured silence, never when it is zero |
| CommsService.CommsService.SendAllFragments | src/svc/comms/subsystem.cpp:420-441 | the loop over the shared table transmits and acknowledges what the specification says, stopping at the first refusal |
| CommsService.CommsService.Dispatch | src/svc/comms/subsystem.cpp:292-457 | the whole in-place cycle, probe and header-only paths included, is the specification cycle: table, statics and every byte handed to the link |
| Drain.DrainsInBoundedCycles | src/svc/comms/subsystem.cpp:386-457 | with nothing heard or going stale, p pending devices are each delivered once, in slot order, in exactly ceil(p / (per fragment x allowance)) successful cycles, and not one fewer |
| Drain.QuietCycle | src/svc/comms/subsystem.cpp:386-446 | one undisturbed cycle delivers and acknowledges exactly the first per fragment x allowance reportable devices |
| Drain.NextSnapshot | src/svc/device_table/subsystem.cpp:163-192 | after some devices of a snapshot are acknowledged the next snapshot is exactly the others |
| Fairness.CarriedExactly | src/svc/comms/subsystem.cpp:386-451 | the rule in place of fairness: in a fully accepted cycle a due device is carried if and only if fewer due devices than the cycle has room for sit in earlier slots |
| Fairness.DeferredLeadsExactly | src/svc/comms/subsystem.cpp:448-451 | a deferred device leads the next snapshot if and only if no earlier slot has anything to report |
| Fairness.BusyDeviceStarvesOthers | src/svc/comms/subsystem.cpp:448-451 | where a cycle has room for one record, a first-slot device advertising before every cycle keeps all others from being sent, over any number of fully successful cycles |
| Fairness.SecondDeviceWaitsForEver | src/svc/comms/subsystem.cpp:448-451 | from boot: of two devices heard before the first such cycle the second is never sent and stays pending with the reading it was first heard with |
| Timing.WireAgesAreTrue | src/svc/comms/subsystem.cpp:135-143 | every age on the wire is min(true age, 65535): no wrap, whatever is recorded between the clock readings |
| Timing.CycleBreaksSilence | src/svc/comms/subsystem.cpp:245-269 | one cycle on a willing link either is visible to the far end or follows a visible uplink by less than the limit |
| Timing.SilenceBound | src/svc/comms/subsystem.cpp:85-102 | with limit S and cycles at most P apart, at no time is the last uplink the far end could read S + P seconds ago, or boot if there was none yet, over records, heartbeats and header-only uplinks |
| Heartbeats.HeartbeatsKeepTheirDistance | src/svc/comms/subsystem.cpp:247-261 | over whole runs and any behaviour of the link, a heartbeat for want of anything to report comes no sooner than the limit after every uplink the far end could read, and none if the limit is zero |
| Histories.CycleNumbers | src/svc/comms/subsystem.cpp:176-194 | the fragments of a cycle carry one new sequence number, are indexed from zero, and are flagged BOOT together or not at all |
| Histories.HeartbeatMeansEmpty | src/svc/comms/comms_protocol.hpp:36-44 | in every cycle an uplink with a header declares exactly the records it carries and is flagged HEARTBEAT if and only if it carries none |
| Histories.HeartbeatExactly | src/svc/comms/comms_protocol.hpp:36-44 | with room for records the uplinks of a cycle are heartbeats if and only if nothing is pending and fresh; with room for a header only they always are |
| Histories.BootMarksFirstVisibleCycle | src/svc/comms/subsystem.cpp:184-189 | over a whole run the accepted uplinks flagged BOOT are exactly those of the first cycle that had one accepted |
| Histories.TakesNumberExactly | src/svc/comms/subsystem.cpp:360-446 | a cycle takes a new sequence number exactly when a header fits and there are records to send, a heartbeat is due or no record fits; that is when it transmits a header, but for a link that allows no uplinks |
| Histories.SequenceCounts | src/svc/comms/subsystem.cpp:79-80 | the sequence number is the low 16 bits of the number of cycles that took one |
| Histories.SequenceCountsTransmissions | src/svc/comms/subsystem.cpp:79-80 | on links that allow uplinks, it is the low 16 bits of the number of cycles that transmitted a header |
| Histories.NumberNamesFragment | src/svc/comms/subsystem.cpp:176-179 | within fewer than 2^16 numbered cycles sequence number and fragment index identify one transmission |
| CommsProtocol.HeaderLayout | src/svc/comms/comms_protocol.hpp:48-76 | every header field at its byte offset, low byte first |
| CommsProtocol.RecordLayout | src/svc/comms/comms_protocol.hpp:96-150 | every record field at its byte offset |
| CommsProtocol.ReadingLayout | src/svc/comms/comms_protocol.hpp:120-147 | every field of the endpoint's 17 bytes at its offset, signed ones as two's complement |
| CommsProtocol.HeaderRoundTrip | src/svc/comms/comms_protocol.hpp:48-76 | decoding an encoded header gives it back, whatever follows it |
| CommsProtocol.HeaderBytesRoundTrip | src/svc/comms/comms_protocol.hpp:48-76 | every 12 bytes are the encoding of the header they decode to |
| CommsProtocol.RecordRoundTrip | src/svc/comms/comms_protocol.hpp:96-150 | decoding an encoded record gives it back, signed fields included |
| CommsProtocol.RecordBytesRoundTrip | src/svc/comms/comms_protocol.hpp:96-150 | every 26 bytes are the encoding of the record they decode to |
| CommsProtocol.RecordsRoundTrip | src/svc/comms/subsystem.cpp:201-207 | any list of records survives, at 26 bytes each |
| CommsProtocol.FragmentRoundTrip | src/svc/comms/subsystem.cpp:196-207 | a fragment is 12 + 26 x records bytes and decodes to its header and records |
| SocketLink.SocketLink.Connect | src/hal/link/socket/socket_link.cpp:51-102 | an existing connection is untouched; otherwise it connects exactly when the server answers, with an empty stream, and names the failure and leaves no socket open when it does not |
| SocketLink.SocketLink.GetMaxPayloadSize | src/hal/link/socket/socket_link.cpp:154-166 | zero when down, the configured fragment size otherwise |
| SocketLink.SocketLink.Send | src/hal/link/socket/socket_link.cpp:109-147 | the partial-write loop: it succeeds exactly when the writes make progress until all is out; otherwise exactly what the writes before the refused one took is on the wire and the connection is given up; each other error exactly when it is due, changing nothing |
| SocketLink.WireHolds | src/hal/link/socket/socket_link.cpp:109-147 | the bytes of a connection are the payloads whose send succeeded, in order, and at most one stub of the send that broke it |
| SocketLink.StubNeverDecodes | tests/utils/uplink_protocol.py:191-198 | a fragment broken off midway never decodes and never costs sync |
| SocketLink.StreamDeliversAcceptedSends | tests/utils/uplink_server.py:110-141 | for every sequence of sends, every split into writes, every chunking of reads and however far the reads have got, the decoded fragments are exactly those whose send succeeded and whose bytes have been read, in order |
| SocketLink.DecodeFront | tests/utils/uplink_protocol.py:174-200 | decoding any front of a stream of whole fragments gives exactly the fragments it covers and never loses sync |
| SocketLink.ShortRecordsLeaveBytes | tests/utils/uplink_protocol.py:25-28 | a receiver that takes records to be one byte shorter leaves one byte per record and stays aligned if and only if the fragment carries none |
| UplinkReceiver.CollectFragment | tests/utils/uplink_protocol.py:149-171 | the record-collecting loop computes the fragment or the error the specification does |
| UplinkReceiver.ParsesExactly | tests/utils/uplink_protocol.py:127-171 | each parse error exactly when it is due: under 12 bytes, a count over 200, a length other than the declared one |
| UplinkReceiver.RecordIs | tests/utils/uplink_protocol.py:163-169 | record i is the record-sized slice behind the header and i others |
| UplinkReceiver.TakingInPlainTerms | tests/utils/uplink_protocol.py:174-200 | extraction waits, loses sync or cuts off exactly the declared length; only an implausible count can lose sync, and parsing the cut never fails |
| UplinkReceiver.DecodeInParts | tests/utils/uplink_protocol.py:174-200 | decoding a prefix and then the rest is decoding the whole |
| UplinkReceiver.DecodeAccounts | tests/utils/uplink_protocol.py:174-200 | decoding accounts for every byte and reports lost sync exactly when the next complete header declares more than 200 records |
| UplinkReceiver.ServeOne | tests/utils/uplink_server.py:110-141 | the nested chunk loop yields exactly the fragments of the concatenated bytes, and the same verdict on sync |
| UplinkReceiver.ServeIsDecode | tests/utils/uplink_server.py:110-141 | serving read by read with a carried buffer is decoding everything received |
| UplinkReceiver.ChunkingDoesNotMatter | tests/utils/uplink_server.py:116-141 | any two chunkings of the same bytes give the same fragments and the same loss of sync |
| AdParser.ParseCustomFrame | src/svc/acquisition/subsystem.cpp:91-144 | the walk reads only bytes below the valid length, terminates, and computes the parse of the element list |
| AdParser.ParsesExactly | src/svc/acquisition/subsystem.cpp:120-138 | parsing succeeds exactly when the first 0xFF element holds 19 bytes with the expected company id, and gives the reading in it |
| AdParser.NothingBehindTheEnd | src/svc/acquisition/subsystem.cpp:104-116 | a frame behind a zero length or behind an element that claims more than remains is never found |
| AdParser.FrameLayout | src/svc/acquisition/manufacturer_data_protocol.hpp:73-98 | a frame is 19 bytes: the company id, low byte first, and the endpoint's 17 |
| AdParser.ElementsOfEncoding | src/svc/acquisition/subsystem.cpp:93-141 | walking an encoded list of elements gives the list back and goes on with whatever bytes follow |
| AdParser.FrameIsRecovered | src/svc/acquisition/subsystem.cpp:93-137 | an endpoint's frame is recovered from behind any other elements and in front of any bytes at all, well formed or not |
| Firmware.NoReportIsEverStranded | src/svc/acquisition/subsystem.cpp:65-84 | in every run of the whole firmware a report in the pool has the drain running, a post under way or a wake-up queued, although full queues drop wake-ups |
| Intake.NoStrandedReport | src/svc/acquisition/subsystem.cpp:65-84 | the same of the intake alone, with fewer than 20 scan commands |
| Intake.TwentyCommandsStrand | src/eda/active_object/active_object.cpp:52-68 | 20 queued scan commands do strand a report, so the bound is exact |
| Intake.EveryReportIsAccountedFor | src/svc/acquisition/subsystem.cpp:65-84 | received = pooled + drained + dropped in every run, the visible counter is min(drops, 65535), and the table is the in-order replay of exactly the drained reports |
| Acquisition.ReportIsStoredOrCounted | src/svc/acquisition/subsystem.cpp:65-84 | a report is stored and announced, or counted, up to 65535, and wakes nobody |
| Acquisition.WakeUpsDrain | src/svc/acquisition/subsystem.cpp:232-252 | a wake-up leaves the pool empty; a scan command touches neither pool nor table |
| Acquisition.Acquisition.OnAdvReport | src/svc/acquisition/subsystem.cpp:65-84 | a report goes to the pool and posts a wake-up, or counts as dropped, saturating |
| Acquisition.Acquisition.DrainTurn | src/svc/acquisition/subsystem.cpp:154-174 | one report leaves the front of the pool and is recorded if it parses |
| Acquisition.Acquisition.DrainReportPool | src/svc/acquisition/subsystem.cpp:147-197 | the loop empties the pool, in order, however many reports arrive meanwhile |
| Acquisition.Acquisition.ExecuteEvent | src/svc/acquisition/subsystem.cpp:232-252 | a wake-up drains, a scan command goes to the radio and touches nothing else |
| IntakeTrace.DrainedIsRun | src/svc/acquisition/subsystem.cpp:147-197 | the drain loop is a run of the intake, single drains with reports received in between, that ends with the thread no longer draining |
| IntakeTrace.ExecutedIsRun | src/svc/acquisition/subsystem.cpp:232-252 | the event handler is a run of the intake, a take in front of the drain |
| IntakeTrace.TurnsAreRun | src/svc/acquisition/subsystem.cpp:65-84 | any sequence of callbacks, commands and handled events of the service is a run of the intake |
| IntakeTrace.ServiceStrandsNothing | src/svc/acquisition/subsystem.cpp:65-84 | between its turns, with fewer than 20 commands, a report in the pool has a wake-up in the queue, and the table is the replay of exactly the reports that were pooled and are gone |
| RingQueue.Queue.Push | src/utils/queue/queue.hpp:39-51 | appends, or refuses and changes nothing, exactly when full |
| RingQueue.Queue.Pop | src/utils/queue/queue.hpp:57-69 | removes the front element, or reports emptiness |
| RingQueue.Queue.Clear | src/utils/queue/queue.hpp:72-77 | empties the queue |
| Transitions.EntersExactly | src/app/state_machine/state_machine.cpp:58-92 | exactly when an event leaves the machine in HARD_ERROR, SOFT_ERROR, LISTENING or DISPATCHING, from every state |
| Transitions.TellsExactly | src/app/state_machine/soft_error/soft_error.cpp:83-139 | exactly what an event tells the comms thread and does to the retry timer; in HARD_ERROR, and where it has no meaning, it does nothing at all |
| Transitions.FinishesExactly | src/svc/comms/subsystem.cpp:483-531 | a cycle runs exactly when asked for while dispatching is enabled, only the two commands switch that, and only a join is answered, with what became of it |
| Transitions.NothingBeforeASuccessfulJoin | src/svc/comms/subsystem.cpp:495-502 | over any run in which the link has not answered a join with success the device is in no joined state, dispatching is off and nothing is sent |
| Transitions.NoSoftErrorWithoutFailure | src/app/state_machine/startup/startup.cpp:69-74 | over any run without a failed join or a soft error from outside there is no SOFT_ERROR |
| Transitions.NoHardErrorWithoutCause | src/app/state_machine/soft_error/soft_error.cpp:129-134 | no number of failed joins leads to HARD_ERROR: only failed services or a hard error from outside do |
| Transitions.AnswerLeads | src/svc/comms/subsystem.cpp:487-503 | from every reachable state with a join being made and nothing queued that stops the device, success leads to LISTENING and the command to dispatch, failure to SOFT_ERROR and an armed retry, given room |
| Transitions.ArmedRetryLeads | src/app/state_machine/soft_error/soft_error.cpp:105-115 | from every reachable SOFT_ERROR with the retry armed and nothing queued that stops the device, its time-out leads to the next join command, given room |
| AppModel.JoinAttempts | src/app/state_machine/soft_error/soft_error.cpp:83-139 | in every reachable state with no event lost there is exactly one join attempt in STARTUP and SOFT_ERROR, none in LISTENING and DISPATCHING, at most one in HARD_ERROR; a lost one is never replaced, and the machine then never reaches LISTENING |
| AppModel.RejoinsExactly | src/hal/link/link.md:168-171 | in every reachable joined state the one step that starts a join attempt is handling a soft error |
| AppModel.OnlySoftErrorRejoins | src/hal/link/link.md:168-171 | so over any run without a soft error posted from outside, a joined device never tries to join again: a broken connection is not rebuilt by the machine itself |
| AppModel.UnregisteredCommsNeverJoins | src/app/app.cpp:99-107 | started before the comms port is registered, the device never joins and never sends, in any run |
| AppModel.DelaysDoubleToTheCap | src/app/state_machine/soft_error/soft_error.cpp:56-75 | the n-th delay since the last success is min(30000 x 2^n, 900000) ms over any run, and outside SOFT_ERROR and HARD_ERROR the backoff is always back at 30 s |
| AppModel.NextIsDoubled | src/app/state_machine/soft_error/soft_error.cpp:63-74 | the 32-bit doubling never overflows and the cap is reached, not passed |
| AppModel.ScanCommands | src/app/state_machine/listening/listening.cpp:35-38 | the scan is commanded once at start-up and stopped only by HARD_ERROR, in every run |
| HardErrorSilence.HardErrorFallsSilent | src/app/state_machine/hard_error/hard_error.cpp:27-48 | once HARD_ERROR's stop was accepted only requests already in the comms queue can begin a cycle, one each, and once the stop has left the queue no cycle ever begins |
| HardErrorSilence.HardErrorSilencesExactly | src/assert/assert.md:16-20 | entering HARD_ERROR bounds what is still transmitted if and only if the comms queue took the stop or dispatching was off with nothing queued to turn it on |
| HardErrorSilence.StopCanBeLost | src/assert/assert.md:16-20 | a reachable state, brought about by the dispatch timer alone, in which the stop is lost and the device keeps transmitting |
| HardErrorSilence.UnstoppedCyclesForEver | src/svc/comms/subsystem.cpp:505-531 | without a stop on its way any number of further cycles can follow |
| Application.Application.PostToComms | src/eda/port/port.cpp:75-106 | the event is appended, or lost for want of a registered port (not counted) or of room (counted) |
| Application.Application.TransitionTo | src/app/state_machine/state_machine.cpp:58-92 | a transition leaves the current state and its badge in agreement |
| Application.Application.Init | src/eda/state_machine/state_machine.cpp:18-30 | the first state becomes current and previous and is entered |
| Application.Application.ProcessEvent | src/eda/active_object/active_object.cpp:70-91 | one turn of the application thread, with the handlers, entry and exit actions of all five states, is one step of the model: queues, timer, backoff, current and remembered state |
| Application.Application.TakeCommsEvent | src/eda/active_object/active_object.cpp:75-79 | the comms thread takes exactly the front event and holds it until its handler is done |
| Application.Application.ExecuteCommsEvent | src/svc/comms/subsystem.cpp:483-531 | the comms port's handler: a cycle runs exactly when one is requested while dispatching is enabled |
| Application.Application.OnRetryTimerExpired | src/app/state_machine/soft_error/soft_error.cpp:43-50 | the retry timer's expiry disarms it and posts a time-out |
| Application.Application.OnDispatchTimerExpired | src/svc/comms/subsystem.cpp:46-59 | the periodic timer posts a request and stays armed |

## Left out

- Delivery.NotPendingMeansDelivered: holds of calm runs only; the code does not keep the promise in all runs, and
  `DeliveryExact.DeliveryHoldsExactly` says in exactly which it does.
- Intake.NoStrandedReport: assumes fewer than twenty scan commands; `Firmware.NoReportIsEverStranded` has no such
  assumption, and `Intake.TwentyCommandsStrand` shows what twenty would do.
- Firmware.EveryRecordWasReceived: the cycles of `Dispatch` are taken to be what a run of the firmware does to the
  table; that machine does not tie the sends to the flag that enables dispatching, which is `HardErrorSilence`'s
  subject.
- Histories.SequenceCountsTransmissions: assumes links that allow at least one uplink a cycle; all of the configured
  ones do.
- Timing.WireAgesAreTrue: assumes that no entry is recorded almost 2^32 seconds ahead of the snapshot's clock, and
  that the cycle's second clock reading is not before the first; the wrap of the uptime counter after 136 years is not
  modelled.
- CycleLaws.HeartbeatsExactly: assumes, as `CycleLaws.SilentExactly` does, that the last uplink is not ahead of the
  cycle's clock, which an uptime that does not wrap sees to.
- Timing.SilenceBound: assumes a willing link and an uptime that does not wrap.
- EndToEnd.NoReadingIsLost: assumes that the server has read, on every connection, all that the link accepted; the
  firmware has no acknowledgement from the server, and `InFlight.BytesInFlightAreLost` shows what happens otherwise.
- EndToEnd.AcknowledgedWasSent: assumes a sound run; what an unsound one does is in `Delivery.WrapLosesReading` and
  `Delivery.EvictAndReturnLosesReading`.
- Zephyr back ends, Wi-Fi, DHCP, the LoRa back end: the link is an oracle that is connected or not, says what it can
  carry and accepts or refuses.
- The kernel's queues and locks: a bounded FIFO, and sections that are atomic steps.
- The radio: starting and stopping the scan is a command that leaves the model.
- Producers of DISPATCH_STARTED, DISPATCH_FINISHED, SOFT_ERROR, HARD_ERROR and DISPATCH_NOW: there are none in the
  source; they are events from outside.
- The port registry as an array, and execute_callback: a port is registered or not, and no callback is ever set.
- A debug build's halt on a lost event (src/eda/port/port.cpp:105): the release build's behaviour is modelled.
- The counter of dropped reports as it is read into a header: an arbitrary reading, because the callback may change it
  at any moment.
- Atomicity of reading 16-bit counters owned by another thread.
- Resynchronisation after a lost byte: the format has none.
- Downlinks, return_to_last_state and set_next_state outside start-up, get_device_count: unused or trivial.
- LEDs, watchdog, idle hook, logging, fault latch, diagnostics, rendering and CSV output, parse_hex and channel masks.
