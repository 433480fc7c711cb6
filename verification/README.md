# Verified models of a simulated Wi-Fi stack

This project models four parts of the repository in Dafny and proves what they promise over all their runs:

1. **The 802.11 client** of the Linux driver (`mlme.c`): authentication, association, channel switches, polling
   of the access point (AP), all around one shared timer. It is the station side of section 11.3 of IEEE Std
   802.11-2016.
2. **The packet transport** between virtual machines (`ci_queues.c`, `aq_type.c`, and the host server `bcaster`):
   ring buffers, a framing protocol on byte streams, reassembly and fan-out.
3. **The simulated radio** (`mac80211_hwsim.c`): the queue of frames waiting for a report, beacon timing, the
   resumable dump of radios.
4. **Signed seconds and nanoseconds** (`bignum_sec_profiling.c`) and the lag statistics built on them.

Code that changes records in place is modelled by classes whose methods follow it statement by statement. Each
method is proved to compute a function of the old state; what the code promises is then proved about these
functions, over every run. Inputs that the repository does not determine (what kernel helpers answer, how many bytes
a socket takes, when a thread runs) are arguments, so a statement about all arguments covers all of them.

| file | content |
|---|---|
| `common.dfy` | options, a little arithmetic |
| `station_spec.dfy`, `station_driver.dfy` | the client as a state machine; the same in place |
| `station_runs.dfy`, `station_timer.dfy`, `station_peer.dfy`, `station_silence.dfy` | what holds in every run of it |
| `station_outcomes.dfy` | which steps make and end a connection, and what each step leaves and reports |
| `wmm.dfy`, `assoc_frame.dfy` | WMM parameters; parts of the association request |
| `codec.dfy`, `ring_queue.dfy`, `link.dfy` | numbers and frames; the ring buffer; the four client threads |
| `host.dfy`, `cast.dfy` | reassembly and fan-out in the host |
| `network.dfy`, `progress.dfy`, `one_link.dfy` | all clients and the intended host together: safety, and that it never gets stuck; a single link |
| `written.dfy` | the same with the host as it is written |
| `beacon.dfy`, `pending.dfy`, `dump.dfy` | the simulated radio |
| `bignum.dfy`, `lag.dfy` | arithmetic and statistics |

`dafny verify dfyconfig.toml` checks everything.

## Where the code falls short

Some properties hold only under a condition. The code is modelled as it is, and a lemma says exactly when one of its
steps, or in the transport a whole run, does what is intended; for most of them another gives a run that does not.

- **BSSID and station entry** (`StationPeer`): an association request that is refused after a finished
  authentication with the same AP was kept (`mlme.c:4772-4803`, `4952`, `5046-5054`) leaves the AP's station entry
  behind, and the BSSID too if the FILS key was too long. A later request then associates with a zero BSSID.
- **Shared timer** (`StationTimer`): the come-back branch compares milliseconds with a constant in jiffies
  (`mlme.c:3272-3276`) and does not look at the timer for short waits, which leaves the timer later than the new
  deadline if it was set later. Five steps after the start of the interface suffice (`TooLateExample`).
- **Host reassembly** (`Host`): the next frame's length is read at the front of the buffer instead of where that
  frame starts (`main.c:165`). A receive, and likewise a series of receives, does what is intended exactly if all
  frames whose length a receive sees have one length.
- **Fan-out** (`Cast`): `lisa_cast` finds the originator in the field that sending overwrites (`lisa.c:673-677`).
  Several packets out of one receive are routed right exactly if there is at most one, or one client; otherwise the
  second goes back to where it came from. `Written` puts both conditions together: a run of the whole network stays
  the intended run exactly as long as each receive of the host meets them, and then it delivers.
- **Stop message** (`Cast`): `match_end` compares the final zero after having required that there is none
  (`main.c:128-131`), so it never holds.
- **Equal operands** (`Bignum`): subtraction tests for them but goes on and fails its assertion; in the place of an
  operand it returns a wrong number instead (`bignum_sec_profiling.c:144-186`). Addition can leave 10^9 nanoseconds
  uncarried; the comparisons then tell two forms of one value apart.
- **Beacons** (`Beacon`): setting the TSF again before the next beacon, or starting the timer while a move is still
  remembered, puts the second beacon after it off (`mac80211_hwsim.c:992-1008`, `1825-1835`). Setting the TSF while
  no interval is set divides by zero; the methods report that.
- **Dump** (`Dump`): a radio gets its identifier before it joins the list (`mac80211_hwsim.c:2659-2661`,
  `2909-2911`). If setups end in another order than they began, a dump can step over a radio for good; over an
  unchanging list it is complete exactly if the identifiers ascend.

## Model

| member | source | states |
|---|---|---|
| StationRuns.RunKeepsInv | clfsx/packages/linux/mlme.c:3959-4104 | in every state of every run: attempts have used at most three tries, switch flags imply an active switch and that an association, stopped queues imply a switch that blocked them, whoever waits has the timer pending or the work queued, and every begun attempt is reported exactly once |
| StationRuns.StepKeeps | clfsx/packages/linux/mlme.c:2050-2185 | each of the twenty-one kinds of step keeps that invariant: requests, received frames, notifications, a finished scan, time, the timer and the work |
| StationRuns.WorkKeeps | clfsx/packages/linux/mlme.c:3959-4104 | so does the work behind the shared timer, which restores the wake-up it consumed |
| StationRuns.AuthKeeps | clfsx/packages/linux/mlme.c:4612-4742 | so does an authentication request, whatever phase it interrupts |
| StationRuns.AssocKeeps | clfsx/packages/linux/mlme.c:4744-5055 | so does an association request, with a kept or a dropped authentication before it |
| StationRuns.LeaveKeeps | clfsx/packages/linux/mlme.c:2050-2185 | the end of an association wakes the queues if the switch had stopped them, and leaves nothing waiting |
| StationRuns.ChanSwitchKeeps | clfsx/packages/linux/mlme.c:1144-1296 | so does an announced channel switch, refused or started |
| StationRuns.BeaconSeenKeeps | clfsx/packages/linux/mlme.c:1088-1117 | so does the beacon that completes a switch; afterwards the queues are not stopped |
| StationTimer.StepOnTime | clfsx/packages/linux/mlme.c:94-112 | a step keeps the shared timer no later than the running deadline, exactly unless it is a short come-back under a later timer |
| StationTimer.WorkIsOnTime | clfsx/packages/linux/mlme.c:3959-4104 | the work puts the timer on time again, whatever it was before |
| StationTimer.RunOnTime | clfsx/packages/linux/mlme.c:3259-3279 | the timer is on time at the end of every run without such a step |
| StationTimer.TooLateExample | clfsx/packages/linux/mlme.c:3267-3279 | a run of five steps from the initial state that ends with such a step: the deadline is now, the timer a whole association timeout later |
| StationPeer.StepMatched | clfsx/packages/linux/mlme.c:4454-4609 | a step keeps BSSID and station entry those of the current phase's AP, exactly unless it is the refused request described above |
| StationPeer.AssocMatched | clfsx/packages/linux/mlme.c:4772-4803 | the same for association requests, with what is left behind |
| StationPeer.RunMatched | clfsx/packages/linux/mlme.c:4985-5054 | they match at the end of every run without such a request |
| StationPeer.ResidueExample | clfsx/packages/linux/mlme.c:4799-4803 | a run of four requests and frames after which an association with an AP is under way whose station entry exists while the BSSID is zero |
| StationSilence.AuthRequestUnanswered | clfsx/packages/linux/mlme.c:3836-3904 | a granted authentication request, from whatever phase, that gets no answer sends exactly three frames and one timeout report, for all delays of timer and work, whatever TX status the frames get and whenever |
| StationSilence.AuthSilence | clfsx/packages/linux/mlme.c:4001-4032 | from any point of an attempt, with TX status reports or without: the frames left of three, then the report |
| StationSilence.AssocSilence | clfsx/packages/linux/mlme.c:3906-3945 | from any point of an association, with TX status reports or without: the requests left of three, none while it waits for a beacon, then one timeout report |
| StationSilence.AssocRequestUnanswered | clfsx/packages/linux/mlme.c:3906-3945 | a granted association request, from whatever phase, that gets no answer: three requests, or none if it waits for a beacon in vain, and one timeout report |
| StationSilence.PollUnanswered | clfsx/packages/linux/mlme.c:2293-2348 | on hardware that does not report TX status, an unanswered poll sends the configured number of probes, at least one, and then gives up the connection, waking blocked queues, whether or not a failed nullfunc was noted before |
| StationSilence.PollSilence | clfsx/packages/linux/mlme.c:4045-4101 | the same from any point of a poll |
| StationOutcomes.ConnectionHistory | clfsx/packages/linux/mlme.c:3259-3315 | whoever is joined in any run had an association request with that AP granted, was accepted later by that AP's response while this attempt went on, and has been joined since |
| StationOutcomes.Joins | clfsx/packages/linux/mlme.c:3284-3306 | a step enters the joined phase exactly if it receives a long enough, decrypted, accepting response from the AP of the attempt, whose elements check and whose station entry exists; the state after it, with the success reported |
| StationOutcomes.NotJoined | clfsx/packages/linux/mlme.c:3259-3306 | all other responses: a denial ends idle with a zero BSSID, no entry and a failure reported; an acceptance that does not check is reported as a timeout; a come-back moves the deadline by the time asked for, in jiffies rounded up; the rest changes nothing |
| StationOutcomes.Authenticates | clfsx/packages/linux/mlme.c:2649-2756 | a step completes an authentication exactly if it receives the accepting final frame of the exchange; it is kept for 25 seconds and reported |
| StationOutcomes.NotAuthenticated | clfsx/packages/linux/mlme.c:2649-2737 | all other authentication frames: a refusal ends idle and is reported, a challenge is answered, the rest changes nothing |
| StationOutcomes.RunExpects | clfsx/packages/linux/mlme.c:3836-3904 | in every run the frame expected next is the second, the fourth for a challenged shared key, or the one the caller named for SAE |
| StationOutcomes.AuthRequested | clfsx/packages/linux/mlme.c:4612-4742 | each refusal with its code and what it leaves; a granted request has sent the first frame, with its transaction and its deadline in seconds |
| StationOutcomes.AssocRequested | clfsx/packages/linux/mlme.c:4744-5055 | the same for an association request, with what is kept of an earlier phase |
| StationOutcomes.DeauthRequested | clfsx/packages/linux/mlme.c:5057-5119 | a deauthentication request ends whichever phase has that AP, with its reports in order |
| StationOutcomes.Ends | clfsx/packages/linux/mlme.c:2050-2185 | the steps that end an association are exactly: another request, a request or frame that names the AP, a changed beacon with a wrong bandwidth, the disconnect work, and a poll that is lost |
| StationOutcomes.EndsHow | clfsx/packages/linux/mlme.c:2050-2185 | what each of them clears, sends and reports; a blocked switch keeps the client silent and makes the end count as remote |
| StationOutcomes.NotEnded | clfsx/packages/linux/mlme.c:5121-5150 | requests and frames that do not end it change nothing; a disassociation needs the very entry |
| StationOutcomes.DeauthReceived | clfsx/packages/linux/mlme.c:2815-2892 | without an association, a deauthentication from the AP ends only an association attempt |
| StationOutcomes.Announced | clfsx/packages/linux/mlme.c:1144-1296 | each outcome of an announcement: unheeded, not followed, ignored, refused, or started with queues, flags and delay |
| StationOutcomes.Switched | clfsx/packages/linux/mlme.c:965-1086 | each outcome of the work of the switch |
| StationOutcomes.Heard | clfsx/packages/linux/mlme.c:3395-3730 | what a beacon does: it starts a waiting attempt, ends a poll and a switch, announces the next, and may end the association |
| StationOutcomes.Polls | clfsx/packages/linux/mlme.c:2350-2408 | a poll begins exactly if the client is joined and nothing is in the way, with which frame and deadline |
| StationOutcomes.WorksPoll | clfsx/packages/linux/mlme.c:4045-4101 | what the work does to a poll that is not lost |
| StationOutcomes.Notified | clfsx/packages/linux/mlme.c:2187-2202 | what each notification, response, status and tick changes |
| StationOutcomes.ReadsStatus | clfsx/packages/linux/mlme.c:3967-3999 | a TX status is read as a new deadline: over at once if the frame was not acknowledged, half a second away if it was, ten for SAE |
| StationOutcomes.WorksAuth | clfsx/packages/linux/mlme.c:3836-3904 | an authentication before its deadline, after it with tries left, and after the third |
| StationOutcomes.WorksAssoc | clfsx/packages/linux/mlme.c:3906-3945 | the same for an association |
| StationDriver.Managed.RunAgain | clfsx/packages/linux/mlme.c:104-112 | re-arms the timer only if it is not pending or would fire later |
| StationDriver.Managed.EndAssociation | clfsx/packages/linux/mlme.c:2050-2185 | in place: the association is over, with its frame and report |
| StationDriver.Managed.EndSwitch | clfsx/packages/linux/mlme.c:1088-1117 | clears the switch and wakes the queues if they were blocked |
| StationDriver.Managed.DestroyAuthData | clfsx/packages/linux/mlme.c:2562-2589 | frees an authentication, keeping the rest only for an association |
| StationDriver.Managed.DestroyAssocData | clfsx/packages/linux/mlme.c:2591-2622 | frees an association attempt |
| StationDriver.Managed.MgdProbeApSend | clfsx/packages/linux/mlme.c:2293-2348 | sends one probe and waits for it |
| StationDriver.Managed.PrepConnection | clfsx/packages/linux/mlme.c:4454-4609 | station entry and channel for an AP, with every failure |
| StationDriver.Managed.SendAuth | clfsx/packages/linux/mlme.c:3836-3904 | one opening frame, or the end of the tries |
| StationDriver.Managed.DoAssoc | clfsx/packages/linux/mlme.c:3906-3945 | one association request, or the end of the tries |
| StationDriver.Managed.MgdAuth | clfsx/packages/linux/mlme.c:4612-4742 | in place: at most one of the three phase pointers stays set, and the whole state is that of the state machine |
| StationDriver.Managed.MgdAssoc | clfsx/packages/linux/mlme.c:4744-5055 | the same for an association request |
| StationDriver.Managed.MgdDeauth | clfsx/packages/linux/mlme.c:5057-5119 | the same for a deauthentication request in each phase |
| StationDriver.Managed.MgdDisassoc | clfsx/packages/linux/mlme.c:5121-5150 | the same for a disassociation request |
| StationDriver.Managed.RxMgmtAuth | clfsx/packages/linux/mlme.c:2649-2756 | the same for a received authentication frame |
| StationDriver.Managed.RxMgmtAssocResp | clfsx/packages/linux/mlme.c:3215-3315 | the same for a received association response |
| StationDriver.Managed.RxMgmtDeauth | clfsx/packages/linux/mlme.c:2815-2860 | the same for a received deauthentication |
| StationDriver.Managed.RxMgmtDisassoc | clfsx/packages/linux/mlme.c:2863-2892 | the same for a received disassociation |
| StationDriver.Managed.RxMgmtProbeResp | clfsx/packages/linux/mlme.c:3341-3369 | the same for a received probe response |
| StationDriver.Managed.RxMgmtBeacon | clfsx/packages/linux/mlme.c:3395-3730 | the same for a received beacon |
| StationDriver.Managed.StaProcessChanswitch | clfsx/packages/linux/mlme.c:1144-1296 | the same for a channel-switch announcement |
| StationDriver.Managed.ChswitchWork | clfsx/packages/linux/mlme.c:965-1086 | the same for the switch itself |
| StationDriver.Managed.MgdProbeAp | clfsx/packages/linux/mlme.c:2350-2408 | the same for the start of a poll |
| StationDriver.Managed.Disconnect | clfsx/packages/linux/mlme.c:2470-2507 | the same for a lost connection |
| StationDriver.Managed.StaTxNotify | clfsx/packages/linux/mlme.c:2271-2291 | the same for a sent frame's status |
| StationDriver.Managed.NotifyScanCompleted | clfsx/packages/linux/mlme.c:4141-4152 | a finished scan clears the poll flag and nothing else |
| StationDriver.Managed.MgdConnTxStatus | clfsx/packages/linux/mlme.c:3947-3957 | the same for the status of a management frame |
| StationDriver.Managed.StaTimer | clfsx/packages/linux/mlme.c:3816-3822 | the timer queues the work |
| StationDriver.Managed.StaWork | clfsx/packages/linux/mlme.c:3959-4104 | the same for the work: its three timeout checks in a row act like the check of the one phase that is present |
| Wmm.AllOrNothing | clfsx/packages/linux/mlme.c:1776-1901 | the update succeeds exactly if all records are valid and each category has one; then each category has its last record's valid parameters and a bit exactly if one of its records demands admission; otherwise parameters and QoS are as before |
| Wmm.AfterAcm | clfsx/packages/linux/mlme.c:1818-1848 | which bits the record loop has set |
| Wmm.RecordsTaken | clfsx/packages/linux/mlme.c:1818-1901 | in terms of the bytes: it succeeds exactly if every record's window is valid and each category index has one; voice, video, best effort and background then have aifs, windows, txop and admission bit of the last record with index 3, 2, 0 and 1; the bits are those of the records up to the first invalid one |
| Wmm.DowngradeFor | clfsx/packages/linux/mlme.c:1726-1740 | in terms of the bytes: the search gives the next lower category none of whose records demands admission, or background |
| Wmm.SecondTimeIgnored | clfsx/packages/linux/mlme.c:1802-1805 | a parameter set that was looked at is ignored the next time, even if it failed |
| Wmm.DowngradeFinds | clfsx/packages/linux/mlme.c:1726-1740 | after an update the downgrade search finds the next lower category that no record restricts, or the lowest |
| Wmm.Sta.WmmParams | clfsx/packages/linux/mlme.c:1776-1901 | the update in place, with its early exits |
| AssocFrame.RatesRoundTrip | clfsx/packages/linux/mlme.c:710-743 | the rate elements are completely written and read back as the selected rates, exactly if the length given is their number |
| AssocFrame.WrittenRates | clfsx/packages/linux/mlme.c:719-743 | for any length given: how much the elements reserve, and that they hold the first eight and the other selected rates in order, each the bit rate over five units, rounded up |
| AssocFrame.SendRates | clfsx/packages/linux/mlme.c:719-743 | the two loops write the first eight rates and the rest |
| AssocFrame.SelectAll | clfsx/packages/linux/mlme.c:640-645 | if all rates are selected, the length given is their number |
| AssocFrame.SendCustom | clfsx/packages/linux/mlme.c:767-873 | at the ordered offsets that the splitters return: the HT element stands after the first piece of the caller's elements, VHT after the second, WMM after the third, the rest at the end |
| AssocFrame.ArrangedKeeps | clfsx/packages/linux/mlme.c:767-873 | of such an arrangement the pieces make up the caller's elements, and the driver's elements are all there in their order |
| Codec.ValueOfBigEndian | x86-qemu/custom_packages/cross_injector/src/ci_queues.c:250-277 | reading back a number that fits gives the number |
| Codec.BigEndianOfValue | x86-qemu/custom_packages/cross_injector/src/ci_queues.c:338-371 | writing back bytes that were read gives the bytes |
| Codec.SetLength | x86-qemu/custom_packages/cross_injector/src/ci_queues.c:250-258 | the shifts write the length big endian |
| Codec.GetLength | x86-qemu/custom_packages/cross_injector/src/ci_queues.c:338-348 | the shifts read it, without losing bits |
| Codec.StoreWord | x86-qemu/custom_packages/cross_injector/src/ci_queues.c:260-277 | the loop writes a 64-bit word big endian and nothing else |
| Codec.LoadWord | x86-qemu/custom_packages/cross_injector/src/ci_queues.c:350-371 | the loop reads it |
| Codec.FrameRoundTrip | x86-qemu/custom_packages/cross_injector/src/ci_queues.c:304-320 | a frame gives back its packet and time, and announces its own length |
| Codec.FrameLayout | x86-qemu/custom_packages/cross_injector/src/ci_queues.c:250-332 | where each byte of length, seconds, nanoseconds and packet stands in a frame |
| RingQueue.UsedHeadDequeues | x86-qemu/custom_packages/cross_injector/src/aq_type.c:63-71 | advancing the head removes the oldest item for every capacity and wrap-around, and is right exactly on a ring that is not empty |
| RingQueue.PutTailEnqueues | x86-qemu/custom_packages/cross_injector/src/aq_type.c:74-82 | advancing the tail appends the filled slot, and is right exactly on a ring that is not full |
| RingQueue.HandsOut | x86-qemu/custom_packages/cross_injector/src/aq_type.c:41-60 | a slot is handed out exactly if there is an oldest item, or room |
| RingQueue.ApplyKeepsExclusive | x86-qemu/custom_packages/cross_injector/src/aq_type.h:1-9 | the slot being filled is never the slot being read, which does not change while it is read |
| RingQueue.Play | x86-qemu/custom_packages/cross_injector/src/aq_type.h:1-9 | in every interleaving of one producer and one consumer: that, and what was used is a prefix of what was put with at most the capacity between |
| RingQueue.AqQueue.constructor | x86-qemu/custom_packages/cross_injector/src/aq_type.c:14-30 | a new ring is an empty queue |
| RingQueue.AqQueue.UsedHead | x86-qemu/custom_packages/cross_injector/src/aq_type.c:63-71 | in place: the queue without its oldest item |
| RingQueue.AqQueue.PutTail | x86-qemu/custom_packages/cross_injector/src/aq_type.c:74-82 | in place: the queue with the filled slot at its end |
| Link.Sender.Step | x86-qemu/custom_packages/cross_injector/src/ci_queues.c:288-332 | for any counts taken by the socket, the bytes sent are the next bytes of the oldest item's frame, and the item leaves when the frame is complete |
| Link.Receiver.Step | x86-qemu/custom_packages/cross_injector/src/ci_queues.c:381-424 | for any counts delivered, the bytes taken are the next bytes of the current frame and none of the next one; a complete frame is queued as its packet, and waits while the queue is full |
| Link.SendsWhatIsTaken | x86-qemu/custom_packages/cross_injector/src/ci_queues.c:288-332 | one send step puts out all that the socket takes, part by part |
| Link.ReceivesWhatIsThere | x86-qemu/custom_packages/cross_injector/src/ci_queues.c:381-424 | one receive step takes all that is there of the frame, or of its header while the queue is full |
| Link.CaptureStep | x86-qemu/custom_packages/cross_injector/src/ci_queues.c:443-476 | a captured packet is queued with its time, cut to the buffer, if there is a free slot |
| Link.InjectStep | x86-qemu/custom_packages/cross_injector/src/ci_queues.c:494-520 | the oldest packet is handed to pcap and freed |
| Host.ChunkingIsInvisible | x86-qemu/tools/bcaster/main.c:150-179 | with the intended reads, the packets handed on and the bytes left do not depend on how the bytes were cut into chunks |
| Host.SplitStream | x86-qemu/tools/bcaster/main.c:163-178 | of a stream of frames exactly the complete ones come out, in order and unchanged; the rest is the unfinished one |
| Host.Reassembly | x86-qemu/tools/bcaster/main.c:160-162 | both together, and that there is always room for another receive of 480 bytes |
| Host.AsWrittenAgrees | x86-qemu/tools/bcaster/main.c:163-173 | the loop as written does the same exactly if all frames whose length bytes are in the buffer announce one length, in particular if it completes at most one frame and sees less than four bytes after it |
| Host.MisreadExample | x86-qemu/tools/bcaster/main.c:164-166 | a packet of one byte and one of two bytes, of which the second loses its last byte, which then stands where a frame should begin |
| Host.RunAgrees | x86-qemu/tools/bcaster/main.c:150-179 | a series of receives as written hands on and keeps what is intended exactly if each of them sees frames of one length |
| Host.WrittenReassembly | x86-qemu/tools/bcaster/main.c:150-179 | for every such chunking of a stream the code as written hands on exactly the complete frames |
| Host.ClientData.Receive | x86-qemu/tools/bcaster/main.c:160-177 | the receive as written, in the 3000-byte buffer, ends and hands on what the function of the bytes says, whatever length the first bytes announce, short of 2^32 - 20 where the 32-bit sum with the header wraps around |
| Host.ClientData.Relocate | x86-qemu/tools/bcaster/main.c:174-177 | the overlapping copy moves the remaining bytes to the front unchanged |
| Cast.CastRoutes | x86-qemu/tools/bcaster/lisa.c:673-683 | the fan-out of several packets sends each to everyone but its origin exactly if there is at most one, or nobody else |
| Cast.FanoutReaches | x86-qemu/tools/bcaster/lisa.c:674-683 | one cast sends one copy to each client but the one in the field |
| Cast.FanoutInOrder | x86-qemu/tools/bcaster/lisa.c:674-683 | the copies go out in the order of the client table |
| Cast.CurrentIsLast | x86-qemu/tools/bcaster/lisa.c:673-677 | after a cast the field names the last other client of the table |
| Cast.SecondMisses | x86-qemu/tools/bcaster/lisa.c:673-683 | so the second packet of a receive goes to all but that one |
| Cast.ReceiveAgrees | x86-qemu/tools/bcaster/main.c:163-173 | a whole receive as written, with its casts, is the intended one exactly if both conditions hold |
| Cast.NeverStops | x86-qemu/tools/bcaster/main.c:128-131 | the stop message is never recognised, so every packet is cast |
| Cast.Lisa.Send | x86-qemu/tools/bcaster/lisa.c:602-629 | partial sends put the whole message on the link, in order |
| Cast.Lisa.CastOne | x86-qemu/tools/bcaster/lisa.c:662-687 | the loop over the clients, with the field it overwrites |
| Cast.ClientForFd | x86-qemu/tools/bcaster/main.c:50-55 | the first client with the descriptor, or -1 exactly if there is none |
| Network.Delivery | x86-qemu/custom_packages/cross_injector/src/ci_queues.c:288-332 | for any number of clients and any interleaving of all threads: what a client injects is, origin by origin, a prefix of the packets given to the origin's capture thread while its queue had room, timestamp for timestamp and byte for byte up to 2500, and never its own |
| Network.NothingIsLost | x86-qemu/custom_packages/cross_injector/src/ci_queues.c:494-520 | when nothing is on its way, each client has injected all that was so given to each other |
| Network.CapturedIsGiven | x86-qemu/custom_packages/cross_injector/src/ci_queues.c:443-476 | what a run captures is exactly that, read off its operations |
| Progress.CanFinish | x86-qemu/custom_packages/cross_injector/src/ci_queues.c:381-424 | every run can be continued, without captures, until nothing is on its way; if its receives fit the host as written, so do those of the continuation |
| Written.RunsAgree | x86-qemu/tools/bcaster/main.c:150-179 | a run with the host as written, remembered lengths and overwritten field included, stays in step with the intended run exactly if each receive of the host fits |
| Written.HostTells | x86-qemu/tools/bcaster/main.c:163-173 | one direction of it for one receive: if the clients and remembered lengths after it are the intended ones, it fits |
| Written.WrittenDelivers | x86-qemu/tools/bcaster/main.c:150-179 | under that condition the code as written delivers: origin by origin a prefix of what was given to the origin, nothing of one's own, and everything when nothing is on its way |
| Written.WrittenCanFinish | x86-qemu/tools/bcaster/main.c:150-179 | and its run can go on, under the condition and without captures, until nothing is on its way |
| Written.ComesBackExample | x86-qemu/tools/bcaster/lisa.c:673-683 | a run in which the host receives two frames at once and the second packet goes back to the client that sent it |
| Written.SecondComesBack | x86-qemu/tools/bcaster/lisa.c:673-683 | so it is for every receive that completes two or more, unless the client is alone |
| Network.StepKeeps | x86-qemu/tools/bcaster/main.c:150-179 | the invariant behind them: on every link, bytes in flight and buffered are exactly the frames of the packets due |
| Network.HostAsWritten | x86-qemu/tools/bcaster/main.c:163-173 | in every reachable state, with the length it remembers, the host's receive as written is the intended one exactly if the packets whose length it sees have one size and at most one is complete, or the client is alone |
| OneLink.LinkDelivers | x86-qemu/custom_packages/cross_injector/src/ci_queues.c:288-424 | over one link, for any counts taken and delivered: the receiver has queued a prefix of the packets given to the capture thread, unchanged, holds nothing beyond the next one's frame, loses nothing while its queue is full, and has queued all when nothing is on its way |
| Network.SenderRefines | x86-qemu/custom_packages/cross_injector/src/ci_queues.c:288-332 | a step of the send thread in memory is the send step of the network |
| Network.CaptureRefines | x86-qemu/custom_packages/cross_injector/src/ci_queues.c:443-476 | a step of the capture thread in memory is the capture step of the network |
| Network.InjectRefines | x86-qemu/custom_packages/cross_injector/src/ci_queues.c:494-520 | a step of the inject thread in memory is its inject step |
| Network.ReceiverRefines | x86-qemu/custom_packages/cross_injector/src/ci_queues.c:381-424 | a step of the receive thread in memory is the receive step of the network |
| Beacon.BeaconsAligned | clfsx/packages/linux/mac80211_hwsim.c:1725-1753 | if the TSF is set at most once between beacons, each beacon is at a multiple of the interval except the first after the TSF was set, and the next one follows within two intervals |
| Beacon.StepSync | clfsx/packages/linux/mac80211_hwsim.c:992-1008 | the steps that lose the alignment are exactly those that set the TSF or start the timer while an old move is remembered |
| Beacon.SecondBeacon | clfsx/packages/linux/mac80211_hwsim.c:1725-1753 | of the beacons themselves: after any step but a beacon, the second beacon sent is at a multiple of the interval and less than two intervals after the first, exactly unless the step loses the alignment |
| Beacon.EnabledBeacons | clfsx/packages/linux/mac80211_hwsim.c:1898-1910 | from the interval asked for: the first beacon comes within 1024 times that many microseconds at a multiple of it, and while the TSF is left alone the others follow exactly so far apart, the second early by a move still remembered |
| Beacon.Beaconing | clfsx/packages/linux/mac80211_hwsim.c:1825-1920 | what each step does to the timer, and that only the timer sends, one beacon at its time |
| Beacon.SetSync | clfsx/packages/linux/mac80211_hwsim.c:992-1008 | the same for setting the TSF, in either direction |
| Beacon.StartSync | clfsx/packages/linux/mac80211_hwsim.c:1827-1835 | a started timer waits more than nothing and at most one interval, for a multiple of the interval, and the beacons after it stay aligned exactly if no move is remembered |
| Beacon.TwoMovesExample | clfsx/packages/linux/mac80211_hwsim.c:1000-1007 | two moves between beacons leave the following beacon off by the first |
| Beacon.Radio.SetTsfAt | clfsx/packages/linux/mac80211_hwsim.c:992-1008 | setting the TSF, in place; it reports the division by zero without an interval |
| Beacon.Radio.ConfigAt | clfsx/packages/linux/mac80211_hwsim.c:1825-1835 | starting or cancelling the timer on a configuration, in place |
| Beacon.Radio.EnableBeaconAt | clfsx/packages/linux/mac80211_hwsim.c:1892-1920 | the same when beaconing is switched on or off; it reports the division by an interval of zero |
| Beacon.Radio.FireAt | clfsx/packages/linux/mac80211_hwsim.c:1725-1753 | a beacon and the next expiry, in place |
| Pending.RunConserves | clfsx/packages/linux/mac80211_hwsim.c:1200-1279 | in every run: at most 200 frames wait, in the order of their strictly increasing cookies, the counters agree with what happened, and the queued frames are those pending, dropped or reported |
| Pending.ExactlyOnce | clfsx/packages/linux/mac80211_hwsim.c:1268-1270 | each queued frame is in exactly one of the three, once |
| Pending.EveryFrameCounts | clfsx/packages/linux/mac80211_hwsim.c:1210-1278 | each frame handed in has failed or was queued |
| Pending.DropsOldest | clfsx/packages/linux/mac80211_hwsim.c:1201-1208 | a full queue, and only a full one, loses its 101 oldest frames before the new one goes in; the new one fails or is queued with the next cookie |
| Pending.ReportsOnce | clfsx/packages/linux/mac80211_hwsim.c:3120-3167 | a valid report takes its own frame if it waits and nothing else, keeps the order of the rest, and a second or an invalid one takes nothing |
| Pending.HwsimData.TxFrameNl | clfsx/packages/linux/mac80211_hwsim.c:1185-1279 | a transmission in place, with failures before and after the cookie is taken |
| Pending.HwsimData.TxInfoReceived | clfsx/packages/linux/mac80211_hwsim.c:3120-3167 | the search for the reported frame, in place |
| Dump.DumpComplete | clfsx/packages/linux/mac80211_hwsim.c:3434-3468 | whatever is added or removed between calls, if setups end in the order they began: identifiers come in ascending order, each call that emits something moves on toward the next free identifier, and when one emits nothing every radio that was there throughout has been emitted once |
| Dump.DeletesOne | clfsx/packages/linux/mac80211_hwsim.c:3366-3390 | a deletion takes the first radio of the namespace with the identifier or name out of the list and nothing else; all others keep their place in the dump |
| Dump.RunUnique | clfsx/packages/linux/mac80211_hwsim.c:2659-2661 | in every run, however setups overlap, no identifier is used twice |
| Dump.WalkSorted | clfsx/packages/linux/mac80211_hwsim.c:3446-3463 | what one call emits from a sorted list |
| Dump.StepResumable | clfsx/packages/linux/mac80211_hwsim.c:3355-3390 | additions in order, deletions and calls keep what makes that true |
| Dump.InsertSorted | clfsx/packages/linux/mac80211_hwsim.c:2909-2911 | an insertion keeps the list sorted exactly if the new identifier is the largest |
| Dump.CompleteIffClimbs | clfsx/packages/linux/mac80211_hwsim.c:3446-3461 | one call with room for all emits all exactly if the identifiers ascend along the list |
| Dump.DumpCompleteIff | clfsx/packages/linux/mac80211_hwsim.c:3434-3468 | so does a dump by any number of calls with any room each, once it has ended or had room for the list |
| Dump.CallsAreOneWalk | clfsx/packages/linux/mac80211_hwsim.c:3446-3463 | calls with these rooms emit what one call with their sum emits, and leave the same cursor |
| Dump.OutOfOrderExample | clfsx/packages/linux/mac80211_hwsim.c:2659-2661 | two setups that overlap build a list out of order, and a dump of it ends without the radio that began first, present throughout |
| Dump.Hwsim.DumpRadio | clfsx/packages/linux/mac80211_hwsim.c:3434-3468 | the walk with its breaks, in place |
| Dump.Hwsim.DelRadio | clfsx/packages/linux/mac80211_hwsim.c:3366-3390 | in place: exactly the first radio with the identifier or name leaves the list, or none |
| Bignum.AddExact | x86-qemu/custom_packages/cross_injector/src/bignum_sec_profiling.c:112-141 | addition fails exactly on opposite signs and equal fields; otherwise it keeps the bound on nanoseconds and gives the integer sum exactly if the seconds do not overflow |
| Bignum.SubExact | x86-qemu/custom_packages/cross_injector/src/bignum_sec_profiling.c:144-186 | the same for subtraction into a place that is no operand: it fails exactly on equal operands |
| Bignum.AliasedDifference | x86-qemu/custom_packages/cross_injector/src/bignum_sec_profiling.c:145-149 | what the difference of equal numbers is in the place of an operand: wrong unless they are negative zeros |
| Bignum.ComparesValues | x86-qemu/custom_packages/cross_injector/src/bignum_sec_profiling.c:195-212 | the comparisons order all bounded numbers by value, exactly except that a positive zero is above a negative one and that of one magnitude in two forms the carried one is further from zero |
| Bignum.DivsExact | x86-qemu/custom_packages/cross_injector/src/bignum_sec_profiling.c:73-81 | division gives the magnitude's floor, carried, exactly if it fits |
| Bignum.AddTo | x86-qemu/custom_packages/cross_injector/src/bignum_sec_profiling.c:112-141 | addition in memory, into any place including an operand |
| Bignum.SubTo | x86-qemu/custom_packages/cross_injector/src/bignum_sec_profiling.c:144-186 | subtraction in memory, with the clearing that does not return |
| Bignum.DivsTo | x86-qemu/custom_packages/cross_injector/src/bignum_sec_profiling.c:189-192 | division in memory; in the place of its operand it takes the remainder of the quotient |
| Lag.HistoryExact | x86-qemu/custom_packages/cross_injector/src/bignum_sec_profiling.c:243-268 | for every history in range that was processed: the sum is exact, minimum and maximum are the true extremes although zero marks their absence |
| Lag.HistoryProcessed | x86-qemu/custom_packages/cross_injector/src/bignum_sec_profiling.c:253-256 | a history is processed without a failed assertion exactly if at no sample the lag is zero or the sum returns to zero from a carried one |
| Lag.UpdateExact | x86-qemu/custom_packages/cross_injector/src/bignum_sec_profiling.c:253-258 | one more sample fails exactly if its lag is zero, or if it brings the sum back to zero and the sum was carried; otherwise the statistics stay exact |
| Lag.AverageExact | x86-qemu/custom_packages/cross_injector/src/bignum_sec_profiling.c:271-280 | the average is the sum over the count, rounded toward zero, and lies between minimum and maximum |
| Lag.LagTimes.UpdateWith | x86-qemu/custom_packages/cross_injector/src/bignum_sec_profiling.c:243-269 | the update of the static variables |

## Left out

- Jiffies do not wrap around, nor do pending-frame cookies, radio identifiers or the TSF: they are unbounded numbers.
- The client's power saving, TDLS, RSSI and P2P events, HT and VHT negotiation, bandwidth tracking and the 4-address
  probe frame; their helpers' answers are arguments where the state machine needs them.
- The client's monitor timers and the timer of a channel switch: the work items they queue may run at any time.
- Suspend, resume and interface stop of the client.
- The channel-switch flags of the interface and of the client record are one field of the class, and the station
  table is restricted to access points.
- Reports to user space other than those that end an attempt or a connection are not counted, except the
  received-frame ones listed in `Station.Event`.
- Wmm.Sta.WmmParams: the driver callback for each category is not called, because its failure is only printed.
- Radio start and stop other than the flag and the timer, multi-channel contexts, and the beacon frame itself.
- A radio being deleted is freed outside the lock; only its removal from the list is modelled.
- Sockets, select, pcap, netlink and threads are arguments and steps. A receive that returns a negative count
  (the timeout path at x86-qemu/tools/bcaster/lisa.c:851-855) is excluded, as its documentation promises, and so are
  links that close: a send thread below the connected state may send a stale item again.
- A receive thread that reads a length above 2500 fails its assertion; in `Written` it then takes no further step.
- Host.ClientData.Receive: does not cover an announced length of 2^32 - 20 or more, whose 32-bit sum with the header
  wraps around; at 2^32 - 20 the loop does not end.
- New clients while a packet is being cast, and the shutdown paths.
- Link.InjectStep: a packet that pcap refuses counts as injected, because it is freed either way.
- Network.Delivery: is about the intended host; `Written.WrittenDelivers` is the statement for the host as written.
- Written.StepWritten: the host's lengths are unbounded there; runs whose receives fit never see one above 2500.
- StationSilence.PollUnanswered: excludes hardware that reports TX status, whose polls wait for the status instead of
  a timeout.
- The compile-time options of the cross injector that skip acknowledgements and rewrite the power-save flag.
- Printing, colours, packet capture files, counters shown to users, and `ci_nl.c`.
