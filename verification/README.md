# A model of USB gadget drivers, a SHA-256 hash, a tuning-mode tree and a frame-buffer queue

This Dafny project models the parts of the repository that carry its hardest logic and
proves properties of them.  `dafny verify dfyconfig.toml` checks all of it.

Most parts come in two layers.  A machine on values says what one step does and is where
whole runs are reasoned about.  Classes or array methods have the source's own fields and
loops, and each method is proved to be the corresponding step.

| files | part |
|---|---|
| `Ep0Machine`, `Ep0Safety`, `Ep0Progress`, `Ep0Transfers`, `Ep0Worker` | the endpoint-0 state machine of the BCM63xx device controller: nine states, asynchronous flags, callbacks with the lock dropped, and control transfers stage by stage |
| `Iudma`, `IudmaChannel`, `IudmaTransfer`, `BulkMachine`, `BulkTransfers`, `BulkEndpoint` | its DMA descriptor rings: one submission, one request, and any interleaving of requests |
| `TxPackets`, `BcmPackets`, `PioWriters`, `PioAt91`, `PioUsba`, `PioAgree` | the packets of an IN request as section 5.8.3 of USB 2.0 has them, and the three drivers that send them, two of them from a queue of requests |
| `Sha256Spec`, `Sha256Known`, `Sha256`, `Sha256Ctx` | SHA-256 as FIPS 180-2 defines it (sections 4.1.2, 5.1.1 and 6.2.2) with its example digest, both forms of the compression function, and the streaming interface |
| `DummyTransfer`, `DummyOrder`, `DummyEndpoint`, `DummyFifo`, `DummyDriver` | the loopback host controller: one URB against an endpoint's queue within a budget, the order of service, and the shared FIFO request as the host and as the driver know it |
| `AmdChain` | the reusable DMA descriptor chain of the AMD5536 driver |
| `ModeArena`, `ModeSearch`, `ModeModules`, `ModeLookup`, `ModeTree`, `ModeManager` | the tuning-mode tree: construction from a table, searches, and module lookup along a branch |
| `Descriptors`, `ConfigDescriptor`, `HostView`, `CompositeMachine`, `CompositeDevice` | the composite gadget: descriptors as bytes and back, what the host reads in them, configurations by index, delayed status stages |
| `EzyMachine`, `EzyQueue` | the two-list frame-buffer queue |
| `Arithmetic`, `Basics` | division by a variable; error numbers, options and minima |

## Where the code is narrower than its promise

Each of these is a lemma with the exact condition, or with a concrete case.

* SHA-256: the length field is 32 bits wide, so the padding is the standard's exactly for
  messages under 2^29 bytes (`Sha256.CodePaddingIsStandard`).
* BCM63xx: a zero-length packet is lost when the data of the last submission fills the ring
  (`BcmPackets.BcmSendsPackets`).  A dequeue does not ask whether the request is queued: on an
  empty queue it completes the request all the same, and on any other it takes a request that
  is not there off a list (`BulkMachine.DequeueExactly`); queueing a queued request damages
  the list too.  A run is safe exactly when the driver does neither (`BulkMachine.RunIsSafe`).
  Queueing the ep0 reply a second time zeroes its counts before refusing it
  (`Ep0Safety.RequeuedExactly`).
* Atmel USBA: a turn that completes a request submits the next one at once, without asking
  for a free bank.  When none is left its packet is copied over what is there
  (`PioUsba.OverrunExactly`); when it has only one packet its interrupt is disabled with
  nothing left to complete it, until a further request is queued and an empty packet is sent
  (`PioUsba.OvertakingLeaves`, `PioUsba.LeftSendsEmpty`).  All is well exactly without
  either (`PioUsba.RunExactly`).
* Loopback controller: the walk over the queue goes on to the next request after one full
  packet that ends neither side (`DummyOrder.PassOverExactly`), so requests are not always
  completed in order; `DummyOrder.OrderExactly` says exactly when they are.  The contents
  theorem therefore speaks of each request's bytes.  The shared FIFO request shows when a
  call names a request while its copy is queued, and only then
  (`DummyDriver.AnswersExactly`).
* AMD5536: the first descriptor of an IN chain keeps the last bit until the interrupt handler
  clears it, so before that a walk ends at once; and the first descriptor of an IN chain on
  endpoint 0 has the whole length as its byte count (`AmdChain.DmaRequest.PrepDma`).  Giving
  up a chain of more than one descriptor follows links of freed ones
  (`AmdChain.DmaRequest.FreeDmaChain`).
* Tuning modes: the result of a search may depend on the order of the list; it does so
  exactly when some two modes lead down in either order (`ModeSearch.OrderExactly`).
* Composite gadget: wTotalLength is right exactly below 2^16 bytes
  (`ConfigDescriptor.ConfigParses`); bMaxPower covers exactly draws of up to 255 units
  (`ConfigDescriptor.MaxPowerCovers`); the index lookup and the count agree exactly when a
  super-speed gadget counts as dual-speed (`ConfigDescriptor.SpeedsAgree`); set_config
  follows a null pointer exactly when it reaches a function without descriptors for the bus
  speed (`CompositeMachine.SetConfigExactly`); a late continue is counted for whatever request
  is outstanding, so a deferred request gets its own status stage exactly under
  `CompositeMachine.DelayedExactly`.
* Frame-buffer queue: queueing a buffer that is already on `empty` is refused only while it is
  queued or active, and a negative number reads outside the array
  (`EzyMachine.QBufExactly`); a signal ends the wait for a buffer that has been woken
  (`EzyMachine.DqBufExactly`); the stored byte count exceeds the capacity exactly for a buffer
  smaller than its header (`EzyMachine.QBufBytes`); streaming starts even when -EBUSY is
  returned (`EzyMachine.StreamOnExactly`).

## Model

| member | source | states |
|---|---|---|
| `Ep0Safety.RunIsSafe` | gadget/bcm63xx_udc.c:1375-1708 | from every state that meets the invariant, every interleaving of worker steps, callback returns, host and gadget events, descriptor completions and data interrupts meets no BUG_ON and follows no null request, and the invariant holds after it |
| `Ep0Safety.StepKeeps` | gadget/bcm63xx_udc.c:1375-1708 | each lock-held step keeps the invariant: which request is in flight on which ep0 channel, and that the other channel is idle |
| `Ep0Safety.RequestExactly` | gadget/bcm63xx_udc.c:1375-1388 | from a device that has just been connected, whenever the worker is between rounds, ep0_request is set exactly in IDLE, the two DATA_PHASE_COMPLETE states, OUT_STATUS_PHASE and IN_FAKE_STATUS_PHASE, and at most one ep0 channel has descriptors outstanding |
| `Ep0Safety.MapWriteKeeps` | gadget/bcm63xx_udc.c:1375-1388 | submitting on an idle ep0 succeeds and leaves exactly that request in flight |
| `Ep0Safety.RoundKeeps` | gadget/bcm63xx_udc.c:1472-1708 | the part of a round up to its callback keeps the invariant in all nine states |
| `Ep0Safety.ResumeKeeps` | gadget/bcm63xx_udc.c:1490-1513 | the part of a round after its callback keeps the invariant, whatever the callback returned and whatever happened meanwhile |
| `Ep0Safety.InterruptedKeeps` | gadget/bcm63xx_udc.c:2049-2070 | a data interrupt that reaps a finished transfer always finds its request, and completes it or posts its next part |
| `Ep0Safety.HardwareKeeps` | gadget/bcm63xx_udc.c:584-649 | descriptor completions by the hardware, in ring order and with any RX length, keep the invariant |
| `Ep0Transfers.PacketArrives` | gadget/bcm63xx_udc.c:2049-2070 | a packet that arrives while the worker waits for a SETUP packet is counted in full, and nothing else changes |
| `Ep0Transfers.PacketExactly` | gadget/bcm63xx_udc.c:1472-1500 | a complete packet of eight bytes leads to the setup callback with both ep0 channels idle, and after any other the 64-byte control request is posted on the receive channel again |
| `Ep0Transfers.SetupArrives` | gadget/bcm63xx_udc.c:1472-1500 | so eight bytes on the bus reach the setup callback |
| `Ep0Transfers.InterruptFlies` | gadget/bcm63xx_udc.c:2049-2070 | the request in flight on ep0, its channel and its completion go through the steps of one request of IudmaTransfer, and nothing else changes |
| `Ep0Transfers.HardwareFlies` | gadget/bcm63xx_udc.c:2049-2070 | likewise for a descriptor completion |
| `Ep0Transfers.NoDataStage` | gadget/bcm63xx_udc.c:1501-1507 | after a refused request, or one without a data stage, the 64-byte control request is posted on the receive channel |
| `Ep0Transfers.DataStage` | gadget/bcm63xx_udc.c:1506-1511 | otherwise the reply, queued during the callback or later, is put in flight from its first byte on the transmit channel for an IN request and on the receive channel for an OUT request, with the other channel idle |
| `Ep0Transfers.ReadEnds` | gadget/bcm63xx_udc.c:1612-1619 | a control read ends with its data: the reply is given up and the worker waits for the next packet |
| `Ep0Transfers.WriteAcknowledged` | gadget/bcm63xx_udc.c:1637-1645 | a control write is acknowledged by an empty packet on the transmit channel |
| `Ep0Transfers.WriteEnds` | gadget/bcm63xx_udc.c:1653-1664 | and ends when that has been sent |
| `Ep0Transfers.WaitCut` | gadget/bcm63xx_udc.c:1586-1670 | a reset or shutdown while the worker waits for a reply or for a status stage makes it wait for the next packet |
| `Ep0Transfers.DataCut` | gadget/bcm63xx_udc.c:1604-1652 | while the reply is on its way, the reply is given up, completed, and the channels are idle |
| `Ep0Transfers.IdleFirst` | gadget/bcm63xx_udc.c:1525-1564 | the order in which the idle worker takes up a reset, the two spoofed requests, a packet, a shutdown and an unexpected reply, and what each changes |
| `Ep0Transfers.SpoofExactly` | gadget/bcm63xx_udc.c:1529-1536 | a spoofed request waits for its reply exactly when it is accepted |
| `Ep0Transfers.FakeStatus` | gadget/bcm63xx_udc.c:1671-1697 | its reply is completed without being sent; a reset or a shutdown ends the wait |
| `Ep0Transfers.PullupListens` | gadget/bcm63xx_udc.c:1777-1784 | switching the pullup on makes a shut-down worker wait for packets |
| `Ep0Transfers.NotesExactly` | gadget/bcm63xx_udc.c:1777-1792 | what the calls and control interrupts leave for the worker |
| `Ep0Progress.WorkerIsBounded` | gadget/bcm63xx_udc.c:1724-1731 | over every run, the worker rounds that do something number at most a function of the starting state plus six per event from outside, so the worker loop ends whenever the outside is quiet |
| `Ep0Progress.RoundProgress` | gadget/bcm63xx_udc.c:1572-1708 | a round that reports work lowers the measure; one that reports none changes nothing |
| `Ep0Progress.StepPending` | gadget/bcm63xx_udc.c:1572-1708 | how each kind of step moves the measure |
| `Ep0Progress.ShutdownNeverWaits` | gadget/bcm63xx_udc.c:1525-1564 | while a shutdown is requested no state makes the worker wait |
| `Ep0Progress.ShutdownStays` | gadget/bcm63xx_udc.c:1525-1708 | only shutting down clears a shutdown request, and only the pullup leaves the shutdown state |
| `Ep0Progress.ShutdownIsReached` | gadget/bcm63xx_udc.c:1777-1792 | after a shutdown request, a worker that has come to a stop is in EP0_SHUTDOWN, whatever happened on the way short of switching the pullup on |
| `Ep0Worker.Udc.MapWrite` | gadget/bcm63xx_udc.c:1375-1388 | the fields after bcm63xx_ep0_map_write are those of the machine step |
| `Ep0Worker.Udc.ReadComplete` | gadget/bcm63xx_udc.c:1433-1444 | likewise for bcm63xx_ep0_read_complete, which returns the byte count |
| `Ep0Worker.Udc.NukeReply` | gadget/bcm63xx_udc.c:1415-1427 | likewise for bcm63xx_ep0_nuke_reply |
| `Ep0Worker.Udc.BeginIdle` | gadget/bcm63xx_udc.c:1525-1564 | likewise for bcm63xx_ep0_do_idle up to a callback |
| `Ep0Worker.Udc.BeginRound` | gadget/bcm63xx_udc.c:1572-1708 | likewise for one round in any state, up to a callback |
| `Ep0Worker.Udc.EndRound` | gadget/bcm63xx_udc.c:1490-1513 | likewise for what follows a callback |
| `Ep0Worker.Udc.QueueReply` | gadget/bcm63xx_udc.c:1144-1170 | queueing a reply on ep0: a second one is refused with -EINVAL, having been started afresh, which matters only when it is the one already queued |
| `Ep0Safety.RequeuedExactly` | gadget/bcm63xx_udc.c:1154-1164 | queueing the reply that is queued already zeroes its counts before refusing it; that keeps the invariant exactly when it is not in flight or has no bytes |
| `Ep0Worker.Udc.RxIsr` | gadget/bcm63xx_udc.c:2049-2070 | the data interrupt on the ep0 receive channel is the machine step |
| `Ep0Worker.Udc.TxIsr` | gadget/bcm63xx_udc.c:2049-2070 | the data interrupt on the ep0 transmit channel is the machine step |
| `Ep0Worker.Udc.Callback` | gadget/bcm63xx_udc.c:1396-1403 | while the lock is dropped, whatever the outside does is a run of machine steps |
| `Ep0Worker.Udc.OneRound` | gadget/bcm63xx_udc.c:1572-1708 | one round on the fields is a worker step, the outside steps of its callback and the return, and it reports work exactly when the machine does something |
| `Ep0Worker.Udc.Process` | gadget/bcm63xx_udc.c:1724-1731 | the worker loop terminates, with the machine waiting; with a shutdown requested and the pullup not switched on, in EP0_SHUTDOWN |
| `Ep0Worker.Udc.PullupOffAndWait` | gadget/bcm63xx_udc.c:1777-1792 | switching the pullup off, with the worker between rounds or inside a callback, returns in EP0_SHUTDOWN, or refuses when it is there already |
| `IudmaChannel.Channel.Write` | gadget/bcm63xx_udc.c:584-649 | the do/while loop leaves the ring, the pointers and the request exactly as the closed form says: descriptor by descriptor address, length, owner, SOP on the first, EOP on the last, wrap on the last slot |
| `IudmaChannel.Channel.Read` | gadget/bcm63xx_udc.c:660-687 | the reap loop returns -EINVAL, -EBUSY or the sum of the reported lengths, and advances the read pointer only in the last case |
| `IudmaChannel.Channel.Reset` | gadget/bcm63xx_udc.c:694-743 | a reset clears every descriptor and both pointers |
| `Iudma.CountBounds` | gadget/bcm63xx_udc.c:596-645 | a submission uses between one and n_bds descriptors and covers no more than what is left |
| `Iudma.IdleOwnsNothing` | gadget/bcm63xx_udc.c:584-611 | on an idle channel the hardware owns no descriptor, so a submission overwrites none of its own |
| `Iudma.WriteStarts` | gadget/bcm63xx_udc.c:584-649 | a submission on an idle channel puts the request in flight |
| `Iudma.WriteKeepsChan` | gadget/bcm63xx_udc.c:606-645 | and keeps the write pointer n_bds_used ahead of the read pointer |
| `Iudma.HwKeepsInFlight` | gadget/bcm63xx_udc.c:660-687 | hardware completions keep the request in flight |
| `Iudma.ReapedIsIdle` | gadget/bcm63xx_udc.c:660-687 | a successful reap leaves an idle channel |
| `Iudma.ReportedTx` | gadget/bcm63xx_udc.c:660-687 | a transmit submission reports the bytes it posted, plus one for a zero-length packet |
| `Iudma.ReportedRx` | gadget/bcm63xx_udc.c:660-687 | a receive submission reports at most what it posted |
| `Iudma.ReapOutcome` | gadget/bcm63xx_udc.c:2071-2095 | a transmit request that ends has sent exactly its length, and a request that goes on stands where the submission ended with bytes left |
| `Iudma.WrittenExactly` | gadget/bcm63xx_udc.c:596-645 | a submission owns, frames and wraps exactly its own slots and leaves the others alone |
| `Iudma.ReadExactly` | gadget/bcm63xx_udc.c:660-687 | a read fails exactly when nothing is outstanding or a descriptor is not done, and then changes nothing |
| `Iudma.ResetExactly` | gadget/bcm63xx_udc.c:726-733 | a reset leaves no descriptor to the hardware and the channel at its start |
| `IudmaTransfer.ReceiveCounts` | gadget/bcm63xx_udc.c:2049-2083 | over every run of completions and interrupts of one receive request, its count when it is done is the bytes that landed, capped at its length, and before that the bytes that landed less those not yet reaped |
| `IudmaTransfer.ReceivePosts` | gadget/bcm63xx_udc.c:596-645 | while it is not done one descriptor is posted, for what is left up to a buffer or a packet |
| `IudmaTransfer.ReceiveExactly` | gadget/bcm63xx_udc.c:2071-2095 | it is done exactly with a short descriptor or its length |
| `IudmaTransfer.TransferTiles` | gadget/bcm63xx_udc.c:2071-2095 | over any completions and interrupts of one request: the posted descriptors tile the buffer from its start without gap or overlap, each submission has 1 to n_bds descriptors with SOP on the first and EOP on the last only, a finished transmit request has moved exactly its length in ceil(length / (n_bds * 2048)) submissions, at least one, and a receive request never counts more than its length |
| `IudmaTransfer.RunKeeps` | gadget/bcm63xx_udc.c:2071-2095 | the invariant behind it, over every run |
| `IudmaTransfer.PostedIsChain` | gadget/bcm63xx_udc.c:596-645 | one submission tiles its part of the buffer and is framed by SOP and EOP |
| `BulkMachine.RunIsSafe` | gadget/bcm63xx_udc.c:1061-1236 | over every interleaving of enable, disable, queue, dequeue, completions and interrupts on a bulk or interrupt channel: the run goes wrong exactly when somewhere a queued request is queued again or one that is not queued is dequeued from a non-empty queue; otherwise write_bd == (read_bd + n_bds_used) mod n_bds, the queue is non-empty exactly when descriptors are outstanding and they belong to its head, and every accepted request is queued or completed, once |
| `BulkMachine.StepKeeps` | gadget/bcm63xx_udc.c:1144-1236 | each step that keeps that discipline meets no BUG_ON and keeps the invariant |
| `BulkMachine.StepExactly` | gadget/bcm63xx_udc.c:1144-1236 | a step goes wrong exactly when it breaks the discipline |
| `BulkMachine.RunOrder` | gadget/bcm63xx_udc.c:2071-2095 | in every run that does not go wrong, the requests that are not dequeued complete in the order in which they were accepted |
| `BulkMachine.PlainOrder` | gadget/bcm63xx_udc.c:2071-2095 | as long as nothing is dequeued, the completed requests followed by the queued ones are the accepted ones, in order |
| `BulkMachine.RemoveAllConserves` | gadget/bcm63xx_udc.c:1061-1100 | disabling completes every queued request once |
| `BulkMachine.DequeueExactly` | gadget/bcm63xx_udc.c:1197-1236 | a dequeue takes the request off the queue and completes it exactly when it was queued; on an empty queue it completes a request that was nowhere; in every other case it damages the list |
| `BulkTransfers.DataIsrExactly` | gadget/bcm63xx_udc.c:2071-2095 | a data interrupt takes the head one step on as one request of IudmaTransfer; when that is done it completes with status 0 and the bytes counted, and the others stay in order |
| `BulkTransfers.HardwareExactly` | gadget/bcm63xx_udc.c:2071-2095 | likewise for a descriptor completion |
| `BulkTransfers.DisableExactly` | gadget/bcm63xx_udc.c:1061-1100 | disabling completes what is queued, in order, with -ESHUTDOWN and the bytes counted so far; enabling changes no queue |
| `BulkTransfers.QueueExactly` | gadget/bcm63xx_udc.c:1144-1186 | an accepted request stands behind the others with nothing counted |
| `BulkEndpoint.Endpoint.Enable` | gadget/bcm63xx_udc.c:1021-1050 | enabling on the fields is the machine step |
| `BulkEndpoint.Endpoint.Disable` | gadget/bcm63xx_udc.c:1061-1100 | likewise for disabling |
| `BulkEndpoint.Endpoint.Queue` | gadget/bcm63xx_udc.c:1144-1186 | likewise for queueing, with -ESHUTDOWN on a disabled endpoint; a request that is queued already damages the list, and then nothing is promised |
| `BulkEndpoint.Endpoint.Dequeue` | gadget/bcm63xx_udc.c:1197-1236 | likewise for dequeueing: resetting the channel and submitting the next request when the head goes; a request not on a non-empty queue damages the list |
| `BulkEndpoint.Endpoint.DataIsr` | gadget/bcm63xx_udc.c:2071-2095 | likewise for the data interrupt: count, complete or carry on, submit the next |
| `TxPackets.TransferIsPackets` | gadget/atmel_usba_udc.c:372-403 | the packet sequence of an IN request is the only one whose payloads concatenate to the buffer, all full but the last, ending in an empty packet exactly when length is 0 or (zero is set and length is a multiple of maxpacket) |
| `TxPackets.SplitConcat` | gadget/at91_udc.c:413-447 | packets of two adjoining pieces are the packets of the whole when the first ends on a packet boundary |
| `BcmPackets.BcmSendsPackets` | gadget/bcm63xx_udc.c:596-645 | a finished transmit request of the IUDMA ring has sent that packet sequence exactly when no empty packet is due or the last submission leaves a descriptor for it; otherwise only the empty packet is missing |
| `BcmPackets.PostedStream` | gadget/bcm63xx_udc.c:596-645 | the packets of the first descriptors of a submission are those of the bytes they cover |
| `BcmPackets.RunOnBus` | gadget/bcm63xx_udc.c:2071-2095 | over every run, what has been posted is the packet sequence of the bytes submitted |
| `PioWriters.LoadKeeps` | gadget/at91_udc.c:413-447 | the rule by which both FIFO writers choose the count and the last packet: the last packet completes the standard sequence of the request, and before it something is still owed |
| `PioWriters.ServeKeeps` | gadget/atmel_usba_udc.c:351-370 | serving the head of a queue keeps on the wire the packets of the completed requests and the start of the head |
| `PioWriters.CleanIsPrefix` | gadget/atmel_usba_udc.c:1541-1572 | then the wire is a prefix of the concatenation of the packet sequences of all requests in the order of queueing, and all of it once the queue is empty |
| `PioAt91.RunOnWire` | gadget/at91_udc.c:601-695 | for every run of queueing, interrupts and host activity, with callbacks that queue further requests, that is what at91_udc puts on the wire, and every request asked for is completed or queued, in order |
| `PioAt91.LoadsExactly` | gadget/at91_udc.c:382-447 | a packet is loaded exactly when the FIFO is free and an interrupt finds a request or one is queued on an idle endpoint |
| `PioAt91.RunTakes` | gadget/at91_udc.c:382-447 | over every run the packets loaded are those the host has taken and the one in the FIFO |
| `PioAt91.Endpoint.WriteFifo` | gadget/at91_udc.c:382-447 | write_fifo on the fields loads at most one packet, completing the request with the last |
| `PioAt91.Endpoint.Done` | gadget/at91_udc.c:256-278 | done takes the head off, and what its callback queues is appended without being started |
| `PioAt91.Endpoint.EpQueue` | gadget/at91_udc.c:636-695 | at91_ep_queue on an IN endpoint is the machine step: an idle endpoint starts at once |
| `PioAt91.Endpoint.HandleEp` | gadget/at91_udc.c:1001-1021 | the IN side of handle_ep is the machine step |
| `PioUsba.StepExactly` | gadget/atmel_usba_udc.c:1541-1572 | a step keeps the wire right, copies nothing into a FIFO without a free bank, and keeps the interrupt of a waiting request enabled, exactly when it is not a turn that completes a request with another behind it that has only one packet or for which no bank is left |
| `PioUsba.OverrunExactly` | gadget/atmel_usba_udc.c:405-417 | in any state, a packet is copied while no bank is free exactly by a turn that completes a request with the last free bank while an unsubmitted one is behind it |
| `PioUsba.RunExactly` | gadget/atmel_usba_udc.c:1541-1572 | over every run that stays so in all states exactly when no turn does either |
| `PioUsba.CopiesExactly` | gadget/atmel_usba_udc.c:1541-1572 | how many packets a step copies and banks it takes |
| `PioUsba.InterruptExactly` | gadget/atmel_usba_udc.c:405-417 | queueing enables the interrupt and a turn that leaves nothing queued disables it |
| `PioUsba.RunTakes` | gadget/atmel_usba_udc.c:1541-1572 | while no turn is of either kind, the packets copied are those the host has taken and those in the banks |
| `PioUsba.RunOnWire` | gadget/atmel_usba_udc.c:405-417 | then the wire is a prefix of the concatenated packet sequences of the requests in the order of queueing, and all of it once none is waiting |
| `PioUsba.RunOrder` | gadget/atmel_usba_udc.c:746-792 | in every run, also when that fails, the completed and the queued requests are those asked for, in order |
| `PioUsba.PacedIsEnough` | gadget/atmel_usba_udc.c:746-792 | a driver that queues a request of one packet only when no other is queued avoids the first kind |
| `PioUsba.SingleIsEnough` | gadget/atmel_usba_udc.c:746-792 | one that queues any request only when no other is queued avoids both |
| `PioUsba.OvertakingLeaves` | gadget/atmel_usba_udc.c:395-397 | a turn of the first kind leaves the next request wholly copied and still queued, with its interrupt disabled |
| `PioUsba.LeftStays` | gadget/atmel_usba_udc.c:1541-1543 | no interrupt and no host activity then completes it |
| `PioUsba.LeftSendsEmpty` | gadget/atmel_usba_udc.c:1562-1571 | the next request to be queued completes it, behind an empty packet that the standard sequences do not have |
| `PioUsba.TwoShort` | gadget/atmel_usba_udc.c:405-417 | two requests of one packet each, queued on an idle endpoint, lead there |
| `PioUsba.TwoLong` | gadget/atmel_usba_udc.c:405-417 | with the two banks of a bulk endpoint, a request of two packets and another behind it lead to an overrun |
| `PioUsba.Endpoint.NextFifoTransaction` | gadget/atmel_usba_udc.c:351-370 | next_fifo_transaction loads one packet and decides whether it is the last |
| `PioUsba.Endpoint.SubmitRequest` | gadget/atmel_usba_udc.c:372-403 | submit_request starts the head from its first byte and sets the interrupt bit |
| `PioUsba.Endpoint.SubmitNextRequest` | gadget/atmel_usba_udc.c:405-417 | submit_next_request on the fields |
| `PioUsba.Endpoint.EpIrq` | gadget/atmel_usba_udc.c:1541-1572 | one turn of the transmit loop of usba_ep_irq is the machine step |
| `PioUsba.Endpoint.EpQueue` | gadget/atmel_usba_udc.c:746-792 | usba_ep_queue on an IN endpoint is the machine step |
| `PioAgree.WritersAgree` | gadget/atmel_usba_udc.c:1541-1572 | given the same requests, the two drivers have put the same packets on the wire once neither has one left, as long as no turn of the second is of either kind |
| `Sha256.RoundsRolled` | ath204/sha256.c:174-186 | the rolled loop computes the 64 rounds of section 6.2.2 of FIPS 180-2 |
| `Sha256.Exp` | ath204/sha256.c:106-113 | one unrolled step is one round in the naming that the next step uses |
| `Sha256.EightRounds` | ath204/sha256.c:216-231 | eight unrolled steps are eight rounds and bring the naming back |
| `Sha256.RoundsUnrolled` | ath204/sha256.c:216-247 | the 64 unrolled steps compute the same as the rolled loop, for every block and starting state |
| `Sha256.Schedule` | ath204/sha256.c:161-167 | the message schedule is that of section 6.2.2 |
| `Sha256.TransfBlock` | ath204/sha256.c:143-257 | one block changes the hash state as the standard says, in either form |
| `Sha256.Transf` | ath204/sha256.c:143-257 | any number of blocks fold into the hash state |
| `Sha256.CodePaddingIsStandard` | ath204/sha256.c:320-341 | the tail that sha256_final hashes is the padding of section 5.1.1 exactly for messages under 2^29 bytes, and always fills whole blocks |
| `Sha256Spec.FoldConcat` | ath204/sha256.c:286-318 | hashing blocks in two parts is hashing them in one |
| `Sha256Spec.PadFillsBlocks` | ath204/sha256.c:320-341 | the standard padding fills whole blocks |
| `Sha256Spec.WordRoundTrip` | ath204/sha256.c:81-98 | taking a word apart into bytes and packing them again gives the word |
| `Sha256Known.KnownAnswer` | ath204/sha256.c:70-138 | the digest of "abc" is that of appendix B.1 of FIPS 180-2, which fixes the constants, rotations and byte orders that the code and the standard share |
| `Sha256Ctx.AbsorbBlocks` | ath204/sha256.c:286-318 | an update that completes blocks leaves the context with the longer message absorbed and the rest pending |
| `Sha256Ctx.AbsorbShort` | ath204/sha256.c:286-303 | an update that completes no block only adds to the pending bytes |
| `Sha256Ctx.AbsorbTail` | ath204/sha256.c:320-341 | hashing the pending bytes with a tail completes the fold over the message |
| `Sha256Ctx.Context.constructor` | ath204/sha256.c:268-284 | the context starts from the initial hash value with nothing fed |
| `Sha256Ctx.Context.Update` | ath204/sha256.c:286-318 | an update feeds its bytes to the context, whatever was fed before and however it is cut |
| `Sha256Ctx.Context.Final` | ath204/sha256.c:320-356 | the digest is that of the fold over what was fed and the code's tail; under 2^29 bytes, the SHA-256 digest of what was fed |
| `Sha256Ctx.HashInChunks` | ath204/sha256.c:259-356 | for every split of a message under 2^29 bytes into updates the digest is the standard digest of the concatenation |
| `Sha256Ctx.Hash` | ath204/sha256.c:259-266 | so is the one-shot digest |
| `DummyTransfer.TransferSafe` | gadget/dummy_hcd.c:1288-1406 | for every state of the queue, the URB and the budget, and whatever requests the completion callbacks dequeue: byte counts agree, the destination buffers have exactly the source bytes moved and nothing else new, every request is queued, completed once or dequeued, and lost bytes are reported |
| `DummyTransfer.TransferContents` | gadget/dummy_hcd.c:1221-1242 | the same by slices: on IN the URB has from where it stood the bytes copied, which are those of each request from where it stood, and on OUT the other way; every other byte of both sides is as before |
| `DummyTransfer.TransferConserves` | gadget/dummy_hcd.c:1288-1406 | what the URB gained is what the requests gained together and what the budget lost, and the URB is not overrun |
| `DummyTransfer.RunKeeps` | gadget/dummy_hcd.c:1288-1406 | the four invariants behind it, over the whole loop |
| `DummyTransfer.TurnDecreases` | gadget/dummy_hcd.c:1288-1406 | every turn shortens the queue, or moves bytes, or goes one request on: the loop with its goto ends |
| `DummyTransfer.TurnKeeps` | gadget/dummy_hcd.c:1221-1242 | a turn keeps counts and contents |
| `DummyTransfer.TurnOwned` | gadget/dummy_hcd.c:1383-1394 | a turn keeps ownership: completed requests leave the queue and others stay |
| `DummyTransfer.TurnCancels` | gadget/dummy_hcd.c:1383-1394 | a completion callback takes exactly the requests that it dequeues off the queue, and the rest stay in order |
| `DummyTransfer.TurnTold` | gadget/dummy_hcd.c:1349-1381 | a turn keeps the reports: an IN request completed before its end goes with -EOVERFLOW on the URB, and a URB ended before its end on OUT with -EOVERFLOW on a request, and neither is reported otherwise |
| `DummyTransfer.DecideFits` | gadget/dummy_hcd.c:1309-1345 | the amount moved fits both buffers and the budget, is whole packets unless it is the final short one, and a short one always exhausts a side |
| `DummyTransfer.IdleExactly` | gadget/dummy_hcd.c:1295-1330 | a call does nothing exactly when no request is queued for the URB's stream or the first such request needs a packet that the budget no longer allows |
| `DummyTransfer.ZeroPacketSkipped` | gadget/dummy_hcd.c:1338-1404 | for instance, of two requests of which the first asks for a zero-length packet the second is completed first, and the host sees no packet end between them |
| `DummyOrder.PassOverExactly` | gadget/dummy_hcd.c:1309-1404 | a turn that moves data leaves its request unfinished and goes on to the next one exactly when it moves one full packet that ends neither the request nor the URB |
| `DummyOrder.OrderExactly` | gadget/dummy_hcd.c:1288-1406 | a call completes requests in the order of the queue exactly when their lengths, the URB's room and the budget satisfy a condition that can be computed before the call |
| `DummyOrder.NeverPassesOrder` | gadget/dummy_hcd.c:1288-1406 | in particular when no turn of the call passes a request over |
| `DummyOrder.Failures` | gadget/dummy_hcd.c:1309-1404 | three ways to fail that condition: a request that asks for an empty packet, a budget of one packet, a URB that asks for an empty packet |
| `DummyEndpoint.Endpoint.NewIsValid` | gadget/dummy_hcd.c:950-960 | a new endpoint is ready for a transfer |
| `DummyEndpoint.PerformTransfer` | gadget/dummy_hcd.c:1221-1242 | the copy advances both counters and writes only the destination |
| `DummyEndpoint.Endpoint.DecideMove` | gadget/dummy_hcd.c:1309-1345 | the branches that fix the amount are the specification's |
| `DummyEndpoint.Endpoint.Complete` | gadget/dummy_hcd.c:1383-1394 | completing a request takes it off the queue, and its callback dequeues the requests it names |
| `DummyEndpoint.Endpoint.OneTurn` | gadget/dummy_hcd.c:1294-1404 | one turn on the objects is one turn of the specification |
| `DummyEndpoint.Endpoint.Transfer` | gadget/dummy_hcd.c:1288-1406 | the loop on the objects ends in the state that the specification computes |
| `DummyFifo.SimilarRun` | gadget/dummy_hcd.c:1288-1406 | a transfer depends on the queued requests only, not on which objects hold them |
| `DummyFifo.SimQueued` | gadget/dummy_hcd.c:645-669 | queueing the shared copy, which is off every queue when it is taken, keeps the queues the same request for request |
| `DummyFifo.Transparent` | gadget/dummy_hcd.c:617-675 | for every run of queueing, transfers, dequeueing and disabling the host sees the bytes, counts, statuses and budget that it would see if the requests accepted were queued themselves and those taken off were taken off |
| `DummyFifo.TransparentFromStart` | gadget/dummy_hcd.c:617-675 | in particular from a controller with nothing queued |
| `DummyDriver.CallExactly` | gadget/dummy_hcd.c:617-710 | a call gets another return code than without the shared request exactly when it queues the copied request again or dequeues it while the copy is queued; otherwise the host gets the same and the controllers go on alike |
| `DummyDriver.AnswersExactly` | gadget/dummy_hcd.c:617-710 | over every run, all return codes and all that the host gets are the same with and without the shared request exactly when no call does that |
| `DummyDriver.AnswersFromStart` | gadget/dummy_hcd.c:617-710 | in particular from a controller with nothing queued |
| `DummyDriver.QueueTells` | gadget/dummy_hcd.c:647-666 | a copied request is reported complete with all its bytes and status 0 while its copy waits with the same bytes; any other waits at the end of the queue |
| `DummyDriver.DequeueTells` | gadget/dummy_hcd.c:675-711 | a dequeued request leaves its queue with -ECONNRESET, and one that is not queued gives -EINVAL |
| `DummyDriver.DisableTells` | gadget/dummy_hcd.c:251-264 | disabling an endpoint gives all its requests -ESHUTDOWN |
| `DummyFifo.StepWF` | gadget/dummy_hcd.c:617-710 | no request is ever on two queues or twice on one |
| `DummyFifo.Controller.Queue` | gadget/dummy_hcd.c:617-675 | dummy_queue on the shared fields is that step, and while the shared request is queued the shared buffer keeps its data |
| `AmdChain.WindowsTile` | gadget/amd5536udc.c:952-1020 | every byte of a transfer is in the window of exactly one descriptor |
| `AmdChain.WindowsAbut` | gadget/amd5536udc.c:952-1020 | each window starts where the one before ends and the last ends with the transfer |
| `AmdChain.OffsetInside` | gadget/amd5536udc.c:936-939 | a buffer starts inside the transfer exactly when the computed number of descriptors includes it |
| `AmdChain.EndsOnce` | gadget/amd5536udc.c:877-887 | a walk to the last bit has one end |
| `AmdChain.FirstWindow` | gadget/amd5536udc.c:746-757 | one descriptor is enough exactly for up to one packet |
| `AmdChain.SumOfWindows` | gadget/amd5536udc.c:890-911 | the bytes counted over the first descriptors are where the next window starts, and over all of them the length |
| `AmdChain.SumOfShort` | gadget/amd5536udc.c:890-911 | of full packets and a last one they are the packets and what the last holds |
| `AmdChain.DmaRequest.constructor` | gadget/amd5536udc.c:506-550 | a new request has a chain of one |
| `AmdChain.DmaRequest.FreeDmaChain` | gadget/amd5536udc.c:850-874 | frees every linked descriptor but the first, each once, and follows the link of each after freeing it, so of some exactly when the chain has more than one |
| `AmdChain.DmaRequest.MakeRoom` | gadget/amd5536udc.c:936-949 | a chain that is too short is given up, a longer one is kept, and chain_len is the larger of the two lengths |
| `AmdChain.DmaRequest.LayChain` | gadget/amd5536udc.c:951-1020 | the loop links or walks exactly the descriptors needed, each with its buffer and byte count and no last bit |
| `AmdChain.DmaRequest.CreateDmaChain` | gadget/amd5536udc.c:913-1029 | the chain stays linked with chain_len descriptors, and the descriptors in use have their windows and the last bit on the last of them |
| `AmdChain.DmaRequest.PrepDma` | gadget/amd5536udc.c:727-813 | after any earlier transfers, longer or shorter: buffer pointers tile the request, an OUT walk visits exactly max(1, ceil(length/maxpacket)) descriptors, an IN walk stops at the first, and IN byte counts are the windows except for the first descriptor of endpoint 0 |
| `AmdChain.DmaRequest.StartIn` | gadget/amd5536udc.c:2370-2381 | once the IN interrupt has started the transfer, its walk visits all of them too |
| `AmdChain.DmaRequest.LastDesc` | gadget/amd5536udc.c:877-887 | the walk returns the descriptor that ends the transfer and follows no uninitialised link |
| `AmdChain.DmaRequest.RxBytes` | gadget/amd5536udc.c:890-911 | the byte counts are summed over exactly those descriptors |
| `ModeArena.InsertWF` | g_parser/parametersetmanager.h:74-92 | adding a mode keeps the tree a tree |
| `ModeArena.RootCovers` | g_parser/parametersetmanager.h:121-139 | the search order from the root reaches every mode |
| `ModeArena.FindIdFromRoot` | g_parser/parametersetmanager.h:121-139 | a mode id is found from the root exactly when some mode carries it, and the mode found carries it |
| `ModeArena.FirstMatchIs` | g_parser/parametersetmanager.h:121-167 | the first match in depth-first order is a match, and there is none exactly when nothing matches |
| `ModeSearch.SearchSound` | g_parser/parametersetmanager.h:175-203 | what the search for a list of modes returns ends the descent of some ordering of the list |
| `ModeSearch.SearchComplete` | g_parser/parametersetmanager.h:175-203 | if the descent of some ordering succeeds, so does the search |
| `ModeSearch.SearchExactly` | g_parser/parametersetmanager.h:175-203 | the search succeeds exactly when some ordering does, and returns where one such ordering ends |
| `ModeSearch.OrderExactly` | g_parser/parametersetmanager.h:175-203 | the result is independent of the order of the list, for all starts and lists, exactly when from no mode two different ones lead down in either order |
| `ModeSearch.BothWaysEnclose` | g_parser/parametersetmanager.h:175-203 | two modes that lead down in either order come as one, the other and the first again on one way down |
| `ModeSearch.OrderIndependent` | g_parser/parametersetmanager.h:175-203 | so the order does not matter in a tree in which no mode encloses another, nor in one with no two modes alike |
| `ModeSearch.OrderMatters` | g_parser/parametersetmanager.h:175-203 | for instance, a chain of modes on which the two orders give different modes |
| `ModeModules.GetModuleExtended` | g_parser/parametersetmanager.h:326-365 | appending a group of a new mode type to a branch adds one search at the end of the walk, and never turns a found module into none |
| `ModeLookup.GetModuleExactly` | g_parser/parametersetmanager.h:326-365 | the module found along a branch is that of the last mode visited that has one, and there is none exactly when none has |
| `ModeLookup.WalkExists` | g_parser/parametersetmanager.h:341-362 | every branch has such a sequence of modes: each longest run of one mode type leads by a search from one to the next, until the branch is used up or a search fails |
| `ModeLookup.FindModuleExactly` | g_parser/parametersetmanager.h:211-235 | the module found from a node is the first of that name of the first node, depth first, among those reached through nodes of the same mode and sub-mode |
| `ModeLookup.FirstNamedExactly` | g_parser/parametersetmanager.h:215-223 | the first module of that name in a list |
| `ModeModules.SameMode` | g_parser/parametersetmanager.h:345-350 | the group is the longest run of entries of one mode type |
| `ModeModules.RowHangs` | g_parser/parametersetmanager.h:590-606 | an accepted row becomes the last child of the first mode, in depth-first order, that carries its parent id, and no other mode changes |
| `ModeArena.FirstMatchFirst` | g_parser/parametersetmanager.h:121-139 | nothing that matches comes before the first match |
| `ModeModules.RowBuilds` | g_parser/parametersetmanager.h:590-606 | a row is accepted exactly when it is the first or its parent id is carried by an earlier accepted row, and then its node hangs below a node with that id |
| `ModeModules.LoadBuilds` | g_parser/parametersetmanager.h:567-608 | loading a table into the tree of the rows accepted before builds the tree of all accepted rows in order, and is valid exactly when none of its rows was rejected |
| `ModeModules.LoadFromEmpty` | g_parser/parametersetmanager.h:567-608 | so for the first table |
| `ModeTree.ModeEntry.AddMode` | g_parser/parametersetmanager.h:74-92 | the linked nodes after AddMode are the tree with one more last child |
| `ModeTree.ModeEntry.FindById` | g_parser/parametersetmanager.h:121-139 | the recursive search on the nodes returns the first match in depth-first order |
| `ModeTree.ModeEntry.FindByMode` | g_parser/parametersetmanager.h:147-167 | likewise for a mode |
| `ModeTree.ModeEntry.FindByModes` | g_parser/parametersetmanager.h:175-203 | likewise for a list of modes, with the copied list of the others |
| `ModeTree.ModeEntry.FindModuleNamed` | g_parser/parametersetmanager.h:211-235 | likewise for a module, below children of the same mode only |
| `ModeManager.ParameterSetManager.ReadModeTable` | g_parser/parametersetmanager.h:567-608 | the loop over the rows extends the tree that there is, and leaves the flag, as the table says |
| `ModeManager.ParameterSetManager.AddModule` | g_parser/parametersetmanager.h:492-509 | a module goes to the first mode with its id, and is refused when there is none |
| `ModeManager.ParameterSetManager.GetModule` | g_parser/parametersetmanager.h:326-365 | the loop over the branch returns the module that the walk finds |
| `ModeManager.PutFound` | g_parser/parametersetmanager.h:101-113 | the mode that took a module finds it, unless an older one of that name stands before it |
| `ModeManager.PutOther` | g_parser/parametersetmanager.h:211-235 | adding a module under one name changes no lookup of another |
| `Descriptors.ParseExactly` | gadget/config.c:36-56 | stepping on bLength takes bytes apart into a list of descriptors exactly when they are that list end to end and every length byte is right |
| `Descriptors.FillBuf` | gadget/config.c:36-56 | fills the buffer with the descriptors end to end when they fit, reports -EINVAL when they do not, and never writes outside its bounds |
| `ConfigDescriptor.ConfigParses` | gadget/composite.c:367-426 | parsing a configuration recovers its header, the extra descriptors and each function's descriptors for the speed, in order; wTotalLength is the byte count exactly when that fits 16 bits |
| `ConfigDescriptor.MaxPowerCovers` | gadget/composite.c:348-365 | bMaxPower times its unit is less than a unit more than what the configuration draws, and covers it exactly when 255 units do |
| `HostView.ConfigReads` | gadget/composite.c:367-426 | what the host reads by the offsets of section 9.6.3 of USB 2.0: the type, interface count, value, string, attributes with bit 7 set and power of the configuration, then its own descriptors and those of its functions for the speed |
| `HostView.GadgetConfigReads` | gadget/config.c:86-118 | likewise for usb_gadget_config_buf: type CONFIGURATION, bit 7 set, the right length and the rest as given |
| `HostView.HostSelects` | gadget/composite.c:604-647 | setting the value read from the i-th descriptor makes that configuration current, when no interface refuses |
| `HostView.OffersExactly` | gadget/composite.c:428-470 | which configurations are offered under CONFIGURATION and OTHER_SPEED_CONFIGURATION, by bus speed |
| `ConfigDescriptor.ConfigBuf` | gadget/composite.c:367-426 | config_buf writes those bytes when they fit the buffer, fails exactly when they do not, and writes nothing beyond it |
| `ConfigDescriptor.WriteBody` | gadget/composite.c:392-421 | the descriptors behind the header, for every mixture of null and present vectors |
| `ConfigDescriptor.GadgetConfigBuf` | gadget/config.c:86-118 | the patched header and the descriptors, or -EINVAL exactly when there is no vector, the buffer is too small or the length does not fit 16 bits |
| `ConfigDescriptor.GadgetConfigParses` | gadget/config.c:86-118 | those bytes parse back, and the length field is right |
| `ConfigDescriptor.PositionsExactly` | gadget/composite.c:448-470 | the usable configurations are listed once each, in list order |
| `ConfigDescriptor.SpeedsAgree` | gadget/composite.c:428-491 | the two functions go by the same speed for every configuration exactly when a super-speed gadget counts as dual-speed |
| `ConfigDescriptor.IndexBelowCount` | gadget/composite.c:428-504 | then the configurations that indices select are the ones counted |
| `ConfigDescriptor.ConfigDesc` | gadget/composite.c:428-470 | index i gives the descriptor of the i-th usable configuration, and -EINVAL with the buffer untouched from the count on |
| `ConfigDescriptor.CountConfigs` | gadget/composite.c:473-504 | counts the usable configurations |
| `CompositeMachine.RunIsSafe` | gadget/composite.c:590-715 | in every reachable state an unconfigured device has delayed_status 0 and no endpoint bit set, a configured one has each function's endpoint bits exactly, there have never been more late status stages than deferred requests, and the next step follows a null pointer exactly when it selects a configuration in which, before any refusal, an interface belongs to a function without descriptors for the bus speed |
| `CompositeMachine.NextKeeps` | gadget/composite.c:1311-1358 | each request, continue or disconnect faults exactly in that case and otherwise keeps the invariant, and a late status stage comes only from a continue |
| `CompositeMachine.SetConfigExactly` | gadget/composite.c:604-715 | set_config faults exactly in that case; otherwise an unknown value changes nothing, zero or a refusal unconfigures, and else the named configuration is current with as many deferrals as interfaces asked for |
| `CompositeMachine.DelayedExactly` | gadget/composite.c:1840-1866 | a SET_CONFIGURATION in which k interfaces defer is answered at once exactly when k is 0; otherwise, whatever steps follow, the first late status stage is at the k-th continue and belongs to it alone exactly when no step before that sets another configuration, disconnects or defers another request |
| `CompositeMachine.DelayedOnce` | gadget/composite.c:1840-1866 | as long as no step sets another configuration, disconnects or defers another request, its status stage is submitted once, however many continues there are |
| `CompositeMachine.WaitExactly` | gadget/composite.c:1840-1866 | over such steps continues count down to zero and submit once on reaching it |
| `CompositeMachine.LateContinue` | gadget/composite.c:1840-1866 | when the host sets a second configuration before the continues for the first have come, for any numbers of deferrals and any quiet steps, the first late status stage is the second one's, at its k-th continue, whoever sends it |
| `CompositeMachine.BitInjective` | gadget/composite.c:686-689 | different endpoint addresses have different bits, all within the 32 of the bitmap |
| `CompositeMachine.BitsExactly` | gadget/composite.c:665-690 | a bit is set exactly when some endpoint descriptor has an address that maps to it |
| `HostView.BitExactly` | gadget/composite.c:686-689 | the bit is the endpoint number, in the upper half for IN |
| `HostView.EndpointBits` | gadget/composite.c:665-690 | so a function's bitmap has exactly the endpoints of its descriptors of type 5 |
| `HostView.StepsExactly` | gadget/composite.c:1339-1358 | what SET_INTERFACE, a continue and a disconnect do to the count of deferrals and the configuration, and when each answers or submits the status stage |
| `HostView.DeferralsExactly` | gadget/composite.c:692-702 | there are as many deferrals as interfaces whose callbacks ask for one |
| `CompositeMachine.ActivateIs` | gadget/composite.c:649-702 | the loop over the interfaces counts the deferrals, unconfigures at the first refusal, or faults at the first function without descriptors for the speed |
| `CompositeDevice.Composite.ResetConfig` | gadget/composite.c:590-602 | reset_config on the fields |
| `CompositeDevice.Composite.DoSetConfig` | gadget/composite.c:604-715 | set_config on the fields, with its three loops, including where it faults |
| `CompositeDevice.Composite.SetConfigurationRequest` | gadget/composite.c:1311-1325 | the SET_CONFIGURATION arm and what follows it is the machine step, including where it faults |
| `CompositeDevice.Composite.SetInterfaceRequest` | gadget/composite.c:1339-1358 | likewise for the SET_INTERFACE arm |
| `CompositeDevice.Composite.SetupContinue` | gadget/composite.c:1840-1866 | likewise for usb_composite_setup_continue |
| `CompositeDevice.Composite.DoDisconnect` | gadget/composite.c:1496-1512 | likewise for composite_disconnect |
| `EzyMachine.RunIsSafe` | ezy_buf/ezy_buf.c:187-402 | for a client that queues no buffer twice and a producer that wakes only what it took: in every reachable state, while streaming the queued buffers are the taken ones, all active, done or in error, followed by the list `full`, all queued; otherwise the producer has none |
| `EzyMachine.RunOrder` | ezy_buf/ezy_buf.c:262-334 | what the client got back is a prefix of what the producer was given, which is a prefix of what was queued, in the same order; dqbuf never meets an invalid state |
| `EzyMachine.DqBufExactly` | ezy_buf/ezy_buf.c:234-312 | dqbuf succeeds exactly when the first buffer has been taken and woken and no signal ended the wait of a blocking call, which it does even if the buffer has been woken; then it gives back the next buffer the producer was given, and otherwise nothing changes |
| `EzyMachine.QBufExactly` | ezy_buf/ezy_buf.c:194-232 | queueing reads outside the array exactly for a negative number; otherwise it keeps the queue in order exactly when the driver refuses the buffer or it is not on `empty`; the driver lets through the listed ones that are done, in error, or queued before streaming |
| `EzyMachine.QBufBytes` | ezy_buf/ezy_buf.c:214-219 | the byte count of an accepted buffer exceeds its capacity exactly when the buffer is smaller than its header and the client's count is not negative; otherwise it is the client's exactly when that fits |
| `EzyMachine.ClampedIs` | ezy_buf/ezy_buf.c:214-219 | the comparison on unsigned longs, for all signs of both sides |
| `EzyMachine.StreamOnExactly` | ezy_buf/ezy_buf.c:336-361 | streaming starts in every case; -EBUSY means that it had started or that nothing was queued |
| `EzyMachine.NextKeeps` | ezy_buf/ezy_buf.c:187-402 | each step keeps the invariant |
| `EzyMachine.StreamOffExactly` | ezy_buf/ezy_buf.c:364-390 | ending the streaming empties both lists and makes every buffer prepared |
| `EzyMachine.QueueAllIs` | ezy_buf/ezy_buf.c:346-353 | the loop of streamon queues the whole list in order |
| `EzyMachine.ProducerExactly` | ezy_buf/ezy_buf.c:314-402 | the producer takes the head of `full` and marks it active, and waking marks it done or in error |
| `EzyMachine.RunWakes` | ezy_buf/ezy_buf.c:234-402 | over every disciplined run a buffer is given back once for every time that it was woken, but for the last while it is still listed |
| `EzyQueue.Queue.constructor` | ezy_buf/ezy_buf.c:106-146 | with the buffers that ezybuf_reqbuf makes, numbered and unused, the queue is in a starting state of the machine |
| `EzyQueue.Queue.DoQBuf` | ezy_buf/ezy_buf.c:194-232 | ezybuf_qbuf on the buffers and lists is the machine step, for any number |
| `EzyQueue.Queue.DoDqBuf` | ezy_buf/ezy_buf.c:234-312 | likewise for ezybuf_dqbuf from a test in its wait on |
| `EzyQueue.Queue.DoDqBufUser` | ezy_buf/ezy_buf.c:314-334 | likewise for ezybuf_dqbuf_user |
| `EzyQueue.Queue.DoStreamOn` | ezy_buf/ezy_buf.c:336-361 | likewise for ezybuf_streamon |
| `EzyQueue.Queue.DoStreamOff` | ezy_buf/ezy_buf.c:364-390 | likewise for ezybuf_streamoff |
| `EzyQueue.Queue.DoWakeup` | ezy_buf/ezy_buf.c:393-402 | likewise for ezybuf_wakeup |

## Left out

* BCM63xx: registers, clocks, DMA mapping, debugfs, stall and wedge, endpoint 0 dequeueing,
  and callbacks that re-enter the endpoint being disabled.  Lock-held regions are single
  steps; hardware completes descriptors in ring order.  The status word of a descriptor is
  kept as separate fields, lengths are below 2^31, and a change of a channel's maximum packet
  size while a request is in flight is not modelled.
* BCM63xx receive side: that the hardware reports a zero-length packet as one byte is not
  modelled; the bytes that a descriptor reports are the bytes that landed.
* SHA-256: the unrolled message schedule is the same computation as the loop and is modelled
  by it; the variant without padding is not modelled.
- Sha256Ctx.Context.Update: takes fewer than 2^31 bytes at a time, so that the source's int offset of a block does not overflow.
- Ep0Worker.Udc.Outside: a reply that is queued is not queued again; Ep0Safety.RequeuedExactly says what that would do.
- PioAt91.Endpoint.HandleEp: stalls, halted endpoints and dequeueing are not modelled.
- PioUsba.Endpoint.EpIrq: without DMA, halts and dequeueing; what the host gets after a packet has been copied over another is not modelled.
* FIFO writers: the requests of a queue are records in a sequence, so aliasing of a request is
  not captured.
- DummyTransfer.TransferSafe: completion callbacks may dequeue requests but not queue them.
* Loopback controller: the scatter-gather path, data toggles, isochronous transfers, control
  requests and the frame timer.
- DummyFifo.Transparent: the comparison is with the operations that were accepted, DummyDriver.AnswersExactly is the one with all; the plain machine takes a request's data as it is when it is queued, and completion callbacks do not dequeue.
* AMD5536: allocation failure, the mode without packet-per-buffer DMA, the timers and the NAK
  queue.  Descriptor addresses and descriptors are one thing.
- ModeManager.ParameterSetManager.ReadModeTable: the rows arrive as values; reading them from bytes is not modelled.
* Tuning modes: the symbol table and the parsing of modules.  The
  modules of a mode are a sequence, and null modules are not added.  The source ignores the
  validity of the mode table when it reports success; the model reports it.
* Composite gadget: strings, BOS and OTG descriptors, copying of descriptor vectors, bus
  power, suspend, and class or vendor requests.  The size of the endpoint 0 buffer, the default bus power and the value of
  USB_GADGET_DELAYED_STATUS are not in the repository; the first two are parameters.
  Every function has a set_alt callback.
- CompositeMachine.RunIsSafe: the interfaces of a configuration belong to its own functions, and the bus speed changes only with a disconnect.
* Frame-buffer queue: allocation, mapping and the character device.  Each test in
  the wait of a blocking dequeue is one step.
- EzyMachine.QBufExactly: a buffer queued twice is twice in the model's list; the source's linked list would be damaged.
* Order, locking and sleeping beyond the above, `android.c`, the function drivers, the
  camera and server programs, and `ath204.c`, which would add only simple members or
  hardware timing.
