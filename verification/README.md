# Verified models of the RP1 Ethernet and CYW43455 WiFi drivers

This project models the stateful core of two FreeBSD drivers for the Raspberry Pi 5 and proves
properties of it with Dafny 4.11. `dafny verify dfyconfig.toml` checks everything.

**Ethernet (`rp1_eth.c`).**

- `GemTxLayout`, `GemTxRing`, `GemTx`: the 256-slot transmit ring. Frames of 1 to 8 segments are laid
  out from tail to head, each lap ending somewhere between slots 248 and 255. `GemTx.TxRing` is the
  driver state with its arrays; the GEM's DMA engine is a second actor with its own ring pointer that
  may send any number of frames after any single descriptor store of the driver. It follows WRAP and
  stops at USED, as the descriptor definitions (UG585 chapter 16, cited at `rp1_eth_hw.h:33-35`) say.
- `GemRx`: the receive ring, where OWN hands a slot back and forth, again with the engine running between
  the steps of the driver.
- `GemIntr`: interrupt filter, interrupt task and 5 ms poll as a state machine over their steps (the filter
  takes four: read, store, enqueue, cancel), with frame arrival, status latching, stop and init interleaved
  in any way; what the status registers and the ring hold is told by the history of these steps.
  `GemDrain`: what any schedule of the steps then left does to a waiting frame.

**WiFi (`cyw43455_*.c`).**

- `Fwil`: IOVAR/IOCTL transactions at runtime. Any number of callers, the one thread of `rx_tq`, and
  detach interleave at every lock operation; responses may come late, twice, or for any earlier
  transaction.
- `FwilCalls`: what such a call returns, told by its history alone, with every outcome from delivery, detach,
  timeout, failed write and missing credit.
- `FwilPoll`: the boot-time half of such a call, which waits for a credit and polls F2 itself; and what any
  call's result has to do with the response.
- `TxQueue`: the deferred transmit queue, a list linked through `m_nextpkt` with a tail pointer.
- `DataPath`: SDPCM framing of an Ethernet frame, the chunked F2 read, and the extraction of the frame.
- `RxFail`, `Nvram`, `Clm`, `Backplane`, `Erom`, `BssCache`, `IeWalk`: FIFO drain, NVRAM packing, CLM upload,
  windowed block write, EROM scan, BSSID cache and information element walk, each against a simple
  specification.

Runs of the two rings and of the transmit queue are stated in two layers. A `Run` method drives the arrays
through any operations, with the engine acting in between, and is proved to return what a small automaton
allows (`LawfulRun`, `BookAfter`, `ApplyAll`) and to end in the state that the automaton says; lemmas about
the automaton (`RunConserves`, `RunFifo`, `RunInOrder`, `FlowInOrder`) then state order and conservation.

Conventions. Where the original changes arrays, lists or softc fields, the model is a class or a method
with loops; ghost fields give the abstract value that each method's contract is stated in. Interleaving
protocols are state machines: an action type, `Enabled`, `Next`, and `Run` (or `After`) over any sequence of
actions; histories in which every step can be taken (`Possible`, `Happens`) say what the state holds by what
happened. `:= *` in a method body is a choice of the DMA engine, and function parameters such as `fails` or
`fifo` are choices of the bus or the chip; contracts hold for every choice. Descriptor words are records of
the fields in use, and mbufs are identities.

Assumptions that the results rest on: the GEM's write-back of a sent frame keeps WRAP and LAST_BUF of its
first descriptor; DMA addresses of receive buffers are 4-byte aligned; `cv_timedwait` returns 0 only after a
signal; net80211 callbacks run from `cyw_event_dispatch` do not call the firmware interface synchronously;
the chip's three window registers read 0 when the driver attaches, as its cached window does. Device memory
ordering is not modelled: stores become visible in program order.

Results that show the code falling short of what one would like:

- The driver can go silent. `callout_stop` in the filter comes after the interrupt task has been enqueued,
  and cancels the poll that this very interrupt task may have armed already: `GemIntr.CancelCanRace` is such
  a run, `GemIntr.SilentExactly` says over all histories after a completed task when it happens, and
  `GemIntr.AtomicFilterNeverSilent` that it would not if the two calls were one step. Before the first
  interrupt task the poll is not armed at all: `GemIntr.SilentBeforeFirstTask`, and exactly when nothing is
  due then in `GemIntr.BeforeFirstTask`; `GemIntr.QuietExactly` covers every history.
  Whether a waiting frame of a running interface is fetched without a further interrupt can depend on the
  schedule (`GemDrain.MayBeLost`): `GemDrain.DrainPossible` says when some schedule of the remaining steps
  empties the ring, `GemDrain.DrainCertain` when none strands it.
- With `rxbufs` above 256, which the sysctl admits, a buffer is posted over one in use:
  `GemRx.LargeLimitOverruns`, and exactly when in `GemRx.OverrunMeans` and `GemRx.PostCollides`. Runs are
  followed up to the first such posting, and with `rxbufs` at most 256 there is none (`GemRx.Run`).
- Two threads can use F2 at once while detach drains the task queue, because a caller that finds
  `sdpcm_running` clear polls without `f2_sx`: `Fwil.PollBesideReceive`, and exactly when in
  `Fwil.SharedExactly`.
- A call that saw `sdpcm_running` set can come to lock `f2_sx` after detach has destroyed it:
  `Fwil.LateLocker`, and exactly when in `Fwil.TouchesExactly`.
- A window change that fails part way leaves the cached window stale: `Backplane.StaleWindow`, and exactly
  when in `Backplane.Bus.SetWindow`. A block written afterwards goes where it should exactly if its first
  window is not the cached one (`Backplane.LandsRight`).
- NVRAM lines with a NUL in them are not read back as they were written: `Nvram.NulSplitsLine`, and
  `Nvram.FirmwareReadsEntries` has both directions.
- The wait for master ports in the EROM scan is not bounded by the entry limit and passes the end marker:
  `Erom.WaitPassesTheEnd`, and exactly when in `Erom.HangsExactly`.
- The wait for the receive FIFO to drain need not end if the byte count goes up again:
  `RxFail.DrainNeedNotEnd`; it does if the count never rises (`RxFail.DrainEnds`).

Two comments in the repository no longer describe the code, which is what is modelled here: the head of
`cyw43455_fwil.c` says that every call polls F2, while at runtime it sleeps on `ioctl_cv`
(`cyw43455_fwil.c:293-352`); and `rp1_eth.c:1112-1116` says that interrupts stay disabled, while
`cgem_config` enables them.

## Model
| member | source | states |
|---|---|---|
| GemTxLayout.Frame.Wraps | rp1_eth.c:735-736 | when a frame closes a lap, which puts every lap end between 248 and 255 |
| GemTxLayout.Chain | rp1_eth.c:752-756 | queued frames follow one another from the tail index to the head index |
| GemTxLayout.OneWrap | rp1_eth.c:689-756 | for every sequence of frame sizes with at most 247 descriptors in all, at most one wrap lies between tail and head, and the head stays below the tail when there is one |
| GemTxLayout.FramesDisjoint | rp1_eth.c:689-756 | queued frames are pairwise disjoint, inside the ring, and leave 248 minus the queued count free slots upwards of the head, whichever lap it is on |
| GemTxLayout.ChainAppend | rp1_eth.c:735-756 | a frame placed at the head extends the chain and the count by its size |
| GemTxRing.RingOk | rp1_eth.c:443-449 | the ring invariant: written frames, the sent ones marked at their first slot only, USED in every free slot outside the exempt range, engine pointer at the first unsent frame |
| GemTxRing.EngineSeesWholeFrame | rp1_eth.c:738-750 | at its pointer the engine finds USED exactly when nothing is unsent, and otherwise a complete frame without USED, ended by LAST_BUF and leading to the next frame |
| GemTxRing.EngineSent | rp1_eth_hw.h:386-401 | marking the first slot of a sent frame keeps the ring invariant with one more frame sent |
| GemTxRing.FreeStore | rp1_eth.c:738-750 | a store into a free slot that is exempt or keeps USED is invisible to the engine |
| GemTxRing.HeadRoom | rp1_eth.c:680-690 | below the full mark the slots of any next frame are free |
| GemTxRing.HandOver | rp1_eth.c:738-756 | the store of the first control word, last in the loop, makes the whole frame the engine's and keeps the invariant |
| GemTxRing.TailShowsSent | rp1_eth.c:616-618 | USED at the tail means that the oldest frame has been sent |
| GemTxRing.UnsentStaysPut | rp1_eth.c:609-756 | what the engine reads in the slots of a frame it has not yet sent is the same at any two moments at which the ring invariant holds, so also when it reads the frame slot by slot between stores of the driver |
| GemTxRing.TakeBack | rp1_eth.c:641-658 | taking the sent frame off the queue leaves only its slots after the first to be re-marked, and they are nobody else's |
| GemTxRing.Remark | rp1_eth.c:648-650 | re-marking one slot shrinks the range that is still exempt |
| GemTx.RequestFate | rp1_eth.c:698-733 | per request: an mbuf that maps is placed with its segments; one with too many is placed defragmented if that works and maps, else the defragmented one is dropped; every other is dropped itself, and each is placed or dropped once, behind those before it |
| GemTxRing.EngineReports | rp1_eth_hw.h:386-401 | the error bits at the first slots of the sent frames are the reports of the engine, in order |
| GemTx.SweepFindsQueued | rp1_eth.c:1214-1227 | a sweep over the mbuf slots finds every queued mbuf once and nothing else |
| GemTx.MbufsPush | rp1_eth.c:729-750 | the mbuf pointer at the first slot of a new frame keeps pointers exactly at first slots |
| GemTx.MbufsPop | rp1_eth.c:628-630 | clearing the tail pointer keeps pointers exactly at the first slots of the remaining frames |
| GemTx.TxRing.constructor | rp1_eth.c:443-452 | the ring set-up establishes the invariant |
| GemTx.TxRing.EngineSends | rp1_eth_hw.h:386-401 | the engine, following descriptors by itself, sends the next unsent frame if there is one, leaves its report in the first slot and never meets USED inside a frame; the reads of one frame are one step, which GemTxRing.UnsentStaysPut justifies |
| GemTx.TxRing.AdvanceTail | rp1_eth.c:641-658 | the inner reclaim loop moves the tail to the next frame, lowers the count by the frame's size and frees its slots, with the engine running throughout |
| GemTx.TxRing.ReleaseTail | rp1_eth.c:628-639 | the tail mbuf is freed and its outcome counted once, as AHB error, output error or output packet |
| GemTx.TxRing.ReclaimFrame | rp1_eth.c:616-660 | one reclaimed frame, which the engine has sent: its mbuf is the one freed, it counts as the engine reported of it, OACTIVE is cleared |
| GemTx.TxRing.CleanTx | rp1_eth.c:609-661 | reclaim frees mbufs from the tail on, oldest first, at least every frame sent before the call, counts each by the report of the engine on that frame, and clears OACTIVE if it frees any |
| GemTx.TxRing.StoreSegment | rp1_eth.c:738-748 | the two stores of one descriptor keep the invariant at every point between them; only the one at the head publishes the frame |
| GemTx.TxRing.StoreFrame | rp1_eth.c:738-750 | the backward loop as a whole publishes exactly the new frame |
| GemTx.TxRing.Enqueue | rp1_eth.c:729-756 | one more queued frame at the head holding the mbuf and its segments |
| GemTx.TxRing.StartLocked | rp1_eth.c:667-764 | a prefix of the send queue is consumed, each mbuf placed behind those held, in order, or dropped, as GemTx.RequestFate says; those reclaimed meanwhile are the oldest; some are left only if at least 240 descriptors stay queued, and OACTIVE is set exactly then |
| GemTx.TxRing.Init | rp1_eth.c:1175-1188 | bringing the interface up clears OACTIVE and restarts the engine at slot 0 without disturbing the queue |
| GemTx.TxRing.Stop | rp1_eth.c:1204-1231 | every mbuf still in the ring is freed once and the ring is empty and free |
| GemTx.Run | rp1_eth.c:609-764 | over any run of start, reclaim, stop, init and engine sends, each call returns a lawful event and the ring ends up holding what the book of these events says |
| GemTx.RunConserves | rp1_eth.c:609-764 | over any such run, the mbufs held before and those taken from the send queue are those freed (dropped, reclaimed or swept) and those still held, each as often |
| GemTx.RunFifo | rp1_eth.c:609-764 | without a stop, mbufs are reclaimed in exactly the order they were placed, across all calls, none before the engine has sent it, and the k-th of them counts as packet, output error or AHB error as the k-th report of the engine says |
| GemRx.PostCollides | rp1_eth.c:484 | posting a buffer hits a slot in use exactly when 256 are posted already |
| GemRx.GoodKeepsOrder | rp1_eth.c:559-594 | any two deliverable frames keep their order in what is delivered |
| GemRx.SortedByStatus | rp1_eth.c:552-557 | a frame goes to the stack exactly if it has start and end of frame and a good checksum; the buffers of the others are freed |
| GemRx.RingOk | rp1_eth.c:475-515 | every posted slot holds its mbuf and the address of that mbuf; filled slots are a prefix from the tail, other posted slots the engine's, free slots hold OWN, WRAP is on slot 255 only |
| GemRx.Arrive | rp1_eth_hw.h:418-419 | the engine finds OWN exactly when no posted buffer is left, and otherwise the address of the oldest one not yet filled, which it fills |
| GemRx.Pop | rp1_eth.c:543-560 | taking the filled tail slot leaves it free and the rest in place |
| GemRx.Post | rp1_eth.c:505-513 | posting at (tail + queued) mod 256 extends the posted buffers by one |
| GemRx.SweepFindsPosted | rp1_eth.c:1233-1246 | a sweep finds every posted buffer once and nothing else |
| GemRx.RxRing.EngineReceives | rp1_eth_hw.h:418-442 | an arriving frame is written at the address posted with the mbuf in which it is then reported, or dropped when no buffer is posted |
| GemRx.RxRing.FillRqueue | rp1_eth.c:467-514 | buffers are posted in order, each with its own mapped address, up to rxbufs, until one cannot be had or mapped; with q posted it overruns exactly if rxbufs is above 256 and the first 257 - q buffers can all be had and mapped |
| GemRx.RxRing.PopFrame | rp1_eth.c:545-567 | one popped frame, the oldest waiting one in the oldest posted buffer (mbuf and address), is good or counted as an input error |
| GemRx.RxRing.Drain | rp1_eth.c:522-594 | everything that had arrived is popped, in order; good frames make up the batch, the buffers of the others are freed and counted |
| GemRx.RxRing.Recv | rp1_eth.c:522-602 | the ring is drained and then filled up to rxbufs, and it overruns exactly if that would post a 257th buffer |
| GemRx.RxRing.Stop | rp1_eth.c:1233-1250 | every posted buffer is freed once and the ring is empty |
| GemRx.Run | rp1_eth.c:475-601 | over any run of receive, refill, stop, changes of rxbufs and arriving frames, each call returns a lawful event and the ring ends up as the book of these events says, up to the first call, if any, that would post a 257th buffer; there is none with rxbufs at most 256 |
| GemRx.OverrunMeans | rp1_eth.c:475-514 | an operation overruns exactly if rxbufs is above 256 and as many buffers as it takes to reach the 257th can be had and mapped |
| GemRx.LargeLimitOverruns | rp1_eth.c:475-514 | with rxbufs above 256 any refill that can have enough mapped buffers does post a 257th |
| GemRx.RunInOrder | rp1_eth.c:522-601 | over any such run, the frames that arrived are, in this order, those popped (or lost to a stop) and those still waiting; the stack gets exactly the good ones among those popped, and every other one counts as one input error |
| GemRx.RunConserves | rp1_eth.c:467-601 | over any such run, every buffer posted leaves the ring once, popped or swept by a stop, or is still posted |
| GemIntr.Next | rp1_eth.c:961-1066 | the steps of filter, poll, interrupt task, stop and init; the filter's read, store, enqueue and callout_stop are four steps, the poll's start, its read under the lock and what follows it are three |
| GemIntr.AckClears | rp1_eth.c:1030 | the acknowledge leaves none of the bits that the task took in INTR_STAT and all the others |
| GemIntr.StatTells | rp1_eth.c:961-1066 | for every history, a bit is in INTR_STAT exactly if a step set it and no task that had taken it has acknowledged it since |
| GemIntr.ReadsTell | rp1_eth.c:961-1030 | for every history, what the task works on is what intr_pending held when it last started, what the filter is about to store is what INTR_STAT held at its last read, and what the poll acts on are the handled bits it held at the poll's last read |
| GemIntr.PendingTells | rp1_eth.c:961-1020 | for every history, intr_pending holds exactly what the filter's last store and the polls from then on brought, if no task has started since |
| GemIntr.RingTells | rp1_eth.c:961-1066 | for every history, the frames waiting and those not yet announced are the fills less the pops, and less the latches, since the last stop |
| GemIntr.UpTells | rp1_eth.c:1175-1260 | the interface is up exactly from an init to the next stop, and a task has completed since exactly if one has finished after that init |
| GemIntr.TaskTells | rp1_eth.c:1015-1066 | where the interrupt task is, told by the last of its steps; it delivers frames without the lock |
| GemIntr.TaskMoves | rp1_eth.c:1015-1066 | in every reachable state the task has exactly one step to take, unless it is idle and not queued or waits for the lock that the poll holds |
| GemIntr.PollMoves | rp1_eth.c:961-991 | the same of the poll, which only the task can keep waiting |
| GemIntr.FilterMoves | rp1_eth.c:996-1012 | the filter always has exactly one step to take |
| GemIntr.AlwaysAnnounced | rp1_eth.c:961-1066 | in every history from attach on, a waiting frame is announced in INTR_STAT, about to be, or being drained |
| GemIntr.QuietExactly | rp1_eth.c:961-1066 | for every history, nothing is due to look at INTR_STAT exactly if the task was queued no later than it last started and has since ended, every arming of the callout has been undone, and no poll is under way |
| GemIntr.BeforeFirstTask | rp1_eth.c:1175-1188 | until the task first starts, something is due exactly if the filter has enqueued it, and no poll is armed |
| GemIntr.SilentExactly | rp1_eth.c:961-1066 | for every history that ends after a completed task and before stop: nothing is due exactly if the filter's last callout_stop came after the task started behind its own enqueue had finished, and since then no poll has queued the task, armed the callout or started |
| GemIntr.AtomicFilterNeverSilent | rp1_eth.c:1006-1007 | in every history in which each enqueue of the filter is directly followed by its callout_stop, something is due to look at INTR_STAT from the first completed task until stop |
| GemIntr.CancelCanRace | rp1_eth.c:1006-1007 | a run in which that happens and a frame is left waiting |
| GemIntr.SilentBeforeFirstTask | rp1_eth.c:1175-1188 | a run in which a frame waits before any interrupt with nothing due |
| GemDrain.OwnStepShortens | rp1_eth.c:961-1066 | as long as a frame waits, each step of filter, poll, task or GEM that needs no new frame or interrupt lowers the work left |
| GemDrain.OwnRunsEnd | rp1_eth.c:961-1066 | so, once the waiting frames are latched, a run of such steps in any order that leaves one of them waiting is no longer than that |
| GemDrain.DrainPossible | rp1_eth.c:961-1066 | from every reachable state of a running interface with a waiting frame, some schedule of such steps empties the ring exactly if something is due, now or once the filter under way has enqueued the task |
| GemDrain.DrainCertain | rp1_eth.c:961-1066 | no schedule strands the frame exactly if, by where the filter is: outside it, something is due; behind its enqueue, RxComplete is on its way to the task; before that, also if the filter itself brings it, and before its store only then or if the task has it already |
| GemDrain.EveryScheduleDrains | rp1_eth.c:961-1066 | from such a state, with the frames latched, every schedule can be continued until the ring is empty, within a bounded number of steps |
| GemDrain.MayBeLost | rp1_eth.c:994-1007 | a history after which it depends on the schedule |
| FwilPoll.WaitForCredit | cyw43455_fwil.c:376-394 | at most 100 reads, each without credit before it, until there is one, a read fails or the limit is reached |
| FwilPoll.CreditsMean | cyw43455_fwil.c:377-386 | the credits are how far the sequence number can advance, modulo 256, before it meets the limit |
| FwilPoll.PollEndsOnce | cyw43455_fwil.c:407-448 | the reads of F2 determine the end of the poll, its result and its answer |
| FwilPoll.PollResponse | cyw43455_fwil.c:406-448 | the poll passes over empty reads and frames of others and ends at the response to its own id, at an error, or after 300 reads |
| FwilPoll.Boot | cyw43455_fwil.c:364-456 | a boot-time call returns 0 exactly if a response to its own id without the error flag came in time; EIO means one with that flag, or a read or write that failed with EIO; its buffer changes only by the front of a successful GET response |
| Fwil.Next | cyw43455_fwil.c:258-352 | the steps of callers, receive and transmit tasks and detach between lock operations |
| Fwil.RunKeeps | cyw43455_fwil.c:272-352 | the protocol invariant holds along every run |
| Fwil.Safe | cyw43455_fwil.c:310-352 | in every run from the end of attach on, whatever the number of transactions begun at boot time: the concurrent-IOCTL assertion never fires, a pending response belongs to the holder of ioctl_sx with its id and buffer, a sleeper does not hold f2_sx, and unless detach is draining the task queue at most one thread uses F2 |
| Fwil.SharedExactly | cyw43455_fwil.c:272-372 | in every reachable state two threads use F2 exactly if the holder of ioctl_sx polls while the queue thread holds f2_sx, and then detach is draining |
| Fwil.PollBesideReceive | cyw43455_fwil.c:272-372 | a run in which detach leaves a polling caller beside the receive task on F2 |
| Fwil.TouchesExactly | cyw43455_sdpcm.c:337-377 | after detach, a call can come to use the destroyed f2_sx or ioctl_cv exactly if the holder of ioctl_sx has its F2 write, or its sleep, still to come |
| Fwil.LateLocker | cyw43455_sdpcm.c:337-377 | a run in which that is so |
| Fwil.LateResponse | cyw43455_sdpcm.c:66-73 | a response is taken exactly when its transaction number agrees with the waiting one modulo 65536, so a late one never reaches any of the next 65535 |
| Fwil.DeliverMeans | cyw43455_sdpcm.c:66-86 | a response whose transaction number agrees with that of the waiting call modulo 65536 settles it: nothing waits any more, the result is 0 or EIO, a sleeping caller is woken, the payload is at the front of the buffer of a GET; any other response changes nothing |
| Fwil.AbandonMeans | cyw43455_sdpcm.c:366-373 | the end of detach settles a waiting call with ENXIO and wakes it if it sleeps, and changes nothing else |
| Fwil.OnlyOwnBuffer | cyw43455_sdpcm.c:75-86 | no step writes a buffer other than that of the transaction under way, so none is written after its call has returned |
| Fwil.ReturnMeans | cyw43455_fwil.c:331-459 | a call whose F2 write failed returns the code of that; any other, at runtime or polling, returns 0 exactly when a response with its id and no error flag was delivered, and EIO exactly when one with that flag was or its own read failed with EIO; after either, its buffer differs only by the front of a successful GET response delivered to it |
| Fwil.NoDeadlock | cyw43455_fwil.c:318-340 | a blocked thread waits for one that can move, or for one blocked on f2_sx whose holder can |
| Fwil.CallsEnd | cyw43455_fwil.c:258-352 | each step of a caller's own thread brings its call closer to returning and no step of another thread takes it further away |
| FwilCalls.ReturnTells | cyw43455_fwil.c:272-352 | in every interleaving, what a call returns is told by the steps since it took ioctl_sx: ENOBUFS if it found no credit, the code of its write if that failed, the outcome of its own poll, and otherwise what settled it first |
| FwilCalls.SettledMeans | cyw43455_fwil.c:312-352 | what settles an armed call: the first response with its id or the end of detach, whichever comes first before it gives up waiting, and ETIMEDOUT exactly if neither comes |
| FwilCalls.EnteredTells | cyw43455_fwil.c:258-277 | a call keeps the direction and the buffer it was entered with, whatever the others do |
| FwilCalls.QueueTells | cyw43455_sdpcm.c:147-215 | where the queue thread is, told by its own last step; it holds f2_sx exactly while it drains or writes |
| FwilCalls.LeftOpen | cyw43455_fwil.c:299-335 | credits, failing writes and their codes, the origin of a response and the order of the tasks are left to the environment |
| FwilCalls.PanicsExactly | cyw43455_fwil.c:314 | the concurrent-IOCTL assertion fires exactly when a call is armed while another response is pending |
| FwilCalls.CallAnswered | cyw43455_fwil.c:312-352 | for every direction, buffer and response, a run in which the sleeping call is answered and returns 0 with the payload in its buffer, or EIO |
| FwilCalls.CallAbandoned | cyw43455_sdpcm.c:366-373 | for every direction and buffer, a run in which detach ends while the call sleeps and it returns ENXIO |
| TxQueue.Queue.Link | cyw43455_cfg.c:1021-1025 | the store through the tail pointer appends exactly one mbuf and the pointer addresses the new last link |
| TxQueue.Queue.Transmit | cyw43455_cfg.c:995-1027 | outside RUN only EAPOL is admitted; an admitted mbuf joins the end of the queue, another is counted as an output error |
| TxQueue.AdmittedMeans | cyw43455_cfg.c:1001-1012 | everything is admitted in RUN, and before it exactly a frame of at least 14 bytes with type 0x888e |
| TxQueue.Queue.TaskTake | cyw43455_cfg.c:950-959 | the transmit task takes the whole list over in order and leaves an empty queue |
| TxQueue.Queue.TaskSend | cyw43455_cfg.c:961-965 | mbufs leave the list one by one, unlinked, in order |
| TxQueue.Queue.Detach | cyw43455_sdpcm.c:353-364 | detach frees exactly what is still queued |
| TxQueue.FlowInOrder | cyw43455_cfg.c:955-1027 | over any interleaving, what was admitted is what was sent, then what the transmit task holds, then the queue, in that order, and a non-empty queue has a pending task or an enqueuer about to schedule one |
| TxQueue.Run | cyw43455_cfg.c:955-1027 | the linked list goes through exactly the states of that flow, and returns the mbufs sent |
| TxQueue.RunAndDetach | cyw43455_sdpcm.c:337-365 | any interleaving, then detach: what was admitted is what was sent and then what was freed; freed is exactly what waited without a pending task |
| DataPath.RecvOne | cyw43455_fwil.c:52-146 | the first failing transfer before the frame is complete is an I/O error; otherwise the header decides between EAGAIN, EINVAL and acceptance, and an accepted frame is in the buffer as it came, read as one 64-byte block and chunks of at most 448 bytes within 2112 bytes |
| DataPath.ClassifyMeans | cyw43455_fwil.c:86-103 | a header is accepted exactly if its complement agrees byte by byte and the length is from 12 to 2048, and is EINVAL exactly above that |
| DataPath.ReadTail | cyw43455_fwil.c:105-135 | the chunk loop reads the rest of the frame in whole blocks, 448 bytes at a time but for the last |
| DataPath.HeaderOfWrapped | cyw43455_cfg.c:887-901 | every header byte, the payload and the padding of the frame that transmit builds |
| DataPath.CopiesPayload | cyw43455_sdpcm.c:113-137 | for every SDPCM header length, announced padding of k words and payload, the extraction gives exactly the payload if it has at least 14 bytes, and nothing otherwise |
| DataPath.CopiesNothing | cyw43455_sdpcm.c:113-126 | nothing is extracted from a frame that ends inside its BDC header or inside the announced padding |
| DataPath.RoundTrip | cyw43455_sdpcm.c:113-137 | what transmit builds is accepted exactly up to 2048 bytes, and unwraps to the original frame and at most 3 zero bytes exactly from 13 bytes on |
| DataPath.Loopback | cyw43455_cfg.c:847-901 | transmit, chunked read and extraction compose to the original frame and at most 3 zero bytes |
| RxFail.DrainFifo | cyw43455_fwil.c:165-195 | for any readings, the drain loop ends at the first zero reading or after 65535 equal other ones in a row, whichever comes first, and goes on until then |
| RxFail.DrainEnds | cyw43455_fwil.c:180-191 | with a count that never rises it ends within 65535 * 65536 readings |
| RxFail.DrainNeedNotEnd | cyw43455_fwil.c:186-190 | with a count that goes up and down between two values it never ends |
| Nvram.Scan | cyw43455_fw.c:118-153 | for every input the buffer holds the non-empty, non-comment lines with CR removed, each ended by NUL, and stays within bounds |
| Nvram.Parse | cyw43455_fw.c:105-177 | the image is those tokens, the padding and the length token, in a buffer of roundup(rawlen + 2, 4) + 4 bytes |
| Nvram.FirmwareReadsEntries | cyw43455_fw.c:95-104 | reading tokens from the image up to the empty one gives back exactly the lines, if and only if none of them contains NUL |
| Nvram.NulSplitsLine | cyw43455_fw.c:95-104 | the line A NUL B is read back as two tokens |
| Nvram.NulFreeText | cyw43455_fw.c:95-104 | every NUL-free text round-trips |
| Nvram.ImageShape | cyw43455_fw.c:110-173 | the image is a whole number of words within the bound, with a NUL before the token, whose halves are the word count and its complement |
| Clm.Load | cyw43455_fw.c:540-576 | the chunks, flagged first and last, make up exactly the blob unless one is refused; the first refusal ends the upload with a proper prefix taken |
| Backplane.RegistersHoldWindow | cyw43455_sdio.c:46-54 | the three byte registers hold any window address in full |
| Backplane.FlatWriteAt | cyw43455_sdio.c:97-119 | what a flat write leaves at each address, modulo 2^32 |
| Backplane.Bus.SetWindow | cyw43455_sdio.c:38-58 | without an error the cached window equals that of the registers; after a failure part way it does exactly when the registers written kept their values, and a later change to another window repairs it |
| Backplane.StaleWindow | cyw43455_sdio.c:46-54 | a change that fails after the low register leaves the cache stale, and a byte then written to address 0 without any error lands at 0x8000 |
| Backplane.Bus.F1Write | cyw43455_sdio.c:112-113 | a transfer that stays in one 32 KB window writes its bytes at consecutive addresses |
| Backplane.Bus.WriteBlock | cyw43455_sdio.c:97-119 | for every address, length and cached window the windowed write equals a flat write of the block whose first chunk goes where the registers point if the cached window is its own; with an error, of a prefix that ends within the chunk at which the bus failed, all chunks before having succeeded; the loop ends |
| Backplane.LandsRight | cyw43455_sdio.c:38-58 | the first chunk lands at its own address exactly if its window is not the cached one or the cache is right |
| Erom.Scan | cyw43455_sdio.c:389-468 | the scan over any words, including how it can hang |
| Erom.FindSdioCore | cyw43455_sdio.c:389-468 | the loop computes that scan |
| Erom.PassPorts | cyw43455_sdio.c:424-434 | the two nested loops over master ports skip exactly the announced number or hang |
| Erom.PortExactly | cyw43455_sdio.c:424-434 | the words counted as master ports are exactly those whose three low bits are 011 |
| Erom.HangsWithoutPorts | cyw43455_sdio.c:424-434 | the wait never ends exactly when fewer master ports follow than were announced |
| Erom.HangsExactly | cyw43455_sdio.c:389-468 | the whole scan never ends exactly when it comes to a component that announces more master ports than follow |
| Erom.WaitPassesTheEnd | cyw43455_sdio.c:424-434 | a table with an announced port missing, on which the scan runs past the end marker and hangs |
| Erom.CoreFields | cyw43455_var.h:180-185 | core id and port count come back out of an encoded component |
| Erom.RegionFields | cyw43455_var.h:194-204 | type, port, size code and base come back out of an encoded region |
| Erom.ScanInverts | cyw43455_sdio.c:389-468 | over every encoded table, ended by an end marker and followed by anything, the scan finds what is among the entries it is allowed |
| Erom.FindsTheSdioCore | cyw43455_sdio.c:389-468 | for every table of at most 512 entries it returns what the table says |
| Erom.SearchIsFirst | cyw43455_sdio.c:436-460 | what the table says is the first device region of port 0 of a core with id 0x829, or nothing exactly when there is none |
| BssCache.CacheMeaning | cyw43455_scan.c:189-214 | after any adds, cached BSSIDs are distinct and are exactly the latest 32 inserted on a miss, each with the chanspec added last |
| BssCache.Cache.Find | cyw43455_scan.c:199-206 | the lookup loop finds the slot of a BSSID exactly when it is cached |
| BssCache.Cache.AddEntry | cyw43455_scan.c:189-214 | the slot ring refines a bounded FIFO map |
| BssCache.Cache.ChanspecForJoin | cyw43455_scan.c:229-252 | the cached chanspec, or the one derived from the channel number, or 0 |
| BssCache.DerivedMeans | cyw43455_scan.c:247-251 | the derived chanspec is 0 exactly without a channel; otherwise its low twelve bits are the channel number's and the high four mark 2.4 GHz up to channel 14 and 5 GHz above |
| BssCache.JoinAfter | cyw43455_scan.c:189-252 | after any adds, a join uses the chanspec added last for a BSSID among the latest 32 misses, and the derived one otherwise |
| IeWalk.ScanParams.ParseIes | cyw43455_scan.c:358-414 | the walk stays in bounds, ies_len ends the longest tiling by well-formed elements, and each pointer is at the last matching element or unset; an empty SSID never matches |
| IeWalk.LongestPrefix | cyw43455_scan.c:360-413 | no other tiling of the chain by elements reaches further |

## Left out
- GemTx: DMA map contents, the bpf tap, checksum flags and the descriptor bits that the driver does not read.
- GemTx.TxRing.Stop: the memset of the ring and the re-marking of its slots are one store each, since the engine is off.
- GemTx.TxRing.EngineSends: the reads of one frame are one step of the engine; an engine that stops on a transmit error and returns to the start of the ring is not modelled.
- GemRx: receive checksum flags, the packet length and ETHER_ALIGN adjustment of a delivered mbuf.
- GemRx.RxRing.PostBuffer: the two stores of a receive descriptor are one; the control word goes first, so OWN is cleared last.
- GemRx.Run: what the ring holds after a 257th buffer has been posted is not modelled; a negative `rxbufs` posts nothing, as 0 does.
- GemIntr: which interrupt sources are masked, the work of the interrupt task other than draining the receive ring, and real time.
- Fwil: credits at runtime are a choice of the environment; sequence numbers and credit order are not claimed. A polling call is one step there, whose outcome FwilPoll.Boot justifies.
- Fwil.Next: after detach has destroyed `f2_sx` and `ioctl_cv`, the steps go on as if they were there; Fwil.TouchesExactly says when any step does so.
- FwilPoll: a short control frame counts as one of another channel; delays and diagnostics are left out.
- Fwil.Accepts: responses are decoded already; that `data_offset` and the headers lie within the frame is assumed, as only fixed sizes are checked.
- TxQueue: an mbuf queued after detach has destroyed the queue lock.
- DataPath.Wrapped: the transmit frame is built as a value, not store by store; the rounding of the F2 write to 64 bytes is not modelled.
- DataPath.RecvOne: the INTSTATUS gate is a parameter; diagnostics and statistics are left out.
- RxFail.DrainFifo: the abort and terminate commands before the loop, and read errors inside it.
- Backplane: single-word reads and writes, which use the same window change.
- Erom: the EROM pointer check; ROM words are a sequence, beyond which every read returns all ones.
- IeWalk: net80211's element numbers are written as IEEE Std 802.11 assigns them; the scan parameters the caller filled in before are None.
- Attach, probe, sysctl and FDT code, link polling, statistics, RGMII and PHY set-up, the fan and PWM drivers, the PCIe interrupt hand-off, key installation and scan requests: set-up or thin translation with nothing hard to prove.
