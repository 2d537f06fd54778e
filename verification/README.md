# Verified models of the multi-radio driver

One device carries WLAN, Bluetooth and Zigbee. The common layer of its Linux driver decides who may
transmit, answers the device's requests to sleep, splits received transfers into frames, loads
firmware through a boot loader and burns images into flash. This project models that layer in Dafny,
together with three algorithms beside it: the one's-complement checksum of the calibration data, the
file window of the configuration tool's text box, and the production tool that hands out hardware
addresses. The build modelled is the one with packet handshake (no GPIO handshake), on SDIO except
where the USB version is compared with it.

`dafny verify dfyconfig.toml` checks everything.

## How it is organised

| files | what they model |
|---|---|
| `TxAssets` | the shared transmit-access record and the power manager, in place and as functions |
| `CoexProtocol`, `CoexUndisturbed` | the sleep handshake, the coex thread and the WLAN thread as one concurrent system; its steps put together again |
| `CoexSafety`, `CoexLimits`, `CoexTrace`, `CoexQueues`, `CoexPriority`, `CoexVerdict` | what every run keeps, the runs that break it, what the device sees, what happens to packets, and which of them are written |
| `CardReady` | startup: card-ready indications, the one configuration frame, packet delivery |
| `Basics`, `Bytes`, `FlashImage` | what the other modules share |
| `Deaggregation` | the receive parsers |
| `MasterWrite` | the windowed (SDIO) and flat (USB) block loaders |
| `Mailbox` | the boot loader's two registers, boot announcement included |
| `FirmwareRun`, `FirmwareLoad`, `LoadOverMailbox` | the load as a function of what happens to each command; the state machine and the double-buffered upgrade that compute it; both over the mailbox |
| `Checksum`, `FlashBurn` | calibration checksum, manual and automatic burning |
| `AutoBurn`, `ReadBack` | the write pipeline and the read-back, with the event they share, as state machines |
| `Lines`, `TextWindow` | the text box over a sliding 10 KB buffer |
| `MacIds` | the file of last ids and the boards of a production run |

Concurrent parts are state machines: an action is enabled or not, has one next state, and a claim is
about every state that some interleaving reaches. Environment assumptions are fields of a `Config`, so
that a theorem can say for which of them a claim holds. Code that updates objects in place is a class
whose methods are proved against functions, and the claims are proved about those functions.

## Where the code does less than it seems to

Each of these is a theorem with its exact condition, not only an example.

- Sleep safety holds exactly when no wait for access expires and no other thread runs between the two
  stores that release a waiter. An expired wait leaves its flag behind, and a later sleep exit turns it
  into access that nobody asked for (`CoexLimits.SafeExactlyWhen`).
- The sleep token is stored before the lock is taken. The sentinel 0xABCD can go out as an ack unless
  that notification is one step (`CoexTrace.AcksExactlyWhen`).
- The answer the driver takes from the mailbox is the one to its own command exactly when no wait is
  aborted and no command follows a fire-and-forget command that the loader answers
  (`Mailbox.AnswersMatchExactlyWhen`).
- CHECK_CRC has one outcome that matters. A load burns the image exactly when it has read CMD_FAIL, and
  anything else, the command not being written included, passes as good
  (`FirmwareRun.BurnsExactlyWhen`, `FirmwareRun.CrcOutcomeIsIgnored`).
- The firmware mode of the manual burn verifies from address 0 and not from where it burned. A faithful
  burn passes exactly when the flash already held the beginning of the file
  (`FlashBurn.FaithfulBurnPassesExactlyWhen`).
- The test of start address plus size is a 32-bit sum (`FlashBurn.AdmittedFitsExactlyWhen`).
- An update burns where the old flash says and not where the file says
  (`FlashBurn.UpdateStartsWhereFlashSays`).
- The confirm counter of the write pipeline is never reset. With a counter left at 2 or more no burn can
  succeed, and a counter of 1 lets a burn succeed with a chunk unconfirmed
  (`AutoBurn.CanSucceedExactlyWhen`, `AutoBurn.SuccessIsConfirmedExactlyWhen`). The comment in the code
  promises one frame in the pipeline; a confirm signalled late makes it two
  (`AutoBurn.AtMostTwoExactlyWhen`).
- The pipeline resets its event when the confirm may have come. Every burn can therefore end up waiting
  for a confirm that has been counted already, inside the chunk loop exactly with counters that start at 1 to 254
  (`AutoBurn.EveryBurnCanStall`, `AutoBurn.LoopStallsExactlyWhen`).
- Write confirms and read answers set the same event. A read-back that begins with a confirm outstanding
  can pass a wrong flash and reject a right one; with none it cannot (`ReadBack.VerdictRightExactlyWhen`).
  A burn can succeed and leave one outstanding (`AutoBurn.SuccessIsSettledExactlyWhen`), and so does a
  manual write that outlasts its wait, since that is ignored.
- The coex thread looks at its queues one after the other without a lock, so priority in the strict sense
  holds exactly when nothing is queued between two looks (`CoexPriority.PriorityExactlyWhen`).
- A sleep exit, or a sleep entry met by an intention, opens transmission before startup has finished
  (`CardReady.CommonAccessFromEvents`; the run of `CardReady.SleepExitOpensEarly` shows it). The end of
  startup opens it too, without a look at the ack the device may have by then: transmission is open over
  an ack exactly when startup finished over one and no sleep notification was handled since
  (`CardReady.OpenOverAckExactlyWhen`).
- Calibration data whose checksum word is all ones is refused, although it adds up, unless all other words
  are zero (`FlashBurn.AcceptedExactlyWhen`).

## Model

| member | source | states |
|---|---|---|
| `TxAssets.DriverAssets.ProtocolTxAccess` | common_hal/osi/onebox_common_pwr_mngr.c:24-33 | true exactly when some active protocol intends to transmit |
| `TxAssets.DriverAssets.WakeWaiters` | common_hal/osi/onebox_common_pwr_mngr.c:193-217 | every waiting protocol with an active module gets access and stops waiting, all others keep their state |
| `TxAssets.DriverAssets.SleepEntryRecvd` | common_hal/osi/onebox_common_pwr_mngr.c:155-186 | the in-place form does to the shared record what the function used in the protocol proofs does |
| `TxAssets.DriverAssets.SleepExitRecvd` | common_hal/osi/onebox_common_pwr_mngr.c:193-217 | likewise for the end of sleep |
| `TxAssets.DriverAssets.UpdateTxStatus` | common_hal/osi/onebox_common_pwr_mngr.c:229-297 | likewise for a change of intention, with both early returns and the postponed ack |
| `CoexUndisturbed.UndisturbedIsAtomic` | common_hal/osi/onebox_common_rx.c:71-98 | the micro-steps of one notification, run without interruption from any state, equal the whole function, log included |
| `CoexUndisturbed.WlanRound` | wlan/wlan_hal/osi_wlan/core/onebox_core_wlan.c:43-62 | in every configuration an undisturbed round of the WLAN thread under common access writes its packet and leaves nothing else behind but, if the device was waiting for it, the postponed ack |
| `CoexUndisturbed.WlanLeaves` | wlan/wlan_hal/osi_wlan/core/onebox_core_wlan.c:342-346 | the stores at the end of a round, one by one, give up intention and access at once, and the last protocol to object sends the ack with the stored token |
| `CoexUndisturbed.WlanParksAndWakes` | wlan/wlan_hal/osi_wlan/core/onebox_core_wlan.c:43-60 | without common access the thread waits and cannot go on; an undisturbed sleep exit lets it through to sending |
| `CoexUndisturbed.DrainIsAtomic` | common_hal/osi/onebox_common_tx.c:217-234 | with all queues empty, Bluetooth and then Zigbee give up intention and access, each only with power save on, the last to object sends the postponed ack, and the thread looks again |
| `CoexSafety.StepKeeps` | common_hal/osi/onebox_common_tx.c:205-318 | every step of every thread keeps the inductive invariant when waits do not expire and a grant is one step |
| `CoexSafety.RunKeeps` | common_hal/osi/onebox_common_tx.c:205-318 | hence so does every run |
| `CoexSafety.InvIsSafe` | common_hal/osi/onebox_common_pwr_mngr.c:104-186 | the invariant implies that an outstanding ack means sleep requested, no common access, no usable access and no data packet about to be written |
| `CoexSafety.AccessRisesUnderCommon` | common_hal/osi/onebox_common_pwr_mngr.c:229-297 | in every reachable state, access rises only while common access is held and no ack is outstanding |
| `CoexLimits.SafeExactlyWhen` | common_hal/osi/onebox_common_tx.c:219-273 | all reachable states are safe if and only if waits do not expire and grants are atomic |
| `CoexLimits.ExpiredWaitBreaks` | common_hal/osi/onebox_common_tx.c:236-250 | a run with an expired wait that ends with a packet written after the ack |
| `CoexLimits.SplitGrantBreaks` | common_hal/osi/onebox_common_pwr_mngr.c:193-217 | the same from a thread running between the two stores of a grant |
| `CoexLimits.InterruptedNoticeBreaks` | common_hal/osi/onebox_common_rx.c:80-92 | a run in which the sentinel is acked and data follows |
| `CoexTrace.AcksExactlyWhen` | common_hal/osi/onebox_common_pwr_mngr.c:104-149 | at most one ack between two notifications, carrying the token of the latest sleep request and never the sentinel, if and only if notifications are one step |
| `CoexTrace.QuietExactlyWhen` | common_hal/osi/onebox_common_tx.c:84-92 | after an ack no data goes out before the next notification, if and only if all three assumptions hold |
| `CoexQueues.PacketsAreConserved` | common_hal/osi/onebox_common_tx.c:205-318 | in every reachable state and every configuration each queue is first in first out, and every packet is exactly one of queued, in hand, written or dropped |
| `CoexQueues.FreedOnce` | common_hal/osi/onebox_common_tx.c:274-314 | in every run buffers are given back in the order their packets were written or dropped, each exactly once; at any time all of them but the one the thread is about to give back |
| `CoexPriority.SelectionFollowsPriority` | common_hal/osi/onebox_common_tx.c:400-430 | with nothing queued in between, the five looks choose a queue if and only if it is the first in the order VIP, COEX, BT, ZIGB, WLAN that has a packet, and none if and only if all are empty |
| `CoexPriority.PriorityExactlyWhen` | common_hal/osi/onebox_common_tx.c:400-430 | in all runs each packet written or dropped was chosen at a moment when all queues before its own were empty and its own was not, judged from the history of events, if and only if nothing is queued between two looks |
| `CoexPriority.ServiceFollowsLooks` | common_hal/osi/onebox_common_tx.c:205-318 | in every run and every configuration each queue before that of a packet written or dropped was empty at some moment since the packet before |
| `CoexPriority.OvertakenFrame` | common_hal/osi/onebox_common_tx.c:58-66 | a run in which a frame queued between two looks is overtaken by a Bluetooth packet queued after it |
| `CoexVerdict.WrittenExactlyWhen` | common_hal/osi/onebox_common_tx.c:274-304 | after any actions of any run, the next step writes a packet if and only if the coex thread had it in hand and the driver was outside WiFi mode, or flashing, or the latest word on the firmware of the packet's radio was that it is active; otherwise, having it in hand, it throws it away. Radios by type number: 1 Zigbee, 2 Bluetooth, 4 and 5 WLAN, any other none |
| `CoexVerdict.WlanPassesExactlyWhen` | common_hal/osi/onebox_common_tx.c:45-94 | a WLAN packet handed over gets as far as the write if and only if the driver was outside WiFi mode, or flashing, or its radio's firmware was active and radio and common layer both had access; otherwise nothing changes |
| `CoexVerdict.WlanSentExactlyWhen` | common_hal/osi/onebox_common_tx.c:84-104 | a WLAN packet is written by a step if and only if it had got that far |
| `CardReady.CommonLayer.UpdateCommonHalTxAccess` | common_hal/osi/onebox_common_rx.c:597-660 | the switch with its fall-through does what the one-step function does, whose effect on everybody's access is told by the rows below |
| `CardReady.CommonLayer.DeployPacket` | common_hal/osi/onebox_common_rx.c:668-804 | new state and fate (delivered, freed, leaked) of every packet |
| `CardReady.FirmwareIsUp` | common_hal/osi/onebox_common_rx.c:696-781 | over every event sequence the stored firmware state is the latest word on it among the events alone |
| `CardReady.OpenExactlyWhen` | common_hal/osi/onebox_common_rx.c:597-660 | over every event sequence the layer is open if and only if at some point all firmwares the mode needs were up together, it never rests in the configuring state, and the configuration was sent exactly once |
| `CardReady.OpenByParameter` | common_hal/osi/onebox_common_rx.c:605-620 | the same by the number of the module parameter: WLAN always, Bluetooth with 2 and 4, Zigbee with 3 |
| `CardReady.FateExactlyWhen` | common_hal/osi/onebox_common_rx.c:668-804 | over every event sequence, told from the events: a packet reaches a protocol if and only if it is addressed to it, the card is attached, its firmware reported ready before, and its module is active and listens; without a listener it leaks, otherwise it is freed |
| `CardReady.CommonAccessExactlyWhen` | common_hal/osi/onebox_common_pwr_mngr.c:155-217 | over every run, before and after the start, there is common access if and only if the end of the start, a sleep exit, or a sleep entry met by an intention has given it and no undisputed entry or last withdrawal has taken it back since |
| `CardReady.CommonAccessFromEvents` | common_hal/osi/onebox_common_pwr_mngr.c:155-217 | the same with module states, intentions, requests and acks told from the events alone |
| `CardReady.AccessExactlyWhen` | common_hal/osi/onebox_common_pwr_mngr.c:229-297 | likewise a protocol has access if and only if it was woken by what gave common access, or asked while that was open, and has not withdrawn since |
| `CardReady.AccessFromEvents` | common_hal/osi/onebox_common_pwr_mngr.c:229-297 | the same, and its waiting, from the initial state and the events alone |
| `CardReady.StartWakesWaiters` | common_hal/osi/onebox_common_rx.c:625-652 | in the step that finishes the start of any run, exactly those protocols have access afterwards that had it or were waiting with an active module before; these wait no longer and all others keep their waiting, both told from the events |
| `CardReady.OpenOverAckExactlyWhen` | common_hal/osi/onebox_common_rx.c:625-632 | over every run, common access together with an ack outstanding is there if and only if the start finished over an ack and no sleep notification was handled since |
| `CardReady.AckedThenOpened` | common_hal/osi/onebox_common_rx.c:625-632 | such a run: a sleep request acked before WLAN reports ready |
| `CardReady.SleepExitOpensEarly` | common_hal/osi/onebox_common_pwr_mngr.c:193-217 | a run in which a sleep exit gives common access before any card is ready |
| `CardReady.AccessComesFromStart` | common_hal/osi/onebox_common_rx.c:625-652 | without sleep notifications, and with all calls of update_tx_status, common access is there if and only if the layer is open, and no protocol has access before |
| `Deaggregation.RxPath.CheckFrame` | common_hal/osi/onebox_common_rx.c:430-548 | the checks in the code's order accept exactly the frames the declarative definition recognises |
| `Deaggregation.RxPath.ProcessAggregated` | common_hal/osi/onebox_common_rx.c:412-595 | status, queued frames and card state of the loop for every transfer, every mode and every pattern of allocation failures |
| `Deaggregation.RxPath.ProcessUnaggregated` | common_hal/osi/onebox_common_rx.c:237-410 | likewise for the single-frame path |
| `Deaggregation.UnitedIsPadded` | common_hal/osi/onebox_common_rx.c:509-519 | the rounding in the code gives the one multiple of 256 that pads the length |
| `Deaggregation.CopyStaysInFrame` | common_hal/osi/onebox_common_rx.c:412-595 | the bytes copied out lie inside their own frame, with less than a block of padding after them |
| `Deaggregation.SplitOfPacked` | common_hal/osi/onebox_common_rx.c:412-595 | parsing the packing of any list of well-formed frames gives that list in order |
| `Deaggregation.AcceptedIsPacked` | common_hal/osi/onebox_common_rx.c:412-595 | every accepted transfer is the packing of well-formed frames, found by the lemma |
| `Deaggregation.AcceptedExactlyPackings` | common_hal/osi/onebox_common_rx.c:412-595 | with memory available, a transfer yields the frames `out` if and only if it is a packing with these bodies |
| `Deaggregation.AggregatedExactlyWhen` | common_hal/osi/onebox_common_rx.c:412-595 | every outcome, for every pattern of allocation failures: the bodies of the well-formed frames from the start of the transfer, as far as there were buffers, are queued in order; the loop ends well at the end, silently at a good frame without a buffer, and stops the card at anything else |
| `Deaggregation.OutcomeIsLocal` | common_hal/osi/onebox_common_rx.c:412-595 | the outcome depends on the bytes of the transfer only, although a length is read before its offset is bounded |
| `Deaggregation.PathsAgreeExactlyWhen` | common_hal/osi/onebox_common_rx.c:237-410 | outside QSPI flashing the two paths agree on a transfer if and only if it does not start with a good frame shorter than the transfer |
| `Deaggregation.SingleExactlyWhen` | common_hal/osi/onebox_common_rx.c:237-410 | in every mode, QSPI flashing included, exactly the body of a frame comes out if and only if the transfer begins with that frame on the wire, which fills it or leaves 20 bytes; in every other case the driver stops with nothing queued |
| `MasterWrite.Device.SetMsWord` | common_hal/osi/onebox_sdio_devops.c:257-291 | after success the window register holds the upper address half |
| `MasterWrite.Device.LoadSdio` | common_hal/osi/onebox_sdio_devops.c:27-98 | the loop over window register and blocks does to memory what the windowed definition says, with the register equal to the upper half of the address at every write |
| `MasterWrite.Device.LoadUsb` | common_hal/osi/onebox_usb_devops.c:33-80 | the flat loop does to memory what the flat definition says |
| `MasterWrite.Device.Load` | common_hal/osi/onebox_sdio_devops.c:27-98 | for 256-byte blocks at an aligned base, success is exactly one memory copy; on a reliable card it succeeds |
| `MasterWrite.FlatIsOneCopy` | common_hal/osi/onebox_usb_devops.c:33-80 | the flat version is one memory copy, whatever the block size |
| `MasterWrite.WindowedIsFlat` | common_hal/osi/onebox_sdio_devops.c:27-98 | the windowed version equals the flat one when no block crosses a 64 KB boundary |
| `MasterWrite.SameEffectExactlyWhen` | common_hal/osi/onebox_sdio_devops.c:27-98 | the two versions agree on all memories and images if and only if no block crosses a 64 KB boundary, for a card whose offset counter wraps in its window |
| `MasterWrite.AlignedBlocksFit` | common_hal/osi/onebox_sdio_devops.c:27-98 | a block size dividing 64 KB and a base aligned to it never cross one |
| `Mailbox.CommandsAreNeverLost` | common_hal/osi/onebox_common_devops.c:156-232 | in every run of driver and loader, aborted waits included, no command overwrites one that was not taken |
| `Mailbox.AnswersMatchExactlyWhen` | common_hal/osi/onebox_common_devops.c:156-232 | every answer consumed is the answer to the command waited for, if and only if nothing is aborted and no command follows an answered fire-and-forget command |
| `FirmwareLoad.Host.Send` | common_hal/osi/onebox_common_devops.c:156-232 | one command is tried; success means exactly that it was written and, unless it is fire-and-forget, answered as expected with the register cleared; the answer read is handed back even when it was not |
| `FirmwareLoad.Host.PingPongWrite` | common_hal/osi/onebox_common_devops.c:234-270 | the chunk goes into its buffer and nowhere else, and its command, awaited answer and recorded answer are those of the one-chunk function |
| `FirmwareLoad.NoSpill` | common_hal/osi/onebox_common_devops.c:234-270 | writing one buffer leaves the other's bytes alone |
| `FirmwareRun.AwaitedIsNext` | common_hal/osi/onebox_common_devops.c:241-251 | the answer awaited for a buffer announces as free the buffer whose turn is next |
| `FirmwareRun.ChunksExactlyWhen` | common_hal/osi/onebox_flashing.c:953-992 | the chunk loop succeeds if and only if every chunk is placed in RAM and answered as awaited |
| `FirmwareRun.UpgradeDelivers` | common_hal/osi/onebox_flashing.c:899-1005 | a successful upgrade has handed over chunks of at most 4096 bytes whose concatenation is the image, alternating PONG and PING, each in the buffer the answer before it announced free, then EOF_REACHED |
| `FirmwareLoad.Host.UpgradeAllowed` | common_hal/osi/onebox_flashing.c:899-948 | the early returns accept exactly the images that meet the size and start-address conditions, written out in numbers |
| `FirmwareRun.AdmittedExactlyWhen` | common_hal/osi/onebox_flashing.c:911-942 | the tests let an image through if and only if it has at most 400 KB and the address in its bytes 16 to 19 is a multiple of 4096, at least 68 KB (4 KB for the loader), and with the size inside the flash or wrapped past 4 GB into it |
| `FirmwareRun.RefusedUntouched` | common_hal/osi/onebox_flashing.c:911-942 | an image that fails any one of them is refused with no command sent and no chunk handed over |
| `FirmwareRun.BurnIsAllowed` | common_hal/osi/onebox_flashing.c:899-1005 | every load that hands over a chunk, successful or not, has an image that passes all of them |
| `FirmwareLoad.Host.AutoFwUpgrade` | common_hal/osi/onebox_flashing.c:899-1005 | the loops and early returns do what the upgrade function does, for every image and every outcome of every command |
| `FirmwareLoad.Host.LoadThroughLoader` | common_hal/osi/onebox_common_devops.c:387-596 | the goto machine ends; commands tried, chunks delivered and result are those of the function; success is equivalent to the condition on the environment and implies what a load is to accomplish |
| `FirmwareRun.LoadSucceedsExactlyWhen` | common_hal/osi/onebox_common_devops.c:387-596 | the load succeeds if and only if the environment meets an explicit condition on the outcome of each command and of the work between them |
| `FirmwareRun.LoadAccomplishes` | common_hal/osi/onebox_common_devops.c:387-596 | every successful load tried one of the five command sequences, all commands but CHECK_CRC answered as expected, and delivered the whole image if it burned, which then passed all tests on size and address; a loader burn left the calibration data as it was and the loader behind it |
| `FirmwareRun.BurnsExactlyWhen` | common_hal/osi/onebox_common_devops.c:453-473 | a successful load of hosted firmware burns if and only if it has read CMD_FAIL in answer to CHECK_CRC |
| `FirmwareRun.CrcOutcomeIsIgnored` | common_hal/osi/onebox_common_devops.c:453-473 | any other outcome of CHECK_CRC, not being written included, makes no difference to success |
| `FirmwareRun.UncheckedLoad` | common_hal/osi/onebox_common_devops.c:453-473 | a successful load for any image in which CHECK_CRC never reached the boot loader |
| `FirmwareRun.EachSequenceOccurs` | common_hal/osi/onebox_common_devops.c:387-596 | for every mode, and for every image that the largest readable flash has room for, with and without a CRC failure, there is an environment in which the load succeeds; so all five sequences occur |
| `FirmwareLoad.Host.VerifyLoader` | common_hal/osi/onebox_common_devops.c:568-584 | the chunk loops of the loader's read-back accept exactly the flash with the first 4 KB as before and the loader file behind them |
| `FirmwareRun.ReadsBackExactlyWhen` | common_hal/osi/onebox_common_devops.c:568-584 | byte by byte: the read-back accepts if and only if bytes 0 to 4095 are as before and byte 4096 + i is byte 32 + i of the loader file |
| `FirmwareRun.UnansweredComesLast` | common_hal/osi/onebox_common_devops.c:387-596 | in every successful load the fire-and-forget commands come last |
| `LoadOverMailbox.LoadConsumesItsOwnAnswers` | common_hal/osi/onebox_common_devops.c:156-232 | in every run of driver and loader without aborts that issues the commands of a successful load or a first part of them, every answer consumed is the answer to the command waited for |
| `Checksum.ChecksumAddition` | common_hal/osi/checksum_onescompliment.c:4-47 | the carry loop with its masked tail adds the little-endian words of the buffer in one's-complement arithmetic |
| `Checksum.Checksum32` | common_hal/osi/checksum_onescompliment.c:49-65 | the result is the complement of the representative of the total over all buffers |
| `Checksum.RepFormula` | common_hal/osi/checksum_onescompliment.c:4-47 | the representative is 0 for 0 and ((n - 1) mod (2^32 - 1)) + 1 otherwise |
| `Checksum.AddCarryIsRep` | common_hal/osi/checksum_onescompliment.c:4-47 | end-around carry computes that representative step by step |
| `Checksum.SplittingIsInvisible` | common_hal/osi/checksum_onescompliment.c:49-65 | splitting at 4-byte boundaries does not change the total |
| `Checksum.OneWordChange` | common_hal/osi/checksum_onescompliment.c:4-65 | changing one word is missed if and only if it goes between 0 and 0xFFFFFFFF and some other word is not zero |
| `Checksum.OneByteChange` | common_hal/osi/checksum_onescompliment.c:4-65 | changing any one byte of any buffer always changes the checksum |
| `Checksum.WordIs` | common_hal/osi/checksum_onescompliment.c:4-47 | a word is four bytes, least significant first, with zeros behind the end |
| `FlashBurn.BurnedTwice` | common_hal/osi/onebox_flashing.c:304-367 | burning whole sectors and then the rest is burning it all at once |
| `FlashBurn.BurnedReads` | common_hal/osi/onebox_flashing.c:58-137 | a burn leaves the data in its range, the rest of its last sector erased and everything else as it was |
| `FlashBurn.Board.BurnBlock` | common_hal/osi/onebox_flashing.c:304-367 | on a reliable card the sector loop burns the staged block and nothing else |
| `FlashBurn.Board.BurnImage` | common_hal/osi/onebox_flashing.c:828-882 | on a reliable card both nested loops through the staging area are one burn of the image |
| `FlashBurn.Board.Verify` | common_hal/osi/onebox_flashing.c:446-535 | with nothing outstanding, success means equal contents on any card, and on a reliable one equal contents mean success |
| `FlashBurn.CheckCalib` | common_hal/osi/onebox_flashing.c:656-683 | accepts exactly the data with both magic bytes and, from version 6 on, the right checksum |
| `FlashBurn.AcceptedExactlyWhen` | common_hal/osi/onebox_flashing.c:563-683 | calibration data is accepted if and only if the old flash, or a file of at least 4096 bytes, has 0x5A at 40 and 424 and, with a version of at least 6 at 77, words 4 to 1023 that add up to all ones, the last of them not all ones itself unless the others are zero |
| `FlashBurn.CalibratedAt` | common_hal/osi/onebox_flashing.c:695-697 | bytes 16 to 4095 come from the calibration data and all others from the image |
| `FlashBurn.Board.ReadCalib` | common_hal/osi/onebox_flashing.c:563-714 | the data taken passed the tests; with nothing outstanding it is the flash's first 4 KB or the file, and on a reliable card acceptable data is taken |
| `FlashBurn.Board.FlashBootloader` | common_hal/osi/onebox_flashing.c:803-896 | on any card that ends with nothing outstanding, success means that byte i of the flash is byte i of the calibration source for i from 16 to 4095 and byte i + 32 of the file for all others; on a reliable card it succeeds if and only if the data is accepted, and only that range changes |
| `FlashBurn.Board.FlashFirmware` | common_hal/osi/onebox_flashing.c:754-802 | an image refused by the address tests leaves the flash alone; with nothing outstanding at the end success means the flash from 0 on equals the image; on a reliable card the burn itself is right whatever the verdict |
| `FlashBurn.UpdateStartsWhereFlashSays` | common_hal/osi/onebox_flashing.c:749-768 | an update takes the start address from the old flash and not from the file |
| `FlashBurn.Board.ManualLoad` | common_hal/osi/onebox_flashing.c:716-897 | the same for the whole function in all four modes, byte by byte, with a missing, too long or short file; a write confirm that misses its wait is outstanding from then on |
| `FlashBurn.FaithfulBurnPassesExactlyWhen` | common_hal/osi/onebox_flashing.c:884-887 | a faithful burn at `start` passes the verification from 0 if and only if the flash held the file's first `start` bytes and the rest repeats with that period |
| `FlashBurn.FaithfulBurnRejected` | common_hal/osi/onebox_flashing.c:884-887 | a file for address 8192 and an erased flash: admitted, burned right and rejected |
| `FlashBurn.AdmittedFitsExactlyWhen` | common_hal/osi/onebox_flashing.c:770-795 | the address tests keep the file inside the flash if and only if the 32-bit sum does not wrap |
| `FlashBurn.AdmittedExactlyWhen` | common_hal/osi/onebox_flashing.c:770-795 | the address tests pass if and only if the address is a multiple of 4096 beyond 4096, the capacity is known, and the file ends inside it or wrapped past 4 GB into it |
| `FlashBurn.AutoAdmitsExactlyWhen` | common_hal/osi/onebox_flashing.c:1007-1060 | likewise for the automatic path with 4 MB for the capacity and at most 400 KB |
| `FlashBurn.WrappedStartIsAdmitted` | common_hal/osi/onebox_flashing.c:770-795 | an address outside every flash that passes them |
| `FlashBurn.Board.AutoLoad` | common_hal/osi/onebox_flashing.c:1007-1092 | success means the write pipeline ended well and, if that left nothing outstanding, that the flash holds the file where it was to be burned; then on a reliable card with room it succeeds if and only if the pipeline did, and nothing else changes |
| `AutoBurn.StepKeeps` | common_hal/osi/onebox_flashing.c:369-444 | every step of writer, card and receive thread keeps the pipeline invariant, with the 8-bit counter modulo 256 |
| `AutoBurn.NeverMoreThanThree` | common_hal/osi/onebox_flashing.c:410-422 | in every run at most three chunks are unconfirmed unless the counter starts at 1 |
| `AutoBurn.AtMostTwoExactlyWhen` | common_hal/osi/onebox_flashing.c:410-422 | at most two are, if and only if the counter starts at 0 and confirms are signalled as they are counted, or the counter starts at 2 or more |
| `AutoBurn.SuccessIsConfirmedExactlyWhen` | common_hal/osi/onebox_flashing.c:433-443 | success means every chunk was confirmed, if and only if the counter does not start at 1 |
| `AutoBurn.CanSucceedExactlyWhen` | common_hal/osi/onebox_common_rx.c:148-157 | some run of a burn succeeds if and only if the counter starts at 0 or 1 |
| `AutoBurn.LateSignalBreaks` | common_hal/osi/onebox_common_rx.c:148-157 | a run with three unconfirmed chunks after a late signal |
| `AutoBurn.UnconfirmedSuccess` | common_hal/osi/onebox_flashing.c:433-443 | a run that succeeds without any confirm |
| `AutoBurn.EveryBurnCanStall` | common_hal/osi/onebox_flashing.c:433-441 | every burn of at least one chunk, whatever its counter and signalling, has a run that ends so after the last chunk |
| `AutoBurn.LoopStallsExactlyWhen` | common_hal/osi/onebox_flashing.c:410-422 | inside the chunk loop this happens if and only if the counter starts at 1 to 254 |
| `AutoBurn.CanStillSucceedExactlyWhen` | common_hal/osi/onebox_flashing.c:369-444 | with a counter that starts at 0, from any point of any run the burn can still succeed if and only if it has not failed and its last wake-up is not lost |
| `AutoBurn.SuccessIsSettledExactlyWhen` | common_hal/osi/onebox_flashing.c:433-443 | a burn that succeeds leaves no confirm and no signal outstanding, if and only if the counter starts at 0 and confirms are signalled as they are counted, or it cannot succeed |
| `AutoBurn.UnsignalledSuccess` | common_hal/osi/onebox_common_rx.c:154-157 | a burn that succeeds between the count and the signal of its last confirm |
| `ReadBack.VerdictRightExactlyWhen` | common_hal/osi/onebox_flashing.c:446-535 | over every image, flash, stale buffer and interleaving with card and receive thread, a read-back passes only a right flash and rejects only a wrong one, if and only if no write confirm is outstanding when it begins |
| `ReadBack.WrongFlashPassed` | common_hal/osi/onebox_flashing.c:486-524 | a run with an outstanding confirm in which each chunk is compared with the answer before it and a wrong last chunk passes |
| `ReadBack.RightFlashRejected` | common_hal/osi/onebox_flashing.c:486-524 | a run with an outstanding confirm in which a right flash is rejected |
| `ReadBack.OtherLengthIgnored` | common_hal/osi/onebox_common_rx.c:158-180 | a late answer of another length than the one asked for leaves buffer and event alone |
| `TextWindow.TextBox.ReadBlock` | config/lxdialog/textbox.c:68-79 | the buffer holds the next 10 KB of the file or what is left of it |
| `TextWindow.TextBox.GetLine` | config/lxdialog/textbox.c:489-535 | yields the rest of the current line cut to its limit and moves to the next one, wherever refills fall |
| `TextWindow.TextBox.SlideBack` | config/lxdialog/textbox.c:340-372 | moving the buffer back keeps the absolute position and makes room before it |
| `TextWindow.TextBox.BackLines` | config/lxdialog/textbox.c:327-435 | from line k to line max(0, k - n), with begin_reached set if and only if k <= n, and never an internal error |
| `TextWindow.TextBox.PrintPage` | config/lxdialog/textbox.c:440-454 | the screen shows the lines from `top` on, page length and end flag included |
| `TextWindow.TextBox.BackFromPage` | config/lxdialog/textbox.c:327-435 | back by the page just printed and `extra` more lines is exactly that many lines above the page's top, so a page alone restores the position |
| `TextWindow.TextBox.KeyHome` | config/lxdialog/textbox.c:145-177 | shows the first page, with or without a re-read |
| `TextWindow.TextBox.KeyEnd` | config/lxdialog/textbox.c:178-210 | shows the last full page |
| `TextWindow.TextBox.KeyUp` | config/lxdialog/textbox.c:211-245 | scrolls by one line up, page length kept right by re-reading |
| `TextWindow.TextBox.KeyPageUp` | config/lxdialog/textbox.c:246-256 | one page up, stopping at the first line |
| `TextWindow.TextBox.KeyDown` | config/lxdialog/textbox.c:257-271 | one line down unless the end is shown |
| `TextWindow.TextBox.KeyPageDown` | config/lxdialog/textbox.c:272-282 | one page down unless the end is shown |
| `TextWindow.TextBox.KeyRedraw` | config/lxdialog/textbox.c:283-311 | drawing the page again leaves it in place |
| `TextWindow.Browse` | config/lxdialog/textbox.c:47-315 | after any keys on any file the screen is what a viewer with all lines in memory shows |
| `TextWindow.ViewerLaws` | config/lxdialog/textbox.c:145-282 | the keys of that viewer hang together: a page up is as many lines up, Home and End are where going up and down end, a line or page down is undone by the same up and stays put exactly when the end is shown |
| `TextWindow.RowIsLine` | config/lxdialog/textbox.c:489-535 | a row of it is the line of the file cut to 2048 characters, or blank past the last line |
| `MacIds.GetToken` | release/flash/rsi_api_routine.c:30-56 | for any file and key the loop returns what follows the key, where it first occurs, in the first white-space separated word of the file that contains it and does not begin with two slashes, and nothing if and only if there is no such word |
| `MacIds.HexRoundTrip` | release/flash/rsi_api_routine.c:20-22 | printing a number in hexadecimal and parsing it gives it back |
| `MacIds.CapitalsRoundTrip` | release/flash/rsi_api_routine.c:20-22 | so does the same number in capitals |
| `MacIds.SaveRoundTrip` | release/flash/rsi_api_routine.c:12-100 | reading a saved file gives all three ids again, for all 32-bit values |
| `MacIds.CopyMacInfo` | release/flash/rsi_calib_flash.c:73-84 | copies the low bytes, most significant first |
| `MacIds.ThreeBytesSuffice` | release/flash/rsi_calib_flash.c:144-146 | the three bytes copied determine an id below 2^24 |
| `MacIds.FourBytesAreAll` | release/flash/rsi_calib_flash.c:73-84 | all four bytes determine any id |
| `MacIds.Station.Prepare` | release/flash/rsi_calib_flash.c:108-182 | a board is prepared if and only if the stored ids are readable and in range, and it carries those ids |
| `MacIds.Station.Commit` | release/flash/rsi_calib_flash.c:184-203 | success exactly when the ids can be read and the file created; then the stored ids advance, otherwise the file stays |
| `MacIds.BoardsAreMade` | release/flash/rsi_calib_flash.c:108-203 | over every production run there is exactly one board, in order, for each call that prepares while the first ids advanced by the commits before it are in range, both ends included, and it carries those ids |
| `MacIds.Station.Produce` | release/flash/rsi_calib_flash.c:108-203 | calling the tool again and again, failed commits included, yields through the file the boards of the run function, and two of them share an address if and only if nothing was committed between them |
| `MacIds.BoardsArePlaced` | release/flash/rsi_calib_flash.c:120-169 | over every production run each board's ids are in range, WLAN ids multiples of four, determined by the successful commits before it |
| `MacIds.BoardsShareExactlyWhen` | release/flash/rsi_calib_flash.c:120-203 | two boards of a run share an address of any radio if and only if nothing was committed between them |

## Left out

- Kernel and bus plumbing: buffer allocation, semaphores, timers, transfers and register accesses are outcomes that may fail or not.
- The GPIO handshake build and `gpio_host_tx_intention`.
- `interrupt_handler` on both buses.
- Modules going away while packets are in flight: the coex model keeps all three modules active and starts after startup has finished.
- WLAN internals: the WLAN thread is modelled only where it touches the shared access record and the write operation.
- Liveness: no claim that a wait ends; lost wake-ups are shown for the write pipeline only.
- Signals that interrupt a kernel wait, which the driver would take for an event.
- Frame descriptor encodings: in the automatic write the 16-bit length field cannot hold a full chunk, and the model hands the chunk over whole.
- The USB variant of the receive parsers.
- MasterWrite.Burst: what SDIO does with a burst across a 64 KB boundary is not in the driver; the model lets the offset counter wrap.
- Deaggregation.RxPath.CheckFrame: requires 64 KB of readable memory behind the transfer, because the code reads a length at an unchecked 16-bit offset.
- FlashBurn.Board.ManualLoad: requires a boot loader file of at least its 32-byte header, because the size minus the header wraps below; what the calibration copy writes behind the end of a short file is not modelled.
- FlashBurn.Board.Verify: says nothing about a read-back with a confirm or an answer outstanding (`settled` false); what happens then is `ReadBack`. That an answer comes after the driver has reset its event is part of what a reliable card is here.
- FlashBurn.Board.BurnImage: says what the flash holds only for a card that never fails, because the driver ignores the outcome of each burn; on other cards the read-back decides.
- FlashBurn.Board.AutoLoad: takes the end state of the write pipeline as given, a reachable one of `AutoBurn`, and the frames as processed in order.
- FlashBurn.Board.Program: a sector erase and program by the card's firmware is assumed to do what the frame asks, or to leave anything behind.
- FirmwareLoad.Host.LoadThroughLoader: the work between the commands (files, header, program memory, bus reads) is an outcome given by the environment, and so is what lies behind an image of less than 20 bytes; a loader file shorter than its header, whose size wraps, does not read back.
- TextWindow.Browse: files without NUL characters and without read errors; horizontal scrolling, drawing and the position indicator are not modelled.
- TextWindow.TextBox.BackLines: requires at least one line, as all callers pass.
- TextWindow.TextBox.KeyUp: the screen is one field, so the scrolling of single rows on the terminal is not shown.
- MacIds.SaveRoundTrip: the reader of hexadecimal numbers does not take a 0x prefix, which the C library does; the saved file has none.
- MacIds.GetToken: the fixed token buffers and a token that ends right at the key are not modelled as memory; an empty file, whose first token would be uninitialised, has no token.
- MacIds.BoardsShareExactlyWhen: ids do not overflow a 32-bit integer during the run, and ranges fit three bytes with at most four WLAN ids per board.
- The range settings of the production tool are taken as given; they are read by the same token scanner.
- Address tables, register tables, debug dumps, other lxdialog boxes, `utils` and hostapd.
