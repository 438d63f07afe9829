# OpenFlap verification

OpenFlap is a split-flap display: a controller on the network, and a chain of flap modules, each with a
motor, an optical encoder and a boot loader of its own. This project models the parts of the firmware whose
correctness is not visible from any one function, and proves what they are for.

| file | component |
|---|---|
| `Crc.dfy` | the image checksum: bijectivity of its rounds, what it detects, both implementations |
| `Flash.dfy` | flash memory (erase sets bits, program clears them) and the sector-erasing page writer |
| `Bootloader.dfy` | slot check, copy, invalidation, as a method and as a step machine with power cuts and torn operations |
| `Ota.dfy` | the firmware upload, from the file in the web server to the bytes in the module's second slot |
| `LinkedList.dfy` | the kernel's circular doubly linked list |
| `Timers.dfy` | the software-timer daemon against unbounded time |
| `RingBuffer.dfy` | the ring buffer of the serial drivers |
| `UartMachine.dfy` | the transmitter, preempted by its interrupt between any two statements |
| `UartDriver.dfy` | its calls without interruption, as methods, and that the two agree |
| `MessageBuffer.dfy` | the message buffer with one writer and one reader, in every interleaving |
| `Queue.dfy` | the kernel's queue on its circular byte store |
| `EventGroup.dfy` | event groups: waiting, setting, rendezvous |
| `FlapWheel.dfy` | the quadrature decoder, homing and the backspin counter |
| `FlapMotion.dfy` | the distance to the commanded flap, minimum rotation, and the module's context |
| `Interpolation.dfy` | linear and bilinear interpolation in integers |
| `Control.dfy` | the speed controller with the shipped gains and tables, in 32-bit arithmetic |
| `HBridge.dfy` | the duty cycles of the motor bridge |
| `Properties.dfy` | the controller's serialisers, readers and comparisons of module properties |
| `Display.dfy` | which writes are pending, when they become a broadcast, and the synchronising pass |
| `Synchronisation.dfy` | requests against the synchronising task, in every interleaving |
| `InStep.dfy` | what every interleaving keeps |
| `LostWrites.dfy`, `LostWriteRuns.dfy` | exactly which writes get lost, and runs in which they do |
| `Handshake.dfy` | an upload against the synchronising task, with their two event bits, in every interleaving |
| `Upload.dfy` | what a module receives of an upload, when that is everything, and uploads in which it is not |
| `Arithmetic.dfy`, `Values.dfy` | C division and wrap-around; shared types |

Where the source changes state, the model is a class or method proved against a function, and the laws are
lemmas about that function. Time, shaft movement and histories are unbounded; the fixed-width values of the
code are their projections (`Timers.Tick`, `Arithmetic.Signed`, the newtypes in `Control` and `HBridge`).

Some promises do not hold of the code without a condition. The project keeps the code as it is, proves exactly
when they hold, and gives inputs for which they do not:

- An image whose checksum word is 0 is not invalidated after the update: its inverse cannot be programmed
  over zero bits. It is copied again at every boot (`Bootloader.FinishedUpdate`,
  `Bootloader.ZeroChecksumStaysValid`).
- A short last chunk of an upload gets the right page number only under the condition of
  `Ota.ShortChunkIndex`; the last 64 bytes of a file of 192 are numbered 2 (`Ota.ShortChunkMisplaced`).
- The bit that ends the wait for a chunk does not say which pass has set it. It is that of a pass begun after
  the chunk was flagged, in every interleaving, exactly if no pass was under way or asked for when the upload
  started (`Handshake.OwnPassIff`). A request to the modules leaves its pass under way, and so does an upload
  that has timed out. If that pass has left the firmware page behind, the upload can be answered with success
  although the first page was never sent and no attempt has failed (`Upload.FirstPageOverwritten`).
- Without a pass under way, an upload answered with success has brought a module every page exactly if every
  pass got its page through: an attempt reached the module, and no reading of the firmware version that was
  still flagged failed before it; the last page has a second chance (`Upload.UploadedIff`). The answer itself
  depends only on the chunks and the bit (`Handshake.AnsweredOkIff`), so it can be success with nothing
  received at all (`Upload.AnsweredWithNothing`).
- The 8-bit backspin counter wraps to a positive value when the shaft is turned back more than 128 steps
  (`FlapWheel.CounterStaysBehindIff`, `FlapMotion.TurnedBackTooFar`).
- With the minimum rotation set to a whole turn, which the setter allows, a wheel never arrives, whether it
  homes on its way or not (`FlapMotion.FullTurnNeverEnds`, `FlapMotion.ArrivesIff`).
- The speed calculation overflows or divides by zero when the wrapped tick difference is 0 or above 44739242 in
  absolute value, so at the first move after a long rest (`Control.SpeedDefinedIff`,
  `Control.UndefinedAfterRest`). Where it is defined, the filtered speed stays in 0 to 100000 exactly if the
  difference is positive or the filter outweighs the negative measurement (`Control.SpeedStaysInRangeIff`,
  `Control.NegativeAfterLongerRest`).
- The speed of a wheel that stands still is set to zero 200 ticks after the last change, unless the tick counter
  overflows meanwhile: after the overflow it is not reset any more, and if the 200th tick lies beyond the
  overflow it is reset at once (`Control.StandstillIff`).
- Bilinear and linear interpolation truncate differently unless nothing is cut off in the cell or both
  dividends have the same sign; falling data differ above zero as well
  (`Interpolation.ColumnIsLinearIff`, `Interpolation.TablesThatDiffer`).
- A write is lost if its request comes after its bytes were taken and before its flag is cleared: while the
  property is being communicated, or while its flags are being cleared. A broadcast counts as taking the bytes
  when it compares the modules; a change of module 0 after that reaches all of them. And a write is lost
  whenever its property is flagged for reading as well (`LostWrites.LostIff`,
  `LostWriteRuns.LostWhileTalking`, `LostWriteRuns.LostWhileClearing`,
  `LostWriteRuns.WrongValueBroadcast`, `Display.PassDelivers`).
- A display of 32768 modules or more is never written by broadcast, because the modules are counted with a
  signed 16-bit number (`Display.AllAlikeMeansBroadcast`, `Display.TooManyToBroadcast`).

## Model

| member | source | states |
|---|---|---|
| Crc.UnshiftShift | software/module/local_ota.py:35-39 | no two register values are taken to the same one by a bit step |
| Crc.ShiftUnshift | software/module/local_ota.py:35-39 | every register value is reached by a bit step |
| Crc.ShiftIsTimesX | software/module/local_ota.py:35-39 | a bit step is multiplication by x modulo the generator, given by its exponents |
| Crc.ZeroWordNoticed | software/module/local_ota.py:18-41 | one word of zeros gives 0xC704DD7B, and put before a valid image it is noticed |
| Crc.ValidWord | software/module/local_ota.py:23-41 | of single words exactly 0xFFFFFFFF is valid |
| Crc.ZerosAreInvalid | software/module/local_ota.py:18-41 | no number of zero words is a valid image |
| Crc.LeadingWordsNoticedIff | software/module/local_ota.py:18-41 | words put before a valid image go unnoticed if and only if they bring the register back to 0xFFFFFFFF |
| Crc.FeedIsBijective | software/module/local_ota.py:33-39 | for each word a round is a bijection of the register, and for each register a bijection of the word; the preimage is given |
| Crc.OneWordChangeDetected | software/module/local_ota.py:18-41 | equal-length images that differ in exactly one word have different checksums |
| Crc.UniqueValidChecksumWord | software/module/local_ota.py:18-41 | a prefix has exactly one checksum word that makes it valid |
| Crc.InvertedChecksumInvalidates | software/module/btl/src/bootloader.c:64-70 | the inverted word is never valid, and the AND of the two is valid only if the word was 0 |
| Crc.ValidWithZeroChecksum | software/module/local_ota.py:18-41 | every prefix can be completed to a valid image whose checksum word is 0 |
| Crc.ChangedBytesDetected | software/module/local_ota.py:26-33 | byte images that differ within one aligned word have different checksums |
| Crc.WordsInjective | software/module/local_ota.py:26-33 | little-endian word assembly loses nothing |
| Crc.CrcUnit.FeedData32 | software/module/btl/src/bootloader.c:35-42 | the unit's register advances by one round |
| Crc.CalculateCrc | software/module/btl/src/bootloader.c:35-42 | reset, feed all, read gives the specified checksum, whatever was in the unit |
| Crc.AssembleWord | software/module/local_ota.py:27-33 | the byte loop yields the word, missing bytes being 0 |
| Crc.LoadWordIsLittleEndian | software/module/local_ota.py:27-33 | the first byte of a word is its low one |
| Crc.ProcessBits | software/module/local_ota.py:35-39 | the bit loop is 32 bit steps |
| Crc.CalcStm32Checksum | software/module/local_ota.py:18-41 | reports the trailer, and valid exactly when the checksum over all words is 0 |
| Crc.TrailerIsReversed | software/module/local_ota.py:18-41 | the reported trailer is the last little-endian word with its bytes reversed |
| Flash.FlashDevice.EraseSector | software/module/lib/flash/flash.c:46-57 | the sector becomes 0xFF, nothing else changes |
| Flash.FlashDevice.WritePage | software/module/lib/flash/flash.c:24-42 | one round of the loop: erase on reaching a sector, pad, program |
| Flash.FlashDevice.Write | software/module/lib/flash/flash.c:14-44 | every byte afterwards: the data AND what was there, or AND 0xFF where its sector's first byte is passed |
| Flash.WriteExtends | software/module/lib/flash/flash.c:14-44 | writing in pages is the same as one longer write |
| Flash.PaddingIsNeutral | software/module/lib/flash/flash.c:30-33 | padding a short page with 0xFF programs nothing more |
| Flash.SectorWriteIsExact | software/module/lib/flash/flash.c:14-44 | a write that starts at a sector leaves exactly the data, whatever was there |
| Flash.WriteIsLocal | software/module/lib/flash/flash.c:14-44 | nothing outside the touched sectors changes |
| Bootloader.Boot | software/module/btl/src/bootloader.c:49-84 | the flash afterwards and whether the application is started |
| Bootloader.StepsImplementBoot | software/module/btl/src/bootloader.c:49-84 | the step machine without power cuts ends where the method does |
| Bootloader.StepKeepsInv | software/module/btl/src/bootloader.c:49-84 | every step keeps "main equals the image or new equals the image, and a valid new slot is the image" |
| Bootloader.PowerCutKeepsInv | software/module/btl/src/bootloader.c:49-84 | so does losing power in any phase, with the erase or program under way torn |
| Bootloader.PowerCutsHappen | software/module/lib/flash/flash.c:14-57 | a run can go on until the bootloader is done, and can be cut at every moment: before or after an operation, with any state of a sector under erasure, and with any part of a page's bits cleared |
| Bootloader.UpdateSurvivesPowerCuts | software/module/btl/src/bootloader.c:49-84 | in every run with any power cuts, the application that is started is the image byte for byte, and the module never ends without one |
| Bootloader.UpdateLeavesRest | software/module/memory_map.ld:28-42 | in every such run the bootloader and the configuration sector keep every byte |
| Bootloader.CompletesWithPower | software/module/btl/src/bootloader.c:49-84 | from every state such a run can be in, if power then stays on, the image is started |
| Bootloader.OnlyTheImageIsValid | software/module/btl/src/bootloader.c:35-42 | of all slots that share the image but for the checksum word only the image is valid |
| Bootloader.SpoilIsHarmless | software/module/btl/src/bootloader.c:64-70 | however the invalidating write is torn, main is untouched and a new slot that is still valid is the image |
| Bootloader.FinishedUpdate | software/module/btl/src/bootloader.c:58-71 | main is what new was; the new slot is still valid if and only if its checksum word was 0 |
| Bootloader.ZeroChecksumUnspoiled | software/module/btl/src/bootloader.c:64-70 | a new slot whose checksum word is 0 is the same byte for byte after the update |
| Bootloader.ZeroChecksumStaysValid | software/module/btl/src/bootloader.c:49-71 | a failing slot for every body: after any number of boots it is unchanged and valid, and was copied again at the last |
| Ota.UploadToChunks | software/controller/components/webserver/webserver_api.c:121-153 | which chunks the handler has seen when the upload succeeds or stops; it succeeds if and only if every chunk is received and handled |
| Ota.CutsJoin | software/controller/components/webserver/webserver_api.c:131-145 | the chunks joined are the file up to that point |
| Ota.WholePages | software/controller/components/webserver/webserver_api.c:131-145 | in a file of whole pages chunk i is page i |
| Ota.WholePagesIndex | software/controller/components/module_api/module_api_firmware_endpoints.c:40-48 | and it gets the number i |
| Ota.ShortChunkIndex | software/controller/components/module_api/module_api_firmware_endpoints.c:44-44 | a short last chunk gets the right number if and only if the stated inequality holds |
| Ota.ShortChunkMisplaced | software/controller/components/module_api/module_api_firmware_endpoints.c:44-44 | a failing file: its last 64 of 192 bytes belong to page 1 and are numbered 2 |
| Properties.MessageRoundTrip | software/controller/components/openflap_property_handlers/openflap_property_handlers.c:139-152 | of all byte sequences exactly the serialised one, two index bytes and the page, reads as that page number and page |
| Ota.PropertyFirmwareSet | software/module/app/src/property_handlers.c:13-20 | the page goes to its place in the second slot |
| Ota.RepeatedPage | software/module/lib/flash/flash.c:14-44 | delivering a page again changes nothing |
| Ota.DeliveriesAmountToOneWrite | software/module/app/src/property_handlers.c:13-20 | pages delivered in order, each at least once, amount to one write |
| Ota.UploadWritesImage | software/module/app/src/property_handlers.c:13-20 | after the upload the second slot holds the image, whatever it held, and the rest of the flash is as before |
| Ota.UploadedImageIsRun | software/module/btl/src/bootloader.c:49-84 | end to end: a valid uploaded image is the one that runs after reset, through any power cuts |
| Handshake.StoredIsPaged | software/controller/components/module_api/module_api_firmware_endpoints.c:36-49 | the server's single steps give all modules what the chunk handler as a whole does |
| Handshake.NextKeepsInv | software/controller/components/openflap_mdl_master/openflap_mdl_master.c:97-112 | every step of the server, the task or a timeout keeps "each chunk has a whole pass for itself, on a display nobody else changes" |
| Handshake.EachWaitIsOwn | software/controller/components/openflap_mdl_master/openflap_mdl_master.c:97-112 | started with no pass under way and none asked for, no wait of the upload is ever ended by a pass begun before its chunk was flagged |
| Handshake.OwnPassIff | software/controller/components/openflap_mdl_master/openflap_mdl_master.c:126-189 | over all interleavings that is so if and only if the upload starts like that |
| Handshake.Overtakes | software/controller/components/openflap_mdl_master/openflap_mdl_master.c:186-188 | the other case: for any link, a pass under way ends the wait for a chunk given after it had begun, and leaves another one asked for |
| Handshake.AnsweredOkIff | software/controller/components/webserver/webserver_api.c:131-153 | in every interleaving an answered upload was successful if and only if every chunk arrived and every chunk's wait found the bit |
| Handshake.AnsweredAtOnce | software/controller/components/webserver/webserver_api.c:131-153 | an empty file is answered with success; a chunk that does not arrive, or an empty display, with failure |
| Handshake.TimesOut | software/controller/components/openflap_mdl_master/openflap_mdl_master.c:97-112 | for any display and chunk, if the task gets no turn the upload is answered with failure, with the page still flagged and a pass asked for |
| Handshake.CanSucceed | software/controller/components/openflap_mdl_master/openflap_mdl_master.c:97-112 | if every chunk arrives and the display is never empty, some interleaving ends with the answer that all is well, however the attempts go |
| Upload.DeliveredIs | software/controller/components/openflap_mdl_master/openflap_mdl_master.c:152-184 | in the pass for a chunk the module gets exactly the chunk's message, once for each attempt that reaches it, unless the pass is stopped at the firmware version |
| Upload.DeliveredLast | software/controller/components/module_api/module_api_firmware_endpoints.c:54-66 | in the pass for the reboot it gets the last page again exactly if that was not communicated before |
| Upload.RebootIsSent | software/controller/components/module_api/module_api_firmware_endpoints.c:54-66 | when the pass for the reboot comes to the commands, the module gets the single byte 1 |
| Upload.ReceivedAllIff | software/controller/components/openflap_mdl_master/openflap_mdl_master.c:152-184 | with a pass for each chunk, the module receives every page if and only if every pass gets its page through, the last page in one of two |
| Upload.UploadedIff | software/controller/components/module_api/module_api_firmware_endpoints.c:51-52 | so in every interleaving from a start with nothing under way, for an upload answered with success |
| Upload.AnswerIsLoops | software/controller/components/webserver/webserver_api.c:131-153 | the answer is that of the upload loop whose handler succeeds when the wait finds the bit |
| Upload.AnsweredWithNothing | software/controller/components/openflap_mdl_master/openflap_mdl_master.c:179-188 | failing uploads: no attempt reaches the module, and the upload is answered with success |
| Upload.FirstPageOverwritten | software/controller/components/module_api/module_api_endpoints.c:184-185 | failing uploads with no failing attempt: a pass is under way, the answer is success, and exactly the first page is missing |
| Upload.UploadedImage | software/module/app/src/property_handlers.c:13-20 | if every pass gets its page through, the second slot holds the image and the rest of the flash is as before |
| Upload.UploadIsRun | software/module/btl/src/bootloader.c:49-84 | and a valid image is then what the module runs, through any power cuts |
| LinkedList.InsertKeepsSorted | software/module/lib/puya_libs/FreeRTOS/list.c:128-196 | insertion keeps the list sorted, behind all equal values |
| LinkedList.InsertPositionIs | software/module/lib/puya_libs/FreeRTOS/list.c:128-196 | no other position separates smaller-or-equal from larger |
| LinkedList.RemoveUndoesInsert | software/module/lib/puya_libs/FreeRTOS/list.c:199-225 | removal after insertion restores the sequence |
| LinkedList.RemoveKeepsSorted | software/module/lib/puya_libs/FreeRTOS/list.c:199-225 | removal keeps the list sorted |
| LinkedList.List.constructor | software/module/lib/puya_libs/FreeRTOS/list.c:50-84 | an empty well-formed ring |
| LinkedList.List.FindInsertion | software/module/lib/puya_libs/FreeRTOS/list.c:148-185 | the walk ends, for every value and the largest too, behind the last smaller-or-equal item |
| LinkedList.List.Insert | software/module/lib/puya_libs/FreeRTOS/list.c:128-196 | stable sorted insertion; ring, count and containers stay right |
| LinkedList.List.InsertEnd | software/module/lib/puya_libs/FreeRTOS/list.c:98-125 | insertion before the walk index |
| LinkedList.List.Remove | software/module/lib/puya_libs/FreeRTOS/list.c:199-225 | exactly that item is gone, the index steps back if it was there, the count is returned |
| Timers.OverflowDetected | software/module/lib/puya_libs/FreeRTOS/timers.c:693-713 | less than a wrap apart, the counter ran backwards if and only if it overflowed, and then once |
| Timers.PlacedRight | software/module/lib/puya_libs/FreeRTOS/timers.c:716-757 | the comparisons of wrapped times decide as unbounded time does: expired, this epoch or the next |
| Timers.CaughtUpFiredExactly | software/module/lib/puya_libs/FreeRTOS/timers.c:522-565 | once caught up at T, a timer of period P started at C has fired floor((T-C)/P) times; a one-shot timer that is still active has not |
| Timers.NothingDueWhileBlocked | software/module/lib/puya_libs/FreeRTOS/timers.c:630-642 | the block time is less than a wrap and ends when the next timer is due, or at the overflow if none is in the current list; the daemon blocks indefinitely exactly when no timer is active |
| Timers.TimerDaemon.InsertTimerInActiveList | software/module/lib/puya_libs/FreeRTOS/timers.c:716-757 | the timer goes into the list of its epoch, or is reported as expired |
| Timers.TimerDaemon.ReloadTimer | software/module/lib/puya_libs/FreeRTOS/timers.c:522-538 | the backlog fires once per period and the next expiry is listed; the loop terminates |
| Timers.TimerDaemon.ProcessExpiredTimer | software/module/lib/puya_libs/FreeRTOS/timers.c:541-565 | the expired head fires and is reloaded or made inactive; one fewer is pending |
| Timers.TimerDaemon.SwitchTimerLists | software/module/lib/puya_libs/FreeRTOS/timers.c:908-930 | everything left of the old epoch fires and the lists change places; the loop terminates |
| Timers.TimerDaemon.SampleTimeNow | software/module/lib/puya_libs/FreeRTOS/timers.c:693-713 | less than a wrap after the last reading the lists are switched exactly when the counter overflowed; with empty lists any time may have passed |
| Timers.TimerDaemon.ProcessTimerOrBlockTask | software/module/lib/puya_libs/FreeRTOS/timers.c:604-660 | the daemon blocks only when nothing expired is waiting, and for the specified time; else it makes progress |
| Timers.TimerDaemon.Handle | software/module/lib/puya_libs/FreeRTOS/timers.c:760-905 | each kind of command at its moment: a start counts from its sending, keeps the period and leaves the timer active unless it is a one-shot that has expired; a stop makes it inactive and unlisted and keeps period and start; a change makes it active with the new period from that moment; all other timers as before |
| Timers.TimerDaemon.HandleAll | software/module/lib/puya_libs/FreeRTOS/timers.c:760-905 | the timer is what the commands for it make of it one after another, except for a one-shot's expiry, and counts from the last that started it |
| Timers.TimerDaemon.RunRound | software/module/lib/puya_libs/FreeRTOS/timers.c:586-600 | process or block, sleep, handle the commands; the same about the timer |
| Timers.TimerDaemon.RunDaemon | software/module/lib/puya_libs/FreeRTOS/timers.c:568-601 | over any rounds, with any commands for any timers and any lateness below a wrap: once caught up, a timer is what all its commands have made of it, a reloading one that is active has fired exactly once per period since its start, and an active one-shot has not fired |
| Timers.LastCommandDecides | software/module/lib/puya_libs/FreeRTOS/timers.c:760-905 | after a stop as the last command the timer is inactive; after a change it has that period and start; after a start or change a reloading timer is active |
| Timers.TimerDaemon.StartTimer | software/module/lib/puya_libs/FreeRTOS/timers.c:821-850 | started as of the time of the command, also when the command comes late |
| Timers.TimerDaemon.ProcessStartedLate | software/module/lib/puya_libs/FreeRTOS/timers.c:829-847 | a start whose first expiry has passed fires at once and reloads |
| Timers.TimerDaemon.StopTimer | software/module/lib/puya_libs/FreeRTOS/timers.c:852-856 | inactive and in no list; all others as before |
| Timers.TimerDaemon.ChangePeriod | software/module/lib/puya_libs/FreeRTOS/timers.c:858-871 | active with the new period from now on |
| RingBuffer.UsedIsLength | software/module/lib/rbuff/rbuff.c:67-96 | the counts by pointer arithmetic are the length of the contents, and empty and full are its extremes |
| RingBuffer.StoreThenAdvance | software/module/lib/rbuff/rbuff.c:53-65 | storing is invisible until the pointer moves, and then appends |
| RingBuffer.LoadThenAdvance | software/module/lib/rbuff/rbuff.c:40-51 | the element at the read pointer is the oldest, and moving the pointer drops it |
| RingBuffer.RingBuffer.Write | software/module/lib/rbuff/rbuff.c:53-65 | appends as much as fits and says how much |
| RingBuffer.RingBuffer.Read | software/module/lib/rbuff/rbuff.c:40-51 | removes and returns the oldest elements |
| RingBuffer.RingBuffer.Peek | software/module/lib/rbuff/rbuff.c:105-126 | returns them and restores the pointer |
| RingBuffer.RingBuffer.CountUsed | software/module/lib/rbuff/rbuff.c:83-89 | the number of elements |
| RingBuffer.RingBuffer.CountFree | software/module/lib/rbuff/rbuff.c:91-96 | how many more fit; one place stays empty |
| RingBuffer.RingBuffer.Flush | software/module/lib/rbuff/rbuff.c:98-103 | afterwards it is empty |
| UartMachine.StepKeepsInv | software/module/lib/uart_driver/uart_driver.c:70-86 | every statement, interrupt and hardware step keeps the invariant |
| UartMachine.NothingLostOrReordered | software/module/lib/uart_driver/uart_driver.c:28-86 | in every interleaving wire, transfer in flight and ring are the accepted bytes in order; an idle driver has an empty ring |
| UartMachine.DmaBufferIsStable | software/module/lib/uart_driver/uart_driver.c:76-86 | during a transfer nobody writes its buffer |
| UartMachine.WriteAcceptsPrefix | software/module/lib/uart_driver/uart_driver.c:28-33 | at every moment of a write the accepted bytes are those before it and a prefix of its data |
| UartMachine.WriteReturnsCount | software/module/lib/rbuff/rbuff.c:53-65 | when its loop ends the count is all of the data or the ring is full, and the accepted bytes are exactly those counted |
| UartMachine.AcceptedOnlyByWrites | software/module/lib/uart_driver/uart_driver.c:28-86 | no other statement, interrupt or transfer accepts a byte, so the count returned stays right |
| UartMachine.CallsTerminate | software/module/lib/uart_driver/uart_driver.c:28-33 | a write ends after boundedly many of its own statements, whatever preempts it |
| UartMachine.EveryByteGetsOut | software/module/lib/uart_driver/uart_driver.c:70-87 | while no new call comes only boundedly many steps are possible, in any order, and where none is possible any more every accepted byte is on the wire |
| UartDriver.StepsImplementWrite | software/module/lib/uart_driver/uart_driver.c:28-33 | the machine without interruption ends a write where the method ends it: ring, flag, DMA buffer and accepted bytes |
| UartDriver.InterruptImplementsComplete | software/module/lib/uart_driver/uart_driver.c:70-74 | and its interrupt does what the method for it does |
| UartDriver.UartDriver.UpdateTxDmaBuffer | software/module/lib/uart_driver/uart_driver.c:76-86 | moves what fits, or nothing while busy |
| UartDriver.UartDriver.Write | software/module/lib/uart_driver/uart_driver.c:28-33 | accepts what fits, in order |
| UartDriver.UartDriver.TxDmaTransferComplete | software/module/lib/uart_driver/uart_driver.c:70-74 | goes on with what is left and is busy exactly if there was any |
| MessageBuffer.LengthRoundTrip | software/module/lib/puya_libs/FreeRTOS/stream_buffer.c:837-848 | the stored length reads back |
| MessageBuffer.DecodeFrames | software/module/lib/puya_libs/FreeRTOS/stream_buffer.c:824-871 | framed messages decode to the messages |
| MessageBuffer.StepKeepsInv | software/module/lib/puya_libs/FreeRTOS/stream_buffer.c:824-871 | every step of writer or reader keeps the invariant |
| MessageBuffer.FirstInFirstOut | software/module/lib/puya_libs/FreeRTOS/stream_buffer.c:1248-1356 | in every interleaving the bytes between tail and head decode to the messages sent and not yet received |
| MessageBuffer.StepsAreAtomic | software/module/lib/puya_libs/FreeRTOS/stream_buffer.c:824-871 | a send adds one whole non-empty message or nothing; a receive takes the oldest or nothing |
| MessageBuffer.RoomDecides | software/module/lib/puya_libs/FreeRTOS/stream_buffer.c:1075-1124 | a receive changes nothing if and only if its buffer is too small |
| MessageBuffer.StepsImplementSend | software/module/lib/puya_libs/FreeRTOS/stream_buffer.c:824-871 | the machine without interruption stores what the method stores |
| MessageBuffer.StepsImplementReceive | software/module/lib/puya_libs/FreeRTOS/stream_buffer.c:1075-1124 | and takes and leaves what the method does |
| MessageBuffer.StreamBuffer.SpacesAvailable | software/module/lib/puya_libs/FreeRTOS/stream_buffer.c:597-627 | the free bytes; one place stays empty |
| MessageBuffer.StreamBuffer.BytesInBuffer | software/module/lib/puya_libs/FreeRTOS/stream_buffer.c:1338-1356 | the bytes held |
| MessageBuffer.StreamBuffer.WriteBytesToBuffer | software/module/lib/puya_libs/FreeRTOS/stream_buffer.c:1248-1291 | the two-piece copy stores byte i at place i around the ring |
| MessageBuffer.StreamBuffer.ReadBytesFromBuffer | software/module/lib/puya_libs/FreeRTOS/stream_buffer.c:1294-1335 | and reads it from there |
| MessageBuffer.StreamBuffer.WriteMessageToBuffer | software/module/lib/puya_libs/FreeRTOS/stream_buffer.c:824-871 | a whole framed message or nothing; for a stream as many bytes as fit |
| MessageBuffer.StreamBuffer.ReadMessageFromBuffer | software/module/lib/puya_libs/FreeRTOS/stream_buffer.c:1075-1124 | the oldest message, or nothing and no change |
| MessageBuffer.StreamBuffer.Send | software/module/lib/puya_libs/FreeRTOS/stream_buffer.c:642-770 | the send path without blocking |
| MessageBuffer.StreamBuffer.Receive | software/module/lib/puya_libs/FreeRTOS/stream_buffer.c:874-975 | the receive path without blocking, in terms of whole messages |
| Queue.WriteSlotLaw | software/module/lib/puya_libs/FreeRTOS/queue.c:2175-2256 | each operation keeps write slot = (read slot + count + 1) mod length |
| Queue.CopyChangesOneSlot | software/module/lib/puya_libs/FreeRTOS/queue.c:2175-2256 | copying an item into the byte store changes one slot |
| Queue.Queue.Reset | software/module/lib/puya_libs/FreeRTOS/queue.c:296-360 | the queue is empty |
| Queue.Queue.CopyDataToQueue | software/module/lib/puya_libs/FreeRTOS/queue.c:2175-2256 | append, prepend or replace on the byte store |
| Queue.Queue.CopyDataFromQueue | software/module/lib/puya_libs/FreeRTOS/queue.c:2258-2276 | the next item |
| Queue.Queue.Send | software/module/lib/puya_libs/FreeRTOS/queue.c:835-1044 | accepted if and only if there is room or it overwrites |
| Queue.Queue.Receive | software/module/lib/puya_libs/FreeRTOS/queue.c:1378-1518 | takes the first item if there is one |
| Queue.Queue.Peek | software/module/lib/puya_libs/FreeRTOS/queue.c:1731-1879 | the first item, with nothing changed |
| Queue.RunCalls | software/module/lib/puya_libs/FreeRTOS/queue.c:2175-2276 | any sequence of calls on the byte store, or on the count alone for items of no bytes, returns and leaves what it does on a sequence of items |
| Queue.BackSendsAreFifo | software/module/lib/puya_libs/FreeRTOS/queue.c:2175-2276 | with sends to the back only, what comes out and what is left is what was accepted, in order |
| Queue.FrontComesNext | software/module/lib/puya_libs/FreeRTOS/queue.c:2217-2229 | what is sent to the front comes out next, and then the queue is as before |
| Queue.BackComesLast | software/module/lib/puya_libs/FreeRTOS/queue.c:2203-2216 | what is sent to the back stays behind all that was there |
| Queue.OtherCalls | software/module/lib/puya_libs/FreeRTOS/queue.c:2175-2276 | overwriting leaves the new item alone, peeking leaves the items, a reset none, and a full queue takes nothing |
| EventGroup.ValueUnpacks | software/module/lib/puya_libs/FreeRTOS/event_groups.c:317-470 | the control bits packed into the list item's value read back |
| EventGroup.OrderDoesNotMatter | software/module/lib/puya_libs/FreeRTOS/event_groups.c:533-626 | who is released and which bits remain does not depend on the order of the list |
| EventGroup.NobodyLost | software/module/lib/puya_libs/FreeRTOS/event_groups.c:533-626 | every waiter is released or still waits |
| EventGroup.SetReleasesExactlySatisfied | software/module/lib/puya_libs/FreeRTOS/event_groups.c:533-626 | exactly those satisfied by the old bits with the new ones are released |
| EventGroup.SetClearsExactly | software/module/lib/puya_libs/FreeRTOS/event_groups.c:533-626 | bit by bit, of the old and new bits exactly those go that a released waiter with clear-on-exit has waited for |
| EventGroup.ConditionIs | software/module/lib/puya_libs/FreeRTOS/event_groups.c:694-735 | bit by bit, waiting for all is waiting for each bit, and waiting for any is waiting for one of them |
| EventGroup.PackedWords | software/module/lib/puya_libs/FreeRTOS/event_groups.c:58-60 | the words on the list, and the mark of a released task, on values |
| EventGroup.CallKeepsInv | software/module/lib/puya_libs/FreeRTOS/event_groups.c:194-626 | every call keeps "no blocked waiter is satisfied" |
| EventGroup.NoBlockedTaskIsSatisfied | software/module/lib/puya_libs/FreeRTOS/event_groups.c:194-626 | so it holds in every reachable state |
| EventGroup.RendezvousFills | software/module/lib/puya_libs/FreeRTOS/event_groups.c:194-314 | before the last arrival all who came are blocked behind those who wait for other bits |
| EventGroup.RendezvousCompletes | software/module/lib/puya_libs/FreeRTOS/event_groups.c:194-314 | the last arrival releases exactly the tasks of the rendezvous, and the group, with everybody else who waits, is as it was before |
| EventGroup.MatchIsSatisfied | software/module/lib/puya_libs/FreeRTOS/event_groups.c:560-590 | the set loop's test agrees with the wait condition |
| EventGroup.EventGroup.SetBits | software/module/lib/puya_libs/FreeRTOS/event_groups.c:533-626 | the new state and the tasks woken, with the bits each gets |
| EventGroup.EventGroup.ClearBits | software/module/lib/puya_libs/FreeRTOS/event_groups.c:473-498 | exactly the given bits go, the old ones are returned |
| EventGroup.EventGroup.WaitBits | software/module/lib/puya_libs/FreeRTOS/event_groups.c:317-470 | returns or blocks; exactly the wanted bits are cleared if the condition is met and clearing was asked for, else none; a task that blocks stands last, and its list item reads back as what it waits for |
| EventGroup.EventGroup.Sync | software/module/lib/puya_libs/FreeRTOS/event_groups.c:194-314 | completes the rendezvous or blocks |
| EventGroup.EventGroup.Resume | software/module/lib/puya_libs/FreeRTOS/event_groups.c:270-305 | the end of a wait that timed out; exactly the wanted bits go if the condition holds by then and clearing was asked for, else none |
| FlapWheel.WrapIsResidue | software/module/app/inc/openflap.h:59-62 | the double remainder of C is the residue, for negative numbers too |
| FlapWheel.TableIsMovement | software/module/app/src/openflap.c:53-56 | for all pairs of readings the table gives 0 when no channel changes, 2 when both do, and 1 or -1 for the next or previous of the four phases |
| FlapWheel.MovementIsPhase | software/module/app/src/openflap.c:53-69 | over any run without an impossible reading the net movement is the difference of the last and first phase, modulo 4 |
| FlapWheel.RestCountsNothing | software/module/app/src/openflap.c:53-92 | over any run in which the channels do not change, position, distance and counter stay |
| FlapWheel.ImpossibleReading | software/module/app/src/openflap.c:68-75 | a reading with both channels changed neither counts nor homes |
| FlapWheel.CountsRunningMaximum | software/module/app/src/openflap.c:53-92 | between homings the slots counted are the running maximum of the shaft's movement, and the counter is how far it is behind |
| FlapWheel.CounterStaysBehindIff | software/module/app/src/openflap.c:84-84 | the counter never becomes positive if and only if the shaft is never more than 128 steps behind |
| FlapMotion.TurnedBackTooFar | software/module/app/src/openflap.c:84-87 | a failing run for every wheel: turned back until 129 behind the counter is 127, and the very next step forward is counted |
| FlapWheel.PositionAdvances | software/module/app/src/openflap.c:146-151 | between homings the position is the slots counted, around the wheel |
| FlapMotion.CommandSetsLeastDistance | software/module/app/src/property_handlers.c:111-120 | the distance is the least that ends at the character and is not below the minimum rotation, also in the middle of an extended turn |
| FlapMotion.OneSlotNearer | software/module/app/src/openflap.c:96-108 | an increment lowers the distance by one, and from zero starts the next turn |
| FlapMotion.LeavesPosition | software/module/app/src/openflap.c:146-160 | the position before stays known, one slot behind a counted one |
| FlapMotion.DistanceCountsDown | software/module/app/src/openflap.c:96-108 | over any run of samples the distance is the commanded one less the slots counted |
| FlapMotion.CommandArrives | software/module/app/src/property_handlers.c:111-120 | zero is reached when the shaft has gone forward by the distance, between the minimum rotation and 94 slots, and only at the character |
| FlapMotion.FullTurnNeverEnds | software/module/app/src/openflap.c:100-106 | with a minimum rotation of 48 the distance stays at 48 or more in every run of samples, with homing or without |
| FlapMotion.ArrivesIff | software/module/app/src/openflap.c:96-108 | whatever the counter, some run of samples completes a command if and only if the minimum rotation is at most 47 |
| FlapMotion.NoSecondHoming | software/module/app/src/openflap.c:78-90 | after homing, no homing before an increment lands past the fifth slot |
| FlapMotion.LockedOutIff | software/module/app/src/openflap.c:78-90 | homing stays locked out if and only if no counted slot has landed past the fifth; after that the next zero mark homes |
| FlapMotion.PositionSinceHoming | software/module/app/src/openflap.c:155-160 | after homing the position is the offset plus the running maximum since, whatever it was before; homing is then locked out |
| FlapMotion.FlapModule.DistanceUpdate | software/module/app/src/openflap.c:96-108 | the context after the update |
| FlapMotion.FlapModule.EncoderIncrement | software/module/app/src/openflap.c:146-151 | the context after an increment |
| FlapMotion.FlapModule.EncoderZero | software/module/app/src/openflap.c:155-160 | the context after homing |
| FlapMotion.FlapModule.EncoderPositionUpdate | software/module/app/src/openflap.c:53-92 | the decoder and context after a sample |
| FlapMotion.FlapModule.Count | software/module/app/src/openflap.c:79-90 | its branches: home, wind the counter, advance |
| FlapMotion.FlapModule.PropertyCharacterSet | software/module/app/src/property_handlers.c:111-120 | the context after a command, with a distance that fits |
| FlapMotion.FlapModule.PropertyMinimumRotationSet | software/module/app/src/property_handlers.c:129-137 | the stored value, limited to 48 |
| Interpolation.FindCell | software/module/lib/interpolation/interpolation.c:89-109 | bisection finds the cell that a walk along the axis finds |
| Interpolation.LinearCompute | software/module/lib/interpolation/interpolation.c:29-63 | refines the specification by walking |
| Interpolation.LinearExact | software/module/lib/interpolation/interpolation.c:29-63 | exact at the support points |
| Interpolation.LinearIsOnLine | software/module/lib/interpolation/interpolation.c:54-62 | in a cell the rise is the cell's rise times the covered share, cut off toward zero |
| Interpolation.LinearWithinCell | software/module/lib/interpolation/interpolation.c:54-62 | between the values at the ends of the cell |
| Interpolation.LinearMonotone | software/module/lib/interpolation/interpolation.c:29-63 | rising data give a rising result, across cells and beyond the ends |
| Interpolation.LinearNegated | software/module/lib/interpolation/interpolation.c:61-62 | truncation is symmetric, so falling data behave alike |
| Interpolation.BilinearCompute | software/module/lib/interpolation/interpolation.c:65-136 | refines the specification by walking |
| Interpolation.BilinearTransposed | software/module/lib/interpolation/interpolation.c:111-135 | the two axes can be exchanged |
| Interpolation.BilinearWithinCell | software/module/lib/interpolation/interpolation.c:111-135 | between the smallest and the largest corner of the cell |
| Interpolation.BilinearExact | software/module/lib/interpolation/interpolation.c:65-136 | exact at the grid points |
| Interpolation.BilinearIsWeighted | software/module/lib/interpolation/interpolation.c:111-135 | the corners' mean, each weighed by the opposite area, cut off toward zero |
| Interpolation.BilinearClamped | software/module/lib/interpolation/interpolation.c:65-110 | beyond an axis the result is that at its end |
| Interpolation.BilinearOnColumn | software/module/lib/interpolation/interpolation.c:111-135 | on a grid line the neighbouring lines do not matter, so both cells beside it agree |
| Interpolation.BilinearMonotone | software/module/lib/interpolation/interpolation.c:65-136 | rising along the first axis if the table is, across cells |
| Interpolation.BilinearMonotoneSecond | software/module/lib/interpolation/interpolation.c:65-136 | and along the second |
| Interpolation.ColumnIsLinear | software/module/lib/interpolation/interpolation.c:29-136 | on a grid line with nonnegative nondecreasing data the two interpolations agree exactly |
| Interpolation.ColumnIsLinearIff | software/module/lib/interpolation/interpolation.c:29-136 | for any data the two agree on a grid line if and only if nothing is cut off in the cell or both dividends have the same sign |
| Interpolation.TablesThatDiffer | software/module/lib/interpolation/interpolation.c:62-62 | two tables on which they do not: rising below zero, and falling above zero |
| Interpolation.LinearFits | software/module/lib/interpolation/interpolation.c:54-62 | with 32-bit differences the product needs 64 bits, quotient and result 32 |
| Interpolation.BilinearFits | software/module/lib/interpolation/interpolation.c:124-135 | no term and no partial sum exceeds the largest corner times the area of the cell |
| Control.AntiWindupSaturates | software/module/lib/pid/pid.c:31-38 | back-calculation by truncating division is saturation to exactly the integrals within the limits |
| Control.OutputIs | software/module/lib/pid/pid.c:19-51 | the output is a thousandth of the weighted sum of error, integral and change, cut off toward zero and limited; it is at a limit exactly when the sum is at or beyond it |
| Control.OutputMonotone | software/module/lib/pid/pid.c:19-51 | with gains that are not negative a larger error never gives a smaller output |
| Control.PidController.Compute | software/module/lib/pid/pid.c:19-51 | the new state, for any gains, limits and error with which nothing overflows 32 bits and nothing is divided by zero |
| Control.PidController.Unwound | software/module/lib/pid/pid.c:31-38 | the back-calculated integral, for limits and gains of any sign |
| Control.PidController.IntegralLimits | software/module/lib/pid/pid.c:53-67 | the limits and the integral brought within them |
| Control.PidController.OutputLimits | software/module/lib/pid/pid.c:69-80 | the limits and the output brought within them |
| Control.TunedStaysTuned | software/module/lib/pid/pid.c:19-51 | the shipped gains never overflow, and integral, error and output stay in range |
| Control.FasterWhenFarther | software/module/app/src/openflap.c:245-257 | the speed setpoint does not fall with the distance and is 0 exactly at 0 |
| Control.SetpointIs | software/module/app/src/openflap.c:245-257 | 18 close to the flap, 75 from six pulses on, on a line in between |
| Control.DecayFalls | software/module/app/src/openflap.c:175-178 | the decay is 1000 at rest, 650 up to speed 30, 0 from 60 on, and falls in between |
| Control.FeedForwardRises | software/module/app/src/openflap.c:181-182 | the feed-forward rises with the speed and with the decay |
| Control.FeedForwardAtEnds | software/module/app/src/main.c:25-37 | it is 0 at rest and 900 at full speed |
| Control.FeedForwardInRange | software/module/app/src/openflap.c:181-184 | the shipped table gives 0 to 900 |
| Control.FeedForwardFits | software/module/lib/interpolation/interpolation.c:124-135 | with the shipped tables every intermediate sum stays within 6.75 million |
| Control.FilterStaysBetween | software/module/app/src/openflap.c:227-241 | the filtered speed lies between the old one and the measured one, which is in 0 to 100000 |
| Control.FilterIs | software/module/app/src/openflap.c:230-236 | seven parts of the old speed and one of the measured one, cut off toward zero |
| Control.ElapsedIs | software/module/app/src/openflap.c:232-232 | less than half a wrap apart the 32-bit difference is the difference of the unbounded times |
| Control.StandstillIff | software/module/app/src/openflap.c:237-240 | the speed is reset exactly from 200 ticks after the last change on, if and only if the counter does not overflow in the stated ways |
| Control.SpeedDefinedIff | software/module/app/src/openflap.c:230-234 | the speed calculation neither overflows nor divides by zero if and only if the wrapped tick difference is 1 to 44739242 in absolute value |
| Control.UndefinedAfterRest | software/module/app/src/openflap.c:230-234 | failing ticks: 44739243 after the change before, and none |
| Control.NegativeAfterLongerRest | software/module/app/src/openflap.c:232-234 | after almost a whole wrap the speed comes out negative |
| Control.CommandInRange | software/module/app/src/openflap.c:164-207 | speed and decay fit the 16-bit arguments |
| Control.RegulationIs | software/module/app/src/openflap.c:171-190 | in regulation the drive is the table's, corrected by a thousandth of 6000 times the error and 6 times the integral, within 1000 |
| Control.NotRegulated | software/module/app/src/openflap.c:192-207 | else the motor is overridden, driven backwards with full decay, or left alone |
| Control.RegularIs | software/module/app/src/openflap.c:186-190 | a positive correction adds to the speed, a negative one adds four times itself to the decay |
| Control.SlowerIsDrivenHarder | software/module/app/src/openflap.c:164-207 | a wheel measured slower is never driven less, nor braked more |
| Control.SpeedStaysInRangeIff | software/module/app/src/openflap.c:227-241 | the calculation is defined with a result in 0 to 100000 if and only if the tick difference is positive and small enough, or negative and outweighed by the filter |
| Control.StepStaysInRange | software/module/app/src/openflap.c:164-257 | every event keeps the ranges |
| Control.RunStaysInRange | software/module/app/src/openflap.c:164-257 | so they hold over every run |
| Control.BackspinLasts25Ticks | software/module/app/src/openflap.c:192-207 | after arrival the duty cycles are 650 and 1000, backwards, for exactly 25 ticks, and then both 0 |
| Control.MotionControl.constructor | software/module/app/src/main.c:74-94 | the shipped setup is within the ranges |
| Control.MotionControl.EncoderSpeedCalc | software/module/app/src/openflap.c:227-241 | the new state, without overflow; the ranges are kept exactly under the stated condition |
| Control.MotionControl.SpeedSetpointSetFromDistance | software/module/app/src/openflap.c:245-257 | the setpoint of the distance |
| Control.MotionControl.MotorControlLoop | software/module/app/src/openflap.c:164-207 | the new state and duty cycles, without overflow |
| HBridge.MotorControl | software/module/app/src/openflap_hal.c:166-192 | both duties are at most 1000 and differ by exactly the limited speed, in its direction |
| HBridge.SplitIsExact | software/module/app/src/openflap_hal.c:185-187 | the two truncated products differ by exactly the duty |
| HBridge.DecayIsShared | software/module/app/src/openflap_hal.c:166-192 | both halves are on for the decay's share of the time in which the speed is not driven; a higher decay never shortens it |
| HBridge.RunningIff | software/module/app/src/openflap_hal.c:196-199 | the motor reads as running if and only if it has power and a speed |
| Properties.CompareMeansSameBytes | software/controller/components/openflap_property_handlers/openflap_property_handlers.c:164-188 | values that compare equal are serialised equal, for every property with both handlers |
| Properties.SameBytesCompare | software/controller/components/openflap_property_handlers/openflap_property_handlers.c:470-493 | and values that are serialised equal compare equal |
| Properties.WireFormat | software/controller/components/openflap_property_handlers/openflap_property_handlers.c:139-152 | which properties have bytes, and which bytes in which order |
| Properties.TwoBytesRoundTrip | software/controller/components/openflap_property_handlers/openflap_property_handlers.c:1148-1182 | a signed threshold survives its two bytes |
| Properties.ReadBack | software/controller/components/openflap_property_handlers/openflap_property_handlers.c:325-375 | reading what another module wrote gives the other's value |
| Properties.ReadLeavesOthers | software/controller/components/openflap_property_handlers/openflap_property_handlers.c:325-346 | and leaves every other property and all flags alone |
| Properties.ReadOnlyChanges | software/controller/components/openflap_property_handlers/openflap_property_handlers.c:325-346 | so a read stores a change of that property only |
| Display.BroadcastMeansAllAlike | software/controller/components/openflap_display/openflap_display.c:242-263 | with BROADCAST every module is pending and has the same bytes |
| Display.AllAlikeMeansBroadcast | software/controller/components/openflap_display/openflap_display.c:242-263 | when that is so, the answer is BROADCAST if and only if the display has 1 to 32767 modules |
| Display.TooManyToBroadcast | software/controller/components/openflap_display/openflap_display.c:254-254 | 32767 equal modules are written by broadcast, 32768 are not |
| Display.BroadcastIsSeparateWrites | software/controller/components/openflap_display/openflap_display.c:242-263 | one shared write leaves all modules as separate writes, whatever a module does with the bytes |
| Display.DoneLeavesOthers | software/controller/components/openflap_display/openflap_display.c:267-271 | finishing properties does not change what the others require |
| Display.PassDelivers | software/controller/components/openflap_mdl_master/openflap_mdl_master.c:152-184 | whatever earlier communications read or found missing, the action taken when the pass comes to a property gives a module that is still there the bytes it had before the pass, unless the property is also to be read |
| Display.PassClearsFlags | software/controller/components/openflap_mdl_master/openflap_mdl_master.c:152-184 | exactly the flags of the properties before the first that fails three times are cleared, for any effect the communications have; modules that join have none |
| Display.GrowthForbidsBroadcast | software/controller/components/openflap_display/openflap_display.c:242-260 | after a module has joined during the pass nothing is broadcast |
| Display.ReadAgrees | software/controller/components/openflap_property_handlers/openflap_property_handlers.c:325-375 | after a read, a module whose answer was stored by its reader agrees with the real one; a write stores nothing |
| Display.LogIs | software/controller/components/openflap_mdl_master/openflap_mdl_master.c:152-184 | what is communicated is each flagged property before the first failure, with what the display requires when the pass comes to it |
| Display.Display.ResizeTo | software/controller/components/openflap_display/openflap_display.c:174-209 | the kept modules, new ones with no flags |
| Display.Display.ModuleIndicateDesynchronized | software/controller/components/openflap_module/openflap_module_property.c:10-20 | a separate write of the property now includes the module with its value, and every other property is as before |
| Display.Display.IndicateDesynchronized | software/controller/components/openflap_display/openflap_display.c:91-108 | the next pass does something about the property, and reads it if that was asked |
| Display.Display.PropSyncDone | software/controller/components/openflap_display/openflap_display.c:112-125 | the property's flags are cleared everywhere, nothing else |
| Display.Display.PropSyncRequired | software/controller/components/openflap_display/openflap_display.c:242-263 | the loop decides exactly the specified action |
| Display.Display.SynchronizePass | software/controller/components/openflap_mdl_master/openflap_mdl_master.c:152-184 | the display after a pass, the communications in order, and the property that failed, for any link and any effect of the communications |
| Display.Display.Communicate | software/controller/components/openflap_mdl_master/openflap_mdl_master.c:167-174 | succeeds if and only if one of three attempts does; the effect takes place either way |
| Display.Display.StoreFirmwarePage | software/controller/components/module_api/module_api_firmware_endpoints.c:29-49 | every module has the page pending, and the next synchronisation is a broadcast |
| InStep.StepKeepsInv | software/controller/components/openflap_mdl_master/openflap_mdl_master.c:152-184 | every step of a request, the communicating or clearing task, a report or a resize keeps the invariant |
| InStep.FlagsDecide | software/controller/components/openflap_display/openflap_display.c:242-263 | what is flagged for reading is read next, what is only flagged for writing is written |
| InStep.GivenUpIsRetried | software/controller/components/openflap_mdl_master/openflap_mdl_master.c:179-183 | what could not be communicated stays flagged and can be communicated again |
| InStep.NobodyIsStuck | software/controller/components/openflap_mdl_master/openflap_mdl_master.c:144-192 | in every reachable state a request and a reader are served, and the task can go on: with the next module, to the end of the communication or of the clearing |
| InStep.SucceededIsDone | software/controller/components/openflap_mdl_master/openflap_mdl_master.c:176-178 | what was communicated is not required any more |
| InStep.PendingIsKnown | software/controller/components/openflap_module/openflap_module_property.c:10-34 | in every interleaving, at rest a pending module implies the flag of the display |
| InStep.ModulesAreInStep | software/controller/components/openflap_mdl_master/openflap_mdl_master.c:162-178 | in every interleaving a real module holds what the model says of every property sent or read, unless a write is pending or was lost |
| LostWrites.CommunicationExists | software/controller/components/openflap_mdl_master/openflap_mdl_master.c:152-178 | every clearing belongs to one communication started before it |
| LostWrites.LostIff | software/controller/components/openflap_mdl_master/openflap_mdl_master.c:162-178 | when the flag of a pending write is cleared, the write is lost if and only if its request came after its bytes were taken: after the last visit for separate writes, after the comparison for a broadcast or with module 0 changed in between, always for a read |
| LostWrites.LostOnlyByClearing | software/controller/components/openflap_module/openflap_module_property.c:24-34 | nothing else loses a write, and only a new request or removal ends it |
| LostWriteRuns.LostWhileTalking | software/controller/components/openflap_mdl_master/openflap_mdl_master.c:171-178 | a failing run from the start: a whole request during the communication leaves no flag and the old value in the module |
| LostWriteRuns.LostWhileClearing | software/controller/components/openflap_display/openflap_display.c:112-125 | a failing run from the start: a request during the clearing leaves the display flagged and the module not |
| LostWriteRuns.WrongValueBroadcast | software/controller/components/openflap_display/openflap_display.c:250-260 | a failing run from the start: a change of module 0 after the comparison is broadcast to the others |
| LostWriteRuns.WriteArrives | software/controller/components/openflap_mdl_master/openflap_mdl_master.c:152-184 | a run in which nothing is lost: a request for one module of two reaches that module alone and leaves no flag |

## Left out

- The madelink wire protocol, cJSON, the network stack and the register layer: their sources are not part of this model; what they return or store is a parameter.
- The task scheduler, priorities, queue locks for interrupts and queue sets; blocking is membership in a list of waiters.
- `croutine.c`, which repeats the two-list scheme of the timers.
- The CRC unit is modelled by its software definition, the one in `local_ota.py`.
- Flash programming that fails and is retried for ever: a program or erase succeeds or is cut by power loss.
- Flash.FlashDevice.Write: for addresses on a page boundary, as all callers use; what programming a page elsewhere does depends on the flash controller, whose source is not part of this model.
- Flash.FlashDevice.WritePage: for addresses on a page boundary, as Flash.FlashDevice.Write.
- Ota.PropertyFirmwareSet: the module does not check the page number; the contract asks for a page inside the flash, because what programming beyond its end does depends on the flash controller.
- Ota.UploadWritesImage: for files of whole pages that fit the slot; a short last chunk is the subject of Ota.ShortChunkIndex.
- Ota.UploadedImageIsRun: for pages that were delivered in order; Upload.UploadIsRun is about the upload itself.
- Upload.UploadedIff: for a module that every communication finds on the chain, and for an upload that nothing else interrupts: the web server handles one request at a time, so no other request sets the bits or the model meanwhile.
- In Handshake the communication of one property is one step of the task; Synchronisation has its finer steps. The wait's timeout comes at any moment at which the bit is clear.
- Timers.TimerDaemon.Handle: the commands start, reset, stop, change of period and deletion of statically allocated timers; a deletion that frees the timer and pended function calls are not modelled.
- Timers.TimerDaemon.HandleAll: for such commands, as Timers.TimerDaemon.Handle.
- Timers.TimerDaemon.RunDaemon: assumes that the daemon gets to run less than a wrap after it last read the ticks, unless no timer is active; pended function calls and changes of the reload mode are not modelled.
- UartDriver.UartDriver.Write: the count and the ring for calls that are not interrupted; the machine has the interrupts.
- The ring buffer whose write pointer is the DMA channel's (the receive side of the serial driver): the hardware moves it.
- MessageBuffer.StreamBuffer.Send: does not wait, and does not wake a reader at its trigger level.
- MessageBuffer.StreamBuffer.Receive: does not wait, and does not wake a writer.
- Queue.Queue.Reset: does not wake a sender that waits, and keeps no interrupt locks.
- Queue.Queue.Send: does not wait, and does not wake a receiver.
- Queue.Queue.Receive: does not wait, and does not wake a sender.
- Queue.Queue.Peek: does not wait, and does not wake the next receiver.
- Queue.RunCalls: overwriting is for queues of one item with at least one byte; a mutex's owner is not modelled.
- EventGroup.RendezvousCompletes: for a rendezvous whose bits nobody else waits for and that are clear when it begins.
- EventGroup.RendezvousFills: for such a rendezvous, as EventGroup.RendezvousCompletes.
- The bisection that the interpolation functions repeat in line is one method, Interpolation.FindCell.
- Interpolation.LinearCompute: its values are unbounded integers here; Interpolation.LinearFits bounds the intermediate ones.
- Interpolation.BilinearCompute: its values are unbounded integers here; Interpolation.BilinearFits bounds the intermediate ones.
- Control.FilterStaysBetween: for tick differences of 1 to 44739242; Control.SpeedDefinedIff states where the calculation is defined at all.
- Control.StepStaysInRange: for tick values that meet the condition of Control.SpeedStaysInRangeIff.
- Control.RunStaysInRange: for such tick values, as Control.StepStaysInRange.
- Control.MotionControl.EncoderSpeedCalc: for tick differences for which the calculation is defined.
- The setpoint `encoder_rps_x100_setpoint` can be overridden for debugging; the model takes it from the distance.
- FlapMotion.DistanceCountsDown: for a minimum rotation that is not changed during the travel, and encoder offsets below 48.
- Offset re-basing (`property_offset_set` and the offset reset command): no property here rests on it.
- Digitising the encoder's analog values, idle timeouts of motor and communication, the flag that stores the configuration.
- The flag words of modules and display are sets of property numbers. Setting a module's value and its flag is one step, and so are clearing one flag and comparing the modules for a broadcast.
- A command that is not known, in a JSON request, sets the model's command without flagging it; this change is not an event of Synchronisation.
- Modules are values in a sequence; that two modules may share one reference-counted firmware page or character set is not modelled.
- Allocation failures, and the null pointers they or a module without a value would hand to a serialiser.
- `display_property_promote_write_seq_to_write_all`, which nothing calls.
- The read-only properties firmware version and module info, and all JSON handlers.
