# Verified model of the ds4-translator daemon

ds4-translator reads a physical DualShock 4, hides it from other programs and presents an
emulated controller in its place. This project models the parts of it that are small algorithms
rather than I/O, and proves what they are relied on for:

- **Crc32, CrcNumbers, Reports** - the CRC-32 that guards Bluetooth reports. The lazily built table
  is proved equal to the bit-serial register, that register to be the one of the standard
  (generator, residue, check value), a damaged report to be rejected, and the one hole (an
  identifier damaged into the USB one) is stated exactly.
- **BtOutputPacer** - the rate limiter for rumble and LED reports, as a state machine over its
  critical sections and the scheduler's choices, with a class proved to take exactly those steps.
- **FunctionFsMailbox** - the single-slot hand-off to the endpoint thread and its shutdown, with
  every shared access and every copied byte a step of its own.
- **FunctionFsThreads, SharedMailbox** - when two endpoint threads come to share that slot, and
  when closing the device then hangs.
- **OutputHandlers, HidBpfTransport, OutputPath** - the two output-report handlers, the pump that
  forwards only the newest report, and the whole way from a game's request to the controller.
- **UsbTransport** - the libusb transport: what it holds after every failure, and the protocol of
  pump, watchdog and close.
- **Text, LineProtocol, Tester, WireFormat, ConfigFile** - printf and scanf as used here, the
  live-input line protocol and its stream framing, the virtual-controller tester end to end, what
  stands where on each line, and the config file.
- **IpcQueue** - the UI's request queue and the controller that re-enters it from the reply slot.
- **Timing** - the daemon's timing windows and the UI's measurement over three of them.
- **Controller, DaemonLoop, Daemon** - the daemon's main loop as a state machine, and as the
  step-by-step code proved to compute it.
- **LoopEffects** - for every variable of the loop, exactly which events of an iteration change it,
  across all phases.
- **DaemonRuns, HotSwapLedger, BluetoothDrivers** - what every run of the loop guarantees: the grace
  window, and exactly which Bluetooth devices are without their driver.
- **VirtualDevices, GraceWindow, DaemonLimits** - exactly where the guarantees end: two virtual
  devices at once, a window with no device or another's device in it, a stale type, two pads. Each
  comes with a run from the start that gets there.

The environment (kernel, host, sockets, clock, scheduler) appears as arbitrary inputs: a
non-deterministic choice in a method, an event in a run, or a field of `DaemonLoop.Input`.
A 32-bit word is a sequence of 32 booleans, least significant first. Integer widths that the code
wraps are wrapped in the model. Fields and variables marked as history record what happened; no
step reads them.

Where code and intention differ, the model follows the code:

- a Bluetooth report whose identifier byte is damaged into 0x01 is accepted as a USB report,
  unchecked (`Reports.DamagedReport`, `Reports.OneBitTurnsBluetoothIntoUsb`);
- a submission after the pacer's `stop()` is delivered only if it need not be throttled, else it
  stays parked (`BtOutputPacer.DeliveredAfterStopIff`, `BtOutputPacer.ParkedRun`);
- the two output handlers treat a report differently while no controller is connected
  (`OutputHandlers.HandlersDifferIff`, `OutputHandlers.RumbleWithoutPad`);
- the UI takes a minimum of zero for "nothing yet", its 32-bit sum can wrap, and it weights
  latencies by intervals (`Timing.MinIsExactIff`, `Timing.MeanIsAccurateIff`,
  `Timing.LatencyIsRightIff`, with an example beside each);
- `set-backend` can also change the type (`DaemonLimits.SetBackendChangesTypeIff`);
- the daemon can lose track of a virtual device, and two can exist at once
  (`VirtualDevices.OrphanLeftIff`, `VirtualDevices.TwoAtOnceIff`);
- the grace window can wait with no device, so that the controller comes back to none, and its
  timer can destroy a standalone device (`GraceWindow.AwaitsNothingIff`,
  `GraceWindow.TimerTakesWaitingIff`);
- a FunctionFS device can be created over a live one, whose threads are never joined, and closing
  it can hang (`FunctionFsThreads.StrayLeftIff`, `SharedMailbox.CloseReturnsIff`);
- with two Bluetooth pads a hot-swap forgets one of them (`HotSwapLedger.NothingIsForgottenIff`,
  `DaemonLimits.TwoPadsRun`).

## Model

| member | source | states |
|---|---|---|
| Crc32.CrcTable.Initialize | src/main.cpp:96-111 | once filled, every slot of the cached table is eight register steps of its index |
| Crc32.CrcTable.Calculate | src/main.cpp:95-119 | for every seed and message the table-driven loop returns the bit-serial reflected CRC-32 of the seed byte followed by the data, whether or not the table was filled before; which CRC that is, CrcNumbers says |
| Crc32.TableUpdateIsEightSteps | src/main.cpp:114-117 | one table lookup equals feeding the byte's eight bits to the register |
| Crc32.TableUpdateConsumes | src/main.cpp:114-117 | one turn of the loop consumes exactly one byte of the message |
| Crc32.FeedWord | src/main.cpp:99-118 | up to 32 bits fed one at a time equal mixing them in at once and stepping |
| Crc32.StepIsInvertible | src/main.cpp:101-107 | one register step can be undone, so it is a bijection |
| Crc32.StepsIsInjective | src/main.cpp:99-118 | any number of steps loses no register value |
| Crc32.StepsIsSurjective | src/main.cpp:99-118 | and reaches every register value |
| Crc32.FeedIsInjective | src/main.cpp:115-117 | two different registers stay different under the same data |
| Crc32.BurstDetected | src/main.cpp:2901-2904 | two different messages that differ only inside 32 consecutive bits have different CRCs, for every seed |
| Crc32.ByteWindowDetected | src/main.cpp:2901-2904 | the same for a window of at most four consecutive bytes |
| Crc32.Trailer | src/main.cpp:866-870 | the four trailer bytes, lowest first, hold exactly the word |
| Crc32.AcceptsIffResidue | src/main.cpp:2901-2904 | a message is accepted if and only if feeding it, trailer included, leaves one fixed register value |
| Crc32.CorruptedMessageRejected | src/main.cpp:2901-2905 | an accepted message damaged within 32 consecutive bits, trailer included, is rejected |
| Crc32.FeedIsLinear | src/main.cpp:99-118 | the register is linear: what two streams leave differs by what their difference leaves |
| Crc32.UnnoticedIff | src/main.cpp:2901-2905 | damage to an accepted message passes the check exactly when its bits, fed to the zero register, leave zero, whatever seed and message |
| Crc32.LongestBurstIff | src/main.cpp:2901-2905 | of all damage within 33 consecutive bits exactly one pattern passes, so 32 bits is the whole of the guarantee |
| CrcNumbers.StepRegister | src/main.cpp:101-107 | on a uint32_t the register step is the source's shift, xored with 0xEDB88320 when the lowest bit goes out |
| CrcNumbers.PolyIsGenerator | src/main.cpp:94-104 | the polynomial is the generator of IEEE 802.3, given by its exponents in the order of transmission |
| CrcNumbers.LongestBurstIsGenerator | src/main.cpp:2901-2905 | the one damage within 33 consecutive bits that passes is that generator |
| CrcNumbers.AcceptsIffNumber | src/main.cpp:2901-2904 | a message of any seed and length is accepted if and only if, from 0xFFFFFFFF, it leaves 0xDEBB20E3 |
| CrcNumbers.CheckValue | src/main.cpp:95-119 | the CRC of "123456789", its first digit as the seed, is the published check value 0xCBF43926 |
| Reports.BuildBluetoothReport | src/main.cpp:850-874 | the 78 bytes built are the body for the state and a trailer that the receiving check with seed 0xA2 accepts |
| Reports.OutputCarriesState | src/main.cpp:850-870 | the state read back from a Bluetooth output report is the one it was built for |
| Reports.ClassifyRead | src/main.cpp:2886-2912 | the daemon's decision on a read: USB report, Bluetooth report with a matching CRC, or ignored |
| Reports.TakenAsInputIff | src/main.cpp:2886-2912 | which reads count as input, by length, identifier, and the register the first 78 bytes leave behind the header 0xA1 |
| Reports.OutputIsIntact | src/main.cpp:866-870 | every report sent leaves the register of an intact message behind the header 0xA2 |
| Reports.DamagedReport | src/main.cpp:2886-2912 | a damaged Bluetooth report is never taken as one; it is ignored unless its identifier became 0x01 |
| Reports.OneBitTurnsBluetoothIntoUsb | src/main.cpp:2886-2894 | one flipped bit is enough for that exception, in every accepted report |
| BtOutputPacer.InvHoldsAlways | src/main.cpp:920-1003 | the joint invariant of state, thread and logs holds in every interleaving |
| BtOutputPacer.NewestIsWrittenOrHeld | src/main.cpp:936-958 | from a submission until the next discard or stop, the newest submission is the last one written or the one held |
| BtOutputPacer.WritesFollowSubmissions | src/main.cpp:936-949 | each write carries the newest submission of its time, none is written twice or after a newer one |
| BtOutputPacer.DiscardedIsNeverWritten | src/main.cpp:954-958 | every write after a discard is of something submitted after it |
| BtOutputPacer.DiscardedIsForgotten | src/main.cpp:954-958 | after a discard nothing is held, nothing is written and the descriptor is forgotten until something is submitted again |
| BtOutputPacer.RateIsBounded | src/main.cpp:932-943 | write times are pairwise at least 25,000,000 ns apart and a window of length L holds at most L/25,000,000 + 1 writes |
| BtOutputPacer.HeldReportIsOnItsWay | src/main.cpp:979-1000 | with a state pending the one flush thread is ready or asleep no later than the due time; no wake-up is lost |
| BtOutputPacer.OnlyWritesMoveTheDueTime | src/main.cpp:936-949 | submissions, discards and wake-ups never postpone the due time |
| BtOutputPacer.DueReportIsWritten | src/main.cpp:984-1000 | once due, the thread's next turn writes the newest submission |
| BtOutputPacer.StopEndsTheThread | src/main.cpp:960-970 | after stop() has signalled, the thread never sleeps and its next turn ends it without writing |
| BtOutputPacer.HeldAtStopIsDropped | src/main.cpp:960-965 | from the start, whatever happened before: a submission held when stop() comes is dropped, and whatever is written later was submitted later |
| BtOutputPacer.FirstAfterStopIff | src/main.cpp:936-965 | from the start: the first submission after stop() is ever written if and only if 25,000,000 ns have passed since the last write, whatever was submitted, held or discarded before |
| BtOutputPacer.NoThreadAfterStop | src/main.cpp:979-983 | no thread is started after stop() |
| BtOutputPacer.DeliveredAfterStopIff | src/main.cpp:936-970 | a submission after stop() is ever written if and only if nothing is held and 25 ms have passed since the last write, whatever happens later |
| BtOutputPacer.ThrottledAfterStopIsParked | src/main.cpp:944-949 | one that was throttled stays held until something discards it, and every later one is throttled too |
| BtOutputPacer.ParkedRun | src/main.cpp:936-970 | a run from the start in which a submission is parked so |
| BtOutputPacer.BtOutputPacer.Submit | src/main.cpp:936-949 | the code takes exactly the submit step |
| BtOutputPacer.BtOutputPacer.DiscardPending | src/main.cpp:954-958 | the code takes exactly the discard step |
| BtOutputPacer.BtOutputPacer.StopLocked | src/main.cpp:960-965 | the locked half of stop() is exactly its step |
| BtOutputPacer.BtOutputPacer.StopNotifyOne | src/main.cpp:966-966 | the notifying half of stop() is exactly its step |
| BtOutputPacer.BtOutputPacer.FlushLoop | src/main.cpp:984-1000 | the loop, from taking the mutex until it blocks or ends, is exactly one flush step |
| FunctionFsMailbox.InvHoldsAlways | src/functionfs-backend.c:503-550 | mutual exclusion, contents of the slot and the order of hand-over in every interleaving of single accesses |
| FunctionFsMailbox.ReportsAreHandedOver | src/functionfs-backend.c:503-550 | every report taken is whole, taken once, in staging order; an empty slot means the newest was taken |
| FunctionFsMailbox.PendingIsOnItsWay | src/functionfs-backend.c:503-548 | no wake-up is lost: with a report in the slot of an open device in_loop is awake, can go on whenever the sender is not copying, and each of its steps brings it nearer to taking the report |
| FunctionFsMailbox.NothingTakenAfterClose | src/functionfs-backend.c:507-517 | once the flag is cleared no report is taken but the one being copied just then |
| FunctionFsMailbox.NeverAsleepAfterClose | src/functionfs-backend.c:700-720 | once close has signalled, in_loop is neither in nor entering the condition wait, although the flag is cleared outside the mutex |
| FunctionFsMailbox.CloseTerminates | src/functionfs-backend.c:700-720 | once signalled, in_loop can move whenever close waits for it, each of its steps brings it nearer to returning and nothing sets it back |
| FunctionFsMailbox.CloseReturns | src/functionfs-backend.c:700-720 | from the clearing of the flag on, every schedule of both threads ends within 76 steps and is never stuck before close has returned |
| FunctionFsMailbox.SendIsItsSteps | src/functionfs-backend.c:538-550 | the sender's locked section done at once equals its single steps |
| FunctionFsMailbox.TakeIsItsSteps | src/functionfs-backend.c:508-520 | the same for in_loop's copy out of the slot |
| FunctionFsMailbox.FunctionFsDevice.SendInputReport | src/functionfs-backend.c:538-550 | refused when not configured or too long, otherwise the slot holds the report, marked, and the waiter is signalled |
| FunctionFsMailbox.FunctionFsDevice.Take | src/functionfs-backend.c:508-520 | takes exactly what the slot holds and unmarks it, or nothing |
| FunctionFsThreads.StraysAfterCreate | src/functionfs-backend.c:552-566 | creating leaves unjoined threads behind exactly when it is attempted over a live FunctionFS device |
| FunctionFsThreads.StrayLeftIff | src/main.cpp:2053-2083 | an iteration does so exactly when a reconnect without a waiting device, or create-virtual, comes while a FunctionFS device is there; such threads are never joined |
| FunctionFsThreads.NoStraysIff | src/main.cpp:1962-3219 | over whole runs: every thread is still going to be joined if and only if no iteration did so |
| FunctionFsThreads.OneInLoopIff | src/main.cpp:1627-1776 | the same from the start, for every configuration: then and only then no thread but those of the device in use is left unjoined, so that its mailbox has one in_loop |
| FunctionFsThreads.TwoInLoopsRun | src/main.cpp:2072-2074 | a run from the start to two sets of threads, or to one without a device: a controller returns whose gadget no host had configured |
| SharedMailbox.AlwaysExclusive | src/functionfs-backend.c:503-550 | with two in_loops on one mailbox the mutex still excludes all three threads in every interleaving |
| SharedMailbox.SignalMissesIff | src/functionfs-backend.c:713-715 | the signal of close leaves its own in_loop asleep exactly when both sleep and the stray is woken |
| SharedMailbox.CloseReturnsIff | src/functionfs-backend.c:700-720 | on every schedule without spurious wake-ups close ends within 146 steps, and it has returned if and only if that was not so |
| SharedMailbox.StuckRun | src/functionfs-backend.c:552-566 | a run from initialising over a sleeping in_loop to a close whose signal can go astray |
| OutputHandlers.Handlers.TakeUhid | src/main.cpp:3117-3188 | the three report layouts taken apart agree with a layout-by-layout description of what is asked for; a suppressed colour is dropped once |
| OutputHandlers.Handlers.UhidOutput | src/main.cpp:3117-3211 | new state, suppression flag and sends of the UHID handler |
| OutputHandlers.Handlers.TakeFunctionFs | src/functionfs-backend.c:437-484 | the same for the FunctionFS layouts |
| OutputHandlers.Handlers.FunctionFsOut | src/functionfs-backend.c:417-498 | new state, suppression flag and sends of the FunctionFS handler |
| OutputHandlers.Ds4UsbIsObeyed | src/main.cpp:3126-3143 | whatever a DualShock 4 report in USB layout holds elsewhere, both handlers go to exactly the motors and colour written at their offsets, where their flags ask for them, and send if that is news |
| OutputHandlers.Ds4BluetoothIsObeyed | src/main.cpp:3144-3160 | the same for the Bluetooth layout, which the FunctionFS handler ignores |
| OutputHandlers.DualSenseIsObeyed | src/functionfs-backend.c:462-483 | the same for the DualSense layout, both handlers; the left motor is off exactly when haptics is selected and both motors are on |
| OutputHandlers.OthersAreIgnored | src/main.cpp:3124-3188 | shorter reports and other identifiers change nothing |
| OutputHandlers.OwnReportIsUnderstood | src/main.cpp:850-870 | the report the daemon sends over Bluetooth says, read by the daemon's own handler, exactly what was meant |
| OutputHandlers.HandlersAgree | src/main.cpp:3117-3211 | with a controller connected both handlers do the same to every sequence of reports without the DS4 identifier 0x11 |
| OutputHandlers.HandlersDifferIff | src/functionfs-backend.c:486-495 | without one they differ exactly on the reports that change something |
| OutputHandlers.RumbleWithoutPad | src/functionfs-backend.c:486-495 | a DS4 rumble report without a controller that only the UHID side remembers |
| OutputHandlers.StateIsLastRequested | src/main.cpp:3134-3143 | after any sequence of reports motors and colour are the last ones asked for, except that the first colour after creation is lost |
| OutputHandlers.OnlyChangesAreSent | src/main.cpp:3190-3209 | consecutive sends differ and the last one is the current state |
| HidBpfTransport.Pump.Collect | src/hid-bpf-transport.cpp:156-165 | the drain loop reads until the socket is empty or a read fails, and the buffer then holds the last message read |
| HidBpfTransport.Pump.Drain | src/hid-bpf-transport.cpp:155-168 | at most one report is forwarded per turn, in order, and it is the newest whenever no read failed |
| HidBpfTransport.NewestIsForwarded | src/hid-bpf-transport.cpp:145-168 | once all is read the last report forwarded is the last one queued |
| HidBpfTransport.HidBpf.Open | src/hid-bpf-transport.cpp:212-302 | whichever stage fails, nothing stays held; success holds exactly one transport's worth |
| HidBpfTransport.HidBpf.Close | src/hid-bpf-transport.cpp:304-335 | closes the caller's descriptor and gives back exactly what open took; an unknown descriptor is closed and nothing else changes |
| OutputPath.LastForwardedIsCurrent | src/main.cpp:1025-1037 | for any history of the pump: once pacer and pump have drained, the last report forwarded passes the CRC check and carries the current rumble and LED state |
| OutputPath.Play | src/main.cpp:1025-1037 | handler, pacer and pump run together under any schedule: whenever the pacer holds nothing and the socket is empty, the controller was last sent the current state in a report that passes its check |
| OutputPath.EventJoins | src/main.cpp:936-1000 | what the pacer was given stays what the handler sent, and what it wrote what the pump was given |
| UsbTransport.Usb.ClaimInterface | src/usb-hid-transport.cpp:317-350 | the retry loop succeeds exactly when one of the four attempts claims the interface and finds no driver active, and only then is it held |
| UsbTransport.Usb.Open | src/usb-hid-transport.cpp:246-403 | succeeds exactly when every stage does; every failing open holds nothing and asks the driver back once; success holds exactly one transport's worth |
| UsbTransport.Usb.Start | src/usb-hid-transport.cpp:405-414 | marks exactly the registered transport as started |
| UsbTransport.Usb.Close | src/usb-hid-transport.cpp:416-463 | closes the caller's descriptor and gives back exactly what open took, whether or not the watchdog closed the handle first; asks the driver back exactly when the handle is there and cannot be reattached; an unknown descriptor is only closed |
| UsbTransport.Usb.UseOnce | src/usb-hid-transport.cpp:246-463 | open, perhaps start, close is neutral for every outcome of the environment |
| UsbTransport.InvHoldsAlways | src/usb-hid-transport.cpp:164-243 | the joint invariant of pump, watchdog and close in every interleaving |
| UsbTransport.HandleIsClosedOnce | src/usb-hid-transport.cpp:164-191 | the handle is closed exactly once by the time the state is freed, never used by watchdog or close afterwards, and the state is freed only after both threads ended |
| UsbTransport.WatchdogActsIff | src/usb-hid-transport.cpp:164-191 | a round of the watchdog closes the handle exactly if the device is gone from the bus or the kernel driver is back |
| UsbTransport.PumpRound | src/usb-hid-transport.cpp:197-241 | a round of the pump takes what waits in the socket exactly if something does, and ends the pump exactly if the device is lost |
| UsbTransport.CloseReturns | src/usb-hid-transport.cpp:432-440 | close returns within 14 further steps under every scheduler, and is never stuck |
| Text.ValueOfPrint | src/ipc-client.cpp:412-444 | the digits printed for a number have that number as their value |
| Text.PrintedReads | src/ipc-client.cpp:515-545 | a number printed with %u or %x is read back by the matching scanf conversion, whatever follows |
| Text.PrintedIntReads | src/ipc-client.cpp:515-545 | the same for %d and negative numbers |
| Text.AnyNumberReads | src/ipc-client.cpp:490-503 | a printed number of any size under %u and %llu: past 64 bits the largest, past 32 bits whole turns dropped |
| Text.AnyIntReads | src/ipc-client.cpp:524-532 | a printed integer of any size a long holds under %d: the low 32 bits |
| Text.BlanksAreSkipped | src/ipc-client.cpp:490-503 | white space of any kind may come before a field |
| Text.PrefixesAreRead | src/main.cpp:749-757 | a plus sign, and 0x in base 16, may come before a number |
| Text.WordReads | src/ipc-client.cpp:515-545 | a source name is read back by %15s |
| Text.ScanAllFields | src/ipc-client.cpp:515-545 | a line of tokens reads back as their values, and a line that stops early as the values it has |
| LineProtocol.ButtonsSurvive | src/ipc-client.cpp:373-398 | fourteen buttons and the d-pad survive packing into three bytes and decode_buttons |
| LineProtocol.TouchPointRoundTrip | src/ipc-client.cpp:400-410 | a contact packed as counter, 12 bits of x and 12 bits of y decodes to exactly these |
| LineProtocol.EveryTouchPointIsPacked | src/ipc-client.cpp:400-410 | and there are no other bytes than packed ones |
| LineProtocol.TouchPointsAreDistinct | src/ipc-client.cpp:400-410 | decode_touch_point is injective up to the contact counter and stays in 12 bits |
| LineProtocol.CastsWrap | src/ipc-client.cpp:533-556 | the casts of parse_state keep what fits its type and drop whole turns of it |
| LineProtocol.StateLineParses | src/ipc-client.cpp:515-569 | 22-, 16- and 10-field STATE lines parse to their known fields, the others zero and flagged absent |
| LineProtocol.StateRoundTrip | src/ipc-client.cpp:412-444 | a STATE line fits 256 bytes, is one line, and parses back to the state |
| LineProtocol.TimingRoundTrip | src/ipc-client.cpp:480-513 | a TIMING line fits 128 bytes and parses back |
| LineProtocol.OutputRoundTrip | src/ipc-client.cpp:446-471 | an OUTPUT line fits 64 bytes and parses back, although printed as signed and read as unsigned |
| LineProtocol.MessageRoundTrip | ui/src/inputmonitor.cpp:220-242 | the reader's order of parsers recovers every printed message |
| LineProtocol.LinesAppend | ui/src/inputmonitor.cpp:121-153 | reading more input only continues from what was left over |
| LineProtocol.StreamRoundTrip | ui/src/inputmonitor.cpp:148-152 | a connection's stream, other lines in between and cut off anywhere, holds exactly the messages printed |
| LineProtocol.HandleLines | ui/src/inputmonitor.cpp:148-152 | the framing loop handles every complete line in order and keeps the rest |
| LineProtocol.ReadStream | ui/src/inputmonitor.cpp:121-153 | however the byte stream is cut into chunks, the messages handled are those of the whole stream |
| LineProtocol.ReadPrinted | ui/src/inputmonitor.cpp:121-242 | whatever in-range messages and other lines are sent and however the stream is cut, exactly those messages are recovered, in order, and only an unfinished line is left over |
| Tester.CommandIsRead | src/main.cpp:2374-2402 | every input command ds4-ctl prints is parsed to what was meant |
| Tester.PrintedNumberParsesIff | src/main.cpp:749-757 | a number of the command is taken exactly if it fits an unsigned int |
| Tester.AnyCommandIsRead | src/main.cpp:2374-2402 | an input command with any mask and any numbers is taken exactly if there are seven of them, each cut to its field |
| Tester.PackedBytes | src/main.cpp:1540-1572 | the report counter sharing the third byte does not disturb the buttons |
| Tester.TesterRoundTrip | src/ctl.cpp:222-233 | printed, parsed, packed, decoded, printed and parsed again, the low fourteen buttons and four d-pad bits come back whatever the counter |
| Tester.TesterIsFaithfulIff | src/main.cpp:1853-1878 | the monitor shows exactly what the tester holds if and only if the mask is below 2^14 and the d-pad below 16 |
| WireFormat.OutputWords | src/ipc-client.cpp:446-451 | the words of an OUTPUT line, in order |
| WireFormat.TimingWords | src/ipc-client.cpp:480-488 | the words of a TIMING line, in order |
| WireFormat.StateWords | src/ipc-client.cpp:412-444 | the words of a STATE line, in order |
| WireFormat.ButtonWeights | src/ipc-client.cpp:373-398 | which button has which weight in which byte |
| WireFormat.InputWords | src/ctl.cpp:222-230 | the words of the tester's command, triggers following L2 and R2 |
| ConfigFile.ReadKey | src/main.cpp:1144-1165 | the reading loop returns the first usable value of the key, else the default |
| ConfigFile.SettingsRoundTrip | src/main.cpp:1243-1263 | type, backends and hide method read back as written, whatever the names contain |
| ConfigFile.WordsAreRead | src/main.cpp:1105-1131 | the words of the file mean what they say, whatever spaces and line ends follow them |
| ConfigFile.BrokenLineIsSkipped | src/main.cpp:1144-1165 | a line with an unusable value does not hide a usable one below it |
| ConfigFile.UnfinishedLineCounts | src/main.cpp:1144-1165 | a last line without a line break counts as well |
| ConfigFile.DefaultOtherwise | src/main.cpp:1144-1165 | without the file, or without a usable line, the default is taken |
| ConfigFile.NameReadsBackIff | src/main.cpp:1170-1188 | a written name reads back if and only if it has no newline and no trailing carriage return; empty equals absent |
| ConfigFile.Ds4NameRoundTripIff | src/main.cpp:1257-1258 | this for the DS4 name in the whole file |
| ConfigFile.DualSenseNameRoundTripIff | src/main.cpp:1258-1259 | and for the DualSense name, which follows |
| ConfigFile.CheckedNamesRoundTrip | src/main.cpp:2501-2504 | the check set-name applies is enough for both names to read back |
| IpcQueue.IpcClient.Send | ui/src/ipcclient.cpp:21-26 | the command joins the end of sent = replied ++ in flight ++ queued, and the line is not left idle with work waiting |
| IpcQueue.IpcClient.StartNext | ui/src/ipcclient.cpp:28-60 | conservation despite re-entrant replies; with the daemon up the head of the queue goes in flight; with it down one call ends with the queue drained and everything replied |
| IpcQueue.IpcClient.ReadAll | ui/src/ipcclient.cpp:67-81 | the read loop appends all data up to the first report that is none |
| IpcQueue.IpcClient.OnReadable | ui/src/ipcclient.cpp:62-89 | data only accumulates; an error, an empty end of file and a complete response each end the command with their own reply |
| IpcQueue.IpcClient.Conclude | ui/src/ipcclient.cpp:74-88 | an error, an empty end of file and a complete response each end the command with their own reply |
| IpcQueue.IpcClient.OnTimeout | ui/src/ipcclient.cpp:91-97 | a timeout ends the command in flight with one failed reply |
| IpcQueue.IpcClient.Finish | ui/src/ipcclient.cpp:112-120 | exactly one reply for the current command, then the next starts, with the slot running in between |
| IpcQueue.DaemonController.SendCommand | ui/src/daemoncontroller.cpp:49-54 | the busy count stays the number of the user's commands outstanding |
| IpcQueue.DaemonController.RefreshStatus | ui/src/daemoncontroller.cpp:77-91 | polls only while nothing is outstanding and no control is held |
| IpcQueue.DaemonController.OnReplyReady | ui/src/daemoncontroller.cpp:159-193 | the count drops by the replied command exactly once; only a successful user command sends again, and then one status; what the window shows afterwards |
| IpcQueue.WhatIsShown | ui/src/daemoncontroller.cpp:159-193 | whose success and whose failure replaces the message |
| IpcQueue.DaemonController.SetOnline | ui/src/daemoncontroller.cpp:233-245 | coming back online clears an error message and nothing else |
| IpcQueue.DaemonController.EventLoop | ui/src/daemoncontroller.cpp:49-91 | in every run of the event loop conservation, progress and the busy count hold |
| IpcQueue.TrimResponse | src/ipc-client.cpp:141-148 | the in-place loop computes the trimmed response |
| IpcQueue.TrimmedShape | src/ipc-client.cpp:141-148 | trimming removes all trailing line breaks and nothing else |
| IpcQueue.IdleMeansAllReplied | ui/src/daemoncontroller.cpp:159-245 | once idle the replies are exactly the commands sent, in order, and the user has none outstanding; at any time between events the window is online exactly if the last command was answered, offline never without a reason, and the only error it shows while online is the daemon's |
| Timing.TimingWindow.OnReport | src/main.cpp:2915-2936 | the window's sums describe exactly the gaps recorded; no gap is lost or counted twice where windows meet |
| Timing.TimingWindow.OnForwarded | src/main.cpp:2950-2964 | a forwarded report adds exactly its latency to the window |
| Timing.TimingWindow.Finish | src/main.cpp:1931-1945 | the line sent is count, mean, minimum and maximum of the window's gaps, its length, and mean and maximum of its latencies, and the next window is empty |
| Timing.IntervalsTelescope | src/main.cpp:2916-2933 | while somebody watches, the gaps add up to the time between first and last report, less only the cut microsecond fractions |
| Timing.InputMonitor.Measure | ui/src/inputmonitor.cpp:165-170 | a measurement starts over three windows |
| Timing.InputMonitor.ApplyTiming | ui/src/inputmonitor.cpp:176-218 | every field of the result is the wrapping total, or the mean over intervals, of exactly the windows collected since |
| Timing.MeanIsAccurateIff | ui/src/inputmonitor.cpp:188-210 | the mean shown is above M - 2 and at most M for the true mean M exactly when the weighted sum fits 32 bits |
| Timing.MeanWrapsAround | ui/src/inputmonitor.cpp:188-210 | three windows whose weighted sum wraps, so that the mean shown is zero |
| Timing.MaxIsExact | ui/src/inputmonitor.cpp:195-197 | the maximum shown is the true one |
| Timing.ExtremesAre | ui/src/inputmonitor.cpp:191-197 | smallest and largest are members of the list, no member is outside them |
| Timing.LatencyMaxIsExact | ui/src/inputmonitor.cpp:188-202 | the largest latency shown is the true one and the window lengths add up |
| Timing.MinIsExactIff | ui/src/inputmonitor.cpp:191-194 | the minimum shown is the true one exactly when no window's is zero or the last measuring window's is |
| Timing.ZeroMinimumIsLost | ui/src/inputmonitor.cpp:191-194 | two windows whose true minimum zero is shown as five |
| Timing.MinMeanMaxAreOrdered | ui/src/inputmonitor.cpp:188-210 | with positive minima the three numbers shown are in order and the bounds exact |
| Timing.LatencyIsRightIff | ui/src/inputmonitor.cpp:198-211 | before any wrap-around, weighting by intervals gives the mean of whatever latencies the windows have if and only if every window holds the same share of the latencies as of the intervals |
| Timing.LatencyIsAccurateIff | ui/src/inputmonitor.cpp:198-211 | with such shares the latency shown is above M - 2 and at most M for the true mean M exactly when the weighted sum fits 32 bits |
| Timing.LatencyIsMeasuredLikeIntervals | ui/src/inputmonitor.cpp:198-211 | with as many latencies as intervals in every window the latency shown is what measuring intervals of those lengths would show |
| Timing.LatencyIsMisweighted | ui/src/inputmonitor.cpp:198-211 | two windows of different shares, where one latency counts for nothing |
| DaemonLoop.StatesAreConsistent | src/main.cpp:1962-2860 | in every run: standalone and pending-destroy exclude a physical connection and need an emulating type, at most one transport flag and none when disconnected, live devices match the backend, live only under an emulating type, type none has its sentinel, requests are cleared |
| DaemonLoop.CreateKeeps | src/main.cpp:1265-1334 | creating keeps devices consistent with the backend, fallback to UHID included |
| DaemonLoop.DestroyKeeps | src/main.cpp:1336-1362 | destroying leaves no device the daemon knows of |
| LoopEffects.ConnectionIff | src/main.cpp:1962-3219 | a controller is connected after an iteration exactly if it was or a scan connected one, and no hot-swap, hang-up, release or change of type or backend took it; which one it is, over which bus and by which method |
| LoopEffects.TypeIs | src/main.cpp:2317-2692 | the emulated type is that of the create-virtual or set-type that went through, and the sentinel follows a change |
| LoopEffects.SettingsAre | src/main.cpp:2411-2545 | backends, hide method and pending backend change by their own commands only, to what these say |
| LoopEffects.ModesAre | src/main.cpp:1962-3219 | standalone and ignore-physical hold exactly from the command that began them to an event that ends them |
| LoopEffects.DeviceOpenIff | src/main.cpp:1962-3219 | device_open is what the host said last, and false after every creation or destruction that resets it |
| LoopEffects.WindowIff | src/main.cpp:2816-2860 | when a grace window begins, from when it counts, and that it ends exactly by a connection, three commands or 300,000 ms |
| LoopEffects.DeviceThereIff | src/main.cpp:1962-3219 | whether there is a virtual device after an iteration, event by event |
| LoopEffects.DeviceStaysIff | src/main.cpp:1962-3219 | a device stays in place exactly if no creation takes its place, nothing destroys it and UHID is not lost |
| LoopEffects.BackendIs | src/main.cpp:1265-1283 | the backend is the one asked for last, or UHID once a FunctionFS creation failed |
| LoopEffects.FirstDevice | src/main.cpp:1588-1776 | for every configuration, what the first controller gets |
| LoopEffects.FirstVirtual | src/main.cpp:2317-2331 | and what the first create-virtual gets |
| LoopEffects.ShutdownLeaves | src/main.cpp:3222-3255 | after shutdown exactly the orphaned devices and threads are left |
| DaemonRuns.ExpiryIsJustified | src/main.cpp:2850-2860 | in every run the grace timer destroys a device only 300 s or more after the latest drop |
| DaemonRuns.ConnectingPutsDeviceInPlace | src/main.cpp:2053-2118 | a connection that opens and creates leaves a new device in place, driven by it |
| DaemonRuns.DeviceSurvives | src/main.cpp:2060-2071 | in a calm run, however often the controller drops, swaps bus and returns, the device is the same and nothing is created, unless it expired 300 s or more after the latest drop |
| DaemonRuns.DaemonExpiresJustly | src/main.cpp:2850-2860 | the first of these from the start, for every configuration and every run |
| DaemonRuns.DaemonKeepsItsDevice | src/main.cpp:2060-2071 | and the second wherever, in any run from the start, a calm stretch follows |
| HotSwapLedger.LedgerHolds | src/main.cpp:2129-2191 | with one Bluetooth pad around, only the remembered device can be without its driver, through every phase |
| HotSwapLedger.NothingStaysUnbound | src/main.cpp:1696-1707 | and after shutdown none is |
| HotSwapLedger.HotSwapForgetsIff | src/main.cpp:2142-2178 | a hot-swap keeps the account right exactly when nothing else is still waiting |
| HotSwapLedger.IterationAccountsIff | src/main.cpp:2129-2191 | so does an iteration: no later phase loses a device or finds a lost one again |
| HotSwapLedger.NothingIsForgottenIff | src/main.cpp:1696-1707 | with any number of pads, from the start: shutdown at any point leaves no device without its driver if and only if no hot-swap met another one waiting |
| BluetoothDrivers.BluetoothIs | src/main.cpp:1962-3219 | which device an iteration remembers, and who is without a driver after it |
| BluetoothDrivers.DeprivedIff | src/main.cpp:2129-2191 | at every head of the loop in every run: a device is without its driver if and only if a hot-swap took it, it has been there since, and nothing was handed back while the last hot-swap was the one for it |
| BluetoothDrivers.DaemonDeprivesIff | src/main.cpp:1627-1776 | the same from the start, for every configuration |
| BluetoothDrivers.LoopSettles | src/main.cpp:2828-2835 | the loop settles the account itself: with nothing forgotten, no device is without its driver after a USB hang-up, release-physical, or a change of type or backend |
| DaemonLimits.SetBackendChangesTypeIff | src/main.cpp:2676-2692 | set-backend changes the type exactly when it takes effect while the pending type is stale |
| DaemonLimits.PendingTypeGoesStaleIff | src/main.cpp:2317-2331 | the pending type goes stale exactly by creating a standalone device of another type |
| DaemonLimits.StaleTypeRun | src/main.cpp:2317-2331 | a concrete run in which set-backend turns a DualSense into a DS4 |
| DaemonLimits.TwoPadsRun | src/main.cpp:2129-2191 | a concrete run in which a second Bluetooth pad makes the daemon forget the first, which stays unbound |
| VirtualDevices.OrphansAfterCreate | src/main.cpp:1281-1289 | a creation loses track of exactly the UHID device whose descriptor it overwrites |
| VirtualDevices.OrphanLeftIff | src/main.cpp:2053-2083 | an iteration loses track of a device exactly when a reconnect without a waiting device, or create-virtual, opens /dev/uhid over a UHID device that is still there; an orphan stays one |
| VirtualDevices.EveryDeviceIsKnownIff | src/main.cpp:1962-3219 | over whole runs: the daemon knows every device if and only if no iteration did so |
| VirtualDevices.CreateCrowdsIff | src/main.cpp:1265-1334 | a creation makes two devices out of at most one exactly when it succeeds while something exists that it does not take down |
| VirtualDevices.TwoAtOnceIff | src/main.cpp:1962-3219 | from at most one device, an iteration has two at some point exactly when one of its four creations succeeds beside another device |
| VirtualDevices.TwoRemainIff | src/main.cpp:1962-3219 | and leaves two exactly when, besides, the device created is not taken down again before it ends |
| VirtualDevices.NeverTwoIff | src/main.cpp:1962-3219 | over whole runs, inside iterations included: never two devices if and only if no creation succeeds beside another |
| VirtualDevices.DaemonNeverHasTwoIff | src/main.cpp:1627-1776 | the same from the start, for every configuration |
| VirtualDevices.TwoDevicesRun | src/main.cpp:2072-2074 | a run from the start that ends with two devices: a pad returns whose device no host had opened |
| VirtualDevices.HostOpensLateRun | src/main.cpp:2072-2074 | the same although the host has the first device open by then |
| VirtualDevices.OrphanAloneRun | src/main.cpp:1319-1323 | a run in which the second creation fails, so that only the orphan exists |
| GraceWindow.DropAwaitsNothingIff | src/main.cpp:2837-2847 | a hang-up begins a window with no device exactly when device_open is stale |
| GraceWindow.HeadAwaitsNothingIff | src/main.cpp:2147-2174 | and a hot-swap likewise, under the BPF transport |
| GraceWindow.AwaitsNothingIff | src/main.cpp:1962-3219 | an iteration comes to wait with no device exactly when a hang-up or hot-swap meets a stale device_open, or inside the window UHID is lost, or a name change or create-virtual takes the device down and fails, and the window does not end at once |
| GraceWindow.ConnectsWithoutDeviceIff | src/main.cpp:2056-2077 | a controller opened under an emulating type gets no device exactly when the window waited with none |
| GraceWindow.TimerTakesWaitingIff | src/main.cpp:2850-2860 | the device the timer takes is the one the window began with if and only if, all through it, no create-virtual and no name change replaced it and UHID held |
| GraceWindow.NoDeviceRun | src/main.cpp:2676-2848 | a run from the start that leaves a connected controller without a device: set-type and a hang-up in one iteration |
| GraceWindow.NoDeviceAfterUhidDropRun | src/main.cpp:2973-2979 | another: the UHID device is lost while the controller is away |
| GraceWindow.TimerTakesStandaloneRun | src/main.cpp:2317-2331 | a run from the start in which the timer destroys a standalone device while the one that waited lives on |
| Daemon.Daemon.constructor | src/main.cpp:1588-1776 | the state when the loop is entered, for every configuration |
| Daemon.Daemon.CreateVirtualDevice | src/main.cpp:1265-1334 | creation with its fallback and failures |
| Daemon.Daemon.DestroyVirtualDevice | src/main.cpp:1336-1362 | destruction under the active backend |
| Daemon.Daemon.ReleasePhysical | src/main.cpp:643-683 | one teardown path is taken and its flag cleared; with at most one flag set, as always holds, both end cleared |
| Daemon.Daemon.OpenPhysical | src/main.cpp:1996-2048 | unbind method, legacy method, and the fall-back from one to the other |
| Daemon.Daemon.ScanForPhysical | src/main.cpp:1967-2118 | connect, create or reuse, or give up and release |
| Daemon.Daemon.CheckUsbUpgrade | src/main.cpp:2129-2191 | the hot-swap from Bluetooth to USB |
| Daemon.Daemon.HandleCommand | src/main.cpp:2317-2373 | the commands that create, destroy, release and resume |
| Daemon.Daemon.ChangeSettings | src/main.cpp:2411-2545 | the set-type, set-backend, set-name and set-hide-method commands |
| Daemon.Daemon.TakeOldDown | src/main.cpp:2684-2742 | the old device goes under the old backend, the sentinel follows the type, controller and Bluetooth are given back |
| Daemon.Daemon.ApplyTypeOrBackend | src/main.cpp:2675-2795 | the old device goes under the old backend, the controller is released, a standalone device comes back |
| Daemon.Daemon.ApplyName | src/main.cpp:2797-2814 | the device in use is recreated in place |
| Daemon.Daemon.HandleDrop | src/main.cpp:2816-2848 | the controller is released, Bluetooth restored if USB dropped, the device kept if in use; BluetoothDrivers and LoopEffects say what comes of it |
| Daemon.Daemon.CheckGrace | src/main.cpp:2850-2860 | the device is destroyed exactly when its window has run out |
| Daemon.Daemon.HandleUhid | src/main.cpp:2973-3006 | drop, read error, open and close of the UHID device |
| Daemon.Daemon.LookForPhysical | src/main.cpp:1967-2191 | the top of the loop body: scan, or look for a USB connection to swap to |
| Daemon.Daemon.ApplyAndPoll | src/main.cpp:2675-3219 | the rest of the loop body, with its early ends |
| Daemon.Daemon.OneIteration | src/main.cpp:1962-3219 | the order of the phases and the early ends of an iteration |
| Daemon.Daemon.Loop | src/main.cpp:1962-3219 | any number of iterations computes the run of the state machine and keeps its invariant |
| Daemon.Daemon.Finish | src/main.cpp:3222-3255 | shutdown destroys the device, releases the controller and restores Bluetooth |

## Left out

- Kernel, libusb, libbpf, configfs, udev, netlink and hidraw calls: they appear only as arbitrary success, failure or data; blocking reads and writes and signal delivery are not modelled.
- FunctionFsMailbox.NeverAsleepAfterClose: for a device with one in_loop, as are all results of that module; FunctionFsThreads says when there is one, SharedMailbox what close does otherwise.
- FunctionFsMailbox.CloseReturns: likewise for a device with one in_loop.
- SharedMailbox: POSIX leaves open what initialising a mutex and a condition in use does; they are taken to work on, with the old thread, asleep until then, still waiting. A third in_loop, and an old one awake at that moment, are not modelled.
- Tearing down a FunctionFS gadget is taken to remove it even while an earlier set of endpoint files is open.
- FunctionFsMailbox and the threads of UsbTransport: their interleavings are runs of single steps on values; the classes beside them cover the sequential code only.
- The pacer's writes are taken to reach the descriptor; a write the kernel refuses is lost in the code as well.
- The pump thread's use of a libusb handle after the watchdog closed it, and the duplicated descriptors of the detached identify and reconnect threads: the code relies on libusb and timing there.
- A FunctionFS thread setting `configured` in the instant between its last check and the join in functionfs_close; the model reads the flag as false once the device is closed.
- DaemonLoop: functionfs_close is taken to return, and the sentinel file and the write that hands Bluetooth back to its driver are taken to succeed.
- DaemonLoop: commands that leave its variables alone (status, input, led, identify, test) are one command, and poll time-outs, sleeps and neutral reports are not part of the state.
- A read error on the physical controller marks poll results that are never looked at again; it has no effect in the model because it has none in the code.
- Mode restoration after type none, and freshness of OUTPUT broadcasts to a late subscriber: not guaranteed by the code.
- Timing: the floating-point reports per second.
- OutputPath.Play: reports that the detached identify and reconnect threads submit, and those of the led command, are not part of the schedule; a report that arrives while the pump drains is one that arrives just before or after.
- LineProtocol: what EVENT, NOTE, CAVEAT and status lines say; the terminal reader of src/ctl.cpp, which frames lines the same way but ignores OUTPUT.
- IpcQueue: the exact wording of error texts, which status fields the controller copies from a reply, and Qt's signal machinery beyond one directly connected slot.
- Report descriptors, feature-report payloads, battery conversion, touch and motion forwarding, name tables, device detection by strings, logging, the Qt views and the terminal UI: constants, finite tables or presentation, with nothing to prove across them.
