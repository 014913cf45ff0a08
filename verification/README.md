# Verification of the alluno input models

This project models the state machines of the Alluno input stack in Dafny and proves what
they keep over every run. It covers the AllunoVHID bus in its Windows and macOS drivers, the
wire format between bus and client, the XUSB node, the Linux and Windows touch and pen back
ends, X11 text, and four HID codecs. `dafny verify dfyconfig.toml` checks all of it.

## How it is built

Most modules have three layers. A value-level step function says what one IOCTL, external
method, callback or report does. Lemmas prove properties of every run of such steps. A class
with the program's own fields does the same in place, with loops over arrays where the
program has them, and each method's contract ties its whole new state and answer to the step
function. The run theorems therefore speak about the imperative code.

| module | models |
|---|---|
| `Wire` | the byte layouts and the two drivers' plug parsers |
| `Delivery`, `FeatureTables` | one slot's output mailbox with its waiters, and its feature table |
| `VhidBus`, `VhidDriver` | the Windows bus as a state machine, and the driver in place |
| `VhidLifetime`, `VhidReports` | what the bus means to one device from plug to unplug, what it answers, and what it owes to every wait |
| `XusbPipe` | the interrupt-in pipe of an Xbox node: boot stage, fresh input, pended transfers |
| `MacOutputRing`, `MacBus`, `MacReports`, `MacDriver` | the macOS output ring, the bus with the comparison to Windows, what it answers, and the driver in place |
| `TouchState` | the touch snapshot every touch back end is given |
| `Uinput`, `LinuxTouch`, `LinuxPen` | event producers over uinput and the consumers that replay them |
| `WindowsTouch` | Down, Update and Up frames of the synthetic digitiser |
| `X11Text` | typing text through the server's own mapping and a borrowed keycode |
| `Keyboard`, `SwitchPro`, `TouchDescriptor`, `DualShock4`, `Gamepad` | the codecs |
| `Rescale` | the 0..=65535 rescales with their integer types |
| `Common`, `Bytes` | options, subsequences, words |

Foreign calls are parameters: whether an allocation, a VHF or DriverKit call, a queue
forward, an injection, an X request or a uinput write succeeds is chosen freely at every
step, so every theorem over runs covers every pattern of failures unless it says otherwise.

What a message, a frame or an answer is to mean is said in numbers of its own: byte by byte,
bit by bit, or by the code a consumer knows it by, apart from the functions that produce it.

## What the proofs show about the code

- The Windows client starts its output thread on a file handle of its own
  (crates/alluno-input-windows/src/vhid.rs:302), while the driver lets only the handle that
  plugged a slot wait on it (driver/windows/vhid/AllunoVHID.c:329). `VhidBus.WaitPendsExactly` is
  the exact condition, and by `VhidBus.HandleThatNeverPlugsHearsNothing` that thread hears
  nothing over any run.
- A uinput pen sample cut off by a failed write is not remembered, so its tool key can stay
  down beside the next sample's (`LinuxPen.FailedWriteLeavesToolDown`). Every sample written
  at any point of a run comes out right if and only if each failed one was cut off before its
  first key (`LinuxPen.EveryContinuationRightExactly`). The touch digitiser, by contrast, is
  back in step after its next successful report (`LinuxTouch.ReportHeals`).
- A Windows touch frame has one pointer per finger that was or is down
  (`WindowsTouch.OnePointerPerFinger`), while the device is created for ten
  (crates/alluno-input-windows/src/pointer.rs:260). A report succeeds if and only if those
  fingers number at most ten (`WindowsTouch.SucceedsExactlyWhenTenFit`), and as a refused report
  teaches the digitiser nothing, ten fingers swapped for ten others stay refused for good
  (`WindowsTouch.SwapOfTenIsRefusedForGood`).
- On Linux a finger that arrives while all ten slots are held is skipped even if fingers
  vanish in the same report; `LinuxTouch.LiveIsDownExactlyWhen` is the exact condition.
- With repeated feature ids Windows keeps every entry and answers the first, macOS folds them
  and answers the last. The drivers answer alike over all runs of sets if and only if no id is
  repeated (`FeatureTables.DriversAnswerAlikeExactly`): even equal entries take up room on
  Windows that they do not on macOS (`FeatureTables.RepeatedIdDiverges`).
- The Switch Pro reports the lowest sixteenth step of an axis just outside the range its own
  calibration declares (`SwitchPro.SticksLieInCalibratedRangeExactly`), and a flash reply to a
  request of more than 29 bytes names more bytes than it holds (`SwitchPro.FlashReplyIsWholeExactly`).
  Its low rumble product wraps above the documented range, and the motor runs too weak for
  exactly the fields `SwitchPro.AmplitudeIsStrengthExactly` names.
- The comment at crates/alluno-input-core/src/hid/touch.rs:148-149 says that a finger absent
  from the state is reported lifted in a free slot. The code only leaves unused slots zero;
  the model follows the code.

## Modelling choices

- Bytes and words are integers with their ranges; truncating casts and wrapping counters are
  written out, overflow as in a release build. A flag or-ed into a byte whose bit is clear is
  an addition; the keyboard bitmap and the button bitset use bit-vectors.
- One request or callback is one step. The Windows plug drops its lock after reserving a slot
  (driver/windows/vhid/AllunoVHID.c:191); the model assumes nothing unplugs a slot that is
  still being plugged.
- The driver allocates an Xbox child device's context zeroed, and a macOS node, for every plug.
  Here each slot owns one of each, reset to that state by the plug.
- A host's SET_FEATURE carries its report id as its first byte where the two drivers are
  compared over runs: Windows searches by the id of the transfer, macOS by that byte.
- The X server types the first keysym of a pressed key's row and nothing for a key that is
  already down, and no modifier is held.
- `WindowsTouch` runs assume that no report repeats an id; so do the set results of
  `LinuxTouch`. The replay results of `LinuxTouch` do not.

## Model

| member | source | states |
|---|---|---|
| Wire.PlugRequestOf | crates/alluno-input-core/src/hid/wire.rs:85-107 | the loop writes the twelve header bytes, the descriptor, and each feature with its two-byte length, lengths truncated to sixteen bits |
| Wire.PlugLayout | crates/alluno-input-core/src/hid/wire.rs:85-107 | byte by byte: six little-endian words at offsets 0 to 10, the descriptor from 12 on, then the features |
| Wire.FeatureLayout | crates/alluno-input-core/src/hid/wire.rs:85-107 | a feature is its length, low byte first, then its bytes, then the features after it |
| Wire.HeaderRefusals | driver/windows/vhid/AllunoVHID.c:150-165 | which status a header gets, on its bytes: too short, a word out of range, or a descriptor cut off, in that order |
| Wire.FirstBadEntry | driver/windows/vhid/AllunoVHID.c:211-230 | refused features fail at the first bad entry behind whole good ones, with the status of what is wrong with it |
| Wire.FeaturesInverse | driver/windows/vhid/AllunoVHID.c:211-230 | from any cursor inside the buffer, reading n entries answers `features` if and only if they are n valid features and their serialised bytes stand at the cursor |
| Wire.PlugParserIsInverse | driver/windows/vhid/AllunoVHID.c:150-230 | for every buffer and request, the Windows parser answers the request if and only if it is within the limits and its serialised bytes start the buffer |
| Wire.PlugRoundTrip | crates/alluno-input-core/src/hid/wire.rs:85-107 | a serialised request followed by any tail is parsed back as itself if and only if it is within the limits |
| Wire.PlugAcceptance | driver/windows/vhid/AllunoVHID.c:150-230 | a buffer is accepted if and only if it starts with some request within the limits |
| Wire.TruncatedPlugIsRefused | driver/windows/vhid/AllunoVHID.c:164-224 | a request within the limits cut short anywhere is refused |
| Wire.DriversAgreeOnHidPlugs | driver/macos/AllunoVHID/AllunoVHIDBus.cpp:85-152 | both drivers read the same identity, descriptor and feature entries out of a HID plug request with any tail; what a repeated id then becomes is FeatureTables.DriversAnswerAlikeExactly |
| Wire.MacRefusesXusbPlugs | driver/macos/AllunoVHID/AllunoVHIDBus.cpp:93-94 | an Xbox plug, which Windows accepts, is refused on macOS for its empty descriptor |
| Wire.ReportRequest | crates/alluno-input-core/src/hid/wire.rs:110-120 | the driver reads slot and report back from the submission if and only if the report is one it accepts, of 1 to 512 bytes |
| Wire.ReportRoundTrip | driver/windows/vhid/AllunoVHID.c:577-591 | the driver reads back slot and report of a submission with any tail if and only if the report passes the client size check |
| Wire.ReportLayout | crates/alluno-input-core/src/hid/wire.rs:110-120 | a submission byte by byte: slot, length, two reserved bytes, report |
| Wire.ReportRefusals | driver/windows/vhid/AllunoVHID.c:577-591 | for every buffer whether it is taken, with which bytes, or which status refuses it |
| Wire.OutputRoundTrip | crates/alluno-input-core/src/hid/wire.rs:123-131 | the client reads back the kind and bytes of a completed wait, for every report whose length fits the header |
| Delivery.NewestReportIsNeverLost | driver/windows/vhid/AllunoVHID.c:338-383 | over every run, what waits read is an in-order, at-most-once subsequence of the delivered reports, and the newest report is pending or is the last one read |
| Delivery.EveryWaitIsQueuedOrCompletedOnce | driver/windows/vhid/AllunoVHID.c:338-369 | over every run, completed waits followed by queued ones are exactly the waits requested, in order |
| Delivery.ClientSizedWaitsNeverStarve | driver/windows/vhid/AllunoVHID.c:632-641 | over every run with client-sized buffers, no wait fails and a pending report never stands beside a queued wait |
| Delivery.WaitsStarveExactly | driver/windows/vhid/AllunoVHID.c:338-383 | after any run of any buffers a pending report stands beside a queued wait if and only if a wait is queued and the one completed last had no room for the newest report |
| FeatureTables.ClientSetIsReadBack | driver/windows/vhid/AllunoVHID.c:671-690 | a client set fails exactly when its id is new and the table full; otherwise it is read back and every other id answers as before |
| FeatureTables.ClientSetRefines | driver/windows/vhid/AllunoVHID.c:671-690 | on a table of distinct ids a client set is one step of an id-to-bytes map of capacity 32 |
| FeatureTables.HostSetRefines | driver/windows/vhid/AllunoVHID.c:429-441 | a host set under the id of its transfer is a map update cut to 512 bytes for a known id, whatever the bytes, and nothing for an unknown one |
| FeatureTables.RunRefinesMap | driver/windows/vhid/AllunoVHID.c:671-690 | on either driver every run of client and host sets from a plug of distinct ids refines the bounded map, answer by answer |
| FeatureTables.MacPlugIsPlug | driver/macos/AllunoVHID/AllunoVHIDBus.cpp:137-152 | adding distinct features one by one, as macOS does, gives the table Windows copies |
| FeatureTables.AddFeatureIsClientSet | driver/macos/AllunoVHID/AllunoVHIDDevice.cpp:102-123 | the macOS search and store equals the Windows client set, written out apart from it |
| FeatureTables.DriversAnswerAsMap | driver/macos/AllunoVHID/AllunoVHIDDevice.cpp:180-217 | plugged with distinct ids and run through any sets, either driver answers every GET_FEATURE as the bounded map does, cut to the room given |
| FeatureTables.DriversAnswerAlikeExactly | driver/macos/AllunoVHID/AllunoVHIDDevice.cpp:102-123 | the drivers answer every GET_FEATURE after every run of sets alike if and only if the plug repeats no id |
| FeatureTables.RepeatedIdDiverges | driver/windows/vhid/AllunoVHID.c:671-690 | a concrete plug of 32 entries with one id twice, equal bytes and all: after one client set Windows has no answer and macOS has |
| FeatureTables.MacPlugAnswersLast | driver/macos/AllunoVHID/AllunoVHIDDevice.cpp:102-123 | with repeated ids a macOS plug answers the last entry of each id |
| FeatureTables.PlugsAgreeExactlyWhen | driver/macos/AllunoVHID/AllunoVHIDDevice.cpp:102-123 | at the instant after a plug, before any set, the drivers answer alike if and only if the first and last entry of every id carry the same bytes |
| FeatureTables.Table.SetFromClient | driver/windows/vhid/AllunoVHID.c:671-690 | the loop over the feature array replaces the first match or appends, as the specification says, and reports whether it could |
| FeatureTables.Table.SetFromHost | driver/windows/vhid/AllunoVHID.c:429-441 | the loop over the feature array replaces the first match, cut to 512 bytes, and nothing else |
| FeatureTables.Table.GetFeature | driver/windows/vhid/AllunoVHID.c:401-413 | the loop answers the first match cut to the caller's room, or nothing |
| FeatureTables.Table.Add | driver/macos/AllunoVHID/AllunoVHIDDevice.cpp:102-123 | the macOS loop over the feature array replaces the first match or appends while there is room |
| FeatureTables.PlugOnMac | driver/macos/AllunoVHID/AllunoVHIDBus.cpp:137-152 | adding the features of a plug one by one in place gives the specified table |
| VhidBus.StepKeepsInv | driver/windows/vhid/AllunoVHID.c:134-332 | every request and callback keeps: a free slot holds no node, descriptor, feature, pending output or waiter; a used one is started, owned, and has exactly the node of its kind |
| VhidBus.RunKeepsInv | driver/windows/vhid/AllunoVHID.c:134-332 | that invariant holds after every run from an empty bus |
| VhidBus.StepRefinesMap | driver/windows/vhid/AllunoVHID.c:134-332 | each step is one step of a partial map of at most sixteen owned devices: a plug takes the lowest free index, a failed plug changes nothing, an unplug or file cleanup removes only the owner's |
| VhidBus.RunRefinesMap | driver/windows/vhid/AllunoVHID.c:134-332 | over every run the slots are exactly that map |
| VhidBus.PlugOutcome | driver/windows/vhid/AllunoVHID.c:150-266 | a plug succeeds if and only if the output fits, the buffer parses, an index is free and the foreign calls are granted; the slot then holds the owner, identity, descriptor and features parsed, and no other slot changes |
| VhidBus.PlugAcceptsExactly | driver/windows/vhid/AllunoVHID.c:150-266 | given its foreign calls, a plug succeeds if and only if the buffer starts with some request within the limits and a slot is free; it takes the lowest one and publishes that request, identity included |
| VhidBus.CloseReleasesOwned | driver/windows/vhid/AllunoVHID.c:314-320 | file cleanup releases exactly the closing handle's slots and leaves every other one as it was |
| VhidBus.CloseRefines | driver/windows/vhid/AllunoVHID.c:314-320 | file cleanup removes exactly the closing handle's devices from the map |
| VhidBus.UnplugRefines | driver/windows/vhid/AllunoVHID.c:268-312 | an unplug succeeds if and only if the index holds a device of that owner, and removes just it |
| VhidBus.ForeignSlotsAreUntouched | driver/windows/vhid/AllunoVHID.c:322-332 | no request of a handle changes a slot another handle owns |
| VhidBus.WaitPendsExactly | driver/windows/vhid/AllunoVHID.c:616-641 | a wait with room for the header is pended if and only if it names a slot its own handle plugged and the forward is granted |
| VhidBus.HandleThatNeverPlugsHearsNothing | crates/alluno-input-windows/src/vhid.rs:297-321 | over every run a handle that never plugs hears nothing: each of its waits is refused, completes nothing and changes nothing |
| VhidLifetime.PlugStartsALife | driver/windows/vhid/AllunoVHID.c:180-265 | a plug that answers a slot leaves it with nothing pending, nobody waiting, and on an Xbox slot an unbooted pipe |
| VhidLifetime.LifetimeIsADeliveryRun | driver/windows/vhid/AllunoVHID.c:338-383 | while a device stays plugged, whatever the other slots do, its mailbox and what the bus completes for it are those of its own waits and writes |
| VhidLifetime.LifetimeIsAPipeRun | driver/windows/vhid/AllunoXusb.c:505-548 | while an Xbox device stays plugged, its pipe and the packets and cancellations the bus answers for it are those of its owner's accepted inputs and its host's transfers |
| VhidLifetime.OutputReachesTheClient | driver/windows/vhid/AllunoVHID.c:338-383 | over every lifetime in every run of the bus: the waits of a device read an in-order, at-most-once choice of the reports written to it, the newest is pending or was read last, waits complete in order and once, and with client-sized buffers none fails or starves |
| VhidLifetime.InputReachesTheHost | driver/windows/vhid/AllunoXusb.c:505-519 | over every lifetime of an Xbox device in every run of the bus: its host reads the boot packets in order and then an in-order, at-most-once choice of its owner's inputs; each transfer is served, cancelled, refused or waiting, first come first served |
| VhidLifetime.EveryWaitIsAccounted | driver/windows/vhid/AllunoVHID.c:268-383 | over every run of the whole bus each pended wait is completed or still queued exactly as often as it was pended, the cancellations of unplug and file cleanup included |
| VhidReports.PlugIsAnswered | driver/windows/vhid/AllunoVHID.c:150-266 | the status of every plug, in the order the driver meets its reasons; only a success has a slot and four bytes of output |
| VhidReports.LifetimeIsAFeatureRun | driver/windows/vhid/AllunoVHID.c:643-692 | while a device stays plugged, its table and whether each of its sets is granted are those of its owner's and its host's sets, read off the events in order |
| VhidReports.FeaturesReachTheHost | driver/windows/vhid/AllunoVHID.c:389-441 | over every lifetime in every run of a device plugged with distinct ids: a GET_FEATURE is answered, and each set granted, as the bounded map does that starts with the plug's entries |
| VhidReports.LifetimeRemembersInput | driver/windows/vhid/AllunoVHID.c:570-614 | while a device stays plugged, its last input is the newest report its owner sent, refused by the HID stack or not, of twenty bytes on an Xbox slot |
| VhidReports.LastInputIsTheNewest | driver/windows/vhid/AllunoVHID.c:463-485 | over every lifetime in every run a GET_REPORT sees that report, and nothing before the first |
| VhidReports.GrantedSetIsAnswered | driver/windows/vhid/AllunoVHID.c:671-690 | after any run the owner's SET_FEATURE of bytes d is granted exactly when d[0] is known or fewer than 32 entries stand; then GET_FEATURE of d[0] answers d, every other id and everything else on the bus stays, and an Xbox slot supports none |
| VhidReports.InputIsAnswered | driver/windows/vhid/AllunoVHID.c:570-614 | after any run the status, the byte count and the new bus of an owner's input, for both kinds of slot and any length |
| VhidReports.HostReportIsTold | driver/windows/vhid/AllunoVHID.c:338-383 | what the client is told of a host's output report, feature or Xbox packet, byte by byte: the report cut to 512, the first 3 bytes of a lamp packet, the first 8 of a rumble packet, nothing of any other; the oldest wait gets it or fails, and nothing else moves |
| VhidReports.WaitIsAnswered | driver/windows/vhid/AllunoVHID.c:616-641 | the answer to an owner's wait: refused without room or when its forward fails, else it joins the queue, and a pending report completes the oldest one, byte by byte |
| VhidReports.TransferIsAnswered | driver/windows/vhid/AllunoXusb.c:505-548 | an in transfer is served at once, queued as the youngest, or refused without a trace; an abort cancels all that wait, in order |
| VhidReports.UnplugCancelsAll | driver/windows/vhid/AllunoVHID.c:268-312 | an owner's unplug fails every wait and cancels every transfer of the device, in order |
| VhidReports.CloseCancelsAll | driver/windows/vhid/AllunoVHID.c:314-320 | after any run, closing a handle fails every wait and cancels every transfer on its devices, slot by slot and in order, and no other |
| VhidDriver.SlotRecord.CompleteWaiter | driver/windows/vhid/AllunoVHID.c:338-369 | completes the oldest waiter with the pending report or an error, exactly as specified |
| VhidDriver.SlotRecord.DeliverOutput | driver/windows/vhid/AllunoVHID.c:371-383 | stores the report cut to 512 bytes and offers it to the oldest waiter |
| VhidDriver.SlotRecord.InstallFeatures | driver/windows/vhid/AllunoVHID.c:211-230 | the cursor loop installs the parsed features, or stops with the status of the first bad entry |
| VhidDriver.SlotRecord.Plug | driver/windows/vhid/AllunoVHID.c:180-265 | reserves, publishes or releases the slot as the plug specification says |
| VhidDriver.SlotRecord.EvtGetFeature | driver/windows/vhid/AllunoVHID.c:389-416 | answers the first feature with the id, cut to the room given |
| VhidDriver.SlotRecord.EvtGetInputReport | driver/windows/vhid/AllunoVHID.c:463-485 | answers the last input report when its id matches, cut to the room given |
| VhidDriver.Driver.constructor | driver/windows/vhid/AllunoVHID.c:76-101 | sixteen new records are the empty bus the run theorems start from |
| VhidDriver.Driver.UnplugIndex | driver/windows/vhid/AllunoVHID.c:268-312 | releases one slot of the owner, or of anybody when none is named, and completes its waiters as cancelled |
| VhidDriver.Driver.IoctlPlug | driver/windows/vhid/AllunoVHID.c:540-556 | the whole-bus state and answer after a plug request are the specified ones |
| VhidDriver.Driver.IoctlUnplug | driver/windows/vhid/AllunoVHID.c:558-568 | the whole-bus state and answer after an unplug request are the specified ones |
| VhidDriver.Driver.FileCleanup | driver/windows/vhid/AllunoVHID.c:121-128 | the loop over all sixteen indices releases what the specification releases, with the same completions and cancelled transfers |
| VhidDriver.Driver.IoctlInput | driver/windows/vhid/AllunoVHID.c:570-614 | the whole-bus state, the answer and the transfer served after an input request are the specified ones, the child device's pipe included |
| VhidDriver.Driver.IoctlWaitOutput | driver/windows/vhid/AllunoVHID.c:616-641 | the whole-bus state and completions after a wait request are the specified ones |
| VhidDriver.Driver.IoctlSetFeature | driver/windows/vhid/AllunoVHID.c:643-692 | the whole-bus state and answer after a feature set are the specified ones |
| VhidDriver.Driver.EvtWriteReport | driver/windows/vhid/AllunoVHID.c:448-461 | an output report is delivered to its slot's mailbox and no other slot changes |
| VhidDriver.Driver.EvtSetFeature | driver/windows/vhid/AllunoVHID.c:418-446 | a host feature changes the table first and is then delivered like an output report |
| VhidDriver.Driver.EvtXusbOut | driver/windows/vhid/AllunoXusb.c:490-500 | a lamp or rumble packet is delivered to its slot's mailbox and any other changes nothing |
| VhidDriver.Driver.EvtXusbIn | driver/windows/vhid/AllunoXusb.c:505-520 | the whole-bus state and answer after an interrupt-in transfer are the specified ones |
| VhidDriver.Driver.EvtXusbAbort | driver/windows/vhid/AllunoXusb.c:543-547 | the whole-bus state and the transfers cancelled by an abort are the specified ones |
| XusbPipe.BootThenInputsInOrder | driver/windows/vhid/AllunoXusb.c:505-519 | over every run the packets served are the six boot packets in order and then an in-order, at-most-once subsequence of the submitted inputs |
| XusbPipe.PendedMeansBootedAndStale | driver/windows/vhid/AllunoXusb.c:506-518 | over every run a transfer pends only after the boot and with no fresh input |
| XusbPipe.NewestInputIsServedOrFresh | driver/windows/vhid/AllunoXusb.c:656-669 | over every run the newest input is still fresh or is the last packet served |
| XusbPipe.EveryTransferIsAccounted | driver/windows/vhid/AllunoXusb.c:505-548 | over every run each transfer is served, aborted, refused or still queued, exactly once |
| XusbPipe.TransfersAreServedInOrder | driver/windows/vhid/AllunoXusb.c:505-520 | over every run the transfers served, and after them those waiting, are in the order they were asked for |
| XusbPipe.InputReachesNextTransfer | driver/windows/vhid/AllunoXusb.c:510-513 | once booted with nothing queued, an input reaches the very next transfer unchanged |
| XusbPipe.PdoContext.InterruptTransfer | driver/windows/vhid/AllunoXusb.c:505-520 | the in-place transfer does the specified step |
| XusbPipe.PdoContext.Submit | driver/windows/vhid/AllunoXusb.c:646-675 | the in-place submit does the specified step, including the refused lengths |
| XusbPipe.PdoContext.Abort | driver/windows/vhid/AllunoXusb.c:543-547 | the in-place abort purges every queued transfer and nothing else |
| MacOutputRing.QueueIsTheNewestWrites | driver/macos/AllunoVHID/AllunoVHIDDevice.cpp:248-256 | over every run the queue is a suffix of the write log of at most eight reports, the taken ones precede it in order and at most once, and every write is taken, dropped or queued |
| MacOutputRing.NothingIsLostUntilFull | driver/macos/AllunoVHID/AllunoVHIDDevice.cpp:248-279 | no report has been dropped if and only if taken and queued together are the whole write log |
| MacOutputRing.DropsOnlyWhenEightWait | driver/macos/AllunoVHID/AllunoVHIDDevice.cpp:248-256 | after any run a write costs a report only when eight are queued, and then the oldest |
| MacOutputRing.PollReadsBack | driver/macos/AllunoVHID/AllunoVHIDBus.cpp:243-248 | with the user client's buffer a poll is read back as the oldest report, whole |
| MacOutputRing.OutputRing.SetReport | driver/macos/AllunoVHID/AllunoVHIDDevice.cpp:248-256 | the write at (head + count) mod 8 pushes on the drop-oldest queue, under any wrap-around |
| MacOutputRing.OutputRing.TakeOutput | driver/macos/AllunoVHID/AllunoVHIDDevice.cpp:265-279 | the read at the head pops the queue's oldest report, cut to the room given, and is empty on an empty queue |
| MacBus.StepKeepsInv | driver/macos/AllunoVHID/AllunoVHIDBus.cpp:83-251 | every method and callback keeps: a used slot has an owner and a node, a free one nothing |
| MacBus.ParsersAgree | driver/macos/AllunoVHID/AllunoVHIDBus.cpp:85-152 | over all byte strings whose kind word says HID, the macOS and Windows parsers accept the same and read the same |
| MacBus.PlugOutcome | driver/macos/AllunoVHID/AllunoVHIDBus.cpp:83-167 | a plug succeeds if and only if the request parses, a slot is free and the node is created and starts; the node in the lowest free slot has the identity, descriptor and folded features of the request and an empty queue, and a failed plug leaves the bus as it was |
| MacBus.StepRefinesMap | driver/macos/AllunoVHID/AllunoVHIDBus.cpp:83-198 | each step is the step of the same owned-device map the Windows bus refines |
| MacBus.BusesKeepTheSameDevices | driver/macos/AllunoVHID/AllunoVHIDBus.cpp:83-198 | over every run of HID requests the two buses hold the same devices for the same owners at the same indices |
| MacBus.RequestsSucceedAlike | driver/macos/AllunoVHID/AllunoVHIDBus.cpp:83-192 | where the two buses stand alike, a plug or unplug succeeds on one if and only if it does on the other, at the same index |
| MacBus.ForeignSlotsAreUntouched | driver/macos/AllunoVHID/AllunoVHIDBus.cpp:200-213 | no method of a client changes a slot another client owns |
| MacBus.PlugStartsALife | driver/macos/AllunoVHID/AllunoVHIDBus.cpp:156-165 | a plug that answers a slot leaves it with a node whose output queue is empty |
| MacBus.LifetimeIsAQueueRun | driver/macos/AllunoVHID/AllunoVHIDBus.cpp:235-251 | while a node stays plugged, whatever the other slots do, its queue and the reports polled from it are those of its own polls and host reports |
| MacBus.OutputReachesTheClient | driver/macos/AllunoVHID/AllunoVHIDDevice.cpp:248-279 | over every lifetime in every run polled with the client's buffer: its owner reads an in-order, at-most-once choice of the reports written to it, the queue is the at most eight newest, and every write is read, dropped or queued |
| MacReports.BusesAnswerAlike | driver/macos/AllunoVHID/AllunoVHIDBus.cpp:83-251 | over every run of HID requests and host reports without a repeated feature id the two buses hold the same feature tables and last inputs slot by slot, and grant the same next request |
| MacReports.PlugIsAnswered | driver/macos/AllunoVHID/AllunoVHIDBus.cpp:83-167 | the status of every plug, in the order the bus meets its reasons; one that fails leaves no trace |
| MacReports.RefusalsChangeNothing | driver/macos/AllunoVHID/AllunoVHIDBus.cpp:215-233 | an input or set that cannot be read is a bad argument, one that names no node of the client not attached, and neither changes anything |
| MacReports.PollIsAnswered | driver/macos/AllunoVHID/AllunoVHIDBus.cpp:235-251 | what an owner's poll writes, byte by byte and for every capacity; the oldest report leaves the queue and nothing else moves |
| MacDriver.SlotRecord.AddFeatures | driver/macos/AllunoVHID/AllunoVHIDBus.cpp:137-152 | the cursor loop adds the parsed entries one by one to the node's feature array, and stops at the first bad one |
| MacDriver.SlotRecord.GetFeature | driver/macos/AllunoVHID/AllunoVHIDDevice.cpp:180-217 | answers the first feature with the id, cut to the room given |
| MacDriver.SlotRecord.GetInput | driver/macos/AllunoVHID/AllunoVHIDDevice.cpp:180-217 | answers the last input when its first byte is the id, cut to the room given |
| MacDriver.BusService.constructor | driver/macos/AllunoVHID/AllunoVHIDBus.cpp:25-38 | sixteen new records are the empty bus the run theorems start from |
| MacDriver.BusService.FindFree | driver/macos/AllunoVHID/AllunoVHIDBus.cpp:102-114 | the loop answers the lowest free slot, or none |
| MacDriver.BusService.Plug | driver/macos/AllunoVHID/AllunoVHIDBus.cpp:83-167 | the whole-bus state and answer after a plug are the specified ones, with the node built in place and released on every failure |
| MacDriver.BusService.Unplug | driver/macos/AllunoVHID/AllunoVHIDBus.cpp:169-192 | the whole-bus state and answer after an unplug are the specified ones |
| MacDriver.BusService.UnplugOwned | driver/macos/AllunoVHID/AllunoVHIDBus.cpp:194-198 | the loop over all indices frees what the specification frees |
| MacDriver.BusService.SubmitInput | driver/macos/AllunoVHID/AllunoVHIDBus.cpp:215-223 | the whole-bus state and answer after an input are the specified ones |
| MacDriver.BusService.SetNodeFeature | driver/macos/AllunoVHID/AllunoVHIDBus.cpp:225-233 | the whole-bus state and answer after a feature set are the specified ones, through the search of the node's array |
| MacDriver.BusService.PollOutput | driver/macos/AllunoVHID/AllunoVHIDBus.cpp:235-251 | the whole-bus state and the bytes written are the specified ones for any capacity, through the wrapped read of the node's ring |
| MacDriver.BusService.SetReport | driver/macos/AllunoVHID/AllunoVHIDDevice.cpp:222-263 | a host report is stored in its node's table when it is a known feature, pushed on its ring, and no other slot changes |
| LinuxTouch.ReplayIsTheSlotTable | crates/alluno-input-linux/src/devices.rs:441-512 | after every successful report of every run, failed ones before it included, the frame a protocol B consumer of all events shows is exactly the slot table: each live finger at its reported place, with pressure on the 0..=8191 scale and its longer side first, the position of the first finger down, and the touch button down if and only if a finger is live; nothing is shown before a frame end |
| LinuxTouch.ReportHeals | crates/alluno-input-linux/src/devices.rs:441-512 | from whatever a report cut off by a failed write left behind, the frame the next successful report ends shows the table again |
| LinuxTouch.FailedReportShowsNothing | crates/alluno-input-linux/src/devices.rs:441-512 | a report cut off anywhere, its frame end included, changes nothing of the frame shown |
| LinuxTouch.ShownIsTheLastSuccess | crates/alluno-input-linux/src/devices.rs:441-512 | over every run the frame shown is that of the last successful report, however many failed after it |
| LinuxTouch.LiveIsDownExactlyWhen | crates/alluno-input-linux/src/devices.rs:445-501 | after a report of distinct fingers the live set is the set reported down if and only if each new finger still found a free slot at its turn |
| LinuxTouch.TenFingersFit | crates/alluno-input-linux/src/devices.rs:445-501 | old live fingers and new ones numbering at most ten suffice for that |
| LinuxTouch.SwapOfAllTenIsSkipped | crates/alluno-input-linux/src/devices.rs:446-501 | ten fingers swapped for a new one in a single report leave no finger live, the case shut out |
| LinuxTouch.FingerKeepsItsSlot | crates/alluno-input-linux/src/devices.rs:321-328 | a live finger reported down again stays in its slot, whether or not the writes succeed |
| LinuxTouch.Claim | crates/alluno-input-linux/src/devices.rs:321-328 | the answer is the id's own slot if it has one, else a free one, and none exactly when all ten are taken by others |
| LinuxTouch.Live | crates/alluno-input-linux/src/devices.rs:343-345 | lists exactly the ids that hold a slot |
| LinuxTouch.Slots.ClaimSlot | crates/alluno-input-linux/src/devices.rs:321-328 | the two array searches answer the specified slot and mark it |
| LinuxTouch.Slots.ReleaseSlot | crates/alluno-input-linux/src/devices.rs:336-340 | frees the slot of the id and no other |
| LinuxTouch.Slots.LiveIds | crates/alluno-input-linux/src/devices.rs:343-345 | the loop collects the live ids in slot order |
| LinuxTouch.UinputTouch.ReportTouch | crates/alluno-input-linux/src/devices.rs:441-512 | the device log, the slot array and the answer after a report are the specified ones, wherever a write fails |
| Uinput.Device.Emit | crates/alluno-input-linux/src/devices.rs:451-489 | events are written one by one and writing stops at the first refused one |
| LinuxPen.ConsumerFollowsPen | crates/alluno-input-linux/src/devices.rs:254-310 | over every run whose failed samples were cut off before their first key, the frame a consumer shows is the last whole sample: tool, touch and barrel keys by their codes, position, pressure on the 0..=8191 scale, distance and tilt; touch never without a tool and never two tools |
| LinuxPen.CutShowsNothing | crates/alluno-input-linux/src/devices.rs:254-310 | a sample cut off anywhere, its frame end included, changes nothing of the frame shown |
| LinuxPen.KeysFollowSample | crates/alluno-input-linux/src/devices.rs:266-306 | from keys in step with the last sample, the five transitions leave exactly the new sample's keys, also when tool and range change at once |
| LinuxPen.CutKeepsStepExactly | crates/alluno-input-linux/src/devices.rs:255-310 | from keys in step, a sample cut off by a refused write leaves them in step if and only if the number of writes accepted stops short of its first key event |
| LinuxPen.EverySampleRightExactlyWhen | crates/alluno-input-linux/src/devices.rs:255-306 | whatever keys a consumer was left with, every next sample comes out right if and only if those are the last whole sample's keys |
| LinuxPen.EveryContinuationRightExactly | crates/alluno-input-linux/src/devices.rs:254-310 | for every run, failed calls included: whatever sample is written at whatever point is shown with its own keys if and only if each failed sample was cut off before its first key |
| LinuxPen.FailedWriteLeavesToolDown | crates/alluno-input-linux/src/devices.rs:266-308 | a concrete run: a sample cut off after its tool key, then an eraser sample, leaves both tools down |
| LinuxPen.UinputPen.ReportPen | crates/alluno-input-linux/src/devices.rs:254-310 | the device log, the remembered sample and the answer are the specified ones, wherever a write fails |
| WindowsTouch.ComputeMoves | crates/alluno-input-windows/src/pointer.rs:227-245 | the two loops list the moves of the reported contacts and then the lifts of the vanished ones |
| WindowsTouch.ReportWord | crates/alluno-input-windows/src/pointer.rs:227-245 | for distinct ids each finger makes at most one move in a report, the one its old and new state call for |
| WindowsTouch.UnbrokenIsStrokes | crates/alluno-input-windows/src/pointer.rs:220-224 | a move sequence that never breaks the finger's state is whole strokes Down Update* Up and at most one stroke still going on |
| WindowsTouch.AdvanceKeepsInv | crates/alluno-input-windows/src/pointer.rs:270-342 | every report, refused ones included, keeps: `down` repeats no id and is the set last reported down, with its positions |
| WindowsTouch.EveryFingerDrawsStrokes | crates/alluno-input-windows/src/pointer.rs:270-342 | over every run of distinct-id reports, with any injections refused, each finger's injected moves are such strokes, one being open if and only if the finger is in `down` |
| WindowsTouch.DownIsReportedDown | crates/alluno-input-windows/src/pointer.rs:327-341 | over every run `down` repeats no id and equals the ids the last successful report had down |
| WindowsTouch.PointersSitWhereReported | crates/alluno-input-windows/src/pointer.rs:281-286 | after any run every injected pointer sits at its contact, or for a vanished finger where it was last reported; the origin fallback is never taken |
| WindowsTouch.PointersShowContacts | crates/alluno-input-windows/src/pointer.rs:280-325 | after any run each injected pointer shows its contact: pixel rounded down, an area of the reported width and height centred on it, at most a pixel short and never under four, pressure on the 0..=1024 scale; a vanished finger where it was, four by four, without pressure |
| WindowsTouch.VanishedIsForgotten | crates/alluno-input-windows/src/pointer.rs:327-341 | a finger missing from a successful report is forgotten, position and all |
| WindowsTouch.OnePointerPerFinger | crates/alluno-input-windows/src/pointer.rs:270-342 | after any run, the frame a successful report injects holds exactly one pointer for each finger that was or is down, no two alike |
| WindowsTouch.SucceedsExactlyWhenTenFit | crates/alluno-input-windows/src/pointer.rs:255-342 | on a device that takes a frame of at most ten pointers, after any run, a report of at most ten distinct fingers succeeds if and only if old and new fingers together number at most ten |
| WindowsTouch.RefusedStaysRefused | crates/alluno-input-windows/src/pointer.rs:326 | on such a device a report with more than ten fingers to move stays refused however often it is repeated |
| WindowsTouch.SwapOfTenIsRefusedForGood | crates/alluno-input-windows/src/pointer.rs:255-342 | a concrete run: ten fingers down, then ten others in their place, asks for twenty pointers and is refused at every repetition |
| WindowsTouch.FramesCountAttempts | crates/alluno-input-windows/src/pointer.rs:278-316 | over every run frame numbers count the reports that had anything to inject, refused ones too, modulo 2^32, and all pointers of a frame carry one number |
| WindowsTouch.PointersCarryMoves | crates/alluno-input-windows/src/pointer.rs:280-325 | the injected pointers carry the computed moves under id plus one, in order |
| WindowsTouch.FailureKeepsKnowledge | crates/alluno-input-windows/src/pointer.rs:326 | a refused report or injection leaves `down` and the positions as they were |
| WindowsTouch.SyntheticTouch.ReportTouch | crates/alluno-input-windows/src/pointer.rs:270-342 | the digitiser's fields, the injected frame and the answer are the specified ones |
| Rescale.Monotone | crates/alluno-input-linux/src/x11.rs:221 | every 0..=65535 rescale is monotone |
| Rescale.Ends | crates/alluno-input-windows/src/pointer.rs:112-117 | 0 goes to 0 and 65535 to the maximum |
| Rescale.StaysInRange | crates/alluno-input-linux/src/devices.rs:167-169 | every rescaled value lies in 0..=m |
| Rescale.EveryValueIsReached | crates/alluno-input-windows/src/pointer.rs:112-117 | every value of 0..=m is hit when m is at most 65535 |
| Rescale.PressureProductsFit | crates/alluno-input-linux/src/devices.rs:167-169 | the tablet and pen pressure products fit the i32 and u32 they are computed in |
| Rescale.PixelProductsFit | crates/alluno-input-windows/src/pointer.rs:112-117 | the products fit the i64 they are taken in and the quotients the i32 they are cast to, for every screen of i32 fields |
| Rescale.PixelsFitExactly | crates/alluno-input-windows/src/pointer.rs:112-117 | no 32-bit sum overflows for any coordinate if and only if the screen's last column and row are 32-bit |
| Rescale.PixelsLieOnScreen | crates/alluno-input-windows/src/pointer.rs:112-117 | virtual-screen pixels lie on the screen and the corners map to the corners |
| Rescale.RootProductFits | crates/alluno-input-linux/src/x11.rs:217-222 | the u32 product of a root pixel never wraps, and the cast takes 65536 from exactly the pixels beyond 32767 |
| Rescale.RootPixelsExactlyUpTo | crates/alluno-input-linux/src/x11.rs:217-222 | the cast to i16 leaves every root pixel as rescaled if and only if the root window is at most 32768 wide |
| X11Text.UnicodeKeysymIsBitwiseOr | crates/alluno-input-linux/src/x11.rs:183 | or-ing the Unicode bit in is adding it, for every code point |
| X11Text.TextIsRecoverable | crates/alluno-input-linux/src/x11.rs:178-185 | the keysyms a text adds to the log, Return, Tab, Latin-1 or Unicode each by its number, determine the text |
| X11Text.OpenedTracks | crates/alluno-input-linux/src/x11.rs:276-302 | a keyboard just opened agrees with its server, and its spare key is the first with nothing bound, none only when every key has something |
| X11Text.NeedsSpareIs | crates/alluno-input-linux/src/x11.rs:304-316 | a character needs the spare key exactly when no row is led by its keysym, by number: the code point itself for Latin-1 |
| X11Text.TextKeepsTracking | crates/alluno-input-linux/src/x11.rs:337-347 | whatever requests are refused, the server's mapping differs from the cached one in the spare key's row at most |
| X11Text.TextTypesItself | crates/alluno-input-linux/src/x11.rs:362-377 | with the keys it needs up, text adds to the log exactly one keysym a character, in order: 0xff0d for newline, 0xff09 for tab, the code point in 0x20..0x7e and 0xa0..0xff, 0x0100_0000 more for any other; a front part when it fails; Unsupported means the next character has neither a key nor a spare |
| X11Text.MappingHoldsAgain | crates/alluno-input-linux/src/x11.rs:337-347 | the cached mapping holds on the server after every text that succeeds and borrowed, even if an earlier failure had left the spare key lent |
| X11Text.ReliableTextSucceedsExactly | crates/alluno-input-linux/src/x11.rs:362-377 | on a server that refuses nothing, text succeeds if and only if there is a spare key or no character needs one |
| X11Text.MappingStaysBorrowedExactlyWhen | crates/alluno-input-linux/src/x11.rs:337-347 | a character leaves the mapping changed if and only if the loan was granted and its return refused |
| X11Text.CharOnSpareKey | crates/alluno-input-linux/src/x11.rs:327-347 | what one borrowed character types, remaps and leaves held, for every pattern of refused requests |
| X11Text.X11Keyboard.BorrowSpare | crates/alluno-input-linux/src/x11.rs:337-347 | the server after a borrow and the answer are the specified ones: the return is attempted whatever became of the tap |
| X11Text.X11Keyboard.Text | crates/alluno-input-linux/src/x11.rs:362-377 | the loop does the specified requests and stops at the first failure |
| Keyboard.UsageIsInvertible | crates/alluno-input-core/src/hid/keyboard.rs:59-161 | each of the 99 keys can be read back from its usage |
| Keyboard.UsageIsInjective | crates/alluno-input-core/src/hid/keyboard.rs:59-161 | no two keys share a usage |
| Keyboard.WithBitAt | crates/alluno-input-core/src/hid/keyboard.rs:173-192 | setting or clearing a bit of a byte leaves the other seven alone |
| Keyboard.ApplyShows | crates/alluno-input-core/src/hid/keyboard.rs:173-192 | a transition moves the bit of its own key in the report and no other of the 136 declared ones |
| Keyboard.ReportIsHeldKeys | crates/alluno-input-core/src/hid/keyboard.rs:173-201 | after any run the report sets exactly the usages of keys whose last transition was a press |
| Keyboard.AnyDownExactly | crates/alluno-input-core/src/hid/keyboard.rs:204-206 | after any run any_down holds if and only if some key is held |
| Keyboard.StateIsHeldSet | crates/alluno-input-core/src/hid/keyboard.rs:165-171 | two runs leave the same codec state if and only if they hold the same keys |
| Keyboard.Codec.KeyTransition | crates/alluno-input-core/src/hid/keyboard.rs:173-192 | the fields after a transition and the report answered are the specified ones |
| Keyboard.Codec.IsAnyDown | crates/alluno-input-core/src/hid/keyboard.rs:204-206 | the loop over the bitmap answers the specified predicate |
| SwitchPro.PackingIsABijection | crates/alluno-input-core/src/hid/switch_pro.rs:180-190 | unpacking nine packed bytes gives back any six values below 4096, and repacking gives back any nine bytes |
| SwitchPro.PackNibbles | crates/alluno-input-core/src/hid/switch_pro.rs:180-190 | the loop over the three pairs packs as specified |
| SwitchPro.StickIsCentred | crates/alluno-input-core/src/hid/switch_pro.rs:423-425 | a stick minus the 0x800 centre is floor(axis / 16), and the clamp never acts |
| SwitchPro.SticksReadBack | crates/alluno-input-core/src/hid/switch_pro.rs:289-303 | unpacking the stick bytes of any report gives floor(axis / 16) from the centre for all four axes |
| SwitchPro.BlockDeterminesSnapshot | crates/alluno-input-core/src/hid/switch_pro.rs:230-304 | two snapshots with the same block press the same fifteen buttons, the same digital triggers, and agree on every stick to a sixteenth |
| SwitchPro.FullReportReads | crates/alluno-input-core/src/hid/switch_pro.rs:230-314 | a full report byte by byte: id, timer, charge, each button and digital trigger at its bit, sticks in sixteenths from 0x800, zeros |
| SwitchPro.SpiRead | crates/alluno-input-core/src/hid/switch_pro.rs:137-153 | the loop fills the requested bytes of the flash image |
| SwitchPro.ReadsCompose | crates/alluno-input-core/src/hid/switch_pro.rs:137-153 | a host reads the same bytes in one read or in two |
| SwitchPro.CalibrationReadsBack | crates/alluno-input-core/src/hid/switch_pro.rs:155-178 | the calibration a host reads at 0x603D unpacks to both sticks' range and centre |
| SwitchPro.FlashRegions | crates/alluno-input-core/src/hid/switch_pro.rs:137-178 | what a host reads in each region of the flash, and 0xFF everywhere else |
| SwitchPro.SticksLieInCalibratedRangeExactly | crates/alluno-input-core/src/hid/switch_pro.rs:131-133 | a stick lies in that calibrated range if and only if its axis is at least -32752 |
| SwitchPro.SubcommandIsAcknowledged | crates/alluno-input-core/src/hid/switch_pro.rs:316-377 | a 0x01 report of at least 11 bytes gets exactly one 64-byte 0x21 reply with its own subcommand, the next timer value and an untruncated payload; of all other reports only USB commands are replied to |
| SwitchPro.SubcommandReplyBytes | crates/alluno-input-core/src/hid/switch_pro.rs:316-377 | all 64 bytes of the reply to any subcommand: id, timer, the block of a pad at rest, code, subcommand, payload of device info, flash or charge, zeros |
| SwitchPro.UsbReplyBytes | crates/alluno-input-core/src/hid/switch_pro.rs:391-408 | all 64 bytes of the reply to a USB command |
| SwitchPro.OtherReportsAreRaw | crates/alluno-input-core/src/hid/switch_pro.rs:410-420 | a report too short for its kind, or of no known kind, is handed on unchanged and leaves the pad alone |
| SwitchPro.FlashReplyIsWholeExactly | crates/alluno-input-core/src/hid/switch_pro.rs:342-353 | a flash reply repeats the length asked for and carries that many bytes if and only if it is at most 29 |
| SwitchPro.AddressesAgree | crates/alluno-input-core/src/hid/switch_pro.rs:335-339 | the device info reply and the USB status reply name the same controller type and the same address, in opposite byte orders |
| SwitchPro.PlayerIsLampsLit | crates/alluno-input-core/src/hid/switch_pro.rs:354-363 | the player number is the number of the four lamp bits set, whichever arm answers |
| SwitchPro.PlayerIsMostRecent | crates/alluno-input-core/src/hid/switch_pro.rs:354-363 | over every run the player number is that of the lamps the most recent 0x30 asked for |
| SwitchPro.PlayerIsTold | crates/alluno-input-core/src/hid/switch_pro.rs:354-363 | a 0x30 tells the game its player number and nothing else does |
| SwitchPro.KthReportCarriesK | crates/alluno-input-core/src/hid/switch_pro.rs:224-227 | over every interleaving of encode and decode the k-th 0x30 or 0x21 report carries k modulo 256 |
| SwitchPro.RepliesAnswerInOrder | crates/alluno-input-core/src/hid/switch_pro.rs:328-377 | over every run the 0x21 replies echo the subcommands written, one for one and in order |
| SwitchPro.SwitchIsMostRecent | crates/alluno-input-core/src/hid/switch_pro.rs:366-369 | over every run the rumble switch is what the most recent 0x48 set |
| SwitchPro.RumbleExactlyWhenEnabled | crates/alluno-input-core/src/hid/switch_pro.rs:379-389 | after any run a report drives the motors if and only if it is a 0x01 of 11 or a 0x10 of 10 bytes at least and the most recent earlier 0x48 enabled them, at the amplitudes of its bytes 2 to 5 and 6 to 9 |
| SwitchPro.AmplitudeIsStrengthExactly | crates/alluno-input-core/src/hid/switch_pro.rs:427-439 | for a block whose byte 1 is the even high field or one more and whose byte 3, with byte 2's top bit as ninth, is the low field: the amplitude is the larger of high * 255 / 200 and (low - 64) * 255 / 50, each in 0..=255, if and only if not (low is 0x142 to 0x173 and high below 0xC8), where the product has wrapped; its value there too |
| SwitchPro.MotorsRunAsAsked | crates/alluno-input-core/src/hid/switch_pro.rs:379-389 | on the bytes of a report, after any run that enabled them, the motors run at those strengths of the report's two blocks |
| SwitchPro.Codec.Encode | crates/alluno-input-core/src/hid/switch_pro.rs:308-314 | the report and the timer after an encode are the specified ones |
| SwitchPro.Codec.Acknowledge | crates/alluno-input-core/src/hid/switch_pro.rs:316-326 | the 64 bytes of a reply and the timer are the specified ones, for a payload of any length |
| SwitchPro.Codec.HandleSubcommand | crates/alluno-input-core/src/hid/switch_pro.rs:328-377 | state, outputs and reply after a subcommand are the specified ones, the rumble before the switch |
| SwitchPro.Codec.HandleUsb | crates/alluno-input-core/src/hid/switch_pro.rs:391-408 | the reply to a USB command is the specified one, address reversed |
| SwitchPro.Codec.DecodeReport | crates/alluno-input-core/src/hid/switch_pro.rs:410-420 | every output report is dispatched as specified |
| TouchDescriptor.Parse | crates/alluno-input-core/tests/hid.rs:43-95 | the walk with a moving index answers the layout of the items, or nothing for a descriptor it would refuse |
| TouchDescriptor.WalkFindsItems | crates/alluno-input-core/tests/hid.rs:50-63 | walking the bytes of any short items interprets exactly those items |
| TouchDescriptor.FingerDeclares | crates/alluno-input-core/src/hid/touch.rs:39-84 | a finger collection is balanced and declares 96 more input bits, wherever it stands |
| TouchDescriptor.DescriptorDeclares | crates/alluno-input-core/src/hid/touch.rs:87-111 | for every n the descriptor with n fingers is well formed and balanced and declares input report 8 of 1 + 12n + 1 bytes, feature report 9 of two, and no other |
| TouchDescriptor.FieldsStartWhereRead | crates/alluno-input-core/src/hid/touch.rs:39-84 | each field of each finger starts at the bit the report is read at |
| TouchDescriptor.BuildDescriptor | crates/alluno-input-core/src/hid/touch.rs:115-141 | the nested copy loops build the descriptor for ten fingers |
| TouchDescriptor.Encode | crates/alluno-input-core/src/hid/touch.rs:150-172 | the buffer loop fills the specified report, for any number of contacts |
| TouchDescriptor.ReportReadsBack | crates/alluno-input-core/src/hid/touch.rs:150-172 | read at the declared offsets, a report gives each contact that fits back in order with scaled pressure, blank slots after them, and their number |
| TouchDescriptor.ReportBytes | crates/alluno-input-core/src/hid/touch.rs:150-172 | a report byte by byte: id 8, for each of the first ten contacts tip, id, x, y, width, height and pressure on the 1..=4095 scale, zeros in the slots left, and the number of contacts last |
| TouchDescriptor.ReportHasDeclaredSize | crates/alluno-input-core/tests/hid.rs:83-93 | the report is as long as its descriptor declares |
| TouchDescriptor.PressureMeansDown | crates/alluno-input-core/src/hid/touch.rs:163-167 | reported pressure is positive if and only if the finger is down |
| DualShock4.TranslationsAgree | crates/alluno-input-windows/src/vigem.rs:161-237 | for every snapshot and counter the two translations give the same sticks, hat and button word, PS bit and triggers |
| DualShock4.NthReportCarriesN | crates/alluno-input-core/src/hid/dualshock4.rs:384-389 | over every run the n-th report carries n modulo 64 above the PS button |
| DualShock4.ReportReads | crates/alluno-input-core/src/hid/dualshock4.rs:341-401 | a report byte by byte: id, sticks, hat, each button at its bit, counter with PS, triggers, and the fixed tail |
| DualShock4.ReportDeterminesSnapshot | crates/alluno-input-core/src/hid/dualshock4.rs:341-401 | two snapshots that report alike press the same eleven buttons beside the D-pad and have the same hat, triggers and upper bytes of the X axes, and Y axes within 256; where neither presses opposite directions all fifteen buttons are the same |
| DualShock4.Codec.Encode | crates/alluno-input-core/src/hid/dualshock4.rs:341-401 | the report and counter after an encode are the specified ones |
| DualShock4.EncodeAll | crates/alluno-input-core/src/hid/dualshock4.rs:341-401 | a fresh codec run over any snapshots makes exactly the specified reports |
| DualShock4.XGamepadToDs4 | crates/alluno-input-windows/src/vigem.rs:161-237 | the button word built bit by bit and the fields are the specified ones |
| Gamepad.HatReadsBackExactly | crates/alluno-input-core/src/hid/mod.rs:185-202 | a game reads the D-pad back from the hat if and only if no two opposite directions are pressed |
| Gamepad.ClampActsExactlyAt | crates/alluno-input-core/src/hid/mod.rs:205-213 | the clamp acts on one axis value only, the lowest inverted one; elsewhere the bytes are plain floors |
| Gamepad.SameButtonsWhenPressedAlike | crates/alluno-input-core/src/gamepad.rs:38-73 | the fifteen button bits are distinct and complete but for bit 11 |

## Left out

- Lock interleavings inside one Windows plug, and callbacks that reach a slot after its node was deleted.
- Driver stop and device cleanup, which unplug every slot whoever owns it; the version queries.
- KMDF, VHF, DriverKit and IOKit objects, URB and MDL memory, USB descriptor tables, PnP and power.
- Bulk-copied buffers (`Output`, `LastInput`, `Input`, a feature's data) are byte sequences, not arrays with a separate length.
- Partial writes to `/dev/uinput`, and the `uinput` device set-up.
- Other X clients that change the mapping, the server's case expansion of one-column rows, and `key` presses on a borrowed keycode.
- An injected Windows pointer carries its move in place of the flag word it stands for.
- A macOS input whose transfer buffer cannot be made, which is refused before it is remembered.
- Windows pen injection: its flags are one match on the last and the new sample.
- SwitchPro.SpiRead: an address so high that adding the offset wraps u32 reads as erased flash.
- The panic a debug build raises where a sum or product overflows.
- DualShock4.ReportDeterminesSnapshot: the inverted Y axes agree within 256, not to their upper byte, because the clamp joins their lowest value to the byte above it; the output reports of the DualShock 4 are not decoded.
- The other pad codecs (DualSense, Xbox, generic), the mouse and pen codecs, the ViGEm and kernel-filter clients, key tables of the platforms, FFI, CLI, installer, activator and probe: lookups, wrappers or foreign calls.
