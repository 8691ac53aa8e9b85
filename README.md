# Social_tag radio firmware and host tool, modelled in Dafny

The system is a tag game played with ESP32 badges. One **master** board
(RF24-MasterForControlUI) talks over nRF24L01 radios to several **slave**
badges (RF24-Slave), and a Python host tool (MasterControlUI) drives the
master over a serial line. This project models the core logic of all three
programs and proves properties of the model.

- **Master** (`master.dfy`, `master_radio.dfy`, `master_led.dfy`,
  `master_config.dfy`, `registry.dfy`):
  - the registry of discovered slaves: a sorted vector without duplicates or
    id 0, with its heartbeat and name maps;
  - the discovery handshake;
  - the routing of frames by arrival pipe;
  - the serial command dispatcher, including the `*NAME_<id>=<name>#` parser;
  - removal of a slave, and the log-only liveness check;
  - the DISCOVERY / IDLE / GAME_RUNNING mode machine with its quorum of 2;
  - the radio wrapper: bursts, 32-byte frames, and the `"<id>NODE"` reply
    pipes on pipes 1..5 (as the addresses passed to the library; the chip's
    address sharing on pipes 2..5 is left out);
  - the RGB status cycle.
- **Slave** (`slave.dfy`, `slave_radio.dfy`, `slave_config.dfy`, `nfc.dfy`):
  - the `parseAndCheckId` selector, as a method proved against a predicate;
  - the per-frame dispatch of the radio task;
  - one pass of the logic task: button rules, stop and blink priority,
    heartbeats, and the task loops bounded by `TASK_TIMEOUT_MS`;
  - frame decoding: cut at NUL, trim, reject an empty result;
  - the NFC UID text `"UID:"` plus upper-case hex;
  - the emulator URL.
- **Host** (`backend.dfy`): `process_log_line` as a fold over log lines into
  a device-id set and a discovery flag. Also the command builders and the
  connection state.
- **Between programs** (`interop.dfy`, `mirror.dfy`):
  - every log line the model keeps is read by the host as intended (the
    serial diagnostics left out below are not kept);
  - every command the host writes reaches the master's dispatcher as
    intended;
  - the handshake frames of one firmware decode correctly in the other;
  - the main theorem, `HostMirror.RunAgrees`: after any sequence of master
    loop passes, with any radio frames arriving between them, a host that
    has read the log from boot holds exactly the master's slave ids, and its
    discovery flag matches the master's mode. For the firmware this holds
    provided no registered name and no received payload contains one of the
    host's key phrases, and the host stays connected from boot;
    `HostMirror.JoinFromBoot` shows a run in which a device does join.

## How the model is built

Each imperative source file has two layers:

- pure functions on a state record (`Master.MasterState`, `Slave.Peer`,
  `MasterLed.Led`, `Backend.Host`, `Rf24.Radio`);
- a class that holds the same state in fields. Its methods are proved to
  produce exactly `Spec(old(State()), …)`. The loops of the source stay
  loops:
  - the burst and pipe-binding loops of `RadioModule`;
  - the map walk of `checkSlaveTimeouts`;
  - the id scan of `parseAndCheckId`;
  - the task loops;
  - the hex loop of `runReaderTask`.

The properties are proved as lemmas about the state functions.

**The radio** is a record:

- the listening flag;
- the writing pipe;
- the map from reading pipe to address;
- the log of frames sent;
- the receive FIFO, which the environment fills.

Whether a write is acknowledged is a fixed function of the write's position
in the send log.

**Time** is an explicit input. `millis()` values are `U32`, and differences
wrap modulo 2^32.

**The game mode** is abstract. The master's `IGameMode` answers
(`handlePacket`, `isFinished`) are inputs, `GameOracle`.

**The slave's two FreeRTOS tasks** are two atomic step functions on one
shared state.

## Model

| member | source | states |
|---|---|---|
| Text.Elapsed | RF24-MasterForControlUI/src/main.cpp:220-223 | `now - since` on unsigned long is the plain difference when now >= since and wraps by 2^32 otherwise |
| Text.Decimal | RF24-MasterForControlUI/src/main.cpp:153 | String(n) is a non-empty digit string without a leading zero |
| Text.DecimalValue | RF24-MasterForControlUI/src/main.cpp:153 | reading String(n) back as digits gives n |
| Text.DecimalInjective | RF24-Slave/src/main.cpp:75 | two numbers have equal decimal texts iff they are equal, so id-text comparison is id comparison |
| Text.LeadingDigits | RF24-MasterForControlUI/src/main.cpp:172 | the digit prefix atol reads is all digits, is a prefix, and stops at the first non-digit |
| Text.LeadingDigitsOfDigits | RF24-MasterForControlUI/src/main.cpp:172 | the digit prefix of digits followed by a non-digit is exactly those digits |
| Text.SkipSpaces | RF24-MasterForControlUI/src/main.cpp:172 | what atol skips is all white space, and the rest starts with a non-space |
| Text.ToIntDecimal | RF24-MasterForControlUI/src/main.cpp:81 | toInt() of String(n) followed by a non-digit is n |
| Text.IndexOf | RF24-MasterForControlUI/src/main.cpp:167 | indexOf(c, from) is the first position at or after `from` holding c, or -1 when there is none |
| Text.LastIndexOf | RF24-MasterForControlUI/src/main.cpp:168 | lastIndexOf(c) is the last position holding c, or -1 |
| Text.Substring | RF24-Slave/src/main.cpp:73 | substring(l, r) is the slice between the two, with the arguments swapped when l > r, the upper end clamped to the length, and "" when both are at or past the end |
| Text.Trim | RF24-Slave/src/RadioModule.cpp:39 | trim() leaves no white space at either end, leaves a trimmed string as it is, and is empty iff the input is all white space |
| Text.TrimRight | RF24-Slave/src/RadioModule.cpp:39 | the right half of trim() is a prefix, and what it dropped is white space |
| Text.CutAtNul | RF24-MasterForControlUI/src/RadioModule.cpp:79 | String(buffer) is the prefix before the first NUL |
| Text.CutAtNulNone | RF24-MasterForControlUI/src/RadioModule.cpp:79 | a buffer without NUL is read whole |
| Text.ToUpper | RF24-Slave/src/NfcModule.cpp:34 | toUpperCase() maps each character and keeps the length |
| Rf24.Repeat | RF24-MasterForControlUI/src/RadioModule.cpp:33-38 | n copies of one write |
| Rf24.Writes | RF24-MasterForControlUI/src/RadioModule.cpp:33-38 | n writes append n copies of the frame on the current pipe and change nothing else |
| Rf24.Frame | RF24-MasterForControlUI/src/RadioModule.cpp:30-31 | toCharArray into char[32] gives a 32-byte frame |
| Rf24.FrameReadBack | RF24-MasterForControlUI/src/RadioModule.cpp:30-31 | the receiver's String(buffer) of a frame is the first 31 characters of the packet: longer commands are cut |
| Rf24.CutAtNulPrefix | RF24-MasterForControlUI/src/RadioModule.cpp:77-79 | text followed by a NUL reads back as the text |
| Rf24.Buffer | RF24-Slave/src/RadioModule.cpp:35-36 | a 32-byte read fills a 32-byte buffer, the tail NUL where the payload is shorter |
| SlaveConfig.MyUid | RF24-Slave/src/Config.h:40-50 | my_uid has three bytes |
| SlaveConfig.MyUidDistinct | RF24-Slave/src/Config.h:40-50 | devices 1..4 emulate UIDs different from every other device's |
| Registry.AscendingTail | RF24-MasterForControlUI/src/main.cpp:143-144 | the tail of a sorted, duplicate-free vector is one too, and all of it is above the head |
| Registry.AscendingCons | RF24-MasterForControlUI/src/main.cpp:143-144 | a smaller head keeps a vector ascending |
| Registry.Insert | RF24-MasterForControlUI/src/main.cpp:143-144 | push_back then sort: the elements are the old ones plus x, there is one more, and a new x keeps the vector strictly ascending |
| Registry.Remove | RF24-MasterForControlUI/src/main.cpp:205-207 | std::remove then erase: the elements are the old ones minus x, an absent x changes nothing, and order is kept |
| Registry.HeadIsLeast | RF24-MasterForControlUI/src/main.cpp:144 | the head of the sorted vector is its least element |
| Registry.AscendingUnique | RF24-MasterForControlUI/src/main.cpp:144 | two ascending vectors with the same elements are equal |
| Registry.InsertIsSort | RF24-MasterForControlUI/src/main.cpp:143-144 | Insert gives the one ascending vector holding the old ids and x, as std::sort would |
| Registry.RemoveInsert | RF24-MasterForControlUI/src/main.cpp:143-144 | removing an id just added restores the vector |
| NameCommand.ParseName | RF24-MasterForControlUI/src/main.cpp:167-171 | a name command is accepted iff 0 < position of the first '=' < position of the last '#' |
| NameCommand.ParseNameCommand | RF24-MasterForControlUI/src/main.cpp:166-171 | `*NAME_<id>=<name>#` parses back to the same id text and name |
| MasterRadio.BroadcastEffect | RF24-MasterForControlUI/src/RadioModule.cpp:26-41 | a broadcast ends listening, writes on the command pipe, and sends `burst` copies of the 32-byte frame |
| MasterRadio.Discover | RF24-MasterForControlUI/src/RadioModule.cpp:43-50 | discovery binds pipe 1 to DISC1, flushes the FIFOs and listens |
| MasterRadio.Bindings | RF24-MasterForControlUI/src/RadioModule.cpp:60-73 | pipes 1..min(n, 5) are bound, pipe k to `"<devices[k-1]>NODE"` |
| MasterRadio.OperateIdempotent | RF24-MasterForControlUI/src/RadioModule.cpp:60-73 | rebinding to the same devices changes nothing more |
| MasterRadio.OperateBinds | RF24-MasterForControlUI/src/RadioModule.cpp:60-73 | operation mode binds reply pipes 1..5 to the first five devices, leaves other pipes as they were and listens; further devices are skipped without error |
| MasterRadio.PollsConsumeOne | RF24-MasterForControlUI/src/RadioModule.cpp:52-58 | a poll reports nothing iff the FIFO is empty, otherwise takes exactly one frame, and never sends |
| MasterRadio.BindingsStep | RF24-MasterForControlUI/src/RadioModule.cpp:63-69 | one turn of the binding loop adds pipe i+1 only when i < 5 |
| MasterRadio.RadioModule.constructor | RF24-MasterForControlUI/src/RadioModule.cpp:6 | the module starts on a standby radio |
| MasterRadio.RadioModule.Write | RF24-MasterForControlUI/src/RadioModule.cpp:34 | one write is logged; the ack is the link's answer for that write |
| MasterRadio.RadioModule.BroadcastPacket | RF24-MasterForControlUI/src/RadioModule.cpp:26-41 | the new radio state is the broadcast, and success holds iff at least one of the burst's writes was acknowledged |
| MasterRadio.RadioModule.SwitchToDiscoveryMode | RF24-MasterForControlUI/src/RadioModule.cpp:43-50 | the new radio state is Discover of the old |
| MasterRadio.RadioModule.ListenForDiscovery | RF24-MasterForControlUI/src/RadioModule.cpp:52-58 | heard iff a frame was waiting; the id is its first byte |
| MasterRadio.RadioModule.SwitchToOperationMode | RF24-MasterForControlUI/src/RadioModule.cpp:60-73 | the loop's bindings equal Operate of the old state |
| MasterRadio.RadioModule.ListenForResponse | RF24-MasterForControlUI/src/RadioModule.cpp:75-83 | heard iff a frame was waiting; the payload is its text up to the first NUL, with its arrival pipe |
| MasterRadio.RadioModule.Flush | RF24-MasterForControlUI/src/RadioModule.cpp:85-88 | both FIFOs are flushed |
| MasterRadio.PipeStrOverflow | RF24-MasterForControlUI/src/RadioModule.cpp:65-66 | `"%dNODE"` plus NUL fits the 6-byte pipe_str iff id < 10 |
| MasterRadio.PipeNameFits | RF24-MasterForControlUI/src/RadioModule.cpp:65-66 | with an 8-byte buffer every uint8_t id fits |
| MasterLed.OutputPriority | RF24-MasterForControlUI/src/MasterLedModule.cpp:61-83 | setRgbColor gives red priority over green over blue; LED2 lights only for pure blue; all zero is dark |
| MasterLed.RedLooksLikeGreen | RF24-MasterForControlUI/src/MasterLedModule.cpp:44-57 | the red and green phases drive identical pin outputs, and blue differs |
| MasterLed.InitialValid | RF24-MasterForControlUI/src/MasterLedModule.cpp:6-10 | the constructed state is valid (colour index below 3) |
| MasterLed.OperationsValid | RF24-MasterForControlUI/src/MasterLedModule.cpp:18-42 | start, stop and update keep the colour index in {0,1,2} |
| MasterLed.CycleOfThree | RF24-MasterForControlUI/src/MasterLedModule.cpp:40-57 | three timed updates return to the same colour and outputs |
| MasterLed.MasterLedModule.constructor | RF24-MasterForControlUI/src/MasterLedModule.cpp:6-10 | inactive, time 0, red index, dark |
| MasterLed.MasterLedModule.Begin | RF24-MasterForControlUI/src/MasterLedModule.cpp:12-16 | begin() turns both outputs off and changes nothing else |
| MasterLed.MasterLedModule.SetRgbColor | RF24-MasterForControlUI/src/MasterLedModule.cpp:61-83 | the outputs become the priority mapping of the colour |
| MasterLed.MasterLedModule.TurnOff | RF24-MasterForControlUI/src/MasterLedModule.cpp:85-88 | both outputs 0, nothing else changes |
| MasterLed.MasterLedModule.StartDiscoveryMode | RF24-MasterForControlUI/src/MasterLedModule.cpp:18-24 | starting activates the loop, resets to red and records the time |
| MasterLed.MasterLedModule.StopDiscoveryMode | RF24-MasterForControlUI/src/MasterLedModule.cpp:26-30 | stopping deactivates the loop and darkens both outputs |
| MasterLed.MasterLedModule.SetIdleMode | RF24-MasterForControlUI/src/MasterLedModule.cpp:32-35 | idle is the same as stop |
| MasterLed.MasterLedModule.UpdateLoop | RF24-MasterForControlUI/src/MasterLedModule.cpp:37-59 | the new state is Update of the old |
| Master.TimeoutLines | RF24-MasterForControlUI/src/main.cpp:229-232 | one `[TIMEOUT]` line per timed-out id, in order |
| Master.OverdueSpec | RF24-MasterForControlUI/src/main.cpp:221-228 | the collected ids are exactly the heartbeat keys more than 30000 ms old, with wrap-around, in ascending (std::map) order |
| Master.BootValid | RF24-MasterForControlUI/src/main.cpp:16-21 | the boot state satisfies the registry invariant, is in DISCOVERY and has no game |
| Master.ModeSwitches | RF24-MasterForControlUI/src/main.cpp:236-261 | both switches clear the game and keep the registry. Idle has fewer than 2 slaves ⇒ DISCOVERY with the discovery radio; otherwise IDLE with pipes bound to the slaves |
| Master.AnnounceEffect | RF24-MasterForControlUI/src/main.cpp:141-154 | an announce keeps the invariant, adds the id (a known id leaves vector and log unchanged), refreshes only its heartbeat, then sends a burst of 3 one-byte acks and a burst of 3 `*STOP_<id>#` |
| Master.HandleDiscoveryValid | RF24-MasterForControlUI/src/main.cpp:134-156 | a discovery step keeps the invariant; nothing heard changes nothing; an id-0 frame is only consumed |
| Master.HandleRadioEffect | RF24-MasterForControlUI/src/main.cpp:105-132 | pipe 0 or a pipe beyond the slaves is discarded; a heartbeat only refreshes the sender `slaves[pipe-1]`; registry, names, mode and log never change; only a game can make it send |
| Master.UnregisterValid | RF24-MasterForControlUI/src/main.cpp:205-209 | removing a present id removes only it (order kept) and its heartbeat entry, keeps its name, and keeps the invariant |
| Master.RemoveSlaveEffect | RF24-MasterForControlUI/src/main.cpp:204-218 | an absent id changes nothing. A present one is removed with its heartbeat, not its name. IDLE rebinds pipes and stays IDLE, DISCOVERY stays unchanged, GAME_RUNNING falls to switchToIdleMode |
| Master.CheckTimeoutsEffect | RF24-MasterForControlUI/src/main.cpp:219-235 | the check runs at most once per 5000 ms, only logs, and never changes registry, heartbeats, names, mode or radio |
| Master.OverdueAreSlaves | RF24-MasterForControlUI/src/main.cpp:222-223 | under the invariant the timed-out ids are exactly the registered slaves silent for more than 30 s |
| Master.CommandEffect | RF24-MasterForControlUI/src/main.cpp:158-202 | every serial command keeps the invariant and the registry; only a name command changes the name map |
| Master.CommandTable | RF24-MasterForControlUI/src/main.cpp:160-201 | the exact commands dispatch to their branches; the scenario commands and `*RANDOM_01#` do nothing |
| Master.NotNamedOrRemoved | RF24-MasterForControlUI/src/main.cpp:166-181 | commands differing at positions 1 and 2 match neither prefix branch |
| Master.RemoveJoinOnlyForwards | RF24-MasterForControlUI/src/main.cpp:181-184 | `*REMOVEJOIN_…` is only re-broadcast in a burst of 5; the registry is untouched |
| Master.SerialInputValid | RF24-MasterForControlUI/src/main.cpp:72-84 | whatever the serial line, the invariant holds afterwards and no game appears |
| Master.AutoStartValid | RF24-MasterForControlUI/src/main.cpp:56-60 | the scheduled discovery start keeps the invariant |
| Master.TimeoutValid | RF24-MasterForControlUI/src/main.cpp:62-64 | the timeout phase keeps the invariant |
| Master.RadioValid | RF24-MasterForControlUI/src/main.cpp:66-70 | the radio phase keeps the invariant |
| Master.SerialValid | RF24-MasterForControlUI/src/main.cpp:72-84 | the serial phase keeps the invariant |
| Master.ModeValid | RF24-MasterForControlUI/src/main.cpp:86-102 | the mode switch keeps the invariant |
| Master.AnnounceNoGame | RF24-MasterForControlUI/src/main.cpp:134-156 | discovery never changes the mode or the game |
| Master.LoopStepValid | RF24-MasterForControlUI/src/main.cpp:54-103 | one pass of loop() keeps the registry invariant, and no game is ever created |
| Master.RunInvariant | RF24-MasterForControlUI/src/main.cpp:54-103 | any number of passes, whatever frames arrive between them, keeps the invariant and GAME_RUNNING is never reached |
| Master.JoinFrameConsumedEarly | RF24-MasterForControlUI/src/main.cpp:66-90 | in discovery with no slaves, a join frame is taken by listenForResponse and dropped before handleDiscoveryState sees it |
| Master.JoinNeedsTwoFrames | RF24-MasterForControlUI/src/main.cpp:66-90 | with the same join frame queued twice, the first is dropped and the second registers the id (sorted insert, unless known) and empties the FIFO |
| Master.IntendedJoinRegisters | RF24-MasterForControlUI/src/main.cpp:133-150 | with the radio phase left out in DISCOVERY, a single queued join frame registers its id, keeps the invariant and empties the FIFO |
| Master.IntendedLoopStepValid | RF24-MasterForControlUI/src/main.cpp:54-103 | the corrected pass keeps the registry invariant and creates no game |
| Master.AnnounceOrder | RF24-MasterForControlUI/src/main.cpp:143-144 | the registry after two announces does not depend on their order |
| Master.Controller.Setup | RF24-MasterForControlUI/src/main.cpp:42-52 | setup() yields the boot state, with discovery scheduled 10 s on |
| Master.Controller.SwitchToDiscoveryMode | RF24-MasterForControlUI/src/main.cpp:252-261 | the fields become EnterDiscovery of the old state |
| Master.Controller.SwitchToIdleMode | RF24-MasterForControlUI/src/main.cpp:236-251 | the fields become IdleSwitch of the old state |
| Master.Controller.HandleDiscoveryState | RF24-MasterForControlUI/src/main.cpp:134-156 | the fields become HandleDiscovery of the old state |
| Master.Controller.HandleRadioPacket | RF24-MasterForControlUI/src/main.cpp:105-132 | the fields become HandleRadio of the old state |
| Master.Controller.ProcessSerialCommand | RF24-MasterForControlUI/src/main.cpp:158-202 | the fields become Command of the parsed command |
| Master.Controller.ExecuteCommand | RF24-MasterForControlUI/src/main.cpp:160-201 | each branch performs Command |
| Master.Controller.NameDevice | RF24-MasterForControlUI/src/main.cpp:169-179 | the name is stored under (uint8_t)toInt(id text), then the command and `*BLINK_WHITE_<id>#` go out in bursts of 3 |
| Master.Controller.EndDiscovery | RF24-MasterForControlUI/src/main.cpp:188-195 | the fields become Command(DiscoveryOff) of the old state |
| Master.Controller.RemoveSlave | RF24-MasterForControlUI/src/main.cpp:204-218 | the fields become RemoveSlaveSpec of the old state |
| Master.Controller.CheckSlaveTimeouts | RF24-MasterForControlUI/src/main.cpp:219-235 | the fields become CheckTimeouts of the old state |
| Master.Controller.CollectOverdue | RF24-MasterForControlUI/src/main.cpp:221-228 | the loop over the map returns exactly Overdue of the heartbeats |
| Master.Controller.LogTimeouts | RF24-MasterForControlUI/src/main.cpp:229-232 | the loop appends exactly one timeout line per id |
| Master.Controller.AutoStart | RF24-MasterForControlUI/src/main.cpp:56-60 | the fields become AutoStartPhase of the old state |
| Master.Controller.PollRadio | RF24-MasterForControlUI/src/main.cpp:66-70 | the fields become RadioPhase of the old state |
| Master.Controller.PollSerial | RF24-MasterForControlUI/src/main.cpp:72-84 | the fields become SerialPhase of the old state |
| Master.Controller.RunMode | RF24-MasterForControlUI/src/main.cpp:86-102 | the fields become ModePhase of the old state |
| Master.Controller.Loop | RF24-MasterForControlUI/src/main.cpp:54-103 | the fields become LoopStep of the old state |
| SlaveRadio.Decode | RF24-Slave/src/RadioModule.cpp:33-45 | an accepted command is non-empty, NUL-free and trimmed at both ends |
| SlaveRadio.TrimKeepsNoNul | RF24-Slave/src/RadioModule.cpp:37-39 | trimming a NUL-free string keeps it NUL-free |
| SlaveRadio.DecodeFrame | RF24-Slave/src/RadioModule.cpp:33-45 | a trimmed, non-empty command of at most 31 characters sent in a frame decodes to itself |
| SlaveRadio.DecodeOneByte | RF24-Slave/src/RadioModule.cpp:37-43 | a one-byte frame is dropped iff the byte is 0 or a white-space code |
| SlaveRadio.RadioModule.Begin | RF24-Slave/src/RadioModule.cpp:9-26 | begin() listens on pipe 1 bound to CMD01 with empty FIFOs |
| SlaveRadio.RadioModule.ListenForCommand | RF24-Slave/src/RadioModule.cpp:33-45 | nothing waiting gives false and no change. Otherwise one frame is consumed, and the result is true iff it decodes, giving the decoded text |
| SlaveRadio.RadioModule.SendJoinRequest | RF24-Slave/src/RadioModule.cpp:47-52 | exactly one byte, the id, is sent on DISC1, and the radio listens again |
| SlaveRadio.RadioModule.SendResponse | RF24-Slave/src/RadioModule.cpp:55-66 | the first 31 characters plus NUL go out as a 32-byte frame on `"<id>NODE"` |
| SlaveRadio.RadioModule.SendTestPacket | RF24-Slave/src/RadioModule.cpp:68-79 | `"Channel Test from #<id>"` goes out on `"<id>NODE"` |
| SlaveRadio.SendShape | RF24-Slave/src/RadioModule.cpp:48-51 | a send adds exactly one frame, ends listening, and keeps the bindings and FIFO |
| SlaveRadio.TestTextFits | RF24-Slave/src/RadioModule.cpp:74-76 | the test text fits a frame and reads back whole |
| SlaveRadio.ReplyPipeOverflow | RF24-Slave/src/RadioModule.cpp:57-71 | the reply address plus NUL fits the 6-byte pipe_name iff DEVICE_ID < 10 |
| SlaveRadio.ReplyPipeFits | RF24-Slave/src/RadioModule.cpp:57-71 | with an 8-byte buffer every reply address fits |
| Nfc.HexPairs | RF24-Slave/src/NfcModule.cpp:29-35 | two upper-case hex digits per byte, high nibble first, in byte order |
| Nfc.PaddedHex | RF24-Slave/src/NfcModule.cpp:31-32 | the padded hex of a byte has two characters |
| Nfc.PaddedHexUpper | RF24-Slave/src/NfcModule.cpp:31-34 | after toUpperCase the two characters are the byte's high and low nibble |
| Nfc.ToUpperAppend | RF24-Slave/src/NfcModule.cpp:34 | upper-casing is per character, so it distributes over concatenation |
| Nfc.HexValueUpper | RF24-Slave/src/NfcModule.cpp:32 | each upper-case hex digit reads back as its value |
| Nfc.ParsePairsHex | RF24-Slave/src/NfcModule.cpp:29-33 | the hex pairs decode back to the UID bytes |
| Nfc.UidRoundTrip | RF24-Slave/src/NfcModule.cpp:29-35 | the result has length 4 + 2·uidLength and decodes back to the same UID |
| Nfc.NfcModule.RunReaderTask | RF24-Slave/src/NfcModule.cpp:21-40 | true iff a tag is read, then the result is `"UID:"` plus the hex pairs; otherwise the old result is kept |
| Nfc.ReaderStep | RF24-Slave/src/NfcModule.cpp:30-33 | one loop turn extends the upper-cased text by the next byte's pair |
| Nfc.HexPairsAppend | RF24-Slave/src/NfcModule.cpp:30-33 | the pairs of `uid + [b]` are those of uid followed by b's pair |
| Nfc.InitEmulator | RF24-Slave/src/NfcModule.cpp:43-58 | emulation is set up iff the encoded size is at most 120, then with the device's UID and a URL starting with NDEF_BASE_URL |
| Nfc.EmulatorUrlNamesDevice | RF24-Slave/src/NfcModule.cpp:45 | the URL ends in the device id's decimal text, which reads back as the id |
| Slave.Fields | RF24-Slave/src/main.cpp:77-83 | the id list splits into at least one '-'-separated field |
| Slave.FieldsSplit | RF24-Slave/src/main.cpp:77-83 | joining the fields with '-' restores the list, and no field holds '-' |
| Slave.FieldsNoDash | RF24-Slave/src/main.cpp:78-79 | a list without '-' is one field |
| Slave.FieldsDash | RF24-Slave/src/main.cpp:78-82 | `a-b` is field a followed by the fields of b |
| Slave.FieldsCons | RF24-Slave/src/main.cpp:78-82 | how one leading character extends the fields |
| Slave.FieldsAt | RF24-Slave/src/main.cpp:78-82 | from any position, the fields are the slice up to the next '-' (or the end) followed by the fields after it |
| Slave.ParseAndCheckId | RF24-Slave/src/main.cpp:69-85 | the result is true iff the command starts with the prefix and its id list is "ALL" or has DEVICE_ID's decimal text as a field |
| Slave.ScanFields | RF24-Slave/src/main.cpp:76-84 | the while loop returns true iff my id text is one of the fields; it ends because current_pos grows |
| Slave.ScanStep | RF24-Slave/src/main.cpp:78-82 | one turn of the loop: the id is among the remaining fields iff it is this field or among those after the separator |
| Slave.SelectsAll | RF24-Slave/src/main.cpp:74 | `<prefix>ALL#` selects every device |
| Slave.DigitsNoDash | RF24-Slave/src/main.cpp:75 | a decimal id has no '-', '#' or '=' |
| Slave.DecimalNotAll | RF24-Slave/src/main.cpp:74-75 | no id text is "ALL" |
| Slave.SelectsOne | RF24-Slave/src/main.cpp:69-85 | `<prefix><n>#` selects exactly device n |
| Slave.SelectsPair | RF24-Slave/src/main.cpp:69-85 | `<prefix><a>-<b>#` selects exactly devices a and b |
| Slave.ScoreStartPrefix | RF24-Slave/src/main.cpp:105 | the prefix lacks its `_`: `*SCORE_MODE_START_ALL#` selects nobody, `*SCORE_MODE_STARTALL#` everybody |
| Slave.ResetToIdle | RF24-Slave/src/main.cpp:302-311 | resetToIdleState sets IDLE and clears stop and both buttons, nothing else |
| Slave.ModeCommand | RF24-Slave/src/main.cpp:95-115 | the mode chain changes at most the mode (and the flags via resetToIdleState) |
| Slave.Ack | RF24-Slave/src/main.cpp:117-119 | the join ack only ever moves JOINING to CONFIRM_BLINKING |
| Slave.Interrupt | RF24-Slave/src/main.cpp:121-139 | the second chain only raises stop or blink, forces JOINING, or sets the name, and a name needs `*NAME_` |
| Slave.ModeOnly | RF24-Slave/src/main.cpp:92-139 | a command that matches no prefix of the second chain and is no join ack for this device changes the state only through the mode chain |
| Slave.ReadCommand | RF24-Slave/src/main.cpp:95-96 | `*READ_ALL#` sets READER and nothing else |
| Slave.EmulateCommand | RF24-Slave/src/main.cpp:97-98 | `*EMULATE_ALL#` sets EMULATOR |
| Slave.TestPipeCommand | RF24-Slave/src/main.cpp:99-100 | `*TESTPIPE_ALL#` sets CHANNEL_TEST |
| Slave.YellowCommand | RF24-Slave/src/main.cpp:101-102 | `*SETCOLOR_YELLOW_ALL#` sets TEAM_WAITING |
| Slave.RainbowCommand | RF24-Slave/src/main.cpp:103-104 | `*SETCOLOR_RAINBOW_ALL#` sets SPOTLIGHT |
| Slave.ScoreStartCommand | RF24-Slave/src/main.cpp:105-106 | `*SCORE_MODE_STARTALL#` sets SCORE_EMULATOR |
| Slave.ScoreStopCommand | RF24-Slave/src/main.cpp:107-108 | `*SCORE_MODE_STOPALL#` is resetToIdleState |
| Slave.CooldownStartCommand | RF24-Slave/src/main.cpp:109-110 | `*COOLDOWN_START_ALL#` sets COOLDOWN |
| Slave.CooldownEndCommand | RF24-Slave/src/main.cpp:111-115 | `*COOLDOWN_END_ALL#` moves only COOLDOWN to SCORE_EMULATOR and leaves every other mode unchanged |
| Slave.StarAck | RF24-Slave/src/main.cpp:117 | a command starting with '*' is an ack only for device 42 while joining |
| Slave.StopCommand | RF24-Slave/src/main.cpp:121-122 | `*STOP_<n>#` raises stop iff n is this device and changes nothing else (but the 42 ack) |
| Slave.StopNoMode | RF24-Slave/src/main.cpp:95-115 | `*STOP_<n>#` matches no mode command |
| Slave.StopInterrupt | RF24-Slave/src/main.cpp:121-122 | the second chain raises stop exactly for the addressed device |
| Slave.RemoveJoinCommand | RF24-Slave/src/main.cpp:123-125 | `*REMOVEJOIN_<n>#` forces JOINING iff n is this device |
| Slave.RemoveJoinNoMode | RF24-Slave/src/main.cpp:95-115 | `*REMOVEJOIN_<n>#` matches no mode command |
| Slave.RemoveJoinInterrupt | RF24-Slave/src/main.cpp:123-125 | the second chain forces JOINING exactly for the addressed device |
| Slave.BlinkCommand | RF24-Slave/src/main.cpp:126-127 | `*BLINK_WHITE_<n>#` raises the blink flag iff n is this device |
| Slave.BlinkNoMode | RF24-Slave/src/main.cpp:95-115 | `*BLINK_WHITE_<n>#` matches no mode command |
| Slave.BlinkInterrupt | RF24-Slave/src/main.cpp:126-127 | the second chain raises blink exactly for the addressed device |
| Slave.NameCommandEffect | RF24-Slave/src/main.cpp:128-139 | `*NAME_<n>=<name>#` stores the name iff n is this device and never changes the mode (but the 42 ack) |
| Slave.NameNoMode | RF24-Slave/src/main.cpp:95-115 | a name command matches no mode command |
| Slave.NameInterrupt | RF24-Slave/src/main.cpp:128-139 | the second chain stores the name exactly on the addressed device |
| Slave.ButtonRules | RF24-Slave/src/main.cpp:153-165 | both flags are consumed; button 1 only moves SCORE_EMULATOR to SCORE_READER, button 2 only SCORE_READER back |
| Slave.StopFirst | RF24-Slave/src/main.cpp:167-175 | a pending stop ends the pass in IDLE with the flag cleared, before blink, heartbeat or mode work |
| Slave.BlinkSecond | RF24-Slave/src/main.cpp:177-183 | without stop, a pending blink ends the pass in IDLE with the flag cleared |
| Slave.HeartbeatRule | RF24-Slave/src/main.cpp:185-190 | `*HEARTBEAT_<id>#` is sent iff the mode is not JOINING or CONFIRM_BLINKING and more than 5000 ms have passed, and then the time is recorded |
| Slave.TaskIgnoresLater | RF24-Slave/src/main.cpp:234 | a task loop stops at the first turn past TASK_TIMEOUT_MS; later turns do not matter |
| Slave.TaskReadHasTag | RF24-Slave/src/main.cpp:228-292 | a read result comes from a tag seen before the timeout and before any stop, and never in the emulator |
| Slave.TaskKinds | RF24-Slave/src/main.cpp:243-292 | only the score reader can be cancelled; the emulator only times out or stops |
| Slave.TaskQuietTimesOut | RF24-Slave/src/main.cpp:234-238 | with no stop, button or tag, the task times out |
| Slave.ReaderReplies | RF24-Slave/src/main.cpp:228-242 | READER replies `"Read <uid>"` or `"Reader Timed Out"` unless stopped, then goes IDLE |
| Slave.EmulatorReplies | RF24-Slave/src/main.cpp:243-257 | EMULATOR replies `"Emulator Stopped ACK"` only when stopped, then goes IDLE |
| Slave.ScoreReaderReturns | RF24-Slave/src/main.cpp:265-292 | SCORE_READER always returns to SCORE_EMULATOR, replying only on a read, with stop kept pending |
| Slave.JoiningAnnounces | RF24-Slave/src/main.cpp:194-200 | JOINING sends the one-byte join request and changes nothing else |
| Slave.Device.Setup | RF24-Slave/src/main.cpp:41-54 | setup() yields the boot state: JOINING, no flags, radio on CMD01 |
| Slave.Device.ResetToIdleState | RF24-Slave/src/main.cpp:302-311 | the fields become ResetToIdle of the old state |
| Slave.Device.ApplyModeCommand | RF24-Slave/src/main.cpp:95-115 | the fields become ModeCommand of the old state |
| Slave.Device.ApplyInterrupt | RF24-Slave/src/main.cpp:121-139 | the fields become Interrupt of the old state |
| Slave.Device.HandleCommand | RF24-Slave/src/main.cpp:92-139 | the fields become Dispatch of the old state |
| Slave.Device.NrfTaskStep | RF24-Slave/src/main.cpp:89-143 | the fields become NrfStep of the old state |
| Slave.Device.RunTask | RF24-Slave/src/main.cpp:228-292 | the task loop ends as TaskOutcome says |
| Slave.Device.ReadButtons | RF24-Slave/src/main.cpp:150-165 | the fields become Buttons of the old state |
| Slave.Device.SendHeartbeat | RF24-Slave/src/main.cpp:185-190 | the fields become Heartbeat of the old state |
| Slave.Device.RunMode | RF24-Slave/src/main.cpp:193-298 | the fields become ModeStep of the old state |
| Slave.Device.LogicTaskStep | RF24-Slave/src/main.cpp:149-299 | the fields become LogicStep of the old state |
| Backend.SearchFrom | MasterControlUI/nrf_backend.py:95 | a search hit is a real match of the pattern |
| Backend.SearchFinds | MasterControlUI/nrf_backend.py:94-105 | `re.search` finds the number right after the key when no earlier position can start the key |
| Backend.ReplayAppend | MasterControlUI/nrf_backend.py:81-87 | reading two stretches of log is reading them one after the other |
| Backend.ApplyLine | MasterControlUI/nrf_backend.py:92-118 | a line changes the set or the flag, not both; the set grows only on a join line and shrinks only on a removal line; the flag is set only by the discovery line and cleared only by the idle or ready line; a line with no key changes nothing |
| Backend.ApplyLineShape | MasterControlUI/nrf_backend.py:92-118 | the first matching branch wins: one line changes the set by at most one id or the flag, not both |
| Backend.ToggleText | MasterControlUI/nrf_backend.py:142-145 | the toggle sends `*DISCOVERY_00#` during discovery and `*DISCOVERY_01#` otherwise |
| Backend.Transmit | MasterControlUI/nrf_backend.py:120-124 | `command + "\n"` is written iff connected; nothing else changes |
| Backend.CommandsWriteOnce | MasterControlUI/nrf_backend.py:148-156 | remove writes `*REMOVEJOIN_<id>#` only when connected with an id. Name writes `*NAME_<id>=<name>#` only for an id and a non-empty name |
| Backend.SendNameParses | MasterControlUI/nrf_backend.py:153-156 | the master's name parser recovers the id text and name the host sent |
| Backend.DisconnectedIsSilent | MasterControlUI/nrf_backend.py:72-79 | disconnect empties the device set and nothing is written while disconnected |
| Backend.NrfBackend.constructor | MasterControlUI/nrf_backend.py:12-26 | disconnected, no devices, discovery flag on |
| Backend.NrfBackend.ProcessLogLine | MasterControlUI/nrf_backend.py:92-118 | the view becomes ApplyLine of the old view |
| Backend.NrfBackend.Connect | MasterControlUI/nrf_backend.py:59-70 | an empty or "No ports" port, or a port that fails to open, leaves the host disconnected |
| Backend.NrfBackend.Disconnect | MasterControlUI/nrf_backend.py:72-79 | disconnected, device set cleared |
| Backend.NrfBackend.SendCommand | MasterControlUI/nrf_backend.py:120-124 | the host becomes Transmit of the command |
| Backend.NrfBackend.StartPairing | MasterControlUI/nrf_backend.py:128-129 | `*RANDOM_01#` is transmitted |
| Backend.NrfBackend.SendStopCommand | MasterControlUI/nrf_backend.py:131-132 | `*STOP_ALL#` is transmitted |
| Backend.NrfBackend.SendScenario1Start | MasterControlUI/nrf_backend.py:134-135 | `*SCENARIO1_START#` is transmitted |
| Backend.NrfBackend.SendScenario2Start | MasterControlUI/nrf_backend.py:137-138 | `*SCENARIO2_START#` is transmitted |
| Backend.NrfBackend.ToggleDiscoveryMode | MasterControlUI/nrf_backend.py:142-145 | the toggle text for the current flag is transmitted |
| Backend.NrfBackend.RemoveSlave | MasterControlUI/nrf_backend.py:148-150 | the host becomes RemoveSlaveSpec |
| Backend.NrfBackend.SendName | MasterControlUI/nrf_backend.py:153-156 | the host becomes SendNameSpec |
| Interop.JoinedLineParsed | MasterControlUI/nrf_backend.py:94-101 | the master's `New slave joined! ID: <id>` line (main.cpp:145) adds exactly that id |
| Interop.JoinedLineText | RF24-MasterForControlUI/src/main.cpp:145 | the join line contains the host's key |
| Interop.JoinedLineSearch | MasterControlUI/nrf_backend.py:95 | `ID: (\d+)` finds the joined id in the join line |
| Interop.RemovedLineParsed | MasterControlUI/nrf_backend.py:103-110 | the master's `Device #<id> removed` line (main.cpp:209) deletes exactly that id |
| Interop.RemovedLineText | RF24-MasterForControlUI/src/main.cpp:209 | the removal line skips the join branch and matches the removal branch |
| Interop.RemovedLineSearch | MasterControlUI/nrf_backend.py:104 | `Device #(\d+) removed` finds the removed id |
| Interop.IdleLineParsed | MasterControlUI/nrf_backend.py:116-118 | the master's idle line (main.cpp:237) clears the host's flag |
| Interop.IdleLineText | RF24-MasterForControlUI/src/main.cpp:237 | the idle line reaches the idle branch |
| Interop.DiscoveryLineParsed | MasterControlUI/nrf_backend.py:112-114 | the master's discovery line (main.cpp:253) sets the host's flag |
| Interop.DiscoveryLineText | RF24-MasterForControlUI/src/main.cpp:253 | the discovery line reaches the discovery branch |
| Interop.ReadyLineParsed | MasterControlUI/nrf_backend.py:116-118 | the master's ready line (main.cpp:246) clears the host's flag |
| Interop.ReadyLineText | RF24-MasterForControlUI/src/main.cpp:246 | the ready line reaches the idle branch through "Ready for UI commands" |
| Interop.ReadyLineMisses | RF24-MasterForControlUI/src/main.cpp:246 | the ready line matches none of the earlier branches |
| Interop.ReadyLineFinds | RF24-MasterForControlUI/src/main.cpp:246 | the ready line contains "Ready for UI commands" |
| Interop.NotEnoughLineIgnored | MasterControlUI/nrf_backend.py:92-118 | the `Not enough devices` line (main.cpp:243) changes nothing on the host |
| Interop.NotEnoughLineText | RF24-MasterForControlUI/src/main.cpp:243 | the line contains none of the host's keys |
| Interop.TimeoutLineIgnored | MasterControlUI/nrf_backend.py:92-118 | a `[TIMEOUT]` line (main.cpp:231) changes nothing on the host |
| Interop.TimeoutLineText | RF24-MasterForControlUI/src/main.cpp:231 | the timeout line contains none of the host's keys |
| Interop.TimeoutLinesIgnored | RF24-MasterForControlUI/src/main.cpp:229-232 | any number of timeout lines leave the host's view unchanged |
| Interop.FramedLine | RF24-MasterForControlUI/src/main.cpp:72-79 | a `*…#` line goes to processSerialCommand unchanged |
| Interop.HostCommandsParsed | MasterControlUI/nrf_backend.py:128-145 | the host's toggle, stop, pairing and scenario commands reach the master's intended branches |
| Interop.HostRemoveForwarded | MasterControlUI/nrf_backend.py:148-150 | the host's remove command is only re-broadcast by the master (main.cpp:181-184); it does not evict |
| Interop.HostNameReachesMaster | MasterControlUI/nrf_backend.py:153-156 | the line the host writes is read up to the newline. The master stores the name under the id and leaves the registry alone (main.cpp:166-173) |
| Interop.NameStored | RF24-MasterForControlUI/src/main.cpp:172-173 | the name command stores the name under the id the host sent |
| Interop.NameLineRead | RF24-MasterForControlUI/src/main.cpp:73 | readStringUntil('\n') returns the host's line without its newline |
| Interop.NameLineParsed | RF24-MasterForControlUI/src/main.cpp:74-78 | the host's name line reaches the name branch |
| Interop.NameCommandParsed | RF24-MasterForControlUI/src/main.cpp:166-171 | the dispatcher recognises the host's name command with its id text and name |
| Interop.PipesAgree | RF24-Slave/src/Config.h:33-34 | master and slave use the same command and discovery addresses (master Config.h:23-24); the slave listens on CMD01 |
| Interop.ByteDecimalShort | RF24-Slave/src/RadioModule.cpp:57-58 | a uint8_t id has at most three digits |
| Interop.JoinRequestHeard | RF24-MasterForControlUI/src/main.cpp:134-155 | the slave's one-byte join request registers the id with its heartbeat, then the ack and stop bursts go out |
| Interop.AckFrameDecodes | RF24-Slave/src/RadioModule.cpp:33-45 | the master's one-byte ack reaches the slave unless the id is 0 or a white-space code |
| Interop.StopFrameDecodes | RF24-Slave/src/RadioModule.cpp:33-45 | the master's `*STOP_<id>#` reaches the slave intact |
| Interop.JoinHandshake | RF24-Slave/src/main.cpp:117-175 | after the ack and the stop, the slave has stop raised and is CONFIRM_BLINKING (still JOINING for a white-space id). Its next pass ends in IDLE |
| Interop.AckStep | RF24-Slave/src/main.cpp:117-119 | the ack frame moves a joining slave to CONFIRM_BLINKING unless trimmed away |
| Interop.StopStep | RF24-Slave/src/main.cpp:121-175 | the stop frame raises stop and the next pass goes IDLE |
| Interop.AckDispatch | RF24-Slave/src/main.cpp:117-119 | a decoded ack moves JOINING to CONFIRM_BLINKING |
| Interop.ReplyReadBack | RF24-MasterForControlUI/src/RadioModule.cpp:75-80 | a slave reply of at most 31 characters reads back whole on the master |
| Interop.HeartbeatHeard | RF24-MasterForControlUI/src/main.cpp:108-113 | a slave heartbeat heard on pipe k refreshes `slaves[k-1]` and nothing else |
| Interop.TestReplyHeard | RF24-MasterForControlUI/src/main.cpp:117-118 | the slave's channel-test reply passes the master's `"Channel Test"` check |
| Interop.TestTextPrefix | RF24-Slave/src/RadioModule.cpp:75 | the test text starts with "Channel Test" and is not a heartbeat |
| Interop.ReplyPipeBound | RF24-MasterForControlUI/src/RadioModule.cpp:63-67 | the master's reply pipe k+1 has the address the k-th slave replies on (slave RadioModule.cpp:57-59) |
| Interop.NameReachesSlave | RF24-Slave/src/main.cpp:128-139 | the master's forwarded name frame stores the name iff it addresses this device |
| Interop.NameFrameDecodes | RF24-Slave/src/RadioModule.cpp:33-45 | a name frame that fits decodes to itself |
| HostMirror.Ids | MasterControlUI/nrf_backend.py:20 | the host's id set holds exactly the registered uint8_t ids |
| HostMirror.IdsInsert | MasterControlUI/nrf_backend.py:99-100 | registering an id adds it to the id set |
| HostMirror.IdsRemove | MasterControlUI/nrf_backend.py:108-109 | removing an id removes it from the id set |
| HostMirror.Appended | MasterControlUI/nrf_backend.py:81-87 | the host's view after more log is the old view read on |
| HostMirror.ReplayOne | MasterControlUI/nrf_backend.py:87 | reading one line is one process_log_line |
| HostMirror.EnterDiscoveryAgrees | RF24-MasterForControlUI/src/main.cpp:252-261 | switchToDiscoveryMode keeps the host in agreement |
| HostMirror.IdleSwitchAgrees | RF24-MasterForControlUI/src/main.cpp:236-251 | switchToIdleMode keeps the host in agreement; below quorum its lines leave the flag set |
| HostMirror.AnnounceAgrees | RF24-MasterForControlUI/src/main.cpp:141-149 | an announce keeps the host in agreement |
| HostMirror.HandleDiscoveryAgrees | RF24-MasterForControlUI/src/main.cpp:134-156 | a discovery step keeps the host in agreement |
| HostMirror.RemoveSlaveAgrees | RF24-MasterForControlUI/src/main.cpp:204-218 | removeSlave keeps the host in agreement |
| HostMirror.CheckTimeoutsAgrees | RF24-MasterForControlUI/src/main.cpp:219-235 | the timeout check keeps the host in agreement |
| HostMirror.CommandAgrees | RF24-MasterForControlUI/src/main.cpp:158-202 | every serial command keeps the host in agreement |
| HostMirror.AutoStartAgrees | RF24-MasterForControlUI/src/main.cpp:56-60 | the scheduled discovery start keeps the agreement |
| HostMirror.TimeoutPhaseAgrees | RF24-MasterForControlUI/src/main.cpp:62-64 | the timeout phase keeps the agreement |
| HostMirror.RadioPhaseAgrees | RF24-MasterForControlUI/src/main.cpp:66-70 | the radio phase keeps the agreement |
| HostMirror.HandleRadioKeeps | RF24-MasterForControlUI/src/main.cpp:105-132 | a received frame changes neither the log the host reads, nor the registry, nor the mode |
| HostMirror.SerialInputAgrees | RF24-MasterForControlUI/src/main.cpp:77-81 | a dispatched command, a removal request or a skipped line all keep the host in agreement |
| HostMirror.SerialPhaseAgrees | RF24-MasterForControlUI/src/main.cpp:72-84 | the serial phase keeps the agreement |
| HostMirror.ModePhaseAgrees | RF24-MasterForControlUI/src/main.cpp:86-102 | the mode phase keeps the agreement |
| HostMirror.LoopStepAgrees | RF24-MasterForControlUI/src/main.cpp:54-103 | one pass of loop() keeps the agreement |
| HostMirror.RunAgrees | MasterControlUI/nrf_backend.py:92-118 | after any run, whatever frames arrive between passes, the host's device set is the master's slave ids and its flag is (mode == DISCOVERY) |
| HostMirror.IntendedLoopStepAgrees | RF24-MasterForControlUI/src/main.cpp:54-103 | the corrected pass keeps the host in agreement too |
| HostMirror.BootAgrees | MasterControlUI/nrf_backend.py:20-21 | the host's initial state (no devices, discovery on) agrees with the master at boot |
| HostMirror.FromBoot | MasterControlUI/nrf_backend.py:92-118 | from boot, the registry invariant and the host agreement hold after any run |
| HostMirror.IdsSize | MasterControlUI/nrf_backend.py:20 | the host's set has as many ids as the master has slaves |
| HostMirror.CanRunGameAgrees | MasterControlUI/SocialTagControlUI.py:167 | the UI enables a game iff the master is out of discovery with an even number, at least 2, of slaves |
| HostMirror.JoinFromBoot | RF24-MasterForControlUI/src/main.cpp:133-150 | from boot, a pass that starts discovery and a pass that finds a join frame queued twice leave the id on the master and in the host's set |

## Left out

- **Hardware.** Radio, LED strip, matrix display and PN532 initialisation are
  left out, including the `begin()` fatal halts. The radio is an abstract
  record. The NFC reads and the NDEF encoded size are inputs.
- **Time.** Delays and blink durations are collapsed. `vTaskDelay`,
  `delay`, `blinkWhiteForSeconds` and the 5 s red light take no time.
- **One clock reading per pass.** Each master pass reads one `now`, and so
  does each slave pass outside the task loops.
- **FreeRTOS interleavings.** The two slave tasks are atomic steps, and the
  volatile flags are ordinary fields. A stop that arrives during a task loop
  is an input of that loop's turns.
- **Task loops.** Each loop gets a finite sequence of turns. When the turns
  run out, the loop is taken to have timed out.
- **Serial diagnostics.** Only the master log lines the host parses are kept
  in the log. These lines are left out, which matters only if one of them
  embeds one of the host's key phrases:
  - the echo `[COMMAND] Received: …`;
  - the `>>> [Radio RX]` payload echo;
  - the `[debug]` lines that print a registered name.
- **Radio arrival timing.** Frames reach the receive FIFO only between
  passes (`Master.Pass.arrivals`). A frame that arrives inside a pass,
  after `listenForResponse` has polled, is taken to arrive before the next
  pass. The FIFO is unbounded: the chip's three-frame FIFO dropping frames
  when full is not modelled.
- HostMirror.RunAgrees: the agreement is about the modelled log and the
  modelled arrival times. It does not cover a diagnostic line that embeds a
  key phrase, a frame arriving inside a pass, or a reconnect of the host.
- Interop.ReplyPipeBound: the radio record keeps the whole address given to
  each reading pipe. On the nRF24L01, `openReadingPipe` for pipes 2..5
  stores only the first byte of the address, and those pipes share bytes
  2..5 with pipe 1. So on the chip pipe k + 1 (k >= 1) matches the k-th
  slave's `"<id>NODE"` only while pipe 1 holds a matching address and the
  ids are single-digit. After `switchToDiscoveryMode` rebinds pipe 1 to
  DISC1, pipes 2..5 match no reply address, while the model keeps them
  bound. Arrivals and their pipes are inputs, so the master and host
  theorems do not depend on this.
- **Host I/O.** The serial port, the reader thread, the lock, the UI queue
  and the JSON config are left out. The host reads every log line from
  boot, in order.
- **Reconnect.** On a reconnect the host's set is cleared while the master
  keeps its slaves. `HostMirror.RunAgrees` assumes one connection from boot.
- **Python text handling.** `strip()` and `\d` matching non-ASCII digits are
  not modelled. Lines are taken as the master wrote them.
- **Concrete game modes.** None exist in the source, so `IGameMode` stays
  abstract. GAME_RUNNING is unreachable: `currentGameMode` is never set
  (main.cpp:21).
- **MasterMatrixModule and the slave LedModule.** They only drive displays.
- **Master `powerUp`.** It is a pure hardware call.
- **Integer edge cases.**
  - `Text.ToInt`: long overflow in `atol` is not modelled.
  - Ids are `uint8_t`; uninitialised buffer bytes are taken as NUL.
  - The ack test `received_packet[0] == DEVICE_ID` compares a `char` with
    the id. The model takes `char` as unsigned, so ids 128..255 compare as
    bytes.
- **Behaviour that may be unintended, modelled as written:**
  - `removeSlave` in IDLE does not check the quorum: it only rebinds the
    pipes, even below two slaves.
  - More than five peers are skipped silently when binding pipes; there is
    no error.
  - `*REMOVEJOIN_<id>#` does not evict on the master, which only
    re-broadcasts it. `RMV:<id>` evicts.
  - `processSerialCommand` opens with an `else if` that has no `if`. The
    model reads the chain as starting at `*STOP_ALL#`.
- **Slave quirks, modelled as written:**
  - The ack of an id that is a white-space code is trimmed to nothing, so
    that device never confirms a join.
  - Device 42 (`'*'`) takes every command as an ack while joining.
  - `*SCORE_MODE_START` lacks its trailing `_`.

## Findings

| source | as written | input that shows it | evidently intended | confidence | as-written member | corrected member |
|---|---|---|---|---|---|---|
| RF24-MasterForControlUI/src/RadioModule.cpp:65-66 | `char pipe_str[6]` receives `sprintf("%dNODE", id)` | id 10: "10NODE" plus NUL is 7 bytes, one past the buffer; id 100 needs 8 | a buffer large enough for every `uint8_t` id (8 bytes); on its own this does not make ids >= 10 reachable on pipes 2..5, which keep only the first address byte | not executed | MasterRadio.PipeStrOverflow | MasterRadio.PipeNameFits |
| RF24-Slave/src/RadioModule.cpp:57-71 | `char pipe_name[6]` receives `sprintf("%dNODE", DEVICE_ID)`, in sendResponse (lines 57-58) and again in sendTestPacket (lines 70-71) | DEVICE_ID 10: "10NODE" plus NUL is 7 bytes, one past the buffer | a buffer large enough for every `uint8_t` id (8 bytes); on its own this does not make ids >= 10 reachable on the master's pipes 2..5, which keep only the first address byte | not executed | SlaveRadio.ReplyPipeOverflow | SlaveRadio.ReplyPipeFits |
| RF24-MasterForControlUI/src/main.cpp:66-90 | in DISCOVERY, `listenForResponse` reads the oldest frame before `handleDiscoveryState` polls; the frame is dropped because no slave sits behind pipe 1 (or is ignored in DISCOVERY) | a single join frame `[id]` queued on pipe 1, no slaves yet: the pass ends with no slaves and an empty FIFO | leave the FIFO to `handleDiscoveryState` while in DISCOVERY | not executed | Master.JoinFrameConsumedEarly | Master.IntendedJoinRegisters |

The model uses the intended address, `"<id>NODE"`, on both sides.

For the discovery finding, `Master.IntendedLoopStep` is the corrected pass.
It keeps the registry invariant (`Master.IntendedLoopStepValid`) and the
host agreement (`HostMirror.IntendedLoopStepAgrees`), so both main theorems
carry over to it. `Master.Run` itself follows the code as written, so its
theorems describe the shipped firmware. In a run a device joins once two of
its join frames are queued together (`Master.JoinNeedsTwoFrames`,
`HostMirror.JoinFromBoot`); the slave re-sends its join request every 500 ms
until it is acknowledged.
