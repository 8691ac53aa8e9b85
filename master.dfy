/** The master controller (RF24-MasterForControlUI/src/main.cpp): the slave
    registry with its heartbeat and name maps, the discovery handshake, the
    routing of received frames, the serial command dispatcher, the
    log-only liveness check and the DISCOVERY / IDLE / GAME_RUNNING mode
    machine. Each operation is first a function on `MasterState`; the class
    `Controller` holds the same state in fields and performs it. */
module Master {
  import opened Text
  import opened Rf24
  import opened MasterConfig
  import opened MasterRadio
  import opened Registry
  import opened NameCommand

  const SlaveTimeoutMs: nat := 30000
  const TimeoutCheckIntervalMs: nat := 5000
  /** setup() defers the first discovery by ten seconds. */
  const AutoDiscoveryDelayMs: U32 := 10000
  /** Burst used for acknowledgements, names and game commands. */
  const ShortBurst: int := 3

  /** The answers of the active IGameMode (IGameMode.h) for one step: what
      handlePacket returns and what isFinished returns. */
  datatype GameOracle = GameOracle(reply: string, finished: bool)

  datatype MasterState = MasterState(
    slaves: seq<Byte>,            // discovered_slaves
    heartbeat: map<Byte, U32>,    // slave_last_heartbeat
    names: map<Byte, string>,     // id_to_name
    mode: SystemMode,             // current_mode
    hasGame: bool,                // currentGameMode != nullptr
    statusLed: bool,              // STATUS_LED_PIN level
    lastTimeoutCheck: U32,        // lastTimeoutCheckTime
    autoStarted: bool,            // auto_discovery_started
    autoStartTime: U32,           // auto_discovery_start_time
    log: seq<string>,             // the serial lines the host parses
    radio: Radio)

  /** The registry invariant: sorted without duplicates, never id 0, and a
      heartbeat entry for exactly the registered ids. */
  ghost predicate Valid(st: MasterState) {
    Ascending(st.slaves) && 0 !in st.slaves &&
    forall id :: id in st.heartbeat <==> id in st.slaves
  }

  // ---------------------------------------------------------------------
  // Log lines the host tool reads (written in pieces where the phrases
  // the host looks for begin and end)

  function JoinedLine(id: Byte, total: nat): string {
    "[DISCOVERY] " + "New slave joined" + "! " + "ID: " + Decimal(id) + ". Total: " + Decimal(total)
  }

  function RemovedLine(id: Byte, total: nat): string {
    "[SYSTEM] " + "Device #" + Decimal(id) + " " + "removed" + ". Total devices: " + Decimal(total)
  }

  const IdleLine: string := "[STATUS] " + "System switching to Idle Mode" + "."

  function NotEnoughLine(found: nat): string {
    "Not enough devices. (" + Decimal(found) + "/" + Decimal(MinDevicesRequired) + " found)." + " Returning to Discovery Mode."
  }

  const DiscoveryLine: string := "[STATUS] " + "System now in Discovery Mode" + ". Waiting for slaves to join..."

  function ReadyLine(online: nat): string {
    "Ready for UI commands" + ". " + Decimal(online) + " devices are online."
  }

  function TimeoutLine(id: Byte): string {
    "[TIMEOUT] Slave #" + Decimal(id) + " has timed out." + " Keeping connection" + " (no removal)."
  }

  function TimeoutLines(ids: seq<Byte>): (lines: seq<string>)
    ensures |lines| == |ids| && forall i :: 0 <= i < |ids| ==> lines[i] == TimeoutLine(ids[i])
  {
    seq(|ids|, i requires 0 <= i < |ids| => TimeoutLine(ids[i]))
  }

  // ---------------------------------------------------------------------
  // The operations as functions

  /** setup(): mode DISCOVERY, nothing known, discovery scheduled for
      now + 10 s (unsigned long arithmetic). */
  function Boot(now: U32): MasterState {
    MasterState([], map[], map[], Discovery, false, false, 0, false, AddU32(now, AutoDiscoveryDelayMs), [], Standby)
  }

  /** switchToDiscoveryMode(). */
  function EnterDiscovery(st: MasterState): MasterState {
    st.(log := st.log + [DiscoveryLine], hasGame := false, mode := Discovery,
        radio := Discover(st.radio), statusLed := true)
  }

  /** switchToIdleMode(): the game is dropped; below the quorum the master
      returns to discovery, otherwise it goes IDLE with one reply pipe per
      slave. */
  function IdleSwitch(st: MasterState): MasterState {
    var st1 := st.(log := st.log + [IdleLine], hasGame := false);
    if |st.slaves| < MinDevicesRequired then
      EnterDiscovery(st1.(log := st1.log + [NotEnoughLine(|st.slaves|)]))
    else
      st1.(log := st1.log + [ReadyLine(|st.slaves|)], mode := Idle,
           radio := Operate(st1.radio, st.slaves), statusLed := false)
  }

  /** The announce of a device once it has been read off the discovery pipe:
      registered when new, its heartbeat refreshed, then a 1-byte ack equal
      to the id and "*STOP_<id>#", each in a burst of 3. */
  function Announce(st: MasterState, id: Byte, now: U32): MasterState
    requires id != 0
  {
    var known := id in st.slaves;
    var slaves := if known then st.slaves else Insert(st.slaves, id);
    var log := if known then st.log else st.log + [JoinedLine(id, |slaves|)];
    var ack := Broadcast(st.radio, [id as char], ShortBurst);
    st.(slaves := slaves, log := log, heartbeat := st.heartbeat[id := now],
        radio := Broadcast(ack, "*STOP_" + Decimal(id) + "#", ShortBurst))
  }

  /** handleDiscoveryState(): one poll of the discovery pipe; id 0 is noise. */
  function HandleDiscovery(st: MasterState, now: U32): MasterState {
    var (heard, r) := DiscoveryPoll(st.radio);
    match heard
    case None => st
    case Some(id) => if id == 0 then st.(radio := r) else Announce(st.(radio := r), id, now)
  }

  /** How handleRadioPacket classifies a frame heard on a pipe. */
  datatype RxOutcome =
    | Discarded                 // pipe 0 or a pipe with no slave behind it
    | Heartbeat(sender: Byte)   // "*HEARTBEAT_..."
    | PipeTestOk(sender: Byte)  // IDLE, "Channel Test..."
    | Unsolicited(sender: Byte) // IDLE, anything else
    | ToGame(sender: Byte)      // GAME_RUNNING with a game
    | Ignored(sender: Byte)     // DISCOVERY, or GAME_RUNNING without a game

  function Classify(st: MasterState, payload: string, pipe: nat): RxOutcome {
    if pipe == 0 || pipe > |st.slaves| then Discarded
    else
      var sender := st.slaves[pipe - 1];
      if StartsWith(payload, "*HEARTBEAT_") then Heartbeat(sender)
      else match st.mode
        case Idle => if StartsWith(payload, "Channel Test") then PipeTestOk(sender) else Unsolicited(sender)
        case GameRunning => if st.hasGame then ToGame(sender) else Ignored(sender)
        case Discovery => Ignored(sender)
  }

  /** handleRadioPacket(payload, pipeNum). */
  function HandleRadio(st: MasterState, payload: string, pipe: nat, now: U32, game: GameOracle): MasterState {
    match Classify(st, payload, pipe)
    case Heartbeat(sender) => st.(heartbeat := st.heartbeat[sender := now])
    case ToGame(_) =>
      if |game.reply| > 0 then st.(radio := Broadcast(st.radio, game.reply, ShortBurst)) else st
    case _ => st
  }

  /** What processSerialCommand does with a command. */
  datatype Cmd =
    | StopAll
    | Name(command: string, fields: NameFields)
    | RemoveJoin(command: string)
    | DiscoveryOn
    | DiscoveryOff
    | NoOp          // the scenario commands, a malformed name, anything else

  /** The if-else chain of processSerialCommand, read as starting at
      "*STOP_ALL#". */
  function ParseCommand(command: string): Cmd {
    if command == "*STOP_ALL#" then StopAll
    else if StartsWith(command, "*NAME_") then
      match ParseName(command)
      case None => NoOp
      case Some(f) => Name(command, f)
    else if StartsWith(command, "*REMOVEJOIN_") then RemoveJoin(command)
    else if command == "*DISCOVERY_01#" then DiscoveryOn
    else if command == "*DISCOVERY_00#" then DiscoveryOff
    else NoOp
  }

  /** The branches of processSerialCommand. */
  function Command(st: MasterState, c: Cmd): MasterState {
    match c
    case StopAll => IdleSwitch(st.(radio := Broadcast(st.radio, "*STOP_ALL#", DefaultBurst)))
    case Name(command, f) =>
      var r := Broadcast(st.radio, command, ShortBurst);
      st.(names := st.names[ToByte(ToInt(f.idText)) := f.name],
          radio := Broadcast(r, "*BLINK_WHITE_" + f.idText + "#", ShortBurst))
    case RemoveJoin(command) => st.(radio := Broadcast(st.radio, command, DefaultBurst))
    case DiscoveryOn => EnterDiscovery(st)
    case DiscoveryOff =>
      var st1 := IdleSwitch(st);
      if st.slaves != [] then st1.(radio := Broadcast(st1.radio, "*TESTPIPE_ALL#", DefaultBurst)) else st1
    case NoOp => st
  }

  /** The bookkeeping of removeSlave for a registered id: the id leaves the
      vector and the heartbeat map, and the removal is logged. */
  function Unregister(st: MasterState, id: Byte): MasterState {
    var slaves := Remove(st.slaves, id);
    st.(slaves := slaves, heartbeat := st.heartbeat - {id}, log := st.log + [RemovedLine(id, |slaves|)])
  }

  /** removeSlave(id). */
  function RemoveSlaveSpec(st: MasterState, id: Byte): MasterState {
    if id !in st.slaves then st
    else
      var st1 := Unregister(st, id);
      match st.mode
      case GameRunning => IdleSwitch(st1)
      case Idle => st1.(radio := Operate(st1.radio, st1.slaves))
      case Discovery => st1
  }

  /** The ids with a heartbeat entry older than 30 s, from `lo` upwards:
      the iteration order of std::map. */
  function Overdue(heartbeat: map<Byte, U32>, now: U32, lo: nat): seq<Byte>
    decreases 256 - lo
  {
    if lo >= 256 then []
    else
      var rest := Overdue(heartbeat, now, lo + 1);
      if lo in heartbeat && Elapsed(now, heartbeat[lo]) > SlaveTimeoutMs then [lo] + rest else rest
  }

  /** Overdue lists exactly the ids at or above `lo` whose last heartbeat
      is more than 30 s old (with wrap-around), in ascending order. */
  lemma {:induction false} OverdueSpec(heartbeat: map<Byte, U32>, now: U32, lo: nat)
    ensures var ids := Overdue(heartbeat, now, lo);
      (forall id :: id in ids <==> lo <= id && id in heartbeat && Elapsed(now, heartbeat[id]) > SlaveTimeoutMs) &&
      (forall i, j :: 0 <= i < j < |ids| ==> ids[i] < ids[j])
    decreases 256 - lo
  {
    if lo < 256 {
      OverdueSpec(heartbeat, now, lo + 1);
      var rest := Overdue(heartbeat, now, lo + 1);
      if lo in heartbeat && Elapsed(now, heartbeat[lo]) > SlaveTimeoutMs {
        var ids := [lo] + rest;
        forall i, j | 0 <= i < j < |ids| ensures ids[i] < ids[j] {
          if i == 0 { assert ids[j] == rest[j - 1] && rest[j - 1] in rest; }
          else { assert ids[i] == rest[i - 1] && ids[j] == rest[j - 1]; }
        }
      }
    }
  }

  /** checkSlaveTimeouts(): at most once per 5 s, one log line per overdue
      slave; nothing is removed. */
  function CheckTimeouts(st: MasterState, now: U32): MasterState {
    if Elapsed(now, st.lastTimeoutCheck) > TimeoutCheckIntervalMs then
      st.(log := st.log + TimeoutLines(Overdue(st.heartbeat, now, 0)), lastTimeoutCheck := now)
    else st
  }

  /** What loop() does with a serial line. */
  datatype SerialInput = Dispatch(cmd: Cmd) | RemoveRequest(id: Byte) | Skip

  /** The line is trimmed; "*...#" goes to the dispatcher and "RMV:<n>"
      removes (uint8_t)n. */
  function ParseLine(line: string): SerialInput {
    var command := Trim(line);
    if |command| == 0 then Skip
    else if StartsWith(command, "*") && EndsWith(command, "#") then Dispatch(ParseCommand(command))
    else if StartsWith(command, "RMV:") then RemoveRequest(ToByte(ToInt(command[4..])))
    else Skip
  }

  function SerialInputStep(st: MasterState, input: SerialInput): MasterState {
    match input
    case Dispatch(c) => Command(st, c)
    case RemoveRequest(id) => RemoveSlaveSpec(st, id)
    case Skip => st
  }

  /** The five phases of one pass of loop(). */
  function AutoStartPhase(st: MasterState, now: U32): MasterState {
    if !st.autoStarted && now >= st.autoStartTime then EnterDiscovery(st).(autoStarted := true) else st
  }

  function TimeoutPhase(st: MasterState, now: U32): MasterState {
    if st.mode != Discovery then CheckTimeouts(st, now) else st
  }

  function RadioPhase(st: MasterState, now: U32, game: GameOracle): MasterState {
    var (heard, r) := Response(st.radio);
    match heard
    case None => st
    case Some(h) => HandleRadio(st.(radio := r), h.payload, h.pipe, now, game)
  }

  function SerialPhase(st: MasterState, line: Option<string>): MasterState {
    match line
    case None => st
    case Some(l) => SerialInputStep(st, ParseLine(l))
  }

  function ModePhase(st: MasterState, now: U32, game: GameOracle): MasterState {
    match st.mode
    case Discovery => HandleDiscovery(st, now)
    case GameRunning =>
      if st.hasGame && game.finished then IdleSwitch(st.(radio := Broadcast(st.radio, "*STOP_ALL#", DefaultBurst)))
      else st
    case Idle => st
  }

  /** One pass of loop() at time `now`, with the serial line read in that
      pass (if any) and the game's answers. */
  function LoopStep(st: MasterState, now: U32, line: Option<string>, game: GameOracle): MasterState {
    ModePhase(SerialPhase(RadioPhase(TimeoutPhase(AutoStartPhase(st, now), now), now, game), line), now, game)
  }

  // ---------------------------------------------------------------------
  // Properties

  lemma BootValid(now: U32)
    ensures Valid(Boot(now)) && Boot(now).mode == Discovery && !Boot(now).hasGame
  {
  }

  /** Mode changes never touch the registry, and always drop the game. */
  lemma ModeSwitches(st: MasterState)
    ensures var d := EnterDiscovery(st);
      d.slaves == st.slaves && d.heartbeat == st.heartbeat && d.names == st.names &&
      d.mode == Discovery && !d.hasGame && d.radio == Discover(st.radio)
    ensures var i := IdleSwitch(st);
      i.slaves == st.slaves && i.heartbeat == st.heartbeat && i.names == st.names && !i.hasGame &&
      (i.mode == Discovery <==> |st.slaves| < MinDevicesRequired) &&
      (i.mode == Idle <==> |st.slaves| >= MinDevicesRequired) &&
      (i.mode == Idle ==> i.radio == Operate(st.radio, st.slaves)) &&
      (i.mode == Discovery ==> i.radio == Discover(st.radio))
    ensures Valid(st) ==> Valid(EnterDiscovery(st)) && Valid(IdleSwitch(st))
  {
  }

  /** An announce keeps the registry invariant; id 0 changes nothing but
      the consumed frame; a known id only refreshes its heartbeat; every
      accepted announce sends the ack and then the stop command. */
  lemma AnnounceEffect(st: MasterState, id: Byte, now: U32)
    requires Valid(st) && id != 0
    ensures var a := Announce(st, id, now);
      Valid(a) &&
      (forall y :: y in a.slaves <==> y in st.slaves || y == id) &&
      a.heartbeat == st.heartbeat[id := now] && a.names == st.names && a.mode == st.mode &&
      (id in st.slaves ==> a.slaves == st.slaves && a.log == st.log) &&
      a.radio.sent == st.radio.sent + Repeat(Sent(CommandPipe, Frame([id as char])), ShortBurst)
                                    + Repeat(Sent(CommandPipe, Frame("*STOP_" + Decimal(id) + "#")), ShortBurst)
  {
    var ack := Broadcast(st.radio, [id as char], ShortBurst);
    BroadcastEffect(st.radio, [id as char], ShortBurst);
    BroadcastEffect(ack, "*STOP_" + Decimal(id) + "#", ShortBurst);
  }

  lemma HandleDiscoveryValid(st: MasterState, now: U32)
    requires Valid(st)
    ensures Valid(HandleDiscovery(st, now))
    ensures st.radio.rx == [] ==> HandleDiscovery(st, now) == st
    ensures st.radio.rx != [] && FirstByte(st.radio.rx[0].payload) == 0 ==>
      HandleDiscovery(st, now) == st.(radio := st.radio.(rx := st.radio.rx[1..]))
  {
    var (heard, r) := DiscoveryPoll(st.radio);
    if heard.Some? && heard.value != 0 {
      AnnounceEffect(st.(radio := r), heard.value, now);
    }
  }

  /** handleRadioPacket resolves the sender from the pipe, drops frames on
      pipe 0 or an unbound pipe, and lets a heartbeat touch only the
      sender's timestamp. */
  lemma HandleRadioEffect(st: MasterState, payload: string, pipe: nat, now: U32, game: GameOracle)
    requires Valid(st)
    ensures var h := HandleRadio(st, payload, pipe, now, game);
      Valid(h) && h.slaves == st.slaves && h.names == st.names && h.mode == st.mode && h.log == st.log &&
      (pipe == 0 || pipe > |st.slaves| ==> h == st) &&
      (0 < pipe <= |st.slaves| && StartsWith(payload, "*HEARTBEAT_") ==>
         h == st.(heartbeat := st.heartbeat[st.slaves[pipe - 1] := now])) &&
      (st.mode != GameRunning ==> h.radio == st.radio)
  {
    if 0 < pipe <= |st.slaves| {
      var sender := st.slaves[pipe - 1];
      assert sender in st.slaves;
      var h := HandleRadio(st, payload, pipe, now, game);
      match Classify(st, payload, pipe)
      case Heartbeat(_) => assert h.heartbeat == st.heartbeat[sender := now];
      case ToGame(_) => assert h.heartbeat == st.heartbeat;
      case _ => assert h == st;
    }
  }

  /** removeSlave: an absent id changes nothing; a present one leaves the
      registry without it (order kept), drops its heartbeat but not its
      name, and IDLE rebinds the pipes. */
  lemma UnregisterValid(st: MasterState, id: Byte)
    requires Valid(st) && id in st.slaves
    ensures var u := Unregister(st, id);
      Valid(u) && u.slaves == Remove(st.slaves, id) && |u.slaves| == |st.slaves| - 1 &&
      (forall y :: y in u.slaves <==> y in st.slaves && y != id) &&
      u.heartbeat == st.heartbeat - {id} && u.names == st.names && u.mode == st.mode &&
      u.hasGame == st.hasGame && u.radio == st.radio
  {
  }

  lemma RemoveSlaveEffect(st: MasterState, id: Byte)
    requires Valid(st)
    ensures var r := RemoveSlaveSpec(st, id);
      Valid(r) && r.names == st.names &&
      (id !in st.slaves ==> r == st) &&
      (id in st.slaves ==>
         r.slaves == Remove(st.slaves, id) && r.heartbeat == st.heartbeat - {id} &&
         (st.mode == Idle ==> r.mode == Idle && r.radio == Operate(st.radio, r.slaves)) &&
         (st.mode == Discovery ==> r.mode == Discovery && r.radio == st.radio) &&
         (st.mode == GameRunning ==> NoGame(r)))
  {
    if id in st.slaves {
      UnregisterValid(st, id);
      if st.mode == GameRunning {
        ModeSwitches(Unregister(st, id));
      }
    }
  }

  /** checkSlaveTimeouts only logs: registry, heartbeats, names and mode are
      untouched; it runs iff more than 5 s passed since the last run. */
  lemma CheckTimeoutsEffect(st: MasterState, now: U32)
    ensures var c := CheckTimeouts(st, now);
      c.slaves == st.slaves && c.heartbeat == st.heartbeat && c.names == st.names &&
      c.mode == st.mode && c.radio == st.radio && c.hasGame == st.hasGame &&
      (Elapsed(now, st.lastTimeoutCheck) > TimeoutCheckIntervalMs ==>
         c.lastTimeoutCheck == now && c.log == st.log + TimeoutLines(Overdue(st.heartbeat, now, 0))) &&
      (Elapsed(now, st.lastTimeoutCheck) <= TimeoutCheckIntervalMs ==> c == st)
  {
  }

  /** Under the invariant the overdue ids are exactly the registered slaves
      that missed their heartbeat. */
  lemma OverdueAreSlaves(st: MasterState, now: U32)
    requires Valid(st)
    ensures forall id :: id in Overdue(st.heartbeat, now, 0) <==> id in st.slaves && Elapsed(now, st.heartbeat[id]) > SlaveTimeoutMs
  {
    OverdueSpec(st.heartbeat, now, 0);
  }

  /** The dispatcher keeps the registry invariant and never starts a game. */
  lemma CommandEffect(st: MasterState, c: Cmd)
    requires Valid(st)
    ensures var r := Command(st, c);
      Valid(r) && r.slaves == st.slaves && r.heartbeat == st.heartbeat &&
      (NoGame(st) ==> NoGame(r))
    ensures !c.Name? ==> Command(st, c).names == st.names
  {
    match c
    case StopAll => ModeSwitches(st.(radio := Broadcast(st.radio, "*STOP_ALL#", DefaultBurst)));
    case DiscoveryOn => ModeSwitches(st);
    case DiscoveryOff => ModeSwitches(st);
    case _ =>
  }

  /** The fixed commands reach their branch: "*STOP_ALL#" broadcasts the
      stop before switching to idle, "*DISCOVERY_01#" / "*DISCOVERY_00#"
      switch discovery on and off, and the scenario commands (and the
      host's "*RANDOM_01#", which has no branch) do nothing. */
  lemma CommandTable()
    ensures ParseCommand("*STOP_ALL#") == StopAll
    ensures ParseCommand("*DISCOVERY_01#") == DiscoveryOn
    ensures ParseCommand("*DISCOVERY_00#") == DiscoveryOff
    ensures ParseCommand("*SCENARIO1_START#") == NoOp
    ensures ParseCommand("*SCENARIO2_START#") == NoOp
    ensures ParseCommand("*RANDOM_01#") == NoOp
  {
    NotNamedOrRemoved("*DISCOVERY_01#");
    NotNamedOrRemoved("*DISCOVERY_00#");
    NotNamedOrRemoved("*SCENARIO1_START#");
    NotNamedOrRemoved("*SCENARIO2_START#");
    NotNamedOrRemoved("*RANDOM_01#");
  }

  lemma NotNamedOrRemoved(command: string)
    requires |command| > 2 && command[1] != 'N' && command[2] != 'E'
    ensures !StartsWith(command, "*NAME_") && !StartsWith(command, "*REMOVEJOIN_")
  {
    assert "*NAME_"[1] == 'N';
    assert "*REMOVEJOIN_"[2] == 'E';
  }

  /** "*REMOVEJOIN_..." is only passed on: the registry stays as it is. */
  lemma RemoveJoinOnlyForwards(st: MasterState, command: string)
    requires StartsWith(command, "*REMOVEJOIN_")
    ensures ParseCommand(command) == RemoveJoin(command)
    ensures Command(st, ParseCommand(command)) == st.(radio := Broadcast(st.radio, command, DefaultBurst))
  {
    assert command[1] == 'R';
  }

  lemma DiscoveryOffEffect(st: MasterState)
    ensures Command(st, DiscoveryOff) ==
      if st.slaves == [] then IdleSwitch(st)
      else IdleSwitch(st).(radio := Broadcast(IdleSwitch(st).radio, "*TESTPIPE_ALL#", DefaultBurst))
  {
  }

  lemma SerialInputValid(st: MasterState, input: SerialInput)
    requires Valid(st)
    ensures var r := SerialInputStep(st, input);
      Valid(r) && (NoGame(st) ==> NoGame(r))
  {
    match input
    case Dispatch(c) => CommandEffect(st, c);
    case RemoveRequest(id) => RemoveSlaveEffect(st, id);
    case Skip =>
  }

  /** Each phase of loop() keeps the registry invariant and creates no game. */
  ghost predicate NoGame(st: MasterState) {
    st.mode != GameRunning && !st.hasGame
  }

  lemma AutoStartValid(st: MasterState, now: U32)
    requires Valid(st)
    ensures Valid(AutoStartPhase(st, now)) && (NoGame(st) ==> NoGame(AutoStartPhase(st, now)))
  {
    ModeSwitches(st);
  }

  lemma TimeoutValid(st: MasterState, now: U32)
    requires Valid(st)
    ensures Valid(TimeoutPhase(st, now)) && (NoGame(st) ==> NoGame(TimeoutPhase(st, now)))
  {
    CheckTimeoutsEffect(st, now);
  }

  lemma RadioValid(st: MasterState, now: U32, game: GameOracle)
    requires Valid(st)
    ensures Valid(RadioPhase(st, now, game)) && (NoGame(st) ==> NoGame(RadioPhase(st, now, game)))
  {
    var (heard, r) := Response(st.radio);
    if heard.Some? {
      HandleRadioEffect(st.(radio := r), heard.value.payload, heard.value.pipe, now, game);
    }
  }

  lemma SerialValid(st: MasterState, line: Option<string>)
    requires Valid(st)
    ensures Valid(SerialPhase(st, line)) && (NoGame(st) ==> NoGame(SerialPhase(st, line)))
  {
    if line.Some? {
      SerialInputValid(st, ParseLine(line.value));
    }
  }

  lemma ModeValid(st: MasterState, now: U32, game: GameOracle)
    requires Valid(st)
    ensures Valid(ModePhase(st, now, game)) && (NoGame(st) ==> NoGame(ModePhase(st, now, game)))
  {
    HandleDiscoveryValid(st, now);
    AnnounceNoGame(st, now);
    ModeSwitches(st.(radio := Broadcast(st.radio, "*STOP_ALL#", DefaultBurst)));
  }

  lemma AnnounceNoGame(st: MasterState, now: U32)
    ensures HandleDiscovery(st, now).mode == st.mode && HandleDiscovery(st, now).hasGame == st.hasGame
  {
  }

  /** One pass of loop() keeps the registry invariant, and nothing in this
      firmware creates a game: from a state without one, GAME_RUNNING is
      never entered. */
  lemma LoopStepValid(st: MasterState, now: U32, line: Option<string>, game: GameOracle)
    requires Valid(st)
    ensures Valid(LoopStep(st, now, line, game))
    ensures NoGame(st) ==> NoGame(LoopStep(st, now, line, game))
  {
    var s1 := AutoStartPhase(st, now);
    AutoStartValid(st, now);
    var s2 := TimeoutPhase(s1, now);
    TimeoutValid(s1, now);
    var s3 := RadioPhase(s2, now, game);
    RadioValid(s2, now, game);
    var s4 := SerialPhase(s3, line);
    SerialValid(s3, line);
    ModeValid(s4, now, game);
  }

  /** A sequence of loop() passes. Before each pass the environment
      delivers the frames that reach the receive FIFO since the last one;
      the pass then runs at time `now`, with the serial line read in it and
      the game's answers. */
  datatype Pass = Pass(arrivals: seq<Received>, now: U32, line: Option<string>, game: GameOracle)

  /** Frames reach the receive FIFO; only the radio changes. */
  function Receive(st: MasterState, frames: seq<Received>): (st': MasterState)
    ensures st'.radio.rx == st.radio.rx + frames
    ensures st' == st.(radio := st'.radio)
  {
    st.(radio := Deliver(st.radio, frames))
  }

  function Run(st: MasterState, passes: seq<Pass>): MasterState
    decreases |passes|
  {
    if passes == [] then st
    else
      var p := passes[0];
      Run(LoopStep(Receive(st, p.arrivals), p.now, p.line, p.game), passes[1..])
  }

  /** From boot, every reachable state keeps the registry invariant and
      never runs a game, whatever the radio delivers. */
  lemma {:induction false} RunInvariant(st: MasterState, passes: seq<Pass>)
    requires Valid(st) && NoGame(st)
    ensures Valid(Run(st, passes)) && NoGame(Run(st, passes))
    decreases |passes|
  {
    if passes != [] {
      var p := passes[0];
      var st1 := Receive(st, p.arrivals);
      LoopStepValid(st1, p.now, p.line, p.game);
      RunInvariant(LoopStep(st1, p.now, p.line, p.game), passes[1..]);
    }
  }

  /** In DISCOVERY, loop() reads a received frame with listenForResponse
      before handleDiscoveryState looks at the discovery pipe, so a join
      frame that is the only one waiting is consumed and dropped. */
  lemma JoinFrameConsumedEarly(st: MasterState, now: U32, id: Byte, game: GameOracle)
    requires Valid(st) && st.mode == Discovery && st.autoStarted && st.slaves == []
    requires st.radio.rx == [Received(1, [id as char])]
    ensures LoopStep(st, now, None, game).slaves == []
    ensures LoopStep(st, now, None, game).radio.rx == []
  {
  }

  /** A one-byte frame read by listenForResponse is never a heartbeat. */
  lemma ShortFrameNotHeartbeat(c: char)
    ensures !StartsWith(CutAtNul(Buffer([c])), "*HEARTBEAT_")
  {
    var b := Buffer([c]);
    assert b[1] == Nul;
    var t := CutAtNul(b);
    assert forall k :: 0 <= k < |t| ==> t[k] == b[k] && t[k] != Nul;
    assert |t| <= 1;
  }

  /** In DISCOVERY the frame listenForResponse reads is dropped, unless it
      is a heartbeat. */
  lemma DiscoveryDropsFrame(st: MasterState, now: U32, game: GameOracle)
    requires st.mode == Discovery && st.radio.rx != []
    requires !StartsWith(CutAtNul(Buffer(st.radio.rx[0].payload)), "*HEARTBEAT_")
    ensures RadioPhase(st, now, game) == st.(radio := st.radio.(rx := st.radio.rx[1..]))
  {
  }

  /** A device is only heard from once a second join frame is already
      queued behind the one listenForResponse takes. */
  lemma JoinNeedsTwoFrames(st: MasterState, now: U32, id: Byte, game: GameOracle)
    requires Valid(st) && st.mode == Discovery && st.autoStarted && id != 0
    requires st.radio.rx == [Received(1, [id as char]), Received(1, [id as char])]
    ensures LoopStep(st, now, None, game).slaves == if id in st.slaves then st.slaves else Insert(st.slaves, id)
    ensures LoopStep(st, now, None, game).radio.rx == []
  {
    var join := Received(1, [id as char]);
    assert TimeoutPhase(AutoStartPhase(st, now), now) == st;
    ShortFrameNotHeartbeat(id as char);
    DiscoveryDropsFrame(st, now, game);
    var s3 := st.(radio := st.radio.(rx := [join]));
    assert st.radio.rx[1..] == [join];
    assert SerialPhase(RadioPhase(st, now, game), None) == s3;
    assert FirstByte(join.payload) == id;
    assert DiscoveryPoll(s3.radio) == (Some(id), s3.radio.(rx := []));
    assert LoopStep(st, now, None, game) == Announce(s3.(radio := s3.radio.(rx := [])), id, now);
  }

  /** The pass at the scheduled start time switches to discovery with an
      empty registry and an empty FIFO. */
  lemma FirstPassStartsDiscovery(now: U32, game: GameOracle)
    ensures var st := LoopStep(Receive(Boot(now), []), Boot(now).autoStartTime, None, game);
      Valid(st) && st.mode == Discovery && st.autoStarted && st.slaves == [] && st.radio.rx == [] &&
      st.log == [DiscoveryLine]
  {
    var s0 := Receive(Boot(now), []);
    assert s0 == Boot(now);
    var s1 := AutoStartPhase(s0, s0.autoStartTime);
    assert s1 == EnterDiscovery(s0).(autoStarted := true);
    assert s1.radio.rx == [];
  }

  /** The loop pass as evidently intended: in DISCOVERY every frame is left
      for handleDiscoveryState, which is the only reader of the discovery
      pipe. */
  function IntendedRadioPhase(st: MasterState, now: U32, game: GameOracle): MasterState {
    if st.mode == Discovery then st else RadioPhase(st, now, game)
  }

  function IntendedLoopStep(st: MasterState, now: U32, line: Option<string>, game: GameOracle): MasterState {
    ModePhase(SerialPhase(IntendedRadioPhase(TimeoutPhase(AutoStartPhase(st, now), now), now, game), line), now, game)
  }

  /** With the correction, a single queued join frame registers its device,
      and the pass still keeps the registry invariant. */
  lemma IntendedJoinRegisters(st: MasterState, now: U32, id: Byte, game: GameOracle)
    requires Valid(st) && st.mode == Discovery && st.autoStarted && id != 0
    requires st.radio.rx == [Received(1, [id as char])]
    ensures id in IntendedLoopStep(st, now, None, game).slaves
    ensures Valid(IntendedLoopStep(st, now, None, game))
    ensures IntendedLoopStep(st, now, None, game).radio.rx == []
  {
    assert FirstByte([id as char]) == id;
    AnnounceEffect(st.(radio := st.radio.(rx := [])), id, now);
  }

  lemma IntendedLoopStepValid(st: MasterState, now: U32, line: Option<string>, game: GameOracle)
    requires Valid(st)
    ensures Valid(IntendedLoopStep(st, now, line, game))
    ensures NoGame(st) ==> NoGame(IntendedLoopStep(st, now, line, game))
  {
    var s1 := AutoStartPhase(st, now);
    AutoStartValid(st, now);
    var s2 := TimeoutPhase(s1, now);
    TimeoutValid(s1, now);
    var s3 := IntendedRadioPhase(s2, now, game);
    RadioValid(s2, now, game);
    var s4 := SerialPhase(s3, line);
    SerialValid(s3, line);
    ModeValid(s4, now, game);
  }

  /** Two announces in either order give the same sorted registry. */
  lemma AnnounceOrder(st: MasterState, a: Byte, b: Byte, t1: U32, t2: U32)
    requires Valid(st) && a != 0 && b != 0
    ensures Announce(Announce(st, a, t1), b, t2).slaves == Announce(Announce(st, b, t1), a, t2).slaves
  {
    AnnounceEffect(st, a, t1);
    AnnounceEffect(st, b, t1);
    AnnounceEffect(Announce(st, a, t1), b, t2);
    AnnounceEffect(Announce(st, b, t1), a, t2);
    AscendingUnique(Announce(Announce(st, a, t1), b, t2).slaves, Announce(Announce(st, b, t1), a, t2).slaves);
  }

  // ---------------------------------------------------------------------
  // The controller

  /** The master firmware's globals, changed in place by its functions. */
  class Controller {
    var slaves: seq<Byte>
    var heartbeat: map<Byte, U32>
    var names: map<Byte, string>
    var mode: SystemMode
    var hasGame: bool
    var statusLed: bool
    var lastTimeoutCheck: U32
    var autoStarted: bool
    var autoStartTime: U32
    var log: seq<string>
    const radio: RadioModule

    function State(): MasterState
      reads this, radio
    {
      MasterState(slaves, heartbeat, names, mode, hasGame, statusLed, lastTimeoutCheck,
                  autoStarted, autoStartTime, log, radio.state)
    }

    /** The globals' initial values followed by setup() at time `now`. */
    constructor Setup(now: U32, linkAck: nat -> bool)
      ensures State() == Boot(now) && fresh(radio)
    {
      slaves := [];
      heartbeat := map[];
      names := map[];
      mode := Discovery;
      hasGame := false;
      statusLed := false;
      lastTimeoutCheck := 0;
      autoStarted := false;
      radio := new RadioModule(linkAck);
      log := [];
      autoStartTime := AddU32(now, AutoDiscoveryDelayMs);
    }

    method SwitchToDiscoveryMode()
      modifies this, radio
      ensures State() == EnterDiscovery(old(State()))
    {
      log := log + [DiscoveryLine];
      hasGame := false;
      mode := Discovery;
      radio.SwitchToDiscoveryMode();
      statusLed := true;
    }

    method SwitchToIdleMode()
      modifies this, radio
      ensures State() == IdleSwitch(old(State()))
    {
      log := log + [IdleLine];
      hasGame := false;
      if |slaves| < MinDevicesRequired {
        log := log + [NotEnoughLine(|slaves|)];
        SwitchToDiscoveryMode();
      } else {
        log := log + [ReadyLine(|slaves|)];
        mode := Idle;
        radio.SwitchToOperationMode(slaves);
        statusLed := false;
      }
    }

    method HandleDiscoveryState(now: U32)
      modifies this, radio
      ensures State() == HandleDiscovery(old(State()), now)
    {
      var heard, id := radio.ListenForDiscovery();
      if heard {
        if id == 0 {
          return;
        }
        var known := id in slaves;
        if !known {
          slaves := Insert(slaves, id);
          log := log + [JoinedLine(id, |slaves|)];
        }
        heartbeat := heartbeat[id := now];
        var acked := radio.BroadcastPacket([id as char], ShortBurst);
        acked := radio.BroadcastPacket("*STOP_" + Decimal(id) + "#", ShortBurst);
      }
    }

    method HandleRadioPacket(payload: string, pipe: nat, now: U32, game: GameOracle)
      modifies this, radio
      ensures State() == HandleRadio(old(State()), payload, pipe, now, game)
    {
      if pipe == 0 || pipe > |slaves| {
        return;
      }
      var sender := slaves[pipe - 1];
      if StartsWith(payload, "*HEARTBEAT_") {
        heartbeat := heartbeat[sender := now];
        return;
      }
      if mode == GameRunning && hasGame {
        var reply := game.reply;
        if |reply| > 0 {
          var acked := radio.BroadcastPacket(reply, ShortBurst);
        }
      }
    }

    /** processSerialCommand: the if-else chain is ParseCommand, the
        branches are ExecuteCommand. */
    method ProcessSerialCommand(command: string)
      modifies this, radio
      ensures State() == Command(old(State()), ParseCommand(command))
    {
      ExecuteCommand(ParseCommand(command));
    }

    method ExecuteCommand(c: Cmd)
      modifies this, radio
      ensures State() == Command(old(State()), c)
    {
      match c
      case StopAll =>
        var acked := radio.BroadcastPacket("*STOP_ALL#", DefaultBurst);
        SwitchToIdleMode();
      case Name(command, f) =>
        NameDevice(command, f);
      case RemoveJoin(command) =>
        var acked := radio.BroadcastPacket(command, DefaultBurst);
      case DiscoveryOn =>
        SwitchToDiscoveryMode();
      case DiscoveryOff =>
        EndDiscovery();
      case NoOp =>
    }

    /** The "*NAME_" branch: store the name, forward the command, then ask
        the device to blink. */
    method NameDevice(command: string, f: NameFields)
      modifies this, radio
      ensures State() == Command(old(State()), Name(command, f))
    {
      names := names[ToByte(ToInt(f.idText)) := f.name];
      var acked := radio.BroadcastPacket(command, ShortBurst);
      acked := radio.BroadcastPacket("*BLINK_WHITE_" + f.idText + "#", ShortBurst);
    }

    /** The "*DISCOVERY_00#" branch: switch to idle, then test the pipes
        when any slave is known. */
    method EndDiscovery()
      modifies this, radio
      ensures State() == Command(old(State()), DiscoveryOff)
    {
      ghost var st := State();
      DiscoveryOffEffect(st);
      ModeSwitches(st);
      SwitchToIdleMode();
      if slaves != [] {
        var acked := radio.BroadcastPacket("*TESTPIPE_ALL#", DefaultBurst);
      }
    }

    method RemoveSlave(id: Byte)
      modifies this, radio
      ensures State() == RemoveSlaveSpec(old(State()), id)
    {
      ghost var st := State();
      if id in slaves {
        slaves := Remove(slaves, id);
        heartbeat := heartbeat - {id};
        log := log + [RemovedLine(id, |slaves|)];
        assert State() == Unregister(st, id);
        if mode == GameRunning {
          SwitchToIdleMode();
        } else if mode == Idle {
          radio.SwitchToOperationMode(slaves);
        }
      }
    }

    method CheckSlaveTimeouts(now: U32)
      modifies this
      ensures State() == CheckTimeouts(old(State()), now)
    {
      if Elapsed(now, lastTimeoutCheck) > TimeoutCheckIntervalMs {
        var timedOut := CollectOverdue(now);
        LogTimeouts(timedOut);
        lastTimeoutCheck := now;
      }
    }

    /** The first loop of checkSlaveTimeouts: the heartbeat map is walked
        in ascending id order, as std::map iterates, by visiting every
        possible uint8_t key in turn. */
    method CollectOverdue(now: U32) returns (timedOut: seq<Byte>)
      ensures timedOut == Overdue(heartbeat, now, 0)
    {
      var hb := heartbeat;
      timedOut := [];
      var id: nat := 0;
      while id < 256
        invariant 0 <= id <= 256
        invariant timedOut + Overdue(hb, now, id) == Overdue(hb, now, 0)
      {
        var rest := Overdue(hb, now, id + 1);
        if id in hb && Elapsed(now, hb[id]) > SlaveTimeoutMs {
          assert Overdue(hb, now, id) == [id] + rest;
          assert timedOut + ([id] + rest) == (timedOut + [id]) + rest;
          timedOut := timedOut + [id];
        } else {
          assert Overdue(hb, now, id) == rest;
        }
        id := id + 1;
      }
      assert Overdue(hb, now, 256) == [];
      assert timedOut + [] == timedOut;
    }

    /** The second loop: one [TIMEOUT] line per overdue id. */
    method LogTimeouts(timedOut: seq<Byte>)
      modifies this
      ensures State() == old(State()).(log := old(log) + TimeoutLines(timedOut))
    {
      var i := 0;
      while i < |timedOut|
        invariant 0 <= i <= |timedOut|
        invariant State() == old(State()).(log := old(log) + TimeoutLines(timedOut[..i]))
      {
        assert TimeoutLines(timedOut[..i + 1]) == TimeoutLines(timedOut[..i]) + [TimeoutLine(timedOut[i])];
        log := log + [TimeoutLine(timedOut[i])];
        i := i + 1;
      }
      assert timedOut[..i] == timedOut;
    }

    method AutoStart(now: U32)
      modifies this, radio
      ensures State() == AutoStartPhase(old(State()), now)
    {
      if !autoStarted && now >= autoStartTime {
        SwitchToDiscoveryMode();
        autoStarted := true;
      }
    }

    method PollRadio(now: U32, game: GameOracle)
      modifies this, radio
      ensures State() == RadioPhase(old(State()), now, game)
    {
      var heard, payload, pipe := radio.ListenForResponse();
      if heard {
        HandleRadioPacket(payload, pipe, now, game);
      }
    }

    method PollSerial(line: Option<string>)
      modifies this, radio
      ensures State() == SerialPhase(old(State()), line)
    {
      if line.Some? {
        var command := Trim(line.value);
        if |command| > 0 {
          if StartsWith(command, "*") && EndsWith(command, "#") {
            ProcessSerialCommand(command);
          } else if StartsWith(command, "RMV:") {
            RemoveSlave(ToByte(ToInt(command[4..])));
          }
        }
      }
    }

    method RunMode(now: U32, game: GameOracle)
      modifies this, radio
      ensures State() == ModePhase(old(State()), now, game)
    {
      if mode == Discovery {
        HandleDiscoveryState(now);
      } else if mode == GameRunning && hasGame && game.finished {
        var acked := radio.BroadcastPacket("*STOP_ALL#", DefaultBurst);
        SwitchToIdleMode();
      }
    }

    /** One pass of loop(). `line` is the line Serial.readStringUntil
        returned in this pass, if any was available. */
    method Loop(now: U32, line: Option<string>, game: GameOracle)
      modifies this, radio
      ensures State() == LoopStep(old(State()), now, line, game)
    {
      AutoStart(now);
      if mode != Discovery {
        CheckSlaveTimeouts(now);
      }
      PollRadio(now, game);
      PollSerial(line);
      RunMode(now, game);
    }
  }
}
