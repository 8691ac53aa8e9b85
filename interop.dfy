/** How the three programs fit together: the host tool reading the master's
    log, the host's commands reaching the master's dispatcher, and the
    frames of each firmware as the other one decodes them. */
module Interop {
  import opened Text
  import opened Rf24
  import MasterConfig
  import opened MasterRadio
  import Registry
  import NameCommand
  import M = Master
  import B = Backend
  import SlaveConfig
  import SlaveRadio
  import S = Slave

  // ---------------------------------------------------------------------
  // The host reads each of the master's log lines as intended

  /** "[DISCOVERY] New slave joined! ID: <id>. Total: <n>" adds the id. */
  lemma JoinedLineParsed(v: B.View, id: Byte, total: nat)
    ensures B.ApplyLine(v, M.JoinedLine(id, total)) == v.(slaves := v.slaves + {id as nat})
  {
    JoinedLineText(id, total);
    JoinedLineSearch(id, total);
    B.ApplyJoin(v, M.JoinedLine(id, total), id);
  }

  lemma JoinedLineText(id: Byte, total: nat)
    ensures Contains(M.JoinedLine(id, total), B.JoinKey)
  {
    var tail := "! " + "ID: " + Decimal(id) + ". Total: " + Decimal(total);
    B.Found("[DISCOVERY] ", B.JoinKey, tail);
    assert "[DISCOVERY] " + B.JoinKey + tail == M.JoinedLine(id, total);
  }

  lemma JoinedLineSearch(id: Byte, total: nat)
    ensures B.Search(M.JoinedLine(id, total), "ID: ", "") == Some(id as nat)
  {
    var before := "[DISCOVERY] " + "New slave joined" + "! ";
    var after := ". Total: " + Decimal(total);
    assert "ID: "[..2] == "ID";
    assert ':' !in before + "ID";
    B.SearchFinds(M.JoinedLine(id, total), before, "ID: ", "", 2, id, after);
  }

  /** "[SYSTEM] Device #<id> removed. Total devices: <n>" removes the id. */
  lemma RemovedLineParsed(v: B.View, id: Byte, total: nat)
    ensures B.ApplyLine(v, M.RemovedLine(id, total)) == v.(slaves := v.slaves - {id as nat})
  {
    RemovedLineText(id, total);
    RemovedLineSearch(id, total);
    B.ApplyRemove(v, M.RemovedLine(id, total), id);
  }

  lemma RemovedLineText(id: Byte, total: nat)
    ensures var line := M.RemovedLine(id, total);
      !Contains(line, B.JoinKey) && Contains(line, B.RemovedKey) && Contains(line, "removed")
  {
    var line := M.RemovedLine(id, total);
    var d := Decimal(id);
    var rest := ". Total devices: " + Decimal(total);
    RemovedLineLacks(id, total);
    B.MissingChar(line, B.JoinKey, 'N');
    B.Found("[SYSTEM] ", B.RemovedKey, d + " " + "removed" + rest);
    assert "[SYSTEM] " + B.RemovedKey + (d + " " + "removed" + rest) == line;
    B.Found("[SYSTEM] " + "Device #" + d + " ", "removed", rest);
    assert "[SYSTEM] " + "Device #" + d + " " + "removed" + rest == line;
  }

  lemma RemovedLineLacks(id: Byte, total: nat)
    ensures 'N' !in M.RemovedLine(id, total)
  {
    B.NotInDecimal(id, 'N');
    B.NotInDecimal(total, 'N');
  }

  lemma RemovedLineSearch(id: Byte, total: nat)
    ensures B.Search(M.RemovedLine(id, total), B.RemovedKey, " removed") == Some(id as nat)
  {
    var after := " " + "removed" + ". Total devices: " + Decimal(total);
    assert B.RemovedKey[..7] == "Device ";
    assert '#' !in "[SYSTEM] " + "Device ";
    assert StartsWith(after, " removed");
    B.SearchFinds(M.RemovedLine(id, total), "[SYSTEM] ", B.RemovedKey, " removed", 7, id, after);
  }

  lemma IdleLineParsed(v: B.View)
    ensures B.ApplyLine(v, M.IdleLine) == v.(discovery := false)
  {
    IdleLineText();
    B.ApplyIdle(v, M.IdleLine);
  }

  lemma IdleLineText()
    ensures !Contains(M.IdleLine, B.JoinKey) && !Contains(M.IdleLine, B.RemovedKey)
    ensures !Contains(M.IdleLine, B.DiscoveryKey) && Contains(M.IdleLine, B.IdleKey)
  {
    assert 'v' !in M.IdleLine;
    B.MissingChar(M.IdleLine, B.JoinKey, 'v');
    B.MissingChar(M.IdleLine, B.RemovedKey, 'v');
    B.MissingChar(M.IdleLine, B.DiscoveryKey, 'v');
    B.Found("[STATUS] ", B.IdleKey, ".");
  }

  lemma DiscoveryLineParsed(v: B.View)
    ensures B.ApplyLine(v, M.DiscoveryLine) == v.(discovery := true)
  {
    DiscoveryLineText();
    B.ApplyDiscovery(v, M.DiscoveryLine);
  }

  lemma DiscoveryLineText()
    ensures !Contains(M.DiscoveryLine, B.JoinKey) && !Contains(M.DiscoveryLine, B.RemovedKey)
    ensures Contains(M.DiscoveryLine, B.DiscoveryKey)
  {
    DiscoveryLineLacks();
    DiscoveryLineLacksHash();
    B.MissingChar(M.DiscoveryLine, B.JoinKey, 'N');
    B.MissingChar(M.DiscoveryLine, B.RemovedKey, '#');
    B.Found("[STATUS] ", B.DiscoveryKey, ". Waiting for slaves to join...");
  }

  lemma DiscoveryLineLacks()
    ensures 'N' !in M.DiscoveryLine
  {
  }

  lemma DiscoveryLineLacksHash()
    ensures '#' !in M.DiscoveryLine
  {
  }

  lemma ReadyLineParsed(v: B.View, online: nat)
    ensures B.ApplyLine(v, M.ReadyLine(online)) == v.(discovery := false)
  {
    ReadyLineText(online);
    B.ApplyIdle(v, M.ReadyLine(online));
  }

  lemma ReadyLineText(online: nat)
    ensures var line := M.ReadyLine(online);
      !Contains(line, B.JoinKey) && !Contains(line, B.RemovedKey) &&
      !Contains(line, B.DiscoveryKey) && Contains(line, B.ReadyKey)
  {
    ReadyLineMisses(online);
    ReadyLineFinds(online);
  }

  lemma ReadyLineMisses(online: nat)
    ensures var line := M.ReadyLine(online);
      !Contains(line, B.JoinKey) && !Contains(line, B.RemovedKey) && !Contains(line, B.DiscoveryKey)
  {
    var line := M.ReadyLine(online);
    ReadyLineLacks(online);
    ReadyLineLacksHash(online);
    B.MissingChar(line, B.JoinKey, 'w');
    B.MissingChar(line, B.RemovedKey, '#');
    B.MissingChar(line, B.DiscoveryKey, 'w');
  }

  lemma ReadyLineFinds(online: nat)
    ensures Contains(M.ReadyLine(online), B.ReadyKey)
  {
    var tail := ". " + Decimal(online) + " devices are online.";
    B.Found("", B.ReadyKey, tail);
    assert "" + B.ReadyKey + tail == M.ReadyLine(online);
  }

  lemma ReadyLineLacks(online: nat)
    ensures 'w' !in M.ReadyLine(online)
  {
    B.NotInDecimal(online, 'w');
  }

  lemma ReadyLineLacksHash(online: nat)
    ensures '#' !in M.ReadyLine(online)
  {
    B.NotInDecimal(online, '#');
  }

  /** The "Not enough devices" line is not one the host acts on. */
  lemma NotEnoughLineIgnored(v: B.View, found: nat)
    ensures B.ApplyLine(v, M.NotEnoughLine(found)) == v
  {
    NotEnoughLineText(found);
    B.ApplyNone(v, M.NotEnoughLine(found));
  }

  lemma NotEnoughLineText(found: nat)
    ensures var line := M.NotEnoughLine(found);
      !Contains(line, B.JoinKey) && !Contains(line, B.RemovedKey) && !Contains(line, B.DiscoveryKey) &&
      !Contains(line, B.IdleKey) && !Contains(line, B.ReadyKey)
  {
    var line := M.NotEnoughLine(found);
    NotEnoughLacks(found);
    NotEnoughLacksHash(found);
    NotEnoughLacksA(found);
    B.MissingChar(line, B.JoinKey, 'w');
    B.MissingChar(line, B.RemovedKey, '#');
    B.MissingChar(line, B.DiscoveryKey, 'w');
    B.MissingChar(line, B.IdleKey, 'w');
    B.MissingChar(line, B.ReadyKey, 'a');
  }

  lemma NotEnoughLacks(found: nat)
    ensures 'w' !in M.NotEnoughLine(found)
  {
    B.NotInDecimal(found, 'w');
    B.NotInDecimal(MasterConfig.MinDevicesRequired, 'w');
  }

  lemma NotEnoughLacksHash(found: nat)
    ensures '#' !in M.NotEnoughLine(found)
  {
    B.NotInDecimal(found, '#');
    B.NotInDecimal(MasterConfig.MinDevicesRequired, '#');
  }

  lemma NotEnoughLacksA(found: nat)
    ensures 'a' !in M.NotEnoughLine(found)
  {
    B.NotInDecimal(found, 'a');
    B.NotInDecimal(MasterConfig.MinDevicesRequired, 'a');
  }

  /** A timeout line leaves the host's view alone: timed-out slaves stay
      listed, as they stay registered on the master. */
  lemma TimeoutLineIgnored(v: B.View, id: Byte)
    ensures B.ApplyLine(v, M.TimeoutLine(id)) == v
  {
    TimeoutLineText(id);
    B.ApplyNone(v, M.TimeoutLine(id));
  }

  lemma TimeoutLineText(id: Byte)
    ensures var line := M.TimeoutLine(id);
      !Contains(line, B.JoinKey) && !Contains(line, B.RemovedKey) && !Contains(line, B.DiscoveryKey) &&
      !Contains(line, B.IdleKey) && !Contains(line, B.ReadyKey)
  {
    var line := M.TimeoutLine(id);
    TimeoutLacks(id);
    TimeoutLacksD(id);
    TimeoutLacksY(id);
    B.MissingChar(line, B.JoinKey, 'w');
    B.MissingChar(line, B.RemovedKey, 'D');
    B.MissingChar(line, B.DiscoveryKey, 'D');
    B.MissingChar(line, B.IdleKey, 'w');
    B.MissingChar(line, B.ReadyKey, 'y');
  }

  lemma TimeoutLacks(id: Byte)
    ensures 'w' !in M.TimeoutLine(id)
  {
    B.NotInDecimal(id, 'w');
  }

  lemma TimeoutLacksD(id: Byte)
    ensures 'D' !in M.TimeoutLine(id)
  {
    B.NotInDecimal(id, 'D');
  }

  lemma TimeoutLacksY(id: Byte)
    ensures 'y' !in M.TimeoutLine(id)
  {
    B.NotInDecimal(id, 'y');
  }

  lemma {:induction false} TimeoutLinesIgnored(v: B.View, ids: seq<Byte>)
    ensures B.Replay(v, M.TimeoutLines(ids)) == v
    decreases |ids|
  {
    if ids != [] {
      var lines := M.TimeoutLines(ids);
      assert lines[1..] == M.TimeoutLines(ids[1..]);
      TimeoutLineIgnored(v, ids[0]);
      TimeoutLinesIgnored(v, ids[1..]);
    }
  }

  // ---------------------------------------------------------------------
  // The host's commands as the master reads them

  /** A "*...#" command the host writes reaches the master's dispatcher
      unchanged. */
  lemma FramedLine(command: string)
    requires |command| >= 2 && command[0] == '*' && command[|command| - 1] == '#'
    ensures M.ParseLine(command) == M.Dispatch(M.ParseCommand(command))
  {
    assert Trim(command) == command;
  }

  /** The toggle ends discovery while the host believes it on and starts it
      otherwise; stop switches to idle; pairing and the scenarios have no
      branch on the master. */
  lemma HostCommandsParsed(discovery: bool)
    ensures M.ParseLine(B.ToggleText(discovery)) == M.Dispatch(if discovery then M.DiscoveryOff else M.DiscoveryOn)
    ensures M.ParseLine(B.StopText) == M.Dispatch(M.StopAll)
    ensures M.ParseLine(B.PairingText) == M.Dispatch(M.NoOp)
    ensures M.ParseLine(B.Scenario1Text) == M.Dispatch(M.NoOp)
    ensures M.ParseLine(B.Scenario2Text) == M.Dispatch(M.NoOp)
  {
    M.CommandTable();
    FramedLine(B.ToggleText(discovery));
    FramedLine(B.StopText);
    FramedLine(B.PairingText);
    FramedLine(B.Scenario1Text);
    FramedLine(B.Scenario2Text);
  }

  /** The host's remove only forwards "*REMOVEJOIN_<id>#" to the devices:
      the master's registry, and so the host's own view, keep the id. */
  lemma HostRemoveForwarded(st: M.MasterState, id: nat)
    ensures M.ParseLine(B.RemoveJoinText(id)) == M.Dispatch(M.RemoveJoin(B.RemoveJoinText(id)))
    ensures M.SerialPhase(st, Some(B.RemoveJoinText(id))) ==
      st.(radio := Broadcast(st.radio, B.RemoveJoinText(id), DefaultBurst))
  {
    var c := B.RemoveJoinText(id);
    FramedLine(c);
    assert StartsWith(c, "*REMOVEJOIN_");
    M.RemoveJoinOnlyForwards(st, c);
  }

  /** The line the master reads for the host's name command, when the name
      holds no newline, is the command itself; the master stores the name
      under (uint8_t)id and forwards the command. */
  lemma HostNameReachesMaster(st: M.MasterState, id: nat, name: string)
    requires '\n' !in name
    ensures var line := NameCommand.NameCommandText(Decimal(id), name);
      var written := line + "\n";
      IndexOf(written, '\n', 0) == |line| && written[..|line|] == line &&
      M.ParseLine(line) == M.Dispatch(M.Name(line, NameCommand.NameFields(Decimal(id), name))) &&
      M.SerialPhase(st, Some(line)).names == st.names[ToByte(id) := name] &&
      M.SerialPhase(st, Some(line)).slaves == st.slaves
  {
    NameLineRead(id, name);
    NameLineParsed(id, name);
    NameStored(st, id, name);
  }

  lemma NameStored(st: M.MasterState, id: nat, name: string)
    ensures var line := NameCommand.NameCommandText(Decimal(id), name);
      var r := M.Command(st, M.Name(line, NameCommand.NameFields(Decimal(id), name)));
      r.names == st.names[ToByte(id) := name] && r.slaves == st.slaves
  {
    assert Decimal(id) + "" == Decimal(id);
    ToIntDecimal(id, "");
  }

  lemma NameLineRead(id: nat, name: string)
    requires '\n' !in name
    ensures var line := NameCommand.NameCommandText(Decimal(id), name);
      IndexOf(line + "\n", '\n', 0) == |line| && (line + "\n")[..|line|] == line
  {
    var line := NameCommand.NameCommandText(Decimal(id), name);
    var written := line + "\n";
    B.NotInDecimal(id, '\n');
    assert '\n' !in NameCommand.NamePrefix;
    assert '\n' !in line;
    forall j | 0 <= j < |line| ensures written[j] != '\n' {
      assert written[j] == line[j] && line[j] in line;
    }
    NameCommand.IndexOfFirst(written, '\n', 0, |line|);
  }

  lemma NameLineParsed(id: nat, name: string)
    ensures var line := NameCommand.NameCommandText(Decimal(id), name);
      M.ParseLine(line) == M.Dispatch(M.Name(line, NameCommand.NameFields(Decimal(id), name)))
  {
    var line := NameCommand.NameCommandText(Decimal(id), name);
    FramedLine(line);
    NameCommandParsed(id, name);
  }

  lemma NameCommandParsed(id: nat, name: string)
    ensures var line := NameCommand.NameCommandText(Decimal(id), name);
      M.ParseCommand(line) == M.Name(line, NameCommand.NameFields(Decimal(id), name))
  {
    var line := NameCommand.NameCommandText(Decimal(id), name);
    assert line[1] == 'N' && "*STOP_ALL#"[1] == 'S';
    assert StartsWith(line, "*NAME_");
    B.SendNameParses(id, name);
  }

  // ---------------------------------------------------------------------
  // The frames of each firmware as the other one reads them

  /** Both firmwares use the same two addresses, and a slave listens on
      the address the master broadcasts to. */
  lemma PipesAgree()
    ensures MasterConfig.CommandPipe == SlaveConfig.CommandPipe
    ensures MasterConfig.DiscoveryPipe == SlaveConfig.DiscoveryPipe
    ensures SlaveRadio.Listening.readingPipes == map[1 := SlaveConfig.CommandPipe]
  {
  }

  lemma ByteDecimalShort(id: Byte)
    ensures |Decimal(id)| <= 3
  {
    if id >= 100 {
      assert Decimal(id) == Decimal(id / 10) + [DigitChar(id % 10)];
      assert Decimal(id / 10) == Decimal(id / 100) + [DigitChar((id / 10) % 10)];
    } else if id >= 10 {
      assert Decimal(id) == Decimal(id / 10) + [DigitChar(id % 10)];
    }
  }

  /** A slave's join request, a single id byte sent to the discovery
      address, is read by a master in discovery as that id: a new id is
      registered, its heartbeat set, and the acknowledgement and the stop
      command go out. */
  lemma JoinRequestHeard(st: M.MasterState, id: Byte, now: U32, more: seq<Received>)
    requires M.Valid(st) && id != 0
    requires st.radio.rx == [Received(1, [id as char])] + more
    ensures var a := M.HandleDiscovery(st, now);
      M.Valid(a) && id in a.slaves && a.heartbeat[id] == now && a.radio.rx == more &&
      a.radio.sent == st.radio.sent + Repeat(Sent(MasterConfig.CommandPipe, Frame([id as char])), M.ShortBurst)
                                    + Repeat(Sent(MasterConfig.CommandPipe, Frame("*STOP_" + Decimal(id) + "#")), M.ShortBurst)
  {
    var (heard, r) := DiscoveryPoll(st.radio);
    assert heard == Some(id);
    assert r.sent == st.radio.sent && r.rx == more;
    M.AnnounceEffect(st.(radio := r), id, now);
  }

  /** The acknowledgement frame (the id byte, NUL-padded) decodes on the
      slave to the one-character command holding the id, except for ids
      the slave's trim removes: NUL and the white-space bytes. */
  lemma AckFrameDecodes(id: Byte)
    ensures SlaveRadio.Decode(Frame([id as char])) ==
      if id == 0 || IsSpace(id as char) then None else Some([id as char])
  {
    var c := id as char;
    var f := Frame([c]);
    var pad := seq(FrameSize - 1, _ => Nul);
    assert Buffer(f) == f by { assert f[..FrameSize] == f; }
    if id == 0 {
      assert CutAtNul([c]) == [];
      assert f[0] == Nul;
    } else {
      CutAtNulNone([c]);
      assert [c][..Min(1, FrameSize - 1)] == [c];
      assert f == [c] + pad;
      CutAtNulPrefix([c], pad);
      if !IsSpace(c) {
        assert Trim([c]) == [c];
      }
    }
  }

  /** The stop command that follows the acknowledgement decodes intact. */
  lemma StopFrameDecodes(id: Byte)
    ensures SlaveRadio.Decode(Frame("*STOP_" + Decimal(id) + "#")) == Some("*STOP_" + Decimal(id) + "#")
  {
    var c := "*STOP_" + Decimal(id) + "#";
    ByteDecimalShort(id);
    B.NotInDecimal(id, Nul);
    SlaveRadio.DecodeFrame(c);
  }

  /** The master's two answers to a join, read by the joining slave: the
      acknowledgement moves it to the confirmation blink (white-space ids
      miss it), the stop command raises its stop flag, and its next logic
      pass is stopped and lands in IDLE either way. */
  lemma JoinHandshake(p: S.Peer, id: Byte, more: seq<Received>, press1: bool, press2: bool, now: U32, polls: seq<S.Poll>)
    requires p.mode == SlaveConfig.Joining && id != 0
    requires p.radio.rx == [Received(1, Frame([id as char])), Received(1, Frame("*STOP_" + Decimal(id) + "#"))] + more
    ensures var q := S.NrfStep(S.NrfStep(p, id), id);
      q.stop && q.radio.rx == more && q.name == p.name &&
      q.mode == (if IsSpace(id as char) then SlaveConfig.Joining else SlaveConfig.ConfirmBlinking) &&
      S.LogicStep(q, id, press1, press2, now, polls).mode == SlaveConfig.Idle
  {
    var rest := [Received(1, Frame("*STOP_" + Decimal(id) + "#"))] + more;
    assert p.radio.rx == [Received(1, Frame([id as char]))] + rest;
    AckStep(p, id, rest);
    var p1 := S.NrfStep(p, id);
    StopStep(p1, id, more);
  }

  /** The acknowledgement, read by a joining slave. */
  lemma AckStep(p: S.Peer, id: Byte, rest: seq<Received>)
    requires p.mode == SlaveConfig.Joining && id != 0
    requires p.radio.rx == [Received(1, Frame([id as char]))] + rest
    ensures S.NrfStep(p, id) == p.(radio := p.radio.(rx := rest),
      mode := if IsSpace(id as char) then SlaveConfig.Joining else SlaveConfig.ConfirmBlinking)
  {
    AckFrameDecodes(id);
    assert p.radio.rx[1..] == rest;
    if !IsSpace(id as char) {
      AckDispatch(p.(radio := p.radio.(rx := rest)), id);
    }
  }

  /** The stop command, read by a slave that is joining (for a white-space
      id) or confirming the join. */
  lemma StopStep(p: S.Peer, id: Byte, more: seq<Received>)
    requires p.mode == SlaveConfig.Joining || p.mode == SlaveConfig.ConfirmBlinking
    requires p.mode == SlaveConfig.Joining ==> id != 42
    requires p.radio.rx == [Received(1, Frame("*STOP_" + Decimal(id) + "#"))] + more
    ensures var q := S.NrfStep(p, id);
      q == p.(radio := p.radio.(rx := more), stop := true)
    ensures forall press1, press2, now, polls ::
      S.LogicStep(S.NrfStep(p, id), id, press1, press2, now, polls).mode == SlaveConfig.Idle
  {
    StopFrameDecodes(id);
    assert p.radio.rx[1..] == more;
    S.StopCommand(p.(radio := p.radio.(rx := more)), id, id);
  }

  /** A one-character command equal to the id completes the join and does
      nothing else. */
  lemma AckDispatch(p: S.Peer, id: Byte)
    requires p.mode == SlaveConfig.Joining
    ensures S.Dispatch(p, [id as char], id) == p.(mode := SlaveConfig.ConfirmBlinking)
  {
    var c := [id as char];
    assert !StartsWith(c, "*READ_") && !StartsWith(c, "*EMULATE_") && !StartsWith(c, "*TESTPIPE_");
    assert !StartsWith(c, "*SETCOLOR_YELLOW_") && !StartsWith(c, "*SETCOLOR_RAINBOW_");
    assert !StartsWith(c, "*SCORE_MODE_START") && !StartsWith(c, "*SCORE_MODE_STOP");
    assert !StartsWith(c, "*COOLDOWN_START_") && !StartsWith(c, "*COOLDOWN_END_");
    assert !StartsWith(c, "*STOP_") && !StartsWith(c, "*REMOVEJOIN_") && !StartsWith(c, "*BLINK_WHITE_");
    assert !StartsWith(c, NameCommand.NamePrefix);
  }

  /** A frame a slave sends reads back on the master as the text it sent,
      when the text fits in 31 characters. */
  lemma ReplyReadBack(text: string)
    requires |text| <= FrameSize - 1 && Nul !in text
    ensures CutAtNul(Buffer(Frame(text))) == text
  {
    var f := Frame(text);
    assert Buffer(f) == f by { assert f[..FrameSize] == f; }
    FrameReadBack(text);
    assert text[..Min(|text|, FrameSize - 1)] == text;
  }

  /** The slave's heartbeat, heard on a pipe bound to a registered slave,
      refreshes that slave's timestamp, in every mode. */
  lemma HeartbeatHeard(st: M.MasterState, pipe: nat, id: Byte, now: U32, game: M.GameOracle)
    requires 0 < pipe <= |st.slaves|
    ensures var text := CutAtNul(Buffer(Frame(S.HeartbeatText(id))));
      M.Classify(st, text, pipe) == M.Heartbeat(st.slaves[pipe - 1]) &&
      M.HandleRadio(st, text, pipe, now, game) == st.(heartbeat := st.heartbeat[st.slaves[pipe - 1] := now])
  {
    ByteDecimalShort(id);
    B.NotInDecimal(id, Nul);
    ReplyReadBack(S.HeartbeatText(id));
  }

  /** The slave's channel-test reply is what an IDLE master counts as a
      working reply pipe. */
  lemma TestReplyHeard(st: M.MasterState, pipe: nat, id: Byte)
    requires 0 < pipe <= |st.slaves| && st.mode == MasterConfig.Idle
    ensures M.Classify(st, CutAtNul(Buffer(Frame(SlaveRadio.TestText(id)))), pipe) == M.PipeTestOk(st.slaves[pipe - 1])
  {
    SlaveRadio.TestTextFits(id);
    ReplyReadBack(SlaveRadio.TestText(id));
    TestTextPrefix(id);
  }

  lemma TestTextPrefix(id: Byte)
    ensures StartsWith(SlaveRadio.TestText(id), "Channel Test")
    ensures !StartsWith(SlaveRadio.TestText(id), "*HEARTBEAT_")
  {
    assert SlaveRadio.TestText(id)[1] == 'h' && "*HEARTBEAT_"[1] == 'H';
  }

  /** The IDLE master binds pipe k + 1 to the reply address of its k-th
      slave (for the first five), the address that slave replies to. */
  lemma ReplyPipeBound(r: Radio, devices: seq<Byte>, k: nat)
    requires k < |devices| && k < SlavePipes
    ensures Operate(r, devices).readingPipes[k + 1] == PipeName(devices[k])
    ensures SlaveRadio.Reply(r, "", devices[k]).sent[|r.sent|].address == PipeName(devices[k])
  {
  }

  /** A name the master forwards reaches the device it names, when the
      command fits in a frame. */
  lemma NameReachesSlave(p: S.Peer, n: Byte, name: string, id: Byte)
    requires |NameCommand.NameCommandText(Decimal(n), name)| <= FrameSize - 1 && Nul !in name
    requires p.radio.rx != [] && p.radio.rx[0].payload == Frame(NameCommand.NameCommandText(Decimal(n), name))
    ensures S.NrfStep(p, id).name == (if n == id then name else p.name)
    ensures S.NrfStep(p, id).radio.rx == p.radio.rx[1..]
  {
    var c := NameCommand.NameCommandText(Decimal(n), name);
    NameFrameDecodes(n, name);
    S.NameCommandEffect(p.(radio := p.radio.(rx := p.radio.rx[1..])), n, name, id);
  }

  lemma NameFrameDecodes(n: Byte, name: string)
    requires |NameCommand.NameCommandText(Decimal(n), name)| <= FrameSize - 1 && Nul !in name
    ensures var c := NameCommand.NameCommandText(Decimal(n), name);
      SlaveRadio.Decode(Frame(c)) == Some(c)
  {
    var c := NameCommand.NameCommandText(Decimal(n), name);
    B.NotInDecimal(n, Nul);
    assert Nul !in NameCommand.NamePrefix;
    assert Nul !in c;
    assert c[0] == '*' && c[|c| - 1] == '#';
    SlaveRadio.DecodeFrame(c);
  }
}
