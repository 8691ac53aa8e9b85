/** The slave firmware's state machine (RF24-Slave/src/main.cpp). Its two
    FreeRTOS tasks share one state: the radio task turns each received
    command into flag and mode changes (Dispatch), the logic task runs one
    pass over the flags and the mode (LogicStep). Each task step is taken as
    atomic. DEVICE_ID is the parameter `id`. */
module Slave {
  import opened Text
  import opened Rf24
  import opened SlaveConfig
  import opened SlaveRadio
  import opened NameCommand
  import opened Nfc

  /** The state both tasks share, with the logic task's heartbeat clock and
      the radio. */
  datatype Peer = Peer(
    mode: SystemMode,
    stop: bool,           // stop_signal
    blink: bool,          // blink_white_pending
    name: string,         // registered_name
    button1: bool,        // button1_pressed
    button2: bool,        // button2_pressed
    lastHeartbeat: U32,   // lastHeartbeatSendTime
    radio: Radio)

  /** Right after setup(): joining, no flags, radio listening on the
      command pipe. */
  const Boot: Peer := Peer(Joining, false, false, "", false, false, 0, Listening)

  // ---------------------------------------------------------------------
  // parseAndCheckId

  /** The '-'-separated fields of s, in order; "" has one empty field and a
      trailing '-' adds an empty last field. */
  function Fields(s: string): (f: seq<string>)
    ensures |f| > 0
    decreases |s|
  {
    if s == [] then [""]
    else
      var rest := Fields(s[1..]);
      if s[0] == '-' then [""] + rest else [[s[0]] + rest[0]] + rest[1..]
  }

  function Join(f: seq<string>): string
    requires |f| > 0
  {
    if |f| == 1 then f[0] else f[0] + "-" + Join(f[1..])
  }

  /** Fields is the split at '-': no field holds a '-', and joining the
      fields with '-' gives s back. */
  lemma {:induction false} FieldsSplit(s: string)
    ensures Join(Fields(s)) == s
    ensures forall i :: 0 <= i < |Fields(s)| ==> '-' !in Fields(s)[i]
    decreases |s|
  {
    if s != [] {
      var rest := Fields(s[1..]);
      FieldsSplit(s[1..]);
      if s[0] == '-' {
        assert Fields(s)[1..] == rest;
      } else {
        var f := Fields(s);
        assert f[1..] == rest[1..];
        if |rest| > 1 {
          assert Join(rest) == rest[0] + "-" + Join(rest[1..]);
          assert Join(f) == ([s[0]] + rest[0]) + "-" + Join(rest[1..]);
        }
        assert [s[0]] + s[1..] == s;
        assert '-' !in [s[0]] + rest[0];
        forall i | 1 <= i < |f| ensures '-' !in f[i] {
          assert f[i] == rest[i];
        }
      }
    }
  }

  /** A string without '-' is a single field. */
  lemma {:induction false} FieldsNoDash(s: string)
    requires '-' !in s
    ensures Fields(s) == [s]
    decreases |s|
  {
    if s != [] {
      assert s[0] in s;
      assert forall c :: c in s[1..] ==> c in s;
      FieldsNoDash(s[1..]);
      assert [s[0]] + s[1..] == s;
    }
  }

  /** A '-' after a dash-free head starts the next field. */
  lemma {:induction false} FieldsDash(a: string, b: string)
    requires '-' !in a
    ensures Fields(a + "-" + b) == [a] + Fields(b)
    decreases |a|
  {
    if a == [] {
      assert a + "-" + b == ['-'] + b;
      assert (['-'] + b)[1..] == b;
    } else {
      assert a[0] in a;
      assert forall c :: c in a[1..] ==> c in a;
      assert (a + "-" + b)[1..] == a[1..] + "-" + b;
      FieldsDash(a[1..], b);
      assert [a[0]] + a[1..] == a;
    }
  }

  lemma FieldsCons(c: char, u: string)
    ensures Fields([c] + u) == if c == '-' then [""] + Fields(u) else [[c] + Fields(u)[0]] + Fields(u)[1..]
  {
    assert ([c] + u)[1..] == u;
  }

  /** The field starting at `pos` ends at the next '-', or at the end. */
  lemma {:induction false} FieldsAt(s: string, pos: nat)
    requires pos <= |s|
    ensures var k := IndexOf(s, '-', pos);
      Fields(s[pos..]) == if k == -1 then [s[pos..]] else [s[pos..k]] + Fields(s[k + 1..])
    decreases |s| - pos
  {
    if pos == |s| {
      FieldsAtEnd(s);
    } else if s[pos] != '-' {
      FieldsAt(s, pos + 1);
      FieldsAtStep(s, pos, IndexOf(s, '-', pos + 1));
    } else {
      FieldsAtDash(s, pos);
    }
  }

  /** FieldsAt at the end of the string. */
  lemma FieldsAtEnd(s: string)
    ensures IndexOf(s, '-', |s|) == -1
    ensures Fields(s[|s|..]) == [s[|s|..]]
  {
    assert s[|s|..] == [];
  }

  /** The step of FieldsAt at a position that holds a '-'. */
  lemma FieldsAtDash(s: string, pos: nat)
    requires pos < |s| && s[pos] == '-'
    ensures IndexOf(s, '-', pos) == pos
    ensures Fields(s[pos..]) == [s[pos..pos]] + Fields(s[pos + 1..])
  {
    var u := s[pos + 1..];
    assert s[pos..] == [s[pos]] + u;
    FieldsCons(s[pos], u);
    assert s[pos..pos] == "";
  }

  /** The step of FieldsAt at a position that holds no '-'. */
  lemma FieldsAtStep(s: string, pos: nat, k: int)
    requires pos < |s| && s[pos] != '-' && k == IndexOf(s, '-', pos + 1)
    requires Fields(s[pos + 1..]) == if k == -1 then [s[pos + 1..]] else [s[pos + 1..k]] + Fields(s[k + 1..])
    ensures IndexOf(s, '-', pos) == k
    ensures Fields(s[pos..]) == if k == -1 then [s[pos..]] else [s[pos..k]] + Fields(s[k + 1..])
  {
    var u := s[pos + 1..];
    assert s[pos..] == [s[pos]] + u;
    FieldsCons(s[pos], u);
    if k == -1 {
      assert [s[pos]] + u == s[pos..];
    } else {
      assert [s[pos]] + s[pos + 1..k] == s[pos..k];
    }
  }

  /** `command.length() - 1` handed to substring as an unsigned int: the
      empty command gives 2^32 - 1. */
  function LastIndex(command: string): nat {
    if |command| == 0 then 0xFFFF_FFFF else |command| - 1
  }

  /** The id list of a command: from the end of the prefix up to, not
      including, the last character (Arduino substring, with its swap). */
  function IdList(command: string, prefix: string): string {
    Substring(command, |prefix|, LastIndex(command))
  }

  /** parseAndCheckId(command, prefix) as a property: the command starts
      with the prefix, and its id list is "ALL" or has the device's decimal
      id as one of its '-'-separated fields. */
  predicate Selects(command: string, prefix: string, id: Byte) {
    StartsWith(command, prefix) &&
    (IdList(command, prefix) == "ALL" || Decimal(id) in Fields(IdList(command, prefix)))
  }

  /** parseAndCheckId: the scan over the id list field by field. */
  method ParseAndCheckId(command: string, prefix: string, id: Byte) returns (r: bool)
    ensures r == Selects(command, prefix, id)
  {
    if !StartsWith(command, prefix) {
      return false;
    }
    var startIndex := |prefix|;
    var endIndex := |command| - 1;
    var ids := Substring(command, startIndex, if endIndex < 0 then 0xFFFF_FFFF else endIndex);
    assert ids == IdList(command, prefix);
    if ids == "ALL" {
      return true;
    }
    r := ScanFields(ids, Decimal(id));
  }

  /** The while loop of parseAndCheckId: whether some field of `ids` equals
      `myId`. */
  method ScanFields(ids: string, myId: string) returns (r: bool)
    requires myId != ""
    ensures r == (myId in Fields(ids))
  {
    var pos := 0;
    assert ids[0..] == ids;
    while pos < |ids|
      invariant 0 <= pos <= |ids| + 1
      invariant myId in Fields(ids) <==> pos <= |ids| && myId in Fields(ids[pos..])
      decreases |ids| + 1 - pos
    {
      var sep := IndexOf(ids, '-', pos);
      ScanStep(ids, pos, myId);
      if sep == -1 {
        sep := |ids|;
      }
      var part := ids[pos..sep];
      if part == myId {
        return true;
      }
      pos := sep + 1;
    }
    return false;
  }

  /** One field of the scan: myId is among the fields from `pos` on iff it
      is the field at `pos` or among those after the next '-'. */
  lemma ScanStep(ids: string, pos: nat, myId: string)
    requires pos < |ids|
    ensures var k := IndexOf(ids, '-', pos);
      var sep := if k == -1 then |ids| else k;
      myId in Fields(ids[pos..]) <==> myId == ids[pos..sep] || (sep < |ids| && myId in Fields(ids[sep + 1..]))
  {
    FieldsAt(ids, pos);
    assert ids[pos..|ids|] == ids[pos..];
  }

  /** "<prefix>ALL#" selects every device. */
  lemma SelectsAll(prefix: string, id: Byte)
    ensures Selects(prefix + "ALL#", prefix, id)
  {
    var c := prefix + "ALL#";
    assert c[|prefix|..|c| - 1] == "ALL";
  }

  lemma DigitsNoDash(n: nat)
    ensures '-' !in Decimal(n) && '#' !in Decimal(n) && '=' !in Decimal(n)
  {
    var d := Decimal(n);
    forall i | 0 <= i < |d| ensures d[i] != '-' && d[i] != '#' && d[i] != '=' {
      assert IsDigit(d[i]);
    }
  }

  lemma DecimalNotAll(n: nat)
    ensures Decimal(n) != "ALL"
  {
    assert IsDigit(Decimal(n)[0]);
  }

  /** "<prefix><n>#" selects exactly device n. */
  lemma SelectsOne(prefix: string, n: Byte, id: Byte)
    ensures Selects(prefix + Decimal(n) + "#", prefix, id) <==> id == n
  {
    var c := prefix + Decimal(n) + "#";
    assert IdList(c, prefix) == Decimal(n) by {
      assert c[|prefix|..|c| - 1] == Decimal(n);
    }
    DecimalNotAll(n);
    DigitsNoDash(n);
    FieldsNoDash(Decimal(n));
    DecimalInjective(id, n);
  }

  /** "<prefix><a>-<b>#" selects exactly devices a and b. */
  lemma SelectsPair(prefix: string, a: Byte, b: Byte, id: Byte)
    ensures Selects(prefix + Decimal(a) + "-" + Decimal(b) + "#", prefix, id) <==> id == a || id == b
  {
    var c := prefix + Decimal(a) + "-" + Decimal(b) + "#";
    PairIdList(prefix, a, b);
    PairFields(a, b);
    var f := Fields(IdList(c, prefix));
    assert f == [Decimal(a), Decimal(b)];
    assert Decimal(id) in f <==> Decimal(id) == Decimal(a) || Decimal(id) == Decimal(b);
    assert StartsWith(c, prefix);
    DecimalInjective(id, a);
    DecimalInjective(id, b);
  }

  lemma PairIdList(prefix: string, a: Byte, b: Byte)
    ensures var ids := Decimal(a) + "-" + Decimal(b);
      IdList(prefix + Decimal(a) + "-" + Decimal(b) + "#", prefix) == ids && ids != "ALL"
  {
    var c := prefix + Decimal(a) + "-" + Decimal(b) + "#";
    var ids := Decimal(a) + "-" + Decimal(b);
    assert c == prefix + (ids + "#");
    SliceMiddle(prefix, ids, "#");
    assert ids[0] == Decimal(a)[0] && IsDigit(ids[0]);
  }

  lemma SliceMiddle(a: string, m: string, z: string)
    ensures (a + (m + z))[|a|..|a| + |m|] == m
  {
    assert (a + (m + z))[|a|..] == m + z;
  }

  lemma PairFields(a: Byte, b: Byte)
    ensures Fields(Decimal(a) + "-" + Decimal(b)) == [Decimal(a), Decimal(b)]
  {
    DigitsNoDash(a);
    DigitsNoDash(b);
    FieldsNoDash(Decimal(b));
    FieldsDash(Decimal(a), Decimal(b));
  }

  /** The score-mode start prefix has no trailing '_': "*SCORE_MODE_START_ALL#"
      leaves "_ALL" as the id list and selects no device, while the
      underscore-free "*SCORE_MODE_STARTALL#" selects every one. */
  lemma ScoreStartPrefix(id: Byte)
    ensures !Selects("*SCORE_MODE_START_ALL#", "*SCORE_MODE_START", id)
    ensures Selects("*SCORE_MODE_STARTALL#", "*SCORE_MODE_START", id)
  {
    var c := "*SCORE_MODE_START_ALL#";
    assert c == "*SCORE_MODE_START" + "_ALL#";
    assert IdList(c, "*SCORE_MODE_START") == "_ALL" by {
      assert c[17..21] == "_ALL";
    }
    assert '-' !in "_ALL";
    FieldsNoDash("_ALL");
    assert IsDigit(Decimal(id)[0]);
    assert "*SCORE_MODE_STARTALL#" == "*SCORE_MODE_START" + "ALL#";
    SelectsAll("*SCORE_MODE_START", id);
  }

  // ---------------------------------------------------------------------
  // nrf_task: one received command

  /** resetToIdleState. */
  function ResetToIdle(p: Peer): (p': Peer)
    ensures p'.mode == Idle && !p'.stop && !p'.button1 && !p'.button2
    ensures p' == p.(mode := Idle, stop := false, button1 := false, button2 := false)
  {
    p.(mode := Idle, stop := false, button1 := false, button2 := false)
  }

  /** The first chain of nrf_task: mode commands, first match wins. */
  function ModeCommand(p: Peer, cmd: string, id: Byte): (p': Peer)
    ensures p' == p.(mode := p'.mode, stop := p'.stop, button1 := p'.button1, button2 := p'.button2)
    ensures p'.mode == Idle || (p'.stop == p.stop && p'.button1 == p.button1 && p'.button2 == p.button2)
  {
    if Selects(cmd, "*READ_", id) then p.(mode := Reader)
    else if Selects(cmd, "*EMULATE_", id) then p.(mode := Emulator)
    else if Selects(cmd, "*TESTPIPE_", id) then p.(mode := ChannelTest)
    else if Selects(cmd, "*SETCOLOR_YELLOW_", id) then p.(mode := TeamWaiting)
    else if Selects(cmd, "*SETCOLOR_RAINBOW_", id) then p.(mode := Spotlight)
    else if Selects(cmd, "*SCORE_MODE_START", id) then p.(mode := ScoreEmulator)
    else if Selects(cmd, "*SCORE_MODE_STOP", id) then ResetToIdle(p)
    else if Selects(cmd, "*COOLDOWN_START_", id) then p.(mode := Cooldown)
    else if Selects(cmd, "*COOLDOWN_END_", id) then
      (if p.mode == Cooldown then p.(mode := ScoreEmulator) else p)
    else p
  }

  /** The join acknowledgement: a command whose first byte is the id. */
  function Ack(p: Peer, cmd: string, id: Byte): (p': Peer)
    ensures p' == p.(mode := p'.mode)
    ensures p'.mode != p.mode ==> p.mode == Joining && p'.mode == ConfirmBlinking
  {
    if p.mode == Joining && |cmd| > 0 && cmd[0] as int == id then p.(mode := ConfirmBlinking) else p
  }

  /** The second chain: stop, kick, blink and name. */
  function Interrupt(p: Peer, cmd: string, id: Byte): (p': Peer)
    ensures p' == p.(mode := p'.mode, stop := p'.stop, blink := p'.blink, name := p'.name)
    ensures p'.mode == p.mode || p'.mode == Joining
    ensures p'.stop != p.stop ==> p'.stop
    ensures p'.blink != p.blink ==> p'.blink
    ensures p'.name != p.name ==> StartsWith(cmd, NamePrefix)
  {
    if Selects(cmd, "*STOP_", id) then p.(stop := true)
    else if Selects(cmd, "*REMOVEJOIN_", id) then p.(mode := Joining)
    else if Selects(cmd, "*BLINK_WHITE_", id) then p.(blink := true)
    else if StartsWith(cmd, NamePrefix) then
      match ParseName(cmd)
      case Some(f) => if f.idText == Decimal(id) then p.(name := f.name) else p
      case None => p
    else p
  }

  /** The body of nrf_task for one received command. */
  function Dispatch(p: Peer, cmd: string, id: Byte): Peer {
    Interrupt(Ack(ModeCommand(p, cmd, id), cmd, id), cmd, id)
  }

  /** One pass of nrf_task: take a frame off the radio and dispatch what it
      decodes to. */
  function NrfStep(p: Peer, id: Byte): Peer {
    if p.radio.rx == [] then p
    else
      var p' := p.(radio := p.radio.(rx := p.radio.rx[1..]));
      match Decode(p.radio.rx[0].payload)
      case Some(cmd) => Dispatch(p', cmd, id)
      case None => p'
  }

  /** A command that differs from a prefix at some position is not
      selected by it. */
  lemma Unselected(cmd: string, prefix: string, k: nat, id: Byte)
    requires k < |cmd| && k < |prefix| && cmd[k] != prefix[k]
    ensures !StartsWith(cmd, prefix) && !Selects(cmd, prefix, id)
  {
  }

  /** A command that is no stop, kick, blink or name command leaves the
      second chain without effect. */
  lemma NoInterrupt(p: Peer, cmd: string, id: Byte)
    requires !Selects(cmd, "*STOP_", id) && !Selects(cmd, "*REMOVEJOIN_", id)
    requires !Selects(cmd, "*BLINK_WHITE_", id) && !StartsWith(cmd, NamePrefix)
    ensures Interrupt(p, cmd, id) == p
  {
  }

  /** A command that no prefix of the first chain selects leaves it
      without effect. */
  lemma NoModeCommand(p: Peer, cmd: string, id: Byte)
    requires !Selects(cmd, "*READ_", id) && !Selects(cmd, "*EMULATE_", id) && !Selects(cmd, "*TESTPIPE_", id)
    requires !Selects(cmd, "*SETCOLOR_YELLOW_", id) && !Selects(cmd, "*SETCOLOR_RAINBOW_", id)
    requires !Selects(cmd, "*SCORE_MODE_START", id) && !Selects(cmd, "*SCORE_MODE_STOP", id)
    requires !Selects(cmd, "*COOLDOWN_START_", id) && !Selects(cmd, "*COOLDOWN_END_", id)
    ensures ModeCommand(p, cmd, id) == p
  {
  }

  /** A command the second chain ignores, and that no joining device takes
      for its acknowledgement, does only what the first chain does. */
  lemma ModeOnly(p: Peer, cmd: string, id: Byte, q: Peer)
    requires ModeCommand(p, cmd, id) == q
    requires !Selects(cmd, "*STOP_", id) && !Selects(cmd, "*REMOVEJOIN_", id)
    requires !Selects(cmd, "*BLINK_WHITE_", id) && !StartsWith(cmd, NamePrefix)
    requires q.mode != Joining || |cmd| == 0 || cmd[0] as int != id
    ensures Dispatch(p, cmd, id) == q
  {
    NoInterrupt(q, cmd, id);
  }

  /** The second chain's prefixes all differ from a command at its second,
      third or fourth character. */
  lemma SecondChainMisses(cmd: string, id: Byte)
    requires |cmd| > 3 && cmd[1] != 'B' && cmd[1] != 'N'
    requires cmd[1] != 'S' || cmd[2] != 'T'
    requires cmd[1] != 'R' || cmd[3] != 'M'
    ensures !Selects(cmd, "*STOP_", id) && !Selects(cmd, "*REMOVEJOIN_", id)
    ensures !Selects(cmd, "*BLINK_WHITE_", id) && !StartsWith(cmd, NamePrefix)
  {
    if cmd[1] == 'S' {
      Unselected(cmd, "*STOP_", 2, id);
    } else {
      Unselected(cmd, "*STOP_", 1, id);
    }
    if cmd[1] == 'R' {
      Unselected(cmd, "*REMOVEJOIN_", 3, id);
    } else {
      Unselected(cmd, "*REMOVEJOIN_", 1, id);
    }
    Unselected(cmd, "*BLINK_WHITE_", 1, id);
    Unselected(cmd, NamePrefix, 1, id);
  }

  /** The first chain on "*READ_ALL#" takes its branch, and the prefixes of the
      second chain miss it. */
  lemma ReadSelected(p: Peer, id: Byte)
    ensures ModeCommand(p, "*READ_ALL#", id) == p.(mode := Reader)
    ensures !Selects("*READ_ALL#", "*STOP_", id) && !Selects("*READ_ALL#", "*REMOVEJOIN_", id)
    ensures !Selects("*READ_ALL#", "*BLINK_WHITE_", id) && !StartsWith("*READ_ALL#", NamePrefix)
  {
    SecondChainMisses("*READ_ALL#", id);
    SelectsAll("*READ_", id);
  }

  /** READ_ starts the reader task: no earlier prefix of either chain shadows it, and it is
      no stop, kick, blink or name command. */
  lemma ReadCommand(p: Peer, id: Byte)
    ensures Dispatch(p, "*READ_ALL#", id) == p.(mode := Reader)
  {
    ReadSelected(p, id);
    ModeOnly(p, "*READ_ALL#", id, p.(mode := Reader));
  }

  /** The first chain on "*EMULATE_ALL#" takes its branch, and the prefixes of the
      second chain miss it. */
  lemma EmulateSelected(p: Peer, id: Byte)
    ensures ModeCommand(p, "*EMULATE_ALL#", id) == p.(mode := Emulator)
    ensures !Selects("*EMULATE_ALL#", "*STOP_", id) && !Selects("*EMULATE_ALL#", "*REMOVEJOIN_", id)
    ensures !Selects("*EMULATE_ALL#", "*BLINK_WHITE_", id) && !StartsWith("*EMULATE_ALL#", NamePrefix)
  {
    SecondChainMisses("*EMULATE_ALL#", id);
    SelectsAll("*EMULATE_", id);
    Unselected("*EMULATE_ALL#", "*READ_", 1, id);
  }

  /** EMULATE_ starts the emulator task: no earlier prefix of either chain shadows it, and it is
      no stop, kick, blink or name command. */
  lemma EmulateCommand(p: Peer, id: Byte)
    ensures Dispatch(p, "*EMULATE_ALL#", id) == p.(mode := Emulator)
  {
    EmulateSelected(p, id);
    ModeOnly(p, "*EMULATE_ALL#", id, p.(mode := Emulator));
  }

  /** The first chain on "*TESTPIPE_ALL#" takes its branch, and the prefixes of the
      second chain miss it. */
  lemma TestPipeSelected(p: Peer, id: Byte)
    ensures ModeCommand(p, "*TESTPIPE_ALL#", id) == p.(mode := ChannelTest)
    ensures !Selects("*TESTPIPE_ALL#", "*STOP_", id) && !Selects("*TESTPIPE_ALL#", "*REMOVEJOIN_", id)
    ensures !Selects("*TESTPIPE_ALL#", "*BLINK_WHITE_", id) && !StartsWith("*TESTPIPE_ALL#", NamePrefix)
  {
    SecondChainMisses("*TESTPIPE_ALL#", id);
    SelectsAll("*TESTPIPE_", id);
    Unselected("*TESTPIPE_ALL#", "*READ_", 1, id);
    Unselected("*TESTPIPE_ALL#", "*EMULATE_", 1, id);
  }

  /** TESTPIPE_ starts the channel test: no earlier prefix of either chain shadows it, and it is
      no stop, kick, blink or name command. */
  lemma TestPipeCommand(p: Peer, id: Byte)
    ensures Dispatch(p, "*TESTPIPE_ALL#", id) == p.(mode := ChannelTest)
  {
    TestPipeSelected(p, id);
    ModeOnly(p, "*TESTPIPE_ALL#", id, p.(mode := ChannelTest));
  }

  /** The first chain on "*SETCOLOR_YELLOW_ALL#" takes its branch, and the prefixes of the
      second chain miss it. */
  lemma YellowSelected(p: Peer, id: Byte)
    ensures ModeCommand(p, "*SETCOLOR_YELLOW_ALL#", id) == p.(mode := TeamWaiting)
    ensures !Selects("*SETCOLOR_YELLOW_ALL#", "*STOP_", id) && !Selects("*SETCOLOR_YELLOW_ALL#", "*REMOVEJOIN_", id)
    ensures !Selects("*SETCOLOR_YELLOW_ALL#", "*BLINK_WHITE_", id) && !StartsWith("*SETCOLOR_YELLOW_ALL#", NamePrefix)
  {
    SecondChainMisses("*SETCOLOR_YELLOW_ALL#", id);
    SelectsAll("*SETCOLOR_YELLOW_", id);
    Unselected("*SETCOLOR_YELLOW_ALL#", "*READ_", 1, id);
    Unselected("*SETCOLOR_YELLOW_ALL#", "*EMULATE_", 1, id);
    Unselected("*SETCOLOR_YELLOW_ALL#", "*TESTPIPE_", 1, id);
  }

  /** SETCOLOR_YELLOW_ turns on the yellow waiting light: no earlier prefix of either chain shadows it, and it is
      no stop, kick, blink or name command. */
  lemma YellowCommand(p: Peer, id: Byte)
    ensures Dispatch(p, "*SETCOLOR_YELLOW_ALL#", id) == p.(mode := TeamWaiting)
  {
    YellowSelected(p, id);
    ModeOnly(p, "*SETCOLOR_YELLOW_ALL#", id, p.(mode := TeamWaiting));
  }

  /** The first chain on "*SETCOLOR_RAINBOW_ALL#" takes its branch, and the prefixes of the
      second chain miss it. */
  lemma RainbowSelected(p: Peer, id: Byte)
    ensures ModeCommand(p, "*SETCOLOR_RAINBOW_ALL#", id) == p.(mode := Spotlight)
    ensures !Selects("*SETCOLOR_RAINBOW_ALL#", "*STOP_", id) && !Selects("*SETCOLOR_RAINBOW_ALL#", "*REMOVEJOIN_", id)
    ensures !Selects("*SETCOLOR_RAINBOW_ALL#", "*BLINK_WHITE_", id) && !StartsWith("*SETCOLOR_RAINBOW_ALL#", NamePrefix)
  {
    SecondChainMisses("*SETCOLOR_RAINBOW_ALL#", id);
    SelectsAll("*SETCOLOR_RAINBOW_", id);
    Unselected("*SETCOLOR_RAINBOW_ALL#", "*READ_", 1, id);
    Unselected("*SETCOLOR_RAINBOW_ALL#", "*EMULATE_", 1, id);
    Unselected("*SETCOLOR_RAINBOW_ALL#", "*TESTPIPE_", 1, id);
    Unselected("*SETCOLOR_RAINBOW_ALL#", "*SETCOLOR_YELLOW_", 10, id);
  }

  /** SETCOLOR_RAINBOW_ turns on the rainbow spotlight: no earlier prefix of either chain shadows it, and it is
      no stop, kick, blink or name command. */
  lemma RainbowCommand(p: Peer, id: Byte)
    ensures Dispatch(p, "*SETCOLOR_RAINBOW_ALL#", id) == p.(mode := Spotlight)
  {
    RainbowSelected(p, id);
    ModeOnly(p, "*SETCOLOR_RAINBOW_ALL#", id, p.(mode := Spotlight));
  }

  /** The first chain on "*SCORE_MODE_STARTALL#" takes its branch, and the prefixes of the
      second chain miss it. */
  lemma ScoreStartSelected(p: Peer, id: Byte)
    ensures ModeCommand(p, "*SCORE_MODE_STARTALL#", id) == p.(mode := ScoreEmulator)
    ensures !Selects("*SCORE_MODE_STARTALL#", "*STOP_", id) && !Selects("*SCORE_MODE_STARTALL#", "*REMOVEJOIN_", id)
    ensures !Selects("*SCORE_MODE_STARTALL#", "*BLINK_WHITE_", id) && !StartsWith("*SCORE_MODE_STARTALL#", NamePrefix)
  {
    SecondChainMisses("*SCORE_MODE_STARTALL#", id);
    SelectsAll("*SCORE_MODE_START", id);
    Unselected("*SCORE_MODE_STARTALL#", "*READ_", 1, id);
    Unselected("*SCORE_MODE_STARTALL#", "*EMULATE_", 1, id);
    Unselected("*SCORE_MODE_STARTALL#", "*TESTPIPE_", 1, id);
    Unselected("*SCORE_MODE_STARTALL#", "*SETCOLOR_YELLOW_", 2, id);
    Unselected("*SCORE_MODE_STARTALL#", "*SETCOLOR_RAINBOW_", 2, id);
  }

  /** SCORE_MODE_START enters score mode: no earlier prefix of either chain shadows it, and it is
      no stop, kick, blink or name command. */
  lemma ScoreStartCommand(p: Peer, id: Byte)
    ensures Dispatch(p, "*SCORE_MODE_STARTALL#", id) == p.(mode := ScoreEmulator)
  {
    ScoreStartSelected(p, id);
    ModeOnly(p, "*SCORE_MODE_STARTALL#", id, p.(mode := ScoreEmulator));
  }

  /** The first chain on "*SCORE_MODE_STOPALL#" takes its branch, and the prefixes of the
      second chain miss it. */
  lemma ScoreStopSelected(p: Peer, id: Byte)
    ensures ModeCommand(p, "*SCORE_MODE_STOPALL#", id) == ResetToIdle(p)
    ensures !Selects("*SCORE_MODE_STOPALL#", "*STOP_", id) && !Selects("*SCORE_MODE_STOPALL#", "*REMOVEJOIN_", id)
    ensures !Selects("*SCORE_MODE_STOPALL#", "*BLINK_WHITE_", id) && !StartsWith("*SCORE_MODE_STOPALL#", NamePrefix)
  {
    SecondChainMisses("*SCORE_MODE_STOPALL#", id);
    SelectsAll("*SCORE_MODE_STOP", id);
    Unselected("*SCORE_MODE_STOPALL#", "*READ_", 1, id);
    Unselected("*SCORE_MODE_STOPALL#", "*EMULATE_", 1, id);
    Unselected("*SCORE_MODE_STOPALL#", "*TESTPIPE_", 1, id);
    Unselected("*SCORE_MODE_STOPALL#", "*SETCOLOR_YELLOW_", 2, id);
    Unselected("*SCORE_MODE_STOPALL#", "*SETCOLOR_RAINBOW_", 2, id);
    Unselected("*SCORE_MODE_STOPALL#", "*SCORE_MODE_START", 14, id);
  }

  /** SCORE_MODE_STOP resets to idle: no earlier prefix of either chain shadows it, and it is
      no stop, kick, blink or name command. */
  lemma ScoreStopCommand(p: Peer, id: Byte)
    ensures Dispatch(p, "*SCORE_MODE_STOPALL#", id) == ResetToIdle(p)
  {
    ScoreStopSelected(p, id);
    ModeOnly(p, "*SCORE_MODE_STOPALL#", id, ResetToIdle(p));
  }

  /** The first chain on "*COOLDOWN_START_ALL#" takes its branch, and the prefixes of the
      second chain miss it. */
  lemma CooldownStartSelected(p: Peer, id: Byte)
    ensures ModeCommand(p, "*COOLDOWN_START_ALL#", id) == p.(mode := Cooldown)
    ensures !Selects("*COOLDOWN_START_ALL#", "*STOP_", id) && !Selects("*COOLDOWN_START_ALL#", "*REMOVEJOIN_", id)
    ensures !Selects("*COOLDOWN_START_ALL#", "*BLINK_WHITE_", id) && !StartsWith("*COOLDOWN_START_ALL#", NamePrefix)
  {
    SecondChainMisses("*COOLDOWN_START_ALL#", id);
    SelectsAll("*COOLDOWN_START_", id);
    Unselected("*COOLDOWN_START_ALL#", "*READ_", 1, id);
    Unselected("*COOLDOWN_START_ALL#", "*EMULATE_", 1, id);
    Unselected("*COOLDOWN_START_ALL#", "*TESTPIPE_", 1, id);
    Unselected("*COOLDOWN_START_ALL#", "*SETCOLOR_YELLOW_", 1, id);
    Unselected("*COOLDOWN_START_ALL#", "*SETCOLOR_RAINBOW_", 1, id);
    Unselected("*COOLDOWN_START_ALL#", "*SCORE_MODE_START", 1, id);
    Unselected("*COOLDOWN_START_ALL#", "*SCORE_MODE_STOP", 1, id);
  }

  /** COOLDOWN_START_ enters the cooldown: no earlier prefix of either chain shadows it, and it is
      no stop, kick, blink or name command. */
  lemma CooldownStartCommand(p: Peer, id: Byte)
    ensures Dispatch(p, "*COOLDOWN_START_ALL#", id) == p.(mode := Cooldown)
  {
    CooldownStartSelected(p, id);
    ModeOnly(p, "*COOLDOWN_START_ALL#", id, p.(mode := Cooldown));
  }

  /** The first chain on "*COOLDOWN_END_ALL#" takes its branch, and the prefixes of the
      second chain miss it. */
  lemma CooldownEndSelected(p: Peer, id: Byte)
    ensures ModeCommand(p, "*COOLDOWN_END_ALL#", id) == if p.mode == Cooldown then p.(mode := ScoreEmulator) else p
    ensures !Selects("*COOLDOWN_END_ALL#", "*STOP_", id) && !Selects("*COOLDOWN_END_ALL#", "*REMOVEJOIN_", id)
    ensures !Selects("*COOLDOWN_END_ALL#", "*BLINK_WHITE_", id) && !StartsWith("*COOLDOWN_END_ALL#", NamePrefix)
  {
    SecondChainMisses("*COOLDOWN_END_ALL#", id);
    SelectsAll("*COOLDOWN_END_", id);
    Unselected("*COOLDOWN_END_ALL#", "*READ_", 1, id);
    Unselected("*COOLDOWN_END_ALL#", "*EMULATE_", 1, id);
    Unselected("*COOLDOWN_END_ALL#", "*TESTPIPE_", 1, id);
    Unselected("*COOLDOWN_END_ALL#", "*SETCOLOR_YELLOW_", 1, id);
    Unselected("*COOLDOWN_END_ALL#", "*SETCOLOR_RAINBOW_", 1, id);
    Unselected("*COOLDOWN_END_ALL#", "*SCORE_MODE_START", 1, id);
    Unselected("*COOLDOWN_END_ALL#", "*SCORE_MODE_STOP", 1, id);
    Unselected("*COOLDOWN_END_ALL#", "*COOLDOWN_START_", 10, id);
  }

  /** COOLDOWN_END_ leaves the cooldown, and nothing else: no earlier prefix of either chain shadows it, and it is
      no stop, kick, blink or name command. */
  lemma CooldownEndCommand(p: Peer, id: Byte)
    requires p.mode != Joining || id != 42
    ensures Dispatch(p, "*COOLDOWN_END_ALL#", id) == if p.mode == Cooldown then p.(mode := ScoreEmulator) else p
  {
    CooldownEndSelected(p, id);
    ModeOnly(p, "*COOLDOWN_END_ALL#", id, if p.mode == Cooldown then p.(mode := ScoreEmulator) else p);
  }

  /** A command starting with '*' is an acknowledgement only for a
      joining device 42, the code of '*'. */
  lemma StarAck(p: Peer, cmd: string, id: Byte)
    requires |cmd| > 0 && cmd[0] == '*'
    ensures Ack(p, cmd, id) == if p.mode == Joining && id == 42 then p.(mode := ConfirmBlinking) else p
  {
  }

  /** "*STOP_<n>#" raises the stop flag of device n only. The join
      acknowledgement compares the command's first byte with the id, so a
      joining device 42 ('*') takes any command for its acknowledgement. */
  lemma StopCommand(p: Peer, n: Byte, id: Byte)
    ensures Dispatch(p, "*STOP_" + Decimal(n) + "#", id) ==
      (if p.mode == Joining && id == 42 then p.(mode := ConfirmBlinking) else p).(stop := p.stop || n == id)
  {
    var c := "*STOP_" + Decimal(n) + "#";
    StopNoMode(p, n, id);
    StarAck(p, c, id);
    StopInterrupt(Ack(p, c, id), n, id);
  }

  lemma StopNoMode(p: Peer, n: Byte, id: Byte)
    ensures ModeCommand(p, "*STOP_" + Decimal(n) + "#", id) == p
  {
    var c := "*STOP_" + Decimal(n) + "#";
    Unselected(c, "*READ_", 1, id);
    Unselected(c, "*EMULATE_", 1, id);
    Unselected(c, "*TESTPIPE_", 1, id);
    Unselected(c, "*SETCOLOR_YELLOW_", 2, id);
    Unselected(c, "*SETCOLOR_RAINBOW_", 2, id);
    Unselected(c, "*SCORE_MODE_START", 2, id);
    Unselected(c, "*SCORE_MODE_STOP", 2, id);
    Unselected(c, "*COOLDOWN_START_", 1, id);
    Unselected(c, "*COOLDOWN_END_", 1, id);
    NoModeCommand(p, c, id);
  }

  lemma StopInterrupt(q: Peer, n: Byte, id: Byte)
    ensures Interrupt(q, "*STOP_" + Decimal(n) + "#", id) == q.(stop := q.stop || n == id)
  {
    var c := "*STOP_" + Decimal(n) + "#";
    SelectsOne("*STOP_", n, id);
    Unselected(c, "*REMOVEJOIN_", 1, id);
    Unselected(c, "*BLINK_WHITE_", 1, id);
    Unselected(c, NamePrefix, 1, id);
  }

  /** "*REMOVEJOIN_<n>#" sends device n back to joining and leaves every
      other device as it is (but for the acknowledgement quirk). */
  lemma RemoveJoinCommand(p: Peer, n: Byte, id: Byte)
    ensures Dispatch(p, "*REMOVEJOIN_" + Decimal(n) + "#", id) ==
      if n == id then p.(mode := Joining)
      else if p.mode == Joining && id == 42 then p.(mode := ConfirmBlinking)
      else p
  {
    var c := "*REMOVEJOIN_" + Decimal(n) + "#";
    RemoveJoinNoMode(p, n, id);
    StarAck(p, c, id);
    RemoveJoinInterrupt(Ack(p, c, id), n, id);
  }

  lemma RemoveJoinNoMode(p: Peer, n: Byte, id: Byte)
    ensures ModeCommand(p, "*REMOVEJOIN_" + Decimal(n) + "#", id) == p
  {
    var c := "*REMOVEJOIN_" + Decimal(n) + "#";
    Unselected(c, "*READ_", 3, id);
    Unselected(c, "*EMULATE_", 1, id);
    Unselected(c, "*TESTPIPE_", 1, id);
    Unselected(c, "*SETCOLOR_YELLOW_", 1, id);
    Unselected(c, "*SETCOLOR_RAINBOW_", 1, id);
    Unselected(c, "*SCORE_MODE_START", 1, id);
    Unselected(c, "*SCORE_MODE_STOP", 1, id);
    Unselected(c, "*COOLDOWN_START_", 1, id);
    Unselected(c, "*COOLDOWN_END_", 1, id);
    NoModeCommand(p, c, id);
  }

  lemma RemoveJoinInterrupt(q: Peer, n: Byte, id: Byte)
    ensures Interrupt(q, "*REMOVEJOIN_" + Decimal(n) + "#", id) == if n == id then q.(mode := Joining) else q
  {
    var c := "*REMOVEJOIN_" + Decimal(n) + "#";
    Unselected(c, "*STOP_", 1, id);
    SelectsOne("*REMOVEJOIN_", n, id);
    Unselected(c, "*BLINK_WHITE_", 1, id);
    Unselected(c, NamePrefix, 1, id);
  }

  /** "*BLINK_WHITE_<n>#" raises the blink flag of device n only. */
  lemma BlinkCommand(p: Peer, n: Byte, id: Byte)
    ensures Dispatch(p, "*BLINK_WHITE_" + Decimal(n) + "#", id) ==
      (if p.mode == Joining && id == 42 then p.(mode := ConfirmBlinking) else p).(blink := p.blink || n == id)
  {
    var c := "*BLINK_WHITE_" + Decimal(n) + "#";
    BlinkNoMode(p, n, id);
    StarAck(p, c, id);
    BlinkInterrupt(Ack(p, c, id), n, id);
  }

  lemma BlinkNoMode(p: Peer, n: Byte, id: Byte)
    ensures ModeCommand(p, "*BLINK_WHITE_" + Decimal(n) + "#", id) == p
  {
    var c := "*BLINK_WHITE_" + Decimal(n) + "#";
    Unselected(c, "*READ_", 1, id);
    Unselected(c, "*EMULATE_", 1, id);
    Unselected(c, "*TESTPIPE_", 1, id);
    Unselected(c, "*SETCOLOR_YELLOW_", 1, id);
    Unselected(c, "*SETCOLOR_RAINBOW_", 1, id);
    Unselected(c, "*SCORE_MODE_START", 1, id);
    Unselected(c, "*SCORE_MODE_STOP", 1, id);
    Unselected(c, "*COOLDOWN_START_", 1, id);
    Unselected(c, "*COOLDOWN_END_", 1, id);
    NoModeCommand(p, c, id);
  }

  lemma BlinkInterrupt(q: Peer, n: Byte, id: Byte)
    ensures Interrupt(q, "*BLINK_WHITE_" + Decimal(n) + "#", id) == q.(blink := q.blink || n == id)
  {
    var c := "*BLINK_WHITE_" + Decimal(n) + "#";
    Unselected(c, "*STOP_", 1, id);
    Unselected(c, "*REMOVEJOIN_", 1, id);
    SelectsOne("*BLINK_WHITE_", n, id);
    Unselected(c, NamePrefix, 1, id);
  }

  /** "*NAME_<n>=<name>#" stores the name on device n only, whatever the
      name holds, and changes no mode (but for the acknowledgement quirk). */
  lemma NameCommandEffect(p: Peer, n: Byte, name: string, id: Byte)
    ensures Dispatch(p, NameCommandText(Decimal(n), name), id) ==
      (if p.mode == Joining && id == 42 then p.(mode := ConfirmBlinking) else p).(name := if n == id then name else p.name)
  {
    var c := NameCommandText(Decimal(n), name);
    NameNoMode(p, n, name, id);
    StarAck(p, c, id);
    NameInterrupt(Ack(p, c, id), n, name, id);
  }

  lemma NameNoMode(p: Peer, n: Byte, name: string, id: Byte)
    ensures ModeCommand(p, NameCommandText(Decimal(n), name), id) == p
  {
    var c := NameCommandText(Decimal(n), name);
    assert c[1] == 'N';
    Unselected(c, "*READ_", 1, id);
    Unselected(c, "*EMULATE_", 1, id);
    Unselected(c, "*TESTPIPE_", 1, id);
    Unselected(c, "*SETCOLOR_YELLOW_", 1, id);
    Unselected(c, "*SETCOLOR_RAINBOW_", 1, id);
    Unselected(c, "*SCORE_MODE_START", 1, id);
    Unselected(c, "*SCORE_MODE_STOP", 1, id);
    Unselected(c, "*COOLDOWN_START_", 1, id);
    Unselected(c, "*COOLDOWN_END_", 1, id);
    NoModeCommand(p, c, id);
  }

  lemma NameInterrupt(q: Peer, n: Byte, name: string, id: Byte)
    ensures Interrupt(q, NameCommandText(Decimal(n), name), id) == q.(name := if n == id then name else q.name)
  {
    var c := NameCommandText(Decimal(n), name);
    assert c[1] == 'N';
    Unselected(c, "*STOP_", 1, id);
    Unselected(c, "*REMOVEJOIN_", 1, id);
    Unselected(c, "*BLINK_WHITE_", 1, id);
    assert StartsWith(c, NamePrefix);
    DigitsNoDash(n);
    ParseNameCommand(Decimal(n), name);
    DecimalInjective(n, id);
  }

  // ---------------------------------------------------------------------
  // main_logic_task: one pass

  const HeartbeatIntervalMs: nat := 5000

  function HeartbeatText(id: Byte): string {
    "*HEARTBEAT_" + Decimal(id) + "#"
  }

  /** The button handling at the top of a pass. press1 and press2 are what
      this pass's button reads report; a pending flag from earlier counts
      too. Both flags are consumed. */
  function Buttons(p: Peer, press1: bool, press2: bool): Peer {
    var m1 := if (p.button1 || press1) && p.mode == ScoreEmulator then ScoreReader else p.mode;
    var m2 := if (p.button2 || press2) && m1 == ScoreReader then ScoreEmulator else m1;
    p.(mode := m2, button1 := false, button2 := false)
  }

  /** Whether a mode sends heartbeats: every mode but the two of the join. */
  predicate Beats(mode: SystemMode) {
    mode != Joining && mode != ConfirmBlinking
  }

  /** The heartbeat: sent when more than 5000 ms have passed (on the
      wrapping millis() clock) since the last one. */
  function Heartbeat(p: Peer, id: Byte, now: U32): Peer {
    if Beats(p.mode) && Elapsed(now, p.lastHeartbeat) > HeartbeatIntervalMs then
      p.(radio := Reply(p.radio, HeartbeatText(id), id), lastHeartbeat := now)
    else p
  }

  datatype TaskKind = ReaderTask | EmulatorTask | ScoreReaderTask

  /** What one turn of a task's while loop observes: the millis() reading
      of its condition, whether stop_signal has been raised by then, whether
      the button-2 read reports a press, and what the NFC poll returns. */
  datatype Poll = Poll(now: U32, stop: bool, button2: bool, tag: TagRead)

  /** How a task loop ends; Read carries the result text. */
  datatype TaskEnd = TimedOut | Stopped | Cancelled | Read(result: string)

  /** A task loop started at `start` over its successive turns: it runs
      while fewer than TASK_TIMEOUT_MS have passed and leaves early on a
      stop, on button 2 (score reader only) or on a read tag (the reader
      tasks only). When the turns given run out, the loop is taken to time
      out. */
  function TaskOutcome(kind: TaskKind, start: U32, polls: seq<Poll>): TaskEnd
    decreases |polls|
  {
    if polls == [] || Elapsed(polls[0].now, start) >= TaskTimeoutMs then TimedOut
    else if polls[0].stop then Stopped
    else if kind == ScoreReaderTask && polls[0].button2 then Cancelled
    else if kind != EmulatorTask && polls[0].tag.Some? then Read(UidString(polls[0].tag.value))
    else TaskOutcome(kind, start, polls[1..])
  }

  /** The mode switch of a pass. Lights and delays are left out; the
      task modes run their loop over `polls`, started at `now`. */
  function ModeStep(p: Peer, id: Byte, now: U32, polls: seq<Poll>): Peer {
    match p.mode
    case Joining => p.(radio := JoinRequest(p.radio, id))
    case ConfirmBlinking => ResetToIdle(p)
    case ChannelTest => ResetToIdle(p.(radio := Reply(p.radio, TestText(id), id)))
    case Reader =>
      var e := TaskOutcome(ReaderTask, now, polls);
      ResetToIdle(
        if e == Stopped then p
        else p.(radio := Reply(p.radio, if e.Read? then "Read " + e.result else "Reader Timed Out", id)))
    case Emulator =>
      var e := TaskOutcome(EmulatorTask, now, polls);
      ResetToIdle(if e == Stopped then p.(radio := Reply(p.radio, "Emulator Stopped ACK", id)) else p)
    case ScoreReader =>
      var e := TaskOutcome(ScoreReaderTask, now, polls);
      var q := if e.Read? then p.(radio := Reply(p.radio, "Read " + e.result, id))
        else if e == Stopped then p.(stop := true)
        else p;
      q.(mode := ScoreEmulator)
    case _ => p
  }

  /** One pass of main_logic_task at time `now`: buttons, then a pending
      stop, then a pending blink (each ending the pass), then the heartbeat
      and the mode switch. */
  function LogicStep(p: Peer, id: Byte, press1: bool, press2: bool, now: U32, polls: seq<Poll>): Peer {
    var b := Buttons(p, press1, press2);
    if b.stop then ResetToIdle(b)
    else if b.blink then ResetToIdle(b).(blink := false)
    else ModeStep(Heartbeat(b, id, now), id, now, polls)
  }

  // ---------------------------------------------------------------------
  // What a pass promises

  /** Both button flags are consumed; button 1 only moves the score emulator
      to the score reader and button 2 only the score reader back, so the
      mode changes only between those two. */
  lemma ButtonRules(p: Peer, press1: bool, press2: bool)
    ensures var b := Buttons(p, press1, press2);
      !b.button1 && !b.button2 &&
      b == p.(mode := b.mode, button1 := false, button2 := false) &&
      (b.mode != p.mode ==> (p.mode == ScoreEmulator && b.mode == ScoreReader) || (p.mode == ScoreReader && b.mode == ScoreEmulator)) &&
      (p.mode == ScoreEmulator && press1 && !p.button2 && !press2 ==> b.mode == ScoreReader) &&
      (p.mode == ScoreReader && (p.button2 || press2) ==> b.mode == ScoreEmulator)
  {
  }

  /** A pending stop is served first: the pass ends idle with the stop flag
      down and sends nothing; a pending blink is left for the next pass. */
  lemma StopFirst(p: Peer, id: Byte, press1: bool, press2: bool, now: U32, polls: seq<Poll>)
    requires p.stop
    ensures var q := LogicStep(p, id, press1, press2, now, polls);
      q.mode == Idle && !q.stop && q.blink == p.blink && q.radio == p.radio && q.name == p.name &&
      q.lastHeartbeat == p.lastHeartbeat
  {
  }

  /** A pending blink comes next: the pass ends idle with the blink flag
      down and sends nothing. */
  lemma BlinkSecond(p: Peer, id: Byte, press1: bool, press2: bool, now: U32, polls: seq<Poll>)
    requires !p.stop && p.blink
    ensures var q := LogicStep(p, id, press1, press2, now, polls);
      q.mode == Idle && !q.stop && !q.blink && q.radio == p.radio && q.name == p.name
  {
  }

  /** A heartbeat frame goes to the device's reply address exactly when the
      mode is past the join and more than 5000 ms have passed since the
      last one; nothing else changes. */
  lemma HeartbeatRule(p: Peer, id: Byte, now: U32)
    ensures var q := Heartbeat(p, id, now);
      var due := Beats(p.mode) && Elapsed(now, p.lastHeartbeat) > HeartbeatIntervalMs;
      q.radio.sent == p.radio.sent + (if due then [Sent(MasterRadio.PipeName(id), Frame(HeartbeatText(id)))] else []) &&
      q.lastHeartbeat == (if due then now else p.lastHeartbeat) &&
      q == p.(radio := q.radio, lastHeartbeat := q.lastHeartbeat) &&
      q.radio.rx == p.radio.rx && q.radio.readingPipes == p.radio.readingPipes
  {
    if Beats(p.mode) && Elapsed(now, p.lastHeartbeat) > HeartbeatIntervalMs {
      SendShape(p.radio, MasterRadio.PipeName(id), Frame(HeartbeatText(id)));
    }
  }

  /** A task loop ends at its first turn past the timeout: the turns after
      it never matter. */
  lemma {:induction false} TaskIgnoresLater(kind: TaskKind, start: U32, polls: seq<Poll>, i: nat)
    requires i < |polls| && Elapsed(polls[i].now, start) >= TaskTimeoutMs
    ensures TaskOutcome(kind, start, polls) == TaskOutcome(kind, start, polls[..i])
    decreases i
  {
    if i > 0 && Elapsed(polls[0].now, start) < TaskTimeoutMs {
      assert polls[..i][1..] == polls[1..][..i - 1];
      TaskIgnoresLater(kind, start, polls[1..], i - 1);
    }
  }

  /** A read result comes from a tag polled before the timeout, with no
      stop pending at that turn; the emulator never reads. */
  lemma {:induction false} TaskReadHasTag(kind: TaskKind, start: U32, polls: seq<Poll>)
    ensures TaskOutcome(kind, start, polls).Read? ==>
      kind != EmulatorTask &&
      exists i :: 0 <= i < |polls| && polls[i].tag.Some? && !polls[i].stop &&
        Elapsed(polls[i].now, start) < TaskTimeoutMs &&
        TaskOutcome(kind, start, polls).result == UidString(polls[i].tag.value)
    decreases |polls|
  {
    if polls != [] && Elapsed(polls[0].now, start) < TaskTimeoutMs && !polls[0].stop &&
      !(kind == ScoreReaderTask && polls[0].button2) && !(kind != EmulatorTask && polls[0].tag.Some?)
    {
      TaskReadHasTag(kind, start, polls[1..]);
      if TaskOutcome(kind, start, polls).Read? {
        var i :| 0 <= i < |polls[1..]| && polls[1..][i].tag.Some? && !polls[1..][i].stop &&
          Elapsed(polls[1..][i].now, start) < TaskTimeoutMs &&
          TaskOutcome(kind, start, polls[1..]).result == UidString(polls[1..][i].tag.value);
        assert polls[i + 1] == polls[1..][i];
      }
    }
  }

  /** Only the score reader can be cancelled, and the emulator ends only by
      stop or timeout. */
  lemma {:induction false} TaskKinds(kind: TaskKind, start: U32, polls: seq<Poll>)
    ensures kind != ScoreReaderTask ==> TaskOutcome(kind, start, polls) != Cancelled
    ensures kind == EmulatorTask ==> TaskOutcome(kind, start, polls) in {TimedOut, Stopped}
    decreases |polls|
  {
    if polls != [] {
      TaskKinds(kind, start, polls[1..]);
    }
  }

  /** Turns without a stop, a button-2 press or a tag run the task into its
      timeout. */
  lemma {:induction false} TaskQuietTimesOut(kind: TaskKind, start: U32, polls: seq<Poll>)
    requires forall i :: 0 <= i < |polls| ==> !polls[i].stop && !polls[i].button2 && polls[i].tag.None?
    ensures TaskOutcome(kind, start, polls) == TimedOut
    decreases |polls|
  {
    if polls != [] {
      TaskQuietTimesOut(kind, start, polls[1..]);
    }
  }

  /** The reader task ends idle; it replies with what it read, or with
      "Reader Timed Out", unless it was stopped, in which case it sends
      nothing. */
  lemma ReaderReplies(p: Peer, id: Byte, now: U32, polls: seq<Poll>)
    requires p.mode == Reader
    ensures var q := ModeStep(p, id, now, polls);
      var e := TaskOutcome(ReaderTask, now, polls);
      q.mode == Idle && !q.stop && !q.button1 && !q.button2 &&
      q.radio.sent == p.radio.sent +
        (if e == Stopped then []
         else [Sent(MasterRadio.PipeName(id), Frame(if e.Read? then "Read " + e.result else "Reader Timed Out"))])
  {
  }

  /** The emulator task ends idle and replies "Emulator Stopped ACK" only
      when it was stopped. */
  lemma EmulatorReplies(p: Peer, id: Byte, now: U32, polls: seq<Poll>)
    requires p.mode == Emulator
    ensures var q := ModeStep(p, id, now, polls);
      var e := TaskOutcome(EmulatorTask, now, polls);
      q.mode == Idle && !q.stop &&
      q.radio.sent == p.radio.sent + (if e == Stopped then [Sent(MasterRadio.PipeName(id), Frame("Emulator Stopped ACK"))] else [])
  {
  }

  /** The score reader always goes back to the score emulator; it replies
      only with a read, and a stop stays pending for the next pass. */
  lemma ScoreReaderReturns(p: Peer, id: Byte, now: U32, polls: seq<Poll>)
    requires p.mode == ScoreReader && !p.stop
    ensures var q := ModeStep(p, id, now, polls);
      var e := TaskOutcome(ScoreReaderTask, now, polls);
      q.mode == ScoreEmulator && (q.stop <==> e == Stopped) &&
      q.radio.sent == p.radio.sent + (if e.Read? then [Sent(MasterRadio.PipeName(id), Frame("Read " + e.result))] else [])
  {
  }

  /** A joining device announces itself with its id byte on the discovery
      address on every pass. */
  lemma JoiningAnnounces(p: Peer, id: Byte, now: U32, polls: seq<Poll>)
    requires p.mode == Joining
    ensures ModeStep(p, id, now, polls) == p.(radio := JoinRequest(p.radio, id))
    ensures JoinRequest(p.radio, id).sent == p.radio.sent + [Sent(DiscoveryPipe, [id as char])]
  {
  }

  // ---------------------------------------------------------------------
  // The device

  /** The slave's globals and its two tasks. */
  class Device {
    var mode: SystemMode
    var stop: bool
    var blink: bool
    var name: string
    var button1: bool
    var button2: bool
    var lastHeartbeat: U32
    const id: Byte
    const radio: RadioModule
    const nfc: NfcModule

    function State(): Peer
      reads this, radio
    {
      Peer(mode, stop, blink, name, button1, button2, lastHeartbeat, radio.state)
    }

    /** setup() and the tasks' start: joining, radio configured. */
    constructor Setup(id: Byte)
      ensures this.id == id && State() == Boot && fresh(radio)
    {
      this.id := id;
      mode := Joining;
      stop := false;
      blink := false;
      name := "";
      button1 := false;
      button2 := false;
      lastHeartbeat := 0;
      radio := new RadioModule.Begin();
      nfc := new NfcModule();
    }

    method ResetToIdleState()
      modifies this
      ensures State() == ResetToIdle(old(State()))
    {
      stop := false;
      button1 := false;
      button2 := false;
      mode := Idle;
    }

    /** The first chain of nrf_task. */
    method ApplyModeCommand(cmd: string)
      modifies this
      ensures State() == ModeCommand(old(State()), cmd, id)
    {
      var r := ParseAndCheckId(cmd, "*READ_", id);
      if r { mode := Reader; return; }
      r := ParseAndCheckId(cmd, "*EMULATE_", id);
      if r { mode := Emulator; return; }
      r := ParseAndCheckId(cmd, "*TESTPIPE_", id);
      if r { mode := ChannelTest; return; }
      r := ParseAndCheckId(cmd, "*SETCOLOR_YELLOW_", id);
      if r { mode := TeamWaiting; return; }
      r := ParseAndCheckId(cmd, "*SETCOLOR_RAINBOW_", id);
      if r { mode := Spotlight; return; }
      r := ParseAndCheckId(cmd, "*SCORE_MODE_START", id);
      if r { mode := ScoreEmulator; return; }
      r := ParseAndCheckId(cmd, "*SCORE_MODE_STOP", id);
      if r { ResetToIdleState(); return; }
      r := ParseAndCheckId(cmd, "*COOLDOWN_START_", id);
      if r { mode := Cooldown; return; }
      r := ParseAndCheckId(cmd, "*COOLDOWN_END_", id);
      if r && mode == Cooldown { mode := ScoreEmulator; }
    }

    /** The second chain of nrf_task. */
    method ApplyInterrupt(cmd: string)
      modifies this
      ensures State() == Interrupt(old(State()), cmd, id)
    {
      var r := ParseAndCheckId(cmd, "*STOP_", id);
      if r { stop := true; return; }
      r := ParseAndCheckId(cmd, "*REMOVEJOIN_", id);
      if r { mode := Joining; return; }
      r := ParseAndCheckId(cmd, "*BLINK_WHITE_", id);
      if r { blink := true; return; }
      if StartsWith(cmd, NamePrefix) {
        var eqPos := IndexOf(cmd, '=', 0);
        var hashPos := LastIndexOf(cmd, '#');
        if eqPos > 0 && hashPos > eqPos {
          var idPart := Substring(cmd, 6, eqPos);
          var namePart := Substring(cmd, eqPos + 1, hashPos);
          if idPart == Decimal(id) {
            name := namePart;
          }
        }
      }
    }

    /** The body of nrf_task for one received command. */
    method HandleCommand(cmd: string)
      modifies this
      ensures State() == Dispatch(old(State()), cmd, id)
    {
      ApplyModeCommand(cmd);
      if mode == Joining && |cmd| > 0 && cmd[0] as int == id {
        mode := ConfirmBlinking;
      }
      ApplyInterrupt(cmd);
    }

    /** One pass of nrf_task. */
    method NrfTaskStep()
      modifies this, radio
      ensures State() == NrfStep(old(State()), id)
    {
      var ok, command := radio.ListenForCommand();
      if ok {
        HandleCommand(command);
      }
    }

    /** A task's while loop over its turns. */
    method RunTask(kind: TaskKind, start: U32, polls: seq<Poll>) returns (e: TaskEnd)
      ensures e == TaskOutcome(kind, start, polls)
    {
      var result := "";
      var i := 0;
      while i < |polls| && Elapsed(polls[i].now, start) < TaskTimeoutMs
        invariant 0 <= i <= |polls|
        invariant TaskOutcome(kind, start, polls[i..]) == TaskOutcome(kind, start, polls)
      {
        assert polls[i..][1..] == polls[i + 1..];
        if polls[i].stop {
          return Stopped;
        }
        if kind == ScoreReaderTask && polls[i].button2 {
          return Cancelled;
        }
        if kind != EmulatorTask {
          var found;
          found, result := nfc.RunReaderTask(polls[i].tag, result);
          if found {
            return Read(result);
          }
        }
        i := i + 1;
      }
      return TimedOut;
    }

    method ReadButtons(press1: bool, press2: bool)
      modifies this
      ensures State() == Buttons(old(State()), press1, press2)
    {
      if press1 { button1 := true; }
      if press2 { button2 := true; }
      if button1 {
        button1 := false;
        if mode == ScoreEmulator { mode := ScoreReader; }
      }
      if button2 {
        button2 := false;
        if mode == ScoreReader { mode := ScoreEmulator; }
      }
    }

    method SendHeartbeat(now: U32)
      modifies this, radio
      ensures State() == Heartbeat(old(State()), id, now)
    {
      if mode != Joining && mode != ConfirmBlinking {
        if Elapsed(now, lastHeartbeat) > HeartbeatIntervalMs {
          radio.SendResponse(HeartbeatText(id), id);
          lastHeartbeat := now;
        }
      }
    }

    /** The mode switch of main_logic_task. */
    method RunMode(now: U32, polls: seq<Poll>)
      modifies this, radio
      ensures State() == ModeStep(old(State()), id, now, polls)
    {
      match mode
      case Joining =>
        radio.SendJoinRequest(id);
      case ConfirmBlinking =>
        ResetToIdleState();
      case ChannelTest =>
        radio.SendTestPacket(id);
        ResetToIdleState();
      case Reader =>
        var e := RunTask(ReaderTask, now, polls);
        if e != Stopped {
          radio.SendResponse(if e.Read? then "Read " + e.result else "Reader Timed Out", id);
        }
        ResetToIdleState();
      case Emulator =>
        var e := RunTask(EmulatorTask, now, polls);
        if e == Stopped {
          radio.SendResponse("Emulator Stopped ACK", id);
        }
        ResetToIdleState();
      case ScoreReader =>
        var e := RunTask(ScoreReaderTask, now, polls);
        if e.Read? {
          radio.SendResponse("Read " + e.result, id);
        } else if e == Stopped {
          stop := true;
        }
        mode := ScoreEmulator;
      case _ =>
    }

    /** One pass of main_logic_task at time `now`. */
    method LogicTaskStep(press1: bool, press2: bool, now: U32, polls: seq<Poll>)
      modifies this, radio
      ensures State() == LogicStep(old(State()), id, press1, press2, now, polls)
    {
      ReadButtons(press1, press2);
      if stop {
        ResetToIdleState();
        stop := false;
        return;
      }
      if blink {
        ResetToIdleState();
        blink := false;
        return;
      }
      SendHeartbeat(now);
      RunMode(now, polls);
    }
  }
}
