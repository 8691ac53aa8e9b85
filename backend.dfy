/** The host tool's mirror of the master (MasterControlUI/nrf_backend.py):
    it reads the master's serial log line by line to keep a set of device
    ids and a discovery flag, and it writes "*...#" commands back. The
    serial port is reduced to the lines read and the lines written. */
module Backend {
  import opened Text
  import opened NameCommand

  /** What the host believes: `discovered_slaves` (its keys) and
      `is_discovery_mode`. */
  datatype View = View(slaves: set<nat>, discovery: bool)

  /** The initial belief: no device, discovery on. */
  const Initial: View := View({}, true)

  // ---------------------------------------------------------------------
  // re.search(key + r"(\d+)" + suffix, line)

  /** A match of key, one or more digits (as many as there are) and then
      suffix starts at position i. Taking all the digits is exact when the
      suffix is empty or starts with a non-digit, as both patterns here do. */
  predicate MatchAt(line: string, key: string, suffix: string, i: nat) {
    i + |key| <= |line| && line[i..i + |key|] == key &&
    var d := LeadingDigits(line[i + |key|..]);
    |d| > 0 && StartsWith(line[i + |key| + |d|..], suffix)
  }

  /** The number captured by the leftmost match at or after position i. */
  function SearchFrom(line: string, key: string, suffix: string, i: nat): (m: Option<nat>)
    ensures m.Some? ==> exists j :: i <= j <= |line| && MatchAt(line, key, suffix, j)
    decreases |line| - i
  {
    if i > |line| then None
    else if MatchAt(line, key, suffix, i) then Some(DigitsValue(LeadingDigits(line[i + |key|..])))
    else SearchFrom(line, key, suffix, i + 1)
  }

  function Search(line: string, key: string, suffix: string): Option<nat> {
    SearchFrom(line, key, suffix, 0)
  }

  /** No match can start before j when the k-th character of the key does
      not occur in the first j + k characters of the line. */
  lemma {:induction false} SearchSkips(line: string, key: string, suffix: string, i: nat, j: nat, k: nat)
    requires i <= j && k < |key| && j + k <= |line|
    requires key[k] !in line[..j + k]
    ensures SearchFrom(line, key, suffix, i) == SearchFrom(line, key, suffix, j)
    decreases j - i
  {
    if i < j {
      assert line[..j + k][i + k] == line[i + k];
      assert !MatchAt(line, key, suffix, i);
      SearchSkips(line, key, suffix, i + 1, j, k);
    }
  }

  /** No match starts before `before` ends when key[k] occurs neither in
      `before` nor in the key ahead of it. */
  lemma SkipBefore(line: string, before: string, key: string, suffix: string, k: nat, rest: string)
    requires line == before + (key + rest)
    requires k < |key| && key[k] !in before + key[..k]
    ensures SearchFrom(line, key, suffix, 0) == SearchFrom(line, key, suffix, |before|)
  {
    var j := |before|;
    assert line[..j] == before;
    assert line[j..] == key + rest;
    assert line[j..j + k] == key[..k];
    assert line[..j + k] == line[..j] + line[j..j + k];
    SearchSkips(line, key, suffix, 0, j, k);
  }

  /** Where the pieces of `before + key + mid + after` sit in the line. */
  lemma HitSlices(line: string, before: string, key: string, mid: string, after: string)
    requires line == before + (key + (mid + after))
    ensures line[|before|..|before| + |key|] == key
    ensures line[|before| + |key|..] == mid + after
    ensures line[|before| + |key| + |mid|..] == after
  {
    var j := |before|;
    assert line[j..] == key + (mid + after);
    assert line[j..j + |key|] == line[j..][..|key|];
    assert line[j + |key|..] == line[j..][|key|..];
    assert line[j + |key| + |mid|..] == (mid + after)[|mid|..];
  }

  /** A match right after `before`, made of the key, the decimal text of n
      and then the suffix, captures n. */
  lemma SearchHits(line: string, before: string, key: string, suffix: string, n: nat, after: string)
    requires line == before + (key + (Decimal(n) + after))
    requires StartsWith(after, suffix) && (after == [] || !IsDigit(after[0]))
    ensures SearchFrom(line, key, suffix, |before|) == Some(n)
  {
    var d := Decimal(n);
    HitSlices(line, before, key, d, after);
    LeadingDigitsOfDigits(d, after);
    assert MatchAt(line, key, suffix, |before|);
    DecimalValue(n);
  }

  /** The leftmost match in `before + key + <decimal n> + after` captures n
      when some character of the key, key[k], occurs neither in `before`
      nor in the key ahead of it. */
  lemma SearchFinds(line: string, before: string, key: string, suffix: string, k: nat, n: nat, after: string)
    requires line == before + key + Decimal(n) + after
    requires k < |key| && key[k] !in before + key[..k]
    requires StartsWith(after, suffix) && (after == [] || !IsDigit(after[0]))
    ensures Search(line, key, suffix) == Some(n)
  {
    assert line == before + (key + (Decimal(n) + after));
    SkipBefore(line, before, key, suffix, k, Decimal(n) + after);
    SearchHits(line, before, key, suffix, n, after);
  }

  // ---------------------------------------------------------------------
  // process_log_line

  const JoinKey: string := "New slave joined"
  const RemovedKey: string := "Device #"
  const DiscoveryKey: string := "System now in Discovery Mode"
  const IdleKey: string := "System switching to Idle Mode"
  const ReadyKey: string := "Ready for UI commands"

  /** One log line: the first matching branch wins. A line changes at most
      one of the two fields; the set only grows on a join line and only
      shrinks on a removal line; the flag is only set by the discovery line
      and only cleared by the idle and ready lines; a line with none of the
      keys changes nothing. */
  function ApplyLine(v: View, line: string): (r: View)
    ensures r.slaves == v.slaves || r.discovery == v.discovery
    ensures r.slaves <= v.slaves || v.slaves <= r.slaves
    ensures !(r.slaves <= v.slaves) ==> Contains(line, JoinKey)
    ensures !(v.slaves <= r.slaves) ==> !Contains(line, JoinKey) && Contains(line, RemovedKey) && Contains(line, "removed")
    ensures r.discovery && !v.discovery ==> Contains(line, DiscoveryKey)
    ensures !r.discovery && v.discovery ==> !Contains(line, DiscoveryKey) && (Contains(line, IdleKey) || Contains(line, ReadyKey))
    ensures (!Contains(line, JoinKey) && !Contains(line, RemovedKey) && !Contains(line, DiscoveryKey) &&
             !Contains(line, IdleKey) && !Contains(line, ReadyKey)) ==> r == v
  {
    if Contains(line, JoinKey) then
      match Search(line, "ID: ", "")
      case None => v
      case Some(id) => v.(slaves := v.slaves + {id})
    else if Contains(line, RemovedKey) && Contains(line, "removed") then
      match Search(line, RemovedKey, " removed")
      case None => v
      case Some(id) => v.(slaves := v.slaves - {id})
    else if Contains(line, DiscoveryKey) then v.(discovery := true)
    else if Contains(line, IdleKey) || Contains(line, ReadyKey) then v.(discovery := false)
    else v
  }

  /** The branches of ApplyLine, one lemma each. */
  lemma ApplyJoin(v: View, line: string, id: nat)
    requires Contains(line, JoinKey) && Search(line, "ID: ", "") == Some(id)
    ensures ApplyLine(v, line) == v.(slaves := v.slaves + {id})
  {
  }

  lemma ApplyRemove(v: View, line: string, id: nat)
    requires !Contains(line, JoinKey) && Contains(line, RemovedKey) && Contains(line, "removed")
    requires Search(line, RemovedKey, " removed") == Some(id)
    ensures ApplyLine(v, line) == v.(slaves := v.slaves - {id})
  {
  }

  lemma ApplyDiscovery(v: View, line: string)
    requires !Contains(line, JoinKey) && !Contains(line, RemovedKey) && Contains(line, DiscoveryKey)
    ensures ApplyLine(v, line) == v.(discovery := true)
  {
  }

  lemma ApplyIdle(v: View, line: string)
    requires !Contains(line, JoinKey) && !Contains(line, RemovedKey) && !Contains(line, DiscoveryKey)
    requires Contains(line, IdleKey) || Contains(line, ReadyKey)
    ensures ApplyLine(v, line) == v.(discovery := false)
  {
  }

  lemma ApplyNone(v: View, line: string)
    requires !Contains(line, JoinKey) && !Contains(line, RemovedKey) && !Contains(line, DiscoveryKey)
    requires !Contains(line, IdleKey) && !Contains(line, ReadyKey)
    ensures ApplyLine(v, line) == v
  {
  }

  /** The lines read in order. */
  function Replay(v: View, lines: seq<string>): View
    decreases |lines|
  {
    if lines == [] then v else Replay(ApplyLine(v, lines[0]), lines[1..])
  }

  lemma {:induction false} ReplayAppend(v: View, a: seq<string>, b: seq<string>)
    ensures Replay(v, a + b) == Replay(Replay(v, a), b)
    decreases |a|
  {
    if a == [] {
      assert a + b == b;
    } else {
      assert (a + b)[0] == a[0] && (a + b)[1..] == a[1..] + b;
      ReplayAppend(ApplyLine(v, a[0]), a[1..], b);
    }
  }

  /** A line changes the device set by at most its one id and the flag
      only through the mode branches: joining lines only add, removal
      lines only remove, and neither touches the flag. */
  lemma ApplyLineShape(v: View, line: string)
    ensures var w := ApplyLine(v, line);
      (w.slaves == v.slaves || w.discovery == v.discovery) &&
      (exists id :: w.slaves == v.slaves + {id} || w.slaves == v.slaves - {id} || w.slaves == v.slaves) &&
      (Contains(line, JoinKey) ==> w.discovery == v.discovery && v.slaves <= w.slaves) &&
      (!Contains(line, JoinKey) && Contains(line, RemovedKey) && Contains(line, "removed") ==>
         w.discovery == v.discovery && w.slaves <= v.slaves)
  {
    var w := ApplyLine(v, line);
    assert w.slaves == v.slaves + {0} || w.slaves == v.slaves - {0} || w.slaves == v.slaves ||
      (exists id :: w.slaves == v.slaves + {id} || w.slaves == v.slaves - {id});
  }

  // ---------------------------------------------------------------------
  // Contains on the master's fixed texts

  /** A text that lacks a character of the needle does not contain it. */
  lemma MissingChar(s: string, t: string, c: char)
    requires c in t && c !in s
    ensures !Contains(s, t)
  {
    var k :| 0 <= k < |t| && t[k] == c;
    forall i | 0 <= i <= |s| - |t| ensures !OccursAt(s, t, i) {
      assert s[i + k] in s;
      assert s[i..i + |t|][k] == s[i + k];
    }
  }

  lemma Found(a: string, t: string, b: string)
    ensures Contains(a + t + b, t)
  {
    assert OccursAt(a + t + b, t, |a|);
  }

  /** Decimal text holds digits only. */
  lemma NotInDecimal(n: nat, c: char)
    requires !IsDigit(c)
    ensures c !in Decimal(n)
  {
  }

  // ---------------------------------------------------------------------
  // The commands the host writes

  /** The command remove_slave sends for a device id. */
  function RemoveJoinText(id: nat): string {
    "*REMOVEJOIN_" + Decimal(id) + "#"
  }

  /** The command toggle_discovery_mode sends: end discovery while it is
      on, start it otherwise. */
  function ToggleText(discovery: bool): (c: string)
    ensures discovery <==> c == "*DISCOVERY_00#"
    ensures !discovery <==> c == "*DISCOVERY_01#"
  {
    if discovery then "*DISCOVERY_00#" else "*DISCOVERY_01#"
  }

  const PairingText: string := "*RANDOM_01#"
  const StopText: string := "*STOP_ALL#"
  const Scenario1Text: string := "*SCENARIO1_START#"
  const Scenario2Text: string := "*SCENARIO2_START#"

  /** The whole host state the model keeps. */
  datatype Host = Host(connected: bool, view: View, written: seq<string>)

  /** _send_command: the command and a newline are written only while
      connected. */
  function Transmit(h: Host, command: string): (h': Host)
    ensures h'.connected == h.connected && h'.view == h.view
    ensures h.connected ==> h'.written == h.written + [command + "\n"]
    ensures !h.connected ==> h'.written == h.written
  {
    if h.connected then h.(written := h.written + [command + "\n"]) else h
  }

  /** remove_slave(device_id). */
  function RemoveSlaveSpec(h: Host, id: Option<nat>): Host {
    if h.connected && id.Some? then Transmit(h, RemoveJoinText(id.value)) else h
  }

  /** send_name(device_id, name). */
  function SendNameSpec(h: Host, id: Option<nat>, name: string): Host {
    if id.None? || name == "" then h else Transmit(h, NameCommandText(Decimal(id.value), name))
  }

  /** connect(port): `opens` says whether the port could be opened. */
  function ConnectSpec(h: Host, port: string, opens: bool): Host {
    if port == "" || Contains(port, "No ports") || !opens then h else h.(connected := true)
  }

  /** disconnect(): the link is down and the device set is emptied; the
      discovery flag is kept. */
  function DisconnectSpec(h: Host): Host {
    h.(connected := false, view := h.view.(slaves := {}))
  }

  /** The command builders write exactly one line, and only while
      connected; a missing id or an empty name writes nothing. */
  lemma CommandsWriteOnce(h: Host, id: Option<nat>, name: string)
    ensures var r := RemoveSlaveSpec(h, id);
      r.view == h.view && r.connected == h.connected &&
      (r.written != h.written <==> h.connected && id.Some?) &&
      (h.connected && id.Some? ==> r.written == h.written + ["*REMOVEJOIN_" + Decimal(id.value) + "#\n"])
    ensures var s := SendNameSpec(h, id, name);
      s.view == h.view && s.connected == h.connected &&
      (s.written != h.written <==> h.connected && id.Some? && name != "") &&
      (h.connected && id.Some? && name != "" ==>
         s.written == h.written + ["*NAME_" + Decimal(id.value) + "=" + name + "#\n"])
  {
    if h.connected && id.Some? {
      assert RemoveSlaveSpec(h, id).written[|h.written|] == RemoveJoinText(id.value) + "\n";
      assert "*REMOVEJOIN_" + Decimal(id.value) + "#" + "\n" == "*REMOVEJOIN_" + Decimal(id.value) + "#\n";
      if name != "" {
        assert NameCommandText(Decimal(id.value), name) + "\n" == "*NAME_" + Decimal(id.value) + "=" + name + "#\n";
      }
    }
  }

  /** The name command the host builds is taken apart by the master's
      parser into the same id text and name. */
  lemma SendNameParses(id: nat, name: string)
    ensures ParseName(NameCommandText(Decimal(id), name)) == Some(NameFields(Decimal(id), name))
  {
    NotInDecimal(id, '=');
    ParseNameCommand(Decimal(id), name);
  }

  /** After disconnect() the host knows no device and writes nothing,
      whatever it is asked to send. */
  lemma DisconnectedIsSilent(h: Host, command: string)
    ensures DisconnectSpec(h).view.slaves == {}
    ensures Transmit(DisconnectSpec(h), command) == DisconnectSpec(h)
  {
  }

  // ---------------------------------------------------------------------
  // SocialTagControlUI.py: when the game buttons are enabled

  /** Out of discovery, with an even number of at least two devices. */
  predicate CanRunGame(v: View) {
    !v.discovery && |v.slaves| >= 2 && |v.slaves| % 2 == 0
  }

  /** In class form: the fields of NrfBackend the model keeps. */
  class NrfBackend {
    var isConnected: bool
    var discoveredSlaves: set<nat>
    var isDiscoveryMode: bool
    /** The lines written to the serial port, in order. */
    var written: seq<string>

    function State(): Host
      reads this
    {
      Host(isConnected, View(discoveredSlaves, isDiscoveryMode), written)
    }

    constructor ()
      ensures State() == Host(false, Initial, [])
    {
      isConnected := false;
      discoveredSlaves := {};
      isDiscoveryMode := true;
      written := [];
    }

    method ProcessLogLine(line: string)
      modifies this
      ensures State() == old(State()).(view := ApplyLine(old(State()).view, line))
    {
      if Contains(line, JoinKey) {
        var m := Search(line, "ID: ", "");
        if m.Some? {
          var id := m.value;
          if id !in discoveredSlaves {
            discoveredSlaves := discoveredSlaves + {id};
          }
        }
      } else if Contains(line, RemovedKey) && Contains(line, "removed") {
        var m := Search(line, RemovedKey, " removed");
        if m.Some? {
          var id := m.value;
          if id in discoveredSlaves {
            discoveredSlaves := discoveredSlaves - {id};
          }
        }
      } else if Contains(line, DiscoveryKey) {
        isDiscoveryMode := true;
      } else if Contains(line, IdleKey) || Contains(line, ReadyKey) {
        isDiscoveryMode := false;
      }
    }

    method Connect(port: string, opens: bool)
      modifies this
      ensures State() == ConnectSpec(old(State()), port, opens)
    {
      if port == "" || Contains(port, "No ports") {
        return;
      }
      if opens {
        isConnected := true;
      }
    }

    method Disconnect()
      modifies this
      ensures State() == DisconnectSpec(old(State()))
    {
      isConnected := false;
      discoveredSlaves := {};
    }

    method SendCommand(command: string)
      modifies this
      ensures State() == Transmit(old(State()), command)
    {
      if isConnected {
        written := written + [command + "\n"];
      }
    }

    method StartPairing()
      modifies this
      ensures State() == Transmit(old(State()), PairingText)
    {
      SendCommand(PairingText);
    }

    method SendStopCommand()
      modifies this
      ensures State() == Transmit(old(State()), StopText)
    {
      SendCommand(StopText);
    }

    method SendScenario1Start()
      modifies this
      ensures State() == Transmit(old(State()), Scenario1Text)
    {
      SendCommand(Scenario1Text);
    }

    method SendScenario2Start()
      modifies this
      ensures State() == Transmit(old(State()), Scenario2Text)
    {
      SendCommand(Scenario2Text);
    }

    method ToggleDiscoveryMode()
      modifies this
      ensures State() == Transmit(old(State()), ToggleText(old(isDiscoveryMode)))
    {
      var isDisc := isDiscoveryMode;
      if isDisc {
        SendCommand("*DISCOVERY_00#");
      } else {
        SendCommand("*DISCOVERY_01#");
      }
    }

    method RemoveSlave(id: Option<nat>)
      modifies this
      ensures State() == RemoveSlaveSpec(old(State()), id)
    {
      if isConnected && id.Some? {
        SendCommand(RemoveJoinText(id.value));
      }
    }

    method SendName(id: Option<nat>, name: string)
      modifies this
      ensures State() == SendNameSpec(old(State()), id, name)
    {
      if id.None? || name == "" {
        return;
      }
      SendCommand(NameCommandText(Decimal(id.value), name));
    }
  }
}
