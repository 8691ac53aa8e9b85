/** The host tool's belief, rebuilt from every line the master has logged
    since boot, agrees with the master's own state after every pass of
    loop(): the same set of device ids, and discovery on exactly when the
    master is in DISCOVERY. */
module HostMirror {
  import opened Text
  import opened Rf24
  import opened MasterConfig
  import opened MasterRadio
  import opened Registry
  import M = Master
  import B = Backend
  import I = Interop

  /** The registered ids as the host stores them. */
  function Ids(s: seq<Byte>): (r: set<nat>)
    ensures forall x: nat :: x in r <==> x < 256 && (x as Byte) in s
  {
    set x | x in s :: x as nat
  }

  ghost predicate Mirrors(v: B.View, st: M.MasterState) {
    v.slaves == Ids(st.slaves) && v.discovery == (st.mode == Discovery)
  }

  /** The host has read the whole log from boot and agrees with the master. */
  ghost predicate HostAgrees(st: M.MasterState) {
    Mirrors(B.Replay(B.Initial, st.log), st)
  }

  lemma IdsInsert(s: seq<Byte>, x: Byte)
    ensures Ids(Insert(s, x)) == Ids(s) + {x as nat}
  {
  }

  lemma IdsRemove(s: seq<Byte>, x: Byte)
    ensures Ids(Remove(s, x)) == Ids(s) - {x as nat}
  {
  }

  /** What the host believes after the log grew by `lines`. */
  lemma Appended(st: M.MasterState, st2: M.MasterState, lines: seq<string>)
    requires st2.log == st.log + lines
    ensures B.Replay(B.Initial, st2.log) == B.Replay(B.Replay(B.Initial, st.log), lines)
  {
    B.ReplayAppend(B.Initial, st.log, lines);
  }

  lemma ReplayOne(v: B.View, line: string)
    ensures B.Replay(v, [line]) == B.ApplyLine(v, line)
  {
    assert [line][1..] == [];
  }

  // ---------------------------------------------------------------------
  // Each operation that logs keeps the agreement

  lemma {:induction false} EnterDiscoveryAgrees(st: M.MasterState)
    requires HostAgrees(st)
    ensures HostAgrees(M.EnterDiscovery(st))
  {
    var st2 := M.EnterDiscovery(st);
    Appended(st, st2, [M.DiscoveryLine]);
    ReplayOne(B.Replay(B.Initial, st.log), M.DiscoveryLine);
    I.DiscoveryLineParsed(B.Replay(B.Initial, st.log));
  }

  lemma {:induction false} IdleSwitchAgrees(st: M.MasterState)
    requires HostAgrees(st)
    ensures HostAgrees(M.IdleSwitch(st))
  {
    var v := B.Replay(B.Initial, st.log);
    var st1 := st.(log := st.log + [M.IdleLine], hasGame := false);
    Appended(st, st1, [M.IdleLine]);
    ReplayOne(v, M.IdleLine);
    I.IdleLineParsed(v);
    var v1 := v.(discovery := false);
    if |st.slaves| < MinDevicesRequired {
      var st2 := st1.(log := st1.log + [M.NotEnoughLine(|st.slaves|)]);
      Appended(st1, st2, [M.NotEnoughLine(|st.slaves|)]);
      ReplayOne(v1, M.NotEnoughLine(|st.slaves|));
      I.NotEnoughLineIgnored(v1, |st.slaves|);
      assert B.Replay(B.Initial, st2.log) == v1;
      assert Mirrors(v1, st2.(mode := Idle));
      EnterDiscoveryAgrees(st2.(mode := Idle));
      assert M.EnterDiscovery(st2.(mode := Idle)) == M.IdleSwitch(st);
    } else {
      var st2 := M.IdleSwitch(st);
      Appended(st1, st2, [M.ReadyLine(|st.slaves|)]);
      ReplayOne(v1, M.ReadyLine(|st.slaves|));
      I.ReadyLineParsed(v1, |st.slaves|);
    }
  }

  lemma AnnounceAgrees(st: M.MasterState, id: Byte, now: U32)
    requires HostAgrees(st) && id != 0
    ensures HostAgrees(M.Announce(st, id, now))
  {
    var st2 := M.Announce(st, id, now);
    if id !in st.slaves {
      var v := B.Replay(B.Initial, st.log);
      Appended(st, st2, [M.JoinedLine(id, |st2.slaves|)]);
      ReplayOne(v, M.JoinedLine(id, |st2.slaves|));
      I.JoinedLineParsed(v, id, |st2.slaves|);
      IdsInsert(st.slaves, id);
    }
  }

  lemma HandleDiscoveryAgrees(st: M.MasterState, now: U32)
    requires HostAgrees(st)
    ensures HostAgrees(M.HandleDiscovery(st, now))
  {
    var (heard, r) := DiscoveryPoll(st.radio);
    if heard.Some? && heard.value != 0 {
      AnnounceAgrees(st.(radio := r), heard.value, now);
    }
  }

  lemma RemoveSlaveAgrees(st: M.MasterState, id: Byte)
    requires HostAgrees(st)
    ensures HostAgrees(M.RemoveSlaveSpec(st, id))
  {
    if id in st.slaves {
      var st1 := M.Unregister(st, id);
      var v := B.Replay(B.Initial, st.log);
      Appended(st, st1, [M.RemovedLine(id, |st1.slaves|)]);
      ReplayOne(v, M.RemovedLine(id, |st1.slaves|));
      I.RemovedLineParsed(v, id, |st1.slaves|);
      IdsRemove(st.slaves, id);
      assert HostAgrees(st1);
      if st.mode == GameRunning {
        IdleSwitchAgrees(st1);
      }
    }
  }

  lemma CheckTimeoutsAgrees(st: M.MasterState, now: U32)
    requires HostAgrees(st)
    ensures HostAgrees(M.CheckTimeouts(st, now))
  {
    if Elapsed(now, st.lastTimeoutCheck) > M.TimeoutCheckIntervalMs {
      var ids := M.Overdue(st.heartbeat, now, 0);
      Appended(st, M.CheckTimeouts(st, now), M.TimeoutLines(ids));
      I.TimeoutLinesIgnored(B.Replay(B.Initial, st.log), ids);
    }
  }

  lemma CommandAgrees(st: M.MasterState, c: M.Cmd)
    requires HostAgrees(st)
    ensures HostAgrees(M.Command(st, c))
  {
    match c
    case StopAll => IdleSwitchAgrees(st.(radio := Broadcast(st.radio, "*STOP_ALL#", DefaultBurst)));
    case DiscoveryOn => EnterDiscoveryAgrees(st);
    case DiscoveryOff => IdleSwitchAgrees(st);
    case _ =>
  }

  // ---------------------------------------------------------------------
  // The phases of loop()

  lemma AutoStartAgrees(st: M.MasterState, now: U32)
    requires HostAgrees(st)
    ensures HostAgrees(M.AutoStartPhase(st, now))
  {
    EnterDiscoveryAgrees(st);
  }

  lemma TimeoutPhaseAgrees(st: M.MasterState, now: U32)
    requires HostAgrees(st)
    ensures HostAgrees(M.TimeoutPhase(st, now))
  {
    CheckTimeoutsAgrees(st, now);
  }

  lemma RadioPhaseAgrees(st: M.MasterState, now: U32, game: M.GameOracle)
    requires HostAgrees(st)
    ensures HostAgrees(M.RadioPhase(st, now, game))
  {
    var (heard, r) := Response(st.radio);
    if heard.Some? {
      HandleRadioKeeps(st.(radio := r), heard.value.payload, heard.value.pipe, now, game);
    }
  }

  /** A received frame never adds a log line nor changes the registry or
      the mode. */
  lemma HandleRadioKeeps(st: M.MasterState, payload: string, pipe: nat, now: U32, game: M.GameOracle)
    ensures var h := M.HandleRadio(st, payload, pipe, now, game);
      h.log == st.log && h.slaves == st.slaves && h.mode == st.mode
  {
  }

  /** Whatever the serial line parsed to, acting on it keeps the agreement. */
  lemma SerialInputAgrees(st: M.MasterState, input: M.SerialInput)
    requires HostAgrees(st)
    ensures HostAgrees(M.SerialInputStep(st, input))
  {
    match input
    case Dispatch(c) => CommandAgrees(st, c);
    case RemoveRequest(id) => RemoveSlaveAgrees(st, id);
    case Skip =>
  }

  lemma SerialPhaseAgrees(st: M.MasterState, line: Option<string>)
    requires HostAgrees(st)
    ensures HostAgrees(M.SerialPhase(st, line))
  {
    if line.Some? {
      SerialInputAgrees(st, M.ParseLine(line.value));
    }
  }

  lemma ModePhaseAgrees(st: M.MasterState, now: U32, game: M.GameOracle)
    requires HostAgrees(st)
    ensures HostAgrees(M.ModePhase(st, now, game))
  {
    HandleDiscoveryAgrees(st, now);
    IdleSwitchAgrees(st.(radio := Broadcast(st.radio, "*STOP_ALL#", DefaultBurst)));
  }

  /** One pass of loop() keeps the host in agreement with the master. */
  lemma LoopStepAgrees(st: M.MasterState, now: U32, line: Option<string>, game: M.GameOracle)
    requires HostAgrees(st)
    ensures HostAgrees(M.LoopStep(st, now, line, game))
  {
    var s1 := M.AutoStartPhase(st, now);
    AutoStartAgrees(st, now);
    var s2 := M.TimeoutPhase(s1, now);
    TimeoutPhaseAgrees(s1, now);
    var s3 := M.RadioPhase(s2, now, game);
    RadioPhaseAgrees(s2, now, game);
    var s4 := M.SerialPhase(s3, line);
    SerialPhaseAgrees(s3, line);
    ModePhaseAgrees(s4, now, game);
  }

  /** A host that has read every line since boot sees exactly the master's
      registered devices and its discovery mode, after any run and whatever
      the radio delivers between passes. */
  lemma {:induction false} RunAgrees(st: M.MasterState, passes: seq<M.Pass>)
    requires HostAgrees(st)
    ensures HostAgrees(M.Run(st, passes))
    decreases |passes|
  {
    if passes != [] {
      var p := passes[0];
      var st1 := M.Receive(st, p.arrivals);
      LoopStepAgrees(st1, p.now, p.line, p.game);
      RunAgrees(M.LoopStep(st1, p.now, p.line, p.game), passes[1..]);
    }
  }

  /** The corrected pass keeps the host in agreement too. */
  lemma IntendedLoopStepAgrees(st: M.MasterState, now: U32, line: Option<string>, game: M.GameOracle)
    requires HostAgrees(st)
    ensures HostAgrees(M.IntendedLoopStep(st, now, line, game))
  {
    var s1 := M.AutoStartPhase(st, now);
    AutoStartAgrees(st, now);
    var s2 := M.TimeoutPhase(s1, now);
    TimeoutPhaseAgrees(s1, now);
    var s3 := M.IntendedRadioPhase(s2, now, game);
    RadioPhaseAgrees(s2, now, game);
    var s4 := M.SerialPhase(s3, line);
    SerialPhaseAgrees(s3, line);
    ModePhaseAgrees(s4, now, game);
  }

  lemma BootAgrees(now: U32)
    ensures HostAgrees(M.Boot(now))
  {
  }

  /** The combined statement from boot, with the registry invariant. */
  lemma FromBoot(now: U32, passes: seq<M.Pass>)
    ensures var st := M.Run(M.Boot(now), passes);
      M.Valid(st) && B.Replay(B.Initial, st.log).slaves == Ids(st.slaves) &&
      B.Replay(B.Initial, st.log).discovery == (st.mode == Discovery)
  {
    BootAgrees(now);
    M.BootValid(now);
    M.RunInvariant(M.Boot(now), passes);
    RunAgrees(M.Boot(now), passes);
  }

  /** Whether the host lets a game start agrees with the master's quorum:
      the host's set has as many ids as the master has slaves. */
  lemma {:induction false} IdsSize(s: seq<Byte>)
    requires Ascending(s)
    ensures |Ids(s)| == |s|
    decreases |s|
  {
    if s != [] {
      AscendingTail(s);
      IdsSize(s[1..]);
      assert Ids(s) == Ids(s[1..]) + {s[0] as nat};
      assert (s[0] as nat) !in Ids(s[1..]);
    }
  }

  /** The host's game guard counts exactly the master's registered slaves. */
  lemma CanRunGameAgrees(now: U32, passes: seq<M.Pass>)
    ensures var st := M.Run(M.Boot(now), passes);
      B.CanRunGame(B.Replay(B.Initial, st.log)) <==>
        st.mode != Discovery && |st.slaves| >= 2 && |st.slaves| % 2 == 0
  {
    var st := M.Run(M.Boot(now), passes);
    FromBoot(now, passes);
    IdsSize(st.slaves);
  }

  /** The agreement is not vacuous: from boot, one pass that starts
      discovery and one that finds a device's join frame queued twice leave
      that device registered on the master and in the host's set. */
  lemma JoinFromBoot(now: U32, id: Byte, game: M.GameOracle, later: U32)
    requires id != 0
    ensures var join := Received(1, [id as char]);
      var st := M.Run(M.Boot(now), [M.Pass([], M.Boot(now).autoStartTime, None, game),
                                    M.Pass([join, join], later, None, game)]);
      st.slaves == [id] && id as nat in B.Replay(B.Initial, st.log).slaves
  {
    var join := Received(1, [id as char]);
    var p1 := M.Pass([], M.Boot(now).autoStartTime, None, game);
    var p2 := M.Pass([join, join], later, None, game);
    var s1 := M.LoopStep(M.Receive(M.Boot(now), []), p1.now, None, game);
    M.FirstPassStartsDiscovery(now, game);
    var s2 := M.Receive(s1, [join, join]);
    M.JoinNeedsTwoFrames(s2, later, id, game);
    assert M.Run(s1, [p2]) == M.LoopStep(s2, later, None, game) by {
      assert [p2][1..] == [];
    }
    assert M.Run(M.Boot(now), [p1, p2]) == M.Run(s1, [p2]) by {
      assert [p1, p2][1..] == [p2];
    }
    FromBoot(now, [p1, p2]);
  }
}
