/** The master's radio wrapper (RF24-MasterForControlUI/src/RadioModule.cpp):
    burst broadcasts on the command pipe, the discovery configuration, the
    binding of one reply pipe per slave, and the two receive polls. Each
    operation is a function on the radio record; the class performs it step
    by step. */
module MasterRadio {
  import opened Text
  import opened Rf24
  import opened MasterConfig

  /** Default burst_count of broadcastPacket. */
  const DefaultBurst: int := 5

  /** Reading pipes 1..5 can be given to slaves; pipe 0 belongs to writing. */
  const SlavePipes: nat := 5

  /** "<id>NODE": the address a slave replies on. */
  function PipeName(id: Byte): string {
    Decimal(id) + "NODE"
  }

  /** broadcastPacket(packet, burst): stop listening, write to the command
      pipe `burst` times, listen again. */
  function Broadcast(r: Radio, packet: string, burst: int): Radio {
    StartListening(Writes(OpenWritingPipe(StopListening(r), CommandPipe), Frame(packet), burst))
  }

  /** What a broadcast does to the radio: exactly `burst` copies of the framed
      packet go out on the command pipe, and the radio listens again with its
      reading pipes and receive FIFO untouched. */
  lemma BroadcastEffect(r: Radio, packet: string, burst: int)
    ensures var r' := Broadcast(r, packet, burst);
      r'.listening && r'.writingPipe == CommandPipe &&
      r'.readingPipes == r.readingPipes && r'.rx == r.rx &&
      r'.sent == r.sent + Repeat(Sent(CommandPipe, Frame(packet)), burst)
  {
  }

  /** switchToDiscoveryMode: reading pipe 1 bound to the discovery address,
      both FIFOs flushed, listening. */
  function Discover(r: Radio): (r': Radio)
    ensures r'.listening && r'.rx == []
    ensures r'.readingPipes == r.readingPipes[1 := DiscoveryPipe]
    ensures r'.sent == r.sent && r'.writingPipe == r.writingPipe
  {
    StartListening(FlushTx(FlushRx(OpenReadingPipe(StopListening(r), 1, DiscoveryPipe))))
  }

  /** The reply pipes switchToOperationMode binds: pipe i + 1 to the address
      of devices[i], for the first five devices only. */
  function Bindings(devices: seq<Byte>): (b: map<nat, string>)
    ensures forall k :: k in b <==> 1 <= k <= Min(|devices|, SlavePipes)
    ensures forall k :: k in b ==> 1 <= k <= |devices| && b[k] == PipeName(devices[k - 1])
    decreases |devices|
  {
    if devices == [] then map[]
    else
      var earlier := Bindings(devices[..|devices| - 1]);
      if |devices| <= SlavePipes then earlier[|devices| := PipeName(devices[|devices| - 1])]
      else earlier
  }

  /** switchToOperationMode(devices). Pipes beyond the new bindings keep
      whatever they were bound to before. */
  function Operate(r: Radio, devices: seq<Byte>): Radio {
    StartListening(r.(readingPipes := r.readingPipes + Bindings(devices)))
  }

  /** Binding is idempotent: binding the same device list twice gives the
      same pipes as binding it once. */
  lemma OperateIdempotent(r: Radio, devices: seq<Byte>)
    ensures Operate(Operate(r, devices), devices) == Operate(r, devices)
  {
    var once := r.readingPipes + Bindings(devices);
    assert once + Bindings(devices) == once;
  }

  /** Pipe k (1..5) is bound to the address of the k-th device; a sixth and
      later device gets no pipe, and no error. Other pipes keep their
      binding. */
  lemma OperateBinds(r: Radio, devices: seq<Byte>, k: nat)
    ensures 1 <= k <= Min(|devices|, SlavePipes) ==>
      k in Operate(r, devices).readingPipes && Operate(r, devices).readingPipes[k] == PipeName(devices[k - 1])
    ensures !(1 <= k <= Min(|devices|, SlavePipes)) ==>
      (k in Operate(r, devices).readingPipes <==> k in r.readingPipes) &&
      (k in r.readingPipes ==> Operate(r, devices).readingPipes[k] == r.readingPipes[k])
    ensures Operate(r, devices).listening
  {
  }

  /** A reply heard on some pipe: the text before the first NUL. */
  datatype Heard = Heard(payload: string, pipe: nat)

  /** listenForResponse: the oldest frame, cut at its first NUL, with its pipe;
      nothing (and no change) when the FIFO is empty. */
  function Response(r: Radio): (Option<Heard>, Radio) {
    if r.rx == [] then (None, r)
    else (Some(Heard(CutAtNul(Buffer(r.rx[0].payload)), r.rx[0].pipe)), r.(rx := r.rx[1..]))
  }

  /** listenForDiscovery: the first byte of the oldest frame. */
  function DiscoveryPoll(r: Radio): (Option<Byte>, Radio) {
    if r.rx == [] then (None, r)
    else (Some(FirstByte(r.rx[0].payload)), r.(rx := r.rx[1..]))
  }

  /** Each poll consumes exactly the oldest frame, or nothing. */
  lemma PollsConsumeOne(r: Radio)
    ensures Response(r).0.None? <==> r.rx == []
    ensures DiscoveryPoll(r).0.None? <==> r.rx == []
    ensures r.rx != [] ==> Response(r).1.rx == r.rx[1..] && DiscoveryPoll(r).1.rx == r.rx[1..]
    ensures r.rx == [] ==> Response(r).1 == r && DiscoveryPoll(r).1 == r
    ensures Response(r).1.sent == r.sent && DiscoveryPoll(r).1.sent == r.sent
  {
  }

  lemma BindingsStep(devices: seq<Byte>, i: nat)
    requires i < |devices|
    ensures Bindings(devices[..i + 1]) ==
      if i < SlavePipes then Bindings(devices[..i])[i + 1 := PipeName(devices[i])] else Bindings(devices[..i])
  {
    assert devices[..i + 1][..i] == devices[..i];
  }

  lemma UnionUpdate(a: map<nat, string>, b: map<nat, string>, k: nat, v: string)
    ensures (a + b)[k := v] == a + b[k := v]
  {
  }

  /** The radio module: the radio record, and the environment's answer to
      whether the n-th frame this radio writes is acknowledged by a receiver. */
  class RadioModule {
    var state: Radio
    const linkAck: nat -> bool

    constructor (linkAck: nat -> bool)
      ensures state == Standby && this.linkAck == linkAck
    {
      state := Standby;
      this.linkAck := linkAck;
    }

    /** One write; true when a receiver acknowledged it. */
    method Write(payload: seq<char>) returns (acked: bool)
      modifies this
      ensures state == Rf24.Write(old(state), payload)
      ensures acked == linkAck(|old(state.sent)|)
    {
      acked := linkAck(|state.sent|);
      state := Rf24.Write(state, payload);
    }

    /** broadcastPacket: true iff at least one of the `burst` writes was
        acknowledged. */
    method BroadcastPacket(packet: string, burst: int) returns (success: bool)
      modifies this
      ensures state == Broadcast(old(state), packet, burst)
      ensures success <==> exists k :: |old(state.sent)| <= k < |old(state.sent)| + burst && linkAck(k)
    {
      state := OpenWritingPipe(StopListening(state), CommandPipe);
      ghost var start := state;
      var buffer := Frame(packet);
      success := false;
      var i := 0;
      while i < burst
        invariant i == 0 || 0 < i <= burst
        invariant state == Writes(start, buffer, i)
        invariant |state.sent| == |old(state.sent)| + i
        invariant success <==> exists k :: |old(state.sent)| <= k < |old(state.sent)| + i && linkAck(k)
      {
        var acked := Write(buffer);
        if acked {
          success := true;
        }
        i := i + 1;
      }
      assert i == if burst < 0 then 0 else burst;
      assert Writes(start, buffer, i) == Writes(start, buffer, burst);
      state := StartListening(state);
    }

    method SwitchToDiscoveryMode()
      modifies this
      ensures state == Discover(old(state))
    {
      state := StopListening(state);
      state := OpenReadingPipe(state, 1, DiscoveryPipe);
      state := FlushRx(state);
      state := FlushTx(state);
      state := StartListening(state);
    }

    method ListenForDiscovery() returns (heard: bool, deviceId: Byte)
      modifies this
      ensures heard == (old(state.rx) != [])
      ensures DiscoveryPoll(old(state)) == (if heard then Some(deviceId) else None, state)
    {
      heard := state.rx != [];
      deviceId := 0;
      if heard {
        deviceId := FirstByte(state.rx[0].payload);
        state := state.(rx := state.rx[1..]);
      }
    }

    method SwitchToOperationMode(devices: seq<Byte>)
      modifies this
      ensures state == Operate(old(state), devices)
    {
      state := StopListening(state);
      ghost var base := state;
      var i := 0;
      while i < |devices|
        invariant 0 <= i <= |devices|
        invariant state == base.(readingPipes := base.readingPipes + Bindings(devices[..i]))
      {
        BindingsStep(devices, i);
        if i < SlavePipes {
          UnionUpdate(base.readingPipes, Bindings(devices[..i]), i + 1, PipeName(devices[i]));
          state := OpenReadingPipe(state, i + 1, PipeName(devices[i]));
        }
        i := i + 1;
      }
      assert devices[..i] == devices;
      state := StartListening(state);
    }

    method ListenForResponse() returns (heard: bool, payload: string, pipeNum: nat)
      modifies this
      ensures heard == (old(state.rx) != [])
      ensures Response(old(state)) == (if heard then Some(Heard(payload, pipeNum)) else None, state)
    {
      heard := state.rx != [];
      payload, pipeNum := "", 0;
      if heard {
        var buffer := Buffer(state.rx[0].payload);
        pipeNum := state.rx[0].pipe;
        state := state.(rx := state.rx[1..]);
        payload := CutAtNul(buffer);
      }
    }

    method Flush()
      modifies this
      ensures state == FlushTx(FlushRx(old(state)))
    {
      state := FlushTx(FlushRx(state));
    }

    /** The environment: a frame arrives on a reading pipe. */
    method Arrive(pipe: nat, payload: seq<char>)
      modifies this
      ensures state == Rf24.Arrive(old(state), pipe, payload)
    {
      state := Rf24.Arrive(state, pipe, payload);
    }
  }

  /** The 6-byte pipe_str buffer of switchToOperationMode, as written: bytes
      needed for "<id>NODE" and its NUL. */
  function PipeStrBytes(id: Byte): nat {
    |PipeName(id)| + 1
  }

  const PipeStrCapacity: nat := 6

  /** The buffer holds the address only for single-digit ids; id 10 already
      writes 7 bytes into 6. */
  lemma PipeStrOverflow(id: Byte)
    ensures PipeStrBytes(id) <= PipeStrCapacity <==> id < 10
  {
    if id >= 100 {
      assert Decimal(id) == Decimal(id / 10) + [DigitChar(id % 10)];
      assert Decimal(id / 10) == Decimal(id / 100) + [DigitChar((id / 10) % 10)];
    } else if id >= 10 {
      assert Decimal(id) == Decimal(id / 10) + [DigitChar(id % 10)];
    }
  }

  /** A buffer sized for the widest uint8_t, "255NODE" and NUL. */
  const PipeNameCapacity: nat := 8

  /** With 8 bytes every uint8_t id fits. */
  lemma PipeNameFits(id: Byte)
    ensures PipeStrBytes(id) <= PipeNameCapacity
  {
    if id >= 100 {
      assert Decimal(id) == Decimal(id / 10) + [DigitChar(id % 10)];
      assert Decimal(id / 10) == Decimal(id / 100) + [DigitChar((id / 10) % 10)];
    } else if id >= 10 {
      assert Decimal(id) == Decimal(id / 10) + [DigitChar(id % 10)];
    }
  }
}
