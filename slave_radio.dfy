/** The slave's radio wrapper (RF24-Slave/src/RadioModule.cpp): commands
    are read off the common command pipe and cleaned up, replies go to the
    slave's own "<id>NODE" address, announces to the discovery address. */
module SlaveRadio {
  import opened Text
  import opened Rf24
  import opened SlaveConfig
  import MasterRadio

  /** The radio after begin(): pipe 1 bound to the command address, both
      FIFOs flushed, listening. */
  const Listening: Radio := StartListening(FlushTx(FlushRx(OpenReadingPipe(Standby, 1, CommandPipe))))

  /** listenForCommand's clean-up of a received payload: the 32-byte buffer
      up to its first NUL, trimmed; None when nothing is left. */
  function Decode(payload: seq<char>): (c: Option<string>)
    ensures c.Some? ==> |c.value| > 0 && Nul !in c.value && !IsSpace(c.value[0]) && !IsSpace(c.value[|c.value| - 1])
  {
    var text := Trim(CutAtNul(Buffer(payload)));
    TrimKeepsNoNul(CutAtNul(Buffer(payload)));
    if |text| > 0 then Some(text) else None
  }

  lemma TrimKeepsNoNul(s: string)
    requires Nul !in s
    ensures Nul !in Trim(s)
  {
    var t := SkipSpaces(s);
    assert forall c :: c in t ==> c in s;
    var u := TrimRight(t);
    assert forall c :: c in u ==> c in t;
  }

  /** A frame built from text with no NUL and no white space at its ends
      decodes to the text's first 31 characters; the master's commands all
      have that shape. */
  lemma DecodeFrame(text: string)
    requires 0 < |text| <= FrameSize - 1 && Nul !in text
    requires !IsSpace(text[0]) && !IsSpace(text[|text| - 1])
    ensures Decode(Frame(text)) == Some(text)
  {
    var f := Frame(text);
    assert Buffer(f) == f by { assert f[..FrameSize] == f; }
    FrameReadBack(text);
    assert text[..Min(|text|, FrameSize - 1)] == text;
    assert CutAtNul(f) == text;
    assert Trim(text) == text;
  }

  /** The id byte of an announce is dropped when it is NUL or white space:
      ids 0, 9..13 and 32 never reach the dispatcher. */
  lemma DecodeOneByte(id: Byte)
    ensures Decode([id as char]).None? <==> id == 0 || IsSpace(id as char)
  {
    var b := Buffer([id as char]);
    if id != 0 {
      assert b == [id as char] + seq(FrameSize - 1, _ => Nul);
      CutAtNulPrefix([id as char], seq(FrameSize - 1, _ => Nul));
    } else {
      assert b[0] == Nul;
    }
  }

  /** The slave's radio module. Writes are not acknowledged back to the
      caller, so no acknowledgement input is needed. */
  class RadioModule {
    var state: Radio

    /** begin(): the configuration steps after a successful hardware check. */
    constructor Begin()
      ensures state == Listening
    {
      state := Standby;
      new;
      state := OpenReadingPipe(state, 1, CommandPipe);
      state := FlushRx(state);
      state := FlushTx(state);
      state := StartListening(state);
    }

    /** listenForCommand: a waiting frame is always consumed, but reported
        only when something is left after the clean-up. */
    method ListenForCommand() returns (ok: bool, command: string)
      modifies this
      ensures old(state.rx) == [] ==> !ok && state == old(state)
      ensures old(state.rx) != [] ==>
        state == old(state).(rx := old(state.rx)[1..]) &&
        (ok <==> Decode(old(state.rx)[0].payload).Some?) &&
        (ok ==> command == Decode(old(state.rx)[0].payload).value)
    {
      ok, command := false, "";
      if state.rx != [] {
        var buffer := Buffer(state.rx[0].payload);
        state := state.(rx := state.rx[1..]);
        command := Trim(CutAtNul(buffer));
        ok := |command| > 0;
      }
    }

    /** sendJoinRequest: exactly one byte, the id, on the discovery pipe. */
    method SendJoinRequest(deviceId: Byte)
      modifies this
      ensures state == JoinRequest(old(state), deviceId)
    {
      state := StopListening(state);
      state := OpenWritingPipe(state, DiscoveryPipe);
      state := Write(state, [deviceId as char]);
      state := StartListening(state);
    }

    /** sendResponse: one 32-byte frame to the slave's own reply address. */
    method SendResponse(response: string, deviceId: Byte)
      modifies this
      ensures state == Reply(old(state), response, deviceId)
    {
      state := StopListening(state);
      var pipeName := MasterRadio.PipeName(deviceId);
      state := OpenWritingPipe(state, pipeName);
      var buffer := Frame(response);
      state := Write(state, buffer);
      state := StartListening(state);
    }

    /** sendTestPacket: "Channel Test from #<id>" to the reply address of
        `deviceId`. */
    method SendTestPacket(deviceId: Byte)
      modifies this
      ensures state == Reply(old(state), TestText(deviceId), deviceId)
    {
      state := StopListening(state);
      state := OpenWritingPipe(state, MasterRadio.PipeName(deviceId));
      state := Write(state, Frame(TestText(deviceId)));
      state := StartListening(state);
    }

    /** The environment: a frame arrives on a reading pipe. */
    method Arrive(pipe: nat, payload: seq<char>)
      modifies this
      ensures state == Rf24.Arrive(old(state), pipe, payload)
    {
      state := Rf24.Arrive(state, pipe, payload);
    }
  }

  /** The radio after one send of `payload` to `address`. */
  function Send(r: Radio, address: string, payload: seq<char>): Radio {
    StartListening(Write(OpenWritingPipe(StopListening(r), address), payload))
  }

  /** sendJoinRequest's effect. */
  function JoinRequest(r: Radio, deviceId: Byte): Radio {
    Send(r, DiscoveryPipe, [deviceId as char])
  }

  /** sendResponse's effect. */
  function Reply(r: Radio, response: string, deviceId: Byte): Radio {
    Send(r, MasterRadio.PipeName(deviceId), Frame(response))
  }

  function TestText(deviceId: Byte): string {
    "Channel Test" + " from #" + Decimal(deviceId)
  }

  /** Each send writes exactly one frame, to the address given, and leaves
      the radio listening with its reading pipes and FIFO as they were. */
  lemma SendShape(r: Radio, address: string, payload: seq<char>)
    ensures var r' := Send(r, address, payload);
      r'.listening && r'.sent == r.sent + [Sent(address, payload)] &&
      r'.readingPipes == r.readingPipes && r'.rx == r.rx
  {
  }

  /** The test text fits a frame and reads back intact on the master. */
  lemma TestTextFits(deviceId: Byte)
    ensures |TestText(deviceId)| <= FrameSize - 1 && Nul !in TestText(deviceId)
    ensures CutAtNul(Frame(TestText(deviceId))) == TestText(deviceId)
  {
    var d := Decimal(deviceId);
    if deviceId >= 100 {
      assert d == Decimal(deviceId / 10) + [DigitChar(deviceId % 10)];
      assert Decimal(deviceId / 10) == Decimal(deviceId / 100) + [DigitChar((deviceId / 10) % 10)];
    } else if deviceId >= 10 {
      assert d == Decimal(deviceId / 10) + [DigitChar(deviceId % 10)];
    }
    assert forall c :: c in d ==> IsDigit(c);
    FrameReadBack(TestText(deviceId));
    assert TestText(deviceId)[..Min(|TestText(deviceId)|, FrameSize - 1)] == TestText(deviceId);
  }

  /** sendResponse and sendTestPacket format the reply address with sprintf
      into `char pipe_name[6]`; both send through Reply. */
  const ReplyPipeBuffer: nat := 6

  /** The bytes that sprintf writes for a reply (the address and its NUL)
      stay inside that buffer exactly for single-digit ids. */
  lemma ReplyPipeOverflow(r: Radio, response: string, id: Byte)
    ensures |Reply(r, response, id).writingPipe| + 1 <= ReplyPipeBuffer <==> id < 10
  {
    MasterRadio.PipeStrOverflow(id);
  }

  /** With a buffer of 8 bytes every reply address fits. */
  lemma ReplyPipeFits(r: Radio, response: string, id: Byte)
    ensures |Reply(r, response, id).writingPipe| + 1 <= MasterRadio.PipeNameCapacity
  {
    MasterRadio.PipeNameFits(id);
  }
}
