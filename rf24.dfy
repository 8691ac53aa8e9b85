/** The nRF24L01 radio as both firmwares use it through the RF24 library,
    reduced to a record: whether it is listening, the address it writes to,
    the addresses bound to its reading pipes, every frame it has written (in
    order, with the address) and the frames waiting in its receive FIFO (with
    the pipe each arrived on). The environment decides what arrives. Writes
    complete synchronously, so the transmit FIFO is always empty. */
module Rf24 {
  import opened Text

  /** Payload size of every frame on the air (static payloads). */
  const FrameSize: nat := 32

  datatype Sent = Sent(address: string, payload: seq<char>)

  datatype Received = Received(pipe: nat, payload: seq<char>)

  datatype Radio = Radio(
    listening: bool,
    writingPipe: string,
    readingPipes: map<nat, string>,
    sent: seq<Sent>,
    rx: seq<Received>)

  /** The radio right after begin(): standby, nothing bound, nothing sent. */
  const Standby: Radio := Radio(false, "", map[], [], [])

  function StopListening(r: Radio): Radio {
    r.(listening := false)
  }

  function StartListening(r: Radio): Radio {
    r.(listening := true)
  }

  function OpenWritingPipe(r: Radio, address: string): Radio {
    r.(writingPipe := address)
  }

  function OpenReadingPipe(r: Radio, pipe: nat, address: string): Radio {
    r.(readingPipes := r.readingPipes[pipe := address])
  }

  function Write(r: Radio, payload: seq<char>): Radio {
    r.(sent := r.sent + [Sent(r.writingPipe, payload)])
  }

  function FlushRx(r: Radio): Radio {
    r.(rx := [])
  }

  function FlushTx(r: Radio): Radio {
    r
  }

  /** The environment: a frame arrives on a reading pipe. */
  function Arrive(r: Radio, pipe: nat, payload: seq<char>): Radio {
    r.(rx := r.rx + [Received(pipe, payload)])
  }

  /** Several frames arrive, one after the other, in the order given: they
      queue behind what the FIFO already holds, and nothing else changes. */
  function Deliver(r: Radio, frames: seq<Received>): (r': Radio)
    ensures r' == r.(rx := r.rx + frames)
    decreases |frames|
  {
    if frames == [] then r
    else
      var r1 := Arrive(r, frames[0].pipe, frames[0].payload);
      assert r1.rx + frames[1..] == r.rx + frames;
      Deliver(r1, frames[1..])
  }

  /** `n` copies of x. */
  function Repeat<T>(x: T, n: int): (s: seq<T>)
    ensures |s| == if n < 0 then 0 else n
    ensures forall i :: 0 <= i < |s| ==> s[i] == x
  {
    if n <= 0 then [] else Repeat(x, n - 1) + [x]
  }

  /** `n` writes of the same payload to the current writing pipe. */
  function Writes(r: Radio, payload: seq<char>, n: int): (r': Radio)
    ensures r'.sent == r.sent + Repeat(Sent(r.writingPipe, payload), n)
    ensures r' == r.(sent := r'.sent)
    decreases n
  {
    if n <= 0 then r else Write(Writes(r, payload, n - 1), payload)
  }

  /** `char buffer[32]; packet.toCharArray(buffer, 32)`: strncpy of at most 31
      characters (NUL-padded after an embedded NUL), then a terminating NUL.
      The uninitialised tail of the buffer is taken as NUL. */
  function Frame(packet: string): (f: seq<char>)
    ensures |f| == FrameSize
  {
    var text := CutAtNul(packet[..Min(|packet|, FrameSize - 1)]);
    text + seq(FrameSize - |text|, _ => Nul)
  }

  /** A receiver that reads the frame up to its first NUL gets back the first
      31 characters of the packet, or all of it when it is shorter. */
  lemma FrameReadBack(packet: string)
    requires Nul !in packet
    ensures CutAtNul(Frame(packet)) == packet[..Min(|packet|, FrameSize - 1)]
  {
    var cut := packet[..Min(|packet|, FrameSize - 1)];
    assert forall c :: c in cut ==> c in packet;
    CutAtNulNone(cut);
    CutAtNulPrefix(cut, seq(FrameSize - |cut|, _ => Nul));
  }

  lemma {:induction false} CutAtNulPrefix(text: string, tail: string)
    requires Nul !in text && tail != [] && tail[0] == Nul
    ensures CutAtNul(text + tail) == text
    decreases |text|
  {
    if text == [] {
      assert text + tail == tail;
    } else {
      assert text[0] in text;
      assert forall c :: c in text[1..] ==> c in text;
      assert (text + tail)[1..] == text[1..] + tail;
      CutAtNulPrefix(text[1..], tail);
    }
  }

  /** `char buffer[32] = ""; read(&buffer, 32)`: the 32-byte receive buffer
      holding a payload (shorter payloads leave the rest zero). */
  function Buffer(payload: seq<char>): (b: seq<char>)
    ensures |b| == FrameSize
    ensures |payload| >= FrameSize ==> b == payload[..FrameSize]
    ensures |payload| < FrameSize ==> b == payload + seq(FrameSize - |payload|, _ => Nul)
  {
    if |payload| >= FrameSize then payload[..FrameSize]
    else payload + seq(FrameSize - |payload|, _ => Nul)
  }

  /** `read(&deviceId, 1)`: the first byte of a payload (its low 8 bits). */
  function FirstByte(payload: seq<char>): Byte {
    if payload == [] then 0 else (payload[0] as int) % 256
  }
}
