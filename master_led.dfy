/** The master's status light (RF24-MasterForControlUI/src/MasterLedModule.cpp):
    during discovery it cycles red, green, blue every 2000 ms; the colour
    is shown on two PWM outputs, LED1 for red and green and LED2 for blue. */
module MasterLed {
  import opened Text

  const RgbChangeIntervalMs: nat := 2000

  /** The two PWM duty values written by analogWrite. */
  datatype Outputs = Outputs(led1: Byte, led2: Byte)

  const Dark: Outputs := Outputs(0, 0)

  /** setRgbColor: the first non-zero channel in the order red, green, blue
      decides the outputs; red and green share LED1. */
  function RgbOutputs(red: Byte, green: Byte, blue: Byte): Outputs {
    if red > 0 then Outputs(red, 0)
    else if green > 0 then Outputs(green, 0)
    else if blue > 0 then Outputs(0, blue)
    else Dark
  }

  /** The colour of each state of the cycle: 0 red, 1 green, 2 blue. */
  function CycleColour(state: nat): Outputs
    requires state < 3
  {
    if state == 0 then RgbOutputs(255, 0, 0)
    else if state == 1 then RgbOutputs(0, 255, 0)
    else RgbOutputs(0, 0, 255)
  }

  /** LED2 lights only for a colour with no red and no green; LED1 carries
      the red value when there is one and the green value otherwise. */
  lemma OutputPriority(red: Byte, green: Byte, blue: Byte)
    ensures RgbOutputs(red, green, blue).led2 > 0 <==> red == 0 && green == 0 && blue > 0
    ensures RgbOutputs(red, green, blue).led1 == if red > 0 then red else if red == 0 && green > 0 then green else 0
    ensures RgbOutputs(red, green, blue) == Dark <==> red == 0 && green == 0 && blue == 0
  {
  }

  /** Two outputs cannot tell full red from full green: the first two
      colours of the cycle look the same, only blue differs. */
  lemma RedLooksLikeGreen()
    ensures CycleColour(0) == CycleColour(1)
    ensures CycleColour(2) != CycleColour(0)
  {
  }

  datatype Led = Led(active: bool, lastChange: U32, rgbState: nat, out: Outputs)

  /** The cycle state is one of the three colours, and while the cycle
      runs the outputs show that colour. */
  predicate Valid(l: Led) {
    l.rgbState < 3 && (l.active ==> l.out == CycleColour(l.rgbState))
  }

  /** The constructor with begin(): stopped, red next, outputs off. */
  const Initial: Led := Led(false, 0, 0, Dark)

  function StartDiscovery(l: Led, now: U32): Led {
    Led(true, now, 0, RgbOutputs(255, 0, 0))
  }

  /** stopDiscoveryMode and setIdleMode alike. */
  function Stop(l: Led): Led {
    l.(active := false, out := Dark)
  }

  function Update(l: Led, now: U32): Led {
    if !l.active then l
    else if Elapsed(now, l.lastChange) >= RgbChangeIntervalMs then
      var s := (l.rgbState + 1) % 3;
      l.(rgbState := s, lastChange := now, out := CycleColour(s))
    else l
  }

  lemma InitialValid()
    ensures Valid(Initial)
  {
  }

  /** Every operation keeps the state valid. */
  lemma OperationsValid(l: Led, now: U32)
    requires Valid(l)
    ensures Valid(StartDiscovery(l, now)) && Valid(Stop(l)) && Valid(Update(l, now))
  {
  }

  /** update() while the cycle is stopped changes nothing; while it runs, it
      moves to the next colour once 2000 ms have passed since the last
      change and records the time, and changes nothing before. */
  lemma UpdateRule(l: Led, now: U32)
    requires Valid(l)
    ensures !l.active ==> Update(l, now) == l
    ensures l.active && Elapsed(now, l.lastChange) < RgbChangeIntervalMs ==> Update(l, now) == l
    ensures l.active && Elapsed(now, l.lastChange) >= RgbChangeIntervalMs ==>
      Update(l, now).rgbState == (l.rgbState + 1) % 3 && Update(l, now).lastChange == now &&
      Update(l, now).active
  {
  }

  /** Three changes bring the cycle back to the colour it started from. */
  lemma CycleOfThree(l: Led, t1: U32, t2: U32, t3: U32)
    requires Valid(l) && l.active
    requires Elapsed(t1, l.lastChange) >= RgbChangeIntervalMs
    requires Elapsed(t2, t1) >= RgbChangeIntervalMs && Elapsed(t3, t2) >= RgbChangeIntervalMs
    ensures var l3 := Update(Update(Update(l, t1), t2), t3);
      l3.rgbState == l.rgbState && l3.out == l.out && l3.lastChange == t3
  {
    var l1 := Update(l, t1);
    assert l1.lastChange == t1 && l1.active;
    var l2 := Update(l1, t2);
    assert l2.lastChange == t2 && l2.active;
  }

  /** The light as an object: its three fields plus the last values written
      to the two outputs. */
  class MasterLedModule {
    var rgbLoopActive: bool
    var lastRgbChangeTime: U32
    var currentRgbState: nat
    var led1: Byte
    var led2: Byte

    function State(): Led
      reads this
    {
      Led(rgbLoopActive, lastRgbChangeTime, currentRgbState, Outputs(led1, led2))
    }

    /** The constructor; the outputs start low. */
    constructor ()
      ensures State() == Initial
    {
      rgbLoopActive := false;
      lastRgbChangeTime := 0;
      currentRgbState := 0;
      led1, led2 := 0, 0;
    }

    /** begin(): the outputs are switched off. */
    method Begin()
      modifies this
      ensures State() == old(State()).(out := Dark)
    {
      TurnOff();
    }

    method SetRgbColor(red: Byte, green: Byte, blue: Byte)
      modifies this
      ensures State() == old(State()).(out := RgbOutputs(red, green, blue))
    {
      if red > 0 {
        led1, led2 := red, 0;
      } else if green > 0 {
        led1, led2 := green, 0;
      } else if blue > 0 {
        led1, led2 := 0, blue;
      } else {
        led1, led2 := 0, 0;
      }
    }

    method TurnOff()
      modifies this
      ensures State() == old(State()).(out := Dark)
    {
      led1, led2 := 0, 0;
    }

    method StartDiscoveryMode(now: U32)
      modifies this
      ensures State() == StartDiscovery(old(State()), now)
    {
      rgbLoopActive := true;
      currentRgbState := 0;
      lastRgbChangeTime := now;
      SetRgbColor(255, 0, 0);
    }

    method StopDiscoveryMode()
      modifies this
      ensures State() == Stop(old(State()))
    {
      rgbLoopActive := false;
      TurnOff();
    }

    method SetIdleMode()
      modifies this
      ensures State() == Stop(old(State()))
    {
      rgbLoopActive := false;
      TurnOff();
    }

    method UpdateLoop(now: U32)
      modifies this
      ensures State() == Update(old(State()), now)
    {
      if !rgbLoopActive {
        return;
      }
      if Elapsed(now, lastRgbChangeTime) >= RgbChangeIntervalMs {
        currentRgbState := (currentRgbState + 1) % 3;
        lastRgbChangeTime := now;
        if currentRgbState == 0 {
          SetRgbColor(255, 0, 0);
        } else if currentRgbState == 1 {
          SetRgbColor(0, 255, 0);
        } else {
          SetRgbColor(0, 0, 255);
        }
      }
    }
  }
}
