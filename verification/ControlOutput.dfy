/** Control output on the board: automatic driving, the RC brake, RC mode and the failsafe. */
module ControlOutput {
  import opened RcMode
  import opened PacketHandler
  import opened ControlLink

  const MAX_ITERATIONS_WITHOUT_RECEIVE := 5
  const RC_THROTTLE_ON_TRESHOLD := 100
  const RC_THROTTLE_BRAKE_TRESHOLD := 1000
  const SPEED_STOP := 1
  const CTRL_OUT_SPEED_PULSEWIDTHS: seq<int> := [1124, 1400, 1484, 1487]
  const CTRL_OUT_WHEELS_MAXLEFT_PW := 1220
  const CTRL_OUT_WHEELS_MAXRIGHT_PW := 1980
  const CTRL_OUT_WHEELS_MAXLEFT_ANGLE := 60
  const CTRL_OUT_WHEELS_CENTERED_ANGLE := 90
  const CTRL_OUT_WHEELS_MAXRIGHT_ANGLE := 120

  // ---------- The PWM outputs (hardwarePWM.c) ----------

  /** Linear map that does not leave the output range; the quotient of the C code is never negative. */
  function Map(x: int, inMin: int, inMax: int, outMin: int, outMax: int): int
    requires inMin < inMax && outMin <= outMax
  {
    var clamped := if x < inMin then inMin else if x > inMax then inMax else x;
    (clamped - inMin) * (outMax - outMin) / (inMax - inMin) + outMin
  }

  function ServoPulse(angle: int): int {
    if angle < 90 then
      Map(angle, CTRL_OUT_WHEELS_MAXLEFT_ANGLE, CTRL_OUT_WHEELS_CENTERED_ANGLE,
          CTRL_OUT_WHEELS_MAXLEFT_PW, CTRL_OUT_WHEELS_CENTERED_PW)
    else if angle > 90 then
      Map(angle, CTRL_OUT_WHEELS_CENTERED_ANGLE, CTRL_OUT_WHEELS_MAXRIGHT_ANGLE,
          CTRL_OUT_WHEELS_CENTERED_PW, CTRL_OUT_WHEELS_MAXRIGHT_PW)
    else CTRL_OUT_WHEELS_CENTERED_PW
  }

  lemma ServoPulseRange(a: int, b: int)
    requires a <= b
    ensures CTRL_OUT_WHEELS_MAXLEFT_PW <= ServoPulse(a) <= ServoPulse(b) <= CTRL_OUT_WHEELS_MAXRIGHT_PW
    ensures ServoPulse(a) == CTRL_OUT_WHEELS_CENTERED_PW <==> a == CTRL_OUT_WHEELS_CENTERED_ANGLE
  {}

  datatype Outputs = Outputs(esc: int, servo: int)

  /** A speed step that does not exist leaves the motor as it is. */
  function DriveAt(o: Outputs, speed: int): Outputs {
    if 0 <= speed < |CTRL_OUT_SPEED_PULSEWIDTHS| then o.(esc := CTRL_OUT_SPEED_PULSEWIDTHS[speed]) else o
  }

  function SteerTo(o: Outputs, angle: int): Outputs {
    o.(servo := ServoPulse(angle))
  }

  class Pwm {
    var esc: int
    var servo: int

    ghost function Out(): Outputs
      reads this
    {
      Outputs(esc, servo)
    }

    constructor ()
      ensures Out() == Outputs(CTRL_OUT_SPEED_PULSEWIDTHS[SPEED_STOP], CTRL_OUT_WHEELS_CENTERED_PW)
    {
      esc := CTRL_OUT_SPEED_PULSEWIDTHS[SPEED_STOP];
      servo := CTRL_OUT_WHEELS_CENTERED_PW;
    }

    method SetServo(value: int)
      modifies this
      ensures Out() == SteerTo(old(Out()), value)
    {
      if value < 90 {
        servo := Map(value, CTRL_OUT_WHEELS_MAXLEFT_ANGLE, CTRL_OUT_WHEELS_CENTERED_ANGLE,
                     CTRL_OUT_WHEELS_MAXLEFT_PW, CTRL_OUT_WHEELS_CENTERED_PW);
      } else if value > 90 {
        servo := Map(value, CTRL_OUT_WHEELS_CENTERED_ANGLE, CTRL_OUT_WHEELS_MAXRIGHT_ANGLE,
                     CTRL_OUT_WHEELS_CENTERED_PW, CTRL_OUT_WHEELS_MAXRIGHT_PW);
      } else {
        servo := CTRL_OUT_WHEELS_CENTERED_PW;
      }
    }

    method SetEsc(value: int)
      modifies this
      ensures Out() == DriveAt(old(Out()), value)
    {
      if value >= 0 && value <= |CTRL_OUT_SPEED_PULSEWIDTHS| - 1 {
        esc := CTRL_OUT_SPEED_PULSEWIDTHS[value];
      }
    }

    method SetValuesRC(throttle: int, steering: int)
      modifies this
      ensures Out() == Outputs(throttle, steering)
    {
      esc := throttle;
      servo := steering;
    }
  }

  // ---------- The control state ----------

  /** What the lights were last told: the byte for them, whether RC mode or its brake is on, and the light sensor. */
  datatype LightsCall = LightsCall(lightByte: byte, rcMode: bool, rcBrake: bool, sensor: byte)

  /** The LED of the RC switch, and the flag that makes it blink. */
  datatype Led = Led(on: bool, ledState: bool)

  /** The LED shows the mode, but blinks while the switch waits for a centred sample. */
  function Blink(led: Led, s: Switch): Led {
    if s.window == 0 then Led(s.rcMode, led.ledState) else Led(!led.ledState, !led.ledState)
  }

  /** The bytes last received, whether they are new, the failsafe counter, the RC switch with its LED, the outputs
      and the lights. */
  datatype Control = Control(
    speed: byte, angle: byte, lights: byte, isNew: bool, quiet: nat,
    rc: Switch, led: Led, out: Outputs, lit: LightsCall)

  const INITIAL_CONTROL := Control(
    0, 0, 0, false, 0, INITIAL_SWITCH, Led(false, false),
    Outputs(CTRL_OUT_SPEED_PULSEWIDTHS[SPEED_STOP], CTRL_OUT_WHEELS_CENTERED_PW), LightsCall(0, false, false, 0))

  /** The pulse widths that one call of the RC handler sees, in the order in which it asks: throttle for the gate,
      steering for the switch, throttle and steering to be forwarded. An interrupt may lie between any two. */
  datatype Look = Look(gate: nat, steering: nat, throttle: nat, forwarded: nat)

  /** What one iteration sees: its first look, the throttle as the two halves of the brake test see it, the look
      of the failsafe if that runs, and the light sensor. */
  datatype Sample = Sample(first: Look, brakeLow: nat, brakeHigh: nat, nested: Look, light: byte)

  /** The RC throttle with its deviation from neutral reduced, truncated as C does. */
  function Attenuated(throttle: nat): int {
    var stop := CTRL_OUT_SPEED_PULSEWIDTHS[SPEED_STOP];
    if throttle > stop then Truncate(stop as real + (throttle - stop) as real * 0.2)
    else if throttle < stop then Truncate(stop as real - (stop - throttle) as real * 0.7)
    else throttle
  }

  function HandleRc(s: Control, x: Look): (Control, bool) {
    if x.gate > RC_THROTTLE_ON_TRESHOLD then
      var t := s.(rc := Check(s.rc, x.steering), led := Blink(s.led, s.rc));
      if t.rc.rcMode then (t.(out := Outputs(Attenuated(x.throttle), x.forwarded)), true) else (t, false)
    else (s, false)
  }

  function StopCenter(s: Control, x: Look): Control {
    var (t, rcMode) := HandleRc(s, x);
    var u := if rcMode then t else t.(out := SteerTo(DriveAt(t.out, SPEED_STOP), CTRL_OUT_WHEELS_CENTERED_ANGLE));
    u.(speed := 1, angle := 90)
  }

  predicate Brakes(x: Sample) {
    x.brakeLow >= RC_THROTTLE_ON_TRESHOLD && x.brakeHigh <= RC_THROTTLE_BRAKE_TRESHOLD
  }

  function Automatic(s: Control, nested: Look): Control {
    if s.isNew then
      s.(out := SteerTo(DriveAt(s.out, s.speed as int), s.angle as int), isNew := false, quiet := 0)
    else if s.quiet > MAX_ITERATIONS_WITHOUT_RECEIVE then StopCenter(s, nested)
    else s.(quiet := s.quiet + 1)
  }

  function Iterate(s: Control, x: Sample): Control {
    var (t, rcMode) := HandleRc(s, x.first);
    if rcMode then t.(lit := LightsCall(0, true, false, x.light))
    else if Brakes(x) then
      t.(out := SteerTo(DriveAt(t.out, SPEED_STOP), t.angle as int), lit := LightsCall(0, false, true, x.light))
    else
      Automatic(t, x.nested).(lit := LightsCall(if t.isNew then t.lights else 0, false, false, x.light))
  }

  function SetData(s: Control, payload: seq<byte>): Control
    requires |payload| == CONTROL_DATA_BYTES
  {
    s.(speed := payload[0], angle := payload[1], lights := payload[2], isNew := true)
  }

  class Controller {
    const controlData: array<byte>
    var controlValuesAreNew: bool
    var iterationsNoNewValues: nat
    var itAboveActivationTreshold: nat
    var itBelowDeactivationTreshold: nat
    var rcModeOn: bool
    var itWindowToCenterToSwitch: nat
    const pwm: Pwm
    var lit: LightsCall
    var led: Led

    ghost predicate Inv()
      reads this
    {
      controlData.Length == CONTROL_DATA_BYTES
    }

    ghost function Rc(): Switch
      reads this
    {
      Switch(itAboveActivationTreshold, itBelowDeactivationTreshold, rcModeOn, itWindowToCenterToSwitch)
    }

    ghost function State(): Control
      requires Inv()
      reads this, controlData, pwm
    {
      Control(controlData[0], controlData[1], controlData[2], controlValuesAreNew, iterationsNoNewValues,
        Rc(), led, pwm.Out(), lit)
    }

    constructor ()
      ensures Inv() && fresh(pwm) && fresh(controlData) && State() == INITIAL_CONTROL
    {
      controlData := new byte[CONTROL_DATA_BYTES](i => 0);
      controlValuesAreNew := false;
      iterationsNoNewValues := 0;
      itAboveActivationTreshold, itBelowDeactivationTreshold := 0, 0;
      rcModeOn := false;
      itWindowToCenterToSwitch := 0;
      pwm := new Pwm();
      lit := LightsCall(0, false, false, 0);
      led := Led(false, false);
    }

    method ControlOutputSetData(newControlData: array<byte>)
      requires Inv() && newControlData.Length == CONTROL_DATA_BYTES
      modifies this, controlData
      ensures Inv() && State() == SetData(old(State()), old(newControlData[..]))
    {
      for i := 0 to CONTROL_DATA_BYTES
        modifies controlData
        invariant forall j :: 0 <= j < i ==> controlData[j] == old(newControlData[j])
        invariant newControlData != controlData ==> newControlData[..] == old(newControlData[..])
        invariant newControlData == controlData ==> controlData[..] == old(controlData[..])
      {
        controlData[i] := newControlData[i];
      }
      controlValuesAreNew := true;
    }

    method ControlOutputIteration(x: Sample)
      requires Inv()
      modifies this, controlData, pwm
      ensures Inv() && State() == Iterate(old(State()), x)
    {
      var lightByte: byte := 0;
      var rcBrake := false;
      var rcMode := HandleRCMode(x.first);
      if !rcMode {
        if x.brakeLow >= RC_THROTTLE_ON_TRESHOLD && x.brakeHigh <= RC_THROTTLE_BRAKE_TRESHOLD {
          pwm.SetEsc(SPEED_STOP);
          pwm.SetServo(controlData[1] as int);
          rcBrake := true;
        } else {
          if controlValuesAreNew {
            pwm.SetEsc(controlData[0] as int);
            pwm.SetServo(controlData[1] as int);
            lightByte := controlData[2];
            controlValuesAreNew := false;
            iterationsNoNewValues := 0;
          } else {
            if iterationsNoNewValues > MAX_ITERATIONS_WITHOUT_RECEIVE {
              ControlOutputStopCenter(x.nested);
            } else {
              iterationsNoNewValues := iterationsNoNewValues + 1;
            }
          }
        }
      }
      lit := LightsCall(lightByte, rcMode, rcBrake, x.light);
    }

    method ControlOutputStopCenter(x: Look)
      requires Inv()
      modifies this, controlData, pwm
      ensures Inv() && State() == StopCenter(old(State()), x)
    {
      var rcMode := HandleRCMode(x);
      if !rcMode {
        pwm.SetEsc(SPEED_STOP);
        pwm.SetServo(CTRL_OUT_WHEELS_CENTERED_ANGLE);
      }
      controlData[0] := 1;
      controlData[1] := 90;
    }

    method HandleRCMode(x: Look) returns (active: bool)
      requires Inv()
      modifies this, controlData, pwm
      ensures Inv() && (State(), active) == HandleRc(old(State()), x)
    {
      if x.gate > RC_THROTTLE_ON_TRESHOLD {
        var rcMode := RcModeCheck(x.steering);
        if rcMode {
          var stop := CTRL_OUT_SPEED_PULSEWIDTHS[SPEED_STOP];
          var escPw: int := x.throttle;
          if escPw > stop {
            escPw := Truncate(stop as real + (escPw - stop) as real * 0.2);
          } else if escPw < stop {
            escPw := Truncate(stop as real - (stop - escPw) as real * 0.7);
          }
          pwm.SetValuesRC(escPw, x.forwarded);
          return true;
        }
      }
      return false;
    }

    method RcModeCheck(steeringPW: nat) returns (rcMode: bool)
      requires Inv()
      modifies this
      ensures Inv() && Rc() == Check(old(Rc()), steeringPW) && rcMode == rcModeOn
      ensures led == Blink(old(led), old(Rc()))
      ensures controlValuesAreNew == old(controlValuesAreNew)
      ensures iterationsNoNewValues == old(iterationsNoNewValues) && lit == old(lit)
    {
      led := led.(on := rcModeOn);
      if itWindowToCenterToSwitch == 0 {
        if !rcModeOn && steeringPW > RC_STEERING_ACTIVATION_TRESHOLD && steeringPW < 2400 {
          if itAboveActivationTreshold < RC_ITERATIONS_TO_CHANGE_MODE {
            itAboveActivationTreshold := itAboveActivationTreshold + 1;
          } else {
            itWindowToCenterToSwitch := RC_ITERATIONS_TO_CENTER;
          }
        } else if rcModeOn && steeringPW < RC_STEERING_DEACTIVATION_TRESHOLD {
          if rcModeOn && itBelowDeactivationTreshold < RC_ITERATIONS_TO_CHANGE_MODE {
            itBelowDeactivationTreshold := itBelowDeactivationTreshold + 1;
          } else {
            itWindowToCenterToSwitch := RC_ITERATIONS_TO_CENTER;
          }
        }
      } else {
        itAboveActivationTreshold := 0;
        itBelowDeactivationTreshold := 0;
        if !led.ledState {
          led := Led(true, true);
        } else {
          led := Led(false, false);
        }
        if && itWindowToCenterToSwitch > 0
           && steeringPW > CTRL_OUT_WHEELS_CENTERED_PW - 50 && steeringPW < CTRL_OUT_WHEELS_CENTERED_PW + 50
        {
          rcModeOn := !rcModeOn;
          itWindowToCenterToSwitch := 0;
        }
        if itWindowToCenterToSwitch > 0 {
          itWindowToCenterToSwitch := itWindowToCenterToSwitch - 1;
        }
      }
      if steeringPW >= RC_STEERING_DEACTIVATION_TRESHOLD {
        itBelowDeactivationTreshold := 0;
      }
      if steeringPW <= RC_STEERING_ACTIVATION_TRESHOLD {
        itAboveActivationTreshold := 0;
      }
      rcMode := rcModeOn;
    }
  }

  // ---------- The failsafe over whole runs ----------

  /** The iteration reaches the automatic branch: neither RC mode nor the transmitter's brake takes over. */
  predicate RunsAutomatically(s: Control, x: Sample) {
    !HandleRc(s, x.first).1 && !Brakes(x)
  }

  function Iterations(s: Control, samples: seq<Sample>): Control
    decreases |samples|
  {
    if samples == [] then s
    else Iterations(Iterate(s, samples[0]), samples[1..])
  }

  /** How many of the iterations reach the automatic branch. */
  function AutomaticIterations(s: Control, samples: seq<Sample>): nat
    decreases |samples|
  {
    if samples == [] then 0
    else
      var rest := AutomaticIterations(Iterate(s, samples[0]), samples[1..]);
      if RunsAutomatically(s, samples[0]) then 1 + rest else rest
  }

  lemma HandleRcKeeps(s: Control, x: Look)
    ensures var t := HandleRc(s, x).0; t.quiet == s.quiet && t.isNew == s.isNew
  {
    hide Check, Attenuated;
  }

  /** The failsafe counter after an automatic iteration. */
  function NextQuiet(s: Control): nat {
    if s.isNew then 0 else if s.quiet <= MAX_ITERATIONS_WITHOUT_RECEIVE then s.quiet + 1 else s.quiet
  }

  lemma AutomaticStep(s: Control, x: Look)
    ensures var t := Automatic(s, x); !t.isNew && t.quiet == NextQuiet(s)
  {
    hide HandleRc, SteerTo, DriveAt;
    HandleRcKeeps(s, x);
  }

  /** What one iteration does to the counter. */
  lemma QuietStep(s: Control, x: Sample)
    ensures var t := Iterate(s, x);
      if !RunsAutomatically(s, x) then t.isNew == s.isNew && t.quiet == s.quiet
      else !t.isNew && t.quiet == NextQuiet(s)
  {
    hide HandleRc, Automatic, SteerTo, DriveAt;
    HandleRcKeeps(s, x.first);
    AutomaticStep(HandleRc(s, x.first).0, x.nested);
  }

  /** Without new data the counter counts automatic iterations and nothing else, up to six. */
  lemma {:induction false} QuietCounts(s: Control, samples: seq<Sample>)
    requires !s.isNew && s.quiet <= MAX_ITERATIONS_WITHOUT_RECEIVE + 1
    ensures var t, n := Iterations(s, samples), s.quiet + AutomaticIterations(s, samples);
      !t.isNew && t.quiet == if n <= MAX_ITERATIONS_WITHOUT_RECEIVE then n else MAX_ITERATIONS_WITHOUT_RECEIVE + 1
    decreases |samples|
  {
    hide Iterate, RunsAutomatically;
    if samples != [] {
      QuietStep(s, samples[0]);
      QuietCounts(Iterate(s, samples[0]), samples[1..]);
    }
  }

  /** The second look at the transmitter within the iteration turned RC mode on. */
  predicate NestedTakeover(s: Control, x: Sample) {
    HandleRc(HandleRc(s, x.first).0, x.nested).1
  }

  /** After six automatic iterations without new data every further one stops the car and centres the
      wheels, whatever RC and brake iterations lie between, unless RC mode takes over within it. */
  lemma Failsafe(s: Control, samples: seq<Sample>, x: Sample)
    requires !s.isNew && s.quiet <= MAX_ITERATIONS_WITHOUT_RECEIVE + 1
    requires AutomaticIterations(s, samples) >= 6
    requires RunsAutomatically(Iterations(s, samples), x)
    ensures var t := Iterations(s, samples);
      var u := Iterate(t, x);
      if NestedTakeover(t, x) then u.rc.rcMode && u.out == Outputs(Attenuated(x.nested.throttle), x.nested.forwarded)
      else u.out == Outputs(1400, 1590)
  {
    QuietCounts(s, samples);
  }

  /** If gate and switch see the same pulse widths at both looks, the takeover within the iteration cannot happen. */
  lemma NoTakeoverWithoutInterrupt(s: Control, x: Sample)
    requires RunsAutomatically(s, x) && x.first.gate == x.nested.gate && x.first.steering == x.nested.steering
    ensures !NestedTakeover(s, x)
  {
    var t := Check(s.rc, x.first.steering);
    assert t.window > 0 && Centred(x.first.steering) ==> s.rc.window > 0;
  }

  /** Before the sixth the outputs stay as they are. */
  lemma NoEarlyStop(s: Control, samples: seq<Sample>, x: Sample)
    requires !s.isNew && s.quiet == 0
    requires RunsAutomatically(Iterations(s, samples), x) && AutomaticIterations(s, samples) < 6
    ensures var t := Iterations(s, samples); Iterate(t, x).out == t.out
  {
    QuietCounts(s, samples);
  }

  datatype Event = NewData(payload: seq<byte>) | Iteration(sample: Sample)

  function Run(events: seq<Event>): Control
    requires forall e :: e in events && e.NewData? ==> |e.payload| == CONTROL_DATA_BYTES
  {
    if events == [] then INITIAL_CONTROL else
      var s := Run(events[..|events| - 1]);
      match events[|events| - 1]
      case NewData(payload) => SetData(s, payload)
      case Iteration(x) => Iterate(s, x)
  }

  /** The bound the failsafe needs holds in every run. */
  lemma {:induction false} QuietBounded(events: seq<Event>)
    requires forall e :: e in events && e.NewData? ==> |e.payload| == CONTROL_DATA_BYTES
    ensures Run(events).quiet <= MAX_ITERATIONS_WITHOUT_RECEIVE + 1
  {
    if events != [] {
      var s := Run(events[..|events| - 1]);
      QuietBounded(events[..|events| - 1]);
      if events[|events| - 1].Iteration? {
        QuietStep(s, events[|events| - 1].sample);
      }
      hide Iterate, RunsAutomatically;
    }
  }

  /** New data is output once; the iterations after that count as above. */
  lemma {:induction false} QuietCountsFromNew(s: Control, samples: seq<Sample>)
    requires s.isNew
    ensures var t, n := Iterations(s, samples), AutomaticIterations(s, samples);
      if n == 0 then t.isNew
      else
        && !t.isNew
        && t.quiet == if n - 1 <= MAX_ITERATIONS_WITHOUT_RECEIVE then n - 1 else MAX_ITERATIONS_WITHOUT_RECEIVE + 1
    decreases |samples|
  {
    hide Iterate, RunsAutomatically;
    if samples != [] {
      var u := Iterate(s, samples[0]);
      QuietStep(s, samples[0]);
      if RunsAutomatically(s, samples[0]) {
        QuietCounts(u, samples[1..]);
      } else {
        QuietCountsFromNew(u, samples[1..]);
      }
    }
  }

  /** In every run: once the data last received has been output, six automatic iterations later every further
      one stops and centres, until new data comes or RC mode takes over within the iteration. */
  lemma FailsafeInEveryRun(events: seq<Event>, samples: seq<Sample>, x: Sample)
    requires forall e :: e in events && e.NewData? ==> |e.payload| == CONTROL_DATA_BYTES
    requires AutomaticIterations(Run(events), samples) >= if Run(events).isNew then 7 else 6
    requires RunsAutomatically(Iterations(Run(events), samples), x)
    ensures var t := Iterations(Run(events), samples);
      NestedTakeover(t, x) || Iterate(t, x).out == Outputs(1400, 1590)
  {
    var s := Run(events);
    QuietBounded(events);
    if s.isNew {
      QuietCountsFromNew(s, samples);
    } else {
      QuietCounts(s, samples);
    }
  }

  // ---------- From the vehicle control to the wheels ----------

  function SpeedPulse(speed: real): int {
    if speed > 1.0001 then 1487 else if speed > 0.0001 then 1484 else if speed < -0.0001 then 1124 else 1400
  }

  /** A command that fits the receive buffer arrives, and the next automatic iteration drives it and passes its
      lamps on. */
  lemma CommandReachesOutputs(buffered: Received, s: Control, vc: VehicleControl, reverseLight: bool, x: Sample)
    requires Valid(buffered) && buffered.used + CONTROL_DATA_PACKET_SIZE <= BUFFER_SIZE
    requires -90 <= Degrees(vc) <= 165
    ensures var payload := [SpeedByte(vc), AngleByte(vc), LightsByte(vc, reverseLight)];
      var received := AddAll(buffered, ControlFrame(payload));
      && Valid(received) && Read(received).Some?
      && |Read(received).value.0| == CONTROL_DATA_BYTES
      && var t := SetData(s, Read(received).value.0);
         RunsAutomatically(t, x) ==>
           && Iterate(t, x).out == Outputs(SpeedPulse(vc.speed), ServoPulse(Degrees(vc) + 90))
           && Iterate(t, x).lit.lightByte == LightsByte(vc, reverseLight)
  {
    hide LightsByte, AngleByte, SpeedByte, Degrees, ServoPulse, SpeedPulse;
    hide ControlFrame, Read, AddAll, Iterate, RunsAutomatically;
    var payload := [SpeedByte(vc), AngleByte(vc), LightsByte(vc, reverseLight)];
    RoundTrip(buffered, payload);
    AddAllValid(buffered, ControlFrame(payload));
    AngleKept(vc);
    SpeedSteps(vc);
    NewDataDrives(s, payload, x);
  }

  lemma NewDataDrives(s: Control, payload: seq<byte>, x: Sample)
    requires |payload| == CONTROL_DATA_BYTES && 0 <= payload[0] as int < 4
    ensures var t := SetData(s, payload);
      RunsAutomatically(t, x) ==>
        && Iterate(t, x).out == Outputs(CTRL_OUT_SPEED_PULSEWIDTHS[payload[0] as int], ServoPulse(payload[1] as int))
        && Iterate(t, x).lit.lightByte == payload[2]
  {
    hide Check, Attenuated, ServoPulse, StopCenter;
  }

  lemma SpeedSteps(vc: VehicleControl)
    ensures 0 <= SpeedByte(vc) as int < 4 && CTRL_OUT_SPEED_PULSEWIDTHS[SpeedByte(vc) as int] == SpeedPulse(vc.speed)
  {}
}
