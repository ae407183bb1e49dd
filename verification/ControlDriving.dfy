/** What the board does with its outputs in each kind of iteration, and what turns its RC mode on. */
module ControlDriving {
  import RcMode
  import opened PacketHandler
  import opened ControlOutput

  // ---------- Pulse widths ----------

  /** The servo turns from 1220 at 60 degrees over 1590 at 90 to 1980 at 120, in proportion and cut off to whole
      numbers, and no further to either side. */
  predicate TurnsTo(angle: int, servo: int) {
    && (angle <= 60 ==> servo == 1220)
    && (60 <= angle <= 90 ==> 30 * (servo - 1220) <= 370 * (angle - 60) < 30 * (servo - 1220) + 30)
    && (90 <= angle <= 120 ==> servo == 1590 + 13 * (angle - 90))
    && (angle >= 120 ==> servo == 1980)
  }

  lemma ServoTurnsTo(angle: int)
    ensures TurnsTo(angle, ServoPulse(angle))
  {}

  /** The transmitter's throttle reaches the motor at a fifth of its way forwards and seven tenths of its way
      backwards, cut off to whole numbers. */
  predicate Forwards(throttle: int, esc: int) {
    && (throttle >= 1400 ==> 5 * (esc - 1400) <= throttle - 1400 < 5 * (esc - 1400) + 5)
    && (throttle <= 1400 ==> 10 * esc <= 14000 - 7 * (1400 - throttle) < 10 * esc + 10)
  }

  lemma ThrottleForwards(throttle: nat)
    ensures Forwards(throttle, Attenuated(throttle))
  {
    if throttle > 1400 {
      FloorOf((throttle - 1400) as real * 0.2, 1400);
    } else if throttle < 1400 {
      assert 1400 as real - (1400 - throttle) as real * 0.7 >= 0.0;
    }
  }

  lemma FloorOf(x: real, n: int)
    ensures (n as real + x).Floor == n + x.Floor
  {}

  // ---------- One iteration ----------

  /** The RC switch after a look at the transmitter; without a signal on the throttle it is not consulted. */
  function SwitchAfter(rc: RcMode.Switch, x: Look): RcMode.Switch {
    if x.gate > 100 then RcMode.Check(rc, x.steering) else rc
  }

  predicate RcDrives(rc: RcMode.Switch, x: Look) { x.gate > 100 && SwitchAfter(rc, x).rcMode }

  predicate BrakePulled(x: Sample) { x.brakeLow >= 100 && x.brakeHigh <= 1000 }

  /** What the four kinds of iteration do with motor, servo and lights. */
  predicate Drives(s: Control, x: Sample, t: Control) {
    if RcDrives(s.rc, x.first) then
      && Forwards(x.first.throttle, t.out.esc) && t.out.servo == x.first.forwarded
      && t.lit == LightsCall(0, true, false, x.light) && t.isNew == s.isNew
    else if BrakePulled(x) then
      && t.out.esc == 1400 && TurnsTo(s.angle as int, t.out.servo)
      && t.lit == LightsCall(0, false, true, x.light) && t.isNew == s.isNew
    else if s.isNew then
      && t.out.esc == (if s.speed as int < 4 then [1124, 1400, 1484, 1487][s.speed as int] else s.out.esc)
      && TurnsTo(s.angle as int, t.out.servo)
      && t.lit == LightsCall(s.lights, false, false, x.light) && !t.isNew
    else
      && t.lit == LightsCall(0, false, false, x.light) && !t.isNew
      && (s.quiet <= 5 ==> t.out == s.out)
      && (s.quiet > 5 ==> t.speed == 1 && t.angle == 90)
      && (s.quiet > 5 && !RcDrives(SwitchAfter(s.rc, x.first), x.nested) ==> t.out == Outputs(1400, 1590))
      && (s.quiet > 5 && RcDrives(SwitchAfter(s.rc, x.first), x.nested) ==>
            Forwards(x.nested.throttle, t.out.esc) && t.out.servo == x.nested.forwarded)
  }

  lemma HandleDrives(s: Control, x: Look)
    ensures var (t, rcMode) := HandleRc(s, x);
      && rcMode == RcDrives(s.rc, x) && t.rc == SwitchAfter(s.rc, x)
      && (rcMode ==> Forwards(x.throttle, t.out.esc) && t.out.servo == x.forwarded)
      && t == s.(rc := t.rc, led := t.led, out := if rcMode then t.out else s.out)
  {
    hide RcMode.Check, Attenuated, Forwards;
    ThrottleForwards(x.throttle);
  }

  lemma IterationDrives(s: Control, x: Sample)
    ensures Drives(s, x, Iterate(s, x))
    ensures Iterate(s, x).rc == if NestedLook(s, x) then SwitchAfter(SwitchAfter(s.rc, x.first), x.nested)
                                else SwitchAfter(s.rc, x.first)
  {
    hide HandleRc, RcDrives, SwitchAfter, ServoPulse, TurnsTo, Forwards;
    var t := HandleRc(s, x.first).0;
    HandleDrives(s, x.first);
    HandleDrives(t, x.nested);
    ServoTurnsTo(s.angle as int);
    assert TurnsTo(90, 1590) && ServoPulse(90) == 1590 by { CentreIs1590(); }
  }

  lemma CentreIs1590()
    ensures TurnsTo(90, 1590) && ServoPulse(90) == 1590
  {}

  /** The failsafe runs, and looks at the transmitter once more. */
  predicate NestedLook(s: Control, x: Sample) {
    !RcDrives(s.rc, x.first) && !BrakePulled(x) && !s.isNew && s.quiet > 5
  }

  /** Once the failsafe has run, the transmitter's brake stops and centres, too: the last angle is forgotten. */
  lemma FailsafeForgetsAngle(s: Control, x: Sample, y: Sample)
    requires NestedLook(s, x)
    requires var t := Iterate(s, x); !RcDrives(t.rc, y.first) && BrakePulled(y)
    ensures Iterate(Iterate(s, x), y).out == Outputs(1400, 1590)
  {
    hide Iterate, SwitchAfter;
    IterationDrives(s, x);
    IterationDrives(Iterate(s, x), y);
  }

  // ---------- The switch in every run ----------

  ghost predicate Possible(events: seq<Event>) {
    forall e :: e in events && e.NewData? ==> |e.payload| == CONTROL_DATA_BYTES
  }

  function Looks(s: Control, x: Sample): seq<nat> {
    (if x.first.gate > 100 then [x.first.steering] else [])
    + if NestedLook(s, x) && x.nested.gate > 100 then [x.nested.steering] else []
  }

  /** The samples of the steering channel that the switch gets to see in a run. */
  function Seen(events: seq<Event>): seq<nat>
    requires Possible(events)
  {
    if events == [] then [] else
      var before := events[..|events| - 1];
      match events[|events| - 1]
      case NewData(_) => Seen(before)
      case Iteration(x) => Seen(before) + Looks(Run(before), x)
  }

  lemma {:induction false} AfterPrefix(a: seq<nat>, b: seq<nat>, n: nat)
    requires n <= |a|
    ensures RcMode.After(a + b, n) == RcMode.After(a, n)
  {
    hide RcMode.Check;
    if n > 0 {
      AfterPrefix(a, b, n - 1);
    }
  }

  lemma AfterOneMore(a: seq<nat>, v: nat)
    ensures RcMode.After(a + [v], |a| + 1) == RcMode.Check(RcMode.After(a, |a|), v)
  {
    AfterPrefix(a, [v], |a|);
    hide RcMode.Check;
  }

  lemma LooksFollow(s: Control, x: Sample, seen: seq<nat>)
    requires s.rc == RcMode.After(seen, |seen|)
    ensures Iterate(s, x).rc == RcMode.After(seen + Looks(s, x), |seen + Looks(s, x)|)
  {
    hide Iterate, RcMode.Check, RcMode.After, NestedLook;
    IterationDrives(s, x);
    var first := if x.first.gate > 100 then [x.first.steering] else [];
    var nested := if NestedLook(s, x) && x.nested.gate > 100 then [x.nested.steering] else [];
    AfterOneMore(seen, x.first.steering);
    AfterOneMore(seen + first, x.nested.steering);
    assert seen + Looks(s, x) == seen + first + nested;
    assert seen + [] == seen && seen + first + [] == seen + first;
  }

  /** In every run the switch is where these samples alone have brought it. */
  lemma {:induction false} SwitchFollows(events: seq<Event>)
    requires Possible(events)
    ensures Run(events).rc == RcMode.After(Seen(events), |Seen(events)|)
  {
    if events != [] {
      hide Iterate, RcMode.After, Looks;
      var before := events[..|events| - 1];
      SwitchFollows(before);
      match events[|events| - 1]
      case NewData(_) =>
      case Iteration(x) => LooksFollow(Run(before), x, Seen(before));
    } else {
      StartsOff();
    }
  }

  lemma StartsOff()
    ensures RcMode.After([], 0) == INITIAL_CONTROL.rc
  {}

  /** A mode that is on was turned on. */
  lemma {:induction false} TurnedOn(samples: seq<nat>, n: nat) returns (i: nat)
    requires n <= |samples| && RcMode.After(samples, n).rcMode
    ensures i < n && !RcMode.After(samples, i).rcMode && RcMode.After(samples, i + 1).rcMode
  {
    hide RcMode.Check;
    if n > 0 && RcMode.After(samples, n - 1).rcMode {
      i := TurnedOn(samples, n - 1);
    } else {
      i := n - 1;
    }
  }

  /** In every run of data and iterations RC mode is on only if the switch has seen the gesture: 21 samples far to
      the right with none below the threshold between, and a centred one at most ten later. */
  lemma RcModeNeedsGesture(events: seq<Event>) returns (k: nat, a: nat, i: nat)
    requires Possible(events) && Run(events).rc.rcMode
    ensures var seen := Seen(events);
      && k <= a < i < |seen| && i - a <= 10 && 1540 < seen[i] < 1640
      && RcMode.CountRight(seen[k..a + 1]) >= 21
      && forall j :: k <= j <= a ==> seen[j] > 2060
  {
    hide Run, RcMode.Check, Seen;
    SwitchFollows(events);
    i := TurnedOn(Seen(events), |Seen(events)|);
    k, a := RcMode.TurnsOnOnly(Seen(events), i);
  }

  // ---------- The LED ----------

  /** The LED shows the mode; between the two steps of the gesture it changes with every look. */
  lemma LedBlinks(s: Control, x: Look, y: Look)
    requires x.gate > 100 && y.gate > 100
    ensures var t := HandleRc(s, x).0;
      var u := HandleRc(t, y).0;
      && (s.rc.window == 0 ==> t.led.on == s.rc.rcMode)
      && (s.rc.window > 0 && t.rc.window > 0 ==> u.led.on == !t.led.on)
  {
    hide RcMode.Check, Attenuated;
  }
}
