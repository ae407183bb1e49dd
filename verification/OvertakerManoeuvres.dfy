/** What the car does in each state of an overtake, and which frames lead from one state to the next. */
module OvertakerManoeuvres {
  import opened Overtaker
  import opened OvertakerTheorems

  // ---------- One frame ----------

  /** The reset looks at the odometer only. */
  lemma NoReset(o: Ovt, f: Frame)
    requires !ResetFires(o, f)
    ensures var q := ResetFsm(o, f); Step(o, f) == Act(q, f) && q == o.(idle := q.idle, totalTraveled := f.odometer)
  {}

  /** A reset stops the steering; the frame may then start an overtake, and does nothing else. */
  lemma Reset(o: Ovt, f: Frame)
    requires ResetFires(o, f)
    ensures var p := Step(o, f);
      && (p.state == FREE_LANE || p.state == INIT_LEFT_SWITCH)
      && p.control.steering == 0.0 && (p.state == INIT_LEFT_SWITCH ==> p.control.speed == 1.0 && p.minUs == 7.0)
      && p.recommendation == o.recommendation && p.averaged == o.averaged
      && p.traveledPath == if p.state == INIT_LEFT_SWITCH then f.odometer else o.traveledPath
  {}

  // ---------- Steering and speed ----------

  /** Steering left, right again, and back on the right lane; the angle of the way back depends on the
      recommendation. */
  predicate SteersIn(o: Ovt, steering: real) {
    match o.state
    case INIT_LEFT_SWITCH | LEFT_SWITCH => steering == -0.5235
    case ADJUST_LEFT_SWITCH => steering == 0.2
    case RIGHT_SWITCH =>
      steering == if o.recommendation > 0.1 then 0.5235 else if o.recommendation < -0.13 then 0.30 else 0.5
    case ADJUST_RIGHT_SWITCH => steering == -0.5
    case _ => steering == o.control.steering
  }

  /** What a frame without a reset does to steering and speed. */
  predicate Controls(o: Ovt, p: Ovt) {
    && (p.state == o.state ==> SteersIn(o, p.control.steering))
    && (p.state != o.state ==>
          p.control.steering == if p.state == SEARCH_END then 0.0 else o.control.steering)
    && p.control.speed == (if o.state == FREE_LANE && p.state != FREE_LANE then 1.0 else o.control.speed)
  }

  lemma ActControls(o: Ovt, f: Frame)
    ensures Controls(o, Act(o, f))
  {
    hide Detected, EndInSight, RightClear;
    match o.state
    case FREE_LANE =>
    case INIT_LEFT_SWITCH =>
    case LEFT_SWITCH =>
    case ADJUST_LEFT_SWITCH =>
    case SEARCH_END =>
    case REACH_END =>
    case COMPUTE_ANGLE =>
    case RIGHT_SWITCH =>
    case ADJUST_RIGHT_SWITCH =>
  }

  lemma StepControls(o: Ovt, f: Frame)
    ensures ResetFires(o, f) ==> Step(o, f).control.steering == 0.0
    ensures !ResetFires(o, f) ==> Controls(o, Step(o, f))
    ensures o.state == FREE_LANE || o.control.speed == 1.0 ==>
      Step(o, f).state == FREE_LANE || Step(o, f).control.speed == 1.0
  {
    if ResetFires(o, f) {
      Reset(o, f);
    } else {
      NoReset(o, f);
      ActControls(ResetFsm(o, f), f);
    }
    hide Act, ResetFsm, ResetFires;
  }

  lemma {:induction false} DrivesAtOne(frames: seq<Frame>, n: nat)
    requires n <= |frames|
    ensures After(frames, n).state == FREE_LANE || After(frames, n).control.speed == 1.0
  {
    hide Step;
    if n > 0 {
      DrivesAtOne(frames, n - 1);
      StepControls(After(frames, n - 1), frames[n - 1]);
    }
  }

  /** In every run: the speed is one throughout an overtake, each state steers by its own angle as long as it
      lasts, and the car goes straight when it has reached the left lane and after a reset. */
  lemma SteeringOfRun(frames: seq<Frame>, n: nat)
    requires n < |frames|
    ensures var o, p := After(frames, n), After(frames, n + 1);
      && (p.state != FREE_LANE ==> p.control.speed == 1.0)
      && (ResetFires(o, frames[n]) ==> p.control.steering == 0.0)
      && (!ResetFires(o, frames[n]) && p.state == o.state ==> SteersIn(o, p.control.steering))
      && (!ResetFires(o, frames[n]) && p.state != o.state ==>
            p.control.steering == if p.state == SEARCH_END then 0.0 else o.control.steering)
  {
    DrivesAtOne(frames, n + 1);
    StepControls(After(frames, n), frames[n]);
    hide Step, ResetFires;
  }

  // ---------- Manoeuvres by distance ----------

  predicate Marks(o: Ovt, p: Ovt) {
    p.state != o.state &&
    (p.state == INIT_LEFT_SWITCH || p.state == ADJUST_LEFT_SWITCH || p.state == COMPUTE_ANGLE
     || p.state == ADJUST_RIGHT_SWITCH)
  }

  /** The odometer when the machine last entered one of the states that mark it. */
  function MarkedAt(frames: seq<Frame>, n: nat): real
    requires n <= |frames|
  {
    if n == 0 then 0.0
    else if Marks(After(frames, n - 1), After(frames, n)) then frames[n - 1].odometer
    else MarkedAt(frames, n - 1)
  }

  /** How far past the mark a manoeuvre ends, and where it leads. */
  predicate EndsAt(o: Ovt, p: Ovt, way: real) {
    match o.state
    case INIT_LEFT_SWITCH => p.state == (if way > 3.0 then LEFT_SWITCH else o.state)
    case ADJUST_LEFT_SWITCH => p.state == (if way > 3.6 then SEARCH_END else o.state)
    case RIGHT_SWITCH =>
      var distance := if o.recommendation > 0.1 then 4.2 else if o.recommendation < -0.13 then 3.85 else 4.0;
      p.recommendation == o.recommendation && p.state == (if way > distance then ADJUST_RIGHT_SWITCH else o.state)
    case ADJUST_RIGHT_SWITCH =>
      var distance := if o.recommendation < -0.13 then 2.0 else 0.0;
      && p.state == (if way > distance then FREE_LANE else o.state)
      && p.recommendation == (if p.state == FREE_LANE then 0.0 else o.recommendation)
    case _ => true
  }

  lemma ActEnds(o: Ovt, f: Frame)
    ensures EndsAt(o, Act(o, f), f.odometer - o.traveledPath)
    ensures Act(o, f).traveledPath == if Marks(o, Act(o, f)) then f.odometer else o.traveledPath
  {
    hide Detected, EndInSight, RightClear;
    match o.state
    case FREE_LANE =>
    case INIT_LEFT_SWITCH =>
    case LEFT_SWITCH =>
    case ADJUST_LEFT_SWITCH =>
    case SEARCH_END =>
    case REACH_END =>
    case COMPUTE_ANGLE =>
    case RIGHT_SWITCH =>
    case ADJUST_RIGHT_SWITCH =>
  }

  lemma StepEnds(o: Ovt, f: Frame)
    requires Sound(o)
    ensures !ResetFires(o, f) ==> EndsAt(o, Step(o, f), f.odometer - o.traveledPath)
    ensures Step(o, f).traveledPath == if Marks(o, Step(o, f)) then f.odometer else o.traveledPath
  {
    StepSound(o, f);
    if ResetFires(o, f) {
      Reset(o, f);
    } else {
      NoReset(o, f);
      ActEnds(ResetFsm(o, f), f);
    }
    hide Act, ResetFsm, ResetFires, AveragesOn;
  }

  lemma {:induction false} PathIsMarked(frames: seq<Frame>, n: nat)
    requires n <= |frames|
    ensures After(frames, n).traveledPath == MarkedAt(frames, n)
  {
    hide Step, Marks, Sound;
    if n > 0 {
      PathIsMarked(frames, n - 1);
      RunSound(frames, n - 1);
      StepEnds(After(frames, n - 1), frames[n - 1]);
    }
  }

  /** In every run, as long as no reset fires, each manoeuvre by distance ends in the first frame in which the
      odometer is far enough past the mark, and not before. */
  lemma ManoeuvreEnds(frames: seq<Frame>, n: nat)
    requires n < |frames| && !ResetFires(After(frames, n), frames[n])
    ensures EndsAt(After(frames, n), After(frames, n + 1), frames[n].odometer - MarkedAt(frames, n))
  {
    hide Step, Sound, EndsAt, Marks;
    RunSound(frames, n);
    StepEnds(After(frames, n), frames[n]);
    PathIsMarked(frames, n);
  }

  // ---------- Five readings in a row ----------

  /** What the machine waits for beside the obstacle: first its end in sight of the ultrasonic sensor while the
      infrared ones still see it, then nothing on the right at all. */
  predicate Awaited(p: Phase, f: Frame) {
    match p
    case SEARCH_END => !(0.0 <= f.frontRightUs < 3.0) && 0.0 <= f.frontRightIr < 7.0 && 0.0 <= f.rearRightIr < 7.0
    case REACH_END =>
      !(0.0 <= f.frontRightUs < 8.0) && !(0.0 <= f.frontRightIr < 7.0) && !(0.0 <= f.rearRightIr < 7.0)
    case FREE_LANE => 0.0 <= f.frontUs < 7.0
    case _ => false
  }

  predicate Waits(p: Phase) { p == SEARCH_END || p == REACH_END || p == FREE_LANE }

  /** Where the fifth awaited reading leads. */
  function Reached(p: Phase): Phase {
    match p
    case SEARCH_END => REACH_END
    case REACH_END => COMPUTE_ANGLE
    case FREE_LANE => INIT_LEFT_SWITCH
    case _ => p
  }

  /** A reading that is awaited counts, any other starts over, and the fifth leads on. */
  predicate CountsAwaited(o: Ovt, f: Frame, p: Ovt) {
    && p.state == (if Awaited(o.state, f) && o.readings >= 4 then Reached(o.state) else o.state)
    && p.readings == if Awaited(o.state, f) && o.readings < 4 then o.readings + 1 else 0
  }

  lemma StepCounts(o: Ovt, f: Frame)
    requires Waits(o.state) && (!ResetFires(o, f) || o.state == FREE_LANE)
    ensures CountsAwaited(o, f, Step(o, f))
  {
    ResetLeaves(o, f);
    ActCounts(ResetFsm(o, f), f);
    hide Act, ResetFsm, Awaited;
  }

  lemma ActCounts(o: Ovt, f: Frame)
    requires Waits(o.state)
    ensures CountsAwaited(o, f, Act(o, f))
  {
    match o.state
    case FREE_LANE =>
    case SEARCH_END =>
    case REACH_END =>
  }

  /** Beside the obstacle, the counted readings are the awaited ones since the last that was not, or since the
      state was entered. */
  lemma {:induction false} AwaitedInARow(frames: seq<Frame>, n: nat)
    requires n <= |frames| && (After(frames, n).state == SEARCH_END || After(frames, n).state == REACH_END)
    ensures var o, k := After(frames, n), Since(frames, n);
      && o.readings <= 4 && o.readings <= n - k
      && (forall j :: n - o.readings <= j < n ==> Awaited(o.state, frames[j]))
      && (o.readings < n - k ==> !Awaited(o.state, frames[n - o.readings - 1]))
  {
    hide Step, Awaited, ResetFires;
    RunSound(frames, n);
    if n > 0 {
      var o := After(frames, n - 1);
      RunSound(frames, n - 1);
      if o.state == After(frames, n).state {
        AwaitedInARow(frames, n - 1);
        StaysWithoutReset(o, frames[n - 1]);
        StepCounts(o, frames[n - 1]);
      } else {
        EntersWithNone(o, frames[n - 1]);
      }
    }
  }

  lemma StaysWithoutReset(o: Ovt, f: Frame)
    requires Step(o, f).state == SEARCH_END || Step(o, f).state == REACH_END
    ensures !ResetFires(o, f)
  {
    if ResetFires(o, f) {
      Reset(o, f);
    }
  }

  lemma EntersWithNone(o: Ovt, f: Frame)
    requires Sound(o) && Step(o, f).state != o.state
    requires Step(o, f).state == SEARCH_END || Step(o, f).state == REACH_END
    ensures Step(o, f).readings == 0
  {
    StaysWithoutReset(o, f);
    NoReset(o, f);
    ActEnters(ResetFsm(o, f), f);
    hide Act, ResetFsm, ResetFires;
  }

  lemma ActEnters(o: Ovt, f: Frame)
    requires Sound(o) && Act(o, f).state != o.state
    requires Act(o, f).state == SEARCH_END || Act(o, f).state == REACH_END
    ensures Act(o, f).readings == 0
  {
    hide Detected, EndInSight, RightClear, WayBack;
    match o.state
    case FREE_LANE =>
    case INIT_LEFT_SWITCH =>
    case LEFT_SWITCH =>
    case ADJUST_LEFT_SWITCH =>
    case SEARCH_END =>
    case REACH_END =>
    case COMPUTE_ANGLE =>
    case RIGHT_SWITCH =>
    case ADJUST_RIGHT_SWITCH =>
  }

  /** In every run the machine goes on from SEARCH_END to REACH_END, and from there to COMPUTE_ANGLE, exactly when
      no reset fires and the state has seen what it waits for in five frames in a row. */
  lemma FiveAwaitedIff(frames: seq<Frame>, n: nat)
    requires n < |frames| && (After(frames, n).state == SEARCH_END || After(frames, n).state == REACH_END)
    ensures var s := After(frames, n).state;
      After(frames, n + 1).state == (if s == SEARCH_END then REACH_END else COMPUTE_ANGLE) <==>
        && !ResetFires(After(frames, n), frames[n])
        && n >= Since(frames, n) + 4
        && forall j :: n - 4 <= j <= n ==> Awaited(s, frames[j])
  {
    hide Step, Awaited, ResetFires;
    var o := After(frames, n);
    AwaitedInARow(frames, n);
    if ResetFires(o, frames[n]) {
      Reset(o, frames[n]);
    } else {
      StepCounts(o, frames[n]);
      if n >= Since(frames, n) + 4 && o.readings < 4 {
        assert !Awaited(o.state, frames[n - o.readings - 1]);
      }
    }
  }

  lemma {:induction false} CountsUp(frames: seq<Frame>, n: nat, k: nat)
    requires k <= n < |frames|
    requires forall j :: k <= j <= n ==> After(frames, j).state == FREE_LANE && 0.0 <= frames[j].frontUs < 7.0
    ensures After(frames, n).readings >= n - k
    decreases n
  {
    hide Step;
    if k < n {
      CountsUp(frames, n - 1, k);
      assert Awaited(FREE_LANE, frames[n - 1]);
      StepCounts(After(frames, n - 1), frames[n - 1]);
    }
  }

  /** And in every run five front readings in [0, 7) in a row do start an overtake. */
  lemma FiveReadingsStart(frames: seq<Frame>, n: nat)
    requires 4 <= n < |frames|
    requires forall j :: n - 4 <= j <= n ==> After(frames, j).state == FREE_LANE && 0.0 <= frames[j].frontUs < 7.0
    ensures After(frames, n + 1).state == INIT_LEFT_SWITCH
  {
    hide Step;
    CountsUp(frames, n, n - 4);
    StepCounts(After(frames, n), frames[n]);
  }

  // ---------- Around the corner ----------

  /** The nearest the obstacle came on the right in frames `k` to `n`, at most seven metres. */
  function Nearest(frames: seq<Frame>, k: nat, n: nat): real
    requires k <= n <= |frames|
  {
    if n == k then 7.0
    else
      var d, m := frames[n - 1].frontRightUs, Nearest(frames, k, n - 1);
      if 0.0 < d < m then d else m
  }

  /** Readings beyond the nearest one since the last that saw nothing. */
  function Growing(frames: seq<Frame>, k: nat, n: nat): nat
    requires k <= n <= |frames|
  {
    if n == k || frames[n - 1].frontRightUs <= 0.0 then 0
    else Growing(frames, k, n - 1) + if frames[n - 1].frontRightUs > Nearest(frames, k, n - 1) then 1 else 0
  }

  lemma {:induction false} NearestIsPositive(frames: seq<Frame>, k: nat, n: nat)
    requires k <= n <= |frames|
    ensures 0.0 < Nearest(frames, k, n) <= 7.0
    ensures forall j :: k <= j < n && frames[j].frontRightUs > 0.0 ==> Nearest(frames, k, n) <= frames[j].frontRightUs
  {
    if k < n {
      NearestIsPositive(frames, k, n - 1);
    }
  }

  /** A frame in LEFT_SWITCH. */
  predicate Turns(o: Ovt, f: Frame, p: Ovt) {
    var d := f.frontRightUs;
    && p.state == (if d > o.minUs && o.readings >= 4 then ADJUST_LEFT_SWITCH else LEFT_SWITCH)
    && p.minUs == (if d < o.minUs && d > 0.0 then d else o.minUs)
    && (p.state == LEFT_SWITCH ==>
          p.readings == if d <= 0.0 then 0 else if d > o.minUs then o.readings + 1 else o.readings)
  }

  lemma StepTurns(o: Ovt, f: Frame)
    requires o.state == LEFT_SWITCH && o.minUs > 0.0 && !ResetFires(o, f)
    ensures Turns(o, f, Step(o, f))
  {
    NoReset(o, f);
    ActTurns(ResetFsm(o, f), f);
    hide Act, ResetFsm, ResetFires;
  }

  lemma ActTurns(o: Ovt, f: Frame)
    requires o.state == LEFT_SWITCH && o.minUs > 0.0
    ensures Turns(o, f, Act(o, f))
  {}

  lemma EntersTurn(o: Ovt, f: Frame)
    requires Sound(o) && (o.state == INIT_LEFT_SWITCH ==> o.minUs == 7.0)
    ensures Step(o, f).state == INIT_LEFT_SWITCH ==> Step(o, f).minUs == 7.0
    ensures Step(o, f).state == LEFT_SWITCH && o.state != LEFT_SWITCH ==>
      Step(o, f).minUs == 7.0 && Step(o, f).readings == 0
  {
    if ResetFires(o, f) {
      Reset(o, f);
    } else {
      NoReset(o, f);
      ActEntersTurn(ResetFsm(o, f), f);
    }
    hide Act, ResetFsm, ResetFires;
  }

  lemma ActEntersTurn(o: Ovt, f: Frame)
    requires Sound(o) && (o.state == INIT_LEFT_SWITCH ==> o.minUs == 7.0)
    ensures Act(o, f).state == INIT_LEFT_SWITCH ==> Act(o, f).minUs == 7.0
    ensures Act(o, f).state == LEFT_SWITCH && o.state != LEFT_SWITCH ==>
      Act(o, f).minUs == 7.0 && Act(o, f).readings == 0
  {
    hide Detected, EndInSight, RightClear, WayBack;
    match o.state
    case FREE_LANE =>
    case INIT_LEFT_SWITCH =>
    case LEFT_SWITCH =>
    case ADJUST_LEFT_SWITCH =>
    case SEARCH_END =>
    case REACH_END =>
    case COMPUTE_ANGLE =>
    case RIGHT_SWITCH =>
    case ADJUST_RIGHT_SWITCH =>
  }

  predicate Tracks(frames: seq<Frame>, n: nat)
    requires n <= |frames|
  {
    var o, k := After(frames, n), Since(frames, n);
    && (o.state == INIT_LEFT_SWITCH ==> o.minUs == 7.0)
    && (o.state == LEFT_SWITCH ==> o.minUs == Nearest(frames, k, n) && o.readings == Growing(frames, k, n))
  }

  lemma {:induction false} TurnTracked(frames: seq<Frame>, n: nat)
    requires n <= |frames|
    ensures Tracks(frames, n)
  {
    hide Step, ResetFires, Sound;
    if n > 0 {
      var o := After(frames, n - 1);
      TurnTracked(frames, n - 1);
      RunSound(frames, n - 1);
      EntersTurn(o, frames[n - 1]);
      if o.state == LEFT_SWITCH && After(frames, n).state == LEFT_SWITCH {
        NearestIsPositive(frames, Since(frames, n - 1), n - 1);
        if ResetFires(o, frames[n - 1]) {
          Reset(o, frames[n - 1]);
        } else {
          StepTurns(o, frames[n - 1]);
        }
      }
    }
  }

  /** In every run the corner is passed exactly when no reset fires and a fifth reading lies beyond the nearest
      one that the turn has seen, with none between them that saw nothing. */
  lemma CornerPassedIff(frames: seq<Frame>, n: nat)
    requires n < |frames| && After(frames, n).state == LEFT_SWITCH
    ensures After(frames, n + 1).state == ADJUST_LEFT_SWITCH <==>
      && !ResetFires(After(frames, n), frames[n])
      && frames[n].frontRightUs > Nearest(frames, Since(frames, n), n)
      && Growing(frames, Since(frames, n), n + 1) >= 5
  {
    hide Step, ResetFires;
    var o := After(frames, n);
    TurnTracked(frames, n);
    NearestIsPositive(frames, Since(frames, n), n);
    if ResetFires(o, frames[n]) {
      Reset(o, frames[n]);
    } else {
      StepTurns(o, frames[n]);
    }
  }

  // ---------- How long the angle is averaged ----------

  /** In every run COMPUTE_ANGLE is left, unless a reset fires, in the frame that brings the counter to five. */
  lemma AveragingEnds(frames: seq<Frame>, n: nat)
    requires n < |frames| && After(frames, n).state == COMPUTE_ANGLE
    ensures After(frames, n + 1).state == RIGHT_SWITCH <==>
      && !ResetFires(After(frames, n), frames[n])
      && After(frames, Since(frames, n)).averaged + (n + 1 - Since(frames, n)) >= 5
  {
    hide Step, ResetFires;
    var o := After(frames, n);
    AnglesAdded(frames, n);
    if ResetFires(o, frames[n]) {
      Reset(o, frames[n]);
    } else {
      StepAverages(o, frames[n]);
    }
  }

  lemma StepAverages(o: Ovt, f: Frame)
    requires o.state == COMPUTE_ANGLE && !ResetFires(o, f)
    ensures Step(o, f).state == RIGHT_SWITCH <==> o.averaged + 1 >= 5
  {}

  // ---------- When the reset fires ----------

  /** For how many frames the odometer has not changed; before the first frame it is zero. */
  function Still(frames: seq<Frame>, n: nat): nat
    requires n <= |frames|
  {
    if n == 0 then 0
    else if frames[n - 1].odometer == (if n == 1 then 0.0 else frames[n - 2].odometer) then Still(frames, n - 1) + 1
    else 0
  }

  lemma StepStands(o: Ovt, f: Frame)
    ensures Step(o, f).totalTraveled == f.odometer
    ensures Step(o, f).idle ==
      if f.odometer != o.totalTraveled then 0 else if o.idle + 1 >= 125 then 0 else o.idle + 1
  {
    ActKeeps(ResetFsm(o, f), f);
    hide Act;
  }

  lemma {:induction false} IdleIsStill(frames: seq<Frame>, n: nat)
    requires n <= |frames|
    ensures var o := After(frames, n);
      && o.totalTraveled == (if n == 0 then 0.0 else frames[n - 1].odometer)
      && o.idle == Still(frames, n) % 125
  {
    hide Step;
    if n > 0 {
      IdleIsStill(frames, n - 1);
      StepStands(After(frames, n - 1), frames[n - 1]);
    }
  }

  /** In every run the reset fires after every 125 frames in a row in which the odometer has not changed, and in
      no other frame. */
  lemma ResetIff(frames: seq<Frame>, n: nat)
    requires n < |frames|
    ensures ResetFires(After(frames, n), frames[n]) <==> Still(frames, n + 1) > 0 && Still(frames, n + 1) % 125 == 0
  {
    IdleIsStill(frames, n);
    Wraps(Still(frames, n));
    assert Still(frames, n + 1) ==
      if frames[n].odometer == After(frames, n).totalTraveled then Still(frames, n) + 1 else 0;
    hide After, Still;
  }

  lemma Wraps(s: nat)
    ensures (s + 1) % 125 == 0 <==> s % 125 + 1 >= 125
  {}
}
