/** What holds of the overtaker over whole runs. */
module OvertakerTheorems {
  import opened Overtaker

  /** The machine after the first `n` frames. */
  function After(frames: seq<Frame>, n: nat): Ovt
    requires n <= |frames|
  {
    if n == 0 then START else Step(After(frames, n - 1), frames[n - 1])
  }

  lemma AfterNext(frames: seq<Frame>, n: nat)
    requires n < |frames|
    ensures After(frames, n + 1) == Step(After(frames, n), frames[n])
  {
    hide Step;
  }

  /** No idle reset before frame `n` fired outside FREE_LANE. */
  predicate Undisturbed(frames: seq<Frame>, n: nat)
    requires n <= |frames|
  {
    || n == 0
    || (&& Undisturbed(frames, n - 1)
        && (ResetFires(After(frames, n - 1), frames[n - 1]) ==> After(frames, n - 1).state == FREE_LANE))
  }

  lemma {:induction false} UndisturbedBefore(frames: seq<Frame>, m: nat, n: nat)
    requires m <= n <= |frames| && Undisturbed(frames, n)
    ensures Undisturbed(frames, m)
  {
    if m < n {
      UndisturbedBefore(frames, m, n - 1);
    }
  }

  // ---------- Flags are a function of the state ----------

  predicate Overrides(p: Phase) {
    || p == INIT_LEFT_SWITCH || p == LEFT_SWITCH || p == ADJUST_LEFT_SWITCH
    || p == RIGHT_SWITCH || p == ADJUST_RIGHT_SWITCH
  }

  predicate OnLeftLane(p: Phase) {
    p == SEARCH_END || p == REACH_END || p == COMPUTE_ANGLE || p == RIGHT_SWITCH || p == ADJUST_RIGHT_SWITCH
  }

  predicate FlashesLeft(p: Phase) { p == INIT_LEFT_SWITCH || p == LEFT_SWITCH }

  predicate FlashesRight(p: Phase) { p == COMPUTE_ANGLE || p == RIGHT_SWITCH }

  predicate FlagsMatch(o: Ovt) {
    && o.overriding == Overrides(o.state)
    && o.leftLane == OnLeftLane(o.state)
    && o.control.flashLeft == FlashesLeft(o.state)
    && o.control.flashRight == FlashesRight(o.state)
  }

  /** The fixed cycle of the nine states. */
  function Successor(p: Phase): Phase {
    match p
    case FREE_LANE => INIT_LEFT_SWITCH
    case INIT_LEFT_SWITCH => LEFT_SWITCH
    case LEFT_SWITCH => ADJUST_LEFT_SWITCH
    case ADJUST_LEFT_SWITCH => SEARCH_END
    case SEARCH_END => REACH_END
    case REACH_END => COMPUTE_ANGLE
    case COMPUTE_ANGLE => RIGHT_SWITCH
    case RIGHT_SWITCH => ADJUST_RIGHT_SWITCH
    case ADJUST_RIGHT_SWITCH => FREE_LANE
  }

  predicate Counts(p: Phase) { p == FREE_LANE || p == LEFT_SWITCH || p == SEARCH_END || p == REACH_END }

  predicate Averaging(p: Phase) { p == COMPUTE_ANGLE || p == RIGHT_SWITCH || p == ADJUST_RIGHT_SWITCH }

  /** The flags, and the counters that a state must find at zero. */
  predicate Consistent(o: Ovt) {
    && FlagsMatch(o)
    && o.readings < NUM_OF_READINGS && (!Counts(o.state) ==> o.readings == 0)
    && (!Averaging(o.state) ==> o.averaged == 0 && o.recommendation == 0.0)
  }

  lemma StepConsistent(o: Ovt, f: Frame)
    requires Consistent(o) && (ResetFires(o, f) ==> o.state == FREE_LANE)
    ensures Consistent(Step(o, f))
    ensures Step(o, f).state == o.state || Step(o, f).state == Successor(o.state)
  {
    hide Act;
    ResetConsistent(o, f);
    ActConsistent(ResetFsm(o, f), f);
  }

  lemma ResetConsistent(o: Ovt, f: Frame)
    requires Consistent(o) && (ResetFires(o, f) ==> o.state == FREE_LANE)
    ensures Consistent(ResetFsm(o, f)) && ResetFsm(o, f).state == o.state
  {}

  lemma ActConsistent(o: Ovt, f: Frame)
    requires Consistent(o)
    ensures Consistent(Act(o, f))
    ensures Act(o, f).state == o.state || Act(o, f).state == Successor(o.state)
  {
    hide Detected, EndInSight, RightClear, WayBack;
    match o.state
    case FREE_LANE =>
    case INIT_LEFT_SWITCH =>
    case LEFT_SWITCH =>
    case ADJUST_LEFT_SWITCH =>
    case SEARCH_END =>
    case REACH_END =>
    case COMPUTE_ANGLE =>
    case RIGHT_SWITCH =>
    case ADJUST_RIGHT_SWITCH =>
  }

  /** In every undisturbed run the four flags are those of the state, and states follow the cycle. */
  lemma {:induction false} RunConsistent(frames: seq<Frame>, n: nat)
    requires n <= |frames| && Undisturbed(frames, n)
    ensures Consistent(After(frames, n))
    ensures forall i :: 0 <= i < n ==>
      || After(frames, i + 1).state == After(frames, i).state
      || After(frames, i + 1).state == Successor(After(frames, i).state)
  {
    hide Step, ResetFires;
    if n > 0 {
      RunConsistent(frames, n - 1);
      StepConsistent(After(frames, n - 1), frames[n - 1]);
    }
  }

  /** An idle reset outside FREE_LANE leaves flags behind that do not fit, except in one case: out of a left
      switch, on a frame that at once completes five readings and starts the next overtake. */
  lemma ResetBreaksFlags(o: Ovt, f: Frame)
    requires Consistent(o) && ResetFires(o, f) && o.state != FREE_LANE
    ensures FlagsMatch(Step(o, f)) <==> o.state == LEFT_SWITCH && o.readings == 4 && 0.0 <= f.frontUs < 7.0
  {
    var p := ResetFsm(o, f);
    assert p.state == FREE_LANE && p.readings == o.readings && p.overriding == o.overriding && p.leftLane == o.leftLane;
    assert p.control.flashLeft == o.control.flashLeft && p.control.flashRight == o.control.flashRight;
    hide ResetFsm;
  }

  // ---------- What every run keeps, disturbed or not ----------

  /** A reset leaves the counters alone; these facts about them survive it. */
  predicate Sound(o: Ovt) {
    && o.readings < NUM_OF_READINGS && (!Counts(o.state) ==> o.readings == 0)
    && (o.averaged == 0 ==> o.recommendation == 0.0)
  }

  /** How an overtake starts, and how readings are counted before. */
  predicate CountsOn(o: Ovt, f: Frame, p: Ovt) {
    && (p.state == INIT_LEFT_SWITCH && o.state != INIT_LEFT_SWITCH ==>
          Detected(f.frontUs, OVT_TRIGGER) && o.readings == 4 && (o.state == FREE_LANE || ResetFires(o, f)))
    && (p.state == FREE_LANE && p.readings != 0 ==>
          && Detected(f.frontUs, OVT_TRIGGER) && p.readings == o.readings + 1
          && (o.state == FREE_LANE || ResetFires(o, f)))
  }

  /** COMPUTE_ANGLE takes over what it finds, adds one angle a frame, and is left once five or more are counted. */
  predicate AveragesOn(o: Ovt, f: Frame, p: Ovt) {
    && (p.state == COMPUTE_ANGLE && o.state != COMPUTE_ANGLE ==>
          o.state == REACH_END && p.averaged == o.averaged && p.recommendation == o.recommendation)
    && (p.state == COMPUTE_ANGLE && o.state == COMPUTE_ANGLE ==>
          p.averaged == o.averaged + 1 < 5 && p.recommendation == o.recommendation + f.laneAngle)
    && (p.state == RIGHT_SWITCH && o.state == COMPUTE_ANGLE ==>
          o.averaged >= 4 && p.recommendation == (o.recommendation + f.laneAngle) / 5.0)
  }

  lemma ActSound(o: Ovt, f: Frame)
    requires Sound(o)
    ensures Sound(Act(o, f))
    ensures o.state != INIT_LEFT_SWITCH && Act(o, f).state == INIT_LEFT_SWITCH ==>
      o.state == FREE_LANE && Detected(f.frontUs, OVT_TRIGGER) && o.readings == 4
    ensures Act(o, f).state == FREE_LANE && Act(o, f).readings != 0 ==>
      o.state == FREE_LANE && Detected(f.frontUs, OVT_TRIGGER) && Act(o, f).readings == o.readings + 1
    ensures AveragesOn(o, f, Act(o, f))
  {
    hide Detected, EndInSight, RightClear, WayBack;
    match o.state
    case FREE_LANE =>
    case INIT_LEFT_SWITCH =>
    case LEFT_SWITCH =>
    case ADJUST_LEFT_SWITCH =>
    case SEARCH_END =>
    case REACH_END =>
    case COMPUTE_ANGLE =>
    case RIGHT_SWITCH =>
    case ADJUST_RIGHT_SWITCH =>
  }

  /** A reset forces FREE_LANE, or nothing happens but the counting of idle frames. */
  lemma ResetLeaves(o: Ovt, f: Frame)
    ensures var p := ResetFsm(o, f);
      && p.state == (if ResetFires(o, f) then FREE_LANE else o.state)
      && p.readings == o.readings && p.averaged == o.averaged && p.recommendation == o.recommendation
      && p.traveledPath == o.traveledPath
  {}

  /** From FREE_LANE one frame leads no further than to the start of an overtake. */
  lemma FreeStaysNear(o: Ovt, f: Frame)
    requires o.state == FREE_LANE
    ensures Act(o, f).state == FREE_LANE || Act(o, f).state == INIT_LEFT_SWITCH
  {}

  lemma StepSound(o: Ovt, f: Frame)
    requires Sound(o)
    ensures var p := Step(o, f); CountsOn(o, f, p) && AveragesOn(o, f, p)
    ensures Sound(Step(o, f))
  {
    var p := ResetFsm(o, f);
    ResetLeaves(o, f);
    ActSound(p, f);
    if p.state == FREE_LANE {
      FreeStaysNear(p, f);
    }
    hide Act, ResetFsm, ResetFires, Detected;
  }

  lemma {:induction false} RunSound(frames: seq<Frame>, n: nat)
    requires n <= |frames|
    ensures Sound(After(frames, n))
  {
    hide Step;
    if n > 0 {
      RunSound(frames, n - 1);
      StepSound(After(frames, n - 1), frames[n - 1]);
    }
  }

  /** An idle reset fires at frame `m`, outside FREE_LANE. */
  predicate StrayReset(frames: seq<Frame>, m: nat)
    requires m < |frames|
  {
    ResetFires(After(frames, m), frames[m]) && After(frames, m).state != FREE_LANE
  }

  lemma NoStrayReset(frames: seq<Frame>, m: nat, n: nat)
    requires m < n <= |frames| && Undisturbed(frames, n)
    ensures !StrayReset(frames, m)
  {
    hide ResetFires, Step;
    UndisturbedBefore(frames, m + 1, n);
  }

  // ---------- The mean of five angles ----------

  /** The frame from which on the current state has held. */
  function Since(frames: seq<Frame>, n: nat): (k: nat)
    requires n <= |frames|
    ensures k <= n
  {
    if n == 0 then 0
    else if After(frames, n).state == After(frames, n - 1).state then Since(frames, n - 1)
    else n
  }

  lemma {:induction false} SinceMeans(frames: seq<Frame>, n: nat)
    requires n <= |frames|
    ensures forall i :: Since(frames, n) <= i <= n ==> After(frames, i).state == After(frames, n).state
    ensures var k := Since(frames, n); k > 0 ==> After(frames, k - 1).state != After(frames, k).state
  {
    hide Step;
    if n > 0 {
      SinceMeans(frames, n - 1);
    }
  }

  function AngleSum(frames: seq<Frame>, a: nat, b: nat): real
    requires a <= b <= |frames|
  {
    if a == b then 0.0 else AngleSum(frames, a, b - 1) + frames[b - 1].laneAngle
  }

  lemma {:induction false} AnglesAdded(frames: seq<Frame>, n: nat)
    requires n <= |frames| && After(frames, n).state == COMPUTE_ANGLE
    ensures var o, k := After(frames, n), Since(frames, n);
      && o.averaged == After(frames, k).averaged + (n - k)
      && (k < n ==> o.averaged < 5)
      && o.recommendation == After(frames, k).recommendation + AngleSum(frames, k, n)
  {
    hide Step, Sound;
    if n > 0 && After(frames, n - 1).state == COMPUTE_ANGLE {
      var o := After(frames, n - 1);
      RunSound(frames, n - 1);
      StepSound(o, frames[n - 1]);
      assert After(frames, n) == Step(o, frames[n - 1]);
      AnglesAdded(frames, n - 1);
      hide After;
      assert Since(frames, n) == Since(frames, n - 1);
    } else {
      hide After;
      assert Since(frames, n) == n;
    }
  }

  /** In every run: RIGHT_SWITCH is entered after as many frames of COMPUTE_ANGLE as are missing to five at its
      entry, at least one, and recommends a fifth of what was left from before and of the angles seen. So these
      are exactly five angles, and the recommendation is their mean, if and only if the counter was zero at entry. */
  lemma AverageFromEntry(frames: seq<Frame>, n: nat)
    requires n < |frames|
    requires After(frames, n).state == COMPUTE_ANGLE && After(frames, n + 1).state == RIGHT_SWITCH
    ensures var k := Since(frames, n);
      var o := After(frames, k);
      && n + 1 - k == (if o.averaged < 5 then 5 - o.averaged else 1)
      && (n + 1 - k == 5 <==> o.averaged == 0)
      && After(frames, n + 1).recommendation == (o.recommendation + AngleSum(frames, k, n + 1)) / 5.0
      && (o.averaged == 0 ==> o.recommendation == 0.0)
  {
    hide Step;
    RunSound(frames, n);
    RunSound(frames, Since(frames, n));
    AnglesAdded(frames, n);
    StepSound(After(frames, n), frames[n]);
  }

  lemma FiveAngles(frames: seq<Frame>, k: nat)
    requires k + 5 <= |frames|
    ensures AngleSum(frames, k, k + 5) ==
      frames[k].laneAngle + frames[k + 1].laneAngle + frames[k + 2].laneAngle + frames[k + 3].laneAngle
      + frames[k + 4].laneAngle
  {
    assert AngleSum(frames, k, k + 1) == frames[k].laneAngle;
    assert AngleSum(frames, k, k + 2) == frames[k].laneAngle + frames[k + 1].laneAngle;
    assert AngleSum(frames, k, k + 3) == frames[k].laneAngle + frames[k + 1].laneAngle + frames[k + 2].laneAngle;
    assert AngleSum(frames, k, k + 4) == AngleSum(frames, k, k + 3) + frames[k + 3].laneAngle;
  }

  /** In undisturbed runs the counter is always zero there: on entering RIGHT_SWITCH the recommendation is the
      mean of the lane angles of exactly the five frames seen in COMPUTE_ANGLE. */
  lemma MeanOfFive(frames: seq<Frame>, n: nat)
    requires n < |frames| && Undisturbed(frames, n + 1)
    requires After(frames, n).state == COMPUTE_ANGLE && After(frames, n + 1).state == RIGHT_SWITCH
    ensures 5 <= n && After(frames, n - 5).state == REACH_END
    ensures forall i :: n - 4 <= i <= n ==> After(frames, i).state == COMPUTE_ANGLE
    ensures After(frames, n + 1).recommendation ==
      (frames[n - 4].laneAngle + frames[n - 3].laneAngle + frames[n - 2].laneAngle + frames[n - 1].laneAngle
       + frames[n].laneAngle) / 5.0
  {
    hide Step, ResetFires;
    var k := Since(frames, n);
    SinceMeans(frames, n);
    assert k > 0 by {
      assert After(frames, 0).state == FREE_LANE;
    }
    UndisturbedBefore(frames, k, n + 1);
    UndisturbedBefore(frames, k - 1, k);
    RunConsistent(frames, k - 1);
    RunSound(frames, k - 1);
    StepSound(After(frames, k - 1), frames[k - 1]);
    AverageFromEntry(frames, n);
    FiveAngles(frames, k);
  }

  // ---------- When an overtake starts ----------

  /** How far back the counted readings go: all of them were seen in front without a gap, or a stray reset at
      frame `m` turned readings of another kind into these. */
  lemma {:induction false} ReadingsRemembered(frames: seq<Frame>, n: nat) returns (m: nat)
    requires n <= |frames| && After(frames, n).state == FREE_LANE
    ensures m <= n && forall j :: m <= j < n ==> Detected(frames[j].frontUs, OVT_TRIGGER)
    ensures var r := After(frames, n).readings;
      r == n - m || (m < n && StrayReset(frames, m) && r == After(frames, m).readings + (n - m))
  {
    hide Step, ResetFires, Detected;
    m := n;
    if n > 0 {
      RunSound(frames, n - 1);
      StepSound(After(frames, n - 1), frames[n - 1]);
      if After(frames, n).readings != 0 {
        if After(frames, n - 1).state == FREE_LANE {
          m := ReadingsRemembered(frames, n - 1);
        } else {
          m := n - 1;
        }
      }
    }
  }

  /** In every run an overtake starts only on front readings in [0, 7) from some frame on without a gap. They are
      five; or fewer, with a stray reset at the first of them that left readings of another kind counted, which
      make them five. */
  lemma StartReadings(frames: seq<Frame>, n: nat) returns (m: nat)
    requires n < |frames|
    requires After(frames, n).state != INIT_LEFT_SWITCH && After(frames, n + 1).state == INIT_LEFT_SWITCH
    ensures m <= n && forall j :: m <= j <= n ==> 0.0 <= frames[j].frontUs < 7.0
    ensures n + 1 - m == 5 || (StrayReset(frames, m) && After(frames, m).readings + (n + 1 - m) == 5)
  {
    hide Step, ResetFires;
    RunSound(frames, n);
    StepSound(After(frames, n), frames[n]);
    if After(frames, n).state == FREE_LANE {
      m := ReadingsRemembered(frames, n);
    } else {
      m := n;
    }
  }

  /** In undisturbed runs an overtake starts only after five consecutive front readings in [0, 7). */
  lemma StartsAfterFive(frames: seq<Frame>, n: nat)
    requires n < |frames| && Undisturbed(frames, n + 1)
    requires After(frames, n).state == FREE_LANE && After(frames, n + 1).state == INIT_LEFT_SWITCH
    ensures n >= 4 && forall j :: n - 4 <= j <= n ==> 0.0 <= frames[j].frontUs < 7.0
  {
    hide Step, ResetFires, StrayReset;
    var m := StartReadings(frames, n);
    NoStrayReset(frames, m, n + 1);
  }

  // ---------- How far before the left lane is reached ----------

  ghost predicate Monotone(frames: seq<Frame>) {
    forall i, j :: 0 <= i <= j < |frames| ==> frames[i].odometer <= frames[j].odometer
  }

  /** An overtake starts at the step from `o` to `p`. */
  predicate Starts(o: Ovt, p: Ovt) { o.state != INIT_LEFT_SWITCH && p.state == INIT_LEFT_SWITCH }

  /** The odometer at the last start of an overtake. */
  function StartedAt(frames: seq<Frame>, n: nat): real
    requires n <= |frames|
  {
    if n == 0 then 0.0
    else if Starts(After(frames, n - 1), After(frames, n)) then frames[n - 1].odometer
    else StartedAt(frames, n - 1)
  }

  /** Where the machine stands if the overtake started at `start` and the odometer is at `now`. */
  predicate WayMeasured(o: Ovt, start: real, now: real) {
    && (o.state == INIT_LEFT_SWITCH ==> o.traveledPath == start)
    && (o.state == LEFT_SWITCH ==> now > start + INIT_LS_DIST)
    && (o.state == ADJUST_LEFT_SWITCH ==> o.traveledPath > start + INIT_LS_DIST)
  }

  lemma ActMeasures(o: Ovt, f: Frame, start: real, now: real)
    requires WayMeasured(o, start, now) && now <= f.odometer
    ensures var p := Act(o, f);
      && WayMeasured(p, if Starts(o, p) then f.odometer else start, f.odometer)
      && (p.state == SEARCH_END && o.state != SEARCH_END ==>
            o.state == ADJUST_LEFT_SWITCH && f.odometer > start + INIT_LS_DIST + ADJUST_L_S_DIST)
  {
    hide Detected, EndInSight, RightClear, WayBack;
    match o.state
    case FREE_LANE =>
    case INIT_LEFT_SWITCH =>
    case LEFT_SWITCH =>
    case ADJUST_LEFT_SWITCH =>
    case SEARCH_END =>
    case REACH_END =>
    case COMPUTE_ANGLE =>
    case RIGHT_SWITCH =>
    case ADJUST_RIGHT_SWITCH =>
  }

  lemma StepMeasures(o: Ovt, f: Frame, start: real, now: real)
    requires Sound(o) && WayMeasured(o, start, now) && now <= f.odometer
    ensures var p := Step(o, f);
      && WayMeasured(p, if Starts(o, p) then f.odometer else start, f.odometer)
      && (p.state == SEARCH_END && o.state != SEARCH_END ==>
            f.odometer > start + INIT_LS_DIST + ADJUST_L_S_DIST)
  {
    var r := ResetFsm(o, f);
    ResetLeaves(o, f);
    ActMeasures(r, f, start, now);
    ActSound(r, f);
    if r.state == FREE_LANE {
      FreeStaysNear(r, f);
    }
    hide Act, ResetFsm, ResetFires;
  }

  function OdometerAt(frames: seq<Frame>, n: nat): real
    requires n <= |frames|
  {
    if n == 0 then if frames == [] then 0.0 else frames[0].odometer else frames[n - 1].odometer
  }

  lemma {:induction false} RunMeasures(frames: seq<Frame>, n: nat)
    requires n <= |frames| && Monotone(frames)
    ensures WayMeasured(After(frames, n), StartedAt(frames, n), OdometerAt(frames, n))
  {
    hide Step;
    if n > 0 {
      hide WayMeasured, Sound;
      RunMeasures(frames, n - 1);
      RunSound(frames, n - 1);
      StepMeasures(After(frames, n - 1), frames[n - 1], StartedAt(frames, n - 1), OdometerAt(frames, n - 1));
    }
  }

  /** In every run, disturbed or not, SEARCH_END is entered only after the odometer advanced more than 3.0 + 3.6
      since the overtake started. */
  lemma SearchAfterDistance(frames: seq<Frame>, n: nat)
    requires n < |frames| && Monotone(frames)
    requires After(frames, n).state != SEARCH_END && After(frames, n + 1).state == SEARCH_END
    ensures frames[n].odometer > StartedAt(frames, n) + 3.0 + 3.6
  {
    hide Step, Sound;
    RunMeasures(frames, n);
    RunSound(frames, n);
    StepMeasures(After(frames, n), frames[n], StartedAt(frames, n), OdometerAt(frames, n));
  }

  // ---------- Standing still ----------

  function RunFrom(o: Ovt, frames: seq<Frame>): Ovt
    decreases |frames|
  {
    if frames == [] then o else RunFrom(Step(o, frames[0]), frames[1..])
  }

  predicate AtRest(o: Ovt) {
    o.state == FREE_LANE || (o.state == INIT_LEFT_SWITCH && o.traveledPath == o.totalTraveled)
  }

  lemma RestStays(o: Ovt, f: Frame)
    requires AtRest(o) && f.odometer == o.totalTraveled
    ensures AtRest(Step(o, f)) && Step(o, f).totalTraveled == o.totalTraveled
  {}

  lemma IdleCounts(o: Ovt, f: Frame)
    requires f.odometer == o.totalTraveled
    ensures Step(o, f).totalTraveled == o.totalTraveled
    ensures if o.idle + 1 >= MAX_IDLE_FRAMES then AtRest(Step(o, f)) else Step(o, f).idle == o.idle + 1
  {
    var p := ResetFsm(o, f);
    ActKeeps(p, f);
    if ResetFires(o, f) {
      ActFromFree(p, f);
    }
    hide Act;
  }

  lemma ActKeeps(o: Ovt, f: Frame)
    ensures Act(o, f).totalTraveled == o.totalTraveled && Act(o, f).idle == o.idle
  {
    hide Detected, EndInSight, RightClear, WayBack;
    match o.state
    case FREE_LANE =>
    case INIT_LEFT_SWITCH =>
    case LEFT_SWITCH =>
    case ADJUST_LEFT_SWITCH =>
    case SEARCH_END =>
    case REACH_END =>
    case COMPUTE_ANGLE =>
    case RIGHT_SWITCH =>
    case ADJUST_RIGHT_SWITCH =>
  }

  lemma ActFromFree(o: Ovt, f: Frame)
    requires o.state == FREE_LANE && o.totalTraveled == f.odometer
    ensures AtRest(Act(o, f))
  {}

  lemma {:induction false} RestPersists(o: Ovt, frames: seq<Frame>)
    requires forall i :: 0 <= i < |frames| ==> frames[i].odometer == o.totalTraveled
    requires AtRest(o) || o.idle + |frames| >= MAX_IDLE_FRAMES > o.idle
    ensures AtRest(RunFrom(o, frames))
    decreases |frames|
  {
    hide Step, AtRest;
    if frames != [] {
      var p := Step(o, frames[0]);
      IdleCounts(o, frames[0]);
      if AtRest(o) {
        RestStays(o, frames[0]);
      }
      RestPersists(p, frames[1..]);
    }
  }

  lemma StepIdle(o: Ovt, f: Frame)
    requires o.idle < MAX_IDLE_FRAMES
    ensures Step(o, f).idle < MAX_IDLE_FRAMES
  {
    ActKeeps(ResetFsm(o, f), f);
    hide Act;
  }

  lemma {:induction false} IdleBounded(frames: seq<Frame>, n: nat)
    requires n <= |frames|
    ensures After(frames, n).idle < MAX_IDLE_FRAMES
  {
    hide Step;
    if n > 0 {
      IdleBounded(frames, n - 1);
      StepIdle(After(frames, n - 1), frames[n - 1]);
    }
  }

  /** In every run, disturbed or not, 125 frames without odometer change leave the machine in FREE_LANE or
      just at the start of an overtake. */
  lemma StandingStillResets(frames: seq<Frame>, n: nat, still: seq<Frame>)
    requires n <= |frames| && |still| == MAX_IDLE_FRAMES
    requires forall i :: 0 <= i < |still| ==> still[i].odometer == After(frames, n).totalTraveled
    ensures var o := RunFrom(After(frames, n), still); o.state == FREE_LANE || o.state == INIT_LEFT_SWITCH
  {
    IdleBounded(frames, n);
    RestPersists(After(frames, n), still);
  }
}
