/** The overtaking state machine: one call per frame, driven by the odometer and four distance sensors. */
module Overtaker {

  const OVT_TRIGGER: real := 7.0
  const INIT_LS_DIST: real := 3.0
  const CORNER_DET_MARGIN: real := 0.0
  const ADJUST_L_S_DIST: real := 3.6
  const RIGHT_SWITCH_DIST: real := 4.0
  const ADJUST_R_S_DIST: real := 2.0
  const US_SENSOR_RANGE: real := 8.0
  const US_FRONT_RIGHT_RANGE: real := 3.0
  const IR_SENSOR_LIMIT: real := 7.0
  const NUM_OF_READINGS := 5
  const MAX_IDLE_FRAMES := 125

  datatype Phase =
    | FREE_LANE | INIT_LEFT_SWITCH | LEFT_SWITCH | ADJUST_LEFT_SWITCH | SEARCH_END
    | REACH_END | COMPUTE_ANGLE | RIGHT_SWITCH | ADJUST_RIGHT_SWITCH

  /** The sensor values, the odometer and the lane follower's angle of one frame. */
  datatype Frame = Frame(
    frontRightUs: real, frontUs: real, frontRightIr: real, rearRightIr: real, odometer: real, laneAngle: real)

  datatype Control = Control(speed: real, steering: real, flashLeft: bool, flashRight: bool)

  /** The fields of the overtaker. */
  datatype Ovt = Ovt(
    state: Phase, overriding: bool, leftLane: bool, control: Control, traveledPath: real, totalTraveled: real,
    readings: nat, idle: nat, averaged: nat, minUs: real, recommendation: real)

  const START := Ovt(FREE_LANE, false, false, Control(0.0, 0.0, false, false), 0.0, 0.0, 0, 0, 0, OVT_TRIGGER, 0.0)

  // ---------- The helpers ----------

  predicate Detected(value: real, range: real) { 0.0 <= value < range }

  function Steer(o: Ovt, angle: real): Ovt {
    o.(control := o.control.(steering := angle))
  }

  /** A reading that counts completes the five or adds to them; one that does not starts over. */
  function Counted(o: Ovt, counts: bool): (Ovt, bool) {
    if !counts then (o.(readings := 0), false)
    else if o.readings + 1 >= NUM_OF_READINGS then (o.(readings := 0), true)
    else (o.(readings := o.readings + 1), false)
  }

  predicate ResetFires(o: Ovt, f: Frame) {
    f.odometer == o.totalTraveled && o.idle + 1 >= MAX_IDLE_FRAMES
  }

  function ResetFsm(o: Ovt, f: Frame): Ovt {
    var p :=
      if ResetFires(o, f) then Steer(o, 0.0).(idle := 0, state := FREE_LANE)
      else if f.odometer == o.totalTraveled then o.(idle := o.idle + 1)
      else o.(idle := 0);
    p.(totalTraveled := f.odometer)
  }

  predicate EndInSight(f: Frame) {
    && !Detected(f.frontRightUs, US_FRONT_RIGHT_RANGE)
    && Detected(f.frontRightIr, IR_SENSOR_LIMIT) && Detected(f.rearRightIr, IR_SENSOR_LIMIT)
  }

  predicate RightClear(f: Frame) {
    && !Detected(f.frontRightUs, US_SENSOR_RANGE)
    && !Detected(f.frontRightIr, IR_SENSOR_LIMIT) && !Detected(f.rearRightIr, IR_SENSOR_LIMIT)
  }

  /** Steering left until the front-right sensor has seen the distance grow often enough. */
  function Corner(o: Ovt, f: Frame): (Ovt, bool) {
    var d := f.frontRightUs;
    if 0.0 < d <= o.minUs then (Steer(o, -0.5235).(minUs := d), false)
    else if d > 0.0 && d > o.minUs + CORNER_DET_MARGIN then
      var (p, done) := Counted(o, true);
      if done then (p, true) else (Steer(p, -0.5235), false)
    else (Steer(o, -0.5235).(readings := 0), false)
  }

  /** Distance and angle of the way back depend on the lane angle found. */
  function WayBack(recommendation: real): (real, real) {
    if recommendation > 0.1 then (RIGHT_SWITCH_DIST + 0.20, 0.5235)
    else if recommendation < -0.13 then (RIGHT_SWITCH_DIST - 0.15, 0.30)
    else (RIGHT_SWITCH_DIST, 0.5)
  }

  // ---------- One frame ----------

  function Act(o: Ovt, f: Frame): Ovt {
    match o.state
    case FREE_LANE =>
      var (p, found) := Counted(o, Detected(f.frontUs, OVT_TRIGGER));
      if found
      then p.(overriding := true, traveledPath := f.odometer, minUs := OVT_TRIGGER,
              control := p.control.(speed := 1.0, flashLeft := true), state := INIT_LEFT_SWITCH)
      else p
    case INIT_LEFT_SWITCH =>
      if f.odometer - o.traveledPath > INIT_LS_DIST then o.(state := LEFT_SWITCH) else Steer(o, -0.5235)
    case LEFT_SWITCH =>
      var (p, passed) := Corner(o, f);
      if passed
      then p.(traveledPath := f.odometer, control := p.control.(flashLeft := false), state := ADJUST_LEFT_SWITCH)
      else p
    case ADJUST_LEFT_SWITCH =>
      if f.odometer - o.traveledPath > ADJUST_L_S_DIST
      then Steer(o, 0.0).(overriding := false, leftLane := true, state := SEARCH_END)
      else Steer(o, 0.2)
    case SEARCH_END =>
      var (p, found) := Counted(o, EndInSight(f));
      if found then p.(state := REACH_END) else p
    case REACH_END =>
      var (p, clear) := Counted(o, RightClear(f));
      if clear
      then p.(traveledPath := f.odometer, control := p.control.(flashRight := true), state := COMPUTE_ANGLE)
      else p
    case COMPUTE_ANGLE =>
      var p := o.(averaged := o.averaged + 1, recommendation := o.recommendation + f.laneAngle);
      if p.averaged >= 5
      then p.(recommendation := p.recommendation / 5.0, overriding := true, state := RIGHT_SWITCH)
      else p
    case RIGHT_SWITCH =>
      var (distance, angle) := WayBack(o.recommendation);
      if f.odometer - o.traveledPath > distance
      then o.(traveledPath := f.odometer, control := o.control.(flashRight := false), state := ADJUST_RIGHT_SWITCH)
      else Steer(o, angle)
    case ADJUST_RIGHT_SWITCH =>
      var d := if o.recommendation < -0.13 then ADJUST_R_S_DIST else 0.0;
      if f.odometer - o.traveledPath > d
      then o.(overriding := false, averaged := 0, recommendation := 0.0, leftLane := false, state := FREE_LANE)
      else Steer(o, -0.5)
  }

  function Step(o: Ovt, f: Frame): Ovt {
    Act(ResetFsm(o, f), f)
  }

  class OvertakerObject {
    var state: Phase
    var isOverridingControls: bool
    var leftLane: bool
    var ovtControl: Control
    var traveledPath: real
    var totalTraveled: real
    var consecReadings: nat
    var idleFrameCounter: nat
    var averageCounter: nat
    var minUsFr: real
    var laneFollowerAngle: real
    var laneRecommendation: real

    ghost function State(): Ovt
      reads this
    {
      Ovt(state, isOverridingControls, leftLane, ovtControl, traveledPath,
          totalTraveled, consecReadings, idleFrameCounter, averageCounter, minUsFr, laneRecommendation)
    }

    constructor ()
      ensures State() == START
    {
      state := FREE_LANE;
      isOverridingControls, leftLane := false, false;
      ovtControl := Control(0.0, 0.0, false, false);
      traveledPath, totalTraveled := 0.0, 0.0;
      consecReadings, idleFrameCounter, averageCounter := 0, 0, 0;
      minUsFr := OVT_TRIGGER;
      laneFollowerAngle, laneRecommendation := 0.0, 0.0;
    }

    method SetLaneFollowerAngle(val: real)
      modifies this
      ensures State() == old(State()) && laneFollowerAngle == val
    {
      laneFollowerAngle := val;
    }

    method ResetFSM(f: Frame, lastTraveled: real, maxFrames: nat)
      requires lastTraveled == totalTraveled && maxFrames == MAX_IDLE_FRAMES
      modifies this
      ensures State() == ResetFsm(old(State()), f) && laneFollowerAngle == old(laneFollowerAngle)
    {
      var newTraveled := f.odometer;
      if newTraveled == lastTraveled {
        idleFrameCounter := idleFrameCounter + 1;
        if idleFrameCounter >= maxFrames {
          idleFrameCounter := 0;
          ovtControl := ovtControl.(steering := 0.0);
          state := FREE_LANE;
        }
      } else {
        idleFrameCounter := 0;
      }
      totalTraveled := newTraveled;
    }

    method CheckReadingsCounter() returns (reached: bool)
      modifies this
      ensures (State(), reached) == Counted(old(State()), true) && laneFollowerAngle == old(laneFollowerAngle)
    {
      consecReadings := consecReadings + 1;
      if consecReadings >= NUM_OF_READINGS {
        consecReadings := 0;
        return true;
      }
      return false;
    }

    /** The shared tail of isObstacleOnLane, detectEndOfObstacle and isRightLaneClear. */
    method CountReading(counts: bool) returns (reached: bool)
      modifies this
      ensures (State(), reached) == Counted(old(State()), counts) && laneFollowerAngle == old(laneFollowerAngle)
    {
      reached := false;
      if counts {
        reached := CheckReadingsCounter();
      } else {
        consecReadings := 0;
      }
    }

    method CornerDetection(f: Frame) returns (passed: bool)
      modifies this
      ensures (State(), passed) == Corner(old(State()), f) && laneFollowerAngle == old(laneFollowerAngle)
    {
      var frontRightUsSensor := f.frontRightUs;
      if frontRightUsSensor <= minUsFr && frontRightUsSensor > 0.0 {
        minUsFr := frontRightUsSensor;
      } else if frontRightUsSensor > 0.0 && frontRightUsSensor > minUsFr + CORNER_DET_MARGIN {
        var reached := CheckReadingsCounter();
        if reached {
          return true;
        }
      } else {
        consecReadings := 0;
      }
      ovtControl := ovtControl.(steering := -0.5235);
      return false;
    }

    /** turnLeft, adjustLeftSwitch, switchToRightLane and adjustRightSwitch: steer until far enough. */
    method SteerFor(f: Frame, angle: real, distance: real) returns (done: bool)
      modifies this
      ensures done == (f.odometer - old(traveledPath) > distance)
      ensures State() == if done then old(State()) else Steer(old(State()), angle)
      ensures laneFollowerAngle == old(laneFollowerAngle)
    {
      var traveled := f.odometer - traveledPath;
      if traveled > distance {
        return true;
      }
      ovtControl := ovtControl.(steering := angle);
      return false;
    }

    method ComputeLaneAngle(val: real) returns (done: bool)
      modifies this
      ensures done == (averageCounter >= 5)
      ensures State() ==
        var sum := old(laneRecommendation) + val;
        old(State()).(averaged := old(averageCounter) + 1, recommendation := if done then sum / 5.0 else sum)
      ensures laneFollowerAngle == old(laneFollowerAngle)
    {
      averageCounter := averageCounter + 1;
      laneRecommendation := laneRecommendation + val;
      if averageCounter >= 5 {
        laneRecommendation := laneRecommendation / 5.0;
        return true;
      }
      return false;
    }

    method ObstacleDetection(f: Frame)
      requires laneFollowerAngle == f.laneAngle
      modifies this
      ensures State() == Step(old(State()), f)
    {
      hide Act, ResetFsm;
      ResetFSM(f, totalTraveled, MAX_IDLE_FRAMES);
      match state {
        case FREE_LANE | INIT_LEFT_SWITCH => StartOvertake(f);
        case LEFT_SWITCH | ADJUST_LEFT_SWITCH => SwitchLeft(f);
        case SEARCH_END | REACH_END | COMPUTE_ANGLE => PassObstacle(f);
        case RIGHT_SWITCH | ADJUST_RIGHT_SWITCH => SwitchRight(f);
      }
    }

    method StartOvertake(f: Frame)
      requires state == FREE_LANE || state == INIT_LEFT_SWITCH
      modifies this
      ensures State() == Act(old(State()), f)
    {
      hide Corner, Counted, Detected, EndInSight, RightClear, WayBack;
      match state {
        case FREE_LANE =>
          var found := CountReading(Detected(f.frontUs, OVT_TRIGGER));
          if found {
            isOverridingControls := true;
            traveledPath := f.odometer;
            minUsFr := OVT_TRIGGER;
            ovtControl := ovtControl.(speed := 1.0);
            ovtControl := ovtControl.(flashLeft := true);
            state := INIT_LEFT_SWITCH;
          }
        case INIT_LEFT_SWITCH =>
          var done := SteerFor(f, -0.5235, INIT_LS_DIST);
          if done {
            state := LEFT_SWITCH;
          }
      }
    }

    method SwitchLeft(f: Frame)
      requires state == LEFT_SWITCH || state == ADJUST_LEFT_SWITCH
      modifies this
      ensures State() == Act(old(State()), f)
    {
      hide Corner, Counted, Detected, EndInSight, RightClear, WayBack;
      match state {
        case LEFT_SWITCH =>
          var passed := CornerDetection(f);
          if passed {
            traveledPath := f.odometer;
            ovtControl := ovtControl.(flashLeft := false);
            state := ADJUST_LEFT_SWITCH;
          }
        case ADJUST_LEFT_SWITCH =>
          var done := SteerFor(f, 0.2, ADJUST_L_S_DIST);
          if done {
            ovtControl := ovtControl.(steering := 0.0);
            isOverridingControls := false;
            leftLane := true;
            state := SEARCH_END;
          }
      }
    }

    method PassObstacle(f: Frame)
      requires state == SEARCH_END || state == REACH_END || state == COMPUTE_ANGLE
      requires laneFollowerAngle == f.laneAngle
      modifies this
      ensures State() == Act(old(State()), f)
    {
      hide Counted, EndInSight, RightClear, Corner, WayBack, Detected;
      match state {
        case SEARCH_END =>
          var found := CountReading(EndInSight(f));
          if found {
            state := REACH_END;
          }
        case REACH_END =>
          var clear := CountReading(RightClear(f));
          if clear {
            traveledPath := f.odometer;
            ovtControl := ovtControl.(flashRight := true);
            state := COMPUTE_ANGLE;
          }
        case COMPUTE_ANGLE =>
          var done := ComputeLaneAngle(laneFollowerAngle);
          if done {
            isOverridingControls := true;
            state := RIGHT_SWITCH;
          }
      }
    }

    method SwitchRight(f: Frame)
      requires state == RIGHT_SWITCH || state == ADJUST_RIGHT_SWITCH
      modifies this
      ensures State() == Act(old(State()), f)
    {
      hide Counted, Corner, Detected, EndInSight, RightClear;
      match state {
        case RIGHT_SWITCH =>
          var distanceToCover, steeringAngle;
          if laneRecommendation > 0.1 {
            distanceToCover, steeringAngle := RIGHT_SWITCH_DIST + 0.20, 0.5235;
          } else if laneRecommendation < -0.13 {
            distanceToCover, steeringAngle := RIGHT_SWITCH_DIST - 0.15, 0.30;
          } else {
            distanceToCover, steeringAngle := RIGHT_SWITCH_DIST, 0.5;
          }
          var done := SteerFor(f, steeringAngle, distanceToCover);
          if done {
            traveledPath := f.odometer;
            ovtControl := ovtControl.(flashRight := false);
            state := ADJUST_RIGHT_SWITCH;
          }
        case ADJUST_RIGHT_SWITCH =>
          var d := 0.0;
          if laneRecommendation < -0.13 {
            d := ADJUST_R_S_DIST;
          }
          var done := SteerFor(f, -0.5, d);
          if done {
            isOverridingControls := false;
            averageCounter := 0;
            laneRecommendation := 0.0;
            leftLane := false;
            state := FREE_LANE;
          }
      }
    }
  }
}
