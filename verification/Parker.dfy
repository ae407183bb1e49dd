/** The parking machine: looking for a gap, then backing into it phase by phase. */
module Parker {

  const SPOT_SIZE: real := 0.60
  const ADJUST_BEFORE_PARKING: real := 0.20
  const BACK_AROUND_CORNER: real := 0.56
  const BACKING_STRAIGHT: real := 0.00
  const PARALLEL_IN_SPOT: real := 0.66
  const SENSOR_SAFETY_MIN: real := 0.04
  const SENSOR_SAFETY_MAX: real := 0.06
  const IRSENSOR_DISTANCE_MIN: real := 0.05
  const IRSENSOR_DISTANCE_MAX: real := 0.25
  const SENSORS_IN_SPOT: real := 0.19
  const ENOUGH_SPACE_DISTANCE: real := 1.05
  const SENSOR_DIFFERENCE_INBETWEEN: real := 0.15
  const SENSOR_DIFFERENCE_NO_FRONT: real := 0.15
  const DISTANCE_FROM_BACK_OBJECT: real := 0.08
  const OCCURRENCE := 3
  const CURVE_FRAMES := 30

  datatype Search = FINDOBJECT | FINDGAPSTART | FINDGAPEND | CHECKSPACE

  datatype Phase = PHASE0 | PHASE1 | PHASE2 | PHASE3 | PHASE4 | SAFETYSTOP

  datatype Frame = Frame(
    frontRightIr: real, rearIr: real, rearRightIr: real, frontUs: real, frontRightUs: real, odometer: real)

  datatype Control = Control(speed: real, steering: real, brakeLights: bool)

  /** What the search for a spot has found so far. */
  datatype Hunt = Hunt(
    search: Search, gapStart: real, gapEnd: real, isSpot: bool, objInFront: bool, turning: nat)

  /** How far the parking has come. */
  datatype Backing = Backing(
    phase: Phase, carPosition: real, isParked: bool, control: Control, reversing: bool, isCloseToBack: bool)

  /** How far the return to the lane has come. */
  datatype Leaving = Leaving(outOfSpot: bool, resume: bool, resumeFrom: real)

  /** All the state of the parker: its fields and the three variables of its file. Every part of it counts its
      readings with `expected`. */
  datatype Parking = Parking(hunt: Hunt, backing: Backing, leaving: Leaving, expected: nat, isInSpot: bool)

  const START := Parking(
    Hunt(FINDOBJECT, 0.0, 0.0, false, false, 0),
    Backing(PHASE0, 0.0, false, Control(0.0, 0.0, false), false, false),
    Leaving(false, false, 0.0), 0, false)

  // ---------- Looking for a spot ----------

  predicate SeesObject(d: real) { IRSENSOR_DISTANCE_MIN < d < IRSENSOR_DISTANCE_MAX }

  predicate SeesGap(d: real) { d < IRSENSOR_DISTANCE_MIN || d > IRSENSOR_DISTANCE_MAX }

  /** Readings must agree in a row. */
  function Counted(expected: nat, counts: bool): nat { if counts then expected + 1 else 0 }

  predicate InCurve(steering: real) { steering > 0.42 || steering < -0.42 }

  /** Thirty frames of steering hard are a curve: the search starts over. */
  function WatchCurve(h: Hunt, steering: real): Hunt {
    if !InCurve(steering) then h.(turning := 0)
    else if h.turning + 1 == CURVE_FRAMES then h.(search := FINDOBJECT, turning := 0)
    else h.(turning := h.turning + 1)
  }

  function FindObject(p: Parking, f: Frame): Parking {
    var n, h := Counted(p.expected, SeesObject(f.rearRightIr)), p.hunt.(isSpot := false);
    if n == OCCURRENCE then p.(expected := 0, hunt := h.(search := FINDGAPSTART)) else p.(expected := n, hunt := h)
  }

  function FindGapStart(p: Parking, f: Frame): Parking {
    var n := Counted(p.expected, SeesGap(f.rearRightIr));
    if n == OCCURRENCE then p.(expected := 0, hunt := p.hunt.(gapStart := f.odometer, search := FINDGAPEND))
    else p.(expected := n)
  }

  function FindClosingObject(p: Parking, f: Frame): Parking {
    var n := Counted(p.expected, SeesObject(f.rearRightIr));
    if n == OCCURRENCE
    then p.(expected := 0, hunt := p.hunt.(gapEnd := f.odometer, objInFront := true, search := CHECKSPACE))
    else p.(expected := n)
  }

  function FindGapEnd(p: Parking, f: Frame): Parking {
    if f.odometer > p.hunt.gapStart + ENOUGH_SPACE_DISTANCE then
      p.(expected := 0, hunt := p.hunt.(objInFront := false, isSpot := true),
         backing := p.backing.(carPosition := f.odometer, phase := PHASE1))
    else FindClosingObject(p, f)
  }

  function EnoughSpace(p: Parking): Parking {
    if p.hunt.gapEnd - p.hunt.gapStart > SPOT_SIZE
    then p.(hunt := p.hunt.(isSpot := true), backing := p.backing.(phase := PHASE0))
    else p.(hunt := p.hunt.(search := FINDOBJECT))
  }

  function SeekSpot(p: Parking, f: Frame): Parking {
    match p.hunt.search
    case FINDOBJECT => FindObject(p, f)
    case FINDGAPSTART => FindGapStart(p, f)
    case FINDGAPEND => FindGapEnd(p, f)
    case CHECKSPACE => EnoughSpace(p)
  }

  function FindSpot(p: Parking, f: Frame, steering: real): Parking {
    SeekSpot(p.(hunt := WatchCurve(p.hunt, steering)), f)
  }

  // ---------- Backing into it ----------

  predicate TooClose(d: real) { SENSOR_SAFETY_MIN < d < SENSOR_SAFETY_MAX }

  predicate NotSafe(f: Frame) {
    || TooClose(f.frontRightUs) || TooClose(f.frontUs)
    || TooClose(f.rearIr) || TooClose(f.rearRightIr) || TooClose(f.frontRightIr)
  }

  predicate SensorsClear(f: Frame) { SeesGap(f.frontRightUs) && SeesGap(f.frontRightIr) && SeesGap(f.rearRightIr) }

  function CheckIfInSpot(p: Parking, f: Frame): Parking {
    var n := Counted(p.expected, SensorsClear(f));
    p.(expected := n, isInSpot := p.isInSpot || n == 3)
  }

  function SafetyCheck(p: Parking, f: Frame): Parking {
    if p.isInSpot || p.backing.phase == PHASE0 then p
    else
      var q := CheckIfInSpot(p, f);
      if NotSafe(f) then q.(backing := q.backing.(phase := SAFETYSTOP)) else q
  }

  function AdjustBeforeParking(b: Backing, f: Frame, gapEnd: real): Backing {
    if gapEnd + ADJUST_BEFORE_PARKING > f.odometer then b.(control := Control(1.0, 0.0, false))
    else if gapEnd + ADJUST_BEFORE_PARKING < f.odometer then
      b.(control := b.control.(speed := 0.0, brakeLights := true), phase := PHASE1, carPosition := f.odometer)
    else b
  }

  function BackAroundCorner(b: Backing, f: Frame): Backing {
    var c := b.(reversing := true);
    if b.carPosition + BACK_AROUND_CORNER > f.odometer then c.(control := Control(-1.0, 0.5, false))
    else if b.carPosition + BACK_AROUND_CORNER < f.odometer then
      c.(control := b.control.(speed := 0.0, steering := 0.0),
         carPosition := b.carPosition + BACK_AROUND_CORNER, phase := PHASE2)
    else c
  }

  function BackStraight(b: Backing, f: Frame): Backing {
    if b.carPosition + BACKING_STRAIGHT > f.odometer then b.(control := Control(-1.0, 0.0, false))
    else if b.carPosition + BACKING_STRAIGHT < f.odometer then
      b.(control := b.control.(steering := -0.5), carPosition := b.carPosition + BACKING_STRAIGHT, phase := PHASE3)
    else b
  }

  /** Backwards until something is close behind, then forwards until something is close in front. */
  function Shuffle(b: Backing, f: Frame): Backing {
    var c :=
      if f.rearIr > SENSORS_IN_SPOT && !b.isCloseToBack
      then b.(reversing := true, control := Control(-1.0, -0.5, false))
      else b.(isCloseToBack := true);
    if f.frontUs > SENSORS_IN_SPOT && c.isCloseToBack
    then c.(reversing := false, control := Control(1.0, 0.5, false))
    else c.(isCloseToBack := false)
  }

  function GetParallel(b: Backing, f: Frame): Backing {
    if b.carPosition + PARALLEL_IN_SPOT > f.odometer then Shuffle(b, f)
    else if b.carPosition + PARALLEL_IN_SPOT < f.odometer then b.(control := Control(0.0, 0.0, true), phase := PHASE4)
    else b
  }

  datatype Place = InPlace | TooFarBack | TooFarFront | Undecided

  function Abs(x: real): real { if x < 0.0 then -x else x }

  /** Between two objects the car wants to be in the middle; with nothing in front it looks behind only. */
  function PlaceInSpot(f: Frame, objInFront: bool): Place {
    if objInFront then
      if Abs(f.frontUs - f.rearIr) < SENSOR_DIFFERENCE_INBETWEEN then InPlace
      else if f.frontUs > f.rearIr then TooFarBack
      else if f.frontUs < f.rearIr then TooFarFront
      else Undecided
    else
      if f.rearIr > SENSOR_DIFFERENCE_NO_FRONT then InPlace
      else if DISTANCE_FROM_BACK_OBJECT > f.rearIr then TooFarBack
      else if DISTANCE_FROM_BACK_OBJECT < f.rearIr then TooFarFront
      else Undecided
  }

  function MidOfSpot(b: Backing, f: Frame, place: Place): Backing {
    match place
    case InPlace =>
      b.(control := b.control.(speed := 0.0, brakeLights := true),
         carPosition := f.odometer, isParked := true, reversing := false)
    case TooFarBack => b.(control := b.control.(speed := 1.0), reversing := false)
    case TooFarFront => b.(control := b.control.(speed := -1.0), reversing := true)
    case Undecided => b
  }

  function Stop(b: Backing): Backing { b.(control := b.control.(speed := 0.0)) }

  /** One phase: what becomes of `backing` is all it changes, but for the count that creeping starts over. */
  function BackOnce(b: Backing, f: Frame, gapEnd: real, objInFront: bool): Backing {
    match b.phase
    case PHASE0 => AdjustBeforeParking(b, f, gapEnd)
    case PHASE1 => BackAroundCorner(b, f)
    case PHASE2 => BackStraight(b, f)
    case PHASE3 => GetParallel(b, f)
    case PHASE4 => MidOfSpot(b.(carPosition := f.odometer), f, PlaceInSpot(f, objInFront))
    case SAFETYSTOP => Stop(b)
  }

  predicate Creeps(b: Backing, f: Frame, objInFront: bool) {
    b.phase == PHASE4 && (PlaceInSpot(f, objInFront).TooFarBack? || PlaceInSpot(f, objInFront).TooFarFront?)
  }

  function ParallelPark(p: Parking, f: Frame): Parking {
    var q := SafetyCheck(p, f);
    q.(backing := BackOnce(q.backing, f, q.hunt.gapEnd, q.hunt.objInFront),
       expected := if Creeps(q.backing, f, q.hunt.objInFront) then 0 else q.expected)
  }

  // ---------- Returning to the lane ----------

  function GoBackToLane(p: Parking, f: Frame, add: real): Parking {
    if p.leaving.resume then
      if p.leaving.resumeFrom + add > f.odometer then
        p.(backing := p.backing.(control := p.backing.control.(speed := 1.0, steering := -0.5), reversing := false))
      else p.(leaving := p.leaving.(outOfSpot := true), isInSpot := false)
    else if f.rearIr > IRSENSOR_DISTANCE_MIN then
      p.(backing := p.backing.(control := p.backing.control.(speed := -1.0), reversing := true),
         leaving := p.leaving.(resumeFrom := f.odometer))
    else p.(leaving := p.leaving.(resume := true))
  }

  // ---------- The code ----------

  class ParkerObject {
    var search: Search
    var phase: Phase
    var carPosition: real
    var gapStart: real
    var gapEnd: real
    var isSpot: bool
    var isParked: bool
    var expectedValue: nat
    var controlTemp: Control
    var objInFront: bool
    var turningCounter: nat
    var reversing: bool
    var outOfSpot: bool
    var isInSpot: bool
    var isCloseToBack: bool
    var resume: bool
    var tempCarPosition: real

    ghost function BackingState(): Backing
      reads this
    {
      Backing(phase, carPosition, isParked, controlTemp, reversing, isCloseToBack)
    }

    ghost function HuntState(): Hunt
      reads this
    {
      Hunt(search, gapStart, gapEnd, isSpot, objInFront, turningCounter)
    }

    ghost function State(): Parking
      reads this
    {
      Parking(HuntState(), BackingState(), Leaving(outOfSpot, resume, tempCarPosition), expectedValue, isInSpot)
    }

    constructor ()
      ensures State() == START
    {
      search, phase := FINDOBJECT, PHASE0;
      carPosition, gapStart, gapEnd, tempCarPosition := 0.0, 0.0, 0.0, 0.0;
      isSpot, isParked, objInFront, reversing, outOfSpot, isInSpot := false, false, false, false, false, false;
      isCloseToBack, resume := false, false;
      expectedValue, turningCounter := 0, 0;
      controlTemp := Control(0.0, 0.0, false);
    }

    /** Everything but the fields of the backing stays as it was. */
    twostate predicate OnlyBacks()
      reads this
    {
      State() == old(State()).(backing := BackingState())
    }

    method FindSpotFrame(f: Frame, dmSteering: real)
      modifies this
      ensures State() == FindSpot(old(State()), f, dmSteering)
    {
      hide FindObject, FindGapStart, FindGapEnd, EnoughSpace;
      if dmSteering > 0.42 || dmSteering < -0.42 {
        turningCounter := turningCounter + 1;
        if turningCounter == CURVE_FRAMES {
          search := FINDOBJECT;
          turningCounter := 0;
        }
      } else {
        turningCounter := 0;
      }
      assert State() == old(State()).(hunt := WatchCurve(old(State()).hunt, dmSteering));
      match search {
        case FINDOBJECT => FindObjectFrame(f);
        case FINDGAPSTART => FindGapStartFrame(f);
        case FINDGAPEND => FindGapEndFrame(f);
        case CHECKSPACE => CheckSpace();
      }
    }

    method CountReading(counts: bool)
      modifies this`expectedValue
      ensures expectedValue == Counted(old(expectedValue), counts)
    {
      if counts {
        expectedValue := expectedValue + 1;
      } else {
        expectedValue := 0;
      }
    }

    method FindObjectFrame(f: Frame)
      modifies this
      ensures State() == FindObject(old(State()), f)
    {
      isSpot := false;
      CountReading(f.rearRightIr > IRSENSOR_DISTANCE_MIN && f.rearRightIr < IRSENSOR_DISTANCE_MAX);
      if expectedValue == OCCURRENCE {
        expectedValue := 0;
        search := FINDGAPSTART;
      }
    }

    method FindGapStartFrame(f: Frame)
      modifies this
      ensures State() == FindGapStart(old(State()), f)
    {
      CountReading(f.rearRightIr < IRSENSOR_DISTANCE_MIN || f.rearRightIr > IRSENSOR_DISTANCE_MAX);
      if expectedValue == OCCURRENCE {
        gapStart := f.odometer;
        expectedValue := 0;
        search := FINDGAPEND;
      }
    }

    method FindGapEndFrame(f: Frame)
      modifies this
      ensures State() == FindGapEnd(old(State()), f)
    {
      hide FindClosingObject;
      if f.odometer > gapStart + ENOUGH_SPACE_DISTANCE {
        expectedValue := 0;
        objInFront := false;
        isSpot := true;
        carPosition := f.odometer;
        phase := PHASE1;
      } else {
        FindClosingObjectFrame(f);
      }
    }

    method FindClosingObjectFrame(f: Frame)
      modifies this
      ensures State() == FindClosingObject(old(State()), f)
    {
      CountReading(f.rearRightIr > IRSENSOR_DISTANCE_MIN && f.rearRightIr < IRSENSOR_DISTANCE_MAX);
      if expectedValue == OCCURRENCE {
        gapEnd := f.odometer;
        expectedValue := 0;
        objInFront := true;
        search := CHECKSPACE;
      }
    }

    method CheckSpace()
      modifies this
      ensures State() == EnoughSpace(old(State()))
    {
      if gapEnd - gapStart > SPOT_SIZE {
        isSpot := true;
        phase := PHASE0;
      } else {
        search := FINDOBJECT;
      }
    }

    method ParallelParkFrame(f: Frame) returns (vc: Control)
      modifies this
      ensures State() == ParallelPark(old(State()), f) && vc == State().backing.control
    {
      hide NotSafe, CheckIfInSpot;
      hide AdjustBeforeParking, BackAroundCorner, BackStraight, GetParallel, MidOfSpot, PlaceInSpot;
      if !isInSpot && phase != PHASE0 {
        CheckIfInSpotFrame(f);
        if NotSafe(f) {
          phase := SAFETYSTOP;
        }
      }
      assert State() == SafetyCheck(old(State()), f);
      match phase {
        case PHASE0 => AdjustFrame(f);
        case PHASE1 => BackAroundCornerFrame(f);
        case PHASE2 => BackStraightFrame(f);
        case PHASE3 => GetParallelFrame(f);
        case PHASE4 =>
          carPosition := f.odometer;
          MidOfSpotFrame(f);
        case SAFETYSTOP => controlTemp := controlTemp.(speed := 0.0);
      }
      vc := controlTemp;
    }

    method CheckIfInSpotFrame(f: Frame)
      modifies this
      ensures State() == CheckIfInSpot(old(State()), f)
    {
      CountReading(SeesGap(f.frontRightUs) && SeesGap(f.frontRightIr) && SeesGap(f.rearRightIr));
      if expectedValue == 3 {
        isInSpot := true;
      }
    }

    method AdjustFrame(f: Frame)
      modifies this
      ensures OnlyBacks() && BackingState() == AdjustBeforeParking(old(BackingState()), f, gapEnd)
    {
      if gapEnd + ADJUST_BEFORE_PARKING > f.odometer {
        controlTemp := Control(1.0, 0.0, false);
      } else if gapEnd + ADJUST_BEFORE_PARKING < f.odometer {
        controlTemp := controlTemp.(speed := 0.0, brakeLights := true);
        phase := PHASE1;
        carPosition := f.odometer;
      }
    }

    method BackAroundCornerFrame(f: Frame)
      modifies this
      ensures OnlyBacks() && BackingState() == BackAroundCorner(old(BackingState()), f)
    {
      reversing := true;
      if carPosition + BACK_AROUND_CORNER > f.odometer {
        controlTemp := Control(-1.0, 0.5, false);
      } else if carPosition + BACK_AROUND_CORNER < f.odometer {
        controlTemp := controlTemp.(speed := 0.0, steering := 0.0);
        carPosition := carPosition + BACK_AROUND_CORNER;
        phase := PHASE2;
      }
    }

    method BackStraightFrame(f: Frame)
      modifies this
      ensures OnlyBacks() && BackingState() == BackStraight(old(BackingState()), f)
    {
      if carPosition + BACKING_STRAIGHT > f.odometer {
        controlTemp := Control(-1.0, 0.0, false);
      } else if carPosition + BACKING_STRAIGHT < f.odometer {
        controlTemp := controlTemp.(steering := -0.5);
        carPosition := carPosition + BACKING_STRAIGHT;
        phase := PHASE3;
      }
    }

    method GetParallelFrame(f: Frame)
      modifies this
      ensures OnlyBacks() && BackingState() == GetParallel(old(BackingState()), f)
    {
      if carPosition + PARALLEL_IN_SPOT > f.odometer {
        if f.rearIr > SENSORS_IN_SPOT && !isCloseToBack {
          reversing := true;
          controlTemp := Control(-1.0, -0.5, false);
        } else {
          isCloseToBack := true;
        }
        if f.frontUs > SENSORS_IN_SPOT && isCloseToBack {
          reversing := false;
          controlTemp := Control(1.0, 0.5, false);
        } else {
          isCloseToBack := false;
        }
      } else if carPosition + PARALLEL_IN_SPOT < f.odometer {
        controlTemp := Control(0.0, 0.0, true);
        phase := PHASE4;
      }
    }

    method MidOfSpotFrame(f: Frame)
      modifies this
      ensures var place := PlaceInSpot(f, objInFront);
        && BackingState() == MidOfSpot(old(BackingState()), f, place)
        && State() == old(State()).(backing := BackingState(),
             expected := if place.TooFarBack? || place.TooFarFront? then 0 else old(expectedValue))
    {
      var inPlace, tooFarBack, tooFarFront;
      if objInFront {
        inPlace := Abs(f.frontUs - f.rearIr) < SENSOR_DIFFERENCE_INBETWEEN;
        tooFarBack, tooFarFront := f.frontUs > f.rearIr, f.frontUs < f.rearIr;
      } else {
        inPlace := f.rearIr > SENSOR_DIFFERENCE_NO_FRONT;
        tooFarBack, tooFarFront := DISTANCE_FROM_BACK_OBJECT > f.rearIr, DISTANCE_FROM_BACK_OBJECT < f.rearIr;
      }
      if inPlace {
        controlTemp := controlTemp.(speed := 0.0, brakeLights := true);
        carPosition := f.odometer;
        isParked := true;
        reversing := false;
      } else if tooFarBack {
        expectedValue := 0;
        controlTemp := controlTemp.(speed := 1.0);
        reversing := false;
      } else if tooFarFront {
        expectedValue := 0;
        controlTemp := controlTemp.(speed := -1.0);
        reversing := true;
      }
    }

    method GoBackToLaneFrame(f: Frame, add: real) returns (vc: Control)
      modifies this
      ensures State() == GoBackToLane(old(State()), f, add) && vc == State().backing.control
    {
      if resume {
        if tempCarPosition + add > f.odometer {
          controlTemp := controlTemp.(speed := 1.0, steering := -0.5);
          reversing := false;
        } else {
          outOfSpot := true;
          isInSpot := false;
        }
      } else if f.rearIr > IRSENSOR_DISTANCE_MIN {
        controlTemp := controlTemp.(speed := -1.0);
        reversing := true;
        tempCarPosition := f.odometer;
      } else {
        resume := true;
      }
      vc := controlTemp;
    }
  }
}
