/** What holds of the parker over whole runs of the decision maker that calls it. */
module ParkerTheorems {
  import opened Parker

  /** One pass of the decision maker's loop: a parking frame, on which the search pauses at a stop line; a
      frame in which the car is to return to its lane; or a frame that does not concern the parker. */
  datatype Event = ParkingFrame(f: Frame, stopLine: bool, steering: real) | ResumeFrame(f: Frame) | OtherFrame

  function Dm(p: Parking, e: Event): Parking {
    match e
    case ParkingFrame(f, stopLine, steering) =>
      if p.hunt.isSpot then if p.backing.isParked then p else ParallelPark(p, f)
      else if stopLine then p
      else FindSpot(p, f, steering)
    case ResumeFrame(f) => if p.leaving.outOfSpot then p else GoBackToLane(p, f, 0.1)
    case OtherFrame => p
  }

  function After(events: seq<Event>, n: nat): Parking
    requires n <= |events|
  {
    if n == 0 then START else Dm(After(events, n - 1), events[n - 1])
  }

  // ---------- What one call leaves alone ----------

  /** Searching changes the backing in no way but by finding a spot. */
  lemma SearchLeavesBacking(p: Parking, f: Frame, steering: real)
    requires !p.hunt.isSpot
    requires p.hunt.search == CHECKSPACE ==> p.hunt.objInFront
    ensures var q := FindSpot(p, f, steering);
      q.backing == if q.hunt.isSpot && !q.hunt.objInFront then p.backing.(carPosition := f.odometer, phase := PHASE1)
                   else if q.hunt.isSpot then p.backing.(phase := PHASE0)
                   else p.backing
  {
    var q := p.(hunt := WatchCurve(p.hunt, steering));
    assert q.backing == p.backing && !q.hunt.isSpot && (q.hunt.search == CHECKSPACE ==> q.hunt.objInFront);
    hide WatchCurve;
    match q.hunt.search
    case FINDOBJECT =>
    case FINDGAPSTART =>
    case FINDGAPEND =>
    case CHECKSPACE =>
  }

  lemma ParkLeavesHunt(p: Parking, f: Frame)
    ensures ParallelPark(p, f).hunt == p.hunt
  {
    hide NotSafe, SensorsClear, BackOnce, Creeps;
  }

  lemma ResumeLeaves(p: Parking, f: Frame, add: real)
    ensures GoBackToLane(p, f, add).hunt == p.hunt
    ensures var b := GoBackToLane(p, f, add).backing; b == p.backing.(control := b.control, reversing := b.reversing)
  {}

  // ---------- A reported spot is real ----------

  predicate GapMeasured(p: Parking) {
    && (p.hunt.search == CHECKSPACE && !p.hunt.isSpot ==>
          p.hunt.objInFront && p.hunt.gapEnd <= p.hunt.gapStart + ENOUGH_SPACE_DISTANCE)
    && (!p.hunt.isSpot ==> p.backing.phase == PHASE0)
  }

  /** What a search that reports a spot on frame `f` has found. */
  predicate RealSpot(p: Parking, f: Frame) {
    if p.hunt.objInFront then 0.60 < p.hunt.gapEnd - p.hunt.gapStart <= 1.05 && p.backing.phase == PHASE0
    else f.odometer > p.hunt.gapStart + 1.05 && p.backing.phase == PHASE1 && p.backing.carPosition == f.odometer
  }

  lemma SeekMeasures(p: Parking, f: Frame)
    requires GapMeasured(p) && !p.hunt.isSpot
    ensures var q := SeekSpot(p, f); GapMeasured(q) && (q.hunt.isSpot ==> RealSpot(q, f))
  {
    match p.hunt.search
    case FINDOBJECT =>
    case FINDGAPSTART =>
    case FINDGAPEND =>
    case CHECKSPACE =>
  }

  lemma SearchMeasures(p: Parking, f: Frame, steering: real)
    requires GapMeasured(p) && !p.hunt.isSpot
    ensures var q := FindSpot(p, f, steering); GapMeasured(q) && (q.hunt.isSpot ==> RealSpot(q, f))
  {
    hide SeekSpot, RealSpot;
    SeekMeasures(p.(hunt := WatchCurve(p.hunt, steering)), f);
  }

  lemma DmMeasures(p: Parking, e: Event)
    requires GapMeasured(p)
    ensures GapMeasured(Dm(p, e))
    ensures Dm(p, e).hunt.isSpot && !p.hunt.isSpot ==> e.ParkingFrame? && RealSpot(Dm(p, e), e.f)
    ensures p.hunt.isSpot ==> Dm(p, e).hunt == p.hunt
  {
    hide FindSpot, ParallelPark, GoBackToLane, RealSpot;
    match e
    case ParkingFrame(f, stopLine, steering) =>
      if p.hunt.isSpot {
        ParkLeavesHunt(p, f);
      } else {
        SearchMeasures(p, f, steering);
      }
    case ResumeFrame(f) => ResumeLeaves(p, f, 0.1);
    case OtherFrame =>
  }

  lemma {:induction false} RunMeasures(events: seq<Event>, n: nat)
    requires n <= |events|
    ensures GapMeasured(After(events, n))
  {
    if n == 0 {
      assert GapMeasured(START);
    } else {
      hide Dm, GapMeasured;
      RunMeasures(events, n - 1);
      DmMeasures(After(events, n - 1), events[n - 1]);
    }
  }

  /** In every run a reported spot is real: either an object closes a gap longer than 0.60 and at most 1.05,
      or the odometer is more than 1.05 past the start of the gap. Once reported, nothing that was measured
      changes again. */
  lemma SpotIsReal(events: seq<Event>, n: nat)
    requires n < |events|
    ensures !After(events, n).hunt.isSpot && After(events, n + 1).hunt.isSpot ==>
      events[n].ParkingFrame? && RealSpot(After(events, n + 1), events[n].f)
    ensures After(events, n).hunt.isSpot ==> After(events, n + 1).hunt == After(events, n).hunt
  {
    hide Dm, GapMeasured, RealSpot;
    RunMeasures(events, n);
    DmMeasures(After(events, n), events[n]);
  }

  // ---------- Phases advance in order ----------

  predicate Advances(a: Phase, b: Phase) {
    || a == b
    || (a == PHASE0 && b == PHASE1) || (a == PHASE1 && b == PHASE2)
    || (a == PHASE2 && b == PHASE3) || (a == PHASE3 && b == PHASE4)
    || (a != PHASE0 && b == SAFETYSTOP)
  }

  /** How far the car has come, if the first phase of backing began at `start`. */
  predicate WayBacked(b: Backing, start: real) {
    && (b.phase == PHASE1 ==> b.carPosition == start)
    && (b.phase == PHASE2 ==> b.carPosition == start + BACK_AROUND_CORNER)
    && (b.phase == PHASE3 ==> b.carPosition == start + BACK_AROUND_CORNER + BACKING_STRAIGHT)
  }

  /** Where backing begins, if the step from `a` to `b` on frame `f` is the one that begins it. */
  function StartAfter(a: Phase, b: Phase, f: Frame, start: real): real {
    if a != PHASE1 && b == PHASE1 then f.odometer else start
  }

  /** One step of the backing does what a run of it should. */
  predicate StepsOn(b: Backing, c: Backing, f: Frame, start: real) {
    && Advances(b.phase, c.phase)
    && WayBacked(c, StartAfter(b.phase, c.phase, f, start))
    && (b.phase == PHASE3 && c.phase == PHASE4 ==>
          f.odometer > start + BACK_AROUND_CORNER + BACKING_STRAIGHT + PARALLEL_IN_SPOT)
  }

  lemma ShuffleKeepsPhase(b: Backing, f: Frame)
    ensures Shuffle(b, f).phase == b.phase
    ensures Shuffle(b, f).carPosition == b.carPosition && Shuffle(b, f).isParked == b.isParked
  {}

  lemma OnceStepsOn(b: Backing, f: Frame, gapEnd: real, objInFront: bool, start: real)
    requires WayBacked(b, start)
    ensures StepsOn(b, BackOnce(b, f, gapEnd, objInFront), f, start)
  {
    hide Shuffle, PlaceInSpot;
    ShuffleKeepsPhase(b, f);
    match b.phase
    case PHASE0 =>
    case PHASE1 =>
    case PHASE2 =>
    case PHASE3 =>
    case PHASE4 =>
    case SAFETYSTOP =>
  }

  /** Before the phase itself, parallelPark may only stop. */
  lemma CheckMayStop(p: Parking, f: Frame)
    ensures var stops := !p.isInSpot && p.backing.phase != PHASE0 && NotSafe(f);
      SafetyCheck(p, f).backing == if stops then p.backing.(phase := SAFETYSTOP) else p.backing
    ensures SafetyCheck(p, f).hunt == p.hunt
  {
    hide NotSafe, SensorsClear;
  }

  lemma ParkStepsOn(p: Parking, f: Frame, start: real)
    requires WayBacked(p.backing, start)
    ensures StepsOn(p.backing, ParallelPark(p, f).backing, f, start)
  {
    CheckMayStop(p, f);
    var q := SafetyCheck(p, f);
    OnceStepsOn(q.backing, f, q.hunt.gapEnd, q.hunt.objInFront, start);
    assert ParallelPark(p, f).backing == BackOnce(q.backing, f, q.hunt.gapEnd, q.hunt.objInFront);
    if q.backing != p.backing {
      assert q.backing.phase == SAFETYSTOP;
      hide SafetyCheck, NotSafe;
    }
  }

  lemma SearchStepsOn(p: Parking, f: Frame, steering: real, start: real)
    requires GapMeasured(p) && !p.hunt.isSpot
    ensures StepsOn(p.backing, FindSpot(p, f, steering).backing, f, start)
  {
    hide FindSpot;
    SearchLeavesBacking(p, f, steering);
  }

  /** The odometer when the car last began to back around the corner. */
  function BackingFrom(events: seq<Event>, n: nat): real
    requires n <= |events|
  {
    if n == 0 then 0.0
    else if events[n - 1].ParkingFrame? then
      var before, after := After(events, n - 1).backing.phase, After(events, n).backing.phase;
      StartAfter(before, after, events[n - 1].f, BackingFrom(events, n - 1))
    else BackingFrom(events, n - 1)
  }

  predicate DmStepsOn(p: Parking, q: Parking, e: Event, start: real) {
    match e
    case ParkingFrame(f, _, _) => StepsOn(p.backing, q.backing, f, start)
    case _ => q.backing.phase == p.backing.phase && WayBacked(q.backing, start)
  }

  lemma DmAdvances(p: Parking, e: Event, start: real)
    requires GapMeasured(p) && WayBacked(p.backing, start)
    ensures DmStepsOn(p, Dm(p, e), e, start)
  {
    match e
    case ParkingFrame(f, stopLine, steering) =>
      hide FindSpot, ParallelPark;
      if p.hunt.isSpot {
        ParkStepsOn(p, f, start);
      } else {
        SearchStepsOn(p, f, steering, start);
      }
    case ResumeFrame(f) =>
      hide GoBackToLane;
      ResumeLeaves(p, f, 0.1);
    case OtherFrame =>
  }

  lemma {:induction false} RunBacks(events: seq<Event>, n: nat)
    requires n <= |events|
    ensures WayBacked(After(events, n).backing, BackingFrom(events, n))
  {
    if n == 0 {
      assert WayBacked(START.backing, 0.0);
    } else {
      hide Dm, GapMeasured, WayBacked, Advances, StartAfter;
      RunBacks(events, n - 1);
      RunMeasures(events, n - 1);
      DmAdvances(After(events, n - 1), events[n - 1], BackingFrom(events, n - 1));
    }
  }

  /** In every run the phases only advance in order, or end in SAFETYSTOP, and PHASE4 is entered only more
      than 0.56 + 0.66 past the point where PHASE1 began. */
  lemma PhasesInOrder(events: seq<Event>, n: nat)
    requires n < |events|
    ensures Advances(After(events, n).backing.phase, After(events, n + 1).backing.phase)
    ensures After(events, n).backing.phase != PHASE4 && After(events, n + 1).backing.phase == PHASE4 ==>
      events[n].ParkingFrame? && events[n].f.odometer > BackingFrom(events, n) + 0.56 + 0.66
  {
    hide Dm, GapMeasured, WayBacked, StartAfter;
    RunBacks(events, n);
    RunMeasures(events, n);
    DmAdvances(After(events, n), events[n], BackingFrom(events, n));
  }

  // ---------- The safety stop ----------

  /** The stop is reached in the very frame in which one of the five sensors reads between 0.04 and 0.06, once
      the car backs and has not been in the spot before; and in no other way. */
  lemma SafetyStopIff(p: Parking, f: Frame)
    requires p.backing.phase != SAFETYSTOP
    ensures ParallelPark(p, f).backing.phase == SAFETYSTOP <==>
      && !p.isInSpot && p.backing.phase != PHASE0
      && (|| 0.04 < f.frontRightUs < 0.06 || 0.04 < f.frontUs < 0.06
          || 0.04 < f.rearIr < 0.06 || 0.04 < f.rearRightIr < 0.06 || 0.04 < f.frontRightIr < 0.06)
  {
    CheckMayStop(p, f);
    var q := SafetyCheck(p, f);
    OnceStops(q.backing, f, q.hunt.gapEnd, q.hunt.objInFront);
    hide SafetyCheck, BackOnce;
  }

  lemma OnceStops(b: Backing, f: Frame, gapEnd: real, objInFront: bool)
    ensures var c := BackOnce(b, f, gapEnd, objInFront);
      && (c.phase == SAFETYSTOP <==> b.phase == SAFETYSTOP)
      && (b.phase == SAFETYSTOP ==> c.control.speed == 0.0)
      && (c.isParked && !b.isParked ==> b.phase == c.phase == PHASE4)
      && (b.isParked ==> c.isParked)
  {
    hide Shuffle, PlaceInSpot;
    ShuffleKeepsPhase(b, f);
    match b.phase
    case PHASE0 =>
    case PHASE1 =>
    case PHASE2 =>
    case PHASE3 =>
    case PHASE4 =>
    case SAFETYSTOP =>
  }

  /** The stop belongs to a spot that was found and in which the car is not parked yet. */
  predicate StopInSpot(p: Parking) {
    && (p.backing.phase == SAFETYSTOP ==> p.hunt.isSpot && !p.backing.isParked)
    && (p.backing.isParked ==> p.backing.phase == PHASE4)
  }

  lemma DmStops(p: Parking, e: Event)
    requires StopInSpot(p) && GapMeasured(p)
    ensures StopInSpot(Dm(p, e))
    ensures p.backing.phase == SAFETYSTOP ==> Dm(p, e).backing.phase == SAFETYSTOP
    ensures p.backing.phase == SAFETYSTOP && e.ParkingFrame? ==> Dm(p, e).backing.control.speed == 0.0
  {
    hide FindSpot, GoBackToLane, BackOnce, SafetyCheck, NotSafe, Creeps;
    match e
    case ParkingFrame(f, stopLine, steering) =>
      if p.hunt.isSpot {
        CheckMayStop(p, f);
        var q := SafetyCheck(p, f);
        OnceStops(q.backing, f, q.hunt.gapEnd, q.hunt.objInFront);
      } else {
        SearchLeavesBacking(p, f, steering);
      }
    case ResumeFrame(f) => ResumeLeaves(p, f, 0.1);
    case OtherFrame =>
  }

  lemma {:induction false} RunStops(events: seq<Event>, n: nat)
    requires n <= |events|
    ensures StopInSpot(After(events, n))
  {
    if n == 0 {
      assert StopInSpot(START);
    } else {
      hide Dm, StopInSpot, GapMeasured;
      RunStops(events, n - 1);
      RunMeasures(events, n - 1);
      DmStops(After(events, n - 1), events[n - 1]);
    }
  }

  /** SAFETYSTOP is absorbing, and every later call of parallelPark yields speed zero, whatever frames for
      other states of the decision maker lie between. */
  lemma {:induction false} StopIsForGood(events: seq<Event>, m: nat, n: nat)
    requires m <= n <= |events| && After(events, m).backing.phase == SAFETYSTOP
    ensures After(events, n).backing.phase == SAFETYSTOP
    ensures n > m && events[n - 1].ParkingFrame? ==> After(events, n).backing.control.speed == 0.0
    decreases n
  {
    hide Dm, StopInSpot, GapMeasured;
    if m < n {
      StopIsForGood(events, m, n - 1);
      RunStops(events, n - 1);
      RunMeasures(events, n - 1);
      DmStops(After(events, n - 1), events[n - 1]);
    }
  }
}
