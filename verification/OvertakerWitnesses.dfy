/** Runs in which an idle reset fires outside FREE_LANE, and what its leftovers do. */
module OvertakerWitnesses {
  import opened Overtaker
  import opened OvertakerTheorems

  /** A frame with nothing in sight. */
  function Nothing(odometer: real): Frame { Frame(-1.0, -1.0, -1.0, -1.0, odometer, 0.0) }

  // ---------- Flags left behind ----------

  /** Five front readings of one metre, then nothing in sight; the car never moves. */
  function Stranded(): (frames: seq<Frame>)
    ensures |frames| == MAX_IDLE_FRAMES
  {
    seq(MAX_IDLE_FRAMES, i => Frame(-1.0, if i < NUM_OF_READINGS then 1.0 else -1.0, -1.0, -1.0, 0.0, 0.0))
  }

  /** The machine while it waits for the odometer. */
  predicate Waits(o: Ovt, n: nat) {
    && o.idle == n && o.totalTraveled == 0.0 && o.traveledPath == 0.0 && !o.leftLane && !o.control.flashRight
    && if n < NUM_OF_READINGS then o.state == FREE_LANE && o.readings == n
       else o.state == INIT_LEFT_SWITCH && o.readings == 0 && o.overriding && o.control.flashLeft
  }

  lemma WaitsOn(o: Ovt, n: nat)
    requires n < MAX_IDLE_FRAMES - 1 && Waits(o, n)
    ensures Waits(Step(o, Stranded()[n]), n + 1)
  {}

  lemma {:induction false} StrandedWaits(n: nat)
    requires n < MAX_IDLE_FRAMES
    ensures Waits(After(Stranded(), n), n)
  {
    hide Step, Stranded;
    if n > 0 {
      StrandedWaits(n - 1);
      WaitsOn(After(Stranded(), n - 1), n - 1);
    }
  }

  /** An idle reset does fire outside FREE_LANE: an overtake that starts and never gets moving is given up with
      the controls still overridden and the left lamps still flashing. */
  lemma ResetStrandsFlags()
    ensures var before, after := After(Stranded(), MAX_IDLE_FRAMES - 1), After(Stranded(), MAX_IDLE_FRAMES);
      && ResetFires(before, Stranded()[MAX_IDLE_FRAMES - 1]) && before.state == INIT_LEFT_SWITCH
      && after.state == FREE_LANE && after.overriding && after.control.flashLeft && !FlagsMatch(after)
  {
    hide After;
    StrandedWaits(MAX_IDLE_FRAMES - 1);
    AfterNext(Stranded(), MAX_IDLE_FRAMES - 1);
  }

  // ---------- An overtake on one reading ----------

  const LAST: nat := 130

  /** Five front readings, three metres on, nothing for 120 frames, four readings at the corner, and one in front. */
  function ShortcutFrame(i: nat): Frame {
    if i < 5 then Nothing(1.0).(frontUs := 1.0)
    else if i < 126 then Nothing(5.0)
    else if i < LAST then Nothing(5.0).(frontRightUs := 8.0)
    else Nothing(5.0).(frontUs := 1.0)
  }

  function Shortcut(): (frames: seq<Frame>)
    ensures |frames| == LAST + 1 && forall i :: 0 <= i <= LAST ==> frames[i] == ShortcutFrame(i)
  {
    seq(LAST + 1, i requires 0 <= i <= LAST => ShortcutFrame(i))
  }

  predicate OnShortcut(o: Ovt, n: nat) {
    if n == 0 then o == START
    else if n < 5 then o.state == FREE_LANE && o.readings == n && o.idle == n - 1 && o.totalTraveled == 1.0
    else if n == 5 then
      && o.state == INIT_LEFT_SWITCH && o.readings == 0 && o.idle == 4
      && o.totalTraveled == 1.0 && o.traveledPath == 1.0 && o.minUs == 7.0
    else
      && o.state == LEFT_SWITCH && o.readings == (if n < 126 then 0 else n - 126)
      && o.idle == n - 6 && o.totalTraveled == 5.0 && o.minUs == 7.0
  }

  lemma ShortcutStep(o: Ovt, n: nat)
    requires n < LAST && OnShortcut(o, n)
    ensures OnShortcut(Step(o, ShortcutFrame(n)), n + 1)
  {
    if n < 5 {
    } else if n == 5 {
    } else if n < 126 {
    } else {
    }
  }

  lemma {:induction false} ShortcutRun(n: nat)
    requires n <= LAST
    ensures OnShortcut(After(Shortcut(), n), n)
  {
    hide Step, Shortcut, ShortcutFrame;
    if n > 0 {
      ShortcutRun(n - 1);
      ShortcutStep(After(Shortcut(), n - 1), n - 1);
    }
  }

  /** Four readings at the corner, a reset out of LEFT_SWITCH, and a single front reading starts an overtake;
      nothing was in front on the frame before. */
  lemma OneReadingStarts()
    ensures var frames := Shortcut();
      && After(frames, LAST).state == LEFT_SWITCH && StrayReset(frames, LAST)
      && After(frames, LAST + 1).state == INIT_LEFT_SWITCH
      && !(0.0 <= frames[LAST - 1].frontUs < 7.0)
  {
    hide After, Shortcut;
    ShortcutRun(LAST);
    AfterNext(Shortcut(), LAST);
  }

  // ---------- A mean that outlives its overtake ----------

  /** The frames that pass an obstacle, up to the averaging of the lane angle. */
  function PassFrame(d: real, i: nat): Frame {
    var f := Nothing(d + if i < 5 then 1.0 else if i < 11 then 5.0 else 9.0);
    if i < 5 then f.(frontUs := 1.0)
    else if 6 <= i < 11 then f.(frontRightUs := 8.0)
    else if 12 <= i < 17 then f.(frontRightIr := 1.0, rearRightIr := 1.0)
    else f
  }

  predicate Passing(o: Ovt, d: real, averaged: nat, recommendation: real, i: nat) {
    && o.averaged == averaged && o.recommendation == recommendation
    && if i < 5 then o.state == FREE_LANE && o.readings == i && o.idle < i && o.totalTraveled == d + 1.0
       else if i == 5 then
         && o.state == INIT_LEFT_SWITCH && o.readings == 0 && o.idle < 5
         && o.totalTraveled == d + 1.0 && o.traveledPath == d + 1.0 && o.minUs == 7.0
       else if i < 11 then
         && o.state == LEFT_SWITCH && o.readings == i - 6 && o.idle == i - 6
         && o.totalTraveled == d + 5.0 && o.minUs == 7.0
       else if i == 11 then
         && o.state == ADJUST_LEFT_SWITCH && o.readings == 0 && o.idle == 5
         && o.totalTraveled == d + 5.0 && o.traveledPath == d + 5.0
       else
         && o.idle == i - 12 && o.totalTraveled == d + 9.0
         && if i < 17 then o.state == SEARCH_END && o.readings == i - 12
            else if i < 22 then o.state == REACH_END && o.readings == i - 17
            else o.state == COMPUTE_ANGLE && o.readings == 0 && o.traveledPath == d + 9.0
  }

  lemma PassStep(o: Ovt, d: real, averaged: nat, recommendation: real, i: nat)
    requires 1 <= i < 22 && Passing(o, d, averaged, recommendation, i)
    ensures Passing(Step(o, PassFrame(d, i)), d, averaged, recommendation, i + 1)
  {
    if i < 5 {
    } else if i == 5 {
    } else if i < 11 {
    } else if i == 11 {
    } else if i < 17 {
    } else {
    }
  }

  /** A first overtake with lane angle 0.1, a long stop before the way back, and a second one with angle -0.2. */
  function TwiceFrame(i: nat): Frame {
    if i < 22 then PassFrame(0.0, i)
    else if i < 27 then Nothing(9.0).(laneAngle := 0.1)
    else if i < 136 then Nothing(9.0)
    else if i < 158 then PassFrame(8.0, i - 136)
    else Nothing(17.0).(laneAngle := -0.2)
  }

  function Twice(): (frames: seq<Frame>)
    ensures |frames| == 159 && forall i :: 0 <= i < 159 ==> frames[i] == TwiceFrame(i)
  {
    seq(159, i requires 0 <= i < 159 => TwiceFrame(i))
  }

  predicate OnTwice(o: Ovt, n: nat) {
    if n == 0 then o == START
    else if n < 23 then Passing(o, 0.0, 0, 0.0, n)
    else if n < 27 then
      && o.state == COMPUTE_ANGLE && o.averaged == n - 22 && o.recommendation == (n - 22) as real * 0.1
      && o.idle == n - 12 && o.readings == 0 && o.totalTraveled == 9.0 && o.traveledPath == 9.0
    else if n < 137 then
      && o.state == RIGHT_SWITCH && o.averaged == 5 && o.recommendation == 0.1
      && o.idle == n - 12 && o.readings == 0 && o.totalTraveled == 9.0 && o.traveledPath == 9.0
    else Passing(o, 8.0, 5, 0.1, n - 136)
  }

  lemma TwiceStep(o: Ovt, n: nat)
    requires n < 158 && OnTwice(o, n)
    ensures OnTwice(Step(o, TwiceFrame(n)), n + 1)
  {
    if n == 0 {
    } else if n < 22 {
      hide Step, PassFrame;
      PassStep(o, 0.0, 0, 0.0, n);
    } else if n < 26 {
    } else if n == 26 {
    } else if n < 136 {
    } else if n == 136 {
    } else {
      hide Step, PassFrame;
      PassStep(o, 8.0, 5, 0.1, n - 136);
    }
  }

  lemma {:induction false} TwiceRun(n: nat)
    requires n <= 158
    ensures OnTwice(After(Twice(), n), n)
  {
    hide Step, Twice, TwiceFrame, OnTwice;
    if n > 0 {
      TwiceRun(n - 1);
      TwiceStep(After(Twice(), n - 1), n - 1);
    } else {
      TwiceStarts();
    }
  }

  lemma TwiceStarts()
    ensures OnTwice(START, 0)
  {}

  /** The counter and the mean of the first overtake survive the reset: the second one leaves COMPUTE_ANGLE after
      a single frame with angle -0.2, and recommends -0.02. */
  lemma MeanOutlivesReset()
    ensures var frames := Twice();
      && StrayReset(frames, 136) && After(frames, 136).state == RIGHT_SWITCH
      && After(frames, 157).state == REACH_END && After(frames, 158).state == COMPUTE_ANGLE
      && After(frames, 159).state == RIGHT_SWITCH
      && frames[158].laneAngle == -0.2 && After(frames, 159).recommendation == -0.02
  {
    hide After, Twice;
    TwiceRun(136);
    TwiceRun(157);
    TwiceRun(158);
    AfterNext(Twice(), 158);
  }
}
