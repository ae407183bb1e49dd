/** The switch between automatic driving and the RC transmitter, driven by the steering channel. */
module RcMode {
  const RC_ITERATIONS_TO_CHANGE_MODE := 20
  const RC_ITERATIONS_TO_CENTER := 10
  const RC_STEERING_ACTIVATION_TRESHOLD := 2060
  const RC_STEERING_DEACTIVATION_TRESHOLD := 1140
  const CTRL_OUT_WHEELS_CENTERED_PW := 1590

  /** The counters that the source keeps in static variables. */
  datatype Switch = Switch(above: nat, below: nat, rcMode: bool, window: nat)

  const INITIAL_SWITCH := Switch(0, 0, false, 0)

  predicate TurnsRight(pw: nat) { RC_STEERING_ACTIVATION_TRESHOLD < pw < 2400 }

  predicate TurnsLeft(pw: nat) { pw < RC_STEERING_DEACTIVATION_TRESHOLD }

  predicate Centred(pw: nat) { CTRL_OUT_WHEELS_CENTERED_PW - 50 < pw < CTRL_OUT_WHEELS_CENTERED_PW + 50 }

  /** Step 1 counts extreme samples, step 2 waits for a centred one; then come the resets. */
  function Check(s: Switch, pw: nat): Switch {
    var t :=
      if s.window == 0 then
        if !s.rcMode && TurnsRight(pw) then
          if s.above < RC_ITERATIONS_TO_CHANGE_MODE then s.(above := s.above + 1)
          else s.(window := RC_ITERATIONS_TO_CENTER)
        else if s.rcMode && TurnsLeft(pw) then
          if s.below < RC_ITERATIONS_TO_CHANGE_MODE then s.(below := s.below + 1)
          else s.(window := RC_ITERATIONS_TO_CENTER)
        else s
      else if Centred(pw) then Switch(0, 0, !s.rcMode, 0)
      else Switch(0, 0, s.rcMode, s.window - 1);
    t.(below := if pw >= RC_STEERING_DEACTIVATION_TRESHOLD then 0 else t.below,
       above := if pw <= RC_STEERING_ACTIVATION_TRESHOLD then 0 else t.above)
  }

  /** The switch after the first `n` samples. */
  function After(samples: seq<nat>, n: nat): Switch
    requires n <= |samples|
  {
    if n == 0 then INITIAL_SWITCH else Check(After(samples, n - 1), samples[n - 1])
  }

  predicate FlipsAt(samples: seq<nat>, i: nat)
    requires i < |samples|
  {
    After(samples, i).rcMode != After(samples, i + 1).rcMode
  }

  // ---------- What the counters remember ----------

  /** Samples to the right since the last one at or below the activation threshold. */
  function RightStreak(samples: seq<nat>, n: nat): nat
    requires n <= |samples|
  {
    if n == 0 || samples[n - 1] <= RC_STEERING_ACTIVATION_TRESHOLD then 0
    else RightStreak(samples, n - 1) + if TurnsRight(samples[n - 1]) then 1 else 0
  }

  /** Consecutive samples to the left. */
  function LeftStreak(samples: seq<nat>, n: nat): nat
    requires n <= |samples|
  {
    if n == 0 || !TurnsLeft(samples[n - 1]) then 0 else LeftStreak(samples, n - 1) + 1
  }

  lemma {:induction false} LeftStreakMeans(samples: seq<nat>, n: nat, k: nat)
    requires n <= |samples| && k <= LeftStreak(samples, n)
    ensures k <= n && forall i :: n - k <= i < n ==> TurnsLeft(samples[i])
  {
    if k > 0 {
      LeftStreakMeans(samples, n - 1, k - 1);
    }
  }

  /** How many samples are far to the right. */
  function CountRight(samples: seq<nat>): nat {
    if samples == [] then 0
    else CountRight(samples[..|samples| - 1]) + if 2060 < samples[|samples| - 1] < 2400 then 1 else 0
  }

  lemma {:induction false} RightStreakMeans(samples: seq<nat>, n: nat) returns (k: nat)
    requires n <= |samples|
    ensures k <= n && CountRight(samples[k..n]) == RightStreak(samples, n)
    ensures forall i :: k <= i < n ==> samples[i] > RC_STEERING_ACTIVATION_TRESHOLD
  {
    if n == 0 || samples[n - 1] <= RC_STEERING_ACTIVATION_TRESHOLD {
      k := n;
    } else {
      k := RightStreakMeans(samples, n - 1);
      assert samples[k..n][..n - 1 - k] == samples[k..n - 1];
    }
  }

  /** Sample `a` completed step 1 and no later one before `n` was centred. */
  ghost predicate ArmedAt(samples: seq<nat>, n: nat, a: nat)
    requires n <= |samples|
  {
    && a < n
    && (forall i :: a < i < n ==> !Centred(samples[i]))
    && (if After(samples, n).rcMode
        then LeftStreak(samples, a + 1) >= RC_ITERATIONS_TO_CHANGE_MODE + 1
        else TurnsRight(samples[a]) && RightStreak(samples, a + 1) >= RC_ITERATIONS_TO_CHANGE_MODE + 1)
  }

  /** What holds after every prefix of every run. */
  ghost predicate Remembered(samples: seq<nat>, n: nat)
    requires n <= |samples|
  {
    var s := After(samples, n);
    && s.above <= RC_ITERATIONS_TO_CHANGE_MODE && s.below <= RC_ITERATIONS_TO_CHANGE_MODE
    && s.window <= RC_ITERATIONS_TO_CENTER
    && s.above <= RightStreak(samples, n) && s.below <= LeftStreak(samples, n)
    && (s.window > 0 ==>
          RC_ITERATIONS_TO_CENTER - s.window < n && ArmedAt(samples, n, n - 1 - (RC_ITERATIONS_TO_CENTER - s.window)))
  }

  lemma {:induction false} RunRemembers(samples: seq<nat>, n: nat)
    requires n <= |samples|
    ensures Remembered(samples, n)
  {
    if n > 0 {
      RunRemembers(samples, n - 1);
    }
  }

  /** RC mode changes only at a centred sample, preceded by at most nine that are not, after step 1. */
  lemma FlipIsArmed(samples: seq<nat>, i: nat) returns (a: nat)
    requires i < |samples| && FlipsAt(samples, i)
    ensures Centred(samples[i]) && ArmedAt(samples, i, a) && i - a - 1 <= 9
  {
    RunRemembers(samples, i);
    a := i - 1 - (RC_ITERATIONS_TO_CENTER - After(samples, i).window);
  }

  /** RC mode turns on only after at least 21 samples to the right with none at or below the threshold between. */
  lemma TurnsOnOnly(samples: seq<nat>, i: nat) returns (k: nat, a: nat)
    requires i < |samples| && !After(samples, i).rcMode && After(samples, i + 1).rcMode
    ensures k <= a < i && i - a - 1 <= 9 && 1540 < samples[i] < 1640
    ensures CountRight(samples[k..a + 1]) >= 21 && samples[a] < 2400
    ensures forall j :: k <= j <= a ==> samples[j] > 2060
    ensures forall j :: a < j < i ==> !(1540 < samples[j] < 1640)
  {
    a := FlipIsArmed(samples, i);
    k := RightStreakMeans(samples, a + 1);
  }

  /** RC mode turns off only after 21 consecutive samples to the left. */
  lemma TurnsOffOnly(samples: seq<nat>, i: nat) returns (a: nat)
    requires i < |samples| && After(samples, i).rcMode && !After(samples, i + 1).rcMode
    ensures 20 <= a < i && i - a - 1 <= 9 && 1540 < samples[i] < 1640
    ensures forall j :: a - 20 <= j <= a ==> samples[j] < 1140
    ensures forall j :: a < j < i ==> !(1540 < samples[j] < 1640)
  {
    a := FlipIsArmed(samples, i);
    LeftStreakMeans(samples, a + 1, 21);
  }

  // ---------- Flips are far apart ----------

  /** How far the switch has come towards its next flip. */
  function Progress(s: Switch): nat {
    if s.window > 0 then RC_ITERATIONS_TO_CHANGE_MODE + 1 else if s.above > s.below then s.above else s.below
  }

  lemma {:induction false} ProgressIsSlow(samples: seq<nat>, m: nat, n: nat)
    requires m <= n <= |samples|
    ensures Progress(After(samples, n)) <= Progress(After(samples, m)) + (n - m)
    decreases n
  {
    if m < n {
      ProgressIsSlow(samples, m, n - 1);
      RunRemembers(samples, n - 1);
    }
  }

  lemma FlipsFarApart(samples: seq<nat>, i: nat, j: nat)
    requires i < j < |samples| && FlipsAt(samples, i) && FlipsAt(samples, j)
    ensures j >= i + 22
  {
    RunRemembers(samples, i);
    ProgressIsSlow(samples, i + 1, j);
  }

  /** Sample `i` completes step 1 of the gesture. */
  predicate ArmsAt(samples: seq<nat>, i: nat)
    requires i < |samples|
  {
    After(samples, i).window == 0 && After(samples, i + 1).window > 0
  }

  /** While the switch waits for a centred sample its counters are zero. */
  lemma WaitingForgets(s: Switch, pw: nat)
    requires s.window > 0
    ensures Check(s, pw).above == 0 && Check(s, pw).below == 0
  {}

  lemma {:induction false} WindowCloses(samples: seq<nat>, i: nat, j: nat) returns (m: nat)
    requires i < j <= |samples| && After(samples, i).window > 0 && After(samples, j).window == 0
    ensures i < m <= j && Progress(After(samples, m)) == 0
    decreases j
  {
    if After(samples, j - 1).window > 0 {
      WaitingForgets(After(samples, j - 1), samples[j - 1]);
      m := j;
    } else {
      m := WindowCloses(samples, i, j - 1);
    }
  }

  lemma ArmingTakesTwenty(s: Switch, pw: nat)
    requires s.window == 0 && Check(s, pw).window > 0
    ensures Progress(s) >= 20
  {}

  /** Whether the mode changes in between or not, step 1 is completed at most every 22 calls. */
  lemma ArmingsFarApart(samples: seq<nat>, i: nat, j: nat)
    requires i < j < |samples| && ArmsAt(samples, i) && ArmsAt(samples, j)
    ensures j >= i + 22
  {
    var m := WindowCloses(samples, i + 1, j);
    ArmingTakesTwenty(After(samples, j), samples[j]);
    ProgressIsSlow(samples, m, j);
  }

  // ---------- The gesture works ----------

  function Checks(s: Switch, samples: seq<nat>): Switch
    decreases |samples|
  {
    if samples == [] then s else Checks(Check(s, samples[0]), samples[1..])
  }

  lemma {:induction false} ChecksConcat(s: Switch, a: seq<nat>, b: seq<nat>)
    ensures Checks(s, a + b) == Checks(Checks(s, a), b)
    decreases |a|
  {
    if a == [] {
      assert a + b == b;
    } else {
      assert (a + b)[1..] == a[1..] + b;
      ChecksConcat(Check(s, a[0]), a[1..], b);
    }
  }

  lemma {:induction false} RightArms(s: Switch, samples: seq<nat>)
    requires s.window == 0 && !s.rcMode && s.above + |samples| == RC_ITERATIONS_TO_CHANGE_MODE + 1 && samples != []
    requires forall i :: 0 <= i < |samples| ==> TurnsRight(samples[i])
    ensures var t := Checks(s, samples); t.window == RC_ITERATIONS_TO_CENTER && !t.rcMode
    decreases |samples|
  {
    if |samples| > 1 {
      RightArms(Check(s, samples[0]), samples[1..]);
    } else {
      assert samples[1..] == [];
    }
  }

  lemma {:induction false} WindowWaits(s: Switch, samples: seq<nat>)
    requires |samples| < s.window && forall i :: 0 <= i < |samples| ==> !Centred(samples[i])
    ensures var t := Checks(s, samples); t.window == s.window - |samples| && t.rcMode == s.rcMode
    decreases |samples|
  {
    if samples != [] {
      WindowWaits(Check(s, samples[0]), samples[1..]);
    }
  }

  /** Twenty-one samples to the right, at most nine others, and a centred one do turn RC mode on. */
  lemma GestureTurnsOn(s: Switch, right: seq<nat>, waiting: seq<nat>, centre: nat)
    requires s.window == 0 && !s.rcMode && s.above == 0
    requires |right| == 21 && forall i :: 0 <= i < |right| ==> 2060 < right[i] < 2400
    requires |waiting| <= 9 && forall i :: 0 <= i < |waiting| ==> !(1540 < waiting[i] < 1640)
    requires 1540 < centre < 1640
    ensures Checks(s, right + waiting + [centre]).rcMode
  {
    RightArms(s, right);
    WindowWaits(Checks(s, right), waiting);
    ChecksConcat(s, right, waiting);
    ChecksConcat(s, right + waiting, [centre]);
    assert [centre][1..] == [];
  }

  lemma {:induction false} LeftArms(s: Switch, samples: seq<nat>)
    requires s.window == 0 && s.rcMode && s.below + |samples| == RC_ITERATIONS_TO_CHANGE_MODE + 1 && samples != []
    requires forall i :: 0 <= i < |samples| ==> TurnsLeft(samples[i])
    ensures var t := Checks(s, samples); t.window == RC_ITERATIONS_TO_CENTER && t.rcMode
    decreases |samples|
  {
    if |samples| > 1 {
      LeftArms(Check(s, samples[0]), samples[1..]);
    } else {
      assert samples[1..] == [];
    }
  }

  /** Twenty-one samples to the left, at most nine others, and a centred one do turn RC mode off. */
  lemma GestureTurnsOff(s: Switch, left: seq<nat>, waiting: seq<nat>, centre: nat)
    requires s.window == 0 && s.rcMode && s.below == 0
    requires |left| == 21 && forall i :: 0 <= i < |left| ==> left[i] < 1140
    requires |waiting| <= 9 && forall i :: 0 <= i < |waiting| ==> !(1540 < waiting[i] < 1640)
    requires 1540 < centre < 1640
    ensures !Checks(s, left + waiting + [centre]).rcMode
  {
    LeftArms(s, left);
    WindowWaits(Checks(s, left), waiting);
    ChecksConcat(s, left, waiting);
    ChecksConcat(s, left + waiting, [centre]);
    assert [centre][1..] == [];
  }
}
