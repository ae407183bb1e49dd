/** Which readings move the parker on, and what the car is told to do in each phase, over whole runs. */
module ParkerManoeuvres {
  import opened Parker
  import opened ParkerTheorems

  lemma AfterNext(events: seq<Event>, n: nat)
    requires n < |events|
    ensures After(events, n + 1) == Dm(After(events, n), events[n])
  {
    hide Dm;
  }

  // ---------- The readings of the search ----------

  /** The search looks at this frame. */
  predicate Searches(p: Parking, e: Event) {
    e.ParkingFrame? && !p.hunt.isSpot && !e.stopLine
  }

  predicate SteersHard(steering: real) { steering > 0.42 || steering < -0.42 }

  /** The thirtieth frame of steering hard in a row: a curve. */
  predicate CurveAt(p: Parking, e: Event) {
    Searches(p, e) && SteersHard(e.steering) && p.hunt.turning == 29
  }

  /** What the search is after in this frame; a curve makes it start over. */
  function Heading(p: Parking, e: Event): Search {
    if CurveAt(p, e) then FINDOBJECT else p.hunt.search
  }

  /** An object is near, a gap is not. */
  predicate Awaited(s: Search, f: Frame) {
    match s
    case FINDOBJECT | FINDGAPEND => 0.05 < f.rearRightIr < 0.25
    case FINDGAPSTART => f.rearRightIr < 0.05 || f.rearRightIr > 0.25
    case CHECKSPACE => false
  }

  function Following(s: Search): Search {
    match s
    case FINDOBJECT => FINDGAPSTART
    case FINDGAPSTART => FINDGAPEND
    case FINDGAPEND => CHECKSPACE
    case CHECKSPACE => FINDOBJECT
  }

  /** One frame of a search that heads for `s`. */
  predicate SearchedOn(p: Parking, s: Search, f: Frame, q: Parking) {
    var farEnough := s == FINDGAPEND && f.odometer > p.hunt.gapStart + 1.05;
    var bigEnough := s == CHECKSPACE && p.hunt.gapEnd - p.hunt.gapStart > 0.60;
    var third := Awaited(s, f) && p.expected == 2 && !farEnough;
    && (q.hunt.isSpot <==> farEnough || bigEnough)
    && (s != CHECKSPACE ==> q.hunt.search == if third then Following(s) else s)
    && (s == CHECKSPACE ==> q.hunt.search == if bigEnough then s else FINDOBJECT)
    && (s != CHECKSPACE ==> q.expected == if farEnough || third || !Awaited(s, f) then 0 else p.expected + 1)
    && (s == CHECKSPACE ==> q.expected == p.expected)
    && q.hunt.gapStart == (if third && s == FINDGAPSTART then f.odometer else p.hunt.gapStart)
    && q.hunt.gapEnd == (if third && s == FINDGAPEND then f.odometer else p.hunt.gapEnd)
    && (q.hunt.isSpot ==> q.hunt.objInFront == if s == FINDGAPEND then false else p.hunt.objInFront)
    && (third && s == FINDGAPEND ==> q.hunt.objInFront)
  }

  lemma SeekSearches(p: Parking, f: Frame)
    requires p.expected <= 2 && !p.hunt.isSpot
    ensures SearchedOn(p, p.hunt.search, f, SeekSpot(p, f))
  {
    match p.hunt.search
    case FINDOBJECT =>
    case FINDGAPSTART =>
    case FINDGAPEND =>
    case CHECKSPACE =>
  }

  lemma WatchesCurve(p: Parking, e: Event)
    requires Searches(p, e)
    ensures var q := p.(hunt := WatchCurve(p.hunt, e.steering));
      && q == p.(hunt := p.hunt.(search := Heading(p, e), turning := q.hunt.turning))
      && q.hunt.turning == (if !SteersHard(e.steering) || p.hunt.turning == 29 then 0 else p.hunt.turning + 1)
  {}

  lemma DmSearches(p: Parking, e: Event)
    requires Searches(p, e) && p.expected <= 2
    ensures SearchedOn(p, Heading(p, e), e.f, Dm(p, e))
    ensures Dm(p, e).hunt.turning
         == if !SteersHard(e.steering) || p.hunt.turning == 29 then 0 else p.hunt.turning + 1
  {
    WatchesCurve(p, e);
    var q := p.(hunt := WatchCurve(p.hunt, e.steering));
    SeekSearches(q, e.f);
    SeekKeepsTurning(q, e.f);
    hide SeekSpot, WatchCurve, CurveAt, SearchedOn;
    assert SearchedOn(q, q.hunt.search, e.f, SeekSpot(q, e.f));
    SameReadings(p, q, Heading(p, e), e.f, SeekSpot(q, e.f));
  }

  lemma SeekKeepsTurning(p: Parking, f: Frame)
    ensures SeekSpot(p, f).hunt.turning == p.hunt.turning
  {}

  lemma SameReadings(p: Parking, q: Parking, s: Search, f: Frame, r: Parking)
    requires q == p.(hunt := p.hunt.(search := q.hunt.search, turning := q.hunt.turning))
    requires SearchedOn(q, s, f, r)
    ensures SearchedOn(p, s, f, r)
  {
    hide Awaited;
  }

  lemma DmRests(p: Parking, e: Event)
    requires !Searches(p, e)
    ensures Dm(p, e).hunt == p.hunt
    ensures !p.hunt.isSpot ==> Dm(p, e).expected == p.expected
  {
    hide FindSpot, ParallelPark;
    match e
    case ParkingFrame(f, stopLine, steering) => ParkLeavesHunt(p, f);
    case ResumeFrame(f) =>
    case OtherFrame =>
  }

  /** At most two readings are pending, and none while a gap is checked or when a spot is reported. */
  predicate Pending(p: Parking) {
    !p.hunt.isSpot ==> p.expected <= 2 && (p.hunt.search == CHECKSPACE ==> p.expected == 0 && p.hunt.objInFront)
  }

  lemma DmPending(p: Parking, e: Event)
    requires Pending(p)
    ensures Pending(Dm(p, e))
    ensures !p.hunt.isSpot && Dm(p, e).hunt.isSpot ==> Dm(p, e).expected == 0
  {
    hide Dm, Awaited;
    if Searches(p, e) {
      DmSearches(p, e);
    } else {
      DmRests(p, e);
    }
  }

  lemma {:induction false} RunPending(events: seq<Event>, n: nat)
    requires n <= |events|
    ensures Pending(After(events, n))
  {
    if n == 0 {
      assert Pending(START);
    } else {
      hide Dm, Pending;
      RunPending(events, n - 1);
      DmPending(After(events, n - 1), events[n - 1]);
    }
  }

  /** How many of the frames `m` to `n` the search looked at. */
  function Looked(events: seq<Event>, m: nat, n: nat): nat
    requires m <= n <= |events|
  {
    if m == n then 0
    else Looked(events, m, n - 1) + if Searches(After(events, n - 1), events[n - 1]) then 1 else 0
  }

  /** Every frame that the search looked at among `m` to `n` was what `s` waits for. */
  predicate AllAwaited(events: seq<Event>, s: Search, m: nat, n: nat)
    requires m <= n <= |events|
  {
    forall j :: m <= j < n && Searches(After(events, j), events[j]) ==> Awaited(s, events[j].f)
  }

  /** The readings that count: three of them, or fewer on top of what a curve in frame `m` left over. */
  predicate Counts(events: seq<Event>, m: nat, n: nat, readings: nat)
    requires m <= n <= |events|
  {
    || Looked(events, m, n) == readings
    || (m < n && CurveAt(After(events, m), events[m]) && After(events, m).hunt.search != FINDOBJECT
        && After(events, m).expected + Looked(events, m, n) == readings)
  }

  /** One more frame: a reading that counts, or one that the search did not look at. */
  lemma OneMore(events: seq<Event>, s: Search, m: nat, n: nat, readings: nat)
    requires m <= n < |events| && AllAwaited(events, s, m, n) && Counts(events, m, n, readings)
    ensures Searches(After(events, n), events[n]) && Awaited(s, events[n].f) ==>
      AllAwaited(events, s, m, n + 1) && Counts(events, m, n + 1, readings + 1)
    ensures !Searches(After(events, n), events[n]) ==>
      AllAwaited(events, s, m, n + 1) && Counts(events, m, n + 1, readings)
  {
    hide After, Awaited, CurveAt;
  }

  /** The first frame after a curve. */
  lemma AfterCurve(events: seq<Event>, n: nat)
    requires n < |events| && CurveAt(After(events, n), events[n]) && After(events, n).hunt.search != FINDOBJECT
    requires Awaited(FINDOBJECT, events[n].f)
    ensures AllAwaited(events, FINDOBJECT, n, n + 1) && Counts(events, n, n + 1, After(events, n).expected + 1)
  {
    hide After, Awaited;
    assert Looked(events, n, n) == 0;
  }

  lemma NoneYet(events: seq<Event>, s: Search, n: nat)
    requires n <= |events|
    ensures AllAwaited(events, s, n, n) && Counts(events, n, n, 0)
  {
    hide After, Awaited;
  }

  /** Which frames the pending readings come from. */
  lemma {:induction false} ReadingsRemembered(events: seq<Event>, n: nat) returns (m: nat)
    requires n <= |events| && !After(events, n).hunt.isSpot
    ensures m <= n && AllAwaited(events, After(events, n).hunt.search, m, n)
    ensures Counts(events, m, n, After(events, n).expected)
  {
    hide Dm, Awaited, CurveAt, Searches, AllAwaited, Counts;
    m := n;
    NoneYet(events, After(events, n).hunt.search, n);
    if n > 0 && After(events, n).expected > 0 {
      var p, e, q := After(events, n - 1), events[n - 1], After(events, n);
      RunPending(events, n - 1);
      StaysUnreported(p, e);
      if Searches(p, e) {
        SearchesParking(p, e);
        DmSearches(p, e);
        CountsOne(p, e, q);
        if Heading(p, e) == p.hunt.search {
          m := ReadingsRemembered(events, n - 1);
          OneMore(events, p.hunt.search, m, n - 1, p.expected);
        } else {
          m := n - 1;
          AfterCurve(events, n - 1);
        }
      } else {
        DmRests(p, e);
        m := ReadingsRemembered(events, n - 1);
        OneMore(events, p.hunt.search, m, n - 1, p.expected);
      }
    }
  }

  lemma SearchesParking(p: Parking, e: Event)
    requires Searches(p, e)
    ensures e.ParkingFrame? && !p.hunt.isSpot
  {}

  lemma StaysUnreported(p: Parking, e: Event)
    requires !Dm(p, e).hunt.isSpot && Pending(p)
    ensures !p.hunt.isSpot && p.expected <= 2
  {
    DmMeasuresNothing(p, e);
    hide Dm;
  }

  lemma DmMeasuresNothing(p: Parking, e: Event)
    ensures p.hunt.isSpot ==> Dm(p, e).hunt == p.hunt
  {
    if p.hunt.isSpot {
      DmRests(p, e);
    }
  }

  lemma CountsOne(p: Parking, e: Event, q: Parking)
    requires Searches(p, e) && SearchedOn(p, Heading(p, e), e.f, q)
    requires q.expected > 0 && Pending(p) && !q.hunt.isSpot
    ensures Awaited(Heading(p, e), e.f) && q.expected == p.expected + 1 && q.hunt.search == Heading(p, e)
    ensures CurveAt(p, e) || Heading(p, e) == p.hunt.search
  {
    hide Awaited;
  }

  /** In every run the search moves on only after three readings in a row of what it is after; or fewer, if a
      curve fired at the first of them with readings of another kind pending that make them three. */
  lemma ThreeReadings(events: seq<Event>, n: nat) returns (m: nat)
    requires n < |events| && Searches(After(events, n), events[n])
    requires Heading(After(events, n), events[n]) != CHECKSPACE
    requires After(events, n + 1).hunt.search != Heading(After(events, n), events[n])
    ensures m <= n && AllAwaited(events, Heading(After(events, n), events[n]), m, n + 1)
    ensures Counts(events, m, n + 1, 3)
    ensures After(events, n + 1).hunt.search == Following(Heading(After(events, n), events[n]))
  {
    hide Dm, Awaited, CurveAt, Searches, AllAwaited, Counts;
    var p, e := After(events, n), events[n];
    SearchesParking(p, e);
    RunPending(events, n);
    DmSearches(p, e);
    if Heading(p, e) == p.hunt.search {
      m := ReadingsRemembered(events, n);
      OneMore(events, p.hunt.search, m, n, p.expected);
    } else {
      m := n;
      AfterCurve(events, n);
    }
  }

  /** Conversely, three such readings in a row do move it on, at the latest. */
  lemma ThreeReadingsMoveOn(events: seq<Event>, n: nat, s: Search)
    requires 2 <= n < |events| && s != CHECKSPACE
    requires forall j :: n - 2 <= j <= n ==>
      && Searches(After(events, j), events[j]) && !CurveAt(After(events, j), events[j])
      && After(events, j).hunt.search == s && Awaited(s, events[j].f)
    ensures After(events, n + 1).hunt.search == Following(s) || After(events, n + 1).hunt.isSpot
  {
    hide Awaited;
    RunPending(events, n - 2);
    RunPending(events, n - 1);
    RunPending(events, n);
    DmSearches(After(events, n - 2), events[n - 2]);
    DmSearches(After(events, n - 1), events[n - 1]);
    DmSearches(After(events, n), events[n]);
    AfterNext(events, n - 2);
    AfterNext(events, n - 1);
    AfterNext(events, n);
    hide Dm, Searches, CurveAt, After;
    assert After(events, n - 1).expected >= 1;
    assert After(events, n).expected == 2;
  }

  // ---------- Curves ----------

  /** For how many frames in a row that the search looked at the car has been steering hard. */
  function Hard(events: seq<Event>, n: nat): nat
    requires n <= |events|
  {
    if n == 0 then 0
    else if !Searches(After(events, n - 1), events[n - 1]) then Hard(events, n - 1)
    else if SteersHard(events[n - 1].steering) then Hard(events, n - 1) + 1
    else 0
  }

  lemma {:induction false} TurningCounts(events: seq<Event>, n: nat)
    requires n <= |events|
    ensures After(events, n).hunt.turning == Hard(events, n) % 30
  {
    hide Dm;
    if n > 0 {
      var p, e := After(events, n - 1), events[n - 1];
      TurningCounts(events, n - 1);
      RunPending(events, n - 1);
      if Searches(p, e) {
        DmSearches(p, e);
        NextOfThirty(Hard(events, n - 1));
      } else {
        DmRests(p, e);
      }
    }
  }

  lemma NextOfThirty(k: nat)
    ensures (k + 1) % 30 == if k % 30 == 29 then 0 else k % 30 + 1
  {}

  lemma HardNext(events: seq<Event>, n: nat)
    requires n < |events| && Searches(After(events, n), events[n])
    ensures Hard(events, n + 1) == if SteersHard(events[n].steering) then Hard(events, n) + 1 else 0
  {
    hide After, Searches;
  }

  lemma ThirtiethHard(p: Parking, e: Event, k: nat, next: nat)
    requires Searches(p, e) && p.hunt.turning == k % 30 && next == if SteersHard(e.steering) then k + 1 else 0
    ensures CurveAt(p, e) <==> next > 0 && next % 30 == 0
  {
    NextOfThirty(k);
    hide SteersHard;
  }

  /** In every run the search starts over after every thirty frames in a row of steering beyond 0.42 to either
      side, and in no other frame. */
  lemma CurveIff(events: seq<Event>, n: nat)
    requires n < |events| && Searches(After(events, n), events[n])
    ensures CurveAt(After(events, n), events[n]) <==> Hard(events, n + 1) > 0 && Hard(events, n + 1) % 30 == 0
  {
    TurningCounts(events, n);
    HardNext(events, n);
    hide After, Hard, CurveAt, SteersHard;
    ThirtiethHard(After(events, n), events[n], Hard(events, n), Hard(events, n + 1));
  }

  /** An object for 27 frames, then two of a gap and an object again, while the car steers hard. */
  function CurveEvent(i: nat): Event {
    ParkingFrame(Frame(1.0, 1.0, if 27 <= i < 29 then 1.0 else 0.1, 1.0, 1.0, 0.0), false, 0.5)
  }

  function InCurve(): (events: seq<Event>)
    ensures |events| == 30 && forall i :: 0 <= i < 30 ==> events[i] == CurveEvent(i)
  {
    seq(30, i requires 0 <= i < 30 => CurveEvent(i))
  }

  predicate OnCurve(p: Parking, n: nat) {
    && !p.hunt.isSpot && p.hunt.turning == n
    && p.hunt.search == (if n < 3 then FINDOBJECT else FINDGAPSTART)
    && p.expected == if n < 3 then n else if n < 28 then 0 else n - 27
  }

  lemma CurveStep(p: Parking, n: nat)
    requires n < 29 && OnCurve(p, n)
    ensures OnCurve(Dm(p, CurveEvent(n)), n + 1)
  {
    DmSearches(p, CurveEvent(n));
    hide Dm;
  }

  lemma {:induction false} CurveRun(n: nat)
    requires n <= 29
    ensures OnCurve(After(InCurve(), n), n)
  {
    hide Dm, InCurve, OnCurve, CurveEvent;
    if n > 0 {
      CurveRun(n - 1);
      CurveStep(After(InCurve(), n - 1), n - 1);
    } else {
      CurveBegins();
    }
  }

  lemma CurveBegins()
    ensures OnCurve(START, 0)
  {}

  /** The counter survives the curve: two readings of a gap and a single one of an object are three, and the
      search takes the object for found. */
  lemma OneObjectReading()
    ensures var p, e := After(InCurve(), 29), InCurve()[29];
      && CurveAt(p, e) && p.hunt.search == FINDGAPSTART && !Awaited(FINDOBJECT, InCurve()[28].f)
      && After(InCurve(), 30).hunt.search == FINDGAPSTART && After(InCurve(), 30).expected == 0
  {
    CurveRun(29);
    AfterNext(InCurve(), 29);
    DmSearches(After(InCurve(), 29), CurveEvent(29));
    hide Dm, After;
  }

  // ---------- The gap ----------

  /** The odometer when the search last entered `s`. */
  function EnteredAt(events: seq<Event>, s: Search, n: nat): real
    requires n <= |events|
  {
    if n == 0 then 0.0
    else if After(events, n).hunt.search == s != After(events, n - 1).hunt.search && events[n - 1].ParkingFrame?
    then events[n - 1].f.odometer
    else EnteredAt(events, s, n - 1)
  }

  lemma DmGap(p: Parking, e: Event)
    requires Pending(p)
    ensures var q := Dm(p, e);
      && q.hunt.gapStart == (if q.hunt.search == FINDGAPEND != p.hunt.search && e.ParkingFrame?
                             then e.f.odometer else p.hunt.gapStart)
      && q.hunt.gapEnd == (if q.hunt.search == CHECKSPACE != p.hunt.search && e.ParkingFrame?
                           then e.f.odometer else p.hunt.gapEnd)
  {
    hide Dm, Awaited;
    if Searches(p, e) {
      DmSearches(p, e);
    } else {
      DmRests(p, e);
    }
  }

  lemma {:induction false} GapIsMeasured(events: seq<Event>, n: nat)
    requires n <= |events|
    ensures After(events, n).hunt.gapStart == EnteredAt(events, FINDGAPEND, n)
    ensures After(events, n).hunt.gapEnd == EnteredAt(events, CHECKSPACE, n)
  {
    hide Dm, Pending;
    if n > 0 {
      GapIsMeasured(events, n - 1);
      RunPending(events, n - 1);
      DmGap(After(events, n - 1), events[n - 1]);
    }
  }

  /** In every run a spot is reported exactly when the odometer is more than 1.05 past the third reading of the
      gap and no object has closed it, or when the object that closed it did so more than 0.60 past it. */
  lemma SpotIff(events: seq<Event>, n: nat)
    requires n < |events| && !After(events, n).hunt.isSpot
    ensures var p, e, start := After(events, n), events[n], EnteredAt(events, FINDGAPEND, n);
      After(events, n + 1).hunt.isSpot <==>
        Searches(p, e) &&
        (|| (Heading(p, e) == FINDGAPEND && e.f.odometer > start + 1.05)
         || (Heading(p, e) == CHECKSPACE && EnteredAt(events, CHECKSPACE, n) - start > 0.60))
  {
    hide Dm, Awaited, CurveAt;
    var p, e := After(events, n), events[n];
    RunPending(events, n);
    GapIsMeasured(events, n);
    AfterNext(events, n);
    if Searches(p, e) {
      DmSearches(p, e);
    } else {
      DmRests(p, e);
    }
    hide Searches, After, EnteredAt;
  }

  // ---------- In the spot ----------

  /** The safety check looks at this frame. */
  predicate Checks(p: Parking, e: Event) {
    && e.ParkingFrame? && p.hunt.isSpot && !p.backing.isParked
    && !p.isInSpot && p.backing.phase != PHASE0
  }

  /** All three sensors on the right see nothing near. */
  predicate AllClear(f: Frame) {
    && (f.frontRightUs < 0.05 || f.frontRightUs > 0.25)
    && (f.frontRightIr < 0.05 || f.frontRightIr > 0.25)
    && (f.rearRightIr < 0.05 || f.rearRightIr > 0.25)
  }

  lemma DmChecks(p: Parking, e: Event)
    requires p.hunt.isSpot
    ensures var q := Dm(p, e);
      if Checks(p, e) then
        && (q.isInSpot <==> AllClear(e.f) && p.expected == 2)
        && q.expected <= (if AllClear(e.f) then p.expected + 1 else 0)
        && (p.backing.phase != PHASE4 ==> q.expected == if AllClear(e.f) then p.expected + 1 else 0)
      else
        q.expected <= p.expected && (if e.ResumeFrame? then q.isInSpot ==> p.isInSpot else q.isInSpot == p.isInSpot)
  {
    hide NotSafe, BackOnce, PlaceInSpot;
  }

  /** Clear frames in a row, of those that the safety check looked at. */
  function ClearInARow(events: seq<Event>, n: nat): nat
    requires n <= |events|
  {
    if n == 0 then 0
    else if !Checks(After(events, n - 1), events[n - 1]) then ClearInARow(events, n - 1)
    else if AllClear(events[n - 1].f) then ClearInARow(events, n - 1) + 1
    else 0
  }

  lemma {:induction false} ClearIsCounted(events: seq<Event>, n: nat)
    requires n <= |events| && After(events, n).hunt.isSpot
    ensures After(events, n).expected <= ClearInARow(events, n)
  {
    hide Dm, AllClear, Checks;
    if n > 0 {
      var p, e := After(events, n - 1), events[n - 1];
      RunPending(events, n - 1);
      if p.hunt.isSpot {
        ClearIsCounted(events, n - 1);
        DmChecks(p, e);
      } else {
        DmPending(p, e);
      }
    }
  }

  /** In every run the car is taken to be in the spot only in the third frame in a row in which all sensors on
      the right see nothing between 0.05 and 0.25. */
  lemma InSpotAfterThree(events: seq<Event>, n: nat)
    requires n < |events| && !After(events, n).isInSpot && After(events, n + 1).isInSpot
    ensures Checks(After(events, n), events[n]) && ClearInARow(events, n + 1) >= 3
  {
    hide Dm, AllClear, Checks;
    var p, e := After(events, n), events[n];
    AfterNext(events, n);
    if p.hunt.isSpot {
      DmChecks(p, e);
      ClearIsCounted(events, n);
    } else {
      SearchKeepsOut(p, e);
    }
  }

  lemma SearchKeepsOut(p: Parking, e: Event)
    requires !p.hunt.isSpot
    ensures Dm(p, e).isInSpot ==> p.isInSpot
  {
    if Searches(p, e) {
      WatchesCurve(p, e);
      SeekKeepsOut(p.(hunt := WatchCurve(p.hunt, e.steering)), e.f);
    }
    hide WatchCurve, SeekSpot;
  }

  lemma SeekKeepsOut(p: Parking, f: Frame)
    ensures SeekSpot(p, f).isInSpot == p.isInSpot
  {}

  /** Conversely, before the car creeps to its place, three such frames in a row are enough. */
  lemma ThreeClearFrames(events: seq<Event>, n: nat)
    requires n + 3 <= |events| && After(events, n).expected == 0
    requires forall j :: n <= j < n + 3 ==>
      && events[j].ParkingFrame? && AllClear(events[j].f)
      && After(events, j).hunt.isSpot && !After(events, j).backing.isParked
      && After(events, j).backing.phase != PHASE0 && After(events, j).backing.phase != PHASE4
    ensures After(events, n + 3).isInSpot
  {
    AfterNext(events, n);
    AfterNext(events, n + 1);
    AfterNext(events, n + 2);
    DmChecks(After(events, n), events[n]);
    DmChecks(After(events, n + 1), events[n + 1]);
    DmChecks(After(events, n + 2), events[n + 2]);
    hide Dm, AllClear, After;
  }

  // ---------- What the car is told to do ----------

  /** Backing into the spot: past the gap, around the corner, back and forth until parallel. `start` is where
      backing began. Exactly at the end of a phase nothing changes yet. */
  predicate Drives(b: Backing, f: Frame, gapEnd: real, start: real, c: Backing) {
    match b.phase
    case PHASE0 =>
      && c.reversing == b.reversing
      && (f.odometer < gapEnd + 0.20 ==> c.phase == PHASE0 && c.control == Control(1.0, 0.0, false))
      && (f.odometer == gapEnd + 0.20 ==> c == b)
      && (f.odometer > gapEnd + 0.20 ==> c.phase == PHASE1 && c.control == Control(0.0, b.control.steering, true))
    case PHASE1 =>
      && c.reversing
      && (f.odometer < start + 0.56 ==> c.phase == PHASE1 && c.control == Control(-1.0, 0.5, false))
      && (f.odometer == start + 0.56 ==> c == b.(reversing := true))
      && (f.odometer > start + 0.56 ==> c.phase == PHASE2 && c.control == Control(0.0, 0.0, b.control.brakeLights))
    case PHASE2 =>
      && c.reversing == b.reversing
      && (f.odometer < start + 0.56 ==> c.phase == PHASE2 && c.control == Control(-1.0, 0.0, false))
      && (f.odometer == start + 0.56 ==> c == b)
      && (f.odometer > start + 0.56 ==> c.phase == PHASE3 && c.control == b.control.(steering := -0.5))
    case PHASE3 =>
      && (f.odometer < start + 0.56 + 0.66 ==> c.phase == PHASE3 && Shuffles(b, f, c))
      && (f.odometer == start + 0.56 + 0.66 ==> c == b)
      && (f.odometer > start + 0.56 + 0.66 ==>
            c.phase == PHASE4 && c.control == Control(0.0, 0.0, true) && c.reversing == b.reversing)
    case PHASE4 => c.phase == PHASE4
    case SAFETYSTOP => c == b.(control := b.control.(speed := 0.0))
  }

  /** The car goes forward once something is within 0.19 behind it, and for as long as nothing is within 0.19 in
      front of it; before that it goes back. */
  predicate Shuffles(b: Backing, f: Frame, c: Backing) {
    var forward := (b.isCloseToBack || f.rearIr <= 0.19) && f.frontUs > 0.19;
    var back := !b.isCloseToBack && f.rearIr > 0.19;
    && c.isCloseToBack == forward
    && c.control == (if forward then Control(1.0, 0.5, false)
                     else if back then Control(-1.0, -0.5, false)
                     else b.control)
    && c.reversing == if forward then false else if back then true else b.reversing
  }

  /** The middle of the spot: between two objects the distances may differ by less than 0.15, with nothing in
      front there must be more than 0.15 behind. */
  predicate InMiddle(f: Frame, objInFront: bool) {
    if objInFront then -0.15 < f.frontUs - f.rearIr < 0.15 else f.rearIr > 0.15
  }

  predicate TooFarBack(f: Frame, objInFront: bool) {
    if objInFront then f.frontUs - f.rearIr >= 0.15 else f.rearIr < 0.08
  }

  predicate TooFarFront(f: Frame, objInFront: bool) {
    if objInFront then f.frontUs - f.rearIr <= -0.15 else 0.08 < f.rearIr <= 0.15
  }

  /** The car creeps to the middle of the spot and is parked there. */
  predicate CreepsTo(b: Backing, f: Frame, objInFront: bool, c: Backing) {
    var middle, forward, back := InMiddle(f, objInFront), TooFarBack(f, objInFront), TooFarFront(f, objInFront);
    && c.isParked == (b.isParked || middle)
    && c.control == (if middle then b.control.(speed := 0.0, brakeLights := true)
                     else b.control.(speed := if forward then 1.0 else if back then -1.0 else b.control.speed))
    && c.reversing == if middle || forward then false else if back then true else b.reversing
  }

  lemma OnceDrives(b: Backing, f: Frame, gapEnd: real, objInFront: bool, start: real)
    requires WayBacked(b, start)
    ensures var c := BackOnce(b, f, gapEnd, objInFront);
      Drives(b, f, gapEnd, start, c) && (b.phase == PHASE4 ==> CreepsTo(b, f, objInFront, c))
  {
    match b.phase
    case PHASE0 =>
    case PHASE1 =>
    case PHASE2 =>
    case PHASE3 =>
    case PHASE4 =>
    case SAFETYSTOP =>
  }

  /** In every run, as long as the car is not parked and the stop is not reached, a parking frame does what its
      phase is for, measured from where backing began. */
  lemma DrivesInRun(events: seq<Event>, n: nat)
    requires n < |events| && events[n].ParkingFrame?
    requires After(events, n).hunt.isSpot && !After(events, n).backing.isParked
    requires After(events, n).backing.phase == SAFETYSTOP || After(events, n + 1).backing.phase != SAFETYSTOP
    ensures var p, q, f := After(events, n), After(events, n + 1), events[n].f;
      && Drives(p.backing, f, p.hunt.gapEnd, BackingFrom(events, n), q.backing)
      && (p.backing.phase == PHASE4 ==> CreepsTo(p.backing, f, p.hunt.objInFront, q.backing))
  {
    hide Drives, CreepsTo, BackOnce, WayBacked;
    var p, f := After(events, n), events[n].f;
    RunBacks(events, n);
    AfterNext(events, n);
    CheckMayStop(p, f);
    var q := SafetyCheck(p, f);
    OnceStops(q.backing, f, q.hunt.gapEnd, q.hunt.objInFront);
    OnceDrives(p.backing, f, p.hunt.gapEnd, p.hunt.objInFront, BackingFrom(events, n));
    hide SafetyCheck, NotSafe, Creeps;
  }

  /** Creeping makes the count of clear frames start over. */
  lemma CreepingStartsOver(events: seq<Event>, n: nat)
    requires n < |events| && events[n].ParkingFrame?
    requires After(events, n).hunt.isSpot && !After(events, n).backing.isParked
    requires After(events, n).backing.phase == PHASE4 == After(events, n + 1).backing.phase
    ensures var f, front := events[n].f, After(events, n).hunt.objInFront;
      TooFarBack(f, front) || TooFarFront(f, front) ==> After(events, n + 1).expected == 0
  {
    AfterNext(events, n);
    hide After, NotSafe, SensorsClear;
  }

  // ---------- Back to the lane ----------

  /** Something has been within 0.05 behind the car on its way out. */
  function Blocked(events: seq<Event>, n: nat): bool
    requires n <= |events|
  {
    n > 0 && (Blocked(events, n - 1) || (events[n - 1].ResumeFrame? && events[n - 1].f.rearIr <= 0.05))
  }

  /** The odometer when the car was last told to go back further on its way out. */
  function BackedTo(events: seq<Event>, n: nat): real
    requires n <= |events|
  {
    if n == 0 then 0.0
    else if events[n - 1].ResumeFrame? && !Blocked(events, n) then events[n - 1].f.odometer
    else BackedTo(events, n - 1)
  }

  /** One frame of the way out. */
  predicate GoesBack(p: Parking, f: Frame, q: Parking) {
    if p.leaving.outOfSpot then q == p
    else if p.leaving.resume then
      if f.odometer < p.leaving.resumeFrom + 0.1
      then
        && q.leaving == p.leaving && !q.backing.reversing
        && q.backing.control == p.backing.control.(speed := 1.0, steering := -0.5)
      else q.leaving == p.leaving.(outOfSpot := true) && !q.isInSpot && q.backing == p.backing
    else if f.rearIr > 0.05 then
      && q.leaving == p.leaving.(resumeFrom := f.odometer) && q.backing.reversing
      && q.backing.control == p.backing.control.(speed := -1.0)
    else q.leaving == p.leaving.(resume := true) && q.backing == p.backing
  }

  lemma DmLeaves(p: Parking, e: Event)
    ensures if e.ResumeFrame? then GoesBack(p, e.f, Dm(p, e)) else Dm(p, e).leaving == p.leaving
  {
    hide NotSafe, BackOnce, PlaceInSpot, WatchCurve;
  }

  lemma {:induction false} LeavingMeans(events: seq<Event>, n: nat)
    requires n <= |events|
    ensures var l := After(events, n).leaving;
      && (l.resume <==> Blocked(events, n)) && (l.outOfSpot ==> l.resume) && l.resumeFrom == BackedTo(events, n)
  {
    hide Dm;
    if n > 0 {
      LeavingMeans(events, n - 1);
      DmLeaves(After(events, n - 1), events[n - 1]);
    }
  }

  /** In every run the car backs until something is within 0.05 behind it, then goes forward steering left, and
      is out of the spot exactly when the odometer is 0.1 past the last frame of backing. */
  lemma OutOfSpotIff(events: seq<Event>, n: nat)
    requires n < |events| && !After(events, n).leaving.outOfSpot
    ensures After(events, n + 1).leaving.outOfSpot <==>
      events[n].ResumeFrame? && Blocked(events, n) && events[n].f.odometer >= BackedTo(events, n) + 0.1
    ensures events[n].ResumeFrame? && !After(events, n + 1).leaving.outOfSpot ==>
      var c, d := After(events, n).backing.control, After(events, n + 1).backing.control;
      d == if Blocked(events, n) then c.(speed := 1.0, steering := -0.5)
           else if events[n].f.rearIr > 0.05 then c.(speed := -1.0)
           else c
  {
    hide Dm;
    LeavingMeans(events, n);
    DmLeaves(After(events, n), events[n]);
    AfterNext(events, n);
    hide After;
  }
}
