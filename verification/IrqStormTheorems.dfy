/** Every interleaving of the storm conserves its messages, reports each loss sooner or later, keeps the
    order of each direction, and drains once the timers stop. */
module IrqStormTheorems {
  import opened Options
  import opened IrqStorm

  lemma StepValid(s: Storm, e: Event)
    requires Valid(s)
    ensures Valid(Step(s, e))
  {}

  // ---------- Conservation ----------

  function Copies(ms: seq<Msg>, m: Msg): nat {
    multiset(ms)[m]
  }

  function InBoxes(boxes: seq<seq<Msg>>, m: Msg): nat {
    if boxes == [] then 0 else Copies(boxes[0], m) + InBoxes(boxes[1..], m)
  }

  function Held(hand: Option<Msg>, m: Msg): nat {
    if hand == Some(m) then 1 else 0
  }

  function InHands(hands: seq<Option<Msg>>, m: Msg): nat {
    if hands == [] then 0 else Held(hands[0], m) + InHands(hands[1..], m)
  }

  /** How often a message exists: queued, in hand, out at either end, or dropped. */
  function Everywhere(s: Storm, m: Msg): nat {
    InBoxes(s.boxes, m) + InHands(s.hands, m) + Copies(s.leftEnd, m) + Copies(s.rightEnd, m) + Copies(s.dropped, m)
  }

  lemma {:induction false} BoxReplaced(boxes: seq<seq<Msg>>, i: nat, box: seq<Msg>, m: Msg)
    requires i < |boxes|
    ensures InBoxes(boxes[i := box], m) + Copies(boxes[i], m) == InBoxes(boxes, m) + Copies(box, m)
  {
    hide Copies;
    if i > 0 {
      assert boxes[i := box][1..] == boxes[1..][i - 1 := box];
      BoxReplaced(boxes[1..], i - 1, box, m);
    } else {
      assert boxes[i := box][1..] == boxes[1..];
    }
  }

  lemma {:induction false} HandReplaced(hands: seq<Option<Msg>>, i: nat, hand: Option<Msg>, m: Msg)
    requires i < |hands|
    ensures InHands(hands[i := hand], m) + Held(hands[i], m) == InHands(hands, m) + Held(hand, m)
  {
    if i > 0 {
      assert hands[i := hand][1..] == hands[1..][i - 1 := hand];
      HandReplaced(hands[1..], i - 1, hand, m);
    } else {
      assert hands[i := hand][1..] == hands[1..];
    }
  }

  lemma Pushed(ms: seq<Msg>, x: Msg, m: Msg)
    ensures Copies(ms + [x], m) == Copies(ms, m) + Held(Some(x), m)
  {}

  lemma PostConserves(s: Storm, target: nat, x: Msg, m: Msg)
    requires target < |s.boxes|
    ensures Everywhere(Post(s, target, x), m) == Everywhere(s, m) + Held(Some(x), m)
  {
    hide Copies, InBoxes, InHands;
    Pushed(s.boxes[target], x, m);
    Pushed(s.dropped, x, m);
    BoxReplaced(s.boxes, target, s.boxes[target] + [x], m);
  }

  lemma InjectConserves(s: Storm, target: nat, dir: Direction, m: Msg)
    requires target < |s.boxes| && Everywhere(s, m) == Copies(s.injected, m)
    ensures Everywhere(Inject(s, target, dir), m) == Copies(Inject(s, target, dir).injected, m)
  {
    hide Copies, InBoxes, InHands;
    var x := Msg(dir, |s.injected|);
    PostConserves(s.(injected := s.injected + [x]), target, x, m);
    Pushed(s.injected, x, m);
  }

  lemma TakeConserves(s: Storm, me: nat, m: Msg)
    requires Valid(s) && Enabled(s, Fetch(me))
    ensures Everywhere(Take(s, me), m) == Everywhere(s, m)
  {
    hide InBoxes, InHands;
    var box := s.boxes[me];
    BoxReplaced(s.boxes, me, box[1..], m);
    HandReplaced(s.hands, me, Some(box[0]), m);
    assert box == [box[0]] + box[1..];
  }

  lemma PassOnConserves(s: Storm, me: nat, m: Msg)
    requires Valid(s) && Enabled(s, Forward(me))
    ensures Everywhere(PassOn(s, me, s.hands[me].value), m) == Everywhere(s, m)
  {
    hide Copies, InBoxes, InHands;
    var x := s.hands[me].value;
    var t := s.(hands := s.hands[me := None]);
    HandReplaced(s.hands, me, None, m);
    var target := Target(x.dir, me);
    if 0 <= target < |s.boxes| {
      PostConserves(t, target, x, m);
    } else {
      Pushed(s.leftEnd, x, m);
      Pushed(s.rightEnd, x, m);
    }
  }

  lemma StepConserves(s: Storm, e: Event, m: Msg)
    requires Valid(s) && Everywhere(s, m) == Copies(s.injected, m)
    ensures Everywhere(Step(s, e), m) == Copies(Step(s, e).injected, m)
  {
    hide Copies, Inject, Take, Everywhere;
    if Enabled(s, e) {
      match e
      case Gpt1 => InjectConserves(s, 0, SendRight, m);
      case Gpt2 => InjectConserves(s, |s.boxes| - 1, SendLeft, m);
      case Fetch(me) =>
        TakeConserves(s, me, m);
        TakeKeepsInjected(s, me);
      case Forward(me) => PassOnConserves(s, me, m);
      case Raise(me) => FlagConserves(s, e, m);
      case Clear => FlagConserves(s, e, m);
    }
  }

  lemma TakeKeepsInjected(s: Storm, me: nat)
    requires Valid(s) && Enabled(s, Fetch(me))
    ensures Take(s, me).injected == s.injected
  {}

  lemma FlagConserves(s: Storm, e: Event, m: Msg)
    requires Valid(s) && (e == Clear || e.Raise?)
    ensures Everywhere(Step(s, e), m) == Everywhere(s, m) && Step(s, e).injected == s.injected
  {}

  /** Messages are told apart by the order of their injection. */
  predicate Numbered(ms: seq<Msg>) {
    forall i :: 0 <= i < |ms| ==> ms[i].id == i
  }

  lemma StepNumbers(s: Storm, e: Event)
    requires Numbered(s.injected)
    ensures Numbered(Step(s, e).injected)
  {}

  lemma {:induction false} NumberedOnce(ms: seq<Msg>, m: Msg)
    requires Numbered(ms)
    ensures Copies(ms, m) == if m in ms then 1 else 0
  {
    if ms != [] {
      var n := |ms| - 1;
      NumberedOnce(ms[..n], m);
      Pushed(ms[..n], ms[n], m);
      assert ms == ms[..n] + [ms[n]];
    }
  }

  lemma {:induction false} RunNumbers(threads: nat, size: nat, events: seq<Event>)
    ensures Numbered(Run(Initial(threads, size), events).injected)
  {
    if events != [] {
      hide Step;
      RunNumbers(threads, size, events[..|events| - 1]);
      StepNumbers(Run(Initial(threads, size), events[..|events| - 1]), events[|events| - 1]);
    }
  }

  /** In every interleaving each message that was injected, and no other, exists exactly once: queued, in hand,
      out of the chain at either end, or dropped. */
  lemma Conservation(threads: nat, size: nat, events: seq<Event>, m: Msg)
    requires threads > 0 && size > 0
    ensures var s := Run(Initial(threads, size), events);
      && Valid(s) && Everywhere(s, m) == Copies(s.injected, m)
      && Everywhere(s, m) == if m in s.injected then 1 else 0
  {
    hide Everywhere, Copies, Step, Numbered;
    RunConserves(threads, size, events, m);
    RunNumbers(threads, size, events);
    NumberedOnce(Run(Initial(threads, size), events).injected, m);
  }

  lemma {:induction false} RunConserves(threads: nat, size: nat, events: seq<Event>, m: Msg)
    requires threads > 0 && size > 0
    ensures var s := Run(Initial(threads, size), events);
      Valid(s) && Everywhere(s, m) == Copies(s.injected, m)
  {
    if events == [] {
      EmptyChain(threads, m);
    } else {
      hide Everywhere, Copies, Step;
      var before := Run(Initial(threads, size), events[..|events| - 1]);
      RunConserves(threads, size, events[..|events| - 1], m);
      StepConserves(before, events[|events| - 1], m);
      StepValid(before, events[|events| - 1]);
    }
  }

  lemma {:induction false} EmptyChain(threads: nat, m: Msg)
    ensures InBoxes(seq(threads, i => []), m) == 0 && InHands(seq(threads, i => None), m) == 0
  {
    if threads > 0 {
      var boxes: seq<seq<Msg>>, hands: seq<Option<Msg>> := seq(threads, i => []), seq(threads, i => None);
      assert boxes[1..] == seq(threads - 1, i => []);
      assert hands[1..] == seq(threads - 1, i => None);
      EmptyChain(threads - 1, m);
    }
  }

  // ---------- When a message is lost ----------

  /** A message is lost exactly if the mailbox it is posted to holds `size` messages already. */
  lemma LossIff(s: Storm, e: Event)
    requires Valid(s)
    ensures |Step(s, e).dropped| > |s.dropped| <==>
      match e
      case Gpt1 => |s.boxes[0]| == s.size
      case Gpt2 => |s.boxes[|s.boxes| - 1]| == s.size
      case Forward(me) =>
        && me < |s.boxes| && s.hands[me].Some? && me !in s.flag.raising
        && var next := if s.hands[me].value.dir == SendLeft then me - 1 else me + 1;
           0 <= next < |s.boxes| && |s.boxes[next]| == s.size
      case _ => false
    ensures |Step(s, e).dropped| > |s.dropped| ==> exists i :: 0 <= i < |s.boxes| && |s.boxes[i]| == s.size
  {}

  function Gpt1Only(n: nat): seq<Event> { seq(n, i => Gpt1) }

  /** The mailbox of the first thread takes as many messages as it has room for, and loses the next one. */
  lemma {:induction false} FillsUp(threads: nat, size: nat, n: nat)
    requires threads > 0 && size > 0 && n <= size + 1
    ensures var s := Run(Initial(threads, size), Gpt1Only(n));
      && Valid(s) && s.size == size && |s.boxes[0]| == (if n <= size then n else size)
      && |s.dropped| == (if n <= size then 0 else 1) && (s.flag.saturated <==> n > size)
  {
    if n > 0 {
      hide Step;
      FillsUp(threads, size, n - 1);
      assert Gpt1Only(n)[..n - 1] == Gpt1Only(n - 1);
      PostsFirst(Run(Initial(threads, size), Gpt1Only(n - 1)));
    }
  }

  lemma PostsFirst(s: Storm)
    requires Valid(s)
    ensures var t := Step(s, Gpt1);
      && Valid(t) && t.size == s.size
      && |t.boxes[0]| == (if |s.boxes[0]| < s.size then |s.boxes[0]| + 1 else s.size)
      && |t.dropped| == (if |s.boxes[0]| < s.size then |s.dropped| else |s.dropped| + 1)
      && (t.flag.saturated <==> s.flag.saturated || |s.boxes[0]| == s.size)
  {}

  // ---------- The flag ----------

  predicate LostSinceClear(s: Storm) { |s.dropped| > s.flag.clearedAt }

  /** A loss since the flag was last cleared is on it, or some thread is about to put it there; and if no thread
      was about to when it was cleared, nothing else can be. */
  predicate FlagMeans(s: Storm) {
    && s.flag.clearedAt <= |s.dropped|
    && (LostSinceClear(s) ==> s.flag.saturated || s.flag.raising != {})
    && (s.flag.clearedQuietly ==> (LostSinceClear(s) <==> s.flag.saturated || s.flag.raising != {}))
  }

  lemma StepKeepsFlag(s: Storm, e: Event)
    requires FlagMeans(s)
    ensures var t := Step(s, e);
      && FlagMeans(t)
      && (e != Clear ==>
            t.flag.clearedAt == s.flag.clearedAt && t.flag.clearedQuietly == s.flag.clearedQuietly)
  {
    if Enabled(s, e) {
      match e
      case Gpt1 =>
      case Gpt2 =>
      case Fetch(me) =>
      case Forward(me) =>
        assert me in s.flag.raising + {me};
      case Raise(me) =>
      case Clear =>
    }
  }

  lemma {:induction false} RunFlag(threads: nat, size: nat, events: seq<Event>)
    ensures FlagMeans(Run(Initial(threads, size), events))
  {
    if events != [] {
      hide Step, FlagMeans;
      RunFlag(threads, size, events[..|events| - 1]);
      StepKeepsFlag(Run(Initial(threads, size), events[..|events| - 1]), events[|events| - 1]);
    }
  }

  /** In every interleaving a loss since the flag was last cleared means that the flag is up or some thread is
      about to raise it. If no thread was about to at the last clear and none is now, the flag is up exactly
      when a message was dropped since. */
  lemma SaturatedMeansDropped(threads: nat, size: nat, events: seq<Event>)
    ensures var s := Run(Initial(threads, size), events);
      && (LostSinceClear(s) ==> s.flag.saturated || s.flag.raising != {})
      && (s.flag.clearedQuietly && s.flag.raising == {} ==> (s.flag.saturated <==> LostSinceClear(s)))
  {
    RunFlag(threads, size, events);
  }

  /** Two threads with mailboxes of one message; the first one loses what it passes on. */
  function Losing(): seq<Event> { [Gpt1, Fetch(0), Gpt2, Forward(0)] }

  /** Both conditions are needed. After the loss the flag is still down; and if it is cleared now, the late store
      raises it although nothing has been dropped since. */
  lemma FlagComesLate()
    ensures var s := Run(Initial(2, 1), Losing());
      && LostSinceClear(s) && !s.flag.saturated && s.flag.raising == {0}
      && var t := Step(Step(s, Clear), Raise(0)); t.flag.saturated && t.flag.raising == {} && !LostSinceClear(t)
  {
    var es := Losing();
    var s4 := LosingEnd();
    var s0 := Initial(2, 1);
    var s1 := Step(s0, Gpt1);
    var s2 := Step(s1, Fetch(0));
    var s3 := Step(s2, Gpt2);
    assert es[..3][..2] == es[..2] && es[..2][..1] == es[..1] && es[..1][..0] == [];
    hide Step;
    assert Run(s0, es[..1]) == s1;
    assert Run(s0, es[..2]) == s2;
    assert Run(s0, es[..3]) == s3;
    assert Run(s0, es) == Step(s3, Forward(0)) == s4;
    LateStore(s4);
  }

  lemma LateStore(s: Storm)
    requires s.boxes != [] && s.flag.raising == {0}
    ensures var t := Step(Step(s, Clear), Raise(0)); t.flag.saturated && t.flag.raising == {} && !LostSinceClear(t)
  {}

  lemma LosingEnd() returns (s4: Storm)
    ensures s4 == Step(Step(Step(Step(Initial(2, 1), Gpt1), Fetch(0)), Gpt2), Forward(0))
    ensures LostSinceClear(s4) && !s4.flag.saturated && s4.flag.raising == {0} && s4.boxes != []
  {
    var s0 := Initial(2, 1);
    assert s0.boxes == [[], []] && s0.hands == [None, None];
    hide Step;
    LosingPost(s0);
    var s1 := Step(s0, Gpt1);
    LosingFetch(s1);
    var s2 := Step(s1, Fetch(0));
    LosingSecond(s2);
    var s3 := Step(s2, Gpt2);
    LosingForward(s3);
    s4 := Step(s3, Forward(0));
  }

  /** What the four steps do to a chain of two threads that has lost nothing. */
  predicate Lossless(s: Storm, boxes: seq<seq<Msg>>, hands: seq<Option<Msg>>, injected: nat) {
    && s.size == 1 && |boxes| == |hands| == 2 && s.boxes == boxes && s.hands == hands && |s.injected| == injected
    && s.flag == Flag({}, false, 0, true) && s.dropped == []
  }

  lemma LosingPost(s: Storm)
    requires Lossless(s, [[], []], [None, None], 0)
    ensures Lossless(Step(s, Gpt1), [[Msg(SendRight, 0)], []], [None, None], 1)
  {
    assert [] + [Msg(SendRight, 0)] == [Msg(SendRight, 0)];
    assert Step(s, Gpt1).boxes == s.boxes[0 := [Msg(SendRight, 0)]];
  }

  lemma LosingFetch(s: Storm)
    requires Lossless(s, [[Msg(SendRight, 0)], []], [None, None], 1)
    ensures Lossless(Step(s, Fetch(0)), [[], []], [Some(Msg(SendRight, 0)), None], 1)
  {
    assert [Msg(SendRight, 0)][1..] == [];
    assert Step(s, Fetch(0)).boxes == s.boxes[0 := []];
    assert Step(s, Fetch(0)).hands == s.hands[0 := Some(Msg(SendRight, 0))];
  }

  lemma LosingSecond(s: Storm)
    requires Lossless(s, [[], []], [Some(Msg(SendRight, 0)), None], 1)
    ensures Lossless(Step(s, Gpt2), [[], [Msg(SendLeft, 1)]], [Some(Msg(SendRight, 0)), None], 2)
  {
    assert [] + [Msg(SendLeft, 1)] == [Msg(SendLeft, 1)];
    assert Step(s, Gpt2).boxes == s.boxes[1 := [Msg(SendLeft, 1)]];
  }

  lemma LosingForward(s: Storm)
    requires Lossless(s, [[], [Msg(SendLeft, 1)]], [Some(Msg(SendRight, 0)), None], 2)
    ensures var t := Step(s, Forward(0));
      LostSinceClear(t) && !t.flag.saturated && t.flag.raising == {0} && t.boxes != []
  {
    assert Full(s, 1);
  }

  // ---------- Order ----------

  function Only(box: seq<Msg>, dir: Direction): seq<Msg> {
    if box == [] then [] else (if box[0].dir == dir then [box[0]] else []) + Only(box[1..], dir)
  }

  lemma {:induction false} OnlyConcat(a: seq<Msg>, b: seq<Msg>, dir: Direction)
    ensures Only(a + b, dir) == Only(a, dir) + Only(b, dir)
  {
    if a == [] {
      assert a + b == b;
    } else {
      assert (a + b)[1..] == a[1..] + b;
      OnlyConcat(a[1..], b, dir);
    }
  }

  /** The thread that is `k` hops before the end a direction leads to. */
  function Place(n: nat, dir: Direction, k: nat): nat
    requires k < n
  {
    if dir == SendLeft then k else n - 1 - k
  }

  /** The messages of one direction at the thread `k` hops before the end, oldest first. */
  function Station(s: Storm, dir: Direction, k: nat): seq<Msg>
    requires k < |s.boxes| == |s.hands|
  {
    var i := Place(|s.boxes|, dir, k);
    OfDirection(s.hands[i], s.boxes[i], dir)
  }

  /** What a thread has in hand comes before what is in its mailbox. */
  function OfDirection(hand: Option<Msg>, box: seq<Msg>, dir: Direction): seq<Msg> {
    (if hand.Some? && hand.value.dir == dir then [hand.value] else []) + Only(box, dir)
  }

  lemma OfDirectionPushed(hand: Option<Msg>, box: seq<Msg>, dir: Direction, m: Msg)
    ensures OfDirection(hand, box + [m], dir)
         == if m.dir == dir then OfDirection(hand, box, dir) + [m] else OfDirection(hand, box, dir)
  {
    OnlyConcat(box, [m], dir);
    assert [m][1..] == [];
    assert Only([m], dir) == if m.dir == dir then [m] else [];
    hide Only;
  }

  function Stations(s: Storm, dir: Direction): (xs: seq<seq<Msg>>)
    requires |s.boxes| == |s.hands|
    ensures |xs| == |s.boxes|
  {
    seq(|s.boxes|, k requires 0 <= k < |s.boxes| == |s.hands| => Station(s, dir, k))
  }

  function Flat(xs: seq<seq<Msg>>): seq<Msg> {
    if xs == [] then [] else xs[0] + Flat(xs[1..])
  }

  lemma {:induction false} FlatConcat(a: seq<seq<Msg>>, b: seq<seq<Msg>>)
    ensures Flat(a + b) == Flat(a) + Flat(b)
  {
    if a == [] {
      assert a + b == b;
    } else {
      assert (a + b)[1..] == a[1..] + b;
      FlatConcat(a[1..], b);
    }
  }

  function End(s: Storm, dir: Direction): seq<Msg> {
    if dir == SendLeft then s.leftEnd else s.rightEnd
  }

  /** All surviving messages of a direction, from the first that left to the last that entered. */
  function Stream(s: Storm, dir: Direction): seq<Msg>
    requires |s.boxes| == |s.hands|
  {
    End(s, dir) + Flat(Stations(s, dir))
  }

  predicate Increasing(ms: seq<Msg>) {
    forall i, j :: 0 <= i < j < |ms| ==> ms[i].id < ms[j].id
  }

  ghost predicate InOrder(s: Storm, dir: Direction)
    requires |s.boxes| == |s.hands|
  {
    var ms := Stream(s, dir);
    Increasing(ms) && forall i :: 0 <= i < |ms| ==> ms[i].id < |s.injected| && ms[i].dir == dir
  }

  /** Replacing one station changes the stream in one place. */
  lemma FlatReplaced(xs: seq<seq<Msg>>, k: nat, y: seq<Msg>)
    requires k < |xs|
    ensures Flat(xs[k := y]) == Flat(xs[..k]) + (y + Flat(xs[k + 1..]))
  {
    assert xs[k := y] == xs[..k] + ([y] + xs[k + 1..]);
    FlatConcat(xs[..k], [y] + xs[k + 1..]);
    assert ([y] + xs[k + 1..])[1..] == xs[k + 1..];
  }

  lemma FlatSplit(xs: seq<seq<Msg>>, k: nat)
    requires k < |xs|
    ensures Flat(xs) == Flat(xs[..k]) + (xs[k] + Flat(xs[k + 1..]))
  {
    FlatReplaced(xs, k, xs[k]);
    assert xs[k := xs[k]] == xs;
  }

  lemma FlatPair(p: seq<seq<Msg>>, x: seq<Msg>, y: seq<Msg>, q: seq<seq<Msg>>)
    ensures Flat(p + ([x, y] + q)) == Flat(p) + ((x + y) + Flat(q))
  {
    FlatConcat(p, [x, y] + q);
    FlatConcat([x, y], q);
    assert [x, y][1..] == [y] && [y][1..] == [];
    assert Flat([y]) == y;
  }

  /** A message handed to the next station keeps its place in the stream. */
  lemma FlatHandedOn(xs: seq<seq<Msg>>, k: nat, m: Msg)
    requires 0 < k < |xs| && xs[k] != [] && xs[k][0] == m
    ensures Flat(xs[k := xs[k][1..]][k - 1 := xs[k - 1] + [m]]) == Flat(xs)
  {
    var p, q, b, c := xs[..k - 1], xs[k + 1..], xs[k - 1], xs[k][1..];
    var ys := xs[k := c][k - 1 := b + [m]];
    assert [m] + c == xs[k];
    assert xs == p + ([b, [m] + c] + q);
    assert ys == p + ([b + [m], c] + q);
    hide Flat;
    FlatPair(p, b, [m] + c, q);
    FlatPair(p, b + [m], c, q);
    assert b + ([m] + c) == (b + [m]) + c;
  }

  lemma StationAppended(s: Storm, t: Storm, dir: Direction, target: nat, m: Msg, j: nat)
    requires target < |s.boxes| == |s.hands| && j < |s.boxes|
    requires t.hands == s.hands && t.boxes == s.boxes[target := s.boxes[target] + [m]]
    ensures Station(t, dir, j)
         == if j == Place(|s.boxes|, dir, target) && m.dir == dir then Station(s, dir, j) + [m] else Station(s, dir, j)
  {
    hide OfDirection;
    OfDirectionPushed(s.hands[target], s.boxes[target], dir, m);
  }

  lemma Appended(s: Storm, t: Storm, dir: Direction, target: nat, m: Msg)
    requires target < |s.boxes| == |s.hands|
    requires t.hands == s.hands && t.boxes == s.boxes[target := s.boxes[target] + [m]]
    ensures var k := Place(|s.boxes|, dir, target);
      Stations(t, dir) == if m.dir == dir then Stations(s, dir)[k := Stations(s, dir)[k] + [m]] else Stations(s, dir)
  {
    hide Station;
    forall j | 0 <= j < |s.boxes|
      ensures Station(t, dir, j)
           == if j == Place(|s.boxes|, dir, target) && m.dir == dir
              then Station(s, dir, j) + [m] else Station(s, dir, j)
    {
      StationAppended(s, t, dir, target, m, j);
    }
  }

  lemma Released(s: Storm, dir: Direction, me: nat)
    requires me < |s.boxes| == |s.hands| && s.hands[me].Some?
    ensures var m, k, t := s.hands[me].value, Place(|s.boxes|, dir, me), s.(hands := s.hands[me := None]);
      if m.dir == dir
      then
        && Stations(s, dir)[k] != [] && Stations(s, dir)[k][0] == m
        && Stations(t, dir) == Stations(s, dir)[k := Stations(s, dir)[k][1..]]
      else Stations(t, dir) == Stations(s, dir)
  {
    var n, m, t := |s.boxes|, s.hands[me].value, s.(hands := s.hands[me := None]);
    var k := Place(n, dir, me);
    assert Station(s, dir, k) == (if m.dir == dir then [m] else []) + Station(t, dir, k);
    forall j | 0 <= j < n && j != k ensures Station(t, dir, j) == Station(s, dir, j) {
      assert Place(n, dir, j) != me;
    }
  }

  lemma Taken(s: Storm, dir: Direction, me: nat)
    requires Valid(s) && Enabled(s, Fetch(me))
    ensures Stations(Take(s, me), dir) == Stations(s, dir)
  {
    var k, t := Place(|s.boxes|, dir, me), Take(s, me);
    assert Station(t, dir, k) == Station(s, dir, k);
  }

  // ---------- Each step keeps the order ----------

  lemma StreamPushed(s: Storm, t: Storm, dir: Direction, m: Msg)
    requires Valid(s) && Valid(t) && InOrder(s, dir) && m == Msg(dir, |s.injected|)
    requires Stream(t, dir) == Stream(s, dir) + [m] && t.injected == s.injected + [m]
    ensures InOrder(t, dir)
  {
    hide Stream;
  }

  lemma StreamKept(s: Storm, t: Storm, dir: Direction)
    requires Valid(s) && Valid(t) && InOrder(s, dir)
    requires Stream(t, dir) == Stream(s, dir) && |t.injected| >= |s.injected|
    ensures InOrder(t, dir)
  {
    hide Stream;
  }

  lemma InjectInOrder(s: Storm, target: nat, dir: Direction, d: Direction)
    requires Valid(s) && InOrder(s, d)
    requires target == if dir == SendRight then 0 else |s.boxes| - 1
    ensures InOrder(Inject(s, target, dir), d)
  {
    hide InOrder, Flat, Station;
    var m, n := Msg(dir, |s.injected|), |s.boxes|;
    var t := Inject(s, target, dir);
    var xs := Stations(s, d);
    if !Full(s, target) {
      Appended(s, t, d, target, m);
      if dir == d {
        FlatPushed(xs, m);
        assert Stream(t, d) == End(s, d) + (Flat(xs) + [m]) == Stream(s, d) + [m];
        StreamPushed(s, t, d, m);
      } else {
        StreamKept(s, t, d);
      }
    } else {
      SameStations(s, t, d);
      StreamKept(s, t, d);
    }
  }

  lemma FlatPushed(xs: seq<seq<Msg>>, m: Msg)
    requires xs != []
    ensures var last := |xs| - 1; Flat(xs[last := xs[last] + [m]]) == Flat(xs) + [m]
  {
    hide Flat;
    var last := |xs| - 1;
    var a, b := Flat(xs[..last]), xs[last];
    FlatReplaced(xs, last, b + [m]);
    FlatSplit(xs, last);
    FlatNothing();
    assert xs[last + 1..] == [];
    assert a + ((b + [m]) + []) == (a + (b + [])) + [m];
  }

  lemma FlatNothing()
    ensures Flat([]) == []
  {}

  lemma Removed(a: seq<Msg>, m: Msg, b: seq<Msg>)
    requires Increasing(a + ([m] + b))
    ensures Increasing(a + b)
  {
    var before, after := a + ([m] + b), a + b;
    forall i, j | 0 <= i < j < |after| ensures after[i].id < after[j].id {
      var i', j' := if i < |a| then i else i + 1, if j < |a| then j else j + 1;
      assert before[i'] == after[i] && before[j'] == after[j];
    }
  }

  lemma DropInOrder(s: Storm, t: Storm, k: nat, m: Msg, dir: Direction)
    requires Valid(s) && Valid(t) && InOrder(s, dir) && |t.boxes| == |s.boxes| && k < |s.boxes|
    requires t.injected == s.injected && End(t, dir) == End(s, dir)
    requires Stations(s, dir)[k] != [] && Stations(s, dir)[k][0] == m
    requires Stations(t, dir) == Stations(s, dir)[k := Stations(s, dir)[k][1..]]
    ensures InOrder(t, dir)
  {
    hide Stations, Flat;
    var xs := Stations(s, dir);
    FlatSplit(xs, k);
    FlatReplaced(xs, k, xs[k][1..]);
    var a, c, d := Flat(xs[..k]), xs[k][1..], Flat(xs[k + 1..]);
    assert xs[k] == [m] + c;
    var e := End(s, dir) + a;
    assert Stream(s, dir) == End(s, dir) + (a + (([m] + c) + d)) == e + ([m] + (c + d));
    assert Stream(t, dir) == End(s, dir) + (a + (c + d)) == e + (c + d);
    Removed(e, m, c + d);
    forall i | 0 <= i < |Stream(t, dir)| ensures Stream(t, dir)[i].id < |t.injected| && Stream(t, dir)[i].dir == dir {
      var i' := if i < |e| then i else i + 1;
      assert Stream(s, dir)[i'] == Stream(t, dir)[i];
    }
  }

  /** The three fates of a message that a thread passes on: out of the chain, dropped, or handed on. */
  lemma LeavesInOrder(s: Storm, t: Storm, m: Msg, dir: Direction)
    requires Valid(s) && Valid(t) && InOrder(s, dir) && t.injected == s.injected
    requires Stations(s, dir)[0] != [] && Stations(s, dir)[0][0] == m
    requires Stations(t, dir) == Stations(s, dir)[0 := Stations(s, dir)[0][1..]] && End(t, dir) == End(s, dir) + [m]
    ensures InOrder(t, dir)
  {
    hide InOrder, Flat, Stations, End;
    var xs := Stations(s, dir);
    var c := xs[0][1..];
    FlatReplaced(xs, 0, c);
    FlatSplit(xs, 0);
    FlatNothing();
    assert xs[0] == [m] + c && xs[..0] == [];
    assert End(s, dir) + ([] + (([m] + c) + Flat(xs[1..]))) == (End(s, dir) + [m]) + ([] + (c + Flat(xs[1..])));
    StreamKept(s, t, dir);
  }

  lemma PassOnInOrder(s: Storm, me: nat, d: Direction)
    requires Valid(s) && Enabled(s, Forward(me)) && InOrder(s, d)
    ensures InOrder(PassOn(s, me, s.hands[me].value), d)
  {
    hide InOrder, Flat, Station;
    var m, n := s.hands[me].value, |s.boxes|;
    var s1, t := s.(hands := s.hands[me := None]), PassOn(s, me, m);
    var target, k, xs := Target(m.dir, me), Place(n, d, me), Stations(s, d);
    StepValid(s, Forward(me));
    Released(s, d, me);
    if 0 <= target < n && !Full(s, target) {
      Appended(s1, t, d, target, m);
      if m.dir == d {
        assert Place(n, d, target) == k - 1;
        FlatHandedOn(xs, k, m);
      }
      StreamKept(s, t, d);
    } else {
      SameStations(s1, t, d);
      if m.dir != d {
        StreamKept(s, t, d);
      } else if 0 <= target < n {
        DropInOrder(s, t, k, m, d);
      } else {
        LeavesInOrder(s, t, m, d);
      }
    }
  }

  lemma SameStations(s: Storm, t: Storm, dir: Direction)
    requires |s.boxes| == |s.hands| && t.boxes == s.boxes && t.hands == s.hands
    ensures Stations(t, dir) == Stations(s, dir)
  {}

  lemma StepInOrder(s: Storm, e: Event, dir: Direction)
    requires Valid(s) && InOrder(s, dir)
    ensures Valid(Step(s, e)) && InOrder(Step(s, e), dir)
  {
    hide InOrder;
    StepValid(s, e);
    if Enabled(s, e) {
      match e
      case Gpt1 => InjectInOrder(s, 0, SendRight, dir);
      case Gpt2 => InjectInOrder(s, |s.boxes| - 1, SendLeft, dir);
      case Fetch(me) =>
        Taken(s, dir, me);
        StreamKept(s, Step(s, e), dir);
      case Forward(me) => PassOnInOrder(s, me, dir);
      case Raise(me) =>
        SameStations(s, Step(s, e), dir);
        StreamKept(s, Step(s, e), dir);
      case Clear =>
        SameStations(s, Step(s, e), dir);
        StreamKept(s, Step(s, e), dir);
    }
  }

  lemma {:induction false} FlatEmpty(n: nat, xs: seq<seq<Msg>>)
    requires |xs| == n && forall k :: 0 <= k < n ==> xs[k] == []
    ensures Flat(xs) == []
  {
    if n > 0 {
      FlatEmpty(n - 1, xs[1..]);
    }
  }

  lemma {:induction false} RunInOrder(threads: nat, size: nat, events: seq<Event>, dir: Direction)
    requires threads > 0 && size > 0
    ensures var s := Run(Initial(threads, size), events); Valid(s) && InOrder(s, dir)
  {
    if events == [] {
      FlatEmpty(threads, Stations(Initial(threads, size), dir));
    } else {
      RunInOrder(threads, size, events[..|events| - 1], dir);
      hide InOrder;
      StepInOrder(Run(Initial(threads, size), events[..|events| - 1]), events[|events| - 1], dir);
    }
  }

  /** In every interleaving the messages that came out at one end are messages of that direction, in the
      order of their injection. */
  lemma SurvivorsKeepOrder(threads: nat, size: nat, events: seq<Event>, dir: Direction)
    requires threads > 0 && size > 0
    ensures var out := End(Run(Initial(threads, size), events), dir);
      Increasing(out) && forall i :: 0 <= i < |out| ==> out[i].dir == dir
  {
    RunInOrder(threads, size, events, dir);
    var s := Run(Initial(threads, size), events);
    var out, ms := End(s, dir), Stream(s, dir);
    assert forall i :: 0 <= i < |out| ==> out[i] == ms[i];
  }

  // ---------- Draining ----------

  /** Twice the hops a message still has to go before it leaves the chain, from mailbox `i` of `n`. */
  function HopsLeft(n: nat, dir: Direction, i: nat): nat
    requires i < n
  {
    2 * (if dir == SendLeft then i + 1 else n - i)
  }

  function BoxHops(n: nat, i: nat, box: seq<Msg>): nat
    requires i < n
  {
    if box == [] then 0 else HopsLeft(n, box[0].dir, i) + BoxHops(n, i, box[1..])
  }

  function HandHops(n: nat, i: nat, hand: Option<Msg>): nat
    requires i < n
  {
    if hand.Some? then HopsLeft(n, hand.value.dir, i) - 1 else 0
  }

  /** The remaining hops of all messages at the threads from `i` on. */
  function HopsFrom(s: Storm, i: nat): nat
    requires i <= |s.boxes| == |s.hands|
    decreases |s.boxes| - i
  {
    if i == |s.boxes| then 0
    else BoxHops(|s.boxes|, i, s.boxes[i]) + HandHops(|s.boxes|, i, s.hands[i]) + HopsFrom(s, i + 1)
  }

  lemma {:induction false} BoxHopsPushed(n: nat, i: nat, box: seq<Msg>, m: Msg)
    requires i < n
    ensures BoxHops(n, i, box + [m]) == BoxHops(n, i, box) + HopsLeft(n, m.dir, i)
  {
    if box == [] {
      assert ([] + [m])[1..] == [];
    } else {
      assert (box + [m])[1..] == box[1..] + [m];
      BoxHopsPushed(n, i, box[1..], m);
    }
  }

  /** Changing what lies at thread `k` changes the sum by as much. */
  lemma {:induction false} HopsChanged(s: Storm, t: Storm, k: nat, i: nat)
    requires |s.boxes| == |s.hands| == |t.boxes| == |t.hands| && i <= k < |s.boxes|
    requires forall j :: 0 <= j < |s.boxes| && j != k ==> t.boxes[j] == s.boxes[j] && t.hands[j] == s.hands[j]
    ensures var n := |s.boxes|;
      HopsFrom(t, i) + BoxHops(n, k, s.boxes[k]) + HandHops(n, k, s.hands[k])
      == HopsFrom(s, i) + BoxHops(n, k, t.boxes[k]) + HandHops(n, k, t.hands[k])
    decreases k - i
  {
    if i < k {
      HopsChanged(s, t, k, i + 1);
    } else {
      HopsBeyond(s, t, k, i + 1);
    }
  }

  lemma {:induction false} HopsBeyond(s: Storm, t: Storm, k: nat, i: nat)
    requires |s.boxes| == |s.hands| == |t.boxes| == |t.hands| && k < i <= |s.boxes|
    requires forall j :: 0 <= j < |s.boxes| && j != k ==> t.boxes[j] == s.boxes[j] && t.hands[j] == s.hands[j]
    ensures HopsFrom(t, i) == HopsFrom(s, i)
    decreases |s.boxes| - i
  {
    if i < |s.boxes| {
      HopsBeyond(s, t, k, i + 1);
    }
  }

  lemma PostHops(s: Storm, target: nat, m: Msg)
    requires target < |s.boxes| == |s.hands|
    ensures HopsFrom(Post(s, target, m), 0) <= HopsFrom(s, 0) + HopsLeft(|s.boxes|, m.dir, target)
  {
    hide BoxHops;
    var t := Post(s, target, m);
    HopsChanged(s, t, target, 0);
    BoxHopsPushed(|s.boxes|, target, s.boxes[target], m);
  }

  predicate ThreadEvent(e: Event) { e.Fetch? || e.Forward? || e.Raise? }

  /** What is left to do: the remaining hops, and the losses still to be reported. */
  function Remaining(s: Storm): nat
    requires |s.boxes| == |s.hands|
  {
    HopsFrom(s, 0) + |s.flag.raising|
  }

  lemma ForwardDrains(s: Storm, me: nat)
    requires Valid(s) && Enabled(s, Forward(me))
    ensures Remaining(Step(s, Forward(me))) < Remaining(s)
  {
    hide BoxHops;
    var m := s.hands[me].value;
    var s1 := s.(hands := s.hands[me := None]);
    HopsChanged(s, s1, me, 0);
    var target := Target(m.dir, me);
    if 0 <= target < |s.boxes| && !Full(s, target) {
      PostHops(s1, target, m);
      assert HopsLeft(|s.boxes|, m.dir, target) == HopsLeft(|s.boxes|, m.dir, me) - 2;
      HopsFromSame(Post(s1, target, m), PassOn(s, me, m), 0);
    } else {
      HopsFromSame(s1, PassOn(s, me, m), 0);
    }
  }

  /** Every step of a thread that can run takes what is left to do down. */
  lemma ThreadStepDrains(s: Storm, e: Event)
    requires Valid(s) && ThreadEvent(e) && Enabled(s, e)
    ensures Remaining(Step(s, e)) < Remaining(s)
  {
    match e {
      case Fetch(me) =>
        HopsChanged(s, Take(s, me), me, 0);
      case Forward(me) =>
        ForwardDrains(s, me);
      case Raise(me) =>
        HopsFromSame(s, Step(s, e), 0);
    }
  }

  lemma {:induction false} HopsFromSame(s: Storm, t: Storm, i: nat)
    requires i <= |s.boxes| == |s.hands| && t.boxes == s.boxes && t.hands == s.hands
    ensures HopsFrom(t, i) == HopsFrom(s, i)
    decreases |s.boxes| - i
  {
    if i < |s.boxes| {
      HopsFromSame(s, t, i + 1);
    }
  }

  /** A schedule in which only threads run, and only threads that can. */
  ghost predicate Schedule(s: Storm, events: seq<Event>)
    decreases |events|
  {
    events == [] || (ThreadEvent(events[0]) && Enabled(s, events[0]) && Schedule(Step(s, events[0]), events[1..]))
  }

  /** With the timers stopped no schedule is longer than what is left to do. */
  lemma {:induction false} DrainIsBounded(s: Storm, events: seq<Event>)
    requires Valid(s) && Schedule(s, events)
    ensures |events| <= Remaining(s)
    decreases |events|
  {
    hide Remaining, Step;
    if events != [] {
      ThreadStepDrains(s, events[0]);
      StepValid(s, events[0]);
      DrainIsBounded(Step(s, events[0]), events[1..]);
    }
  }

  /** The chain cannot get stuck: as long as a message is in it, or a loss is not reported, some thread can run. */
  lemma NoDeadlock(s: Storm)
    requires Valid(s)
    ensures (forall e :: ThreadEvent(e) ==> !Enabled(s, e))
       <==> s.flag.raising == {} && (forall i :: 0 <= i < |s.boxes| ==> s.boxes[i] == [] && s.hands[i] == None)
  {
    if forall e :: ThreadEvent(e) ==> !Enabled(s, e) {
      if s.flag.raising != {} {
        var me :| me in s.flag.raising;
        assert Enabled(s, Raise(me));
        assert false;
      }
      forall i | 0 <= i < |s.boxes| ensures s.boxes[i] == [] && s.hands[i] == None {
        assert !Enabled(s, Forward(i)) && !Enabled(s, Fetch(i));
      }
    }
  }

  lemma {:induction false} NoneInBoxes(boxes: seq<seq<Msg>>, hands: seq<Option<Msg>>, m: Msg)
    requires |boxes| == |hands| && forall i :: 0 <= i < |boxes| ==> boxes[i] == [] && hands[i] == None
    ensures InBoxes(boxes, m) == 0 && InHands(hands, m) == 0
  {
    if boxes != [] {
      NoneInBoxes(boxes[1..], hands[1..], m);
    }
  }

  /** Once no thread can run any more, every message that was injected has left the chain or was dropped, and
      every loss since the flag was last cleared is on it. */
  lemma DrainedChainLosesNothing(threads: nat, size: nat, events: seq<Event>, m: Msg)
    requires threads > 0 && size > 0
    requires forall e :: ThreadEvent(e) ==> !Enabled(Run(Initial(threads, size), events), e)
    ensures var s := Run(Initial(threads, size), events);
      && Copies(s.injected, m) == Copies(s.leftEnd, m) + Copies(s.rightEnd, m) + Copies(s.dropped, m)
      && (LostSinceClear(s) ==> s.flag.saturated)
  {
    hide Copies, Step, InBoxes, InHands, Enabled;
    var s := Run(Initial(threads, size), events);
    Conservation(threads, size, events, m);
    NoDeadlock(s);
    NoneInBoxes(s.boxes, s.hands, m);
    SaturatedMeansDropped(threads, size, events);
  }

  // ---------- The threshold of a sweep ----------

  predicate NoClear(events: seq<Event>) { Clear !in events }

  lemma {:induction false} RunKeepsFlag(s: Storm, events: seq<Event>)
    requires FlagMeans(s) && NoClear(events)
    ensures var t := Run(s, events);
      FlagMeans(t) && t.flag.clearedAt == s.flag.clearedAt && t.flag.clearedQuietly == s.flag.clearedQuietly
  {
    hide Step, FlagMeans;
    if events != [] {
      var n := |events| - 1;
      assert events[n] in events;
      assert NoClear(events[..n]) by {
        assert forall e :: e in events[..n] ==> e in events;
      }
      RunKeepsFlag(s, events[..n]);
      StepKeepsFlag(Run(s, events[..n]), events[n]);
    }
  }

  /** The chain at the end of interval `v` of a sweep that comes that far. */
  function AtEndOf(s: Storm, plan: Plan, interval: nat, v: nat): Storm
    decreases interval
  {
    if interval < 2 then s
    else
      var t := Run(s, plan(interval));
      if interval <= v then t else AtEndOf(t, plan, interval - (interval + 9) / 10, v)
  }

  /** A message has been dropped between `before` and `after`. */
  predicate DroppedBetween(before: Storm, after: Storm) {
    |after.dropped| > |before.dropped|
  }

  /** What a sweep from `s` finds, if the flag was cleared at `c`. */
  predicate Finds(c: Storm, s: Storm, plan: Plan, interval: nat) {
    var (t, threshold) := SweepFrom(s, plan, interval);
    && (threshold == 0 ==> DroppedBetween(c, t) ==> t.flag.raising != {})
    && (threshold != 0 ==>
          && threshold in Sweep(interval) && t == AtEndOf(s, plan, interval, threshold)
          && (c.flag.raising == {} ==> DroppedBetween(c, t)))
    && forall v :: v in Sweep(interval) && v > threshold ==>
         DroppedBetween(c, AtEndOf(s, plan, interval, v)) ==> AtEndOf(s, plan, interval, v).flag.raising != {}
  }

  /** The flag was cleared at `c` and has not been seen up since. */
  predicate Sweeping(c: Storm, s: Storm) {
    && FlagMeans(s) && !s.flag.saturated
    && s.flag.clearedAt == |c.dropped| && s.flag.clearedQuietly == (c.flag.raising == {})
  }

  lemma {:induction false} SweepFindsFirst(c: Storm, s: Storm, plan: Plan, interval: nat)
    requires Sweeping(c, s) && forall v :: NoClear(plan(v))
    ensures Finds(c, s, plan, interval)
    decreases interval
  {
    hide Run, NoClear;
    if interval >= 2 {
      var t, next := Run(s, plan(interval)), interval - (interval + 9) / 10;
      RunKeepsFlag(s, plan(interval));
      SweepBelow(interval);
      SweepBelow(next);
      if !t.flag.saturated {
        SweepFindsFirst(c, t, plan, next);
      }
    }
  }

  /** Whatever happens at each interval: a message dropped since the iteration cleared the flag makes the first
      interval at whose end no thread is still about to raise it the threshold, at the latest. And if no thread
      was about to when it was cleared, a message has been dropped since. So if none is whenever the flag is read
      or cleared, the threshold is the first interval at whose end a message had been dropped, or zero. */
  lemma ThresholdIsFirst(s: Storm, plan: Plan, start: nat)
    requires Valid(s) && forall v :: NoClear(plan(v))
    ensures Finds(Step(s, Clear), Step(s, Clear), plan, start)
  {
    SweepFindsFirst(Step(s, Clear), Step(s, Clear), plan, start);
  }

  /** No thread is about to raise the flag when it is cleared or read. */
  predicate QuietlyRead(c: Storm, plan: Plan, start: nat) {
    c.flag.raising == {} &&
    forall v :: v in Sweep(start) && v >= SweepFrom(c, plan, start).1 ==> AtEndOf(c, plan, start, v).flag.raising == {}
  }

  lemma QuietThreshold(s: Storm, plan: Plan, start: nat)
    requires Valid(s) && (forall v :: NoClear(plan(v))) && QuietlyRead(Step(s, Clear), plan, start)
    ensures var c := Step(s, Clear);
      var threshold := SweepFrom(c, plan, start).1;
      && (threshold != 0 ==> threshold in Sweep(start) && DroppedBetween(c, AtEndOf(c, plan, start, threshold)))
      && forall v :: v in Sweep(start) && v > threshold ==> !DroppedBetween(c, AtEndOf(c, plan, start, v))
  {
    hide Step, Run, SweepFrom, AtEndOf;
    ThresholdIsFirst(s, plan, start);
  }

  /** The threshold of iteration `i`. */
  function ThresholdOf(s: Storm, plans: nat -> Plan, rests: Plan, i: nat, start: nat): nat
    requires i > 0
  {
    SweepFrom(Step(Iterations(s, plans, rests, i - 1, start).0, Clear), plans(i), start).1
  }

  /** What is reported as the worst case is the greatest threshold of all iterations. */
  lemma {:induction false} WorstIsGreatest(s: Storm, plans: nat -> Plan, rests: Plan, n: nat, start: nat)
    ensures var worst := Iterations(s, plans, rests, n, start).1;
      && (forall i :: 1 <= i <= n ==> ThresholdOf(s, plans, rests, i, start) <= worst)
      && (worst != 0 ==> exists i :: 1 <= i <= n && ThresholdOf(s, plans, rests, i, start) == worst)
  {
    hide SweepFrom, Step, Run;
    if n > 0 {
      WorstIsGreatest(s, plans, rests, n - 1, start);
      var worst := Iterations(s, plans, rests, n, start).1;
      if worst != Iterations(s, plans, rests, n - 1, start).1 {
        assert ThresholdOf(s, plans, rests, n, start) == worst;
      }
    }
  }

  lemma {:induction false} SweepBelow(interval: nat)
    ensures forall v :: v in Sweep(interval) ==> v <= interval
    decreases interval
  {
    if interval >= 2 {
      SweepBelow(interval - (interval + 9) / 10);
    }
  }
}
