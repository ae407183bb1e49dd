/** The triple buffer between one producer and one consumer. Each swap and each wait is one atomic step. */
module TriBuf {

  /** A buffer is known by its address. */
  type Buffer = nat

  /** The handler; `ready` is the counter of the semaphore, or in the build without waiting the flag. */
  datatype Handler = Handler(front: Buffer, back: Buffer, orphan: Buffer, ready: nat)

  function SwapFront(h: Handler): Handler {
    h.(front := h.orphan, orphan := h.front)
  }

  /** The signal is given only if none is pending, so the counter never passes one. */
  function SwapBack(h: Handler): Handler {
    h.(back := h.orphan, orphan := h.back, ready := if h.ready < 1 then h.ready + 1 else h.ready)
  }

  class Tribuf {
    var front: Buffer
    var back: Buffer
    var orphan: Buffer
    var ready: nat

    ghost function State(): Handler
      reads this
    {
      Handler(front, back, orphan, ready)
    }

    constructor ObjectInit(front: Buffer, back: Buffer, orphan: Buffer)
      ensures State() == Handler(front, back, orphan, 0)
    {
      this.front := front;
      this.back := back;
      this.orphan := orphan;
      ready := 0;
    }

    method SwapFrontI()
      modifies this
      ensures State() == SwapFront(old(State()))
    {
      var newFront := orphan;
      orphan := front;
      front := newFront;
    }

    method SwapBackI()
      modifies this
      ensures State() == SwapBack(old(State()))
    {
      var newBack := orphan;
      orphan := back;
      back := newBack;
      if ready < 1 {
        ready := ready + 1;
      }
    }

    /** A wait that does not block takes the signal. */
    method WaitReady() returns (taken: bool)
      modifies this
      ensures taken == (old(ready) > 0)
      ensures State() == if taken then old(State()).(ready := old(ready) - 1) else old(State())
    {
      taken := ready > 0;
      if taken {
        ready := ready - 1;
      }
    }
  }

  // ---------- Producer and consumer ----------

  /** Frames are numbered from one; `published` is the newest. `waited` says that the consumer has taken the
      signal and not swapped yet, `overlapped` that a frame was published between its last wait and the swap
      that followed, and `isNew` that a frame was published since the last front swap. */
  datatype System = System(
    h: Handler,
    contents: map<Buffer, nat>,
    published: nat,
    waited: bool,
    overlapped: bool,
    isNew: bool,
    delivered: seq<nat>)

  datatype Event = Publish | Wait | Swap | WaitAndSwap

  function Initial(front: Buffer, back: Buffer, orphan: Buffer): System {
    System(Handler(front, back, orphan, 0), map[front := 0, back := 0, orphan := 0], 0, false, false, false, [])
  }

  function Frame(contents: map<Buffer, nat>, b: Buffer): nat {
    if b in contents then contents[b] else 0
  }

  /** The producer fills its back buffer with the next frame and swaps it out. */
  function Produce(s: System): System {
    s.(h := SwapBack(s.h), contents := s.contents[s.h.back := s.published + 1],
       published := s.published + 1, isNew := true, overlapped := s.overlapped || s.waited)
  }

  function Consume(s: System): System {
    var h := SwapFront(s.h);
    s.(h := h, waited := false, isNew := false, delivered := s.delivered + [Frame(s.contents, h.front)])
  }

  /** A consumer that finds no signal waits, and one that has not waited does not swap. */
  function Step(s: System, e: Event): System {
    match e
    case Publish => Produce(s)
    case Wait =>
      if !s.waited && s.h.ready > 0
      then s.(h := s.h.(ready := s.h.ready - 1), waited := true, overlapped := false)
      else s
    case Swap => if s.waited then Consume(s) else s
    case WaitAndSwap =>
      if !s.waited && s.h.ready > 0
      then Consume(s.(h := s.h.(ready := s.h.ready - 1), overlapped := false))
      else s
  }

  function Run(s: System, events: seq<Event>): System {
    if events == [] then s else Step(Run(s, events[..|events| - 1]), events[|events| - 1])
  }

  // ---------- Every interleaving ----------

  ghost predicate Distinct(front: Buffer, back: Buffer, orphan: Buffer) {
    front != back && back != orphan && front != orphan
  }

  function Buffers(h: Handler): multiset<Buffer> {
    multiset{h.front, h.back, h.orphan}
  }

  lemma StepPermutes(s: System, e: Event)
    ensures Buffers(Step(s, e).h) == Buffers(s.h)
    ensures s.h.ready <= 1 ==> Step(s, e).h.ready <= 1
  {
    SwapFrontPermutes(s.h);
    SwapBackPermutes(s.h);
    hide Buffers;
    var h := s.h.(ready := s.h.ready - if s.h.ready > 0 then 1 else 0);
    SwapFrontPermutes(h);
    SameBuffers(s.h, h);
  }

  lemma SwapFrontPermutes(h: Handler)
    ensures Buffers(SwapFront(h)) == Buffers(h)
  {}

  lemma SwapBackPermutes(h: Handler)
    ensures Buffers(SwapBack(h)) == Buffers(h)
  {}

  lemma SameBuffers(h: Handler, g: Handler)
    requires h.front == g.front && h.back == g.back && h.orphan == g.orphan
    ensures Buffers(h) == Buffers(g)
  {}

  /** No step loses a buffer or gives one to both sides. */
  lemma {:induction false} StaysPermutation(front: Buffer, back: Buffer, orphan: Buffer, events: seq<Event>)
    ensures var h := Run(Initial(front, back, orphan), events).h;
      Buffers(h) == multiset{front, back, orphan} && h.ready <= 1
  {
    if events != [] {
      hide Buffers, Step;
      var n := |events| - 1;
      StaysPermutation(front, back, orphan, events[..n]);
      StepPermutes(Run(Initial(front, back, orphan), events[..n]), events[n]);
    }
  }

  /** A new frame waits in the orphan buffer; without one the newest was delivered before. */
  ghost predicate Tracked(s: System) {
    && Distinct(s.h.front, s.h.back, s.h.orphan)
    && (forall b :: Frame(s.contents, b) <= s.published)
    && (forall i :: 0 <= i < |s.delivered| ==> s.delivered[i] <= s.published)
    && (if s.isNew
        then Frame(s.contents, s.h.orphan) == s.published > 0 && s.published !in s.delivered
        else s.published == 0 || s.published in s.delivered)
  }

  lemma ProduceTracks(s: System)
    requires Tracked(s)
    ensures Tracked(Produce(s))
  {
    var t := Produce(s);
    forall b ensures Frame(t.contents, b) <= t.published {
      assert Frame(s.contents, b) <= s.published;
      assert Frame(t.contents, b) == if b == s.h.back then t.published else Frame(s.contents, b);
    }
    assert Frame(t.contents, t.h.orphan) == t.published;
  }

  lemma ConsumeTracks(s: System)
    requires Tracked(s)
    ensures Tracked(Consume(s))
  {
    var frame := Frame(s.contents, s.h.orphan);
    assert s.delivered + [frame] == Consume(s).delivered;
    assert s.published in s.delivered ==> s.published in s.delivered + [frame];
  }

  lemma StepTracks(s: System, e: Event)
    requires Tracked(s)
    ensures Tracked(Step(s, e))
  {
    match e
    case Publish => ProduceTracks(s);
    case Wait =>
    case Swap => ConsumeTracks(s);
    case WaitAndSwap =>
      if s.h.ready > 0 {
        ConsumeTracks(s.(h := s.h.(ready := s.h.ready - 1)));
      }
  }

  lemma {:induction false} RunTracks(front: Buffer, back: Buffer, orphan: Buffer, events: seq<Event>)
    requires Distinct(front, back, orphan)
    ensures Tracked(Run(Initial(front, back, orphan), events))
  {
    if events != [] {
      hide Tracked, Step;
      var n := |events| - 1;
      RunTracks(front, back, orphan, events[..n]);
      StepTracks(Run(Initial(front, back, orphan), events[..n]), events[n]);
    }
  }

  /** The producer never writes to the buffer the consumer reads from. */
  lemma FrontIsStable(front: Buffer, back: Buffer, orphan: Buffer, events: seq<Event>)
    requires Distinct(front, back, orphan)
    ensures var s := Run(Initial(front, back, orphan), events);
      Produce(s).h.front == s.h.front && Frame(Produce(s).contents, s.h.front) == Frame(s.contents, s.h.front)
  {
    RunTracks(front, back, orphan, events);
  }

  /** In every interleaving a front swap delivers the newest frame, one never delivered before, exactly when
      a frame was published since the previous front swap. */
  lemma SwapDeliversNewestIff(front: Buffer, back: Buffer, orphan: Buffer, events: seq<Event>)
    requires Distinct(front, back, orphan)
    ensures var s := Run(Initial(front, back, orphan), events);
      var frame := Frame(s.contents, SwapFront(s.h).front);
      frame == s.published && frame > 0 && frame !in s.delivered <==> s.isNew
  {
    RunTracks(front, back, orphan, events);
  }

  // ---------- Waiting and swapping in one step ----------

  predicate Atomic(events: seq<Event>) {
    forall e :: e in events ==> e == Publish || e == WaitAndSwap
  }

  predicate Increasing(frames: seq<nat>) {
    forall i, j :: 0 <= i < j < |frames| ==> frames[i] < frames[j]
  }

  /** The signal is pending exactly while there is something new. */
  ghost predicate SignalsNew(s: System) {
    !s.waited && (s.h.ready > 0 <==> s.isNew) && s.h.ready <= 1 && Increasing(s.delivered)
  }

  lemma AtomicStep(s: System, e: Event)
    requires Tracked(s) && SignalsNew(s) && (e == Publish || e == WaitAndSwap)
    ensures SignalsNew(Step(s, e))
    ensures Step(s, e).delivered == if e == WaitAndSwap && s.isNew then s.delivered + [s.published] else s.delivered
  {}

  lemma {:induction false} AtomicRun(front: Buffer, back: Buffer, orphan: Buffer, events: seq<Event>)
    requires Distinct(front, back, orphan) && Atomic(events)
    ensures SignalsNew(Run(Initial(front, back, orphan), events))
  {
    if events != [] {
      hide Tracked, Step, SignalsNew;
      var n := |events| - 1;
      assert Atomic(events[..n]) by {
        assert forall e :: e in events[..n] ==> e in events;
      }
      assert events[n] in events;
      AtomicRun(front, back, orphan, events[..n]);
      RunTracks(front, back, orphan, events[..n]);
      AtomicStep(Run(Initial(front, back, orphan), events[..n]), events[n]);
    }
  }

  /** If each wait and its swap are one step, every delivery is the newest published frame, nothing is
      delivered without one, and frame numbers strictly increase. */
  lemma AtomicConsumerGetsNewest(front: Buffer, back: Buffer, orphan: Buffer, events: seq<Event>)
    requires Distinct(front, back, orphan) && Atomic(events)
    ensures var s := Run(Initial(front, back, orphan), events);
      var t := Step(s, WaitAndSwap);
      && Increasing(t.delivered)
      && t.delivered == if s.isNew then s.delivered + [s.published] else s.delivered
  {
    hide Tracked, Step;
    AtomicRun(front, back, orphan, events);
    RunTracks(front, back, orphan, events);
    AtomicStep(Run(Initial(front, back, orphan), events), WaitAndSwap);
  }

  // ---------- Waiting and swapping apart ----------

  /** No frame is published while the consumer has waited and not yet swapped. */
  predicate Orderly(s: System, events: seq<Event>) {
    events == [] ||
    var n := |events| - 1;
    Orderly(s, events[..n]) && (events[n] == Publish ==> !Run(s, events[..n]).waited)
  }

  /** The signal announces what is new; taking it does not change that. */
  ghost predicate Announced(s: System) {
    && Increasing(s.delivered)
    && (if s.waited then s.h.ready == 0 && s.isNew else s.h.ready <= 1 && (s.h.ready > 0 <==> s.isNew))
  }

  lemma ConsumeIncreases(s: System)
    requires Tracked(s) && s.isNew && Increasing(s.delivered)
    ensures Consume(s).delivered == s.delivered + [s.published] && Increasing(Consume(s).delivered)
  {
    forall i | 0 <= i < |s.delivered| ensures s.delivered[i] < s.published {
      assert s.delivered[i] in s.delivered;
    }
  }

  lemma OrderlyStep(s: System, e: Event)
    requires Tracked(s) && Announced(s) && (e == Publish ==> !s.waited)
    ensures Announced(Step(s, e))
    ensures Step(s, e).delivered == s.delivered || Step(s, e).delivered == s.delivered + [s.published]
  {
    match e
    case Publish =>
    case Wait =>
    case Swap =>
      if s.waited {
        ConsumeIncreases(s);
      }
    case WaitAndSwap =>
      if !s.waited && s.h.ready > 0 {
        ConsumeIncreases(s.(h := s.h.(ready := s.h.ready - 1)));
      }
  }

  lemma {:induction false} OrderlyRun(front: Buffer, back: Buffer, orphan: Buffer, events: seq<Event>)
    requires Distinct(front, back, orphan) && Orderly(Initial(front, back, orphan), events)
    ensures Announced(Run(Initial(front, back, orphan), events))
  {
    if events != [] {
      hide Tracked, Step, Announced;
      var n := |events| - 1;
      OrderlyRun(front, back, orphan, events[..n]);
      RunTracks(front, back, orphan, events[..n]);
      OrderlyStep(Run(Initial(front, back, orphan), events[..n]), events[n]);
    }
  }

  /** With wait and swap apart, order holds in every run in which no frame is published between a wait and its
      swap: frame numbers strictly increase, and every delivery is the newest published frame. */
  lemma OrderlyConsumerGetsNewest(front: Buffer, back: Buffer, orphan: Buffer, events: seq<Event>, e: Event)
    requires Distinct(front, back, orphan) && Orderly(Initial(front, back, orphan), events)
    requires e != Publish
    ensures var s := Run(Initial(front, back, orphan), events);
      var t := Step(s, e);
      && Increasing(t.delivered)
      && (t.delivered == s.delivered || t.delivered == s.delivered + [s.published])
  {
    hide Tracked, Step;
    OrderlyRun(front, back, orphan, events);
    RunTracks(front, back, orphan, events);
    OrderlyStep(Run(Initial(front, back, orphan), events), e);
  }

  /** And it cannot be had otherwise: from every run that leaves the consumer between a wait and its swap, a
      frame published at that moment makes a consumer that goes on by the rules receive frames out of order. */
  lemma OverlapBreaksOrder(front: Buffer, back: Buffer, orphan: Buffer, events: seq<Event>)
    requires Distinct(front, back, orphan) && Run(Initial(front, back, orphan), events).waited
    ensures var s := Run(Initial(front, back, orphan), events);
      !Increasing(Step(Step(Step(Step(s, Publish), Swap), Wait), Swap).delivered)
  {
    var s := Run(Initial(front, back, orphan), events);
    RunTracks(front, back, orphan, events);
    var s1 := Produce(s);
    StaysPermutation(front, back, orphan, events);
    ProduceTracks(s);
    var s2 := Consume(s1);
    ConsumeTracks(s1);
    var s3 := Step(s2, Wait);
    assert s3.waited;
    var s4 := Consume(s3);
    var n := |s.delivered|;
    assert s4.delivered[n] == s1.published && s4.delivered[n + 1] <= s1.published;
  }

  function Split(): seq<Event> { [Publish, Wait, Publish, Swap, Wait, Swap] }

  /** A frame published between a wait and its swap leaves a signal behind that announces nothing: the
      consumer gets the newest frame and then, by the same rules, an older one. */
  lemma SplitGoesBackwards()
    ensures Run(Initial(0, 1, 2), Split()).delivered == [2, 0]
  {
    var s0 := Initial(0, 1, 2);
    var s1 := Step(s0, Publish);
    var s2 := Step(s1, Wait);
    var s3 := Step(s2, Publish);
    var s4 := Step(s3, Swap);
    var s5 := Step(s4, Wait);
    var s6 := Step(s5, Swap);
    var es := Split();
    assert es[..5][..4] == es[..4] && es[..4][..3] == es[..3] && es[..3][..2] == es[..2];
    assert es[..2][..1] == es[..1] && es[..1][..0] == [];
    assert Run(s0, es[..1]) == s1;
    assert Run(s0, es[..2]) == s2;
    assert Run(s0, es[..3]) == s3;
    assert Run(s0, es[..4]) == s4;
    assert Run(s0, es[..5]) == s5;
    assert Run(s0, es) == s6;
  }

  ghost predicate SignalTracked(s: System) {
    && s.h.ready <= 1
    && (if s.waited then s.h.ready > 0 <==> s.overlapped else s.h.ready > 0 <==> s.isNew || s.overlapped)
  }

  /** In every interleaving: between deliveries the signal is up exactly if there is a new frame or one was
      published between the last wait and its swap. So only such an overlap makes it announce nothing. */
  lemma {:induction false} SignalIff(front: Buffer, back: Buffer, orphan: Buffer, events: seq<Event>)
    ensures SignalTracked(Run(Initial(front, back, orphan), events))
  {
    if events != [] {
      SignalIff(front, back, orphan, events[..|events| - 1]);
    }
  }
}
