/** The interrupt storm: two timers push messages into the ends of a chain of threads, and every thread
    passes on what it fetches. Each fetch, post and callback is one atomic step; a thread that has lost a message
    raises the flag in a step of its own. */
module IrqStorm {
  import opened Options

  datatype Direction = SendLeft | SendRight

  /** A message carries its direction only; the number says as how many-th it was injected. */
  datatype Msg = Msg(dir: Direction, id: nat)

  /** The flag: the threads that have lost a message and not yet raised it, whether it is up, how many messages
      were lost when it was last cleared, and whether no thread was about to raise it then. */
  datatype Flag = Flag(raising: set<nat>, saturated: bool, clearedAt: nat, clearedQuietly: bool)

  /** The mailboxes, what each thread has fetched but not yet passed on, the flag, and what has become of
      the messages so far. */
  datatype Storm = Storm(
    size: nat,
    boxes: seq<seq<Msg>>,
    hands: seq<Option<Msg>>,
    flag: Flag,
    injected: seq<Msg>,
    leftEnd: seq<Msg>,
    rightEnd: seq<Msg>,
    dropped: seq<Msg>)

  datatype Event = Gpt1 | Gpt2 | Fetch(me: nat) | Forward(me: nat) | Raise(me: nat) | Clear

  ghost predicate Valid(s: Storm) {
    && s.size > 0 && |s.boxes| > 0 && |s.hands| == |s.boxes|
    && (forall i :: i in s.flag.raising ==> i < |s.boxes| && s.hands[i] == None)
    && forall i :: 0 <= i < |s.boxes| ==> |s.boxes[i]| <= s.size
  }

  function Initial(threads: nat, size: nat): Storm {
    Storm(size, seq(threads, i => []), seq(threads, i => None), Flag({}, false, 0, true), [], [], [], [])
  }

  predicate Full(s: Storm, target: nat)
    requires target < |s.boxes|
  {
    |s.boxes[target]| >= s.size
  }

  /** A post that does not wait: a full mailbox loses the message. */
  function Post(s: Storm, target: nat, m: Msg): Storm
    requires target < |s.boxes|
  {
    if Full(s, target) then s.(dropped := s.dropped + [m])
    else s.(boxes := s.boxes[target := s.boxes[target] + [m]])
  }

  /** A callback runs in a lock: it posts and raises the flag at once. */
  function Inject(s: Storm, target: nat, dir: Direction): Storm
    requires target < |s.boxes|
  {
    var m := Msg(dir, |s.injected|);
    var t := Post(s.(injected := s.injected + [m]), target, m);
    t.(flag := s.flag.(saturated := s.flag.saturated || Full(s, target)))
  }

  /** The target of the unsigned arithmetic; below zero it wraps beyond the chain. */
  function Target(dir: Direction, me: nat): int {
    if dir == SendLeft then me - 1 else me + 1
  }

  function PassOn(s: Storm, me: nat, m: Msg): Storm
    requires me < |s.boxes| == |s.hands|
  {
    var t := s.(hands := s.hands[me := None]);
    var target := Target(m.dir, me);
    if 0 <= target < |s.boxes|
    then Post(t, target, m).(flag := if Full(s, target) then s.flag.(raising := s.flag.raising + {me}) else s.flag)
    else if m.dir == SendLeft then t.(leftEnd := t.leftEnd + [m])
    else t.(rightEnd := t.rightEnd + [m])
  }

  function Take(s: Storm, me: nat): Storm
    requires me < |s.boxes| == |s.hands| && s.boxes[me] != []
  {
    s.(hands := s.hands[me := Some(s.boxes[me][0])], boxes := s.boxes[me := s.boxes[me][1..]])
  }

  /** A thread that waits at an empty mailbox, or has nothing in hand, or no loss to report, stays where it is. */
  predicate Enabled(s: Storm, e: Event) {
    match e
    case Fetch(me) => me < |s.boxes| == |s.hands| && s.hands[me] == None && me !in s.flag.raising && s.boxes[me] != []
    case Forward(me) => me < |s.boxes| == |s.hands| && s.hands[me] != None && me !in s.flag.raising
    case Raise(me) => me in s.flag.raising
    case _ => |s.boxes| > 0
  }

  function Step(s: Storm, e: Event): Storm {
    if !Enabled(s, e) then s
    else
      match e
      case Gpt1 => Inject(s, 0, SendRight)
      case Gpt2 => Inject(s, |s.boxes| - 1, SendLeft)
      case Fetch(me) => Take(s, me)
      case Forward(me) => PassOn(s, me, s.hands[me].value)
      case Raise(me) => s.(flag := s.flag.(saturated := true, raising := s.flag.raising - {me}))
      case Clear => s.(flag := Flag(s.flag.raising, false, |s.dropped|, s.flag.raising == {}))
  }

  function Run(s: Storm, events: seq<Event>): Storm {
    if events == [] then s else Step(Run(s, events[..|events| - 1]), events[|events| - 1])
  }

  // ---------- The sweep of irq_storm_execute ----------

  /** The intervals a sweep tries, from `interval` downwards. */
  function Sweep(interval: nat): seq<nat>
    decreases interval
  {
    if interval < 2 then [] else [interval] + Sweep(interval - (interval + 9) / 10)
  }

  /** `b` is `a` less a tenth of it, rounded up. */
  predicate TenthLess(a: nat, b: nat) { a <= 10 * (a - b) < a + 10 }

  lemma NextIsTenthLess(interval: nat)
    requires interval >= 2
    ensures var next := interval - (interval + 9) / 10;
      0 < next < interval && TenthLess(interval, next) && (next < 2 ==> interval == 2)
  {}

  /** Intervals fall strictly, by a tenth rounded up, stay at two or more, and end at two. */
  predicate FallsToTwo(sweep: seq<nat>, start: nat) {
    && sweep != [] && sweep[0] == start && sweep[|sweep| - 1] == 2
    && (forall i :: 0 <= i < |sweep| ==> sweep[i] >= 2)
    && forall i :: 0 < i < |sweep| ==> sweep[i] < sweep[i - 1] && TenthLess(sweep[i - 1], sweep[i])
  }

  lemma OneInterval()
    ensures FallsToTwo([2], 2)
  {}

  lemma OneMoreInterval(interval: nat, next: nat, sweep: seq<nat>)
    requires FallsToTwo(sweep, next) && next < interval && TenthLess(interval, next)
    ensures FallsToTwo([interval] + sweep, interval)
  {
    hide TenthLess;
  }

  lemma {:induction false} SweepFalls(interval: nat)
    requires interval >= 2
    ensures FallsToTwo(Sweep(interval), interval)
    decreases interval
  {
    NextIsTenthLess(interval);
    hide TenthLess, FallsToTwo;
    var next := interval - (interval + 9) / 10;
    if next >= 2 {
      SweepFalls(next);
      OneMoreInterval(interval, next, Sweep(next));
    } else {
      OneInterval();
    }
  }

  /** What happens while the timers run at an interval, for each interval of a sweep. */
  type Plan = nat -> seq<Event>

  /** The interval loop: the chain after it, and the first interval that left the flag up, or zero. */
  function SweepFrom(s: Storm, plan: Plan, interval: nat): (Storm, nat)
    decreases interval
  {
    if interval < 2 then (s, 0)
    else
      var t := Run(s, plan(interval));
      if t.flag.saturated then (t, interval) else SweepFrom(t, plan, interval - (interval + 9) / 10)
  }

  /** All iterations: each clears the flag, sweeps, and gives the threads a rest. */
  function Iterations(s: Storm, plans: nat -> Plan, rests: Plan, n: nat, start: nat): (Storm, nat) {
    if n == 0 then (s, 0)
    else
      var (t, worst) := Iterations(s, plans, rests, n - 1, start);
      var (u, threshold) := SweepFrom(Step(t, Clear), plans(n), start);
      (Run(u, rests(n)), if threshold > worst then threshold else worst)
  }

  // ---------- The code ----------

  class Chain {
    const size: nat
    var mb: seq<seq<Msg>>
    var fetched: seq<Option<Msg>>
    var raising: set<nat>
    var saturated: bool
    ghost var injected: seq<Msg>
    ghost var leftEnd: seq<Msg>
    ghost var rightEnd: seq<Msg>
    ghost var dropped: seq<Msg>
    ghost var clearedAt: nat
    ghost var clearedQuietly: bool
    var posted: nat

    ghost function State(): Storm
      reads this
    {
      Storm(size, mb, fetched, Flag(raising, saturated, clearedAt, clearedQuietly),
        injected, leftEnd, rightEnd, dropped)
    }

    ghost predicate Inv()
      reads this
    {
      Valid(State()) && posted == |injected|
    }

    constructor (threads: nat, size: nat)
      requires threads > 0 && size > 0
      ensures Inv() && State() == Initial(threads, size)
    {
      this.size := size;
      mb := seq(threads, i => []);
      fetched := seq(threads, i => None);
      saturated, raising := false, {};
      injected, leftEnd, rightEnd, dropped := [], [], [], [];
      clearedAt, clearedQuietly, posted := 0, true, 0;
    }

    method MbPost(target: nat, m: Msg) returns (ok: bool)
      requires Inv() && target < |mb|
      modifies this
      ensures Inv() && State() == Post(old(State()), target, m) && ok == !Full(old(State()), target)
    {
      ok := |mb[target]| < size;
      if ok {
        mb := mb[target := mb[target] + [m]];
      } else {
        dropped := dropped + [m];
      }
    }

    method Gpt1Callback()
      requires Inv()
      modifies this
      ensures Inv() && State() == Step(old(State()), Gpt1)
    {
      var m := Msg(SendRight, posted);
      injected, posted := injected + [m], posted + 1;
      var ok := MbPost(0, m);
      if !ok {
        saturated := true;
      }
    }

    method Gpt2Callback()
      requires Inv()
      modifies this
      ensures Inv() && State() == Step(old(State()), Gpt2)
    {
      var m := Msg(SendLeft, posted);
      injected, posted := injected + [m], posted + 1;
      var ok := MbPost(|mb| - 1, m);
      if !ok {
        saturated := true;
      }
    }

    method ThreadFetch(me: nat)
      requires Inv()
      modifies this
      ensures Inv() && State() == Step(old(State()), Fetch(me))
    {
      if me < |mb| && fetched[me] == None && me !in raising && mb[me] != [] {
        fetched := fetched[me := Some(mb[me][0])];
        mb := mb[me := mb[me][1..]];
      }
    }

    /** The post of a thread; its loss is reported in a step of its own. */
    method SendOn(me: nat, target: nat, msg: Msg)
      requires Inv() && target < |mb| && me < |mb| && fetched[me] == None
      modifies this
      ensures Inv()
      ensures var s := old(State());
        State() == Post(s, target, msg).(flag :=
          if Full(s, target) then s.flag.(raising := s.flag.raising + {me}) else s.flag)
    {
      var ok := MbPost(target, msg);
      if !ok {
        raising := raising + {me};
      }
    }

    method ThreadForward(me: nat)
      requires Inv()
      modifies this
      ensures Inv() && State() == Step(old(State()), Forward(me))
    {
      if me < |mb| && fetched[me] != None && me !in raising {
        var msg := fetched[me].value;
        fetched := fetched[me := None];
        var target: int := if msg.dir == SendLeft then me - 1 else me + 1;
        if 0 <= target < |mb| {
          SendOn(me, target, msg);
        } else if msg.dir == SendLeft {
          leftEnd := leftEnd + [msg];
        } else {
          rightEnd := rightEnd + [msg];
        }
      }
    }

    /** The store to the flag, a statement after the post and in no lock. */
    method ThreadRaise(me: nat)
      requires Inv()
      modifies this
      ensures Inv() && State() == Step(old(State()), Raise(me))
    {
      if me in raising {
        saturated := true;
        raising := raising - {me};
      }
    }

    method ClearSaturated()
      requires Inv()
      modifies this
      ensures Inv() && State() == Step(old(State()), Clear)
    {
      saturated := false;
      clearedAt, clearedQuietly := |dropped|, raising == {};
    }

    method Handle(e: Event)
      requires Inv()
      modifies this
      ensures Inv() && State() == Step(old(State()), e)
    {
      match e {
        case Gpt1 => Gpt1Callback();
        case Gpt2 => Gpt2Callback();
        case Fetch(me) => ThreadFetch(me);
        case Forward(me) => ThreadForward(me);
        case Raise(me) => ThreadRaise(me);
        case Clear => ClearSaturated();
      }
    }

    /** Timers and threads run for a while. */
    method Storming(events: seq<Event>)
      requires Inv()
      modifies this
      ensures Inv() && State() == Run(old(State()), events)
    {
      hide Step, Valid;
      ghost var s := State();
      for i := 0 to |events|
        invariant Inv() && State() == Run(s, events[..i])
      {
        Handle(events[i]);
        assert events[..i + 1][..i] == events[..i];
      }
      assert events[..|events|] == events;
    }

    /** The interval loop; `start` is 2000 in the program. No subtraction passes zero. */
    method SweepOnce(plan: Plan, start: nat) returns (threshold: nat)
      requires Inv()
      modifies this
      ensures Inv() && (State(), threshold) == SweepFrom(old(State()), plan, start)
    {
      hide Run, Valid;
      threshold := 0;
      ghost var s := State();
      var interval: int := start;
      while interval >= 2
        invariant Inv() && 0 <= interval <= start && threshold == 0
        invariant SweepFrom(State(), plan, interval) == SweepFrom(s, plan, start)
        decreases interval
      {
        Storming(plan(interval));
        if saturated {
          if threshold == 0 {
            threshold := interval;
          }
          break;
        }
        interval := interval - (interval + 9) / 10;
      }
    }

    /** The test loop. */
    method Execute(plans: nat -> Plan, rests: Plan, iterations: nat, start: nat) returns (worst: nat)
      requires Inv()
      modifies this
      ensures Inv() && (State(), worst) == Iterations(old(State()), plans, rests, iterations, start)
    {
      hide Run, Valid, Step, SweepFrom;
      worst := 0;
      ghost var s := State();
      for i := 1 to iterations + 1
        invariant Inv() && (State(), worst) == Iterations(s, plans, rests, i - 1, start)
      {
        ClearSaturated();
        var threshold := SweepOnce(plans(i), start);
        Storming(rests(i));
        if threshold > worst {
          worst := threshold;
        }
      }
    }
  }
}
