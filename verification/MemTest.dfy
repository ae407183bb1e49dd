/** The memory tester, run over a memory whose faults are a parameter: address lines that map several
    indices to one cell, and bits of a cell that are stuck. */
module MemTest {
  import opened Options

  function Pow2(n: nat): (p: nat)
    ensures p > 0
  {
    if n == 0 then 1 else 2 * Pow2(n - 1)
  }

  // ---------- Generators ----------

  datatype Kind = WalkingOne | WalkingZero | OwnAddress | MovingInv

  datatype TestType =
    | MEMTEST_WALKING_ONE | MEMTEST_WALKING_ZERO | MEMTEST_OWN_ADDRESS
    | MEMTEST_MOVING_INVERSION_ZERO | MEMTEST_MOVING_INVERSION_55AA

  /** The bitwise complement of a `width`-bit word. */
  function Complement(width: nat, v: nat): nat
    requires v < Pow2(width)
  {
    Pow2(width) - 1 - v
  }

  function Next(kind: Kind, width: nat, pattern: nat): (next: nat)
    requires width > 0 && pattern < Pow2(width)
    ensures next < Pow2(width)
  {
    match kind
    case WalkingOne | WalkingZero => var shifted := 2 * pattern % Pow2(width); if shifted == 0 then 1 else shifted
    case OwnAddress => (pattern + 1) % Pow2(width)
    case MovingInv => Complement(width, pattern)
  }

  function Emitted(kind: Kind, width: nat, pattern: nat): (v: nat)
    requires pattern < Pow2(width)
    ensures v < Pow2(width)
  {
    if kind == WalkingZero then Complement(width, pattern) else pattern
  }

  function TypeOf(kind: Kind, pattern: nat): TestType {
    match kind
    case WalkingOne => MEMTEST_WALKING_ONE
    case WalkingZero => MEMTEST_WALKING_ZERO
    case OwnAddress => MEMTEST_OWN_ADDRESS
    case MovingInv =>
      if pattern == 0 || pattern % 0x100 == 0xFF then MEMTEST_MOVING_INVERSION_ZERO else MEMTEST_MOVING_INVERSION_55AA
  }

  /** The pattern of a generator initialised with `seed` after `i` values were taken. */
  function PatternAt(kind: Kind, width: nat, seed: nat, i: nat): (pattern: nat)
    requires width > 0 && seed < Pow2(width)
    ensures pattern < Pow2(width)
  {
    if i == 0 then seed else Next(kind, width, PatternAt(kind, width, seed, i - 1))
  }

  function Expected(kind: Kind, width: nat, seed: nat, i: nat): (v: nat)
    requires width > 0 && seed < Pow2(width)
    ensures v < Pow2(width)
  {
    Emitted(kind, width, PatternAt(kind, width, seed, i))
  }

  class Generator {
    const kind: Kind
    const width: nat
    var pattern: nat

    ghost predicate Inv()
      reads this
    {
      width > 0 && pattern < Pow2(width)
    }

    constructor (kind: Kind, width: nat)
      requires width > 0
      ensures Inv() && this.kind == kind && this.width == width && pattern == 0
    {
      this.kind := kind;
      this.width := width;
      pattern := 0;
    }

    method Init(seed: nat)
      requires Inv() && seed < Pow2(width)
      modifies this
      ensures Inv() && pattern == seed
    {
      pattern := seed;
    }

    method Get() returns (v: nat)
      requires Inv()
      modifies this
      ensures Inv() && pattern == Next(kind, width, old(pattern)) && v == Emitted(kind, width, old(pattern))
    {
      v := if kind == WalkingZero then Complement(width, pattern) else pattern;
      match kind {
        case WalkingOne | WalkingZero =>
          pattern := 2 * pattern % Pow2(width);
          if pattern == 0 {
            pattern := 1;
          }
        case OwnAddress =>
          pattern := (pattern + 1) % Pow2(width);
        case MovingInv =>
          pattern := Complement(width, pattern);
      }
    }
  }

  // ---------- Memory with faults ----------

  /** Word `i` of the tested area lies in cell `decode[i]`; `stuck[c]` gives the stuck bits of cell `c`. */
  datatype Fault = Fault(decode: seq<nat>, stuck: seq<map<nat, bool>>)

  ghost predicate WellWired(f: Fault) {
    forall i :: 0 <= i < |f.decode| ==> f.decode[i] < |f.stuck|
  }

  /** What is read from a cell that holds `v`, from bit `b` upwards. */
  function Corrupt(v: nat, stuck: map<nat, bool>, b: nat, width: nat): nat
    requires b <= width
    decreases width - b
  {
    if b == width then 0
    else (if b in stuck then if stuck[b] then 1 else 0 else v % 2) + 2 * Corrupt(v / 2, stuck, b + 1, width)
  }

  class Memory {
    const width: nat
    const fault: Fault
    const cells: array<nat>

    ghost predicate Inv() {
      WellWired(fault) && cells.Length == |fault.stuck|
    }

    constructor (width: nat, fault: Fault)
      requires WellWired(fault)
      ensures Inv() && this.width == width && this.fault == fault && fresh(cells)
    {
      this.width := width;
      this.fault := fault;
      cells := new nat[|fault.stuck|](i => 0);
    }

    method Write(i: nat, v: nat)
      requires Inv() && i < |fault.decode|
      modifies cells
      ensures cells[..] == old(cells[..])[fault.decode[i] := v]
    {
      cells[fault.decode[i]] := v;
    }

    method Read(i: nat) returns (v: nat)
      requires Inv() && i < |fault.decode|
      ensures v == Corrupt(cells[fault.decode[i]], fault.stuck[fault.decode[i]], 0, width)
    {
      v := Corrupt(cells[fault.decode[i]], fault.stuck[fault.decode[i]], 0, width);
    }
  }

  // ---------- One sequential pass ----------

  /** A generator, a seed and how many words it fills, over a given memory. */
  datatype Pass = Pass(kind: Kind, width: nat, seed: nat, steps: nat, fault: Fault)

  ghost predicate Possible(p: Pass) {
    p.width > 0 && p.seed < Pow2(p.width) && p.steps <= |p.fault.decode| && WellWired(p.fault)
  }

  /** The last of the first `n` indices that is stored in cell `c`. */
  function LastWriter(decode: seq<nat>, n: nat, c: nat): (w: Option<nat>)
    requires n <= |decode|
    ensures w.Some? ==> w.value < n && decode[w.value] == c
    ensures forall i :: 0 <= i < n && decode[i] == c ==> w.Some? && i <= w.value
  {
    if n == 0 then None
    else if decode[n - 1] == c then Some(n - 1)
    else LastWriter(decode, n - 1, c)
  }

  function Wanted(p: Pass, i: nat): nat
    requires Possible(p)
  {
    Expected(p.kind, p.width, p.seed, i)
  }

  function Got(p: Pass, i: nat): nat
    requires Possible(p) && i < p.steps
  {
    var c := p.fault.decode[i];
    Corrupt(Wanted(p, LastWriter(p.fault.decode, p.steps, c).value), p.fault.stuck[c], 0, p.width)
  }

  datatype Report = Report(test: TestType, index: nat, currentWidth: nat, got: nat, wanted: nat)

  /** The callback receives the values as 32-bit words. */
  function ReportAt(p: Pass, i: nat): Report
    requires Possible(p) && i < p.steps
  {
    Report(TypeOf(p.kind, PatternAt(p.kind, p.width, p.seed, i + 1)), i, p.width / 8,
           Got(p, i) % 0x1_0000_0000, Wanted(p, i) % 0x1_0000_0000)
  }

  /** The callback is called for the first word that does not read back, if there is a callback. */
  ghost predicate Reports(p: Pass, hasCallback: bool, r: Option<Report>)
    requires Possible(p)
  {
    match r
    case None => !hasCallback || forall i :: 0 <= i < p.steps ==> Got(p, i) == Wanted(p, i)
    case Some(report) =>
      && hasCallback && report.index < p.steps && report == ReportAt(p, report.index)
      && Got(p, report.index) != Wanted(p, report.index)
      && forall i :: 0 <= i < report.index ==> Got(p, i) == Wanted(p, i)
  }

  /** After `n` writes each cell holds what the last write to it put there. */
  ghost predicate Filled(p: Pass, cells: seq<nat>, n: nat)
    requires Possible(p) && n <= p.steps && |cells| == |p.fault.stuck|
  {
    forall j :: 0 <= j < n ==>
      cells[p.fault.decode[j]] == Wanted(p, LastWriter(p.fault.decode, n, p.fault.decode[j]).value)
  }

  lemma FilledStep(p: Pass, cells: seq<nat>, n: nat, v: nat)
    requires Possible(p) && n < p.steps && |cells| == |p.fault.stuck|
    requires Filled(p, cells, n) && v == Wanted(p, n)
    ensures Filled(p, cells[p.fault.decode[n] := v], n + 1)
  {}

  method FillRam(mem: Memory, generator: Generator, steps: nat, ghost p: Pass)
    requires mem.Inv() && generator.Inv() && generator.width == mem.width
    requires Possible(p) && p == Pass(generator.kind, mem.width, generator.pattern, steps, mem.fault)
    modifies mem.cells, generator
    ensures generator.Inv() && Filled(p, mem.cells[..], steps)
  {
    hide Next, Corrupt, Filled;
    FilledNothing(p, mem.cells[..]);
    for i := 0 to steps
      invariant generator.Inv() && generator.pattern == PatternAt(p.kind, p.width, p.seed, i)
      invariant Filled(p, mem.cells[..], i)
    {
      ghost var before := mem.cells[..];
      var v := generator.Get();
      mem.Write(i, v);
      FilledStep(p, before, i, v);
    }
  }

  lemma FilledNothing(p: Pass, cells: seq<nat>)
    requires Possible(p) && |cells| == |p.fault.stuck|
    ensures Filled(p, cells, 0)
  {}

  lemma FilledReadsGot(p: Pass, cells: seq<nat>, i: nat)
    requires Possible(p) && i < p.steps && |cells| == |p.fault.stuck| && Filled(p, cells, p.steps)
    ensures Corrupt(cells[p.fault.decode[i]], p.fault.stuck[p.fault.decode[i]], 0, p.width) == Got(p, i)
  {}

  method ReadBack(mem: Memory, generator: Generator, steps: nat, hasCallback: bool, ghost p: Pass)
    returns (report: Option<Report>)
    requires mem.Inv() && generator.Inv() && generator.width == mem.width && mem.width >= 8
    requires Possible(p) && p == Pass(generator.kind, mem.width, generator.pattern, steps, mem.fault)
    requires Filled(p, mem.cells[..], steps)
    modifies generator
    ensures generator.Inv() && Reports(p, hasCallback, report)
  {
    hide Next, Corrupt, Filled, Got;
    for i := 0 to steps
      invariant generator.Inv() && generator.pattern == PatternAt(p.kind, p.width, p.seed, i)
      invariant hasCallback ==> forall j :: 0 <= j < i ==> Got(p, j) == Wanted(p, j)
    {
      var got := mem.Read(i);
      var wanted := generator.Get();
      FilledReadsGot(p, mem.cells[..], i);
      if got != wanted && hasCallback {
        return Some(Report(TypeOf(generator.kind, generator.pattern), i, mem.width / 8,
                           got % 0x1_0000_0000, wanted % 0x1_0000_0000));
      }
    }
    return None;
  }

  /** How many words of `width` bits fit into `size` bytes. */
  function Steps(size: nat, width: nat): nat
    requires width >= 8
  {
    size / (width / 8)
  }

  /** `size` is the size of the area in bytes. */
  method MemtestSequential(mem: Memory, generator: Generator, seed: nat, size: nat, hasCallback: bool)
    returns (report: Option<Report>)
    requires mem.Inv() && generator.Inv() && generator.width == mem.width && mem.width >= 8
    requires seed < Pow2(mem.width) && Steps(size, mem.width) <= |mem.fault.decode|
    modifies mem.cells, generator
    ensures generator.Inv()
    ensures Reports(Pass(generator.kind, mem.width, seed, Steps(size, mem.width), mem.fault), hasCallback, report)
  {
    var steps := size / (mem.width / 8);
    ghost var p := Pass(generator.kind, mem.width, seed, steps, mem.fault);
    generator.Init(seed);
    FillRam(mem, generator, steps, p);
    generator.Init(seed);
    report := ReadBack(mem, generator, steps, hasCallback, p);
  }

  /** The seed of the 0x55 test: every byte of it is 0x55. */
  function Fives(width: nat): nat
    requires width % 8 == 0
  {
    if width == 0 then 0 else 0x100 * Fives(width - 8) + 0x55
  }

  method WalkingOneTest(mem: Memory, size: nat, hasCallback: bool) returns (report: Option<Report>)
    requires mem.Inv() && mem.width >= 8 && Steps(size, mem.width) <= |mem.fault.decode|
    modifies mem.cells
    ensures 1 < Pow2(mem.width)
    ensures Reports(Pass(WalkingOne, mem.width, 1, Steps(size, mem.width), mem.fault), hasCallback, report)
  {
    var generator := new Generator(WalkingOne, mem.width);
    report := MemtestSequential(mem, generator, 1, size, hasCallback);
  }

  method WalkingZeroTest(mem: Memory, size: nat, hasCallback: bool) returns (report: Option<Report>)
    requires mem.Inv() && mem.width >= 8 && Steps(size, mem.width) <= |mem.fault.decode|
    modifies mem.cells
    ensures 1 < Pow2(mem.width)
    ensures Reports(Pass(WalkingZero, mem.width, 1, Steps(size, mem.width), mem.fault), hasCallback, report)
  {
    var generator := new Generator(WalkingZero, mem.width);
    report := MemtestSequential(mem, generator, 1, size, hasCallback);
  }

  method OwnAddressTest(mem: Memory, size: nat, hasCallback: bool) returns (report: Option<Report>)
    requires mem.Inv() && mem.width >= 8 && Steps(size, mem.width) <= |mem.fault.decode|
    modifies mem.cells
    ensures Reports(Pass(OwnAddress, mem.width, 0, Steps(size, mem.width), mem.fault), hasCallback, report)
  {
    var generator := new Generator(OwnAddress, mem.width);
    report := MemtestSequential(mem, generator, 0, size, hasCallback);
  }

  /** Two passes, the second with the complemented seed. */
  ghost predicate MovingReports(mem: Memory, seed: nat, size: nat, hasCallback: bool,
                                first: Option<Report>, second: Option<Report>)
    requires mem.Inv() && mem.width >= 8 && seed < Pow2(mem.width) && Steps(size, mem.width) <= |mem.fault.decode|
  {
    var steps := Steps(size, mem.width);
    && Reports(Pass(MovingInv, mem.width, seed, steps, mem.fault), hasCallback, first)
    && Reports(Pass(MovingInv, mem.width, Complement(mem.width, seed), steps, mem.fault), hasCallback, second)
  }

  method MovingInversionZero(mem: Memory, size: nat, hasCallback: bool)
    returns (first: Option<Report>, second: Option<Report>)
    requires mem.Inv() && mem.width >= 8 && Steps(size, mem.width) <= |mem.fault.decode|
    modifies mem.cells
    ensures MovingReports(mem, 0, size, hasCallback, first, second)
  {
    var generator := new Generator(MovingInv, mem.width);
    var seed := 0;
    first := MemtestSequential(mem, generator, seed, size, hasCallback);
    seed := Complement(mem.width, seed);
    second := MemtestSequential(mem, generator, seed, size, hasCallback);
  }

  method MovingInversion55AA(mem: Memory, size: nat, hasCallback: bool)
    returns (first: Option<Report>, second: Option<Report>)
    requires mem.Inv() && mem.width >= 8 && mem.width % 8 == 0 && Steps(size, mem.width) <= |mem.fault.decode|
    modifies mem.cells
    ensures Fives(mem.width) < Pow2(mem.width)
    ensures MovingReports(mem, Fives(mem.width), size, hasCallback, first, second)
  {
    FivesFit(mem.width);
    var generator := new Generator(MovingInv, mem.width);
    var seed := Fives(mem.width);
    first := MemtestSequential(mem, generator, seed, size, hasCallback);
    seed := Complement(mem.width, seed);
    second := MemtestSequential(mem, generator, seed, size, hasCallback);
  }

  lemma {:induction false} Pow2Add(m: nat, n: nat)
    ensures Pow2(m + n) == Pow2(m) * Pow2(n)
  {
    if m > 0 {
      Pow2Add(m - 1, n);
    }
  }

  lemma Pow2Byte(width: nat)
    requires width >= 8
    ensures Pow2(width) == 0x100 * Pow2(width - 8)
  {
    assert Pow2(8) == 0x100 by {
      assert Pow2(4) == 16;
    }
    Pow2Add(8, width - 8);
  }

  lemma {:induction false} FivesFit(width: nat)
    requires width % 8 == 0
    ensures Fives(width) < Pow2(width)
  {
    if width > 0 {
      FivesFit(width - 8);
      Pow2Byte(width);
    }
  }
}
