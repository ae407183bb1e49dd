/** What the memory tester finds: nothing in a healthy memory, and exactly which faults in a faulty one. */
module MemTestTheorems {
  import opened Options
  import opened MemTest

  /** A stuck bit within the word. */
  ghost predicate StuckCell(stuck: map<nat, bool>, width: nat) {
    exists b :: b in stuck && 0 <= b < width
  }

  /** Two covered indices that share a cell. */
  ghost predicate Aliased(p: Pass, i: nat, k: nat)
    requires Possible(p)
  {
    i < p.steps && k < p.steps && i != k && p.fault.decode[i] == p.fault.decode[k]
  }

  ghost predicate StuckWord(p: Pass, i: nat)
    requires Possible(p)
  {
    i < p.steps && StuckCell(p.fault.stuck[p.fault.decode[i]], p.width)
  }

  ghost predicate Healthy(p: Pass)
    requires Possible(p)
  {
    && (forall i :: 0 <= i < p.steps ==> !StuckWord(p, i))
    && (forall i, k :: 0 <= i < p.steps && 0 <= k < p.steps ==> !Aliased(p, i, k))
  }

  // ---------- Stuck bits ----------

  lemma {:induction false} CorruptHealthy(v: nat, stuck: map<nat, bool>, b: nat, width: nat)
    requires b <= width && v < Pow2(width - b) && forall k :: b <= k < width ==> k !in stuck
    ensures Corrupt(v, stuck, b, width) == v
    decreases width - b
  {
    if b < width {
      CorruptHealthy(v / 2, stuck, b + 1, width);
    }
  }

  /** A word and its complement cannot both survive a stuck bit. */
  lemma {:induction false} CorruptStuck(v: nat, stuck: map<nat, bool>, b: nat, width: nat, k: nat)
    requires b <= k < width && k in stuck && v < Pow2(width - b)
    ensures var c := Pow2(width - b) - 1 - v;
      Corrupt(v, stuck, b, width) != v || Corrupt(c, stuck, b, width) != c
    decreases width - b
  {
    if b < k {
      var c := Pow2(width - b) - 1 - v;
      assert c / 2 == Pow2(width - (b + 1)) - 1 - v / 2;
      CorruptStuck(v / 2, stuck, b + 1, width, k);
    }
  }

  // ---------- A mismatch names a faulty word ----------

  lemma MismatchMeansFault(p: Pass, i: nat)
    requires Possible(p) && i < p.steps && Got(p, i) != Wanted(p, i)
    ensures StuckWord(p, i) || exists k :: 0 <= k < p.steps && Aliased(p, i, k)
  {
    var w := LastWriter(p.fault.decode, p.steps, p.fault.decode[i]).value;
    if w == i && !StuckWord(p, i) {
      CorruptHealthy(Wanted(p, i), p.fault.stuck[p.fault.decode[i]], 0, p.width);
    }
    if w != i {
      assert Aliased(p, i, w);
    }
  }

  /** Every report, of every test, points at a word with a stuck bit or a shared cell. */
  lemma ReportNamesFaultyWord(p: Pass, r: Option<Report>)
    requires Possible(p) && Reports(p, true, r) && r.Some?
    ensures r.value.index < p.steps
    ensures StuckWord(p, r.value.index) || exists k :: 0 <= k < p.steps && Aliased(p, r.value.index, k)
  {
    MismatchMeansFault(p, r.value.index);
  }

  /** A healthy area of any size never triggers the callback, whatever the generator and the seed. */
  lemma HealthyNeverReports(p: Pass, r: Option<Report>)
    requires Possible(p) && Healthy(p) && Reports(p, true, r)
    ensures r == None
  {
    if r.Some? {
      ReportNamesFaultyWord(p, r);
    }
  }

  // ---------- Shared cells ----------

  lemma SharedCellReadsOnce(p: Pass, i: nat, k: nat)
    requires Possible(p) && Aliased(p, i, k)
    ensures Got(p, i) == Got(p, k)
  {}

  lemma AliasReports(p: Pass, r: Option<Report>, i: nat, k: nat)
    requires Possible(p) && Aliased(p, i, k) && Wanted(p, i) != Wanted(p, k) && Reports(p, true, r)
    ensures r.Some?
  {
    SharedCellReadsOnce(p, i, k);
  }

  lemma MultipleOutOfRange(d: int, m: int)
    requires m > 0
    ensures d >= 1 ==> d * m >= m
    ensures d <= -1 ==> d * m <= -m
  {}

  lemma ModUnique(a: int, q: int, r: int, m: int)
    requires 0 <= r < m && a == q * m + r
    ensures a % m == r
  {
    var d := a / m - q;
    assert a % m == r - d * m;
    MultipleOutOfRange(d, m);
  }

  lemma NextAddress(width: nat, m: nat, pattern: nat)
    requires width > 0 && m == Pow2(width) && pattern < m
    ensures Next(OwnAddress, width, pattern) == if pattern + 1 == m then 0 else pattern + 1
  {
    hide Pow2;
    if pattern + 1 == m {
      ModUnique(pattern + 1, 1, 0, m);
    } else {
      ModUnique(pattern + 1, 0, pattern + 1, m);
    }
  }

  /** The counter wraps `q` times on the way to index `i`. */
  lemma {:induction false} OwnAddressWraps(width: nat, m: nat, i: nat) returns (q: nat)
    requires width > 0 && m == Pow2(width)
    ensures i == q * m + PatternAt(OwnAddress, width, 0, i)
  {
    if i == 0 {
      q := 0;
    } else {
      hide Next, Pow2;
      var q0 := OwnAddressWraps(width, m, i - 1);
      var pattern := PatternAt(OwnAddress, width, 0, i - 1);
      NextAddress(width, m, pattern);
      q := if pattern + 1 == m then q0 + 1 else q0;
      assert (q0 + 1) * m == q0 * m + m;
    }
  }

  lemma OwnAddressPattern(width: nat, i: nat)
    requires width > 0
    ensures PatternAt(OwnAddress, width, 0, i) == i % Pow2(width)
  {
    var q := OwnAddressWraps(width, Pow2(width), i);
    ModUnique(i, q, PatternAt(OwnAddress, width, 0, i), Pow2(width));
  }

  /** Indices that share a cell and differ modulo the range of a word make the own-address test report. */
  lemma OwnAddressDetects(p: Pass, r: Option<Report>, i: nat, k: nat)
    requires Possible(p) && p.kind == OwnAddress && p.seed == 0 && Reports(p, true, r)
    requires Aliased(p, i, k) && i % Pow2(p.width) != k % Pow2(p.width)
    ensures r.Some?
  {
    OwnAddressPattern(p.width, i);
    OwnAddressPattern(p.width, k);
    AliasReports(p, r, i, k);
  }

  /** Without stuck bits the own-address test reports exactly those shared cells. */
  lemma OwnAddressIff(p: Pass, r: Option<Report>)
    requires Possible(p) && p.kind == OwnAddress && p.seed == 0 && Reports(p, true, r)
    requires forall i :: 0 <= i < p.steps ==> !StuckWord(p, i)
    ensures r.Some? <==> exists i: nat, k: nat :: Aliased(p, i, k) && i % Pow2(p.width) != k % Pow2(p.width)
    ensures r.Some? ==> r.value.test == MEMTEST_OWN_ADDRESS
  {
    if r.Some? {
      var i := r.value.index;
      var w := LastWriter(p.fault.decode, p.steps, p.fault.decode[i]).value;
      assert !StuckWord(p, i);
      CorruptHealthy(Wanted(p, w), p.fault.stuck[p.fault.decode[i]], 0, p.width);
      OwnAddressPattern(p.width, i);
      OwnAddressPattern(p.width, w);
      assert Aliased(p, i, w);
    }
    if exists i: nat, k: nat :: Aliased(p, i, k) && i % Pow2(p.width) != k % Pow2(p.width) {
      var i: nat, k: nat :| Aliased(p, i, k) && i % Pow2(p.width) != k % Pow2(p.width);
      OwnAddressDetects(p, r, i, k);
    }
  }

  // ---------- Moving inversion ----------

  lemma {:induction false} MovingPattern(width: nat, seed: nat, i: nat)
    requires width > 0 && seed < Pow2(width)
    ensures PatternAt(MovingInv, width, seed, i) == if i % 2 == 0 then seed else Complement(width, seed)
  {
    if i > 0 {
      MovingPattern(width, seed, i - 1);
    }
  }

  lemma OddModulusDiffers(width: nat, seed: nat)
    requires width > 0 && seed < Pow2(width)
    ensures seed != Complement(width, seed)
  {
    assert Pow2(width) % 2 == 0;
  }

  /** The pass with the complemented seed. */
  function Inverse(p: Pass): Pass
    requires Possible(p)
  {
    p.(seed := Complement(p.width, p.seed))
  }

  lemma StuckReports(p: Pass, first: Option<Report>, second: Option<Report>, i: nat)
    requires Possible(p) && p.kind == MovingInv && Reports(p, true, first) && Reports(Inverse(p), true, second)
    requires StuckWord(p, i)
    ensures first.Some? || second.Some?
  {
    hide Pow2, Corrupt, PatternAt, LastWriter;
    var q, c := Inverse(p), p.fault.decode[i];
    var w := LastWriter(p.fault.decode, p.steps, c).value;
    var b :| b in p.fault.stuck[c] && 0 <= b < p.width;
    MovingPattern(p.width, p.seed, w);
    MovingPattern(q.width, q.seed, w);
    CorruptStuck(Wanted(p, w), p.fault.stuck[c], 0, p.width, b);
    assert Got(p, w) != Wanted(p, w) || Got(q, w) != Wanted(q, w);
  }

  ghost predicate MovingFault(p: Pass)
    requires Possible(p)
  {
    (exists i: nat :: StuckWord(p, i)) || (exists i: nat, k: nat :: Aliased(p, i, k) && i % 2 != k % 2)
  }

  lemma SilentPass(p: Pass)
    requires Possible(p) && p.kind == MovingInv && !MovingFault(p)
    ensures forall i :: 0 <= i < p.steps ==> Got(p, i) == Wanted(p, i)
  {
    forall i | 0 <= i < p.steps ensures Got(p, i) == Wanted(p, i) {
      var w := LastWriter(p.fault.decode, p.steps, p.fault.decode[i]).value;
      assert !StuckWord(p, i);
      CorruptHealthy(Wanted(p, w), p.fault.stuck[p.fault.decode[i]], 0, p.width);
      assert w != i ==> Aliased(p, i, w);
      MovingPattern(p.width, p.seed, i);
      MovingPattern(p.width, p.seed, w);
    }
  }

  /** The two passes of a moving inversion, with any seed, call back exactly when a covered word has a
      stuck bit or two words of different parity share a cell. */
  lemma MovingInversionIff(p: Pass, first: Option<Report>, second: Option<Report>)
    requires Possible(p) && p.kind == MovingInv && Reports(p, true, first) && Reports(Inverse(p), true, second)
    ensures first.Some? || second.Some? <==> MovingFault(p)
  {
    if MovingFault(p) {
      if exists i: nat :: StuckWord(p, i) {
        var i: nat :| StuckWord(p, i);
        StuckReports(p, first, second, i);
      } else {
        var i: nat, k: nat :| Aliased(p, i, k) && i % 2 != k % 2;
        MovingPattern(p.width, p.seed, i);
        MovingPattern(p.width, p.seed, k);
        OddModulusDiffers(p.width, p.seed);
        AliasReports(p, first, i, k);
      }
    } else {
      SilentPass(p);
      assert !MovingFault(Inverse(p)) by {
        forall i: nat ensures StuckWord(Inverse(p), i) == StuckWord(p, i) {}
        forall i: nat, k: nat ensures Aliased(Inverse(p), i, k) == Aliased(p, i, k) {}
      }
      SilentPass(Inverse(p));
    }
  }

  // ---------- The tag of a report ----------

  lemma FivesByte(width: nat)
    requires width >= 8 && width % 8 == 0
    ensures Fives(width) < Pow2(width) && Fives(width) % 0x100 == 0x55
    ensures Complement(width, Fives(width)) % 0x100 == 0xAA
  {
    FivesFit(width);
    Pow2Byte(width);
    var f := Fives(width - 8);
    assert Fives(width) == 0x100 * f + 0x55;
    hide Fives, Pow2;
    LowByte(f, 0x55);
    LowByteComplement(Pow2(width - 8), f);
  }

  lemma LowByteComplement(h: int, f: int)
    ensures (0x100 * h - 1 - (0x100 * f + 0x55)) % 0x100 == 0xAA
  {
    LowByte(h - 1 - f, 0xAA);
  }

  lemma LowByte(high: int, low: int)
    requires 0 <= low < 0x100
    ensures (0x100 * high + low) % 0x100 == low
  {}

  lemma AllOnesByte(width: nat)
    requires width >= 8
    ensures (Pow2(width) - 1) % 0x100 == 0xFF
  {
    Pow2Byte(width);
    assert Pow2(width) - 1 == 0x100 * (Pow2(width - 8) - 1) + 0xFF;
  }

  /** Reports of the zero test and of the 0x55 test are told apart by their tag, although it is read
      off the generator after the value was taken. */
  lemma MovingTags(p: Pass, r: Option<Report>)
    requires Possible(p) && p.kind == MovingInv && p.width >= 8 && p.width % 8 == 0
    requires Reports(p, true, r) && r.Some?
    ensures p.seed == 0 || p.seed == Pow2(p.width) - 1 ==> r.value.test == MEMTEST_MOVING_INVERSION_ZERO
    ensures Fives(p.width) < Pow2(p.width)
    ensures p.seed == Fives(p.width) || p.seed == Complement(p.width, Fives(p.width))
      ==> r.value.test == MEMTEST_MOVING_INVERSION_55AA
  {
    hide Pow2, Fives;
    MovingPattern(p.width, p.seed, r.value.index + 1);
    FivesByte(p.width);
    AllOnesByte(p.width);
  }
}
