/** What the two walking tests find, and what a report tells. */
module MemTestWalking {
  import opened Options
  import opened MemTest
  import opened MemTestTheorems

  // ---------- Bits of words ----------

  function BitAt(v: nat, k: nat): bool {
    if k == 0 then v % 2 == 1 else BitAt(v / 2, k - 1)
  }

  lemma {:induction false} BitOfPow2(j: nat, k: nat)
    ensures BitAt(Pow2(j), k) <==> k == j
  {
    if j == 0 {
      BitOfOne(k);
    } else if k > 0 {
      BitOfPow2(j - 1, k - 1);
    }
  }

  lemma {:induction false} BitOfZero(k: nat)
    ensures !BitAt(0, k)
  {
    if k > 0 {
      BitOfZero(k - 1);
    }
  }

  lemma BitOfOne(k: nat)
    ensures BitAt(1, k) <==> k == 0
  {
    if k > 0 {
      BitOfZero(k - 1);
    }
  }

  lemma {:induction false} BitOfComplement(width: nat, v: nat, k: nat)
    requires k < width && v < Pow2(width)
    ensures BitAt(Complement(width, v), k) == !BitAt(v, k)
  {
    if k > 0 {
      assert Complement(width, v) / 2 == Complement(width - 1, v / 2);
      BitOfComplement(width - 1, v / 2, k - 1);
    }
  }

  /** A word survives its cell exactly if every stuck bit is stuck at what the word has there. */
  lemma {:induction false} SurvivesIff(v: nat, stuck: map<nat, bool>, b: nat, width: nat)
    requires b <= width && v < Pow2(width - b)
    ensures Corrupt(v, stuck, b, width) == v <==>
      forall k :: b <= k < width && k in stuck ==> stuck[k] == BitAt(v, k - b)
    decreases width - b
  {
    if b < width {
      SurvivesIff(v / 2, stuck, b + 1, width);
      var bit := if b in stuck then if stuck[b] then 1 else 0 else v % 2;
      var rest := Corrupt(v / 2, stuck, b + 1, width);
      assert bit + 2 * rest == v <==> bit == v % 2 && rest == v / 2;
      hide Corrupt;
      forall k | b < k < width && k in stuck ensures BitAt(v, k - b) == BitAt(v / 2, k - (b + 1)) {}
    }
  }

  // ---------- The walking pattern ----------

  lemma {:induction false} Pow2Grows(j: nat, k: nat)
    requires j < k
    ensures Pow2(j) < Pow2(k)
    decreases k
  {
    if j < k - 1 {
      Pow2Grows(j, k - 1);
    }
  }

  lemma NextWalks(kind: Kind, width: nat, j: nat)
    requires (kind == WalkingOne || kind == WalkingZero) && j < width && Pow2(j) < Pow2(width)
    ensures Next(kind, width, Pow2(j)) == if j + 1 == width then 1 else Pow2(j + 1)
  {
    assert 2 * Pow2(j) == Pow2(j + 1);
    hide Pow2;
    if j + 1 < width {
      Pow2Grows(j + 1, width);
      ModUnique(Pow2(j + 1), 0, Pow2(j + 1), Pow2(width));
    } else {
      ModUnique(Pow2(j + 1), 1, 0, Pow2(width));
    }
  }

  /** The single bit walks up and starts over at the bottom. */
  lemma {:induction false} BitWalks(kind: Kind, width: nat, i: nat)
    requires (kind == WalkingOne || kind == WalkingZero) && width > 0 && 1 < Pow2(width)
    ensures PatternAt(kind, width, 1, i) == Pow2(i % width) < Pow2(width)
  {
    assert Pow2(0) == 1;
    hide Pow2, Next;
    Pow2Grows(i % width, width);
    if i > 0 {
      BitWalks(kind, width, i - 1);
      NextWalks(kind, width, (i - 1) % width);
      NextModulo(i, width);
    } else {
      assert 0 % width == 0;
    }
  }

  lemma NextModulo(i: nat, width: nat)
    requires i > 0 && width > 0
    ensures i % width == if (i - 1) % width + 1 == width then 0 else (i - 1) % width + 1
  {
    var q, j := (i - 1) / width, (i - 1) % width;
    assert i == q * width + j + 1;
    if j + 1 == width {
      assert i == (q + 1) * width + 0;
      ModUnique(i, q + 1, 0, width);
    } else {
      ModUnique(i, q, j + 1, width);
    }
  }

  // ---------- What the tests find ----------

  ghost predicate WalkingPass(p: Pass) {
    Possible(p) && (p.kind == WalkingOne || p.kind == WalkingZero) && p.seed == 1
  }

  /** What bit `b` of word `i` should read as. */
  predicate WalkedBit(p: Pass, i: nat, b: nat)
    requires p.width > 0
  {
    if p.kind == WalkingOne then b == i % p.width else b != i % p.width
  }

  lemma WantedBit(p: Pass, i: nat, b: nat)
    requires WalkingPass(p) && b < p.width
    ensures BitAt(Wanted(p, i), b) == WalkedBit(p, i, b)
  {
    BitWalks(p.kind, p.width, i);
    BitOfPow2(i % p.width, b);
    if p.kind == WalkingZero {
      BitOfComplement(p.width, Pow2(i % p.width), b);
    }
    hide Pow2, PatternAt, BitAt;
  }

  lemma WantedDiffers(p: Pass, i: nat, k: nat)
    requires WalkingPass(p)
    ensures Wanted(p, i) == Wanted(p, k) <==> i % p.width == k % p.width
  {
    BitWalks(p.kind, p.width, i);
    BitWalks(p.kind, p.width, k);
    hide BitAt;
    WantedBit(p, i, i % p.width);
    WantedBit(p, k, i % p.width);
    hide Pow2, PatternAt;
  }

  /** Bit `b` of word `i` is stuck at what the walking bit does not want there. */
  ghost predicate StuckAgainst(p: Pass, i: nat, b: nat)
    requires WalkingPass(p)
  {
    && i < p.steps && b < p.width && b in p.fault.stuck[p.fault.decode[i]]
    && p.fault.stuck[p.fault.decode[i]][b] != WalkedBit(p, i, b)
  }

  ghost predicate SharedOutOfStep(p: Pass, i: nat, k: nat)
    requires WalkingPass(p)
  {
    Aliased(p, i, k) && i % p.width != k % p.width
  }

  lemma OwnWordSurvives(p: Pass, i: nat)
    requires WalkingPass(p) && i < p.steps
    ensures Corrupt(Wanted(p, i), p.fault.stuck[p.fault.decode[i]], 0, p.width) == Wanted(p, i) <==>
      forall b :: 0 <= b < p.width ==> !StuckAgainst(p, i, b)
  {
    var v, stuck := Wanted(p, i), p.fault.stuck[p.fault.decode[i]];
    SurvivesIff(v, stuck, 0, p.width);
    forall b | 0 <= b < p.width ensures b in stuck && stuck[b] != BitAt(v, b - 0) <==> StuckAgainst(p, i, b) {
      WantedBit(p, i, b);
    }
    hide Wanted, Corrupt, BitAt, StuckAgainst;
  }

  lemma LastWriterReads(p: Pass, i: nat)
    requires WalkingPass(p) && i < p.steps
    requires forall k: nat :: !SharedOutOfStep(p, i, k)
    ensures Got(p, i) == Corrupt(Wanted(p, i), p.fault.stuck[p.fault.decode[i]], 0, p.width)
  {
    var w := LastWriter(p.fault.decode, p.steps, p.fault.decode[i]).value;
    assert !SharedOutOfStep(p, i, w);
    WantedDiffers(p, i, w);
    hide Corrupt, Wanted;
  }

  /** A walking test calls back exactly when some bit is stuck against the pattern in a covered word, or two
      covered words share a cell at which the walking bit stands differently. */
  lemma WalkingIff(p: Pass, r: Option<Report>)
    requires WalkingPass(p) && Reports(p, true, r)
    ensures r.Some? <==>
      || (exists i: nat, b: nat :: StuckAgainst(p, i, b))
      || (exists i: nat, k: nat :: SharedOutOfStep(p, i, k))
    ensures r.Some? ==>
      r.value.test == if p.kind == WalkingOne then MEMTEST_WALKING_ONE else MEMTEST_WALKING_ZERO
  {
    hide Got, Wanted, Corrupt, StuckAgainst;
    if i: nat, k: nat :| SharedOutOfStep(p, i, k) {
      WantedDiffers(p, i, k);
      AliasReports(p, r, i, k);
    } else {
      forall i | 0 <= i < p.steps
        ensures Got(p, i) == Wanted(p, i) <==> forall b :: 0 <= b < p.width ==> !StuckAgainst(p, i, b)
      {
        LastWriterReads(p, i);
        OwnWordSurvives(p, i);
      }
      if i: nat, b: nat :| StuckAgainst(p, i, b) {
        StuckBounds(p, i, b);
        assert Got(p, i) != Wanted(p, i);
      } else if r.Some? {
        assert Got(p, r.value.index) != Wanted(p, r.value.index);
      }
    }
  }

  lemma StuckBounds(p: Pass, i: nat, b: nat)
    requires WalkingPass(p) && StuckAgainst(p, i, b)
    ensures i < p.steps && b < p.width
  {}

  // ---------- Areas, reports and seeds ----------

  /** The callback takes words of 32 bits: what it is told was read and wanted differs, unless the words are wider
      and agree in their low halves. */
  lemma ReportTells(p: Pass, r: Option<Report>)
    requires Possible(p) && Reports(p, true, r) && r.Some? && p.width % 8 == 0
    ensures r.value.currentWidth * 8 == p.width && r.value.index < p.steps
    ensures p.width <= 32 ==>
      r.value.got == Got(p, r.value.index) != Wanted(p, r.value.index) == r.value.wanted
    ensures r.value.got == r.value.wanted <==>
      Got(p, r.value.index) % 0x1_0000_0000 == Wanted(p, r.value.index) % 0x1_0000_0000
  {
    hide Got, Wanted, TypeOf, PatternAt, Pow2;
    ReportedWords(p, r.value.index);
  }

  lemma ReportedWords(p: Pass, i: nat)
    requires Possible(p) && i < p.steps
    ensures p.width <= 32 ==> Got(p, i) % 0x1_0000_0000 == Got(p, i)
    ensures p.width <= 32 ==> Wanted(p, i) % 0x1_0000_0000 == Wanted(p, i)
  {
    if p.width <= 32 {
      GotFits(p, i);
      Pow2Is32();
      if p.width < 32 {
        Pow2Grows(p.width, 32);
      }
      hide Pow2, Got, Wanted;
      SmallRemainder(Got(p, i));
      SmallRemainder(Wanted(p, i));
    }
  }

  lemma SmallRemainder(v: nat)
    requires v < 0x1_0000_0000
    ensures v % 0x1_0000_0000 == v
  {}

  lemma Pow2Is32()
    ensures Pow2(32) == 0x1_0000_0000
  {
    assert Pow2(8) == 0x100;
    Pow2Add(8, 8);
    Pow2Add(16, 16);
  }

  lemma {:induction false} CorruptFits(v: nat, stuck: map<nat, bool>, b: nat, width: nat)
    requires b <= width
    ensures Corrupt(v, stuck, b, width) < Pow2(width - b)
    decreases width - b
  {
    if b < width {
      CorruptFits(v / 2, stuck, b + 1, width);
    }
  }

  lemma GotFits(p: Pass, i: nat)
    requires Possible(p) && i < p.steps
    ensures Got(p, i) < Pow2(p.width) && Wanted(p, i) < Pow2(p.width)
  {
    var c := p.fault.decode[i];
    CorruptFits(Wanted(p, LastWriter(p.fault.decode, p.steps, c).value), p.fault.stuck[c], 0, p.width);
    hide Corrupt, Pow2;
  }

  /** The words that a test covers are those that lie wholly within the area. */
  lemma AreaCovered(size: nat, width: nat, i: nat)
    requires width >= 8
    ensures i < Steps(size, width) <==> (i + 1) * (width / 8) <= size
  {
    var w := width / 8;
    var q := size / w;
    assert q * w <= size < q * w + w;
    if i < q {
      Scaled(i + 1, q, w);
    } else {
      Scaled(q + 1, i + 1, w);
    }
  }

  lemma Scaled(a: nat, b: nat, w: nat)
    requires a <= b
    ensures a * w <= b * w
  {}

  /** The seeds of the 0x55 test for the widths of the program. */
  lemma FivesAre()
    ensures Fives(8) == 0x55 && Fives(16) == 0x5555 && Fives(32) == 0x5555_5555
    ensures Fives(64) == 0x5555_5555_5555_5555
  {
    assert Fives(24) == 0x55_5555;
    assert Fives(40) == 0x55_5555_5555 && Fives(48) == 0x5555_5555_5555;
    assert Fives(56) == 0x55_5555_5555_5555;
  }
}
