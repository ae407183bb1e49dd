/** Every change confined to a window no longer than the register is detected.

    The register is fed bit by bit, in the order of transmission. The registers of two messages differ by what
    the differing bits alone would leave in a register that starts at zero. */
module CrcBursts {
  import opened Options
  import opened Word32
  import opened SoftwareCrc
  import opened CrcTheorems

  // ---------- The register fed bit by bit ----------

  function OneBit(b: bool): bv32 { if b then 1 else 0 }

  function TakeBit(rp: bv32, x: bv32, b: bool): bv32 {
    StepRight(rp, Xor(x, OneBit(b)))
  }

  function TakeBits(rp: bv32, x: bv32, bits: seq<bool>): bv32 {
    if bits == [] then x else TakeBit(rp, TakeBits(rp, x, bits[..|bits| - 1]), bits[|bits| - 1])
  }

  /** The `k` low bits of a word, lowest first. */
  function LowBits(y: bv32, k: nat): (bits: seq<bool>)
    ensures |bits| == k
  {
    if k == 0 then [] else LowBits(y, k - 1) + [IsOdd(Halves(y, k - 1))]
  }

  function ByteBits(b: bv8): (bits: seq<bool>)
    ensures |bits| == 8
  {
    LowBits(b as bv32, 8)
  }

  /** The bits of a message, first byte first and lowest bit of each byte first. */
  function MessageBits(msg: seq<bv8>): (bits: seq<bool>)
    ensures |bits| == 8 * |msg|
    decreases |msg|
  {
    if msg == [] then [] else ByteBits(msg[0]) + MessageBits(msg[1..])
  }

  lemma OneBitOdd(y: bv32)
    ensures !IsOdd(Xor(OneBit(IsOdd(y)), y)) && Half(Xor(OneBit(IsOdd(y)), y)) == Half(y)
  {}

  /** The lowest bit of a word enters now, the others one step later. */
  lemma PeelBit(rp: bv32, x: bv32, y: bv32)
    ensures StepRight(rp, Xor(x, y)) == Xor(TakeBit(rp, x, IsOdd(y)), Half(y))
  {
    hide Xor, Half, IsOdd, OneBit;
    var b := OneBit(IsOdd(y));
    var rest := Xor(b, y);
    OneBitOdd(y);
    XorCancel(x, b);
    XorAssoc(Xor(x, b), b, y);
    StepXor(rp, Xor(x, b), rest);
  }

  lemma {:induction false} StepsTakeBits(rp: bv32, x: bv32, y: bv32, k: nat)
    ensures StepsRight(rp, Xor(x, y), k) == Xor(TakeBits(rp, x, LowBits(y, k)), Halves(y, k))
  {
    hide Xor, Half, IsOdd, StepRight, TakeBit;
    if k > 0 {
      StepsTakeBits(rp, x, y, k - 1);
      PeelBit(rp, TakeBits(rp, x, LowBits(y, k - 1)), Halves(y, k - 1));
      assert LowBits(y, k)[..k - 1] == LowBits(y, k - 1);
    }
  }

  lemma ByteShiftedOut(b: bv8)
    ensures (b as bv32) >> 8 == 0
  {}

  lemma FeedTakesBits(rp: bv32, x: bv32, b: bv8)
    ensures FeedRight(rp, x, b) == TakeBits(rp, x, ByteBits(b))
  {
    hide Xor, StepsRight, TakeBits, LowBits, Halves;
    StepsTakeBits(rp, x, b as bv32, 8);
    HalvesByte(b as bv32);
    ByteShiftedOut(b);
    XorSelf(TakeBits(rp, x, ByteBits(b)));
  }

  lemma {:induction false} TakeBitsConcat(rp: bv32, x: bv32, a: seq<bool>, b: seq<bool>)
    ensures TakeBits(rp, x, a + b) == TakeBits(rp, TakeBits(rp, x, a), b)
    decreases |b|
  {
    hide TakeBit;
    if b == [] {
      assert a + b == a;
    } else {
      assert (a + b)[..|a + b| - 1] == a + b[..|b| - 1];
      TakeBitsConcat(rp, x, a, b[..|b| - 1]);
    }
  }

  lemma {:induction false} FeedAllTakesBits(rp: bv32, x: bv32, msg: seq<bv8>)
    ensures FeedAllRight(rp, x, msg) == TakeBits(rp, x, MessageBits(msg))
    decreases |msg|
  {
    hide FeedRight, ByteBits, TakeBits;
    if msg == [] {
      NoBits(rp, x);
    } else {
      FeedTakesBits(rp, x, msg[0]);
      FeedAllTakesBits(rp, FeedRight(rp, x, msg[0]), msg[1..]);
      TakeBitsConcat(rp, x, ByteBits(msg[0]), MessageBits(msg[1..]));
    }
  }

  lemma NoBits(rp: bv32, x: bv32)
    ensures TakeBits(rp, x, []) == x
  {}

  // ---------- What the bits of a message are ----------

  lemma {:induction false} LowBitsAt(y: bv32, k: nat, j: nat)
    requires j < k
    ensures LowBits(y, k)[j] == IsOdd(Halves(y, j))
    decreases k
  {
    hide IsOdd, Halves;
    if j < k - 1 {
      LowBitsAt(y, k - 1, j);
    }
  }

  lemma HalfBit(x: bv32, j: bv8)
    requires 0 < j < 32
    ensures HasBit(Half(x), j - 1) == HasBit(x, j)
  {}

  lemma {:induction false} OddHalves(x: bv32, j: bv8, k: nat)
    requires j < 32 && k == j as int
    ensures IsOdd(Halves(x, k)) == HasBit(x, j)
    decreases k
  {
    hide IsOdd, HasBit, Half;
    if j == 0 {
      OddIsBitZero(x);
    } else {
      OneLess(j);
      HalfBit(x, j);
      HalvesHalf(x, k);
      OddHalves(Half(x), j - 1, k - 1);
    }
  }

  /** Entry `j` of the bits of a byte is its bit `j`. */
  lemma ByteBitsAre(b: bv8)
    ensures var bits := ByteBits(b);
      && bits[0] == HasBit(b as bv32, 0) && bits[1] == HasBit(b as bv32, 1)
      && bits[2] == HasBit(b as bv32, 2) && bits[3] == HasBit(b as bv32, 3)
      && bits[4] == HasBit(b as bv32, 4) && bits[5] == HasBit(b as bv32, 5)
      && bits[6] == HasBit(b as bv32, 6) && bits[7] == HasBit(b as bv32, 7)
  {
    hide HasBit, IsOdd, Halves, LowBits;
    BitIs(b as bv32, 0, 0);
    BitIs(b as bv32, 1, 1);
    BitIs(b as bv32, 2, 2);
    BitIs(b as bv32, 3, 3);
    BitIs(b as bv32, 4, 4);
    BitIs(b as bv32, 5, 5);
    BitIs(b as bv32, 6, 6);
    BitIs(b as bv32, 7, 7);
  }

  lemma BitIs(x: bv32, j: bv8, k: nat)
    requires j < 8 && k == j as int
    ensures k < 8 && LowBits(x, 8)[k] == HasBit(x, j)
  {
    hide HasBit, IsOdd, Halves, LowBits;
    LowBitsAt(x, 8, k);
    OddHalves(x, j, k);
  }

  lemma BitsGiveByte(b: bv8, c: bv8)
    requires HasBit(b as bv32, 0) == HasBit(c as bv32, 0) && HasBit(b as bv32, 1) == HasBit(c as bv32, 1)
    requires HasBit(b as bv32, 2) == HasBit(c as bv32, 2) && HasBit(b as bv32, 3) == HasBit(c as bv32, 3)
    requires HasBit(b as bv32, 4) == HasBit(c as bv32, 4) && HasBit(b as bv32, 5) == HasBit(c as bv32, 5)
    requires HasBit(b as bv32, 6) == HasBit(c as bv32, 6) && HasBit(b as bv32, 7) == HasBit(c as bv32, 7)
    ensures b == c
  {}

  lemma ByteBitsInjective(b: bv8, c: bv8)
    requires ByteBits(b) == ByteBits(c)
    ensures b == c
  {
    hide HasBit, ByteBits;
    ByteBitsAre(b);
    ByteBitsAre(c);
    BitsGiveByte(b, c);
  }

  lemma {:induction false} MessageBitsInjective(a: seq<bv8>, b: seq<bv8>)
    requires |a| == |b| && MessageBits(a) == MessageBits(b)
    ensures a == b
    decreases |a|
  {
    hide ByteBits;
    if a != [] {
      assert ByteBits(a[0]) == MessageBits(a)[..8] == MessageBits(b)[..8] == ByteBits(b[0]);
      assert MessageBits(a[1..]) == MessageBits(a)[8..] == MessageBits(b)[8..] == MessageBits(b[1..]);
      ByteBitsInjective(a[0], b[0]);
      MessageBitsInjective(a[1..], b[1..]);
      assert a == [a[0]] + a[1..] && b == [b[0]] + b[1..];
    }
  }

  lemma {:induction false} MessageBitsConcat(a: seq<bv8>, b: seq<bv8>)
    ensures MessageBits(a + b) == MessageBits(a) + MessageBits(b)
    decreases |a|
  {
    hide ByteBits;
    if a == [] {
      assert a + b == b;
    } else {
      assert (a + b)[1..] == a[1..] + b;
      MessageBitsConcat(a[1..], b);
    }
  }

  // ---------- Differences ----------

  function Differences(a: seq<bool>, b: seq<bool>): seq<bool>
    requires |a| == |b|
  {
    seq(|a|, i requires 0 <= i < |a| => a[i] != b[i])
  }

  lemma OneBitXor(a: bool, b: bool)
    ensures Xor(OneBit(a), OneBit(b)) == OneBit(a != b)
  {}

  lemma TakeBitXor(rp: bv32, x: bv32, y: bv32, a: bool, b: bool)
    ensures Xor(TakeBit(rp, x, a), TakeBit(rp, y, b)) == TakeBit(rp, Xor(x, y), a != b)
  {
    hide Xor, OneBit, StepRight;
    StepXor(rp, Xor(x, OneBit(a)), Xor(y, OneBit(b)));
    OneBitXor(a, b);
    XorAssoc(Xor(x, OneBit(a)), y, OneBit(b));
    XorSwap(x, OneBit(a), y);
    XorAssoc(Xor(x, y), OneBit(a), OneBit(b));
  }

  /** The difference of two registers depends only on where the bits they take differ. */
  lemma {:induction false} TakeBitsXor(rp: bv32, x: bv32, y: bv32, a: seq<bool>, b: seq<bool>)
    requires |a| == |b|
    ensures Xor(TakeBits(rp, x, a), TakeBits(rp, y, b)) == TakeBits(rp, Xor(x, y), Differences(a, b))
    decreases |a|
  {
    hide Xor, TakeBit;
    if a != [] {
      var n := |a| - 1;
      TakeBitsXor(rp, x, y, a[..n], b[..n]);
      TakeBitXor(rp, TakeBits(rp, x, a[..n]), TakeBits(rp, y, b[..n]), a[n], b[n]);
      assert Differences(a, b)[..n] == Differences(a[..n], b[..n]);
    }
  }

  // ---------- A window no longer than the register ----------

  lemma StepInjective(rp: bv32, n: bv8, x: bv32, y: bv32)
    requires 1 <= n <= 32 && HasBit(rp, n - 1)
    requires Low(x, n) == x && Low(y, n) == y && StepRight(rp, x) == StepRight(rp, y)
    ensures x == y
  {
    hide Low, Half, Xor, IsOdd, HasBit;
    HalfLow(x, n);
    HalfLow(y, n);
    if IsOdd(x) {
      XorSetsBit(Half(x), rp, n - 1);
    }
    if IsOdd(y) {
      XorSetsBit(Half(y), rp, n - 1);
    }
    if IsOdd(x) && IsOdd(y) {
      XorInjective(Half(x), Half(y), rp);
    }
    HalfInjective(x, y);
  }

  lemma StepFits(rp: bv32, n: bv8, x: bv32)
    requires 1 <= n <= 32 && Low(rp, n) == rp && Low(x, n) == x
    ensures Low(StepRight(rp, x), n) == StepRight(rp, x)
  {
    hide Low, Half, Xor, IsOdd, HasBit;
    HalfLow(x, n);
    LowXor(Half(x), rp, n);
  }

  lemma TakeBitFits(rp: bv32, n: bv8, x: bv32, b: bool)
    requires 1 <= n <= 32 && Low(rp, n) == rp && Low(x, n) == x
    ensures Low(TakeBit(rp, x, b), n) == TakeBit(rp, x, b)
  {
    hide Low, Xor, StepRight;
    OneBitFits(n, b);
    LowXor(x, OneBit(b), n);
    StepFits(rp, n, Xor(x, OneBit(b)));
  }

  lemma OneBitFits(n: bv8, b: bool)
    requires 1 <= n <= 32
    ensures Low(OneBit(b), n) == OneBit(b)
  {}

  lemma {:induction false} HalvesHalf(x: bv32, k: nat)
    requires k > 0
    ensures Halves(x, k) == Halves(Half(x), k - 1)
  {
    hide Half;
    if k > 1 {
      HalvesHalf(x, k - 1);
    }
  }

  lemma HasBitNonzero(x: bv32, i: bv8)
    requires i < 32 && HasBit(x, i)
    ensures x != 0
  {}

  lemma {:induction false} HalvesZero(k: nat)
    ensures Halves(0, k) == 0
  {
    if k > 0 {
      HalvesZero(k - 1);
    }
  }

  /** A word with bit `i` set is not gone after `i` halvings. */
  lemma {:induction false} HalvesNonzero(x: bv32, i: bv8, k: nat)
    requires i < 32 && HasBit(x, i) && k <= i as int
    ensures Halves(x, k) != 0
    decreases k
  {
    hide HasBit, Half;
    HasBitNonzero(x, i);
    if k > 0 {
      OneLess(i);
      HalfBit(x, i);
      HalvesHalf(x, k);
      HalvesNonzero(Half(x), i - 1, k - 1);
    }
  }

  lemma OneLess(i: bv8)
    requires i > 0
    ensures (i - 1) as int == i as int - 1
  {}

  /** While the window lasts, the difference keeps a bit high enough not to be shifted out before it ends. */
  lemma WindowStep(rp: bv32, n: bv8, x: bv32, b: bool, k: nat)
    requires 8 <= n <= 32 && HasBit(rp, n - 1) && Low(rp, n) == rp && Low(x, n) == x
    requires 0 < k < n as int && Halves(x, k) != 0
    ensures Halves(TakeBit(rp, x, b), k - 1) != 0
  {
    hide Low, HasBit, Half, Xor, Halves, IsOdd;
    HalfOneBit(x, b);
    HalvesHalf(x, k);
    if IsOdd(Xor(x, OneBit(b))) {
      HalfLow(x, n);
      XorSetsBit(Half(x), rp, n - 1);
      OneLess(n);
      HalvesNonzero(Xor(Half(x), rp), n - 1, k - 1);
    }
  }

  lemma HalfOneBit(x: bv32, b: bool)
    ensures Half(Xor(x, OneBit(b))) == Half(x)
  {}

  /** Nothing comes of nothing; the first difference leaves the polynomial; equal bits keep a difference. */
  lemma TakeFirst(rp: bv32, n: bv8, x: bv32)
    requires 8 <= n <= 32 && HasBit(rp, n - 1) && Low(rp, n) == rp && Low(x, n) == x
    ensures TakeBit(rp, 0, false) == 0 && TakeBit(rp, 0, true) == rp
    ensures x != 0 ==> TakeBit(rp, x, false) != 0
  {
    ZeroSteps(rp);
    ZeroFits(n);
    XorSelf(x);
    hide Low, HasBit, Half, Xor, StepRight;
    if x != 0 && StepRight(rp, x) == 0 {
      StepInjective(rp, n, x, 0);
    }
  }

  lemma ZeroSteps(rp: bv32)
    ensures StepRight(rp, Xor(0, 0)) == 0 && StepRight(rp, 0) == 0 && StepRight(rp, Xor(0, 1)) == rp
  {}

  lemma ZeroFits(n: bv8)
    requires 1 <= n <= 32
    ensures Low(0, n) == 0
  {}

  /** Whether a register that starts at zero has seen a set bit, and if so, what is left of it; `first` is the
      position of the first one. */
  predicate Tracks(x: bv32, bits: seq<bool>, first: nat, n: bv8) {
    if |bits| <= first then x == 0
    else x != 0 && (|bits| <= first + n as int ==> Halves(x, first + n as int - |bits|) != 0)
  }

  lemma {:induction false} WindowTracked(rp: bv32, n: bv8, bits: seq<bool>, first: nat)
    requires 8 <= n <= 32 && HasBit(rp, n - 1) && Low(rp, n) == rp
    requires |bits| > first ==> bits[first]
    requires forall k :: 0 <= k < |bits| && bits[k] ==> first <= k < first + n as int
    ensures var x := TakeBits(rp, 0, bits); Low(x, n) == x && Tracks(x, bits, first, n)
    decreases |bits|
  {
    hide Low, HasBit, TakeBit, Halves;
    ZeroFits(n);
    if bits != [] {
      var m := |bits| - 1;
      var x := TakeBits(rp, 0, bits[..m]);
      WindowTracked(rp, n, bits[..m], first);
      TakeBitFits(rp, n, x, bits[m]);
      TakeFirst(rp, n, x);
      if m == first {
        OneLess(n);
        HalvesNonzero(rp, n - 1, n as int - 1);
        HasBitNonzero(rp, n - 1);
      } else if first < m < first + n as int {
        var k := first + n as int - m;
        WindowStep(rp, n, x, bits[m], k);
        if TakeBit(rp, x, bits[m]) == 0 {
          HalvesZero(k - 1);
        }
      }
    }
  }

  /** The registers of two messages whose bits differ only within a window no longer than the register. */
  lemma RegistersDiffer(rp: bv32, n: bv8, t: bv32, a: seq<bv8>, b: seq<bv8>, first: nat)
    requires 8 <= n <= 32 && HasBit(rp, n - 1) && Low(rp, n) == rp
    requires |a| == |b| && a != b
    requires WithinWindow(MessageBits(a), MessageBits(b), first, n)
    ensures var d := Xor(FeedAllRight(rp, t, a), FeedAllRight(rp, t, b)); d != 0 && Low(d, n) == d
  {
    hide Low, HasBit, Xor, FeedAllRight, MessageBits, TakeBits;
    var p, q := MessageBits(a), MessageBits(b);
    FeedAllTakesBits(rp, t, a);
    FeedAllTakesBits(rp, t, b);
    TakeBitsXor(rp, t, t, p, q);
    XorSelf(t);
    if p == q {
      MessageBitsInjective(a, b);
    }
    var d := Differences(p, q);
    var start := FirstDifference(p, q);
    WindowTracked(rp, n, d, start);
  }

  /** Bits differ only at `n` consecutive positions. */
  predicate WithinWindow(p: seq<bool>, q: seq<bool>, first: nat, n: bv8)
    requires |p| == |q|
  {
    forall k :: 0 <= k < |p| && p[k] != q[k] ==> first <= k < first + n as int
  }

  lemma FirstDifference(p: seq<bool>, q: seq<bool>) returns (k: nat)
    requires |p| == |q| && p != q
    ensures k < |p| && p[k] != q[k] && forall i :: 0 <= i < k ==> p[i] == q[i]
  {
    var j :| 0 <= j < |p| && p[j] != q[j];
    k := 0;
    while p[k] == q[k]
      invariant k <= j && forall i :: 0 <= i < k ==> p[i] == q[i]
      decreases |p| - k
    {
      k := k + 1;
    }
  }

  // ---------- Results ----------

  lemma EqualResultsEqualRegisters(cfg: Config, c: bv32, d: bv32)
    requires cfg.Usable() && cfg.table.None? && Result(cfg, c) == Result(cfg, d)
    ensures Reflect(c, cfg.polySize) == Reflect(d, cfg.polySize)
  {
    hide Low, Xor, Reflect;
    var n, f := cfg.polySize, cfg.finalVal;
    var x := if cfg.reflectRemainder then Reflect(c, n) else c;
    var y := if cfg.reflectRemainder then Reflect(d, n) else d;
    LowXor(x, f, n);
    LowXor(y, f, n);
    XorInjective(Low(x, n), Low(y, n), Low(f, n));
    LowReflect(c, n);
    LowReflect(d, n);
    ReflectLow(c, n);
    ReflectLow(d, n);
  }

  lemma BytesInInjective(cfg: Config, v: seq<bv8>, w: seq<bv8>)
    requires |v| == |w| && v != w
    ensures BytesIn(cfg, v) != BytesIn(cfg, w)
  {
    hide ByteIn;
    var i :| 0 <= i < |v| && v[i] != w[i];
    assert ByteIn(cfg, v[i]) != ByteIn(cfg, w[i]) by {
      if ByteIn(cfg, v[i]) == ByteIn(cfg, w[i]) {
        ByteInInjective(cfg, v[i], w[i]);
      }
    }
    assert BytesIn(cfg, v)[i] != BytesIn(cfg, w)[i];
  }

  lemma ByteInInjective(cfg: Config, b: bv8, c: bv8)
    requires ByteIn(cfg, b) == ByteIn(cfg, c)
    ensures b == c
  {
    ReflectReflect(b as bv32, 8);
    ReflectReflect(c as bv32, 8);
    hide Reflect;
    ByteFits(b, 8);
    ByteFits(c, 8);
    hide Low;
    assert b as bv32 == c as bv32;
    ByteWord(b, c);
  }

  lemma ByteFits(b: bv8, n: bv8)
    requires 8 <= n <= 32
    ensures Low(b as bv32, n) == b as bv32
  {}

  lemma ByteWord(b: bv8, c: bv8)
    requires b as bv32 == c as bv32
    ensures b == c
  {}

  lemma OddPolynomial(cfg: Config)
    requires cfg.Usable()
    ensures Low(Mirrored(cfg), cfg.polySize) == Mirrored(cfg)
    ensures HasBit(Mirrored(cfg), cfg.polySize - 1) == IsOdd(cfg.poly)
  {
    hide Low, Reflect, HasBit;
    LowReflect(cfg.poly, cfg.polySize);
    ReflectBit(cfg.poly, cfg.polySize, cfg.polySize - 1);
    OddIsBitZero(cfg.poly);
  }

  /** The bits of a message in the order in which the register takes them in. Within a byte the bit-serial branch
      starts with the highest bit, unless it reflects the data; the table branch starts with the lowest. */
  function SentBits(cfg: Config, msg: seq<bv8>): (bits: seq<bool>)
    ensures |bits| == 8 * |msg|
  {
    MessageBits(if cfg.table.Some? then msg else BytesIn(cfg, msg))
  }

  /** A change confined to as many consecutive bits as the register has never goes unnoticed by the bit-serial
      branch, in messages of any length, for every polynomial with a constant term. */
  lemma BitBurstDetected(cfg: Config, a: seq<bv8>, b: seq<bv8>, first: nat)
    requires cfg.Usable() && cfg.table.None? && IsOdd(cfg.poly)
    requires |a| == |b| && a != b && WithinWindow(SentBits(cfg, a), SentBits(cfg, b), first, cfg.polySize)
    ensures Checksum(cfg, a) != Checksum(cfg, b)
  {
    hide Low, Reflect, HasBit, IsOdd, FeedAll, FeedAllRight, Result, Mirrored, MessageBits, WithinWindow;
    var rp, n, t := Mirrored(cfg), cfg.polySize, cfg.initialVal;
    OddPolynomial(cfg);
    BytesInInjective(cfg, a, b);
    SerialMirrored(cfg, t, a);
    SerialMirrored(cfg, t, b);
    RegistersDiffer(rp, n, Reflect(t, n), BytesIn(cfg, a), BytesIn(cfg, b), first);
    var c, d := FeedAll(cfg, t, a), FeedAll(cfg, t, b);
    XorSelf(Reflect(c, n));
    if Result(cfg, c) == Result(cfg, d) {
      EqualResultsEqualRegisters(cfg, c, d);
    }
  }

  /** Nor by the table branch, for any table generated from such a polynomial. */
  lemma TableBitBurstDetected(cfg: Config, a: seq<bv8>, b: seq<bv8>, first: nat)
    requires cfg.Usable() && cfg.table.Some? && GeneratedBy(cfg.table.value, Mirrored(cfg)) && IsOdd(cfg.poly)
    requires |a| == |b| && a != b && WithinWindow(SentBits(cfg, a), SentBits(cfg, b), first, cfg.polySize)
    ensures Checksum(cfg, a) != Checksum(cfg, b)
  {
    hide Low, Xor, HasBit, IsOdd, FeedAll, FeedAllRight, GeneratedBy, Mirrored, MessageBits, WithinWindow;
    var rp, n, t := Mirrored(cfg), cfg.polySize, cfg.initialVal;
    OddPolynomial(cfg);
    TableFollowsRight(cfg, t, a);
    TableFollowsRight(cfg, t, b);
    RegistersDiffer(rp, n, t, a, b, first);
    var c, d := FeedAll(cfg, t, a), FeedAll(cfg, t, b);
    if Result(cfg, c) == Result(cfg, d) {
      LowXor(c, cfg.finalVal, n);
      LowXor(d, cfg.finalVal, n);
      XorInjective(Low(c, n), Low(d, n), Low(cfg.finalVal, n));
      LowXor(c, d, n);
      XorSelf(Low(c, n));
    }
  }

  // ---------- Windows of whole bytes ----------

  lemma ByteWindow(prefix: seq<bv8>, v: seq<bv8>, w: seq<bv8>, suffix: seq<bv8>, n: bv8)
    requires |v| == |w| && 8 * |v| <= n as int
    ensures WithinWindow(MessageBits(prefix + v + suffix), MessageBits(prefix + w + suffix), 8 * |prefix|, n)
  {
    hide MessageBits;
    MessageBitsConcat(prefix + v, suffix);
    MessageBitsConcat(prefix, v);
    MessageBitsConcat(prefix + w, suffix);
    MessageBitsConcat(prefix, w);
  }

  lemma BytesInConcat(cfg: Config, a: seq<bv8>, b: seq<bv8>)
    ensures BytesIn(cfg, a + b) == BytesIn(cfg, a) + BytesIn(cfg, b)
  {}

  /** In particular a change confined to a window of whole bytes that fits into the register. */
  lemma BurstDetected(cfg: Config, prefix: seq<bv8>, v: seq<bv8>, w: seq<bv8>, suffix: seq<bv8>)
    requires cfg.Usable() && cfg.table.None? && IsOdd(cfg.poly)
    requires |v| == |w| && 8 * |v| <= cfg.polySize as int && v != w
    ensures Checksum(cfg, prefix + v + suffix) != Checksum(cfg, prefix + w + suffix)
  {
    hide Checksum, MessageBits, IsOdd, WithinWindow, ByteIn;
    BytesInConcat(cfg, prefix + v, suffix);
    BytesInConcat(cfg, prefix, v);
    BytesInConcat(cfg, prefix + w, suffix);
    BytesInConcat(cfg, prefix, w);
    ByteWindow(BytesIn(cfg, prefix), BytesIn(cfg, v), BytesIn(cfg, w), BytesIn(cfg, suffix), cfg.polySize);
    assert (prefix + v + suffix)[|prefix|..|prefix| + |v|] == v;
    assert (prefix + w + suffix)[|prefix|..|prefix| + |w|] == w;
    hide BytesIn;
    BitBurstDetected(cfg, prefix + v + suffix, prefix + w + suffix, 8 * |prefix|);
  }

  /** The same for the table branch. */
  lemma TableBurstDetected(cfg: Config, prefix: seq<bv8>, v: seq<bv8>, w: seq<bv8>, suffix: seq<bv8>)
    requires cfg.Usable() && cfg.table.Some? && GeneratedBy(cfg.table.value, Mirrored(cfg)) && IsOdd(cfg.poly)
    requires |v| == |w| && 8 * |v| <= cfg.polySize as int && v != w
    ensures Checksum(cfg, prefix + v + suffix) != Checksum(cfg, prefix + w + suffix)
  {
    hide Checksum, MessageBits, IsOdd, WithinWindow, GeneratedBy;
    ByteWindow(prefix, v, w, suffix, cfg.polySize);
    assert (prefix + v + suffix)[|prefix|..|prefix| + |v|] == v;
    assert (prefix + w + suffix)[|prefix|..|prefix| + |w|] == w;
    TableBitBurstDetected(cfg, prefix + v + suffix, prefix + w + suffix, 8 * |prefix|);
  }
}
