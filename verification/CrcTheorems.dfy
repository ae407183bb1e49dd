/** The two branches of the driver compute the same function.

    The link is a third form that neither branch spells out: a register that shifts right. The
    bit-serial register is its mirror image, and the table is eight of its steps. */
module CrcTheorems {
  import opened Options
  import opened Word32
  import opened SoftwareCrc

  // ---------- The right-shifting register ----------

  function StepRight(rp: bv32, t: bv32): bv32 {
    if IsOdd(t) then Xor(Half(t), rp) else Half(t)
  }

  function StepsRight(rp: bv32, t: bv32, k: nat): bv32 {
    if k == 0 then t else StepRight(rp, StepsRight(rp, t, k - 1))
  }

  function FeedRight(rp: bv32, t: bv32, b: bv8): bv32 {
    StepsRight(rp, Xor(t, b as bv32), 8)
  }

  function FeedAllRight(rp: bv32, t: bv32, msg: seq<bv8>): bv32
    decreases |msg|
  {
    if msg == [] then t else FeedAllRight(rp, FeedRight(rp, t, msg[0]), msg[1..])
  }

  /** The polynomial as the right-shifting register sees it. */
  function Mirrored(cfg: Config): bv32
    requires cfg.Usable()
  {
    Reflect(cfg.poly, cfg.polySize)
  }

  // ---------- Exclusive or passes through every step ----------

  lemma StepXor(rp: bv32, x: bv32, y: bv32)
    ensures StepRight(rp, Xor(x, y)) == Xor(StepRight(rp, x), StepRight(rp, y))
  {
    hide Xor, Half, IsOdd;
    HalfXor(x, y);
    XorCommon(Half(x), Half(y), rp);
    XorSwap(Half(x), Half(y), rp);
    XorAssoc(Half(x), Half(y), rp);
  }

  lemma {:induction false} StepsXor(rp: bv32, x: bv32, y: bv32, k: nat)
    ensures StepsRight(rp, Xor(x, y), k) == Xor(StepsRight(rp, x, k), StepsRight(rp, y, k))
  {
    hide Xor, StepRight;
    if k > 0 {
      StepsXor(rp, x, y, k - 1);
      StepXor(rp, StepsRight(rp, x, k - 1), StepsRight(rp, y, k - 1));
    }
  }

  // ---------- The bit-serial register is the mirror image ----------

  lemma DivideBitMirrored(cfg: Config, c: bv32)
    requires cfg.Usable()
    ensures Reflect(DivideBit(cfg, c), cfg.polySize) == StepRight(Mirrored(cfg), Reflect(c, cfg.polySize))
  {
    hide Xor, Half, Twice, IsOdd, HasBit, Reflect;
    ReflectTwice(c, cfg.polySize);
    ReflectOdd(c, cfg.polySize);
    ReflectXor(Twice(c), cfg.poly, cfg.polySize);
  }

  lemma {:induction false} DivideBitsMirrored(cfg: Config, c: bv32, k: nat)
    requires cfg.Usable()
    ensures Reflect(DivideBits(cfg, c, k), cfg.polySize) == StepsRight(Mirrored(cfg), Reflect(c, cfg.polySize), k)
  {
    hide Reflect, DivideBit, StepRight;
    if k > 0 {
      DivideBitsMirrored(cfg, c, k - 1);
      DivideBitMirrored(cfg, DivideBits(cfg, c, k - 1));
    }
  }

  /** The byte that the right-shifting register takes in for a byte of the message. */
  function ByteIn(cfg: Config, b: bv8): bv8 {
    if cfg.reflectData then b else Reflect(b as bv32, 8) as bv8
  }

  lemma ByteInReflected(cfg: Config, b: bv8)
    ensures Reflect(InputByte(cfg, b), 8) == ByteIn(cfg, b) as bv32
  {
    ReflectReflect(b as bv32, 8);
    assert Low(b as bv32, 8) == b as bv32;
    hide Reverse, Low;
  }

  lemma FeedMirrored(cfg: Config, c: bv32, b: bv8)
    requires cfg.Usable()
    ensures Reflect(FeedSerial(cfg, c, b), cfg.polySize)
         == FeedRight(Mirrored(cfg), Reflect(c, cfg.polySize), ByteIn(cfg, b))
  {
    hide Xor, Shl, Reflect, DivideBits, StepsRight, InputByte, ByteIn, Mirrored;
    var n, x := cfg.polySize, InputByte(cfg, b);
    DivideBitsMirrored(cfg, Xor(c, Shl(x, n - 8)), 8);
    ReflectXor(c, Shl(x, n - 8), n);
    ReflectTopByte(x, n);
    ByteInReflected(cfg, b);
  }

  // ---------- The table is eight steps of the right-shifting register ----------

  ghost predicate GeneratedBy(table: seq<bv32>, rp: bv32) {
    |table| == 256 && forall i: bv8 :: Lookup(table, i) == StepsRight(rp, i as bv32, 8)
  }

  function HighBytes(x: bv32): bv32 { x & 0xffffff00 }

  lemma SplitLowByte(t: bv32, b: bv8)
    ensures var x := Xor(t, b as bv32);
            x == Xor(TableIndex(t, b) as bv32, HighBytes(x)) && HighBytes(x) >> 8 == t >> 8
  {}

  function Halves(x: bv32, k: nat): bv32 {
    if k == 0 then x else Half(Halves(x, k - 1))
  }

  lemma {:induction false} StepsEven(rp: bv32, x: bv32, k: nat)
    requires forall j :: 0 <= j < k ==> !IsOdd(Halves(x, j))
    ensures StepsRight(rp, x, k) == Halves(x, k)
  {
    if k > 0 {
      StepsEven(rp, x, k - 1);
    }
  }

  lemma HalvesByte(x: bv32)
    ensures Halves(x, 8) == x >> 8
    ensures x & 0xff == 0 ==> forall j :: 0 <= j < 8 ==> !IsOdd(Halves(x, j))
  {
    assert Halves(x, 1) == x >> 1;
    assert Halves(x, 2) == x >> 2;
    assert Halves(x, 3) == x >> 3;
    assert Halves(x, 4) == x >> 4;
    assert Halves(x, 5) == x >> 5;
    assert Halves(x, 6) == x >> 6;
    assert Halves(x, 7) == x >> 7;
  }

  /** Zero bits at the bottom are shifted out unchanged. */
  lemma StepsHighBytes(rp: bv32, x: bv32)
    requires x & 0xff == 0
    ensures StepsRight(rp, x, 8) == x >> 8
  {
    HalvesByte(x);
    StepsEven(rp, x, 8);
  }

  lemma FeedTableIsFeedRight(table: seq<bv32>, rp: bv32, t: bv32, b: bv8)
    requires GeneratedBy(table, rp)
    ensures FeedTable(table, t, b) == FeedRight(rp, t, b)
  {
    hide Xor, StepsRight, TableIndex, HighBytes;
    var x := Xor(t, b as bv32);
    SplitLowByte(t, b);
    StepsXor(rp, TableIndex(t, b) as bv32, HighBytes(x), 8);
    HighBytesShifted(rp, x);
  }

  lemma HighBytesShifted(rp: bv32, x: bv32)
    ensures StepsRight(rp, HighBytes(x), 8) == HighBytes(x) >> 8
  {
    hide StepsRight;
    StepsHighBytes(rp, HighBytes(x));
  }

  // ---------- Whole runs of the driver ----------

  datatype Call = Reset | Calc(buf: seq<bv8>)

  /** What a driver with register `c` hands out over a sequence of calls. */
  function Outputs(cfg: Config, c: bv32, calls: seq<Call>): seq<bv32>
    requires cfg.Usable()
    decreases |calls|
  {
    if calls == [] then [] else
      match calls[0]
      case Reset => Outputs(cfg, cfg.initialVal, calls[1..])
      case Calc(buf) =>
        var c' := FeedAll(cfg, c, buf);
        [Result(cfg, c')] + Outputs(cfg, c', calls[1..])
  }

  /** The message as the right-shifting register reads it. */
  function BytesIn(cfg: Config, msg: seq<bv8>): seq<bv8> {
    seq(|msg|, i requires 0 <= i < |msg| => ByteIn(cfg, msg[i]))
  }

  lemma {:induction false} SerialMirrored(cfg: Config, c: bv32, msg: seq<bv8>)
    requires cfg.Usable() && cfg.table.None?
    ensures Reflect(FeedAll(cfg, c, msg), cfg.polySize)
         == FeedAllRight(Mirrored(cfg), Reflect(c, cfg.polySize), BytesIn(cfg, msg))
    decreases |msg|
  {
    hide Reflect, FeedSerial, FeedRight, ByteIn, Mirrored;
    if msg != [] {
      FeedMirrored(cfg, c, msg[0]);
      SerialMirrored(cfg, FeedSerial(cfg, c, msg[0]), msg[1..]);
      assert BytesIn(cfg, msg)[1..] == BytesIn(cfg, msg[1..]);
    }
  }

  lemma {:induction false} TableFollowsRight(cfg: Config, t: bv32, msg: seq<bv8>)
    requires cfg.Usable() && cfg.table.Some? && GeneratedBy(cfg.table.value, Mirrored(cfg))
    ensures FeedAll(cfg, t, msg) == FeedAllRight(Mirrored(cfg), t, msg)
    decreases |msg|
  {
    hide FeedTable, FeedRight, GeneratedBy, Mirrored;
    if msg != [] {
      FeedTableIsFeedRight(cfg.table.value, Mirrored(cfg), t, msg[0]);
      TableFollowsRight(cfg, FeedRight(Mirrored(cfg), t, msg[0]), msg[1..]);
    }
  }

  /** A configuration whose table is meant to replace the reflecting bit-serial branch. */
  ghost predicate Tabulated(cfg: Config) {
    && cfg.Usable()
    && cfg.reflectData && cfg.reflectRemainder
    && cfg.table.Some? && GeneratedBy(cfg.table.value, Mirrored(cfg))
  }

  /** The invariant of the two branches: the table register mirrors the bit-serial one. */
  lemma RegistersMirrored(cfg: Config, c: bv32, msg: seq<bv8>)
    requires Tabulated(cfg)
    ensures FeedAll(cfg, Reflect(c, cfg.polySize), msg) == Reflect(FeedAll(cfg.Serial(), c, msg), cfg.polySize)
  {
    hide Reflect, FeedAll, FeedAllRight, GeneratedBy;
    TableFollowsRight(cfg, Reflect(c, cfg.polySize), msg);
    SerialMirrored(cfg.Serial(), c, msg);
    assert BytesIn(cfg.Serial(), msg) == msg;
  }

  lemma {:induction false} MirroredOutputs(cfg: Config, c: bv32, calls: seq<Call>)
    requires Tabulated(cfg) && cfg.initialVal == Reflect(cfg.initialVal, cfg.polySize)
    ensures Outputs(cfg, Reflect(c, cfg.polySize), calls) == Outputs(cfg.Serial(), c, calls)
    decreases |calls|
  {
    hide Reflect, FeedAll, GeneratedBy, Low, Xor;
    if calls != [] {
      match calls[0]
      case Reset =>
        MirroredOutputs(cfg, cfg.initialVal, calls[1..]);
      case Calc(buf) =>
        RegistersMirrored(cfg, c, buf);
        MirroredOutputs(cfg, FeedAll(cfg.Serial(), c, buf), calls[1..]);
    }
  }

  // ---------- Exactly when the two branches agree ----------

  lemma ZeroByteRight(rp: bv32, x: bv32, y: bv32)
    requires Xor(x, y) & 0xff == 0
    ensures Xor(FeedRight(rp, x, 0), FeedRight(rp, y, 0)) == Xor(x, y) >> 8
  {
    hide Xor, StepsRight;
    XorSelf(x);
    XorSelf(y);
    StepsXor(rp, x, y, 8);
    StepsHighBytes(rp, Xor(x, y));
  }

  function Zeros(k: nat): seq<bv8> { seq(k, i => 0) }

  lemma LowByteAgrees(x: bv32, y: bv32, f: bv32, n: bv8)
    requires 8 <= n <= 32 && Low(Xor(x, f), n) == Low(Xor(y, f), n)
    ensures Xor(x, y) & 0xff == 0
  {
    hide Xor, Mask;
    LowXor(x, f, n);
    LowXor(y, f, n);
    XorInjective(Low(x, n), Low(y, n), Low(f, n));
    LowByteOfLow(x, n);
    LowByteOfLow(y, n);
    LowByteXor(x, y);
  }

  lemma LowByteOfLow(x: bv32, n: bv8)
    requires 8 <= n <= 32
    ensures Low(x, n) & 0xff == x & 0xff
  {}

  lemma LowByteXor(x: bv32, y: bv32)
    requires x & 0xff == y & 0xff
    ensures Xor(x, y) & 0xff == 0
  {}

  /** Two right-shifting registers whose results agree on up to three zero bytes are equal. */
  lemma {:induction false} ZerosSeparate(rp: bv32, x: bv32, y: bv32, f: bv32, n: bv8, k: nat)
    requires 8 <= n <= 32 && k <= 4
    requires forall j :: 0 <= j < k ==>
      Low(Xor(FeedAllRight(rp, x, Zeros(j)), f), n) == Low(Xor(FeedAllRight(rp, y, Zeros(j)), f), n)
    ensures k == 1 ==> Xor(x, y) & 0xff == 0
    ensures k == 2 ==> Xor(x, y) & 0xffff == 0
    ensures k == 3 ==> Xor(x, y) & 0xffffff == 0
    ensures k == 4 ==> Xor(x, y) == 0
    decreases k
  {
    hide Low, Xor, FeedRight;
    if k > 0 {
      assert Zeros(0) == [];
      LowByteAgrees(x, y, f, n);
      ZeroByteRight(rp, x, y);
      var x', y' := FeedRight(rp, x, 0), FeedRight(rp, y, 0);
      forall j | 0 <= j < k - 1
        ensures Low(Xor(FeedAllRight(rp, x', Zeros(j)), f), n) == Low(Xor(FeedAllRight(rp, y', Zeros(j)), f), n)
      {
        assert Zeros(j + 1)[1..] == Zeros(j);
        assert FeedAllRight(rp, x, Zeros(j + 1)) == FeedAllRight(rp, x', Zeros(j));
        assert FeedAllRight(rp, y, Zeros(j + 1)) == FeedAllRight(rp, y', Zeros(j));
      }
      ZerosSeparate(rp, x', y', f, n, k - 1);
    }
  }

  ghost predicate BranchesAgree(cfg: Config)
    requires cfg.Usable()
  {
    forall calls :: Outputs(cfg, cfg.initialVal, calls) == Outputs(cfg.Serial(), cfg.initialVal, calls)
  }

  lemma AgreeingInitialValue(cfg: Config)
    requires Tabulated(cfg) && BranchesAgree(cfg)
    ensures cfg.initialVal == Reflect(cfg.initialVal, cfg.polySize)
  {
    hide Reflect, FeedAll, FeedAllRight, GeneratedBy, Low, Xor;
    var rp, n, init := Mirrored(cfg), cfg.polySize, cfg.initialVal;
    var r := Reflect(init, n);
    forall j | 0 <= j < 4
      ensures Low(Xor(FeedAllRight(rp, init, Zeros(j)), cfg.finalVal), n)
           == Low(Xor(FeedAllRight(rp, r, Zeros(j)), cfg.finalVal), n)
    {
      TableFollowsRight(cfg, init, Zeros(j));
      SerialMirrored(cfg.Serial(), init, Zeros(j));
      assert BytesIn(cfg.Serial(), Zeros(j)) == Zeros(j);
      var calls := [Calc(Zeros(j))];
      assert Outputs(cfg, init, calls)[0] == Outputs(cfg.Serial(), init, calls)[0];
    }
    ZerosSeparate(rp, init, r, cfg.finalVal, n, 4);
    XorSelf(r);
    XorInjective(init, r, r);
  }

  /** The lookup table can replace the bit-serial branch, on every sequence of calls, exactly when the
      initial value reads the same in both directions within the register. */
  lemma TableAgreesIff(cfg: Config)
    requires Tabulated(cfg)
    ensures BranchesAgree(cfg) <==> cfg.initialVal == Reflect(cfg.initialVal, cfg.polySize)
  {
    hide Reflect, FeedAll, GeneratedBy, Low, Xor;
    if cfg.initialVal == Reflect(cfg.initialVal, cfg.polySize) {
      forall calls ensures Outputs(cfg, cfg.initialVal, calls) == Outputs(cfg.Serial(), cfg.initialVal, calls) {
        MirroredOutputs(cfg, cfg.initialVal, calls);
      }
    }
    if BranchesAgree(cfg) {
      AgreeingInitialValue(cfg);
    }
  }

  // ---------- Spilled bits and split messages ----------

  /** The division with a register that is masked to its width after every bit. */
  function MaskedDivideBits(cfg: Config, c: bv32, k: nat): bv32
    requires cfg.Usable()
  {
    if k == 0 then Low(c, cfg.polySize)
    else Low(DivideBit(cfg, MaskedDivideBits(cfg, c, k - 1)), cfg.polySize)
  }

  function MaskedFeedAll(cfg: Config, c: bv32, msg: seq<bv8>): bv32
    requires cfg.Usable()
    decreases |msg|
  {
    if msg == [] then c
    else
      var fed := Xor(c, Shl(InputByte(cfg, msg[0]), cfg.polySize - 8));
      MaskedFeedAll(cfg, MaskedDivideBits(cfg, fed, 8), msg[1..])
  }

  lemma DivideBitSpill(cfg: Config, c: bv32, d: bv32)
    requires cfg.Usable() && Low(c, cfg.polySize) == Low(d, cfg.polySize)
    ensures Low(DivideBit(cfg, c), cfg.polySize) == Low(DivideBit(cfg, d), cfg.polySize)
  {
    hide Low, Xor, Twice, HasBit;
    var n := cfg.polySize;
    LowTwice(c, n);
    LowTwice(d, n);
    LowTopBit(c, n);
    LowTopBit(d, n);
    LowXor(Twice(c), cfg.poly, n);
    LowXor(Twice(d), cfg.poly, n);
  }

  lemma {:induction false} MaskedBits(cfg: Config, c: bv32, d: bv32, k: nat)
    requires cfg.Usable() && Low(c, cfg.polySize) == Low(d, cfg.polySize)
    ensures Low(DivideBits(cfg, c, k), cfg.polySize) == MaskedDivideBits(cfg, d, k)
    ensures Low(MaskedDivideBits(cfg, d, k), cfg.polySize) == MaskedDivideBits(cfg, d, k)
  {
    hide Low, DivideBit;
    LowLow(d, cfg.polySize);
    if k > 0 {
      MaskedBits(cfg, c, d, k - 1);
      DivideBitSpill(cfg, DivideBits(cfg, c, k - 1), MaskedDivideBits(cfg, d, k - 1));
      LowLow(DivideBit(cfg, MaskedDivideBits(cfg, d, k - 1)), cfg.polySize);
    }
  }

  lemma {:induction false} MaskedBytes(cfg: Config, c: bv32, d: bv32, msg: seq<bv8>)
    requires cfg.Usable() && cfg.table.None? && Low(c, cfg.polySize) == Low(d, cfg.polySize)
    ensures Low(FeedAll(cfg, c, msg), cfg.polySize) == Low(MaskedFeedAll(cfg, d, msg), cfg.polySize)
    decreases |msg|
  {
    hide Low, Xor, Shl, InputByte, DivideBits, MaskedDivideBits;
    if msg != [] {
      var x := Shl(InputByte(cfg, msg[0]), cfg.polySize - 8);
      LowXor(c, x, cfg.polySize);
      LowXor(d, x, cfg.polySize);
      MaskedBits(cfg, Xor(c, x), Xor(d, x), 8);
      MaskedBytes(cfg, FeedSerial(cfg, c, msg[0]), MaskedDivideBits(cfg, Xor(d, x), 8), msg[1..]);
    }
  }

  /** Bits spilled above the register never reach a result. */
  lemma SpillNeverShows(cfg: Config, c: bv32, msg: seq<bv8>)
    requires cfg.Usable() && cfg.table.None?
    ensures Result(cfg, FeedAll(cfg, c, msg)) == Result(cfg, MaskedFeedAll(cfg, Low(c, cfg.polySize), msg))
  {
    hide Low, Xor, Reflect, FeedAll, MaskedFeedAll;
    var n := cfg.polySize;
    var a, b := FeedAll(cfg, c, msg), MaskedFeedAll(cfg, Low(c, n), msg);
    LowLow(c, n);
    MaskedBytes(cfg, c, Low(c, n), msg);
    ReflectLow(a, n);
    ReflectLow(b, n);
    LowXor(a, cfg.finalVal, n);
    LowXor(b, cfg.finalVal, n);
  }

  /** What the two reflections mean: reflecting the data is taking in reflected bytes, and reflecting the
      remainder turns the result around, before the final value is added. */
  lemma FlagsMirror(cfg: Config, c: bv32, b: bv8)
    requires cfg.Usable() && cfg.table.None?
    ensures FeedSerial(cfg.(reflectData := true), c, b)
         == FeedSerial(cfg.(reflectData := false), c, Reflect(b as bv32, 8) as bv8)
    ensures var f := Low(cfg.finalVal, cfg.polySize);
      Xor(Result(cfg.(reflectRemainder := true), c), f)
      == Reflect(Xor(Result(cfg.(reflectRemainder := false), c), f), cfg.polySize)
  {
    hide Xor, Low, Reflect, DivideBits, Shl;
    var n, f := cfg.polySize, cfg.finalVal;
    ReflectedByte(b);
    SameDivision(cfg.(reflectData := true), cfg.(reflectData := false),
      Xor(c, Shl(Reflect(b as bv32, 8), n - 8)), 8);
    LowXor(Reflect(c, n), f, n);
    LowXor(c, f, n);
    LowReflect(c, n);
    ReflectLow(c, n);
    XorCancel(Low(Reflect(c, n), n), Low(f, n));
    XorCancel(Low(c, n), Low(f, n));
  }

  lemma {:induction false} SameDivision(cfg: Config, other: Config, c: bv32, k: nat)
    requires cfg.Usable() && other.Usable() && cfg.polySize == other.polySize && cfg.poly == other.poly
    ensures DivideBits(cfg, c, k) == DivideBits(other, c, k)
  {
    hide Xor, Twice, HasBit;
    if k > 0 {
      SameDivision(cfg, other, c, k - 1);
    }
  }

  lemma ReflectedByte(b: bv8)
    ensures (Reflect(b as bv32, 8) as bv8) as bv32 == Reflect(b as bv32, 8)
  {}

  /** Computing over `a` and then over `b` ends in the same result and register as computing over `a + b`. */
  lemma SplitAnywhere(cfg: Config, c: bv32, a: seq<bv8>, b: seq<bv8>, more: seq<Call>)
    requires cfg.Usable()
    ensures Outputs(cfg, c, [Calc(a), Calc(b)] + more)[1..] == Outputs(cfg, c, [Calc(a + b)] + more)
  {
    hide Feed, Result;
    FeedAllConcat(cfg, c, a, b);
    var calls := [Calc(a), Calc(b)] + more;
    assert calls[1..] == [Calc(b)] + more && calls[1..][1..] == more;
    assert ([Calc(a + b)] + more)[1..] == more;
  }
}
