/** What a message with its own checksum appended leaves in the register, and the values that name a CRC. */
module CrcResidues {
  import opened Options
  import opened Word32
  import opened SoftwareCrc
  import opened CrcTheorems
  import opened CrcBursts
  import opened CrcTables

  function LowByte(w: bv32): bv8 { (w & 0xff) as bv8 }

  /** The `k` low bytes of a word, lowest first. */
  function LowBytes(w: bv32, k: nat): seq<bv8> {
    if k == 0 then [] else [LowByte(w)] + LowBytes(w >> 8, k - 1)
  }

  predicate FitsBytes(w: bv32, k: nat) {
    if k == 0 then w == 0 else FitsBytes(w >> 8, k - 1)
  }

  lemma SplitWord(w: bv32)
    ensures w == Xor(LowByte(w) as bv32, HighBytes(w)) && HighBytes(w) >> 8 == w >> 8
  {}

  lemma {:induction false} StepsAdd(rp: bv32, t: bv32, j: nat, k: nat)
    ensures StepsRight(rp, t, j + k) == StepsRight(rp, StepsRight(rp, t, j), k)
  {
    hide StepRight;
    if k > 0 {
      StepsAdd(rp, t, j, k - 1);
    }
  }

  /** Its lowest byte and the rest of a word may enter the register one after the other. */
  lemma FeedsLowByte(rp: bv32, t: bv32, w: bv32)
    ensures Xor(FeedRight(rp, t, LowByte(w)), w >> 8) == StepsRight(rp, Xor(t, w), 8)
  {
    hide Xor, StepsRight, LowByte, HighBytes;
    var b := LowByte(w) as bv32;
    SplitWord(w);
    HighBytesShifted(rp, w);
    StepsXor(rp, Xor(t, b), HighBytes(w), 8);
    XorAssoc(t, b, HighBytes(w));
  }

  /** Bytes fed lowest first enter the register like the word they make up. */
  lemma {:induction false} FeedsWord(rp: bv32, t: bv32, w: bv32, k: nat)
    requires FitsBytes(w, k)
    ensures FeedAllRight(rp, t, LowBytes(w, k)) == StepsRight(rp, Xor(t, w), 8 * k)
    decreases k
  {
    if k == 0 {
      XorSelf(t);
    } else {
      hide Xor, FeedRight, LowByte;
      var u := FeedRight(rp, t, LowByte(w));
      FeedsLowByte(rp, t, w);
      FeedsWord(rp, u, w >> 8, k - 1);
      StepsAdd(rp, Xor(t, w), 8, 8 * (k - 1));
      assert LowBytes(w, k)[1..] == LowBytes(w >> 8, k - 1);
    }
  }

  // ---------- The register stays within its width ----------

  lemma {:induction false} StepsFit(rp: bv32, n: bv8, x: bv32, k: nat)
    requires 1 <= n <= 32 && Low(rp, n) == rp && Low(x, n) == x
    ensures Low(StepsRight(rp, x, k), n) == StepsRight(rp, x, k)
  {
    hide Low, StepRight;
    if k > 0 {
      StepsFit(rp, n, x, k - 1);
      StepFits(rp, n, StepsRight(rp, x, k - 1));
    }
  }

  lemma {:induction false} FeedsFit(rp: bv32, n: bv8, x: bv32, msg: seq<bv8>)
    requires 8 <= n <= 32 && Low(rp, n) == rp && Low(x, n) == x
    ensures Low(FeedAllRight(rp, x, msg), n) == FeedAllRight(rp, x, msg)
    decreases |msg|
  {
    hide Low, Xor, StepsRight;
    if msg != [] {
      var b := msg[0] as bv32;
      ByteFits(msg[0], n);
      LowXor(x, b, n);
      StepsFit(rp, n, Xor(x, b), 8);
      FeedsFit(rp, n, FeedRight(rp, x, msg[0]), msg[1..]);
    }
  }

  lemma WidthInBytes(w: bv32, n: bv8)
    requires Low(w, if n == 16 then 16 else 32) == w
    ensures n == 16 ==> FitsBytes(w, 2)
    ensures n == 32 ==> FitsBytes(w, 4)
  {
    assert n == 16 ==> (w >> 8) >> 8 == 0;
    assert (((w >> 8) >> 8) >> 8) >> 8 == 0;
    hide Low;
    assert FitsBytes(0, 0);
    assert (w >> 8) >> 8 == 0 ==> FitsBytes((w >> 8) >> 8, 0) && FitsBytes(w >> 8, 1);
    assert FitsBytes((((w >> 8) >> 8) >> 8) >> 8, 0) && FitsBytes(((w >> 8) >> 8) >> 8, 1);
    assert FitsBytes((w >> 8) >> 8, 2) && FitsBytes(w >> 8, 3);
  }

  // ---------- The residue ----------

  /** A configuration of two or four bytes whose values lie within its register. */
  ghost predicate WholeBytes(cfg: Config) {
    && Tabulated(cfg) && (cfg.polySize == 16 || cfg.polySize == 32)
    && Low(cfg.initialVal, cfg.polySize) == cfg.initialVal && Low(cfg.finalVal, cfg.polySize) == cfg.finalVal
  }

  function ByteWidth(cfg: Config): nat { if cfg.polySize == 16 then 2 else 4 }

  /** The message, followed by its checksum. */
  function Sealed(cfg: Config, msg: seq<bv8>): seq<bv8>
    requires cfg.Usable()
  {
    msg + LowBytes(Checksum(cfg, msg), ByteWidth(cfg))
  }

  /** Whatever the message, with its checksum behind it the register holds what the final value alone
      would leave there. */
  lemma SealedRegister(cfg: Config, msg: seq<bv8>)
    requires WholeBytes(cfg)
    ensures FeedAll(cfg, cfg.initialVal, Sealed(cfg, msg))
         == StepsRight(Mirrored(cfg), cfg.finalVal, 8 * ByteWidth(cfg))
  {
    hide Low, Xor, FeedAll, FeedAllRight, StepsRight, GeneratedBy, Mirrored, LowBytes, FitsBytes;
    var n, k, rp := cfg.polySize, ByteWidth(cfg), Mirrored(cfg);
    var c, w := FeedAll(cfg, cfg.initialVal, msg), Checksum(cfg, msg);
    TableFollowsRight(cfg, cfg.initialVal, msg);
    MirroredFits(cfg);
    FeedsFit(rp, n, cfg.initialVal, msg);
    LowXor(c, cfg.finalVal, n);
    assert w == Xor(c, cfg.finalVal) && Low(w, n) == w;
    WidthInBytes(w, n);
    FeedAllConcat(cfg, cfg.initialVal, msg, LowBytes(w, k));
    TableFollowsRight(cfg, c, LowBytes(w, k));
    FeedsWord(rp, c, w, k);
    XorComm(c, cfg.finalVal);
    XorComm(c, w);
    XorCancel(cfg.finalVal, c);
  }

  lemma MirroredFits(cfg: Config)
    requires cfg.Usable()
    ensures Low(Mirrored(cfg), cfg.polySize) == Mirrored(cfg)
  {
    hide Low, Reflect;
    LowReflect(cfg.poly, cfg.polySize);
  }

  // ---------- CRC-32 and CRC-16 ----------

  lemma Crc32WholeBytes()
    ensures WholeBytes(CRC32_CONFIG) && Mirrored(CRC32_CONFIG) == 0xEDB88320
  {
    hide GeneratedBy;
    Crc32TabulatedConfig();
  }

  lemma Crc16WholeBytes()
    ensures WholeBytes(CRC16_CONFIG) && Mirrored(CRC16_CONFIG) == 0xA001
  {
    hide GeneratedBy;
    Crc16TabulatedConfig();
  }

  /** Four bytes of ones, shifted out. */
  lemma OnesShiftedOut()
    ensures StepsRight(0xEDB88320, 0xFFFFFFFF, 32) == 0xDEBB20E3
  {
    var rp := 0xEDB88320;
    var a := StepByte(rp, 0xFFFFFFFF);
    var b := StepByte(rp, a);
    var c := StepByte(rp, b);
    assert StepByte(rp, c) == 0xDEBB20E3;
    hide StepByte, StepsRight;
    StepByteIsSteps(rp, 0xFFFFFFFF);
    StepByteIsSteps(rp, a);
    StepByteIsSteps(rp, b);
    StepByteIsSteps(rp, c);
    StepsAdd(rp, 0xFFFFFFFF, 8, 8);
    StepsAdd(rp, 0xFFFFFFFF, 16, 8);
    StepsAdd(rp, 0xFFFFFFFF, 24, 8);
  }

  lemma {:induction false} ZeroStays(rp: bv32, k: nat)
    ensures StepsRight(rp, 0, k) == 0
  {
    if k > 0 {
      ZeroStays(rp, k - 1);
    }
  }

  /** CRC-32: the checksum of a message with its checksum behind it, lowest byte first, is the same for every
      message, and the checksum of no bytes is zero. */
  lemma Crc32Residue(msg: seq<bv8>)
    ensures CRC32_CONFIG.Usable()
    ensures Checksum(CRC32_CONFIG, msg + LowBytes(Checksum(CRC32_CONFIG, msg), 4)) == 0x2144DF1C
    ensures Checksum(CRC32_CONFIG, []) == 0
  {
    Crc32WholeBytes();
    assert FeedAll(CRC32_CONFIG, 0xFFFFFFFF, []) == 0xFFFFFFFF;
    assert Result(CRC32_CONFIG, 0xFFFFFFFF) == 0 && Result(CRC32_CONFIG, 0xDEBB20E3) == 0x2144DF1C;
    hide FeedAll, Result, LowBytes, StepsRight, GeneratedBy, Mirrored;
    SealedRegister(CRC32_CONFIG, msg);
    OnesShiftedOut();
  }

  /** CRC-16: there both are zero. */
  lemma Crc16Residue(msg: seq<bv8>)
    ensures CRC16_CONFIG.Usable()
    ensures Checksum(CRC16_CONFIG, msg + LowBytes(Checksum(CRC16_CONFIG, msg), 2)) == 0
    ensures Checksum(CRC16_CONFIG, []) == 0
  {
    Crc16WholeBytes();
    assert FeedAll(CRC16_CONFIG, 0, []) == 0;
    assert Result(CRC16_CONFIG, 0) == 0;
    hide FeedAll, Result, LowBytes, StepsRight, GeneratedBy, Mirrored;
    SealedRegister(CRC16_CONFIG, msg);
    ZeroStays(0xA001, 16);
  }

  /** The digits 1 to 9 as characters. */
  const DIGITS: seq<bv8> := [0x31, 0x32, 0x33, 0x34, 0x35, 0x36, 0x37, 0x38, 0x39]

  /** One byte at a time. */
  lemma FeedsTo(rp: bv32, t: bv32, b: bv8)
    ensures FeedRight(rp, t, b) == StepByte(rp, Xor(t, b as bv32))
  {
    hide Xor, StepByte, StepsRight;
    StepByteIsSteps(rp, Xor(t, b as bv32));
  }

  lemma {:induction false} FeedsFrom(rp: bv32, t: bv32, msg: seq<bv8>, k: nat)
    requires k < |msg|
    ensures FeedAllRight(rp, t, msg[k..]) == FeedAllRight(rp, StepByte(rp, Xor(t, msg[k] as bv32)), msg[k + 1..])
  {
    hide Xor, StepByte, FeedRight;
    FeedsTo(rp, t, msg[k]);
    assert msg[k..][1..] == msg[k + 1..];
  }

  lemma FeedsNothing(rp: bv32, t: bv32)
    ensures FeedAllRight(rp, t, []) == t
  {}

  lemma Crc32DigitsSteps()
    ensures StepByte(0xEDB88320, Xor(0xFFFFFFFF, 0x31)) == 0x7C231048
    ensures StepByte(0xEDB88320, Xor(0x7C231048, 0x32)) == 0xB0ACBB32
    ensures StepByte(0xEDB88320, Xor(0xB0ACBB32, 0x33)) == 0x77B79C2D
    ensures StepByte(0xEDB88320, Xor(0x77B79C2D, 0x34)) == 0x641C1F5C
    ensures StepByte(0xEDB88320, Xor(0x641C1F5C, 0x35)) == 0x340AC5E3
    ensures StepByte(0xEDB88320, Xor(0x340AC5E3, 0x36)) == 0xF68D2C9E
    ensures StepByte(0xEDB88320, Xor(0xF68D2C9E, 0x37)) == 0xAFFC9660
    ensures StepByte(0xEDB88320, Xor(0xAFFC9660, 0x38)) == 0x651F2550
    ensures StepByte(0xEDB88320, Xor(0x651F2550, 0x39)) == 0x340BC6D9
  {}

  lemma Crc32Digits()
    ensures FeedAllRight(0xEDB88320, 0xFFFFFFFF, DIGITS) == 0x340BC6D9
  {
    hide FeedAllRight, StepByte, Xor;
    Crc32DigitsSteps();
    FeedsFrom(0xEDB88320, 0xFFFFFFFF, DIGITS, 0);
    FeedsFrom(0xEDB88320, 0x7C231048, DIGITS, 1);
    FeedsFrom(0xEDB88320, 0xB0ACBB32, DIGITS, 2);
    FeedsFrom(0xEDB88320, 0x77B79C2D, DIGITS, 3);
    FeedsFrom(0xEDB88320, 0x641C1F5C, DIGITS, 4);
    FeedsFrom(0xEDB88320, 0x340AC5E3, DIGITS, 5);
    FeedsFrom(0xEDB88320, 0xF68D2C9E, DIGITS, 6);
    FeedsFrom(0xEDB88320, 0xAFFC9660, DIGITS, 7);
    FeedsFrom(0xEDB88320, 0x651F2550, DIGITS, 8);
    assert DIGITS[0..] == DIGITS && DIGITS[9..] == [];
    FeedsNothing(0xEDB88320, 0x340BC6D9);
  }

  lemma Crc16DigitsSteps()
    ensures StepByte(0xA001, Xor(0x0, 0x31)) == 0xD4C1
    ensures StepByte(0xA001, Xor(0xD4C1, 0x32)) == 0x4594
    ensures StepByte(0xA001, Xor(0x4594, 0x33)) == 0xBA04
    ensures StepByte(0xA001, Xor(0xBA04, 0x34)) == 0x14BA
    ensures StepByte(0xA001, Xor(0x14BA, 0x35)) == 0xA455
    ensures StepByte(0xA001, Xor(0xA455, 0x36)) == 0x29E4
    ensures StepByte(0xA001, Xor(0x29E4, 0x37)) == 0x9D68
    ensures StepByte(0xA001, Xor(0x9D68, 0x38)) == 0x3C9D
    ensures StepByte(0xA001, Xor(0x3C9D, 0x39)) == 0xBB3D
  {}

  lemma Crc16Digits()
    ensures FeedAllRight(0xA001, 0x0, DIGITS) == 0xBB3D
  {
    hide FeedAllRight, StepByte, Xor;
    Crc16DigitsSteps();
    FeedsFrom(0xA001, 0x0, DIGITS, 0);
    FeedsFrom(0xA001, 0xD4C1, DIGITS, 1);
    FeedsFrom(0xA001, 0x4594, DIGITS, 2);
    FeedsFrom(0xA001, 0xBA04, DIGITS, 3);
    FeedsFrom(0xA001, 0x14BA, DIGITS, 4);
    FeedsFrom(0xA001, 0xA455, DIGITS, 5);
    FeedsFrom(0xA001, 0x29E4, DIGITS, 6);
    FeedsFrom(0xA001, 0x9D68, DIGITS, 7);
    FeedsFrom(0xA001, 0x3C9D, DIGITS, 8);
    assert DIGITS[0..] == DIGITS && DIGITS[9..] == [];
    FeedsNothing(0xA001, 0xBB3D);
  }

  /** The check values by which catalogues of CRCs name these two. */
  lemma CheckValues()
    ensures CRC32_CONFIG.Usable() && Checksum(CRC32_CONFIG, DIGITS) == 0xCBF43926
    ensures CRC16_CONFIG.Usable() && Checksum(CRC16_CONFIG, DIGITS) == 0xBB3D
  {
    Crc32WholeBytes();
    Crc16WholeBytes();
    assert Result(CRC32_CONFIG, 0x340BC6D9) == 0xCBF43926 && Result(CRC16_CONFIG, 0xBB3D) == 0xBB3D;
    hide FeedAll, FeedAllRight, Result, GeneratedBy, Mirrored;
    TableFollowsRight(CRC32_CONFIG, 0xFFFFFFFF, DIGITS);
    TableFollowsRight(CRC16_CONFIG, 0, DIGITS);
    Crc32Digits();
    Crc16Digits();
  }
}
