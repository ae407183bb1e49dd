/** The 32-bit words of the C sources and the algebra of their bits.

    The operators of `bv32` get names here, so that the proofs of other modules can `hide` what
    they mean and reason about them as symbols. Every lemma of this module holds of all words. */
module Word32 {

  function Xor(x: bv32, y: bv32): bv32 { x ^ y }

  function And(x: bv32, m: bv32): bv32 { x & m }

  function Or(x: bv32, y: bv32): bv32 { x | y }

  function Half(x: bv32): bv32 { x >> 1 }

  function Twice(x: bv32): bv32 { x << 1 }

  predicate IsOdd(x: bv32) { x & 1 != 0 }

  /** The word with only bit `i` set. */
  function Bit(i: bv8): bv32
    requires i < 32
  {
    1 << i
  }

  predicate HasBit(x: bv32, i: bv8)
    requires i < 32
  {
    x & Bit(i) != 0
  }

  function Shl(x: bv32, k: bv8): bv32
    requires k <= 32
  {
    x << k
  }

  /** A word with its `n` low bits set. */
  function Mask(n: bv8): bv32
    requires 1 <= n <= 32
  {
    var top := (1 as bv32) << (n - 1);
    top | (top - 1)
  }

  function Low(x: bv32, n: bv8): bv32
    requires 1 <= n <= 32
  {
    And(x, Mask(n))
  }

  /** All 32 bits in the opposite order. */
  function Reverse(x: bv32): bv32 {
    var a := ((x >> 1) & 0x55555555) | ((x & 0x55555555) << 1);
    var b := ((a >> 2) & 0x33333333) | ((a & 0x33333333) << 2);
    var c := ((b >> 4) & 0x0f0f0f0f) | ((b & 0x0f0f0f0f) << 4);
    var d := ((c >> 8) & 0x00ff00ff) | ((c & 0x00ff00ff) << 8);
    (d >> 16) | (d << 16)
  }

  /** The `n` low bits in the opposite order; `ReflectBit` says so bit by bit. */
  function Reflect(x: bv32, n: bv8): bv32
    requires n <= 32
  {
    Reverse(Shl(x, 32 - n))
  }

  // ---------- Exclusive or ----------

  lemma XorComm(x: bv32, y: bv32)
    ensures Xor(x, y) == Xor(y, x)
  {}

  lemma XorAssoc(x: bv32, y: bv32, z: bv32)
    ensures Xor(Xor(x, y), z) == Xor(x, Xor(y, z))
  {}

  lemma XorSelf(x: bv32)
    ensures Xor(x, x) == 0 && Xor(x, 0) == x
  {}

  lemma XorZero(x: bv32)
    ensures Xor(0, x) == x
  {}

  lemma XorSwap(x: bv32, y: bv32, z: bv32)
    ensures Xor(Xor(x, y), z) == Xor(Xor(x, z), y)
  {
    hide Xor;
    XorAssoc(x, y, z);
    XorComm(y, z);
    XorAssoc(x, z, y);
  }

  lemma XorCancel(x: bv32, z: bv32)
    ensures Xor(Xor(x, z), z) == x
  {
    hide Xor;
    XorAssoc(x, z, z);
    XorSelf(z);
    XorSelf(x);
  }

  lemma XorCommon(x: bv32, y: bv32, z: bv32)
    ensures Xor(Xor(x, z), Xor(y, z)) == Xor(x, y)
  {
    hide Xor;
    XorAssoc(Xor(x, z), y, z);
    XorSwap(x, z, y);
    XorCancel(Xor(x, y), z);
  }

  lemma XorInjective(x: bv32, y: bv32, z: bv32)
    requires Xor(x, z) == Xor(y, z)
    ensures x == y
  {
    hide Xor;
    XorCancel(x, z);
    XorCancel(y, z);
  }

  lemma HalfXor(x: bv32, y: bv32)
    ensures Half(Xor(x, y)) == Xor(Half(x), Half(y))
    ensures IsOdd(Xor(x, y)) == (IsOdd(x) != IsOdd(y))
  {}

  lemma TwiceXor(x: bv32, y: bv32)
    ensures Twice(Xor(x, y)) == Xor(Twice(x), Twice(y))
  {}

  lemma ReverseXor(x: bv32, y: bv32)
    ensures Reverse(Xor(x, y)) == Xor(Reverse(x), Reverse(y))
  {}

  lemma ShlZero(x: bv32)
    ensures Shl(x, 0) == x
  {}

  lemma ShlStep(x: bv32, k: bv8)
    requires 0 < k <= 32
    ensures Shl(x, k) == Twice(Shl(x, k - 1))
  {}

  lemma {:induction false} ShlTwice(x: bv32, k: bv8)
    requires k < 32
    ensures Shl(Twice(x), k) == Twice(Shl(x, k))
    decreases k
  {
    hide Shl, Twice;
    if k == 0 {
      ShlZero(x);
      ShlZero(Twice(x));
    } else {
      ShlTwice(x, k - 1);
      ShlStep(x, k);
      ShlStep(Twice(x), k);
    }
  }

  lemma {:induction false} ShlXor(x: bv32, y: bv32, k: bv8)
    requires k <= 32
    ensures Shl(Xor(x, y), k) == Xor(Shl(x, k), Shl(y, k))
    decreases k
  {
    if k > 0 {
      hide Xor, Shl, Twice;
      ShlXor(x, y, k - 1);
      ShlStep(x, k);
      ShlStep(y, k);
      ShlStep(Xor(x, y), k);
      TwiceXor(Shl(x, k - 1), Shl(y, k - 1));
    }
  }

  lemma AndXor(x: bv32, y: bv32, m: bv32)
    ensures (x ^ y) & m == (x & m) ^ (y & m)
  {}

  lemma {:induction false} ShlShl(x: bv32, j: bv8, k: bv8)
    requires j <= 32 && k <= 32 - j
    ensures Shl(Shl(x, j), k) == Shl(x, j + k)
    decreases k
  {
    hide Shl, Twice;
    if k == 0 {
      ShlZero(Shl(x, j));
    } else {
      ShlShl(x, j, k - 1);
      ShlStep(Shl(x, j), k);
      ShlStep(x, j + k);
    }
  }

  lemma LowXor(x: bv32, y: bv32, n: bv8)
    requires 1 <= n <= 32
    ensures Low(Xor(x, y), n) == Xor(Low(x, n), Low(y, n))
  {
    hide Mask;
    AndXor(x, y, Mask(n));
  }

  lemma AndTwice(x: bv32, m: bv32)
    requires (m << 1) & m == m & 0xfffffffe
    ensures ((x & m) << 1) & m == (x << 1) & m
  {}

  lemma LowTwice(x: bv32, n: bv8)
    requires 1 <= n <= 32
    ensures Low(Twice(Low(x, n)), n) == Low(Twice(x), n)
  {
    assert (Mask(n) << 1) & Mask(n) == Mask(n) & 0xfffffffe;
    hide Mask;
    AndTwice(x, Mask(n));
  }

  lemma LowLow(x: bv32, n: bv8)
    requires 1 <= n <= 32
    ensures Low(Low(x, n), n) == Low(x, n)
  {
    hide Mask;
  }

  lemma LowTopBit(x: bv32, n: bv8)
    requires 1 <= n <= 32
    ensures HasBit(Low(x, n), n - 1) == HasBit(x, n - 1)
  {}

  // ---------- Reflection ----------

  lemma ReverseShift(x: bv32)
    ensures Reverse(x << 1) == Reverse(x) >> 1
  {}

  lemma ReverseTwice(x: bv32)
    ensures Reverse(Twice(x)) == Half(Reverse(x))
  {
    hide Reverse;
    ReverseShift(x);
  }

  lemma ReverseBit(x: bv32, i: bv8)
    requires i < 32
    ensures HasBit(Reverse(x), i) == HasBit(x, 31 - i)
  {}

  lemma TwiceBit(x: bv32, i: bv8)
    requires 0 < i < 32
    ensures HasBit(Twice(x), i) == HasBit(x, i - 1)
  {}

  lemma {:induction false} ShlBit(x: bv32, k: bv8, i: bv8)
    requires k <= i < 32
    ensures HasBit(Shl(x, k), i) == HasBit(x, i - k)
    decreases k
  {
    hide HasBit, Shl, Twice;
    if k == 0 {
      ShlZero(x);
    } else {
      ShlStep(x, k);
      TwiceBit(Shl(x, k - 1), i);
      ShlBit(x, k - 1, i - 1);
      assert i - 1 - (k - 1) == i - k;
    }
  }

  lemma ReflectXor(x: bv32, y: bv32, n: bv8)
    requires n <= 32
    ensures Reflect(Xor(x, y), n) == Xor(Reflect(x, n), Reflect(y, n))
  {
    hide Xor, Shl, Reverse;
    ShlXor(x, y, 32 - n);
    ReverseXor(Shl(x, 32 - n), Shl(y, 32 - n));
  }

  /** Bit `i` of the reflection is bit `n - 1 - i` of the word. */
  lemma ReflectBit(x: bv32, n: bv8, i: bv8)
    requires 1 <= n <= 32 && i < n
    ensures HasBit(Reflect(x, n), i) == HasBit(x, n - 1 - i)
  {
    hide HasBit, Shl, Reverse;
    ReverseBit(Shl(x, 32 - n), i);
    ShlBit(x, 32 - n, 31 - i);
    assert 31 - i - (32 - n) == n - 1 - i;
  }

  lemma ReflectTwice(x: bv32, n: bv8)
    requires 1 <= n <= 32
    ensures Reflect(Twice(x), n) == Half(Reflect(x, n))
  {
    hide Shl, Reverse, Half, Twice;
    ShlTwice(x, 32 - n);
    ReverseTwice(Shl(x, 32 - n));
  }

  lemma ReflectOdd(x: bv32, n: bv8)
    requires 1 <= n <= 32
    ensures IsOdd(Reflect(x, n)) == HasBit(x, n - 1)
  {}

  /** Peeling off the lowest bit of the data gives the highest bit of the reflection. */
  lemma ReflectHalf(x: bv32, n: bv8)
    requires 1 <= n <= 32
    ensures Reflect(x, n) == Or(if IsOdd(x) then Bit(n - 1) else 0, Reflect(Half(x), n - 1))
  {
    hide Reverse, Or, Bit, IsOdd, Half, Shl;
    var k := 32 - n;
    ShlHalf(x, k);
    ReverseOr(if IsOdd(x) then Bit(k) else 0, Shl(Half(x), k + 1));
    ReverseOfBit(k);
    assert 31 - k == n - 1 && 32 - (n - 1) == k + 1;
  }

  lemma ShlHalf(x: bv32, k: bv8)
    requires k < 32
    ensures Shl(x, k) == Or(if IsOdd(x) then Bit(k) else 0, Shl(Half(x), k + 1))
  {}

  lemma ReverseOr(x: bv32, y: bv32)
    ensures Reverse(Or(x, y)) == Or(Reverse(x), Reverse(y))
  {}

  lemma ReverseOfBit(i: bv8)
    requires i < 32
    ensures Reverse(Bit(i)) == Bit(31 - i) && Reverse(0) == 0
  {}

  lemma OrAssoc(x: bv32, y: bv32, z: bv32)
    ensures Or(Or(x, y), z) == Or(x, Or(y, z))
    ensures Or(x, 0) == x == Or(0, x)
  {}

  /** The step of a loop that shifts the data out and sets the mirrored bits. */
  lemma ReflectPush(acc: bv32, rest: bv32, n: bv8)
    requires 1 <= n <= 32
    ensures Or(if IsOdd(rest) then Or(acc, Bit(n - 1)) else acc, Reflect(Half(rest), n - 1))
         == Or(acc, Reflect(rest, n))
  {
    hide Reflect, Or, Bit, IsOdd, Half;
    ReflectHalf(rest, n);
    OrAssoc(acc, Bit(n - 1), Reflect(Half(rest), n - 1));
    OrAssoc(Reflect(Half(rest), n - 1), 0, 0);
  }

  lemma ReflectZero(x: bv32)
    ensures Reflect(x, 0) == 0
  {}

  lemma ReflectReflect(x: bv32, n: bv8)
    requires 1 <= n <= 32
    ensures Reflect(Reflect(x, n), n) == Low(x, n)
  {}

  lemma LowReflect(x: bv32, n: bv8)
    requires 1 <= n <= 32
    ensures Low(Reflect(x, n), n) == Reflect(x, n)
  {}

  lemma ReflectLow(x: bv32, n: bv8)
    requires 1 <= n <= 32
    ensures Reflect(Low(x, n), n) == Reflect(x, n)
  {
    hide Reflect, Low;
    ReflectReflect(x, n);
    ReflectReflect(Reflect(x, n), n);
    LowReflect(x, n);
  }

  /** A byte moved to the top of an `n`-bit register reflects to the reflected byte at its bottom. */
  lemma ReflectTopByte(x: bv32, n: bv8)
    requires 8 <= n <= 32
    ensures Reflect(Shl(x, n - 8), n) == Reflect(x, 8)
  {
    hide Reverse, Shl;
    ShlShl(x, n - 8, 32 - n);
  }

  // ---------- Registers that shift right ----------

  lemma OddIsBitZero(x: bv32)
    ensures HasBit(x, 0) == IsOdd(x)
  {}

  lemma HalfInjective(x: bv32, y: bv32)
    requires Half(x) == Half(y) && IsOdd(x) == IsOdd(y)
    ensures x == y
  {}

  lemma XorSetsBit(x: bv32, y: bv32, i: bv8)
    requires i < 32 && !HasBit(x, i) && HasBit(y, i)
    ensures HasBit(Xor(x, y), i)
  {
    hide Bit;
  }

  lemma HalfLow(x: bv32, n: bv8)
    requires 1 <= n <= 32 && Low(x, n) == x
    ensures Low(Half(x), n) == Half(x) && !HasBit(Half(x), n - 1)
  {}
}
