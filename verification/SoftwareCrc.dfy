/** The software CRC driver: one driver object, a bit-serial branch that works most significant bit
    first, and a table-driven branch that works least significant bit first. */
module SoftwareCrc {
  import opened Options
  import opened Word32

  datatype Config = Config(
    polySize: bv8,
    poly: bv32,
    initialVal: bv32,
    finalVal: bv32,
    reflectData: bool,
    reflectRemainder: bool,
    table: Option<seq<bv32>>)
  {
    /** Register widths the shifts of the driver allow, and a table every byte can index. */
    predicate Usable() {
      8 <= polySize <= 32 && (table.Some? ==> |table.value| == 256)
    }

    /** The same algorithm without its lookup table. */
    function Serial(): Config {
      this.(table := None)
    }
  }

  // ---------- The bit-serial branch ----------

  /** One step of the modulo-2 division; bits above `polySize` are allowed to spill. */
  function DivideBit(cfg: Config, c: bv32): bv32
    requires cfg.Usable()
  {
    if HasBit(c, cfg.polySize - 1) then Xor(Twice(c), cfg.poly) else Twice(c)
  }

  function DivideBits(cfg: Config, c: bv32, k: nat): bv32
    requires cfg.Usable()
    decreases k
  {
    if k == 0 then c else DivideBit(cfg, DivideBits(cfg, c, k - 1))
  }

  function InputByte(cfg: Config, b: bv8): bv32 {
    if cfg.reflectData then Reflect(b as bv32, 8) else b as bv32
  }

  function FeedSerial(cfg: Config, c: bv32, b: bv8): bv32
    requires cfg.Usable()
  {
    DivideBits(cfg, Xor(c, Shl(InputByte(cfg, b), cfg.polySize - 8)), 8)
  }

  // ---------- The table-driven branch ----------

  function TableIndex(c: bv32, b: bv8): bv8 {
    (Xor(c, b as bv32) & 0xff) as bv8
  }

  function Lookup(table: seq<bv32>, i: bv8): bv32
    requires |table| == 256
  {
    table[i as int]
  }

  function FeedTable(table: seq<bv32>, c: bv32, b: bv8): bv32
    requires |table| == 256
  {
    Xor(Lookup(table, TableIndex(c, b)), c >> 8)
  }

  // ---------- Whole buffers ----------

  function Feed(cfg: Config, c: bv32, b: bv8): bv32
    requires cfg.Usable()
  {
    match cfg.table
    case Some(table) => FeedTable(table, c, b)
    case None => FeedSerial(cfg, c, b)
  }

  /** The register after the bytes of `msg`, first to last. */
  function FeedAll(cfg: Config, c: bv32, msg: seq<bv8>): bv32
    requires cfg.Usable()
    decreases |msg|
  {
    if msg == [] then c else FeedAll(cfg, Feed(cfg, c, msg[0]), msg[1..])
  }

  /** What the driver hands out when its register is `c`. */
  function Result(cfg: Config, c: bv32): bv32
    requires cfg.Usable()
  {
    var remainder := if cfg.table.None? && cfg.reflectRemainder then Reflect(c, cfg.polySize) else c;
    Low(Xor(remainder, cfg.finalVal), cfg.polySize)
  }

  /** The result for one message after a reset. */
  function Checksum(cfg: Config, msg: seq<bv8>): bv32
    requires cfg.Usable()
  {
    Result(cfg, FeedAll(cfg, cfg.initialVal, msg))
  }

  lemma {:induction false} FeedAllConcat(cfg: Config, c: bv32, a: seq<bv8>, b: seq<bv8>)
    requires cfg.Usable()
    ensures FeedAll(cfg, c, a + b) == FeedAll(cfg, FeedAll(cfg, c, a), b)
    decreases |a|
  {
    hide Feed;
    if a == [] {
      assert a + b == b;
    } else {
      assert (a + b)[1..] == a[1..] + b;
      FeedAllConcat(cfg, Feed(cfg, c, a[0]), a[1..], b);
    }
  }

  // ---------- The driver ----------

  /** How many bits a loop that counts `bit` up to `nBits` still has to visit. */
  function BitsLeft(nBits: bv8, bit: bv8): bv8 {
    nBits - bit
  }

  lemma BitVisited(nBits: bv8, bit: bv8)
    requires bit < nBits <= 32
    ensures 1 <= BitsLeft(nBits, bit) <= 32
    ensures BitsLeft(nBits, bit + 1) == BitsLeft(nBits, bit) - 1 == (nBits - 1) - bit < BitsLeft(nBits, bit)
    ensures bit + 1 <= nBits
  {}

  lemma BitsLeftEnds(nBits: bv8)
    ensures BitsLeft(nBits, 0) == nBits && BitsLeft(nBits, nBits) == 0
  {}

  method ReflectBits(data: bv32, nBits: bv8) returns (reflection: bv32)
    requires nBits <= 32
    ensures reflection == Reflect(data, nBits)
  {
    hide Reflect, Or, Bit, IsOdd, Half, BitsLeft;
    reflection := 0;
    var rest := data;
    var bit: bv8 := 0;
    OrAssoc(Reflect(data, nBits), 0, 0);
    BitsLeftEnds(nBits);
    while bit < nBits
      invariant bit <= nBits && BitsLeft(nBits, bit) <= 32
      invariant Or(reflection, Reflect(rest, BitsLeft(nBits, bit))) == Reflect(data, nBits)
      decreases BitsLeft(nBits, bit)
    {
      BitVisited(nBits, bit);
      ReflectPush(reflection, rest, BitsLeft(nBits, bit));
      if IsOdd(rest) {
        reflection := Or(reflection, Bit((nBits - 1) - bit));
      }
      rest := Half(rest);
      bit := bit + 1;
    }
    ReflectZero(rest);
    OrAssoc(reflection, 0, 0);
  }

  class Driver {
    const config: Config
    var crc: bv32

    constructor (config: Config)
      ensures this.config == config && crc == config.initialVal
    {
      this.config := config;
      crc := config.initialVal;
    }

    method Reset()
      modifies this
      ensures crc == config.initialVal
    {
      crc := config.initialVal;
    }

    method Calc(buf: seq<bv8>) returns (r: bv32)
      requires config.Usable()
      modifies this
      ensures crc == FeedAll(config, old(crc), buf)
      ensures r == Result(config, crc)
    {
      hide Xor, Twice, HasBit, Shl, Low, Reflect;
      var c := crc;
      if config.table.Some? {
        var i := 0;
        while i < |buf|
          invariant 0 <= i <= |buf|
          invariant FeedAll(config, crc, buf[i..]) == FeedAll(config, old(crc), buf)
        {
          crc := Xor(Lookup(config.table.value, TableIndex(crc, buf[i])), crc >> 8);
          i := i + 1;
        }
        c := crc;
      } else {
        var i := 0;
        while i < |buf|
          invariant 0 <= i <= |buf|
          invariant FeedAll(config, c, buf[i..]) == FeedAll(config, old(crc), buf)
        {
          c := DivideByte(c, buf[i]);
          i := i + 1;
        }
        crc := c;
        if config.reflectRemainder {
          c := ReflectBits(c, config.polySize);
        }
      }
      r := Low(Xor(c, config.finalVal), config.polySize);
    }

    /** The body of the bit-serial loop: one byte enters the remainder and is divided bit by bit. */
    method DivideByte(c0: bv32, b: bv8) returns (c: bv32)
      requires config.Usable()
      ensures c == FeedSerial(config, c0, b)
    {
      hide Xor, Twice, HasBit, Shl, Low, Reflect;
      var data := b as bv32;
      if config.reflectData {
        data := ReflectBits(data, 8);
      }
      c := Xor(c0, Shl(data, config.polySize - 8));
      ghost var fed := c;
      var bit := 8;
      while bit > 0
        invariant 0 <= bit <= 8
        invariant c == DivideBits(config, fed, 8 - bit)
      {
        if HasBit(c, config.polySize - 1) {
          c := Xor(Twice(c), config.poly);
        } else {
          c := Twice(c);
        }
        bit := bit - 1;
      }
    }
  }
}
