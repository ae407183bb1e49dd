/** The control link: the frame the proxy builds, the board's receive buffer, and what a read returns. */
module ControlLink {
  import opened Options
  import opened XorChecksum
  import opened PacketHandler

  // ---------- The sending end (Proxy::contToVec) ----------

  const MATH_PI: real := 3.14159265358974

  datatype VehicleControl = VehicleControl(
    speed: real,
    steeringWheelAngle: real,
    brakeLights: bool,
    flashingLightsLeft: bool,
    flashingLightsRight: bool)

  /** The C cast from double to int: towards zero. */
  function Truncate(x: real): int {
    if x >= 0.0 then x.Floor else -((-x).Floor)
  }

  function Degrees(vc: VehicleControl): int {
    Truncate(vc.steeringWheelAngle * 180.0 / MATH_PI)
  }

  /** The C cast to unsigned char: modulo 256. */
  function WrapByte(v: int): byte {
    (v % 256) as bv8
  }

  function AngleByte(vc: VehicleControl): byte {
    WrapByte(Degrees(vc) + 90)
  }

  function SpeedByte(vc: VehicleControl): byte {
    if vc.speed > 1.0001 then 3
    else if vc.speed > 0.0001 then 2
    else if vc.speed < -0.0001 then 0
    else 1
  }

  function WithLamp(lights: byte, on: bool, mask: byte): byte {
    lights | (if on then mask else 0)
  }

  function LightsByte(vc: VehicleControl, reverseLight: bool): byte {
    WithLamp(WithLamp(WithLamp(WithLamp(0, vc.brakeLights, 1), reverseLight, 1 << 1),
      vc.flashingLightsLeft, 1 << 2), vc.flashingLightsRight, 1 << 3)
  }

  function ControlFrame(payload: seq<byte>): seq<byte> {
    [DIGIT_FOUR, COLON] + payload + [XorSum(payload), COMMA]
  }

  method Checksum(v: seq<byte>) returns (cs: byte)
    ensures cs == XorSum(v)
  {
    cs := 0;
    for i := 0 to |v|
      invariant cs == XorSum(v[..i])
    {
      cs := cs ^ v[i];
      assert v[..i + 1][..i] == v[..i];
    }
    assert v[..|v|] == v;
  }

  method ContToVec(vc: VehicleControl, reverseLight: bool) returns (frame: seq<byte>)
    ensures frame == ControlFrame([SpeedByte(vc), AngleByte(vc), LightsByte(vc, reverseLight)])
  {
    hide XorSum, WithLamp, WrapByte;
    var degrees := Truncate(vc.steeringWheelAngle * 180.0 / MATH_PI);
    var angle := WrapByte(degrees + 90);

    var delta := 0.0001;
    var speed: byte := 1;
    if vc.speed > 1.0 + delta {
      speed := 3;
    } else if vc.speed > 0.0 + delta {
      speed := 2;
    } else if vc.speed < 0.0 - delta {
      speed := 0;
    }

    var lights := WithLamp(0, vc.brakeLights, 1);
    lights := WithLamp(lights, reverseLight, 1 << 1);
    lights := WithLamp(lights, vc.flashingLightsLeft, 1 << 2);
    lights := WithLamp(lights, vc.flashingLightsRight, 1 << 3);

    var chsum := Checksum([speed, angle, lights]);
    frame := [DIGIT_FOUR, COLON, speed, angle, lights, chsum, COMMA];
  }

  /** Degrees are cut off towards zero. */
  lemma DegreesCutOff(vc: VehicleControl)
    ensures var d, angle := Degrees(vc) as real, vc.steeringWheelAngle * 180.0;
      && (angle >= 0.0 ==> 0.0 <= d && d * 3.14159265358974 <= angle < (d + 1.0) * 3.14159265358974)
      && (angle <= 0.0 ==> d <= 0.0 && (d - 1.0) * 3.14159265358974 < angle <= d * 3.14159265358974)
  {
    var angle := vc.steeringWheelAngle * 180.0;
    var x := angle / MATH_PI;
    assert x * MATH_PI == angle;
  }

  /** Angles from -90 to 165 degrees survive the byte. */
  lemma AngleKept(vc: VehicleControl)
    ensures -90 <= Degrees(vc) <= 165 <==> AngleByte(vc) as int == Degrees(vc) + 90
  {
    ByteOfInt((Degrees(vc) + 90) % 256);
    hide Degrees;
  }

  /** The byte counted up to from zero. */
  function CountedByte(v: nat): (b: bv8)
    requires v < 256
    ensures b as int == v
  {
    if v == 0 then 0 else CountedByte(v - 1) + 1
  }

  lemma ByteOfInt(v: int)
    requires 0 <= v < 256
    ensures (v as bv8) as int == v
  {
    var b := CountedByte(v);
    hide CountedByte;
    assert (b as int) as bv8 == b;
  }

  /** Each of the four lamps can be read off its own bit, and there are no others. */
  lemma LampsKept(vc: VehicleControl, reverseLight: bool)
    ensures var lights := LightsByte(vc, reverseLight);
      && (lights & 1 != 0 <==> vc.brakeLights)
      && (lights & 2 != 0 <==> reverseLight)
      && (lights & 4 != 0 <==> vc.flashingLightsLeft)
      && (lights & 8 != 0 <==> vc.flashingLightsRight)
      && lights & 0xF0 == 0
  {}

  // ---------- Bytes arriving one after the other ----------

  function AddAll(s: Received, bytes: seq<byte>): Received
    requires Valid(s)
    decreases |bytes|
  {
    if bytes == [] then s else AddAll(Add(s, bytes[0]), bytes[1..])
  }

  lemma {:induction false} AddAllValid(s: Received, bytes: seq<byte>)
    requires Valid(s)
    ensures Valid(AddAll(s, bytes))
    decreases |bytes|
  {
    if bytes != [] {
      AddAllValid(Add(s, bytes[0]), bytes[1..]);
    }
  }

  lemma {:induction false} AddAllConcat(s: Received, a: seq<byte>, b: seq<byte>)
    requires Valid(s)
    ensures Valid(AddAll(s, a)) && AddAll(s, a + b) == AddAll(AddAll(s, a), b)
    decreases |a|
  {
    if a == [] {
      assert a + b == b;
    } else {
      assert (a + b)[1..] == a[1..] + b;
      AddAllConcat(Add(s, a[0]), a[1..], b);
    }
  }

  /** Bytes that fit are appended and nothing else moves. */
  lemma {:induction false} AddAllFits(s: Received, bytes: seq<byte>)
    requires Valid(s) && s.used + |bytes| <= BUFFER_SIZE
    ensures var t := AddAll(s, bytes);
      Valid(t) && t.used == s.used + |bytes| && t.cells == s.cells[..s.used] + bytes + s.cells[t.used..]
    decreases |bytes|
  {
    if bytes == [] {
      assert s.cells == s.cells[..s.used] + [] + s.cells[s.used..];
    } else {
      AddAllFits(Add(s, bytes[0]), bytes[1..]);
    }
  }

  // ---------- Every run ----------

  datatype Event = Arrives(b: byte) | Reads

  function Step(s: Received, e: Event): Received
    requires Valid(s)
  {
    match e
    case Arrives(b) => Add(s, b)
    case Reads =>
      match Read(s)
      case None => s
      case Some((_, after)) => after
  }

  function Run(s: Received, events: seq<Event>): (t: Received)
    requires Valid(s)
    ensures Valid(t)
    decreases |events|
  {
    if events == [] then s else Run(Step(s, events[0]), events[1..])
  }

  /** How many reads succeed in a row before one finds nothing. */
  function SuccessfulReads(s: Received): nat
    requires Valid(s)
    decreases s.used
  {
    match Read(s)
    case None => 0
    case Some((_, after)) => 1 + SuccessfulReads(after)
  }

  lemma {:induction false} ReadsTerminate(s: Received)
    requires Valid(s)
    ensures SuccessfulReads(s) <= if s.used < CONTROL_DATA_PACKET_SIZE then 0 else s.used - 6
    decreases s.used
  {
    match Read(s)
    case None =>
    case Some((_, after)) => ReadsTerminate(after);
  }

  // ---------- The round trip ----------

  ghost predicate Delivers(s: Received, payload: seq<byte>)
    requires Valid(s)
  {
    var t := AddAll(s, ControlFrame(payload));
    AddAllValid(s, ControlFrame(payload));
    Read(t).Some? && Read(t).value.0 == payload
  }

  /** A frame that fits behind what is buffered is what the next read delivers, whatever that is. */
  lemma RoundTrip(s: Received, payload: seq<byte>)
    requires Valid(s) && s.used + CONTROL_DATA_PACKET_SIZE <= BUFFER_SIZE && |payload| == CONTROL_DATA_BYTES
    ensures Delivers(s, payload)
  {
    var f := ControlFrame(payload);
    AddAllFits(s, f);
    var t := AddAll(s, f);
    var e := t.used - 1;
    assert t.cells[s.used..t.used] == f;
    assert t.cells[e] == f[6] && t.cells[e - 6] == f[0] && t.cells[e - 5] == f[1] && t.cells[e - 1] == f[5];
    assert t.cells[e - 4..e - 1] == f[2..5] == payload;
    assert FrameEndsAt(t.cells, e);
  }

  // ---------- What is delivered was sent ----------

  const EMPTY: Received := Received(seq(BUFFER_SIZE + 1, i => 0), 0)

  function Parity(a: byte, b: byte, c: byte): byte { a ^ b ^ c }

  /** The seven bytes of a frame, by their values. */
  function FrameBytes(a: byte, b: byte, c: byte): seq<byte> {
    [0x34, 0x3A, a, b, c, Parity(a, b, c), 0x2C]
  }

  lemma XorSumOfOne(a: byte)
    ensures XorSum([a]) == a
  {
    XorSumPush([], a);
    assert [] + [a] == [a] && XorSum([]) == 0;
  }

  lemma XorSumOfTwo(a: byte, b: byte)
    ensures XorSum([a, b]) == a ^ b
  {
    XorSumOfOne(a);
    XorSumPush([a], b);
    hide XorSum;
    assert [a] + [b] == [a, b];
  }

  lemma XorSumOfThree(a: byte, b: byte, c: byte)
    ensures XorSum([a, b, c]) == Parity(a, b, c)
  {
    XorSumOfTwo(a, b);
    XorSumPush([a, b], c);
    hide XorSum;
    assert [a, b] + [c] == [a, b, c];
  }

  /** What the proxy sends. */
  lemma ControlFrameBytes(payload: seq<byte>)
    requires |payload| == CONTROL_DATA_BYTES
    ensures ControlFrame(payload) == FrameBytes(payload[0], payload[1], payload[2])
  {
    hide XorSum, Parity;
    XorSumOfThree(payload[0], payload[1], payload[2]);
    assert payload == [payload[0], payload[1], payload[2]];
  }

  /** The parser accepts the frames of the sender and nothing else. */
  lemma FrameEndIff(cells: seq<byte>, e: nat)
    requires e < |cells|
    ensures FrameEndsAt(cells, e) <==>
      e >= 6 && cells[e - 6..e + 1] == FrameBytes(cells[e - 4], cells[e - 3], cells[e - 2])
  {
    if e >= 6 {
      hide XorSum, Parity;
      var a, b, c := cells[e - 4], cells[e - 3], cells[e - 2];
      XorSumOfThree(a, b, c);
      assert cells[e - 4..e - 1] == [a, b, c];
      hide FrameBytes;
      SevenBytes(cells, e, a, b, c);
    }
  }

  lemma SevenBytes(cells: seq<byte>, e: nat, a: byte, b: byte, c: byte)
    requires 6 <= e < |cells|
    ensures cells[e - 6..e + 1] == FrameBytes(a, b, c) <==>
      && cells[e - 6] == 0x34 && cells[e - 5] == 0x3A && cells[e - 4] == a && cells[e - 3] == b && cells[e - 2] == c
      && cells[e - 1] == Parity(a, b, c) && cells[e] == 0x2C
  {
    hide Parity;
    var f, g := cells[e - 6..e + 1], FrameBytes(a, b, c);
    assert f == [f[0], f[1], f[2], f[3], f[4], f[5], f[6]];
  }

  /** The seven buffered bytes up to `e` are a frame with the given payload. */
  predicate FrameFor(s: Received, e: nat, payload: seq<byte>)
    requires Valid(s)
  {
    && 6 <= e < s.used && |payload| == 3
    && s.cells[e - 6..e + 1] == FrameBytes(payload[0], payload[1], payload[2])
  }

  /** A read succeeds exactly if some frame of the sender is buffered byte for byte, and what it delivers is the
      payload of the latest one. */
  lemma DeliveredWasSent(s: Received)
    requires Valid(s)
    ensures Read(s).Some? <==> exists e, payload :: FrameFor(s, e, payload)
    ensures Read(s).Some? ==> exists e ::
      FrameFor(s, e, Read(s).value.0) && forall k, payload :: e < k ==> !FrameFor(s, k, payload)
  {
    var r := LatestEnd(s.cells, s.used);
    forall e, payload | FrameFor(s, e, payload) ensures FrameEndsAt(s.cells, e) {
      FrameForEnds(s, e, payload);
    }
    if r.Some? {
      EndsFrameFor(s, r.value);
    }
  }

  lemma FrameForEnds(s: Received, e: nat, payload: seq<byte>)
    requires Valid(s) && FrameFor(s, e, payload)
    ensures FrameEndsAt(s.cells, e)
  {
    hide FrameEndsAt;
    var f := s.cells[e - 6..e + 1];
    assert f[2] == payload[0] && f[3] == payload[1] && f[4] == payload[2];
    FrameEndIff(s.cells, e);
  }

  lemma EndsFrameFor(s: Received, e: nat)
    requires Valid(s) && e < s.used && FrameEndsAt(s.cells, e)
    ensures FrameFor(s, e, Payload(s.cells, e))
  {
    FrameEndIff(s.cells, e);
    assert Payload(s.cells, e) == [s.cells[e - 4], s.cells[e - 3], s.cells[e - 2]];
  }

  /** A frame damaged in one byte, whichever that is, is not delivered. */
  lemma DamagedFrameIgnored(a: byte, b: byte, c: byte, k: nat, v: byte)
    requires k < 7 && v != FrameBytes(a, b, c)[k]
    ensures Valid(EMPTY) && Valid(AddAll(EMPTY, FrameBytes(a, b, c)[k := v]))
    ensures Read(AddAll(EMPTY, FrameBytes(a, b, c)[k := v])) == None
  {
    var f := FrameBytes(a, b, c)[k := v];
    AddAllFits(EMPTY, f);
    DamagedIsNoFrame(a, b, c, k, v);
    hide AddAll, FrameBytes;
    assert EMPTY.cells[..0] + f + EMPTY.cells[7..] == f + EMPTY.cells[7..];
    NoFrameInSeven(AddAll(EMPTY, f), f);
  }

  lemma NoFrameInSeven(t: Received, f: seq<byte>)
    requires Valid(t) && t.used == |f| == 7 && t.cells == f + EMPTY.cells[7..]
    requires f != FrameBytes(f[2], f[3], f[4])
    ensures Read(t) == None
  {
    assert t.cells[0..7] == f && t.cells[2] == f[2] && t.cells[3] == f[3] && t.cells[4] == f[4];
    hide FrameBytes;
    FrameEndIff(t.cells, 6);
    hide FrameEndsAt;
    forall e | 0 <= e < 6 ensures !FrameEndsAt(t.cells, e) {
      TooShort(t.cells, e);
    }
  }

  lemma TooShort(cells: seq<byte>, e: nat)
    requires e < 6 && e < |cells|
    ensures !FrameEndsAt(cells, e)
  {}

  lemma DamagedIsNoFrame(a: byte, b: byte, c: byte, k: nat, v: byte)
    requires k < 7 && v != FrameBytes(a, b, c)[k]
    ensures var f := FrameBytes(a, b, c)[k := v]; f != FrameBytes(f[2], f[3], f[4])
  {
    hide Parity;
    if 2 <= k < 5 {
      DamagedData(a, b, c, k, v);
    } else {
      var f := FrameBytes(a, b, c)[k := v];
      assert f[k] != FrameBytes(a, b, c)[k];
    }
  }

  lemma DamagedData(a: byte, b: byte, c: byte, k: nat, v: byte)
    requires 2 <= k < 5 && v != FrameBytes(a, b, c)[k]
    ensures var f := FrameBytes(a, b, c)[k := v]; f[5] != FrameBytes(f[2], f[3], f[4])[5]
  {
    hide Parity;
    ParityDiffers(a, b, c, v);
  }

  lemma ParityDiffers(a: byte, b: byte, c: byte, v: byte)
    ensures v != a ==> Parity(v, b, c) != Parity(a, b, c)
    ensures v != b ==> Parity(a, v, c) != Parity(a, b, c)
    ensures v != c ==> Parity(a, b, v) != Parity(a, b, c)
  {}

  // ---------- Exactly when every frame gets through ----------

  /** The frame without the byte at `k`, the one that is dropped when the buffer is halved. */
  function Without(f: seq<byte>, k: nat): seq<byte>
    requires k < |f|
  {
    f[..k] + f[k + 1..]
  }

  /** A frame that overflows the buffer loses one byte, and what was buffered loses its older half. */
  lemma OverflowingFrame(s: Received, f: seq<byte>)
    requires Valid(s) && |f| == CONTROL_DATA_PACKET_SIZE && s.used + |f| > BUFFER_SIZE
    ensures var k, t := BUFFER_SIZE - s.used, AddAll(s, f);
      && Valid(t) && t.used == 70 - k
      && t.cells[..t.used] == s.cells[64..s.used] + Without(f, k)
  {
    var k := BUFFER_SIZE - s.used;
    var a, c := f[..k], f[k + 1..];
    AddAllFits(s, a);
    var s1 := AddAll(s, a);
    OverflowingByte(s1, f[k], c);
    assert f == a + ([f[k]] + c);
    AddAllConcat(s, a, [f[k]] + c);
    hide AddAll;
    assert s1.cells[64..BUFFER_SIZE] == s.cells[64..s.used] + a;
  }

  lemma OverflowingByte(s: Received, b: byte, more: seq<byte>)
    requires Valid(s) && s.used == BUFFER_SIZE && |more| < CONTROL_DATA_PACKET_SIZE
    ensures var t := AddAll(s, [b] + more);
      Valid(t) && t.used == 64 + |more| && t.cells[..t.used] == s.cells[64..BUFFER_SIZE] + more
  {
    assert ([b] + more)[1..] == more;
    var s2 := Add(s, b);
    assert s2.cells[..64] == s.cells[64..BUFFER_SIZE];
    AddAllFits(s2, more);
  }

  lemma {:induction false} LatestEndAgrees(v: seq<byte>, w: seq<byte>, n: nat)
    requires n <= |v| && n <= |w| && v[..n] == w[..n]
    ensures LatestEnd(v, n) == LatestEnd(w, n)
  {
    if n > 0 {
      assert v[..n - 1] == v[..n][..n - 1] == w[..n - 1];
      forall i | 0 <= i < n ensures v[i] == w[i] {
        assert v[..n][i] == w[..n][i];
      }
      assert n >= 5 ==> v[n - 5..n - 2] == w[n - 5..n - 2];
      LatestEndAgrees(v, w, n - 1);
    }
  }

  lemma {:induction false} NoCommaNoEnd(cells: seq<byte>, m: nat, n: nat)
    requires m <= n <= |cells| && forall i :: m <= i < n ==> !FrameEndsAt(cells, i)
    ensures LatestEnd(cells, n) == LatestEnd(cells, m)
    decreases n
  {
    if m < n {
      NoCommaNoEnd(cells, m, n - 1);
    }
  }

  /** A payload that holds no comma and whose checksum is none either. */
  predicate CommaFree(payload: seq<byte>) {
    |payload| == CONTROL_DATA_BYTES && COMMA !in payload && XorSum(payload) != COMMA
  }

  /** A frame that lost a byte after its digit is no frame, nor is any part of it. */
  lemma BrokenFrame(before: seq<byte>, payload: seq<byte>, k: nat, i: nat)
    requires CommaFree(payload) && k < CONTROL_DATA_PACKET_SIZE && 0 < |before|
    requires k > 0 || before[|before| - 1] != DIGIT_FOUR
    requires |before| <= i < |before| + 6
    ensures !FrameEndsAt(before + Without(ControlFrame(payload), k), i)
  {
    hide XorSum;
    var f, m := ControlFrame(payload), |before|;
    var cells, j := before + Without(f, k), i - m;
    assert cells[i] == if j < k then f[j] else f[j + 1];
    if cells[i] == COMMA {
      assert payload == f[2..5];
      assert f[2] in payload && f[3] in payload && f[4] in payload;
      assert j == 5 && k < 6;
      assert cells[i - 5] == f[if k == 0 then 1 else 0];
      assert cells[i - 6] == before[m - 1];
    }
  }

  /** After an overflow that breaks the frame, what the read finds does not depend on the frame. */
  lemma BrokenFrameIgnored(s: Received, payload: seq<byte>)
    requires Valid(s) && CommaFree(payload) && s.used + CONTROL_DATA_PACKET_SIZE > BUFFER_SIZE
    requires s.used < BUFFER_SIZE || s.cells[s.used - 1] != DIGIT_FOUR
    ensures var t := AddAll(s, ControlFrame(payload));
      && Valid(t) && t.used > s.used - 64
      && t.cells[..s.used - 64] == s.cells[64..s.used]
      && LatestEnd(t.cells, t.used) == LatestEnd(s.cells[64..s.used], s.used - 64)
  {
    hide XorSum, FrameEndsAt;
    var f, k, m := ControlFrame(payload), BUFFER_SIZE - s.used, s.used - 64;
    OverflowingFrame(s, f);
    var t, before := AddAll(s, f), s.cells[64..s.used];
    var whole := before + Without(f, k);
    forall i | m <= i < t.used ensures !FrameEndsAt(whole, i) {
      BrokenFrame(before, payload, k, i);
    }
    NoCommaNoEnd(whole, m, t.used);
    assert t.cells[..t.used] == whole[..t.used];
    LatestEndAgrees(t.cells, whole, t.used);
    assert whole[..m] == before[..m] == before;
    LatestEndAgrees(whole, before, m);
    assert t.cells[..m] == t.cells[..t.used][..m] == before;
  }

  lemma FirstFrameLost(s: Received)
    requires Valid(s) && s.used + CONTROL_DATA_PACKET_SIZE > BUFFER_SIZE
    requires s.used < BUFFER_SIZE || s.cells[s.used - 1] != DIGIT_FOUR
    ensures !Delivers(s, [0, 0, 0]) || !Delivers(s, [1, 0, 0])
  {
    hide XorSum, FrameEndsAt, CommaFree;
    CommaFreeWitness(0);
    CommaFreeWitness(1);
    var p, q: seq<byte> := [0, 0, 0], [1, 0, 0];
    BrokenFrameIgnored(s, p);
    BrokenFrameIgnored(s, q);
    var t, u, before := AddAll(s, ControlFrame(p)), AddAll(s, ControlFrame(q)), s.cells[64..s.used];
    var r := LatestEnd(before, s.used - 64);
    if r.Some? {
      var e := r.value;
      assert FrameEndsAt(before, e) && e >= 6 by { EndAtLeastSix(before, e); }
      assert t.cells[e - 4..e - 1] == t.cells[..s.used - 64][e - 4..e - 1];
      assert u.cells[e - 4..e - 1] == u.cells[..s.used - 64][e - 4..e - 1];
      assert p[0] != q[0];
    }
  }

  lemma EndAtLeastSix(cells: seq<byte>, e: nat)
    requires e < |cells| && FrameEndsAt(cells, e)
    ensures e >= 6
  {}

  lemma CommaFreeWitness(a: byte)
    requires a != COMMA
    ensures CommaFree([a, 0, 0])
  {
    XorSumPush([], a);
    XorSumPush([a], 0);
    XorSumPush([a, 0], 0);
    assert XorSum([]) == 0;
    hide XorSum;
    assert [] + [a] == [a] && [a] + [0] == [a, 0] && [a, 0] + [0] == [a, 0, 0];
  }

  // ---------- What a read leaves behind ----------

  /** The cells that a read moves to the front bring their frames along, also from beyond what was buffered:
      a frame ends there exactly if one ended where the cells came from. */
  lemma MovedFrameIff(s: Received, e: nat, i: nat)
    requires Valid(s) && 6 <= i < e && i + e < BUFFER_SIZE
    ensures FrameEndsAt(AfterFrame(s, e).cells, i) <==> FrameEndsAt(s.cells, i + e)
    ensures FrameEndsAt(s.cells, i + e) ==> Payload(AfterFrame(s, e).cells, i) == Payload(s.cells, i + e)
  {
    assert AfterFrame(s, e).cells[i - 4..i - 1] == s.cells[i + e - 4..i + e - 1];
  }

  /** The cells behind those stay where they are, with their frames. */
  lemma KeptFrameIff(s: Received, e: nat, i: nat)
    requires Valid(s) && e <= BUFFER_SIZE && BUFFER_SIZE - e + 6 <= i < e
    ensures FrameEndsAt(AfterFrame(s, e).cells, i) <==> FrameEndsAt(s.cells, i)
    ensures FrameEndsAt(s.cells, i) ==> Payload(AfterFrame(s, e).cells, i) == Payload(s.cells, i)
  {
    assert AfterFrame(s, e).cells[i - 4..i - 1] == s.cells[i - 4..i - 1];
  }

  /** Beyond the packet everything stays where it is, for a later read to bring along. */
  lemma BeyondStays(s: Received, e: nat, i: nat)
    requires Valid(s) && e + 6 <= i <= BUFFER_SIZE
    ensures FrameEndsAt(AfterFrame(s, e).cells, i) <==> FrameEndsAt(s.cells, i)
    ensures FrameEndsAt(s.cells, i) ==> Payload(AfterFrame(s, e).cells, i) == Payload(s.cells, i)
  {
    assert AfterFrame(s, e).cells[i - 4..i - 1] == s.cells[i - 4..i - 1];
  }

  /** A successful read does not discard what is older than the packet: the next read finds a frame behind the
      cells that were moved exactly if there is an older frame there, and then delivers the latest such one. */
  lemma OlderFrameIff(s: Received)
    requires Valid(s) && Read(s).Some?
    ensures var e, after := LatestEnd(s.cells, s.used).value, Read(s).value.1;
      var older, next := LatestEnd(s.cells, e), LatestEnd(after.cells, e);
      && after.used == e
      && ((next.Some? && next.value >= BUFFER_SIZE - e + 6) <==> (older.Some? && older.value >= BUFFER_SIZE - e + 6))
      && (older.Some? && older.value >= BUFFER_SIZE - e + 6 ==>
            next == older && Read(after).Some? && Read(after).value.0 == Payload(s.cells, older.value))
  {
    hide FrameEndsAt;
    var e, after := LatestEnd(s.cells, s.used).value, Read(s).value.1;
    EndAtLeastSix(s.cells, e);
    forall i | BUFFER_SIZE - e + 6 <= i < e ensures FrameEndsAt(after.cells, i) <==> FrameEndsAt(s.cells, i) {
      KeptFrameIff(s, e, i);
    }
    var older := LatestEnd(s.cells, e);
    if older.Some? && older.value >= BUFFER_SIZE - e + 6 {
      LatestIs(after.cells, e, older.value);
      KeptFrameIff(s, e, older.value);
    }
  }

  lemma LatestIs(cells: seq<byte>, n: nat, e: nat)
    requires e < n <= |cells| && FrameEndsAt(cells, e) && forall i :: e < i < n ==> !FrameEndsAt(cells, i)
    ensures LatestEnd(cells, n) == Some(e)
  {
    hide FrameEndsAt;
    var r := LatestEnd(cells, n);
    assert r.Some?;
    assert r.value >= e;
  }

  /** In particular an older frame that lies wholly behind the moved cells survives the read. */
  lemma OlderFrameSurvives(s: Received, older: nat)
    requires Valid(s) && Read(s).Some?
    requires var e := LatestEnd(s.cells, s.used).value; older < e && BUFFER_SIZE - e <= older - 6
    requires FrameEndsAt(s.cells, older)
    ensures var after := Read(s).value.1;
      && FrameEndsAt(after.cells, older) && Payload(after.cells, older) == Payload(s.cells, older)
      && Read(after).Some?
  {
    KeptFrameIff(s, LatestEnd(s.cells, s.used).value, older);
  }

  /** Stale bytes become readable: a frame among the cells at or beyond the counter is moved into what counts
      as buffered, and a read finds a frame again. */
  lemma StaleFrameReturns(s: Received, stale: nat)
    requires Valid(s) && Read(s).Some?
    requires var e := LatestEnd(s.cells, s.used).value;
      s.used <= stale < BUFFER_SIZE && e + 6 <= stale < 2 * e && FrameEndsAt(s.cells, stale)
    ensures var e, after := LatestEnd(s.cells, s.used).value, Read(s).value.1;
      && FrameEndsAt(after.cells, stale - e) && Payload(after.cells, stale - e) == Payload(s.cells, stale)
      && Read(after).Some?
  {
    MovedFrameIff(s, LatestEnd(s.cells, s.used).value, stale - LatestEnd(s.cells, s.used).value);
  }

  /** If the packet ends in the lower half of the buffer, stale bytes are all that the next read can find: it
      delivers the latest frame that ends at or beyond the counter and within the cells that were moved. */
  lemma LowerHalfReadsStale(s: Received)
    requires Valid(s) && Read(s).Some? && LatestEnd(s.cells, s.used).value <= BUFFER_SIZE / 2
    ensures var e, after := LatestEnd(s.cells, s.used).value, Read(s).value.1;
      && (Read(after).Some? <==> exists j :: s.used <= j < 2 * e && e + 6 <= j && FrameEndsAt(s.cells, j))
      && (Read(after).Some? ==>
            var j := LatestEnd(after.cells, e).value + e;
            && s.used <= j < 2 * e && FrameEndsAt(s.cells, j) && Read(after).value.0 == Payload(s.cells, j)
            && forall k :: j < k < 2 * e ==> !FrameEndsAt(s.cells, k))
  {
    hide FrameEndsAt;
    var e, after := LatestEnd(s.cells, s.used).value, Read(s).value.1;
    forall i | 6 <= i < e
      ensures FrameEndsAt(after.cells, i) <==> FrameEndsAt(s.cells, i + e)
      ensures FrameEndsAt(s.cells, i + e) ==> Payload(after.cells, i) == Payload(s.cells, i + e)
    {
      MovedFrameIff(s, e, i);
    }
    var next := LatestEnd(after.cells, e);
    if next.Some? {
      EndAtLeastSix(after.cells, next.value);
      assert FrameEndsAt(s.cells, next.value + e);
      forall k | next.value + e < k < 2 * e ensures !FrameEndsAt(s.cells, k) {
        assert !FrameEndsAt(after.cells, k - e);
      }
    } else {
      forall j | s.used <= j < 2 * e && e + 6 <= j ensures !FrameEndsAt(s.cells, j) {
        assert !FrameEndsAt(after.cells, j - e);
      }
    }
  }

  /** If it ends in the upper half, the next read finds what the cells from the packet's end on, followed by the
      older cells that were not moved, have to offer; frames across that seam included. */
  lemma UpperHalfReads(s: Received)
    requires Valid(s) && Read(s).Some? && LatestEnd(s.cells, s.used).value > BUFFER_SIZE / 2
    ensures var e, after := LatestEnd(s.cells, s.used).value, Read(s).value.1;
      var left := s.cells[e..BUFFER_SIZE] + s.cells[BUFFER_SIZE - e..e];
      && |left| == e && after.used == e
      && LatestEnd(after.cells, e) == LatestEnd(left, e)
      && (Read(after).Some? <==> LatestEnd(left, e).Some?)
      && (Read(after).Some? ==> Read(after).value.0 == Payload(left, LatestEnd(left, e).value))
  {
    hide FrameEndsAt;
    var e, after := LatestEnd(s.cells, s.used).value, Read(s).value.1;
    var left := s.cells[e..BUFFER_SIZE] + s.cells[BUFFER_SIZE - e..e];
    CellsAfter(s, e);
    LatestEndAgrees(after.cells, left, e);
    var r := LatestEnd(left, e);
    if r.Some? {
      EndAtLeastSix(left, r.value);
      SamePayload(after.cells, left, e, r.value);
    }
  }

  lemma CellsAfter(s: Received, e: nat)
    requires Valid(s) && BUFFER_SIZE / 2 < e <= BUFFER_SIZE
    ensures var left := s.cells[e..BUFFER_SIZE] + s.cells[BUFFER_SIZE - e..e];
      |left| == e && left[..e] == left && AfterFrame(s, e).cells[..e] == left
  {
    var left := s.cells[e..BUFFER_SIZE] + s.cells[BUFFER_SIZE - e..e];
    assert forall i :: 0 <= i < e ==> AfterFrame(s, e).cells[..e][i] == left[i];
  }

  lemma SamePayload(v: seq<byte>, w: seq<byte>, n: nat, e: nat)
    requires 6 <= e < n <= |v| && n <= |w| && v[..n] == w[..n] && FrameEndsAt(v, e) && FrameEndsAt(w, e)
    ensures Payload(v, e) == Payload(w, e)
  {
    hide FrameEndsAt;
    assert v[e - 4..e - 1] == v[..n][e - 4..e - 1] && w[e - 4..e - 1] == w[..n][e - 4..e - 1];
  }

  /** A frame that ends late enough lacks nothing but its comma after the read: a single comma that arrives
      makes the next read deliver it once more. */
  lemma CommaRepeatsFrame(s: Received)
    requires Valid(s) && Read(s).Some?
    requires BUFFER_SIZE - LatestEnd(s.cells, s.used).value <= LatestEnd(s.cells, s.used).value - 6
    ensures var again := Add(Read(s).value.1, COMMA);
      Valid(again) && Read(again).Some? && Read(again).value.0 == Read(s).value.0
  {
    var e := LatestEnd(s.cells, s.used).value;
    var again := Add(AfterFrame(s, e), COMMA);
    assert again.cells[e - 4..e - 1] == s.cells[e - 4..e - 1];
    assert FrameEndsAt(again.cells, e);
    LatestIs(again.cells, e + 1, e);
  }

  function Zeros(n: nat): seq<byte> { seq(n, i => 0) }

  /** The cells after 94 zero bytes and two frames. */
  function TwoFrames(p: seq<byte>, q: seq<byte>): seq<byte> {
    Zeros(94) + ControlFrame(p) + ControlFrame(q) + Zeros(21)
  }

  lemma TwoFramesBuffered(p: seq<byte>, q: seq<byte>)
    requires |p| == |q| == CONTROL_DATA_BYTES
    ensures var s := AddAll(EMPTY, Zeros(94) + ControlFrame(p) + ControlFrame(q));
      Valid(s) && s.used == 108 && s.cells == TwoFrames(p, q)
  {
    hide XorSum;
    AddAllFits(EMPTY, Zeros(94) + ControlFrame(p) + ControlFrame(q));
    hide AddAll;
    assert Zeros(21) == EMPTY.cells[108..];
  }

  lemma TwoFramesEnd(p: seq<byte>, q: seq<byte>)
    requires |p| == CONTROL_DATA_BYTES && CommaFree(q)
    ensures var cells := TwoFrames(p, q);
      && LatestEnd(cells, 108) == Some(107) && Payload(cells, 107) == q
      && LatestEnd(cells, 107) == Some(100) && Payload(cells, 100) == p
  {
    hide XorSum;
    var cells := TwoFrames(p, q);
    assert q[0] in q && q[1] in q && q[2] in q;
    assert cells[101..108] == ControlFrame(q) && cells[94..101] == ControlFrame(p);
    assert cells[96..99] == cells[94..101][2..5] == p;
    assert cells[103..106] == cells[101..108][2..5] == q;
    forall i | 100 < i < 107 ensures cells[i] != COMMA {
      assert cells[i] == ControlFrame(q)[i - 101];
    }
    hide CommaFree, TwoFrames;
    assert cells[94] == DIGIT_FOUR && cells[95] == COLON && cells[100] == COMMA && cells[99] == XorSum(p) by {
      assert forall k :: 0 <= k < 7 ==> cells[94 + k] == cells[94..101][k];
    }
    assert cells[101] == DIGIT_FOUR && cells[102] == COLON && cells[107] == COMMA && cells[106] == XorSum(q) by {
      assert forall k :: 0 <= k < 7 ==> cells[101 + k] == cells[101..108][k];
    }
    LatestIs(cells, 108, 107);
    LatestIs(cells, 107, 100);
  }

  lemma StaleFrameMoved(p: seq<byte>, q: seq<byte>, cells: seq<byte>)
    requires |p| == |q| == CONTROL_DATA_BYTES
    requires cells == [COMMA] + ControlFrame(q) + Zeros(86) + ControlFrame(p)[..6]
    ensures LatestEnd(cells, 100) == Some(7) && Payload(cells, 7) == q
  {
    hide XorSum;
    assert cells[3..6] == q;
    assert FrameEndsAt(cells, 7);
    LatestIs(cells, 100, 7);
  }

  /** The hazard is real: from the empty buffer, 94 zero bytes and two frames are fed, the second free of commas
      within, and three reads deliver the second frame, the first, and the second once more. */
  lemma SecondFrameReturns(p: seq<byte>, q: seq<byte>)
    requires |p| == CONTROL_DATA_BYTES && CommaFree(q)
    ensures Valid(EMPTY)
    ensures var s := AddAll(EMPTY, Zeros(94) + ControlFrame(p) + ControlFrame(q));
      Valid(s) && Deliveries(s, 3) == [q, p, q]
  {
    hide XorSum, FrameEndsAt;
    var f, g := ControlFrame(p), ControlFrame(q);
    TwoFramesBuffered(p, q);
    TwoFramesEnd(p, q);
    var s := AddAll(EMPTY, Zeros(94) + f + g);
    OlderFrameIff(s);
    var t := AfterFrame(s, 107);
    var u := AfterFrame(t, 100);
    var front := [COMMA] + g + Zeros(86) + f[..6];
    assert u.cells[..100] == front;
    StaleFrameMoved(p, q, front);
    LatestEndAgrees(u.cells, front, 100);
    assert Payload(u.cells, 7) == u.cells[..100][3..6];
    assert Deliveries(u, 1) == [q];
    assert Deliveries(t, 2) == [p, q];
  }

  /** What `n` reads in a row deliver, as long as they succeed. */
  function Deliveries(s: Received, n: nat): seq<seq<byte>>
    requires Valid(s)
    decreases n
  {
    if n == 0 then []
    else
      match Read(s)
      case None => []
      case Some((payload, after)) => [payload] + Deliveries(after, n - 1)
  }

  /** Nor is the packet itself gone altogether: on every successful read its closing comma stays buffered, as
      the oldest byte. */
  lemma PacketEndStays(s: Received)
    requires Valid(s) && Read(s).Some?
    ensures var after := Read(s).value.1; after.used == LatestEnd(s.cells, s.used).value >= 6 && after.cells[0] == COMMA
  {
    EndAtLeastSix(s.cells, LatestEnd(s.cells, s.used).value);
  }

  /** The reads cannot miss the frame in two cases only: it fits, or its first byte is the one dropped
      and the byte before it happens to replace it. */
  lemma RoundTripIff(s: Received)
    requires Valid(s)
    ensures (forall payload :: |payload| == CONTROL_DATA_BYTES ==> Delivers(s, payload))
       <==> || s.used + CONTROL_DATA_PACKET_SIZE <= BUFFER_SIZE
            || (s.used == BUFFER_SIZE && s.cells[s.used - 1] == DIGIT_FOUR)
  {
    hide Delivers;
    if s.used + CONTROL_DATA_PACKET_SIZE <= BUFFER_SIZE {
      forall payload | |payload| == CONTROL_DATA_BYTES ensures Delivers(s, payload) {
        RoundTrip(s, payload);
      }
    } else if s.used == BUFFER_SIZE && s.cells[s.used - 1] == DIGIT_FOUR {
      forall payload | |payload| == CONTROL_DATA_BYTES ensures Delivers(s, payload) {
        DigitReplaced(s, payload);
      }
    } else {
      FirstFrameLost(s);
    }
  }

  lemma DigitReplaced(s: Received, payload: seq<byte>)
    requires Valid(s) && s.used == BUFFER_SIZE && s.cells[s.used - 1] == DIGIT_FOUR
    requires |payload| == CONTROL_DATA_BYTES
    ensures Delivers(s, payload)
  {
    hide XorSum;
    var f := ControlFrame(payload);
    OverflowingFrame(s, f);
    var t := AddAll(s, f);
    var whole := s.cells[64..BUFFER_SIZE] + f[1..];
    assert Without(f, 0) == f[1..];
    assert whole[65..68] == f[2..5] == payload;
    assert t.cells[65..68] == t.cells[..t.used][65..68];
    forall i | 63 <= i < 70 ensures t.cells[i] == whole[i] {
      assert t.cells[..t.used][i] == whole[i];
    }
    assert FrameEndsAt(t.cells, 69);
  }
}
