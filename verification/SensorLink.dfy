/** The sensor link: the bytes the board samples and prints, and the proxy's buffer that finds them again. */
module SensorLink {
  import opened Options
  import opened XorChecksum
  import opened PacketHandler
  import opened ControlLink

  const SENSOR_DATA_BYTES := 11
  const SBDPKTSIZE := 16

  const DEL_ONE: byte := 0x31
  const DEL_TWO: byte := 0x32

  // ---------- The printer (packetHandlerSend) ----------

  function Decimal(n: nat): seq<byte> {
    if n < 10 then [Digit(n)] else Decimal(n / 10) + [Digit(n % 10)]
  }

  function Digit(d: nat): byte
    requires d < 10
  {
    0x30 + d as bv8
  }

  /** Size with the checksum, colon, data, checksum, comma. */
  function Packet(data: seq<byte>): seq<byte> {
    Decimal(|data| + 1) + [COLON] + data + [XorSum(data), COMMA]
  }

  method Send(data: array<byte>, size: nat) returns (sent: seq<byte>)
    requires size <= data.Length
    ensures sent == Packet(data[..size])
  {
    sent := Decimal(size + 1) + [COLON];
    for c := 0 to size
      invariant sent == Decimal(size + 1) + [COLON] + data[..c]
    {
      sent := sent + [data[c]];
    }
    var checksum := GenerateChecksum(data, size);
    sent := sent + [checksum];
    sent := sent + [COMMA];
  }

  lemma SensorHeader()
    ensures Decimal(12) == [DEL_ONE, DEL_TWO] && Decimal(4) == [DIGIT_FOUR]
  {
    assert Decimal(1) == [DEL_ONE];
    assert Decimal(12) == Decimal(1) + [Digit(2)];
  }

  /** The board's printer and the proxy speak the same format: for three bytes they print the same frame. */
  lemma PrintersAgree(payload: seq<byte>)
    requires |payload| == CONTROL_DATA_BYTES
    ensures Packet(payload) == ControlFrame(payload)
  {
    SensorHeader();
  }

  // ---------- The scanner (SerialBuffer::appendReceiveBuffer) ----------

  /** Delimiters of a sensor packet around the position `k` of its final comma. */
  predicate DelimitersAt(data: seq<byte>, k: nat)
    requires SBDPKTSIZE - 1 <= k < |data|
  {
    && data[k] == COMMA
    && data[k - 13] == COLON
    && data[k - 14] == DEL_TWO
    && data[k - 15] == DEL_ONE
  }

  function ValuesAt(data: seq<byte>, k: nat): seq<byte>
    requires SBDPKTSIZE - 1 <= k < |data|
  {
    data[k - 12..k - 1]
  }

  predicate ValidAt(data: seq<byte>, k: nat)
    requires SBDPKTSIZE - 1 <= k < |data|
  {
    DelimitersAt(data, k) && data[k - 1] == XorSum(ValuesAt(data, k))
  }

  /** The backward scan from position `k`: a packet with a bad checksum makes it jump 17 positions. */
  function Scan(data: seq<byte>, k: int): Option<nat>
    requires k < |data|
    decreases k
  {
    if k < SBDPKTSIZE - 1 then None
    else if ValidAt(data, k) then Some(k)
    else if DelimitersAt(data, k) then Scan(data, k - SBDPKTSIZE - 1)
    else Scan(data, k - 1)
  }

  class SerialBuffer {
    var bufferIn: seq<seq<byte>>
    var bufferOut: seq<seq<byte>>

    constructor ()
      ensures bufferIn == [] && bufferOut == []
    {
      bufferIn := [];
      bufferOut := [];
    }

    method AppendReceiveBuffer(data: seq<byte>)
      modifies this`bufferIn
      ensures bufferIn == Appended(old(bufferIn), data)
    {
      if |data| < SBDPKTSIZE {
        return;
      }
      var it := |data| - 1;
      while it >= SBDPKTSIZE - 1
        invariant it < |data| && bufferIn == old(bufferIn)
        invariant Scan(data, it) == Scan(data, |data| - 1)
        decreases it
      {
        if data[it] == COMMA && data[it - 13] == COLON && data[it - 14] == DEL_TWO && data[it - 15] == DEL_ONE {
          var validPkt := [data[it - 12], data[it - 11], data[it - 10], data[it - 9], data[it - 8], data[it - 7],
                           data[it - 6], data[it - 5], data[it - 4], data[it - 3], data[it - 2]];
          assert validPkt == ValuesAt(data, it);
          var check := data[it - 1];
          var sum := ControlLink.Checksum(validPkt);
          if check == sum {
            bufferIn := [];
            bufferIn := [validPkt] + bufferIn;
            return;
          }
          it := it - SBDPKTSIZE;
        }
        it := it - 1;
      }
    }

    method ReadReceiveBuffer() returns (packet: seq<byte>)
      ensures packet == Latest(bufferIn)
    {
      if |bufferIn| != 0 {
        packet := bufferIn[0];
      } else {
        packet := [];
      }
    }

    method AppendSendBuffer(packet: seq<byte>)
      modifies this`bufferOut
      ensures bufferOut == if packet == [] then old(bufferOut) else [packet]
    {
      if |packet| != 0 {
        bufferOut := [];
        bufferOut := [packet] + bufferOut;
      }
    }

    method ReadSendBuffer() returns (packet: seq<byte>)
      ensures packet == Latest(bufferOut)
    {
      if |bufferOut| != 0 {
        packet := bufferOut[0];
      } else {
        packet := [];
      }
    }
  }

  function Appended(bufferIn: seq<seq<byte>>, data: seq<byte>): seq<seq<byte>> {
    match Scan(data, |data| - 1)
    case None => bufferIn
    case Some(k) => [ScanValues(data, k)]
  }

  function ScanValues(data: seq<byte>, k: nat): seq<byte> {
    if SBDPKTSIZE - 1 <= k < |data| then ValuesAt(data, k) else []
  }

  function Latest(buffer: seq<seq<byte>>): seq<byte> {
    if buffer == [] then [] else buffer[0]
  }

  // ---------- What the scan finds ----------

  /** The positions the scan inspects on its way down from `from`. */
  predicate Visits(data: seq<byte>, from: int, k: int)
    requires from < |data|
    decreases from
  {
    if from < SBDPKTSIZE - 1 || k > from then false
    else if k == from then true
    else if ValidAt(data, from) then false
    else if DelimitersAt(data, from) then Visits(data, from - SBDPKTSIZE - 1, k)
    else Visits(data, from - 1, k)
  }

  lemma {:induction false} ScanFindsValid(data: seq<byte>, from: int)
    requires from < |data|
    ensures match Scan(data, from)
      case Some(k) => SBDPKTSIZE - 1 <= k <= from && ValidAt(data, k) && Visits(data, from, k)
      case None => forall k :: SBDPKTSIZE - 1 <= k <= from && Visits(data, from, k) ==> !ValidAt(data, k)
    decreases from
  {
    if from >= SBDPKTSIZE - 1 && !ValidAt(data, from) {
      ScanFindsValid(data, if DelimitersAt(data, from) then from - SBDPKTSIZE - 1 else from - 1);
    }
  }

  lemma VisitsBelow(data: seq<byte>, from: int, k: int)
    requires from < |data|
    ensures Visits(data, from, k) ==> SBDPKTSIZE - 1 <= from && k <= from
  {}

  /** A damaged packet: delimiters in place, checksum wrong. */
  predicate DamagedAt(data: seq<byte>, k: nat)
    requires SBDPKTSIZE - 1 <= k < |data|
  {
    DelimitersAt(data, k) && !ValidAt(data, k)
  }

  /** A valid packet with no valid one behind it is passed over exactly when an inspected damaged packet
      ends at most 16 positions behind it. */
  lemma {:induction false} PassedOverIff(data: seq<byte>, from: int, k: nat)
    requires SBDPKTSIZE - 1 <= k <= from < |data| && ValidAt(data, k)
    requires forall j :: k < j <= from ==> !ValidAt(data, j)
    ensures Scan(data, from) != Some(k)
       <==> exists d :: k < d <= from && d <= k + SBDPKTSIZE && Visits(data, from, d) && DamagedAt(data, d)
    decreases from
  {
    if from > k {
      var next := if DelimitersAt(data, from) then from - SBDPKTSIZE - 1 else from - 1;
      if next >= k {
        PassedOverIff(data, next, k);
        forall d | k < d <= from && d <= k + SBDPKTSIZE && Visits(data, from, d) && DamagedAt(data, d)
          ensures d <= next && Visits(data, next, d)
        {
          assert d != from;
          VisitsBelow(data, next, d);
        }
        forall d | k < d <= next && Visits(data, next, d)
          ensures Visits(data, from, d)
        {}
      } else {
        assert DamagedAt(data, from) && Visits(data, from, from);
        ScanFindsValid(data, next);
      }
    } else {
      assert Scan(data, from) == Some(k);
    }
  }

  /** The scan down from `from` does not look at what lies behind. */
  lemma {:induction false} ScanLooksBack(data: seq<byte>, more: seq<byte>, from: int)
    requires from < |data|
    ensures Scan(data + more, from) == Scan(data, from)
    decreases from
  {
    if from >= SBDPKTSIZE - 1 {
      assert ValuesAt(data + more, from) == ValuesAt(data, from);
      ScanLooksBack(data, more, from - 1);
      ScanLooksBack(data, more, from - SBDPKTSIZE - 1);
    }
  }

  /** A packet of the right shape with any byte for its checksum. */
  function Framed(q: seq<byte>, checksum: byte): seq<byte> {
    [DEL_ONE, DEL_TWO, COLON] + q + [checksum, COMMA]
  }

  lemma FramedIsDamaged(before: seq<byte>, q: seq<byte>, bad: byte)
    requires |q| == SENSOR_DATA_BYTES && bad != XorSum(q)
    ensures DamagedAt(before + Framed(q, bad), |before| + 15)
  {
    hide XorSum;
    assert ValuesAt(before + Framed(q, bad), |before| + 15) == q;
  }

  lemma AppendedAgrees(bufferIn: seq<seq<byte>>, data: seq<byte>, more: seq<byte>)
    requires Scan(data + more, |data + more| - 1) == Scan(data, |data| - 1)
    ensures Appended(bufferIn, data + more) == Appended(bufferIn, data)
  {
    hide XorSum, DelimitersAt;
    ScanFindsValid(data, |data| - 1);
    var r := Scan(data, |data| - 1);
    hide Scan;
    if r.Some? {
      assert ValuesAt(data + more, r.value) == ValuesAt(data, r.value);
    }
  }

  /** What directly precedes a damaged packet fares as if its last byte had not arrived. */
  lemma DamagedHidesLastByte(bufferIn: seq<seq<byte>>, before: seq<byte>, q: seq<byte>, bad: byte)
    requires |q| == SENSOR_DATA_BYTES && bad != XorSum(q) && before != []
    ensures Appended(bufferIn, before + Framed(q, bad)) == Appended(bufferIn, before[..|before| - 1])
  {
    var data, k, kept := before + Framed(q, bad), |before| + 15, before[..|before| - 1];
    FramedIsDamaged(before, q, bad);
    assert Scan(data, k) == Scan(data, k - 17);
    hide XorSum, Scan, ValidAt, DelimitersAt, Framed;
    var more := data[|kept|..];
    assert data == kept + more;
    ScanLooksBack(kept, more, |kept| - 1);
    AppendedAgrees(bufferIn, kept, more);
  }

  /** So a valid packet that a damaged one follows directly is always lost. */
  lemma ValidThenDamagedIsLost(bufferIn: seq<seq<byte>>, p: seq<byte>, q: seq<byte>, bad: byte)
    requires |p| == |q| == SENSOR_DATA_BYTES && bad != XorSum(q)
    ensures Appended(bufferIn, Packet(p) + Framed(q, bad)) == bufferIn
  {
    hide XorSum;
    SensorHeader();
    DamagedHidesLastByte(bufferIn, Packet(p), q, bad);
    assert |Packet(p)[..15]| == 15;
  }

  // ---------- The round trip ----------

  /** Whatever came before in the same chunk, the packet printed last is the one that is read. */
  lemma SensorRoundTrip(bufferIn: seq<seq<byte>>, prefix: seq<byte>, payload: seq<byte>)
    requires |payload| == SENSOR_DATA_BYTES
    ensures Latest(Appended(bufferIn, prefix + Packet(payload))) == payload
  {
    hide XorSum;
    SensorHeader();
    hide Decimal;
    var data := prefix + Packet(payload);
    var p, k := |prefix|, |data| - 1;
    assert Packet(payload) == [DEL_ONE, DEL_TWO, COLON] + payload + [XorSum(payload), COMMA];
    assert ValuesAt(data, k) == payload;
    assert ValidAt(data, k);
  }

  function AppendedAll(bufferIn: seq<seq<byte>>, chunks: seq<seq<byte>>): seq<seq<byte>> {
    if chunks == [] then bufferIn
    else Appended(AppendedAll(bufferIn, chunks[..|chunks| - 1]), chunks[|chunks| - 1])
  }

  /** The sixteen bytes of a sensor packet, by their values. */
  function PacketBytes(payload: seq<byte>, checksum: byte): seq<byte> {
    [0x31, 0x32, 0x3A] + payload + [checksum, 0x2C]
  }

  lemma SensorPacketBytes(payload: seq<byte>)
    requires |payload| == SENSOR_DATA_BYTES
    ensures Packet(payload) == PacketBytes(payload, XorSum(payload))
  {
    SensorHeader();
  }

  /** The scanner accepts the packets of the printer and nothing else. */
  lemma ValidIff(data: seq<byte>, k: nat)
    requires SBDPKTSIZE - 1 <= k < |data|
    ensures ValidAt(data, k) <==> data[k - 15..k + 1] == Packet(data[k - 12..k - 1])
  {
    hide XorSum;
    var f, v := data[k - 15..k + 1], data[k - 12..k - 1];
    SensorPacketBytes(v);
    assert |f| == 16 && f[3..14] == v by {
      assert forall i :: 0 <= i < 11 ==> f[3..14][i] == f[i + 3] == data[k - 12 + i] == v[i];
    }
    SixteenBytes(f, XorSum(v));
    assert f[0] == data[k - 15] && f[1] == data[k - 14] && f[2] == data[k - 13];
    assert f[14] == data[k - 1] && f[15] == data[k];
    hide Packet, PacketBytes;
  }

  lemma SixteenBytes(f: seq<byte>, checksum: byte)
    requires |f| == 16
    ensures f == PacketBytes(f[3..14], checksum) <==>
      f[0] == 0x31 && f[1] == 0x32 && f[2] == 0x3A && f[14] == checksum && f[15] == 0x2C
  {
    var g := PacketBytes(f[3..14], checksum);
    assert forall i :: 3 <= i < 14 ==> g[i] == f[3..14][i - 3] == f[i];
    assert g[0] == 0x31 && g[1] == 0x32 && g[2] == 0x3A && g[14] == checksum && g[15] == 0x2C;
  }

  /** The packet with this payload lies in the chunk from `a` on. */
  predicate Contains(chunk: seq<byte>, a: nat, payload: seq<byte>) {
    a + 16 <= |chunk| && |payload| == 11 && chunk[a..a + 16] == Packet(payload)
  }

  lemma ValidContains(chunk: seq<byte>, k: nat)
    requires SBDPKTSIZE - 1 <= k < |chunk| && ValidAt(chunk, k)
    ensures Contains(chunk, k - 15, ValuesAt(chunk, k))
  {
    ValidIff(chunk, k);
  }

  /** In every run the stored packet is empty, or some chunk contains it byte for byte as the board prints it. */
  lemma {:induction false} StoredPacketIsGenuine(chunks: seq<seq<byte>>)
    ensures var packet := Latest(AppendedAll([], chunks));
      packet == [] || exists i, a :: 0 <= i < |chunks| && Contains(chunks[i], a, packet)
  {
    if chunks != [] {
      hide ValidAt, Contains;
      var n := |chunks| - 1;
      StoredPacketIsGenuine(chunks[..n]);
      ScanFindsValid(chunks[n], |chunks[n]| - 1);
      var packet := Latest(AppendedAll([], chunks[..n]));
      var r := Scan(chunks[n], |chunks[n]| - 1);
      if r.Some? {
        ValidContains(chunks[n], r.value);
      } else if packet != [] {
        var i, a :| 0 <= i < n && Contains(chunks[..n][i], a, packet);
        assert chunks[i] == chunks[..n][i];
      }
    }
  }

  // ---------- Decimal sizes ----------

  /** The number that decimal digits stand for. */
  function NumberOf(digits: seq<byte>): int {
    if digits == [] then 0 else 10 * NumberOf(digits[..|digits| - 1]) + (digits[|digits| - 1] as int - 0x30)
  }

  predicate IsDigit(c: byte) { 0x30 <= c as int <= 0x39 }

  lemma DigitCode(d: nat)
    requires d < 10
    ensures Digit(d) as int == 0x30 + d && IsDigit(Digit(d))
  {
    ByteOfInt(d);
  }

  lemma {:induction false} NumberPushed(digits: seq<byte>, c: byte)
    ensures NumberOf(digits + [c]) == 10 * NumberOf(digits) + (c as int - 0x30)
  {
    assert (digits + [c])[..|digits|] == digits;
  }

  /** What the printer writes for a size is that size in decimal digits, without leading zeros. */
  lemma {:induction false} DecimalStandsFor(n: nat)
    ensures NumberOf(Decimal(n)) == n && (n > 0 ==> NumberOf(Decimal(n)[..1]) != 0)
    ensures forall c :: c in Decimal(n) ==> IsDigit(c)
    decreases n
  {
    hide Digit, NumberOf, IsDigit;
    var last := Digit(n % 10);
    DigitCode(n % 10);
    NumberPushed([], last);
    assert NumberOf([]) == 0 by { NoDigits(); }
    if n < 10 {
      assert [] + [last] == [last] && [last][..1] == [last];
    } else {
      DecimalStandsFor(n / 10);
      NumberPushed(Decimal(n / 10), last);
      assert (Decimal(n / 10) + [last])[..1] == Decimal(n / 10)[..1];
    }
  }

  lemma NoDigits()
    ensures NumberOf([]) == 0
  {}

  // ---------- From the sensors to the bytes (sensorInputGetData) ----------

  const US_VALUE_CAP := 90
  const IR_VALUE_CAP := 28

  /** What two calls of a getter see: an interrupt may lie between. A call itself is one step. */
  datatype Calls = Calls(first: int, second: int)

  /** What the drivers hold at the calls of one sample. Ultrasonic and infrared values are centimetres before
      they are capped; the odometer, in centimetres, is asked for once for each of its bytes. */
  datatype Readings = Readings(
    usFront: Calls, usSide: Calls,
    irSideFront: Calls, irSideRear: Calls, irRear: Calls,
    speed: Calls, distance3: bv32, distance2: bv32, distance1: bv32, distance0: bv32, light: Calls)

  function AtMost(cap: int, v: int): int { if v < cap then v else cap }

  function UsValues(c: Calls): Calls {
    Calls(AtMost(US_VALUE_CAP, c.first), AtMost(US_VALUE_CAP, c.second))
  }

  function IrValues(c: Calls): Calls {
    Calls(AtMost(IR_VALUE_CAP, c.first), AtMost(IR_VALUE_CAP, c.second))
  }

  /** One call decides, the next one gives the value. */
  function Capped(c: Calls): byte {
    if c.first < 255 then WrapByte(c.second) else 255
  }

  /** The rear infrared value: zero becomes 255. */
  function RearByte(c: Calls): byte {
    if c.first != 0 then WrapByte(c.second) else 255
  }

  function DistanceByte(d: bv32, shift: bv8): byte
    requires shift <= 24
  {
    ((d >> shift) & 0xFF) as bv8
  }

  function SensorData(r: Readings): (data: seq<byte>)
    ensures |data| == SENSOR_DATA_BYTES
  {
    [Capped(UsValues(r.usFront)), Capped(UsValues(r.usSide)),
     Capped(IrValues(r.irSideFront)), Capped(IrValues(r.irSideRear)), RearByte(IrValues(r.irRear)), Capped(r.speed),
     DistanceByte(r.distance3, 24), DistanceByte(r.distance2, 16),
     DistanceByte(r.distance1, 8), DistanceByte(r.distance0, 0),
     Capped(r.light)]
  }

  method GetData(r: Readings, buffer: array<byte>)
    requires buffer.Length == SENSOR_DATA_BYTES
    modifies buffer
    ensures buffer[..] == SensorData(r)
  {
    hide Capped, RearByte, DistanceByte, UsValues, IrValues;
    var front, side := Capped(UsValues(r.usFront)), Capped(UsValues(r.usSide));
    var sideFront, sideRear := Capped(IrValues(r.irSideFront)), Capped(IrValues(r.irSideRear));
    var rear, speed, light := RearByte(IrValues(r.irRear)), Capped(r.speed), Capped(r.light);
    var d3, d2 := DistanceByte(r.distance3, 24), DistanceByte(r.distance2, 16);
    var d1, d0 := DistanceByte(r.distance1, 8), DistanceByte(r.distance0, 0);
    assert SensorData(r) == [front, side, sideFront, sideRear, rear, speed, d3, d2, d1, d0, light];
    hide SensorData;
    buffer[0], buffer[1], buffer[2], buffer[3], buffer[4] := front, side, sideFront, sideRear, rear;
    buffer[5], buffer[6], buffer[7], buffer[8], buffer[9], buffer[10] := speed, d3, d2, d1, d0, light;
  }

  /** The conversion of one infrared sample, averaged with the value before. The quotient of the source is a
      float that is cut off; no quotient of these numbers is close enough to the next integer to reach it. */
  function InfraredAfter(samples: seq<nat>): int {
    if samples == [] then 0
    else (InfraredAfter(samples[..|samples| - 1]) + 2914 / (samples[|samples| - 1] + 5) - 3) / 2
  }

  /** Each sample takes the value half of the way to its own distance, and not past it. */
  lemma InfraredFollows(samples: seq<nat>, sample: nat)
    ensures var x, y, d := InfraredAfter(samples), InfraredAfter(samples + [sample]), 2914 / (sample + 5) - 3;
      && (x <= d ==> x <= y <= d && 2 * (d - y) <= d - x + 1)
      && (x >= d ==> d <= y <= x && 2 * (y - d) <= x - d)
  {
    assert (samples + [sample])[..|samples|] == samples;
  }

  /** Twelve-bit samples, averaged and shifted right by three, give a positive distance from the first on. */
  lemma {:induction false} InfraredIsPositive(samples: seq<nat>)
    requires forall i :: 0 <= i < |samples| ==> samples[i] < 512
    ensures if samples == [] then InfraredAfter(samples) == 0 else 1 <= InfraredAfter(samples) < 580
  {
    if samples != [] {
      var n := |samples| - 1;
      InfraredIsPositive(samples[..n]);
      QuotientRange(samples[n]);
    }
  }

  lemma QuotientRange(avg: nat)
    requires avg < 512
    ensures 5 <= 2914 / (avg + 5) <= 582
  {
    var q, d := 2914 / (avg + 5), avg + 5;
    assert q * d <= 2914 < (q + 1) * d;
    Monotone(q + 1, 5, d);
    Monotone(583, q, d);
  }

  lemma Monotone(a: int, b: int, d: nat)
    ensures a <= b ==> a * d <= b * d
  {}

  // ---------- From the bytes to the vehicle data ----------

  datatype VehicleData = VehicleData(speed: real, absTraveledPath: real)

  function Joined(b3: byte, b2: byte, b1: byte, b0: byte): bv32 {
    ((((b3 as bv32) << 24) | ((b2 as bv32) << 16)) | ((b1 as bv32) << 8)) | (b0 as bv32)
  }

  function GenVehicleData(v: seq<byte>): VehicleData
    requires |v| == SENSOR_DATA_BYTES
  {
    VehicleData((v[5] as int) as real / 100.0, (Joined(v[6], v[7], v[8], v[9]) as int) as real / 100.0)
  }

  lemma DistanceRejoined(d: bv32)
    ensures Joined(DistanceByte(d, 24), DistanceByte(d, 16), DistanceByte(d, 8), DistanceByte(d, 0)) == d
  {}

  /** The odometer as the four calls saw it. */
  function Arriving(r: Readings): bv32 {
    Joined(DistanceByte(r.distance3, 24), DistanceByte(r.distance2, 16),
           DistanceByte(r.distance1, 8), DistanceByte(r.distance0, 0))
  }

  /** If the odometer moves on between the calls, its last value arrives exactly if none of the bytes that were
      taken before has changed. */
  lemma TornIff(r: Readings)
    ensures Arriving(r) == r.distance0 <==>
      && DistanceByte(r.distance3, 24) == DistanceByte(r.distance0, 24)
      && DistanceByte(r.distance2, 16) == DistanceByte(r.distance0, 16)
      && DistanceByte(r.distance1, 8) == DistanceByte(r.distance0, 8)
  {
    DistanceRejoined(r.distance0);
    hide DistanceByte;
    JoinedInjective(DistanceByte(r.distance3, 24), DistanceByte(r.distance2, 16), DistanceByte(r.distance1, 8),
      DistanceByte(r.distance0, 24), DistanceByte(r.distance0, 16),
      DistanceByte(r.distance0, 8), DistanceByte(r.distance0, 0));
  }

  lemma JoinedInjective(a3: byte, a2: byte, a1: byte, b3: byte, b2: byte, b1: byte, b0: byte)
    ensures Joined(a3, a2, a1, b0) == Joined(b3, b2, b1, b0) ==> a3 == b3 && a2 == b2 && a1 == b1
  {}

  /** A word made of one byte of each of four. */
  function Torn(d3: bv32, d2: bv32, d1: bv32, d0: bv32): bv32 {
    ((d3 & 0xFF000000) | (d2 & 0x00FF0000)) | ((d1 & 0x0000FF00) | (d0 & 0x000000FF))
  }

  lemma JoinedBytes(d3: bv32, d2: bv32, d1: bv32, d0: bv32)
    ensures Joined(DistanceByte(d3, 24), DistanceByte(d2, 16), DistanceByte(d1, 8), DistanceByte(d0, 0))
         == Torn(d3, d2, d1, d0)
  {}

  /** All but the lowest byte. */
  function Upper(d: bv32): bv32 { d >> 8 }

  function Later(d: bv32, k: bv8): bv32 { d + (k as bv32) }

  /** Whether `k` more steps carry over into the upper bytes. */
  predicate Carries(d: bv32, k: bv8) { (d & 0xFF) + (k as bv32) >= 256 }

  predicate Fits(d: bv32, k: bv8) { d <= Later(d, k) }

  /** The upper bytes of `e` are one more than those of `d`, and its lowest byte has fallen. */
  predicate Carried(d: bv32, e: bv32) {
    Upper(d) < 0x00FFFFFF && Upper(e) == Upper(d) + 1 && e & 0xFF < d & 0xFF
  }

  lemma UpperLater(d: bv32, k: bv8)
    ensures !Carries(d, k) ==> Upper(Later(d, k)) == Upper(d)
    ensures Carries(d, k) && Fits(d, k) ==> Carried(d, Later(d, k))
  {}

  lemma CarriesOn(d: bv32, k: bv8, n: bv8)
    requires k <= n
    ensures Carries(d, k) ==> Carries(d, n)
    ensures Fits(d, n) ==> Fits(d, k)
  {
    if Fits(d, n) {
      FitsBefore(d, k, n);
    }
    if Carries(d, k) {
      CarriesLater(d, k, n);
    }
    hide Fits, Carries;
  }

  lemma CarriesLater(d: bv32, k: bv8, n: bv8)
    requires k <= n && Carries(d, k)
    ensures Carries(d, n)
  {}

  lemma FitsBefore(d: bv32, k: bv8, n: bv8)
    requires k <= n && Fits(d, n)
    ensures Fits(d, k)
  {}

  lemma CarriedSame(d: bv32, x: bv32, y: bv32)
    requires Carried(d, x) && Carried(d, y)
    ensures Upper(x) == Upper(y)
  {}

  /** A torn value is the last one, or below the first. */
  predicate FallsBack(v: bv32, first: bv32, last: bv32) { v == last || v < first }

  lemma TornUpper(d3: bv32, d2: bv32, d1: bv32, d0: bv32, c2: bv32, c1: bv32)
    requires Upper(c2) == Upper(d2) && Upper(c1) == Upper(d1)
    ensures Torn(d3, c2, c1, d0) == Torn(d3, d2, d1, d0)
  {}

  lemma TornNowhere(d: bv32, e: bv32)
    requires Upper(e) == Upper(d)
    ensures FallsBack(Torn(d, d, d, e), d, e)
  {}

  lemma TornAtOne(d: bv32, e: bv32)
    requires Carried(d, e)
    ensures FallsBack(Torn(d, d, d, e), d, e)
  {}

  lemma TornAtTwo(d: bv32, e: bv32)
    requires Carried(d, e)
    ensures FallsBack(Torn(d, d, e, e), d, e)
  {}

  lemma TornAtThree(d: bv32, e: bv32)
    requires Carried(d, e)
    ensures FallsBack(Torn(d, e, e, e), d, e)
  {}

  lemma TornWord(d: bv32, k2: bv8, k1: bv8, k0: bv8)
    requires Carries(d, k2) ==> Carries(d, k1)
    requires Carries(d, k1) ==> Carries(d, k0)
    requires Fits(d, k2) && Fits(d, k1) && Fits(d, k0)
    ensures FallsBack(Torn(d, Later(d, k2), Later(d, k1), Later(d, k0)), d, Later(d, k0))
  {
    hide Torn, Upper, Later, Carries, Fits, Carried, FallsBack;
    var d2, d1, d0 := Later(d, k2), Later(d, k1), Later(d, k0);
    UpperLater(d, k2);
    UpperLater(d, k1);
    UpperLater(d, k0);
    if !Carries(d, k0) {
      TornUpper(d, d2, d1, d0, d, d);
      TornNowhere(d, d0);
    } else if !Carries(d, k1) {
      TornUpper(d, d2, d1, d0, d, d);
      TornAtOne(d, d0);
    } else if !Carries(d, k2) {
      CarriedSame(d, d1, d0);
      TornUpper(d, d2, d1, d0, d, d0);
      TornAtTwo(d, d0);
    } else {
      CarriedSame(d, d1, d0);
      CarriedSame(d, d2, d0);
      TornUpper(d, d2, d1, d0, d0, d0);
      TornAtThree(d, d0);
    }
  }

  lemma CarriesInOrder(d: bv32, k2: bv8, k1: bv8, k0: bv8)
    requires k2 <= k1 && k1 <= k0 && Fits(d, k0)
    ensures (Carries(d, k2) ==> Carries(d, k1)) && (Carries(d, k1) ==> Carries(d, k0))
    ensures Fits(d, k2) && Fits(d, k1)
  {
    hide Fits, Carries;
    CarriesOn(d, k1, k0);
    CarriesOn(d, k2, k1);
  }

  /** If the odometer moves on by less than 2.56 m between the calls and does not overflow, either its last value
      arrives or one below all that the calls saw: a torn value lies behind the car. */
  lemma TornFallsBack(r: Readings, k2: bv8, k1: bv8, k0: bv8)
    requires k2 <= k1 && k1 <= k0 && Fits(r.distance3, k0)
    requires r.distance2 == Later(r.distance3, k2) && r.distance1 == Later(r.distance3, k1)
    requires r.distance0 == Later(r.distance3, k0)
    ensures FallsBack(Arriving(r), r.distance3, r.distance0)
  {
    hide Joined, DistanceByte, Torn, Later, Carries, Fits, FallsBack;
    JoinedBytes(r.distance3, r.distance2, r.distance1, r.distance0);
    CarriesInOrder(r.distance3, k2, k1, k0);
    TornWord(r.distance3, k2, k1, k0);
  }

  /** One centimetre at the wrong moment makes the odometer arrive as zero, though it never fell. */
  lemma TornOdometer(r: Readings)
    requires r.distance3 == r.distance2 == r.distance1 == 255 && r.distance0 == 256
    ensures Arriving(r) == 0
  {}

  lemma CappedValue(c: Calls)
    requires 0 <= c.second < 256 && (c.first < 255 <==> c.second < 255)
    ensures Capped(c) as int == AtMost(255, c.second)
  {
    if c.first < 255 {
      ByteOfInt(c.second);
    }
    assert (255 as bv8) as int == 255;
  }

  /** From the wheel encoder to the vehicle data: what the four calls saw of the odometer arrives exactly, so
      the odometer does if it does not move meanwhile, whatever its 32 bits and whatever was in the chunk
      before; and a speed that does not change arrives up to 255 cm/s. */
  lemma OdometerArrives(bufferIn: seq<seq<byte>>, prefix: seq<byte>, r: Readings)
    ensures var received := Latest(Appended(bufferIn, prefix + Packet(SensorData(r))));
      && |received| == SENSOR_DATA_BYTES
      && GenVehicleData(received).absTraveledPath == (Arriving(r) as int) as real / 100.0
      && (r.distance3 == r.distance2 == r.distance1 == r.distance0 ==>
            GenVehicleData(received).absTraveledPath == (r.distance0 as int) as real / 100.0)
      && (r.speed.first == r.speed.second >= 0 ==>
            GenVehicleData(received).speed == AtMost(255, r.speed.second) as real / 100.0)
  {
    hide Joined, DistanceByte, Appended, Packet, Capped, RearByte;
    SensorRoundTrip(bufferIn, prefix, SensorData(r));
    DistanceRejoined(r.distance0);
    if 0 <= r.speed.first == r.speed.second {
      if r.speed.second < 255 {
        CappedValue(r.speed);
      } else {
        SpeedCapped(r.speed);
      }
    }
  }

  lemma SpeedCapped(c: Calls)
    requires c.first >= 255
    ensures Capped(c) as int == 255
  {
    assert (255 as bv8) as int == 255;
  }

  // ---------- From the bytes to the decision maker ----------

  /** The keys under which overtaker and parker look the distances up. */
  const INFRARED_FRONT_RIGHT := 0
  const INFRARED_REAR_BACK := 1
  const INFRARED_REAR_RIGHT := 2
  const ULTRASONIC_FRONT_FORWARD := 3
  const ULTRASONIC_FRONT_RIGHT := 4

  function Metres(b: byte): real { (b as int) as real / 100.0 }

  function GenSensorBoardData(values: seq<byte>): map<nat, real>
    requires |values| == SENSOR_DATA_BYTES
  {
    map[0 := Metres(values[2]), 1 := Metres(values[4]), 2 := Metres(values[3]),
        3 := Metres(values[0]), 4 := Metres(values[1]), 5 := (values[10] as int) as real]
  }

  /** What a sensor reports is small enough for its byte. */
  lemma CappedMetres(c: Calls, cap: int)
    requires 0 <= c.second && 0 <= cap < 255
    ensures Metres(Capped(Calls(AtMost(cap, c.first), AtMost(cap, c.second)))) == AtMost(cap, c.second) as real / 100.0
  {
    ByteOfInt(AtMost(cap, c.second));
  }

  lemma RearMetres(c: Calls)
    requires 0 <= c.second
    ensures Metres(RearByte(IrValues(c))) == AtMost(IR_VALUE_CAP, c.second) as real / 100.0 <==> c.first != 0
  {
    var v := AtMost(IR_VALUE_CAP, c.second);
    ByteOfInt(v);
    assert (255 as bv8) as int == 255;
    assert v as real / 100.0 != 255 as real / 100.0;
  }

  /** A distance in centimetres, or the cap of its driver. */
  function UpTo(cap: int, centimetres: int): int { if centimetres > cap then cap else centimetres }

  /** Through the wire and the reordering at its end, every distance arrives exactly as its driver reported it,
      under the key by which the decision maker asks for that sensor; the rear one if and only if the driver
      did not say zero. So does the light, which is a byte. */
  lemma SensorsArrive(bufferIn: seq<seq<byte>>, prefix: seq<byte>, r: Readings)
    requires r.usFront.second >= 0 && r.usSide.second >= 0
    requires r.irSideFront.second >= 0 && r.irSideRear.second >= 0 && r.irRear.second >= 0
    ensures var received := Latest(Appended(bufferIn, prefix + Packet(SensorData(r))));
      && |received| == SENSOR_DATA_BYTES
      && var m := GenSensorBoardData(received);
      && m[ULTRASONIC_FRONT_FORWARD] == UpTo(90, r.usFront.second) as real / 100.0
      && m[ULTRASONIC_FRONT_RIGHT] == UpTo(90, r.usSide.second) as real / 100.0
      && m[INFRARED_FRONT_RIGHT] == UpTo(28, r.irSideFront.second) as real / 100.0
      && m[INFRARED_REAR_RIGHT] == UpTo(28, r.irSideRear.second) as real / 100.0
      && (m[INFRARED_REAR_BACK] == UpTo(28, r.irRear.second) as real / 100.0 <==> r.irRear.first != 0)
      && (0 <= r.light.first == r.light.second < 256 ==> m[5] == r.light.second as real)
  {
    hide Capped, RearByte, DistanceByte, Appended, Packet, Metres;
    SensorRoundTrip(bufferIn, prefix, SensorData(r));
    CappedMetres(r.usFront, US_VALUE_CAP);
    CappedMetres(r.usSide, US_VALUE_CAP);
    CappedMetres(r.irSideFront, IR_VALUE_CAP);
    CappedMetres(r.irSideRear, IR_VALUE_CAP);
    RearMetres(r.irRear);
    LightArrives(r.light);
    var data := SensorData(r);
    assert data[10] == Capped(r.light) && data[4] == RearByte(IrValues(r.irRear));
    hide AtMost;
  }

  lemma LightArrives(c: Calls)
    ensures 0 <= c.first == c.second < 256 ==> (Capped(c) as int) as real == c.second as real
  {
    if 0 <= c.first == c.second < 256 {
      CappedValue(c);
    }
  }

  /** The driver says zero only as long as no conversion has completed: from the first on, the rear distance
      arrives. */
  lemma RearArrivesIff(bufferIn: seq<seq<byte>>, prefix: seq<byte>, r: Readings, samples: seq<nat>)
    requires forall i :: 0 <= i < |samples| ==> samples[i] < 512
    requires r.irRear.first == r.irRear.second == InfraredAfter(samples)
    requires r.usFront.second >= 0 && r.usSide.second >= 0 && r.irSideFront.second >= 0 && r.irSideRear.second >= 0
    ensures var received := Latest(Appended(bufferIn, prefix + Packet(SensorData(r))));
      && |received| == SENSOR_DATA_BYTES
      && (GenSensorBoardData(received)[INFRARED_REAR_BACK]
            == UpTo(28, InfraredAfter(samples)) as real / 100.0
          <==> samples != [])
  {
    hide Appended, Packet, SensorData, GenSensorBoardData;
    InfraredIsPositive(samples);
    SensorsArrive(bufferIn, prefix, r);
  }
}
