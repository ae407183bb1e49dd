/** The receiving end of the control link and the sending end of the sensor link on the board. */
module PacketHandler {
  import opened Options
  import opened XorChecksum

  type byte = bv8

  const BUFFER_SIZE := 128
  const CONTROL_DATA_BYTES := 3
  const CONTROL_DATA_PACKET_SIZE := 7

  const COMMA: byte := 0x2C
  const COLON: byte := 0x3A
  const DIGIT_FOUR: byte := 0x34

  /** The receive buffer as a value. Its last cell is the one written just before the buffer is halved. */
  datatype Received = Received(cells: seq<byte>, used: nat)

  ghost predicate Valid(s: Received) {
    |s.cells| == BUFFER_SIZE + 1 && s.used <= BUFFER_SIZE
  }

  /** `n` cells move to the front, as far as they lie within the first `size`; the others stay. */
  function Shifted(cells: seq<byte>, size: nat, n: nat): seq<byte>
    requires size <= |cells|
  {
    seq(|cells|, i requires 0 <= i < |cells| => if i < n && i + n < size then cells[i + n] else cells[i])
  }

  function Add(s: Received, b: byte): Received
    requires Valid(s)
  {
    var cells := s.cells[s.used := b];
    if s.used + 1 > BUFFER_SIZE
    then Received(Shifted(cells, BUFFER_SIZE, BUFFER_SIZE / 2), BUFFER_SIZE / 2)
    else Received(cells, s.used + 1)
  }

  /** A well-formed control frame occupies the seven cells up to and including `e`. */
  predicate FrameEndsAt(cells: seq<byte>, e: nat)
    requires e < |cells|
  {
    && CONTROL_DATA_PACKET_SIZE - 1 <= e
    && cells[e] == COMMA
    && cells[e - 6] == DIGIT_FOUR
    && cells[e - 5] == COLON
    && cells[e - 1] == XorSum(cells[e - 4..e - 1])
  }

  /** The last position below `n` at which a frame ends. */
  function LatestEnd(cells: seq<byte>, n: nat): (r: Option<nat>)
    requires n <= |cells|
    ensures r.Some? ==> r.value < n && FrameEndsAt(cells, r.value)
    ensures forall e :: (if r.Some? then r.value < e else 0 <= e) && e < n ==> !FrameEndsAt(cells, e)
  {
    if n == 0 then None
    else if FrameEndsAt(cells, n - 1) then Some(n - 1)
    else LatestEnd(cells, n - 1)
  }

  function Payload(cells: seq<byte>, e: nat): seq<byte>
    requires e < |cells| && FrameEndsAt(cells, e)
  {
    cells[e - 4..e - 1]
  }

  /** A read delivers the payload of the latest frame and leaves another buffer behind, or does nothing. */
  function Read(s: Received): Option<(seq<byte>, Received)>
    requires Valid(s)
  {
    match LatestEnd(s.cells, s.used)
    case None => None
    case Some(e) => Some((Payload(s.cells, e), AfterFrame(s, e)))
  }

  function AfterFrame(s: Received, e: nat): Received
    requires Valid(s)
  {
    Received(Shifted(s.cells, BUFFER_SIZE, e), e)
  }

  datatype Status = PACKET_OK | NO_PACKET

  method GenerateChecksum(data: array<byte>, dataSize: nat) returns (checksum: byte)
    requires dataSize <= data.Length
    ensures checksum == XorSum(data[..dataSize])
  {
    checksum := 0;
    for i := 0 to dataSize
      invariant checksum == XorSum(data[..i])
    {
      checksum := checksum ^ data[i];
      assert data[..i + 1][..i] == data[..i];
    }
  }

  method Strnshift(bufferString: array<byte>, size: nat, n: nat)
    requires size <= bufferString.Length
    modifies bufferString
    ensures bufferString[..] == Shifted(old(bufferString[..]), size, n)
  {
    var i := 0;
    while i < n && i + n < size
      invariant 0 <= i <= n
      invariant i == 0 || i - 1 + n < size
      invariant forall j :: 0 <= j < i ==> bufferString[j] == old(bufferString[j + n])
      invariant forall j :: i <= j < bufferString.Length ==> bufferString[j] == old(bufferString[j])
    {
      bufferString[i] := bufferString[i + n];
      i := i + 1;
    }
  }

  /** The byte-by-byte copies of the reader: from `source[start..]` to the front of `target`. */
  method CopyBytes(target: array<byte>, source: array<byte>, start: nat)
    requires target != source && start + target.Length <= source.Length
    modifies target
    ensures target[..] == source[start..start + target.Length]
  {
    for i := 0 to target.Length
      invariant target[..i] == source[start..start + i]
    {
      target[i] := source[start + i];
    }
    assert target[..] == target[..target.Length];
  }

  class Handler {
    const buffer: array<byte>
    var bufferCounter: int

    ghost predicate Inv()
      reads this
    {
      buffer.Length == BUFFER_SIZE + 1 && 0 <= bufferCounter <= BUFFER_SIZE
    }

    ghost function State(): (s: Received)
      requires Inv()
      reads this, buffer
      ensures Valid(s)
    {
      Received(buffer[..], bufferCounter)
    }

    constructor ()
      ensures Inv() && fresh(buffer)
      ensures State() == Received(seq(BUFFER_SIZE + 1, i => 0), 0)
    {
      buffer := new byte[BUFFER_SIZE + 1](i => 0);
      bufferCounter := 0;
    }

    method AddToRcvBuffer(latestByte: byte)
      requires Inv()
      modifies this, buffer
      ensures Inv() && State() == Add(old(State()), latestByte)
    {
      buffer[bufferCounter] := latestByte;
      assert buffer[..] == old(buffer[..])[old(bufferCounter) := latestByte];
      bufferCounter := bufferCounter + 1;
      if bufferCounter > BUFFER_SIZE {
        Strnshift(buffer, BUFFER_SIZE, BUFFER_SIZE / 2);
        bufferCounter := BUFFER_SIZE / 2;
      }
    }

    method ReadPacketFromBuffer(data: array<byte>) returns (status: Status)
      requires Inv() && data.Length == CONTROL_DATA_BYTES && data != buffer
      modifies this, buffer, data
      ensures Inv()
      ensures status == PACKET_OK <==> exists e :: 0 <= e < old(bufferCounter) && FrameEndsAt(old(buffer[..]), e)
      ensures match Read(old(State()))
        case Some((payload, after)) => status == PACKET_OK && data[..] == payload && State() == after
        case None => status == NO_PACKET && data[..] == old(data[..]) && State() == old(State())
      ensures status == PACKET_OK ==> bufferCounter < old(bufferCounter)
    {
      ghost var before := State();
      var packetFound := false;
      var endCharPos := bufferCounter - 1;
      while endCharPos >= CONTROL_DATA_PACKET_SIZE - 1 && !packetFound
        invariant -1 <= endCharPos < before.used && Inv()
        invariant !packetFound ==>
          && State() == before && data[..] == old(data[..])
          && LatestEnd(before.cells, endCharPos + 1) == LatestEnd(before.cells, before.used)
        invariant packetFound ==>
          && LatestEnd(before.cells, before.used) == Some(bufferCounter)
          && State() == AfterFrame(before, bufferCounter) && data[..] == Payload(before.cells, bufferCounter)
        decreases endCharPos
      {
        packetFound := TakeFrame(endCharPos, data);
        endCharPos := endCharPos - 1;
      }
      status := if packetFound then PACKET_OK else NO_PACKET;
      assert !packetFound ==> forall e :: 0 <= e < endCharPos + 1 ==> !FrameEndsAt(before.cells, e);
    }

    /** The body of the backward scan: takes the frame that ends at `endCharPos`, if there is one. */
    method TakeFrame(endCharPos: nat, data: array<byte>) returns (packetFound: bool)
      requires Inv() && data.Length == CONTROL_DATA_BYTES && data != buffer
      requires CONTROL_DATA_PACKET_SIZE - 1 <= endCharPos < bufferCounter
      modifies this, buffer, data
      ensures Inv() && packetFound == FrameEndsAt(old(buffer[..]), endCharPos)
      ensures packetFound ==>
        State() == AfterFrame(old(State()), endCharPos) && data[..] == Payload(old(buffer[..]), endCharPos)
      ensures !packetFound ==> State() == old(State()) && data[..] == old(data[..])
    {
      packetFound := false;
      if buffer[endCharPos] == COMMA {
        var packetStartPos := endCharPos - (CONTROL_DATA_PACKET_SIZE - 1);
        if buffer[packetStartPos] == DIGIT_FOUR && buffer[packetStartPos + 1] == COLON {
          var packetTest := new byte[CONTROL_DATA_BYTES];
          CopyBytes(packetTest, buffer, packetStartPos + 2);
          var checksum := GenerateChecksum(packetTest, CONTROL_DATA_BYTES);
          assert packetTest[..CONTROL_DATA_BYTES] == packetTest[..] == buffer[endCharPos - 4..endCharPos - 1];
          if buffer[endCharPos - 1] == checksum {
            Strnshift(buffer, BUFFER_SIZE, endCharPos);
            bufferCounter := endCharPos;
            CopyBytes(data, packetTest, 0);
            packetFound := true;
          }
        }
      }
    }
  }
}
