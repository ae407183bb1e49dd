/** The one-byte checksum at both ends of the serial wire. */
module XorChecksum {
  function XorSum(data: seq<bv8>): bv8 {
    if data == [] then 0 else XorSum(data[..|data| - 1]) ^ data[|data| - 1]
  }

  lemma XorSumPush(data: seq<bv8>, b: bv8)
    ensures XorSum(data + [b]) == XorSum(data) ^ b
  {
    assert (data + [b])[..|data|] == data;
  }
}
