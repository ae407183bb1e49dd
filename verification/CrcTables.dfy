/** The two lookup tables of the driver, and the proof that each entry is what the algorithm asks for. */
module CrcTables {
  import opened Options
  import opened Word32
  import opened SoftwareCrc
  import opened CrcTheorems
  import opened CrcBursts

  const CRC32_ROW_0: seq<bv32> := [
    0x00000000, 0x77073096, 0xee0e612c, 0x990951ba, 0x076dc419, 0x706af48f, 0xe963a535, 0x9e6495a3,
    0x0edb8832, 0x79dcb8a4, 0xe0d5e91e, 0x97d2d988, 0x09b64c2b, 0x7eb17cbd, 0xe7b82d07, 0x90bf1d91]
  const CRC32_ROW_1: seq<bv32> := [
    0x1db71064, 0x6ab020f2, 0xf3b97148, 0x84be41de, 0x1adad47d, 0x6ddde4eb, 0xf4d4b551, 0x83d385c7,
    0x136c9856, 0x646ba8c0, 0xfd62f97a, 0x8a65c9ec, 0x14015c4f, 0x63066cd9, 0xfa0f3d63, 0x8d080df5]
  const CRC32_ROW_2: seq<bv32> := [
    0x3b6e20c8, 0x4c69105e, 0xd56041e4, 0xa2677172, 0x3c03e4d1, 0x4b04d447, 0xd20d85fd, 0xa50ab56b,
    0x35b5a8fa, 0x42b2986c, 0xdbbbc9d6, 0xacbcf940, 0x32d86ce3, 0x45df5c75, 0xdcd60dcf, 0xabd13d59]
  const CRC32_ROW_3: seq<bv32> := [
    0x26d930ac, 0x51de003a, 0xc8d75180, 0xbfd06116, 0x21b4f4b5, 0x56b3c423, 0xcfba9599, 0xb8bda50f,
    0x2802b89e, 0x5f058808, 0xc60cd9b2, 0xb10be924, 0x2f6f7c87, 0x58684c11, 0xc1611dab, 0xb6662d3d]
  const CRC32_ROW_4: seq<bv32> := [
    0x76dc4190, 0x01db7106, 0x98d220bc, 0xefd5102a, 0x71b18589, 0x06b6b51f, 0x9fbfe4a5, 0xe8b8d433,
    0x7807c9a2, 0x0f00f934, 0x9609a88e, 0xe10e9818, 0x7f6a0dbb, 0x086d3d2d, 0x91646c97, 0xe6635c01]
  const CRC32_ROW_5: seq<bv32> := [
    0x6b6b51f4, 0x1c6c6162, 0x856530d8, 0xf262004e, 0x6c0695ed, 0x1b01a57b, 0x8208f4c1, 0xf50fc457,
    0x65b0d9c6, 0x12b7e950, 0x8bbeb8ea, 0xfcb9887c, 0x62dd1ddf, 0x15da2d49, 0x8cd37cf3, 0xfbd44c65]
  const CRC32_ROW_6: seq<bv32> := [
    0x4db26158, 0x3ab551ce, 0xa3bc0074, 0xd4bb30e2, 0x4adfa541, 0x3dd895d7, 0xa4d1c46d, 0xd3d6f4fb,
    0x4369e96a, 0x346ed9fc, 0xad678846, 0xda60b8d0, 0x44042d73, 0x33031de5, 0xaa0a4c5f, 0xdd0d7cc9]
  const CRC32_ROW_7: seq<bv32> := [
    0x5005713c, 0x270241aa, 0xbe0b1010, 0xc90c2086, 0x5768b525, 0x206f85b3, 0xb966d409, 0xce61e49f,
    0x5edef90e, 0x29d9c998, 0xb0d09822, 0xc7d7a8b4, 0x59b33d17, 0x2eb40d81, 0xb7bd5c3b, 0xc0ba6cad]
  const CRC32_ROW_8: seq<bv32> := [
    0xedb88320, 0x9abfb3b6, 0x03b6e20c, 0x74b1d29a, 0xead54739, 0x9dd277af, 0x04db2615, 0x73dc1683,
    0xe3630b12, 0x94643b84, 0x0d6d6a3e, 0x7a6a5aa8, 0xe40ecf0b, 0x9309ff9d, 0x0a00ae27, 0x7d079eb1]
  const CRC32_ROW_9: seq<bv32> := [
    0xf00f9344, 0x8708a3d2, 0x1e01f268, 0x6906c2fe, 0xf762575d, 0x806567cb, 0x196c3671, 0x6e6b06e7,
    0xfed41b76, 0x89d32be0, 0x10da7a5a, 0x67dd4acc, 0xf9b9df6f, 0x8ebeeff9, 0x17b7be43, 0x60b08ed5]
  const CRC32_ROW_A: seq<bv32> := [
    0xd6d6a3e8, 0xa1d1937e, 0x38d8c2c4, 0x4fdff252, 0xd1bb67f1, 0xa6bc5767, 0x3fb506dd, 0x48b2364b,
    0xd80d2bda, 0xaf0a1b4c, 0x36034af6, 0x41047a60, 0xdf60efc3, 0xa867df55, 0x316e8eef, 0x4669be79]
  const CRC32_ROW_B: seq<bv32> := [
    0xcb61b38c, 0xbc66831a, 0x256fd2a0, 0x5268e236, 0xcc0c7795, 0xbb0b4703, 0x220216b9, 0x5505262f,
    0xc5ba3bbe, 0xb2bd0b28, 0x2bb45a92, 0x5cb36a04, 0xc2d7ffa7, 0xb5d0cf31, 0x2cd99e8b, 0x5bdeae1d]
  const CRC32_ROW_C: seq<bv32> := [
    0x9b64c2b0, 0xec63f226, 0x756aa39c, 0x026d930a, 0x9c0906a9, 0xeb0e363f, 0x72076785, 0x05005713,
    0x95bf4a82, 0xe2b87a14, 0x7bb12bae, 0x0cb61b38, 0x92d28e9b, 0xe5d5be0d, 0x7cdcefb7, 0x0bdbdf21]
  const CRC32_ROW_D: seq<bv32> := [
    0x86d3d2d4, 0xf1d4e242, 0x68ddb3f8, 0x1fda836e, 0x81be16cd, 0xf6b9265b, 0x6fb077e1, 0x18b74777,
    0x88085ae6, 0xff0f6a70, 0x66063bca, 0x11010b5c, 0x8f659eff, 0xf862ae69, 0x616bffd3, 0x166ccf45]
  const CRC32_ROW_E: seq<bv32> := [
    0xa00ae278, 0xd70dd2ee, 0x4e048354, 0x3903b3c2, 0xa7672661, 0xd06016f7, 0x4969474d, 0x3e6e77db,
    0xaed16a4a, 0xd9d65adc, 0x40df0b66, 0x37d83bf0, 0xa9bcae53, 0xdebb9ec5, 0x47b2cf7f, 0x30b5ffe9]
  const CRC32_ROW_F: seq<bv32> := [
    0xbdbdf21c, 0xcabac28a, 0x53b39330, 0x24b4a3a6, 0xbad03605, 0xcdd70693, 0x54de5729, 0x23d967bf,
    0xb3667a2e, 0xc4614ab8, 0x5d681b02, 0x2a6f2b94, 0xb40bbe37, 0xc30c8ea1, 0x5a05df1b, 0x2d02ef8d]

  const CRC32_ROWS: seq<seq<bv32>> := [
    CRC32_ROW_0, CRC32_ROW_1, CRC32_ROW_2, CRC32_ROW_3,
    CRC32_ROW_4, CRC32_ROW_5, CRC32_ROW_6, CRC32_ROW_7,
    CRC32_ROW_8, CRC32_ROW_9, CRC32_ROW_A, CRC32_ROW_B,
    CRC32_ROW_C, CRC32_ROW_D, CRC32_ROW_E, CRC32_ROW_F]

  const CRC16_ROW_0: seq<bv32> := [
    0x0000, 0xc0c1, 0xc181, 0x0140, 0xc301, 0x03c0, 0x0280, 0xc241,
    0xc601, 0x06c0, 0x0780, 0xc741, 0x0500, 0xc5c1, 0xc481, 0x0440]
  const CRC16_ROW_1: seq<bv32> := [
    0xcc01, 0x0cc0, 0x0d80, 0xcd41, 0x0f00, 0xcfc1, 0xce81, 0x0e40,
    0x0a00, 0xcac1, 0xcb81, 0x0b40, 0xc901, 0x09c0, 0x0880, 0xc841]
  const CRC16_ROW_2: seq<bv32> := [
    0xd801, 0x18c0, 0x1980, 0xd941, 0x1b00, 0xdbc1, 0xda81, 0x1a40,
    0x1e00, 0xdec1, 0xdf81, 0x1f40, 0xdd01, 0x1dc0, 0x1c80, 0xdc41]
  const CRC16_ROW_3: seq<bv32> := [
    0x1400, 0xd4c1, 0xd581, 0x1540, 0xd701, 0x17c0, 0x1680, 0xd641,
    0xd201, 0x12c0, 0x1380, 0xd341, 0x1100, 0xd1c1, 0xd081, 0x1040]
  const CRC16_ROW_4: seq<bv32> := [
    0xf001, 0x30c0, 0x3180, 0xf141, 0x3300, 0xf3c1, 0xf281, 0x3240,
    0x3600, 0xf6c1, 0xf781, 0x3740, 0xf501, 0x35c0, 0x3480, 0xf441]
  const CRC16_ROW_5: seq<bv32> := [
    0x3c00, 0xfcc1, 0xfd81, 0x3d40, 0xff01, 0x3fc0, 0x3e80, 0xfe41,
    0xfa01, 0x3ac0, 0x3b80, 0xfb41, 0x3900, 0xf9c1, 0xf881, 0x3840]
  const CRC16_ROW_6: seq<bv32> := [
    0x2800, 0xe8c1, 0xe981, 0x2940, 0xeb01, 0x2bc0, 0x2a80, 0xea41,
    0xee01, 0x2ec0, 0x2f80, 0xef41, 0x2d00, 0xedc1, 0xec81, 0x2c40]
  const CRC16_ROW_7: seq<bv32> := [
    0xe401, 0x24c0, 0x2580, 0xe541, 0x2700, 0xe7c1, 0xe681, 0x2640,
    0x2200, 0xe2c1, 0xe381, 0x2340, 0xe101, 0x21c0, 0x2080, 0xe041]
  const CRC16_ROW_8: seq<bv32> := [
    0xa001, 0x60c0, 0x6180, 0xa141, 0x6300, 0xa3c1, 0xa281, 0x6240,
    0x6600, 0xa6c1, 0xa781, 0x6740, 0xa501, 0x65c0, 0x6480, 0xa441]
  const CRC16_ROW_9: seq<bv32> := [
    0x6c00, 0xacc1, 0xad81, 0x6d40, 0xaf01, 0x6fc0, 0x6e80, 0xae41,
    0xaa01, 0x6ac0, 0x6b80, 0xab41, 0x6900, 0xa9c1, 0xa881, 0x6840]
  const CRC16_ROW_A: seq<bv32> := [
    0x7800, 0xb8c1, 0xb981, 0x7940, 0xbb01, 0x7bc0, 0x7a80, 0xba41,
    0xbe01, 0x7ec0, 0x7f80, 0xbf41, 0x7d00, 0xbdc1, 0xbc81, 0x7c40]
  const CRC16_ROW_B: seq<bv32> := [
    0xb401, 0x74c0, 0x7580, 0xb541, 0x7700, 0xb7c1, 0xb681, 0x7640,
    0x7200, 0xb2c1, 0xb381, 0x7340, 0xb101, 0x71c0, 0x7080, 0xb041]
  const CRC16_ROW_C: seq<bv32> := [
    0x5000, 0x90c1, 0x9181, 0x5140, 0x9301, 0x53c0, 0x5280, 0x9241,
    0x9601, 0x56c0, 0x5780, 0x9741, 0x5500, 0x95c1, 0x9481, 0x5440]
  const CRC16_ROW_D: seq<bv32> := [
    0x9c01, 0x5cc0, 0x5d80, 0x9d41, 0x5f00, 0x9fc1, 0x9e81, 0x5e40,
    0x5a00, 0x9ac1, 0x9b81, 0x5b40, 0x9901, 0x59c0, 0x5880, 0x9841]
  const CRC16_ROW_E: seq<bv32> := [
    0x8801, 0x48c0, 0x4980, 0x8941, 0x4b00, 0x8bc1, 0x8a81, 0x4a40,
    0x4e00, 0x8ec1, 0x8f81, 0x4f40, 0x8d01, 0x4dc0, 0x4c80, 0x8c41]
  const CRC16_ROW_F: seq<bv32> := [
    0x4400, 0x84c1, 0x8581, 0x4540, 0x8701, 0x47c0, 0x4680, 0x8641,
    0x8201, 0x42c0, 0x4380, 0x8341, 0x4100, 0x81c1, 0x8081, 0x4040]

  const CRC16_ROWS: seq<seq<bv32>> := [
    CRC16_ROW_0, CRC16_ROW_1, CRC16_ROW_2, CRC16_ROW_3,
    CRC16_ROW_4, CRC16_ROW_5, CRC16_ROW_6, CRC16_ROW_7,
    CRC16_ROW_8, CRC16_ROW_9, CRC16_ROW_A, CRC16_ROW_B,
    CRC16_ROW_C, CRC16_ROW_D, CRC16_ROW_E, CRC16_ROW_F]

  function Join(rows: seq<seq<bv32>>): seq<bv32> {
    if rows == [] then [] else rows[0] + Join(rows[1..])
  }

  const CRC32_TABLE: seq<bv32> := Join(CRC32_ROWS)

  const CRC16_TABLE: seq<bv32> := Join(CRC16_ROWS)

  const CRC32_CONFIG := Config(32, 0x04C11DB7, 0xFFFFFFFF, 0xFFFFFFFF, true, true, Some(CRC32_TABLE))

  const CRC16_CONFIG := Config(16, 0x8005, 0x0, 0x0, true, true, Some(CRC16_TABLE))

  // ---------- Checking the entries ----------

  function StepByte(rp: bv32, t: bv32): bv32 {
    StepRight(rp, StepRight(rp, StepRight(rp, StepRight(rp,
      StepRight(rp, StepRight(rp, StepRight(rp, StepRight(rp, t))))))))
  }

  lemma StepByteIsSteps(rp: bv32, t: bv32)
    ensures StepByte(rp, t) == StepsRight(rp, t, 8)
  {
    hide StepRight;
    assert StepsRight(rp, t, 2) == StepRight(rp, StepRight(rp, t)) by {
      assert StepsRight(rp, t, 1) == StepRight(rp, t);
    }
    var t2 := StepsRight(rp, t, 2);
    assert StepsRight(rp, t, 4) == StepRight(rp, StepRight(rp, t2)) by {
      assert StepsRight(rp, t, 3) == StepRight(rp, t2);
    }
    var t4 := StepsRight(rp, t, 4);
    assert StepsRight(rp, t, 6) == StepRight(rp, StepRight(rp, t4)) by {
      assert StepsRight(rp, t, 5) == StepRight(rp, t4);
    }
  }

  lemma StepByteXor(rp: bv32, x: bv32, y: bv32)
    ensures StepByte(rp, Xor(x, y)) == Xor(StepByte(rp, x), StepByte(rp, y))
    ensures StepByte(rp, 0) == 0
  {
    hide Xor, StepsRight, StepByte;
    StepByteIsSteps(rp, x);
    StepByteIsSteps(rp, y);
    StepByteIsSteps(rp, Xor(x, y));
    StepsXor(rp, x, y, 8);
    StepByteIsSteps(rp, 0);
    StepsHighBytes(rp, 0);
  }

  /** The entries for the bytes 0 to 15, given by those for 1, 2, 4 and 8. */
  ghost predicate FirstRow(row: seq<bv32>, rp: bv32) {
    && |row| == 16
    && row[0] == 0
    && row[1] == StepByte(rp, 1)
    && row[2] == StepByte(rp, 2)
    && row[3] == Xor(row[2], row[1])
    && row[4] == StepByte(rp, 4)
    && row[5] == Xor(row[4], row[1])
    && row[6] == Xor(row[4], row[2])
    && row[7] == Xor(row[6], row[1])
    && row[8] == StepByte(rp, 8)
    && row[9] == Xor(row[8], row[1])
    && row[10] == Xor(row[8], row[2])
    && row[11] == Xor(row[10], row[1])
    && row[12] == Xor(row[8], row[4])
    && row[13] == Xor(row[12], row[1])
    && row[14] == Xor(row[12], row[2])
    && row[15] == Xor(row[14], row[1])
  }

  /** A row whose entries are those of the first row, each changed by the row's own first entry. */
  ghost predicate Shifted(row: seq<bv32>, first: seq<bv32>) {
    && |row| == 16 == |first|
    && row[0] == Xor(row[0], first[0])
    && row[1] == Xor(row[0], first[1])
    && row[2] == Xor(row[0], first[2])
    && row[3] == Xor(row[0], first[3])
    && row[4] == Xor(row[0], first[4])
    && row[5] == Xor(row[0], first[5])
    && row[6] == Xor(row[0], first[6])
    && row[7] == Xor(row[0], first[7])
    && row[8] == Xor(row[0], first[8])
    && row[9] == Xor(row[0], first[9])
    && row[10] == Xor(row[0], first[10])
    && row[11] == Xor(row[0], first[11])
    && row[12] == Xor(row[0], first[12])
    && row[13] == Xor(row[0], first[13])
    && row[14] == Xor(row[0], first[14])
    && row[15] == Xor(row[0], first[15])
  }

  lemma Crc32FirstRow()
    ensures FirstRow(CRC32_ROW_0, 0xEDB88320)
  {}

  lemma Crc32RowHeads()
    ensures CRC32_ROW_1[0] == StepByte(0xEDB88320, 0x10)
    ensures CRC32_ROW_2[0] == StepByte(0xEDB88320, 0x20)
    ensures CRC32_ROW_3[0] == StepByte(0xEDB88320, 0x30)
    ensures CRC32_ROW_4[0] == StepByte(0xEDB88320, 0x40)
    ensures CRC32_ROW_5[0] == StepByte(0xEDB88320, 0x50)
    ensures CRC32_ROW_6[0] == StepByte(0xEDB88320, 0x60)
    ensures CRC32_ROW_7[0] == StepByte(0xEDB88320, 0x70)
    ensures CRC32_ROW_8[0] == StepByte(0xEDB88320, 0x80)
    ensures CRC32_ROW_9[0] == StepByte(0xEDB88320, 0x90)
    ensures CRC32_ROW_A[0] == StepByte(0xEDB88320, 0xA0)
    ensures CRC32_ROW_B[0] == StepByte(0xEDB88320, 0xB0)
    ensures CRC32_ROW_C[0] == StepByte(0xEDB88320, 0xC0)
    ensures CRC32_ROW_D[0] == StepByte(0xEDB88320, 0xD0)
    ensures CRC32_ROW_E[0] == StepByte(0xEDB88320, 0xE0)
    ensures CRC32_ROW_F[0] == StepByte(0xEDB88320, 0xF0)
  {}

  lemma Crc32Rows0()
    ensures Shifted(CRC32_ROW_1, CRC32_ROW_0)
    ensures Shifted(CRC32_ROW_2, CRC32_ROW_0)
    ensures Shifted(CRC32_ROW_3, CRC32_ROW_0)
  {}

  lemma Crc32Rows1()
    ensures Shifted(CRC32_ROW_4, CRC32_ROW_0)
    ensures Shifted(CRC32_ROW_5, CRC32_ROW_0)
    ensures Shifted(CRC32_ROW_6, CRC32_ROW_0)
  {}

  lemma Crc32Rows2()
    ensures Shifted(CRC32_ROW_7, CRC32_ROW_0)
    ensures Shifted(CRC32_ROW_8, CRC32_ROW_0)
    ensures Shifted(CRC32_ROW_9, CRC32_ROW_0)
  {}

  lemma Crc32Rows3()
    ensures Shifted(CRC32_ROW_A, CRC32_ROW_0)
    ensures Shifted(CRC32_ROW_B, CRC32_ROW_0)
    ensures Shifted(CRC32_ROW_C, CRC32_ROW_0)
  {}

  lemma Crc32Rows4()
    ensures Shifted(CRC32_ROW_D, CRC32_ROW_0)
    ensures Shifted(CRC32_ROW_E, CRC32_ROW_0)
    ensures Shifted(CRC32_ROW_F, CRC32_ROW_0)
  {}

  lemma Crc16FirstRow()
    ensures FirstRow(CRC16_ROW_0, 0xA001)
  {}

  lemma Crc16RowHeads()
    ensures CRC16_ROW_1[0] == StepByte(0xA001, 0x10)
    ensures CRC16_ROW_2[0] == StepByte(0xA001, 0x20)
    ensures CRC16_ROW_3[0] == StepByte(0xA001, 0x30)
    ensures CRC16_ROW_4[0] == StepByte(0xA001, 0x40)
    ensures CRC16_ROW_5[0] == StepByte(0xA001, 0x50)
    ensures CRC16_ROW_6[0] == StepByte(0xA001, 0x60)
    ensures CRC16_ROW_7[0] == StepByte(0xA001, 0x70)
    ensures CRC16_ROW_8[0] == StepByte(0xA001, 0x80)
    ensures CRC16_ROW_9[0] == StepByte(0xA001, 0x90)
    ensures CRC16_ROW_A[0] == StepByte(0xA001, 0xA0)
    ensures CRC16_ROW_B[0] == StepByte(0xA001, 0xB0)
    ensures CRC16_ROW_C[0] == StepByte(0xA001, 0xC0)
    ensures CRC16_ROW_D[0] == StepByte(0xA001, 0xD0)
    ensures CRC16_ROW_E[0] == StepByte(0xA001, 0xE0)
    ensures CRC16_ROW_F[0] == StepByte(0xA001, 0xF0)
  {}

  lemma Crc16Rows0()
    ensures Shifted(CRC16_ROW_1, CRC16_ROW_0)
    ensures Shifted(CRC16_ROW_2, CRC16_ROW_0)
    ensures Shifted(CRC16_ROW_3, CRC16_ROW_0)
  {}

  lemma Crc16Rows1()
    ensures Shifted(CRC16_ROW_4, CRC16_ROW_0)
    ensures Shifted(CRC16_ROW_5, CRC16_ROW_0)
    ensures Shifted(CRC16_ROW_6, CRC16_ROW_0)
  {}

  lemma Crc16Rows2()
    ensures Shifted(CRC16_ROW_7, CRC16_ROW_0)
    ensures Shifted(CRC16_ROW_8, CRC16_ROW_0)
    ensures Shifted(CRC16_ROW_9, CRC16_ROW_0)
  {}

  lemma Crc16Rows3()
    ensures Shifted(CRC16_ROW_A, CRC16_ROW_0)
    ensures Shifted(CRC16_ROW_B, CRC16_ROW_0)
    ensures Shifted(CRC16_ROW_C, CRC16_ROW_0)
  {}

  lemma Crc16Rows4()
    ensures Shifted(CRC16_ROW_D, CRC16_ROW_0)
    ensures Shifted(CRC16_ROW_E, CRC16_ROW_0)
    ensures Shifted(CRC16_ROW_F, CRC16_ROW_0)
  {}

  lemma FirstRowAt(row: seq<bv32>, rp: bv32, low: bv8)
    requires FirstRow(row, rp) && low < 16
    ensures row[low as int] == StepByte(rp, low as bv32)
  {
    hide StepByte;
    if low == 0 {
      StepByteXor(rp, 0, 0);
    } else if low == 1 {
    } else if low == 2 {
    } else if low == 3 {
      StepByteXor(rp, 2, 1);
    } else if low == 4 {
    } else if low == 5 {
      StepByteXor(rp, 4, 1);
    } else if low == 6 {
      StepByteXor(rp, 4, 2);
    } else if low == 7 {
      StepByteXor(rp, 6, 1);
      StepByteXor(rp, 4, 2);
    } else if low == 8 {
    } else if low == 9 {
      StepByteXor(rp, 8, 1);
    } else if low == 10 {
      StepByteXor(rp, 8, 2);
    } else if low == 11 {
      StepByteXor(rp, 10, 1);
      StepByteXor(rp, 8, 2);
    } else if low == 12 {
      StepByteXor(rp, 8, 4);
    } else if low == 13 {
      StepByteXor(rp, 12, 1);
      StepByteXor(rp, 8, 4);
    } else if low == 14 {
      StepByteXor(rp, 12, 2);
      StepByteXor(rp, 8, 4);
    } else if low == 15 {
      StepByteXor(rp, 14, 1);
      StepByteXor(rp, 12, 2);
      StepByteXor(rp, 8, 4);
    }
  }

  lemma ShiftedAt(row: seq<bv32>, first: seq<bv32>, k: nat)
    requires Shifted(row, first) && k < 16
    ensures row[k] == Xor(row[0], first[k])
  {
    hide Xor;
    if k == 0 {} else if k == 1 {} else if k == 2 {} else if k == 3 {}
    else if k == 4 {} else if k == 5 {} else if k == 6 {} else if k == 7 {}
    else if k == 8 {} else if k == 9 {} else if k == 10 {} else if k == 11 {}
    else if k == 12 {} else if k == 13 {} else if k == 14 {} else if k == 15 {}
  }

  lemma FirstIsShifted(first: seq<bv32>, rp: bv32)
    requires FirstRow(first, rp)
    ensures Shifted(first, first)
  {
    hide Xor, StepByte;
    forall k | 0 <= k < 16 ensures first[k] == Xor(first[0], first[k]) {
      XorZero(first[k]);
    }
  }

  // ---------- The tables ----------

  function HighNibble(i: bv8): bv8 { i & 0xf0 }

  function LowNibble(i: bv8): bv8 { i & 0x0f }

  /** An entry of a row is the entry of its two nibbles, each on its own. */
  lemma RowEntry(row: seq<bv32>, first: seq<bv32>, rp: bv32, i: bv8)
    requires FirstRow(first, rp) && Shifted(row, first)
    requires row[0] == StepByte(rp, HighNibble(i) as bv32)
    ensures row[LowNibble(i) as int] == StepsRight(rp, i as bv32, 8)
  {
    var high, low := HighNibble(i), LowNibble(i);
    assert Xor(high as bv32, low as bv32) == i as bv32 && low < 16;
    hide Xor, StepByte, StepsRight, FirstRow, Shifted;
    FirstRowAt(first, rp, low);
    NibbleIndex(i);
    ShiftedAt(row, first, low as int);
    StepByteXor(rp, high as bv32, low as bv32);
    StepByteIsSteps(rp, i as bv32);
  }

  lemma NibbleIndex(i: bv8)
    ensures i as int == 16 * ((i >> 4) as int) + LowNibble(i) as int
    ensures 0 <= LowNibble(i) as int < 16 && 0 <= (i >> 4) as int < 16
    ensures ((i >> 4) as bv32) << 4 == HighNibble(i) as bv32
  {}

  lemma {:induction false} JoinAt(rows: seq<seq<bv32>>, r: nat, k: nat)
    requires (forall j :: 0 <= j < |rows| ==> |rows[j]| == 16) && r < |rows| && k < 16
    ensures |Join(rows)| == 16 * |rows|
    ensures Join(rows)[16 * r + k] == rows[r][k]
  {
    if |rows| > 1 {
      JoinAt(rows[1..], if r == 0 then 0 else r - 1, k);
    }
  }

  function RowOf(rows: seq<seq<bv32>>, i: bv8): seq<bv32>
    requires |rows| == 16
  {
    NibbleIndex(i);
    rows[(i >> 4) as int]
  }

  /** All rows follow from the first one and from their own first entries. */
  ghost predicate Tabulates(rows: seq<seq<bv32>>, rp: bv32) {
    && |rows| == 16
    && FirstRow(rows[0], rp)
    && (forall r :: 0 <= r < 16 ==> Shifted(rows[r], rows[0]))
    && (forall i: bv8 :: RowOf(rows, i)[0] == StepByte(rp, HighNibble(i) as bv32))
  }

  lemma TabulatedIsGenerated(rows: seq<seq<bv32>>, rp: bv32)
    requires Tabulates(rows, rp)
    ensures GeneratedBy(Join(rows), rp)
  {
    hide StepByte, StepsRight, FirstRow, HighNibble, LowNibble;
    ShiftedLengths(rows);
    JoinAt(rows, 0, 0);
    forall i: bv8 ensures Lookup(Join(rows), i) == StepsRight(rp, i as bv32, 8) {
      hide Shifted;
      NibbleIndex(i);
      JoinAt(rows, (i >> 4) as int, LowNibble(i) as int);
      RowEntry(RowOf(rows, i), rows[0], rp, i);
    }
  }

  lemma ShiftedLengths(rows: seq<seq<bv32>>)
    requires |rows| == 16 && forall r :: 0 <= r < 16 ==> Shifted(rows[r], rows[0])
    ensures forall r :: 0 <= r < 16 ==> |rows[r]| == 16
  {}

  lemma Crc32Tabulated()
    ensures Tabulates(CRC32_ROWS, 0xEDB88320)
  {
    hide FirstRow, Shifted, StepByte;
    Crc32FirstRow();
    Crc32RowHeads();
    FirstIsShifted(CRC32_ROW_0, 0xEDB88320);
    Crc32Rows0();
    Crc32Rows1();
    Crc32Rows2();
    Crc32Rows3();
    Crc32Rows4();
    Crc32Heads();
    forall r | 0 <= r < 16 ensures Shifted(CRC32_ROWS[r], CRC32_ROWS[0]) {
      if r == 0 {} else if r == 1 {} else if r == 2 {} else if r == 3 {}
      else if r == 4 {} else if r == 5 {} else if r == 6 {} else if r == 7 {}
      else if r == 8 {} else if r == 9 {} else if r == 10 {} else if r == 11 {}
      else if r == 12 {} else if r == 13 {} else if r == 14 {} else if r == 15 {}
    }
  }

  lemma Crc32Heads()
    ensures forall i: bv8 :: RowOf(CRC32_ROWS, i)[0] == StepByte(0xEDB88320, HighNibble(i) as bv32)
  {
    hide StepByte;
    Crc32RowHeads();
    Crc32FirstRow();
    StepByteXor(0xEDB88320, 0, 0);
    forall i: bv8 ensures RowOf(CRC32_ROWS, i)[0] == StepByte(0xEDB88320, HighNibble(i) as bv32) {
      if HighNibble(i) == 0x00 {} else if HighNibble(i) == 0x10 {}
      else if HighNibble(i) == 0x20 {} else if HighNibble(i) == 0x30 {}
      else if HighNibble(i) == 0x40 {} else if HighNibble(i) == 0x50 {}
      else if HighNibble(i) == 0x60 {} else if HighNibble(i) == 0x70 {}
      else if HighNibble(i) == 0x80 {} else if HighNibble(i) == 0x90 {}
      else if HighNibble(i) == 0xA0 {} else if HighNibble(i) == 0xB0 {}
      else if HighNibble(i) == 0xC0 {} else if HighNibble(i) == 0xD0 {}
      else if HighNibble(i) == 0xE0 {} else if HighNibble(i) == 0xF0 {}
    }
  }

  /** Every entry of the table is eight steps of the right-shifting register. */
  lemma Crc32TableGenerated()
    ensures GeneratedBy(CRC32_TABLE, 0xEDB88320)
    ensures CRC32_CONFIG.Usable() && Mirrored(CRC32_CONFIG) == 0xEDB88320
  {
    hide Tabulates;
    Crc32Tabulated();
    TabulatedIsGenerated(CRC32_ROWS, 0xEDB88320);
  }

  lemma Crc16Tabulated()
    ensures Tabulates(CRC16_ROWS, 0xA001)
  {
    hide FirstRow, Shifted, StepByte;
    Crc16FirstRow();
    Crc16RowHeads();
    FirstIsShifted(CRC16_ROW_0, 0xA001);
    Crc16Rows0();
    Crc16Rows1();
    Crc16Rows2();
    Crc16Rows3();
    Crc16Rows4();
    Crc16Heads();
    forall r | 0 <= r < 16 ensures Shifted(CRC16_ROWS[r], CRC16_ROWS[0]) {
      if r == 0 {} else if r == 1 {} else if r == 2 {} else if r == 3 {}
      else if r == 4 {} else if r == 5 {} else if r == 6 {} else if r == 7 {}
      else if r == 8 {} else if r == 9 {} else if r == 10 {} else if r == 11 {}
      else if r == 12 {} else if r == 13 {} else if r == 14 {} else if r == 15 {}
    }
  }

  lemma Crc16Heads()
    ensures forall i: bv8 :: RowOf(CRC16_ROWS, i)[0] == StepByte(0xA001, HighNibble(i) as bv32)
  {
    hide StepByte;
    Crc16RowHeads();
    Crc16FirstRow();
    StepByteXor(0xA001, 0, 0);
    forall i: bv8 ensures RowOf(CRC16_ROWS, i)[0] == StepByte(0xA001, HighNibble(i) as bv32) {
      if HighNibble(i) == 0x00 {} else if HighNibble(i) == 0x10 {}
      else if HighNibble(i) == 0x20 {} else if HighNibble(i) == 0x30 {}
      else if HighNibble(i) == 0x40 {} else if HighNibble(i) == 0x50 {}
      else if HighNibble(i) == 0x60 {} else if HighNibble(i) == 0x70 {}
      else if HighNibble(i) == 0x80 {} else if HighNibble(i) == 0x90 {}
      else if HighNibble(i) == 0xA0 {} else if HighNibble(i) == 0xB0 {}
      else if HighNibble(i) == 0xC0 {} else if HighNibble(i) == 0xD0 {}
      else if HighNibble(i) == 0xE0 {} else if HighNibble(i) == 0xF0 {}
    }
  }

  /** Every entry of the table is eight steps of the right-shifting register. */
  lemma Crc16TableGenerated()
    ensures GeneratedBy(CRC16_TABLE, 0xA001)
    ensures CRC16_CONFIG.Usable() && Mirrored(CRC16_CONFIG) == 0xA001
  {
    hide Tabulates;
    Crc16Tabulated();
    TabulatedIsGenerated(CRC16_ROWS, 0xA001);
  }

  // ---------- The shipped configurations ----------

  lemma Crc32TabulatedConfig()
    ensures Tabulated(CRC32_CONFIG) && IsOdd(CRC32_CONFIG.poly)
    ensures CRC32_CONFIG.initialVal == Reflect(CRC32_CONFIG.initialVal, CRC32_CONFIG.polySize)
  {
    hide GeneratedBy;
    Crc32TableGenerated();
  }

  /** CRC-32 returns the same values with its lookup table as without, on every sequence of calls. */
  lemma Crc32TableMatchesSerial(calls: seq<Call>)
    ensures CRC32_CONFIG.Usable()
    ensures Outputs(CRC32_CONFIG, CRC32_CONFIG.initialVal, calls)
         == Outputs(CRC32_CONFIG.Serial(), CRC32_CONFIG.initialVal, calls)
  {
    hide GeneratedBy, FeedAll, Result, Reflect;
    Crc32TabulatedConfig();
    TableAgreesIff(CRC32_CONFIG);
  }

  /** CRC-32 detects every change confined to 32 consecutive bits, in the order of transmission. */
  lemma Crc32DetectsBitBursts(a: seq<bv8>, b: seq<bv8>, first: nat)
    requires |a| == |b| && a != b && WithinWindow(MessageBits(a), MessageBits(b), first, 32)
    ensures CRC32_CONFIG.Usable()
    ensures Checksum(CRC32_CONFIG, a) != Checksum(CRC32_CONFIG, b)
  {
    hide GeneratedBy, FeedAll, Result, Reflect, MessageBits, WithinWindow;
    Crc32TabulatedConfig();
    TableBitBurstDetected(CRC32_CONFIG, a, b, first);
  }

  /** In particular every change confined to a window of at most 4 bytes. */
  lemma Crc32DetectsBursts(prefix: seq<bv8>, v: seq<bv8>, w: seq<bv8>, suffix: seq<bv8>)
    requires |v| == |w| <= 4 && v != w
    ensures CRC32_CONFIG.Usable()
    ensures Checksum(CRC32_CONFIG, prefix + v + suffix) != Checksum(CRC32_CONFIG, prefix + w + suffix)
  {
    hide GeneratedBy, FeedAll, Result, Reflect;
    Crc32TabulatedConfig();
    TableBurstDetected(CRC32_CONFIG, prefix, v, w, suffix);
  }

  lemma Crc16TabulatedConfig()
    ensures Tabulated(CRC16_CONFIG) && IsOdd(CRC16_CONFIG.poly)
    ensures CRC16_CONFIG.initialVal == Reflect(CRC16_CONFIG.initialVal, CRC16_CONFIG.polySize)
  {
    hide GeneratedBy;
    Crc16TableGenerated();
  }

  /** CRC-16 returns the same values with its lookup table as without, on every sequence of calls. */
  lemma Crc16TableMatchesSerial(calls: seq<Call>)
    ensures CRC16_CONFIG.Usable()
    ensures Outputs(CRC16_CONFIG, CRC16_CONFIG.initialVal, calls)
         == Outputs(CRC16_CONFIG.Serial(), CRC16_CONFIG.initialVal, calls)
  {
    hide GeneratedBy, FeedAll, Result, Reflect;
    Crc16TabulatedConfig();
    TableAgreesIff(CRC16_CONFIG);
  }

  /** CRC-16 detects every change confined to 16 consecutive bits, in the order of transmission. */
  lemma Crc16DetectsBitBursts(a: seq<bv8>, b: seq<bv8>, first: nat)
    requires |a| == |b| && a != b && WithinWindow(MessageBits(a), MessageBits(b), first, 16)
    ensures CRC16_CONFIG.Usable()
    ensures Checksum(CRC16_CONFIG, a) != Checksum(CRC16_CONFIG, b)
  {
    hide GeneratedBy, FeedAll, Result, Reflect, MessageBits, WithinWindow;
    Crc16TabulatedConfig();
    TableBitBurstDetected(CRC16_CONFIG, a, b, first);
  }

  /** In particular every change confined to a window of at most 2 bytes. */
  lemma Crc16DetectsBursts(prefix: seq<bv8>, v: seq<bv8>, w: seq<bv8>, suffix: seq<bv8>)
    requires |v| == |w| <= 2 && v != w
    ensures CRC16_CONFIG.Usable()
    ensures Checksum(CRC16_CONFIG, prefix + v + suffix) != Checksum(CRC16_CONFIG, prefix + w + suffix)
  {
    hide GeneratedBy, FeedAll, Result, Reflect;
    Crc16TabulatedConfig();
    TableBurstDetected(CRC16_CONFIG, prefix, v, w, suffix);
  }
}
