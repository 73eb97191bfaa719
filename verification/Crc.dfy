/** The table-driven CRC of gb28181/mpegps/util.go, in 32-bit vectors. */
module Crc {
  import opened Bytes

  /** Sixteen entries of crc32table, those whose index has the high half h. */
  function TableRow(h: bv8): (r: seq<bv32>)
    ensures |r| == 16
  {
    match h
    case 0x0 => [0x00000000, 0xB71DC104, 0x6E3B8209, 0xD926430D, 0xDC760413, 0x6B6BC517, 0xB24D861A, 0x0550471E,
                  0xB8ED0826, 0x0FF0C922, 0xD6D68A2F, 0x61CB4B2B, 0x649B0C35, 0xD386CD31, 0x0AA08E3C, 0xBDBD4F38]
    case 0x1 => [0x70DB114C, 0xC7C6D048, 0x1EE09345, 0xA9FD5241, 0xACAD155F, 0x1BB0D45B, 0xC2969756, 0x758B5652,
                  0xC836196A, 0x7F2BD86E, 0xA60D9B63, 0x11105A67, 0x14401D79, 0xA35DDC7D, 0x7A7B9F70, 0xCD665E74]
    case 0x2 => [0xE0B62398, 0x57ABE29C, 0x8E8DA191, 0x39906095, 0x3CC0278B, 0x8BDDE68F, 0x52FBA582, 0xE5E66486,
                  0x585B2BBE, 0xEF46EABA, 0x3660A9B7, 0x817D68B3, 0x842D2FAD, 0x3330EEA9, 0xEA16ADA4, 0x5D0B6CA0]
    case 0x3 => [0x906D32D4, 0x2770F3D0, 0xFE56B0DD, 0x494B71D9, 0x4C1B36C7, 0xFB06F7C3, 0x2220B4CE, 0x953D75CA,
                  0x28803AF2, 0x9F9DFBF6, 0x46BBB8FB, 0xF1A679FF, 0xF4F63EE1, 0x43EBFFE5, 0x9ACDBCE8, 0x2DD07DEC]
    case 0x4 => [0x77708634, 0xC06D4730, 0x194B043D, 0xAE56C539, 0xAB068227, 0x1C1B4323, 0xC53D002E, 0x7220C12A,
                  0xCF9D8E12, 0x78804F16, 0xA1A60C1B, 0x16BBCD1F, 0x13EB8A01, 0xA4F64B05, 0x7DD00808, 0xCACDC90C]
    case 0x5 => [0x07AB9778, 0xB0B6567C, 0x69901571, 0xDE8DD475, 0xDBDD936B, 0x6CC0526F, 0xB5E61162, 0x02FBD066,
                  0xBF469F5E, 0x085B5E5A, 0xD17D1D57, 0x6660DC53, 0x63309B4D, 0xD42D5A49, 0x0D0B1944, 0xBA16D840]
    case 0x6 => [0x97C6A5AC, 0x20DB64A8, 0xF9FD27A5, 0x4EE0E6A1, 0x4BB0A1BF, 0xFCAD60BB, 0x258B23B6, 0x9296E2B2,
                  0x2F2BAD8A, 0x98366C8E, 0x41102F83, 0xF60DEE87, 0xF35DA999, 0x4440689D, 0x9D662B90, 0x2A7BEA94]
    case 0x7 => [0xE71DB4E0, 0x500075E4, 0x892636E9, 0x3E3BF7ED, 0x3B6BB0F3, 0x8C7671F7, 0x555032FA, 0xE24DF3FE,
                  0x5FF0BCC6, 0xE8ED7DC2, 0x31CB3ECF, 0x86D6FFCB, 0x8386B8D5, 0x349B79D1, 0xEDBD3ADC, 0x5AA0FBD8]
    case 0x8 => [0xEEE00C69, 0x59FDCD6D, 0x80DB8E60, 0x37C64F64, 0x3296087A, 0x858BC97E, 0x5CAD8A73, 0xEBB04B77,
                  0x560D044F, 0xE110C54B, 0x38368646, 0x8F2B4742, 0x8A7B005C, 0x3D66C158, 0xE4408255, 0x535D4351]
    case 0x9 => [0x9E3B1D25, 0x2926DC21, 0xF0009F2C, 0x471D5E28, 0x424D1936, 0xF550D832, 0x2C769B3F, 0x9B6B5A3B,
                  0x26D61503, 0x91CBD407, 0x48ED970A, 0xFFF0560E, 0xFAA01110, 0x4DBDD014, 0x949B9319, 0x2386521D]
    case 0xA => [0x0E562FF1, 0xB94BEEF5, 0x606DADF8, 0xD7706CFC, 0xD2202BE2, 0x653DEAE6, 0xBC1BA9EB, 0x0B0668EF,
                  0xB6BB27D7, 0x01A6E6D3, 0xD880A5DE, 0x6F9D64DA, 0x6ACD23C4, 0xDDD0E2C0, 0x04F6A1CD, 0xB3EB60C9]
    case 0xB => [0x7E8D3EBD, 0xC990FFB9, 0x10B6BCB4, 0xA7AB7DB0, 0xA2FB3AAE, 0x15E6FBAA, 0xCCC0B8A7, 0x7BDD79A3,
                  0xC660369B, 0x717DF79F, 0xA85BB492, 0x1F467596, 0x1A163288, 0xAD0BF38C, 0x742DB081, 0xC3307185]
    case 0xC => [0x99908A5D, 0x2E8D4B59, 0xF7AB0854, 0x40B6C950, 0x45E68E4E, 0xF2FB4F4A, 0x2BDD0C47, 0x9CC0CD43,
                  0x217D827B, 0x9660437F, 0x4F460072, 0xF85BC176, 0xFD0B8668, 0x4A16476C, 0x93300461, 0x242DC565]
    case 0xD => [0xE94B9B11, 0x5E565A15, 0x87701918, 0x306DD81C, 0x353D9F02, 0x82205E06, 0x5B061D0B, 0xEC1BDC0F,
                  0x51A69337, 0xE6BB5233, 0x3F9D113E, 0x8880D03A, 0x8DD09724, 0x3ACD5620, 0xE3EB152D, 0x54F6D429]
    case 0xE => [0x7926A9C5, 0xCE3B68C1, 0x171D2BCC, 0xA000EAC8, 0xA550ADD6, 0x124D6CD2, 0xCB6B2FDF, 0x7C76EEDB,
                  0xC1CBA1E3, 0x76D660E7, 0xAFF023EA, 0x18EDE2EE, 0x1DBDA5F0, 0xAAA064F4, 0x738627F9, 0xC49BE6FD]
    case _   => [0x09FDB889, 0xBEE0798D, 0x67C63A80, 0xD0DBFB84, 0xD58BBC9A, 0x62967D9E, 0xBBB03E93, 0x0CADFF97,
                  0xB110B0AF, 0x060D71AB, 0xDF2B32A6, 0x6836F3A2, 0x6D66B4BC, 0xDA7B75B8, 0x035D36B5, 0xB440F7B1]
  }

  function TableAt(i: bv8): bv32 {
    TableRow(i >> 4)[(i & 0xF) as int]
  }

  /** The entry for index i as the exclusive or of the entries for its bits. */
  function Entry(i: bv8): bv32 {
    (if i & 0x01 != 0 then 0xB71DC104 else 0)
    ^ (if i & 0x02 != 0 then 0x6E3B8209 else 0)
    ^ (if i & 0x04 != 0 then 0xDC760413 else 0)
    ^ (if i & 0x08 != 0 then 0xB8ED0826 else 0)
    ^ (if i & 0x10 != 0 then 0x70DB114C else 0)
    ^ (if i & 0x20 != 0 then 0xE0B62398 else 0)
    ^ (if i & 0x40 != 0 then 0x77708634 else 0)
    ^ (if i & 0x80 != 0 then 0xEEE00C69 else 0)
  }

  ghost predicate EntryAt(i: bv8) {
    TableAt(i) == Entry(i)
  }

  lemma Row0(i: bv8)
    requires 0x00 <= i <= 0x0F
    ensures EntryAt(i)
  {
    assert EntryAt(0x00) && EntryAt(0x01) && EntryAt(0x02) && EntryAt(0x03)
        && EntryAt(0x04) && EntryAt(0x05) && EntryAt(0x06) && EntryAt(0x07)
        && EntryAt(0x08) && EntryAt(0x09) && EntryAt(0x0A) && EntryAt(0x0B)
        && EntryAt(0x0C) && EntryAt(0x0D) && EntryAt(0x0E) && EntryAt(0x0F);
  }

  lemma Row1(i: bv8)
    requires 0x10 <= i <= 0x1F
    ensures EntryAt(i)
  {
    assert EntryAt(0x10) && EntryAt(0x11) && EntryAt(0x12) && EntryAt(0x13)
        && EntryAt(0x14) && EntryAt(0x15) && EntryAt(0x16) && EntryAt(0x17)
        && EntryAt(0x18) && EntryAt(0x19) && EntryAt(0x1A) && EntryAt(0x1B)
        && EntryAt(0x1C) && EntryAt(0x1D) && EntryAt(0x1E) && EntryAt(0x1F);
  }

  lemma Row2(i: bv8)
    requires 0x20 <= i <= 0x2F
    ensures EntryAt(i)
  {
    assert EntryAt(0x20) && EntryAt(0x21) && EntryAt(0x22) && EntryAt(0x23)
        && EntryAt(0x24) && EntryAt(0x25) && EntryAt(0x26) && EntryAt(0x27)
        && EntryAt(0x28) && EntryAt(0x29) && EntryAt(0x2A) && EntryAt(0x2B)
        && EntryAt(0x2C) && EntryAt(0x2D) && EntryAt(0x2E) && EntryAt(0x2F);
  }

  lemma Row3(i: bv8)
    requires 0x30 <= i <= 0x3F
    ensures EntryAt(i)
  {
    assert EntryAt(0x30) && EntryAt(0x31) && EntryAt(0x32) && EntryAt(0x33)
        && EntryAt(0x34) && EntryAt(0x35) && EntryAt(0x36) && EntryAt(0x37)
        && EntryAt(0x38) && EntryAt(0x39) && EntryAt(0x3A) && EntryAt(0x3B)
        && EntryAt(0x3C) && EntryAt(0x3D) && EntryAt(0x3E) && EntryAt(0x3F);
  }

  lemma Row4(i: bv8)
    requires 0x40 <= i <= 0x4F
    ensures EntryAt(i)
  {
    assert EntryAt(0x40) && EntryAt(0x41) && EntryAt(0x42) && EntryAt(0x43)
        && EntryAt(0x44) && EntryAt(0x45) && EntryAt(0x46) && EntryAt(0x47)
        && EntryAt(0x48) && EntryAt(0x49) && EntryAt(0x4A) && EntryAt(0x4B)
        && EntryAt(0x4C) && EntryAt(0x4D) && EntryAt(0x4E) && EntryAt(0x4F);
  }

  lemma Row5(i: bv8)
    requires 0x50 <= i <= 0x5F
    ensures EntryAt(i)
  {
    assert EntryAt(0x50) && EntryAt(0x51) && EntryAt(0x52) && EntryAt(0x53)
        && EntryAt(0x54) && EntryAt(0x55) && EntryAt(0x56) && EntryAt(0x57)
        && EntryAt(0x58) && EntryAt(0x59) && EntryAt(0x5A) && EntryAt(0x5B)
        && EntryAt(0x5C) && EntryAt(0x5D) && EntryAt(0x5E) && EntryAt(0x5F);
  }

  lemma Row6(i: bv8)
    requires 0x60 <= i <= 0x6F
    ensures EntryAt(i)
  {
    assert EntryAt(0x60) && EntryAt(0x61) && EntryAt(0x62) && EntryAt(0x63)
        && EntryAt(0x64) && EntryAt(0x65) && EntryAt(0x66) && EntryAt(0x67)
        && EntryAt(0x68) && EntryAt(0x69) && EntryAt(0x6A) && EntryAt(0x6B)
        && EntryAt(0x6C) && EntryAt(0x6D) && EntryAt(0x6E) && EntryAt(0x6F);
  }

  lemma Row7(i: bv8)
    requires 0x70 <= i <= 0x7F
    ensures EntryAt(i)
  {
    assert EntryAt(0x70) && EntryAt(0x71) && EntryAt(0x72) && EntryAt(0x73)
        && EntryAt(0x74) && EntryAt(0x75) && EntryAt(0x76) && EntryAt(0x77)
        && EntryAt(0x78) && EntryAt(0x79) && EntryAt(0x7A) && EntryAt(0x7B)
        && EntryAt(0x7C) && EntryAt(0x7D) && EntryAt(0x7E) && EntryAt(0x7F);
  }

  lemma Row8(i: bv8)
    requires 0x80 <= i <= 0x8F
    ensures EntryAt(i)
  {
    assert EntryAt(0x80) && EntryAt(0x81) && EntryAt(0x82) && EntryAt(0x83)
        && EntryAt(0x84) && EntryAt(0x85) && EntryAt(0x86) && EntryAt(0x87)
        && EntryAt(0x88) && EntryAt(0x89) && EntryAt(0x8A) && EntryAt(0x8B)
        && EntryAt(0x8C) && EntryAt(0x8D) && EntryAt(0x8E) && EntryAt(0x8F);
  }

  lemma Row9(i: bv8)
    requires 0x90 <= i <= 0x9F
    ensures EntryAt(i)
  {
    assert EntryAt(0x90) && EntryAt(0x91) && EntryAt(0x92) && EntryAt(0x93)
        && EntryAt(0x94) && EntryAt(0x95) && EntryAt(0x96) && EntryAt(0x97)
        && EntryAt(0x98) && EntryAt(0x99) && EntryAt(0x9A) && EntryAt(0x9B)
        && EntryAt(0x9C) && EntryAt(0x9D) && EntryAt(0x9E) && EntryAt(0x9F);
  }

  lemma RowA(i: bv8)
    requires 0xA0 <= i <= 0xAF
    ensures EntryAt(i)
  {
    assert EntryAt(0xA0) && EntryAt(0xA1) && EntryAt(0xA2) && EntryAt(0xA3)
        && EntryAt(0xA4) && EntryAt(0xA5) && EntryAt(0xA6) && EntryAt(0xA7)
        && EntryAt(0xA8) && EntryAt(0xA9) && EntryAt(0xAA) && EntryAt(0xAB)
        && EntryAt(0xAC) && EntryAt(0xAD) && EntryAt(0xAE) && EntryAt(0xAF);
  }

  lemma RowB(i: bv8)
    requires 0xB0 <= i <= 0xBF
    ensures EntryAt(i)
  {
    assert EntryAt(0xB0) && EntryAt(0xB1) && EntryAt(0xB2) && EntryAt(0xB3)
        && EntryAt(0xB4) && EntryAt(0xB5) && EntryAt(0xB6) && EntryAt(0xB7)
        && EntryAt(0xB8) && EntryAt(0xB9) && EntryAt(0xBA) && EntryAt(0xBB)
        && EntryAt(0xBC) && EntryAt(0xBD) && EntryAt(0xBE) && EntryAt(0xBF);
  }

  lemma RowC(i: bv8)
    requires 0xC0 <= i <= 0xCF
    ensures EntryAt(i)
  {
    assert EntryAt(0xC0) && EntryAt(0xC1) && EntryAt(0xC2) && EntryAt(0xC3)
        && EntryAt(0xC4) && EntryAt(0xC5) && EntryAt(0xC6) && EntryAt(0xC7)
        && EntryAt(0xC8) && EntryAt(0xC9) && EntryAt(0xCA) && EntryAt(0xCB)
        && EntryAt(0xCC) && EntryAt(0xCD) && EntryAt(0xCE) && EntryAt(0xCF);
  }

  lemma RowD(i: bv8)
    requires 0xD0 <= i <= 0xDF
    ensures EntryAt(i)
  {
    assert EntryAt(0xD0) && EntryAt(0xD1) && EntryAt(0xD2) && EntryAt(0xD3)
        && EntryAt(0xD4) && EntryAt(0xD5) && EntryAt(0xD6) && EntryAt(0xD7)
        && EntryAt(0xD8) && EntryAt(0xD9) && EntryAt(0xDA) && EntryAt(0xDB)
        && EntryAt(0xDC) && EntryAt(0xDD) && EntryAt(0xDE) && EntryAt(0xDF);
  }

  lemma RowE(i: bv8)
    requires 0xE0 <= i <= 0xEF
    ensures EntryAt(i)
  {
    assert EntryAt(0xE0) && EntryAt(0xE1) && EntryAt(0xE2) && EntryAt(0xE3)
        && EntryAt(0xE4) && EntryAt(0xE5) && EntryAt(0xE6) && EntryAt(0xE7)
        && EntryAt(0xE8) && EntryAt(0xE9) && EntryAt(0xEA) && EntryAt(0xEB)
        && EntryAt(0xEC) && EntryAt(0xED) && EntryAt(0xEE) && EntryAt(0xEF);
  }

  lemma RowF(i: bv8)
    requires 0xF0 <= i <= 0xFF
    ensures EntryAt(i)
  {
    assert EntryAt(0xF0) && EntryAt(0xF1) && EntryAt(0xF2) && EntryAt(0xF3)
        && EntryAt(0xF4) && EntryAt(0xF5) && EntryAt(0xF6) && EntryAt(0xF7)
        && EntryAt(0xF8) && EntryAt(0xF9) && EntryAt(0xFA) && EntryAt(0xFB)
        && EntryAt(0xFC) && EntryAt(0xFD) && EntryAt(0xFE) && EntryAt(0xFF);
  }

  lemma TableIsLinear(i: bv8)
    ensures TableAt(i) == Entry(i)
  {
    if i < 0x10 { Row0(i); }
    else if i < 0x20 { Row1(i); }
    else if i < 0x30 { Row2(i); }
    else if i < 0x40 { Row3(i); }
    else if i < 0x50 { Row4(i); }
    else if i < 0x60 { Row5(i); }
    else if i < 0x70 { Row6(i); }
    else if i < 0x80 { Row7(i); }
    else if i < 0x90 { Row8(i); }
    else if i < 0xA0 { Row9(i); }
    else if i < 0xB0 { RowA(i); }
    else if i < 0xC0 { RowB(i); }
    else if i < 0xD0 { RowC(i); }
    else if i < 0xE0 { RowD(i); }
    else if i < 0xF0 { RowE(i); }
    else { RowF(i); }
  }

  // ----- register operations -----

  function Xor(a: bv32, b: bv32): bv32 { a ^ b }

  function Shr8(x: bv32): bv32 { x >> 8 }

  function Low(x: bv32): bv8 { (x & 0xFF) as bv8 }

  function Wide(b: bv8): bv32 { b as bv32 }

  function Shl8(b: bv8): bv32 { (b as bv32) << 8 }

  function Shl16(b: bv8): bv32 { (b as bv32) << 16 }

  function Shl24(b: bv8): bv32 { (b as bv32) << 24 }

  // ----- the checksum -----

  /** The register after one zero byte. */
  function Advance(crc: bv32): bv32 {
    hide TableAt;
    Xor(TableAt(Low(crc)), Shr8(crc))
  }

  /** One step of the loop: a byte enters the register by exclusive or. */
  function Step(crc: bv32, b: byte): bv32 {
    Advance(Xor(crc, Wide(b as bv8)))
  }

  function Crc32(crc: bv32, buffer: seq<byte>): bv32
    decreases |buffer|
  {
    hide Step;
    if buffer == [] then crc else Crc32(Step(crc, buffer[0]), buffer[1..])
  }

  method CalcCrc32(crc: bv32, buffer: seq<byte>) returns (r: bv32)
    ensures r == Crc32(crc, buffer)
  {
    hide TableAt, Xor, Shr8, Low, Wide;
    r := crc;
    for i := 0 to |buffer|
      invariant Crc32(r, buffer[i..]) == Crc32(crc, buffer)
    {
      SameShift(r, buffer[i] as bv8);
      r := Xor(TableAt(Low(Xor(r, Wide(buffer[i] as bv8)))), Shr8(r));
      assert buffer[i..][1..] == buffer[i + 1..];
    }
    assert buffer[|buffer|..] == [];
  }

  lemma SameShift(crc: bv32, b: bv8)
    ensures Shr8(Xor(crc, Wide(b))) == Shr8(crc)
  {}

  // ----- the checksum of the standard -----

  /** One shift of the register of Annex A of ISO/IEC 13818-1, reduced by its polynomial. */
  function Reduce(r: bv32): bv32 {
    if TopBit(r) then Xor(Shl1(r), 0x04C1_1DB7) else Shl1(r)
  }

  predicate TopBit(r: bv32) { r & 0x8000_0000 != 0 }

  function Shl1(r: bv32): bv32 { r << 1 }

  function Shift8(r: bv32): bv32 {
    Reduce(Reduce(Reduce(Reduce(Reduce(Reduce(Reduce(Reduce(r))))))))
  }

  /** The program keeps the register with its bytes in the opposite order. */
  function Swap(x: bv32): bv32 {
    (x << 24) | ((x & 0xFF00) << 8) | ((x >> 8) & 0xFF00) | (x >> 24)
  }

  /** The register after the bytes, the most significant bit of each first. */
  function StandardCrc(r: bv32, buffer: seq<byte>): bv32
    decreases |buffer|
  {
    hide Shift8;
    if buffer == [] then r else StandardCrc(Shift8(Xor(r, Shl24(buffer[0] as bv8))), buffer[1..])
  }

  /** Every entry of the table is its index, shifted through the register of the standard. */
  lemma TableIsStandard(i: bv8)
    ensures TableAt(i) == Swap(Shift8(Shl24(i)))
  {
    hide TableAt, Entry, Swap, Shift8, Shl24, Xor;
    var high, low := i & 0xF0, i & 0x0F;
    TableIsLinear(i);
    EntryParts(i);
    HighEntry(high);
    LowEntry(low);
    Shift8Linear(Shl24(high), Shl24(low));
    SwapXor(Shift8(Shl24(high)), Shift8(Shl24(low)));
  }

  lemma EntryParts(i: bv8)
    ensures Entry(i) == Xor(Entry(i & 0xF0), Entry(i & 0x0F)) && Shl24(i) == Xor(Shl24(i & 0xF0), Shl24(i & 0x0F))
    ensures i & 0xF0 & 0x0F == 0 && i & 0x0F & 0xF0 == 0
  {}

  ghost predicate Shifted(i: bv8) {
    Entry(i) == Swap(Shift8(Shl24(i)))
  }

  lemma HighEntry(i: bv8)
    requires i & 0x0F == 0
    ensures Shifted(i)
  {
    assert Shifted(0x00) && Shifted(0x10) && Shifted(0x20) && Shifted(0x30);
    assert Shifted(0x40) && Shifted(0x50) && Shifted(0x60) && Shifted(0x70);
    assert Shifted(0x80) && Shifted(0x90) && Shifted(0xA0) && Shifted(0xB0);
    assert Shifted(0xC0) && Shifted(0xD0) && Shifted(0xE0) && Shifted(0xF0);
  }

  lemma LowEntry(i: bv8)
    requires i & 0xF0 == 0
    ensures Shifted(i)
  {
    assert Shifted(0x00) && Shifted(0x01) && Shifted(0x02) && Shifted(0x03);
    assert Shifted(0x04) && Shifted(0x05) && Shifted(0x06) && Shifted(0x07);
    assert Shifted(0x08) && Shifted(0x09) && Shifted(0x0A) && Shifted(0x0B);
    assert Shifted(0x0C) && Shifted(0x0D) && Shifted(0x0E) && Shifted(0x0F);
  }

  lemma ReduceLinear(a: bv32, b: bv32)
    ensures Reduce(Xor(a, b)) == Xor(Reduce(a), Reduce(b))
  {
    hide Xor, TopBit, Shl1;
    TopBitXor(a, b);
    Shl1Xor(a, b);
    XorMoves(Shl1(a), Shl1(b), 0x04C1_1DB7);
  }

  lemma TopBitXor(a: bv32, b: bv32)
    ensures TopBit(Xor(a, b)) <==> TopBit(a) != TopBit(b)
  {}

  lemma Shl1Xor(a: bv32, b: bv32)
    ensures Shl1(Xor(a, b)) == Xor(Shl1(a), Shl1(b))
  {}

  lemma XorMoves(x: bv32, y: bv32, p: bv32)
    ensures Xor(Xor(x, y), p) == Xor(Xor(x, p), y) == Xor(x, Xor(y, p)) && Xor(Xor(x, p), Xor(y, p)) == Xor(x, y)
  {
    hide Xor;
    Regroup(x, y, p);
    Regroup(x, p, y);
    Commute(p, y);
    Regroup(x, p, Xor(y, p));
    Cancel(p, y);
  }

  lemma Commute(x: bv32, y: bv32)
    ensures Xor(x, y) == Xor(y, x)
  {}

  lemma Cancel(p: bv32, y: bv32)
    ensures Xor(p, Xor(p, y)) == y
  {}

  lemma Shift8Linear(a: bv32, b: bv32)
    ensures Shift8(Xor(a, b)) == Xor(Shift8(a), Shift8(b))
  {
    hide Reduce, Xor;
    var a1, b1 := Reduce(a), Reduce(b);
    ReduceLinear(a, b);
    var a2, b2 := Reduce(a1), Reduce(b1);
    ReduceLinear(a1, b1);
    var a3, b3 := Reduce(a2), Reduce(b2);
    ReduceLinear(a2, b2);
    var a4, b4 := Reduce(a3), Reduce(b3);
    ReduceLinear(a3, b3);
    var a5, b5 := Reduce(a4), Reduce(b4);
    ReduceLinear(a4, b4);
    var a6, b6 := Reduce(a5), Reduce(b5);
    ReduceLinear(a5, b5);
    var a7, b7 := Reduce(a6), Reduce(b6);
    ReduceLinear(a6, b6);
    ReduceLinear(a7, b7);
  }

  /** The register without its top byte. */
  function Rest(r: bv32): bv32 { r & 0x00FF_FFFF }

  lemma RestShifts(r: bv32)
    ensures Shift8(Rest(r)) == Up8(r)
  {}

  lemma SwapParts(x: bv32)
    ensures Swap(x) == Xor(Shl24(Low(x)), Rest(Swap(x)))
  {}

  lemma SwapShift(x: bv32)
    ensures Swap(Shr8(x)) == Up8(Swap(x))
  {
    hide Up8, Shr8;
    var y := Shr8(x);
    ShiftedBytes(x);
  }

  function Up8(x: bv32): bv32 { x << 8 }

  lemma ShiftedBytes(x: bv32)
    ensures var y := Shr8(x);
      (y << 24) | ((y & 0xFF00) << 8) | ((y >> 8) & 0xFF00) | (y >> 24)
      == Up8((x << 24) | ((x & 0xFF00) << 8) | ((x >> 8) & 0xFF00) | (x >> 24))
  {}

  lemma SwapXor(a: bv32, b: bv32)
    ensures Swap(Xor(a, b)) == Xor(Swap(a), Swap(b))
  {}

  lemma SwapSwap(x: bv32)
    ensures Swap(Swap(x)) == x
  {}

  lemma SwapWide(b: bv8)
    ensures Swap(Wide(b)) == Shl24(b)
  {}

  lemma AdvanceIsShift(x: bv32)
    ensures Swap(Advance(x)) == Shift8(Swap(x))
  {
    hide TableAt, Xor, Shr8, Low, Shl24, Swap, Shift8, Rest, Up8;
    SwapXor(TableAt(Low(x)), Shr8(x));
    TableIsStandard(Low(x));
    SwapSwap(Shift8(Shl24(Low(x))));
    SwapParts(x);
    SwapShift(x);
    RestShifts(Swap(x));
    Shift8Linear(Shl24(Low(x)), Rest(Swap(x)));
  }

  /** The table-driven loop computes the checksum of the standard, with the bytes of the register swapped. */
  lemma {:induction false} CrcIsStandard(crc: bv32, buffer: seq<byte>)
    ensures Swap(Crc32(crc, buffer)) == StandardCrc(Swap(crc), buffer)
    decreases |buffer|
  {
    hide Advance, Xor, Wide, Shl24, Swap, Shift8;
    if buffer != [] {
      var b := buffer[0] as bv8;
      CrcIsStandard(Step(crc, buffer[0]), buffer[1..]);
      AdvanceIsShift(Xor(crc, Wide(b)));
      SwapXor(crc, Wide(b));
      SwapWide(b);
    }
  }

  /** The checksum of a concatenation is the checksum of the second part started from that of the first. */
  lemma {:induction false} CrcConcat(crc: bv32, a: seq<byte>, b: seq<byte>)
    ensures Crc32(crc, a + b) == Crc32(Crc32(crc, a), b)
    decreases |a|
  {
    hide Step;
    if a == [] {
      assert a + b == b;
    } else {
      assert (a + b)[1..] == a[1..] + b;
      CrcConcat(Step(crc, a[0]), a[1..], b);
    }
  }

  function LowByte(x: bv32): byte {
    Low(x) as int
  }

  /** The four bytes of a checksum, lowest first. */
  function LittleEndian(crc: bv32): (r: seq<byte>)
    ensures |r| == 4
  {
    [LowByte(crc), LowByte(Shr8(crc)), LowByte(Shr8(Shr8(crc))), LowByte(Shr8(Shr8(Shr8(crc))))]
  }

  /** Feeding the lowest byte of the register shifts it out. */
  lemma StepOwnByte(crc: bv32)
    ensures Step(crc, LowByte(crc)) == Shr8(crc)
  {
    hide TableAt, Xor, Shr8, Low, Wide;
    assert LowByte(crc) as bv8 == Low(crc);
    OwnByte(crc);
    TableIsLinear(0);
    XorZero(Shr8(crc));
    assert Entry(0) == 0;
  }

  lemma OwnByte(crc: bv32)
    ensures Low(Xor(crc, Wide(Low(crc)))) == 0 && Shr8(Xor(crc, Wide(Low(crc)))) == Shr8(crc)
  {}

  lemma XorZero(x: bv32)
    ensures Xor(0, x) == x
  {}

  lemma FourShifts(c: bv32)
    ensures Shr8(Shr8(Shr8(Shr8(c)))) == 0
  {}

  lemma FourBytes(crc: bv32, b: seq<byte>)
    requires |b| == 4
    ensures Crc32(crc, b) == Step(Step(Step(Step(crc, b[0]), b[1]), b[2]), b[3])
  {
    hide Step;
    var b1 := b[1..];
    var b2 := b1[1..];
    var b3 := b2[1..];
    var c1 := Step(crc, b[0]);
    var c2 := Step(c1, b1[0]);
    var c3 := Step(c2, b2[0]);
    assert Crc32(crc, b) == Crc32(c1, b1);
    assert Crc32(c1, b1) == Crc32(c2, b2);
    assert Crc32(c2, b2) == Crc32(c3, b3);
    assert Crc32(c3, b3) == Crc32(Step(c3, b3[0]), b3[1..]);
  }

  /** Data followed by its own checksum in little-endian order checks to zero. */
  lemma CrcResidue(crc: bv32, data: seq<byte>)
    ensures Crc32(crc, data + LittleEndian(Crc32(crc, data))) == 0
  {
    hide Crc32, LittleEndian;
    var c := Crc32(crc, data);
    CrcConcat(crc, data, LittleEndian(c));
    OwnBytes(c);
  }

  lemma OwnBytes(c: bv32)
    ensures Crc32(c, LittleEndian(c)) == 0
  {
    hide Step, Crc32, LowByte, Shr8;
    FourBytes(c, LittleEndian(c));
    StepOwnByte(c);
    StepOwnByte(Shr8(c));
    StepOwnByte(Shr8(Shr8(c)));
    StepOwnByte(Shr8(Shr8(Shr8(c))));
    FourShifts(c);
  }

  // ----- error detection -----

  /** The table index can be recovered from the highest byte of its entry. */
  function Index(top: bv8): bv8 {
    (if top & 0x01 != 0 then 0xA9 else 0)
    ^ (if top & 0x02 != 0 then 0x57 else 0)
    ^ (if top & 0x04 != 0 then 0xAE else 0)
    ^ (if top & 0x08 != 0 then 0x59 else 0)
    ^ (if top & 0x10 != 0 then 0xB2 else 0)
    ^ (if top & 0x20 != 0 then 0x61 else 0)
    ^ (if top & 0x40 != 0 then 0xC3 else 0)
    ^ (if top & 0x80 != 0 then 0x82 else 0)
  }

  function Top(x: bv32): bv8 { ((x >> 24) & 0xFF) as bv8 }

  lemma IndexFromEntry(i: bv8)
    ensures Index(Top(Entry(i))) == i
  {}

  /** The highest byte of the register after a zero byte is that of the table entry. */
  lemma TopOfAdvance(e: bv32, x: bv32)
    ensures Top(Xor(e, Shr8(x))) == Top(e)
  {}

  lemma XorCancels(e: bv32, x: bv32, y: bv32)
    requires Xor(e, Shr8(x)) == Xor(e, Shr8(y)) && Low(x) == Low(y)
    ensures x == y
  {}

  /** Different registers stay different. */
  lemma AdvanceInjective(x: bv32, y: bv32)
    requires Advance(x) == Advance(y)
    ensures x == y
  {
    hide TableAt, Entry, Index, Xor, Shr8, Low, Top;
    TableIsLinear(Low(x));
    TableIsLinear(Low(y));
    TopOfAdvance(Entry(Low(x)), x);
    TopOfAdvance(Entry(Low(y)), y);
    IndexFromEntry(Low(x));
    IndexFromEntry(Low(y));
    XorCancels(Entry(Low(x)), x, y);
  }

  lemma {:induction false} CrcInjective(x: bv32, y: bv32, tail: seq<byte>)
    requires Crc32(x, tail) == Crc32(y, tail)
    ensures x == y
    decreases |tail|
  {
    hide Advance, Xor, Wide;
    if tail != [] {
      CrcInjective(Step(x, tail[0]), Step(y, tail[0]), tail[1..]);
      var w := Wide(tail[0] as bv8);
      AdvanceInjective(Xor(x, w), Xor(y, w));
      XorBoth(x, y, w);
    }
  }

  /** The checksum tells where the covered range begins: bytes that check to zero do not check by the standard with two
      zero bytes in front of them. */
  lemma ZerosInFront(x: seq<byte>)
    requires Crc32(0xFFFF_FFFF, x) == 0
    ensures StandardCrc(0xFFFF_FFFF, [0, 0] + x) != 0
  {
    hide Crc32, StandardCrc;
    CrcIsStandard(0xFFFF_FFFF, [0, 0] + x);
    CrcConcat(0xFFFF_FFFF, [0, 0], x);
    AfterTwoZeros();
    assert Swap(0xFFFF_FFFF) == 0xFFFF_FFFF && Swap(0) == 0;
    SwapSwap(Crc32(0xFFFF_FFFF, [0, 0] + x));
    if Crc32(Crc32(0xFFFF_FFFF, [0, 0]), x) == 0 {
      CrcInjective(Crc32(0xFFFF_FFFF, [0, 0]), 0xFFFF_FFFF, x);
    }
  }

  lemma AfterTwoZeros()
    ensures Crc32(0xFFFF_FFFF, [0, 0]) != 0xFFFF_FFFF
  {
    hide TableAt, Crc32;
    TableIsLinear(0xFF);
    assert Entry(0xFF) == 0xB440F7B1;
    assert Advance(0xFFFF_FFFF) == 0xB4BF084E;
    TableIsLinear(0x4E);
    assert Entry(0x4E) == 0x7DD00808;
    assert Advance(0xB4BF084E) == 0x7D64B700;
    TwoZeros(0xFFFF_FFFF);
  }

  lemma TwoZeros(c: bv32)
    ensures Crc32(c, [0, 0]) == Advance(Advance(c))
  {
    hide Advance;
    ByZero(c);
    ByZero(Advance(c));
    assert [0, 0][1..] == [0] && [0][1..] == [];
  }

  lemma ByZero(c: bv32)
    ensures Step(c, 0) == Advance(c)
  {
    hide Advance;
  }

  lemma XorBoth(x: bv32, y: bv32, w: bv32)
    requires Xor(x, w) == Xor(y, w) || Xor(w, x) == Xor(w, y)
    ensures x == y
  {}

  /** Four bytes as they enter the register. */
  function Word32(b0: bv8, b1: bv8, b2: bv8, b3: bv8): bv32 {
    (b0 as bv32) ^ ((b1 as bv32) << 8) ^ ((b2 as bv32) << 16) ^ ((b3 as bv32) << 24)
  }

  lemma WordParts(b0: bv8, b1: bv8, b2: bv8, b3: bv8)
    ensures Word32(b0, b1, b2, b3) == Xor(Xor(Xor(Wide(b0), Shl8(b1)), Shl16(b2)), Shl24(b3))
  {}

  lemma WordBytes(a: bv8, b: bv8, c: bv8, d: bv8, a': bv8, b': bv8, c': bv8, d': bv8)
    requires Word32(a, b, c, d) == Word32(a', b', c', d')
    ensures a == a' && b == b' && c == c' && d == d'
  {}

  /** Bits above the lowest byte go through a step by a plain shift. */
  lemma AdvanceShift(x: bv32, w: bv32)
    requires Low(w) == 0
    ensures Advance(Xor(x, w)) == Xor(Advance(x), Shr8(w))
  {
    hide TableAt, Xor, Shr8, Low;
    LowXor(x, w);
    ShiftXor(TableAt(Low(x)), x, w);
  }

  lemma LowXor(x: bv32, w: bv32)
    requires Low(w) == 0
    ensures Low(Xor(x, w)) == Low(x)
  {}

  lemma ShiftXor(e: bv32, x: bv32, w: bv32)
    ensures Xor(e, Shr8(Xor(x, w))) == Xor(Xor(e, Shr8(x)), Shr8(w))
  {}

  /** Four steps are four zero-byte steps from the register with the four bytes added in front. */
  lemma FourSteps(crc: bv32, b: seq<byte>)
    requires |b| == 4
    ensures Crc32(crc, b)
         == Advance(Advance(Advance(Advance(Xor(crc, Word32(b[0] as bv8, b[1] as bv8, b[2] as bv8, b[3] as bv8))))))
  {
    hide Advance, Wide, Xor, Word32, Crc32;
    FourBytes(crc, b);
    FourAdvances(crc, b[0] as bv8, b[1] as bv8, b[2] as bv8, b[3] as bv8);
  }

  lemma FourAdvances(c: bv32, b0: bv8, b1: bv8, b2: bv8, b3: bv8)
    ensures Advance(Xor(Advance(Xor(Advance(Xor(Advance(Xor(c, Wide(b0))), Wide(b1))), Wide(b2))), Wide(b3)))
         == Advance(Advance(Advance(Advance(Xor(c, Word32(b0, b1, b2, b3))))))
  {
    hide Advance, Xor, Wide, Word32, Shl8, Shl16, Shl24, Shr8, Low;
    var x0 := Xor(c, Wide(b0));
    var x1, x2 := Xor(x0, Shl8(b1)), Xor(Xor(x0, Shl8(b1)), Shl16(b2));
    Enter(x0, b1);
    Enter(Advance(x1), b2);
    EnterTwo(x1, b2);
    Enter(Advance(Advance(x2)), b3);
    EnterTwo(Advance(x2), b3);
    EnterThree(x2, b3);
    XorAssoc(c, b0, b1, b2, b3);
  }

  lemma Enter(x: bv32, b: bv8)
    ensures Advance(Xor(x, Shl8(b))) == Xor(Advance(x), Wide(b))
  {
    hide Advance, Xor;
    AdvanceShift(x, Shl8(b));
  }

  lemma EnterTwo(x: bv32, b: bv8)
    ensures Advance(Xor(x, Shl16(b))) == Xor(Advance(x), Shl8(b))
  {
    hide Advance, Xor;
    AdvanceShift(x, Shl16(b));
  }

  lemma EnterThree(x: bv32, b: bv8)
    ensures Advance(Xor(x, Shl24(b))) == Xor(Advance(x), Shl16(b))
  {
    hide Advance, Xor;
    AdvanceShift(x, Shl24(b));
  }

  lemma XorAssoc(c: bv32, b0: bv8, b1: bv8, b2: bv8, b3: bv8)
    ensures Xor(c, Word32(b0, b1, b2, b3)) == Xor(Xor(Xor(Xor(c, Wide(b0)), Shl8(b1)), Shl16(b2)), Shl24(b3))
  {
    hide Word32, Xor, Wide, Shl8, Shl16, Shl24;
    WordParts(b0, b1, b2, b3);
    Regroup(c, Xor(Xor(Wide(b0), Shl8(b1)), Shl16(b2)), Shl24(b3));
    Regroup(c, Xor(Wide(b0), Shl8(b1)), Shl16(b2));
    Regroup(c, Wide(b0), Shl8(b1));
  }

  lemma Regroup(x: bv32, y: bv32, z: bv32)
    ensures Xor(x, Xor(y, z)) == Xor(Xor(x, y), z)
  {}

  /** Every change confined to four consecutive bytes changes the checksum. */
  lemma BurstDetected(crc: bv32, head: seq<byte>, b: seq<byte>, b': seq<byte>, tail: seq<byte>)
    requires |b| == |b'| == 4 && b != b'
    ensures Crc32(crc, head + b + tail) != Crc32(crc, head + b' + tail)
  {
    hide Crc32;
    var c := Crc32(crc, head);
    CrcConcat(crc, head, b);
    CrcConcat(crc, head + b, tail);
    CrcConcat(crc, head, b');
    CrcConcat(crc, head + b', tail);
    if Crc32(crc, head + b + tail) == Crc32(crc, head + b' + tail) {
      CrcInjective(Crc32(c, b), Crc32(c, b'), tail);
      FourInjective(c, b, b');
    }
  }

  lemma FourInjective(c: bv32, b: seq<byte>, b': seq<byte>)
    requires |b| == |b'| == 4 && Crc32(c, b) == Crc32(c, b')
    ensures b == b'
  {
    hide Crc32, Advance, Word32, Xor;
    FourSteps(c, b);
    FourSteps(c, b');
    var x := Xor(c, Word32(b[0] as bv8, b[1] as bv8, b[2] as bv8, b[3] as bv8));
    var y := Xor(c, Word32(b'[0] as bv8, b'[1] as bv8, b'[2] as bv8, b'[3] as bv8));
    AdvanceInjective(Advance(Advance(Advance(x))), Advance(Advance(Advance(y))));
    AdvanceInjective(Advance(Advance(x)), Advance(Advance(y)));
    AdvanceInjective(Advance(x), Advance(y));
    AdvanceInjective(x, y);
    XorBoth(Word32(b[0] as bv8, b[1] as bv8, b[2] as bv8, b[3] as bv8),
            Word32(b'[0] as bv8, b'[1] as bv8, b'[2] as bv8, b'[3] as bv8), c);
    SameWords(b, b');
  }

  lemma SameWords(b: seq<byte>, b': seq<byte>)
    requires |b| == |b'| == 4
    requires Word32(b[0] as bv8, b[1] as bv8, b[2] as bv8, b[3] as bv8)
          == Word32(b'[0] as bv8, b'[1] as bv8, b'[2] as bv8, b'[3] as bv8)
    ensures b == b'
  {
    hide Word32;
    WordBytes(b[0] as bv8, b[1] as bv8, b[2] as bv8, b[3] as bv8,
              b'[0] as bv8, b'[1] as bv8, b'[2] as bv8, b'[3] as bv8);
    SameBytes(b[0], b'[0]);
    SameBytes(b[1], b'[1]);
    SameBytes(b[2], b'[2]);
    SameBytes(b[3], b'[3]);
  }

  lemma SameBytes(x: byte, y: byte)
    requires x as bv8 == y as bv8
    ensures x == y
  {
    ByteBack(x);
    ByteBack(y);
  }

  lemma ByteBack(x: byte)
    ensures (x as bv8) as int == x
  {
    if x < 16 {} else if x < 32 {} else if x < 64 {} else if x < 128 {} else if x < 192 {} else {}
  }
}
