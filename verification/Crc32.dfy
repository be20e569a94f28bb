/**
The checksum that guards a firmware download: table-driven CRC-32, related to the bit-serial
polynomial division of section 8 of RFC 1952.
*/
module Crc32 {
  // ---------------------------------------------------------------------------------------------
  // Reference: one message bit at a time
  // ---------------------------------------------------------------------------------------------

  /** The generator polynomial, least significant bit first. */
  const POLYNOMIAL: bv32 := 0xedb88320
  const ONES: bv32 := 0xffffffff

  function Shift(r: bv32): bv32 {
    if r & 1 == 1 then (r >> 1) ^ POLYNOMIAL else r >> 1
  }

  function Shift2(r: bv32): bv32 { Shift(Shift(r)) }

  function Shift4(r: bv32): bv32 { Shift(Shift(Shift(Shift(r)))) }

  function Shift8(r: bv32): bv32 { Shift(Shift(Shift(Shift(Shift(Shift(Shift(Shift(r)))))))) }

  /** Add a byte into the register and divide by the generator, one bit at a time. */
  function DivideByte(r: bv32, b: bv8): bv32 { Shift8(r ^ b as bv32) }

  /** Run a register over a message, byte by byte. */
  function Fold<R>(step: (R, bv8) -> R, r: R, data: seq<bv8>): R
    decreases |data|
  {
    if data == [] then r else Fold(step, step(r, data[0]), data[1..])
  }

  /** The remainder after dividing a message. */
  function Divide(r: bv32, data: seq<bv8>): bv32 { Fold(DivideByte, r, data) }

  /** The checksum of `data` continued from `crc`. */
  function Checksum(crc: bv32, data: seq<bv8>): bv32 {
    Divide(crc ^ ONES, data) ^ ONES
  }

  // ---------------------------------------------------------------------------------------------
  // Source: one table lookup per byte
  // ---------------------------------------------------------------------------------------------

  function Row0(low: bv32): bv32 {
    if low == 0x0 then 0x00000000 else if low == 0x1 then 0x77073096 else if low == 0x2 then 0xee0e612c else if low == 0x3 then 0x990951ba else
    if low == 0x4 then 0x076dc419 else if low == 0x5 then 0x706af48f else if low == 0x6 then 0xe963a535 else if low == 0x7 then 0x9e6495a3 else
    if low == 0x8 then 0x0edb8832 else if low == 0x9 then 0x79dcb8a4 else if low == 0xa then 0xe0d5e91e else if low == 0xb then 0x97d2d988 else
    if low == 0xc then 0x09b64c2b else if low == 0xd then 0x7eb17cbd else if low == 0xe then 0xe7b82d07 else 0x90bf1d91
  }

  function Row1(low: bv32): bv32 {
    if low == 0x0 then 0x1db71064 else if low == 0x1 then 0x6ab020f2 else if low == 0x2 then 0xf3b97148 else if low == 0x3 then 0x84be41de else
    if low == 0x4 then 0x1adad47d else if low == 0x5 then 0x6ddde4eb else if low == 0x6 then 0xf4d4b551 else if low == 0x7 then 0x83d385c7 else
    if low == 0x8 then 0x136c9856 else if low == 0x9 then 0x646ba8c0 else if low == 0xa then 0xfd62f97a else if low == 0xb then 0x8a65c9ec else
    if low == 0xc then 0x14015c4f else if low == 0xd then 0x63066cd9 else if low == 0xe then 0xfa0f3d63 else 0x8d080df5
  }

  function Row2(low: bv32): bv32 {
    if low == 0x0 then 0x3b6e20c8 else if low == 0x1 then 0x4c69105e else if low == 0x2 then 0xd56041e4 else if low == 0x3 then 0xa2677172 else
    if low == 0x4 then 0x3c03e4d1 else if low == 0x5 then 0x4b04d447 else if low == 0x6 then 0xd20d85fd else if low == 0x7 then 0xa50ab56b else
    if low == 0x8 then 0x35b5a8fa else if low == 0x9 then 0x42b2986c else if low == 0xa then 0xdbbbc9d6 else if low == 0xb then 0xacbcf940 else
    if low == 0xc then 0x32d86ce3 else if low == 0xd then 0x45df5c75 else if low == 0xe then 0xdcd60dcf else 0xabd13d59
  }

  function Row3(low: bv32): bv32 {
    if low == 0x0 then 0x26d930ac else if low == 0x1 then 0x51de003a else if low == 0x2 then 0xc8d75180 else if low == 0x3 then 0xbfd06116 else
    if low == 0x4 then 0x21b4f4b5 else if low == 0x5 then 0x56b3c423 else if low == 0x6 then 0xcfba9599 else if low == 0x7 then 0xb8bda50f else
    if low == 0x8 then 0x2802b89e else if low == 0x9 then 0x5f058808 else if low == 0xa then 0xc60cd9b2 else if low == 0xb then 0xb10be924 else
    if low == 0xc then 0x2f6f7c87 else if low == 0xd then 0x58684c11 else if low == 0xe then 0xc1611dab else 0xb6662d3d
  }

  function Row4(low: bv32): bv32 {
    if low == 0x0 then 0x76dc4190 else if low == 0x1 then 0x01db7106 else if low == 0x2 then 0x98d220bc else if low == 0x3 then 0xefd5102a else
    if low == 0x4 then 0x71b18589 else if low == 0x5 then 0x06b6b51f else if low == 0x6 then 0x9fbfe4a5 else if low == 0x7 then 0xe8b8d433 else
    if low == 0x8 then 0x7807c9a2 else if low == 0x9 then 0x0f00f934 else if low == 0xa then 0x9609a88e else if low == 0xb then 0xe10e9818 else
    if low == 0xc then 0x7f6a0dbb else if low == 0xd then 0x086d3d2d else if low == 0xe then 0x91646c97 else 0xe6635c01
  }

  function Row5(low: bv32): bv32 {
    if low == 0x0 then 0x6b6b51f4 else if low == 0x1 then 0x1c6c6162 else if low == 0x2 then 0x856530d8 else if low == 0x3 then 0xf262004e else
    if low == 0x4 then 0x6c0695ed else if low == 0x5 then 0x1b01a57b else if low == 0x6 then 0x8208f4c1 else if low == 0x7 then 0xf50fc457 else
    if low == 0x8 then 0x65b0d9c6 else if low == 0x9 then 0x12b7e950 else if low == 0xa then 0x8bbeb8ea else if low == 0xb then 0xfcb9887c else
    if low == 0xc then 0x62dd1ddf else if low == 0xd then 0x15da2d49 else if low == 0xe then 0x8cd37cf3 else 0xfbd44c65
  }

  function Row6(low: bv32): bv32 {
    if low == 0x0 then 0x4db26158 else if low == 0x1 then 0x3ab551ce else if low == 0x2 then 0xa3bc0074 else if low == 0x3 then 0xd4bb30e2 else
    if low == 0x4 then 0x4adfa541 else if low == 0x5 then 0x3dd895d7 else if low == 0x6 then 0xa4d1c46d else if low == 0x7 then 0xd3d6f4fb else
    if low == 0x8 then 0x4369e96a else if low == 0x9 then 0x346ed9fc else if low == 0xa then 0xad678846 else if low == 0xb then 0xda60b8d0 else
    if low == 0xc then 0x44042d73 else if low == 0xd then 0x33031de5 else if low == 0xe then 0xaa0a4c5f else 0xdd0d7cc9
  }

  function Row7(low: bv32): bv32 {
    if low == 0x0 then 0x5005713c else if low == 0x1 then 0x270241aa else if low == 0x2 then 0xbe0b1010 else if low == 0x3 then 0xc90c2086 else
    if low == 0x4 then 0x5768b525 else if low == 0x5 then 0x206f85b3 else if low == 0x6 then 0xb966d409 else if low == 0x7 then 0xce61e49f else
    if low == 0x8 then 0x5edef90e else if low == 0x9 then 0x29d9c998 else if low == 0xa then 0xb0d09822 else if low == 0xb then 0xc7d7a8b4 else
    if low == 0xc then 0x59b33d17 else if low == 0xd then 0x2eb40d81 else if low == 0xe then 0xb7bd5c3b else 0xc0ba6cad
  }

  function Row8(low: bv32): bv32 {
    if low == 0x0 then 0xedb88320 else if low == 0x1 then 0x9abfb3b6 else if low == 0x2 then 0x03b6e20c else if low == 0x3 then 0x74b1d29a else
    if low == 0x4 then 0xead54739 else if low == 0x5 then 0x9dd277af else if low == 0x6 then 0x04db2615 else if low == 0x7 then 0x73dc1683 else
    if low == 0x8 then 0xe3630b12 else if low == 0x9 then 0x94643b84 else if low == 0xa then 0x0d6d6a3e else if low == 0xb then 0x7a6a5aa8 else
    if low == 0xc then 0xe40ecf0b else if low == 0xd then 0x9309ff9d else if low == 0xe then 0x0a00ae27 else 0x7d079eb1
  }

  function Row9(low: bv32): bv32 {
    if low == 0x0 then 0xf00f9344 else if low == 0x1 then 0x8708a3d2 else if low == 0x2 then 0x1e01f268 else if low == 0x3 then 0x6906c2fe else
    if low == 0x4 then 0xf762575d else if low == 0x5 then 0x806567cb else if low == 0x6 then 0x196c3671 else if low == 0x7 then 0x6e6b06e7 else
    if low == 0x8 then 0xfed41b76 else if low == 0x9 then 0x89d32be0 else if low == 0xa then 0x10da7a5a else if low == 0xb then 0x67dd4acc else
    if low == 0xc then 0xf9b9df6f else if low == 0xd then 0x8ebeeff9 else if low == 0xe then 0x17b7be43 else 0x60b08ed5
  }

  function RowA(low: bv32): bv32 {
    if low == 0x0 then 0xd6d6a3e8 else if low == 0x1 then 0xa1d1937e else if low == 0x2 then 0x38d8c2c4 else if low == 0x3 then 0x4fdff252 else
    if low == 0x4 then 0xd1bb67f1 else if low == 0x5 then 0xa6bc5767 else if low == 0x6 then 0x3fb506dd else if low == 0x7 then 0x48b2364b else
    if low == 0x8 then 0xd80d2bda else if low == 0x9 then 0xaf0a1b4c else if low == 0xa then 0x36034af6 else if low == 0xb then 0x41047a60 else
    if low == 0xc then 0xdf60efc3 else if low == 0xd then 0xa867df55 else if low == 0xe then 0x316e8eef else 0x4669be79
  }

  function RowB(low: bv32): bv32 {
    if low == 0x0 then 0xcb61b38c else if low == 0x1 then 0xbc66831a else if low == 0x2 then 0x256fd2a0 else if low == 0x3 then 0x5268e236 else
    if low == 0x4 then 0xcc0c7795 else if low == 0x5 then 0xbb0b4703 else if low == 0x6 then 0x220216b9 else if low == 0x7 then 0x5505262f else
    if low == 0x8 then 0xc5ba3bbe else if low == 0x9 then 0xb2bd0b28 else if low == 0xa then 0x2bb45a92 else if low == 0xb then 0x5cb36a04 else
    if low == 0xc then 0xc2d7ffa7 else if low == 0xd then 0xb5d0cf31 else if low == 0xe then 0x2cd99e8b else 0x5bdeae1d
  }

  function RowC(low: bv32): bv32 {
    if low == 0x0 then 0x9b64c2b0 else if low == 0x1 then 0xec63f226 else if low == 0x2 then 0x756aa39c else if low == 0x3 then 0x026d930a else
    if low == 0x4 then 0x9c0906a9 else if low == 0x5 then 0xeb0e363f else if low == 0x6 then 0x72076785 else if low == 0x7 then 0x05005713 else
    if low == 0x8 then 0x95bf4a82 else if low == 0x9 then 0xe2b87a14 else if low == 0xa then 0x7bb12bae else if low == 0xb then 0x0cb61b38 else
    if low == 0xc then 0x92d28e9b else if low == 0xd then 0xe5d5be0d else if low == 0xe then 0x7cdcefb7 else 0x0bdbdf21
  }

  function RowD(low: bv32): bv32 {
    if low == 0x0 then 0x86d3d2d4 else if low == 0x1 then 0xf1d4e242 else if low == 0x2 then 0x68ddb3f8 else if low == 0x3 then 0x1fda836e else
    if low == 0x4 then 0x81be16cd else if low == 0x5 then 0xf6b9265b else if low == 0x6 then 0x6fb077e1 else if low == 0x7 then 0x18b74777 else
    if low == 0x8 then 0x88085ae6 else if low == 0x9 then 0xff0f6a70 else if low == 0xa then 0x66063bca else if low == 0xb then 0x11010b5c else
    if low == 0xc then 0x8f659eff else if low == 0xd then 0xf862ae69 else if low == 0xe then 0x616bffd3 else 0x166ccf45
  }

  function RowE(low: bv32): bv32 {
    if low == 0x0 then 0xa00ae278 else if low == 0x1 then 0xd70dd2ee else if low == 0x2 then 0x4e048354 else if low == 0x3 then 0x3903b3c2 else
    if low == 0x4 then 0xa7672661 else if low == 0x5 then 0xd06016f7 else if low == 0x6 then 0x4969474d else if low == 0x7 then 0x3e6e77db else
    if low == 0x8 then 0xaed16a4a else if low == 0x9 then 0xd9d65adc else if low == 0xa then 0x40df0b66 else if low == 0xb then 0x37d83bf0 else
    if low == 0xc then 0xa9bcae53 else if low == 0xd then 0xdebb9ec5 else if low == 0xe then 0x47b2cf7f else 0x30b5ffe9
  }

  function RowF(low: bv32): bv32 {
    if low == 0x0 then 0xbdbdf21c else if low == 0x1 then 0xcabac28a else if low == 0x2 then 0x53b39330 else if low == 0x3 then 0x24b4a3a6 else
    if low == 0x4 then 0xbad03605 else if low == 0x5 then 0xcdd70693 else if low == 0x6 then 0x54de5729 else if low == 0x7 then 0x23d967bf else
    if low == 0x8 then 0xb3667a2e else if low == 0x9 then 0xc4614ab8 else if low == 0xa then 0x5d681b02 else if low == 0xb then 0x2a6f2b94 else
    if low == 0xc then 0xb40bbe37 else if low == 0xd then 0xc30c8ea1 else if low == 0xe then 0x5a05df1b else 0x2d02ef8d
  }

  /** `Crc32Table`, sixteen entries to a row. */
  function Crc32Table(i: bv32): bv32 {
    var row, low := i & 0xf0, i & 0xf;
    if row == 0x00 then Row0(low)
    else if row == 0x10 then Row1(low)
    else if row == 0x20 then Row2(low)
    else if row == 0x30 then Row3(low)
    else if row == 0x40 then Row4(low)
    else if row == 0x50 then Row5(low)
    else if row == 0x60 then Row6(low)
    else if row == 0x70 then Row7(low)
    else if row == 0x80 then Row8(low)
    else if row == 0x90 then Row9(low)
    else if row == 0xa0 then RowA(low)
    else if row == 0xb0 then RowB(low)
    else if row == 0xc0 then RowC(low)
    else if row == 0xd0 then RowD(low)
    else if row == 0xe0 then RowE(low)
    else RowF(low)
  }

  /** The loop body of `CreateCRC32`. */
  function Step(r: bv32, b: bv8): bv32 {
    Crc32Table((r ^ b as bv32) & 0xff) ^ (r >> 8)
  }

  // ---------------------------------------------------------------------------------------------
  // The table, row by row and for every value of the upper 24 register bits
  // ---------------------------------------------------------------------------------------------

  lemma Row0IsDivision(q: bv32)
    requires q & 0xf0 == 0x00
    ensures Row0(q & 0xf) ^ (q >> 8) == Shift8(q)
  {
    var low := q & 0xf;
    if low == 0 {} else if low == 1 {} else if low == 2 {} else if low == 3 {} else if low == 4 {} else if low == 5 {} else if low == 6 {} else if low == 7 {}
    else if low == 8 {} else if low == 9 {} else if low == 10 {} else if low == 11 {} else if low == 12 {} else if low == 13 {} else if low == 14 {}
  }

  lemma Row1IsDivision(q: bv32)
    requires q & 0xf0 == 0x10
    ensures Row1(q & 0xf) ^ (q >> 8) == Shift8(q)
  {
    var low := q & 0xf;
    if low == 0 {} else if low == 1 {} else if low == 2 {} else if low == 3 {} else if low == 4 {} else if low == 5 {} else if low == 6 {} else if low == 7 {}
    else if low == 8 {} else if low == 9 {} else if low == 10 {} else if low == 11 {} else if low == 12 {} else if low == 13 {} else if low == 14 {}
  }

  lemma Row2IsDivision(q: bv32)
    requires q & 0xf0 == 0x20
    ensures Row2(q & 0xf) ^ (q >> 8) == Shift8(q)
  {
    var low := q & 0xf;
    if low == 0 {} else if low == 1 {} else if low == 2 {} else if low == 3 {} else if low == 4 {} else if low == 5 {} else if low == 6 {} else if low == 7 {}
    else if low == 8 {} else if low == 9 {} else if low == 10 {} else if low == 11 {} else if low == 12 {} else if low == 13 {} else if low == 14 {}
  }

  lemma Row3IsDivision(q: bv32)
    requires q & 0xf0 == 0x30
    ensures Row3(q & 0xf) ^ (q >> 8) == Shift8(q)
  {
    var low := q & 0xf;
    if low == 0 {} else if low == 1 {} else if low == 2 {} else if low == 3 {} else if low == 4 {} else if low == 5 {} else if low == 6 {} else if low == 7 {}
    else if low == 8 {} else if low == 9 {} else if low == 10 {} else if low == 11 {} else if low == 12 {} else if low == 13 {} else if low == 14 {}
  }

  lemma Row4IsDivision(q: bv32)
    requires q & 0xf0 == 0x40
    ensures Row4(q & 0xf) ^ (q >> 8) == Shift8(q)
  {
    var low := q & 0xf;
    if low == 0 {} else if low == 1 {} else if low == 2 {} else if low == 3 {} else if low == 4 {} else if low == 5 {} else if low == 6 {} else if low == 7 {}
    else if low == 8 {} else if low == 9 {} else if low == 10 {} else if low == 11 {} else if low == 12 {} else if low == 13 {} else if low == 14 {}
  }

  lemma Row5IsDivision(q: bv32)
    requires q & 0xf0 == 0x50
    ensures Row5(q & 0xf) ^ (q >> 8) == Shift8(q)
  {
    var low := q & 0xf;
    if low == 0 {} else if low == 1 {} else if low == 2 {} else if low == 3 {} else if low == 4 {} else if low == 5 {} else if low == 6 {} else if low == 7 {}
    else if low == 8 {} else if low == 9 {} else if low == 10 {} else if low == 11 {} else if low == 12 {} else if low == 13 {} else if low == 14 {}
  }

  lemma Row6IsDivision(q: bv32)
    requires q & 0xf0 == 0x60
    ensures Row6(q & 0xf) ^ (q >> 8) == Shift8(q)
  {
    var low := q & 0xf;
    if low == 0 {} else if low == 1 {} else if low == 2 {} else if low == 3 {} else if low == 4 {} else if low == 5 {} else if low == 6 {} else if low == 7 {}
    else if low == 8 {} else if low == 9 {} else if low == 10 {} else if low == 11 {} else if low == 12 {} else if low == 13 {} else if low == 14 {}
  }

  lemma Row7IsDivision(q: bv32)
    requires q & 0xf0 == 0x70
    ensures Row7(q & 0xf) ^ (q >> 8) == Shift8(q)
  {
    var low := q & 0xf;
    if low == 0 {} else if low == 1 {} else if low == 2 {} else if low == 3 {} else if low == 4 {} else if low == 5 {} else if low == 6 {} else if low == 7 {}
    else if low == 8 {} else if low == 9 {} else if low == 10 {} else if low == 11 {} else if low == 12 {} else if low == 13 {} else if low == 14 {}
  }

  lemma Row8IsDivision(q: bv32)
    requires q & 0xf0 == 0x80
    ensures Row8(q & 0xf) ^ (q >> 8) == Shift8(q)
  {
    var low := q & 0xf;
    if low == 0 {} else if low == 1 {} else if low == 2 {} else if low == 3 {} else if low == 4 {} else if low == 5 {} else if low == 6 {} else if low == 7 {}
    else if low == 8 {} else if low == 9 {} else if low == 10 {} else if low == 11 {} else if low == 12 {} else if low == 13 {} else if low == 14 {}
  }

  lemma Row9IsDivision(q: bv32)
    requires q & 0xf0 == 0x90
    ensures Row9(q & 0xf) ^ (q >> 8) == Shift8(q)
  {
    var low := q & 0xf;
    if low == 0 {} else if low == 1 {} else if low == 2 {} else if low == 3 {} else if low == 4 {} else if low == 5 {} else if low == 6 {} else if low == 7 {}
    else if low == 8 {} else if low == 9 {} else if low == 10 {} else if low == 11 {} else if low == 12 {} else if low == 13 {} else if low == 14 {}
  }

  lemma RowAIsDivision(q: bv32)
    requires q & 0xf0 == 0xa0
    ensures RowA(q & 0xf) ^ (q >> 8) == Shift8(q)
  {
    var low := q & 0xf;
    if low == 0 {} else if low == 1 {} else if low == 2 {} else if low == 3 {} else if low == 4 {} else if low == 5 {} else if low == 6 {} else if low == 7 {}
    else if low == 8 {} else if low == 9 {} else if low == 10 {} else if low == 11 {} else if low == 12 {} else if low == 13 {} else if low == 14 {}
  }

  lemma RowBIsDivision(q: bv32)
    requires q & 0xf0 == 0xb0
    ensures RowB(q & 0xf) ^ (q >> 8) == Shift8(q)
  {
    var low := q & 0xf;
    if low == 0 {} else if low == 1 {} else if low == 2 {} else if low == 3 {} else if low == 4 {} else if low == 5 {} else if low == 6 {} else if low == 7 {}
    else if low == 8 {} else if low == 9 {} else if low == 10 {} else if low == 11 {} else if low == 12 {} else if low == 13 {} else if low == 14 {}
  }

  lemma RowCIsDivision(q: bv32)
    requires q & 0xf0 == 0xc0
    ensures RowC(q & 0xf) ^ (q >> 8) == Shift8(q)
  {
    var low := q & 0xf;
    if low == 0 {} else if low == 1 {} else if low == 2 {} else if low == 3 {} else if low == 4 {} else if low == 5 {} else if low == 6 {} else if low == 7 {}
    else if low == 8 {} else if low == 9 {} else if low == 10 {} else if low == 11 {} else if low == 12 {} else if low == 13 {} else if low == 14 {}
  }

  lemma RowDIsDivision(q: bv32)
    requires q & 0xf0 == 0xd0
    ensures RowD(q & 0xf) ^ (q >> 8) == Shift8(q)
  {
    var low := q & 0xf;
    if low == 0 {} else if low == 1 {} else if low == 2 {} else if low == 3 {} else if low == 4 {} else if low == 5 {} else if low == 6 {} else if low == 7 {}
    else if low == 8 {} else if low == 9 {} else if low == 10 {} else if low == 11 {} else if low == 12 {} else if low == 13 {} else if low == 14 {}
  }

  lemma RowEIsDivision(q: bv32)
    requires q & 0xf0 == 0xe0
    ensures RowE(q & 0xf) ^ (q >> 8) == Shift8(q)
  {
    var low := q & 0xf;
    if low == 0 {} else if low == 1 {} else if low == 2 {} else if low == 3 {} else if low == 4 {} else if low == 5 {} else if low == 6 {} else if low == 7 {}
    else if low == 8 {} else if low == 9 {} else if low == 10 {} else if low == 11 {} else if low == 12 {} else if low == 13 {} else if low == 14 {}
  }

  lemma RowFIsDivision(q: bv32)
    requires q & 0xf0 == 0xf0
    ensures RowF(q & 0xf) ^ (q >> 8) == Shift8(q)
  {
    var low := q & 0xf;
    if low == 0 {} else if low == 1 {} else if low == 2 {} else if low == 3 {} else if low == 4 {} else if low == 5 {} else if low == 6 {} else if low == 7 {}
    else if low == 8 {} else if low == 9 {} else if low == 10 {} else if low == 11 {} else if low == 12 {} else if low == 13 {} else if low == 14 {}
  }

  /** The entry looked up for `q` and the rest of the register make up `t`. */
  predicate LookupGives(q: bv32, t: bv32) { Crc32Table(q & 0xff) ^ (q >> 8) == t }

  lemma Row0Lookup(q: bv32, t: bv32)
    requires q & 0xf0 == 0x00 && Row0(q & 0xf) ^ (q >> 8) == t
    ensures LookupGives(q, t)
  {
    assert (q & 0xff) & 0xf0 == 0x00 && (q & 0xff) & 0xf == q & 0xf;
  }

  lemma Row1Lookup(q: bv32, t: bv32)
    requires q & 0xf0 == 0x10 && Row1(q & 0xf) ^ (q >> 8) == t
    ensures LookupGives(q, t)
  {
    assert (q & 0xff) & 0xf0 == 0x10 && (q & 0xff) & 0xf == q & 0xf;
  }

  lemma Row2Lookup(q: bv32, t: bv32)
    requires q & 0xf0 == 0x20 && Row2(q & 0xf) ^ (q >> 8) == t
    ensures LookupGives(q, t)
  {
    assert (q & 0xff) & 0xf0 == 0x20 && (q & 0xff) & 0xf == q & 0xf;
  }

  lemma Row3Lookup(q: bv32, t: bv32)
    requires q & 0xf0 == 0x30 && Row3(q & 0xf) ^ (q >> 8) == t
    ensures LookupGives(q, t)
  {
    assert (q & 0xff) & 0xf0 == 0x30 && (q & 0xff) & 0xf == q & 0xf;
  }

  lemma Row4Lookup(q: bv32, t: bv32)
    requires q & 0xf0 == 0x40 && Row4(q & 0xf) ^ (q >> 8) == t
    ensures LookupGives(q, t)
  {
    assert (q & 0xff) & 0xf0 == 0x40 && (q & 0xff) & 0xf == q & 0xf;
  }

  lemma Row5Lookup(q: bv32, t: bv32)
    requires q & 0xf0 == 0x50 && Row5(q & 0xf) ^ (q >> 8) == t
    ensures LookupGives(q, t)
  {
    assert (q & 0xff) & 0xf0 == 0x50 && (q & 0xff) & 0xf == q & 0xf;
  }

  lemma Row6Lookup(q: bv32, t: bv32)
    requires q & 0xf0 == 0x60 && Row6(q & 0xf) ^ (q >> 8) == t
    ensures LookupGives(q, t)
  {
    assert (q & 0xff) & 0xf0 == 0x60 && (q & 0xff) & 0xf == q & 0xf;
  }

  lemma Row7Lookup(q: bv32, t: bv32)
    requires q & 0xf0 == 0x70 && Row7(q & 0xf) ^ (q >> 8) == t
    ensures LookupGives(q, t)
  {
    assert (q & 0xff) & 0xf0 == 0x70 && (q & 0xff) & 0xf == q & 0xf;
  }

  lemma Row8Lookup(q: bv32, t: bv32)
    requires q & 0xf0 == 0x80 && Row8(q & 0xf) ^ (q >> 8) == t
    ensures LookupGives(q, t)
  {
    assert (q & 0xff) & 0xf0 == 0x80 && (q & 0xff) & 0xf == q & 0xf;
  }

  lemma Row9Lookup(q: bv32, t: bv32)
    requires q & 0xf0 == 0x90 && Row9(q & 0xf) ^ (q >> 8) == t
    ensures LookupGives(q, t)
  {
    assert (q & 0xff) & 0xf0 == 0x90 && (q & 0xff) & 0xf == q & 0xf;
  }

  lemma RowALookup(q: bv32, t: bv32)
    requires q & 0xf0 == 0xa0 && RowA(q & 0xf) ^ (q >> 8) == t
    ensures LookupGives(q, t)
  {
    assert (q & 0xff) & 0xf0 == 0xa0 && (q & 0xff) & 0xf == q & 0xf;
  }

  lemma RowBLookup(q: bv32, t: bv32)
    requires q & 0xf0 == 0xb0 && RowB(q & 0xf) ^ (q >> 8) == t
    ensures LookupGives(q, t)
  {
    assert (q & 0xff) & 0xf0 == 0xb0 && (q & 0xff) & 0xf == q & 0xf;
  }

  lemma RowCLookup(q: bv32, t: bv32)
    requires q & 0xf0 == 0xc0 && RowC(q & 0xf) ^ (q >> 8) == t
    ensures LookupGives(q, t)
  {
    assert (q & 0xff) & 0xf0 == 0xc0 && (q & 0xff) & 0xf == q & 0xf;
  }

  lemma RowDLookup(q: bv32, t: bv32)
    requires q & 0xf0 == 0xd0 && RowD(q & 0xf) ^ (q >> 8) == t
    ensures LookupGives(q, t)
  {
    assert (q & 0xff) & 0xf0 == 0xd0 && (q & 0xff) & 0xf == q & 0xf;
  }

  lemma RowELookup(q: bv32, t: bv32)
    requires q & 0xf0 == 0xe0 && RowE(q & 0xf) ^ (q >> 8) == t
    ensures LookupGives(q, t)
  {
    assert (q & 0xff) & 0xf0 == 0xe0 && (q & 0xff) & 0xf == q & 0xf;
  }

  lemma RowFSelected(i: bv32)
    requires i & 0xf0 == 0xf0
    ensures Crc32Table(i) == RowF(i & 0xf)
  {
  }

  lemma RowFLookup(q: bv32, t: bv32)
    requires q & 0xf0 == 0xf0 && RowF(q & 0xf) ^ (q >> 8) == t
    ensures LookupGives(q, t)
  {
    assert (q & 0xff) & 0xf0 == 0xf0 && (q & 0xff) & 0xf == q & 0xf;
    RowFSelected(q & 0xff);
  }

  lemma RowsCover(q: bv32)
    ensures var row := q & 0xf0;
      || row == 0x00 || row == 0x10 || row == 0x20 || row == 0x30 || row == 0x40 || row == 0x50 || row == 0x60 || row == 0x70
      || row == 0x80 || row == 0x90 || row == 0xa0 || row == 0xb0 || row == 0xc0 || row == 0xd0 || row == 0xe0 || row == 0xf0
  {
  }

  /** A table lookup on the low byte divides the whole register by the generator, eight bits at a time. */
  lemma LookupIsDivision(q: bv32)
    ensures LookupGives(q, Shift8(q))
  {
    RowsCover(q);
    var row := q & 0xf0;
    if row == 0x00 { Row0IsDivision(q); Row0Lookup(q, Shift8(q)); }
    if row == 0x10 { Row1IsDivision(q); Row1Lookup(q, Shift8(q)); }
    if row == 0x20 { Row2IsDivision(q); Row2Lookup(q, Shift8(q)); }
    if row == 0x30 { Row3IsDivision(q); Row3Lookup(q, Shift8(q)); }
    if row == 0x40 { Row4IsDivision(q); Row4Lookup(q, Shift8(q)); }
    if row == 0x50 { Row5IsDivision(q); Row5Lookup(q, Shift8(q)); }
    if row == 0x60 { Row6IsDivision(q); Row6Lookup(q, Shift8(q)); }
    if row == 0x70 { Row7IsDivision(q); Row7Lookup(q, Shift8(q)); }
    if row == 0x80 { Row8IsDivision(q); Row8Lookup(q, Shift8(q)); }
    if row == 0x90 { Row9IsDivision(q); Row9Lookup(q, Shift8(q)); }
    if row == 0xa0 { RowAIsDivision(q); RowALookup(q, Shift8(q)); }
    if row == 0xb0 { RowBIsDivision(q); RowBLookup(q, Shift8(q)); }
    if row == 0xc0 { RowCIsDivision(q); RowCLookup(q, Shift8(q)); }
    if row == 0xd0 { RowDIsDivision(q); RowDLookup(q, Shift8(q)); }
    if row == 0xe0 { RowEIsDivision(q); RowELookup(q, Shift8(q)); }
    if row == 0xf0 { RowFIsDivision(q); RowFLookup(q, Shift8(q)); }
  }

  lemma StepIsLookup(r: bv32, b: bv8, q: bv32, t: bv32)
    requires q == r ^ b as bv32 && LookupGives(q, t)
    ensures Step(r, b) == t
  {
    assert q >> 8 == r >> 8;
  }

  /** The table step is the bitwise division of one byte. */
  lemma StepIsDivision(r: bv32, b: bv8)
    ensures Step(r, b) == DivideByte(r, b)
  {
    var q := r ^ b as bv32;
    LookupIsDivision(q);
    StepIsLookup(r, b, q, Shift8(q));
  }

  // ---------------------------------------------------------------------------------------------
  // Whole buffers
  // ---------------------------------------------------------------------------------------------

  lemma {:induction false} FoldAppend<R>(step: (R, bv8) -> R, r: R, a: seq<bv8>, b: seq<bv8>)
    ensures Fold(step, r, a + b) == Fold(step, Fold(step, r, a), b)
    decreases |a|
  {
    if a == [] {
      assert a + b == b;
    } else {
      assert (a + b)[0] == a[0] && (a + b)[1..] == a[1..] + b;
      FoldAppend(step, step(r, a[0]), a[1..], b);
    }
  }

  lemma DivideAppend(r: bv32, a: seq<bv8>, b: seq<bv8>)
    ensures Divide(r, a + b) == Divide(Divide(r, a), b)
  {
    FoldAppend(DivideByte, r, a, b);
  }

  lemma FoldOne<R>(step: (R, bv8) -> R, r: R, b: bv8)
    ensures Fold(step, r, [b]) == step(r, b)
  {
    assert [b][1..] == [];
    assert Fold(step, step(r, b), [b][1..]) == step(r, b);
  }

  lemma DivideOne(r: bv32, b: bv8)
    ensures Divide(r, [b]) == DivideByte(r, b)
  {
    FoldOne(DivideByte, r, b);
  }

  /** The table-driven loop computes the bitwise checksum, continued from `crc`. */
  method CreateCRC32(crc: bv32, buffer: seq<bv8>) returns (result: bv32)
    ensures result == Checksum(crc, buffer)
  {
    if |buffer| == 0 {
      assert crc ^ ONES ^ ONES == crc;
      return crc;
    }
    var r := crc ^ ONES;
    var i := 0;
    while i < |buffer|
      invariant i <= |buffer| && r == Divide(crc ^ ONES, buffer[..i])
    {
      assert buffer[..i + 1] == buffer[..i] + [buffer[i]];
      DivideAppend(crc ^ ONES, buffer[..i], [buffer[i]]);
      DivideOne(r, buffer[i]);
      StepIsDivision(r, buffer[i]);
      r := Step(r, buffer[i]);
      i := i + 1;
    }
    assert buffer[..i] == buffer;
    result := r ^ ONES;
  }

  lemma TwiceOnes(x: bv32)
    ensures (x ^ ONES) ^ ONES == x
  {
  }

  /** Continuing over a split input is one pass over the whole. */
  lemma ChecksumAppend(crc: bv32, a: seq<bv8>, b: seq<bv8>)
    ensures Checksum(crc, a + b) == Checksum(Checksum(crc, a), b)
  {
    var r := Divide(crc ^ ONES, a);
    DivideAppend(crc ^ ONES, a, b);
    assert Checksum(crc, a) ^ ONES == r by { TwiceOnes(r); }
  }

  // ---------------------------------------------------------------------------------------------
  // The residue
  // ---------------------------------------------------------------------------------------------

  lemma EvenXor(x: bv32, y: bv32)
    requires x & 1 != 1 && y & 1 != 1
    ensures Shift(x ^ y) == Shift(x) ^ Shift(y)
  {
  }

  lemma MixedXor(x: bv32, y: bv32)
    requires x & 1 == 1 && y & 1 != 1
    ensures Shift(x ^ y) == Shift(x) ^ Shift(y) && Shift(y ^ x) == Shift(y) ^ Shift(x)
  {
  }

  lemma OddXor(x: bv32, y: bv32)
    requires x & 1 == 1 && y & 1 == 1
    ensures Shift(x ^ y) == Shift(x) ^ Shift(y)
  {
  }

  /** Division is linear over xor. */
  lemma ShiftXor(x: bv32, y: bv32)
    ensures Shift(x ^ y) == Shift(x) ^ Shift(y)
  {
    if x & 1 == 1 {
      if y & 1 == 1 { OddXor(x, y); } else { MixedXor(x, y); }
    } else {
      if y & 1 == 1 { MixedXor(y, x); } else { EvenXor(x, y); }
    }
  }

  function Xor(x: bv32, y: bv32): bv32 { x ^ y }

  function Up(x: bv32): bv32 { x << 8 }

  lemma EightTimes<R(!new)>(f: R -> R, xor: (R, R) -> R, x: R, y: R)
    requires forall a, b :: f(xor(a, b)) == xor(f(a), f(b))
    ensures f(f(f(f(f(f(f(f(xor(x, y))))))))) == xor(f(f(f(f(f(f(f(f(x)))))))), f(f(f(f(f(f(f(f(y)))))))))
  {
  }

  lemma Shift8Xor(x: bv32, y: bv32)
    ensures Shift8(Xor(x, y)) == Xor(Shift8(x), Shift8(y))
  {
    forall a, b ensures Shift(Xor(a, b)) == Xor(Shift(a), Shift(b)) { ShiftXor(a, b); }
    EightTimes(Shift, Xor, x, y);
  }

  /** Without low bits there is no feedback. */
  lemma ShiftHigh(y: bv32, u: bv32)
    requires y < 0x80000000 && u == y << 1
    ensures Shift(u) == y
  {
  }

  lemma Shift2High(y: bv32, u: bv32)
    requires y < 0x40000000 && u == y << 2
    ensures Shift2(u) == y
  {
    ShiftHigh(y << 1, u);
    ShiftHigh(y, y << 1);
  }

  lemma Shift4High(y: bv32, u: bv32)
    requires y < 0x10000000 && u == y << 4
    ensures Shift4(u) == y
  {
    Shift2High(y << 2, u);
    Shift2High(y, y << 2);
  }

  lemma Shift8High(y: bv32, u: bv32)
    requires y < 0x1000000 && u == y << 8
    ensures Shift8(u) == y
  {
    Shift4High(y << 4, u);
    Shift4High(y, y << 4);
  }

  /** Bytes that come later can be added in now, one place further up each. */
  lemma Gather<R(!new)>(s: R -> R, xor: (R, R) -> R, up: R -> R, r: R, a: R, b: R, c: R, d: R, cd: R, bcd: R, w: R)
    requires forall x, y :: s(xor(x, y)) == xor(s(x), s(y))
    requires forall x, y, z :: xor(xor(x, y), z) == xor(x, xor(y, z))
    requires cd == xor(c, up(d)) && bcd == xor(b, up(cd)) && w == xor(a, up(bcd))
    requires s(up(d)) == d && s(up(cd)) == cd && s(up(bcd)) == bcd
    ensures s(xor(s(xor(s(xor(s(xor(r, a)), b)), c)), d)) == s(s(s(s(xor(r, w)))))
  {
    var r1 := s(xor(r, a));
    var r2 := s(xor(r1, b));
    var r3 := s(xor(r2, c));
    assert xor(r3, d) == s(xor(r2, cd)) by { assert xor(xor(r2, c), up(d)) == xor(r2, cd); }
    assert xor(r2, cd) == s(xor(r1, bcd)) by { assert xor(xor(r1, b), up(cd)) == xor(r1, bcd); }
    assert xor(r1, bcd) == s(xor(r, w)) by { assert xor(xor(r, a), up(bcd)) == xor(r, w); }
  }

  /** The four bytes of a word, least significant first. */
  function LittleEndian(w: bv32): seq<bv8> {
    [(w & 0xff) as bv8, ((w >> 8) & 0xff) as bv8, ((w >> 16) & 0xff) as bv8, ((w >> 24) & 0xff) as bv8]
  }

  lemma DivideMore(r: bv32, b: bv8, rest: seq<bv8>)
    ensures Divide(r, [b] + rest) == Divide(DivideByte(r, b), rest)
  {
    DivideAppend(r, [b], rest);
    DivideOne(r, b);
  }

  lemma DivideFour(r: bv32, a: bv8, b: bv8, c: bv8, d: bv8, r1: bv32, r2: bv32, r3: bv32)
    requires r1 == DivideByte(r, a) && r2 == DivideByte(r1, b) && r3 == DivideByte(r2, c)
    ensures Divide(r, [a, b, c, d]) == DivideByte(r3, d)
  {
    assert [a, b, c, d] == [a] + ([b] + ([c] + [d]));
    DivideMore(r, a, [b] + ([c] + [d]));
    DivideMore(r1, b, [c] + [d]);
    DivideMore(r2, c, [d]);
    DivideOne(r3, d);
  }

  lemma BytesJoin(w: bv32, a: bv32, b: bv32, c: bv32, d: bv32, cd: bv32, bcd: bv32)
    requires a == w & 0xff && b == (w >> 8) & 0xff && c == (w >> 16) & 0xff && d == (w >> 24) & 0xff
    requires cd == Xor(c, Up(d)) && bcd == Xor(b, Up(cd))
    ensures w == Xor(a, Up(bcd))
    ensures d < 0x1000000 && cd < 0x1000000 && bcd < 0x1000000
  {
  }

  lemma Shift8Up(y: bv32)
    requires y < 0x1000000
    ensures Shift8(Up(y)) == y
  {
    Shift8High(y, Up(y));
  }

  lemma JoinXor(x: bv32, y: bv32, z: bv32)
    ensures Xor(Xor(x, y), z) == Xor(x, Xor(y, z))
  {
  }

  lemma JoinBytes(w: bv32, a: bv32, b: bv32, c: bv32, d: bv32) returns (cd: bv32, bcd: bv32)
    requires a == w & 0xff && b == (w >> 8) & 0xff && c == (w >> 16) & 0xff && d == (w >> 24) & 0xff
    ensures cd == Xor(c, Up(d)) && bcd == Xor(b, Up(cd)) && w == Xor(a, Up(bcd))
    ensures Shift8(Up(d)) == d && Shift8(Up(cd)) == cd && Shift8(Up(bcd)) == bcd
  {
    cd := Xor(c, Up(d));
    bcd := Xor(b, Up(cd));
    BytesJoin(w, a, b, c, d, cd, bcd);
    Shift8Up(d);
    Shift8Up(cd);
    Shift8Up(bcd);
  }

  lemma XorLaws()
    ensures forall x, y :: Shift8(Xor(x, y)) == Xor(Shift8(x), Shift8(y))
    ensures forall x, y, z :: Xor(Xor(x, y), z) == Xor(x, Xor(y, z))
  {
    forall x, y ensures Shift8(Xor(x, y)) == Xor(Shift8(x), Shift8(y)) { Shift8Xor(x, y); }
    forall x, y, z ensures Xor(Xor(x, y), z) == Xor(x, Xor(y, z)) { JoinXor(x, y, z); }
  }

  lemma GatherBytes(r: bv32, w: bv32, a: bv32, b: bv32, c: bv32, d: bv32)
    requires a == w & 0xff && b == (w >> 8) & 0xff && c == (w >> 16) & 0xff && d == (w >> 24) & 0xff
    ensures Shift8(Xor(Shift8(Xor(Shift8(Xor(Shift8(Xor(r, a)), b)), c)), d)) == Shift8(Shift8(Shift8(Shift8(Xor(r, w)))))
  {
    var cd, bcd := JoinBytes(w, a, b, c, d);
    XorLaws();
    Gather(Shift8, Xor, Up, r, a, b, c, d, cd, bcd, w);
  }

  lemma ByteOf(r: bv32, x: bv32, b: bv8)
    requires x < 0x100 && b == x as bv8
    ensures DivideByte(r, b) == Shift8(Xor(r, x))
  {
  }

  /** The register after four bytes depends on nothing but the register xor these bytes. */
  lemma DivideWord(r: bv32, w: bv32)
    ensures Divide(r, LittleEndian(w)) == Shift8(Shift8(Shift8(Shift8(Xor(r, w)))))
  {
    var a, b, c, d := w & 0xff, (w >> 8) & 0xff, (w >> 16) & 0xff, (w >> 24) & 0xff;
    var bytes := LittleEndian(w);
    var r1 := Shift8(Xor(r, a));
    var r2 := Shift8(Xor(r1, b));
    var r3 := Shift8(Xor(r2, c));
    ByteOf(r, a, bytes[0]);
    ByteOf(r1, b, bytes[1]);
    ByteOf(r2, c, bytes[2]);
    ByteOf(r3, d, bytes[3]);
    DivideFour(r, bytes[0], bytes[1], bytes[2], bytes[3], r1, r2, r3);
    GatherBytes(r, w, a, b, c, d);
  }

  lemma InvertedXor(r: bv32)
    ensures Xor(r, r ^ ONES) == 0xffffffff
  {
  }

  lemma AllOnesDivided()
    ensures Shift8(Shift8(Shift8(Shift8(0xffffffff)))) == 0xdebb20e3
  {
    assert Shift8(0xffffffff) == 0x2dfd1072;
    assert Shift8(0x2dfd1072) == 0xbe26ed00;
    assert Shift8(0xbe26ed00) == 0x00be26ed;
    assert Shift8(0x00be26ed) == 0xdebb20e3;
  }

  /** A message followed by its own checksum, continued from any value, always has this one. */
  lemma Residue(crc: bv32, data: seq<bv8>)
    ensures Checksum(crc, data + LittleEndian(Checksum(crc, data))) == 0x2144df1c
  {
    var r := Divide(crc ^ ONES, data);
    var w := Checksum(crc, data);
    DivideAppend(crc ^ ONES, data, LittleEndian(w));
    DivideWord(r, w);
    InvertedXor(r);
    AllOnesDivided();
  }

  // ---------------------------------------------------------------------------------------------
  // Burst errors
  // ---------------------------------------------------------------------------------------------

  lemma ShiftBack(p: bv32, q: bv32, d: bv32)
    requires d == Shift(p) ^ Shift(q) && d < 0x80000000
    ensures p ^ q == d << 1
  {
  }

  lemma Shift2Back(p: bv32, q: bv32, d: bv32)
    requires d == Shift2(p) ^ Shift2(q) && d < 0x40000000
    ensures p ^ q == d << 2
  {
    ShiftBack(Shift(p), Shift(q), d);
    ShiftBack(p, q, d << 1);
  }

  lemma Shift4Back(p: bv32, q: bv32, d: bv32)
    requires d == Shift4(p) ^ Shift4(q) && d < 0x10000000
    ensures p ^ q == d << 4
  {
    Shift2Back(Shift2(p), Shift2(q), d);
    Shift2Back(p, q, d << 2);
  }

  /** A register difference whose top byte is clear came out of the eight shifts untouched by feedback. */
  lemma Shift8Back(p: bv32, q: bv32, d: bv32)
    requires d == Shift8(p) ^ Shift8(q) && d < 0x1000000
    ensures p ^ q == d << 8
  {
    Shift4Back(Shift4(p), Shift4(q), d);
    Shift4Back(p, q, d << 4);
  }

  /** The difference `d` fits into `k` bytes. */
  predicate Within(d: bv32, k: nat) {
    if k == 0 then d == 0
    else if k == 1 then d < 0x100
    else if k == 2 then d < 0x10000
    else if k == 3 then d < 0x1000000
    else true
  }

  lemma WithinThree(d: bv32, k: nat)
    requires k < 4 && Within(d, k)
    ensures d < 0x1000000
  {
  }

  lemma XorSwap(r: bv32, s: bv32, a: bv32, b: bv32)
    ensures (r ^ a) ^ (s ^ b) == (r ^ s) ^ (a ^ b)
  {
  }

  lemma SameXor(r: bv32, s: bv32)
    ensures r == s <==> r ^ s == 0
  {
  }

  lemma ByteXor(a: bv8, b: bv8)
    ensures a as bv32 ^ b as bv32 < 0x100 && (a as bv32 ^ b as bv32 == 0 ==> a == b)
  {
  }

  lemma LowPart(e: bv32, c: bv32, d: bv32, k: nat)
    requires e ^ c == d << 8 && c < 0x100 && k < 4 && Within(d, k)
    ensures Within(e, k + 1)
    ensures e == 0 ==> c == 0 && d == 0
  {
  }

  lemma ByteBack(r: bv32, s: bv32, a: bv8, b: bv8, p: bv32, q: bv32, d: bv32, k: nat)
    requires p == r ^ a as bv32 && q == s ^ b as bv32 && p ^ q == d << 8 && k < 4 && Within(d, k)
    ensures Within(r ^ s, k + 1)
    ensures r == s ==> a == b && d == 0
  {
    XorSwap(r, s, a as bv32, b as bv32);
    ByteXor(a, b);
    SameXor(r, s);
    LowPart(r ^ s, a as bv32 ^ b as bv32, d, k);
  }

  /** One byte back, the difference grows by at most that byte; equal registers had equal bytes. */
  lemma DivideByteBack(r: bv32, s: bv32, a: bv8, b: bv8, p: bv32, q: bv32, d: bv32, k: nat)
    requires p == r ^ a as bv32 && q == s ^ b as bv32
    requires d == Shift8(p) ^ Shift8(q) && k < 4 && Within(d, k)
    ensures Within(r ^ s, k + 1)
    ensures r == s ==> a == b && d == 0
    ensures d == 0 ==> p == q
  {
    WithinThree(d, k);
    Shift8Back(p, q, d);
    ByteBack(r, s, a, b, p, q, d, k);
    SameXor(p, q);
  }

  lemma BurstStep(r: bv32, s: bv32, a: bv8, b: bv8, r': bv32, s': bv32, k: nat)
    requires r' == DivideByte(r, a) && s' == DivideByte(s, b) && k < 4 && Within(r' ^ s', k)
    ensures Within(r ^ s, k + 1)
    ensures r == s ==> a == b && r' == s'
  {
    DivideByteBack(r, s, a, b, r ^ a as bv32, s ^ b as bv32, r' ^ s', k);
    SameXor(r', s');
  }

  predicate Near(r: bv32, s: bv32, k: nat) { Within(r ^ s, k) }

  ghost predicate StepsBack<R(!new)>(step: (R, bv8) -> R, near: (R, R, nat) -> bool, r: R, s: R, a: bv8, b: bv8, k: nat) {
    near(step(r, a), step(s, b), k) ==> near(r, s, k + 1) && (r == s ==> a == b && step(r, a) == step(s, b))
  }

  /** Up to four bytes back, equal registers differ by no more than those bytes can make up for. */
  lemma {:induction false} BurstBack<R(!new)>(step: (R, bv8) -> R, near: (R, R, nat) -> bool, r: R, s: R,
                                             u: seq<bv8>, v: seq<bv8>)
    requires forall x :: near(x, x, 0)
    requires forall x, y, a, b, k: nat | k < 4 :: StepsBack(step, near, x, y, a, b, k)
    requires |u| == |v| <= 4 && Fold(step, r, u) == Fold(step, s, v)
    ensures near(r, s, |u|)
    ensures r == s ==> u == v
    decreases |u|
  {
    if u != [] {
      BurstBack(step, near, step(r, u[0]), step(s, v[0]), u[1..], v[1..]);
      assert StepsBack(step, near, r, s, u[0], v[0], |u| - 1);
      assert u == [u[0]] + u[1..] && v == [v[0]] + v[1..];
    }
  }

  lemma EqualIsNear(x: bv32)
    ensures Near(x, x, 0)
  {
    SameXor(x, x);
  }

  /** From one register, different bursts of up to four bytes lead to different registers. */
  lemma BurstsDiffer(r: bv32, u: seq<bv8>, v: seq<bv8>)
    requires |u| == |v| <= 4 && Divide(r, u) == Divide(r, v)
    ensures u == v
  {
    forall x ensures Near(x, x, 0) { EqualIsNear(x); }
    forall x, y, a, b, k: nat | k < 4 ensures StepsBack(DivideByte, Near, x, y, a, b, k) {
      if Near(DivideByte(x, a), DivideByte(y, b), k) {
        BurstStep(x, y, a, b, DivideByte(x, a), DivideByte(y, b), k);
      }
    }
    BurstBack(DivideByte, Near, r, r, u, v);
  }

  lemma SameByteBack(r: bv32, s: bv32, b: bv8)
    requires DivideByte(r, b) == DivideByte(s, b)
    ensures r == s
  {
    var p, q := r ^ b as bv32, s ^ b as bv32;
    SameXor(Shift8(p), Shift8(q));
    DivideByteBack(r, s, b, b, p, q, 0, 0);
    assert (r ^ b as bv32) ^ b as bv32 == r && (s ^ b as bv32) ^ b as bv32 == s;
  }

  lemma {:induction false} FoldIsInjective<R(!new)>(step: (R, bv8) -> R, r: R, s: R, data: seq<bv8>)
    requires forall x, y, b :: step(x, b) == step(y, b) ==> x == y
    requires Fold(step, r, data) == Fold(step, s, data)
    ensures r == s
    decreases |data|
  {
    if data != [] {
      FoldIsInjective(step, step(r, data[0]), step(s, data[0]), data[1..]);
    }
  }

  lemma DivideIsInjective(r: bv32, s: bv32, data: seq<bv8>)
    requires Divide(r, data) == Divide(s, data)
    ensures r == s
  {
    forall x, y, b | DivideByte(x, b) == DivideByte(y, b) ensures x == y { SameByteBack(x, y, b); }
    FoldIsInjective(DivideByte, r, s, data);
  }

  lemma {:induction false} FoldThree<R>(step: (R, bv8) -> R, r: R, a: seq<bv8>, b: seq<bv8>, c: seq<bv8>)
    ensures Fold(step, r, a + b + c) == Fold(step, Fold(step, Fold(step, r, a), b), c)
  {
    FoldAppend(step, r, a, b);
    FoldAppend(step, r, a + b, c);
  }

  /** Files that differ only inside four consecutive bytes never get the same checksum. */
  lemma BurstIsDetected(crc: bv32, before: seq<bv8>, u: seq<bv8>, v: seq<bv8>, after: seq<bv8>)
    requires |u| == |v| <= 4 && u != v
    ensures Checksum(crc, before + u + after) != Checksum(crc, before + v + after)
  {
    var start := crc ^ ONES;
    if Divide(start, before + u + after) == Divide(start, before + v + after) {
      BurstReaches(start, before, u, v, after);
    } else if Checksum(crc, before + u + after) == Checksum(crc, before + v + after) {
      OnesAreInjective(Divide(start, before + u + after), Divide(start, before + v + after));
    }
  }

  lemma BurstReaches(start: bv32, before: seq<bv8>, u: seq<bv8>, v: seq<bv8>, after: seq<bv8>)
    requires |u| == |v| <= 4
    requires Divide(start, before + u + after) == Divide(start, before + v + after)
    ensures u == v
  {
    FoldThree(DivideByte, start, before, u, after);
    FoldThree(DivideByte, start, before, v, after);
    var r := Divide(start, before);
    DivideIsInjective(Divide(r, u), Divide(r, v), after);
    BurstsDiffer(r, u, v);
  }

  lemma OnesAreInjective(a: bv32, b: bv32)
    requires a ^ ONES == b ^ ONES
    ensures a == b
  {
  }
}
