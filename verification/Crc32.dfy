/** Table-driven CRC-32, and the bit-at-a-time CRC of section 8 of RFC 1952. */
module Crc32 {
  import opened Bytes
  import opened Registers

  type Word = bv32

  // ---------------------------------------------------------------- the table

  /** The j-th of sixteen words. */
  function Pick(j: Octet, w0: Word, w1: Word, w2: Word, w3: Word, w4: Word, w5: Word, w6: Word, w7: Word,
                w8: Word, w9: Word, wA: Word, wB: Word, wC: Word, wD: Word, wE: Word, wF: Word): Word
  {
    if j < 8 then
      if j < 4 then (if j < 2 then (if j == 0 then w0 else w1) else (if j == 2 then w2 else w3))
      else (if j < 6 then (if j == 4 then w4 else w5) else (if j == 6 then w6 else w7))
    else if j < 12 then (if j < 10 then (if j == 8 then w8 else w9) else (if j == 10 then wA else wB))
    else (if j < 14 then (if j == 12 then wC else wD) else (if j == 14 then wE else wF))
  }

  function Row0(j: Octet): Word {
    Pick(j,
      0x00000000, 0x77073096, 0xee0e612c, 0x990951ba, 0x076dc419, 0x706af48f, 0xe963a535, 0x9e6495a3,
      0x0edb8832, 0x79dcb8a4, 0xe0d5e91e, 0x97d2d988, 0x09b64c2b, 0x7eb17cbd, 0xe7b82d07, 0x90bf1d91)
  }

  function Row1(j: Octet): Word {
    Pick(j,
      0x1db71064, 0x6ab020f2, 0xf3b97148, 0x84be41de, 0x1adad47d, 0x6ddde4eb, 0xf4d4b551, 0x83d385c7,
      0x136c9856, 0x646ba8c0, 0xfd62f97a, 0x8a65c9ec, 0x14015c4f, 0x63066cd9, 0xfa0f3d63, 0x8d080df5)
  }

  function Row2(j: Octet): Word {
    Pick(j,
      0x3b6e20c8, 0x4c69105e, 0xd56041e4, 0xa2677172, 0x3c03e4d1, 0x4b04d447, 0xd20d85fd, 0xa50ab56b,
      0x35b5a8fa, 0x42b2986c, 0xdbbbc9d6, 0xacbcf940, 0x32d86ce3, 0x45df5c75, 0xdcd60dcf, 0xabd13d59)
  }

  function Row3(j: Octet): Word {
    Pick(j,
      0x26d930ac, 0x51de003a, 0xc8d75180, 0xbfd06116, 0x21b4f4b5, 0x56b3c423, 0xcfba9599, 0xb8bda50f,
      0x2802b89e, 0x5f058808, 0xc60cd9b2, 0xb10be924, 0x2f6f7c87, 0x58684c11, 0xc1611dab, 0xb6662d3d)
  }

  function Row4(j: Octet): Word {
    Pick(j,
      0x76dc4190, 0x01db7106, 0x98d220bc, 0xefd5102a, 0x71b18589, 0x06b6b51f, 0x9fbfe4a5, 0xe8b8d433,
      0x7807c9a2, 0x0f00f934, 0x9609a88e, 0xe10e9818, 0x7f6a0dbb, 0x086d3d2d, 0x91646c97, 0xe6635c01)
  }

  function Row5(j: Octet): Word {
    Pick(j,
      0x6b6b51f4, 0x1c6c6162, 0x856530d8, 0xf262004e, 0x6c0695ed, 0x1b01a57b, 0x8208f4c1, 0xf50fc457,
      0x65b0d9c6, 0x12b7e950, 0x8bbeb8ea, 0xfcb9887c, 0x62dd1ddf, 0x15da2d49, 0x8cd37cf3, 0xfbd44c65)
  }

  function Row6(j: Octet): Word {
    Pick(j,
      0x4db26158, 0x3ab551ce, 0xa3bc0074, 0xd4bb30e2, 0x4adfa541, 0x3dd895d7, 0xa4d1c46d, 0xd3d6f4fb,
      0x4369e96a, 0x346ed9fc, 0xad678846, 0xda60b8d0, 0x44042d73, 0x33031de5, 0xaa0a4c5f, 0xdd0d7cc9)
  }

  function Row7(j: Octet): Word {
    Pick(j,
      0x5005713c, 0x270241aa, 0xbe0b1010, 0xc90c2086, 0x5768b525, 0x206f85b3, 0xb966d409, 0xce61e49f,
      0x5edef90e, 0x29d9c998, 0xb0d09822, 0xc7d7a8b4, 0x59b33d17, 0x2eb40d81, 0xb7bd5c3b, 0xc0ba6cad)
  }

  function Row8(j: Octet): Word {
    Pick(j,
      0xedb88320, 0x9abfb3b6, 0x03b6e20c, 0x74b1d29a, 0xead54739, 0x9dd277af, 0x04db2615, 0x73dc1683,
      0xe3630b12, 0x94643b84, 0x0d6d6a3e, 0x7a6a5aa8, 0xe40ecf0b, 0x9309ff9d, 0x0a00ae27, 0x7d079eb1)
  }

  function Row9(j: Octet): Word {
    Pick(j,
      0xf00f9344, 0x8708a3d2, 0x1e01f268, 0x6906c2fe, 0xf762575d, 0x806567cb, 0x196c3671, 0x6e6b06e7,
      0xfed41b76, 0x89d32be0, 0x10da7a5a, 0x67dd4acc, 0xf9b9df6f, 0x8ebeeff9, 0x17b7be43, 0x60b08ed5)
  }

  function RowA(j: Octet): Word {
    Pick(j,
      0xd6d6a3e8, 0xa1d1937e, 0x38d8c2c4, 0x4fdff252, 0xd1bb67f1, 0xa6bc5767, 0x3fb506dd, 0x48b2364b,
      0xd80d2bda, 0xaf0a1b4c, 0x36034af6, 0x41047a60, 0xdf60efc3, 0xa867df55, 0x316e8eef, 0x4669be79)
  }

  function RowB(j: Octet): Word {
    Pick(j,
      0xcb61b38c, 0xbc66831a, 0x256fd2a0, 0x5268e236, 0xcc0c7795, 0xbb0b4703, 0x220216b9, 0x5505262f,
      0xc5ba3bbe, 0xb2bd0b28, 0x2bb45a92, 0x5cb36a04, 0xc2d7ffa7, 0xb5d0cf31, 0x2cd99e8b, 0x5bdeae1d)
  }

  function RowC(j: Octet): Word {
    Pick(j,
      0x9b64c2b0, 0xec63f226, 0x756aa39c, 0x026d930a, 0x9c0906a9, 0xeb0e363f, 0x72076785, 0x05005713,
      0x95bf4a82, 0xe2b87a14, 0x7bb12bae, 0x0cb61b38, 0x92d28e9b, 0xe5d5be0d, 0x7cdcefb7, 0x0bdbdf21)
  }

  function RowD(j: Octet): Word {
    Pick(j,
      0x86d3d2d4, 0xf1d4e242, 0x68ddb3f8, 0x1fda836e, 0x81be16cd, 0xf6b9265b, 0x6fb077e1, 0x18b74777,
      0x88085ae6, 0xff0f6a70, 0x66063bca, 0x11010b5c, 0x8f659eff, 0xf862ae69, 0x616bffd3, 0x166ccf45)
  }

  function RowE(j: Octet): Word {
    Pick(j,
      0xa00ae278, 0xd70dd2ee, 0x4e048354, 0x3903b3c2, 0xa7672661, 0xd06016f7, 0x4969474d, 0x3e6e77db,
      0xaed16a4a, 0xd9d65adc, 0x40df0b66, 0x37d83bf0, 0xa9bcae53, 0xdebb9ec5, 0x47b2cf7f, 0x30b5ffe9)
  }

  function RowF(j: Octet): Word {
    Pick(j,
      0xbdbdf21c, 0xcabac28a, 0x53b39330, 0x24b4a3a6, 0xbad03605, 0xcdd70693, 0x54de5729, 0x23d967bf,
      0xb3667a2e, 0xc4614ab8, 0x5d681b02, 0x2a6f2b94, 0xb40bbe37, 0xc30c8ea1, 0x5a05df1b, 0x2d02ef8d)
  }

  function Table(i: Octet): Word {
    var j := i & 0x0F;
    if i < 0x10 then Row0(j)
    else if i < 0x20 then Row1(j)
    else if i < 0x30 then Row2(j)
    else if i < 0x40 then Row3(j)
    else if i < 0x50 then Row4(j)
    else if i < 0x60 then Row5(j)
    else if i < 0x70 then Row6(j)
    else if i < 0x80 then Row7(j)
    else if i < 0x90 then Row8(j)
    else if i < 0xA0 then Row9(j)
    else if i < 0xB0 then RowA(j)
    else if i < 0xC0 then RowB(j)
    else if i < 0xD0 then RowC(j)
    else if i < 0xE0 then RowD(j)
    else if i < 0xF0 then RowE(j)
    else RowF(j)
  }

  // ---------------------------------------------------------------- the source's functions

  /** What a char becomes as an int: its top bit fills the upper bytes where char is signed. */
  function Widened(signed: bool, c: Octet): Word {
    if signed && c & 0x80 != 0 then (c as Word) | 0xFFFF_FF00 else c as Word
  }

  function Index(signed: bool, c: Octet, part: Word): Octet {
    ((part ^ Widened(signed, c)) & 0x0000_00FF) as Octet
  }

  /** combine_crc32 with the table and the signedness of char as parameters. */
  function Combine(table: Octet -> Word, signed: bool): (Octet, Word) -> Word {
    (c, part) => Xor(Rest(part), table(Index(signed, c, part)))
  }

  function Xor(a: Word, b: Word): Word {
    a ^ b
  }

  function Rest(x: Word): Word {
    x >> 8
  }

  /** crc32: Combine with the character at idx, after the characters before it. */
  function Crc(signed: bool, idx: int, str: seq<Octet>): Word
    requires -1 <= idx < |str|
  {
    Folded(Combine(Table, signed), 0xFFFF_FFFF, idx, str)
  }

  function Inverted(c: Word): Word {
    c ^ 0xFFFF_FFFF
  }

  function ConstCrc32(signed: bool, str: seq<Octet>): Word {
    Inverted(Crc(signed, |str| - 1, str))
  }

  // ---------------------------------------------------------------- bit at a time

  /** One division step by the reflected polynomial. */
  function Shift(c: Word): Word {
    if c & 1 == 1 then 0xEDB8_8320 ^ (c >> 1) else c >> 1
  }

  /** The bits of a byte, least significant first. */
  function BitsOf(b: Octet): seq<Word> {
    [(b & 1) as Word, ((b >> 1) & 1) as Word, ((b >> 2) & 1) as Word, ((b >> 3) & 1) as Word,
     ((b >> 4) & 1) as Word, ((b >> 5) & 1) as Word, ((b >> 6) & 1) as Word, ((b >> 7) & 1) as Word]
  }

  /** All bits of a message go through the register one at a time. */
  function ReferenceCrc(str: seq<Octet>): Word {
    Inverted(Divided(Shift, Xor, 0xFFFF_FFFF, Flattened(BitsOf, str)))
  }

  // ---------------------------------------------------------------- one division step

  lemma XorHalves(a: Word, b: Word)
    ensures (a ^ b) >> 1 == (a >> 1) ^ (b >> 1)
    ensures (a ^ b) & 1 == (a & 1) ^ (b & 1)
    ensures a & 1 == 0 || a & 1 == 1
  {}

  lemma XorMoves(p: Word, x: Word, y: Word)
    ensures (p ^ x) ^ (p ^ y) == x ^ y && (p ^ x) ^ y == p ^ (x ^ y) && x ^ (p ^ y) == p ^ (x ^ y)
  {}

  lemma ShiftLinear(a: Word, b: Word)
    ensures Shift(a ^ b) == Shift(a) ^ Shift(b)
  {
    XorHalves(a, b);
    XorHalves(b, a);
    XorMoves(0xEDB8_8320, a >> 1, b >> 1);
  }

  lemma ShiftIsLinear()
    ensures Linear(Shift, Xor)
  {
    forall a, b
      ensures Shift(Xor(a, b)) == Xor(Shift(a), Shift(b))
    {
      ShiftLinear(a, b);
    }
  }

  /** The step back: the top bit tells whether the polynomial went in. */
  function Unshift(c: Word): Word {
    if c & 0x8000_0000 == 0 then c << 1 else ((c ^ 0xEDB8_8320) << 1) | 1
  }

  lemma UnshiftShift(c: Word)
    ensures Unshift(Shift(c)) == c
  {}

  lemma ShiftIsInjective()
    ensures Injective(Shift)
  {
    forall a, b | Shift(a) == Shift(b)
      ensures a == b
    {
      UnshiftShift(a);
      UnshiftShift(b);
    }
  }

  lemma XorCancels()
    ensures Cancels(Xor)
  {
    forall a, b, x | Xor(a, x) == Xor(b, x)
      ensures a == b
    {
      XorBack(a, x);
      XorBack(b, x);
    }
  }

  lemma XorBack(a: Word, x: Word)
    ensures (a ^ x) ^ x == a
  {}

  function Half(z: Word): Word {
    z >> 1
  }

  predicate Even(z: Word) {
    z & 1 == 0
  }

  lemma XorEven(z: Word, y: Word)
    requires z & 1 == 0
    ensures (z ^ y) & 1 == y & 1 && (z ^ y) >> 1 == (z >> 1) ^ (y >> 1)
  {}

  lemma SplitShift(z: Word, y: Word)
    requires z & 1 == 0
    ensures Shift(z ^ y) == (z >> 1) ^ Shift(y)
  {
    XorEven(z, y);
    if y & 1 == 1 {
      XorMoves(0xEDB8_8320, z >> 1, y >> 1);
    }
  }

  lemma ShiftHalvesEven()
    ensures HalvesEven(Shift, Xor, Half, Even)
  {
    forall u, v | Even(u)
      ensures Shift(Xor(u, v)) == Xor(Half(u), Shift(v))
    {
      SplitShift(u, v);
    }
  }

  // ---------------------------------------------------------------- the table holds eight steps

  function Shift4(c: Word): Word {
    Shift(Shift(Shift(Shift(c))))
  }

  lemma Row0Shifts(j: Octet)
    requires j < 16
    ensures Row0(j) == Shift4(Shift4((0x00 | j) as Word))
  {}

  lemma Row1Shifts(j: Octet)
    requires j < 16
    ensures Row1(j) == Shift4(Shift4((0x10 | j) as Word))
  {}

  lemma Row2Shifts(j: Octet)
    requires j < 16
    ensures Row2(j) == Shift4(Shift4((0x20 | j) as Word))
  {}

  lemma Row3Shifts(j: Octet)
    requires j < 16
    ensures Row3(j) == Shift4(Shift4((0x30 | j) as Word))
  {}

  lemma Row4Shifts(j: Octet)
    requires j < 16
    ensures Row4(j) == Shift4(Shift4((0x40 | j) as Word))
  {}

  lemma Row5Shifts(j: Octet)
    requires j < 16
    ensures Row5(j) == Shift4(Shift4((0x50 | j) as Word))
  {}

  lemma Row6Shifts(j: Octet)
    requires j < 16
    ensures Row6(j) == Shift4(Shift4((0x60 | j) as Word))
  {}

  lemma Row7Shifts(j: Octet)
    requires j < 16
    ensures Row7(j) == Shift4(Shift4((0x70 | j) as Word))
  {}

  lemma Row8Shifts(j: Octet)
    requires j < 16
    ensures Row8(j) == Shift4(Shift4((0x80 | j) as Word))
  {}

  lemma Row9Shifts(j: Octet)
    requires j < 16
    ensures Row9(j) == Shift4(Shift4((0x90 | j) as Word))
  {}

  lemma RowAShifts(j: Octet)
    requires j < 16
    ensures RowA(j) == Shift4(Shift4((0xA0 | j) as Word))
  {}

  lemma RowBShifts(j: Octet)
    requires j < 16
    ensures RowB(j) == Shift4(Shift4((0xB0 | j) as Word))
  {}

  lemma RowCShifts(j: Octet)
    requires j < 16
    ensures RowC(j) == Shift4(Shift4((0xC0 | j) as Word))
  {}

  lemma RowDShifts(j: Octet)
    requires j < 16
    ensures RowD(j) == Shift4(Shift4((0xD0 | j) as Word))
  {}

  lemma RowEShifts(j: Octet)
    requires j < 16
    ensures RowE(j) == Shift4(Shift4((0xE0 | j) as Word))
  {}

  lemma RowFShifts(j: Octet)
    requires j < 16
    ensures RowF(j) == Shift4(Shift4((0xF0 | j) as Word))
  {}

  lemma TableShifts(i: Octet)
    ensures Table(i) == Shift4(Shift4(i as Word))
  {
    var j := i & 0x0F;
    if i < 0x10 {
      assert i == 0x00 | j;
      Row0Shifts(j);
    } else if i < 0x20 {
      assert i == 0x10 | j;
      Row1Shifts(j);
    } else if i < 0x30 {
      assert i == 0x20 | j;
      Row2Shifts(j);
    } else if i < 0x40 {
      assert i == 0x30 | j;
      Row3Shifts(j);
    } else if i < 0x50 {
      assert i == 0x40 | j;
      Row4Shifts(j);
    } else if i < 0x60 {
      assert i == 0x50 | j;
      Row5Shifts(j);
    } else if i < 0x70 {
      assert i == 0x60 | j;
      Row6Shifts(j);
    } else if i < 0x80 {
      assert i == 0x70 | j;
      Row7Shifts(j);
    } else if i < 0x90 {
      assert i == 0x80 | j;
      Row8Shifts(j);
    } else if i < 0xA0 {
      assert i == 0x90 | j;
      Row9Shifts(j);
    } else if i < 0xB0 {
      assert i == 0xA0 | j;
      RowAShifts(j);
    } else if i < 0xC0 {
      assert i == 0xB0 | j;
      RowBShifts(j);
    } else if i < 0xD0 {
      assert i == 0xC0 | j;
      RowCShifts(j);
    } else if i < 0xE0 {
      assert i == 0xD0 | j;
      RowDShifts(j);
    } else if i < 0xF0 {
      assert i == 0xE0 | j;
      RowEShifts(j);
    } else {
      assert i == 0xF0 | j;
      RowFShifts(j);
    }
  }

  function Embed(b: Octet): Word {
    b as Word
  }

  lemma TableHolds()
    ensures HoldsEight(Table, Shift, Embed)
  {
    forall i
      ensures Table(i) == Iterate(Shift, Embed(i), 8)
    {
      TableShifts(i);
      IterateEight(Shift, Embed(i));
    }
  }

  // ---------------------------------------------------------------- one table step

  function Low(x: Word): Octet {
    (x & 0xFF) as Octet
  }

  function High(x: Word): Word {
    x & 0xFFFF_FF00
  }

  lemma LowOfWidened(signed: bool, c: Octet, part: Word)
    ensures (part ^ Widened(signed, c)) & 0xFF == (part & 0xFF) ^ (c as Word)
  {}

  lemma LowOfUnsigned(c: Octet, part: Word)
    ensures (part ^ (c as Word)) & 0xFF == (part & 0xFF) ^ (c as Word)
  {}

  lemma RestOfUnsigned(c: Octet, part: Word)
    ensures (part ^ (c as Word)) >> 8 == part >> 8
  {}

  lemma LowByte(signed: bool, c: Octet, part: Word)
    ensures Index(signed, c, part) == Low(part ^ (c as Word))
    ensures (part ^ (c as Word)) >> 8 == part >> 8
  {
    LowOfWidened(signed, c, part);
    LowOfUnsigned(c, part);
    RestOfUnsigned(c, part);
  }

  /** Only the low byte of a char reaches the table. */
  lemma CombineLooksUp(table: Octet -> Word, signed: bool)
    ensures LooksUp(Combine(table, signed), Xor, Embed, table, Low, Rest)
  {
    forall b, c
      ensures Combine(table, signed)(b, c) == Xor(Rest(Xor(c, Embed(b))), table(Low(Xor(c, Embed(b)))))
    {
      LowByte(signed, b, c);
    }
  }

  lemma SplitByte(x: Word)
    ensures High(x) ^ (Low(x) as Word) == x
  {}

  lemma WordSplits()
    ensures SplitsInTwo(Xor, Embed, Low, High)
  {
    forall x
      ensures Xor(High(x), Embed(Low(x))) == x
    {
      SplitByte(x);
    }
  }

  lemma HalvedAgain(h: Word)
    requires h & 0x0F == 0
    ensures Even(h) && Even(Half(h)) && Even(Half(Half(h))) && Even(Half(Half(Half(h))))
    ensures Half(Half(Half(Half(h)))) == h >> 4
  {}

  lemma HighDown(z: Word)
    ensures High(z) & 0x0F == 0
    ensures (High(z) >> 4) & 0x0F == 0 && (High(z) >> 4) >> 4 == z >> 8
  {}

  lemma IterateHalf(h: Word)
    ensures Iterate(Half, h, 0) == h && Iterate(Half, h, 1) == Half(h) && Iterate(Half, h, 2) == Half(Half(h))
    ensures Iterate(Half, h, 3) == Half(Half(Half(h))) && Iterate(Half, h, 4) == Half(Half(Half(Half(h))))
  {
    IterateSmall(Half, h);
  }

  lemma HighHalves(z: Word, i: nat)
    ensures i < 8 ==> Even(Iterate(Half, High(z), i))
    ensures i == 8 ==> Iterate(Half, High(z), i) == Rest(z)
  {
    var h := High(z);
    HighDown(z);
    HalvedAgain(h);
    HalvedAgain(h >> 4);
    IterateHalf(h);
    IterateHalf(h >> 4);
    if 4 <= i <= 8 {
      IterateSum(Half, h, 4, i - 4);
    }
  }

  lemma HighIsHalved()
    ensures HighIsEven(High, Rest, Half, Even)
  {
    forall x, i: int | 0 <= i < 8
      ensures Even(Iterate(Half, High(x), i))
    {
      HighHalves(x, i);
    }
    forall x
      ensures Iterate(Half, High(x), 8) == Rest(x)
    {
      HighHalves(x, 8);
    }
  }

  // ---------------------------------------------------------------- bits of a byte

  function WordsOf(b: Octet): seq<Word> {
    var w := b as Word;
    [w & 0x01, w & 0x02, w & 0x04, w & 0x08, w & 0x10, w & 0x20, w & 0x40, w & 0x80]
  }

  lemma BitsSumUp(c: Word, b: Octet)
    ensures var w := b as Word;
      (((((((c ^ (w & 0x01)) ^ (w & 0x02)) ^ (w & 0x04)) ^ (w & 0x08))
         ^ (w & 0x10)) ^ (w & 0x20)) ^ (w & 0x40)) ^ (w & 0x80) == c ^ w
  {}

  lemma LowBitsUp(b: Octet)
    ensures var w := b as Word;
      && w & 0x01 == (b & 1) as Word
      && Shift(w & 0x02) == ((b >> 1) & 1) as Word
      && Shift(Shift(w & 0x04)) == ((b >> 2) & 1) as Word
      && Shift(Shift(Shift(w & 0x08))) == ((b >> 3) & 1) as Word
  {}

  lemma MiddleBitsUp(b: Octet)
    ensures var w := b as Word;
      && Shift4(w & 0x10) == ((b >> 4) & 1) as Word
      && Shift(Shift4(w & 0x20)) == ((b >> 5) & 1) as Word
  {}

  lemma HighBitsUp(b: Octet)
    ensures var w := b as Word;
      && Shift(Shift(Shift4(w & 0x40))) == ((b >> 6) & 1) as Word
      && Shift(Shift(Shift(Shift4(w & 0x80)))) == ((b >> 7) & 1) as Word
  {}

  lemma LowBitUp(b: Octet, k: nat, w: Word)
    requires k < 4 && w == WordsOf(b)[k]
    ensures Iterate(Shift, w, k) == BitsOf(b)[k]
  {
    LowBitsUp(b);
    IterateSmall(Shift, w);
  }

  lemma FourThenMore(w: Word, k: nat)
    requires 4 <= k < 8
    ensures Iterate(Shift, w, k) == Iterate(Shift, Shift4(w), k - 4)
  {
    IterateSum(Shift, w, 4, k - 4);
    IterateSmall(Shift, w);
  }

  lemma MiddleBitUp(b: Octet, k: nat, x: Word)
    requires 4 <= k < 6 && x == Shift4(WordsOf(b)[k])
    ensures Iterate(Shift, x, k - 4) == BitsOf(b)[k]
  {
    MiddleBitsUp(b);
    IterateSmall(Shift, x);
  }

  lemma HighBitUp(b: Octet, k: nat, x: Word)
    requires 6 <= k < 8 && x == Shift4(WordsOf(b)[k])
    ensures Iterate(Shift, x, k - 4) == BitsOf(b)[k]
  {
    HighBitsUp(b);
    IterateSmall(Shift, x);
  }

  lemma BitUp(b: Octet, k: nat)
    requires k < 8
    ensures Iterate(Shift, WordsOf(b)[k], k) == BitsOf(b)[k]
  {
    if k < 4 {
      LowBitUp(b, k, WordsOf(b)[k]);
    } else {
      FourThenMore(WordsOf(b)[k], k);
      if k < 6 { MiddleBitUp(b, k, Shift4(WordsOf(b)[k])); } else { HighBitUp(b, k, Shift4(WordsOf(b)[k])); }
    }
  }

  lemma XorsSumUp(c: Word, b: Octet, w: Word)
    requires w == b as Word
    ensures Xor(Xor(Xor(Xor(Xor(Xor(Xor(Xor(c, w & 0x01), w & 0x02), w & 0x04), w & 0x08), w & 0x10), w & 0x20),
                    w & 0x40), w & 0x80) == Xor(c, Embed(b))
  {
    BitsSumUp(c, b);
  }

  lemma WordsMakeByte(b: Octet, c: Word)
    ensures Combined(Xor, c, WordsOf(b)) == Xor(c, Embed(b))
  {
    var w := b as Word;
    XorsSumUp(c, b, w);
    CombinedEight(Xor, c, w & 0x01, w & 0x02, w & 0x04, w & 0x08, w & 0x10, w & 0x20, w & 0x40, w & 0x80);
  }

  lemma BytesAreBits()
    ensures BitsMake(Shift, Xor, Embed, BitsOf, WordsOf)
  {
    forall b, k: int | 0 <= k < 8
      ensures Iterate(Shift, WordsOf(b)[k], k) == BitsOf(b)[k]
    {
      BitUp(b, k);
    }
    forall b, c
      ensures Combined(Xor, c, WordsOf(b)) == Xor(c, Embed(b))
    {
      WordsMakeByte(b, c);
    }
  }

  // ---------------------------------------------------------------- refinement

  function ByteStep(): Word -> Word {
    c => Iterate(Shift, c, 8)
  }

  lemma TableStepsAreBytes(signed: bool)
    ensures CombinesAs(Combine(Table, signed), ByteStep(), Xor, Embed)
  {
    CombineLooksUp(Table, signed);
    WordSplits();
    TableHolds();
    ShiftHalvesEven();
    HighIsHalved();
    LookupIsEight(Combine(Table, signed), ByteStep(), Shift, Xor, Embed, Table, Low, High, Rest, Half, Even);
  }

  /** The table-driven function is the bit-at-a-time CRC, on every string. */
  lemma ConstCrcIsReference(signed: bool, str: seq<Octet>)
    ensures ConstCrc32(signed, str) == ReferenceCrc(str)
  {
    TableStepsAreBytes(signed);
    ShiftIsLinear();
    BytesAreBits();
    BitsAreSymbols(ByteStep(), Shift, Xor, Embed, BitsOf, WordsOf);
    FoldedIsFlattened(Combine(Table, signed), ByteStep(), Shift, Xor, Embed, BitsOf, 0xFFFF_FFFF, str);
  }

  // ---------------------------------------------------------------- detection

  /** The byte that j byte steps turn into b. */
  function Up(b: Octet, j: nat): Word {
    if j == 0 then b as Word
    else if j == 1 then (b as Word) << 8
    else if j == 2 then (b as Word) << 16
    else (b as Word) << 24
  }

  lemma ByteDown(b: Octet)
    ensures var w := b as Word;
      && Shift4(Shift4(w << 8)) == w && Shift4(Shift4(w << 16)) == w << 8 && Shift4(Shift4(w << 24)) == w << 16
  {
    EightDown(b as Word);
    EightDown((b as Word) << 8);
    EightDown((b as Word) << 16);
  }

  lemma EightDown(w: Word)
    requires w & 0xFF00_0000 == 0
    ensures Shift4(Shift4(w << 8)) == w
  {
    FourDown(w << 4);
    FourDown(w);
  }

  lemma FourDown(w: Word)
    requires w & 0xF000_0000 == 0
    ensures Shift4(w << 4) == w
  {}

  lemma StepIs(x: Word)
    ensures ByteStep()(x) == Shift4(Shift4(x))
  {
    IterateEight(Shift, x);
  }

  lemma StepsDown(b: Octet, w0: Word, w1: Word, w2: Word, w3: Word)
    requires w0 == Up(b, 0) && w1 == Up(b, 1) && w2 == Up(b, 2) && w3 == Up(b, 3)
    ensures ByteStep()(w1) == w0 && ByteStep()(w2) == w1 && ByteStep()(w3) == w2
  {
    ByteDown(b);
    StepIs(w1);
    StepIs(w2);
    StepIs(w3);
  }

  lemma ByteRises(b: Octet, j: nat)
    requires j < 4
    ensures Iterate(ByteStep(), Up(b, j), j) == Embed(b)
  {
    StepsDown(b, Up(b, 0), Up(b, 1), Up(b, 2), Up(b, 3));
    Chain(ByteStep(), Up(b, 3), Up(b, 2), Up(b, 1), Up(b, 0));
  }

  lemma BytesRise()
    ensures Rises(ByteStep(), Embed, Up)
  {
    forall b, j: nat | j < 4
      ensures Iterate(ByteStep(), Up(b, j), j) == Embed(b)
    {
      ByteRises(b, j);
    }
  }

  function Packed(c: Word, a0: Octet, a1: Octet, a2: Octet, a3: Octet): Word {
    (((c ^ (a0 as Word)) ^ ((a1 as Word) << 8)) ^ ((a2 as Word) << 16)) ^ ((a3 as Word) << 24)
  }

  lemma FourIsPacked(c: Word, w: seq<Octet>, a0: Octet, a1: Octet, a2: Octet, a3: Octet)
    requires w == [a0, a1, a2, a3]
    ensures Four(Xor, Up, c, w) == Packed(c, a0, a1, a2, a3)
  {}

  /** The four bytes that make p out of c. */
  function Unpacked(c: Word, p: Word): seq<Octet> {
    var x := c ^ p;
    [(x & 0xFF) as Octet, ((x >> 8) & 0xFF) as Octet, ((x >> 16) & 0xFF) as Octet, ((x >> 24) & 0xFF) as Octet]
  }

  lemma UnpackedPacked(c: Word, a0: Octet, a1: Octet, a2: Octet, a3: Octet)
    ensures Unpacked(c, Packed(c, a0, a1, a2, a3)) == [a0, a1, a2, a3]
  {}

  lemma FourUnpacked(c: Word, w: seq<Octet>, p: Word)
    requires |w| == 4 && p == Packed(c, w[0], w[1], w[2], w[3])
    ensures Unpacked(c, p) == w
  {
    UnpackedPacked(c, w[0], w[1], w[2], w[3]);
  }

  lemma FourBytesDecide()
    ensures FourDecide(Xor, Up)
  {
    forall c, w: seq<Octet> | |w| == 4
      ensures Unpacked(c, Four(Xor, Up, c, w)) == w
    {
      FourIsPacked(c, w, w[0], w[1], w[2], w[3]);
      FourUnpacked(c, w, Four(Xor, Up, c, w));
    }
  }

  lemma InvertedInjective(a: Word, b: Word)
    requires Inverted(a) == Inverted(b)
    ensures a == b
  {
    XorBack(a, 0xFFFF_FFFF);
    XorBack(b, 0xFFFF_FFFF);
  }

  /** Strings of one length that differ, but only within four consecutive bytes, never collide. */
  lemma FourByteBurstsAreSeen(signed: bool, before: seq<Octet>, w: seq<Octet>, w': seq<Octet>, after: seq<Octet>)
    requires |w| == |w'| <= 4 && w != w'
    ensures ConstCrc32(signed, before + w + after) != ConstCrc32(signed, before + w' + after)
  {
    var str, str' := before + w + after, before + w' + after;
    if ConstCrc32(signed, str) == ConstCrc32(signed, str') {
      InvertedInjective(Crc(signed, |str| - 1, str), Crc(signed, |str'| - 1, str'));
      TableStepsAreBytes(signed);
      ShiftIsLinear();
      ShiftIsInjective();
      XorCancels();
      EightKeeps(ByteStep(), Shift, Xor);
      BytesRise();
      FourBytesDecide();
      FourWindowsDiffer(ByteStep(), Xor, Embed, Up);
      WindowDecides(Combine(Table, signed), ByteStep(), Xor, Embed, 0xFFFF_FFFF, before, w, w', after, 0, 4);
    }
  }

  lemma StepTo(signed: bool, c: Octet, part: Word, i: Octet, t: Word)
    requires Index(signed, c, part) == i && Table(i) == t
    ensures Combine(Table, signed)(c, part) == Xor(Rest(part), t)
  {}

  lemma FoldedThrough(m: (Octet, Word) -> Word, init: Word, str: seq<Octet>, a: Word, b: Word, c: Word, d: Word)
    requires |str| == 5 && m(str[0], init) == a && m(str[1], a) == b && m(str[2], b) == c && m(str[3], c) == d
    ensures Folded(m, init, 4, str) == m(str[4], d)
  {
    assert Folded(m, init, 0, str) == m(str[0], init);
    assert Folded(m, init, 1, str) == m(str[1], Folded(m, init, 0, str));
    assert Folded(m, init, 2, str) == m(str[2], Folded(m, init, 1, str));
    assert Folded(m, init, 3, str) == m(str[3], Folded(m, init, 2, str));
  }

  const COLLISION: Word := 0x39DD_08E2

  lemma ZerosFold(signed: bool)
    ensures Crc(signed, 4, [0, 0, 0, 0, 0]) == COLLISION
  {
    StepTo(signed, 0x00, 0xFFFFFFFF, 0xFF, 0x2D02EF8D);
    StepTo(signed, 0x00, 0x2DFD1072, 0x72, 0xBE0B1010);
    StepTo(signed, 0x00, 0xBE26ED00, 0x00, 0x00000000);
    StepTo(signed, 0x00, 0x00BE26ED, 0xED, 0xDEBB9EC5);
    StepTo(signed, 0x00, 0xDEBB20E3, 0xE3, 0x3903B3C2);
    FoldedThrough(Combine(Table, signed), 0xFFFF_FFFF, [0, 0, 0, 0, 0],
                  0x2DFD1072, 0xBE26ED00, 0x00BE26ED, 0xDEBB20E3);
  }

  lemma OtherFolds(signed: bool)
    ensures Crc(signed, 4, [0x41, 0x06, 0x71, 0xDB, 0x01]) == COLLISION
  {
    StepTo(signed, 0x41, 0xFFFFFFFF, 0xBE, 0x2CD99E8B);
    StepTo(signed, 0x06, 0x2C266174, 0x72, 0xBE0B1010);
    StepTo(signed, 0x71, 0xBE273671, 0x00, 0x00000000);
    StepTo(signed, 0xDB, 0x00BE2736, 0xED, 0xDEBB9EC5);
    StepTo(signed, 0x01, 0xDEBB20E2, 0xE3, 0x3903B3C2);
    FoldedThrough(Combine(Table, signed), 0xFFFF_FFFF, [0x41, 0x06, 0x71, 0xDB, 0x01],
                  0x2C266174, 0xBE273671, 0x00BE2736, 0xDEBB20E2);
  }

  /** Five bytes can collide. */
  lemma FiveBytesCanCollide(signed: bool)
    ensures ConstCrc32(signed, [0, 0, 0, 0, 0]) == ConstCrc32(signed, [0x41, 0x06, 0x71, 0xDB, 0x01])
  {
    ZerosFold(signed);
    OtherFolds(signed);
  }
}
