/** The checksum that tells sources apart (base/src/crc.c, base/src/crc.h): table
    driven, octet by octet.

    The reference is the CRC taken bit by bit, lowest bit first, with the reflected
    polynomial 0xedb88320. */
module Crc {

  const POLYNOMIAL: bv32 := 0xedb88320

  /** One bit position of the register. */
  function Step(x: bv32): bv32 {
    if x & 1 == 1 then (x >> 1) ^ POLYNOMIAL else x >> 1
  }

  function Step8(x: bv32): bv32 {
    Step(Step(Step(Step(Step(Step(Step(Step(x))))))))
  }

  function Xor(x: bv32, y: bv32): bv32 {
    x ^ y
  }

  function Half(x: bv32): bv32 {
    x >> 1
  }

  /** Taking in the low `n` bits of an octet, lowest first. */
  function TakeBits(crc: bv32, octet: bv32, n: nat): bv32
    decreases n
  {
    if n == 0 then crc else TakeBits(Step(Xor(crc, octet & 1)), Half(octet), n - 1)
  }

  /** The CRC register after the octets, bit by bit. */
  function Bitwise(octets: seq<bv8>): bv32 {
    if octets == [] then 0xffff_ffff
    else TakeBits(Bitwise(octets[..|octets| - 1]), octets[|octets| - 1] as bv32, 8)
  }

  // ------------------------------------------------------------ the table

  /** Eight neighbouring entries. */
  datatype Eight = Eight(e0: bv32, e1: bv32, e2: bv32, e3: bv32, e4: bv32, e5: bv32, e6: bv32, e7: bv32)

  // the constant array; a row is named by its first index
  const ROW_00: Eight :=
    Eight(0x00000000, 0x77073096, 0xee0e612c, 0x990951ba, 0x076dc419, 0x706af48f, 0xe963a535, 0x9e6495a3)
  const ROW_08: Eight :=
    Eight(0x0edb8832, 0x79dcb8a4, 0xe0d5e91e, 0x97d2d988, 0x09b64c2b, 0x7eb17cbd, 0xe7b82d07, 0x90bf1d91)
  const ROW_10: Eight :=
    Eight(0x1db71064, 0x6ab020f2, 0xf3b97148, 0x84be41de, 0x1adad47d, 0x6ddde4eb, 0xf4d4b551, 0x83d385c7)
  const ROW_18: Eight :=
    Eight(0x136c9856, 0x646ba8c0, 0xfd62f97a, 0x8a65c9ec, 0x14015c4f, 0x63066cd9, 0xfa0f3d63, 0x8d080df5)
  const ROW_20: Eight :=
    Eight(0x3b6e20c8, 0x4c69105e, 0xd56041e4, 0xa2677172, 0x3c03e4d1, 0x4b04d447, 0xd20d85fd, 0xa50ab56b)
  const ROW_28: Eight :=
    Eight(0x35b5a8fa, 0x42b2986c, 0xdbbbc9d6, 0xacbcf940, 0x32d86ce3, 0x45df5c75, 0xdcd60dcf, 0xabd13d59)
  const ROW_30: Eight :=
    Eight(0x26d930ac, 0x51de003a, 0xc8d75180, 0xbfd06116, 0x21b4f4b5, 0x56b3c423, 0xcfba9599, 0xb8bda50f)
  const ROW_38: Eight :=
    Eight(0x2802b89e, 0x5f058808, 0xc60cd9b2, 0xb10be924, 0x2f6f7c87, 0x58684c11, 0xc1611dab, 0xb6662d3d)
  const ROW_40: Eight :=
    Eight(0x76dc4190, 0x01db7106, 0x98d220bc, 0xefd5102a, 0x71b18589, 0x06b6b51f, 0x9fbfe4a5, 0xe8b8d433)
  const ROW_48: Eight :=
    Eight(0x7807c9a2, 0x0f00f934, 0x9609a88e, 0xe10e9818, 0x7f6a0dbb, 0x086d3d2d, 0x91646c97, 0xe6635c01)
  const ROW_50: Eight :=
    Eight(0x6b6b51f4, 0x1c6c6162, 0x856530d8, 0xf262004e, 0x6c0695ed, 0x1b01a57b, 0x8208f4c1, 0xf50fc457)
  const ROW_58: Eight :=
    Eight(0x65b0d9c6, 0x12b7e950, 0x8bbeb8ea, 0xfcb9887c, 0x62dd1ddf, 0x15da2d49, 0x8cd37cf3, 0xfbd44c65)
  const ROW_60: Eight :=
    Eight(0x4db26158, 0x3ab551ce, 0xa3bc0074, 0xd4bb30e2, 0x4adfa541, 0x3dd895d7, 0xa4d1c46d, 0xd3d6f4fb)
  const ROW_68: Eight :=
    Eight(0x4369e96a, 0x346ed9fc, 0xad678846, 0xda60b8d0, 0x44042d73, 0x33031de5, 0xaa0a4c5f, 0xdd0d7cc9)
  const ROW_70: Eight :=
    Eight(0x5005713c, 0x270241aa, 0xbe0b1010, 0xc90c2086, 0x5768b525, 0x206f85b3, 0xb966d409, 0xce61e49f)
  const ROW_78: Eight :=
    Eight(0x5edef90e, 0x29d9c998, 0xb0d09822, 0xc7d7a8b4, 0x59b33d17, 0x2eb40d81, 0xb7bd5c3b, 0xc0ba6cad)
  const ROW_80: Eight :=
    Eight(0xedb88320, 0x9abfb3b6, 0x03b6e20c, 0x74b1d29a, 0xead54739, 0x9dd277af, 0x04db2615, 0x73dc1683)
  const ROW_88: Eight :=
    Eight(0xe3630b12, 0x94643b84, 0x0d6d6a3e, 0x7a6a5aa8, 0xe40ecf0b, 0x9309ff9d, 0x0a00ae27, 0x7d079eb1)
  const ROW_90: Eight :=
    Eight(0xf00f9344, 0x8708a3d2, 0x1e01f268, 0x6906c2fe, 0xf762575d, 0x806567cb, 0x196c3671, 0x6e6b06e7)
  const ROW_98: Eight :=
    Eight(0xfed41b76, 0x89d32be0, 0x10da7a5a, 0x67dd4acc, 0xf9b9df6f, 0x8ebeeff9, 0x17b7be43, 0x60b08ed5)
  const ROW_A0: Eight :=
    Eight(0xd6d6a3e8, 0xa1d1937e, 0x38d8c2c4, 0x4fdff252, 0xd1bb67f1, 0xa6bc5767, 0x3fb506dd, 0x48b2364b)
  const ROW_A8: Eight :=
    Eight(0xd80d2bda, 0xaf0a1b4c, 0x36034af6, 0x41047a60, 0xdf60efc3, 0xa867df55, 0x316e8eef, 0x4669be79)
  const ROW_B0: Eight :=
    Eight(0xcb61b38c, 0xbc66831a, 0x256fd2a0, 0x5268e236, 0xcc0c7795, 0xbb0b4703, 0x220216b9, 0x5505262f)
  const ROW_B8: Eight :=
    Eight(0xc5ba3bbe, 0xb2bd0b28, 0x2bb45a92, 0x5cb36a04, 0xc2d7ffa7, 0xb5d0cf31, 0x2cd99e8b, 0x5bdeae1d)
  const ROW_C0: Eight :=
    Eight(0x9b64c2b0, 0xec63f226, 0x756aa39c, 0x026d930a, 0x9c0906a9, 0xeb0e363f, 0x72076785, 0x05005713)
  const ROW_C8: Eight :=
    Eight(0x95bf4a82, 0xe2b87a14, 0x7bb12bae, 0x0cb61b38, 0x92d28e9b, 0xe5d5be0d, 0x7cdcefb7, 0x0bdbdf21)
  const ROW_D0: Eight :=
    Eight(0x86d3d2d4, 0xf1d4e242, 0x68ddb3f8, 0x1fda836e, 0x81be16cd, 0xf6b9265b, 0x6fb077e1, 0x18b74777)
  const ROW_D8: Eight :=
    Eight(0x88085ae6, 0xff0f6a70, 0x66063bca, 0x11010b5c, 0x8f659eff, 0xf862ae69, 0x616bffd3, 0x166ccf45)
  const ROW_E0: Eight :=
    Eight(0xa00ae278, 0xd70dd2ee, 0x4e048354, 0x3903b3c2, 0xa7672661, 0xd06016f7, 0x4969474d, 0x3e6e77db)
  const ROW_E8: Eight :=
    Eight(0xaed16a4a, 0xd9d65adc, 0x40df0b66, 0x37d83bf0, 0xa9bcae53, 0xdebb9ec5, 0x47b2cf7f, 0x30b5ffe9)
  const ROW_F0: Eight :=
    Eight(0xbdbdf21c, 0xcabac28a, 0x53b39330, 0x24b4a3a6, 0xbad03605, 0xcdd70693, 0x54de5729, 0x23d967bf)
  const ROW_F8: Eight :=
    Eight(0xb3667a2e, 0xc4614ab8, 0x5d681b02, 0x2a6f2b94, 0xb40bbe37, 0xc30c8ea1, 0x5a05df1b, 0x2d02ef8d)

  function Row(h: bv32): Eight {
    if h < 8 then Row0(h) else if h < 16 then Row8(h) else if h < 24 then Row16(h) else Row24(h)
  }

  function Row0(h: bv32): Eight {
    match h
    case 0 => ROW_00 case 1 => ROW_08 case 2 => ROW_10 case 3 => ROW_18
    case 4 => ROW_20 case 5 => ROW_28 case 6 => ROW_30 case _ => ROW_38
  }

  function Row8(h: bv32): Eight {
    match h
    case 8 => ROW_40 case 9 => ROW_48 case 10 => ROW_50 case 11 => ROW_58
    case 12 => ROW_60 case 13 => ROW_68 case 14 => ROW_70 case _ => ROW_78
  }

  function Row16(h: bv32): Eight {
    match h
    case 16 => ROW_80 case 17 => ROW_88 case 18 => ROW_90 case 19 => ROW_98
    case 20 => ROW_A0 case 21 => ROW_A8 case 22 => ROW_B0 case _ => ROW_B8
  }

  function Row24(h: bv32): Eight {
    match h
    case 24 => ROW_C0 case 25 => ROW_C8 case 26 => ROW_D0 case 27 => ROW_D8
    case 28 => ROW_E0 case 29 => ROW_E8 case 30 => ROW_F0 case _ => ROW_F8
  }

  function Pick(row: Eight, i: bv32): bv32 {
    if i == 0 then row.e0 else if i == 1 then row.e1 else if i == 2 then row.e2 else if i == 3 then row.e3
    else if i == 4 then row.e4 else if i == 5 then row.e5 else if i == 6 then row.e6 else row.e7
  }

  /** The entry at index `x` below 256. */
  function Entry(x: bv32): bv32 {
    Pick(Row(x >> 3), x & 7)
  }

  function High24(x: bv32): bv32 {
    x & 0xffff_ff00
  }

  function Shift8(x: bv32): bv32 {
    x >> 8
  }

  /** The low octet. */
  function Low8(x: bv32): bv32 {
    x & 0xff
  }

  // ------------------------------------------------------------- the step

  lemma LowBit(x: bv32, y: bv32)
    ensures (x ^ y) & 1 == (x & 1) ^ (y & 1)
    ensures (x ^ y) >> 1 == (x >> 1) ^ (y >> 1)
    ensures (x & 1 == 0 || x & 1 == 1) && (y & 1 == 0 || y & 1 == 1)
  {
  }

  lemma Xors(a: bv32, b: bv32, p: bv32)
    ensures (a ^ p) ^ b == (a ^ b) ^ p
    ensures a ^ (b ^ p) == (a ^ b) ^ p
    ensures (a ^ p) ^ (b ^ p) == a ^ b
  {
  }

  lemma LinearBits(x: bv32, y: bv32, z: bv32)
    requires z == x ^ y
    ensures Step(z) == Step(x) ^ Step(y)
  {
    LowBit(x, y);
    Xors(x >> 1, y >> 1, POLYNOMIAL);
  }

  /** The step is linear over exclusive or. */
  lemma Linear(x: bv32, y: bv32, z: bv32)
    requires z == Xor(x, y)
    ensures Step(z) == Xor(Step(x), Step(y))
  {
    hide Step;
    LinearBits(x, y, z);
  }

  function Steps(x: bv32, n: nat): bv32
    decreases n
  {
    if n == 0 then x else Steps(Step(x), n - 1)
  }

  /** And so is any number of them. */
  lemma {:induction false} LinearSteps(x: bv32, y: bv32, z: bv32, n: nat)
    requires z == Xor(x, y)
    ensures Steps(z, n) == Xor(Steps(x, n), Steps(y, n))
    decreases n
  {
    hide Step;
    hide Xor;
    if n > 0 {
      Linear(x, y, z);
      LinearSteps(Step(x), Step(y), Step(z), n - 1);
    }
  }

  lemma EightAtOnce(x: bv32)
    ensures Steps(x, 8) == Step8(x)
  {
    hide Step;
    var y := Step(Step(Step(Step(x))));
    assert Steps(y, 4) == Step(Step(Step(Step(y))));
    assert Steps(x, 8) == Steps(y, 4);
  }

  // --------------------------------------------------- every entry is right

  /** The row differs from the first one by its first entry throughout. */
  predicate Like(row: Eight) {
    && row.e1 == Xor(row.e0, ROW_00.e1) && row.e2 == Xor(row.e0, ROW_00.e2) && row.e3 == Xor(row.e0, ROW_00.e3)
    && row.e4 == Xor(row.e0, ROW_00.e4) && row.e5 == Xor(row.e0, ROW_00.e5) && row.e6 == Xor(row.e0, ROW_00.e6)
    && row.e7 == Xor(row.e0, ROW_00.e7) && row.e0 == Xor(row.e0, ROW_00.e0)
  }

  lemma Base0(h: bv32)
    requires h < 8
    ensures Row0(h).e0 == Step8(h << 3)
  {
  }

  lemma Rows0()
    ensures Like(ROW_00) && Like(ROW_08) && Like(ROW_10) && Like(ROW_18)
    ensures Like(ROW_20) && Like(ROW_28) && Like(ROW_30) && Like(ROW_38)
  {
  }

  lemma Like0(h: bv32)
    requires h < 8
    ensures Like(Row0(h))
  {
    hide Like;
    Rows0();
  }

  lemma Base8(h: bv32)
    requires 8 <= h < 16
    ensures Row8(h).e0 == Step8(h << 3)
  {
  }

  lemma Rows8()
    ensures Like(ROW_40) && Like(ROW_48) && Like(ROW_50) && Like(ROW_58)
    ensures Like(ROW_60) && Like(ROW_68) && Like(ROW_70) && Like(ROW_78)
  {
  }

  lemma Like8(h: bv32)
    requires 8 <= h < 16
    ensures Like(Row8(h))
  {
    hide Like;
    Rows8();
  }

  lemma Base16(h: bv32)
    requires 16 <= h < 24
    ensures Row16(h).e0 == Step8(h << 3)
  {
  }

  lemma Rows16()
    ensures Like(ROW_80) && Like(ROW_88) && Like(ROW_90) && Like(ROW_98)
    ensures Like(ROW_A0) && Like(ROW_A8) && Like(ROW_B0) && Like(ROW_B8)
  {
  }

  lemma Like16(h: bv32)
    requires 16 <= h < 24
    ensures Like(Row16(h))
  {
    hide Like;
    Rows16();
  }

  lemma Base24(h: bv32)
    requires 24 <= h < 32
    ensures Row24(h).e0 == Step8(h << 3)
  {
  }

  lemma Rows24()
    ensures Like(ROW_C0) && Like(ROW_C8) && Like(ROW_D0) && Like(ROW_D8)
    ensures Like(ROW_E0) && Like(ROW_E8) && Like(ROW_F0) && Like(ROW_F8)
  {
  }

  lemma Like24(h: bv32)
    requires 24 <= h < 32
    ensures Like(Row24(h))
  {
    hide Like;
    Rows24();
  }

  lemma RowOk(h: bv32)
    requires h < 32
    ensures Row(h).e0 == Step8(h << 3) && Like(Row(h))
  {
    hide Step8;
    hide Like;
    hide Row0;
    hide Row8;
    hide Row16;
    hide Row24;
    if h < 8 {
      Base0(h);
      Like0(h);
    } else if h < 16 {
      Base8(h);
      Like8(h);
    } else if h < 24 {
      Base16(h);
      Like16(h);
    } else {
      Base24(h);
      Like24(h);
    }
  }

  lemma PickLike(row: Eight, i: bv32)
    requires Like(row)
    ensures Pick(row, i) == Xor(row.e0, Pick(ROW_00, i))
  {
    hide Xor;
  }

  lemma FirstRow(i: bv32)
    requires i < 8
    ensures Pick(ROW_00, i) == Step8(i)
  {
  }

  lemma IndexSplits(x: bv32)
    requires x < 0x100
    ensures x >> 3 < 32 && x & 7 < 8 && Xor((x >> 3) << 3, x & 7) == x
  {
  }

  /** Every entry of the table is eight steps of its index. */
  lemma EntryOk(x: bv32)
    requires x < 0x100
    ensures Entry(x) == Step8(x)
  {
    hide Row;
    hide Pick;
    hide Like;
    hide Step8;
    hide Xor;
    hide Steps;
    IndexSplits(x);
    RowOk(x >> 3);
    PickLike(Row(x >> 3), x & 7);
    FirstRow(x & 7);
    LinearSteps((x >> 3) << 3, x & 7, x, 8);
    EightAtOnce(x);
    EightAtOnce((x >> 3) << 3);
    EightAtOnce(x & 7);
  }

  // ------------------------------------------------- eight bits at a time

  function Halved(x: bv32, n: nat): bv32
    decreases n
  {
    if n == 0 then x else Halved(Half(x), n - 1)
  }

  predicate Odd(x: bv32) {
    x & 1 == 1
  }

  /** The low `n` bits are all zero. */
  predicate LowZeros(x: bv32, n: nat)
    decreases n
  {
    n == 0 || (!Odd(x) && LowZeros(Half(x), n - 1))
  }

  /** The low `n` bits are all one. */
  predicate LowOnes(x: bv32, n: nat)
    decreases n
  {
    n == 0 || (Odd(x) && LowOnes(Half(x), n - 1))
  }

  function Masked(x: bv32, mask: bv32): bv32 {
    x & mask
  }

  lemma HalfMasked(x: bv32, mask: bv32)
    requires Masked(x, mask) == 0 && Odd(mask)
    ensures !Odd(x) && Masked(Half(x), Half(mask)) == 0
  {
  }

  lemma {:induction false} MaskedZeros(x: bv32, mask: bv32, n: nat)
    requires Masked(x, mask) == 0 && LowOnes(mask, n)
    ensures LowZeros(x, n)
    decreases n
  {
    hide Masked;
    hide Odd;
    hide Half;
    if n > 0 {
      HalfMasked(x, mask);
      MaskedZeros(Half(x), Half(mask), n - 1);
    }
  }

  lemma EightOnes()
    ensures LowOnes(0xff, 8)
  {
    assert Half(0xff) == 0x7f && Half(0x7f) == 0x3f && Half(0x3f) == 0x1f && Half(0x1f) == 0xf;
    assert Half(0xf) == 7 && Half(7) == 3 && Half(3) == 1;
    assert LowOnes(0xf, 4);
  }

  lemma StepEven(x: bv32)
    requires !Odd(x)
    ensures Step(x) == Half(x)
  {
  }

  /** Over zero bits the steps only shift. */
  lemma {:induction false} ZerosShift(x: bv32, n: nat)
    requires LowZeros(x, n)
    ensures Steps(x, n) == Halved(x, n)
    decreases n
  {
    hide Step;
    hide Odd;
    hide Half;
    if n > 0 {
      StepEven(x);
      ZerosShift(Half(x), n - 1);
    }
  }

  lemma HalfTwice(x: bv32)
    ensures Half(Half(x)) == x >> 2
  {
  }

  lemma QuarterTwice(x: bv32)
    ensures (x >> 2) >> 2 == x >> 4 && (x >> 4) >> 4 == x >> 8
  {
  }

  lemma HalvedEight(x: bv32)
    ensures Halved(x, 8) == Shift8(x)
  {
    hide Half;
    var y := Half(Half(Half(Half(x))));
    assert Halved(x, 8) == Halved(y, 4) == Half(Half(Half(Half(y))));
    hide Halved;
    HalfTwice(x);
    HalfTwice(Half(Half(x)));
    HalfTwice(y);
    HalfTwice(Half(Half(y)));
    QuarterTwice(x);
    QuarterTwice(y);
  }

  /** Without low bits the steps only shift. */
  lemma Shifts(x: bv32)
    requires Masked(x, 0xff) == 0
    ensures Step8(x) == Shift8(x)
  {
    hide *;
    EightOnes();
    MaskedZeros(x, 0xff, 8);
    ZerosShift(x, 8);
    HalvedEight(x);
    EightAtOnce(x);
  }

  lemma LowOctet(x: bv32)
    ensures x == Xor(Low8(x), High24(x))
    ensures Low8(x) < 0x100 && Masked(High24(x), 0xff) == 0 && Shift8(High24(x)) == Shift8(x)
  {
  }

  /** Eight steps are the low octet's entry and the rest shifted. */
  lemma EightSteps(x: bv32, low: bv32, high: bv32)
    requires x == Xor(low, high) && low < 0x100 && Masked(high, 0xff) == 0
    ensures Step8(x) == Xor(Entry(low), Shift8(high))
  {
    hide *;
    LinearSteps(low, high, x, 8);
    EightAtOnce(x);
    EightAtOnce(low);
    EightAtOnce(high);
    EntryOk(low);
    Shifts(high);
  }

  /** The octet has no more than `n` bits. */
  predicate Bits(octet: bv32, n: nat)
    decreases n
  {
    if n == 0 then octet == 0 else Bits(Half(octet), n - 1)
  }

  lemma SplitLow(crc: bv32, octet: bv32)
    ensures Xor(crc, octet) == Xor(Xor(crc, octet & 1), octet & 0xffff_fffe)
    ensures !Odd(octet & 0xffff_fffe) && Half(octet & 0xffff_fffe) == Half(octet)
  {
  }

  lemma TakeOne(crc: bv32, octet: bv32)
    ensures Step(Xor(crc, octet)) == Xor(Step(Xor(crc, octet & 1)), Half(octet))
  {
    hide *;
    SplitLow(crc, octet);
    Linear(Xor(crc, octet & 1), octet & 0xffff_fffe, Xor(crc, octet));
    StepEven(octet & 0xffff_fffe);
  }

  lemma XorZero(x: bv32)
    ensures Xor(x, 0) == x
  {
  }

  /** Bit by bit is the same as the whole octet at once. */
  lemma {:induction false} BitsAtOnce(crc: bv32, octet: bv32, n: nat)
    requires Bits(octet, n)
    ensures TakeBits(crc, octet, n) == Steps(Xor(crc, octet), n)
    decreases n
  {
    hide Step;
    hide Xor;
    hide Half;
    XorZero(crc);
    if n > 0 {
      TakeOne(crc, octet);
      BitsAtOnce(Step(Xor(crc, octet & 1)), Half(octet), n - 1);
    }
  }

  lemma OctetBits(octet: bv32)
    requires octet < 0x100
    ensures Bits(octet, 8)
  {
    var y := Half(Half(Half(Half(octet))));
    assert Half(Half(Half(Half(y)))) == 0;
    assert Bits(y, 4) == (Half(Half(Half(Half(y)))) == 0);
    assert Bits(octet, 8) == Bits(y, 4);
  }

  /** `UPDC32` on 32 bits. */
  function Update(octet: bv8, crc: bv32): bv32 {
    Xor(Entry(Low8(Xor(crc, octet as bv32))), Shift8(crc))
  }

  lemma OctetShifted(octet: bv8, crc: bv32)
    ensures Shift8(Xor(crc, octet as bv32)) == Shift8(crc) && octet as bv32 < 0x100
  {
  }

  lemma UpdateIs(octet: bv8, crc: bv32, x: bv32)
    requires x == Xor(crc, octet as bv32)
    ensures Update(octet, crc) == Xor(Entry(Low8(x)), Shift8(x))
  {
    hide Entry;
    hide Low8;
    OctetShifted(octet, crc);
    hide Xor;
  }

  /** The table step takes in the eight bits of an octet. */
  lemma UpdateTakesBits(octet: bv8, crc: bv32)
    ensures Update(octet, crc) == TakeBits(crc, octet as bv32, 8)
  {
    hide *;
    var x := Xor(crc, octet as bv32);
    LowOctet(x);
    EightSteps(x, Low8(x), High24(x));
    UpdateIs(octet, crc, x);
    OctetShifted(octet, crc);
    OctetBits(octet as bv32);
    BitsAtOnce(crc, octet as bv32, 8);
    EightAtOnce(x);
  }

  // ------------------------------------------------------------- the code

  function Wide(x: bv32): bv64 {
    x as bv64
  }

  function Index64(octet: bv8, crc: bv64): bv32 {
    ((crc ^ (octet as bv64)) & 0xff) as bv32
  }

  function Join64(entry: bv32, crc: bv64): bv64 {
    (entry as bv64) ^ (crc >> 8)
  }

  /** `UPDC32`.  The accumulator is an unsigned long of 64 bits. */
  function Update64(octet: bv8, crc: bv64): bv64 {
    Join64(Entry(Index64(octet, crc)), crc)
  }

  lemma NarrowIndex(octet: bv8, crc: bv32)
    ensures Index64(octet, Wide(crc)) == Low8(Xor(crc, octet as bv32))
  {
  }

  lemma NarrowJoin(entry: bv32, crc: bv32)
    ensures Join64(entry, Wide(crc)) == Wide(Xor(entry, Shift8(crc)))
  {
  }

  /** It never uses more than its low 32 bits. */
  lemma Update64Is(octet: bv8, crc: bv32)
    ensures Update64(octet, Wide(crc)) == Wide(Update(octet, crc))
  {
    hide Entry;
    hide Wide;
    hide Xor;
    hide Index64;
    hide Join64;
    NarrowIndex(octet, crc);
    NarrowJoin(Entry(Low8(Xor(crc, octet as bv32))), crc);
  }

  /** The complemented checksum in 64 bits: ones above its 32 bits. */
  function Complement(crc: bv32): bv64 {
    0xffff_ffff_0000_0000 | ((!crc) as bv64)
  }

  lemma ComplementIs(crc: bv32, wide: bv64)
    requires wide == crc as bv64
    ensures !wide == Complement(crc)
  {
  }

  /** The closing `~`. */
  method Inverted(wide: bv64, ghost crc: bv32) returns (r: bv64)
    requires wide == Wide(crc)
    ensures r == Complement(crc)
  {
    ComplementIs(crc, wide);
    hide *;
    r := !wide;
  }

  /** `crc32`: the complement of the bitwise CRC, with all ones above its 32 bits. */
  method Crc32(octets: seq<bv8>) returns (r: bv64)
    ensures r == Complement(Bitwise(octets))
  {
    WideStart();
    hide *;
    var crc: bv64 := 0xffff_ffff;
    for i := 0 to |octets|
      invariant crc == Wide(Bitwise(octets[..i]))
    {
      BitwiseNext(octets, i);
      UpdateTakesBits(octets[i], Bitwise(octets[..i]));
      Update64Is(octets[i], Bitwise(octets[..i]));
      crc := Update64(octets[i], crc);
    }
    assert octets[..|octets|] == octets;
    r := Inverted(crc, Bitwise(octets));
  }

  lemma WideStart()
    ensures Wide(Bitwise([])) == 0xffff_ffff
  {
  }

  lemma BitwiseNext(octets: seq<bv8>, i: nat)
    requires i < |octets|
    ensures Bitwise(octets[..i + 1]) == TakeBits(Bitwise(octets[..i]), octets[i] as bv32, 8)
  {
    hide TakeBits;
    assert octets[..i + 1][..i] == octets[..i];
  }

  // ------------------------------------------------- octets tell apart

  function Low(x: bv32): bv32 {
    x & 1
  }

  function Top(x: bv32): bv32 {
    x >> 31
  }

  function Join(half: bv32, low: bv32): bv32 {
    (half << 1) | low
  }

  function Unshifted(x: bv32): bv32 {
    if Top(x) == 1 then x ^ POLYNOMIAL else x
  }

  lemma TopBits(x: bv32)
    ensures Low(x) == 0 || Low(x) == 1
    ensures Top(x >> 1) == 0 && Top((x >> 1) ^ POLYNOMIAL) == 1
    ensures ((x >> 1) ^ POLYNOMIAL) ^ POLYNOMIAL == x >> 1
    ensures Join(Half(x), Low(x)) == x
  {
  }

  /** The top bit of a step is the bit it shifted out. */
  lemma Undone(x: bv32)
    ensures Top(Step(x)) == Low(x) && Unshifted(Step(x)) == Half(x) && Join(Half(x), Low(x)) == x
  {
    hide Top;
    hide Join;
    TopBits(x);
  }

  lemma StepInjective(x: bv32, y: bv32)
    requires Step(x) == Step(y)
    ensures x == y
  {
    hide *;
    Undone(x);
    Undone(y);
  }

  lemma {:induction false} StepsInjective(x: bv32, y: bv32, n: nat)
    requires Steps(x, n) == Steps(y, n)
    ensures x == y
    decreases n
  {
    hide Step;
    if n > 0 {
      StepsInjective(Step(x), Step(y), n - 1);
      StepInjective(x, y);
    }
  }

  lemma XorCancels(x: bv32, y: bv32, o: bv32)
    ensures Xor(x, o) == Xor(y, o) ==> x == y
    ensures Xor(o, x) == Xor(o, y) ==> x == y
  {
    assert (x ^ o) ^ o == x && (y ^ o) ^ o == y;
    assert (o ^ x) ^ o == x && (o ^ y) ^ o == y;
  }

  /** Neither the register nor the octet is lost by taking the octet in. */
  lemma TakeInjective(c: bv32, d: bv32, a: bv8, b: bv8)
    requires TakeBits(c, a as bv32, 8) == TakeBits(d, b as bv32, 8) && (c == d || a == b)
    ensures c == d && a == b
  {
    hide TakeBits;
    hide Steps;
    hide Xor;
    OctetShifted(a, c);
    OctetShifted(b, d);
    OctetBits(a as bv32);
    OctetBits(b as bv32);
    BitsAtOnce(c, a as bv32, 8);
    BitsAtOnce(d, b as bv32, 8);
    StepsInjective(Xor(c, a as bv32), Xor(d, b as bv32), 8);
    XorCancels(c, d, a as bv32);
    XorCancels(a as bv32, b as bv32, c);
    SameOctet(a, b);
  }

  lemma SameOctet(a: bv8, b: bv8)
    ensures a as bv32 == b as bv32 ==> a == b
  {
  }

  /** Two names of one length that differ in a single octet never share a checksum. */
  lemma {:induction false} OneOctetTells(a: seq<bv8>, b: seq<bv8>, k: nat)
    requires |a| == |b| && k < |a| && a[k] != b[k]
    requires forall i :: 0 <= i < |a| && i != k ==> a[i] == b[i]
    ensures Bitwise(a) != Bitwise(b)
    decreases |a|
  {
    hide TakeBits;
    var n := |a| - 1;
    if k == n {
      assert a[..n] == b[..n];
    } else {
      OneOctetTells(a[..n], b[..n], k);
    }
    if Bitwise(a) == Bitwise(b) {
      TakeInjective(Bitwise(a[..n]), Bitwise(b[..n]), a[n], b[n]);
    }
  }
}
