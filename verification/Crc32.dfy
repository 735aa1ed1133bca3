/**
 The 32-bit frame check sequence of RFC 1662 (Appendix C.3) and the lookup table the
 Ralink driver computes it with.

 The reference definition, `BitCrc`, divides a sequence of message bits, least significant
 bit of each octet first, by the reflected polynomial 0xedb88320. The driver's byte-at-a-time
 table is proved to compute it, and the error-detection facts WEP relies on are proved
 about it.
 */
module Crc32 {

  // ---------------------------------------------------------------- bit-level definition

  /** One message bit through the shift register. */
  function BitStep(c: bv32, bit: bool): bv32 {
    if (c & 1 == 1) != bit then (c >> 1) ^ 0xedb88320 else c >> 1
  }

  function BitCrc(c: bv32, bits: seq<bool>): bv32
    decreases |bits|
  {
    if bits == [] then c else BitCrc(BitStep(c, bits[0]), bits[1..])
  }

  /** The low `n` bits of `w`, least significant first. */
  function LowBits(w: bv32, n: nat): (bits: seq<bool>)
    ensures |bits| == n
  {
    if n == 0 then [] else [w & 1 == 1] + LowBits(w >> 1, n - 1)
  }

  function OctetBits(b: bv8): (bits: seq<bool>)
    ensures |bits| == 8
  {
    LowBits(b as bv32, 8)
  }

  /** The order in which octets enter the register: first octet first, low bit first. */
  function MessageBits(data: seq<bv8>): (bits: seq<bool>)
    ensures |bits| == 8 * |data|
  {
    if data == [] then [] else OctetBits(data[0]) + MessageBits(data[1..])
  }

  function Fcs32(c: bv32, data: seq<bv8>): bv32 {
    BitCrc(c, MessageBits(data))
  }

  const INIT_FCS32: bv32 := 0xffffffff
  const GOOD_FCS32: bv32 := 0xdebb20e3

  /** cpu2le32 followed by a byte copy: the octets of a word, low octet first. */
  function LittleEndian(w: bv32): (octets: seq<bv8>)
    ensures |octets| == 4
  {
    [(w & 0xff) as bv8, ((w >> 8) & 0xff) as bv8, ((w >> 16) & 0xff) as bv8, ((w >> 24) & 0xff) as bv8]
  }

  // ---------------------------------------------------------------- the lookup table

  const ROW_00: seq<bv32> := [0x00000000, 0x77073096, 0xee0e612c, 0x990951ba,
                            0x076dc419, 0x706af48f, 0xe963a535, 0x9e6495a3]
  const ROW_01: seq<bv32> := [0x0edb8832, 0x79dcb8a4, 0xe0d5e91e, 0x97d2d988,
                            0x09b64c2b, 0x7eb17cbd, 0xe7b82d07, 0x90bf1d91]
  const ROW_02: seq<bv32> := [0x1db71064, 0x6ab020f2, 0xf3b97148, 0x84be41de,
                            0x1adad47d, 0x6ddde4eb, 0xf4d4b551, 0x83d385c7]
  const ROW_03: seq<bv32> := [0x136c9856, 0x646ba8c0, 0xfd62f97a, 0x8a65c9ec,
                            0x14015c4f, 0x63066cd9, 0xfa0f3d63, 0x8d080df5]
  const ROW_04: seq<bv32> := [0x3b6e20c8, 0x4c69105e, 0xd56041e4, 0xa2677172,
                            0x3c03e4d1, 0x4b04d447, 0xd20d85fd, 0xa50ab56b]
  const ROW_05: seq<bv32> := [0x35b5a8fa, 0x42b2986c, 0xdbbbc9d6, 0xacbcf940,
                            0x32d86ce3, 0x45df5c75, 0xdcd60dcf, 0xabd13d59]
  const ROW_06: seq<bv32> := [0x26d930ac, 0x51de003a, 0xc8d75180, 0xbfd06116,
                            0x21b4f4b5, 0x56b3c423, 0xcfba9599, 0xb8bda50f]
  const ROW_07: seq<bv32> := [0x2802b89e, 0x5f058808, 0xc60cd9b2, 0xb10be924,
                            0x2f6f7c87, 0x58684c11, 0xc1611dab, 0xb6662d3d]
  const ROW_08: seq<bv32> := [0x76dc4190, 0x01db7106, 0x98d220bc, 0xefd5102a,
                            0x71b18589, 0x06b6b51f, 0x9fbfe4a5, 0xe8b8d433]
  const ROW_09: seq<bv32> := [0x7807c9a2, 0x0f00f934, 0x9609a88e, 0xe10e9818,
                            0x7f6a0dbb, 0x086d3d2d, 0x91646c97, 0xe6635c01]
  const ROW_10: seq<bv32> := [0x6b6b51f4, 0x1c6c6162, 0x856530d8, 0xf262004e,
                            0x6c0695ed, 0x1b01a57b, 0x8208f4c1, 0xf50fc457]
  const ROW_11: seq<bv32> := [0x65b0d9c6, 0x12b7e950, 0x8bbeb8ea, 0xfcb9887c,
                            0x62dd1ddf, 0x15da2d49, 0x8cd37cf3, 0xfbd44c65]
  const ROW_12: seq<bv32> := [0x4db26158, 0x3ab551ce, 0xa3bc0074, 0xd4bb30e2,
                            0x4adfa541, 0x3dd895d7, 0xa4d1c46d, 0xd3d6f4fb]
  const ROW_13: seq<bv32> := [0x4369e96a, 0x346ed9fc, 0xad678846, 0xda60b8d0,
                            0x44042d73, 0x33031de5, 0xaa0a4c5f, 0xdd0d7cc9]
  const ROW_14: seq<bv32> := [0x5005713c, 0x270241aa, 0xbe0b1010, 0xc90c2086,
                            0x5768b525, 0x206f85b3, 0xb966d409, 0xce61e49f]
  const ROW_15: seq<bv32> := [0x5edef90e, 0x29d9c998, 0xb0d09822, 0xc7d7a8b4,
                            0x59b33d17, 0x2eb40d81, 0xb7bd5c3b, 0xc0ba6cad]
  const ROW_16: seq<bv32> := [0xedb88320, 0x9abfb3b6, 0x03b6e20c, 0x74b1d29a,
                            0xead54739, 0x9dd277af, 0x04db2615, 0x73dc1683]
  const ROW_17: seq<bv32> := [0xe3630b12, 0x94643b84, 0x0d6d6a3e, 0x7a6a5aa8,
                            0xe40ecf0b, 0x9309ff9d, 0x0a00ae27, 0x7d079eb1]
  const ROW_18: seq<bv32> := [0xf00f9344, 0x8708a3d2, 0x1e01f268, 0x6906c2fe,
                            0xf762575d, 0x806567cb, 0x196c3671, 0x6e6b06e7]
  const ROW_19: seq<bv32> := [0xfed41b76, 0x89d32be0, 0x10da7a5a, 0x67dd4acc,
                            0xf9b9df6f, 0x8ebeeff9, 0x17b7be43, 0x60b08ed5]
  const ROW_20: seq<bv32> := [0xd6d6a3e8, 0xa1d1937e, 0x38d8c2c4, 0x4fdff252,
                            0xd1bb67f1, 0xa6bc5767, 0x3fb506dd, 0x48b2364b]
  const ROW_21: seq<bv32> := [0xd80d2bda, 0xaf0a1b4c, 0x36034af6, 0x41047a60,
                            0xdf60efc3, 0xa867df55, 0x316e8eef, 0x4669be79]
  const ROW_22: seq<bv32> := [0xcb61b38c, 0xbc66831a, 0x256fd2a0, 0x5268e236,
                            0xcc0c7795, 0xbb0b4703, 0x220216b9, 0x5505262f]
  const ROW_23: seq<bv32> := [0xc5ba3bbe, 0xb2bd0b28, 0x2bb45a92, 0x5cb36a04,
                            0xc2d7ffa7, 0xb5d0cf31, 0x2cd99e8b, 0x5bdeae1d]
  const ROW_24: seq<bv32> := [0x9b64c2b0, 0xec63f226, 0x756aa39c, 0x026d930a,
                            0x9c0906a9, 0xeb0e363f, 0x72076785, 0x05005713]
  const ROW_25: seq<bv32> := [0x95bf4a82, 0xe2b87a14, 0x7bb12bae, 0x0cb61b38,
                            0x92d28e9b, 0xe5d5be0d, 0x7cdcefb7, 0x0bdbdf21]
  const ROW_26: seq<bv32> := [0x86d3d2d4, 0xf1d4e242, 0x68ddb3f8, 0x1fda836e,
                            0x81be16cd, 0xf6b9265b, 0x6fb077e1, 0x18b74777]
  const ROW_27: seq<bv32> := [0x88085ae6, 0xff0f6a70, 0x66063bca, 0x11010b5c,
                            0x8f659eff, 0xf862ae69, 0x616bffd3, 0x166ccf45]
  const ROW_28: seq<bv32> := [0xa00ae278, 0xd70dd2ee, 0x4e048354, 0x3903b3c2,
                            0xa7672661, 0xd06016f7, 0x4969474d, 0x3e6e77db]
  const ROW_29: seq<bv32> := [0xaed16a4a, 0xd9d65adc, 0x40df0b66, 0x37d83bf0,
                            0xa9bcae53, 0xdebb9ec5, 0x47b2cf7f, 0x30b5ffe9]
  const ROW_30: seq<bv32> := [0xbdbdf21c, 0xcabac28a, 0x53b39330, 0x24b4a3a6,
                            0xbad03605, 0xcdd70693, 0x54de5729, 0x23d967bf]
  const ROW_31: seq<bv32> := [0xb3667a2e, 0xc4614ab8, 0x5d681b02, 0x2a6f2b94,
                            0xb40bbe37, 0xc30c8ea1, 0x5a05df1b, 0x2d02ef8d]

  const ROWS: seq<seq<bv32>> := [
    ROW_00, ROW_01, ROW_02, ROW_03, ROW_04, ROW_05, ROW_06, ROW_07,
    ROW_08, ROW_09, ROW_10, ROW_11, ROW_12, ROW_13, ROW_14, ROW_15,
    ROW_16, ROW_17, ROW_18, ROW_19, ROW_20, ROW_21, ROW_22, ROW_23,
    ROW_24, ROW_25, ROW_26, ROW_27, ROW_28, ROW_29, ROW_30, ROW_31
  ]

  /** The driver's table, laid out in rows of eight. */
  const FCSTAB_32: seq<bv32> := seq(256, i requires 0 <= i < 256 => ROWS[i / 8][i % 8])

  // ---------------------------------------------------------------- algebra of the register

  function ShiftN(c: bv32, n: nat): bv32
    decreases n
  {
    if n == 0 then c else ShiftN(BitStep(c, false), n - 1)
  }

  lemma LowBitXor(a: bv32, b: bv32)
    ensures ((a ^ b) & 1 == 1) == ((a & 1 == 1) != (b & 1 == 1))
  {
  }

  // Xor commutes with one shift, in the three shapes the feedback tap can take.

  lemma ShiftXorBoth(a: bv32, b: bv32, r: bv32, sa: bv32, sb: bv32, s: bv32)
    requires sa == (a >> 1) ^ r && sb == (b >> 1) ^ r && s == (a ^ b) >> 1
    ensures s == sa ^ sb
  {
  }

  lemma ShiftXorOne(a: bv32, b: bv32, r: bv32, sa: bv32, sb: bv32, s: bv32)
    requires sa == (a >> 1) ^ r && sb == b >> 1 && s == ((a ^ b) >> 1) ^ r
    ensures s == sa ^ sb && s == sb ^ sa
  {
  }

  lemma ShiftXorNone(a: bv32, b: bv32, sa: bv32, sb: bv32, s: bv32)
    requires sa == a >> 1 && sb == b >> 1 && s == (a ^ b) >> 1
    ensures s == sa ^ sb
  {
  }

  /** A name for xor, so that inductive proofs can keep it uninterpreted. */
  function Xor(a: bv32, b: bv32): bv32 {
    a ^ b
  }

  lemma XorCommutes(a: bv32, b: bv32)
    ensures Xor(a, b) == Xor(b, a)
  {
  }

  ghost predicate Linear(a: bv32, b: bv32, x: bool, y: bool) {
    BitStep(a ^ b, x != y) == BitStep(a, x) ^ BitStep(b, y)
  }

  lemma LinearBothFeed(a: bv32, b: bv32, x: bool, y: bool)
    requires (a & 1 == 1) != x && (b & 1 == 1) != y
    ensures Linear(a, b, x, y)
  {
    LowBitXor(a, b);
    ShiftXorBoth(a, b, 0xedb88320, BitStep(a, x), BitStep(b, y), BitStep(a ^ b, x != y));
  }

  lemma LinearOneFeeds(a: bv32, b: bv32, x: bool, y: bool)
    requires (a & 1 == 1) != x && (b & 1 == 1) == y
    ensures Linear(a, b, x, y)
  {
    LowBitXor(a, b);
    ShiftXorOne(a, b, 0xedb88320, BitStep(a, x), BitStep(b, y), BitStep(a ^ b, x != y));
  }

  lemma LinearNoFeed(a: bv32, b: bv32, x: bool, y: bool)
    requires (a & 1 == 1) == x && (b & 1 == 1) == y
    ensures Linear(a, b, x, y)
  {
    LowBitXor(a, b);
    ShiftXorNone(a, b, BitStep(a, x), BitStep(b, y), BitStep(a ^ b, x != y));
  }

  lemma LinearIsXor(a: bv32, b: bv32, x: bool, y: bool)
    requires Linear(a, b, x, y)
    ensures BitStep(Xor(a, b), x != y) == Xor(BitStep(a, x), BitStep(b, y))
  {
    hide BitStep;
  }

  /** The register is linear over GF(2). */
  lemma BitStepLinear(a: bv32, b: bv32, x: bool, y: bool)
    ensures BitStep(Xor(a, b), x != y) == Xor(BitStep(a, x), BitStep(b, y))
  {
    hide BitStep, Xor, Linear;
    if (a & 1 == 1) != x && (b & 1 == 1) != y {
      LinearBothFeed(a, b, x, y);
    } else if (a & 1 == 1) != x {
      LinearOneFeeds(a, b, x, y);
    } else if (b & 1 == 1) != y {
      LinearOneFeeds(b, a, y, x);
      LinearIsXor(b, a, y, x);
      XorCommutes(a, b);
      XorCommutes(BitStep(a, x), BitStep(b, y));
      return;
    } else {
      LinearNoFeed(a, b, x, y);
    }
    LinearIsXor(a, b, x, y);
  }

  function XorBits(d: seq<bool>, e: seq<bool>): (r: seq<bool>)
    requires |d| == |e|
    ensures |r| == |d|
  {
    seq(|d|, i requires 0 <= i < |d| => d[i] != e[i])
  }

  /** The checksum of a bitwise difference is the difference of the checksums. */
  lemma {:induction false} CrcLinear(a: bv32, b: bv32, d: seq<bool>, e: seq<bool>)
    requires |d| == |e|
    ensures BitCrc(Xor(a, b), XorBits(d, e)) == Xor(BitCrc(a, d), BitCrc(b, e))
    decreases |d|
  {
    hide BitStep, Xor;
    if d != [] {
      BitStepLinear(a, b, d[0], e[0]);
      CrcLinear(BitStep(a, d[0]), BitStep(b, e[0]), d[1..], e[1..]);
      assert XorBits(d, e)[1..] == XorBits(d[1..], e[1..]);
    }
  }

  lemma {:induction false} CrcConcat(c: bv32, d: seq<bool>, e: seq<bool>)
    ensures BitCrc(c, d + e) == BitCrc(BitCrc(c, d), e)
    decreases |d|
  {
    hide BitStep;
    if d == [] {
      assert d + e == e;
    } else {
      CrcConcat(BitStep(c, d[0]), d[1..], e);
      assert (d + e)[1..] == d[1..] + e;
    }
  }

  // ---------------------------------------------------------------- burst detection

  lemma BitStepInjective(a: bv32, b: bv32, x: bool)
    requires BitStep(a, x) == BitStep(b, x)
    ensures a == b
  {
  }

  lemma BitStepKeepsHigh(c: bv32, k: bv32, x: bool)
    requires 1 <= k <= 31 && c >> k != 0
    ensures BitStep(c, x) >> (k - 1) != 0
  {
  }

  /** A register whose top bits are set stays nonzero while at most `k` set bits can still arrive. */
  lemma {:induction false} HighBitSurvives(c: bv32, k: bv32, bits: seq<bool>)
    requires k <= 31 && c >> k != 0
    requires forall j | k as int <= j < |bits| :: !bits[j]
    ensures BitCrc(c, bits) != 0
    decreases |bits|
  {
    hide BitStep;
    if bits == [] {
      assert c != 0;
    } else if k == 0 {
      NonzeroShift(c);
      HighBitSurvives(BitStep(c, bits[0]), 0, bits[1..]);
    } else {
      BitStepKeepsHigh(c, k, bits[0]);
      assert (k - 1) as int == k as int - 1;
      HighBitSurvives(BitStep(c, bits[0]), k - 1, bits[1..]);
    }
  }

  lemma NonzeroShift(c: bv32)
    requires c >> 0 != 0
    ensures BitStep(c, false) != 0 && BitStep(c, false) >> 0 != 0
  {
  }

  lemma ZeroRegister()
    ensures BitStep(0, false) == 0
    ensures BitStep(0, true) >> 31 != 0
  {
  }

  /** Every nonzero error whose set bits span at most 32 positions changes the checksum. */
  lemma {:induction false} BurstDetected(e: seq<bool>, first: nat, last: nat)
    requires first <= last < |e| && last < first + 32
    requires e[first]
    requires forall j | 0 <= j < |e| && (j < first || last < j) :: !e[j]
    ensures BitCrc(0, e) != 0
    decreases |e|
  {
    hide BitStep;
    ZeroRegister();
    if first == 0 {
      assert forall j | 31 <= j < |e[1..]| :: !e[1..][j];
      HighBitSurvives(BitStep(0, true), 31, e[1..]);
    } else {
      BurstDetected(e[1..], first - 1, last - 1);
    }
  }

  // ---------------------------------------------------------------- octets and words

  function DropBits(w: bv32, n: nat): bv32
    decreases n
  {
    if n == 0 then w else DropBits(w >> 1, n - 1)
  }

  lemma XorCancels(c: bv32, w: bv32)
    ensures Xor(Xor(c, w), w) == c
  {
  }

  /** A register fed its own low bit only shifts. */
  lemma SelfFed(w: bv32)
    ensures BitStep(w, w & 1 == 1) == w >> 1
  {
  }

  lemma FeedBit(c: bv32, w: bv32)
    ensures Xor(BitStep(c, w & 1 == 1), w >> 1) == BitStep(Xor(c, w), false)
  {
    hide BitStep, Xor;
    BitStepLinear(c, w, w & 1 == 1, w & 1 == 1);
    SelfFed(w);
  }

  /** Feeding the low bits of `w` is the same as xoring `w` in first and then shifting. */
  lemma {:induction false} FeedWord(c: bv32, w: bv32, n: nat)
    ensures BitCrc(c, LowBits(w, n)) == Xor(ShiftN(Xor(c, w), n), DropBits(w, n))
    decreases n
  {
    hide BitStep, Xor;
    if n == 0 {
      XorCancels(c, w);
    } else {
      FeedBit(c, w);
      var bits := LowBits(w, n);
      assert bits[1..] == LowBits(w >> 1, n - 1);
      FeedWord(BitStep(c, bits[0]), w >> 1, n - 1);
    }
  }

  lemma {:induction false} ShiftAdd(c: bv32, m: nat, n: nat)
    ensures ShiftN(c, m + n) == ShiftN(ShiftN(c, m), n)
    decreases m
  {
    hide BitStep;
    if m != 0 {
      ShiftAdd(BitStep(c, false), m - 1, n);
    }
  }

  lemma {:induction false} ShiftLinear(a: bv32, b: bv32, n: nat)
    ensures ShiftN(Xor(a, b), n) == Xor(ShiftN(a, n), ShiftN(b, n))
    decreases n
  {
    hide BitStep, Xor;
    if n != 0 {
      BitStepLinear(a, b, false, false);
      ShiftLinear(BitStep(a, false), BitStep(b, false), n - 1);
    }
  }

  lemma {:induction false} ShiftInjective(a: bv32, b: bv32, n: nat)
    requires ShiftN(a, n) == ShiftN(b, n)
    ensures a == b
    decreases n
  {
    hide BitStep;
    if n != 0 {
      ShiftInjective(BitStep(a, false), BitStep(b, false), n - 1);
      BitStepInjective(a, b, false);
    }
  }

  // ---------------------------------------------------------------- the table computes eight shifts

  function Bit(i: bv8, m: bv8, x: bv32): bv32 {
    if i & m == 0 then 0 else x
  }

  // The exclusive or of the table entries of the single bits of an index.

  function LowEntry(i: bv8): bv32 {
    Xor(Xor(Bit(i, 0x01, 0x77073096), Bit(i, 0x02, 0xee0e612c)), Bit(i, 0x04, 0x076dc419))
  }

  function HighEntry(i: bv8): bv32 {
    Xor(Xor(Xor(Xor(Bit(i, 0x08, 0x0edb8832), Bit(i, 0x10, 0x1db71064)), Bit(i, 0x20, 0x3b6e20c8)),
            Bit(i, 0x40, 0x76dc4190)), Bit(i, 0x80, 0xedb88320))
  }

  function Entry(i: bv8): bv32 {
    Xor(LowEntry(i), HighEntry(i))
  }

  /** A row of the table: its first entry xored onto the first row. */
  function RowFrom(x: bv32): (row: seq<bv32>)
    ensures |row| == 8
  {
    [Xor(0x00000000, x), Xor(0x77073096, x), Xor(0xee0e612c, x), Xor(0x990951ba, x),
     Xor(0x076dc419, x), Xor(0x706af48f, x), Xor(0xe963a535, x), Xor(0x9e6495a3, x)]
  }

  // The driver's literals, eight rows at a time.

  lemma Rows0()
    ensures ROW_00 == RowFrom(HighEntry(0x00)) && ROW_01 == RowFrom(HighEntry(0x08))
    ensures ROW_02 == RowFrom(HighEntry(0x10)) && ROW_03 == RowFrom(HighEntry(0x18))
    ensures ROW_04 == RowFrom(HighEntry(0x20)) && ROW_05 == RowFrom(HighEntry(0x28))
    ensures ROW_06 == RowFrom(HighEntry(0x30)) && ROW_07 == RowFrom(HighEntry(0x38))
  {
  }

  lemma Rows1()
    ensures ROW_08 == RowFrom(HighEntry(0x40)) && ROW_09 == RowFrom(HighEntry(0x48))
    ensures ROW_10 == RowFrom(HighEntry(0x50)) && ROW_11 == RowFrom(HighEntry(0x58))
    ensures ROW_12 == RowFrom(HighEntry(0x60)) && ROW_13 == RowFrom(HighEntry(0x68))
    ensures ROW_14 == RowFrom(HighEntry(0x70)) && ROW_15 == RowFrom(HighEntry(0x78))
  {
  }

  lemma Rows2()
    ensures ROW_16 == RowFrom(HighEntry(0x80)) && ROW_17 == RowFrom(HighEntry(0x88))
    ensures ROW_18 == RowFrom(HighEntry(0x90)) && ROW_19 == RowFrom(HighEntry(0x98))
    ensures ROW_20 == RowFrom(HighEntry(0xa0)) && ROW_21 == RowFrom(HighEntry(0xa8))
    ensures ROW_22 == RowFrom(HighEntry(0xb0)) && ROW_23 == RowFrom(HighEntry(0xb8))
  {
  }

  lemma Rows3()
    ensures ROW_24 == RowFrom(HighEntry(0xc0)) && ROW_25 == RowFrom(HighEntry(0xc8))
    ensures ROW_26 == RowFrom(HighEntry(0xd0)) && ROW_27 == RowFrom(HighEntry(0xd8))
    ensures ROW_28 == RowFrom(HighEntry(0xe0)) && ROW_29 == RowFrom(HighEntry(0xe8))
    ensures ROW_30 == RowFrom(HighEntry(0xf0)) && ROW_31 == RowFrom(HighEntry(0xf8))
  {
  }

  lemma RowAt(h: nat, g: bv8)
    requires h < 32 && g as int == h
    ensures ROWS[h] == RowFrom(HighEntry(8 * g))
  {
    hide RowFrom, HighEntry;
    if h < 8 {
      Rows0();
    } else if h < 16 {
      Rows1();
    } else if h < 24 {
      Rows2();
    } else {
      Rows3();
    }
  }

  lemma FirstRow(i: bv8, l: nat)
    requires l < 8 && l == (i & 7) as int
    ensures ROW_00[l] == LowEntry(i)
  {
  }

  lemma RowFromAt(x: bv32, i: bv8, l: nat)
    requires l < 8 && l == (i & 7) as int
    ensures RowFrom(x)[l] == Xor(LowEntry(i), x)
  {
    hide Xor, LowEntry;
    FirstRow(i, l);
  }

  lemma HighBits(i: bv8)
    ensures HighEntry(8 * (i >> 3)) == HighEntry(i)
  {
    hide Xor;
  }

  lemma IndexSplits(i: bv8)
    ensures i as int / 8 == (i >> 3) as int && i as int % 8 == (i & 7) as int
    ensures (i >> 3) as int < 32
  {
  }

  lemma EntryInTable(i: bv8)
    ensures FCSTAB_32[i as int] == Entry(i)
  {
    hide LowEntry, HighEntry, RowFrom, Xor;
    IndexSplits(i);
    HighBits(i);
    RowAt(i as int / 8, i >> 3);
    RowFromAt(HighEntry(i), i, i as int % 8);
  }

  function Shift8(i: bv8): bv32 {
    ShiftN(i as bv32, 8)
  }

  /** The eight single-bit entries are eight shifts of their bit. */
  lemma SingleBits()
    ensures Shift8(0) == 0
    ensures Shift8(0x01) == 0x77073096
    ensures Shift8(0x02) == 0xee0e612c
    ensures Shift8(0x04) == 0x076dc419
    ensures Shift8(0x08) == 0x0edb8832
    ensures Shift8(0x10) == 0x1db71064
    ensures Shift8(0x20) == 0x3b6e20c8
    ensures Shift8(0x40) == 0x76dc4190
    ensures Shift8(0x80) == 0xedb88320
  {
  }

  lemma WidenXor(x: bv8, y: bv8)
    ensures (x ^ y) as bv32 == Xor(x as bv32, y as bv32)
  {
  }

  lemma Shift8Linear(x: bv8, y: bv8)
    ensures Shift8(x ^ y) == Xor(Shift8(x), Shift8(y))
  {
    hide ShiftN, Xor;
    WidenXor(x, y);
    ShiftLinear(x as bv32, y as bv32, 8);
  }

  lemma MaskSplits(i: bv8, low: bv8, m: bv8)
    requires low & m == 0 && m & (m - 1) == 0
    ensures (i & (low | m)) == (i & low) ^ (i & m)
    ensures i & m == 0 || i & m == m
  {
  }

  lemma ZeroXor(c: bv32)
    ensures Xor(0, c) == c
  {
  }

  /** The shifts of a masked index, with one more bit let through. */
  lemma AddBit(i: bv8, low: bv8, m: bv8, low': bv8, x: bv32)
    requires low & m == 0 && m & (m - 1) == 0 && low' == low | m && Shift8(0) == 0 && Shift8(m) == x
    ensures Shift8(i & low') == Xor(Shift8(i & low), Bit(i, m, x))
  {
    hide Shift8, Xor;
    MaskSplits(i, low, m);
    Shift8Linear(i & low, i & m);
  }

  lemma Halves(i: bv8)
    ensures i & 0 == 0 && (i & 0x07) ^ (i & 0xf8) == i
  {
  }

  /** By linearity, eight shifts of an index are the exclusive or of the entries of its bits. */
  lemma EntryIsShift(i: bv8)
    ensures Shift8(i) == Entry(i)
  {
    hide Shift8, Bit, Xor;
    SingleBits();
    Halves(i);
    ZeroXor(Bit(i, 0x01, 0x77073096));
    ZeroXor(Bit(i, 0x08, 0x0edb8832));
    AddBit(i, 0x00, 0x01, 0x01, 0x77073096);
    AddBit(i, 0x01, 0x02, 0x03, 0xee0e612c);
    AddBit(i, 0x03, 0x04, 0x07, 0x076dc419);
    AddBit(i, 0x00, 0x08, 0x08, 0x0edb8832);
    AddBit(i, 0x08, 0x10, 0x18, 0x1db71064);
    AddBit(i, 0x18, 0x20, 0x38, 0x3b6e20c8);
    AddBit(i, 0x38, 0x40, 0x78, 0x76dc4190);
    AddBit(i, 0x78, 0x80, 0xf8, 0xedb88320);
    Shift8Linear(i & 0x07, i & 0xf8);
  }

  lemma TableEntry(i: bv8)
    ensures FCSTAB_32[i as int] == ShiftN(i as bv32, 8)
  {
    EntryInTable(i);
    EntryIsShift(i);
    hide ShiftN, Entry;
  }

  // ---------------------------------------------------------------- one octet at a time

  lemma ShiftEight(c: bv32)
    requires c & 0xff == 0
    ensures ShiftN(c, 8) == c >> 8
  {
    var c4 := c >> 4;
    assert ShiftN(c, 4) == c4 by { ShiftFour(c); }
    assert ShiftN(c4, 4) == c >> 8 by { ShiftFour(c4); }
    ShiftAdd(c, 4, 4);
  }

  lemma ShiftFour(c: bv32)
    requires c & 0xf == 0
    ensures ShiftN(c, 4) == c >> 4
  {
    assert BitStep(c, false) == c >> 1;
    assert BitStep(c >> 1, false) == c >> 2;
    assert BitStep(c >> 2, false) == c >> 3;
    assert BitStep(c >> 3, false) == c >> 4;
    assert ShiftN(c, 4) == ShiftN(c >> 1, 3) == ShiftN(c >> 2, 2) == ShiftN(c >> 3, 1) == ShiftN(c >> 4, 0);
  }

  lemma DropEight(w: bv32)
    ensures DropBits(w, 8) == w >> 8
  {
    assert DropBits(w, 8) == DropBits(w >> 2, 6) == DropBits(w >> 4, 4) == DropBits(w >> 6, 2) == w >> 8;
  }

  /** The register after one octet, as eight shifts of the register with the octet xored in. */
  lemma OctetStep(c: bv32, b: bv8)
    ensures BitCrc(c, OctetBits(b)) == ShiftN(Xor(c, b as bv32), 8)
  {
    hide BitStep, BitCrc, ShiftN, DropBits, Xor;
    FeedWord(c, b as bv32, 8);
    DropEight(b as bv32);
    assert (b as bv32) >> 8 == 0;
    XorZero(ShiftN(Xor(c, b as bv32), 8));
  }

  lemma XorZero(c: bv32)
    ensures Xor(c, 0) == c
  {
  }

  lemma SplitLowOctet(x: bv32)
    ensures Xor(x & 0xffffff00, x & 0xff) == x && (x & 0xffffff00) & 0xff == 0
    ensures (x & 0xffffff00) >> 8 == x >> 8
    ensures ((x & 0xff) as bv8) as bv32 == x & 0xff && ((x & 0xff) as bv8) as int == (x & 0xff) as int
  {
  }

  lemma {:induction false} ShiftByTable(x: bv32)
    ensures ShiftN(x, 8) == Xor(x >> 8, FCSTAB_32[(x & 0xff) as int])
  {
    hide BitStep, ShiftN, Xor;
    SplitLowOctet(x);
    ShiftLinear(x & 0xffffff00, x & 0xff, 8);
    ShiftEight(x & 0xffffff00);
    TableEntry((x & 0xff) as bv8);
  }

  lemma TableIndex(c: bv32, b: bv8, x: bv32)
    requires x == Xor(c, b as bv32)
    ensures (x >> 8) == (c >> 8) && (x & 0xff) as int == ((c ^ (b as bv32)) & 0xff) as int
  {
  }

  /** The driver's table step is eight steps of the bit-level definition. */
  lemma TableStep(c: bv32, b: bv8)
    ensures Xor(c >> 8, FCSTAB_32[((c ^ (b as bv32)) & 0xff) as int]) == BitCrc(c, OctetBits(b))
  {
    hide BitStep, ShiftN, Xor, BitCrc, LowBits;
    var x := Xor(c, b as bv32);
    OctetStep(c, b);
    ShiftByTable(x);
    TableIndex(c, b, x);
  }

  lemma {:induction false} FcsAppend(c: bv32, data: seq<bv8>, more: seq<bv8>)
    ensures MessageBits(data + more) == MessageBits(data) + MessageBits(more)
    ensures Fcs32(c, data + more) == Fcs32(Fcs32(c, data), more)
    decreases |data|
  {
    hide BitStep;
    if data == [] {
      assert data + more == more;
    } else {
      FcsAppend(c, data[1..], more);
      assert (data + more)[1..] == data[1..] + more;
      CrcConcat(c, MessageBits(data), MessageBits(more));
    }
  }

  lemma FcsSingle(c: bv32, b: bv8)
    ensures Fcs32(c, [b]) == BitCrc(c, OctetBits(b))
  {
    assert MessageBits([b]) == OctetBits(b) + MessageBits([]);
    assert MessageBits([b]) == OctetBits(b);
  }

  lemma FcsExtend(c: bv32, data: seq<bv8>, b: bv8)
    ensures Fcs32(c, data + [b]) == Fcs32(Fcs32(c, data), [b])
  {
    FcsAppend(c, data, [b]);
  }

  /** The loop body: one octet through the table. */
  method UpdateFcs32(c: bv32, b: bv8) returns (fcs: bv32)
    ensures fcs == Fcs32(c, [b])
  {
    hide Xor;
    TableStep(c, b);
    FcsSingle(c, b);
    fcs := Xor(c >> 8, FCSTAB_32[((c ^ (b as bv32)) & 0xff) as int]);
  }

  /** RTMP_CALC_FCS32 over `len` octets of a buffer. */
  method CalcFcs32(init: bv32, buf: array<bv8>, start: nat, len: nat) returns (fcs: bv32)
    requires start + len <= buf.Length
    ensures fcs == Fcs32(init, buf[start..start + len])
  {
    fcs := init;
    var i := 0;
    while i < len
      invariant 0 <= i <= len
      invariant fcs == Fcs32(init, buf[start..start + i])
    {
      FcsExtend(init, buf[start..start + i], buf[start + i]);
      assert buf[start..start + i + 1] == buf[start..start + i] + [buf[start + i]];
      fcs := UpdateFcs32(fcs, buf[start + i]);
      i := i + 1;
    }
  }

  // ---------------------------------------------------------------- the good-FCS constant

  lemma {:induction false} LowBitsSplit(w: bv32, m: nat, n: nat)
    ensures LowBits(w, m + n) == LowBits(w, m) + LowBits(DropBits(w, m), n)
    decreases m
  {
    if m != 0 {
      LowBitsSplit(w >> 1, m - 1, n);
    }
  }

  lemma LowEight(w: bv32, v: bv32)
    requires w & 0xff == v & 0xff
    ensures LowBits(w, 8) == LowBits(v, 8)
  {
    LowBitsSplit(w, 4, 4);
    LowBitsSplit(v, 4, 4);
    DropFour(w);
    DropFour(v);
    LowFour(w, v);
    LowFour(w >> 4, v >> 4);
  }

  lemma DropFour(w: bv32)
    ensures DropBits(w, 4) == w >> 4
  {
    assert DropBits(w, 4) == DropBits(w >> 2, 2);
  }

  lemma LowOctet(w: bv32, b: bv8)
    requires b as bv32 == w & 0xff
    ensures LowBits(w, 8) == OctetBits(b)
  {
    hide LowBits;
    LowEight(w, b as bv32);
  }

  lemma LowFour(w: bv32, v: bv32)
    requires w & 0xf == v & 0xf
    ensures LowBits(w, 4) == LowBits(v, 4)
  {
    assert w & 1 == v & 1;
    assert (w >> 1) & 1 == (v >> 1) & 1;
    assert (w >> 2) & 1 == (v >> 2) & 1;
    assert (w >> 3) & 1 == (v >> 3) & 1;
    assert LowBits(w, 4) == [w & 1 == 1] + LowBits(w >> 1, 3);
    assert LowBits(v, 4) == [v & 1 == 1] + LowBits(v >> 1, 3);
    assert LowBits(w >> 1, 3) == [(w >> 1) & 1 == 1] + LowBits(w >> 2, 2);
    assert LowBits(v >> 1, 3) == [(v >> 1) & 1 == 1] + LowBits(v >> 2, 2);
    assert LowBits(w >> 2, 2) == [(w >> 2) & 1 == 1, (w >> 3) & 1 == 1];
    assert LowBits(v >> 2, 2) == [(v >> 2) & 1 == 1, (v >> 3) & 1 == 1];
  }

  lemma OneOctet(w: bv32, n: nat, b: bv8)
    requires b as bv32 == w & 0xff
    ensures LowBits(w, 8 + n) == OctetBits(b) + LowBits(w >> 8, n)
  {
    hide LowBits, DropBits;
    LowBitsSplit(w, 8, n);
    DropEight(w);
    LowOctet(w, b);
  }

  lemma OctetShifts(w: bv32)
    ensures LittleEndian(w)[0] as bv32 == w & 0xff
    ensures LittleEndian(w)[1] as bv32 == (w >> 8) & 0xff
    ensures LittleEndian(w)[2] as bv32 == ((w >> 8) >> 8) & 0xff
    ensures LittleEndian(w)[3] as bv32 == (((w >> 8) >> 8) >> 8) & 0xff
  {
  }

  /** The octets of a little-endian word enter the register low bit first. */
  lemma LittleEndianBits(w: bv32)
    ensures MessageBits(LittleEndian(w)) == LowBits(w, 32)
  {
    hide LowBits, OctetBits, LittleEndian;
    var o := LittleEndian(w);
    var w1 := w >> 8;
    var w2 := w1 >> 8;
    OctetShifts(w);
    OneOctet(w, 24, o[0]);
    OneOctet(w1, 16, o[1]);
    OneOctet(w2, 8, o[2]);
    LowOctet(w2 >> 8, o[3]);
    MessageOfFour(o);
  }

  lemma MessageOfFour(o: seq<bv8>)
    requires |o| == 4
    ensures MessageBits(o) == OctetBits(o[0]) + (OctetBits(o[1]) +
                              (OctetBits(o[2]) + OctetBits(o[3])))
  {
    hide OctetBits;
    assert MessageBits(o[1..]) == OctetBits(o[1]) + MessageBits(o[2..]) by {
      assert o[1..][1..] == o[2..];
    }
    assert MessageBits(o[2..]) == OctetBits(o[2]) + MessageBits(o[3..]) by {
      assert o[2..][1..] == o[3..];
    }
    assert o[3..] == [o[3]];
    assert MessageBits(o[3..]) == OctetBits(o[3]) + MessageBits([]);
    assert MessageBits(o[3..]) == OctetBits(o[3]);
  }

  lemma DropAll(w: bv32)
    ensures DropBits(w, 32) == 0
  {
    assert DropBits(w, 32) == DropBits(w >> 8, 24) by { DropAdd(w, 8, 24); DropEight(w); }
    assert DropBits(w >> 8, 24) == DropBits(w >> 16, 16) by { DropAdd(w >> 8, 8, 16); DropEight(w >> 8); }
    assert DropBits(w >> 16, 16) == DropBits(w >> 24, 8) by { DropAdd(w >> 16, 8, 8); DropEight(w >> 16); }
    DropEight(w >> 24);
  }

  lemma {:induction false} DropAdd(w: bv32, m: nat, n: nat)
    ensures DropBits(w, m + n) == DropBits(DropBits(w, m), n)
    decreases m
  {
    if m != 0 {
      DropAdd(w >> 1, m - 1, n);
    }
  }

  /** Appending a little-endian word shifts the register with that word xored in. */
  lemma WordStep(c: bv32, w: bv32)
    ensures Fcs32(c, LittleEndian(w)) == ShiftN(Xor(c, w), 32)
  {
    hide BitStep, BitCrc, ShiftN, LowBits, DropBits, LittleEndian, Xor;
    LittleEndianBits(w);
    FeedWord(c, w, 32);
    DropAll(w);
    XorZero(ShiftN(Xor(c, w), 32));
  }

  /** The 32-bit FCS complements the first word of a message: from INIT_FCS32 it is what a register of zeros makes of
      the message so changed. */
  lemma FirstWordComplemented(w: bv32, rest: seq<bv8>)
    ensures Fcs32(INIT_FCS32, LittleEndian(w) + rest) == Fcs32(0, LittleEndian(Xor(w, 0xffffffff)) + rest)
  {
    hide Fcs32, ShiftN, LittleEndian, Xor;
    var v := Xor(w, 0xffffffff);
    FcsAppend(INIT_FCS32, LittleEndian(w), rest);
    FcsAppend(0, LittleEndian(v), rest);
    WordStep(INIT_FCS32, w);
    WordStep(0, v);
    ZeroXor(v);
    XorCommutes(INIT_FCS32, w);
  }

  lemma AllOnesHalfway()
    ensures ShiftN(0xffffffff, 16) == 0xbe26ed00
  {
    hide BitStep, ShiftN;
    ShiftAdd(0xffffffff, 8, 8);
    ShiftByTable(0xffffffff);
    assert ShiftN(0xffffffff, 8) == 0x2dfd1072;
    ShiftByTable(0x2dfd1072);
  }

  lemma AllOnesToGood()
    ensures ShiftN(0xffffffff, 32) == GOOD_FCS32
  {
    hide BitStep, ShiftN;
    AllOnesHalfway();
    ShiftAdd(0xffffffff, 16, 16);
    ShiftAdd(0xbe26ed00, 8, 8);
    ShiftByTable(0xbe26ed00);
    assert ShiftN(0xbe26ed00, 8) == 0xbe26ed;
    ShiftByTable(0xbe26ed);
  }

  /** RFC 1662, C.3: the running FCS over data and a trailing word is the good constant
      exactly when the word is the complement of the FCS of the data. */
  lemma GoodFcsIff(data: seq<bv8>, w: bv32)
    ensures Fcs32(INIT_FCS32, data + LittleEndian(w)) == GOOD_FCS32
            <==> w == Xor(Fcs32(INIT_FCS32, data), 0xffffffff)
  {
    hide BitStep, ShiftN, BitCrc, MessageBits, LittleEndian, Fcs32;
    var c := Fcs32(INIT_FCS32, data);
    FcsAppend(INIT_FCS32, data, LittleEndian(w));
    WordStep(c, w);
    AllOnesToGood();
    ComplementIff(c, w);
    if ShiftN(Xor(c, w), 32) == GOOD_FCS32 {
      ShiftInjective(Xor(c, w), 0xffffffff, 32);
    }
  }

  lemma XorCancelsLeft(c: bv32, w: bv32)
    ensures Xor(c, Xor(c, w)) == w
  {
  }

  lemma ComplementIff(c: bv32, w: bv32)
    ensures Xor(c, w) == 0xffffffff <==> w == Xor(c, 0xffffffff)
  {
    hide Xor;
    XorCancelsLeft(c, w);
    XorCancelsLeft(c, 0xffffffff);
  }
}
