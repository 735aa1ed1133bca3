/**
 The per-channel power offsets of the RT5390 in its EEPROM, written by the calibration and read
 back when the desired TSSI tables are filled. EEPROM words are 16-bit, at even byte addresses.
 */
module RalinkTables {
  import Arithmetic
  import opened RalinkPower

  const CHANNELS: nat := 14
  const TSSI_BASE: nat := 0x6E
  const OFFSETS_CH_1: nat := 0x6F
  const OFFSETS_CH_3: nat := 0x70
  const OFFSETS_CH_7: nat := 0x72
  const OFFSETS_CH_11: nat := 0x74
  const CCK_MCS0: nat := 0xDE
  const CCK_MCS2: nat := 0xDF
  const OFDM_MCS0: nat := 0xE0
  const OFDM_MCS2: nat := 0xE1
  const OFDM_MCS4: nat := 0xE2
  const OFDM_MCS6: nat := 0xE3
  const WORDS: nat := 0x72

  predicate Words(ws: seq<nat>) {
    |ws| >= WORDS && forall i | 0 <= i < |ws| :: ws[i] < 0x10000
  }

  // ---------------------------------------------------------------- nibbles

  function ClampOffset(x: int): (y: int)
    ensures -8 <= y <= 7
  {
    if x > 7 then 7 else if x < -8 then -8 else x
  }

  /** `x & 0x0f` of a two's complement value. */
  function Nibble(x: int): (n: nat)
    ensures n < 16
  {
    x % 16
  }

  /** The reader's sign extension. */
  function Signed(n: nat): int {
    if n / 8 % 2 == 0 then n % 8 else n % 16 - 16
  }

  lemma SignedNibble(x: int)
    requires -8 <= x <= 7
    ensures Signed(Nibble(x)) == x
  {
  }

  function Pack(a: nat, b: nat, c: nat, d: nat): nat {
    a + 16 * b + 256 * c + 4096 * d
  }

  /** The `k`th nibble of a word. */
  function Part(w: nat, k: nat): (n: nat)
    requires k < 4
    ensures n < 16
  {
    if k == 0 then w % 16 else if k == 1 then w / 16 % 16 else if k == 2 then w / 256 % 16 else w / 4096 % 16
  }

  lemma PackParts(a: nat, b: nat, c: nat, d: nat)
    requires a < 16 && b < 16 && c < 16 && d < 16
    ensures var w := Pack(a, b, c, d);
            w < 0x10000 && Part(w, 0) == a && Part(w, 1) == b && Part(w, 2) == c && Part(w, 3) == d
  {
    var w := Pack(a, b, c, d);
    Arithmetic.DivModUnique(w, 16, b + 16 * c + 256 * d, a);
    Arithmetic.DivModUnique(b + 16 * c + 256 * d, 16, c + 16 * d, b);
    Arithmetic.DivModUnique(w, 256, c + 16 * d, a + 16 * b);
    Arithmetic.DivModUnique(c + 16 * d, 16, d, c);
    Arithmetic.DivModUnique(w, 4096, d, a + 16 * b + 256 * c);
  }

  // ---------------------------------------------------------------- where a channel's nibble lives

  function WordOf(ch: nat): (i: nat)
    requires 1 <= ch <= CHANNELS
    ensures TSSI_BASE / 2 <= i < TSSI_BASE / 2 + 4
  {
    if ch <= 2 then TSSI_BASE / 2 else OFFSETS_CH_3 / 2 + (ch - 3) / 4
  }

  function PartOf(ch: nat): (k: nat)
    requires 1 <= ch <= CHANNELS
    ensures k < 4
  {
    if ch <= 2 then ch + 1 else (ch - 3) % 4
  }

  /** The offset the reader finds for a channel. */
  function OffsetIn(ws: seq<nat>, ch: nat): int
    requires Words(ws) && 1 <= ch <= CHANNELS
  {
    Signed(Part(ws[WordOf(ch)], PartOf(ch)))
  }

  /** The four nibbles of the word with the octets `lo` and `hi`, the low one first. */
  lemma PartOfOctets(lo: nat, hi: nat)
    requires lo < 0x100 && hi < 0x100
    ensures var w := lo + 0x100 * hi;
            Part(w, 0) == lo % 0x10 && Part(w, 1) == lo / 0x10 && Part(w, 2) == hi % 0x10 && Part(w, 3) == hi / 0x10
  {
    PackParts(lo % 0x10, lo / 0x10, hi % 0x10, hi / 0x10);
    hide Part;
  }

  /** Bytes 0x6F to 0x75 hold two channels each, the lower one in the low four bits; byte 0x6E holds the base. */
  lemma ChannelPlaces(ch: nat)
    requires 1 <= ch <= CHANNELS
    ensures ch <= 2 ==> WordOf(ch) == 0x37 && PartOf(ch) == ch + 1
    ensures ch >= 3 ==> WordOf(ch) == 0x38 + (ch - 3) / 4 && PartOf(ch) == (ch - 3) % 4
  {
  }

  /** The offset of a channel by the octets of its word. */
  lemma OffsetPlaces(ws: seq<nat>, ch: nat, lo: nat, hi: nat)
    requires Words(ws) && 1 <= ch <= CHANNELS && lo < 0x100 && hi < 0x100
    requires ws[WordOf(ch)] == lo + 0x100 * hi
    ensures OffsetIn(ws, ch) == Signed(match PartOf(ch)
                                       case 0 => lo % 0x10
                                       case 1 => lo / 0x10
                                       case 2 => hi % 0x10
                                       case _ => hi / 0x10)
  {
    PartOfOctets(lo, hi);
    hide Part, Signed, WordOf, PartOf;
  }

  // ---------------------------------------------------------------- calibration

  /** The power delta of a channel, interpolated from channels 1, 7 and 13. */
  function DeltaOf(ch: nat, d1: int, d7: int, d13: int): int
    requires 1 <= ch <= CHANNELS
  {
    if ch <= 7 then Interpolated(ch, 1, 7, d1, d7)
    else if ch <= 13 then Interpolated(ch, 7, 13, d7, d13)
    else d13
  }

  lemma DeltaInRange(ch: nat, d1: int, d7: int, d13: int)
    requires 1 <= ch <= CHANNELS
    requires -8 <= d1 <= 7 && -8 <= d7 <= 7 && -8 <= d13 <= 7
    ensures -8 <= DeltaOf(ch, d1, d7, d13) <= 7
  {
    if ch <= 7 {
      InterpolatedBetween(ch, 1, 7, d1, d7);
    } else if ch <= 13 {
      InterpolatedBetween(ch, 7, 13, d7, d13);
    }
    hide Interpolated;
  }

  lemma DeltaCases(ch: nat, d1: int, d7: int, d13: int)
    requires 1 <= ch <= CHANNELS
    ensures ch == 1 ==> DeltaOf(ch, d1, d7, d13) == d1
    ensures 1 < ch < 7 ==> DeltaOf(ch, d1, d7, d13) == Interpolated(ch, 1, 7, d1, d7)
    ensures ch == 7 ==> DeltaOf(ch, d1, d7, d13) == d7
    ensures 7 < ch < 13 ==> DeltaOf(ch, d1, d7, d13) == Interpolated(ch, 7, 13, d7, d13)
    ensures ch >= 13 ==> DeltaOf(ch, d1, d7, d13) == d13
  {
    InterpolatedEnds(1, 7, d1, d7);
    InterpolatedEnds(7, 13, d7, d13);
    hide Interpolated;
  }

  /** One of the two interpolation loops: the channels strictly between two calibrated ones. */
  method FillBetween(deltas: array<int>, lo: nat, hi: nat)
    requires deltas.Length == CHANNELS + 1 && 1 <= lo < hi <= CHANNELS
    requires -8 <= deltas[lo] <= 7 && -8 <= deltas[hi] <= 7
    modifies deltas
    ensures forall c: nat | lo < c < hi :: deltas[c] == Interpolated(c, lo, hi, old(deltas[lo]), old(deltas[hi]))
    ensures forall c: nat | c <= CHANNELS && !(lo < c < hi) :: deltas[c] == old(deltas[c])
  {
    hide Interpolated;
    for ch := lo + 1 to hi
      invariant forall c: nat | lo < c < ch :: deltas[c] == Interpolated(c, lo, hi, old(deltas[lo]), old(deltas[hi]))
      invariant forall c: nat | c <= CHANNELS && !(lo < c < ch) :: deltas[c] == old(deltas[c])
    {
      deltas[ch] := InsertTssi(ch, lo, hi, deltas[lo], deltas[hi]);
    }
  }

  /** Step 3 of the calibration: all fourteen deltas from the measured three. */
  method Interpolate(deltas: array<int>, d1: int, d7: int, d13: int)
    requires deltas.Length == CHANNELS + 1
    requires -8 <= d1 <= 7 && -8 <= d7 <= 7 && -8 <= d13 <= 7
    modifies deltas
    ensures forall ch: nat | 1 <= ch <= CHANNELS :: deltas[ch] == DeltaOf(ch, d1, d7, d13)
  {
    hide Interpolated, DeltaOf;
    deltas[7], deltas[1], deltas[13] := d7, d1, d13;
    FillBetween(deltas, 1, 7);
    FillBetween(deltas, 7, 13);
    deltas[14] := deltas[13];
    forall ch: nat | 1 <= ch <= CHANNELS
      ensures deltas[ch] == DeltaOf(ch, d1, d7, d13)
    {
      DeltaCases(ch, d1, d7, d13);
    }
  }

  /** The boundary check, leaving four-bit values. */
  method ClampToNibbles(deltas: array<int>)
    requires deltas.Length == CHANNELS + 1
    modifies deltas
    ensures forall ch: nat | 1 <= ch <= CHANNELS :: deltas[ch] == Nibble(ClampOffset(old(deltas[ch])))
  {
    hide Nibble;
    for ch := 1 to CHANNELS + 1
      invariant forall c: nat | 1 <= c < ch :: deltas[c] == Nibble(ClampOffset(old(deltas[c])))
      invariant forall c: nat | ch <= c <= CHANNELS :: deltas[c] == old(deltas[c])
    {
      if deltas[ch] > 7 {
        deltas[ch] := 7;
      }
      if deltas[ch] < -8 {
        deltas[ch] := -8;
      }
      deltas[ch] := Nibble(deltas[ch]);
    }
  }

  /** Every nibble is where the reader looks for it, and nothing else but the words' spare bits has changed. */
  ghost predicate Stored(before: seq<nat>, after: seq<nat>, p: seq<int>)
    requires Words(before) && |p| == CHANNELS + 1
  {
    && Words(after) && |after| == |before|
    && (forall ch: nat | 1 <= ch <= CHANNELS :: Part(after[WordOf(ch)], PartOf(ch)) == p[ch])
    && after[TSSI_BASE / 2] % 256 == before[TSSI_BASE / 2] % 256
    && (forall i | 0 <= i < |after| && !(TSSI_BASE / 2 <= i < TSSI_BASE / 2 + 4) :: after[i] == before[i])
  }

  /** The words that hold channels 3 to 14. */
  ghost predicate Packed(ws: seq<nat>, p: seq<int>, upTo: nat)
    requires |ws| >= WORDS && |p| == CHANNELS + 1 && upTo <= 15
  {
    forall c: nat | c < 3 && 6 + 4 * c < upTo ::
      0 <= p[3 + 4 * c] < 16 && 0 <= p[4 + 4 * c] < 16 && 0 <= p[5 + 4 * c] < 16 && 0 <= p[6 + 4 * c] < 16 &&
      ws[OFFSETS_CH_3 / 2 + c] == Pack(p[3 + 4 * c], p[4 + 4 * c], p[5 + 4 * c], p[6 + 4 * c])
  }

  lemma PackedParts(ws: seq<nat>, p: seq<int>, ch: nat)
    requires |ws| >= WORDS && |p| == CHANNELS + 1 && Packed(ws, p, 15) && 3 <= ch <= CHANNELS
    ensures Part(ws[WordOf(ch)], PartOf(ch)) == p[ch]
  {
    var c := (ch - 3) / 4;
    PackParts(p[3 + 4 * c], p[4 + 4 * c], p[5 + 4 * c], p[6 + 4 * c]);
    hide Pack, Part;
    assert ch == 3 + 4 * c + PartOf(ch);
  }

  lemma NothingPacked(ws: seq<nat>, p: seq<int>)
    requires |ws| >= WORDS && |p| == CHANNELS + 1
    ensures Packed(ws, p, 3)
  {
  }

  lemma PackedNext(ws: seq<nat>, p: seq<int>, ch: nat)
    requires |ws| >= WORDS && |p| == CHANNELS + 1 && (ch == 3 || ch == 7 || ch == 11) && Packed(ws, p, ch)
    requires 0 <= p[ch] < 16 && 0 <= p[ch + 1] < 16 && 0 <= p[ch + 2] < 16 && 0 <= p[ch + 3] < 16
    ensures Packed(ws[OFFSETS_CH_3 / 2 + (ch - 3) / 4 := Pack(p[ch], p[ch + 1], p[ch + 2], p[ch + 3])], p, ch + 4)
  {
    hide Pack;
  }

  /** Step 4: the first word keeps its low byte, the other three are overwritten. */
  method StoreOffsets(eeprom: array<nat>, p: array<int>)
    requires Words(eeprom[..]) && p.Length == CHANNELS + 1
    requires forall ch: nat | 1 <= ch <= CHANNELS :: 0 <= p[ch] < 16
    modifies eeprom
    ensures Stored(old(eeprom[..]), eeprom[..], old(p[..]))
  {
    var i := (OFFSETS_CH_1 - 1) / 2;
    var data := eeprom[i] % 256;
    LowByte(data, p[1], p[2]);
    eeprom[i] := data + 256 * p[1] + 4096 * p[2];
    ghost var was := old(eeprom[..]);
    hide Pack, Part, Packed;
    var ch: nat := 3;
    assert Packed(eeprom[..], p[..], 3) by {
      NothingPacked(eeprom[..], p[..]);
    }
    while ch <= 14
      invariant ch == 3 || ch == 7 || ch == 11 || ch == 15
      invariant eeprom[i] == data + 256 * p[1] + 4096 * p[2]
      invariant Packed(eeprom[..], p[..], ch)
      invariant forall j | 0 <= j < eeprom.Length && !(i <= j < i + 4) :: eeprom[j] == was[j]
      invariant forall j | 0 <= j < eeprom.Length :: eeprom[j] < 0x10000
    {
      PackParts(p[ch], p[ch + 1], p[ch + 2], p[ch + 3]);
      PackedNext(eeprom[..], p[..], ch);
      eeprom[(OFFSETS_CH_3 + (ch - 3) / 2) / 2] := Pack(p[ch], p[ch + 1], p[ch + 2], p[ch + 3]);
      ch := ch + 4;
    }
    StoredFrom(was, eeprom[..], p[..]);
  }

  lemma StoredFrom(before: seq<nat>, after: seq<nat>, p: seq<int>)
    requires Words(before) && Words(after) && |after| == |before| && |p| == CHANNELS + 1 && Packed(after, p, 15)
    requires 0 <= p[1] < 16 && 0 <= p[2] < 16
    requires after[TSSI_BASE / 2] == before[TSSI_BASE / 2] % 256 + 256 * p[1] + 4096 * p[2]
    requires forall i | 0 <= i < |after| && !(TSSI_BASE / 2 <= i < TSSI_BASE / 2 + 4) :: after[i] == before[i]
    ensures Stored(before, after, p)
  {
    LowByte(before[TSSI_BASE / 2] % 256, p[1], p[2]);
    hide Pack, Part;
    forall c: nat | 1 <= c <= CHANNELS
      ensures Part(after[WordOf(c)], PartOf(c)) == p[c]
    {
      if c > 2 {
        PackedParts(after, p, c);
      }
    }
  }

  lemma LowByte(low: nat, a: int, b: int)
    requires low < 256 && 0 <= a < 16 && 0 <= b < 16
    ensures var w := low + 256 * a + 4096 * b;
            w < 0x10000 && w % 256 == low && Part(w, 2) == a && Part(w, 3) == b
  {
  }

  /** Step 1's write of the reference value: a negative CHAR spills into the high byte, which step 4 rewrites. */
  method StoreBase(eeprom: array<nat>, base: int)
    requires Words(eeprom[..]) && -128 <= base < 128
    modifies eeprom
    ensures Words(eeprom[..]) && eeprom[0x37] % 256 == base % 256
    ensures forall i | 0 <= i < eeprom.Length && i != TSSI_BASE / 2 :: eeprom[i] == old(eeprom[i])
  {
    var i := TSSI_BASE / 2;
    var high := if base < 0 then 0xFF else eeprom[i] / 256;
    eeprom[i] := 256 * high + base % 256;
  }

  /** RT5390_ATETssiCalibrationExtend from the measured values on: the reader finds exactly the interpolated deltas, and
      the reference value in the byte it shares a word with. */
  method Calibrate(eeprom: array<nat>, base: int, d1: int, d7: int, d13: int)
    requires Words(eeprom[..]) && -128 <= base < 128
    requires -8 <= d1 <= 7 && -8 <= d7 <= 7 && -8 <= d13 <= 7
    modifies eeprom
    ensures Words(eeprom[..]) && eeprom[0x37] % 256 == base % 256
    ensures forall ch: nat | 1 <= ch <= CHANNELS :: OffsetIn(eeprom[..], ch) == DeltaOf(ch, d1, d7, d13)
    ensures forall i | 0 <= i < eeprom.Length && !(0x37 <= i < 0x3B) ::
              eeprom[i] == old(eeprom[i])
  {
    hide DeltaOf, Nibble, Signed, Part;
    StoreBase(eeprom, base);
    var deltas := new int[CHANNELS + 1];
    Interpolate(deltas, d1, d7, d13);
    ghost var exact := deltas[..];
    ClampToNibbles(deltas);
    ghost var p := deltas[..];
    StoreOffsets(eeprom, deltas);
    forall ch: nat | 1 <= ch <= CHANNELS
      ensures OffsetIn(eeprom[..], ch) == DeltaOf(ch, d1, d7, d13)
    {
      DeltaInRange(ch, d1, d7, d13);
      SignedNibble(exact[ch]);
      assert p[ch] == Nibble(ClampOffset(exact[ch]));
    }
  }

  // ---------------------------------------------------------------- reading back and filling the tables

  /** The reader of RT5390_InitDesiredTSSITable: fourteen nibbles, then their sign extension in place. */
  method LoadOffsets(eeprom: array<nat>, offsets: array<int>)
    requires Words(eeprom[..]) && offsets.Length == CHANNELS + 1
    modifies offsets
    ensures forall ch: nat | 1 <= ch <= CHANNELS :: offsets[ch] == OffsetIn(eeprom[..], ch)
  {
    LoadNibbles(eeprom, offsets);
    hide Part;
    for ch := 1 to CHANNELS + 1
      invariant forall c: nat | 1 <= c < ch :: offsets[c] == OffsetIn(eeprom[..], c)
      invariant forall c: nat | ch <= c <= CHANNELS :: offsets[c] == Part(eeprom[WordOf(c)], PartOf(c))
    {
      if offsets[ch] / 8 % 2 == 0 {
        offsets[ch] := offsets[ch] % 8;
      } else {
        offsets[ch] := offsets[ch] % 16 - 16;
      }
    }
  }

  method LoadNibbles(eeprom: array<nat>, offsets: array<int>)
    requires Words(eeprom[..]) && offsets.Length == CHANNELS + 1
    modifies offsets
    ensures forall ch: nat | 1 <= ch <= CHANNELS :: offsets[ch] == Part(eeprom[WordOf(ch)], PartOf(ch))
  {
    var w := eeprom[(OFFSETS_CH_1 - 1) / 2];
    offsets[1], offsets[2] := w / 256 % 16, w / 4096 % 16;
    LoadWord(eeprom[OFFSETS_CH_3 / 2], offsets, 3);
    LoadWord(eeprom[OFFSETS_CH_7 / 2], offsets, 7);
    LoadWord(eeprom[OFFSETS_CH_11 / 2], offsets, 11);
    ghost var o := offsets[..];
    assert forall k: nat | k < 4 :: o[3 + k] == Part(eeprom[OFFSETS_CH_3 / 2], k);
    assert forall k: nat | k < 4 :: o[7 + k] == Part(eeprom[OFFSETS_CH_7 / 2], k);
    assert forall k: nat | k < 4 :: o[11 + k] == Part(eeprom[OFFSETS_CH_11 / 2], k);
    assert o[1] == Part(w, 2) && o[2] == Part(w, 3);
    hide Part;
    forall ch: nat | 1 <= ch <= CHANNELS
      ensures o[ch] == Part(eeprom[WordOf(ch)], PartOf(ch))
    {
      if ch >= 3 {
        var c, k := (ch - 3) / 4, (ch - 3) % 4;
        assert ch == 3 + 4 * c + k;
      }
    }
  }

  method LoadWord(w: nat, offsets: array<int>, ch: nat)
    requires offsets.Length == CHANNELS + 1 && 1 <= ch && ch + 3 <= CHANNELS
    modifies offsets
    ensures forall k: nat | k < 4 :: offsets[ch + k] == Part(w, k)
    ensures forall c: nat | c <= CHANNELS && !(ch <= c < ch + 4) :: offsets[c] == old(offsets[c])
  {
    offsets[ch] := w % 16;
    offsets[ch + 1] := w / 16 % 16;
    offsets[ch + 2] := w / 256 % 16;
    offsets[ch + 3] := w / 4096 % 16;
  }

  /** The four-bit power setting at a byte address. */
  function PowerAt(ws: seq<nat>, addr: nat): (p: nat)
    requires addr / 2 < |ws|
    ensures p < 16
  {
    if addr % 2 == 0 then ws[addr / 2] % 16 else ws[addr / 2] / 256 % 16
  }

  /** What a table entry should be: the base scaled by the setting's distance from the 54 Mbps setting. */
  function EntryFor(base: nat, shift: int, offset: int): int {
    Desired(base, TableIndex(shift + offset + TABLE_OFFSET))
  }

  /** By the octets of the word: the even address is the low one, and of each octet the low four bits count. */
  lemma PowerOctets(ws: seq<nat>, addr: nat, lo: nat, hi: nat)
    requires addr / 2 < |ws| && ws[addr / 2] == lo + 0x100 * hi && lo < 256 && hi < 256
    ensures PowerAt(ws, addr) == (if addr % 2 == 0 then lo else hi) % 16
  {
  }

  /** An entry grows with the setting's distance and with the channel's offset, as long as the larger value fits a
      signed char. */
  lemma EntryGrows(base: nat, shift: int, offset: int, shift': int, offset': int)
    requires shift <= shift' && offset <= offset' && Scaled(base, TableIndex(shift' + offset' + TABLE_OFFSET)) < 128
    ensures EntryFor(base, shift, offset) <= EntryFor(base, shift', offset')
  {
    DesiredMonotone(base, shift + offset + TABLE_OFFSET, shift' + offset' + TABLE_OFFSET);
  }

  /** The ratio applied is the one as many steps from the middle of the table as the two say, or the last that way. */
  lemma EntryIs(base: nat, shift: int, offset: int)
    ensures var i := 12 + shift + offset;
            && (0 <= i <= 24 ==> EntryFor(base, shift, offset) == Desired(base, i))
            && (i < 0 ==> EntryFor(base, shift, offset) == Desired(base, 0))
            && (i > 24 ==> EntryFor(base, shift, offset) == Desired(base, 24))
  {
    hide Desired;
  }

  lemma Denominators(i: int)
    requires LOWER_INDEX <= i <= UPPER_INDEX
    ensures RATIO[i].1 == if i == TABLE_OFFSET then Pow10(0) else Pow10(4)
  {
    assert Pow10(4) == 10000;
  }

  /** One of the loops over the channels: two adjacent rates get the same entry. */
  method FillRates(table: array2<int>, mcs: nat, base: nat, shift: int, offsets: array<int>)
    requires table.Length0 == CHANNELS + 1 && mcs + 1 < table.Length1 && offsets.Length == CHANNELS + 1
    requires base < 256
    modifies table
    ensures forall ch: nat | 1 <= ch <= CHANNELS ::
              table[ch, mcs] == table[ch, mcs + 1] == EntryFor(base, shift, offsets[ch])
    ensures forall ch: nat, m: nat | ch <= CHANNELS && m < table.Length1 && m != mcs && m != mcs + 1 ::
              table[ch, m] == old(table[ch, m])
  {
    for ch := 1 to CHANNELS + 1
      invariant forall c: nat | 1 <= c < ch ::
                  table[c, mcs] == table[c, mcs + 1] == EntryFor(base, shift, offsets[c])
      invariant forall c: nat, m: nat | c <= CHANNELS && m < table.Length1 && m != mcs && m != mcs + 1 ::
                  table[c, m] == old(table[c, m])
    {
      var t := DesiredEntry(base, TableIndex(shift + offsets[ch] + TABLE_OFFSET));
      table[ch, mcs] := t;
      table[ch, mcs + 1] := t;
    }
  }

  /** One desired TSSI: rounding, the CHAR it passes through, and the boundary check. */
  method DesiredEntry(base: nat, index: int) returns (t: int)
    requires LOWER_INDEX <= index <= UPPER_INDEX && base < 256
    ensures t == Desired(base, index)
  {
    var n, d := base * RATIO[index].0, RATIO[index].1;
    Denominators(index);
    TruncatedParts(n, d);
    var r := Rounding(TDiv(n, d), TMod(n, d), d, if index == TABLE_OFFSET then 0 else 4);
    t := ToChar(r);
    if t < 0 {
      t := 0;
    } else if t > MAX_TSSI {
      t := MAX_TSSI;
    }
  }

  /** The table-filling part of RT5390_InitDesiredTSSITable in extended mode. */
  method InitDesiredTables(eeprom: array<nat>, base: nat, offsets: array<int>, cck: array2<int>, ofdm: array2<int>)
    requires Words(eeprom[..]) && base < 256 && offsets.Length == CHANNELS + 1
    requires cck.Length0 == CHANNELS + 1 && cck.Length1 == 4 && ofdm.Length0 == CHANNELS + 1 && ofdm.Length1 == 8
    requires cck != ofdm
    modifies offsets, cck, ofdm
    ensures forall ch: nat | 1 <= ch <= CHANNELS :: offsets[ch] == OffsetIn(eeprom[..], ch)
    ensures var top := PowerAt(eeprom[..], 0xE3);
            forall ch: nat | 1 <= ch <= CHANNELS ::
              var o := OffsetIn(eeprom[..], ch);
              && cck[ch, 0] == cck[ch, 1] == EntryFor(base, PowerAt(eeprom[..], 0xDE) - top + 3, o)
              && cck[ch, 2] == cck[ch, 3] == EntryFor(base, PowerAt(eeprom[..], 0xDF) - top + 3, o)
              && ofdm[ch, 0] == ofdm[ch, 1] == EntryFor(base, PowerAt(eeprom[..], 0xE0) - top, o)
              && ofdm[ch, 2] == ofdm[ch, 3] == EntryFor(base, PowerAt(eeprom[..], 0xE1) - top, o)
              && ofdm[ch, 4] == ofdm[ch, 5] == EntryFor(base, PowerAt(eeprom[..], 0xE2) - top, o)
              && ofdm[ch, 6] == ofdm[ch, 7] == EntryFor(base, 0, o)
  {
    hide EntryFor, Part, Signed, PowerAt;
    LoadOffsets(eeprom, offsets);
    var top := PowerAt(eeprom[..], OFDM_MCS6);
    FillRates(cck, 0, base, PowerAt(eeprom[..], CCK_MCS0) - top + 3, offsets);
    FillRates(cck, 2, base, PowerAt(eeprom[..], CCK_MCS2) - top + 3, offsets);
    FillRates(cck, 2, base, PowerAt(eeprom[..], CCK_MCS2) - top + 3, offsets);
    FillRates(ofdm, 0, base, PowerAt(eeprom[..], OFDM_MCS0) - top, offsets);
    FillRates(ofdm, 2, base, PowerAt(eeprom[..], OFDM_MCS2) - top, offsets);
    FillRates(ofdm, 4, base, PowerAt(eeprom[..], OFDM_MCS4) - top, offsets);
    FillRates(ofdm, 6, base, 0, offsets);
  }
}
