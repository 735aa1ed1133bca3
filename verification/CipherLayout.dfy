/**
 Where the cipher driver puts its IV buffers and descriptor lists: one block of memory, carved
 into an IV area, an input list and an output list for each channel, recorded by physical and
 by virtual address.
 */
module CipherLayout {

  const IV_SIZE: nat := 16
  const ENTRY_SIZE: nat := 16

  /** The addresses kept for one channel. */
  datatype ChanMap = ChanMap(ivPhys: seq<nat>, ivVirt: seq<nat>, inVirt: nat, outVirt: nat,
                             srcListReg: nat, destListReg: nat)

  datatype Area = IvArea | InArea | OutArea

  // ---------------------------------------------------------------- specification

  function AreaIndex(a: Area): nat {
    match a
    case IvArea => 0
    case InArea => 1
    case OutArea => 2
  }

  function ChanSize(lists: nat): nat {
    ENTRY_SIZE * lists * 2 + IV_SIZE * lists
  }

  /** Entries in `p` areas of `lists` slots each. */
  function Rows(p: nat, lists: nat): nat {
    p * lists
  }

  /** The address of slot `j` of an area of the `i`-th channel, for a block at `base`. */
  function SlotAddr(base: nat, lists: nat, i: nat, a: Area, j: nat): nat {
    base + 16 * (Rows(3 * i + AreaIndex(a), lists) + j)
  }

  /** A channel's recorded addresses are the slots of the physical and of the virtual block. */
  ghost predicate Placed(m: ChanMap, phys: nat, virt: nat, lists: nat, i: nat) {
    && |m.ivPhys| == |m.ivVirt| == lists
    && (forall j | 0 <= j < lists :: m.ivPhys[j] == SlotAddr(phys, lists, i, IvArea, j))
    && (forall j | 0 <= j < lists :: m.ivVirt[j] == SlotAddr(virt, lists, i, IvArea, j))
    && m.inVirt == SlotAddr(virt, lists, i, InArea, 0)
    && m.outVirt == SlotAddr(virt, lists, i, OutArea, 0)
    && m.srcListReg == SlotAddr(phys, lists, i, InArea, 0)
    && m.destListReg == SlotAddr(phys, lists, i, OutArea, 0)
  }

  lemma RowsNext(p: nat, lists: nat)
    ensures Rows(p + 1, lists) == Rows(p, lists) + lists
  {
    assert (p + 1) * lists == p * lists + lists;
  }

  lemma {:induction false} RowsMonotone(p: nat, q: nat, lists: nat)
    requires p <= q
    ensures Rows(p, lists) <= Rows(q, lists)
    decreases q
  {
    hide Rows;
    if p < q {
      RowsMonotone(p, q - 1, lists);
      RowsNext(q - 1, lists);
    }
  }

  /** A block of `lists`-slot areas has one way of naming a position by area and slot. */
  lemma MixedRadix(p: nat, j: nat, q: nat, k: nat, lists: nat)
    requires j < lists && k < lists && (p, j) != (q, k)
    ensures Rows(p, lists) + j != Rows(q, lists) + k
  {
    hide Rows;
    if p < q {
      RowsNext(p, lists);
      RowsMonotone(p + 1, q, lists);
    } else if q < p {
      RowsNext(q, lists);
      RowsMonotone(q + 1, p, lists);
    }
  }

  /** Different slots of the block do not overlap, whatever the list length and channels. */
  lemma SlotsDisjoint(base: nat, lists: nat, i: nat, a: Area, j: nat, i': nat, a': Area, j': nat)
    requires j < lists && j' < lists
    requires (i, a, j) != (i', a', j')
    ensures var x, y := SlotAddr(base, lists, i, a, j), SlotAddr(base, lists, i', a', j');
            x + 16 <= y || y + 16 <= x
  {
    hide Rows;
    MixedRadix(3 * i + AreaIndex(a), j, 3 * i' + AreaIndex(a'), j', lists);
  }

  lemma BlockSize(lists: nat, channels: nat)
    ensures ChanSize(lists) * channels == 16 * Rows(3 * channels, lists)
  {
    var r := channels * lists;
    assert ChanSize(lists) == 48 * lists;
    assert 48 * lists * channels == 48 * r;
    assert (3 * channels) * lists == 3 * r;
  }

  /** Every slot lies inside the allocated block, and its offset is the same physically and virtually. */
  lemma SlotsInside(phys: nat, virt: nat, lists: nat, channels: nat, i: nat, a: Area, j: nat)
    requires j < lists && i < channels
    ensures phys <= SlotAddr(phys, lists, i, a, j)
    ensures SlotAddr(phys, lists, i, a, j) + 16 <= phys + ChanSize(lists) * channels
    ensures SlotAddr(phys, lists, i, a, j) - phys == SlotAddr(virt, lists, i, a, j) - virt
  {
    hide Rows;
    var p := 3 * i + AreaIndex(a);
    RowsNext(p, lists);
    RowsMonotone(p + 1, 3 * channels, lists);
    BlockSize(lists, channels);
  }

  /** The slots of an area lie 16 bytes apart. */
  lemma SlotSpacing(base: nat, lists: nat, i: nat, a: Area, j: nat)
    ensures SlotAddr(base, lists, i, a, j) == SlotAddr(base, lists, i, a, 0) + 16 * j
  {
    hide Rows;
  }

  lemma AreaOffsets(base: nat, lists: nat, i: nat)
    ensures SlotAddr(base, lists, i, IvArea, 0) == base + i * ChanSize(lists) && ChanSize(lists) == 48 * lists
    ensures SlotAddr(base, lists, i, InArea, 0) == base + i * ChanSize(lists) + 16 * lists
    ensures SlotAddr(base, lists, i, OutArea, 0) == base + i * ChanSize(lists) + 16 * lists + 16 * lists
  {
    hide Rows;
    BlockSize(lists, i);
    RowsNext(3 * i, lists);
    RowsNext(3 * i + 1, lists);
  }

  /** What is recorded, written out: a channel takes 48 bytes a slot, first its IVs of 16 bytes, then the input list,
      then the output list; the list registers hold physical addresses. */
  lemma PlacedAddresses(m: ChanMap, phys: nat, virt: nat, lists: nat, i: nat, j: nat)
    requires Placed(m, phys, virt, lists, i) && j < lists
    ensures var offset := i * (48 * lists);
            && m.ivPhys[j] == phys + offset + 16 * j && m.ivVirt[j] == virt + offset + 16 * j
            && m.inVirt == virt + offset + 16 * lists && m.outVirt == virt + offset + 32 * lists
            && m.srcListReg == phys + offset + 16 * lists && m.destListReg == phys + offset + 32 * lists
  {
    AreaOffsets(phys, lists, i);
    AreaOffsets(virt, lists, i);
    SlotSpacing(phys, lists, i, IvArea, j);
    SlotSpacing(virt, lists, i, IvArea, j);
    hide Rows, SlotAddr;
  }

  // ---------------------------------------------------------------- the driver's routines

  class MemoryMap {
    const chans: array<ChanMap>

    /** Channel 0 is the single-packet channel and owns no lists. */
    constructor (channels: nat)
      ensures fresh(chans) && chans.Length == channels + 1
    {
      chans := new ChanMap[channels + 1](_ => ChanMap([], [], 0, 0, 0, 0));
    }

    /** The body of the placement loop of DRV_Cipher_Init, for the `i`-th channel with lists. */
    method PlaceChannel(phys: nat, virt: nat, lists: nat, i: nat) returns (m: ChanMap)
      requires lists > 0
      ensures Placed(m, phys, virt, lists, i)
    {
      hide Rows;
      var dataSize := ENTRY_SIZE * lists;
      var ivSize := IV_SIZE * lists;
      var chanSize := (dataSize * 2) + ivSize;
      var ivPhys, ivVirt := [phys + i * chanSize], [virt + i * chanSize];
      AreaOffsets(phys, lists, i);
      AreaOffsets(virt, lists, i);
      var j := 1;
      while j < lists
        invariant 1 <= j <= lists && |ivPhys| == |ivVirt| == j
        invariant forall k | 0 <= k < j :: ivPhys[k] == SlotAddr(phys, lists, i, IvArea, k)
        invariant forall k | 0 <= k < j :: ivVirt[k] == SlotAddr(virt, lists, i, IvArea, k)
      {
        ivPhys := ivPhys + [ivPhys[0] + IV_SIZE * j];
        ivVirt := ivVirt + [ivVirt[0] + IV_SIZE * j];
        j := j + 1;
      }
      var inVirt := ivVirt[0] + ivSize;
      m := ChanMap(ivPhys, ivVirt, inVirt, inVirt + dataSize, ivPhys[0] + ivSize, ivPhys[0] + ivSize + dataSize);
    }

    /** The placement loop of DRV_Cipher_Init, for a block at `phys`/`virt`. */
    method Init(phys: nat, virt: nat, lists: nat)
      requires chans.Length > 0 && lists > 0
      modifies chans
      ensures chans[0] == old(chans[0])
      ensures forall c | 1 <= c < chans.Length :: Placed(chans[c], phys, virt, lists, c - 1)
    {
      var i := 0;
      while i < chans.Length - 1
        invariant 0 <= i <= chans.Length - 1 && chans[0] == old(chans[0])
        invariant forall c | 1 <= c <= i :: Placed(chans[c], phys, virt, lists, c - 1)
      {
        chans[i + 1] := PlaceChannel(phys, virt, lists, i);
        i := i + 1;
      }
    }

    /** DRV_Cipher_Resume: list addresses are derived again from each channel's first IV buffer. */
    method Resume(ghost phys: nat, ghost virt: nat, lists: nat)
      requires chans.Length > 0 && lists > 0
      requires forall c | 1 <= c < chans.Length :: Placed(chans[c], phys, virt, lists, c - 1)
      modifies chans
      ensures chans[..] == old(chans[..])
    {
      hide Rows;
      var dataSize := ENTRY_SIZE * lists;
      var ivSize := IV_SIZE * lists;
      var i := 0;
      while i < chans.Length - 1
        invariant 0 <= i <= chans.Length - 1
        invariant chans[..] == old(chans[..])
      {
        var m := chans[i + 1];
        assert Placed(old(chans[..])[i + 1], phys, virt, lists, i);
        AreaOffsets(phys, lists, i);
        AreaOffsets(virt, lists, i);
        var inVirt := m.ivVirt[0] + ivSize;
        var n := m.(inVirt := inVirt, outVirt := inVirt + dataSize,
                    srcListReg := m.ivPhys[0] + ivSize, destListReg := m.ivPhys[0] + ivSize + dataSize);
        assert n == m;
        chans[i + 1] := n;
        i := i + 1;
      }
    }
  }
}
