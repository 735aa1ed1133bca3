/**
 The ARC4 generator behind the software WEP path: key schedule, output step, and the
 in-place xor over a buffer whose output may overlap its input.
 */
module Arc4 {

  const BLOCK_SIZE := 256

  /** A generator state: the two indices and the key block. */
  datatype Prga = Prga(index1: nat, index2: nat, block: seq<nat>)

  predicate IsPermutation(block: seq<nat>) {
    && |block| == BLOCK_SIZE
    && (forall i | 0 <= i < |block| :: block[i] < BLOCK_SIZE)
    && (forall i, j | 0 <= i < j < |block| :: block[i] != block[j])
  }

  predicate ValidPrga(p: Prga) {
    p.index1 < BLOCK_SIZE && p.index2 < BLOCK_SIZE && |p.block| == BLOCK_SIZE && IsPermutation(p.block)
  }

  function Swap(block: seq<nat>, i: nat, j: nat): (r: seq<nat>)
    requires i < |block| && j < |block|
    ensures |r| == |block|
    ensures IsPermutation(block) ==> IsPermutation(r)
  {
    block[i := block[j]][j := block[i]]
  }

  // ---------------------------------------------------------------- key schedule

  datatype Schedule = Schedule(swapIndex: nat, block: seq<nat>)

  function IdentityBlock(): (block: seq<nat>)
    ensures IsPermutation(block)
  {
    seq(BLOCK_SIZE, i requires 0 <= i < BLOCK_SIZE => i)
  }

  /** The key schedule after `n` of its 256 rounds. */
  function KeySchedule(key: seq<bv8>, n: nat): (s: Schedule)
    requires key != [] && n <= BLOCK_SIZE
    ensures s.swapIndex < BLOCK_SIZE && |s.block| == BLOCK_SIZE && IsPermutation(s.block)
  {
    if n == 0 then Schedule(0, IdentityBlock())
    else
      var s := KeySchedule(key, n - 1);
      var swap := (s.swapIndex + s.block[n - 1] + key[(n - 1) % |key|] as int) % 256;
      Schedule(swap, Swap(s.block, n - 1, swap))
  }

  function Keyed(key: seq<bv8>): (p: Prga)
    requires key != []
    ensures ValidPrga(p) && p == Prga(0, 0, KeySchedule(key, 256).block)
  {
    Prga(0, 0, KeySchedule(key, BLOCK_SIZE).block)
  }

  // ---------------------------------------------------------------- output

  function Next(p: Prga): (q: Prga)
    requires ValidPrga(p)
    ensures ValidPrga(q)
  {
    var i := (p.index1 + 1) % 256;
    var j := (p.index2 + p.block[i]) % 256;
    Prga(i, j, Swap(p.block, i, j))
  }

  lemma EntryFits(p: Prga, k: nat)
    requires ValidPrga(p) && k < BLOCK_SIZE
    ensures p.block[k] < BLOCK_SIZE
  {
  }

  /** The octet produced on arriving in state `p`. */
  function Output(p: Prga): bv8
    requires ValidPrga(p)
  {
    p.block[(p.block[p.index2] + p.block[p.index1]) % 256] as bv8
  }

  function Advance(p: Prga, n: nat): (q: Prga)
    requires ValidPrga(p)
    ensures ValidPrga(q)
  {
    if n == 0 then p else Next(Advance(p, n - 1))
  }

  /** The `k`-th key stream octet after state `p`. */
  function KeyOctet(p: Prga, k: nat): bv8
    requires ValidPrga(p)
  {
    Output(Advance(p, k + 1))
  }

  function XorStream(p: Prga, text: seq<bv8>): (r: seq<bv8>)
    requires ValidPrga(p)
    ensures |r| == |text|
  {
    seq(|text|, k requires 0 <= k < |text| => text[k] ^ KeyOctet(p, k))
  }

  lemma XorTwice(a: bv8, b: bv8)
    ensures (a ^ b) ^ b == a
  {
  }

  /** Decryption is encryption. */
  lemma XorStreamInvolutive(p: Prga, text: seq<bv8>)
    requires ValidPrga(p)
    ensures XorStream(p, XorStream(p, text)) == text
  {
    var r := XorStream(p, XorStream(p, text));
    forall k | 0 <= k < |text|
      ensures r[k] == text[k]
    {
      XorTwice(text[k], KeyOctet(p, k));
    }
  }

  lemma NoRounds(key: seq<bv8>)
    requires key != []
    ensures KeySchedule(key, 0) == Schedule(0, IdentityBlock())
  {
  }

  lemma IdentityAt(i: nat)
    requires i < BLOCK_SIZE
    ensures |IdentityBlock()| == BLOCK_SIZE && IdentityBlock()[i] == i
  {
  }

  lemma IdentityValid()
    ensures ValidPrga(Prga(0, 0, IdentityBlock()))
  {
  }

  lemma RoundIs(key: seq<bv8>, n: nat, m: nat, k: nat)
    requires key != [] && n < BLOCK_SIZE && m == n % |key| && k == key[m] as int
    ensures var s, t := KeySchedule(key, n), KeySchedule(key, n + 1);
            && t.swapIndex == (s.swapIndex + s.block[n] + k) % 256
            && t.block == s.block[n := s.block[t.swapIndex]][t.swapIndex := s.block[n]]
  {
    hide IsPermutation;
  }

  lemma FirstOn(s: Schedule, t: Schedule, k: nat)
    requires s == Schedule(0, IdentityBlock()) && k < 256 && t.swapIndex == (s.swapIndex + s.block[0] + k) % 256
    requires t.block == s.block[0 := s.block[t.swapIndex]][t.swapIndex := s.block[0]]
    ensures t == Schedule(k, IdentityBlock()[0 := k][k := 0])
  {
    hide IdentityBlock, IsPermutation;
    IdentityAt(0);
    IdentityAt(k);
  }

  lemma SecondOn(t: Schedule, u: Schedule, k: nat, l: nat)
    requires 2 <= k < 256 && t == Schedule(k, IdentityBlock()[0 := k][k := 0])
    requires u.swapIndex == (t.swapIndex + t.block[1] + l) % 256
    ensures u.swapIndex == (k + 1 + l) % 256
  {
    hide IdentityBlock, IsPermutation;
    IdentityAt(1);
  }

  /** The first round exchanges entry 0 with the one the first octet names; the second adds entry 1 and the next octet.
      A key of one octet is repeated. */
  lemma FirstRounds(key: seq<bv8>, k: nat, m: nat, l: nat)
    requires key != [] && k == key[0] as int && k < 256
    requires m == (if |key| > 1 then 1 else 0) && l == key[m] as int
    ensures KeySchedule(key, 1) == Schedule(k, IdentityBlock()[0 := k][k := 0])
    ensures k >= 2 ==> KeySchedule(key, 2).swapIndex == (k + 1 + l) % 256
  {
    hide KeySchedule, IsPermutation, IdentityBlock;
    NoRounds(key);
    OneOf(|key|);
    RoundIs(key, 0, 0, k);
    RoundIs(key, 1, m, l);
    var s, t, u := KeySchedule(key, 0), KeySchedule(key, 1), KeySchedule(key, 2);
    FirstOn(s, t, k);
    if k >= 2 {
      SecondOn(t, u, k, l);
    }
  }

  lemma OneOf(n: nat)
    requires n > 0
    ensures 0 % n == 0 && 1 % n == if n > 1 then 1 else 0
  {
  }

  lemma NextIs(p: Prga, i: nat, j: nat)
    requires ValidPrga(p) && i == (p.index1 + 1) % 256 && j == (p.index2 + p.block[i]) % 256
    ensures Next(p) == Prga(i, j, p.block[i := p.block[j]][j := p.block[i]])
  {
    hide IsPermutation;
  }

  lemma OneMore(p: Prga, n: nat)
    requires ValidPrga(p)
    ensures Advance(p, 0) == p && Advance(p, n + 1) == Next(Advance(p, n))
  {
    hide Next, IsPermutation;
  }

  /** The first octets out of the identity block. */
  lemma IdentityStream()
    ensures var p := Prga(0, 0, IdentityBlock());
            KeyOctet(p, 0) == 2 && KeyOctet(p, 1) == 5 && KeyOctet(p, 2) == 7
  {
    hide Advance, Next, IsPermutation, IdentityBlock;
    var p := Prga(0, 0, IdentityBlock());
    IdentityValid();
    OneMore(p, 0);
    OneMore(p, 1);
    OneMore(p, 2);
    IdentityAt(1);
    IdentityAt(2);
    IdentityAt(3);
    IdentityAt(5);
    IdentityAt(7);
    NextIs(p, 1, 1);
    var p1 := Advance(p, 1);
    NextIs(p1, 2, 3);
    var p2 := Advance(p, 2);
    NextIs(p2, 3, 5);
    assert p1.block[2] == 2 && p1.block[3] == 3 && p1.block[5] == 5;
    assert p2.block[3] == 2 && p2.block[5] == 5;
  }

  // ---------------------------------------------------------------- the context object

  class Context {
    var blockIndex1: nat
    var blockIndex2: nat
    const keyBlock: array<nat>

    ghost predicate Valid()
      reads this, keyBlock
    {
      ValidPrga(State())
    }

    ghost function State(): Prga
      reads this, keyBlock
    {
      Prga(blockIndex1, blockIndex2, keyBlock[..])
    }

    /** ARC4_INIT on a fresh context. */
    constructor (key: seq<bv8>)
      requires key != []
      ensures Valid() && fresh(keyBlock)
      ensures State() == Keyed(key)
    {
      blockIndex1 := 0;
      blockIndex2 := 0;
      keyBlock := new nat[256];
      new;
      FillIdentity();
      RunSchedule(key);
    }

    method FillIdentity()
      requires keyBlock.Length == 256
      modifies keyBlock
      ensures keyBlock[..] == IdentityBlock()
    {
      var b := 0;
      while b < 256
        invariant 0 <= b <= 256
        invariant forall i | 0 <= i < b :: keyBlock[i] == i
      {
        keyBlock[b] := b;
        b := b + 1;
      }
    }

    method RunSchedule(key: seq<bv8>)
      requires key != [] && keyBlock[..] == IdentityBlock()
      modifies keyBlock
      ensures keyBlock[..] == KeySchedule(key, 256).block
    {
      hide IsPermutation, Swap;
      var swapIndex: nat := 0;
      var b := 0;
      while b < 256
        invariant 0 <= b <= 256
        invariant KeySchedule(key, b) == Schedule(swapIndex, keyBlock[..])
      {
        var keyIndex := b % |key|;
        swapIndex := (swapIndex + keyBlock[b] + key[keyIndex] as int) % 256;
        SwapEntries(b, swapIndex);
        b := b + 1;
      }
    }

    method SwapEntries(i: nat, j: nat)
      requires i < keyBlock.Length && j < keyBlock.Length
      modifies keyBlock
      ensures keyBlock[..] == Swap(old(keyBlock[..]), i, j)
    {
      var temp := keyBlock[i];
      keyBlock[i] := keyBlock[j];
      keyBlock[j] := temp;
    }

    /** One turn of the loop of ARC4_Compute, up to the output octet. */
    method NextOctet() returns (octet: bv8)
      requires Valid()
      modifies this, keyBlock
      ensures Valid() && State() == Next(old(State()))
      ensures octet == Output(State())
    {
      hide IsPermutation;
      blockIndex1 := (blockIndex1 + 1) % 256;
      var temp := keyBlock[blockIndex1];
      blockIndex2 := (blockIndex2 + temp) % 256;
      SwapEntries(blockIndex1, blockIndex2);
      temp := (temp + keyBlock[blockIndex1]) % 256;
      EntryFits(State(), temp);
      octet := keyBlock[temp] as bv8;
    }

    /** ARC4_Compute from `src` to `dst` of one buffer. The output may overwrite input already
        consumed, so the ascending order matters. */
    method Compute(buf: array<bv8>, src: nat, len: nat, dst: nat)
      requires Valid()
      requires (buf as object) != keyBlock
      requires dst <= src && src + len <= buf.Length
      modifies this, keyBlock, buf
      ensures Valid() && State() == Advance(old(State()), len)
      ensures buf[dst..dst + len] == XorStream(old(State()), old(buf[src..src + len]))
      ensures forall k | 0 <= k < buf.Length && !(dst <= k < dst + len) :: buf[k] == old(buf[k])
    {
      hide IsPermutation, Next, Output;
      ghost var start := State();
      var i := 0;
      while i < len
        invariant 0 <= i <= len
        invariant Valid() && State() == Advance(start, i)
        invariant forall k | 0 <= k < i :: buf[dst + k] == old(buf[src + k]) ^ KeyOctet(start, k)
        invariant forall k | 0 <= k < buf.Length && !(dst <= k < dst + i) :: buf[k] == old(buf[k])
      {
        var octet := NextOctet();
        buf[dst + i] := buf[src + i] ^ octet;
        i := i + 1;
      }
    }
  }
}
