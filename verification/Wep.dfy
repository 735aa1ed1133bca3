/**
 WEP encapsulation and decapsulation as the Ralink driver does them in software: the
 integrity check value is appended in place, and decryption writes its output four octets
 below its input in the same buffer.
 */
module Wep {
  import opened Crc32
  import A = Arc4

  const LEN_WEP_IV_HDR := 4
  const LEN_WEP_TSC := 3
  const LEN_ICV := 4
  const SEED_SIZE := 16

  // ---------------------------------------------------------------- specification

  /** RTMPInitWepEngine: the first three IV octets followed by the key. */
  function Seed(iv: seq<bv8>, key: seq<bv8>): (seed: seq<bv8>)
    requires |iv| >= LEN_WEP_TSC
    ensures |seed| == 3 + |key| && seed[..3] == iv[..3] && seed[3..] == key
  {
    iv[..LEN_WEP_TSC] + key
  }

  function Stream(iv: seq<bv8>, key: seq<bv8>): (p: A.Prga)
    requires |iv| >= LEN_WEP_TSC
    ensures A.ValidPrga(p)
  {
    A.Keyed(Seed(iv, key))
  }

  function Icv(data: seq<bv8>): bv32 {
    Xor(Fcs32(INIT_FCS32, data), 0xffffffff)
  }

  /** The encrypted MPDU body: data and ICV under the key stream. */
  function Encapsulate(iv: seq<bv8>, key: seq<bv8>, data: seq<bv8>): (body: seq<bv8>)
    requires |iv| >= LEN_WEP_TSC
    ensures |body| == |data| + LEN_ICV
  {
    A.XorStream(Stream(iv, key), data + LittleEndian(Icv(data)))
  }

  /** cpu2le32 of four octets copied out of a buffer. */
  function WordOf(o: seq<bv8>): bv32
    requires |o| == 4
  {
    (o[0] as bv32) | ((o[1] as bv32) << 8) | ((o[2] as bv32) << 16) | ((o[3] as bv32) << 24)
  }

  /** The check values of no data and of the octet 0x61. */
  lemma IcvValues()
    ensures Icv([]) == 0 && Icv([0x61]) == 0xe8b7be43
  {
    hide BitCrc, OctetBits;
    assert MessageBits([]) == [] && Fcs32(INIT_FCS32, []) == INIT_FCS32 by {
      NoBits();
    }
    OneOctetValue();
    hide Fcs32;
  }

  lemma NoBits()
    ensures BitCrc(INIT_FCS32, []) == INIT_FCS32
  {
  }

  lemma OneOctetValue()
    ensures Fcs32(INIT_FCS32, [0x61]) == 0x174841bc
  {
    hide BitStep, BitCrc, LowBits, OctetBits, ShiftN, Fcs32;
    FcsSingle(INIT_FCS32, 0x61);
    TableStep(INIT_FCS32, 0x61);
  }

  /** Whether a decrypted text of data and trailing ICV passes the integrity check. */
  predicate IcvMatches(text: seq<bv8>)
    requires |text| >= LEN_ICV
  {
    Icv(text[..|text| - LEN_ICV]) == WordOf(text[|text| - LEN_ICV..])
  }

  /** A body is accepted under an IV and key when its decryption passes the check. */
  predicate Accepts(iv: seq<bv8>, key: seq<bv8>, body: seq<bv8>)
    requires |iv| >= LEN_WEP_TSC && |body| >= LEN_ICV
  {
    IcvMatches(A.XorStream(Stream(iv, key), body))
  }

  // ---------------------------------------------------------------- the driver's routines

  /** RTMPConstructWEPIVHdr. */
  method ConstructIvHdr(keyIdx: bv8, pn: seq<bv8>) returns (hdr: seq<bv8>)
    requires |pn| >= LEN_WEP_TSC
    ensures |hdr| == 4 && hdr[..3] == pn[..3]
    ensures keyIdx < 4 ==> hdr[3] >> 6 == keyIdx && hdr[3] & 0x3f == 0
  {
    hdr := pn[..LEN_WEP_TSC] + [keyIdx << 6];
  }

  /** The four-octet copy of a word into a buffer, low octet first. */
  method CopyWord(buf: array<bv8>, pos: nat, w: bv32)
    requires pos + 4 <= buf.Length
    modifies buf
    ensures buf[..pos] == old(buf[..pos]) && buf[pos + 4..] == old(buf[pos + 4..])
    ensures buf[pos..pos + 4] == LittleEndian(w)
  {
    var octets := LittleEndian(w);
    buf[pos] := octets[0];
    buf[pos + 1] := octets[1];
    buf[pos + 2] := octets[2];
    buf[pos + 3] := octets[3];
  }

  lemma JoinSlices(s: seq<bv8>, t: seq<bv8>, a: nat, b: nat, c: nat)
    requires |s| == |t| && a <= b <= c <= |s| && s[..b] == t[..b]
    ensures s[a..c] == t[a..b] + s[b..c]
  {
    assert s[a..b] == s[..b][a..] == t[a..b];
  }

  /** RTMPSoftEncryptWEP: encrypt `len` octets at `off` in place and append the ICV. */
  method SoftEncrypt(ivHdr: seq<bv8>, key: seq<bv8>, buf: array<bv8>, off: nat, len: nat) returns (ok: bool)
    requires |ivHdr| == LEN_WEP_IV_HDR && |key| <= SEED_SIZE - LEN_WEP_TSC
    requires off + len + LEN_ICV <= buf.Length
    modifies buf
    ensures ok <==> key != []
    ensures !ok ==> buf[..] == old(buf[..])
    ensures ok ==> buf[off..off + len + LEN_ICV] == Encapsulate(ivHdr, key, old(buf[off..off + len]))
    ensures ok ==> buf[..off] == old(buf[..off]) && buf[off + len + LEN_ICV..] == old(buf[off + len + LEN_ICV..])
  {
    hide Fcs32, Xor, LittleEndian, A.XorStream, A.ValidPrga, A.Keyed, A.Advance;
    if key == [] {
      return false;
    }
    var ctx := new A.Context(Seed(ivHdr, key));
    var fcs := CalcFcs32(INIT_FCS32, buf, off, len);
    fcs := Xor(fcs, 0xffffffff);
    ghost var data := buf[off..off + len];
    CopyWord(buf, off + len, fcs);
    JoinSlices(buf[..], old(buf[..]), off, off + len, off + len + LEN_ICV);
    assert buf[off..off + len + LEN_ICV] == data + LittleEndian(fcs);
    ctx.Compute(buf, off, len + LEN_ICV, off);
    return true;
  }

  /** UINT16 arithmetic on the two lengths RTMPSoftDecryptWEP derives from its byte count. */
  function CipherLen(count: nat): (n: nat)
    ensures 4 <= count < 0x10000 ==> n == count - 4
  {
    (count + 0x10000 - LEN_WEP_IV_HDR) % 0x10000
  }

  function PlainLen(count: nat): (n: nat)
    ensures 8 <= count < 0x10000 ==> n == count - 8
  {
    (CipherLen(count) + 0x10000 - LEN_ICV) % 0x10000
  }

  /** The recomputed check value against the decrypted one. */
  method IcvIsGood(buf: array<bv8>, off: nat, plainLen: nat) returns (ok: bool)
    requires off + plainLen + LEN_ICV <= buf.Length
    ensures ok <==> IcvMatches(buf[off..off + plainLen + LEN_ICV])
  {
    hide Fcs32, Xor, WordOf;
    ghost var text := buf[off..off + plainLen + LEN_ICV];
    assert text[..plainLen] == buf[off..off + plainLen];
    assert text[plainLen..] == buf[off + plainLen..off + plainLen + LEN_ICV];
    var trail := WordOf(buf[off + plainLen..off + plainLen + LEN_ICV]);
    var crc := CalcFcs32(INIT_FCS32, buf, off, plainLen);
    crc := Xor(crc, 0xffffffff);
    ok := crc == trail;
  }

  /** RTMPSoftDecryptWEP on the `count` octets (IV header, body) at `off`. The octets the routine
      touches must exist; for counts below eight the lengths wrap, as its UINT16s do. */
  method SoftDecrypt(key: seq<bv8>, buf: array<bv8>, off: nat, count: nat) returns (ok: bool, newCount: nat)
    requires count < 0x10000 && |key| <= SEED_SIZE - LEN_WEP_TSC
    requires off + LEN_WEP_IV_HDR + CipherLen(count) <= buf.Length
    requires off + PlainLen(count) + LEN_ICV <= buf.Length
    modifies buf
    ensures key == [] ==> !ok && buf[..] == old(buf[..])
    ensures key != [] ==>
      && buf[off..off + CipherLen(count)] ==
           A.XorStream(Stream(old(buf[off..off + 4]), key),
                       old(buf[off + 4..off + 4 + CipherLen(count)]))
      && buf[..off] == old(buf[..off])
      && buf[off + CipherLen(count)..] == old(buf[off + CipherLen(count)..])
      && (ok <==> IcvMatches(buf[off..off + PlainLen(count) + LEN_ICV]))
    ensures newCount == if ok then PlainLen(count) else count
  {
    hide IcvMatches, A.XorStream, A.ValidPrga, CipherLen, PlainLen, A.Keyed, A.Advance;
    if key == [] {
      return false, count;
    }
    var ivHdr := buf[off..off + LEN_WEP_IV_HDR];
    var ctx := new A.Context(Seed(ivHdr, key));
    var cipherLen := CipherLen(count);
    ctx.Compute(buf, off + LEN_WEP_IV_HDR, cipherLen, off);
    var plainLen := PlainLen(count);
    ok := IcvIsGood(buf, off, plainLen);
    newCount := if ok then plainLen else count;
  }

  // ---------------------------------------------------------------- round trip

  lemma WordRoundTrip(w: bv32)
    ensures WordOf(LittleEndian(w)) == w
  {
  }

  lemma WordOctets(o: seq<bv8>, w: bv32)
    requires |o| == 4 && w == WordOf(o)
    ensures (w & 0xff) as bv8 == o[0] && ((w >> 8) & 0xff) as bv8 == o[1]
    ensures ((w >> 16) & 0xff) as bv8 == o[2] && ((w >> 24) & 0xff) as bv8 == o[3]
  {
  }

  lemma OctetsRoundTrip(o: seq<bv8>)
    requires |o| == 4
    ensures LittleEndian(WordOf(o)) == o
  {
    hide WordOf;
    WordOctets(o, WordOf(o));
  }

  /** What encapsulation produces is accepted, and decrypts to the data it was given. */
  lemma RoundTrip(iv: seq<bv8>, key: seq<bv8>, data: seq<bv8>)
    requires |iv| >= LEN_WEP_TSC
    ensures Accepts(iv, key, Encapsulate(iv, key, data))
    ensures A.XorStream(Stream(iv, key), Encapsulate(iv, key, data))[..|data|] == data
  {
    hide Fcs32, Xor, LittleEndian, WordOf, A.XorStream, A.ValidPrga;
    var text := data + LittleEndian(Icv(data));
    A.XorStreamInvolutive(Stream(iv, key), text);
    assert text[..|text| - LEN_ICV] == data;
    assert text[|text| - LEN_ICV..] == LittleEndian(Icv(data));
    WordRoundTrip(Icv(data));
  }

  lemma AcceptedText(text: seq<bv8>, iv: seq<bv8>, key: seq<bv8>, data: seq<bv8>)
    requires |iv| >= LEN_WEP_TSC && text == A.XorStream(Stream(iv, key), Encapsulate(iv, key, data))
    ensures |text| == |data| + LEN_ICV && text[..|data|] == data && IcvMatches(text)
  {
    hide IcvMatches, A.XorStream, A.ValidPrga;
    RoundTrip(iv, key, data);
  }

  /** The two routines on one buffer, as the sender and the receiver of a frame run them: behind its IV header the data
      is encrypted in place, and decryption of header and body finds it good and moves it to where the header was. */
  method SendAndReceive(ivHdr: seq<bv8>, key: seq<bv8>, buf: array<bv8>, off: nat, len: nat)
    returns (ok: bool, newCount: nat)
    requires |ivHdr| == 4 && |key| <= SEED_SIZE - LEN_WEP_TSC
    requires len + 8 < 0x10000 && off + len + 8 <= buf.Length
    requires buf[off..off + 4] == ivHdr
    modifies buf
    ensures ok <==> key != []
    ensures ok ==> newCount == len
    ensures ok ==> buf[off..off + len] == old(buf[off + 4..off + 4 + len])
    ensures buf[..off] == old(buf[..off])
    ensures buf[off + len + 8..] == old(buf[off + len + 8..])
  {
    hide Stream, Encapsulate, A.XorStream, IcvMatches;
    var body := off + LEN_WEP_IV_HDR;
    ghost var data := buf[body..body + len];
    var _ := SoftEncrypt(ivHdr, key, buf, body, len);
    SliceOfPrefix(buf[..], old(buf[..]), off, body);
    ghost var sent := buf[body + len + LEN_ICV..];
    ok, newCount := SoftDecrypt(key, buf, off, LEN_WEP_IV_HDR + len + LEN_ICV);
    if key == [] {
      return;
    }
    ghost var text := buf[off..off + len + LEN_ICV];
    AcceptedText(text, ivHdr, key, data);
    PrefixOfSlice(buf[..], off, off + len, off + len + LEN_ICV);
    assert buf[..][off..off + len] == buf[off..off + len] && buf[..][off..off + len + LEN_ICV] == text;
    assert buf[body + len + LEN_ICV..] == buf[off + len + LEN_ICV..][LEN_WEP_IV_HDR..];
  }

  lemma PrefixOfSlice(s: seq<bv8>, a: nat, b: nat, c: nat)
    requires a <= b <= c <= |s|
    ensures s[a..c][..b - a] == s[a..b]
  {
  }

  lemma SliceOfPrefix(s: seq<bv8>, t: seq<bv8>, a: nat, b: nat)
    requires |s| == |t| && a <= b <= |s| && s[..b] == t[..b]
    ensures s[a..b] == t[a..b]
  {
    assert s[a..b] == s[..b][a..];
  }

  // ---------------------------------------------------------------- error detection

  /** The integrity check is exactly the good-FCS test over data and ICV. */
  lemma MatchesIffGood(text: seq<bv8>)
    requires |text| >= LEN_ICV
    ensures IcvMatches(text) <==> Fcs32(INIT_FCS32, text) == GOOD_FCS32
  {
    hide Fcs32, Xor, LittleEndian, WordOf;
    var data, icv := text[..|text| - LEN_ICV], text[|text| - LEN_ICV..];
    assert text == data + icv;
    OctetsRoundTrip(icv);
    GoodFcsIff(data, WordOf(icv));
  }

  function XorOctet(a: bv8, b: bv8): bv8 {
    a ^ b
  }

  function XorOctets(a: seq<bv8>, b: seq<bv8>): (r: seq<bv8>)
    requires |a| == |b|
    ensures |r| == |a|
  {
    seq(|a|, i requires 0 <= i < |a| => XorOctet(a[i], b[i]))
  }

  lemma LowBitOfXor(a: bv32, b: bv32)
    ensures (Xor(a, b) & 1 == 1) == ((a & 1 == 1) != (b & 1 == 1))
  {
    LowBitXor(a, b);
  }

  lemma ShiftOfXor(a: bv32, b: bv32, s: bv32, r: bv32)
    requires s == (a ^ b) >> 1 && r == (a >> 1) ^ (b >> 1)
    ensures s == r
  {
  }

  lemma ShiftedXor(a: bv32, b: bv32)
    ensures Xor(a, b) >> 1 == Xor(a >> 1, b >> 1)
  {
    ShiftOfXor(a, b, Xor(a, b) >> 1, Xor(a >> 1, b >> 1));
  }

  lemma XorBitsCons(x: bool, y: bool, d: seq<bool>, e: seq<bool>)
    requires |d| == |e|
    ensures XorBits([x] + d, [y] + e) == [x != y] + XorBits(d, e)
  {
  }

  lemma {:induction false} LowBitsXor(a: bv32, b: bv32, n: nat)
    ensures LowBits(Xor(a, b), n) == XorBits(LowBits(a, n), LowBits(b, n))
    decreases n
  {
    hide Xor;
    if n != 0 {
      LowBitOfXor(a, b);
      ShiftedXor(a, b);
      LowBitsXor(a >> 1, b >> 1, n - 1);
      XorBitsCons(a & 1 == 1, b & 1 == 1, LowBits(a >> 1, n - 1), LowBits(b >> 1, n - 1));
      hide XorBits;
    }
  }

  lemma OctetBitsXor(a: bv8, b: bv8)
    ensures OctetBits(XorOctet(a, b)) == XorBits(OctetBits(a), OctetBits(b))
  {
    hide LowBits, XorBits;
    LowBitsXor(a as bv32, b as bv32, 8);
    assert (a ^ b) as bv32 == (a as bv32) ^ (b as bv32);
  }

  lemma {:induction false} MessageBitsXor(a: seq<bv8>, b: seq<bv8>)
    requires |a| == |b|
    ensures MessageBits(XorOctets(a, b)) == XorBits(MessageBits(a), MessageBits(b))
    decreases |a|
  {
    hide OctetBits, XorOctet;
    if a != [] {
      OctetBitsXor(a[0], b[0]);
      MessageBitsXor(a[1..], b[1..]);
      assert XorOctets(a, b)[1..] == XorOctets(a[1..], b[1..]);
    }
  }

  /** A key stream cancels out of the difference of two bodies. */
  lemma DifferenceSurvivesStream(p: A.Prga, c: seq<bv8>, d: seq<bv8>)
    requires A.ValidPrga(p) && |c| == |d|
    ensures XorOctets(A.XorStream(p, c), A.XorStream(p, d)) == XorOctets(c, d)
  {
    var r := XorOctets(A.XorStream(p, c), A.XorStream(p, d));
    forall i | 0 <= i < |c|
      ensures r[i] == XorOctet(c[i], d[i])
    {
      MaskCancels(c[i], d[i], A.KeyOctet(p, i));
    }
  }

  lemma MaskCancels(a: bv8, b: bv8, k: bv8)
    ensures (a ^ k) ^ (b ^ k) == a ^ b
  {
  }

  lemma EqualIffDifferenceZero(a: bv32, b: bv32)
    ensures a == b <==> Xor(a, b) == 0
  {
    XorCancels(b, b);
    XorSelfZero(b);
    hide Xor;
    if Xor(a, b) == 0 {
      XorCancels(a, b);
      assert Xor(Xor(b, b), b) == b;
    }
  }

  lemma XorSelfZero(a: bv32)
    ensures Xor(a, a) == 0
  {
  }

  /** Given one accepted body, another of its length under the same IV and key is accepted exactly
      when the checksum of the difference, from a zero register, is zero. */
  lemma AlteredAcceptedIff(iv: seq<bv8>, key: seq<bv8>, body: seq<bv8>, altered: seq<bv8>)
    requires |iv| >= LEN_WEP_TSC && |body| == |altered| >= LEN_ICV
    ensures Accepts(iv, key, body) ==>
              (Accepts(iv, key, altered) <==> BitCrc(0, MessageBits(XorOctets(body, altered))) == 0)
  {
    hide BitCrc, MessageBits, Xor, XorBits, IcvMatches, A.XorStream, A.ValidPrga;
    var p := Stream(iv, key);
    var t, u := A.XorStream(p, body), A.XorStream(p, altered);
    MatchesIffGood(t);
    MatchesIffGood(u);
    DifferenceSurvivesStream(p, body, altered);
    MessageBitsXor(t, u);
    CrcLinear(INIT_FCS32, INIT_FCS32, MessageBits(t), MessageBits(u));
    XorSelfZero(INIT_FCS32);
    EqualIffDifferenceZero(Fcs32(INIT_FCS32, t), Fcs32(INIT_FCS32, u));
  }

  /** Of two bodies that differ, and only within 32 consecutive bits, at most one is accepted: no accepted body can be
      altered that way and stay accepted. */
  lemma BurstRejected(iv: seq<bv8>, key: seq<bv8>, body: seq<bv8>, altered: seq<bv8>, first: nat, last: nat)
    requires |iv| >= LEN_WEP_TSC && |body| == |altered| >= LEN_ICV
    requires first <= last < 8 * |body| && last < first + 32
    requires var e := MessageBits(XorOctets(body, altered));
             e[first] && forall j | 0 <= j < |e| && (j < first || last < j) :: !e[j]
    ensures !(Accepts(iv, key, body) && Accepts(iv, key, altered))
  {
    AlteredAcceptedIff(iv, key, body, altered);
    BurstDetected(MessageBits(XorOctets(body, altered)), first, last);
  }

  lemma {:induction false} MessageBitAt(data: seq<bv8>, j: nat)
    requires j < 8 * |data|
    ensures MessageBits(data)[j] == OctetBits(data[j / 8])[j % 8]
    decreases |data|
  {
    hide OctetBits;
    if j >= 8 {
      MessageBitAt(data[1..], j - 8);
    }
  }

  lemma ZeroOctet(k: nat)
    requires k < 8
    ensures !OctetBits(0)[k]
  {
    hide LowBits;
    ZeroLowBits(8, k);
  }

  lemma {:induction false} ZeroLowBits(n: nat, k: nat)
    requires k < n
    ensures !LowBits(0, n)[k]
  {
    if k != 0 {
      ZeroLowBits(n - 1, k - 1);
    }
  }

  lemma NonzeroOctet(b: bv8) returns (k: nat)
    requires b != 0
    ensures k < 8 && OctetBits(b)[k]
  {
    k := NonzeroLowBits(b as bv32, 8);
  }

  lemma {:induction false} NonzeroLowBits(w: bv32, n: nat) returns (k: nat)
    requires w != 0 && DropBits(w, n) == 0
    ensures k < n && LowBits(w, n)[k]
  {
    if w & 1 == 1 {
      k := 0;
    } else {
      k := NonzeroLowBits(w >> 1, n - 1);
      k := k + 1;
    }
  }

  lemma {:induction false} FirstSetBit(e: seq<bool>, k: nat) returns (first: nat)
    requires k < |e| && e[k]
    ensures first <= k && e[first] && forall j | 0 <= j < first :: !e[j]
  {
    first := 0;
    while !e[first]
      invariant first <= k && forall j | 0 <= j < first :: !e[j]
      decreases k - first
    {
      first := first + 1;
    }
  }

  lemma XorOctetZeroIff(a: bv8, b: bv8)
    ensures XorOctet(a, b) == 0 <==> a == b
  {
  }

  /** Of one length, they differ, and only in the four octets from `i`. */
  predicate DifferWithin(body: seq<bv8>, altered: seq<bv8>, i: nat) {
    && |body| == |altered| && i + 4 <= |body| && body != altered
    && forall j | 0 <= j < |body| && !(i <= j < i + 4) :: altered[j] == body[j]
  }

  /** The same within four consecutive octets. */
  lemma FourOctetsRejected(iv: seq<bv8>, key: seq<bv8>, body: seq<bv8>, altered: seq<bv8>, i: nat)
    requires |iv| >= LEN_WEP_TSC && DifferWithin(body, altered, i)
    ensures !(Accepts(iv, key, body) && Accepts(iv, key, altered))
  {
    hide Accepts, OctetBits, XorOctet;
    var d := XorOctets(body, altered);
    var e := MessageBits(d);
    var o :| 0 <= o < |body| && body[o] != altered[o];
    XorOctetZeroIff(body[o], altered[o]);
    var k := NonzeroOctet(d[o]);
    MessageBitAt(d, 8 * o + k);
    var first := FirstSetBit(e, 8 * o + k);
    forall j | 0 <= j < |e| && !(8 * i <= j < 8 * i + 32)
      ensures !e[j]
    {
      MessageBitAt(d, j);
      XorOctetZeroIff(body[j / 8], altered[j / 8]);
      ZeroOctet(j % 8);
    }
    BurstRejected(iv, key, body, altered, first, 8 * i + 31);
  }

  lemma AlteredText(iv: seq<bv8>, key: seq<bv8>, body: seq<bv8>, altered: seq<bv8>, i: nat)
    requires |iv| >= LEN_WEP_TSC && |body| == |altered| >= LEN_ICV
    requires DifferWithin(body, altered, i) && Accepts(iv, key, body)
    ensures !IcvMatches(A.XorStream(Stream(iv, key), altered))
  {
    hide DifferWithin, IcvMatches, A.XorStream, Stream;
    FourOctetsRejected(iv, key, body, altered, i);
  }

  /** A receiver handed an altered frame: where the sender's body, accepted under the same key and header, has come to
      differ, and only within four consecutive octets, decryption reports failure and keeps the count. */
  method ReceiveAltered(key: seq<bv8>, buf: array<bv8>, off: nat, count: nat, ghost sent: seq<bv8>, ghost i: nat)
    returns (ok: bool, newCount: nat)
    requires LEN_WEP_IV_HDR + LEN_ICV <= count < 0x10000 && |key| <= SEED_SIZE - LEN_WEP_TSC
    requires off + count <= buf.Length && |sent| == count - LEN_WEP_IV_HDR
    requires Accepts(buf[off..off + LEN_WEP_IV_HDR], key, sent)
    requires DifferWithin(sent, buf[off + LEN_WEP_IV_HDR..off + count], i)
    modifies buf
    ensures !ok && newCount == count
  {
    hide Accepts, DifferWithin, IcvMatches, Stream, A.XorStream;
    ghost var iv, body := buf[off..off + LEN_WEP_IV_HDR], buf[off + LEN_WEP_IV_HDR..off + count];
    AlteredText(iv, key, sent, body, i);
    assert LEN_WEP_IV_HDR + CipherLen(count) == count == LEN_WEP_IV_HDR + PlainLen(count) + LEN_ICV;
    ok, newCount := SoftDecrypt(key, buf, off, count);
  }
}
