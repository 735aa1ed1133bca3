/**
 The CEA-861 data block collection of an EDID extension (section 7.5 of CEA-861-D): what the
 transmitter's parser does with one block, on values, and when it steps over it cleanly.

 The parser trusts its input. Where it would touch a byte outside the 128-byte block or outside
 its descriptor arrays the result is `Escapes`, and where a block does not move it forward the
 result is `Stuck`.
 */
module EdidBlocks {

  const BLOCK_SIZE: nat := 128
  const DATA_START: nat := 4
  const MAX_V: nat := 20
  const MAX_A: nat := 10
  const MAX_SPKR: nat := 4

  const AUDIO_TAG: nat := 1
  const VIDEO_TAG: nat := 2
  const VENDOR_TAG: nat := 3
  const SPEAKER_TAG: nat := 4
  const EXTENDED_TAG: nat := 7
  const VIDEO_CAPABILITY: nat := 0
  const COLORIMETRY: nat := 5

  /** A short audio descriptor: three bytes. */
  datatype Sad = Sad(b0: nat, b1: nat, b2: nat)

  /** The fields of GLOBAL_EDID the extension parser writes. */
  datatype Edid = Edid(underScan: nat, basicAudio: nat, ycbcr444: nat, ycbcr422: nat,
                       video: seq<nat>, audio: seq<Sad>, spkr: seq<nat>,
                       colorimetry: nat, metadata: nat,
                       hdmiSink: bool, cecAB: nat, cecCD: nat, threeD: bool)

  predicate Sized(e: Edid) {
    |e.video| == 20 && |e.audio| == 10 && |e.spkr| == 4
  }

  /** The parser's index into the data and its two descriptor counts. */
  datatype Cursor = Cursor(idx: nat, v: nat, a: nat)

  datatype BlockResult = Next(edid: Edid, cur: Cursor) | Overflow | UnknownTag | Escapes

  function Tag(header: nat): nat {
    header / 32 % 8
  }

  function Length(header: nat): (n: nat)
    ensures n < 32
  {
    header % 32
  }

  function Min(a: nat, b: nat): nat {
    if a < b then a else b
  }

  /** `s` with `t` written over it at `at`. */
  function Splice<T>(s: seq<T>, at: nat, t: seq<T>): (r: seq<T>)
    requires at + |t| <= |s|
    ensures |r| == |s|
  {
    s[..at] + t + s[at + |t|..]
  }

  function Sads(d: seq<nat>, p: nat, n: nat): (r: seq<Sad>)
    requires p + 3 * n <= |d|
    ensures |r| == n
  {
    if n == 0 then [] else Sads(d, p, n - 1) + [Sad(d[p + 3 * n - 3], d[p + 3 * n - 2], d[p + 3 * n - 1])]
  }

  function VideoStep(d: seq<nat>, e: Edid, c: Cursor, p: nat, len: nat): BlockResult
    requires |d| == BLOCK_SIZE && Sized(e)
  {
    var k := Min(len, MAX_V);
    if k > 0 && (c.v + k > MAX_V || p + k > BLOCK_SIZE) then Escapes
    else if k == 0 then Next(e, c.(idx := p + len))
    else Next(e.(video := Splice(e.video, c.v, d[p..p + k])), c.(idx := p + len, v := c.v + k))
  }

  function AudioStep(d: seq<nat>, e: Edid, c: Cursor, p: nat, len: nat): BlockResult
    requires |d| == BLOCK_SIZE && Sized(e)
  {
    var n := len / 3;
    if n > 0 && (c.a + n > MAX_A || p + 3 * n > BLOCK_SIZE) then Escapes
    else if n == 0 then Next(e, c.(idx := p))
    else Next(e.(audio := Splice(e.audio, c.a, Sads(d, p, n))), c.(idx := p + 3 * n, a := c.a + n))
  }

  function SpeakerStep(d: seq<nat>, e: Edid, c: Cursor, p: nat): BlockResult
    requires |d| == BLOCK_SIZE && Sized(e)
  {
    if p >= BLOCK_SIZE then Escapes else Next(e.(spkr := e.spkr[0 := d[p]]), c.(idx := p + 3))
  }

  function ExtendedStep(d: seq<nat>, e: Edid, c: Cursor, p: nat): BlockResult
    requires |d| == BLOCK_SIZE
  {
    if p >= BLOCK_SIZE then Escapes
    else if d[p] == VIDEO_CAPABILITY then Next(e, c.(idx := p + 2))
    else if d[p] == COLORIMETRY then
      if p + 2 >= BLOCK_SIZE then Escapes
      else Next(e.(colorimetry := d[p + 1] % 4, metadata := d[p + 2] % 8), c.(idx := p + 3))
    else Next(e, c.(idx := p + 1))
  }

  /** Where the short-circuit comparison with the HDMI identifier 03 0C 00 leaves the index; bytes beyond the block
      count as unequal here, and every byte compared lies before the result. */
  function AfterOui(d: seq<nat>, p: nat): (q: nat)
    ensures p < q <= p + 3
  {
    if p < |d| && d[p] != 0x03 then p + 1 else if p + 1 < |d| && d[p + 1] != 0x0C then p + 2 else p + 3
  }

  function VendorStep(d: seq<nat>, e: Edid, c: Cursor, p: nat, len: nat): BlockResult
    requires |d| == BLOCK_SIZE && p > DATA_START
  {
    var q := AfterOui(d, p);
    if q + 1 >= BLOCK_SIZE then Escapes
    else
      var r := q + 2;
      if r + 7 <= p - 1 + len && r + 7 >= BLOCK_SIZE then Escapes
      else
        Next(e.(hdmiSink := d[p] == 0x03 && d[p + 1] == 0x0C && d[p + 2] == 0x00,
                cecAB := d[q], cecCD := d[q + 1],
                threeD := r + 7 <= p - 1 + len && d[r + 7] / 128 > 0),
             c.(idx := r + len - 5))
  }

  /** The switch on the tag of a block whose payload starts at `p`. */
  function Handle(d: seq<nat>, e: Edid, c: Cursor, p: nat, tag: nat, len: nat): BlockResult
    requires |d| == BLOCK_SIZE && Sized(e) && p > DATA_START
  {
    if tag == VIDEO_TAG then VideoStep(d, e, c, p, len)
    else if tag == AUDIO_TAG then AudioStep(d, e, c, p, len)
    else if tag == SPEAKER_TAG then SpeakerStep(d, e, c, p)
    else if tag == EXTENDED_TAG then ExtendedStep(d, e, c, p)
    else if tag == VENDOR_TAG then VendorStep(d, e, c, p, len)
    else UnknownTag
  }

  /** One turn of the block loop of Parse861ShortDescriptors, from a header below the limit. */
  function BlockStep(d: seq<nat>, lim: nat, e: Edid, c: Cursor): BlockResult
    requires |d| == BLOCK_SIZE && Sized(e) && c.idx >= DATA_START
  {
    if c.idx >= BLOCK_SIZE then Escapes
    else
      var tag, len, p := Tag(d[c.idx]), Length(d[c.idx]), c.idx + 1;
      if p + len > lim then Overflow else Handle(d, e, c, p, tag, len)
  }

  datatype Outcome = Parsed(edid: Edid) | TagError | RevError | Overran(edid: Edid) | Unknown(edid: Edid)
                   | Escaped | Stuck(at: nat)

  lemma StepSized(d: seq<nat>, lim: nat, e: Edid, c: Cursor)
    requires |d| == BLOCK_SIZE && Sized(e) && c.idx >= DATA_START
    ensures var b := BlockStep(d, lim, e, c); b.Next? ==> Sized(b.edid)
  {
  }

  function ParseFrom(d: seq<nat>, lim: nat, e: Edid, c: Cursor): Outcome
    requires |d| == BLOCK_SIZE && Sized(e) && c.idx >= DATA_START
    decreases lim - c.idx
  {
    if c.idx >= lim then Parsed(e)
    else
      StepSized(d, lim, e, c);
      match BlockStep(d, lim, e, c)
      case Next(e', c') => if c'.idx <= c.idx then Stuck(c'.idx) else ParseFrom(d, lim, e', c')
      case Overflow => Overran(e)
      case UnknownTag => Unknown(e)
      case Escapes => Escaped
  }

  function WithSupportBits(e: Edid, misc: nat): Edid {
    e.(underScan := misc / 128 % 2, basicAudio := misc / 64 % 2, ycbcr444 := misc / 32 % 2, ycbcr422 := misc / 16 % 2)
  }

  /** Parse861ShortDescriptors on a whole extension block. */
  function Parse(d: seq<nat>, e: Edid): Outcome
    requires |d| == BLOCK_SIZE && Sized(e)
  {
    if d[0] != 0x02 then TagError
    else if d[1] != 0x03 then RevError
    else ParseFrom(d, d[2], WithSupportBits(e, d[3]), Cursor(DATA_START, 0, 0))
  }

  // ---------------------------------------------------------------- staying on block boundaries

  /** The blocks the parser steps over exactly: any video block; audio in whole triples; speaker blocks of three;
      the two known extended tags at their lengths, other extended tags without payload; vendor blocks whose
      identifier starts 03 0C. */
  predicate Aligned(d: seq<nat>, p: nat, tag: nat, len: nat)
    requires |d| == BLOCK_SIZE && p + 4 < BLOCK_SIZE
  {
    if tag == VIDEO_TAG then true
    else if tag == AUDIO_TAG then len % 3 == 0
    else if tag == SPEAKER_TAG then len == 3
    else if tag == EXTENDED_TAG then
      len == if d[p] == VIDEO_CAPABILITY then 2 else if d[p] == COLORIMETRY then 3 else 1
    else d[p] == 0x03 && d[p + 1] == 0x0C
  }

  /** A block is left at the next header exactly when it is aligned. */
  lemma BoundaryIff(d: seq<nat>, lim: nat, e: Edid, c: Cursor)
    requires |d| == BLOCK_SIZE && Sized(e) && DATA_START <= c.idx && c.idx + 5 < BLOCK_SIZE
    requires BlockStep(d, lim, e, c).Next?
    ensures BlockStep(d, lim, e, c).cur.idx == c.idx + 1 + Length(d[c.idx]) <==>
            Aligned(d, c.idx + 1, Tag(d[c.idx]), Length(d[c.idx]))
  {
  }

  /** A vendor block of length one with another vendor's identifier leaves the index where it was, with nothing
      changed that the next turn reads: the parser repeats that block for ever. */
  lemma ForeignVendorLoops(d: seq<nat>, lim: nat, e: Edid, c: Cursor)
    requires |d| == BLOCK_SIZE && Sized(e) && DATA_START <= c.idx && c.idx + 5 < BLOCK_SIZE && c.idx + 2 <= lim
    requires Tag(d[c.idx]) == VENDOR_TAG && Length(d[c.idx]) == 1 && d[c.idx + 1] != 0x03
    ensures var b := BlockStep(d, lim, e, c);
            b.Next? && b.cur == c && Sized(b.edid) && BlockStep(d, lim, b.edid, b.cur) == b
  {
  }

  /** A block fails to move the parser forward exactly when it is a short vendor block of another vendor. */
  lemma StuckIff(d: seq<nat>, lim: nat, e: Edid, c: Cursor)
    requires |d| == BLOCK_SIZE && Sized(e) && DATA_START <= c.idx && c.idx + 5 < BLOCK_SIZE
    requires BlockStep(d, lim, e, c).Next?
    ensures BlockStep(d, lim, e, c).cur.idx <= c.idx <==>
            && Tag(d[c.idx]) == VENDOR_TAG
            && (if d[c.idx + 1] != 0x03 then Length(d[c.idx]) <= 1
                else d[c.idx + 2] != 0x0C && Length(d[c.idx]) == 0)
  {
  }

  // ---------------------------------------------------------------- encoding well-formed blocks

  datatype Block =
    | Video(svds: seq<nat>)
    | Audio(sads: seq<Sad>)
    | Speaker(alloc: nat, x: nat, y: nat)
    | Vendor(cecAB: nat, cecCD: nat, rest: seq<nat>)
    | VideoCapability(flags: nat)
    | Colorimetry(flags: nat, profile: nat)
    | Foreign(first: nat)

  /** Blocks that have an encoding. `Foreign` is a vendor block of another vendor cut down to one identifier byte; all
      others are the well-formed blocks the parser knows. */
  predicate Encodable(b: Block) {
    match b
    case Video(svds) => |svds| < 32
    case Audio(sads) => 3 * |sads| < 32
    case Vendor(_, _, rest) => 5 + |rest| < 32
    case Foreign(first) => first != 0x03
    case _ => true
  }

  predicate WellFormed(b: Block) {
    Encodable(b) && !b.Foreign?
  }

  function Flatten(sads: seq<Sad>): (r: seq<nat>)
    ensures |r| == 3 * |sads|
  {
    if sads == [] then []
    else
      var s := sads[|sads| - 1];
      Flatten(sads[..|sads| - 1]) + [s.b0, s.b1, s.b2]
  }

  function Payload(b: Block): (r: seq<nat>)
    requires Encodable(b)
    ensures |r| < 32
  {
    match b
    case Video(svds) => svds
    case Audio(sads) => Flatten(sads)
    case Speaker(alloc, x, y) => [alloc, x, y]
    case Vendor(ab, cd, rest) => [0x03, 0x0C, 0x00, ab, cd] + rest
    case VideoCapability(flags) => [VIDEO_CAPABILITY, flags]
    case Colorimetry(flags, profile) => [COLORIMETRY, flags, profile]
    case Foreign(first) => [first]
  }

  function TagOf(b: Block): (t: nat)
    ensures t < 8
  {
    match b
    case Video(_) => VIDEO_TAG
    case Audio(_) => AUDIO_TAG
    case Speaker(_, _, _) => SPEAKER_TAG
    case Vendor(_, _, _) => VENDOR_TAG
    case Foreign(_) => VENDOR_TAG
    case _ => EXTENDED_TAG
  }

  function Encode(b: Block): (r: seq<nat>)
    requires Encodable(b)
    ensures |r| == 1 + |Payload(b)|
  {
    [TagOf(b) * 32 + |Payload(b)|] + Payload(b)
  }

  /** The octets of the encoded blocks, with the tag codes of the standard in the top three bits of the first. */
  lemma EncodedOctets(b: Block)
    requires Encodable(b)
    ensures match b
            case Video(svds) => Encode(b) == [0x40 + |svds|] + svds
            case Audio(sads) => Encode(b) == [0x20 + 3 * |sads|] + Flatten(sads)
            case Speaker(alloc, x, y) => Encode(b) == [0x83, alloc, x, y]
            case Vendor(ab, cd, rest) => Encode(b) == [0x65 + |rest|, 0x03, 0x0C, 0x00, ab, cd] + rest
            case VideoCapability(flags) => Encode(b) == [0xE2, 0x00, flags]
            case Colorimetry(flags, profile) => Encode(b) == [0xE3, 0x05, flags, profile]
            case Foreign(first) => Encode(b) == [0x61, first]
  {
  }

  lemma FlattenOctets(sads: seq<Sad>, i: nat)
    requires i < |sads|
    ensures Flatten(sads)[3 * i] == sads[i].b0
    ensures Flatten(sads)[3 * i + 1] == sads[i].b1
    ensures Flatten(sads)[3 * i + 2] == sads[i].b2
    decreases |sads|
  {
    if i < |sads| - 1 {
      FlattenOctets(sads[..|sads| - 1], i);
    }
  }

  predicate AllEncodable(bs: seq<Block>) {
    forall i | 0 <= i < |bs| :: Encodable(bs[i])
  }

  predicate NoForeign(bs: seq<Block>) {
    forall i | 0 <= i < |bs| :: !bs[i].Foreign?
  }

  predicate AllWellFormed(bs: seq<Block>) {
    AllEncodable(bs) && NoForeign(bs)
  }

  function EncodeAll(bs: seq<Block>): seq<nat>
    requires AllEncodable(bs)
  {
    if bs == [] then [] else Encode(bs[0]) + EncodeAll(bs[1..])
  }

  // ---------------------------------------------------------------- what the descriptors say

  /** The short video descriptors of a list of blocks, in order; at most twenty of each block are kept. */
  function VideoOf(bs: seq<Block>): seq<nat> {
    if bs == [] then []
    else (if bs[0].Video? then bs[0].svds[..Min(|bs[0].svds|, 20)] else []) + VideoOf(bs[1..])
  }

  function AudioOf(bs: seq<Block>): seq<Sad> {
    if bs == [] then [] else (if bs[0].Audio? then bs[0].sads else []) + AudioOf(bs[1..])
  }

  predicate Fits(bs: seq<Block>, v: nat, a: nat) {
    v + |VideoOf(bs)| <= 20 && a + |AudioOf(bs)| <= 10
  }

  /** The effect of one block on everything but the descriptor arrays. */
  function Scalars(e: Edid, b: Block): Edid {
    match b
    case Speaker(alloc, _, _) => if |e.spkr| > 0 then e.(spkr := e.spkr[0 := alloc]) else e
    case Vendor(ab, cd, rest) =>
      e.(hdmiSink := true, cecAB := ab, cecCD := cd, threeD := |rest| >= 8 && rest[7] / 128 > 0)
    case Colorimetry(flags, profile) => e.(colorimetry := flags % 4, metadata := profile % 8)
    case _ => e
  }

  function AllScalars(e: Edid, bs: seq<Block>): Edid
    decreases |bs|
  {
    if bs == [] then e else AllScalars(Scalars(e, bs[0]), bs[1..])
  }

  /** Everything a list of blocks says, recorded over an earlier EDID from descriptor positions `v` and `a`. */
  function Record(e: Edid, bs: seq<Block>, v: nat, a: nat): (r: Edid)
    requires Sized(e) && Fits(bs, v, a)
  {
    AllScalars(e, bs).(video := Splice(e.video, v, VideoOf(bs)), audio := Splice(e.audio, a, AudioOf(bs)))
  }

  // ---------------------------------------------------------------- parsing undoes encoding

  predicate Holds(d: seq<nat>, at: nat, s: seq<nat>) {
    at + |s| <= |d| && d[at..at + |s|] == s
  }

  lemma HeaderFields(tag: nat, len: nat)
    requires tag < 8 && len < 32
    ensures Tag(tag * 32 + len) == tag && Length(tag * 32 + len) == len
  {
  }

  lemma VideoOnEncoded(d: seq<nat>, e: Edid, c: Cursor, p: nat, svds: seq<nat>)
    requires |d| == BLOCK_SIZE && Sized(e) && Holds(d, p, svds) && |svds| < 32
    requires c.v + Min(|svds|, MAX_V) <= MAX_V
    ensures VideoStep(d, e, c, p, |svds|) ==
            Next(e.(video := Splice(e.video, c.v, svds[..Min(|svds|, MAX_V)])),
                 Cursor(p + |svds|, c.v + Min(|svds|, MAX_V), c.a))
  {
    var k := Min(|svds|, MAX_V);
    assert d[p..p + k] == d[p..p + |svds|][..k];
    if k == 0 {
      assert Splice(e.video, c.v, svds[..0]) == e.video;
    }
  }

  /** A piece of what `d` holds at `p`. */
  lemma HoldsPart(d: seq<nat>, p: nat, s: seq<nat>, lo: nat, hi: nat)
    requires Holds(d, p, s) && lo <= hi <= |s|
    ensures d[p + lo..p + hi] == s[lo..hi]
  {
    var t := d[p..p + |s|];
    assert forall i | 0 <= i < hi - lo :: t[lo..hi][i] == d[p + lo..p + hi][i];
  }

  lemma HoldsAt(d: seq<nat>, p: nat, s: seq<nat>, i: nat)
    requires Holds(d, p, s) && i < |s|
    ensures d[p + i] == s[i]
  {
    assert d[p..p + |s|][i] == d[p + i];
  }

  lemma {:induction false} SadsOnEncoded(d: seq<nat>, p: nat, sads: seq<Sad>)
    requires Holds(d, p, Flatten(sads))
    ensures Sads(d, p, |sads|) == sads
  {
    if sads == [] {
    } else {
      var n := |sads| - 1;
      var f := Flatten(sads);
      HoldsPart(d, p, f, 0, 3 * n);
      HoldsAt(d, p, f, 3 * n);
      HoldsAt(d, p, f, 3 * n + 1);
      HoldsAt(d, p, f, 3 * n + 2);
      assert f[..3 * n] == Flatten(sads[..n]);
      SadsOnEncoded(d, p, sads[..n]);
    }
  }

  lemma AudioOnEncoded(d: seq<nat>, e: Edid, c: Cursor, p: nat, sads: seq<Sad>)
    requires |d| == BLOCK_SIZE && Sized(e) && p + 3 * |sads| <= BLOCK_SIZE
    requires Sads(d, p, |sads|) == sads && c.a + |sads| <= MAX_A
    ensures AudioStep(d, e, c, p, 3 * |sads|) ==
            Next(e.(audio := Splice(e.audio, c.a, sads)), Cursor(p + 3 * |sads|, c.v, c.a + |sads|))
  {
    hide Sads, Splice;
    if sads == [] {
      NothingSpliced(e, c.v, c.a);
    }
  }

  lemma VendorOnEncoded(d: seq<nat>, e: Edid, c: Cursor, p: nat, ab: nat, cd: nat, rest: seq<nat>)
    requires |d| == BLOCK_SIZE && p > DATA_START && p + 5 + |rest| < BLOCK_SIZE
    requires Holds(d, p, [0x03, 0x0C, 0x00, ab, cd] + rest)
    ensures VendorStep(d, e, c, p, 5 + |rest|) ==
            Next(e.(hdmiSink := true, cecAB := ab, cecCD := cd, threeD := |rest| >= 8 && rest[7] / 128 > 0),
                 c.(idx := p + 5 + |rest|))
  {
    var s := [0x03, 0x0C, 0x00, ab, cd] + rest;
    HoldsAt(d, p, s, 0);
    HoldsAt(d, p, s, 1);
    HoldsAt(d, p, s, 2);
    HoldsAt(d, p, s, 3);
    HoldsAt(d, p, s, 4);
    if |rest| >= 8 {
      HoldsAt(d, p, s, 12);
      assert s[12] == rest[7];
    }
    hide Holds;
  }

  /** What a single block records, spelled out by kind. */
  lemma RecordOne(e: Edid, b: Block, v: nat, a: nat)
    requires Sized(e) && Fits([b], v, a)
    ensures VideoOf([b]) == if b.Video? then b.svds[..Min(|b.svds|, MAX_V)] else []
    ensures AudioOf([b]) == if b.Audio? then b.sads else []
    ensures AllScalars(e, [b]) == Scalars(e, b)
    ensures b.Video? ==> Record(e, [b], v, a) == e.(video := Splice(e.video, v, VideoOf([b])))
    ensures b.Audio? ==> Record(e, [b], v, a) == e.(audio := Splice(e.audio, a, AudioOf([b])))
    ensures !b.Video? && !b.Audio? ==> Record(e, [b], v, a) == Scalars(e, b)
  {
    assert [b][1..] == [];
    assert VideoOf([]) == [] && AudioOf([]) == [];
    assert AllScalars(Scalars(e, b), []) == Scalars(e, b);
    NothingSpliced(e, v, a);
    hide Splice;
  }

  /** The handler's effect on the payload of one encoded block. */
  lemma PayloadOnEncoded(d: seq<nat>, e: Edid, c: Cursor, p: nat, b: Block)
    requires |d| == BLOCK_SIZE && Sized(e) && p > DATA_START && WellFormed(b)
    requires Holds(d, p, Payload(b)) && p + |Payload(b)| < BLOCK_SIZE
    requires !b.Video? && !b.Audio? && !b.Vendor?
    ensures (if b.Speaker? then SpeakerStep(d, e, c, p) else ExtendedStep(d, e, c, p)) ==
            Next(Scalars(e, b), c.(idx := p + |Payload(b)|))
  {
    var w := Payload(b);
    HoldsAt(d, p, w, 0);
    HoldsAt(d, p, w, 1);
    if |w| == 3 {
      HoldsAt(d, p, w, 2);
    }
    hide Holds;
  }

  lemma EncodedHeader(d: seq<nat>, at: nat, b: Block)
    requires Encodable(b) && Holds(d, at, Encode(b))
    ensures d[at] == TagOf(b) * 32 + |Payload(b)| && Holds(d, at + 1, Payload(b))
  {
    var s := Encode(b);
    HoldsAt(d, at, s, 0);
    HoldsPart(d, at, s, 1, |s|);
    assert s[1..] == Payload(b);
  }

  /** At an encoded block the step is the switch on its tag and length. */
  lemma StepHandles(d: seq<nat>, lim: nat, e: Edid, c: Cursor, b: Block)
    requires |d| == BLOCK_SIZE && Sized(e) && c.idx >= DATA_START && lim < BLOCK_SIZE
    requires Encodable(b) && Holds(d, c.idx, Encode(b)) && c.idx + |Encode(b)| <= lim
    ensures BlockStep(d, lim, e, c) == Handle(d, e, c, c.idx + 1, TagOf(b), |Payload(b)|)
    ensures Holds(d, c.idx + 1, Payload(b)) && c.idx + 1 + |Payload(b)| < BLOCK_SIZE
  {
    hide Handle, Holds, Payload, TagOf, Tag, Length, Encodable;
    EncodedHeader(d, c.idx, b);
    HeaderFields(TagOf(b), |Payload(b)|);
  }

  /** The parser's step over one encoded block: it ends on the next boundary having recorded the block. */
  lemma StepOnEncoded(d: seq<nat>, lim: nat, e: Edid, c: Cursor, b: Block)
    requires |d| == BLOCK_SIZE && Sized(e) && c.idx >= DATA_START && lim < BLOCK_SIZE
    requires WellFormed(b) && Holds(d, c.idx, Encode(b)) && c.idx + |Encode(b)| <= lim && Fits([b], c.v, c.a)
    ensures BlockStep(d, lim, e, c) ==
            Next(Record(e, [b], c.v, c.a),
                 Cursor(c.idx + |Encode(b)|, c.v + |VideoOf([b])|, c.a + |AudioOf([b])|))
  {
    hide Holds, Handle, Record, Payload, Encode, VideoOf, AudioOf, TagOf, BlockStep, Fits, Encodable, Splice;
    StepHandles(d, lim, e, c, b);
    BlockHandled(d, e, c, c.idx + 1, b);
  }

  lemma BlockHandled(d: seq<nat>, e: Edid, c: Cursor, p: nat, b: Block)
    requires |d| == BLOCK_SIZE && Sized(e) && p > DATA_START && WellFormed(b) && Fits([b], c.v, c.a)
    requires Holds(d, p, Payload(b)) && p + |Payload(b)| < BLOCK_SIZE
    ensures Handled(d, e, c, p, b)
  {
    hide Holds, Payload, Handled, Fits, WellFormed;
    if b.Video? {
      HandleVideo(d, e, c, p, b);
    } else if b.Audio? {
      HandleAudio(d, e, c, p, b);
    } else {
      HandleOther(d, e, c, p, b);
    }
  }

  /** The switch on an encoded block ends behind it having recorded it. */
  predicate Handled(d: seq<nat>, e: Edid, c: Cursor, p: nat, b: Block)
    requires |d| == BLOCK_SIZE && Sized(e) && p > DATA_START && WellFormed(b) && Fits([b], c.v, c.a)
  {
    Handle(d, e, c, p, TagOf(b), |Payload(b)|) ==
    Next(Record(e, [b], c.v, c.a), Cursor(p + |Payload(b)|, c.v + |VideoOf([b])|, c.a + |AudioOf([b])|))
  }

  lemma HandleVideo(d: seq<nat>, e: Edid, c: Cursor, p: nat, b: Block)
    requires |d| == BLOCK_SIZE && Sized(e) && p > DATA_START && WellFormed(b) && Fits([b], c.v, c.a)
    requires b.Video? && Holds(d, p, Payload(b))
    ensures Handled(d, e, c, p, b)
  {
    hide Record, AllScalars, VideoOf, AudioOf, Splice, VideoStep;
    RecordOne(e, b, c.v, c.a);
    VideoOnEncoded(d, e, c, p, b.svds);
  }

  lemma HandleAudio(d: seq<nat>, e: Edid, c: Cursor, p: nat, b: Block)
    requires |d| == BLOCK_SIZE && Sized(e) && p > DATA_START && WellFormed(b) && Fits([b], c.v, c.a)
    requires b.Audio? && Holds(d, p, Payload(b))
    ensures Handled(d, e, c, p, b)
  {
    hide Record, AllScalars, Splice, AudioStep, Flatten, Sads, VideoOf, AudioOf;
    RecordOne(e, b, c.v, c.a);
    SadsOnEncoded(d, p, b.sads);
    AudioOnEncoded(d, e, c, p, b.sads);
  }

  lemma HandleOther(d: seq<nat>, e: Edid, c: Cursor, p: nat, b: Block)
    requires |d| == BLOCK_SIZE && Sized(e) && p > DATA_START && WellFormed(b) && Fits([b], c.v, c.a)
    requires !b.Video? && !b.Audio? && Holds(d, p, Payload(b)) && p + |Payload(b)| < BLOCK_SIZE
    ensures Handled(d, e, c, p, b)
  {
    hide Record, AllScalars, VideoOf, AudioOf, Holds, VendorStep, SpeakerStep, ExtendedStep;
    RecordOne(e, b, c.v, c.a);
    if b.Vendor? {
      VendorOnEncoded(d, e, c, p, b.cecAB, b.cecCD, b.rest);
    } else {
      PayloadOnEncoded(d, e, c, p, b);
    }
  }

  lemma NothingSpliced(e: Edid, v: nat, a: nat)
    requires Sized(e)
    ensures v <= MAX_V ==> Splice(e.video, v, []) == e.video
    ensures a <= MAX_A ==> Splice(e.audio, a, []) == e.audio
  {
  }

  lemma SpliceTwice<T>(s: seq<T>, at: nat, x: seq<T>, y: seq<T>)
    requires at + |x| + |y| <= |s|
    ensures Splice(Splice(s, at, x), at + |x|, y) == Splice(s, at, x + y)
  {
  }

  lemma {:induction false} ScalarsFrame(e: Edid, bs: seq<Block>, video: seq<nat>, audio: seq<Sad>)
    ensures AllScalars(e.(video := video, audio := audio), bs) == AllScalars(e, bs).(video := video, audio := audio)
    ensures AllScalars(e, bs).video == e.video && AllScalars(e, bs).audio == e.audio
    decreases |bs|
  {
    if bs != [] {
      ScalarsFrame(Scalars(e, bs[0]), bs[1..], video, audio);
    }
  }

  lemma ScalarsSized(e: Edid, b: Block, v: nat, a: nat)
    requires Sized(e) && Fits([b], v, a)
    ensures Sized(Record(e, [b], v, a))
  {
    RecordOne(e, b, v, a);
  }

  lemma ListsCons(bs: seq<Block>)
    requires bs != []
    ensures VideoOf(bs) == VideoOf([bs[0]]) + VideoOf(bs[1..])
    ensures AudioOf(bs) == AudioOf([bs[0]]) + AudioOf(bs[1..])
  {
    assert VideoOf([]) == [] && AudioOf([]) == [];
    assert [bs[0]][1..] == [];
  }

  /** Recording the first block and then the others is recording them all. */
  lemma RecordCons(e: Edid, bs: seq<Block>, v: nat, a: nat)
    requires Sized(e) && bs != [] && Fits(bs, v, a)
    ensures Fits([bs[0]], v, a) && Sized(Record(e, [bs[0]], v, a))
    ensures Fits(bs[1..], v + |VideoOf([bs[0]])|, a + |AudioOf([bs[0]])|)
    ensures Record(Record(e, [bs[0]], v, a), bs[1..], v + |VideoOf([bs[0]])|, a + |AudioOf([bs[0]])|) ==
            Record(e, bs, v, a)
  {
    hide VideoOf, AudioOf, Splice, Scalars;
    var b, rest := bs[0], bs[1..];
    var x, y := VideoOf([b]), AudioOf([b]);
    ListsCons(bs);
    ScalarsSized(e, b, v, a);
    var e1 := Record(e, [b], v, a);
    RecordOne(e, b, v, a);
    SpliceTwice(e.video, v, x, VideoOf(rest));
    SpliceTwice(e.audio, a, y, AudioOf(rest));
    ScalarsFrame(Scalars(e, b), rest, e1.video, e1.audio);
  }

  lemma RecordNothing(e: Edid, v: nat, a: nat)
    requires Sized(e) && Fits([], v, a)
    ensures Record(e, [], v, a) == e
  {
    NothingSpliced(e, v, a);
  }

  lemma HoldsFirst(d: seq<nat>, at: nat, bs: seq<Block>)
    requires AllEncodable(bs) && bs != [] && Holds(d, at, EncodeAll(bs))
    ensures var s := Encode(bs[0]);
            && Holds(d, at, s) && Holds(d, at + |s|, EncodeAll(bs[1..]))
            && |EncodeAll(bs)| == |s| + |EncodeAll(bs[1..])|
  {
    var s, t := Encode(bs[0]), EncodeAll(bs[1..]);
    hide Encode;
    assert EncodeAll(bs) == s + t;
    HoldsPart(d, at, s + t, 0, |s|);
    HoldsPart(d, at, s + t, |s|, |s + t|);
  }

  lemma EncodeLength(b: Block)
    requires Encodable(b)
    ensures |Encode(b)| > 0
  {
  }

  lemma ListsNil()
    ensures VideoOf([]) == [] && AudioOf([]) == []
  {
  }

  /** The parse of a list of well-formed blocks that fits goes on behind it, having recorded it. */
  lemma {:induction false} ParseThrough(d: seq<nat>, lim: nat, e: Edid, c: Cursor, bs: seq<Block>)
    requires |d| == BLOCK_SIZE && Sized(e) && DATA_START <= c.idx && lim < BLOCK_SIZE
    requires AllWellFormed(bs) && Fits(bs, c.v, c.a)
    requires Holds(d, c.idx, EncodeAll(bs)) && c.idx + |EncodeAll(bs)| <= lim
    ensures Sized(Record(e, bs, c.v, c.a))
    ensures ParseFrom(d, lim, e, c) ==
            ParseFrom(d, lim, Record(e, bs, c.v, c.a),
                      Cursor(c.idx + |EncodeAll(bs)|, c.v + |VideoOf(bs)|, c.a + |AudioOf(bs)|))
    decreases |bs|
  {
    hide BlockStep, Record, VideoOf, AudioOf, Encode, Holds, Fits, Encodable;
    if bs == [] {
      RecordNothing(e, c.v, c.a);
      ListsNil();
    } else {
      var b, rest := bs[0], bs[1..];
      assert WellFormed(b) && AllWellFormed(rest);
      HoldsFirst(d, c.idx, bs);
      RecordCons(e, bs, c.v, c.a);
      ListsCons(bs);
      EncodeLength(b);
      StepOnEncoded(d, lim, e, c, b);
      var c1 := Cursor(c.idx + |Encode(b)|, c.v + |VideoOf([b])|, c.a + |AudioOf([b])|);
      hide EncodeAll;
      ParseThrough(d, lim, Record(e, [b], c.v, c.a), c1, rest);
    }
  }

  lemma {:induction false} SupportKept(e: Edid, bs: seq<Block>)
    ensures var r := AllScalars(e, bs);
            && r.underScan == e.underScan && r.basicAudio == e.basicAudio
            && r.ycbcr444 == e.ycbcr444 && r.ycbcr422 == e.ycbcr422
    decreases |bs|
  {
    if bs != [] {
      SupportKept(Scalars(e, bs[0]), bs[1..]);
    }
  }

  /** The parser recovers every list of well-formed blocks that fits: it returns OK with the support bits, all video
      and audio descriptors in order from position 0, and the last word of every other kind of block. */
  lemma ParseRecovers(d: seq<nat>, e: Edid, bs: seq<Block>)
    requires |d| == 128 && Sized(e) && d[0] == 0x02 && d[1] == 0x03
    requires AllWellFormed(bs) && Fits(bs, 0, 0)
    requires d[2] == 4 + |EncodeAll(bs)| < 128 && Holds(d, 4, EncodeAll(bs))
    ensures Parse(d, e) == Parsed(Record(WithSupportBits(e, d[3]), bs, 0, 0))
    ensures var r := Parse(d, e).edid;
            && r.video[..|VideoOf(bs)|] == VideoOf(bs)
            && r.audio[..|AudioOf(bs)|] == AudioOf(bs)
    ensures var r := Parse(d, e).edid;
            && r.underScan == d[3] / 0x80 % 2 && r.basicAudio == d[3] / 0x40 % 2
            && r.ycbcr444 == d[3] / 0x20 % 2 && r.ycbcr422 == d[3] / 0x10 % 2
  {
    SupportKept(WithSupportBits(e, d[3]), bs);
    ParseThrough(d, d[2], WithSupportBits(e, d[3]), Cursor(4, 0, 0), bs);
  }

  lemma StopsAt(d: seq<nat>, lim: nat, e: Edid, c: Cursor)
    requires |d| == BLOCK_SIZE && Sized(e) && DATA_START <= c.idx < lim < BLOCK_SIZE && d[c.idx] < 0x100
    ensures var overruns := c.idx + 1 + d[c.idx] % 0x20 > lim;
            && (overruns ==> ParseFrom(d, lim, e, c) == Overran(e))
            && (!overruns && d[c.idx] / 0x20 in {0, 5, 6} ==> ParseFrom(d, lim, e, c) == Unknown(e))
  {
    hide VideoStep, AudioStep, SpeakerStep, ExtendedStep, VendorStep;
  }

  /** What ends a parse early behind a list of well-formed blocks that fits: a block that runs past the limit, or one
      with a tag that is none of the five. Either way everything before it has been recorded. */
  lemma ParseStops(d: seq<nat>, e: Edid, bs: seq<Block>)
    requires |d| == 128 && Sized(e) && d[0] == 0x02 && d[1] == 0x03
    requires AllWellFormed(bs) && Fits(bs, 0, 0) && Holds(d, 4, EncodeAll(bs))
    requires 4 + |EncodeAll(bs)| < d[2] < 128 && d[4 + |EncodeAll(bs)|] < 0x100
    ensures var at := 4 + |EncodeAll(bs)|;
            var overruns, before := at + 1 + d[at] % 0x20 > d[2], Record(WithSupportBits(e, d[3]), bs, 0, 0);
            && (overruns ==> Parse(d, e) == Overran(before))
            && (!overruns && d[at] / 0x20 in {0, 5, 6} ==> Parse(d, e) == Unknown(before))
  {
    hide Record, Holds, EncodeAll, VideoOf, AudioOf, Fits, ParseFrom;
    ParseThrough(d, d[2], WithSupportBits(e, d[3]), Cursor(4, 0, 0), bs);
    var c := Cursor(4 + |EncodeAll(bs)|, |VideoOf(bs)|, |AudioOf(bs)|);
    StopsAt(d, d[2], Record(WithSupportBits(e, d[3]), bs, 0, 0), c);
  }

  /** An extension that is no CEA extension of revision 3 is refused before anything is recorded. */
  lemma HeaderRefused(d: seq<nat>, e: Edid)
    requires |d| == 128 && Sized(e)
    ensures Parse(d, e) == TagError <==> d[0] != 0x02
    ensures Parse(d, e) == RevError <==> d[0] == 0x02 && d[1] != 0x03
  {
    hide ParseFrom;
    ParseFromCodes(d, d[2], WithSupportBits(e, d[3]), Cursor(4, 0, 0));
  }

  lemma {:induction false} ParseFromCodes(d: seq<nat>, lim: nat, e: Edid, c: Cursor)
    requires |d| == BLOCK_SIZE && Sized(e) && c.idx >= DATA_START
    ensures ParseFrom(d, lim, e, c) != TagError && ParseFrom(d, lim, e, c) != RevError
    decreases lim - c.idx
  {
    hide BlockStep;
    if c.idx < lim {
      StepSized(d, lim, e, c);
      var r := BlockStep(d, lim, e, c);
      if r.Next? && r.cur.idx > c.idx {
        ParseFromCodes(d, lim, r.edid, r.cur);
      }
    }
  }

  // ---------------------------------------------------------------- when the parser leaves its buffers or never ends

  /** What becomes of a parse of encoded blocks from `at`, with `v` and `a` descriptors recorded: it ends, or a
      descriptor goes beyond its array (or a read beyond the data), or a foreign vendor block holds it up. */
  datatype Fate = Ends | LeavesBuffers | RunsOn

  function FateOf(bs: seq<Block>, at: nat, v: nat, a: nat): Fate
    requires AllEncodable(bs)
    decreases |bs|
  {
    if bs == [] then Ends
    else if bs[0].Foreign? then if at + 3 < BLOCK_SIZE then RunsOn else LeavesBuffers
    else if !Fits([bs[0]], v, a) then LeavesBuffers
    else FateOf(bs[1..], at + |Encode(bs[0])|, v + |VideoOf([bs[0]])|, a + |AudioOf([bs[0]])|)
  }

  /** Without foreign blocks the parse ends exactly if the descriptors fit, and else leaves its buffers. */
  lemma {:induction false} FateIff(bs: seq<Block>, at: nat, v: nat, a: nat)
    requires AllWellFormed(bs) && v <= MAX_V && a <= MAX_A
    ensures FateOf(bs, at, v, a) == if Fits(bs, v, a) then Ends else LeavesBuffers
    decreases |bs|
  {
    if bs == [] {
      assert VideoOf([]) == [] && AudioOf([]) == [];
    } else {
      ListsCons(bs);
      if Fits([bs[0]], v, a) {
        FateIff(bs[1..], at + |Encode(bs[0])|, v + |VideoOf([bs[0]])|, a + |AudioOf([bs[0]])|);
      }
      hide VideoOf, AudioOf, Encode;
    }
  }

  /** A block whose descriptors do not fit is written beyond its array. */
  lemma OversizedEscapes(d: seq<nat>, lim: nat, e: Edid, c: Cursor, b: Block)
    requires |d| == BLOCK_SIZE && Sized(e) && c.idx >= DATA_START && lim < BLOCK_SIZE
    requires WellFormed(b) && Holds(d, c.idx, Encode(b)) && c.idx + |Encode(b)| <= lim
    requires c.v <= MAX_V && c.a <= MAX_A && !Fits([b], c.v, c.a)
    ensures BlockStep(d, lim, e, c).Escapes?
  {
    assert [b][1..] == [] && VideoOf([]) == [] && AudioOf([]) == [];
    assert b.Video? || b.Audio?;
    EncodedHeader(d, c.idx, b);
    HeaderFields(TagOf(b), |Payload(b)|);
    hide Holds, Tag, Length, VideoOf, AudioOf;
  }

  /** A one-byte foreign block sends the parser back to its own header, unless the bytes behind it that it takes for an
      address lie beyond the data. */
  lemma ForeignHolds(d: seq<nat>, lim: nat, e: Edid, c: Cursor, b: Block)
    requires |d| == BLOCK_SIZE && Sized(e) && c.idx >= DATA_START && lim < BLOCK_SIZE
    requires Encodable(b) && b.Foreign? && Holds(d, c.idx, Encode(b)) && c.idx + |Encode(b)| <= lim
    ensures var r := BlockStep(d, lim, e, c);
            if c.idx + 3 < BLOCK_SIZE then r.Next? && r.cur == c && Sized(r.edid) else r.Escapes?
  {
    EncodedHeader(d, c.idx, b);
    HeaderFields(VENDOR_TAG, 1);
    HoldsAt(d, c.idx + 1, Payload(b), 0);
    hide Holds, Tag, Length;
  }

  predicate HasFate(o: Outcome, f: Fate) {
    match f
    case Ends => o.Parsed?
    case LeavesBuffers => o.Escaped?
    case RunsOn => o.Stuck?
  }

  lemma {:induction false} ParseFromFate(d: seq<nat>, lim: nat, e: Edid, c: Cursor, bs: seq<Block>)
    requires |d| == BLOCK_SIZE && Sized(e) && DATA_START <= c.idx && lim < BLOCK_SIZE
    requires AllEncodable(bs) && c.v <= MAX_V && c.a <= MAX_A
    requires Holds(d, c.idx, EncodeAll(bs)) && c.idx + |EncodeAll(bs)| == lim
    ensures HasFate(ParseFrom(d, lim, e, c), FateOf(bs, c.idx, c.v, c.a))
    decreases |bs|
  {
    hide BlockStep, Record, VideoOf, AudioOf, Encode, Holds, Encodable;
    if bs != [] {
      var b, rest := bs[0], bs[1..];
      HoldsFirst(d, c.idx, bs);
      EncodeLength(b);
      hide EncodeAll;
      if b.Foreign? {
        ForeignHolds(d, lim, e, c, b);
      } else if !Fits([b], c.v, c.a) {
        OversizedEscapes(d, lim, e, c, b);
      } else {
        StepOnEncoded(d, lim, e, c, b);
        ScalarsSized(e, b, c.v, c.a);
        var c1 := Cursor(c.idx + |Encode(b)|, c.v + |VideoOf([b])|, c.a + |AudioOf([b])|);
        ParseFromFate(d, lim, Record(e, [b], c.v, c.a), c1, rest);
      }
    }
  }

  predicate EncodedBlock(d: seq<nat>, bs: seq<Block>) {
    && |d| == 128 && d[0] == 0x02 && d[1] == 0x03 && AllEncodable(bs)
    && d[2] == 4 + |EncodeAll(bs)| < 128 && Holds(d, 4, EncodeAll(bs))
  }

  /** Of the encoded lists of well-formed blocks, the parser is led outside its buffers by exactly those with more than
      twenty video or ten audio descriptors. */
  lemma EscapesIff(d: seq<nat>, e: Edid, bs: seq<Block>)
    requires EncodedBlock(d, bs) && NoForeign(bs) && Sized(e)
    ensures Parse(d, e).Escaped? <==> !Fits(bs, 0, 0)
    ensures Parse(d, e).Parsed? <==> Fits(bs, 0, 0)
  {
    ParseFromFate(d, d[2], WithSupportBits(e, d[3]), Cursor(DATA_START, 0, 0), bs);
    FateIff(bs, DATA_START, 0, 0);
  }

  /** Two video blocks of eleven descriptors each, which together no longer fit. */
  function TwentyTwo(): seq<Block> {
    [Video(seq(11, _ => 16)), Video(seq(11, _ => 16))]
  }

  lemma TwentyTwoEscape(e: Edid)
    requires Sized(e)
    ensures AllWellFormed(TwentyTwo())
    ensures var d := [0x02, 0x03, 28, 0] + EncodeAll(TwentyTwo()) + seq(100, _ => 0);
            |d| == BLOCK_SIZE && Parse(d, e).Escaped?
  {
    var bs := TwentyTwo();
    var b := Video(seq(11, _ => 16));
    assert bs[1..] == [b] && [b][1..] == [];
    assert EncodeAll([]) == [] && VideoOf([]) == [];
    assert EncodeAll([b]) == Encode(b) + [] == Encode(b);
    assert EncodeAll(bs) == Encode(b) + Encode(b);
    assert |VideoOf(bs)| == |VideoOf([b])| + |VideoOf([b])| == 22;
    var d := [0x02, 0x03, 28, 0] + EncodeAll(bs) + seq(100, _ => 0);
    assert d[4..28] == EncodeAll(bs);
    hide EncodeAll, Encode, VideoOf;
    EscapesIff(d, e, bs);
  }

  // ---------------------------------------------------------------- whole parses that never end

  /** The block loop is still running after `n` turns. */
  predicate Running(d: seq<nat>, lim: nat, e: Edid, c: Cursor, n: nat)
    requires |d| == BLOCK_SIZE && Sized(e) && c.idx >= DATA_START
    decreases n
  {
    n > 0 ==>
      && c.idx < lim
      && var r := BlockStep(d, lim, e, c);
         StepSized(d, lim, e, c);
         r.Next? && r.cur.idx >= DATA_START && Running(d, lim, r.edid, r.cur, n - 1)
  }

  /** A parse that always moves forward takes no more turns than there are bytes. */
  lemma {:induction false} ForwardEnds(d: seq<nat>, lim: nat, e: Edid, c: Cursor, n: nat)
    requires |d| == BLOCK_SIZE && Sized(e) && c.idx >= DATA_START
    requires !ParseFrom(d, lim, e, c).Stuck? && n > lim - c.idx
    ensures n > 0 ==> !Running(d, lim, e, c, n)
    decreases n
  {
    hide BlockStep;
    if n > 0 && c.idx < lim {
      StepSized(d, lim, e, c);
      var r := BlockStep(d, lim, e, c);
      if r.Next? {
        ForwardEnds(d, lim, r.edid, r.cur, n - 1);
      }
    }
  }

  /** From a foreign block the loop runs on for ever. */
  lemma {:induction false} ForeignRuns(d: seq<nat>, lim: nat, e: Edid, c: Cursor, b: Block, n: nat)
    requires |d| == BLOCK_SIZE && Sized(e) && c.idx >= DATA_START && lim < BLOCK_SIZE && c.idx + 3 < BLOCK_SIZE
    requires Encodable(b) && b.Foreign? && Holds(d, c.idx, Encode(b)) && c.idx + |Encode(b)| <= lim
    ensures Running(d, lim, e, c, n)
    decreases n
  {
    hide BlockStep, Holds;
    if n > 0 {
      ForeignHolds(d, lim, e, c, b);
      EncodeLength(b);
      hide Encode;
      ForeignRuns(d, lim, BlockStep(d, lim, e, c).edid, c, b, n - 1);
    }
  }

  lemma {:induction false} FateRuns(d: seq<nat>, lim: nat, e: Edid, c: Cursor, bs: seq<Block>, n: nat)
    requires |d| == BLOCK_SIZE && Sized(e) && DATA_START <= c.idx && lim < BLOCK_SIZE
    requires AllEncodable(bs) && c.v <= MAX_V && c.a <= MAX_A
    requires Holds(d, c.idx, EncodeAll(bs)) && c.idx + |EncodeAll(bs)| == lim
    requires FateOf(bs, c.idx, c.v, c.a).RunsOn?
    ensures Running(d, lim, e, c, n)
    decreases |bs|
  {
    hide BlockStep, Record, VideoOf, AudioOf, Encode, Holds, Encodable;
    var b, rest := bs[0], bs[1..];
    HoldsFirst(d, c.idx, bs);
    EncodeLength(b);
    hide EncodeAll;
    if b.Foreign? {
      ForeignRuns(d, lim, e, c, b, n);
    } else if n > 0 {
      StepOnEncoded(d, lim, e, c, b);
      ScalarsSized(e, b, c.v, c.a);
      var c1 := Cursor(c.idx + |Encode(b)|, c.v + |VideoOf([b])|, c.a + |AudioOf([b])|);
      FateRuns(d, lim, Record(e, [b], c.v, c.a), c1, rest, n - 1);
    }
  }

  /** The blocks before the first foreign one. */
  function Known(bs: seq<Block>): (r: seq<Block>)
    ensures r <= bs && NoForeign(r) && (r == bs || bs[|r|].Foreign?)
  {
    if bs == [] || bs[0].Foreign? then [] else
      var r := Known(bs[1..]);
      assert |r| < |bs| - 1 ==> bs[1..][|r|] == bs[|r| + 1];
      [bs[0]] + r
  }

  /** The parser reaches the first foreign block if the descriptors before it fit, and is held up there if three more
      bytes of data follow its header. */
  predicate HeldUp(bs: seq<Block>, at: nat, v: nat, a: nat)
    requires AllEncodable(bs)
  {
    var known := Known(bs);
    known != bs && Fits(known, v, a) && at + |EncodeAll(known)| + 3 < BLOCK_SIZE
  }

  lemma KnownCons(bs: seq<Block>)
    requires AllEncodable(bs) && bs != [] && !bs[0].Foreign?
    ensures var b, rest := bs[0], Known(bs[1..]);
            && Known(bs) == [b] + rest
            && |VideoOf(Known(bs))| == |VideoOf([b])| + |VideoOf(rest)|
            && |AudioOf(Known(bs))| == |AudioOf([b])| + |AudioOf(rest)|
            && |EncodeAll(Known(bs))| == |Encode(b)| + |EncodeAll(rest)|
  {
    var known := Known(bs);
    assert known[1..] == Known(bs[1..]) && known[0] == bs[0];
    hide Known, Encode, Encodable;
    assert EncodeAll(known) == Encode(bs[0]) + EncodeAll(known[1..]);
    ListsCons(known);
    hide VideoOf, AudioOf, EncodeAll;
  }

  lemma HeldUpCons(bs: seq<Block>, at: nat, v: nat, a: nat)
    requires AllEncodable(bs) && bs != [] && !bs[0].Foreign?
    ensures var b := bs[0];
            HeldUp(bs, at, v, a) <==>
            Fits([b], v, a) &&
            HeldUp(bs[1..], at + |Encode(b)|, v + |VideoOf([b])|, a + |AudioOf([b])|)
  {
    KnownCons(bs);
    hide VideoOf, AudioOf, Encode, EncodeAll, Known, Encodable;
    assert bs == [bs[0]] + bs[1..];
  }

  lemma RunsOnHere(bs: seq<Block>, at: nat, v: nat, a: nat)
    requires AllEncodable(bs) && v <= MAX_V && a <= MAX_A && (bs == [] || bs[0].Foreign?)
    ensures FateOf(bs, at, v, a).RunsOn? <==> HeldUp(bs, at, v, a)
  {
    ListsNil();
    assert Known(bs) == [];
    hide VideoOf, AudioOf, Encode, Known;
  }

  lemma {:induction false} RunsOnIff(bs: seq<Block>, at: nat, v: nat, a: nat)
    requires AllEncodable(bs) && v <= MAX_V && a <= MAX_A
    ensures FateOf(bs, at, v, a).RunsOn? <==> HeldUp(bs, at, v, a)
    decreases |bs|
  {
    hide VideoOf, AudioOf, Encode, Known, Encodable;
    if bs == [] || bs[0].Foreign? {
      RunsOnHere(bs, at, v, a);
    } else {
      var b := bs[0];
      HeldUpCons(bs, at, v, a);
      hide HeldUp;
      if Fits([b], v, a) {
        RunsOnIff(bs[1..], at + |Encode(b)|, v + |VideoOf([b])|, a + |AudioOf([b])|);
      }
    }
  }

  /** The parse of an encoded list never ends, that is, after every number of turns the loop is still running, exactly
      when it is held up at a foreign block before any descriptor that does not fit. */
  lemma NeverEndsIff(d: seq<nat>, e: Edid, bs: seq<Block>)
    requires EncodedBlock(d, bs) && Sized(e)
    ensures (forall n: nat :: Running(d, d[2], WithSupportBits(e, d[3]), Cursor(DATA_START, 0, 0), n)) <==>
            HeldUp(bs, DATA_START, 0, 0)
  {
    var e1, c := WithSupportBits(e, d[3]), Cursor(DATA_START, 0, 0);
    hide Running, FateOf, ParseFrom, Holds, EncodeAll, HeldUp;
    RunsOnIff(bs, DATA_START, 0, 0);
    ParseFromFate(d, d[2], e1, c, bs);
    if HeldUp(bs, DATA_START, 0, 0) {
      forall n: nat
        ensures Running(d, d[2], e1, c, n)
      {
        FateRuns(d, d[2], e1, c, bs, n);
      }
    } else {
      ForwardEnds(d, d[2], e1, c, d[2]);
    }
  }
}
