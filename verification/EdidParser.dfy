/**
 The extension parser as the driver runs it: GLOBAL_EDID and its descriptor arrays updated in
 place while an index walks over the block. Each method is proved against the step of
 EdidBlocks it carries out.
 */
module EdidParser {
  import opened EdidBlocks

  /** The parser's return codes, and two outcomes it has no code for: a byte or a descriptor outside its buffers was
      about to be touched, or a block did not move the index forward. The model stops there. */
  datatype Code =
    | ShortDescriptorsOk
    | ExtTagError
    | RevAddrError
    | VDescrOverflow
    | UnknownTagCode
    | OutsideBuffers
    | NoProgress

  lemma SpliceSnoc<T>(s: seq<T>, at: nat, t: seq<T>, x: T)
    requires at + |t| < |s|
    ensures Splice(s, at, t)[at + |t| := x] == Splice(s, at, t + [x])
  {
  }

  /** The audio table once `i` descriptors of a block at `p` are in. */
  function AudioAfter(s: seq<Sad>, d: seq<nat>, p: nat, a: nat, i: nat): (r: seq<Sad>)
    requires i > 0 ==> a + i <= |s| && p + 3 * i <= |d|
    ensures |r| == |s|
  {
    if i == 0 then s else Splice(s, a, Sads(d, p, i))
  }

  lemma AudioAfterNext(s: seq<Sad>, d: seq<nat>, p: nat, a: nat, i: nat)
    requires a + i + 1 <= |s| && p + 3 * i + 3 <= |d|
    ensures AudioAfter(s, d, p, a, i + 1) ==
            AudioAfter(s, d, p, a, i)[a + i := Sad(d[p + 3 * i], d[p + 3 * i + 1], d[p + 3 * i + 2])]
  {
    if i == 0 {
      assert Splice(s, a, []) == s && Sads(d, p, 0) == [];
    }
    SpliceSnoc(s, a, Sads(d, p, i), Sad(d[p + 3 * i], d[p + 3 * i + 1], d[p + 3 * i + 2]));
  }

  /** The video table once `i` descriptors of a block at `p` are in. */
  function VideoAfter(s: seq<nat>, d: seq<nat>, p: nat, v: nat, i: nat): (r: seq<nat>)
    requires i > 0 ==> v + i <= |s| && p + i <= |d|
    ensures |r| == |s|
  {
    if i == 0 then s else Splice(s, v, d[p..p + i])
  }

  lemma VideoAfterNext(s: seq<nat>, d: seq<nat>, p: nat, v: nat, i: nat)
    requires v + i + 1 <= |s| && p + i + 1 <= |d|
    ensures VideoAfter(s, d, p, v, i + 1) == VideoAfter(s, d, p, v, i)[v + i := d[p + i]]
  {
    if i == 0 {
      assert Splice(s, v, []) == s && d[p..p] == [];
    }
    assert d[p..p + i + 1] == d[p..p + i] + [d[p + i]];
    SpliceSnoc(s, v, d[p..p + i], d[p + i]);
  }

  /** Byte `j` of a row of the audio table overwritten. */
  function PutByte(s: Sad, j: nat, x: nat): Sad
    requires j < 3
  {
    if j == 0 then s.(b0 := x) else if j == 1 then s.(b1 := x) else s.(b2 := x)
  }

  /** GLOBAL_EDID. */
  class GlobalEdid {
    var underScan: nat
    var basicAudio: nat
    var ycbcr444: nat
    var ycbcr422: nat
    const video: array<nat>
    const audio: array<Sad>
    const spkr: array<nat>
    var colorimetry: nat
    var metadata: nat
    var hdmiSink: bool
    var cecAB: nat
    var cecCD: nat
    var threeD: bool

    ghost predicate Valid() {
      && video.Length == MAX_V && audio.Length == MAX_A && spkr.Length == MAX_SPKR
      && video != spkr
    }

    ghost function Abs(): (e: Edid)
      requires Valid()
      reads this, video, audio, spkr
      ensures Sized(e)
    {
      Edid(underScan, basicAudio, ycbcr444, ycbcr422, video[..], audio[..], spkr[..],
           colorimetry, metadata, hdmiSink, cecAB, cecCD, threeD)
    }

    constructor ()
      ensures Valid() && fresh(video) && fresh(audio) && fresh(spkr)
    {
      video := new nat[MAX_V];
      audio := new Sad[MAX_A](_ => Sad(0, 0, 0));
      spkr := new nat[MAX_SPKR];
    }

    /** One short audio descriptor, a byte at a time. */
    method ReadSad(d: seq<nat>, idx: nat, a: nat) returns (next: nat)
      requires Valid() && idx + 3 <= |d| && a < MAX_A
      modifies audio
      ensures next == idx + 3
      ensures audio[..] == old(audio[..])[a := Sad(d[idx], d[idx + 1], d[idx + 2])]
    {
      var j: nat := 0;
      next := idx;
      while j < 3
        invariant j <= 3 && next == idx + j
        invariant audio[..] == old(audio[..])[a := audio[a]]
        invariant j > 0 ==> audio[a].b0 == d[idx]
        invariant j > 1 ==> audio[a].b1 == d[idx + 1]
        invariant j > 2 ==> audio[a].b2 == d[idx + 2]
      {
        audio[a] := PutByte(audio[a], j, d[next]);
        j, next := j + 1, next + 1;
      }
    }

    method ReadVideo(d: seq<nat>, idx: nat, len: nat, v: nat, ghost c: Cursor)
      returns (inside: bool, next: nat, v': nat)
      requires Valid() && |d| == BLOCK_SIZE && c.v == v
      modifies video
      ensures inside == !VideoStep(d, old(Abs()), c, idx, len).Escapes?
      ensures inside ==> Next(Abs(), c.(idx := next, v := v')) == VideoStep(d, old(Abs()), c, idx, len)
    {
      hide Splice;
      var i: nat := 0;
      inside := true;
      next, v' := idx, v;
      ghost var s := video[..];
      while i < len && i < MAX_V
        invariant i <= Min(len, MAX_V) && next == idx + i && v' == v + i
        invariant i == 0 || (v' <= MAX_V && next <= BLOCK_SIZE)
        invariant video[..] == VideoAfter(s, d, idx, v, i)
      {
        hide VideoAfter;
        if v' >= MAX_V || next >= BLOCK_SIZE {
          inside := false;
          return;
        }
        VideoAfterNext(s, d, idx, v, i);
        video[v'] := d[next];
        next, v', i := next + 1, v' + 1, i + 1;
      }
      next := next + (len - i);
    }

    method ReadAudio(d: seq<nat>, idx: nat, len: nat, a: nat, ghost c: Cursor)
      returns (inside: bool, next: nat, a': nat)
      requires Valid() && |d| == BLOCK_SIZE && c.a == a
      modifies audio
      ensures inside == !AudioStep(d, old(Abs()), c, idx, len).Escapes?
      ensures inside ==> Next(Abs(), c.(idx := next, a := a')) == AudioStep(d, old(Abs()), c, idx, len)
    {
      hide Splice, Sads;
      var i: nat := 0;
      inside := true;
      next, a' := idx, a;
      ghost var s := audio[..];
      while i < len / 3
        invariant i <= len / 3 && next == idx + 3 * i && a' == a + i
        invariant i == 0 || (a' <= MAX_A && next <= BLOCK_SIZE)
        invariant audio[..] == AudioAfter(s, d, idx, a, i)
      {
        hide AudioAfter;
        if a' >= MAX_A || next + 2 >= BLOCK_SIZE {
          inside := false;
          return;
        }
        AudioAfterNext(s, d, idx, a, i);
        next := ReadSad(d, next, a');
        a', i := a' + 1, i + 1;
      }
    }

    method ReadSpeaker(d: seq<nat>, idx: nat, ghost c: Cursor) returns (inside: bool, next: nat)
      requires Valid() && |d| == BLOCK_SIZE
      modifies spkr
      ensures inside == !SpeakerStep(d, old(Abs()), c, idx).Escapes?
      ensures inside ==> Next(Abs(), c.(idx := next)) == SpeakerStep(d, old(Abs()), c, idx)
    {
      inside, next := idx < BLOCK_SIZE, idx;
      if !inside {
        return;
      }
      spkr[0] := d[idx];
      next := idx + 1;
      next := next + 2;
    }

    method ReadExtended(d: seq<nat>, idx: nat, ghost c: Cursor) returns (inside: bool, next: nat)
      requires Valid() && |d| == BLOCK_SIZE
      modifies `colorimetry, `metadata
      ensures inside == !ExtendedStep(d, old(Abs()), c, idx).Escapes?
      ensures inside ==> Next(Abs(), c.(idx := next)) == ExtendedStep(d, old(Abs()), c, idx)
    {
      inside, next := idx < BLOCK_SIZE, idx;
      if !inside {
        return;
      }
      var extendedTag := d[idx];
      next := idx + 1;
      if extendedTag == VIDEO_CAPABILITY {
        next := next + 1;
      } else if extendedTag == COLORIMETRY {
        if next + 1 >= BLOCK_SIZE {
          inside := false;
          return;
        }
        colorimetry := d[next] % 4;
        next := next + 1;
        metadata := d[next] % 8;
        next := next + 1;
      }
    }

    method ReadVendor(d: seq<nat>, idx: nat, len: nat, ghost c: Cursor) returns (inside: bool, next: nat)
      requires Valid() && |d| == BLOCK_SIZE && idx > DATA_START
      modifies `hdmiSink, `cecAB, `cecCD, `threeD
      ensures inside == !VendorStep(d, old(Abs()), c, idx, len).Escapes?
      ensures inside ==> Next(Abs(), c.(idx := next)) == VendorStep(d, old(Abs()), c, idx, len)
    {
      var base := idx - 1;
      next := idx + 1;
      if idx >= BLOCK_SIZE {
        return false, next;
      }
      hdmiSink := d[idx] == 0x03;
      if hdmiSink {
        if next >= BLOCK_SIZE {
          return false, next;
        }
        hdmiSink := d[next] == 0x0C;
        next := next + 1;
        if hdmiSink {
          if next >= BLOCK_SIZE {
            return false, next;
          }
          hdmiSink := d[next] == 0x00;
          next := next + 1;
        }
      }
      if next + 1 >= BLOCK_SIZE {
        return false, next;
      }
      cecAB := d[next];
      next := next + 1;
      cecCD := d[next];
      next := next + 1;
      if next + 7 > base + len {
        threeD := false;
      } else if next + 7 >= BLOCK_SIZE {
        return false, next;
      } else {
        threeD := d[next + 7] / 128 > 0;
      }
      inside, next := true, next + len - 5;
    }

    /** The switch on the tag of one block. */
    method ReadBlock(d: seq<nat>, tag: nat, idx: nat, len: nat, v: nat, a: nat, ghost lim: nat)
      returns (inside: bool, known: bool, next: nat, v': nat, a': nat)
      requires Valid() && |d| == BLOCK_SIZE && DATA_START < idx <= BLOCK_SIZE
      requires tag == Tag(d[idx - 1]) && len == Length(d[idx - 1]) && idx + len <= lim
      modifies this, video, audio, spkr
      ensures BlockStep(d, lim, old(Abs()), Cursor(idx - 1, v, a)) ==
              if !inside then Escapes else if known then Next(Abs(), Cursor(next, v', a')) else UnknownTag
      ensures inside && !known ==> Abs() == old(Abs())
    {
      hide VideoStep, AudioStep, SpeakerStep, ExtendedStep, VendorStep, Tag, Length, Abs;
      inside, known, next, v', a' := true, true, idx, v, a;
      ghost var c := Cursor(idx - 1, v, a);
      if tag == VIDEO_TAG {
        inside, next, v' := ReadVideo(d, idx, len, v, c);
      } else if tag == AUDIO_TAG {
        inside, next, a' := ReadAudio(d, idx, len, a, c);
      } else if tag == SPEAKER_TAG {
        inside, next := ReadSpeaker(d, idx, c);
      } else if tag == EXTENDED_TAG {
        inside, next := ReadExtended(d, idx, c);
      } else if tag == VENDOR_TAG {
        inside, next := ReadVendor(d, idx, len, c);
      } else {
        known := false;
      }
    }

    /** Parse861ShortDescriptors. */
    method ParseShortDescriptors(d: seq<nat>) returns (code: Code)
      requires Valid() && |d| == BLOCK_SIZE
      modifies this, video, audio, spkr
      ensures match Parse(d, old(Abs()))
              case Parsed(e) => code == ShortDescriptorsOk && Abs() == e
              case Overran(e) => code == VDescrOverflow && Abs() == e
              case Unknown(e) => code == UnknownTagCode && Abs() == e
              case TagError => code == ExtTagError && Abs() == old(Abs())
              case RevError => code == RevAddrError && Abs() == old(Abs())
              case Escaped => code == OutsideBuffers
              case Stuck(_) => code == NoProgress
    {
      if d[0] != 0x02 {
        return ExtTagError;
      }
      if d[1] != 0x03 {
        return RevAddrError;
      }
      var lim := d[2];
      underScan, basicAudio := d[3] / 128 % 2, d[3] / 64 % 2;
      ycbcr444, ycbcr422 := d[3] / 32 % 2, d[3] / 16 % 2;
      var idx: nat, v: nat, a: nat := DATA_START, 0, 0;
      ghost var whole := Parse(d, old(Abs()));
      assert whole == ParseFrom(d, lim, Abs(), Cursor(idx, v, a));
      while idx < lim
        invariant DATA_START <= idx && whole == ParseFrom(d, lim, Abs(), Cursor(idx, v, a))
        decreases lim - idx
      {
        hide Tag, Length, Abs, Parse;
        if idx >= BLOCK_SIZE {
          return OutsideBuffers;
        }
        var header := idx;
        var tag, len := Tag(d[idx]), Length(d[idx]);
        idx := idx + 1;
        if idx + len > lim {
          return VDescrOverflow;
        }
        var inside, known;
        inside, known, idx, v, a := ReadBlock(d, tag, idx, len, v, a, lim);
        if !inside {
          return OutsideBuffers;
        }
        if !known {
          return UnknownTagCode;
        }
        if idx <= header {
          return NoProgress;
        }
      }
      code := ShortDescriptorsOk;
    }
  }
}
