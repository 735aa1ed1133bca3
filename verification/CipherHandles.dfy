/**
 Cipher handles: the allocation of channels 1 to 7 to open files by the ioctl layer, together
 with the open flags of the driver below it.

 As long as handles reach the user, the tables are a partial map from channels to files. When
 the copy of a new handle to the user fails, the channel stays open without an owner; the
 module proves that this is the only way out of the map and that there is no way back.
 */
module CipherHandles {
  import opened Common

  const CHAN_NUM: nat := 8
  const ID_CIPHER: nat := 100

  /** A file is named by a number; None is the null file pointer. */
  type File = nat

  datatype Table = Table(open: seq<bool>, owner: seq<Option<File>>, done: seq<bool>, lower: seq<bool>)

  predicate Sized(t: Table) {
    |t.open| == |t.owner| == |t.done| == |t.lower| == CHAN_NUM
  }

  function Handle(chn: nat): nat {
    ID_CIPHER * 0x10000 + chn
  }

  /** Destroy keeps the low eight bits of a handle, the other calls the low sixteen. */
  function DestroyChn(handle: nat): nat {
    handle % 0x100
  }

  function CallChn(handle: nat): nat {
    handle % 0x10000
  }

  lemma HandleRoundTrip(chn: nat)
    requires chn < 8
    ensures DestroyChn(Handle(chn)) == CallChn(Handle(chn)) == chn && Handle(chn) == 0x640000 + chn
  {
  }

  /** Of any word destroy sees the low octet, and the other calls the low half. */
  lemma MasksKeep(k: nat, c: nat)
    ensures c < 0x100 ==> DestroyChn(0x100 * k + c) == c
    ensures c < 0x1_0000 ==> CallChn(0x1_0000 * k + c) == c
  {
  }

  // ---------------------------------------------------------------- specification

  datatype Request =
    | Create(file: File, copyOk: bool)
    | Destroy(file: File, handle: nat)
    | Use(file: File, handle: nat)
    | Release(file: File)

  datatype Reply = Granted(chn: nat) | NoChannel | CopyFailed | InvalidHandle | Success

  /** The channel the allocation scan stops at, 8 when every channel is open. */
  function FirstClosed(open: seq<bool>, from: nat): (i: nat)
    requires |open| == CHAN_NUM && from <= CHAN_NUM
    ensures from <= i <= CHAN_NUM && (forall k | from <= k < i :: open[k])
    ensures i < CHAN_NUM ==> !open[i]
    decreases CHAN_NUM - from
  {
    if from < CHAN_NUM && open[from] then FirstClosed(open, from + 1) else from
  }

  function CreateStep(t: Table, file: File, copyOk: bool): (r: (Table, Reply))
    requires Sized(t)
    ensures Sized(r.0)
  {
    var i := FirstClosed(t.open, 1);
    if i >= CHAN_NUM then (t, NoChannel)
    else
      var t1 := t.(open := t.open[i := true], lower := t.lower[i := true]);
      if copyOk then (t1.(owner := t1.owner[i := Some(file)]), Granted(i)) else (t1, CopyFailed)
  }

  predicate MayUse(t: Table, file: File, chn: nat)
    requires Sized(t) && chn < CHAN_NUM
  {
    t.open[chn] && t.owner[chn] == Some(file)
  }

  function Close(t: Table, chn: nat): (r: Table)
    requires Sized(t) && chn < CHAN_NUM
    ensures Sized(r)
  {
    t.(open := t.open[chn := false], owner := t.owner[chn := None], lower := t.lower[chn := false])
  }

  function DestroyStep(t: Table, file: File, handle: nat): (r: (Table, Reply))
    requires Sized(t)
    ensures Sized(r.0)
  {
    var chn := DestroyChn(handle);
    if chn >= CHAN_NUM then (t, InvalidHandle)
    else if !MayUse(t, file, chn) then (t, Success)
    else (Close(t, chn), Success)
  }

  /** The guard of the configure, encrypt and decrypt calls. */
  function UseReply(t: Table, file: File, handle: nat): Reply
    requires Sized(t)
  {
    var chn := CallChn(handle);
    if chn >= CHAN_NUM || !MayUse(t, file, chn) then InvalidHandle else Granted(chn)
  }

  /** The release scan over channels `from` onward. */
  function ReleaseFrom(t: Table, file: File, from: nat): (r: Table)
    requires Sized(t) && from <= CHAN_NUM
    ensures Sized(r)
    decreases CHAN_NUM - from
  {
    if from == CHAN_NUM then t
    else ReleaseFrom(if t.owner[from] == Some(file) then Close(t, from) else t, file, from + 1)
  }

  function Step(t: Table, q: Request): (r: (Table, Reply))
    requires Sized(t)
    ensures Sized(r.0)
  {
    match q
    case Create(file, copyOk) => CreateStep(t, file, copyOk)
    case Destroy(file, handle) => DestroyStep(t, file, handle)
    case Use(file, handle) => (t, UseReply(t, file, handle))
    case Release(file) => (ReleaseFrom(t, file, 0), Success)
  }

  function Run(t: Table, qs: seq<Request>): (r: Table)
    requires Sized(t)
    ensures Sized(r)
    decreases |qs|
  {
    if qs == [] then t else Run(Step(t, qs[0]).0, qs[1..])
  }

  // ---------------------------------------------------------------- the partial map

  function Owners(t: Table): (m: map<nat, File>)
    requires Sized(t)
    ensures forall c: nat :: c in m <==> c < CHAN_NUM && t.owner[c].Some?
    ensures forall c | c in m :: m[c] == t.owner[c].value
  {
    map c: nat | c < CHAN_NUM && t.owner[c].Some? :: t.owner[c].value
  }

  /** What each request does to a map from channels to files. */
  function MapStep(m: map<nat, File>, q: Request): (r: map<nat, File>) {
    match q
    case Create(file, _) =>
      var free := set c: nat | 1 <= c < 8 && c !in m;
      if free == {} then m
      else m[LeastFree(m, 1) := file]
    case Destroy(file, handle) =>
      var c := DestroyChn(handle);
      if c in m && m[c] == file then m - {c} else m
    case Use(_, _) => m
    case Release(file) => map c | c in m && m[c] != file :: m[c]
  }

  function LeastFree(m: map<nat, File>, from: nat): (i: nat)
    requires from <= CHAN_NUM
    ensures from <= i <= CHAN_NUM && (forall k | from <= k < i :: k in m) && (i < CHAN_NUM ==> i !in m)
    decreases CHAN_NUM - from
  {
    if from < CHAN_NUM && from in m then LeastFree(m, from + 1) else from
  }

  /** Open channels are exactly the owned ones, in both layers, and channel 0 is never given out. */
  ghost predicate Consistent(t: Table)
    requires Sized(t)
  {
    && !t.open[0] && t.owner[0] == None && !t.lower[0]
    && (forall c | 0 <= c < CHAN_NUM :: t.open[c] <==> t.owner[c].Some?)
    && (forall c | 0 <= c < CHAN_NUM :: t.lower[c] == t.open[c])
  }

  lemma {:induction false} ReleaseClears(t: Table, file: File, from: nat)
    requires Sized(t) && from <= CHAN_NUM
    ensures var r := ReleaseFrom(t, file, from);
            && r.done == t.done
            && (forall c | 0 <= c < CHAN_NUM && (c < from || t.owner[c] != Some(file)) ::
                  r.open[c] == t.open[c] && r.owner[c] == t.owner[c] && r.lower[c] == t.lower[c])
            && (forall c | from <= c < CHAN_NUM && t.owner[c] == Some(file) ::
                  !r.open[c] && r.owner[c] == None && !r.lower[c])
    decreases CHAN_NUM - from
  {
    if from < CHAN_NUM {
      ReleaseClears(if t.owner[from] == Some(file) then Close(t, from) else t, file, from + 1);
    }
  }

  predicate LosesChannel(t: Table, q: Request)
    requires Sized(t)
  {
    q.Create? && !q.copyOk && FirstClosed(t.open, 1) < CHAN_NUM
  }

  /** Consistency survives a request exactly when it is not a creation that gets a channel and then fails
      to hand it over. */
  lemma ConsistentIff(t: Table, q: Request)
    requires Sized(t) && Consistent(t)
    ensures Consistent(Step(t, q).0) <==> !LosesChannel(t, q)
  {
    hide FirstClosed, ReleaseFrom;
    match q
    case Create(file, copyOk) =>
      var i := FirstClosed(t.open, 1);
      if i < CHAN_NUM && !copyOk {
        assert CreateStep(t, file, copyOk).0.open[i] && CreateStep(t, file, copyOk).0.owner[i] == None;
      }
    case Destroy(_, _) =>
    case Use(_, _) =>
    case Release(file) => ReleaseClears(t, file, 0);
  }

  lemma CreateRefinesMap(t: Table, file: File)
    requires Sized(t) && Consistent(t)
    ensures var r := CreateStep(t, file, true); var m := Owners(t);
            && Owners(r.0) == MapStep(m, Create(file, true))
            && if forall c: nat | 1 <= c < CHAN_NUM :: c in m then r.1 == NoChannel
               else r.1.Granted? && 1 <= r.1.chn < CHAN_NUM && r.1.chn !in m && Owners(r.0) == m[r.1.chn := file]
  {
    hide FirstClosed, LeastFree;
    var m := Owners(t);
    var i := FirstClosed(t.open, 1);
    var free := set c: nat | 1 <= c < CHAN_NUM && c !in m;
    if i < CHAN_NUM {
      assert i in free;
      assert LeastFree(m, 1) == i;
      assert Owners(CreateStep(t, file, true).0) == m[i := file];
    } else {
      assert free == {};
    }
  }

  lemma DestroyRefinesMap(t: Table, file: File, handle: nat)
    requires Sized(t) && Consistent(t)
    ensures Owners(DestroyStep(t, file, handle).0) == MapStep(Owners(t), Destroy(file, handle))
  {
    hide DestroyChn;
    var c := DestroyChn(handle);
    if c < CHAN_NUM && MayUse(t, file, c) {
      assert Owners(Close(t, c)) == Owners(t) - {c};
    }
  }

  lemma ReleaseRefinesMap(t: Table, file: File)
    requires Sized(t)
    ensures Owners(ReleaseFrom(t, file, 0)) == MapStep(Owners(t), Release(file))
  {
    hide ReleaseFrom;
    ReleaseClears(t, file, 0);
    assert Owners(ReleaseFrom(t, file, 0)) == MapStep(Owners(t), Release(file));
  }

  /** What the reply to a request must be, by the map alone. */
  ghost predicate ReplyFits(m: map<nat, File>, q: Request, reply: Reply) {
    match q
    case Create(file, _) =>
      if forall c: nat | 1 <= c < 8 :: c in m then reply == NoChannel
      else reply.Granted? && 1 <= reply.chn < 8 && reply.chn !in m && MapStep(m, q) == m[reply.chn := file]
    case Destroy(_, handle) => reply == if DestroyChn(handle) < 8 then Success else InvalidHandle
    case Use(file, handle) =>
      var c := CallChn(handle);
      reply == if c in m && m[c] == file then Granted(c) else InvalidHandle
    case Release(_) => reply == Success
  }

  /** One request with a successful copy is one step of the map, and its reply is what the map dictates. */
  lemma StepRefinesMap(t: Table, q: Request)
    requires Sized(t) && Consistent(t) && (q.Create? ==> q.copyOk)
    ensures var r := Step(t, q);
            Consistent(r.0) && Owners(r.0) == MapStep(Owners(t), q) && ReplyFits(Owners(t), q, r.1)
  {
    hide FirstClosed, ReleaseFrom, DestroyChn, CallChn;
    ConsistentIff(t, q);
    match q
    case Create(file, _) => CreateRefinesMap(t, file);
    case Destroy(file, handle) => DestroyRefinesMap(t, file, handle);
    case Use(_, _) =>
    case Release(file) => ReleaseRefinesMap(t, file);
  }

  function MapRun(m: map<nat, File>, qs: seq<Request>): map<nat, File>
    decreases |qs|
  {
    if qs == [] then m else MapRun(MapStep(m, qs[0]), qs[1..])
  }

  lemma {:induction false} RunRefinesMap(t: Table, qs: seq<Request>)
    requires Sized(t) && Consistent(t)
    requires forall q | q in qs && q.Create? :: q.copyOk
    ensures Consistent(Run(t, qs)) && Owners(Run(t, qs)) == MapRun(Owners(t), qs)
    decreases |qs|
  {
    hide Step, MapStep;
    if qs != [] {
      assert qs[0] in qs;
      StepRefinesMap(t, qs[0]);
      assert forall q | q in qs[1..] :: q in qs;
      RunRefinesMap(Step(t, qs[0]).0, qs[1..]);
    }
  }

  // ---------------------------------------------------------------- a lost channel

  predicate Lost(t: Table, c: nat)
    requires Sized(t) && c < CHAN_NUM
  {
    t.open[c] && t.owner[c] == None
  }

  /** No request whatever gives a lost channel back: it is never granted, used, destroyed or released again. */
  lemma {:induction false} LostForGood(t: Table, qs: seq<Request>, c: nat)
    requires Sized(t) && c < CHAN_NUM && Lost(t, c)
    ensures Lost(Run(t, qs), c)
    ensures forall q :: Step(Run(t, qs), q).1 != Granted(c)
    decreases |qs|
  {
    if qs == [] {
    } else {
      if qs[0].Release? {
        ReleaseClears(t, qs[0].file, 0);
      }
      LostForGood(Step(t, qs[0]).0, qs[1..], c);
    }
  }

  // ---------------------------------------------------------------- the driver's routines

  class Device {
    const open: array<bool>
    const done: array<bool>
    const owner: array<Option<File>>
    const lower: array<bool>

    ghost predicate Valid() {
      && open.Length == done.Length == owner.Length == lower.Length == CHAN_NUM
      && open != done && open != lower && done != lower
    }

    ghost function Abs(): (t: Table)
      reads open, done, owner, lower
      ensures Valid() ==> Sized(t)
    {
      Table(open[..], owner[..], done[..], lower[..])
    }

    /** DRV_CIPHER_ModInit. */
    constructor ()
      ensures Valid() && Consistent(Abs()) && Owners(Abs()) == map[]
      ensures fresh(open) && fresh(done) && fresh(owner) && fresh(lower)
    {
      open := new bool[CHAN_NUM](_ => false);
      done := new bool[CHAN_NUM](_ => false);
      owner := new Option<File>[CHAN_NUM](_ => None);
      lower := new bool[CHAN_NUM](_ => false);
    }

    /** The create call of DRV_CIPHER_Ioctl; `copyOk` is whether the handle reached the user. */
    method CreateHandle(file: File, copyOk: bool) returns (reply: Reply)
      requires Valid()
      modifies open, owner, lower
      ensures (Abs(), reply) == CreateStep(old(Abs()), file, copyOk)
    {
      var i := 1;
      while i < 8
        invariant 1 <= i <= 8
        invariant FirstClosed(open[..], 1) == FirstClosed(open[..], i)
      {
        if !open[i] {
          break;
        }
        i := i + 1;
      }
      if i >= 8 {
        return NoChannel;
      }
      open[i] := true;
      lower[i] := true;
      if !copyOk {
        return CopyFailed;
      }
      owner[i] := Some(file);
      return Granted(i);
    }

    method DestroyHandle(file: File, handle: nat) returns (reply: Reply)
      requires Valid()
      modifies open, owner, lower
      ensures (Abs(), reply) == DestroyStep(old(Abs()), file, handle)
    {
      var chn := DestroyChn(handle);
      if chn >= CHAN_NUM {
        return InvalidHandle;
      }
      if !open[chn] || owner[chn] != Some(file) {
        return Success;
      }
      open[chn] := false;
      owner[chn] := None;
      lower[chn] := false;
      return Success;
    }

    /** The checks before configure, encrypt and decrypt touch a channel; the latter two clear its done flag. */
    method Begin(file: File, handle: nat, transfer: bool) returns (reply: Reply)
      requires Valid()
      modifies done
      ensures reply == UseReply(old(Abs()), file, handle)
      ensures Abs() == if reply.Granted? && transfer
                       then old(Abs()).(done := old(Abs()).done[reply.chn := false]) else old(Abs())
    {
      var chn := CallChn(handle);
      if chn >= CHAN_NUM {
        return InvalidHandle;
      }
      if !open[chn] || owner[chn] != Some(file) {
        return InvalidHandle;
      }
      if transfer {
        done[chn] := false;
      }
      return Granted(chn);
    }

    /** DRV_CIPHER_UserCommCallBack. */
    method CallBack(arg: nat)
      requires Valid() && arg < CHAN_NUM
      modifies done
      ensures Abs() == old(Abs()).(done := old(Abs()).done[arg := true])
    {
      done[arg] := true;
    }

    /** DRV_CIPHER_Release. */
    method ReleaseFile(file: File)
      requires Valid()
      modifies open, owner, lower
      ensures Abs() == ReleaseFrom(old(Abs()), file, 0)
    {
      var i := 0;
      while i < CHAN_NUM
        invariant 0 <= i <= CHAN_NUM
        invariant ReleaseFrom(Abs(), file, i) == ReleaseFrom(old(Abs()), file, 0)
      {
        ghost var before := Abs();
        if owner[i] == Some(file) {
          lower[i] := false;
          open[i] := false;
          owner[i] := None;
          assert Abs() == Close(before, i);
        }
        i := i + 1;
      }
    }
  }
}
