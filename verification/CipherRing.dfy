/**
 The descriptor ring of one multi-packet cipher channel.

 `StartTask` is the producer (DRV_Cipher_CreatTask with DRV_CipherStartMultiPkgChn), `HwStep`
 the engine consuming one descriptor, and `Drain` the consumer side of the interrupt
 (DRV_CipherDataDoneMultiPkg). Counter registers follow the driver's own comments: a write to
 IBUF_CNT or OBUF_CNT adds, a write to IEMPTY_CNT or OFULL_CNT subtracts, and the engine moves
 one unit from IBUF to IEMPTY and from OBUF to OFULL per descriptor.
 */
module CipherRing {
  import opened Common

  const LIST_NUM: nat := 128
  const INVALID_CHN: nat := 0xffffffff
  const REG_MAX: nat := 0xffff

  type Key = seq<bv32>
  type Iv = seq<bv32>

  /** The user's control block; `mode` stands for algorithm, width, mode and key length. */
  datatype Ctrl = Ctrl(key: Key, iv: Iv, keyByCA: bool, mode: nat)

  /** A list entry; `ivAddr` is the slot whose IV buffer the entry points at. */
  datatype Desc = Desc(addr: nat, ivSet: bool, endOfList: bool, len: nat, ivAddr: nat)

  datatype Task = Task(src: nat, dst: nat, len: nat, decrypt: bool)

  datatype Chan = Chan(inBuf: seq<Desc>, outBuf: seq<Desc>, ivMem: seq<Iv>,
                       softChn: seq<nat>, callBackArg: seq<nat>, inPtr: nat, outPtr: nat)

  datatype Soft = Soft(ctrl: Ctrl, ivChange: bool, keyChange: bool, privateData: nat, hasCallBack: bool)

  /** Channel registers; `hwPtr` is the list position the engine has reached. */
  datatype Regs = Regs(ibuf: nat, iempty: nat, obuf: nat, ofull: nat,
                       key: Key, decrypt: bool, mode: nat, keyByCA: bool, hwPtr: nat)

  datatype State = State(chan: Chan, soft: Soft, regs: Regs)

  predicate WellFormed(s: State) {
    && |s.chan.inBuf| == |s.chan.outBuf| == |s.chan.ivMem| == |s.chan.softChn| == |s.chan.callBackArg| == LIST_NUM
    && s.chan.inPtr < LIST_NUM && s.chan.outPtr < LIST_NUM && s.regs.hwPtr < LIST_NUM
    && (forall k | 0 <= k < LIST_NUM :: s.chan.inBuf[k].ivAddr < LIST_NUM)
  }

  function Incr(ptr: nat): (r: nat)
    ensures ptr < LIST_NUM ==> r < LIST_NUM && r == (ptr + 1) % LIST_NUM
  {
    if ptr + 1 >= LIST_NUM then 0 else ptr + 1
  }

  function Clamp(n: nat): nat {
    if n > REG_MAX then REG_MAX else n
  }

  function Less(a: nat, b: nat): nat {
    if b <= a then a - b else 0
  }

  // ---------------------------------------------------------------- the steps

  /** HAL_Cipher_Config: direction, mode and key source of the channel. */
  function ConfigRegs(r: Regs, decrypt: bool, c: Ctrl): Regs {
    r.(decrypt := decrypt, mode := c.mode, keyByCA := c.keyByCA)
  }

  /** HAL_Cipher_SetKey writes the key registers only for keys supplied by the CPU. */
  function SetKeyRegs(r: Regs, c: Ctrl): Regs {
    if c.keyByCA then r else r.(key := c.key)
  }

  /** DRV_Cipher_ConfigChn. */
  function Configure(s: State, c: Ctrl): State {
    s.(regs := ConfigRegs(s.regs, false, c),
       soft := s.soft.(ctrl := c, ivChange := true, keyChange := true, hasCallBack := true))
  }

  /** The key and IV a task may bring along, before the ring is looked at. */
  function Supply(f: Soft, key: Option<Key>, iv: Option<Iv>): Soft {
    var f1 := if key.Some? then f.(keyChange := true, ctrl := f.ctrl.(key := key.value)) else f;
    if iv.Some? then f1.(ivChange := true, ctrl := f1.ctrl.(iv := iv.value)) else f1
  }

  /** DRV_CipherStartMultiPkgChn when the engine's backlog leaves room. */
  function Accept(id: nat, s: State, t: Task, arg: nat): (r: State)
    requires WellFormed(s)
    ensures WellFormed(r)
  {
    var p := s.chan.inPtr;
    var entry := s.chan.inBuf[p];
    var inD := Desc(t.src, s.soft.ivChange, true, t.len, if s.soft.ivChange then p else entry.ivAddr);
    var outD := s.chan.outBuf[p].(addr := t.dst, len := t.len, endOfList := true);
    var ivMem := if s.soft.ivChange then s.chan.ivMem[p := s.soft.ctrl.iv] else s.chan.ivMem;
    var r1 := if s.soft.keyChange then SetKeyRegs(s.regs, s.soft.ctrl) else s.regs;
    var r2 := ConfigRegs(r1, t.decrypt, s.soft.ctrl);
    State(
      s.chan.(inBuf := s.chan.inBuf[p := inD], outBuf := s.chan.outBuf[p := outD], ivMem := ivMem,
              softChn := s.chan.softChn[p := id], callBackArg := s.chan.callBackArg[p := arg], inPtr := Incr(p)),
      s.soft.(ivChange := false, keyChange := false, privateData := arg),
      r2.(ibuf := r2.ibuf + 1))
  }

  /** The room test reads IBUF_CNT alone. */
  predicate HasRoom(s: State) {
    s.regs.ibuf < LIST_NUM
  }

  /** DRV_Cipher_CreatTask on soft channel `id`. */
  function StartTask(id: nat, s: State, key: Option<Key>, iv: Option<Iv>, t: Task, arg: nat): (r: State)
    requires WellFormed(s)
    ensures WellFormed(r)
  {
    var s1 := s.(soft := Supply(s.soft, key, iv));
    if HasRoom(s) then Accept(id, s1, t, arg) else s1
  }

  predicate EngineReady(s: State) {
    s.regs.ibuf > 0 && s.regs.obuf > 0
  }

  function HwStep(s: State): (r: State)
    requires WellFormed(s)
    ensures WellFormed(r)
  {
    if EngineReady(s)
    then s.(regs := s.regs.(ibuf := s.regs.ibuf - 1, iempty := s.regs.iempty + 1,
                            obuf := s.regs.obuf - 1, ofull := s.regs.ofull + 1, hwPtr := Incr(s.regs.hwPtr)))
    else s
  }

  datatype Drained = Drained(softChn: seq<nat>, idx: nat, ids: seq<nat>) | InvalidSlot(at: nat)

  /** The interrupt's loop over `n` finished slots from `idx`: the soft channel of each is read and
      the slot invalidated. Reading an invalidated slot would index the channel table out of range. */
  function DrainSlots(softChn: seq<nat>, idx: nat, n: nat): (d: Drained)
    requires |softChn| == LIST_NUM && idx < LIST_NUM
    ensures d.Drained? ==> |d.softChn| == LIST_NUM && d.idx < LIST_NUM && |d.ids| == n
    decreases n
  {
    if n == 0 then Drained(softChn, idx, [])
    else if softChn[idx] == INVALID_CHN then InvalidSlot(idx)
    else
      var rest := DrainSlots(softChn[idx := INVALID_CHN], Incr(idx), n - 1);
      if rest.InvalidSlot? then rest else rest.(ids := [softChn[idx]] + rest.ids)
  }

  function AckRegs(r: Regs, n: nat): Regs {
    var m := Clamp(n);
    r.(iempty := Less(r.iempty, m), ofull := Less(r.ofull, m), obuf := r.obuf + m)
  }

  datatype IsrResult = Served(state: State, ids: seq<nat>) | Faulted(at: nat)

  /** DRV_CipherDataDoneMultiPkg; with nothing finished it reports failure and changes nothing. */
  function Isr(s: State): (r: IsrResult)
    requires WellFormed(s)
    ensures r.Served? ==> WellFormed(r.state) && |r.ids| == s.regs.ofull
  {
    var n := s.regs.ofull;
    if n == 0 then Served(s, [])
    else
      match DrainSlots(s.chan.softChn, s.chan.outPtr, n)
      case InvalidSlot(at) => Faulted(at)
      case Drained(softChn, idx, ids) =>
        Served(s.(chan := s.chan.(softChn := softChn, outPtr := idx), regs := AckRegs(s.regs, n)), ids)
  }

  // ---------------------------------------------------------------- runs and their history

  datatype Event =
    | Config(ctrl: Ctrl)
    | Start(key: Option<Key>, iv: Option<Iv>, task: Task, arg: nat)
    | Engine
    | Interrupt

  /** What the engine must be told about one task: where and how much to read and to write, that each of the two list
      entries is the last of its list, and the IV if there is a new one. */
  datatype Job = Job(src: nat, dst: nat, inLen: nat, outLen: nat, inLast: bool, outLast: bool, iv: Option<Iv>)

  /** The channel-wide settings the engine runs a task under: all that the control and key registers say. */
  datatype Mode = Mode(decrypt: bool, mode: nat, keyByCA: bool, key: Key)

  /** Observations along a run, each in order: for every accepted task its job, its callback argument and
      the settings at its doorbell; for every task the engine consumed, the job it read and the settings
      it ran under; for every task acknowledged, its soft channel and the argument called back with. */
  datatype History = History(jobs: seq<Job>, args: seq<nat>, modes: seq<Mode>,
                             processed: seq<Job>, ran: seq<Mode>,
                             completed: seq<nat>, calls: seq<nat>)

  const NO_HISTORY := History([], [], [], [], [], [], [])

  /** The job in the list entries at a position. */
  function JobAt(s: State, p: nat): Job
    requires WellFormed(s) && p < LIST_NUM
  {
    var d, o := s.chan.inBuf[p], s.chan.outBuf[p];
    Job(d.addr, o.addr, d.len, o.len, d.endOfList, o.endOfList, if d.ivSet then Some(s.chan.ivMem[d.ivAddr]) else None)
  }

  /** The job the engine sees in the list entries at its position. */
  function EngineView(s: State): Job
    requires WellFormed(s)
  {
    JobAt(s, s.regs.hwPtr)
  }

  function ModeOf(s: State): Mode {
    Mode(s.regs.decrypt, s.regs.mode, s.regs.keyByCA, s.regs.key)
  }

  function JobOf(f: Soft, t: Task): Job {
    Job(t.src, t.dst, t.len, t.len, true, true, if f.ivChange then Some(f.ctrl.iv) else None)
  }

  datatype Outcome = Running(state: State, hist: History) | Fault

  function Step(id: nat, s: State, h: History, e: Event): (o: Outcome)
    requires WellFormed(s)
    ensures o.Running? ==> WellFormed(o.state)
  {
    match e
    case Config(c) => Running(Configure(s, c), h)
    case Start(key, iv, t, arg) =>
      var s' := StartTask(id, s, key, iv, t, arg);
      if HasRoom(s)
      then Running(s', h.(jobs := h.jobs + [JobOf(Supply(s.soft, key, iv), t)],
                          args := h.args + [arg], modes := h.modes + [ModeOf(s')]))
      else Running(s', h)
    case Engine =>
      if EngineReady(s)
      then Running(HwStep(s), h.(processed := h.processed + [EngineView(s)], ran := h.ran + [ModeOf(s)]))
      else Running(HwStep(s), h)
    case Interrupt =>
      match Isr(s)
      case Served(s', ids) =>
        Running(s', h.(completed := h.completed + ids,
                       calls := if s.soft.hasCallBack then h.calls + Repeat(s.soft.privateData, |ids|) else h.calls))
      case Faulted(_) => Fault
  }

  function Repeat(x: nat, n: nat): (r: seq<nat>)
    ensures |r| == n && forall i | 0 <= i < n :: r[i] == x
  {
    seq(n, _ => x)
  }

  function Run(id: nat, s: State, h: History, es: seq<Event>): (o: Outcome)
    requires WellFormed(s)
    ensures o.Running? ==> WellFormed(o.state)
    decreases |es|
  {
    if es == [] then Running(s, h)
    else
      match Step(id, s, h, es[0])
      case Running(s', h') => Run(id, s', h', es[1..])
      case Fault => Fault
  }

  function Unacknowledged(s: State): nat {
    s.regs.ibuf + s.regs.ofull
  }

  /** A task the driver accepts finds fewer than 128 tasks unacknowledged; refused tasks and other events are free. */
  predicate Bounded(s: State, e: Event) {
    e.Start? && HasRoom(s) ==> Unacknowledged(s) < 128
  }

  /** Every task accepted in the run is. */
  predicate Disciplined(id: nat, s: State, h: History, es: seq<Event>)
    requires WellFormed(s)
    decreases |es|
  {
    es != [] ==>
      && Bounded(s, es[0])
      && var o := Step(id, s, h, es[0]);
         o.Running? ==> Disciplined(id, o.state, o.hist, es[1..])
  }

  // ---------------------------------------------------------------- the invariant

  /** Slot of the `k`-th task ever accepted. */
  function Slot(k: nat): (p: nat)
    ensures p < LIST_NUM
  {
    k % LIST_NUM
  }

  ghost predicate SlotHolds(s: State, k: nat, j: Job)
    requires WellFormed(s)
  {
    j == JobAt(s, Slot(k)) && (s.chan.inBuf[Slot(k)].ivSet ==> s.chan.inBuf[Slot(k)].ivAddr == Slot(k))
  }

  /** Counter registers and ring pointers are the run's counts. */
  ghost predicate Counted(s: State, h: History) {
    var started, done, acked := |h.jobs|, |h.processed|, |h.completed|;
    && acked <= done <= started <= acked + LIST_NUM
    && s.regs.ibuf == started - done
    && s.regs.ofull == s.regs.iempty == done - acked
    && s.regs.obuf + s.regs.ofull == LIST_NUM
    && s.chan.inPtr == Slot(started) && s.regs.hwPtr == Slot(done) && s.chan.outPtr == Slot(acked)
  }

  /** Unacknowledged slots belong to this channel, and so did every acknowledged one. */
  ghost predicate Owned(id: nat, s: State, h: History)
    requires WellFormed(s)
  {
    && (forall k | 0 <= k < |h.completed| :: h.completed[k] == id)
    && (forall k | |h.completed| <= k < |h.jobs| :: s.chan.softChn[Slot(k)] == id)
  }

  /** What the engine consumed is what was accepted, in order, and slots still ahead of it hold the rest. */
  ghost predicate Queued(s: State, h: History)
    requires WellFormed(s)
  {
    && |h.processed| <= |h.jobs| && h.processed == h.jobs[..|h.processed|]
    && (forall k | |h.processed| <= k < |h.jobs| :: SlotHolds(s, k, h.jobs[k]))
  }

  ghost predicate Inv(id: nat, s: State, h: History)
    requires WellFormed(s)
  {
    Counted(s, h) && Owned(id, s, h) && Queued(s, h)
  }

  /** DRV_Cipher_Init and DRV_CipherInitHardWareChn: zeroed memory, 128 free output buffers. */
  ghost predicate Fresh(s: State) {
    && WellFormed(s)
    && s.chan.inPtr == s.chan.outPtr == s.regs.hwPtr == 0
    && s.regs.ibuf == s.regs.iempty == s.regs.ofull == 0 && s.regs.obuf == LIST_NUM
  }

  lemma FreshInv(id: nat, s: State)
    requires Fresh(s)
    ensures Inv(id, s, NO_HISTORY)
  {
  }

  lemma SlotsDiffer(a: nat, b: nat)
    requires a < b < a + LIST_NUM
    ensures Slot(a) != Slot(b)
  {
  }

  lemma SlotSucc(k: nat)
    ensures Incr(Slot(k)) == Slot(k + 1)
  {
  }

  lemma SlotWraps(k: nat)
    ensures Slot(k + LIST_NUM) == Slot(k)
  {
  }

  lemma StartKeepsQueued(id: nat, s: State, h: History, key: Option<Key>, iv: Option<Iv>, t: Task, arg: nat)
    requires WellFormed(s) && Counted(s, h) && Queued(s, h)
    requires Unacknowledged(s) < LIST_NUM
    ensures var o := Step(id, s, h, Start(key, iv, t, arg)); Queued(o.state, o.hist)
  {
    hide Slot;
    var started := |h.jobs|;
    var o := Step(id, s, h, Start(key, iv, t, arg));
    assert SlotHolds(o.state, started, JobOf(Supply(s.soft, key, iv), t));
    forall k | |h.processed| <= k < started
      ensures SlotHolds(o.state, k, o.hist.jobs[k])
    {
      SlotsDiffer(k, started);
      assert SlotHolds(s, k, h.jobs[k]);
    }
    assert o.hist.jobs[..|h.processed|] == h.jobs[..|h.processed|];
  }

  lemma StartKeepsOwned(id: nat, s: State, h: History, key: Option<Key>, iv: Option<Iv>, t: Task, arg: nat)
    requires WellFormed(s) && Counted(s, h) && Owned(id, s, h)
    requires Unacknowledged(s) < LIST_NUM
    ensures var o := Step(id, s, h, Start(key, iv, t, arg)); Counted(o.state, o.hist) && Owned(id, o.state, o.hist)
  {
    hide Slot;
    var started := |h.jobs|;
    var o := Step(id, s, h, Start(key, iv, t, arg));
    SlotSucc(started);
    forall k | |h.completed| <= k < started
      ensures o.state.chan.softChn[Slot(k)] == id
    {
      SlotsDiffer(k, started);
    }
  }

  lemma StartKeepsInv(id: nat, s: State, h: History, key: Option<Key>, iv: Option<Iv>, t: Task, arg: nat)
    requires WellFormed(s) && Inv(id, s, h)
    requires Unacknowledged(s) < LIST_NUM
    ensures var o := Step(id, s, h, Start(key, iv, t, arg)); Inv(id, o.state, o.hist)
  {
    hide Counted, Owned, Queued;
    StartKeepsOwned(id, s, h, key, iv, t, arg);
    StartKeepsQueued(id, s, h, key, iv, t, arg);
  }

  lemma EngineKeepsInv(id: nat, s: State, h: History)
    requires WellFormed(s) && Inv(id, s, h)
    ensures var o := Step(id, s, h, Engine); Inv(id, o.state, o.hist)
  {
    var done := |h.processed|;
    SlotSucc(done);
    if EngineReady(s) {
      assert SlotHolds(s, done, h.jobs[done]);
      assert EngineView(s) == h.jobs[done];
      var o := Step(id, s, h, Engine);
      assert o.hist.processed == h.jobs[..done + 1];
      forall k | done + 1 <= k < |h.jobs|
        ensures SlotHolds(o.state, k, h.jobs[k])
      {
        assert SlotHolds(s, k, h.jobs[k]);
      }
    }
  }

  /** Draining slots that all belong to `id` yields `id` for each and touches no others. */
  lemma {:induction false} DrainOwn(id: nat, softChn: seq<nat>, from: nat, n: nat)
    requires |softChn| == LIST_NUM && n <= LIST_NUM && id != INVALID_CHN
    requires forall k | from <= k < from + n :: softChn[Slot(k)] == id
    ensures var d := DrainSlots(softChn, Slot(from), n);
            && d.Drained? && d.idx == Slot(from + n)
            && (forall i | 0 <= i < n :: d.ids[i] == id)
            && (forall k | from <= k < from + n :: d.softChn[Slot(k)] == 0xffffffff)
            && (forall k | from + n <= k < from + LIST_NUM :: d.softChn[Slot(k)] == softChn[Slot(k)])
    decreases n
  {
    hide Slot, Incr;
    if n != 0 {
      SlotSucc(from);
      SlotWraps(from);
      var next := softChn[Slot(from) := INVALID_CHN];
      forall k | from < k < from + LIST_NUM
        ensures next[Slot(k)] == softChn[Slot(k)]
      {
        SlotsDiffer(from, k);
      }
      DrainOwn(id, next, from + 1, n - 1);
      var d := DrainSlots(next, Slot(from + 1), n - 1);
      assert d.softChn[Slot(from + LIST_NUM)] == next[Slot(from + LIST_NUM)];
    }
  }

  lemma InterruptKeepsQueued(id: nat, s: State, h: History)
    requires WellFormed(s) && Queued(s, h)
    ensures var o := Step(id, s, h, Interrupt); o.Running? ==> Queued(o.state, o.hist)
  {
    var o := Step(id, s, h, Interrupt);
    if o.Running? {
      forall k | |h.processed| <= k < |h.jobs|
        ensures SlotHolds(o.state, k, h.jobs[k])
      {
        assert SlotHolds(s, k, h.jobs[k]);
      }
    }
  }

  lemma InterruptKeepsInv(id: nat, s: State, h: History)
    requires WellFormed(s) && Inv(id, s, h) && id != INVALID_CHN
    ensures var o := Step(id, s, h, Interrupt); o.Running? && Inv(id, o.state, o.hist)
  {
    hide Queued, DrainSlots;
    var acked, done := |h.completed|, |h.processed|;
    DrainOwn(id, s.chan.softChn, acked, done - acked);
    InterruptKeepsQueued(id, s, h);
  }

  /** Safety of whole runs: a disciplined run from a fresh channel never faults and keeps `Inv`, so tasks
      reach the engine intact and in order, and every completion is one callback of this channel. */
  lemma {:induction false} RunKeepsInv(id: nat, s: State, h: History, es: seq<Event>)
    requires WellFormed(s) && Inv(id, s, h) && id != INVALID_CHN
    requires Disciplined(id, s, h, es)
    ensures var o := Run(id, s, h, es); o.Running? && Inv(id, o.state, o.hist)
    decreases |es|
  {
    if es != [] {
      StepKeepsInv(id, s, h, es[0]);
      var o := Step(id, s, h, es[0]);
      RunKeepsInv(id, o.state, o.hist, es[1..]);
    }
  }

  /** The invariant speaks of the lists, the pointers and the four counters only. */
  lemma SameRingKeepsInv(id: nat, s: State, h: History, n: State)
    requires WellFormed(s) && WellFormed(n) && Inv(id, s, h) && n.chan == s.chan
    requires n.regs.ibuf == s.regs.ibuf && n.regs.iempty == s.regs.iempty && n.regs.obuf == s.regs.obuf
    requires n.regs.ofull == s.regs.ofull && n.regs.hwPtr == s.regs.hwPtr
    ensures Inv(id, n, h)
  {
    forall k | |h.processed| <= k < |h.jobs|
      ensures SlotHolds(n, k, h.jobs[k])
    {
      assert SlotHolds(s, k, h.jobs[k]);
    }
  }

  lemma StepKeepsInv(id: nat, s: State, h: History, e: Event)
    requires WellFormed(s) && Inv(id, s, h) && id != INVALID_CHN
    requires Bounded(s, e)
    ensures var o := Step(id, s, h, e); o.Running? && Inv(id, o.state, o.hist)
  {
    match e
    case Config(c) => SameRingKeepsInv(id, s, h, Step(id, s, h, e).state);
    case Start(key, iv, t, arg) =>
      if HasRoom(s) {
        StartKeepsInv(id, s, h, key, iv, t, arg);
      } else {
        SameRingKeepsInv(id, s, h, Step(id, s, h, e).state);
      }
    case Engine => EngineKeepsInv(id, s, h);
    case Interrupt => InterruptKeepsInv(id, s, h);
  }

  // ---------------------------------------------------------------- the room test

  predicate NoStart(es: seq<Event>) {
    forall e | e in es :: !e.Start?
  }

  /** Nothing the engine or the interrupt does from here on faults. */
  ghost predicate Safe(id: nat, s: State, h: History)
    requires WellFormed(s)
  {
    forall es | NoStart(es) :: Run(id, s, h, es).Running?
  }

  lemma {:induction false} NoStartDisciplined(id: nat, s: State, h: History, es: seq<Event>)
    requires WellFormed(s) && NoStart(es)
    ensures Disciplined(id, s, h, es)
    decreases |es|
  {
    if es != [] {
      var o := Step(id, s, h, es[0]);
      if o.Running? {
        NoStartDisciplined(id, o.state, o.hist, es[1..]);
      }
    }
  }

  lemma {:induction false} RunConcat(id: nat, s: State, h: History, es: seq<Event>, more: seq<Event>)
    requires WellFormed(s)
    ensures Run(id, s, h, es + more) ==
            match Run(id, s, h, es) { case Running(s', h') => Run(id, s', h', more) case Fault => Fault }
    decreases |es|
  {
    if es == [] {
      assert es + more == more;
    } else {
      assert (es + more)[1..] == es[1..] + more;
      var o := Step(id, s, h, es[0]);
      if o.Running? {
        RunConcat(id, o.state, o.hist, es[1..], more);
      }
    }
  }

  lemma OneStep(id: nat, s: State, h: History, e: Event)
    requires WellFormed(s)
    ensures Run(id, s, h, [e]) == Step(id, s, h, e)
  {
    var o := Step(id, s, h, e);
    if o.Running? {
      assert Run(id, o.state, o.hist, []) == o;
    }
  }

  function Engines(n: nat): (es: seq<Event>)
    ensures |es| == n && NoStart(es)
  {
    seq(n, _ => Engine)
  }

  lemma {:induction false} EnginesRun(id: nat, s: State, h: History, n: nat)
    requires WellFormed(s) && n <= s.regs.ibuf && n <= s.regs.obuf
    ensures var o := Run(id, s, h, Engines(n));
            && o.Running? && o.state.chan == s.chan && o.state.soft == s.soft
            && o.state.regs == s.regs.(ibuf := s.regs.ibuf - n, iempty := s.regs.iempty + n, obuf := s.regs.obuf - n,
                                       ofull := s.regs.ofull + n, hwPtr := (s.regs.hwPtr + n) % LIST_NUM)
    decreases n
  {
    if n != 0 {
      var o := Step(id, s, h, Engine);
      assert Engines(n)[1..] == Engines(n - 1);
      EnginesRun(id, o.state, o.hist, n - 1);
    }
  }

  /** A drain that comes across an invalidated slot faults. */
  lemma {:induction false} DrainInvalid(softChn: seq<nat>, from: nat, n: nat, m: nat)
    requires |softChn| == LIST_NUM && m < n && softChn[Slot(from + m)] == INVALID_CHN
    ensures DrainSlots(softChn, Slot(from), n).InvalidSlot?
    decreases n
  {
    SlotSucc(from);
    if m != 0 && softChn[Slot(from)] != INVALID_CHN {
      DrainInvalid(softChn[Slot(from) := INVALID_CHN], from + 1, n - 1, m - 1);
    }
  }

  /** The first interrupt after the overrun serves `f` slots and invalidates the one the new task shares. */
  lemma FirstDrain(id: nat, s: State, h: History, acked: nat, f: nat)
    requires WellFormed(s) && id != INVALID_CHN
    requires 0 < f <= LIST_NUM && s.regs.ofull == f && s.regs.obuf == LIST_NUM - f
    requires s.chan.outPtr == Slot(acked)
    requires forall k | acked <= k < acked + f :: s.chan.softChn[Slot(k)] == id
    ensures var o := Step(id, s, h, Interrupt);
            && o.Running? && o.state.regs.ibuf == s.regs.ibuf
            && o.state.regs.obuf == LIST_NUM && o.state.regs.ofull == 0
            && o.state.chan.outPtr == Slot(acked + f)
            && o.state.chan.softChn[Slot(acked)] == INVALID_CHN
  {
    hide DrainSlots;
    DrainOwn(id, s.chan.softChn, acked, f);
    assert DrainSlots(s.chan.softChn, Slot(acked), f).softChn[Slot(acked)] == INVALID_CHN;
  }

  /** After the engine has finished its backlog the second interrupt reaches that slot. */
  lemma SecondDrain(id: nat, s: State, h: History, acked: nat, f: nat)
    requires WellFormed(s) && 0 < f <= LIST_NUM
    requires s.regs.ibuf == LIST_NUM + 1 - f && s.regs.obuf == LIST_NUM && s.regs.ofull == 0
    requires s.chan.outPtr == Slot(acked + f) && s.chan.softChn[Slot(acked)] == INVALID_CHN
    ensures Run(id, s, h, Engines(LIST_NUM + 1 - f) + [Interrupt]).Fault?
  {
    hide Run, DrainSlots, Slot, Engines;
    var n := LIST_NUM + 1 - f;
    EnginesRun(id, s, h, n);
    var o := Run(id, s, h, Engines(n));
    SlotWraps(acked);
    DrainInvalid(o.state.chan.softChn, acked + f, n, LIST_NUM - f);
    RunConcat(id, s, h, Engines(n), [Interrupt]);
    OneStep(id, o.state, o.hist, Interrupt);
  }

  /** What an accepted task leaves: its slot's two entries and bookkeeping, the other slots as they were, and one more
      buffer for the engine. */
  lemma AcceptedEntries(id: nat, s: State, key: Option<Key>, iv: Option<Iv>, t: Task, arg: nat)
    requires WellFormed(s) && HasRoom(s)
    ensures var p, n := s.chan.inPtr, StartTask(id, s, key, iv, t, arg);
            var d, o := n.chan.inBuf[p], n.chan.outBuf[p];
            && d == Desc(t.src, d.ivSet, true, t.len, d.ivAddr) &&
                o == s.chan.outBuf[p].(addr := t.dst, len := t.len, endOfList := true)
            && n.chan.softChn == s.chan.softChn[p := id] && n.chan.callBackArg == s.chan.callBackArg[p := arg]
            && n.chan.inPtr == (p + 1) % 128 && n.chan.outPtr == s.chan.outPtr
            && (forall q | 0 <= q < 128 && q != p :: n.chan.inBuf[q] == s.chan.inBuf[q])
            && (forall q | 0 <= q < 128 && q != p :: n.chan.outBuf[q] == s.chan.outBuf[q])
            && n.regs.ibuf == s.regs.ibuf + 1
            && (n.regs.iempty, n.regs.obuf, n.regs.ofull) == (s.regs.iempty, s.regs.obuf, s.regs.ofull)
  {
    hide Supply;
  }

  lemma OverrunState(id: nat, s: State, h: History, key: Option<Key>, iv: Option<Iv>, t: Task, arg: nat)
    requires WellFormed(s) && Inv(id, s, h) && HasRoom(s) && Unacknowledged(s) == LIST_NUM
    ensures var s1 := StartTask(id, s, key, iv, t, arg);
            var acked, f := |h.completed|, s.regs.ofull;
            && 0 < f <= LIST_NUM && s1.regs.ofull == f && s1.regs.obuf == LIST_NUM - f
            && s1.regs.ibuf == LIST_NUM + 1 - f && s1.chan.outPtr == Slot(acked)
            && forall k | acked <= k < acked + f :: s1.chan.softChn[Slot(k)] == id
  {
    hide Queued, StartTask;
    var acked := |h.completed|;
    AcceptedEntries(id, s, key, iv, t, arg);
    assert Slot(acked + LIST_NUM) == Slot(acked);
  }

  /** A task accepted on top of 128 unacknowledged ones: one interrupt, the engine finishing its backlog,
      and the next interrupt reads a slot the first one invalidated. */
  lemma OverrunFaults(id: nat, s: State, h: History, key: Option<Key>, iv: Option<Iv>, t: Task, arg: nat)
    requires WellFormed(s) && Inv(id, s, h) && id != INVALID_CHN
    requires HasRoom(s) && Unacknowledged(s) == LIST_NUM
    ensures var o := Step(id, s, h, Start(key, iv, t, arg));
            !Safe(id, o.state, o.hist)
  {
    OverrunState(id, s, h, key, iv, t, arg);
    hide Inv, StartTask, Run, DrainSlots, Isr;
    var acked, f := |h.completed|, s.regs.ofull;
    var o := Step(id, s, h, Start(key, iv, t, arg));
    FirstDrain(id, o.state, o.hist, acked, f);
    var o2 := Step(id, o.state, o.hist, Interrupt);
    SecondDrain(id, o2.state, o2.hist, acked, f);
    var tail := Engines(LIST_NUM + 1 - f) + [Interrupt];
    RunConcat(id, o.state, o.hist, [Interrupt], tail);
    OneStep(id, o.state, o.hist, Interrupt);
    assert NoStart([Interrupt] + tail);
  }

  lemma InvSafe(id: nat, s: State, h: History)
    requires WellFormed(s) && Inv(id, s, h) && id != INVALID_CHN
    ensures Safe(id, s, h)
  {
    forall es | NoStart(es)
      ensures Run(id, s, h, es).Running?
    {
      NoStartDisciplined(id, s, h, es);
      RunKeepsInv(id, s, h, es);
    }
  }

  /** The driver accepts a task exactly while fewer than 128 accepted ones await the engine. */
  lemma AcceptsIff(id: nat, s: State, h: History, key: Option<Key>, iv: Option<Iv>, t: Task, arg: nat)
    requires WellFormed(s) && Inv(id, s, h)
    ensures var o := Step(id, s, h, Start(key, iv, t, arg));
            && o.Running?
            && (|h.jobs| - |h.processed| < 128 ==> |o.hist.jobs| == |h.jobs| + 1 && o.hist.args == h.args + [arg])
            && (|h.jobs| - |h.processed| >= 128 ==> o.hist == h && o.state.chan == s.chan && o.state.regs == s.regs)
  {
    hide SlotHolds, JobOf, Accept, Owned;
  }

  /** Accepting a task is safe exactly while fewer than 128 tasks are unacknowledged: the sum of IBUF_CNT and
      OFULL_CNT, not the IBUF_CNT the driver tests, is what must leave room. */
  lemma StartSafeIff(id: nat, s: State, h: History, key: Option<Key>, iv: Option<Iv>, t: Task, arg: nat)
    requires WellFormed(s) && Inv(id, s, h) && id != INVALID_CHN && HasRoom(s)
    ensures var o := Step(id, s, h, Start(key, iv, t, arg));
            Safe(id, o.state, o.hist) <==> Unacknowledged(s) < 128
  {
    var o := Step(id, s, h, Start(key, iv, t, arg));
    if Unacknowledged(s) < LIST_NUM {
      StartKeepsInv(id, s, h, key, iv, t, arg);
      InvSafe(id, o.state, o.hist);
    } else {
      OverrunFaults(id, s, h, key, iv, t, arg);
    }
  }

  /** After every step of the run, whatever the engine and the interrupt do next is safe. */
  ghost predicate SafeThroughout(id: nat, s: State, h: History, es: seq<Event>)
    requires WellFormed(s)
    decreases |es|
  {
    es != [] ==>
      var o := Step(id, s, h, es[0]);
      o.Running? && Safe(id, o.state, o.hist) && SafeThroughout(id, o.state, o.hist, es[1..])
  }

  /** A whole run is safe exactly when it never has the driver accept a 129th unacknowledged task. */
  lemma {:induction false} RunSafeIff(id: nat, s: State, h: History, es: seq<Event>)
    requires WellFormed(s) && Inv(id, s, h) && id != INVALID_CHN
    ensures SafeThroughout(id, s, h, es) <==> Disciplined(id, s, h, es)
    decreases |es|
  {
    hide Safe, Step;
    if es != [] {
      if Bounded(s, es[0]) {
        StepKeepsInv(id, s, h, es[0]);
        var o := Step(id, s, h, es[0]);
        InvSafe(id, o.state, o.hist);
        RunSafeIff(id, o.state, o.hist, es[1..]);
      } else {
        OverrunFaults(id, s, h, es[0].key, es[0].iv, es[0].task, es[0].arg);
      }
    }
  }

  function Starts(t: Task, n: nat): (es: seq<Event>)
    ensures |es| == n
  {
    seq(n, _ => Start(None, None, t, 0))
  }

  lemma {:induction false} StartsRun(id: nat, s: State, h: History, t: Task, n: nat)
    requires WellFormed(s) && Inv(id, s, h) && id != INVALID_CHN
    requires s.regs.ofull == 0 && |h.processed| == 0 && s.regs.ibuf + n <= LIST_NUM
    ensures var o := Run(id, s, h, Starts(t, n));
            && o.Running? && Inv(id, o.state, o.hist)
            && o.state.regs.ibuf == s.regs.ibuf + n && o.state.regs.ofull == 0 && |o.hist.processed| == 0
    decreases n
  {
    if n != 0 {
      StartKeepsInv(id, s, h, None, None, t, 0);
      var o := Step(id, s, h, Start(None, None, t, 0));
      assert Starts(t, n)[1..] == Starts(t, n - 1);
      StartsRun(id, o.state, o.hist, t, n - 1);
    }
  }

  /** The driver's own test does let that happen: fill the ring, let the engine finish one task, start another. */
  lemma RoomTestInsufficient(id: nat, s: State, t: Task)
    requires Fresh(s) && id != INVALID_CHN
    ensures var o := Run(id, s, NO_HISTORY, Starts(t, 128) + [Engine]);
            && o.Running? && HasRoom(o.state)
            && var o' := Step(id, o.state, o.hist, Start(None, None, t, 0));
               !Safe(id, o'.state, o'.hist)
  {
    FreshInv(id, s);
    StartsRun(id, s, NO_HISTORY, t, LIST_NUM);
    var o1 := Run(id, s, NO_HISTORY, Starts(t, LIST_NUM));
    RunConcat(id, s, NO_HISTORY, Starts(t, LIST_NUM), [Engine]);
    EngineKeepsInv(id, o1.state, o1.hist);
    var o := Step(id, o1.state, o1.hist, Engine);
    assert Run(id, o1.state, o1.hist, [Engine]) == o;
    OverrunFaults(id, o.state, o.hist, None, None, t, 0);
  }
}
