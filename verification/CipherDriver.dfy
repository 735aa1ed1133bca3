/**
 The driver's tables and registers, updated in place: the eight channel structures, the eight
 soft channels and the register file. Every routine is proved to take its channel through the
 step of `CipherRing` and to leave the other channels alone.
 */
module CipherDriver {
  import opened Common
  import R = CipherRing

  const CHAN_NUM: nat := 8
  const PKGX1_CHAN: nat := 0

  /** An argument a completion callback was made with, and the soft channel it was made for. */
  datatype Call = Call(softChn: nat, arg: nat)

  /** A channel structure with all its slots in place. */
  ghost predicate ChanOk(ch: R.Chan) {
    && |ch.inBuf| == |ch.outBuf| == |ch.ivMem| == |ch.softChn| == |ch.callBackArg| == R.LIST_NUM
    && ch.inPtr < R.LIST_NUM && ch.outPtr < R.LIST_NUM
    && (forall k | 0 <= k < R.LIST_NUM :: ch.inBuf[k].ivAddr < R.LIST_NUM)
    && (forall k | 0 <= k < R.LIST_NUM :: ch.softChn[k] < CHAN_NUM || ch.softChn[k] == R.INVALID_CHN)
  }

  /** The callbacks one drain makes: for each slot's soft channel, its current argument. */
  function CallsFor(softs: seq<R.Soft>, ids: seq<nat>): seq<Call> {
    if ids == [] then []
    else
      var id := ids[|ids| - 1];
      CallsFor(softs, ids[..|ids| - 1]) +
      if id < |softs| && softs[id].hasCallBack then [Call(id, softs[id].privateData)] else []
  }

  lemma NoCalls(softs: seq<R.Soft>)
    ensures CallsFor(softs, []) == []
  {
  }

  lemma CallsSnoc(softs: seq<R.Soft>, ids: seq<nat>, id: nat)
    ensures CallsFor(softs, ids + [id]) ==
            CallsFor(softs, ids) +
            if id < |softs| && softs[id].hasCallBack then [Call(id, softs[id].privateData)] else []
  {
    assert (ids + [id])[..|ids|] == ids;
  }

  /** For tasks of one soft channel these are as many calls with its argument, or none without a routine. */
  lemma {:induction false} OwnCalls(softs: seq<R.Soft>, ids: seq<nat>, c: nat)
    requires c < |softs| && forall id | id in ids :: id == c
    ensures var calls := CallsFor(softs, ids);
            if softs[c].hasCallBack
            then |calls| == |ids| && forall i | 0 <= i < |calls| :: calls[i] == Call(c, softs[c].privateData)
            else calls == []
    decreases |ids|
  {
    if ids != [] {
      assert ids[|ids| - 1] in ids;
      var before := ids[..|ids| - 1];
      forall id | id in before
        ensures id == c
      {
        var k :| 0 <= k < |before| && before[k] == id;
        assert ids[k] in ids;
      }
      OwnCalls(softs, ids[..|ids| - 1], c);
    }
  }

  /** What an interrupt does to a multi-packet channel and calls back for it, given whether its status bit is set. */
  predicate ServedAs(before: R.State, after: R.State, softs: seq<R.Soft>, hit: bool, calls: seq<Call>)
    requires R.WellFormed(before)
  {
    if hit then
      var r := R.Isr(before);
      r.Served? && after == r.state && calls == CallsFor(softs, r.ids)
    else after == before && calls == []
  }

  /** A channel whose bit is clear is left alone; one whose bit is set is drained and calls back for what it yields. */
  lemma ServedByStatus(before: R.State, after: R.State, softs: seq<R.Soft>, hit: bool, calls: seq<Call>)
    requires R.WellFormed(before) && ServedAs(before, after, softs, hit, calls)
    ensures !hit ==> after == before && calls == []
    ensures hit ==>
              R.Isr(before).Served? && after == R.Isr(before).state && calls == CallsFor(softs, R.Isr(before).ids)
  {
    hide R.Isr, CallsFor, R.WellFormed;
  }

  class Driver {
    const chans: array<R.Chan>
    const softs: array<R.Soft>
    const regs: array<R.Regs>

    ghost predicate Valid()
      reads this, chans, softs, regs
    {
      && chans.Length == softs.Length == regs.Length == CHAN_NUM
      && (forall c | 0 <= c < CHAN_NUM :: ChanOk(chans[c]))
      && (forall c | 0 <= c < CHAN_NUM :: regs[c].hwPtr < R.LIST_NUM)
    }

    /** The channel structure, soft channel and registers of hardware channel `c`. */
    ghost function At(c: nat): R.State
      requires c < chans.Length && c < softs.Length && c < regs.Length
      reads this, chans, softs, regs
    {
      R.State(chans[c], softs[c], regs[c])
    }

    twostate predicate OthersUnchanged(c: nat)
      requires chans.Length == softs.Length == regs.Length == CHAN_NUM
      reads this, chans, softs, regs
    {
      forall d | 0 <= d < CHAN_NUM && d != c :: At(d) == old(At(d))
    }

    // ---------------------------------------------------------------- register access

    /** HAL_Cipher_SetInBufCnt: the write adds. */
    method SetInBufCnt(c: nat, num: nat)
      requires 0 < c < regs.Length
      modifies regs
      ensures regs[c] == old(regs[c]).(ibuf := old(regs[c]).ibuf + if num > 0xffff then 0xffff else num)
      ensures forall d | 0 <= d < regs.Length && d != c :: regs[d] == old(regs[d])
    {
      var n := num;
      if n > R.REG_MAX {
        n := R.REG_MAX;
      }
      regs[c] := regs[c].(ibuf := regs[c].ibuf + n);
    }

    /** HAL_Cipher_SetInBufEmpty, HAL_Cipher_SetOutBufFull (the writes subtract) and
        HAL_Cipher_SetOutBufCnt (the write adds), as the interrupt issues them. */
    method Acknowledge(c: nat, num: nat)
      requires 0 < c < regs.Length
      modifies regs
      ensures regs[c] == R.AckRegs(old(regs[c]), num)
      ensures var r, n := old(regs[c]), if num > 0xffff then 0xffff else num;
              && regs[c] == r.(iempty := regs[c].iempty, ofull := regs[c].ofull, obuf := r.obuf + n)
              && regs[c].iempty == (if n <= r.iempty then r.iempty - n else 0)
              && regs[c].ofull == (if n <= r.ofull then r.ofull - n else 0)
      ensures forall d | 0 <= d < regs.Length && d != c :: regs[d] == old(regs[d])
    {
      var n := num;
      if n > R.REG_MAX {
        n := R.REG_MAX;
      }
      regs[c] := regs[c].(iempty := R.Less(regs[c].iempty, n));
      regs[c] := regs[c].(ofull := R.Less(regs[c].ofull, n));
      regs[c] := regs[c].(obuf := regs[c].obuf + n);
    }

    // ---------------------------------------------------------------- configuration

    /** DRV_Cipher_ConfigChn. */
    method ConfigChn(c: nat, ctrl: R.Ctrl)
      requires Valid() && 0 < c < CHAN_NUM
      modifies softs, regs
      ensures Valid() && At(c) == R.Configure(old(At(c)), ctrl)
      ensures OthersUnchanged(c)
    {
      softs[c] := softs[c].(hasCallBack := true);
      regs[c] := R.ConfigRegs(regs[c], false, ctrl);
      softs[c] := softs[c].(ivChange := true);
      softs[c] := softs[c].(keyChange := true);
      softs[c] := softs[c].(ctrl := ctrl);
    }

    // ---------------------------------------------------------------- starting a task

    /** DRV_CipherStartMultiPkgChn. */
    method StartMultiPkg(c: nat, task: R.Task, arg: nat) returns (ok: bool)
      requires Valid() && 0 < c < CHAN_NUM
      modifies chans, softs, regs
      ensures Valid() && ok == R.HasRoom(old(At(c)))
      ensures At(c) == if ok then R.Accept(c, old(At(c)), task, arg) else old(At(c))
      ensures OthersUnchanged(c)
    {
      hide ChanOk, R.SetKeyRegs, R.ConfigRegs;
      var busyCnt := regs[c].ibuf;
      if busyCnt >= R.LIST_NUM {
        return false;
      }
      WriteEntries(c, task);
      ApplySettings(c, task.decrypt, arg);
      PublishSlot(c, arg);
      SetInBufCnt(c, 1);
      return true;
    }

    /** The key if one is due, the direction, and the soft channel's flags and argument. */
    method ApplySettings(c: nat, decrypt: bool, arg: nat)
      requires Valid() && 0 < c < CHAN_NUM
      modifies softs, regs
      ensures Valid() && OthersUnchanged(c)
      ensures var f := old(softs[c]);
              && softs[c] == f.(ivChange := false, keyChange := false, privateData := arg)
              && regs[c] == R.ConfigRegs(if f.keyChange then R.SetKeyRegs(old(regs[c]), f.ctrl) else old(regs[c]),
                                         decrypt, f.ctrl)
    {
      hide ChanOk;
      var sc := softs[c];
      if sc.keyChange {
        regs[c] := R.SetKeyRegs(regs[c], sc.ctrl);
        sc := sc.(keyChange := false);
      }
      regs[c] := R.ConfigRegs(regs[c], decrypt, sc.ctrl);
      softs[c] := sc.(ivChange := false, privateData := arg);
    }

    /** The input and output list entries of the slot at the producer pointer, and its IV buffer. */
    method WriteEntries(c: nat, task: R.Task)
      requires Valid() && 0 < c < CHAN_NUM
      modifies chans
      ensures Valid() && OthersUnchanged(c)
      ensures var s, p := old(At(c)), old(chans[c]).inPtr;
              var ivAddr := if s.soft.ivChange then p else s.chan.inBuf[p].ivAddr;
              var output := s.chan.outBuf[p].(addr := task.dst, len := task.len, endOfList := true);
              chans[c] == s.chan.(inBuf := s.chan.inBuf[p := R.Desc(task.src, s.soft.ivChange, true, task.len, ivAddr)],
                                  outBuf := s.chan.outBuf[p := output],
                                  ivMem := if s.soft.ivChange then s.chan.ivMem[p := s.soft.ctrl.iv] else s.chan.ivMem)
    {
      var ch, ptr := chans[c], chans[c].inPtr;
      var inD := ch.inBuf[ptr].(addr := task.src, len := task.len);
      var outD := ch.outBuf[ptr].(addr := task.dst, len := task.len);
      if softs[c].ivChange {
        ch := ch.(ivMem := ch.ivMem[ptr := softs[c].ctrl.iv]);
        inD := inD.(ivAddr := ptr, ivSet := true);
      } else {
        inD := inD.(ivSet := false);
      }
      inD := inD.(endOfList := true);
      outD := outD.(endOfList := true);
      chans[c] := ch.(inBuf := ch.inBuf[ptr := inD], outBuf := ch.outBuf[ptr := outD]);
    }

    /** The slot is recorded as this soft channel's and the producer pointer moves on. */
    method PublishSlot(c: nat, arg: nat)
      requires Valid() && 0 < c < CHAN_NUM
      modifies chans
      ensures Valid() && OthersUnchanged(c)
      ensures var ch := old(chans[c]);
              chans[c] == ch.(softChn := ch.softChn[ch.inPtr := c], callBackArg := ch.callBackArg[ch.inPtr := arg],
                              inPtr := R.Incr(ch.inPtr))
    {
      var ptr := chans[c].inPtr;
      chans[c] := chans[c].(softChn := chans[c].softChn[ptr := c], callBackArg := chans[c].callBackArg[ptr := arg]);
      ptr := ptr + 1;
      if ptr >= R.LIST_NUM {
        ptr := 0;
      }
      chans[c] := chans[c].(inPtr := ptr);
    }

    /** DRV_Cipher_CreatTask on a multi-packet channel. */
    method CreateTask(c: nat, task: R.Task, arg: nat, key: Option<R.Key>, iv: Option<R.Iv>) returns (ok: bool)
      requires Valid() && 0 < c < CHAN_NUM
      modifies chans, softs, regs
      ensures Valid() && ok == R.HasRoom(old(At(c)))
      ensures At(c) == R.StartTask(c, old(At(c)), key, iv, task, arg)
      ensures OthersUnchanged(c)
    {
      if key.Some? {
        softs[c] := softs[c].(keyChange := true);
        softs[c] := softs[c].(ctrl := softs[c].ctrl.(key := key.value));
      }
      if iv.Some? {
        softs[c] := softs[c].(ivChange := true);
        softs[c] := softs[c].(ctrl := softs[c].ctrl.(iv := iv.value));
      }
      assert At(c) == old(At(c)).(soft := R.Supply(old(At(c)).soft, key, iv));
      ok := StartMultiPkg(c, task, arg);
    }

    // ---------------------------------------------------------------- the interrupt

    /** The loop body up to the callback: the slot's soft channel is read and the slot invalidated. */
    method TakeSlot(c: nat, idx: nat) returns (softChnId: nat)
      requires Valid() && 0 < c < CHAN_NUM && idx < R.LIST_NUM
      modifies chans
      ensures Valid() && softChnId == old(chans[c]).softChn[idx]
      ensures chans[c] == old(chans[c]).(softChn := old(chans[c]).softChn[idx := R.INVALID_CHN])
      ensures forall d | 0 <= d < CHAN_NUM && d != c :: chans[d] == old(chans[d])
    {
      softChnId := chans[c].softChn[idx];
      chans[c] := chans[c].(softChn := chans[c].softChn[idx := R.INVALID_CHN]);
    }

    /** DRV_CipherDataDoneMultiPkg. `fault` reports that the routine came to an invalidated slot, where
        the driver would index its channel table out of range. */
    method DataDoneMultiPkg(c: nat) returns (done: bool, fault: bool, calls: seq<Call>)
      requires Valid() && 0 < c < CHAN_NUM
      modifies chans, regs
      ensures fault <==> R.Isr(old(At(c))).Faulted?
      ensures !fault ==> Valid() && At(c) == R.Isr(old(At(c))).state && OthersUnchanged(c)
      ensures !fault ==> calls == CallsFor(softs[..], R.Isr(old(At(c))).ids)
      ensures done <==> !fault && old(regs[c].ofull) > 0
    {
      hide R.DrainSlots, CallsFor;
      calls := [];
      NoCalls(softs[..]);
      var fullCnt: nat := regs[c].ofull;
      if fullCnt == 0 {
        return false, false, [];
      }
      var idx: nat := chans[c].outPtr;
      var i: nat := 0;
      ghost var ids: seq<nat> := [];
      ghost var whole := R.DrainSlots(chans[c].softChn, idx, fullCnt);
      PrependNothing(whole);
      while i < fullCnt
        invariant 0 <= i <= fullCnt && |ids| == i && idx < R.LIST_NUM
        invariant Valid()
        invariant chans[c] == old(chans[c]).(softChn := chans[c].softChn)
        invariant forall d | 0 <= d < CHAN_NUM && d != c :: chans[d] == old(chans[d])
        invariant forall d | 0 <= d < CHAN_NUM :: regs[d] == old(regs[d])
        invariant Prepend(ids, R.DrainSlots(chans[c].softChn, idx, fullCnt - i)) == whole
        invariant calls == CallsFor(softs[..], ids)
      {
        ghost var rest := R.DrainSlots(chans[c].softChn, idx, fullCnt - i);
        DrainUnrolls(chans[c].softChn, idx, fullCnt - i);
        if chans[c].softChn[idx] == R.INVALID_CHN {
          return false, true, calls;
        }
        var softChnId := TakeSlot(c, idx);
        if softs[softChnId].hasCallBack {
          calls := calls + [Call(softChnId, softs[softChnId].privateData)];
        }
        CallsSnoc(softs[..], ids, softChnId);
        idx := idx + 1;
        if idx >= R.LIST_NUM {
          idx := 0;
        }
        i := i + 1;
        PrependSnoc(ids, softChnId, R.DrainSlots(chans[c].softChn, idx, fullCnt - i), rest);
        ids := ids + [softChnId];
      }
      assert ids + [] == ids;
      DrainUnrolls(chans[c].softChn, idx, 0);
      assert whole == R.Drained(chans[c].softChn, idx, ids);
      chans[c] := chans[c].(outPtr := idx);
      Acknowledge(c, fullCnt);
      return true, false, calls;
    }

    /** DRV_CipherDataDoneSinglePkg: one callback of the soft channel of that number. */
    method DataDoneSinglePkg(c: nat) returns (calls: seq<Call>)
      requires Valid() && c < CHAN_NUM
      ensures calls == CallsFor(softs[..], [c])
    {
      calls := [];
      if softs[c].hasCallBack {
        calls := [Call(c, softs[c].privateData)];
      }
      CallsSnoc(softs[..], [], c);
      NoCalls(softs[..]);
      assert [] + [c] == [c];
    }

    /** DRV_Cipher_ISR: the single-packet channel's callback, then every channel whose output bit is set is drained.
        `calls` lists the callbacks channel by channel, in the order the channels are served. */
    method Isr(status: seq<bool>) returns (fault: bool, calls: seq<seq<Call>>)
      requires Valid() && |status| == CHAN_NUM
      modifies chans, regs
      ensures !fault ==> Valid() && |calls| == 8 && At(0) == old(At(0))
      ensures !fault ==> calls[0] == if status[0] then CallsFor(softs[..], [0]) else []
      ensures !fault ==> forall c | 0 < c < 8 && !status[c] :: At(c) == old(At(c)) && calls[c] == []
      ensures !fault ==> forall c | 0 < c < 8 && status[c] ::
                           && R.Isr(old(At(c))).Served? && At(c) == R.Isr(old(At(c))).state
                           && calls[c] == CallsFor(softs[..], R.Isr(old(At(c))).ids)
      ensures fault ==> exists c | 0 < c < CHAN_NUM && status[c] :: R.Isr(old(At(c))).Faulted?
    {
      assert forall c | 0 <= c < CHAN_NUM :: R.WellFormed(At(c));
      hide CallsFor, R.Isr, ChanOk, R.WellFormed, ServedAs;
      var first := [];
      if status[0] {
        first := DataDoneSinglePkg(PKGX1_CHAN);
      }
      calls := [first];
      var i := 1;
      while i < CHAN_NUM
        invariant 1 <= i <= CHAN_NUM && Valid() && |calls| == i && calls[0] == first
        invariant forall c | 0 < c < i :: ServedAs(old(At(c)), At(c), softs[..], status[c], calls[c])
        invariant forall c | 0 <= c < CHAN_NUM && (c == 0 || i <= c) :: At(c) == old(At(c))
      {
        var bad, more := ServeChannel(i, status[i]);
        if bad {
          return true, calls;
        }
        calls := calls + [more];
        i := i + 1;
      }
      fault := false;
      forall c | 0 < c < CHAN_NUM
        ensures !status[c] ==> At(c) == old(At(c)) && calls[c] == []
        ensures status[c] ==> && R.Isr(old(At(c))).Served? && At(c) == R.Isr(old(At(c))).state
                              && calls[c] == CallsFor(softs[..], R.Isr(old(At(c))).ids)
      {
        ServedByStatus(old(At(c)), At(c), softs[..], status[c], calls[c]);
      }
    }

    /** One turn of the loop of DRV_Cipher_ISR. */
    method ServeChannel(c: nat, hit: bool) returns (fault: bool, calls: seq<Call>)
      requires Valid() && 0 < c < CHAN_NUM
      modifies chans, regs
      ensures fault <==> hit && R.Isr(old(At(c))).Faulted?
      ensures !fault ==> Valid() && ServedAs(old(At(c)), At(c), softs[..], hit, calls) && OthersUnchanged(c)
    {
      hide CallsFor, R.Isr;
      fault, calls := false, [];
      if hit {
        var done;
        done, fault, calls := DataDoneMultiPkg(c);
      }
    }
  }

  ghost function Prepend(ids: seq<nat>, d: R.Drained): R.Drained {
    if d.InvalidSlot? then d else d.(ids := ids + d.ids)
  }

  lemma DrainUnrolls(softChn: seq<nat>, idx: nat, n: nat)
    requires |softChn| == R.LIST_NUM && idx < R.LIST_NUM
    ensures n == 0 ==> R.DrainSlots(softChn, idx, n) == R.Drained(softChn, idx, [])
    ensures n > 0 && softChn[idx] == R.INVALID_CHN ==> R.DrainSlots(softChn, idx, n).InvalidSlot?
    ensures n > 0 && softChn[idx] != R.INVALID_CHN ==>
              var rest := R.DrainSlots(softChn[idx := R.INVALID_CHN], R.Incr(idx), n - 1);
              R.DrainSlots(softChn, idx, n) ==
                if rest.InvalidSlot? then rest else rest.(ids := [softChn[idx]] + rest.ids)
  {
  }

  lemma PrependNothing(d: R.Drained)
    ensures Prepend([], d) == d
  {
    if d.Drained? {
      assert [] + d.ids == d.ids;
    }
  }

  lemma PrependSnoc(ids: seq<nat>, id: nat, d: R.Drained, rest: R.Drained)
    requires rest == if d.InvalidSlot? then d else d.(ids := [id] + d.ids)
    ensures Prepend(ids + [id], d) == Prepend(ids, rest)
  {
    if d.Drained? {
      assert ids + [id] + d.ids == ids + ([id] + d.ids);
    }
  }
}
