/**
 What each task of a channel carries: its IV flag and IV, the key and direction in the channel
 registers, and the argument its completion is called back with. All statements are over whole
 runs of the events of `CipherRing`, including runs that overfill the ring.
 */
module CipherTasks {
  import opened Common
  import opened CipherRing

  // ---------------------------------------------------------------- reading the event history

  function After(id: nat, s: State, es: seq<Event>): (o: Outcome)
    requires WellFormed(s)
    ensures o.Running? ==> WellFormed(o.state)
  {
    Run(id, s, NO_HISTORY, es)
  }

  /** Event `m` is a task the driver took. */
  ghost predicate AcceptedAt(id: nat, s: State, es: seq<Event>, m: nat)
    requires WellFormed(s) && m < |es|
  {
    es[m].Start? && After(id, s, es[..m]).Running? && HasRoom(After(id, s, es[..m]).state)
  }

  predicate RenewsIv(e: Event) {
    e.Config? || (e.Start? && e.iv.Some?)
  }

  /** Some configure or IV-supplying task of the history has had no accepted task since. */
  ghost predicate IvPending(id: nat, s: State, es: seq<Event>)
    requires WellFormed(s)
  {
    exists j | 0 <= j < |es| :: RenewsIv(es[j]) && NoneAcceptedFrom(id, s, es, j)
  }

  ghost predicate NoneAcceptedFrom(id: nat, s: State, es: seq<Event>, j: nat)
    requires WellFormed(s)
  {
    forall m | j <= m < |es| :: !AcceptedAt(id, s, es, m)
  }

  /** The user's IV, key and key source as the events up to now leave them. */
  function LatestIv(es: seq<Event>): Option<Iv> {
    if es == [] then None
    else match es[|es| - 1]
      case Config(c) => Some(c.iv)
      case Start(_, Some(iv), _, _) => Some(iv)
      case _ => LatestIv(es[..|es| - 1])
  }

  function LatestKey(es: seq<Event>): Option<Key> {
    if es == [] then None
    else match es[|es| - 1]
      case Config(c) => Some(c.key)
      case Start(Some(key), _, _, _) => Some(key)
      case _ => LatestKey(es[..|es| - 1])
  }

  predicate KeyFromCa(es: seq<Event>) {
    es != [] &&
    match es[|es| - 1]
      case Config(c) => c.keyByCA
      case _ => KeyFromCa(es[..|es| - 1])
  }

  // ---------------------------------------------------------------- the flags track the history

  lemma RunSnoc(id: nat, s: State, es: seq<Event>, e: Event)
    requires WellFormed(s)
    ensures After(id, s, es + [e]) ==
            match After(id, s, es) { case Running(s', h') => Step(id, s', h', e) case Fault => Fault }
  {
    RunConcat(id, s, NO_HISTORY, es, [e]);
    var o := After(id, s, es);
    if o.Running? {
      OneStep(id, o.state, o.hist, e);
    }
  }

  lemma RunCons(id: nat, s: State, h: History, e: Event, es: seq<Event>)
    requires WellFormed(s)
    ensures Run(id, s, h, [e] + es) ==
            match Step(id, s, h, e) { case Running(s', h') => Run(id, s', h', es) case Fault => Fault }
  {
    assert ([e] + es)[1..] == es;
  }

  /** Runs of four events, unrolled. */
  lemma RunFour(id: nat, s: State, e1: Event, e2: Event, e3: Event, e4: Event)
    requires WellFormed(s)
    requires !e1.Interrupt? && !e2.Interrupt? && !e3.Interrupt?
    ensures var o1 := Step(id, s, NO_HISTORY, e1);
            var o2 := Step(id, o1.state, o1.hist, e2);
            var o3 := Step(id, o2.state, o2.hist, e3);
            After(id, s, [e1, e2, e3, e4]) == Step(id, o3.state, o3.hist, e4)
  {
    var o1 := Step(id, s, NO_HISTORY, e1);
    var o2 := Step(id, o1.state, o1.hist, e2);
    var o3 := Step(id, o2.state, o2.hist, e3);
    hide Step, Run;
    assert [e1, e2, e3, e4] == [e1] + ([e2] + ([e3] + [e4]));
    RunCons(id, s, NO_HISTORY, e1, [e2] + ([e3] + [e4]));
    RunCons(id, o1.state, o1.hist, e2, [e3] + [e4]);
    RunCons(id, o2.state, o2.hist, e3, [e4]);
    OneStep(id, o3.state, o3.hist, e4);
  }

  lemma PendingSnoc(id: nat, s: State, es: seq<Event>, e: Event)
    requires WellFormed(s)
    ensures IvPending(id, s, es + [e]) <==>
            (RenewsIv(e) || IvPending(id, s, es)) && !AcceptedAt(id, s, es + [e], |es|)
  {
    var n := |es|;
    var more := es + [e];
    forall m | 0 <= m < n
      ensures AcceptedAt(id, s, more, m) == AcceptedAt(id, s, es, m)
    {
      assert more[..m] == es[..m];
    }
    if IvPending(id, s, more) {
      var j :| 0 <= j < |more| && RenewsIv(more[j]) && NoneAcceptedFrom(id, s, more, j);
      assert !AcceptedAt(id, s, more, n);
      if j < n {
        assert RenewsIv(es[j]) && NoneAcceptedFrom(id, s, es, j);
      }
    }
    if !AcceptedAt(id, s, more, n) {
      if RenewsIv(e) {
        assert RenewsIv(more[n]) && NoneAcceptedFrom(id, s, more, n);
      }
      if IvPending(id, s, es) {
        var j :| 0 <= j < n && RenewsIv(es[j]) && NoneAcceptedFrom(id, s, es, j);
        assert RenewsIv(more[j]) && NoneAcceptedFrom(id, s, more, j);
      }
    }
  }

  /** The soft channel's flags and control block as functions of the history. */
  ghost predicate Tracks(id: nat, s: State, es: seq<Event>, now: State)
    requires WellFormed(s)
  {
    && (now.soft.ivChange <==> IvPending(id, s, es))
    && LatestIv(es) == Some(now.soft.ctrl.iv)
    && LatestKey(es) == Some(now.soft.ctrl.key)
    && KeyFromCa(es) == now.soft.ctrl.keyByCA
    && (!now.soft.keyChange && !now.soft.ctrl.keyByCA ==> now.regs.key == now.soft.ctrl.key)
    && now.soft.hasCallBack
  }

  lemma ConfigTracks(id: nat, s: State, c: Ctrl)
    requires WellFormed(s)
    ensures After(id, s, [Config(c)]) == Running(Configure(s, c), NO_HISTORY)
    ensures Tracks(id, s, [Config(c)], Configure(s, c))
  {
    hide IvPending;
    RunSnoc(id, s, [], Config(c));
    PendingSnoc(id, s, [], Config(c));
    assert [] + [Config(c)] == [Config(c)];
  }

  lemma StepTracks(id: nat, s: State, es: seq<Event>, e: Event)
    requires WellFormed(s) && es != [] && After(id, s, es).Running? && After(id, s, es + [e]).Running?
    requires Tracks(id, s, es, After(id, s, es).state)
    ensures Tracks(id, s, es + [e], After(id, s, es + [e]).state)
  {
    hide IvPending, Run;
    var more := es + [e];
    assert more[..|more| - 1] == es && more[|more| - 1] == e;
    RunSnoc(id, s, es, e);
    PendingSnoc(id, s, es, e);
  }

  lemma {:induction false} FlagsTrack(id: nat, s: State, es: seq<Event>)
    requires WellFormed(s) && es != [] && es[0].Config? && After(id, s, es).Running?
    ensures Tracks(id, s, es, After(id, s, es).state)
    decreases |es|
  {
    hide Tracks, Step;
    var n := |es| - 1;
    assert es == es[..n] + [es[n]];
    if n == 0 {
      ConfigTracks(id, s, es[0].ctrl);
    } else {
      RunSnoc(id, s, es[..n], es[n]);
      FlagsTrack(id, s, es[..n]);
      StepTracks(id, s, es[..n], es[n]);
    }
  }

  /** An accepted entry carries the IV flag and the user's current IV exactly when it is the first accepted since
      the IV was last renewed; and unless the key comes from the key ladder, the channel's key registers hold the
      user's current key when the doorbell rings. */
  lemma AcceptedTaskCarries(id: nat, s: State, es: seq<Event>, e: Event)
    requires WellFormed(s) && es != [] && es[0].Config? && After(id, s, es).Running?
    requires e.Start? && HasRoom(After(id, s, es).state)
    ensures var was := After(id, s, es).state;
            var o := After(id, s, es + [e]);
            && o.Running?
            && var d := o.state.chan.inBuf[was.chan.inPtr];
            && (d.ivSet <==> RenewsIv(e) || IvPending(id, s, es))
            && (d.ivSet ==> Some(o.state.chan.ivMem[d.ivAddr]) == LatestIv(es + [e]))
            && o.state.regs.decrypt == e.task.decrypt
            && (!KeyFromCa(es + [e]) ==> Some(o.state.regs.key) == LatestKey(es + [e]))
            && !IvPending(id, s, es + [e])
  {
    FlagsTrack(id, s, es);
    RunSnoc(id, s, es, e);
    PendingSnoc(id, s, es, e);
    var more := es + [e];
    assert more[..|es|] == es;
  }

  /** A refused task leaves ring and registers alone and what it and its predecessors renewed still pending. */
  lemma RefusedTaskKeepsPending(id: nat, s: State, es: seq<Event>, e: Event)
    requires WellFormed(s) && es != [] && es[0].Config? && After(id, s, es).Running?
    requires e.Start? && !HasRoom(After(id, s, es).state)
    ensures var was := After(id, s, es);
            var o := After(id, s, es + [e]);
            && o.Running? && o.state.chan == was.state.chan && o.state.regs == was.state.regs && o.hist == was.hist
            && (IvPending(id, s, es + [e]) <==> RenewsIv(e) || IvPending(id, s, es))
            && (o.state.soft.ivChange <==> IvPending(id, s, es + [e]))
            && (e.key.Some? ==> o.state.soft.keyChange && LatestKey(es + [e]) == e.key)
  {
    FlagsTrack(id, s, es);
    RunSnoc(id, s, es, e);
    PendingSnoc(id, s, es, e);
    var more := es + [e];
    assert more[..|es|] == es;
  }

  // ---------------------------------------------------------------- callback arguments

  /** One record per accepted, consumed and acknowledged task; the soft channel keeps only the newest argument. */
  ghost predicate Recorded(s: State, h: History) {
    && |h.args| == |h.modes| == |h.jobs|
    && |h.ran| == |h.processed|
    && |h.calls| == |h.completed| && s.soft.hasCallBack
    && (h.jobs != [] ==> s.soft.privateData == h.args[|h.args| - 1])
  }

  lemma StepKeepsRecorded(id: nat, s: State, h: History, e: Event)
    requires WellFormed(s) && Recorded(s, h)
    ensures var o := Step(id, s, h, e); o.Running? ==> Recorded(o.state, o.hist)
  {
  }

  /** The callbacks of one interrupt all get the newest argument, so each task gets its own exactly when
      every task being completed was started with it. */
  lemma OwnArgumentIff(id: nat, s: State, h: History)
    requires WellFormed(s) && Inv(id, s, h) && Recorded(s, h) && id != INVALID_CHN
    ensures var o := Step(id, s, h, Interrupt);
            && o.Running? && |o.hist.calls| == |h.processed|
            && ((forall k | |h.completed| <= k < |h.processed| :: o.hist.calls[k] == h.args[k]) <==>
                (forall k | |h.completed| <= k < |h.processed| :: h.args[k] == h.args[|h.args| - 1]))
  {
    InterruptKeepsInv(id, s, h);
    StepKeepsRecorded(id, s, h, Interrupt);
    var o := Step(id, s, h, Interrupt);
    assert forall k | |h.completed| <= k < |h.processed| :: o.hist.calls[k] == s.soft.privateData;
  }

  lemma DrainOne(softChn: seq<nat>, idx: nat)
    requires |softChn| == LIST_NUM && idx < LIST_NUM && softChn[idx] != INVALID_CHN
    ensures DrainSlots(softChn, idx, 1) == Drained(softChn[idx := INVALID_CHN], Incr(idx), [softChn[idx]])
  {
    assert DrainSlots(softChn[idx := INVALID_CHN], Incr(idx), 0).ids == [];
  }

  /** Two tasks with different arguments, of which the engine has finished the first: it is called back with the
      second one's. */
  lemma ArgumentOvertaken(id: nat, s: State, c: Ctrl, t: Task, u: Task, a: nat, b: nat)
    requires Fresh(s) && id != INVALID_CHN && a != b
    ensures var o := After(id, s, [Config(c), Start(None, None, t, a), Start(None, None, u, b), Engine] + [Interrupt]);
            o.Running? && o.hist.args == [a, b] && o.hist.completed == [id] && o.hist.calls == [b]
  {
    var es := [Config(c), Start(None, None, t, a), Start(None, None, u, b), Engine];
    RunFour(id, s, es[0], es[1], es[2], es[3]);
    RunSnoc(id, s, es, Interrupt);
    hide Run;
    var o := After(id, s, es);
    DrainOne(o.state.chan.softChn, o.state.chan.outPtr);
    assert Repeat(b, 1) == [b];
  }

  predicate SameArgument(es: seq<Event>, arg: nat) {
    forall e | e in es && e.Start? :: e.arg == arg
  }

  /** A freshly initialised channel, once configured, meets what the run theorems start from. */
  lemma ConfiguredChannel(id: nat, s: State, c: Ctrl)
    requires Fresh(s)
    ensures var s' := Configure(s, c);
            Inv(id, s', NO_HISTORY) && Recorded(s', NO_HISTORY) && QueueMatches(s', NO_HISTORY)
  {
  }

  predicate AllEqual(xs: seq<nat>, x: nat) {
    forall y | y in xs :: y == x
  }

  lemma StepKeepsArgument(id: nat, s: State, h: History, e: Event)
    requires WellFormed(s) && Counted(s, h) && Recorded(s, h)
    requires e.Start? ==> e.arg == id
    requires AllEqual(h.args, id) && AllEqual(h.calls, id)
    ensures var o := Step(id, s, h, e); o.Running? ==> AllEqual(o.hist.args, id) && AllEqual(o.hist.calls, id)
  {
    if e.Interrupt? && s.regs.ofull != 0 {
      assert h.jobs != [];
      assert s.soft.privateData in h.args;
    }
  }

  /** The ioctl layer passes the soft channel id as the argument of every task: then each acknowledged task has had
      exactly one callback and its argument is that id. */
  lemma {:induction false} OneCallbackEach(id: nat, s: State, h: History, es: seq<Event>)
    requires WellFormed(s) && Inv(id, s, h) && Recorded(s, h) && id != INVALID_CHN
    requires Disciplined(id, s, h, es) && SameArgument(es, id)
    requires AllEqual(h.args, id) && AllEqual(h.calls, id)
    ensures var o := Run(id, s, h, es);
            && o.Running? && |o.hist.calls| == |o.hist.completed| <= |o.hist.processed|
            && AllEqual(o.hist.calls, id)
    decreases |es|
  {
    hide Owned, Queued, Step, AllEqual;
    if es != [] {
      StepKeepsInv(id, s, h, es[0]);
      StepKeepsRecorded(id, s, h, es[0]);
      assert es[0] in es;
      StepKeepsArgument(id, s, h, es[0]);
      var o := Step(id, s, h, es[0]);
      assert forall e | e in es[1..] :: e in es;
      OneCallbackEach(id, o.state, o.hist, es[1..]);
    }
  }

  // ---------------------------------------------------------------- the settings a task runs under

  /** Every task still queued was submitted under the settings the registers hold now. */
  ghost predicate QueueMatches(s: State, h: History) {
    && |h.processed| <= |h.jobs| == |h.modes|
    && (forall k | |h.processed| <= k < |h.jobs| :: h.modes[k] == ModeOf(s))
  }

  /** A task would be given the settings in force: its direction, the user's algorithm and key source, and the user's
      key if one is due and not from the ladder. */
  predicate SameSettings(s: State, key: Option<Key>, iv: Option<Iv>, t: Task) {
    var f := Supply(s.soft, key, iv);
    && t.decrypt == s.regs.decrypt && f.ctrl.mode == s.regs.mode && f.ctrl.keyByCA == s.regs.keyByCA
    && (f.keyChange && !f.ctrl.keyByCA ==> f.ctrl.key == s.regs.key)
  }

  /** What a caller can check before the event: no task is queued; or a configure finds the channel encrypting with the
      algorithm and key source it asks for; or a task that will be accepted asks for the settings in force. */
  predicate Steady(s: State, e: Event) {
    s.regs.ibuf == 0 ||
    match e
    case Config(c) => !s.regs.decrypt && c.mode == s.regs.mode && c.keyByCA == s.regs.keyByCA
    case Start(key, iv, t, _) => HasRoom(s) ==> SameSettings(s, key, iv, t)
    case _ => true
  }

  /** Such an event, and no other with tasks queued, leaves the settings of the channel alone. */
  lemma SteadyKeepsMode(id: nat, s: State, h: History, e: Event)
    requires WellFormed(s) && s.regs.ibuf != 0
    ensures var o := Step(id, s, h, e); o.Running? ==> (ModeOf(o.state) == ModeOf(s) <==> Steady(s, e))
  {
    hide Isr;
    if e.Interrupt? {
      IsrKeepsMode(s);
    }
  }

  lemma IsrKeepsMode(s: State)
    requires WellFormed(s)
    ensures Isr(s).Served? ==> ModeOf(Isr(s).state) == ModeOf(s)
  {
  }

  /** Direction, algorithm, key source and key are registers of the channel, not of a task: queued tasks keep the
      settings they were submitted under exactly when the event is steady. */
  lemma QueueMatchesIff(id: nat, s: State, h: History, e: Event)
    requires WellFormed(s) && Inv(id, s, h) && Recorded(s, h) && id != INVALID_CHN && QueueMatches(s, h)
    requires Bounded(s, e)
    ensures var o := Step(id, s, h, e);
            o.Running? && (QueueMatches(o.state, o.hist) <==> Steady(s, e))
  {
    StepKeepsInv(id, s, h, e);
    if s.regs.ibuf != 0 {
      SteadyKeepsMode(id, s, h, e);
    }
    hide Steady;
    var o := Step(id, s, h, e);
    var done := |h.processed|;
    if s.regs.ibuf != 0 && QueueMatches(o.state, o.hist) && !e.Engine? {
      assert o.hist.modes[done] == h.modes[done] == ModeOf(s);
      assert o.hist.modes[done] == ModeOf(o.state);
    }
  }

  predicate AllSteady(id: nat, s: State, h: History, es: seq<Event>)
    requires WellFormed(s)
    decreases |es|
  {
    es != [] ==>
      && Steady(s, es[0])
      && var o := Step(id, s, h, es[0]);
         o.Running? ==> AllSteady(id, o.state, o.hist, es[1..])
  }

  /** After every step of the run all queued tasks have the settings they were submitted under. */
  ghost predicate MatchesThroughout(id: nat, s: State, h: History, es: seq<Event>)
    requires WellFormed(s)
    decreases |es|
  {
    es != [] ==>
      var o := Step(id, s, h, es[0]);
      o.Running? && QueueMatches(o.state, o.hist) && MatchesThroughout(id, o.state, o.hist, es[1..])
  }

  /** No queued task ever loses its settings exactly when every event of the run is steady. */
  lemma {:induction false} RunMatchesIff(id: nat, s: State, h: History, es: seq<Event>)
    requires WellFormed(s) && Inv(id, s, h) && Recorded(s, h) && id != INVALID_CHN && QueueMatches(s, h)
    requires Disciplined(id, s, h, es)
    ensures MatchesThroughout(id, s, h, es) <==> AllSteady(id, s, h, es)
    decreases |es|
  {
    hide Step, Steady, QueueMatches, Recorded, Inv, Bounded;
    if es != [] {
      StepKeepsInv(id, s, h, es[0]);
      StepKeepsRecorded(id, s, h, es[0]);
      QueueMatchesIff(id, s, h, es[0]);
      if Steady(s, es[0]) {
        var o := Step(id, s, h, es[0]);
        RunMatchesIff(id, o.state, o.hist, es[1..]);
      }
    }
  }

  /** In a steady run every task the engine consumed ran under its own settings. */
  lemma {:induction false} SteadyRunModes(id: nat, s: State, h: History, es: seq<Event>)
    requires WellFormed(s) && Inv(id, s, h) && Recorded(s, h) && id != INVALID_CHN && QueueMatches(s, h)
    requires Disciplined(id, s, h, es) && AllSteady(id, s, h, es)
    requires h.ran == h.modes[..|h.ran|]
    ensures var o := Run(id, s, h, es);
            o.Running? && |o.hist.ran| <= |o.hist.modes| && o.hist.ran == o.hist.modes[..|o.hist.ran|]
    decreases |es|
  {
    if es != [] {
      StepKeepsInv(id, s, h, es[0]);
      StepKeepsRecorded(id, s, h, es[0]);
      QueueMatchesIff(id, s, h, es[0]);
      var o := Step(id, s, h, es[0]);
      if es[0].Engine? && EngineReady(s) {
        assert h.modes[|h.processed|] == ModeOf(s);
        assert o.hist.ran == h.modes[..|h.ran| + 1];
      }
      assert o.hist.ran == o.hist.modes[..|o.hist.ran|];
      SteadyRunModes(id, o.state, o.hist, es[1..]);
    }
  }

  /** Decrypt queued behind encrypt: the engine runs the first task in the second one's direction. */
  lemma DirectionOvertaken(id: nat, s: State, c: Ctrl)
    requires Fresh(s) && id != INVALID_CHN
    ensures var es := [Config(c), Start(None, None, Task(0, 0, 16, false), id),
                       Start(None, None, Task(0, 0, 16, true), id), Engine];
            var o := After(id, s, es);
            o.Running? && |o.hist.ran| == 1 && |o.hist.modes| == 2 && !o.hist.modes[0].decrypt &&
                o.hist.ran[0].decrypt
  {
    RunFour(id, s, Config(c), Start(None, None, Task(0, 0, 16, false), id),
            Start(None, None, Task(0, 0, 16, true), id), Engine);
    hide Run;
  }

  /** A second configure with a task queued: the engine runs that task with the new algorithm and key source. */
  lemma SettingsOvertaken(id: nat, s: State, c: Ctrl, c': Ctrl, t: Task)
    requires Fresh(s) && id != INVALID_CHN && (c.mode != c'.mode || c.keyByCA != c'.keyByCA)
    ensures var o := After(id, s, [Config(c), Start(None, None, t, id), Config(c'), Engine]);
            && o.Running? && |o.hist.ran| == |o.hist.modes| == 1 && o.hist.ran[0] != o.hist.modes[0]
            && o.hist.modes[0].mode == c.mode && o.hist.modes[0].keyByCA == c.keyByCA
            && o.hist.ran[0].mode == c'.mode && o.hist.ran[0].keyByCA == c'.keyByCA
  {
    RunFour(id, s, Config(c), Start(None, None, t, id), Config(c'), Engine);
    hide Run;
  }

  // ---------------------------------------------------------------- all channels together

  datatype Tagged = Tagged(chn: nat, event: Event)

  predicate AllWellFormed(os: seq<Outcome>) {
    forall o | o in os && o.Running? :: WellFormed(o.state)
  }

  /** A run of the whole driver: each event is a step of the channel it names; a faulted channel stays so. */
  function SystemRun(os: seq<Outcome>, es: seq<Tagged>): (r: seq<Outcome>)
    requires AllWellFormed(os) && forall e | e in es :: e.chn < |os|
    ensures |r| == |os|
    decreases |es|
  {
    if es == [] then os
    else
      var c, o := es[0].chn, os[es[0].chn];
      var next := if o.Running? then os[c := Step(c, o.state, o.hist, es[0].event)] else os;
      assert forall x | x in next :: x in os || x == next[c];
      SystemRun(next, es[1..])
  }

  function Projection(es: seq<Tagged>, c: nat): seq<Event> {
    if es == [] then []
    else if es[0].chn == c then [es[0].event] + Projection(es[1..], c)
    else Projection(es[1..], c)
  }

  /** Channels do not interfere: each one's outcome in a system run is its own run over its own events. */
  lemma {:induction false} ChannelsIndependent(os: seq<Outcome>, es: seq<Tagged>, c: nat)
    requires AllWellFormed(os) && forall e | e in es :: e.chn < |os|
    requires c < |os|
    ensures SystemRun(os, es)[c] ==
            match os[c] { case Running(s, h) => Run(c, s, h, Projection(es, c)) case Fault => Fault }
    decreases |es|
  {
    hide Step;
    if es != [] {
      var d, o := es[0].chn, os[es[0].chn];
      var next := if o.Running? then os[d := Step(d, o.state, o.hist, es[0].event)] else os;
      assert forall x | x in next :: x in os || x == next[d];
      ChannelsIndependent(next, es[1..], c);
      if d == c {
        assert Projection(es, c)[1..] == Projection(es[1..], c);
      }
    }
  }
}
