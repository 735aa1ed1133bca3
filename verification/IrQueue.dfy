/**
 The infrared key queue: an interrupt handler that writes key events into a ring and compares each
 key with the slot written last, a timer that ends repeat checking, and a reader. The buffer holds
 101 slots, of which the first `len` are in use; `len` is set by the application.
 */
module IrQueue {
  import Arithmetic

  const SLOTS: nat := 101
  const MAX_BUF: nat := 100
  const DEFAULT_LEN: nat := 8

  datatype Key = Key(high: nat, low: nat, up: bool)

  /** hiir_dev. */
  datatype Ir = Ir(buf: seq<Key>, head: nat, tail: nat, len: nat, repeat: bool, check: bool, keyUp: bool)

  predicate WellFormed(s: Ir) {
    |s.buf| == SLOTS && 2 <= s.len <= SLOTS && s.head < s.len && s.tail < s.len
  }

  /** INC_BUF. */
  function Inc(x: nat, len: nat): nat
    requires len > 0
  {
    (x + 1) % len
  }

  /** BUF_LAST. */
  function LastSlot(s: Ir): (i: nat)
    requires WellFormed(s)
    ensures i < s.len
  {
    if s.head == 0 then s.len - 1 else s.head - 1
  }

  function Put(s: Ir, k: Key): Ir
    requires WellFormed(s)
  {
    s.(buf := s.buf[s.head := k], head := Inc(s.head, s.len))
  }

  // ---------------------------------------------------------------- steps

  /** What hiir_open leaves of any buffer. */
  function Opened(buf: seq<Key>): (s: Ir)
    requires |buf| == SLOTS
    ensures WellFormed(s)
  {
    Ir(buf, 0, 0, DEFAULT_LEN, true, false, true)
  }

  datatype Action =
    | Release
    | Receive(high: nat, low: nat)
    | BadFrame
    | Expire
    | ReadOne
    | SetBuf(arg: int)
    | SetKeyUp(on: bool)
    | SetRepeat(on: bool)
    | Open

  /** The event an interrupt adds to the ring, if any. */
  datatype Event = Nothing | Added(key: Key)

  function EventOf(s: Ir, a: Action): Event
    requires WellFormed(s)
  {
    var last := s.buf[LastSlot(s)];
    match a
    case Release => if s.keyUp && !last.up then Added(last.(up := true)) else Nothing
    case Receive(high, low) =>
      var same := last.high == high && last.low == low;
      if s.repeat then if s.check && same then Nothing else Added(Key(high, low, false))
      else if same && !last.up then Nothing
      else Added(Key(high, low, false))
    case _ => Nothing
  }

  function WithEvent(s: Ir, e: Event): Ir
    requires WellFormed(s)
  {
    match e
    case Nothing => s
    case Added(key) => Put(s, key)
  }

  function Step(s: Ir, a: Action): Ir
    requires WellFormed(s)
  {
    match a
    case Release => WithEvent(s, EventOf(s, a)).(check := false)
    case Receive(_, _) => WithEvent(s, EventOf(s, a)).(check := s.check || (s.repeat && EventOf(s, a).Added?))
    case BadFrame => s
    case Expire => s.(check := false)
    case ReadOne => if s.head != s.tail then s.(tail := Inc(s.tail, s.len)) else s
    case SetBuf(arg) => if 0 < arg <= MAX_BUF then s.(len := arg + 1, head := 0, tail := 0) else s
    case SetKeyUp(on) => s.(keyUp := on)
    case SetRepeat(on) => s.(repeat := on)
    case Open => Opened(s.buf)
  }

  predicate Resets(a: Action) {
    a.Open? || (a.SetBuf? && 0 < a.arg <= MAX_BUF)
  }

  // ---------------------------------------------------------------- histories

  /** What has happened since the ring was last emptied by an open or a buffer setting: the events made, with a mark
      on each that says whether a timer expiry or a release came between it and the one before; how many were read;
      what the reads returned; and whether such an expiry or release came after the last event. */
  datatype History = History(made: seq<Key>, marks: seq<bool>, taken: nat, delivered: seq<Key>, cleared: bool)

  const NEW := History([], [], 0, [], true)

  function Note(s: Ir, h: History, a: Action): History
    requires WellFormed(s)
  {
    if Resets(a) then NEW
    else
      var cleared := h.cleared || a.Release? || a.Expire?;
      match EventOf(s, a)
      case Added(key) => h.(made := h.made + [key], marks := h.marks + [cleared], cleared := a.Release?)
      case Nothing =>
        if a.ReadOne? && s.head != s.tail then
          h.(taken := h.taken + 1, delivered := h.delivered + [s.buf[s.tail]], cleared := cleared)
        else h.(cleared := cleared)
  }

  lemma StepWellFormed(s: Ir, a: Action)
    requires WellFormed(s)
    ensures WellFormed(Step(s, a))
  {
  }

  datatype Run = Run(ir: Ir, history: History)

  function RunFrom(r: Run, actions: seq<Action>): (r': Run)
    requires WellFormed(r.ir)
    ensures WellFormed(r'.ir)
  {
    if actions == [] then r
    else
      var m := RunFrom(r, actions[..|actions| - 1]);
      var a := actions[|actions| - 1];
      StepWellFormed(m.ir, a);
      Run(Step(m.ir, a), Note(m.ir, m.history, a))
  }

  lemma RunLast(r: Run, actions: seq<Action>)
    requires WellFormed(r.ir) && actions != []
    ensures var m, a := RunFrom(r, actions[..|actions| - 1]), actions[|actions| - 1];
            RunFrom(r, actions) == Run(Step(m.ir, a), Note(m.ir, m.history, a))
  {
  }

  lemma RunNone(r: Run)
    requires WellFormed(r.ir)
    ensures RunFrom(r, []) == r
  {
  }

  // ---------------------------------------------------------------- counting modulo the length

  /** `n` modulo `len`, by repeated subtraction. */
  function Slot(n: nat, len: nat): (i: nat)
    requires len > 0
    ensures i < len
  {
    if n < len then n else Slot(n - len, len)
  }

  lemma {:induction false} SlotNext(n: nat, len: nat)
    requires len > 0
    ensures Slot(n + 1, len) == Inc(Slot(n, len), len)
  {
    if n < len {
      if n + 1 == len {
        assert Slot(n + 1, len) == Slot(0, len);
      }
    } else {
      SlotNext(n - len, len);
    }
  }

  lemma {:induction false} SlotQuotient(n: nat, len: nat) returns (q: nat)
    requires len > 0
    ensures n == len * q + Slot(n, len)
  {
    if n < len {
      q := 0;
    } else {
      var p := SlotQuotient(n - len, len);
      q := p + 1;
      assert len * q == len * p + len;
    }
  }

  lemma SlotIsMod(n: nat, len: nat)
    requires len > 0
    ensures Slot(n, len) == n % len
  {
    var q := SlotQuotient(n, len);
    Arithmetic.DivModUnique(n, len, q, Slot(n, len));
  }

  /** Fewer than `len` apart, two counts share a slot only if they are equal. */
  lemma {:induction false} SlotDistinct(m: nat, n: nat, len: nat)
    requires len > 0 && m <= n < m + len
    ensures Slot(m, len) == Slot(n, len) <==> m == n
  {
    if m >= len {
      SlotDistinct(m - len, n - len, len);
    } else if n >= len {
      assert Slot(n, len) == n - len;
    }
  }

  /** A full round apart they share it. */
  lemma SlotPeriod(n: nat, len: nat)
    requires len > 0
    ensures Slot(n + len, len) == Slot(n, len)
  {
  }

  // ---------------------------------------------------------------- the ring over every run

  /** Both indices count events modulo the length, and each slot holds the newest event counted into it. */
  ghost predicate Ring(s: Ir, h: History) {
    && WellFormed(s)
    && |h.marks| == |h.made| && |h.delivered| == h.taken <= |h.made|
    && s.head == Slot(|h.made|, s.len) && s.tail == Slot(h.taken, s.len)
    && (forall j: nat | j < |h.made| < j + s.len + 1 :: s.buf[Slot(j, s.len)] == h.made[j])
  }

  lemma PutRing(s: Ir, h: History, k: Key, mark: bool, cleared: bool)
    requires Ring(s, h)
    ensures Ring(Put(s, k), h.(made := h.made + [k], marks := h.marks + [mark], cleared := cleared))
  {
    var n := |h.made|;
    var s', made := Put(s, k), h.made + [k];
    SlotNext(n, s.len);
    forall j: nat | j < |made| < j + s.len + 1
      ensures s'.buf[Slot(j, s.len)] == made[j]
    {
      SlotDistinct(j, n, s.len);
      hide Slot;
    }
  }

  lemma StepRing(s: Ir, h: History, a: Action)
    requires Ring(s, h)
    ensures Ring(Step(s, a), Note(s, h, a))
  {
    hide Slot, Put;
    SlotNext(h.taken, s.len);
    match EventOf(s, a)
    case Added(key) =>
      var cleared := h.cleared || a.Release? || a.Expire?;
      PutRing(s, h, key, cleared, a.Release?);
      PutKeeps(s, key);
    case Nothing =>
      if Resets(a) {
        assert Slot(0, Step(s, a).len) == 0 by {
          SlotZero(Step(s, a).len);
        }
      }
  }

  lemma SlotZero(len: nat)
    requires len > 0
    ensures Slot(0, len) == 0
  {
  }

  lemma PutKeeps(s: Ir, k: Key)
    requires WellFormed(s)
    ensures var n := Put(s, k); n == s.(buf := n.buf, head := n.head)
  {
  }

  /** A ring just emptied. */
  lemma ResetRing(s: Ir, h: History, a: Action)
    requires WellFormed(s) && Resets(a)
    ensures Ring(Step(s, a), Note(s, h, a)) && Note(s, h, a) == NEW
  {
    SlotZero(Step(s, a).len);
  }

  /** In every run from an emptied ring, head and tail are the numbers of events made and read modulo the length. */
  lemma {:induction false} RunKeepsRing(r: Run, actions: seq<Action>)
    requires Ring(r.ir, r.history)
    ensures var n := RunFrom(r, actions); Ring(n.ir, n.history)
    ensures var n := RunFrom(r, actions);
            n.ir.head == |n.history.made| % n.ir.len && n.ir.tail == n.history.taken % n.ir.len
    decreases |actions|
  {
    assert WellFormed(r.ir);
    hide Ring, Step, Note, RunFrom;
    if actions == [] {
      RunNone(r);
    } else {
      var n := |actions| - 1;
      var m := RunFrom(r, actions[..n]);
      RunLast(r, actions);
      RunKeepsRing(r, actions[..n]);
      StepRing(m.ir, m.history, actions[n]);
    }
    var n := RunFrom(r, actions);
    RingCounts(n.ir, n.history);
  }

  lemma RingCounts(s: Ir, h: History)
    requires Ring(s, h)
    ensures WellFormed(s) && s.head == |h.made| % s.len && s.tail == h.taken % s.len && h.taken <= |h.made|
  {
    SlotIsMod(|h.made|, s.len);
    SlotIsMod(h.taken, s.len);
  }

  // ---------------------------------------------------------------- first in, first out

  function Unread(h: History): int {
    |h.made| - h.taken
  }

  /** The newest event that shares a slot with event `i`. */
  function Newest(i: nat, made: nat, len: nat): nat
    requires len > 0
    decreases made - i
  {
    if i + len < made then Newest(i + len, made, len) else i
  }

  lemma {:induction false} NewestShares(i: nat, made: nat, len: nat)
    requires len > 0 && i < made
    ensures var j := Newest(i, made, len); i <= j < made <= j + len && Slot(j, len) == Slot(i, len)
    decreases made - i
  {
    if i + len < made {
      NewestShares(i + len, made, len);
      SlotPeriod(i, len);
    }
  }

  /** A read returns the newest event of its slot: the oldest unread event exactly when no more than `len` events are
      unread. */
  lemma ReadReturns(s: Ir, h: History)
    requires Ring(s, h) && s.head != s.tail
    ensures h.taken < |h.made|
    ensures var j := Newest(h.taken, |h.made|, s.len);
            j < |h.made| && s.buf[s.tail] == h.made[j] && (j == h.taken <==> Unread(h) <= s.len)
  {
    NewestShares(h.taken, |h.made|, s.len);
    hide Slot;
  }

  lemma {:induction false} SameSlotIff(m: nat, n: nat, len: nat)
    requires len > 0 && m <= n
    ensures Slot(m, len) == Slot(n, len) <==> Slot(n - m, len) == 0
    decreases n
  {
    if n >= m + len {
      SameSlotIff(m, n - len, len);
      SlotPeriod(n - len, len);
      SlotPeriod(n - len - m, len);
    } else {
      SlotDistinct(m, n, len);
    }
  }

  /** The ring looks empty exactly when the number of unread events is a multiple of the length. */
  lemma LooksEmptyIff(s: Ir, h: History)
    requires Ring(s, h)
    ensures s.head == s.tail <==> Unread(h) % s.len == 0
  {
    SameSlotIff(h.taken, |h.made|, s.len);
    SlotIsMod(|h.made| - h.taken, s.len);
    hide Slot;
  }

  /** So it is right about being empty exactly when nothing is unread or the number is no multiple of the length. */
  lemma EmptyIff(s: Ir, h: History)
    requires Ring(s, h)
    ensures (s.head == s.tail <==> Unread(h) == 0) <==> (Unread(h) == 0 || Unread(h) % s.len != 0)
    ensures Unread(h) < s.len ==> (s.head == s.tail <==> Unread(h) == 0)
  {
    hide Ring, Unread;
    LooksEmptyIff(s, h);
    UnreadCounts(s, h);
    SmallMod(0, s.len);
    if Unread(h) < s.len {
      SmallMod(Unread(h), s.len);
    }
  }

  lemma UnreadCounts(s: Ir, h: History)
    requires Ring(s, h)
    ensures 0 <= Unread(h) && 2 <= s.len
  {
    hide Slot;
  }

  lemma SmallMod(n: nat, len: nat)
    requires n < len
    ensures n % len == n
  {
    SlotIsMod(n, len);
  }

  /** The event that fills the last free slot hides all of them: the ring looks empty with `len` events unread. */
  lemma OverflowHides(s: Ir, h: History, a: Action)
    requires Ring(s, h) && Unread(h) == s.len - 1 && EventOf(s, a).Added?
    ensures Step(s, a).head == Step(s, a).tail && Unread(Note(s, h, a)) == s.len
  {
    SlotNext(|h.made|, s.len);
    SlotPeriod(h.taken, s.len);
    hide Slot, EventOf;
  }

  /** The action is no read that finds more than `len` events unread. */
  predicate InTime(s: Ir, h: History, a: Action) {
    a.ReadOne? && s.head != s.tail ==> Unread(h) <= s.len
  }

  /** The action is no read that skips the oldest unread event. */
  predicate TakesOldest(s: Ir, h: History, a: Action)
    requires WellFormed(s)
  {
    a.ReadOne? && s.head != s.tail ==> Newest(h.taken, |h.made|, s.len) == h.taken
  }

  ghost predicate AllInTime(r: Run, actions: seq<Action>)
    requires WellFormed(r.ir)
  {
    forall n: nat | n < |actions| ::
      var m := RunFrom(r, actions[..n]); InTime(m.ir, m.history, actions[n])
  }

  ghost predicate AllTakeOldest(r: Run, actions: seq<Action>)
    requires WellFormed(r.ir)
  {
    forall n: nat | n < |actions| ::
      var m := RunFrom(r, actions[..n]); TakesOldest(m.ir, m.history, actions[n])
  }

  lemma TakesOldestIff(s: Ir, h: History, a: Action)
    requires Ring(s, h)
    ensures TakesOldest(s, h, a) <==> InTime(s, h, a)
  {
    if a.ReadOne? && s.head != s.tail {
      ReadReturns(s, h);
    }
    hide Ring, Newest;
  }

  /** Every read of a run takes the oldest unread event, by number and not only by content, exactly when none finds more
      than `len` events unread. */
  lemma RunTakesOldestIff(r: Run, actions: seq<Action>)
    requires Ring(r.ir, r.history)
    ensures AllTakeOldest(r, actions) <==> AllInTime(r, actions)
  {
    assert WellFormed(r.ir);
    hide Ring, TakesOldest, InTime, RunFrom;
    forall n: nat | n < |actions|
      ensures var m := RunFrom(r, actions[..n]);
              TakesOldest(m.ir, m.history, actions[n]) <==> InTime(m.ir, m.history, actions[n])
    {
      RunKeepsRing(r, actions[..n]);
      var m := RunFrom(r, actions[..n]);
      TakesOldestIff(m.ir, m.history, actions[n]);
    }
  }

  predicate Fifo(h: History) {
    h.taken <= |h.made| && h.delivered == h.made[..h.taken]
  }

  lemma StepFifo(s: Ir, h: History, a: Action)
    requires Ring(s, h) && Fifo(h) && InTime(s, h, a)
    ensures Fifo(Note(s, h, a))
  {
    if a.ReadOne? && s.head != s.tail {
      ReadReturns(s, h);
    }
    hide Ring;
  }

  /** As long as no read finds more than `len` events unread, the reader gets exactly the events made, in order. */
  lemma {:induction false} RunIsFifo(r: Run, actions: seq<Action>)
    requires Ring(r.ir, r.history) && Fifo(r.history) && AllInTime(r, actions)
    ensures Fifo(RunFrom(r, actions).history)
    decreases |actions|
  {
    assert WellFormed(r.ir);
    hide Ring, Fifo, InTime, Step, Note, RunFrom;
    if actions == [] {
      RunNone(r);
    } else {
      var n := |actions| - 1;
      var before := actions[..n];
      var m := RunFrom(r, before);
      RunLast(r, actions);
      assert AllInTime(r, before) by {
        forall k: nat | k < n
          ensures var m := RunFrom(r, before[..k]); InTime(m.ir, m.history, before[k])
        {
          assert before[..k] == actions[..k];
        }
      }
      RunIsFifo(r, before);
      RunKeepsRing(r, before);
      StepFifo(m.ir, m.history, actions[n]);
    }
  }

  // ---------------------------------------------------------------- one call of read

  datatype Batch = Batch(ir: Ir, keys: seq<Key>)

  /** One more read, if the ring does not look empty. */
  function ReadNext(b: Batch): (b': Batch)
    requires WellFormed(b.ir)
    ensures WellFormed(b'.ir)
  {
    if b.ir.head == b.ir.tail then b
    else Batch(b.ir.(tail := Inc(b.ir.tail, b.ir.len)), b.keys + [b.ir.buf[b.ir.tail]])
  }

  /** Up to `n` reads. */
  function ReadMany(s: Ir, n: nat): (b: Batch)
    requires WellFormed(s)
    ensures WellFormed(b.ir)
  {
    if n == 0 then Batch(s, []) else ReadNext(ReadMany(s, n - 1))
  }

  function Min(a: int, b: int): int {
    if a < b then a else b
  }

  lemma ReadOneRing(s: Ir, h: History)
    requires Ring(s, h) && 0 < Unread(h) < s.len
    ensures s.head != s.tail && s.buf[s.tail] == h.made[h.taken]
    ensures Ring(s.(tail := Inc(s.tail, s.len)),
                 h.(taken := h.taken + 1, delivered := h.delivered + [h.made[h.taken]]))
  {
    hide Slot, Inc;
    EmptyIff(s, h);
    SlotNext(h.taken, s.len);
  }

  /** The history after reading `n` more events in order. */
  function Took(h: History, n: nat): History
    requires h.taken + n <= |h.made|
  {
    h.(taken := h.taken + n, delivered := h.delivered + h.made[h.taken..h.taken + n])
  }

  lemma TookNext(h: History, n: nat)
    requires h.taken + n < |h.made|
    ensures var t := Took(h, n);
            && Took(h, n + 1) == t.(taken := t.taken + 1, delivered := t.delivered + [h.made[t.taken]])
            && h.made[h.taken..h.taken + n] + [h.made[t.taken]] == h.made[h.taken..h.taken + n + 1]
            && t.made == h.made && t.taken == h.taken + n
  {
  }

  /** `b` is what `k` reads in order leave and return. */
  ghost predicate ReadsOf(s: Ir, h: History, b: Batch, k: int) {
    && 0 <= k <= Unread(h)
    && b.keys == h.made[h.taken..h.taken + k] && b.ir == s.(tail := b.ir.tail) && Ring(b.ir, Took(h, k))
  }

  lemma ReadsNext(s: Ir, h: History, b: Batch, k: int)
    requires WellFormed(b.ir) && ReadsOf(s, h, b, k) && k < Unread(h) < s.len
    ensures ReadsOf(s, h, ReadNext(b), k + 1)
  {
    hide Inc, Slot;
    ReadOneRing(b.ir, Took(h, k));
    TookNext(h, k);
    hide Ring, Took;
  }

  lemma ReadsNone(s: Ir, h: History)
    requires Ring(s, h)
    ensures ReadsOf(s, h, Batch(s, []), 0)
  {
    assert Took(h, 0) == h;
  }

  lemma ReadsAll(s: Ir, h: History, b: Batch)
    requires WellFormed(b.ir) && ReadsOf(s, h, b, Unread(h)) && Unread(h) < s.len
    ensures ReadNext(b) == b
  {
    EmptyIff(b.ir, Took(h, Unread(h)));
    hide Ring;
  }

  lemma ReadManyUnrolls(s: Ir, n: nat)
    requires WellFormed(s)
    ensures n == 0 ==> ReadMany(s, n) == Batch(s, [])
    ensures n > 0 ==> ReadMany(s, n) == ReadNext(ReadMany(s, n - 1))
  {
  }

  lemma ReadsStep(s: Ir, h: History, b: Batch, n: nat)
    requires WellFormed(b.ir) && n > 0 && ReadsOf(s, h, b, Min(n - 1, Unread(h))) && Unread(h) < s.len
    ensures ReadsOf(s, h, ReadNext(b), Min(n, Unread(h)))
  {
    assert 0 <= Unread(h);
    hide ReadsOf, ReadNext, WellFormed, Unread;
    var k := Min(n - 1, Unread(h));
    if k < Unread(h) {
      ReadsNext(s, h, b, k);
    } else {
      ReadsAll(s, h, b);
    }
  }

  /** A call with room for `n` events returns the oldest unread ones, as many as there are and fit. */
  lemma {:induction false} ReadManyOldest(s: Ir, h: History, n: nat)
    requires Ring(s, h) && Unread(h) < s.len
    ensures ReadsOf(s, h, ReadMany(s, n), Min(n, Unread(h)))
  {
    assert WellFormed(s) && 0 <= Unread(h);
    hide ReadsOf, Ring, ReadNext, ReadMany, Unread, WellFormed;
    ReadManyUnrolls(s, n);
    if n == 0 {
      ReadsNone(s, h);
    } else {
      ReadManyOldest(s, h, n - 1);
      ReadsStep(s, h, ReadMany(s, n - 1), n);
    }
  }

  // ---------------------------------------------------------------- the grammar of key events

  lemma IncIs(x: nat, len: nat)
    requires x < len
    ensures Inc(x, len) == if x + 1 == len then 0 else x + 1
  {
  }

  lemma LastIsLast(s: Ir, h: History)
    requires Ring(s, h) && h.made != []
    ensures s.buf[LastSlot(s)] == h.made[|h.made| - 1]
  {
    var n := |h.made| - 1;
    hide Slot, Inc;
    SlotNext(n, s.len);
    IncIs(Slot(n, s.len), s.len);
  }

  /** No key is lost before it reaches the ring: after the first event a reception goes unreported only if it repeats
      the last event's key while that press is still on or its repeat check is armed, and a release only if key-ups are
      off or the last event was one. What is reported is the received key down, or the last key up. */
  lemma Reported(s: Ir, h: History, a: Action)
    requires Ring(s, h) && h.made != []
    ensures var last, e := h.made[|h.made| - 1], EventOf(s, a);
            && (a.Receive? ==>
                  && (e == Nothing || e == Added(Key(a.high, a.low, false)))
                  && (e == Nothing <==> last == Key(a.high, a.low, last.up) && if s.repeat then s.check else !last.up))
            && (a.Release? ==>
                  && (e == Nothing || e == Added(Key(last.high, last.low, true)))
                  && (e == Nothing <==> !s.keyUp || last.up))
  {
    LastIsLast(s, h);
    hide Ring;
  }

  /** Every release follows the press of the same key. */
  predicate UpsFollowDowns(made: seq<Key>) {
    forall i: nat | 0 < i < |made| && made[i].up :: made[i - 1] == made[i].(up := false)
  }

  /** No press repeats the event just before it. */
  predicate NoRepeats(made: seq<Key>) {
    forall i: nat | 0 < i < |made| && !made[i].up :: made[i - 1] != made[i]
  }

  /** A press that repeats the event just before it has an expiry or a release in between. */
  predicate RepeatsMarked(h: History) {
    |h.marks| == |h.made| &&
    forall i: nat | 0 < i < |h.made| && !h.made[i].up && h.made[i - 1] == h.made[i] :: h.marks[i]
  }

  /** Repeat checking is armed unless an expiry or a release came after the last event. */
  predicate Armed(s: Ir, h: History) {
    h.made != [] && !h.cleared ==> s.check
  }

  lemma StepUps(s: Ir, h: History, a: Action)
    requires Ring(s, h) && UpsFollowDowns(h.made)
    ensures UpsFollowDowns(Note(s, h, a).made)
  {
    if h.made != [] {
      LastIsLast(s, h);
    }
    hide Ring;
  }

  lemma StepNoRepeats(s: Ir, h: History, a: Action)
    requires Ring(s, h) && NoRepeats(h.made) && !s.repeat
    ensures NoRepeats(Note(s, h, a).made)
  {
    if h.made != [] {
      LastIsLast(s, h);
    }
    hide Ring;
  }

  lemma StepMarked(s: Ir, h: History, a: Action)
    requires Ring(s, h) && RepeatsMarked(h) && Armed(s, h) && s.repeat
    ensures RepeatsMarked(Note(s, h, a)) && Armed(Step(s, a), Note(s, h, a))
  {
    if h.made != [] {
      LastIsLast(s, h);
    }
    hide Ring;
  }

  /** Over every run, even one in which the ring overflows, each key-up after the first event directly follows a
      key-down with the same data. */
  lemma {:induction false} RunUps(r: Run, actions: seq<Action>)
    requires Ring(r.ir, r.history) && UpsFollowDowns(r.history.made)
    ensures UpsFollowDowns(RunFrom(r, actions).history.made)
    decreases |actions|
  {
    assert WellFormed(r.ir);
    hide Ring, UpsFollowDowns, Step, Note, RunFrom, WellFormed;
    if actions == [] {
      RunNone(r);
    } else {
      var n := |actions| - 1;
      var m := RunFrom(r, actions[..n]);
      RunLast(r, actions);
      RunUps(r, actions[..n]);
      RunKeepsRing(r, actions[..n]);
      StepUps(m.ir, m.history, actions[n]);
    }
  }

  predicate Keeps(actions: seq<Action>, on: bool) {
    forall i | 0 <= i < |actions| :: actions[i] != SetRepeat(!on) && (!on ==> actions[i] != Open)
  }

  lemma KeepsLast(actions: seq<Action>, on: bool)
    requires Keeps(actions, on) && actions != []
    ensures Keeps(actions[..|actions| - 1], on)
    ensures forall s: Ir | WellFormed(s) && s.repeat == on :: Step(s, actions[|actions| - 1]).repeat == on
  {
    forall s: Ir | WellFormed(s) && s.repeat == on
      ensures Step(s, actions[|actions| - 1]).repeat == on
    {
      StepRepeat(s, actions[|actions| - 1]);
    }
  }

  /** With repeat checking constantly off, no key-down equals the event just before it. */
  lemma {:induction false} RunNoRepeats(r: Run, actions: seq<Action>)
    requires Ring(r.ir, r.history) && NoRepeats(r.history.made) && !r.ir.repeat && Keeps(actions, false)
    ensures !RunFrom(r, actions).ir.repeat && NoRepeats(RunFrom(r, actions).history.made)
    decreases |actions|
  {
    assert WellFormed(r.ir);
    hide Ring, NoRepeats, Note, Step, RunFrom, Keeps, WellFormed;
    if actions == [] {
      RunNone(r);
    } else {
      var n := |actions| - 1;
      var m := RunFrom(r, actions[..n]);
      KeepsLast(actions, false);
      RunLast(r, actions);
      RunNoRepeats(r, actions[..n]);
      RunKeepsRing(r, actions[..n]);
      StepNoRepeats(m.ir, m.history, actions[n]);
    }
  }

  /** With it constantly on, a repeated key-down needs a timer expiry or a release in between. */
  lemma {:induction false} RunMarked(r: Run, actions: seq<Action>)
    requires Ring(r.ir, r.history) && RepeatsMarked(r.history) && Armed(r.ir, r.history)
    requires r.ir.repeat && Keeps(actions, true)
    ensures var n := RunFrom(r, actions); n.ir.repeat && RepeatsMarked(n.history) && Armed(n.ir, n.history)
    decreases |actions|
  {
    assert WellFormed(r.ir);
    hide Ring, RepeatsMarked, Armed, Note, Step, RunFrom, Keeps, WellFormed;
    if actions == [] {
      RunNone(r);
    } else {
      var n := |actions| - 1;
      var m := RunFrom(r, actions[..n]);
      KeepsLast(actions, true);
      RunLast(r, actions);
      RunMarked(r, actions[..n]);
      RunKeepsRing(r, actions[..n]);
      StepMarked(m.ir, m.history, actions[n]);
    }
  }

  lemma StepRepeat(s: Ir, a: Action)
    requires WellFormed(s)
    ensures Step(s, a).repeat == if a.SetRepeat? then a.on else if a.Open? then true else s.repeat
  {
    hide EventOf;
  }

  // ---------------------------------------------------------------- from an open or a buffer setting on

  /** Everything the run theorems promise of a run that starts with an emptied ring. */
  ghost predicate Delivers(s: Ir, actions: seq<Action>)
    requires WellFormed(s)
  {
    var start := Run(s, NEW);
    var r := RunFrom(start, actions);
    && Ring(r.ir, r.history)
    && r.ir.head == |r.history.made| % r.ir.len && r.ir.tail == r.history.taken % r.ir.len
    && (AllInTime(start, actions) ==> Fifo(r.history))
    && (AllTakeOldest(start, actions) <==> AllInTime(start, actions))
    && UpsFollowDowns(r.history.made)
    && (!s.repeat && Keeps(actions, false) ==> NoRepeats(r.history.made))
    && (s.repeat && Keeps(actions, true) ==> RepeatsMarked(r.history))
  }

  lemma EmptiedDelivers(s: Ir, actions: seq<Action>)
    requires Ring(s, NEW)
    ensures Delivers(s, actions)
  {
    var start := Run(s, NEW);
    assert Fifo(NEW) && UpsFollowDowns(NEW.made) && NoRepeats(NEW.made) && RepeatsMarked(NEW) && Armed(s, NEW);
    assert WellFormed(s);
    hide Ring, Fifo, UpsFollowDowns, NoRepeats, RepeatsMarked, Armed, RunFrom, Keeps, AllInTime, AllTakeOldest;
    RunKeepsRing(start, actions);
    RunUps(start, actions);
    RunTakesOldestIff(start, actions);
    if AllInTime(start, actions) {
      RunIsFifo(start, actions);
    }
    if !s.repeat && Keeps(actions, false) {
      RunNoRepeats(start, actions);
    }
    if s.repeat && Keeps(actions, true) {
      RunMarked(start, actions);
    }
  }

  /** From any state of the device, whatever it holds, an open or an accepted buffer setting starts such a run. */
  lemma DeliversFromReset(s: Ir, a: Action, actions: seq<Action>)
    requires WellFormed(s) && Resets(a)
    ensures WellFormed(Step(s, a)) && Delivers(Step(s, a), actions)
  {
    ResetRing(s, NEW, a);
    EmptiedDelivers(Step(s, a), actions);
  }

  /** So does the first open, over whatever the buffer holds; it leaves room for seven events, repeat checking and
      key-ups on. */
  lemma DeliversFromOpen(buf: seq<Key>, actions: seq<Action>)
    requires |buf| == 101
    ensures Delivers(Opened(buf), actions)
    ensures var s := Opened(buf); s.len == 8 && s.repeat && s.keyUp && !s.check
  {
    SlotZero(DEFAULT_LEN);
    EmptiedDelivers(Opened(buf), actions);
  }

  /** What the timer and the settings are for: after an expiry a repetition is reported again, and after a setting of
      key-ups a release is reported or not as set. A buffer setting takes 1 to 100 and other values are ignored. */
  lemma SettingsDecide(s: Ir, h: History, high: nat, low: nat, on: bool, arg: int)
    requires Ring(s, h) && h.made != []
    ensures s.repeat ==> EventOf(Step(s, Expire), Receive(high, low)) == Added(Key(high, low, false))
    ensures EventOf(Step(s, SetKeyUp(on)), Release).Added? <==> on && !h.made[|h.made| - 1].up
    ensures Step(s, SetRepeat(on)).repeat == on
    ensures if 1 <= arg <= 100 then Step(s, SetBuf(arg)).len == arg + 1 else Step(s, SetBuf(arg)) == s
  {
    LastIsLast(s, h);
    hide Ring;
  }

  // ---------------------------------------------------------------- the first event after a reset

  /** Until an event is made, interrupts are judged by what the last slot still holds. */
  lemma FirstReported(s: Ir, h: History, a: Action)
    requires Ring(s, h) && h.made == []
    ensures var stale, e := s.buf[s.len - 1], EventOf(s, a);
            && (a.Receive? ==>
                  && (e == Nothing || e == Added(Key(a.high, a.low, false)))
                  && (e == Nothing <==>
                        stale == Key(a.high, a.low, stale.up) && if s.repeat then s.check else !stale.up))
            && (a.Release? ==>
                  && (e == Nothing || e == Added(Key(stale.high, stale.low, true)))
                  && (e == Nothing <==> !s.keyUp || stale.up))
  {
    SlotZero(s.len);
    hide Ring;
  }

  /** The slot the first event after a reset is compared with, left over from before it. */
  function StaleSlot(a: Action): (i: nat)
    requires Resets(a)
    ensures i < SLOTS
  {
    if a.Open? then DEFAULT_LEN - 1 else a.arg
  }

  /** An emptied ring keeps its old contents: a release right after a reset reports a key-up for the stale key exactly
      when the slot holds a key-down and key-ups are on, which an open turns on. */
  lemma StaleReleaseIff(s: Ir, a: Action)
    requires WellFormed(s) && Resets(a)
    ensures var stale := s.buf[StaleSlot(a)];
            && (EventOf(Step(s, a), Release).Added? <==> (s.keyUp || a.Open?) && !stale.up)
            && (EventOf(Step(s, a), Release).Added? ==> EventOf(Step(s, a), Release).key == stale.(up := true))
  {
  }

  /** And a reception right after a buffer setting is lost exactly when it repeats the stale key and, with repeat
      checking on, the check is still armed, or, with it off, the slot holds a key-down. After an open none is lost. */
  lemma StaleReceiveIff(s: Ir, a: Action, high: nat, low: nat)
    requires WellFormed(s) && Resets(a)
    ensures var stale := s.buf[StaleSlot(a)];
            EventOf(Step(s, a), Receive(high, low)) == Nothing <==>
            && a.SetBuf? && stale.high == high && stale.low == low
            && if s.repeat then s.check else !stale.up
  {
  }
}
