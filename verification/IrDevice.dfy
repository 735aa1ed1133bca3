/**
 The infrared driver's code over hiir_dev: the interrupt handler, the repeat timer, the settings
 and the read loop, each proved to take the step of IrQueue it stands for.
 */
module IrDevice {
  import opened IrQueue

  /** The interrupt status register, with the key data that goes with a reception. */
  datatype Interrupt = Interrupt(frameError: bool, overflow: bool, release: bool, received: bool, high: nat, low: nat)

  /** The branches of the handler are taken in this order. */
  function ActionOf(i: Interrupt): Action {
    if i.frameError || i.overflow then BadFrame
    else if i.release then Release
    else if i.received then Receive(i.high, i.low)
    else BadFrame
  }

  /** By the status bits: an error hides everything else, a release hides a reception, and the key data are used for a
      reception alone. */
  lemma StatusDecides(i: Interrupt)
    ensures i.frameError || i.overflow ==> forall s: Ir | WellFormed(s) :: Step(s, ActionOf(i)) == s
    ensures !i.frameError && !i.overflow && i.release ==> ActionOf(i) == Release
    ensures !i.frameError && !i.overflow && !i.release && i.received ==> ActionOf(i) == Receive(i.high, i.low)
    ensures !i.frameError && !i.overflow && !i.release && !i.received ==>
              forall s: Ir | WellFormed(s) :: Step(s, ActionOf(i)) == s
  {
  }

  /** sizeof(irkey_info_s) on the 32-bit target: three words. */
  const ENTRY: nat := 12

  class Device {
    const buf: array<Key>
    var head: nat
    var tail: nat
    var len: nat
    var repeat: bool
    var check: bool
    var keyUp: bool

    ghost predicate Valid()
      reads this
    {
      buf.Length == SLOTS && 2 <= len <= SLOTS && head < len && tail < len
    }

    ghost function Abs(): (s: Ir)
      requires Valid()
      reads this, buf
      ensures WellFormed(s)
    {
      Ir(buf[..], head, tail, len, repeat, check, keyUp)
    }

    constructor ()
      ensures Valid() && fresh(buf) && head == tail
    {
      buf := new Key[SLOTS](_ => Key(0, 0, false));
      head, tail, len := 0, 0, DEFAULT_LEN;
      repeat, check, keyUp := true, false, true;
    }

    /** hiir_open. */
    method Open()
      requires Valid()
      modifies this
      ensures Valid() && Abs() == Step(old(Abs()), Action.Open)
    {
      head, tail, len := 0, 0, DEFAULT_LEN;
      repeat, check, keyUp := true, false, true;
    }

    /** The buffer and switch settings of hiir_ioctl. */
    method SetBuf(arg: int)
      requires Valid()
      modifies this
      ensures Valid() && Abs() == Step(old(Abs()), Action.SetBuf(arg))
    {
      if 0 < arg && arg <= MAX_BUF {
        len := arg + 1;
        head := 0;
        tail := 0;
      }
    }

    method SetKeyUp(on: bool)
      requires Valid()
      modifies `keyUp
      ensures Valid() && Abs() == Step(old(Abs()), Action.SetKeyUp(on))
    {
      keyUp := on;
    }

    method SetRepeat(on: bool)
      requires Valid()
      modifies `repeat
      ensures Valid() && Abs() == Step(old(Abs()), Action.SetRepeat(on))
    {
      repeat := on;
    }

    /** repkey_timeout_handler. */
    method OnTimeout()
      requires Valid()
      modifies `check
      ensures Valid() && Abs() == Step(old(Abs()), Expire)
    {
      check := false;
    }

    method Append(k: Key)
      requires Valid()
      modifies `head, buf
      ensures Valid() && Abs() == Put(old(Abs()), k)
    {
      buf[head] := k;
      head := (head + 1) % len;
    }

    /** hiir_interrupt. */
    method OnInterrupt(i: Interrupt)
      requires Valid()
      modifies `head, `check, buf
      ensures Valid() && Abs() == Step(old(Abs()), ActionOf(i))
    {
      hide Put;
      var last := buf[if head == 0 then len - 1 else head - 1];
      assert last == Abs().buf[LastSlot(Abs())];
      if i.frameError {
      } else if i.overflow {
      } else if i.release {
        check := false;
        if keyUp && !last.up {
          Append(last.(up := true));
          ClearCheck(old(Abs()), last.(up := true));
        }
      } else if i.received {
        if repeat {
          if check && last.high == i.high && last.low == i.low {
          } else {
            check := true;
            Append(Key(i.high, i.low, false));
            SetCheck(old(Abs()), Key(i.high, i.low, false));
          }
        } else if !(last.high == i.high && last.low == i.low && !last.up) {
          Append(Key(i.high, i.low, false));
          SameCheck(old(Abs()), Key(i.high, i.low, false));
        }
      }
    }

    /** hiir_read with no interrupt in between: the bytes returned and the events in them, or a refusal when the ring
        looks empty. */
    method Read(count: nat) returns (blocked: bool, bytes: nat, keys: seq<Key>)
      requires Valid()
      modifies `tail
      ensures Valid() && blocked == (old(head) == old(tail))
      ensures Abs() == ReadMany(old(Abs()), count / ENTRY).ir && keys == ReadMany(old(Abs()), count / ENTRY).keys
      ensures bytes == 12 * |keys| <= count
    {
      bytes, keys := 0, [];
      if head == tail {
        EmptyReads(Abs(), count / ENTRY);
        return true, 0, [];
      }
      blocked := false;
      ghost var s, n := Abs(), 0;
      while head != tail && bytes + ENTRY <= count
        invariant Valid() && n <= count / ENTRY && Abs() == ReadMany(s, n).ir && keys == ReadMany(s, n).keys
        invariant bytes == ENTRY * |keys| && |keys| == n
        decreases count - bytes
      {
        var key := buf[tail];
        tail := (tail + 1) % len;
        keys := keys + [key];
        bytes := bytes + ENTRY;
        n := n + 1;
      }
      EnoughReads(s, n, count / ENTRY);
    }
  }

  lemma ClearCheck(s: Ir, k: Key)
    requires WellFormed(s)
    ensures Put(s.(check := false), k) == Put(s, k).(check := false)
  {
  }

  lemma SetCheck(s: Ir, k: Key)
    requires WellFormed(s)
    ensures Put(s.(check := true), k) == Put(s, k).(check := true)
  {
  }

  lemma SameCheck(s: Ir, k: Key)
    requires WellFormed(s)
    ensures Put(s, k) == Put(s, k).(check := s.check)
  {
  }

  lemma {:induction false} EmptyReads(s: Ir, n: nat)
    requires WellFormed(s) && s.head == s.tail
    ensures ReadMany(s, n) == Batch(s, [])
  {
    if n > 0 {
      EmptyReads(s, n - 1);
    }
  }

  /** Once the ring looks empty, or nothing more fits, further reads change nothing. */
  lemma {:induction false} EnoughReads(s: Ir, n: nat, m: nat)
    requires WellFormed(s) && n <= m
    requires n == m || ReadMany(s, n).ir.head == ReadMany(s, n).ir.tail
    ensures ReadMany(s, m) == ReadMany(s, n)
  {
    if n < m {
      EnoughReads(s, n, m - 1);
    }
  }
}
