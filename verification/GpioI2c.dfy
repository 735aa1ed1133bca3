/**
 The GPIO driver of the I2C bus: two pins with a direction and an output latch each, written one
 register at a time. Every write may change the levels on the wires, which a listener hears.
 A released SDA carries the level the slave puts there; SCL is always driven.
 */
module GpioI2c {
  import opened I2cWire

  datatype Line = Scl | Sda | Both

  class Bus {
    var sclOut: bool
    var sdaOut: bool
    var sclLatch: bool
    var sdaLatch: bool
    const slave: Slave
    var falls: nat
    ghost var trace: seq<Wires>
    ghost var framed: bool
    ghost var heard: seq<Event>

    function SclLevel(): bool
      reads this
    {
      !sclOut || sclLatch
    }

    function SdaLevel(): bool
      reads this
    {
      if sdaOut then sdaLatch else slave(falls)
    }

    /** The trace so far, heard from an idle bus, is what `heard` says, and ends at the present levels. */
    ghost predicate Valid()
      reads this
    {
      Listen(IDLE, trace) == Listener(Wires(SclLevel(), SdaLevel()), framed, heard)
    }

    ghost predicate Idle()
      reads this
    {
      Valid() && framed && sclOut && sdaOut && sclLatch && sdaLatch
    }

    /** SCL driven low with a bit phase to come. */
    ghost predicate Low()
      reads this
    {
      Valid() && !framed && sclOut && !sclLatch
    }

    constructor (slave: Slave)
      ensures Idle() && heard == [] && falls == 0 && this.slave == slave
    {
      this.slave := slave;
      sclOut, sdaOut, sclLatch, sdaLatch := true, true, true, true;
      falls, trace, framed, heard := 0, [], true, [];
    }

    /** The wires after a register write. */
    method Sample(wasLow: bool)
      requires var l := Listen(IDLE, trace); l.last.scl == !wasLow && l.framed == framed && l.heard == heard
      modifies `falls, `trace, `framed, `heard
      ensures Valid()
      ensures falls == if !wasLow && !SclLevel() then old(falls) + 1 else old(falls)
      ensures Listener(Wires(SclLevel(), SdaLevel()), framed, heard) ==
              Hear(Listen(IDLE, old(trace)), Wires(SclLevel(), SdaLevel()))
    {
      hide Listen;
      if !wasLow && !SclLevel() {
        falls := falls + 1;
      }
      ghost var w := Wires(SclLevel(), SdaLevel());
      ghost var l := Hear(Listen(IDLE, trace), w);
      ListenSnoc(IDLE, trace, w);
      trace, framed, heard := trace + [w], l.framed, l.heard;
    }

    /** The direction register: the chosen lines become outputs. */
    method SetDirection(line: Line)
      requires Valid() && sclOut && (line.Scl? || (sclLatch ==> sdaOut))
      modifies `sclOut, `sdaOut, `falls, `trace, `framed, `heard
      ensures Valid() && sclOut && sdaOut == (old(sdaOut) || !line.Scl?)
      ensures falls == old(falls) && framed == old(framed) && heard == old(heard)
    {
      var wasLow := !SclLevel();
      if line != Scl {
        sdaOut := true;
      }
      if line != Sda {
        sclOut := true;
      }
      Sample(wasLow);
      hide Listen;
    }

    /** The data register: the chosen latches take the value. */
    method SetLatch(line: Line, v: bool)
      requires Valid() && sclOut && (!line.Scl? ==> sdaOut)
      modifies `sclLatch, `sdaLatch, `falls, `trace, `framed, `heard
      ensures Valid()
      ensures sclLatch == if line.Sda? then old(sclLatch) else v
      ensures sdaLatch == if line.Scl? then old(sdaLatch) else v
      ensures falls == if old(sclLatch) && !sclLatch then old(falls) + 1 else old(falls)
      ensures var before, after := Wires(old(sclLatch), old(SdaLevel())), Wires(sclLatch, SdaLevel());
              Listener(after, framed, heard) == Hear(Listener(before, old(framed), old(heard)), after)
    {
      var wasLow := !SclLevel();
      if line != Scl {
        sdaLatch := v;
      }
      if line != Sda {
        sclLatch := v;
      }
      Sample(wasLow);
      hide Listen;
    }

    /** i2c_set (`v`) and i2c_clr. A fall of SCL ends a bit, SDA moving under a high SCL is a start or stop condition,
        and nothing else is heard. */
    method Drive(line: Line, v: bool)
      requires Valid() && sclOut && (line.Scl? || (sclLatch ==> sdaOut))
      modifies this
      ensures Valid() && sclOut && sdaOut == (old(sdaOut) || !line.Scl?)
      ensures sclLatch == if line.Sda? then old(sclLatch) else v
      ensures sdaLatch == if line.Scl? then old(sdaLatch) else v
      ensures old(sclLatch) && !sclLatch ==>
                && falls == old(falls) + 1 && !framed
                && heard == if old(framed) then old(heard) else old(heard) + [Bit(old(SdaLevel()))]
      ensures !old(sclLatch) || sclLatch ==> falls == old(falls)
      ensures old(sclLatch) && sclLatch && old(SdaLevel()) != SdaLevel() ==>
                framed && heard == old(heard) + [if SdaLevel() then Stop else Start]
      ensures !old(sclLatch) || (sclLatch && old(SdaLevel()) == SdaLevel()) ==>
                framed == old(framed) && heard == old(heard)
    {
      hide Listen;
      SetDirection(line);
      SetLatch(line, v);
    }

    /** Turning SDA into an input, with SCL low or SDA an input already. */
    method ReleaseSda()
      requires Valid() && sclOut && (sclLatch ==> !sdaOut)
      modifies `sdaOut, `falls, `trace, `framed, `heard
      ensures Valid() && !sdaOut && falls == old(falls) && framed == old(framed) && heard == old(heard)
    {
      var wasLow := !SclLevel();
      sdaOut := false;
      Sample(wasLow);
      hide Listen;
    }

    /** i2c_data_read. */
    method ReadSda() returns (level: bool)
      requires Valid() && sclOut && (sclLatch ==> !sdaOut)
      modifies `sdaOut, `falls, `trace, `framed, `heard
      ensures Valid() && !sdaOut && falls == old(falls) && framed == old(framed) && heard == old(heard)
      ensures level == slave(falls)
    {
      hide Listen;
      ReleaseSda();
      level := SdaLevel();
    }

    /** i2c_start_bit, on an idle bus or between bits. */
    method StartBit()
      requires Idle() || Low()
      modifies this
      ensures Valid() && framed && sclOut && sclLatch && sdaOut && falls == old(falls)
      ensures heard == old(heard) + [Start]
    {
      hide Listen;
      Drive(Both, true);
      Drive(Sda, false);
    }

    /** i2c_stop_bit: one more clock, whose bit is whatever SDA carries, then the stop condition. */
    method StopBit()
      requires Low()
      modifies this
      ensures Idle() && falls == old(falls) + 1
      ensures heard == old(heard) + [Bit(old(SdaLevel())), Stop]
    {
      hide Listen;
      Drive(Scl, true);
      Drive(Scl, false);
      Drive(Sda, false);
      Drive(Scl, true);
      Drive(Sda, true);
    }

    /** The present high phase has carried the start condition, or SCL is low. */
    ghost predicate Ready()
      reads this
    {
      Valid() && sclOut && framed == sclLatch
    }

    /** One turn of the loop of i2c_send_byte. */
    method SendBit(b: bool)
      requires Ready() && (sclLatch ==> sdaOut)
      modifies this
      ensures Low() && sdaOut && sdaLatch == b
      ensures falls == old(falls) + (if old(sclLatch) then 2 else 1)
      ensures heard == old(heard) + [Bit(b)]
    {
      hide Listen;
      Drive(Scl, false);
      if b {
        Drive(Sda, true);
      } else {
        Drive(Sda, false);
      }
      Drive(Scl, true);
      Drive(Scl, false);
    }

    /** i2c_send_byte. */
    method SendByte(c: nat)
      requires Ready() && (sclLatch ==> sdaOut) && c < 256
      modifies this
      ensures Low() && sdaOut && sdaLatch == (c % 2 == 1)
      ensures falls == old(falls) + (if old(sclLatch) then 9 else 8)
      ensures heard == old(heard) + BitEvents(BitsOf(c, 8))
    {
      hide Listen, Pow2, BitsOf, BitEvents;
      var i: nat := 0;
      ghost var bits := BitsOf(c, 8);
      assert BitEvents(bits[..0]) == [] by {
        NoBits();
      }
      while i < 8
        invariant i <= 8 && sclOut && (if i == 0 then Ready() && (sclLatch ==> sdaOut) else Low() && sdaOut)
        invariant i == 0 ==> sclLatch == old(sclLatch)
        invariant falls == old(falls) + i + (if i > 0 && old(sclLatch) then 1 else 0)
        invariant heard == old(heard) + BitEvents(bits[..i])
        invariant i == 8 ==> sdaLatch == bits[7]
      {
        BitAt(c, 8, i);
        SendBit(c / Pow2(7 - i) % 2 == 1);
        BitEventsSnoc(bits[..i], bits[i]);
        assert bits[..i + 1] == bits[..i] + [bits[i]];
        i := i + 1;
      }
      assert bits[..8] == bits;
      LastBit(c);
    }

    /** One turn of the loop of i2c_receive_byte. */
    method ReceiveBit() returns (level: bool)
      requires Low() && !sdaOut
      modifies this
      ensures Low() && !sdaOut && falls == old(falls) + 1
      ensures level == slave(old(falls)) && heard == old(heard) + [Bit(level)]
    {
      hide Listen;
      Drive(Scl, false);
      Drive(Scl, true);
      ReleaseSda();
      level := ReadSda();
      Drive(Scl, false);
    }

    /** i2c_receive_byte. */
    method ReceiveByte() returns (j: nat)
      requires Low() && !sdaOut
      modifies this
      ensures Low() && !sdaOut && falls == old(falls) + 8
      ensures heard == old(heard) + BitEvents(Levels(slave, old(falls), 8))
      ensures j == ValueOf(Levels(slave, old(falls), 8))
    {
      hide Listen, Pow2, ValueOf, BitEvents;
      j := 0;
      var i: nat := 0;
      ghost var k := falls;
      NoBits();
      while i < 8
        invariant i <= 8 && Low() && !sdaOut && falls == k + i
        invariant heard == old(heard) + BitEvents(Levels(slave, k, i))
        invariant j == ValueOf(Levels(slave, k, i)) * Pow2(8 - i)
      {
        var level := ReceiveBit();
        BitEventsSnoc(Levels(slave, k, i), level);
        ShiftIn(Levels(slave, k, i), level, 7 - i);
        if level {
          j := j + Pow2(7 - i);
        }
        i := i + 1;
      }
      assert Pow2(0) == 1 by {
        NoBits();
      }
    }

    /** i2c_receive_ack: 1 for an acknowledged byte, 0 for a refused one. */
    method ReceiveAck() returns (ack: nat)
      requires Low()
      modifies this
      ensures Low() && !sdaOut && falls == old(falls) + 1
      ensures ack == if slave(old(falls)) then 0 else 1
      ensures heard == old(heard) + [Bit(slave(old(falls)))]
    {
      hide Listen;
      ReleaseSda();
      Drive(Scl, false);
      Drive(Scl, true);
      var nack := ReadSda();
      Drive(Scl, false);
      ack := if nack then 0 else 1;
    }

    /** The start, the device and the register, common to all three calls. */
    method SendAddress(dev: nat, addr: nat, ghost c: Call)
      requires Idle() && c.dev == dev && c.addr == addr && Bytes(c)
      modifies this
      ensures Low() && !sdaOut && falls == old(falls) + 19
      ensures heard == old(heard) + AddressEvents(c, slave, old(falls))
    {
      hide Listen, BitEvents, BitsOf;
      StartBit();
      SendByte(dev);
      var _ := ReceiveAck();
      SendByte(addr);
      var _ := ReceiveAck();
    }

    /** The second half of both reads. */
    method ReadData(dev: nat) returns (value: nat)
      requires (Idle() || Low()) && dev < 256
      modifies this
      ensures Idle() && falls == old(falls) + 19
      ensures heard == old(heard) + ReadEvents(dev, slave, old(falls))
      ensures value == ValueOf(Levels(slave, old(falls) + 10, 8))
    {
      hide Listen, BitEvents, BitsOf, ValueOf, Levels;
      StartBit();
      SendByte(ReadAddress(dev));
      var _ := ReceiveAck();
      value := ReceiveByte();
      StopBit();
    }

    /** gpio_i2c_write. */
    method Write(dev: nat, addr: nat, data: nat)
      requires Idle() && Bytes(Call.Write(dev, addr, data))
      modifies this
      ensures var c := Call.Write(dev, addr, data);
              Idle() && falls == old(falls) + FallsOf(c) && heard == old(heard) + CallEvents(c, slave, old(falls))
    {
      hide Listen, AddressEvents, BitEvents, BitsOf;
      SendAddress(dev, addr, Call.Write(dev, addr, data));
      SendByte(data);
      StopBit();
    }

    /** gpio_i2c_read. */
    method Read(dev: nat, addr: nat) returns (value: nat)
      requires Idle() && Bytes(Call.Read(dev, addr))
      modifies this
      ensures var c := Call.Read(dev, addr);
              && Idle() && falls == old(falls) + FallsOf(c)
              && heard == old(heard) + CallEvents(c, slave, old(falls))
              && value == ReturnedBy(c, slave, old(falls))
    {
      hide Listen, AddressEvents, ReadEvents, ValueOf, Levels;
      SendAddress(dev, addr, Call.Read(dev, addr));
      value := ReadData(dev);
    }

    /** gpio_sccb_read. */
    method SccbRead(dev: nat, addr: nat) returns (value: nat)
      requires Idle() && Bytes(Call.SccbRead(dev, addr))
      modifies this
      ensures var c := Call.SccbRead(dev, addr);
              && Idle() && falls == old(falls) + FallsOf(c)
              && heard == old(heard) + CallEvents(c, slave, old(falls))
              && value == ReturnedBy(c, slave, old(falls))
    {
      hide Listen, AddressEvents, ReadEvents, ValueOf, Levels;
      SendAddress(dev, addr, Call.SccbRead(dev, addr));
      StopBit();
      value := ReadData(dev);
    }

    /** gpioi2c_ioctl on one argument word. */
    method Ioctl(r: Request) returns (reply: Reply)
      requires Idle() && r.val < 0x1_0000_0000
      modifies this
      ensures Idle() && falls == old(falls) + AllFalls(CallsOf(r))
      ensures heard == old(heard) + AllEvents(CallsOf(r), slave, old(falls))
      ensures reply == ReplyTo(r, slave, old(falls))
    {
      hide CallEvents, FallsOf, ReturnedBy, AllEvents, AllFalls;
      var dev, addr := r.val / 0x100_0000, r.val / 0x1_0000 % 0x100;
      var high := r.val / 0x1_0000 * 0x1_0000;
      NoCalls(slave, falls);
      if r.cmd != OtherCommand {
        OneCall(CallsOf(r)[0], slave, falls);
      }
      match r.cmd {
        case I2cRead =>
          var value := Read(dev, addr);
          reply := Reply(0, high + value);
        case I2cWrite =>
          Write(dev, addr, r.val % 0x100);
          reply := Reply(0, r.val);
        case SccbReading =>
          var value := SccbRead(dev, addr);
          reply := Reply(0, high + value);
        case OtherCommand =>
          reply := Reply(-1, r.val);
      }
    }

    /** A user program's requests, one after the other: the wire gains exactly their transactions, which a listener
        reads back as the intended items, and every reply is the one its own transaction determines. */
    method Serve(requests: seq<Request>) returns (replies: seq<Reply>)
      requires Idle() && AllWords(requests)
      modifies this
      ensures Idle() && replies == RepliesTo(requests, slave, old(falls))
      ensures heard == old(heard) + AllEvents(CallsOfAll(requests), slave, old(falls))
      ensures Collect(heard[|old(heard)|..], []) == AllItems(CallsOfAll(requests), slave, old(falls))
    {
      hide CallEvents, FallsOf, CallsOf, ReplyTo, AllEvents, AllFalls, AllItems, Collect;
      replies := [];
      var i := 0;
      ghost var k := falls;
      NoCalls(slave, k);
      while i < |requests|
        invariant 0 <= i <= |requests| && Idle()
        invariant falls == k + AllFalls(CallsOfAll(requests[..i]))
        invariant replies == RepliesTo(requests[..i], slave, k)
        invariant heard == old(heard) + AllEvents(CallsOfAll(requests[..i]), slave, k)
      {
        RequestSnoc(requests, i, slave, k);
        var reply := Ioctl(requests[i]);
        replies := replies + [reply];
        i := i + 1;
      }
      assert requests[..i] == requests;
      CallsReadBack(CallsOfAll(requests), slave, k);
    }
  }

  lemma NoCalls(slave: Slave, k: nat)
    ensures AllEvents([], slave, k) == [] && AllFalls([]) == 0
  {
  }

  lemma NoBits()
    ensures BitEvents([]) == [] && ValueOf([]) == 0 && Pow2(0) == 1
  {
  }

  lemma LastBit(c: nat)
    ensures BitsOf(c, 8)[7] == (c % 2 == 1)
  {
  }

  lemma ShiftIn(bits: seq<bool>, b: bool, n: nat)
    ensures ValueOf(bits + [b]) * Pow2(n) == ValueOf(bits) * Pow2(n + 1) + if b then Pow2(n) else 0
  {
    ValueSnoc(bits, b);
    var p := Pow2(n);
    assert Pow2(n + 1) == 2 * p;
  }
}
