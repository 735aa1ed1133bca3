/**
 What is heard on an I2C bus: a listener that turns a trace of (SCL, SDA) levels into start
 conditions, bits and stop conditions, and a reader that groups them into bytes (sections 3.1.3
 to 3.1.5 of NXP UM10204). The transactions of the GPIO driver are stated in these terms.
 */
module I2cWire {
  import Arithmetic

  datatype Wires = Wires(scl: bool, sda: bool)

  datatype Event = Start | Bit(b: bool) | Stop

  /** A listener after a trace: the levels it last saw, whether the present high phase of SCL has carried a start or
      stop condition (or the bus is idle), and what it has heard. */
  datatype Listener = Listener(last: Wires, framed: bool, heard: seq<Event>)

  const IDLE := Listener(Wires(true, true), true, [])

  /** SDA moving under a high SCL is a start or a stop condition; a high phase without one ends in a bit. */
  function Hear(l: Listener, w: Wires): Listener {
    if l.last.scl && w.scl && l.last.sda != w.sda then Listener(w, true, l.heard + [if w.sda then Stop else Start])
    else if l.last.scl && !w.scl then Listener(w, false, if l.framed then l.heard else l.heard + [Bit(l.last.sda)])
    else l.(last := w)
  }

  function Listen(l: Listener, trace: seq<Wires>): Listener {
    if trace == [] then l else Hear(Listen(l, trace[..|trace| - 1]), trace[|trace| - 1])
  }

  lemma ListenSnoc(l: Listener, trace: seq<Wires>, w: Wires)
    ensures Listen(l, trace + [w]) == Hear(Listen(l, trace), w)
  {
    assert (trace + [w])[..|trace|] == trace;
  }

  /** Concatenated traces are heard one after the other. */
  lemma {:induction false} ListenConcat(l: Listener, a: seq<Wires>, b: seq<Wires>)
    ensures Listen(l, a + b) == Listen(Listen(l, a), b)
    decreases |b|
  {
    if b == [] {
      assert a + b == a;
    } else {
      var c := b[..|b| - 1];
      assert a + b == (a + c) + [b[|b| - 1]];
      ListenSnoc(l, a + c, b[|b| - 1]);
      ListenConcat(l, a, c);
    }
  }

  function Last(w: Wires, trace: seq<Wires>): Wires {
    if trace == [] then w else trace[|trace| - 1]
  }

  /** How often SDA moves under a high SCL, after the levels `w`. */
  function Changes(w: Wires, trace: seq<Wires>): nat {
    if trace == [] then 0
    else
      var before, now := Last(w, trace[..|trace| - 1]), trace[|trace| - 1];
      Changes(w, trace[..|trace| - 1]) + if before.scl && now.scl && before.sda != now.sda then 1 else 0
  }

  function Conditions(heard: seq<Event>): nat {
    if heard == [] then 0
    else Conditions(heard[..|heard| - 1]) + if heard[|heard| - 1].Bit? then 0 else 1
  }

  lemma ConditionsSnoc(heard: seq<Event>, e: Event)
    ensures Conditions(heard + [e]) == Conditions(heard) + if e.Bit? then 0 else 1
  {
    assert (heard + [e])[..|heard|] == heard;
  }

  /** The start and stop conditions heard are all the changes SDA made under a high SCL. */
  lemma {:induction false} ChangesAreConditions(l: Listener, trace: seq<Wires>)
    ensures Listen(l, trace).last == Last(l.last, trace)
    ensures Conditions(Listen(l, trace).heard) == Conditions(l.heard) + Changes(l.last, trace)
    decreases |trace|
  {
    if trace == [] {
    } else {
      var m := Listen(l, trace[..|trace| - 1]);
      ChangesAreConditions(l, trace[..|trace| - 1]);
      ConditionsSnoc(m.heard, Start);
      ConditionsSnoc(m.heard, Stop);
      ConditionsSnoc(m.heard, Bit(m.last.sda));
      hide Conditions;
    }
  }

  // ---------------------------------------------------------------- bytes, most significant bit first

  function Pow2(n: nat): (p: nat)
    ensures p > 0
  {
    if n == 0 then 1 else 2 * Pow2(n - 1)
  }

  /** The low `n` bits of `c`, most significant first. */
  function BitsOf(c: nat, n: nat): (r: seq<bool>)
    ensures |r| == n
  {
    if n == 0 then [] else BitsOf(c / 2, n - 1) + [c % 2 == 1]
  }

  function ValueOf(bits: seq<bool>): nat {
    if bits == [] then 0 else 2 * ValueOf(bits[..|bits| - 1]) + if bits[|bits| - 1] then 1 else 0
  }

  lemma ValueSnoc(bits: seq<bool>, b: bool)
    ensures ValueOf(bits + [b]) == 2 * ValueOf(bits) + if b then 1 else 0
  {
    assert (bits + [b])[..|bits|] == bits;
  }

  /** The value of the bits of a number that fits is the number. */
  lemma {:induction false} ValueOfBits(c: nat, n: nat)
    requires c < Pow2(n)
    ensures ValueOf(BitsOf(c, n)) == c
  {
    if n == 0 {
    } else {
      ValueOfBits(c / 2, n - 1);
      ValueSnoc(BitsOf(c / 2, n - 1), c % 2 == 1);
    }
  }

  lemma HalfThenDivide(c: nat, p: nat)
    requires p > 0
    ensures c / 2 / p == c / (2 * p)
  {
    var q, r := c / (2 * p), c % (2 * p);
    assert c == 2 * (p * q) + r;
    assert c / 2 == p * q + r / 2;
    assert r / 2 < p;
    Arithmetic.DivModUnique(c / 2, p, q, r / 2);
  }

  /** Bit `i` from the top is the one the driver masks out with `1 << (n - 1 - i)`. */
  lemma {:induction false} BitAt(c: nat, n: nat, i: nat)
    requires i < n
    ensures BitsOf(c, n)[i] == (c / Pow2(n - 1 - i) % 2 == 1)
  {
    if i < n - 1 {
      BitAt(c / 2, n - 1, i);
      HalfThenDivide(c, Pow2(n - 2 - i));
    }
  }

  // ---------------------------------------------------------------- transactions

  /** The level a slave puts on a released SDA after so many falls of SCL. */
  type Slave = nat -> bool

  function BitEvents(bits: seq<bool>): (r: seq<Event>)
    ensures |r| == |bits|
  {
    if bits == [] then [] else BitEvents(bits[..|bits| - 1]) + [Bit(bits[|bits| - 1])]
  }

  lemma BitEventsSnoc(bits: seq<bool>, b: bool)
    ensures BitEvents(bits + [b]) == BitEvents(bits) + [Bit(b)]
  {
    assert (bits + [b])[..|bits|] == bits;
  }

  function Levels(slave: Slave, k: nat, n: nat): (r: seq<bool>)
    ensures |r| == n
  {
    if n == 0 then [] else Levels(slave, k, n - 1) + [slave(k + n - 1)]
  }

  datatype Call = Write(dev: nat, addr: nat, data: nat) | Read(dev: nat, addr: nat) | SccbRead(dev: nat, addr: nat)

  predicate Bytes(c: Call) {
    c.dev < 256 && c.addr < 256 && (c.Write? ==> c.data < 256)
  }

  /** The device address with the read bit set. */
  function ReadAddress(dev: nat): (r: nat)
    ensures r / 2 == dev / 2 && r % 2 == 1
  {
    dev / 2 * 2 + 1
  }

  /** A byte driven by the master and the bit that followed it. */
  function ByteEvents(c: nat, ninth: bool): seq<Event> {
    BitEvents(BitsOf(c, 8)) + [Bit(ninth)]
  }

  /** A byte driven by the slave from the `k`th fall of SCL, and the ninth bit. */
  function SlaveEvents(slave: Slave, k: nat): seq<Event> {
    BitEvents(Levels(slave, k, 8)) + [Bit(slave(k + 8))]
  }

  function ReturnedBy(c: Call, slave: Slave, k: nat): nat {
    match c
    case Write(_, _, _) => 0
    case Read(_, _) => ValueOf(Levels(slave, k + 29, 8))
    case SccbRead(_, _) => ValueOf(Levels(slave, k + 30, 8))
  }

  function AddressEvents(c: Call, slave: Slave, k: nat): seq<Event> {
    [Start] + ByteEvents(c.dev, slave(k + 9)) + ByteEvents(c.addr, slave(k + 18))
  }

  /** From the second start condition of a read: the address again, then the slave's byte. */
  function ReadEvents(dev: nat, slave: Slave, k: nat): seq<Event> {
    [Start] + (ByteEvents(ReadAddress(dev), slave(k + 9)) + (SlaveEvents(slave, k + 10) + [Stop]))
  }

  function AfterAddress(c: Call, slave: Slave, k: nat): seq<Event> {
    match c
    case Write(_, _, data) => ByteEvents(data, data % 2 == 1) + [Stop]
    case Read(dev, _) => ReadEvents(dev, slave, k + 19)
    case SccbRead(dev, _) => [Bit(slave(k + 19)), Stop] + ReadEvents(dev, slave, k + 20)
  }

  /** What a call puts on a bus whose SCL has fallen `k` times. */
  function CallEvents(c: Call, slave: Slave, k: nat): seq<Event> {
    AddressEvents(c, slave, k) + AfterAddress(c, slave, k)
  }

  function FallsOf(c: Call): nat {
    match c
    case Write(_, _, _) => 28
    case Read(_, _) => 38
    case SccbRead(_, _) => 39
  }

  // ---------------------------------------------------------------- reading the events back

  datatype Item = Begin | Byte(value: nat, ninth: bool) | Stray(bits: seq<bool>) | End

  function Flush(pending: seq<bool>): seq<Item> {
    if pending == [] then [] else [Stray(pending)]
  }

  /** Groups of nine bits are bytes with their ninth bit; what is left at a start or stop is stray. */
  function Collect(events: seq<Event>, pending: seq<bool>): seq<Item> {
    if events == [] then Flush(pending)
    else
      match events[0]
      case Start => Flush(pending) + [Begin] + Collect(events[1..], [])
      case Stop => Flush(pending) + [End] + Collect(events[1..], [])
      case Bit(b) =>
        if |pending| == 8 then [Byte(ValueOf(pending), b)] + Collect(events[1..], [])
        else Collect(events[1..], pending + [b])
  }

  function ItemsOf(c: Call, slave: Slave, k: nat): seq<Item> {
    var address := [Begin, Byte(c.dev, slave(k + 9)), Byte(c.addr, slave(k + 18))];
    match c
    case Write(_, _, data) => address + [Byte(data, data % 2 == 1), End]
    case Read(dev, _) =>
      address + [Begin, Byte(ReadAddress(dev), slave(k + 28)), Byte(ReturnedBy(c, slave, k), slave(k + 37)), End]
    case SccbRead(dev, _) =>
      address + [Stray([slave(k + 19)]), End, Begin, Byte(ReadAddress(dev), slave(k + 29)),
                 Byte(ReturnedBy(c, slave, k), slave(k + 38)), End]
  }

  lemma {:induction false} CollectBits(bits: seq<bool>, rest: seq<Event>, pending: seq<bool>)
    requires |pending| + |bits| == 8
    ensures Collect(BitEvents(bits) + rest, pending) == Collect(rest, pending + bits)
    decreases |bits|
  {
    if bits == [] {
      assert BitEvents(bits) + rest == rest && pending + bits == pending;
    } else {
      BitEventsHead(bits);
      var e := BitEvents(bits) + rest;
      assert e[0] == Bit(bits[0]) && e[1..] == BitEvents(bits[1..]) + rest;
      CollectBits(bits[1..], rest, pending + [bits[0]]);
      assert pending + [bits[0]] + bits[1..] == pending + bits;
    }
  }

  lemma {:induction false} BitEventsHead(bits: seq<bool>)
    requires bits != []
    ensures BitEvents(bits) == [Bit(bits[0])] + BitEvents(bits[1..])
    decreases |bits|
  {
    var n := |bits| - 1;
    if n > 0 {
      BitEventsHead(bits[..n]);
      assert bits[..n][1..] == bits[1..][..n - 1];
    } else {
      assert bits[1..] == [] && bits[..0] == [];
    }
  }

  lemma CollectByte(bits: seq<bool>, ninth: bool, rest: seq<Event>)
    requires |bits| == 8
    ensures Collect(BitEvents(bits) + [Bit(ninth)] + rest, []) == [Byte(ValueOf(bits), ninth)] + Collect(rest, [])
  {
    var tail := [Bit(ninth)] + rest;
    assert BitEvents(bits) + [Bit(ninth)] + rest == BitEvents(bits) + tail;
    CollectBits(bits, tail, []);
    assert [] + bits == bits && tail[1..] == rest;
  }

  lemma CollectMasterByte(c: nat, ninth: bool, rest: seq<Event>)
    requires c < 256
    ensures Collect(ByteEvents(c, ninth) + rest, []) == [Byte(c, ninth)] + Collect(rest, [])
  {
    assert Pow2(8) == 256;
    ValueOfBits(c, 8);
    CollectByte(BitsOf(c, 8), ninth, rest);
  }

  lemma CollectStart(rest: seq<Event>)
    ensures Collect([Start] + rest, []) == [Begin] + Collect(rest, [])
    ensures Collect([Stop] + rest, []) == [End] + Collect(rest, [])
  {
    assert ([Start] + rest)[1..] == rest && ([Stop] + rest)[1..] == rest;
  }

  lemma CollectAddress(c: Call, slave: Slave, k: nat, rest: seq<Event>)
    requires Bytes(c)
    ensures Collect(AddressEvents(c, slave, k) + rest, []) ==
            [Begin, Byte(c.dev, slave(k + 9)), Byte(c.addr, slave(k + 18))] + Collect(rest, [])
  {
    var d, a := ByteEvents(c.dev, slave(k + 9)), ByteEvents(c.addr, slave(k + 18));
    hide ByteEvents;
    assert [Start] + d + a + rest == [Start] + (d + (a + rest));
    CollectStart(d + (a + rest));
    CollectMasterByte(c.dev, slave(k + 9), a + rest);
    CollectMasterByte(c.addr, slave(k + 18), rest);
  }

  lemma CollectRead(dev: nat, slave: Slave, k: nat, rest: seq<Event>)
    requires dev < 256
    ensures Collect(ReadEvents(dev, slave, k) + rest, []) ==
            [Begin, Byte(ReadAddress(dev), slave(k + 9)), Byte(ValueOf(Levels(slave, k + 10, 8)), slave(k + 18)), End] +
            Collect(rest, [])
  {
    var d, s := ByteEvents(ReadAddress(dev), slave(k + 9)), SlaveEvents(slave, k + 10);
    var end := [Stop] + rest;
    CollectStart(d + (s + end));
    CollectMasterByte(ReadAddress(dev), slave(k + 9), s + end);
    CollectSlaveByte(slave, k + 10, end);
    CollectStart(rest);
    Regroup([Start], d + (s + [Stop]), rest);
    Regroup(d, s + [Stop], rest);
    Regroup(s, [Stop], rest);
    hide ByteEvents, SlaveEvents, Collect, Levels, ValueOf;
  }

  lemma Regroup<T>(a: seq<T>, b: seq<T>, c: seq<T>)
    ensures a + b + c == a + (b + c)
  {
  }

  lemma CollectSlaveByte(slave: Slave, k: nat, rest: seq<Event>)
    ensures Collect(SlaveEvents(slave, k) + rest, []) ==
            [Byte(ValueOf(Levels(slave, k, 8)), slave(k + 8))] + Collect(rest, [])
  {
    CollectByte(Levels(slave, k, 8), slave(k + 8), rest);
  }

  lemma CollectStray(x: bool, more: seq<Event>)
    ensures Collect([Bit(x), Stop] + more, []) == [Stray([x]), End] + Collect(more, [])
  {
    var e := [Bit(x), Stop] + more;
    assert e[1..] == [Stop] + more && ([Stop] + more)[1..] == more;
    assert [] + [x] == [x];
    assert Collect(e, []) == Collect([Stop] + more, [x]);
  }

  lemma CollectAfterAddress(c: Call, slave: Slave, k: nat, rest: seq<Event>)
    requires Bytes(c)
    ensures Collect(AfterAddress(c, slave, k) + rest, []) == ItemsOf(c, slave, k)[3..] + Collect(rest, [])
  {
    match c
    case Write(_, _, data) =>
      var ninth := data % 2 == 1;
      Regroup(ByteEvents(data, ninth), [Stop], rest);
      CollectMasterByte(data, ninth, [Stop] + rest);
      CollectStart(rest);
      hide Collect, ByteEvents;
    case Read(dev, _) => CollectRead(dev, slave, k + 19, rest);
    case SccbRead(dev, _) =>
      var x, r := slave(k + 19), ReadEvents(dev, slave, k + 20);
      CollectStray(x, r + rest);
      CollectRead(dev, slave, k + 20, rest);
      hide Collect, ReadEvents;
      Regroup([Bit(x), Stop], r, rest);
  }

  lemma AddressItems(c: Call, slave: Slave, k: nat)
    ensures |ItemsOf(c, slave, k)| >= 3
    ensures ItemsOf(c, slave, k) ==
            [Begin, Byte(c.dev, slave(k + 9)), Byte(c.addr, slave(k + 18))] + ItemsOf(c, slave, k)[3..]
  {
    hide ReturnedBy;
  }

  /** A call is read back from the wire as its intended transaction, whatever follows it: the addressed device, the
      register, and the byte written or the byte returned. The separate stop of gpio_sccb_read clocks one bit too
      many, which belongs to no byte. */
  lemma CallReadBack(c: Call, slave: Slave, k: nat, rest: seq<Event>)
    requires Bytes(c)
    ensures Collect(CallEvents(c, slave, k) + rest, []) == ItemsOf(c, slave, k) + Collect(rest, [])
  {
    var a, b := AddressEvents(c, slave, k), AfterAddress(c, slave, k);
    CollectAddress(c, slave, k, b + rest);
    CollectAfterAddress(c, slave, k, rest);
    hide AddressEvents, AfterAddress, Collect;
    Regroup(a, b, rest);
    AddressItems(c, slave, k);
    hide ItemsOf;
    var address := [Begin, Byte(c.dev, slave(k + 9)), Byte(c.addr, slave(k + 18))];
    Regroup(address, ItemsOf(c, slave, k)[3..], Collect(rest, []));
  }

  // ---------------------------------------------------------------- any sequence of calls

  function AllEvents(calls: seq<Call>, slave: Slave, k: nat): seq<Event>
    decreases |calls|
  {
    if calls == [] then []
    else CallEvents(calls[0], slave, k) + AllEvents(calls[1..], slave, k + FallsOf(calls[0]))
  }

  function AllItems(calls: seq<Call>, slave: Slave, k: nat): seq<Item>
    decreases |calls|
  {
    if calls == [] then []
    else ItemsOf(calls[0], slave, k) + AllItems(calls[1..], slave, k + FallsOf(calls[0]))
  }

  predicate AllBytes(calls: seq<Call>) {
    forall i | 0 <= i < |calls| :: Bytes(calls[i])
  }

  /** The concatenated calls are read back as the concatenated transactions. */
  lemma {:induction false} CallsReadBack(calls: seq<Call>, slave: Slave, k: nat)
    requires AllBytes(calls)
    ensures Collect(AllEvents(calls, slave, k), []) == AllItems(calls, slave, k)
    decreases |calls|
  {
    hide CallEvents, ItemsOf, FallsOf, Bytes;
    if calls == [] {
      assert Collect([], []) == [];
    } else {
      var c, rest, next := calls[0], calls[1..], k + FallsOf(calls[0]);
      assert Bytes(c) && AllBytes(rest);
      hide Collect, AllBytes;
      CallReadBack(c, slave, k, AllEvents(rest, slave, next));
      CallsReadBack(rest, slave, next);
      assert AllEvents(calls, slave, k) == CallEvents(c, slave, k) + AllEvents(rest, slave, next);
      assert AllItems(calls, slave, k) == ItemsOf(c, slave, k) + AllItems(rest, slave, next);
    }
  }

  function AllFalls(calls: seq<Call>): nat
    decreases |calls|
  {
    if calls == [] then 0 else FallsOf(calls[0]) + AllFalls(calls[1..])
  }

  lemma {:induction false} CallsSnoc(calls: seq<Call>, c: Call, slave: Slave, k: nat)
    ensures AllEvents(calls + [c], slave, k) ==
            AllEvents(calls, slave, k) + CallEvents(c, slave, k + AllFalls(calls))
    ensures AllFalls(calls + [c]) == AllFalls(calls) + FallsOf(c)
    decreases |calls|
  {
    hide CallEvents, FallsOf;
    if calls == [] {
      assert [c][1..] == [];
    } else {
      var more := calls + [c];
      assert more[0] == calls[0] && more[1..] == calls[1..] + [c];
      CallsSnoc(calls[1..], c, slave, k + FallsOf(calls[0]));
    }
  }

  // ---------------------------------------------------------------- requests of user programs

  datatype Command = I2cRead | I2cWrite | SccbReading | OtherCommand

  /** An ioctl and its argument word: device and register in the two high octets, data below. */
  datatype Request = Request(cmd: Command, val: nat)

  /** What it returns, and the word it leaves. */
  datatype Reply = Reply(code: int, val: nat)

  function CallsOf(r: Request): (calls: seq<Call>)
    requires r.val < 0x1_0000_0000
    ensures AllBytes(calls) && |calls| <= 1
  {
    var dev, addr := r.val / 0x100_0000, r.val / 0x1_0000 % 0x100;
    match r.cmd
    case I2cRead => [Call.Read(dev, addr)]
    case I2cWrite => [Call.Write(dev, addr, r.val % 0x100)]
    case SccbReading => [Call.SccbRead(dev, addr)]
    case OtherCommand => []
  }

  function ReplyTo(r: Request, slave: Slave, k: nat): Reply
    requires r.val < 0x1_0000_0000
  {
    match r.cmd
    case OtherCommand => Reply(-1, r.val)
    case I2cWrite => Reply(0, r.val)
    case _ => Reply(0, r.val / 0x1_0000 * 0x1_0000 + ReturnedBy(CallsOf(r)[0], slave, k))
  }

  lemma WordOctets(dev: nat, addr: nat, x: nat, data: nat)
    requires dev < 256 && addr < 256 && x < 256 && data < 256
    ensures var high, low := dev * 0x100_0000 + addr * 0x1_0000, x * 0x100 + data; var val := high + low;
            && val < 0x1_0000_0000 && val / 0x100_0000 == dev && val / 0x1_0000 % 0x100 == addr
            && val % 0x100 == data && val / 0x1_0000 * 0x1_0000 == high
  {
    var val := dev * 0x100_0000 + addr * 0x1_0000 + x * 0x100 + data;
    Arithmetic.DivModUnique(val, 0x100_0000, dev, addr * 0x1_0000 + x * 0x100 + data);
    Arithmetic.DivModUnique(val, 0x1_0000, dev * 0x100 + addr, x * 0x100 + data);
    Arithmetic.DivModUnique(dev * 0x100 + addr, 0x100, dev, addr);
    Arithmetic.DivModUnique(val, 0x100, dev * 0x1_0000 + addr * 0x100 + x, data);
  }

  /** By the octets of the argument word: device, register, and at the low end the data or the answer. */
  lemma RequestOctets(cmd: Command, dev: nat, addr: nat, x: nat, data: nat, slave: Slave, k: nat)
    requires dev < 256 && addr < 256 && x < 256 && data < 256
    ensures var r := Request(cmd, dev * 0x100_0000 + addr * 0x1_0000 + (x * 0x100 + data));
            var high, low := dev * 0x100_0000 + addr * 0x1_0000, x * 0x100 + data;
            && CallsOf(r) == (match cmd
                              case I2cRead => [Call.Read(dev, addr)]
                              case I2cWrite => [Call.Write(dev, addr, data)]
                              case SccbReading => [Call.SccbRead(dev, addr)]
                              case OtherCommand => [])
            && ReplyTo(r, slave, k) == (match cmd
                                        case I2cRead => Reply(0, high + ReturnedBy(Call.Read(dev, addr), slave, k))
                                        case I2cWrite => Reply(0, high + low)
                                        case SccbReading =>
                                          Reply(0, high + ReturnedBy(Call.SccbRead(dev, addr), slave, k))
                                        case OtherCommand => Reply(-1, high + low))
  {
    WordOctets(dev, addr, x, data);
    hide ReturnedBy;
  }

  predicate AllWords(requests: seq<Request>) {
    forall i | 0 <= i < |requests| :: requests[i].val < 0x1_0000_0000
  }

  function CallsOfAll(requests: seq<Request>): (calls: seq<Call>)
    requires AllWords(requests)
    ensures AllBytes(calls)
  {
    if requests == [] then []
    else CallsOfAll(requests[..|requests| - 1]) + CallsOf(requests[|requests| - 1])
  }

  function RepliesTo(requests: seq<Request>, slave: Slave, k: nat): (replies: seq<Reply>)
    requires AllWords(requests)
    ensures |replies| == |requests|
  {
    if requests == [] then []
    else
      var before := requests[..|requests| - 1];
      RepliesTo(before, slave, k) +
      [ReplyTo(requests[|requests| - 1], slave, k + AllFalls(CallsOfAll(before)))]
  }

  /** One more request behind the first `i`. */
  lemma RequestSnoc(requests: seq<Request>, i: nat, slave: Slave, k: nat)
    requires AllWords(requests) && i < |requests|
    ensures var r, before := requests[i], CallsOfAll(requests[..i]);
            && CallsOfAll(requests[..i + 1]) == before + CallsOf(r)
            && RepliesTo(requests[..i + 1], slave, k) ==
                 RepliesTo(requests[..i], slave, k) + [ReplyTo(r, slave, k + AllFalls(before))]
            && AllEvents(before + CallsOf(r), slave, k) ==
                 AllEvents(before, slave, k) + AllEvents(CallsOf(r), slave, k + AllFalls(before))
            && AllFalls(before + CallsOf(r)) == AllFalls(before) + AllFalls(CallsOf(r))
  {
    hide CallEvents, FallsOf, CallsOf, ReplyTo;
    var more := requests[..i + 1];
    assert more[..i] == requests[..i] && more[i] == requests[i];
    var before, calls := CallsOfAll(requests[..i]), CallsOf(requests[i]);
    if calls == [] {
      assert before + calls == before;
    } else {
      assert calls == [calls[0]];
      CallsSnoc(before, calls[0], slave, k);
      OneCall(calls[0], slave, k + AllFalls(before));
    }
  }

  lemma OneCall(c: Call, slave: Slave, k: nat)
    ensures AllEvents([c], slave, k) == CallEvents(c, slave, k) && AllFalls([c]) == FallsOf(c)
  {
    hide CallEvents, FallsOf;
    assert [c][1..] == [];
  }
}
