// Model of the VXS I2C slave: drivers/bus/i2c_slave_driver.c and the register
// callbacks of dev/vxsiics/dev_vxsiics.c.
//
// Bus events drive the interrupt handler one flag at a time.  Whole transfers are
// proved to be atomic reads and writes of a register file.
module VxsSlave {
  const BMC_MAGIC: bv32 := 0x424D_4320
  const SCRATCH_START := 0x100
  const SCRATCH_SIZE := 8
  const SENSORS_START := 0x1000

  datatype Option<T> = None | Some(value: T)

  // ---------- the register map ----------

  // What the rest of the firmware supplies to a register read.
  datatype Board = Board(
    sensors: seq<bv32>, bmcVer: bv32, moduleId: bv32, encStatus: bv32, uptime: bv32,
    serial: bv32, fwVer: bv32)

  datatype File = File(scratch: seq<bv32>, ops: bv32, errors: bv32) {
    predicate Ok() { |scratch| == SCRATCH_SIZE }
  }

  predicate InScratch(reg: bv16) { SCRATCH_START <= reg as int < SCRATCH_START + SCRATCH_SIZE }

  // iic_write_callback
  function Written(f: File, reg: bv16, data: bv32): (after: File)
    requires f.Ok()
    ensures after.Ok()
  {
    if InScratch(reg) then f.(scratch := f.scratch[reg as int - SCRATCH_START := data]) else f
  }

  // iic_read_callback
  function ReadValue(f: File, board: Board, reg: bv16): bv32
    requires f.Ok()
  {
    if SENSORS_START <= reg as int < SENSORS_START + |board.sensors| then
      board.sensors[reg as int - SENSORS_START]
    else if InScratch(reg) then f.scratch[reg as int - SCRATCH_START]
    else match reg
      case 0 => BMC_MAGIC
      case 1 => board.bmcVer
      case 2 => board.moduleId
      case 3 => board.encStatus
      case 4 => f.ops
      case 5 => f.errors
      case 6 => board.uptime
      case 7 => board.serial
      case 8 => board.fwVer
      case _ => 0
  }

  // What the TTVXS master leaves in the scratch memory.
  datatype TtvxsInfo = TtvxsInfo(
    bmcVer: bv32, moduleId: bv32, moduleSerial: bv32, fpgaFwVersion: bv32, uptime: bv32)

  function PolledInfo(f: File): TtvxsInfo
    requires f.Ok()
  {
    TtvxsInfo(f.scratch[0], f.scratch[1], f.scratch[2], f.scratch[3], f.scratch[4])
  }

  // ---------- the interrupt handler ----------

  datatype Event =
    | AddrMatch(read: bool)              // own address, with the transfer direction
    | AddrOther
    | Nack
    | Stop
    | TxReady(board: Board, undefined: bv8)  // undefined: sent when the C shift is not defined
    | RxByte(rx: bv8)
    | BusyOrTxEmpty
    | Unexpected

  datatype Slave = Slave(
    memWrite: bool, memAddr: bv16, memRxdata: bv32, memTxdata: bv32, byteCount: int, file: File)
  {
    predicate Ok() { file.Ok() && 0 <= byteCount < 0x10000 }

    // Ready for the next transfer.
    predicate Idle() { byteCount == 0 && memAddr == 0 && memRxdata == 0 }
  }

  function ByteOf(data: bv32, k: nat): bv8
    requires k < 4
  {
    ((if k == 0 then data else if k == 1 then data >> 8 else if k == 2 then data >> 16 else data >> 24)
     & 0xFF) as bv8
  }

  function Placed(rx: bv8, k: nat): bv32
    requires k < 4
  {
    if k == 0 then rx as bv32
    else if k == 1 then (rx as bv32) << 8
    else if k == 2 then (rx as bv32) << 16
    else (rx as bv32) << 24
  }

  // mem_addr |= rx << ((1 - byte_count) * 8), mem_rxdata |= rx << ((byte_count - 2) * 8)
  function WithHighByte(addr: bv16, rx: bv8): bv16 { addr | ((rx as bv16) << 8) }
  function WithLowByte(addr: bv16, rx: bv8): bv16 { addr | (rx as bv16) }
  function WithDataByte(data: bv32, rx: bv8, k: nat): bv32
    requires k < 4
  {
    data | Placed(rx, k)
  }

  // uint32_t counters wrap
  function Next(n: bv32): (m: bv32)
    ensures m - 1 == n
  {
    n + 1
  }

  // Slave_Complete_Callback and the end-of-transfer resets.
  function Completed(s: Slave): (after: Slave)
    requires s.Ok()
    ensures after.Ok()
  {
    var f := if s.memWrite then Written(s.file, s.memAddr, s.memRxdata) else s.file;
    s.(memAddr := 0, memRxdata := 0, byteCount := 0, file := f.(ops := Next(f.ops)))
  }

  // Slave_Ready_To_Transmit_Callback
  function Transmitted(s: Slave, board: Board, undefined: bv8): (r: (Slave, seq<bv8>))
    requires s.Ok()
    ensures r.0.Ok()
  {
    var data := if s.byteCount == 2 then ReadValue(s.file, board, s.memAddr) else s.memTxdata;
    (s.(memTxdata := data, byteCount := (s.byteCount + 1) % 0x10000),
     [if 2 <= s.byteCount < 6 then ByteOf(data, s.byteCount - 2) else undefined])
  }

  function Accepted(s: Slave, rx: bv8): (after: Slave)
    requires s.Ok()
    ensures after.Ok()
  {
    var addr := if s.byteCount == 0 then 0 else s.memAddr;
    var data := if s.byteCount == 0 then 0 else s.memRxdata;
    s.(memAddr := if s.byteCount == 0 then WithHighByte(addr, rx)
                  else if s.byteCount == 1 then WithLowByte(addr, rx) else addr,
       memRxdata := if 2 <= s.byteCount < 6 then WithDataByte(data, rx, s.byteCount - 2) else data,
       byteCount := (s.byteCount + 1) % 0x10000)
  }

  function Counted(s: Slave): (after: Slave)
    requires s.Ok()
    ensures after.Ok()
  {
    s.(file := s.file.(errors := Next(s.file.errors)))
  }

  // New state and the byte sent, if any.
  function Handled(s: Slave, e: Event): (r: (Slave, seq<bv8>))
    requires s.Ok()
    ensures r.0.Ok()
  {
    match e
    case AddrMatch(read) => (s.(memWrite := !read), [])
    case AddrOther => (Counted(s), [])
    case Nack => (s, [])
    case Stop => (Completed(s), [])
    case TxReady(board, undefined) => Transmitted(s, board, undefined)
    case RxByte(rx) => (Accepted(s, rx), [])
    case BusyOrTxEmpty => (s, [])
    case Unexpected => (Counted(s), [])
  }

  class SlaveDriver {
    var memWrite: bool
    var memAddr: bv16
    var memRxdata: bv32
    var memTxdata: bv32
    var byteCount: int
    var ops: bv32
    var errors: bv32
    const scratch: array<bv32>

    ghost predicate Valid()
      reads this, scratch
    {
      scratch.Length == SCRATCH_SIZE && 0 <= byteCount < 0x10000
    }

    ghost function View(): (s: Slave)
      reads this, scratch
      requires Valid()
      ensures s.Ok()
    {
      Slave(memWrite, memAddr, memRxdata, memTxdata, byteCount, File(scratch[..], ops, errors))
    }

    constructor ()
      ensures Valid() && fresh(scratch) && View().Idle()
      ensures View().file == File([0, 0, 0, 0, 0, 0, 0, 0], 0, 0)
    {
      memWrite, memAddr, memRxdata, memTxdata, byteCount := false, 0, 0, 0, 0;
      ops, errors := 0, 0;
      scratch := new bv32[SCRATCH_SIZE](_ => 0);
    }

    method WriteCallback(addr: bv16, data: bv32)
      requires Valid()
      modifies scratch
      ensures Valid() && View().file == Written(old(View()).file, addr, data)
    {
      if InScratch(addr) {
        scratch[addr as int - SCRATCH_START] := data;
      }
    }

    method ReadCallback(addr: bv16, board: Board) returns (data: bv32)
      requires Valid()
      ensures data == ReadValue(View().file, board, addr)
    {
      if SENSORS_START <= addr as int < SENSORS_START + |board.sensors| {
        return board.sensors[addr as int - SENSORS_START];
      } else if InScratch(addr) {
        return scratch[addr as int - SCRATCH_START];
      } else {
        match addr
        case 0 => return BMC_MAGIC;
        case 1 => return board.bmcVer;
        case 2 => return board.moduleId;
        case 3 => return board.encStatus;
        case 4 => return ops;
        case 5 => return errors;
        case 6 => return board.uptime;
        case 7 => return board.serial;
        case 8 => return board.fwVer;
        case _ => return 0;
      }
    }

    // The scratch memory reads of dev_vxsiics_poll_status.
    method PollStatus() returns (info: TtvxsInfo)
      requires Valid()
      ensures info == PolledInfo(View().file)
    {
      info := TtvxsInfo(scratch[0x100 - SCRATCH_START], scratch[0x101 - SCRATCH_START],
                        scratch[0x102 - SCRATCH_START], scratch[0x103 - SCRATCH_START],
                        scratch[0x104 - SCRATCH_START]);
    }

    method HandleEvent(e: Event) returns (sent: seq<bv8>)
      requires Valid()
      modifies this, scratch
      ensures Valid() && (View(), sent) == Handled(old(View()), e)
    {
      hide Valid, View, Completed, Transmitted, Accepted, Counted;
      sent := [];
      match e
      case AddrMatch(read) =>
        SetDirection(read);
      case AddrOther =>
        CountError();
      case Nack =>
      case Stop =>
        Complete();
      case TxReady(board, undefined) =>
        sent := ReadyToTransmit(board, undefined);
      case RxByte(rx) =>
        Receive(rx);
      case BusyOrTxEmpty =>
      case Unexpected =>
        CountError();
    }

    method SetDirection(read: bool)
      requires Valid()
      modifies this`memWrite
      ensures Valid() && View() == old(View()).(memWrite := !read)
    {
      memWrite := !read;
    }

    method CountError()
      requires Valid()
      modifies this`errors
      ensures Valid() && View() == Counted(old(View()))
    {
      hide Next;
      errors := Next(errors);
    }

    method Complete()
      requires Valid()
      modifies this, scratch
      ensures Valid() && View() == Completed(old(View()))
    {
      hide Written, Next;
      if memWrite {
        WriteCallback(memAddr, memRxdata);
      }
      memAddr := 0;
      memRxdata := 0;
      ops := Next(ops);
      byteCount := 0;
    }

    method ReadyToTransmit(board: Board, undefined: bv8) returns (sent: seq<bv8>)
      requires Valid()
      modifies this
      ensures Valid() && (View(), sent) == Transmitted(old(View()), board, undefined)
    {
      hide ReadValue, ByteOf;
      if byteCount == 2 {
        memTxdata := ReadCallback(memAddr, board);
      }
      sent := [if 2 <= byteCount < 6 then ByteOf(memTxdata, byteCount - 2) else undefined];
      byteCount := (byteCount + 1) % 0x10000;
    }

    method Receive(rx: bv8)
      requires Valid()
      modifies this
      ensures Valid() && View() == Accepted(old(View()), rx)
    {
      hide WithHighByte, WithLowByte, WithDataByte;
      if byteCount == 0 {
        memAddr := 0;
        memRxdata := 0;
      }
      if byteCount == 0 {
        memAddr := WithHighByte(memAddr, rx);
      } else if byteCount == 1 {
        memAddr := WithLowByte(memAddr, rx);
      } else if byteCount < 6 {
        memRxdata := WithDataByte(memRxdata, rx, byteCount - 2);
      }
      byteCount := (byteCount + 1) % 0x10000;
    }
  }

  // ---------- whole transfers ----------

  function Run(s: Slave, events: seq<Event>): (r: (Slave, seq<bv8>))
    requires s.Ok()
    ensures r.0.Ok()
    decreases |events|
  {
    if events == [] then (s, [])
    else
      var (next, out) := Handled(s, events[0]);
      var (last, rest) := Run(next, events[1..]);
      (last, out + rest)
  }

  lemma {:induction false} RunAppend(s: Slave, a: seq<Event>, b: seq<Event>)
    requires s.Ok()
    ensures Run(s, a + b).0 == Run(Run(s, a).0, b).0
    ensures Run(s, a + b).1 == Run(s, a).1 + Run(Run(s, a).0, b).1
    decreases |a|
  {
    hide Handled;
    if a == [] {
      assert a + b == b;
    } else {
      assert (a + b)[1..] == a[1..] + b;
      RunAppend(Handled(s, a[0]).0, a[1..], b);
    }
  }

  function HighByte(reg: bv16): bv8 { ((reg >> 8) & 0xFF) as bv8 }
  function LowByte(reg: bv16): bv8 { (reg & 0xFF) as bv8 }

  // Addressing the slave for writing and sending the register number, high byte first.
  function SelectEvents(reg: bv16): (events: seq<Event>)
    ensures |events| == 3
  {
    [AddrMatch(false), RxByte(HighByte(reg)), RxByte(LowByte(reg))]
  }

  function RxEvents(bytes: seq<bv8>): (events: seq<Event>)
    ensures |events| == |bytes|
  {
    seq(|bytes|, i requires 0 <= i < |bytes| => RxByte(bytes[i]))
  }

  // A read ends with a repeated start, four transmit requests (a fifth when the
  // hardware prefetches), the master's NACK and a STOP.
  datatype Transfer =
    | WriteTransfer(reg: bv16, bytes: seq<bv8>)
    | ReadTransfer(reg: bv16, board: Board, later: seq<(Board, bv8)>)
  {
    predicate Ok() {
      match this
      case WriteTransfer(_, bytes) => |bytes| < 0x10000 - 2
      case ReadTransfer(_, _, later) => 3 <= |later| <= 4
    }
  }

  function TxEvents(later: seq<(Board, bv8)>): (events: seq<Event>)
    ensures |events| == |later|
  {
    seq(|later|, i requires 0 <= i < |later| => TxReady(later[i].0, later[i].1))
  }

  function EventsOf(t: Transfer): seq<Event> {
    match t
    case WriteTransfer(reg, bytes) => SelectEvents(reg) + (RxEvents(bytes) + [Stop])
    case ReadTransfer(reg, board, later) =>
      SelectEvents(reg) + ([AddrMatch(true), TxReady(board, 0)] + TxEvents(later) + [Nack, Stop])
  }

  // The value of up to four data bytes, first byte lowest; more bytes are ignored.
  function Packed(bytes: seq<bv8>): bv32
    decreases |bytes|
  {
    if bytes == [] then 0
    else
      var n := |bytes| - 1;
      if n < 4 then WithDataByte(Packed(bytes[..n]), bytes[n], n) else Packed(bytes[..n])
  }

  function BytesOf(data: bv32): (bytes: seq<bv8>)
    ensures |bytes| == 4
  {
    [ByteOf(data, 0), ByteOf(data, 1), ByteOf(data, 2), ByteOf(data, 3)]
  }

  lemma PackedBytes(data: bv32)
    ensures Packed(BytesOf(data)) == data
  {
    hide ByteOf, WithDataByte;
    var b := BytesOf(data);
    assert b[..3][..2] == b[..2] && b[..2][..1] == b[..1] && b[..1][..0] == [];
    assert Packed(b[..1]) == WithDataByte(0, b[0], 0);
    assert Packed(b[..2]) == WithDataByte(Packed(b[..1]), b[1], 1);
    assert Packed(b[..3]) == WithDataByte(Packed(b[..2]), b[2], 2);
    FourBytes(data);
  }

  lemma FourBytes(data: bv32)
    ensures WithDataByte(WithDataByte(WithDataByte(WithDataByte(0, ByteOf(data, 0), 0),
              ByteOf(data, 1), 1), ByteOf(data, 2), 2), ByteOf(data, 3), 3) == data
  {
  }

  lemma RegBytes(reg: bv16)
    ensures WithLowByte(WithHighByte(0, HighByte(reg)), LowByte(reg)) == reg
  {
  }

  lemma SelectRun(s: Slave, reg: bv16)
    requires s.Ok() && s.Idle()
    ensures Run(s, SelectEvents(reg)) ==
              (s.(memWrite := true, memAddr := reg, memRxdata := 0, byteCount := 2), [])
  {
    hide WithHighByte, WithLowByte, HighByte, LowByte, Run;
    RegBytes(reg);
    var start := s.(memWrite := true);
    var first, pair := AddrMatch(false), [RxByte(HighByte(reg)), RxByte(LowByte(reg))];
    RunOne(s, first);
    RunTwo(start, pair[0], pair[1]);
    assert SelectEvents(reg) == [first] + pair;
    RunAppend(s, [first], pair);
    assert Handled(start, pair[0]).0 ==
           start.(memAddr := WithHighByte(0, HighByte(reg)), memRxdata := 0, byteCount := 1);
  }

  // After the register number: how the handler stands once these bytes have come in.
  function Loaded(s: Slave, bytes: seq<bv8>): Slave {
    s.(memRxdata := Packed(bytes), byteCount := 2 + |bytes|)
  }

  lemma {:induction false} RxRun(s: Slave, bytes: seq<bv8>)
    requires s.Ok() && s.byteCount == 2 && s.memRxdata == 0 && |bytes| < 0x10000 - 2
    ensures Run(s, RxEvents(bytes)) == (Loaded(s, bytes), [])
    decreases |bytes|
  {
    hide WithDataByte, Run;
    if bytes == [] {
      RunNone(s);
      assert RxEvents(bytes) == [];
    } else {
      var n := |bytes| - 1;
      RxRun(s, bytes[..n]);
      assert RxEvents(bytes) == RxEvents(bytes[..n]) + [RxByte(bytes[n])];
      RunAppend(s, RxEvents(bytes[..n]), [RxByte(bytes[n])]);
      RunOne(Loaded(s, bytes[..n]), RxByte(bytes[n]));
    }
  }

  lemma RunOne(s: Slave, e: Event)
    requires s.Ok()
    ensures Run(s, [e]) == Handled(s, e)
  {
    hide Handled;
    assert [e][1..] == [];
    assert Handled(s, e).1 + [] == Handled(s, e).1;
  }

  lemma RunNone(s: Slave)
    requires s.Ok()
    ensures Run(s, []) == (s, [])
  {
  }

  lemma RunTwo(s: Slave, a: Event, b: Event)
    requires s.Ok()
    ensures Run(s, [a, b]) == (Handled(Handled(s, a).0, b).0, Handled(s, a).1 + Handled(Handled(s, a).0, b).1)
  {
    hide Handled;
    assert [a, b][1..] == [b];
    RunOne(Handled(s, a).0, b);
  }

  // The bytes a read puts on the bus: the register, then what was prefetched.
  function Replied(data: bv32, later: seq<(Board, bv8)>): (out: seq<bv8>)
    requires |later| <= 4
    ensures |out| == 1 + |later|
  {
    seq(1 + |later|, i requires 0 <= i < 1 + |later| => if i < 4 then ByteOf(data, i) else later[i - 1].1)
  }

  lemma {:induction false} TxRun(s: Slave, later: seq<(Board, bv8)>)
    requires s.Ok() && s.byteCount == 3 && |later| <= 4
    ensures Run(s, TxEvents(later)) == (s.(byteCount := 3 + |later|), Replied(s.memTxdata, later)[1..])
    decreases |later|
  {
    hide ByteOf, ReadValue, Run;
    if later == [] {
      RunNone(s);
      assert TxEvents(later) == [];
      assert Replied(s.memTxdata, later)[1..] == [];
    } else {
      var n := |later| - 1;
      var e := TxReady(later[n].0, later[n].1);
      TxRun(s, later[..n]);
      assert TxEvents(later) == TxEvents(later[..n]) + [e];
      RunAppend(s, TxEvents(later[..n]), [e]);
      RunOne(s.(byteCount := 3 + n), e);
      assert Replied(s.memTxdata, later)[1..] ==
             Replied(s.memTxdata, later[..n])[1..] + [Replied(s.memTxdata, later)[n + 1]];
    }
  }

  // ---------- the atomic register file ----------

  function AtomicFile(f: File, t: Transfer): (after: File)
    requires f.Ok()
    ensures after.Ok()
  {
    match t
    case WriteTransfer(reg, bytes) =>
      var w := Written(f, reg, Packed(bytes));
      w.(ops := Next(w.ops))
    case ReadTransfer(_, _, _) => f.(ops := Next(f.ops))
  }

  function AtomicReply(f: File, t: Transfer): seq<bv8>
    requires f.Ok() && t.Ok()
  {
    match t
    case WriteTransfer(_, _) => []
    case ReadTransfer(reg, board, later) => Replied(ReadValue(f, board, reg), later)
  }

  lemma WriteIsAtomic(s: Slave, t: Transfer)
    requires s.Ok() && s.Idle() && t.Ok() && t.WriteTransfer?
    ensures var (after, out) := Run(s, EventsOf(t));
            after.Idle() && after.file == AtomicFile(s.file, t) && out == []
  {
    hide Run, Handled, Packed, Written, RxEvents, SelectEvents;
    var tail := RxEvents(t.bytes) + [Stop];
    var selected := Run(s, SelectEvents(t.reg)).0;
    SelectRun(s, t.reg);
    RunAppend(s, SelectEvents(t.reg), tail);
    RunAppend(selected, RxEvents(t.bytes), [Stop]);
    RxRun(selected, t.bytes);
    RunOne(Loaded(selected, t.bytes), Stop);
    StopEvent(Loaded(selected, t.bytes));
  }

  lemma StopEvent(s: Slave)
    requires s.Ok()
    ensures Handled(s, Stop) == (Completed(s), [])
  {
  }

  lemma ReadIsAtomic(s: Slave, t: Transfer)
    requires s.Ok() && s.Idle() && t.Ok() && t.ReadTransfer?
    ensures var (after, out) := Run(s, EventsOf(t));
            after.Idle() && after.file == AtomicFile(s.file, t) && out == AtomicReply(s.file, t)
  {
    hide Run, Handled, ReadValue, ByteOf, TxEvents, SelectEvents;
    var first := [AddrMatch(true), TxReady(t.board, 0)];
    var data := ReadValue(s.file, t.board, t.reg);
    var selected := Run(s, SelectEvents(t.reg)).0;
    SelectRun(s, t.reg);
    var started := selected.(memWrite := false, memTxdata := data, byteCount := 3);
    var sent := started.(byteCount := 3 + |t.later|);
    FirstByte(selected, t.board);
    TxRun(started, t.later);
    EndOfRead(sent);
    RunAppend(s, SelectEvents(t.reg), first + TxEvents(t.later) + [Nack, Stop]);
    RunAppend(selected, first + TxEvents(t.later), [Nack, Stop]);
    RunAppend(selected, first, TxEvents(t.later));
    var reply := Replied(data, t.later);
    assert reply == [reply[0]] + reply[1..];
  }

  lemma FirstByte(s: Slave, board: Board)
    requires s.Ok() && s.byteCount == 2
    ensures var data := ReadValue(s.file, board, s.memAddr);
            Run(s, [AddrMatch(true), TxReady(board, 0)]) ==
              (s.(memWrite := false, memTxdata := data, byteCount := 3), [ByteOf(data, 0)])
  {
    hide Run, ReadValue, ByteOf;
    RunTwo(s, AddrMatch(true), TxReady(board, 0));
    var data := ReadValue(s.file, board, s.memAddr);
    assert [] + [ByteOf(data, 0)] == [ByteOf(data, 0)];
  }

  lemma EndOfRead(s: Slave)
    requires s.Ok() && !s.memWrite
    ensures Run(s, [Nack, Stop]) ==
              (s.(memAddr := 0, memRxdata := 0, byteCount := 0, file := s.file.(ops := Next(s.file.ops))), [])
  {
    hide Run, Next;
    RunTwo(s, Nack, Stop);
    StopEvent(s);
    assert Handled(s, Nack) == (s, []);
    assert Run(s, [Nack, Stop]).1 == [];
  }

  // ---------- sequences of transfers ----------

  function RunTransfers(s: Slave, ts: seq<Transfer>): (r: (Slave, seq<seq<bv8>>))
    requires s.Ok()
    ensures r.0.Ok() && |r.1| == |ts|
  {
    if ts == [] then (s, [])
    else
      var n := |ts| - 1;
      var (before, replies) := RunTransfers(s, ts[..n]);
      var (after, out) := Run(before, EventsOf(ts[n]));
      (after, replies + [out])
  }

  function FileAfter(f: File, ts: seq<Transfer>): (after: File)
    requires f.Ok()
    ensures after.Ok()
  {
    if ts == [] then f else AtomicFile(FileAfter(f, ts[..|ts| - 1]), ts[|ts| - 1])
  }

  lemma LastTransfer(s: Slave, ts: seq<Transfer>)
    requires s.Ok() && ts != []
    ensures var n := |ts| - 1;
            var (before, replies) := RunTransfers(s, ts[..n]);
            && RunTransfers(s, ts) == (Run(before, EventsOf(ts[n])).0, replies + [Run(before, EventsOf(ts[n])).1])
            && FileAfter(s.file, ts) == AtomicFile(FileAfter(s.file, ts[..n]), ts[n])
  {
    hide Run, AtomicFile, EventsOf;
  }

  // Main result: run event by event, any sequence of transfers has the effect and
  // the replies of atomic operations on a register file, and leaves the slave idle.
  lemma {:induction false} TransfersAreAtomic(s: Slave, ts: seq<Transfer>)
    requires s.Ok() && s.Idle() && forall i :: 0 <= i < |ts| ==> ts[i].Ok()
    ensures RunTransfers(s, ts).0.Idle()
    ensures RunTransfers(s, ts).0.file == FileAfter(s.file, ts)
    ensures forall i :: 0 <= i < |ts| ==>
              RunTransfers(s, ts).1[i] == AtomicReply(FileAfter(s.file, ts[..i]), ts[i])
    decreases |ts|
  {
    hide Run, AtomicFile, AtomicReply, EventsOf, RunTransfers, FileAfter;
    if ts == [] {
      NoTransfers(s);
    } else {
      var n := |ts| - 1;
      TransfersAreAtomic(s, ts[..n]);
      LastTransfer(s, ts);
      TransferIsAtomic(RunTransfers(s, ts[..n]).0, ts[n]);
      forall i | 0 <= i < n ensures ts[..n][..i] == ts[..i] {
      }
    }
  }

  lemma NoTransfers(s: Slave)
    requires s.Ok()
    ensures RunTransfers(s, []) == (s, []) && FileAfter(s.file, []) == s.file
  {
  }

  lemma TransferIsAtomic(s: Slave, t: Transfer)
    requires s.Ok() && s.Idle() && t.Ok()
    ensures var (after, out) := Run(s, EventsOf(t));
            after.Idle() && after.file == AtomicFile(s.file, t) && out == AtomicReply(s.file, t)
  {
    hide Run, EventsOf;
    if t.WriteTransfer? { WriteIsAtomic(s, t); } else { ReadIsAtomic(s, t); }
  }

  // ---------- the register file as its users see it ----------

  // A scratch register written reads back, and a write changes no other register.
  lemma ScratchReadsBack(f: File, board: Board, reg: bv16, data: bv32, other: bv16)
    requires f.Ok()
    ensures InScratch(reg) ==> ReadValue(Written(f, reg, data), board, reg) == data
    ensures other != reg || !InScratch(reg) ==>
              ReadValue(Written(f, reg, data), board, other) == ReadValue(f, board, other)
  {
  }

  // What the slave's own poll finds is what bus reads of 0x100 to 0x104 return.
  lemma PollSeesRegisters(f: File, board: Board)
    requires f.Ok()
    ensures PolledInfo(f) ==
              TtvxsInfo(ReadValue(f, board, 0x100), ReadValue(f, board, 0x101), ReadValue(f, board, 0x102),
                        ReadValue(f, board, 0x103), ReadValue(f, board, 0x104))
  {
  }

  // Over the bus: write a scratch register, then read it, event by event.
  lemma RegisterRoundTrip(s: Slave, reg: bv16, data: bv32, board: Board, later: seq<(Board, bv8)>)
    requires s.Ok() && s.Idle() && InScratch(reg) && 3 <= |later| <= 4
    ensures var ts := [WriteTransfer(reg, BytesOf(data)), ReadTransfer(reg, board, later)];
            BytesOf(data) <= RunTransfers(s, ts).1[1]
  {
    hide RunTransfers, ReadValue, ByteOf, Packed;
    var w := WriteTransfer(reg, BytesOf(data));
    var ts := [w, ReadTransfer(reg, board, later)];
    TransfersAreAtomic(s, ts);
    assert ts[..1] == [w] && [w][..0] == [];
    assert FileAfter(s.file, ts[..1]) == AtomicFile(FileAfter(s.file, []), w) == AtomicFile(s.file, w);
    PackedBytes(data);
    var f := Written(s.file, reg, data);
    ScratchReadsBack(s.file, board, reg, data, reg);
    OpsKeepScratch(f, board, reg);
  }

  lemma OpsKeepScratch(f: File, board: Board, reg: bv16)
    requires f.Ok() && InScratch(reg)
    ensures ReadValue(f.(ops := Next(f.ops)), board, reg) == ReadValue(f, board, reg)
  {
  }

  // ---------- transfers given up ----------

  // The master gives up after this many events and frees the bus with a STOP; before
  // the first the slave hears nothing.
  function Aborted(t: Transfer, cut: nat): seq<Event>
    requires cut < |EventsOf(t)|
  {
    if cut == 0 then [] else EventsOf(t)[..cut] + [Stop]
  }

  function AbortedFile(f: File, t: Transfer, cut: nat): (after: File)
    requires f.Ok() && cut < |EventsOf(t)|
    ensures after.Ok()
  {
    if cut == 0 then f
    else
      var w :=
        if cut == 1 then f
        else if cut == 2 then Written(f, WithHighByte(0, HighByte(t.reg)), 0)
        else if t.WriteTransfer? then Written(f, t.reg, Packed(t.bytes[..cut - 3]))
        else if cut == 3 then Written(f, t.reg, 0)
        else f;
      w.(ops := Next(w.ops))
  }

  lemma {:induction false} QuietRun(s: Slave, events: seq<Event>)
    requires s.Ok() && !s.memWrite && forall e :: e in events ==> e.TxReady? || e.Nack?
    ensures var after := Run(s, events).0; !after.memWrite && after.file == s.file
    decreases |events|
  {
    hide ReadValue, ByteOf;
    if events == [] {
    } else {
      assert events[0] in events;
      QuietRun(Handled(s, events[0]).0, events[1..]);
    }
  }

  lemma StopAfter(s: Slave, events: seq<Event>)
    requires s.Ok()
    ensures Run(s, events + [Stop]).0 == Completed(Run(s, events).0)
  {
    hide Run, Completed;
    RunAppend(s, events, [Stop]);
    RunOne(Run(s, events).0, Stop);
    StopEvent(Run(s, events).0);
  }

  // The first one or two events of any transfer.
  lemma SelectCut(s: Slave, reg: bv16)
    requires s.Ok() && s.Idle()
    ensures Run(s, SelectEvents(reg)[..1]).0 == s.(memWrite := true)
    ensures Run(s, SelectEvents(reg)[..2]).0 ==
              s.(memWrite := true, memAddr := WithHighByte(0, HighByte(reg)), byteCount := 1)
  {
    hide WithHighByte, HighByte, Run;
    var first, second := AddrMatch(false), RxByte(HighByte(reg));
    assert SelectEvents(reg)[..1] == [first] && SelectEvents(reg)[..2] == [first, second];
    RunOne(s, first);
    RunTwo(s, first, second);
  }

  // Exactly what a transfer given up at any point does: the slave is idle again, but a
  // write that has begun stores what it has, and so does a read whose direction has
  // not turned yet.
  lemma AbortedIsExact(s: Slave, t: Transfer, cut: nat)
    requires s.Ok() && s.Idle() && t.Ok() && cut < |EventsOf(t)|
    ensures var after := Run(s, Aborted(t, cut)).0;
            after.Idle() && after.file == AbortedFile(s.file, t, cut)
  {
    hide Run, Handled, Written, Packed, ReadValue, ByteOf, WithHighByte, HighByte, SelectEvents, RxEvents, TxEvents;
    var events := EventsOf(t)[..cut];
    if cut == 0 {
      RunNone(s);
    } else {
      StopAfter(s, events);
      if cut <= 2 {
        SelectCut(s, t.reg);
        SelectFirst(t, cut);
        NoWrite(s.file, 0);
      } else {
        SelectRun(s, t.reg);
        AfterSelect(s, t, cut);
      }
    }
  }

  lemma SelectFirst(t: Transfer, cut: nat)
    requires cut <= 2 && cut < |EventsOf(t)|
    ensures EventsOf(t)[..cut] == SelectEvents(t.reg)[..cut]
  {
    hide SelectEvents;
  }

  lemma NoWrite(f: File, data: bv32)
    requires f.Ok()
    ensures Written(f, 0, data) == f
  {
  }

  lemma AfterSelect(s: Slave, t: Transfer, cut: nat)
    requires s.Ok() && s.Idle() && t.Ok() && 3 <= cut < |EventsOf(t)|
    ensures Completed(Run(s, EventsOf(t)[..cut]).0).file == AbortedFile(s.file, t, cut)
  {
    hide Run, Handled, Written, Packed, ReadValue, ByteOf, RxEvents, TxEvents, HighByte, LowByte;
    var events := EventsOf(t)[..cut];
    var selected := Run(s, SelectEvents(t.reg)).0;
    SelectRun(s, t.reg);
    var tail := events[3..];
    assert events == SelectEvents(t.reg) + tail;
    RunAppend(s, SelectEvents(t.reg), tail);
    if t.WriteTransfer? {
      var bytes := t.bytes[..cut - 3];
      assert tail == RxEvents(bytes) by { WriteTail(t, cut); }
      RxRun(selected, bytes);
    } else if cut == 3 {
      assert tail == [];
      RunNone(selected);
      NothingPacked();
    } else {
      assert tail == [AddrMatch(true)] + tail[1..] by { ReadTail(t, cut); }
      RunAppend(selected, [AddrMatch(true)], tail[1..]);
      RunOne(selected, AddrMatch(true));
      ReadTail(t, cut);
      Turned(selected);
      QuietRun(selected.(memWrite := false), tail[1..]);
    }
  }

  lemma Turned(s: Slave)
    requires s.Ok()
    ensures Handled(s, AddrMatch(true)).0 == s.(memWrite := false)
  {
  }

  lemma NothingPacked()
    ensures Packed([]) == 0
  {
  }

  lemma WriteTail(t: Transfer, cut: nat)
    requires t.WriteTransfer? && 3 <= cut < |EventsOf(t)|
    ensures cut - 3 <= |t.bytes| && EventsOf(t)[..cut][3..] == RxEvents(t.bytes[..cut - 3])
  {
    MiddleOf(SelectEvents(t.reg), RxEvents(t.bytes), [Stop], cut - 3);
    assert RxEvents(t.bytes[..cut - 3]) == RxEvents(t.bytes)[..cut - 3];
  }

  lemma MiddleOf(head: seq<Event>, middle: seq<Event>, rest: seq<Event>, k: nat)
    requires k <= |middle|
    ensures (head + (middle + rest))[..|head| + k][|head|..] == middle[..k]
  {
  }

  lemma ReadTail(t: Transfer, cut: nat)
    requires t.ReadTransfer? && 4 <= cut < |EventsOf(t)|
    ensures EventsOf(t)[..cut][3] == AddrMatch(true)
    ensures forall e :: e in EventsOf(t)[..cut][4..] ==> e.TxReady? || e.Nack?
  {
    hide HighByte, LowByte;
    var all := EventsOf(t);
    forall i | 4 <= i < cut ensures all[i].TxReady? || all[i].Nack? {
    }
    forall e | e in all[..cut][4..] ensures e.TxReady? || e.Nack? {
      var i :| 0 <= i < |all[..cut][4..]| && all[..cut][4..][i] == e;
      assert e == all[i + 4];
    }
  }

  // So giving up after the register number stores zero in a scratch register, even on
  // the way to reading it, and after its high byte in the first of them.
  lemma AbortedSelectZeroes(s: Slave, t: Transfer)
    requires s.Ok() && s.Idle() && t.Ok() && InScratch(t.reg)
    ensures Run(s, Aborted(t, 3)).0.file.scratch == s.file.scratch[t.reg as int - SCRATCH_START := 0]
    ensures Run(s, Aborted(t, 2)).0.file.scratch == s.file.scratch[0 := 0]
  {
    hide Run, Handled, ReadValue, ByteOf, EventsOf;
    LongEnough(t);
    AbortedIsExact(s, t, 3);
    AbortedIsExact(s, t, 2);
    NothingPacked();
    ScratchHighByte(t.reg);
    if t.WriteTransfer? { assert t.bytes[..0] == []; }
  }

  lemma LongEnough(t: Transfer)
    requires t.Ok()
    ensures 3 < |EventsOf(t)|
  {
  }

  lemma ScratchHighByte(reg: bv16)
    requires InScratch(reg)
    ensures WithHighByte(0, HighByte(reg)) == 0x100
  {
    assert reg & 0xFF00 == 0x100;
  }

  // ---------- what the slave serves ----------

  // A bus read at any point of any sequence of transfers replies with the register's
  // value then, least significant byte first.
  lemma ReplyStarts(s: Slave, ts: seq<Transfer>, i: nat)
    requires s.Ok() && s.Idle() && (forall k :: 0 <= k < |ts| ==> ts[k].Ok()) && i < |ts| && ts[i].ReadTransfer?
    ensures BytesOf(ReadValue(FileAfter(s.file, ts[..i]), ts[i].board, ts[i].reg)) <= RunTransfers(s, ts).1[i]
  {
    hide RunTransfers, FileAfter, ReadValue, ByteOf;
    TransfersAreAtomic(s, ts);
  }

  // The word of the sensor map that register 0x1000 and up shows; 0 beyond the map.
  function SensorWord(sensors: seq<bv32>, reg: bv16): bv32
    requires reg as int >= 0x1000
  {
    if reg as int - 0x1000 < |sensors| then sensors[reg as int - 0x1000] else 0
  }

  lemma SensorValue(f: File, board: Board, reg: bv16)
    requires f.Ok() && reg as int >= 0x1000
    ensures ReadValue(f, board, reg) == SensorWord(board.sensors, reg)
  {
    MiddleRegister(reg);
  }

  // Main result: whatever transfers come before, register 0x1000 + k replies with word
  // k of the sensor map, and with 0 beyond the map.
  lemma SensorMapServed(s: Slave, ts: seq<Transfer>, i: nat)
    requires s.Ok() && s.Idle() && (forall j :: 0 <= j < |ts| ==> ts[j].Ok()) && i < |ts|
    requires ts[i].ReadTransfer? && ts[i].reg as int >= 0x1000
    ensures BytesOf(SensorWord(ts[i].board.sensors, ts[i].reg)) <= RunTransfers(s, ts).1[i]
  {
    hide RunTransfers, FileAfter, ReadValue, ByteOf, Run, SensorWord;
    ReplyStarts(s, ts, i);
    SensorValue(FileAfter(s.file, ts[..i]), ts[i].board, ts[i].reg);
  }

  // The scratch registers, and the unused ones between them and the sensors.
  lemma ScratchRange(f: File, board: Board, reg: bv16)
    requires f.Ok()
    ensures InScratch(reg) <==> 0x100 <= reg as int <= 0x107
    ensures InScratch(reg) ==> ReadValue(f, board, reg) == f.scratch[reg as int - 0x100]
    ensures 0x108 <= reg as int < 0x1000 ==> ReadValue(f, board, reg) == 0
  {
    if 0x108 <= reg as int { MiddleRegister(reg); }
  }

  lemma MiddleRegister(reg: bv16)
    requires reg as int >= 0x108
    ensures reg != 0 && reg != 1 && reg != 2 && reg != 3 && reg != 4 && reg != 5 && reg != 6 && reg != 7 && reg != 8
  {
  }

  // The registers below the scratch memory.
  lemma InfoServed(f: File, board: Board, reg: bv16)
    requires f.Ok() && reg < 0x100
    ensures ReadValue(f, board, reg) ==
              if reg == 0 then 0x424D_4320
              else if reg == 1 then board.bmcVer
              else if reg == 2 then board.moduleId
              else if reg == 3 then board.encStatus
              else if reg == 4 then f.ops
              else if reg == 5 then f.errors
              else if reg == 6 then board.uptime
              else if reg == 7 then board.serial
              else if reg == 8 then board.fwVer
              else 0
  {
  }

  // The bytes of a write on the bus: register number high byte first, value low byte
  // first.
  lemma WriteOnWire(reg: bv16, data: bv32)
    ensures EventsOf(WriteTransfer(reg, BytesOf(data))) ==
              [AddrMatch(false), RxByte((reg >> 8) as bv8), RxByte((reg & 0xFF) as bv8),
               RxByte((data & 0xFF) as bv8), RxByte(((data >> 8) & 0xFF) as bv8),
               RxByte(((data >> 16) & 0xFF) as bv8), RxByte(((data >> 24) & 0xFF) as bv8), Stop]
  {
  }

  function Plus(n: bv32, k: nat): bv32 { if k == 0 then n else Next(Plus(n, k - 1)) }

  function Stops(events: seq<Event>): nat {
    if events == [] then 0 else Stops(events[..|events| - 1]) + if events[|events| - 1].Stop? then 1 else 0
  }

  // Interrupts for another address, or for no known reason.
  function Faults(events: seq<Event>): nat {
    if events == [] then 0
    else
      var e := events[|events| - 1];
      Faults(events[..|events| - 1]) + if e.AddrOther? || e.Unexpected? then 1 else 0
  }

  lemma EventCounts(s: Slave, e: Event)
    requires s.Ok()
    ensures var f := Handled(s, e).0.file;
            && f.ops == (if e.Stop? then Next(s.file.ops) else s.file.ops)
            && f.errors == (if e.AddrOther? || e.Unexpected? then Next(s.file.errors) else s.file.errors)
  {
    hide ReadValue, ByteOf, WithHighByte, WithLowByte, WithDataByte, Next;
  }

  // Over any events at all the counters count STOPs and faults, modulo 2^32.
  lemma {:induction false} CountersCount(s: Slave, events: seq<Event>)
    requires s.Ok()
    ensures Run(s, events).0.file.ops == Plus(s.file.ops, Stops(events))
    ensures Run(s, events).0.file.errors == Plus(s.file.errors, Faults(events))
    decreases |events|
  {
    hide Run, Handled, Next;
    if events == [] {
      RunNone(s);
    } else {
      var n := |events| - 1;
      CountersCount(s, events[..n]);
      assert events == events[..n] + [events[n]];
      RunAppend(s, events[..n], [events[n]]);
      RunOne(Run(s, events[..n]).0, events[n]);
      EventCounts(Run(s, events[..n]).0, events[n]);
    }
  }
}
