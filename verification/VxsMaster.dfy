// Model of the VXS I2C master's access to a payload board's controller:
// dev/vxsiicm/vxsiic_hal.c and dev/vxsiicm/dev_vxsiic_pp.c, running against the
// slave of module VxsSlave.
module VxsMaster {
  import opened VxsSlave

  // Registers the master writes for the payload board to pick up.
  const REG_TTVXS_BMC_VER: bv16 := 0x100
  const REG_TTVXS_MODULE_ID: bv16 := 0x101
  const REG_TTVXS_MODULE_SERIAL: bv16 := 0x102
  const REG_TTVXS_FPGA_FW_VER: bv16 := 0x103
  const REG_TTVXS_UPTIME: bv16 := 0x104

  datatype McuInfo = McuInfo(
    magic: bv32, bmcVer: bv32, moduleId: bv32, encStatus: bv32, iicOps: bv32, iicErrors: bv32,
    uptime: bv32, moduleSerial: bv32, fpgaFwVer: bv32)

  // The environment of one bus transfer: whether the driver succeeds; if not, after how
  // many events it gives up and what that leaves in the caller's buffer; and what the
  // slave's firmware supplies when the transfer reads a register.
  datatype Conditions = Conditions(works: bool, cut: nat, left: bv32, board: Board, later: seq<(Board, bv8)>) {
    predicate Ok() { 3 <= |later| <= 4 }
  }

  // A transfer given up, at its last event at the latest.
  function CutOf(t: Transfer, c: Conditions): (cut: nat)
    requires t.Ok()
    ensures cut < |EventsOf(t)|
  {
    if c.cut < |EventsOf(t)| then c.cut else |EventsOf(t)| - 1
  }

  function FailedFile(f: File, t: Transfer, c: Conditions): (after: File)
    requires f.Ok() && t.Ok()
    ensures after.Ok()
  {
    AbortedFile(f, t, CutOf(t, c))
  }

  type Environment = nat -> Conditions

  function ReadAt(f: File, env: Environment, n: nat, reg: bv16): bv32
    requires f.Ok()
  {
    ReadValue(f, env(n).board, reg)
  }

  ghost predicate EnvOk(env: Environment) { forall n :: env(n).Ok() }

  // The file after a completed transfer: one more operation.
  function BumpOps(f: File): (after: File)
    requires f.Ok()
    ensures after.Ok()
  {
    f.(ops := Next(f.ops))
  }

  function OpsAfter(ops: bv32, n: nat): bv32 {
    if n == 0 then ops else Next(OpsAfter(ops, n - 1))
  }

  // dev_vxsiic_write_pp_mcu, in order.
  function WordsOf(info: TtvxsInfo): (words: seq<bv32>)
    ensures |words| == 5
  {
    [info.bmcVer, info.moduleId, info.moduleSerial, info.fpgaFwVersion, info.uptime]
  }

  // The scratch memory after the first k of the five words have been written.
  function FirstWords(before: seq<bv32>, words: seq<bv32>, k: nat): (after: seq<bv32>)
    requires |before| == SCRATCH_SIZE && k <= |words| <= SCRATCH_SIZE
    ensures |after| == SCRATCH_SIZE
  {
    words[..k] + before[k..]
  }

  // What a full pass over registers 0..8 finds on this slave: register 4 already
  // counts the four transfers before it.
  function InfoRead(f: File, env: Environment, n: nat): McuInfo {
    McuInfo(BMC_MAGIC, env(n + 1).board.bmcVer, env(n + 2).board.moduleId, env(n + 3).board.encStatus,
            OpsAfter(f.ops, 4), f.errors, env(n + 6).board.uptime, env(n + 7).board.serial,
            env(n + 8).board.fwVer)
  }

  const INFO_REGS: seq<bv16> := [0, 1, 2, 3, 4, 5, 6, 7, 8]

  // The driver succeeds in all of the count transfers from n on.
  predicate AllWork(env: Environment, n: nat, count: nat) {
    count == 0 || (AllWork(env, n, count - 1) && env(n + count - 1).works)
  }

  lemma {:induction false} OneFails(env: Environment, n: nat, k: nat, count: nat)
    requires k < count && !env(n + k).works
    ensures !AllWork(env, n, count)
    decreases count
  {
    if k == count - 1 {
    } else {
      OneFails(env, n, k, count - 1);
    }
  }

  const SCRATCH_REGS: seq<bv16> := [
    REG_TTVXS_BMC_VER, REG_TTVXS_MODULE_ID, REG_TTVXS_MODULE_SERIAL, REG_TTVXS_FPGA_FW_VER, REG_TTVXS_UPTIME]

  lemma NextWord(before: seq<bv32>, words: seq<bv32>, k: nat, f: File)
    requires f.Ok() && |before| == SCRATCH_SIZE && k < |words| == 5
    requires f.scratch == FirstWords(before, words, k)
    ensures BumpOps(Written(f, SCRATCH_REGS[k], words[k])).scratch == FirstWords(before, words, k + 1)
  {
    assert SCRATCH_REGS[k] as int == SCRATCH_START + k by { ScratchRegs(k); }
  }

  // The transfer that writes word k.
  function WordTransfer(words: seq<bv32>, k: nat): (t: Transfer)
    requires k < |words| == 5
    ensures t.Ok()
  {
    WriteTransfer(SCRATCH_REGS[k], BytesOf(words[k]))
  }

  // What a failed transfer does to the scratch memory does not depend on the counters.
  lemma FailedScratch(f: File, g: File, t: Transfer, c: Conditions)
    requires f.Ok() && g.Ok() && t.Ok() && f.scratch == g.scratch
    ensures FailedFile(f, t, c).scratch == FailedFile(g, t, c).scratch
  {
    hide Packed, WithHighByte, HighByte;
  }

  // A failed read of a register below 0x100 changes at most the operation counter.
  lemma FailedReadIsQuiet(f: File, env: Environment, n: nat, reg: bv16)
    requires f.Ok() && EnvOk(env) && reg < 0x100
    ensures env(n).Ok() && FailedFile(f, ReadTransfer(reg, env(n).board, env(n).later), env(n)).scratch == f.scratch
  {
    LowRegister(reg);
  }

  lemma LowRegister(reg: bv16)
    requires reg < 0x100
    ensures WithHighByte(0, VxsSlave.HighByte(reg)) == 0 && !InScratch(reg) && !InScratch(0)
  {
    assert (reg >> 8) & 0xFF == 0;
  }

  lemma ScratchRegs(k: nat)
    requires k < 5
    ensures SCRATCH_REGS[k] as int == SCRATCH_START + k
  {
  }

  // The registers a pass reads, with the operation counter running along.
  predicate ReadWords(f: File, env: Environment, n: nat, count: nat, words: seq<bv32>)
    requires f.Ok() && |words| == 9 && count <= 9
  {
    forall k :: 1 <= k < count ==>
      words[k] == ReadAt(f.(ops := OpsAfter(f.ops, k)), env, n + k, INFO_REGS[k])
  }

  lemma InfoFromWords(f: File, env: Environment, n: nat, words: seq<bv32>)
    requires f.Ok() && |words| == 9 && ReadWords(f, env, n, 9, words)
    ensures InfoRead(f, env, n) ==
              McuInfo(BMC_MAGIC, words[1], words[2], words[3], words[4], words[5], words[6], words[7], words[8])
  {
    hide OpsAfter, ReadValue;
    forall k | 0 <= k < 9 {
      InfoRegister(f.(ops := OpsAfter(f.ops, k)), env(n + k).board, k);
    }
  }

  lemma InfoRegister(f: File, board: Board, k: nat)
    requires f.Ok() && k < 9
    ensures ReadValue(f, board, INFO_REGS[k]) ==
              [BMC_MAGIC, board.bmcVer, board.moduleId, board.encStatus, f.ops, f.errors, board.uptime,
               board.serial, board.fwVer][k]
  {
  }

  class MasterPort {
    const slave: SlaveDriver
    const env: Environment
    var transfers: nat
    var info: McuInfo
    var mcuFound: bool
    var present: bool
    var mcuInfoOk: bool
    // "static uint32_t map[MCU_READ_SIZE]"
    const words: array<bv32>

    ghost predicate Valid()
      reads this, slave, slave.scratch, words
    {
      && slave.Valid() && slave.View().Idle() && words.Length == 9 && words != slave.scratch
      && EnvOk(env)
    }

    constructor (slave: SlaveDriver, env: Environment)
      requires slave.Valid() && slave.View().Idle() && EnvOk(env)
      ensures Valid() && this.slave == slave && this.env == env && fresh(words)
    {
      this.slave := slave;
      this.env := env;
      transfers := 0;
      info := McuInfo(0, 0, 0, 0, 0, 0, 0, 0, 0);
      mcuFound, present, mcuInfoOk := false, false, false;
      words := new bv32[9](_ => 0);
    }

    // The I2C driver: one bus event after the other; returns the bytes received.
    method Transfer(events: seq<Event>) returns (received: seq<bv8>)
      requires slave.Valid()
      modifies slave, slave.scratch
      ensures slave.Valid() && (slave.View(), received) == Run(old(slave.View()), events)
    {
      hide Handled;
      received := [];
      ghost var s := slave.View();
      RunNone(s);
      for i := 0 to |events|
        invariant slave.Valid() && (slave.View(), received) == Run(s, events[..i])
      {
        var sent := slave.HandleEvent(events[i]);
        assert events[..i + 1] == events[..i] + [events[i]];
        RunAppend(s, events[..i], [events[i]]);
        RunOne(Run(s, events[..i]).0, events[i]);
        received := received + sent;
      }
      assert events[..|events|] == events;
    }

    method WriteMcu4(reg: bv16, data: bv32) returns (ok: bool)
      requires Valid()
      modifies this`transfers, slave, slave.scratch
      ensures Valid() && transfers == old(transfers) + 1
      ensures ok == env(old(transfers)).works
      ensures slave.View().file ==
                if ok then BumpOps(Written(old(slave.View()).file, reg, data))
                else FailedFile(old(slave.View()).file, WriteTransfer(reg, BytesOf(data)), env(old(transfers)))
    {
      hide Run, EventsOf, Written, ByteOf, Aborted, AbortedFile;
      transfers := transfers + 1;
      var pData := [ByteOf(data, 0), ByteOf(data, 1), ByteOf(data, 2), ByteOf(data, 3)];
      PackedBytes(data);
      ok := Attempt(WriteTransfer(reg, pData));
    }

    // One bus transfer without its result: carried through, or given up.
    method Attempt(t: Transfer) returns (ok: bool)
      requires Valid() && t.Ok() && t.WriteTransfer? && transfers > 0
      modifies slave, slave.scratch
      ensures Valid() && ok == env(transfers - 1).works
      ensures slave.View().file ==
                if ok then AtomicFile(old(slave.View()).file, t)
                else FailedFile(old(slave.View()).file, t, env(transfers - 1))
    {
      hide Run, EventsOf, Aborted, AbortedFile, AtomicFile;
      var c := env(transfers - 1);
      if !c.works {
        AbortedIsExact(slave.View(), t, CutOf(t, c));
        var partial := Transfer(Aborted(t, CutOf(t, c)));
        return false;
      }
      TransferIsAtomic(slave.View(), t);
      var received := Transfer(EventsOf(t));
      return true;
    }

    method ReadMcu4(reg: bv16) returns (ok: bool, data: bv32)
      requires Valid()
      modifies this`transfers, slave, slave.scratch
      ensures Valid() && transfers == old(transfers) + 1
      ensures ok == env(old(transfers)).works
      ensures data == if ok then ReadAt(old(slave.View()).file, env, old(transfers), reg) else env(old(transfers)).left
      ensures slave.View().file ==
                if ok then BumpOps(old(slave.View()).file)
                else var c := env(old(transfers));
                     FailedFile(old(slave.View()).file, ReadTransfer(reg, c.board, c.later), c)
    {
      hide Run, EventsOf, ReadValue, ByteOf, Aborted, AbortedFile;
      transfers := transfers + 1;
      var c := env(transfers - 1);
      var t := ReadTransfer(reg, c.board, c.later);
      if !c.works {
        AbortedIsExact(slave.View(), t, CutOf(t, c));
        var partial := Transfer(Aborted(t, CutOf(t, c)));
        return false, c.left;
      }
      ghost var value := ReadValue(slave.View().file, c.board, reg);
      TransferIsAtomic(slave.View(), t);
      var received := Transfer(EventsOf(t));
      assert received[..4] == BytesOf(value);
      PackedBytes(value);
      return true, Packed(received[..4]);
    }

    // dev_vxsiic_write_pp_mcu: five writes, given up at the first failure, which may
    // leave its own register half written. k of them succeed.
    method WriteMcu(info: TtvxsInfo) returns (ok: bool, ghost k: nat)
      requires Valid()
      modifies this`transfers, slave, slave.scratch
      ensures Valid()
      ensures ok <==> AllWork(env, old(transfers), 5)
      ensures ok ==> PolledInfo(slave.View().file) == info
      ensures k <= 5 && (ok <==> k == 5) && AllWork(env, old(transfers), k)
      ensures var written := FirstWords(old(slave.View().file.scratch), WordsOf(info), k);
              slave.View().file.scratch ==
                if ok then written
                else FailedFile(File(written, 0, 0), WordTransfer(WordsOf(info), k), env(old(transfers) + k)).scratch
    {
      hide Written, AllWork, EnvOk, SlaveDriver.View, SlaveDriver.Valid, Slave.Idle, FailedFile, FirstWords;
      ghost var before, start := slave.View().file.scratch, transfers;
      var words := WordsOf(info);
      NoneFail(env, start);
      NoWords(before, words);
      for i := 0 to 5
        invariant Valid() && transfers == start + i && AllWork(env, start, i)
        invariant slave.View().file.scratch == FirstWords(before, words, i)
      {
        ghost var f := slave.View().file;
        NextWord(before, words, i, f);
        AllWorkStep(env, start, i);
        ok := WriteMcu4(SCRATCH_REGS[i], words[i]);
        if !ok {
          OneFails(env, start, i, 5);
          FailedScratch(f, File(f.scratch, 0, 0), WordTransfer(words, i), env(start + i));
          return false, i;
        }
      }
      AllWritten(before, info);
      return true, 5;
    }

    // dev_vxsiic_read_pp_mcu_info
    method ReadMcuInfo() returns (ok: bool)
      requires Valid()
      modifies this, words, slave, slave.scratch
      ensures Valid() && mcuInfoOk == ok
      ensures ok <==> AllWork(env, old(transfers), 9)
      ensures ok ==> info == InfoRead(old(slave.View()).file, env, old(transfers)) && present && mcuFound
      ensures !ok ==> info == old(info).(magic := info.magic)
      ensures slave.View().file.scratch == old(slave.View()).file.scratch
    {
      hide ReadValue, AllWork, ReadWords, InfoRead, OpsAfter, EnvOk, SlaveDriver.View, SlaveDriver.Valid, Slave.Idle;
      ghost var f, start := slave.View().file, transfers;
      NoneFail(env, start);
      AllWorkStep(env, start, 0);
      OpsStart(f.ops);
      ok := ReadMagic();
      if !ok || info.magic != BMC_MAGIC {
        OneFails(env, start, 0, 9);
        mcuInfoOk := false;
        return false;
      }
      present := true;
      ok := ReadRegisters(f, start);
      if !ok {
        mcuInfoOk := false;
        return false;
      }
      InfoFromWords(f, env, start, words[..]);
      StoreInfo();
      return true;
    }

    method ReadMagic() returns (ok: bool)
      requires Valid()
      modifies this`transfers, this`info, this`mcuFound, slave, slave.scratch
      ensures Valid() && transfers == old(transfers) + 1 && mcuFound == ok
      ensures ok == env(old(transfers)).works
      ensures info == old(info).(magic := info.magic) && (ok ==> info.magic == BMC_MAGIC)
      ensures ok ==> slave.View().file == BumpOps(old(slave.View()).file)
      ensures slave.View().file.scratch == old(slave.View()).file.scratch
    {
      hide ReadValue, FailedFile, EnvOk, SlaveDriver.View, SlaveDriver.Valid, Slave.Idle;
      FailedReadIsQuiet(slave.View().file, env, transfers, INFO_REGS[0]);
      InfoRegister(slave.View().file, env(transfers).board, 0);
      var magic;
      ok, magic := ReadMcu4(INFO_REGS[0]);
      info := info.(magic := magic);
      mcuFound := ok;
    }

    method StoreInfo()
      requires words.Length == 9 && info.magic == BMC_MAGIC
      modifies this`info, this`mcuInfoOk
      ensures mcuInfoOk && info == McuInfo(BMC_MAGIC, words[..][1], words[..][2], words[..][3], words[..][4],
                                           words[..][5], words[..][6], words[..][7], words[..][8])
    {
      info := info.(bmcVer := words[1], moduleId := words[2], encStatus := words[3], iicOps := words[4],
                    iicErrors := words[5], uptime := words[6], moduleSerial := words[7],
                    fpgaFwVer := words[8]);
      mcuInfoOk := true;
    }

    // The loop over registers 1..8.
    method ReadRegisters(ghost f: File, ghost start: nat) returns (ok: bool)
      requires Valid() && f.Ok() && transfers == start + 1 && AllWork(env, start, 1)
      requires slave.View().file == f.(ops := OpsAfter(f.ops, 1))
      modifies this`transfers, words, slave, slave.scratch
      ensures Valid() && slave.View().file.scratch == f.scratch
      ensures ok <==> AllWork(env, start, 9)
      ensures ok ==> ReadWords(f, env, start, 9, words[..])
    {
      hide ReadWords, AllWork, EnvOk, SlaveDriver.View, SlaveDriver.Valid, Slave.Idle;
      NoWordsYet(f, env, start, words[..]);
      var data := 0;
      for i := 1 to 9
        invariant Valid() && transfers == start + i
        invariant slave.View().file == f.(ops := OpsAfter(f.ops, i))
        invariant AllWork(env, start, i) && ReadWords(f, env, start, i, words[..])
      {
        AllWorkStep(env, start, i);
        ok, data := ReadWord(f, start, i);
        if !ok {
          OneFails(env, start, i, 9);
          return false;
        }
      }
      return true;
    }

    method ReadWord(ghost f: File, ghost start: nat, i: nat) returns (ok: bool, data: bv32)
      requires Valid() && f.Ok() && 1 <= i < 9 && transfers == start + i
      requires slave.View().file == f.(ops := OpsAfter(f.ops, i)) && ReadWords(f, env, start, i, words[..])
      modifies this`transfers, words, slave, slave.scratch
      ensures Valid() && transfers == start + i + 1 && ok == env(start + i).works
      ensures ok ==> slave.View().file == f.(ops := OpsAfter(f.ops, i + 1))
      ensures ok ==> ReadWords(f, env, start, i + 1, words[..])
      ensures slave.View().file.scratch == f.scratch
    {
      hide ReadAt, ReadWords, OpsAfter, FailedFile, EnvOk, SlaveDriver.View, SlaveDriver.Valid, Slave.Idle;
      ghost var before := words[..];
      OneMoreOp(f.ops, i);
      InfoRegs(i);
      FailedReadIsQuiet(slave.View().file, env, start + i, INFO_REGS[i]);
      ok, data := ReadMcu4(INFO_REGS[i]);
      if ok {
        words[i] := data;
        assert words[..] == before[i := data];
        WordStored(f, env, start, i, before, data);
      }
    }
  }

  lemma OneMoreOp(ops: bv32, n: nat)
    ensures OpsAfter(ops, n + 1) == Next(OpsAfter(ops, n))
  {
  }

  lemma WordStored(f: File, env: Environment, n: nat, i: nat, words: seq<bv32>, data: bv32)
    requires f.Ok() && |words| == 9 && 1 <= i < 9 && ReadWords(f, env, n, i, words)
    requires data == ReadAt(f.(ops := OpsAfter(f.ops, i)), env, n + i, INFO_REGS[i])
    ensures ReadWords(f, env, n, i + 1, words[i := data])
  {
    hide ReadAt, OpsAfter;
  }

  lemma NoWords(before: seq<bv32>, words: seq<bv32>)
    requires |before| == SCRATCH_SIZE && |words| == 5
    ensures FirstWords(before, words, 0) == before
  {
  }

  lemma AllWritten(before: seq<bv32>, info: TtvxsInfo)
    requires |before| == SCRATCH_SIZE
    ensures forall f: File :: f.Ok() && f.scratch == FirstWords(before, WordsOf(info), 5) ==> PolledInfo(f) == info
  {
  }

  lemma InfoRegs(k: nat)
    requires k < 9
    ensures INFO_REGS[k] < 0x100
  {
  }

  lemma NoWordsYet(f: File, env: Environment, n: nat, words: seq<bv32>)
    requires f.Ok() && |words| == 9
    ensures ReadWords(f, env, n, 1, words)
  {
  }

  lemma OpsStart(ops: bv32)
    ensures OpsAfter(ops, 1) == Next(ops)
  {
  }

  lemma NoneFail(env: Environment, n: nat)
    ensures AllWork(env, n, 0)
  {
  }

  lemma AllWorkStep(env: Environment, n: nat, k: nat)
    ensures AllWork(env, n, k + 1) <==> AllWork(env, n, k) && env(n + k).works
  {
  }
}
