/**
 The auxiliary embedded controller as its driver sees it: two I/O ports, four latches and 64 KiB
 of RAM. The controller has no published specification; this transition function is what the
 command macros and the two command helpers of aecram/driver/driver.c presuppose.
 */
module AecDevice {
  import opened Bytes

  const RAM_SIZE: nat := 0x1_0000

  type Ram = s: seq<u8> | |s| == 0x1_0000 witness seq(0x1_0000, _ => 0)

  const CMD_TYPE_OFFSET_LOW: u8 := 0x10
  const CMD_TYPE_OFFSET_HIGH: u8 := 0x11
  const CMD_TYPE_SELECT_VALUE: u8 := 0x12

  /** Ports on the host side and the command register on the controller side. */
  datatype Config = Config(addrPort: u8, dataPort: u8, cmdReg: u8)

  const CONFIG_DEFAULT: Config := Config(0x4e, 0x4f, 0x2e)

  /** `select` is the register the data port reaches, `command` the last command type. */
  datatype Device = Device(select: u8, command: u8, high: u8, low: u8, ram: Ram)

  datatype PortOp = Out(value: u8, port: u8) | In(port: u8)

  function Address(d: Device): u16 {
    d.high as int * 0x100 + d.low
  }

  function Outb(d: Device, value: u8, port: u8): Device {
    if port == 0x4e then d.(select := value)
    else if port == 0x4f && d.select == 0x2e then d.(command := value)
    else if port == 0x4f && d.select == 0x2f then
      if d.command == CMD_TYPE_OFFSET_LOW then d.(low := value)
      else if d.command == CMD_TYPE_OFFSET_HIGH then d.(high := value)
      else if d.command == CMD_TYPE_SELECT_VALUE then d.(ram := d.ram[Address(d) := value])
      else d
    else d
  }

  /** A read that no value command prepared gives a floating bus. */
  function Inb(d: Device, port: u8): u8 {
    if port == 0x4f && d.select == 0x2f && d.command == CMD_TYPE_SELECT_VALUE then d.ram[Address(d)]
    else 0xff
  }

  /** The device after one port operation, and the byte it returned if it was a read. */
  function Perform(d: Device, op: PortOp): (Device, u8) {
    match op
    case Out(value, port) => (Outb(d, value, port), 0)
    case In(port) => (d, Inb(d, port))
  }

  // ----- the driver's command sequences -----

  /** One byte transaction, as requested from the driver. */
  datatype Access = Write(offset: u16, value: u8) | Read(offset: u16)

  function CmdOutOps(cfg: Config, cmdType: u8, cmdArg: u8): seq<PortOp> {
    [Out(cfg.cmdReg, cfg.addrPort), Out(cmdType, cfg.dataPort),
     Out((cfg.cmdReg + 1) % 0x100, cfg.addrPort), Out(cmdArg, cfg.dataPort)]
  }

  function CmdInOps(cfg: Config, cmdType: u8): seq<PortOp> {
    [Out(cfg.cmdReg, cfg.addrPort), Out(cmdType, cfg.dataPort),
     Out((cfg.cmdReg + 1) % 0x100, cfg.addrPort), In(cfg.dataPort)]
  }

  /** The twelve port operations of a byte transaction. */
  function AccessOps(cfg: Config, a: Access): (ops: seq<PortOp>)
    ensures |ops| == 12
  {
    CmdOutOps(cfg, CMD_TYPE_OFFSET_HIGH, a.offset / 0x100 % 0x100)
    + CmdOutOps(cfg, CMD_TYPE_OFFSET_LOW, a.offset % 0x100)
    + match a
      case Write(_, value) => CmdOutOps(cfg, CMD_TYPE_SELECT_VALUE, value)
      case Read(_) => CmdInOps(cfg, CMD_TYPE_SELECT_VALUE)
  }

  /** The port traffic in plain numbers: index and data register by index, one pair for each command byte. */
  lemma AccessBytes(offset: u16, value: u8)
    ensures var high, low := offset / 0x100, offset % 0x100;
            var addressing := [Out(0x2e, 0x4e), Out(0x11, 0x4f), Out(0x2f, 0x4e), Out(high, 0x4f),
                               Out(0x2e, 0x4e), Out(0x10, 0x4f), Out(0x2f, 0x4e), Out(low, 0x4f),
                               Out(0x2e, 0x4e), Out(0x12, 0x4f), Out(0x2f, 0x4e)];
            && AccessOps(CONFIG_DEFAULT, Write(offset, value)) == addressing + [Out(value, 0x4f)]
            && AccessOps(CONFIG_DEFAULT, Read(offset)) == addressing + [In(0x4f)]
  {
  }

  /** What the latches hold once the first `k` port operations of a transaction are done. */
  ghost predicate LatchesAt(d: Device, a: Access, k: nat)
    requires k <= 12
  {
    && (k > 0 ==> d.select == if k % 4 == 1 || k % 4 == 2 then 0x2e else 0x2f)
    && (k >= 2 ==> d.command == if k < 6 then CMD_TYPE_OFFSET_HIGH
                                else if k < 10 then CMD_TYPE_OFFSET_LOW
                                else CMD_TYPE_SELECT_VALUE)
    && (k >= 4 ==> d.high == a.offset / 0x100)
    && (k >= 8 ==> d.low == a.offset % 0x100)
  }

  /** The RAM a byte transaction leaves behind. */
  function Meaning(ram: Ram, a: Access): Ram {
    match a
    case Write(offset, value) => ram[offset := value]
    case Read(_) => ram
  }

  /** The byte a transaction reports on that RAM: the one it writes, or the one it finds. */
  function Answer(ram: Ram, a: Access): u8 {
    match a
    case Write(_, value) => value
    case Read(offset) => ram[offset]
  }

  /**
   One step of a transaction moves the latches to the next position. The RAM changes in the last
   step only, and there as one whole access; a read gets the byte then.
   */
  lemma AccessStep(d: Device, a: Access, k: nat)
    requires k < 12 && LatchesAt(d, a, k)
    ensures var (d', got) := Perform(d, AccessOps(CONFIG_DEFAULT, a)[k]);
            && LatchesAt(d', a, k + 1)
            && d'.ram == (if k < 11 then d.ram else Meaning(d.ram, a))
            && (k == 11 && a.Read? ==> got == d.ram[a.offset])
  {
  }

  function RunOps(d: Device, ops: seq<PortOp>): Device
    decreases |ops|
  {
    if ops == [] then d else RunOps(Perform(d, ops[0]).0, ops[1..])
  }

  lemma {:induction false} RunOpsConcat(d: Device, ops: seq<PortOp>, more: seq<PortOp>)
    ensures RunOps(d, ops + more) == RunOps(RunOps(d, ops), more)
    decreases |ops|
  {
    if ops == [] {
      assert ops + more == more;
    } else {
      assert (ops + more)[1..] == ops[1..] + more;
      RunOpsConcat(Perform(d, ops[0]).0, ops[1..], more);
    }
  }

  lemma {:induction false} AccessTail(d: Device, a: Access, k: nat)
    requires k < 12 && LatchesAt(d, a, k)
    ensures RunOps(d, AccessOps(CONFIG_DEFAULT, a)[k..]).ram == Meaning(d.ram, a)
    ensures a.Read? ==> Inb(RunOps(d, AccessOps(CONFIG_DEFAULT, a)[k..11]), CONFIG_DEFAULT.dataPort) == d.ram[a.offset]
    decreases 12 - k
  {
    var ops := AccessOps(CONFIG_DEFAULT, a);
    AccessStep(d, a, k);
    assert ops[k..][0] == ops[k] && ops[k..][1..] == ops[k + 1..];
    if k < 11 {
      assert ops[k..11][0] == ops[k] && ops[k..11][1..] == ops[k + 1..11];
      AccessTail(Perform(d, ops[k]).0, a, k + 1);
    }
  }

  /** The twelve operations are one atomic access of a flat byte map, whatever the latches held. */
  lemma AccessMeaning(d: Device, a: Access)
    ensures RunOps(d, AccessOps(CONFIG_DEFAULT, a)).ram == Meaning(d.ram, a)
    ensures a.Read? ==> Inb(RunOps(d, AccessOps(CONFIG_DEFAULT, a)[..11]), CONFIG_DEFAULT.dataPort) == d.ram[a.offset]
  {
    var ops := AccessOps(CONFIG_DEFAULT, a);
    AccessTail(d, a, 0);
    assert ops[0..] == ops && ops[0..11] == ops[..11];
  }
}
