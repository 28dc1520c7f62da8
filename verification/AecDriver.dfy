/**
 The driver (aecram/driver/driver.c) on one thread: the objects it updates, its byte and buffer
 transfers, and the ioctl entry point. Module AecConcurrent covers interleaved callers.
 */
module AecDriver {
  import opened AecDevice
  import opened Bytes

  const AECRAM_BUFFER_SIZE: nat := 64
  const AECRAM_TYPE_AYANEO: int := 1

  const EINTR: int := 4
  const EFAULT: int := 14
  const ENODEV: int := 19
  const EINVAL: int := 22

  /** `s` with `data` written over it from `at` on. */
  function Overwrite<T>(s: seq<T>, at: nat, data: seq<T>): (r: seq<T>)
    requires at + |data| <= |s|
    ensures |r| == |s|
  {
    s[..at] + data + s[at + |data|..]
  }

  lemma OverwriteByIndex<T>(s: seq<T>, at: nat, data: seq<T>, r: seq<T>)
    requires at + |data| <= |s| == |r|
    requires forall k | 0 <= k < |s| :: r[k] == if at <= k < at + |data| then data[k - at] else s[k]
    ensures r == Overwrite(s, at, data)
  {
  }

  lemma OverwriteNext<T>(s: seq<T>, at: nat, data: seq<T>, n: nat)
    requires n < |data| && at + n < |s|
    ensures Overwrite(s, at, data[..n])[at + n := data[n]] == Overwrite(s, at, data[..n + 1])
  {
  }

  lemma OverwriteNothing<T>(s: seq<T>, at: nat, from: seq<T>, i: nat)
    requires at <= |s| && i <= |from|
    ensures Overwrite(s, at, from[i..i]) == s && Overwrite(s, at, from[..0]) == s
  {
  }

  /** 32-bit unsigned arithmetic: the empty range at offset 0 wraps around and is refused. */
  predicate IsValidParam(offset: u16, length: u8) {
    (offset as int + length as int - 1) % 0x1_0000_0000 <= 0xffff && length <= AECRAM_BUFFER_SIZE
  }

  lemma ValidParamExactly(offset: u16, length: u8)
    ensures IsValidParam(offset, length)
       <==> length <= AECRAM_BUFFER_SIZE && offset as int + length as int <= RAM_SIZE
            && !(offset == 0 && length == 0)
  {
  }

  /** How many of the first `n` lock attempts succeed before a signal interrupts one. */
  function Granted(signals: nat -> bool, n: nat): (g: nat)
    ensures g <= n
    ensures forall i | 0 <= i < g :: !signals(i)
    ensures g < n ==> signals(g)
  {
    if n == 0 then 0
    else if Granted(signals, n - 1) < n - 1 || signals(n - 1) then Granted(signals, n - 1)
    else n
  }

  /** The I/O ports, with the controller behind them. */
  class Ports {
    var device: Device

    constructor (d: Device)
      ensures device == d
    {
      device := d;
    }

    method OutB(value: u8, port: u8)
      modifies this
      ensures device == Perform(old(device), Out(value, port)).0
    {
      device := Outb(device, value, port);
    }

    method InB(port: u8) returns (value: u8)
      ensures value == Inb(device, port)
    {
      value := Inb(device, port);
    }

    method CmdOut(cfg: Config, cmdType: u8, cmdArg: u8)
      modifies this
      ensures device == RunOps(old(device), CmdOutOps(cfg, cmdType, cmdArg))
    {
      OutB(cfg.cmdReg, cfg.addrPort);
      OutB(cmdType, cfg.dataPort);
      OutB((cfg.cmdReg + 1) % 0x100, cfg.addrPort);
      OutB(cmdArg, cfg.dataPort);
      FourOps(old(device), CmdOutOps(cfg, cmdType, cmdArg));
    }

    method CmdIn(cfg: Config, cmdType: u8) returns (value: u8)
      modifies this
      ensures device == RunOps(old(device), CmdInOps(cfg, cmdType))
      ensures value == Inb(RunOps(old(device), CmdInOps(cfg, cmdType)[..3]), cfg.dataPort)
    {
      OutB(cfg.cmdReg, cfg.addrPort);
      OutB(cmdType, cfg.dataPort);
      OutB((cfg.cmdReg + 1) % 0x100, cfg.addrPort);
      value := InB(cfg.dataPort);
      FourOps(old(device), CmdInOps(cfg, cmdType));
    }
  }

  lemma FourOps(d: Device, ops: seq<PortOp>)
    requires |ops| == 4
    ensures var d3 := Perform(Perform(Perform(d, ops[0]).0, ops[1]).0, ops[2]).0;
            RunOps(d, ops[..3]) == d3 && RunOps(d, ops) == Perform(d3, ops[3]).0
  {
    assert ops == [ops[0], ops[1], ops[2], ops[3]];
    var first := Perform(d, ops[0]).0;
    var second := Perform(first, ops[1]).0;
    assert ops[1..][1..] == ops[2..] && ops[2..][1..] == ops[3..] && ops[3..][1..] == [];
    assert ops[..3][1..] == ops[1..3] && ops[1..3][1..] == ops[2..3] && ops[2..3][1..] == [];
    assert RunOps(second, ops[2..3]) == Perform(second, ops[2]).0;
    assert RunOps(first, ops[1..3]) == RunOps(second, ops[2..3]);
    assert RunOps(Perform(second, ops[2]).0, ops[3..]) == Perform(Perform(second, ops[2]).0, ops[3]).0;
    assert RunOps(second, ops[2..]) == RunOps(Perform(second, ops[2]).0, ops[3..]);
  }

  /** The device data all sessions share. */
  class AecramData {
    const ports: Ports
    const buffer: array<u8>
    var locked: bool

    ghost predicate Valid() {
      buffer.Length == AECRAM_BUFFER_SIZE
    }

    constructor (ports: Ports)
      ensures Valid() && !locked && this.ports == ports && fresh(buffer)
    {
      this.ports := ports;
      buffer := new u8[AECRAM_BUFFER_SIZE](_ => 0);
      locked := false;
    }

    method OffsetHigh(cfg: Config, offset: u16)
      modifies ports
      ensures ports.device == RunOps(old(ports.device), CmdOutOps(cfg, CMD_TYPE_OFFSET_HIGH, offset / 0x100 % 0x100))
    {
      ports.CmdOut(cfg, CMD_TYPE_OFFSET_HIGH, offset / 0x100 % 0x100);
    }

    method OffsetLow(cfg: Config, offset: u16)
      modifies ports
      ensures ports.device == RunOps(old(ports.device), CmdOutOps(cfg, CMD_TYPE_OFFSET_LOW, offset % 0x100))
    {
      ports.CmdOut(cfg, CMD_TYPE_OFFSET_LOW, offset % 0x100);
    }

    /** An interrupted attempt leaves the mutex and the device alone. */
    method AecramWrite(cfg: Config, offset: u16, val: u8, signal: bool) returns (ret: int)
      requires !locked && cfg == CONFIG_DEFAULT
      modifies ports, this`locked
      ensures !locked
      ensures ret == if signal then -EINTR else 0
      ensures signal ==> ports.device == old(ports.device)
      ensures !signal ==> ports.device.ram == old(ports.device.ram)[offset := val]
    {
      if signal {
        return -EINTR;
      }
      locked := true;
      OffsetHigh(cfg, offset);
      OffsetLow(cfg, offset);
      ports.CmdOut(cfg, CMD_TYPE_SELECT_VALUE, val);
      locked := false;
      SplitAccess(old(ports.device), cfg, Write(offset, val));
      AccessMeaning(old(ports.device), Write(offset, val));
      return 0;
    }

    method AecramRead(cfg: Config, offset: u16, signal: bool) returns (ret: int, val: u8)
      requires !locked && cfg == CONFIG_DEFAULT
      modifies ports, this`locked
      ensures !locked
      ensures ret == if signal then -EINTR else 0
      ensures signal ==> ports.device == old(ports.device)
      ensures ports.device.ram == old(ports.device.ram)
      ensures !signal ==> val == ports.device.ram[offset]
    {
      if signal {
        return -EINTR, 0;
      }
      locked := true;
      OffsetHigh(cfg, offset);
      OffsetLow(cfg, offset);
      val := ports.CmdIn(cfg, CMD_TYPE_SELECT_VALUE);
      locked := false;
      SplitAccess(old(ports.device), cfg, Read(offset));
      AccessMeaning(old(ports.device), Read(offset));
      return 0, val;
    }

    /** Interrupted at byte i, exactly the first i bytes have been written. */
    method AecramWriteBuffer(cfg: Config, offset: u16, length: u8, signals: nat -> bool) returns (ret: int)
      requires Valid() && !locked && cfg == CONFIG_DEFAULT
      requires length <= AECRAM_BUFFER_SIZE && offset as int + length as int <= RAM_SIZE
      modifies ports, this`locked
      ensures !locked
      ensures ret == if Granted(signals, length) < length then -EINTR else 0
      ensures ports.device.ram == Overwrite(old(ports.device.ram), offset, buffer[..Granted(signals, length)])
    {
      ghost var ram, g := ports.device.ram, Granted(signals, length);
      for i := 0 to length
        invariant !locked
        invariant i <= g
        invariant forall k | 0 <= k < RAM_SIZE ::
          ports.device.ram[k] == if offset <= k < offset + i then buffer[k - offset] else ram[k]
      {
        ret := AecramWrite(cfg, (offset + i) % 0x1_0000, buffer[i], signals(i));
        if ret < 0 {
          OverwriteByIndex(ram, offset, buffer[..g], ports.device.ram);
          return;
        }
      }
      OverwriteByIndex(ram, offset, buffer[..g], ports.device.ram);
      return 0;
    }

    method AecramReadBuffer(cfg: Config, offset: u16, length: u8, signals: nat -> bool) returns (ret: int)
      requires Valid() && !locked && cfg == CONFIG_DEFAULT
      requires length <= AECRAM_BUFFER_SIZE && offset as int + length as int <= RAM_SIZE
      modifies ports, this`locked, buffer
      ensures !locked
      ensures ret == if Granted(signals, length) < length then -EINTR else 0
      ensures ports.device.ram == old(ports.device.ram)
      ensures var n := Granted(signals, length);
              buffer[..] == Overwrite(old(buffer[..]), 0, ports.device.ram[offset..offset as int + n])
    {
      ghost var ram, was, g := ports.device.ram, buffer[..], Granted(signals, length);
      for i := 0 to length
        invariant !locked
        invariant i <= g
        invariant ports.device.ram == ram
        invariant forall k | 0 <= k < i :: buffer[k] == ram[offset as int + k]
        invariant forall k | i <= k < AECRAM_BUFFER_SIZE :: buffer[k] == was[k]
      {
        var value: u8;
        ret, value := AecramRead(cfg, (offset + i) % 0x1_0000, signals(i));
        if ret < 0 {
          OverwriteByIndex(was, 0, ram[offset..offset as int + g], buffer[..]);
          return;
        }
        buffer[i] := value;
      }
      OverwriteByIndex(was, 0, ram[offset..offset as int + g], buffer[..]);
      return 0;
    }
  }

  /** The three commands of a byte transaction, one after the other. */
  lemma SplitAccess(d: Device, cfg: Config, a: Access)
    ensures var d1 := RunOps(d, CmdOutOps(cfg, CMD_TYPE_OFFSET_HIGH, a.offset / 0x100 % 0x100));
            var d2 := RunOps(d1, CmdOutOps(cfg, CMD_TYPE_OFFSET_LOW, a.offset % 0x100));
            && RunOps(d, AccessOps(cfg, a)) == RunOps(d2, AccessOps(cfg, a)[8..])
            && RunOps(d, AccessOps(cfg, a)[..11]) == RunOps(d2, AccessOps(cfg, a)[8..11])
            && (a.Write? ==> AccessOps(cfg, a)[8..] == CmdOutOps(cfg, CMD_TYPE_SELECT_VALUE, a.value))
            && (a.Read? ==> AccessOps(cfg, a)[8..] == CmdInOps(cfg, CMD_TYPE_SELECT_VALUE))
            && (a.Read? ==> AccessOps(cfg, a)[8..11] == CmdInOps(cfg, CMD_TYPE_SELECT_VALUE)[..3])
  {
    var high := CmdOutOps(cfg, CMD_TYPE_OFFSET_HIGH, a.offset / 0x100 % 0x100);
    var low := CmdOutOps(cfg, CMD_TYPE_OFFSET_LOW, a.offset % 0x100);
    var ops := AccessOps(cfg, a);
    assert ops == high + low + ops[8..];
    assert ops[..11] == high + low + ops[8..11];
    RunOpsConcat(d, high, low);
    RunOpsConcat(d, high + low, ops[8..]);
    RunOpsConcat(d, high + low, ops[8..11]);
  }
}
