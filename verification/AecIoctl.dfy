/**
 Sessions and the ioctl entry point of the driver (aecram/driver/driver.c), and the dump tool that
 is its client (src/aecram_util.cpp), for ioctls that do not overlap.
 */
module AecIoctl {
  import opened AecDevice
  import opened AecDriver
  import opened Bytes
  import opened Wrappers

  datatype Command = SetTypeRequest(arg: int) | ReadRequest | WriteRequest | Unknown

  /**
   What one ioctl meets: whether the request is accessible, which of its lock attempts a signal
   interrupts, and how many bytes the copy to or from user memory manages.
   */
  datatype Environment = Environment(accessible: bool, signals: nat -> bool, copied: nat)

  /** The errors that are reported before anything is transferred. */
  function Refused(config: Option<Config>, offset: u16, length: u8, env: Environment): Option<int> {
    if config == None then Some(-ENODEV)
    else if !env.accessible then Some(-EFAULT)
    else if !IsValidParam(offset, length) then Some(-EINVAL)
    else None
  }

  function ReadStatus(config: Option<Config>, offset: u16, length: u8, env: Environment): int {
    if Refused(config, offset, length, env).Some? then Refused(config, offset, length, env).value
    else if Granted(env.signals, length) < length then -EINTR
    else if env.copied < length then -EFAULT
    else 0
  }

  function WriteStatus(config: Option<Config>, offset: u16, length: u8, env: Environment): int {
    if Refused(config, offset, length, env).Some? then Refused(config, offset, length, env).value
    else if env.copied < length then -EFAULT
    else if Granted(env.signals, length) < length then -EINTR
    else 0
  }

  /** How many bytes a read puts into the caller's buffer. */
  function Delivered(config: Option<Config>, offset: u16, length: u8, env: Environment): (n: nat)
    ensures n <= AECRAM_BUFFER_SIZE && offset as int + n <= RAM_SIZE
    ensures ReadStatus(config, offset, length, env) == 0 ==> n == length
  {
    if Refused(config, offset, length, env).Some? || Granted(env.signals, length) < length then 0
    else if env.copied < length then env.copied
    else length
  }

  /** How many bytes a write puts into the controller's RAM. */
  function Written(config: Option<Config>, offset: u16, length: u8, env: Environment): (n: nat)
    ensures n <= AECRAM_BUFFER_SIZE && offset as int + n <= RAM_SIZE
    ensures WriteStatus(config, offset, length, env) == 0 ==> n == length
  {
    if Refused(config, offset, length, env).Some? || env.copied < length then 0
    else Granted(env.signals, length)
  }

  // ----- the status in terms of what the caller asked for -----

  /** The ranges that can be transferred; the empty one at offset 0 cannot. */
  predicate InRange(offset: u16, length: u8) {
    length <= 64 && offset as int + length as int <= 0x1_0000 && !(offset == 0 && length == 0)
  }

  ghost predicate Undisturbed(length: u8, env: Environment) {
    forall i | 0 <= i < length :: !env.signals(i)
  }

  /** The first lock attempt that a signal interrupts is the one for byte n. */
  ghost predicate InterruptedAt(length: u8, env: Environment, n: nat) {
    n < length && env.signals(n) && forall i | 0 <= i < n :: !env.signals(i)
  }

  lemma GrantedExactly(length: u8, env: Environment)
    ensures Granted(env.signals, length) == length <==> Undisturbed(length, env)
    ensures forall n: nat :: InterruptedAt(length, env, n) <==> n < length && Granted(env.signals, length) == n
  {
  }

  /** Every read, by the one circumstance that decides its status, and what its caller receives then. */
  lemma ReadStatusExactly(config: Option<Config>, offset: u16, length: u8, env: Environment)
    ensures var ret := ReadStatus(config, offset, length, env);
            var n := Delivered(config, offset, length, env);
            && (ret == -19 <==> config == None)
            && (ret == -22 <==> config.Some? && env.accessible && !InRange(offset, length))
            && (ret == -4 <==>
                  config.Some? && env.accessible && InRange(offset, length) && !Undisturbed(length, env))
            && (ret == -14 <==>
                  config.Some? && (env.accessible ==>
                    InRange(offset, length) && Undisturbed(length, env) && env.copied < length))
            && (ret == 0 <==>
                  && config.Some? && env.accessible && InRange(offset, length)
                  && Undisturbed(length, env) && length <= env.copied)
            && ret in {0, -4, -14, -19, -22}
            && n == (if ret == 0 then length else if ret == -14 && env.accessible then env.copied else 0)
  {
    GrantedExactly(length, env);
    ValidParamExactly(offset, length);
  }

  /**
   Every write likewise; the copy from the caller comes first. Exactly the bytes before an
   interrupted lock attempt are written.
   */
  lemma WriteStatusExactly(config: Option<Config>, offset: u16, length: u8, env: Environment)
    ensures var ret := WriteStatus(config, offset, length, env);
            var n := Written(config, offset, length, env);
            && (ret == -19 <==> config == None)
            && (ret == -22 <==> config.Some? && env.accessible && !InRange(offset, length))
            && (ret == -14 <==> config.Some? && (env.accessible ==> InRange(offset, length) && env.copied < length))
            && (ret == -4 <==>
                  && config.Some? && env.accessible && InRange(offset, length)
                  && length <= env.copied && !Undisturbed(length, env))
            && (ret == 0 <==>
                  && config.Some? && env.accessible && InRange(offset, length)
                  && length <= env.copied && Undisturbed(length, env))
            && ret in {0, -4, -14, -19, -22}
            && (ret == 0 ==> n == length)
            && (ret == -4 ==> InterruptedAt(length, env, n))
            && (ret != 0 && ret != -4 ==> n == 0)
  {
    GrantedExactly(length, env);
    ValidParamExactly(offset, length);
  }

  /** The request structure in the caller's memory. */
  class Request {
    var offset: u16
    var length: u8
    const buffer: array<u8>

    constructor (offset: u16, length: u8)
      ensures this.offset == offset && this.length == length
      ensures fresh(buffer) && buffer.Length == AECRAM_BUFFER_SIZE
    {
      this.offset, this.length := offset, length;
      buffer := new u8[AECRAM_BUFFER_SIZE](_ => 0);
    }
  }

  method CopyBytes(from: array<u8>, to: array<u8>, n: nat)
    requires from != to && n <= from.Length && n <= to.Length
    modifies to
    ensures to[..] == Overwrite(old(to[..]), 0, from[..n])
  {
    ghost var was := to[..];
    for i := 0 to n
      invariant forall k | 0 <= k < i :: to[k] == from[k]
      invariant forall k | i <= k < to.Length :: to[k] == was[k]
    {
      to[i] := from[i];
    }
    OverwriteByIndex(was, 0, from[..n], to[..]);
  }

  class Session {
    const data: AecramData
    var config: Option<Config>

    ghost predicate Valid()
      reads this, data
    {
      data.Valid() && !data.locked && (config == None || config == Some(CONFIG_DEFAULT))
    }

    constructor (data: AecramData)
      requires data.Valid() && !data.locked
      ensures Valid() && this.data == data && config == None
    {
      this.data := data;
      config := None;
    }

    method SetType(arg: int) returns (ret: int)
      requires Valid()
      modifies `config
      ensures Valid()
      ensures ret == if arg == 1 then 0 else -22
      ensures config == if arg == 1 then Some(CONFIG_DEFAULT) else old(config)
    {
      if arg == AECRAM_TYPE_AYANEO {
        config := Some(CONFIG_DEFAULT);
        ret := 0;
      } else {
        ret := -EINVAL;
      }
    }

    /** The transfer of a read that was not refused; `n` bytes reach the caller. */
    method ReadTransfer(offset: u16, length: u8, user: array<u8>, env: Environment) returns (ret: int, ghost n: nat)
      requires Valid() && config != None && user.Length == AECRAM_BUFFER_SIZE && user != data.buffer
      requires length <= AECRAM_BUFFER_SIZE && offset as int + length as int <= RAM_SIZE
      modifies data.ports, data`locked, data.buffer, user
      ensures Valid()
      ensures data.ports.device.ram == old(data.ports.device.ram)
      ensures ret == if Granted(env.signals, length) < length then -EINTR
                     else if env.copied < length then -EFAULT
                     else 0
      ensures n == if ret == -EINTR then 0 else if ret == -EFAULT then env.copied else length
      ensures user[..] == Overwrite(old(user[..]), 0, data.ports.device.ram[offset..offset as int + n])
    {
      ghost var ram, was := data.ports.device.ram, user[..];
      ret := data.AecramReadBuffer(config.value, offset, length, env.signals);
      if ret != 0 {
        n := 0;
      } else {
        var copied: nat := if env.copied < length then env.copied else length;
        n := copied;
        CopyBytes(data.buffer, user, copied);
        if copied < length {
          ret := -EFAULT;
        }
      }
      OverwriteByIndex(was, 0, ram[offset..offset as int + n], user[..]);
    }

    method ReadIoctl(req: Request, env: Environment) returns (ret: int)
      requires Valid() && req.buffer.Length == AECRAM_BUFFER_SIZE && req.buffer != data.buffer
      modifies data.ports, data`locked, data.buffer, req.buffer
      ensures Valid()
      ensures ret == ReadStatus(config, req.offset, req.length, env)
      ensures data.ports.device.ram == old(data.ports.device.ram)
      ensures var n := Delivered(config, req.offset, req.length, env);
              req.buffer[..]
              == Overwrite(old(req.buffer[..]), 0, data.ports.device.ram[req.offset..req.offset as int + n])
    {
      OverwriteNothing(req.buffer[..], 0, data.ports.device.ram, req.offset);
      if config == None {
        return -ENODEV;
      }
      if !env.accessible {
        return -EFAULT;
      }
      var offset, length := req.offset, req.length;
      if !IsValidParam(offset, length) {
        return -EINVAL;
      }
      ret := 0;
      if length != 0 {
        ghost var n;
        ret, n := ReadTransfer(offset, length, req.buffer, env);
      }
    }

    method WriteIoctl(req: Request, env: Environment) returns (ret: int)
      requires Valid() && req.buffer.Length == AECRAM_BUFFER_SIZE && req.buffer != data.buffer
      modifies data.ports, data`locked, data.buffer
      ensures Valid()
      ensures ret == WriteStatus(config, req.offset, req.length, env)
      ensures var n := Written(config, req.offset, req.length, env);
              data.ports.device.ram == Overwrite(old(data.ports.device.ram), req.offset, req.buffer[..n])
    {
      OverwriteNothing(data.ports.device.ram, req.offset, req.buffer[..], 0);
      if config == None {
        return -ENODEV;
      }
      if !env.accessible {
        return -EFAULT;
      }
      var offset, length := req.offset, req.length;
      if !IsValidParam(offset, length) {
        return -EINVAL;
      }
      ret := 0;
      if length != 0 {
        var copied: nat := if env.copied < length then env.copied else length;
        CopyBytes(req.buffer, data.buffer, copied);
        if copied < length {
          ret := -EFAULT;
        } else {
          ghost var n := Granted(env.signals, length);
          assert data.buffer[..n] == req.buffer[..n] by {
            assert data.buffer[..][..n] == req.buffer[..length][..n];
          }
          ret := data.AecramWriteBuffer(config.value, offset, length, env.signals);
        }
      }
    }

    /** A transfer of length 0 that is not refused succeeds without touching the device. */
    method UnlockedIoctl(cmd: Command, req: Request, env: Environment) returns (ret: int)
      requires Valid() && req.buffer.Length == AECRAM_BUFFER_SIZE && req.buffer != data.buffer
      modifies `config, data.ports, data`locked, data.buffer, req.buffer
      ensures Valid()
      ensures ret == match cmd
                     case SetTypeRequest(arg) => if arg == 1 then 0 else -22
                     case ReadRequest => ReadStatus(old(config), req.offset, req.length, env)
                     case WriteRequest => WriteStatus(old(config), req.offset, req.length, env)
                     case Unknown => -22
      ensures config == if cmd == SetTypeRequest(1) then Some(CONFIG_DEFAULT) else old(config)
      ensures var n := if cmd.WriteRequest? then Written(old(config), req.offset, req.length, env) else 0;
              data.ports.device.ram == Overwrite(old(data.ports.device.ram), req.offset, old(req.buffer[..n]))
      ensures var n := if cmd.ReadRequest? then Delivered(old(config), req.offset, req.length, env) else 0;
              req.buffer[..]
              == Overwrite(old(req.buffer[..]), 0, old(data.ports.device.ram)[req.offset..req.offset as int + n])
    {
      OverwriteNothing(data.ports.device.ram, req.offset, req.buffer[..], 0);
      OverwriteNothing(req.buffer[..], 0, data.ports.device.ram, req.offset);
      match cmd {
        case SetTypeRequest(arg) =>
          ret := SetType(arg);
        case ReadRequest =>
          ret := ReadIoctl(req, env);
        case WriteRequest =>
          ret := WriteIoctl(req, env);
        case Unknown =>
          ret := -EINVAL;
      }
    }
  }

  // ----- the dump tool -----

  const UNKNOWN_OFFSET: u16 := 0xd100

  datatype DumpError = InvalidOffset | InvalidLength | OpenFailed | ReadFailed(code: int)

  /**
   The tool's own checks keep both narrowing casts exact, but not the request inside the address
   space: a range past its end is left to the driver to refuse.
   */
  method Dump(data: AecramData, offset: nat, length: nat, opens: bool, env: Environment)
    returns (r: Result<seq<u8>, DumpError>)
    requires data.Valid() && !data.locked
    modifies data.ports, data`locked, data.buffer
    ensures data.ports.device.ram == old(data.ports.device.ram)
    ensures r.Ok? <==>
            && offset <= 0x2eff && length <= 64 && 0xd100 + offset + length <= 0x1_0000
            && opens && env.accessible && Undisturbed(length, env) && length <= env.copied
    ensures r.Ok? ==> r.value == data.ports.device.ram[0xd100 + offset..][..length]
    ensures r == Err(InvalidOffset) <==> offset > 0x2eff
    ensures r == Err(InvalidLength) <==> offset <= 0x2eff && length > 64
    ensures r == Err(OpenFailed) <==> offset <= 0x2eff && length <= 64 && !opens
    ensures r.Err? && r.error.ReadFailed? ==>
            r.error.code == if !env.accessible then -14
                            else if 0xd100 + offset + length > 0x1_0000 then -22
                            else if !Undisturbed(length, env) then -4
                            else -14
  {
    if offset > 0xffff - UNKNOWN_OFFSET {
      return Err(InvalidOffset);
    }
    if length > AECRAM_BUFFER_SIZE {
      return Err(InvalidLength);
    }
    if !opens {
      return Err(OpenFailed);
    }
    var code, out := FetchRange(data, (UNKNOWN_OFFSET + offset) % 0x1_0000, length % 0x100, env);
    ReadStatusExactly(Some(CONFIG_DEFAULT), UNKNOWN_OFFSET + offset, length, env);
    if code < 0 {
      return Err(ReadFailed(code));
    }
    return Ok(out);
  }

  /** Configures a new session, which cannot fail for the known type, and reads a range through it. */
  method FetchRange(data: AecramData, offset: u16, length: u8, env: Environment) returns (ret: int, out: seq<u8>)
    requires data.Valid() && !data.locked
    modifies data.ports, data`locked, data.buffer
    ensures data.ports.device.ram == old(data.ports.device.ram)
    ensures ret == ReadStatus(Some(CONFIG_DEFAULT), offset, length, env)
    ensures ret == 0 ==> offset as int + length as int <= RAM_SIZE && out == data.ports.device.ram[offset..][..length]
  {
    var session := new Session(data);
    var req := new Request(offset, length);
    ret := session.SetType(AECRAM_TYPE_AYANEO);
    ghost var was := req.buffer[..];
    ret := session.ReadIoctl(req, env);
    out := [];
    if ret == 0 {
      ReadStatusExactly(Some(CONFIG_DEFAULT), offset, length, env);
      OverwrittenPrefix(req.buffer[..], was, data.ports.device.ram, offset, length);
      out := PrintBuffer(req.buffer, length);
    }
  }

  lemma OverwrittenPrefix(user: seq<u8>, was: seq<u8>, ram: seq<u8>, offset: nat, n: nat)
    requires n <= |was| && offset + n <= |ram| && user == Overwrite(was, 0, ram[offset..offset + n])
    ensures user[..n] == ram[offset..][..n]
  {
  }

  method PrintBuffer(buffer: array<u8>, length: nat) returns (out: seq<u8>)
    requires length <= buffer.Length
    ensures out == buffer[..length]
  {
    out := [];
    for i := 0 to length
      invariant out == buffer[..i]
    {
      out := out + [buffer[i]];
    }
  }
}
