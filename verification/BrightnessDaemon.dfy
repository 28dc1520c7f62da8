/**
 The brightness daemon (src/brightness_daemon.cpp): the backlight context with its state file, the
 datagram handler, and one lifetime of the process. Writes to sysfs are taken to succeed.
 */
module BrightnessDaemon {
  import opened BrightnessCodec
  import opened Bytes
  import opened Wrappers

  /** The maximum is read from sysfs as an int. */
  type Maximum = x: int | 0 <= x < 0x8000_0000

  datatype Config = Config(max: Maximum, powersave: u32)

  /** The state file behind an iostream: one position for reading and writing, and the error state. */
  datatype Stream = Stream(file: seq<u8>, pos: nat, good: bool)

  datatype State = State(current: u32, hardware: u32, storage: Stream)

  // ----- what the operations do, on values -----

  function ReadWord(s: Stream): (Stream, Option<u32>) {
    if !s.good then (s, None)
    else if s.pos + 4 <= |s.file| then (s.(pos := s.pos + 4), Some(U32At(s.file, s.pos)))
    else (s.(pos := if s.pos < |s.file| then |s.file| else s.pos, good := false), None)
  }

  /** Writing past the end of a file fills the gap with zeros. */
  function WriteWord(s: Stream, v: u32): Stream {
    if !s.good then s
    else
      var size := s.pos + 4;
      var padded := if |s.file| < size then s.file + seq(size - |s.file|, _ => 0) else s.file;
      s.(file := padded[..s.pos] + Le32(v) + padded[size..], pos := size)
  }

  function Set(cfg: Config, s: State, value: u32): State {
    if value > cfg.max then s else s.(current := value, hardware := value)
  }

  function Clamp(x: int, lo: int, hi: int): int {
    if x < lo then lo else if x > hi then hi else x
  }

  predicate Fits(x: int) {
    -0x8000_0000 <= x < 0x8000_0000
  }

  /**
   The sum is an int; where it overflows, C++ leaves the value open and `overflow` stands for
   whatever it turns out to be.
   */
  function Modified(cfg: Config, current: u32, step: i32, overflow: i32): u32 {
    var sum := ToSigned(current) as int + step;
    Clamp(if Fits(sum) then sum else overflow, 0, cfg.max)
  }

  function Save(s: State): State {
    var written := WriteWord(s.storage, s.current);
    s.(storage := if written.good then written.(pos := 0) else written)
  }

  /** Whatever was read, the error state is cleared and the file is emptied. */
  function Restore(cfg: Config, s: State): State {
    var word := ReadWord(s.storage).1;
    var emptied := s.(storage := Stream([], 0, true));
    match word
    case None => emptied
    case Some(v) => Set(cfg, emptied, v)
  }

  function Perform(cfg: Config, s: State, c: Command, overflow: i32): State {
    match c
    case SetState(value) => Set(cfg, s, value)
    case ModifyState(step) => Set(cfg, s, Modified(cfg, s.current, step, overflow))
    case SaveState => Save(s)
    case RestoreState => Restore(cfg, s)
    case SetPowersave => Set(cfg, s, cfg.powersave)
  }

  function Handle(cfg: Config, s: State, datagram: seq<u8>, overflow: i32): State {
    match Decode(datagram)
    case Execute(c) => Perform(cfg, s, c, overflow)
    case _ => s
  }

  /** A command fails if its frame is malformed, its value out of range, or the state file in error. */
  predicate Throws(cfg: Config, s: State, verdict: Verdict) {
    match verdict
    case MalformedCommand => true
    case Execute(SetState(value)) => value > cfg.max
    case Execute(SetPowersave) => cfg.powersave > cfg.max
    case Execute(SaveState) => !s.storage.good
    case _ => false
  }

  // ----- the program -----

  class StorageStream {
    var stream: Stream

    constructor Open(file: seq<u8>)
      ensures stream == Stream(file, 0, true)
    {
      stream := Stream(file, 0, true);
    }

    method Read() returns (word: u32)
      modifies this
      ensures stream == ReadWord(old(stream)).0
      ensures stream.good ==> ReadWord(old(stream)).1 == Some(word)
      ensures !stream.good ==> ReadWord(old(stream)).1 == None
    {
      word := 0;
      if stream.good && stream.pos + 4 <= |stream.file| {
        word := U32At(stream.file, stream.pos);
      }
      stream := ReadWord(stream).0;
    }

    method Write(word: u32)
      modifies this
      ensures stream == WriteWord(old(stream), word)
    {
      stream := WriteWord(stream, word);
    }

    method Clear()
      modifies this
      ensures stream == old(stream).(good := true)
    {
      stream := stream.(good := true);
    }

    method SeekBegin()
      modifies this
      ensures stream == old(stream).(pos := 0)
    {
      stream := stream.(pos := 0);
    }

    /** Truncation works on the file descriptor and leaves the position alone. */
    method Truncate()
      modifies this
      ensures stream == old(stream).(file := [])
    {
      stream := stream.(file := []);
    }
  }

  class BacklightContext {
    const cfg: Config
    const storage: StorageStream
    var current: u32
    var hardware: u32

    ghost function Abstract(): State
      reads this, storage
    {
      State(current, hardware, storage.stream)
    }

    constructor Init(cfg: Config, hardware: u32, storage: StorageStream)
      ensures this.cfg == cfg && this.storage == storage
      ensures Abstract() == State(hardware, hardware, storage.stream)
    {
      this.cfg, this.storage := cfg, storage;
      this.current, this.hardware := hardware, hardware;
    }

    method SetValue(value: u32) returns (throws: bool)
      modifies this
      ensures Abstract() == Set(cfg, old(Abstract()), value)
      ensures throws <==> value > cfg.max
    {
      if value > cfg.max {
        return true;
      }
      hardware := value;
      current := value;
      return false;
    }

    method ModifyState(step: i32, overflow: i32) returns (throws: bool)
      modifies this
      ensures Abstract() == Perform(cfg, old(Abstract()), Command.ModifyState(step), overflow)
      ensures !throws
    {
      var sum := ToSigned(current) as int + step;
      var tmp: int := if Fits(sum) then sum else overflow;
      if tmp < 0 {
        tmp := 0;
      }
      if tmp > cfg.max {
        tmp := cfg.max;
      }
      throws := SetValue(tmp);
    }

    method SaveState() returns (throws: bool)
      modifies storage
      ensures Abstract() == Save(old(Abstract()))
      ensures throws <==> !old(storage.stream.good)
    {
      storage.Write(current);
      if !storage.stream.good {
        return true;
      }
      storage.SeekBegin();
      return false;
    }

    method RestoreState()
      modifies this, storage
      ensures Abstract() == Restore(cfg, old(Abstract()))
    {
      var tmp := storage.Read();
      var goodRead := storage.stream.good;
      storage.Clear();
      storage.SeekBegin();
      storage.Truncate();
      if !goodRead {
        return;
      }
      var ignored := SetValue(tmp);
    }

    method SetPowersave() returns (throws: bool)
      modifies this
      ensures Abstract() == Set(cfg, old(Abstract()), cfg.powersave)
      ensures throws <==> cfg.powersave > cfg.max
    {
      throws := SetValue(cfg.powersave);
    }
  }

  class SocketContext {
    const backlight: BacklightContext
    var buffer: seq<u8>

    constructor (backlight: BacklightContext)
      ensures this.backlight == backlight
    {
      this.backlight := backlight;
      buffer := [];
    }

    /** Works on the frame in the buffer, whose length byte matches the bytes received. */
    method HandleFrame(ghost frame: seq<u8>, overflow: i32) returns (throws: bool)
      requires 2 <= |frame| <= |buffer| && frame == buffer[..|frame|]
      requires frame[1] <= COMMAND_FRAME_LEN_MAX && frame[1] as int + COMMAND_FRAME_SIZE_MIN == |frame|
      modifies backlight, backlight.storage
      ensures backlight.Abstract() == match DecodeFrame(frame)
                                      case Execute(c) => Perform(backlight.cfg, old(backlight.Abstract()), c, overflow)
                                      case _ => old(backlight.Abstract())
      ensures throws <==> Throws(backlight.cfg, old(backlight.Abstract()), DecodeFrame(frame))
    {
      var kind, len := buffer[0], buffer[1];
      assert kind == frame[0] && len == frame[1];
      throws := false;
      if kind >= COMMAND_COUNT {
        return;
      }
      if kind == SET_STATE {
        if len != 4 {
          return true;
        }
        assert U32At(buffer, 2) == U32At(frame, 2);
        throws := backlight.SetValue(U32At(buffer, 2));
      } else if kind == MODIFY_STATE {
        if len != 4 {
          return true;
        }
        assert U32At(buffer, 2) == U32At(frame, 2);
        throws := backlight.ModifyState(ToSigned(U32At(buffer, 2)), overflow);
      } else {
        if len != 0 {
          return true;
        }
        if kind == SAVE_STATE {
          throws := backlight.SaveState();
        } else if kind == RESTORE_STATE {
          backlight.RestoreState();
        } else {
          throws := backlight.SetPowersave();
        }
      }
    }

    /** Receives one datagram; an exception from its command is caught and logged. */
    method Process(datagram: seq<u8>, overflow: i32)
      modifies this, backlight, backlight.storage
      ensures backlight.Abstract() == Handle(backlight.cfg, old(backlight.Abstract()), datagram, overflow)
    {
      var transferred := if |datagram| <= BUFFER_SIZE then |datagram| else BUFFER_SIZE;
      buffer := datagram[..transferred] + seq(BUFFER_SIZE - transferred, _ => 0);
      ghost var frame := Received(datagram);
      assert frame == buffer[..transferred];
      if transferred >= COMMAND_FRAME_SIZE_MIN {
        assert buffer[1] == frame[1];
        if buffer[1] <= COMMAND_FRAME_LEN_MAX && buffer[1] as int + COMMAND_FRAME_SIZE_MIN == transferred {
          var throws := HandleFrame(frame, overflow);
        }
      }
    }
  }

  /** The datagrams of one lifetime, with what an overflowing sum gives in each. */
  function HandleAll(cfg: Config, s: State, datagrams: seq<(seq<u8>, i32)>): State {
    if datagrams == [] then s
    else
      var last := datagrams[|datagrams| - 1];
      Handle(cfg, HandleAll(cfg, s, datagrams[..|datagrams| - 1]), last.0, last.1)
  }

  /** One lifetime: restore, serve, and save when a signal ends the loop. */
  method Lifetime(socket: SocketContext, datagrams: seq<(seq<u8>, i32)>)
    modifies socket, socket.backlight, socket.backlight.storage
    ensures var bl := socket.backlight;
            bl.Abstract() == Save(HandleAll(bl.cfg, Restore(bl.cfg, old(bl.Abstract())), datagrams))
  {
    var bl := socket.backlight;
    bl.RestoreState();
    ghost var restored := bl.Abstract();
    for i := 0 to |datagrams|
      invariant bl.Abstract() == HandleAll(bl.cfg, restored, datagrams[..i])
    {
      socket.Process(datagrams[i].0, datagrams[i].1);
      assert datagrams[..i + 1][..i] == datagrams[..i];
    }
    assert datagrams[..|datagrams|] == datagrams;
    var throws := bl.SaveState();
  }
}
