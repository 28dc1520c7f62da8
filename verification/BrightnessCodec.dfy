/**
 The datagram format of the brightness daemon (src/brightness_daemon.cpp): a type byte, a length
 byte, and a 32-bit value for two of the five commands.
 */
module BrightnessCodec {
  import opened Bytes

  const BUFFER_SIZE: nat := 64
  const COMMAND_FRAME_LEN_MAX: nat := 32
  const COMMAND_FRAME_SIZE_MIN: nat := 2

  const SET_STATE: u8 := 0
  const MODIFY_STATE: u8 := 1
  const SAVE_STATE: u8 := 2
  const RESTORE_STATE: u8 := 3
  const SET_POWERSAVE: u8 := 4
  const COMMAND_COUNT: u8 := 5

  datatype Command = SetState(value: u32) | ModifyState(step: i32) | SaveState | RestoreState | SetPowersave

  /** What becomes of a datagram: a command, or one of the four ways to be refused. */
  datatype Verdict = Execute(command: Command) | ShortFrame | MalformedFrame | InvalidType | MalformedCommand

  function ToSigned(v: u32): i32 {
    if v < 0x8000_0000 then v else v - 0x1_0000_0000
  }

  function ToUnsigned(v: i32): u32 {
    v % 0x1_0000_0000
  }

  /** The socket delivers no more than the buffer holds. */
  function Received(datagram: seq<u8>): (frame: seq<u8>)
    ensures |frame| <= BUFFER_SIZE
  {
    if |datagram| <= BUFFER_SIZE then datagram else datagram[..BUFFER_SIZE]
  }

  function DecodeFrame(frame: seq<u8>): Verdict {
    if |frame| < COMMAND_FRAME_SIZE_MIN then ShortFrame
    else if frame[1] > COMMAND_FRAME_LEN_MAX || frame[1] as int + COMMAND_FRAME_SIZE_MIN != |frame| then MalformedFrame
    else if frame[0] >= COMMAND_COUNT then InvalidType
    else if frame[1] != (if frame[0] == SET_STATE || frame[0] == MODIFY_STATE then 4 else 0) then MalformedCommand
    else if frame[0] == SET_STATE then Execute(SetState(U32At(frame, 2)))
    else if frame[0] == MODIFY_STATE then Execute(ModifyState(ToSigned(U32At(frame, 2))))
    else if frame[0] == SAVE_STATE then Execute(SaveState)
    else if frame[0] == RESTORE_STATE then Execute(RestoreState)
    else Execute(SetPowersave)
  }

  function Decode(datagram: seq<u8>): Verdict {
    DecodeFrame(Received(datagram))
  }

  /** What a client sends. */
  function Encode(c: Command): seq<u8> {
    match c
    case SetState(value) => [SET_STATE, 4] + Le32(value)
    case ModifyState(step) => [MODIFY_STATE, 4] + Le32(ToUnsigned(step))
    case SaveState => [SAVE_STATE, 0]
    case RestoreState => [RESTORE_STATE, 0]
    case SetPowersave => [SET_POWERSAVE, 0]
  }

  /** The commands as bytes: values are little-endian, and a negative step is in two's complement. */
  lemma EncodedBytes(value: u32, step: i32)
    ensures var f := Encode(SetState(value)); |f| == 6 && f[..2] == [0, 4] && LittleEndian(f[2..]) == value
    ensures var f := Encode(ModifyState(step));
            && |f| == 6 && f[..2] == [1, 4]
            && LittleEndian(f[2..]) == if step < 0 then 0x1_0000_0000 + step else step
    ensures Encode(SaveState) == [2, 0] && Encode(RestoreState) == [3, 0] && Encode(SetPowersave) == [4, 0]
  {
    WordBytes(Encode(SetState(value)), value);
    WordBytes(Encode(ModifyState(step)), ToUnsigned(step));
  }

  lemma WordBytes(frame: seq<u8>, v: u32)
    requires |frame| == 6 && frame[2..] == Le32(v)
    ensures LittleEndian(frame[2..]) == v
  {
    assert frame[2..6] == frame[2..];
    U32AtOfLe32(frame, 2, v);
    WordsAreLittleEndian(frame, 2);
  }

  /** The frame's length byte says how many bytes follow it, at most 32. */
  predicate WellFramed(datagram: seq<u8>) {
    2 <= |datagram| <= 34 && datagram[1] as int + 2 == |datagram|
  }

  /** What becomes of any datagram, by its bytes. */
  lemma VerdictExactly(datagram: seq<u8>)
    ensures Decode(datagram) == ShortFrame <==> |datagram| < 2
    ensures Decode(datagram) == MalformedFrame <==> |datagram| >= 2 && !WellFramed(datagram)
    ensures Decode(datagram) == InvalidType <==> WellFramed(datagram) && datagram[0] > 4
    ensures Decode(datagram) == MalformedCommand <==>
            WellFramed(datagram) && datagram[0] <= 4 && datagram[1] != if datagram[0] <= 1 then 4 else 0
  {
  }

  /** Decoding inverts encoding. */
  lemma {:induction false} DecodeOfEncode(c: Command)
    ensures Decode(Encode(c)) == Execute(c)
  {
    var frame := Encode(c);
    if c.SetState? || c.ModifyState? {
      var word := if c.SetState? then c.value else ToUnsigned(c.step);
      assert frame[2..6] == Le32(word);
      U32AtOfLe32(frame, 2, word);
    }
  }

  lemma EncodeOfWord(frame: seq<u8>)
    requires |frame| == 6
    ensures frame == [frame[0], frame[1]] + Le32(U32At(frame, 2))
    ensures ToUnsigned(ToSigned(U32At(frame, 2))) == U32At(frame, 2)
  {
    Le32OfU32At(frame, 2);
    assert frame == [frame[0], frame[1]] + frame[2..6];
  }

  lemma {:induction false} EncodeOfDecode(datagram: seq<u8>, c: Command)
    requires Decode(datagram) == Execute(c)
    ensures datagram == Encode(c)
  {
    if c.SetState? || c.ModifyState? {
      assert |datagram| == 6;
      EncodeOfWord(datagram);
    } else {
      assert |datagram| == 2;
    }
  }

  /** A datagram of any length carries a command exactly when it is that command's encoding. */
  lemma {:induction false} CodecExact(datagram: seq<u8>, c: Command)
    ensures Decode(datagram) == Execute(c) <==> datagram == Encode(c)
  {
    if Decode(datagram) == Execute(c) {
      EncodeOfDecode(datagram, c);
    }
    DecodeOfEncode(c);
  }
}
