/**
 Fixed-width integers and their little-endian layout in memory. The programs of this repository
 copy packed structures and machine words to and from byte buffers on a little-endian host.
 */
module Bytes {

  type u8 = x: int | 0 <= x < 0x100
  type u16 = x: int | 0 <= x < 0x1_0000
  type u32 = x: int | 0 <= x < 0x1_0000_0000
  type i32 = x: int | -0x8000_0000 <= x < 0x8000_0000

  function Le16(v: u16): (b: seq<u8>)
    ensures |b| == 2
  {
    [v % 0x100, v / 0x100]
  }

  function Le32(v: u32): (b: seq<u8>)
    ensures |b| == 4
  {
    [v % 0x100, v / 0x100 % 0x100, v / 0x1_0000 % 0x100, v / 0x100_0000]
  }

  function U16At(b: seq<u8>, i: nat): u16
    requires i + 2 <= |b|
  {
    b[i] as int + 0x100 * (b[i + 1] as int)
  }

  function U32At(b: seq<u8>, i: nat): u32
    requires i + 4 <= |b|
  {
    b[i] as int + 0x100 * (b[i + 1] as int) + 0x1_0000 * (b[i + 2] as int) + 0x100_0000 * (b[i + 3] as int)
  }

  /** The number some bytes stand for, the least significant one first. */
  function LittleEndian(b: seq<u8>): nat {
    if b == [] then 0 else b[0] as int + 0x100 * LittleEndian(b[1..])
  }

  lemma WordsAreLittleEndian(b: seq<u8>, i: nat)
    ensures i + 2 <= |b| ==> U16At(b, i) == LittleEndian(b[i..i + 2])
    ensures i + 4 <= |b| ==> U32At(b, i) == LittleEndian(b[i..i + 4])
  {
    if i + 2 <= |b| {
      assert LittleEndian(b[i..i + 2][1..]) == b[i + 1] as int + 0x100 * LittleEndian([]);
    }
    if i + 4 <= |b| {
      var w := b[i..i + 4];
      assert w == [b[i], b[i + 1], b[i + 2], b[i + 3]];
      assert LittleEndian(w[3..]) == w[3] as int + 0x100 * LittleEndian(w[3..][1..]) && w[3..][1..] == [];
      assert LittleEndian(w[2..]) == w[2] as int + 0x100 * LittleEndian(w[3..]) by { assert w[2..][1..] == w[3..]; }
      assert LittleEndian(w[1..]) == w[1] as int + 0x100 * LittleEndian(w[2..]) by { assert w[1..][1..] == w[2..]; }
    }
  }

  /** Reading a word anywhere in a buffer and laying it out again gives the bytes that were there. */
  lemma Le16OfU16At(b: seq<u8>, i: nat)
    requires i + 2 <= |b|
    ensures Le16(U16At(b, i)) == b[i..i + 2]
  {
  }

  lemma Le32OfU32At(b: seq<u8>, i: nat)
    requires i + 4 <= |b|
    ensures Le32(U32At(b, i)) == b[i..i + 4]
  {
    var v := U32At(b, i);
    assert v / 0x100 == b[i + 1] as int + 0x100 * (b[i + 2] as int) + 0x1_0000 * (b[i + 3] as int);
    assert v / 0x1_0000 == b[i + 2] as int + 0x100 * (b[i + 3] as int);
    assert b[i..i + 4] == [b[i], b[i + 1], b[i + 2], b[i + 3]];
  }

  /** Conversely, a laid-out word is read back wherever it stands in a buffer. */
  lemma U16AtOfLe16(b: seq<u8>, i: nat, v: u16)
    requires i + 2 <= |b| && b[i..i + 2] == Le16(v)
    ensures U16At(b, i) == v
  {
  }

  lemma U32AtOfLe32(b: seq<u8>, i: nat, v: u32)
    requires i + 4 <= |b| && b[i..i + 4] == Le32(v)
    ensures U32At(b, i) == v
  {
    var w := b[i..i + 4];
    assert b[i] == w[0] && b[i + 1] == w[1] && b[i + 2] == w[2] && b[i + 3] == w[3];
    assert v / 0x100 == v / 0x100 % 0x100 + 0x100 * (v / 0x1_0000);
    assert v / 0x1_0000 == v / 0x1_0000 % 0x100 + 0x100 * (v / 0x100_0000);
  }

  lemma SliceOfSlice<T>(s: seq<T>, lo: nat, hi: nat, from: nat, to: nat)
    requires lo <= hi <= |s| && from <= to <= hi - lo
    ensures s[lo..hi][from..to] == s[lo + from..lo + to]
  {
    var left, right := s[lo..hi][from..to], s[lo + from..lo + to];
    assert forall k | 0 <= k < to - from :: left[k] == right[k];
  }
}
