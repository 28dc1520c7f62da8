/**
 The firmware extractor (src/extract_bmi260_fw.cpp): a skip-ahead search for a 6-byte marker,
 followed by a check of 14 word sequences, that must find the first offset whose header matches.
 */
module Bmi260 {
  import opened Bytes

  datatype Sequence = Sequence(offset: nat, data: seq<u16>)

  /** The marker searched for, and the sequences that identify a header. */
  datatype Format = Format(ident: seq<u16>, header: seq<Sequence>)

  datatype Outcome = Blob(data: seq<u8>, offset: nat) | BlobNotFound | NoSpaceLeft

  const BLOB_SIZE: nat := 8 * 1024
  const HEADER_SIZE: nat := 96

  const MAGIC_0: u16 := 0x2ec8
  const MAGIC_1: u16 := 0x2e80
  const MAGIC_2: u16 := 0x2e00
  const MAGIC_3: u16 := 0xc100

  function Bmi260Format(): Format {
    var padding := [MAGIC_1, MAGIC_3];
    Format([MAGIC_0, MAGIC_2, MAGIC_1], [
      Sequence(0x00, [MAGIC_0, MAGIC_2, MAGIC_1]),
      Sequence(0x08, [MAGIC_0]),
      Sequence(0x0a, [MAGIC_2]),
      Sequence(0x10, [MAGIC_1]),
      Sequence(0x18, [MAGIC_0]),
      Sequence(0x1c, [MAGIC_1]),
      Sequence(0x20, [0x3050, 0x2e21, 0xf559, 0x3010, 0x2e21]),
      Sequence(0x44, padding),
      Sequence(0x48, padding),
      Sequence(0x4c, padding),
      Sequence(0x50, padding),
      Sequence(0x54, padding),
      Sequence(0x58, padding),
      Sequence(0x5c, padding)
    ])
  }

  /** The bytes of a word array in memory. */
  function Words(data: seq<u16>): (b: seq<u8>)
    ensures |b| == 2 * |data|
  {
    if data == [] then [] else Le16(data[0]) + Words(data[1..])
  }

  predicate BytesAt(b: seq<u8>, i: nat, pattern: seq<u8>) {
    i + |pattern| <= |b| && b[i..i + |pattern|] == pattern
  }

  predicate MarkerAt(f: Format, b: seq<u8>, i: nat) {
    BytesAt(b, i, Words(f.ident))
  }

  predicate SequenceAt(s: Sequence, b: seq<u8>, i: nat) {
    BytesAt(b, i + s.offset, Words(s.data))
  }

  /** All sequences stand at their offsets from `i`. */
  predicate HeaderAt(f: Format, b: seq<u8>, i: nat) {
    forall n | 0 <= n < |f.header| :: SequenceAt(f.header[n], b, i)
  }

  predicate BlobAt(f: Format, b: seq<u8>, i: nat) {
    i + BLOB_SIZE <= |b| && HeaderAt(f, b, i)
  }

  /** What the extraction must report, in terms of every offset of the file. */
  ghost predicate Correct(f: Format, b: seq<u8>, r: Outcome) {
    match r
    case Blob(data, i) =>
      && BlobAt(f, b, i)
      && (forall j | 0 <= j < i :: !BlobAt(f, b, j))
      && data == b[i..i + BLOB_SIZE]
    case NoSpaceLeft =>
      && (forall j: nat :: !BlobAt(f, b, j))
      && exists j: nat :: MarkerAt(f, b, j) && |b| < j + BLOB_SIZE
    case BlobNotFound =>
      && (forall j: nat :: !BlobAt(f, b, j))
      && forall j: nat :: MarkerAt(f, b, j) ==> j + BLOB_SIZE <= |b|
  }

  /**
   The format is sound for a skip-ahead search: the header starts with the marker, fits into the
   copied bytes, and two occurrences of the marker cannot overlap.
   */
  ghost predicate Searchable(f: Format) {
    && |f.ident| == 3
    && |f.header| > 0
    && f.header[0] == Sequence(0, f.ident)
    && (forall n | 0 <= n < |f.header| :: f.header[n].offset + 2 * |f.header[n].data| <= HEADER_SIZE)
    && forall k | 1 <= k < 6 :: Words(f.ident)[k] != Words(f.ident)[0]
  }

  /** The first marker byte occurs nowhere else in the marker, so the marker has no border. */
  lemma Bmi260Searchable()
    ensures Searchable(Bmi260Format())
  {
    var f := Bmi260Format();
    assert f.ident[1..] == [MAGIC_2, MAGIC_1] && f.ident[1..][1..] == [MAGIC_1];
    assert Words([MAGIC_2, MAGIC_1]) == Le16(MAGIC_2) + Words([MAGIC_1]);
    assert Words(f.ident) == [0xc8, 0x2e, 0x00, 0x2e, 0x80, 0x2e];
  }

  /** The header of the firmware as offsets and bytes. */
  const HEADER_BYTES: seq<(nat, seq<u8>)> := [
    (0, [0xc8, 0x2e, 0x00, 0x2e, 0x80, 0x2e]), (8, [0xc8, 0x2e]), (10, [0x00, 0x2e]),
    (16, [0x80, 0x2e]), (24, [0xc8, 0x2e]), (28, [0x80, 0x2e]),
    (32, [0x50, 0x30, 0x21, 0x2e, 0x59, 0xf5, 0x10, 0x30, 0x21, 0x2e]),
    (68, [0x80, 0x2e, 0x00, 0xc1]), (72, [0x80, 0x2e, 0x00, 0xc1]), (76, [0x80, 0x2e, 0x00, 0xc1]),
    (80, [0x80, 0x2e, 0x00, 0xc1]), (84, [0x80, 0x2e, 0x00, 0xc1]), (88, [0x80, 0x2e, 0x00, 0xc1]),
    (92, [0x80, 0x2e, 0x00, 0xc1])
  ]

  /** Words lie one after the other, low byte first. */
  lemma {:induction false} WordAt(data: seq<u16>, k: nat)
    requires k < |data|
    ensures Words(data)[2 * k] == data[k] % 0x100 && Words(data)[2 * k + 1] == data[k] / 0x100
  {
    if k > 0 {
      WordAt(data[1..], k - 1);
    }
  }

  lemma WordsExactly(data: seq<u16>, bytes: seq<u8>)
    requires |bytes| == 2 * |data|
    requires forall k | 0 <= k < |data| :: bytes[2 * k] == data[k] % 0x100 && bytes[2 * k + 1] == data[k] / 0x100
    ensures Words(data) == bytes
  {
    forall i | 0 <= i < |bytes| ensures Words(data)[i] == bytes[i] {
      WordAt(data, i / 2);
      assert i == 2 * (i / 2) || i == 2 * (i / 2) + 1;
    }
  }

  lemma FormatBytes(n: nat)
    requires n < 14
    ensures var f := Bmi260Format();
            |f.header| == 14 && f.header[n].offset == HEADER_BYTES[n].0 && Words(f.header[n].data) == HEADER_BYTES[n].1
  {
    WordsExactly(Bmi260Format().header[n].data, HEADER_BYTES[n].1);
  }

  /** What is searched for, byte by byte: the marker, and 8192 bytes that start with the header. */
  lemma BlobExactly(b: seq<u8>, i: nat)
    ensures MarkerAt(Bmi260Format(), b, i) <==> BytesAt(b, i, [0xc8, 0x2e, 0x00, 0x2e, 0x80, 0x2e])
    ensures BlobAt(Bmi260Format(), b, i)
       <==> i + 8192 <= |b| && forall n | 0 <= n < 14 :: BytesAt(b, i + HEADER_BYTES[n].0, HEADER_BYTES[n].1)
  {
    var f := Bmi260Format();
    FormatBytes(0);
    forall n | 0 <= n < 14
      ensures SequenceAt(f.header[n], b, i) <==> BytesAt(b, i + HEADER_BYTES[n].0, HEADER_BYTES[n].1)
    {
      FormatBytes(n);
    }
  }

  lemma MarkersApart(f: Format, b: seq<u8>, i: nat, j: nat)
    requires Searchable(f) && MarkerAt(f, b, i) && MarkerAt(f, b, j) && i < j
    ensures i + 6 <= j
  {
    var marker := Words(f.ident);
    assert b[i..i + 6] == marker && b[j] == b[j..j + 6][0] == marker[0];
    assert forall k | i < k < i + 6 :: b[k] == b[i..i + 6][k - i];
  }

  // ----- the program -----

  /** The library's memmem: the least match, or the end. */
  method Locate(b: seq<u8>, first: nat, pattern: seq<u8>) returns (at: nat)
    requires first <= |b| && pattern != []
    ensures first <= at <= |b|
    ensures at < |b| ==> BytesAt(b, at, pattern)
    ensures forall j | first <= j < at :: !BytesAt(b, j, pattern)
  {
    at := first;
    while at + |pattern| <= |b|
      invariant first <= at <= |b|
      invariant forall j | first <= j < at :: !BytesAt(b, j, pattern)
    {
      if b[at..at + |pattern|] == pattern {
        return;
      }
      at := at + 1;
    }
    at := |b|;
  }

  method Check(f: Format, header: seq<u8>) returns (matches: bool)
    requires Searchable(f) && |header| == HEADER_SIZE
    ensures matches <==> HeaderAt(f, header, 0)
  {
    for n := 0 to |f.header|
      invariant forall m | 0 <= m < n :: SequenceAt(f.header[m], header, 0)
    {
      var s := f.header[n];
      var raw := Words(s.data);
      if header[s.offset..s.offset + |raw|] != raw {
        assert !SequenceAt(f.header[n], header, 0);
        return false;
      }
    }
    return true;
  }

  /** `checks` counts the header checks, each of which costs a copy of the header. */
  method Extract(f: Format, buffer: seq<u8>) returns (r: Outcome, ghost checks: nat)
    requires Searchable(f)
    ensures Correct(f, buffer, r)
    ensures 6 * checks <= |buffer| + 6
  {
    var header: seq<u8> := seq(HEADER_SIZE, _ => 0);
    var it := 0;
    checks := 0;
    while true
      invariant 0 <= it <= |buffer|
      invariant forall j | 0 <= j < it :: !BlobAt(f, buffer, j)
      invariant forall j | 0 <= j < it :: MarkerAt(f, buffer, j) ==> j + BLOB_SIZE <= |buffer|
      invariant checks > 0 ==> it >= 1 && MarkerAt(f, buffer, it - 1) && 6 * (checks - 1) <= it - 1
      decreases |buffer| - it
    {
      ghost var previous := it;
      it := Locate(buffer, it, Words(f.ident));
      forall j | previous <= j < it ensures !MarkerAt(f, buffer, j) && !BlobAt(f, buffer, j) {
        HeaderHasMarker(f, buffer, j);
      }
      if it == |buffer| {
        NothingPastTheEnd(f, buffer);
        return BlobNotFound, checks;
      }
      if |buffer| - it < BLOB_SIZE {
        assert MarkerAt(f, buffer, it);
        return NoSpaceLeft, checks;
      }
      header := buffer[it..it + HEADER_SIZE];
      if checks > 0 {
        MarkersApart(f, buffer, previous - 1, it);
      }
      checks := checks + 1;
      HeaderInSlice(f, buffer, it);
      var matches := Check(f, header);
      if matches {
        return Blob(buffer[it..it + BLOB_SIZE], it), checks;
      }
      it := it + 1;
    }
  }

  method ExtractBmi260Fw(buffer: seq<u8>) returns (r: Outcome, ghost checks: nat)
    ensures Correct(Bmi260Format(), buffer, r)
    ensures 6 * checks <= |buffer| + 6
  {
    Bmi260Searchable();
    r, checks := Extract(Bmi260Format(), buffer);
  }

  lemma HeaderHasMarker(f: Format, b: seq<u8>, i: nat)
    requires Searchable(f)
    ensures HeaderAt(f, b, i) ==> MarkerAt(f, b, i)
  {
  }

  lemma NothingPastTheEnd(f: Format, b: seq<u8>)
    requires Searchable(f)
    ensures forall j: nat | j >= |b| :: !BlobAt(f, b, j) && !MarkerAt(f, b, j)
  {
  }

  /** Checking the copied header is checking the file at the cursor. */
  lemma HeaderInSlice(f: Format, b: seq<u8>, i: nat)
    requires Searchable(f) && i + HEADER_SIZE <= |b|
    ensures HeaderAt(f, b[i..i + HEADER_SIZE], 0) <==> HeaderAt(f, b, i)
  {
    var h := b[i..i + HEADER_SIZE];
    forall n | 0 <= n < |f.header|
      ensures SequenceAt(f.header[n], h, 0) <==> SequenceAt(f.header[n], b, i)
    {
      var s := f.header[n];
      var end := s.offset + |Words(s.data)|;
      SliceOfSlice(b, i, i + HEADER_SIZE, s.offset, end);
    }
  }

  // ----- the naive scan -----

  ghost function NaiveScan(f: Format, b: seq<u8>, i: nat): Outcome
    requires i <= |b|
    decreases |b| - i
  {
    if BlobAt(f, b, i) then Blob(b[i..i + BLOB_SIZE], i)
    else if i < |b| then NaiveScan(f, b, i + 1)
    else if exists j: nat :: MarkerAt(f, b, j) && |b| < j + BLOB_SIZE then NoSpaceLeft
    else BlobNotFound
  }

  lemma {:induction false} NaiveScanCorrect(f: Format, b: seq<u8>, i: nat)
    requires Searchable(f) && i <= |b| && forall j | 0 <= j < i :: !BlobAt(f, b, j)
    ensures Correct(f, b, NaiveScan(f, b, i))
    decreases |b| - i
  {
    if !BlobAt(f, b, i) {
      if i < |b| {
        NaiveScanCorrect(f, b, i + 1);
      } else {
        NothingPastTheEnd(f, b);
      }
    }
  }

  /** The report is determined by the file, so the skip-ahead search is the naive scan. */
  lemma CorrectIsNaiveScan(f: Format, b: seq<u8>, r: Outcome)
    requires Searchable(f)
    ensures Correct(f, b, r) <==> r == NaiveScan(f, b, 0)
  {
    NaiveScanCorrect(f, b, 0);
    var n := NaiveScan(f, b, 0);
    if Correct(f, b, r) && r.Blob? && n.Blob? {
      assert !(r.offset < n.offset) && !(n.offset < r.offset);
    }
  }
}
