/**
 Which files the microcode reader refuses, and with which error: for every error exactly the files
 that get it, in terms of literal bytes and of the printer of module MicrocodePrinter.
 */
module MicrocodeErrors {
  import opened Bytes
  import opened Microcode
  import opened MicrocodePrinter
  import opened Wrappers

  const MAGIC_BYTES: seq<u8> := [0x44, 0x4d, 0x41, 0x00]
  const TABLE_TYPE_BYTES: seq<u8> := [0, 0, 0, 0]
  const PATCH_TYPE_BYTES: seq<u8> := [1, 0, 0, 0]

  ghost predicate HeaderFor(b: seq<u8>, slots: nat) {
    && |b| >= 12 && 16 * slots < 0x1_0000_0000
    && b[..12] == MAGIC_BYTES + TABLE_TYPE_BYTES + Le32(16 * slots)
  }

  /** The table breaks off: `entries` fill some of the slots, none is for CPU 0, and no other entry fits. */
  ghost predicate TableBreaksOff(b: seq<u8>, pos: nat, slots: nat, entries: seq<Entry>) {
    && |entries| < slots
    && (forall i | 0 <= i < |entries| :: entries[i].installedCpu != 0)
    && PrefixAt(b, pos, pos + 16 * |entries|, PrintTable(entries, None))
    && |b| - pos - 16 * |entries| < 16
  }

  /** The file is sound up to `ps.end`: header, table, and fewer patches than entries, each with 64 bytes left. */
  ghost predicate SoundUpTo(b: seq<u8>, slots: nat, t: Table, ps: Patches) {
    && HeaderFor(b, slots) && TableMatches(b, 12, slots, t)
    && |ps.payloads| < |t.entries|
    && PatchesMatch(b, t.end, |ps.payloads|, ps)
  }

  /** What is wrong with the patch that should start at `pos`. */
  ghost predicate PatchFault(b: seq<u8>, pos: nat, e: Error) {
    match e
    case ShortInnerHeader => |b| - pos < 8
    case WrongPatchType => pos + 8 <= |b| && b[pos..pos + 4] != PATCH_TYPE_BYTES
    case ShortMicrocodeHeader =>
      pos + 8 <= |b| < pos + 72 && b[pos..pos + 4] == PATCH_TYPE_BYTES
    case ShortPayload =>
      && pos + 72 <= |b| && b[pos..pos + 4] == PATCH_TYPE_BYTES
      && exists size: u32 :: b[pos + 4..pos + 8] == Le32(size) && |b| < pos + 8 + size
    case _ => false
  }

  ghost predicate Fault(b: seq<u8>, e: Error) {
    match e
    case EmptyFile => b == []
    case NoOuterHeader => 0 < |b| < 12
    case WrongMagic => |b| >= 12 && b[..4] != MAGIC_BYTES
    case NoEquivCpuTable => |b| >= 12 && b[..4] == MAGIC_BYTES && b[4..8] != TABLE_TYPE_BYTES
    case WrongTableLength =>
      |b| >= 12 && b[..8] == MAGIC_BYTES + TABLE_TYPE_BYTES && b[8] % 16 != 0
    case ShortEntry =>
      exists slots: nat, entries: seq<Entry> :: HeaderFor(b, slots) && TableBreaksOff(b, 12, slots, entries)
    case _ =>
      exists slots: nat, t: Table, ps: Patches :: SoundUpTo(b, slots, t, ps) && PatchFault(b, ps.end, e)
  }

  // ----- the outer header -----

  lemma MagicBytes(b: seq<u8>, i: nat)
    requires i + 4 <= |b|
    ensures U32At(b, i) == MAGIC <==> b[i..i + 4] == MAGIC_BYTES
    ensures U32At(b, i) == EQUIV_CPU_TABLE_TYPE <==> b[i..i + 4] == TABLE_TYPE_BYTES
    ensures U32At(b, i) == UCODE_TYPE <==> b[i..i + 4] == PATCH_TYPE_BYTES
  {
    assert b[i..i + 4] == [b[i], b[i + 1], b[i + 2], b[i + 3]];
    Le32OfU32At(b, i);
    assert Le32(0x414d44) == [0x44, 0x4d, 0x41, 0x00];
    assert Le32(0) == [0, 0, 0, 0] && Le32(1) == [1, 0, 0, 0];
    if b[i..i + 4] == MAGIC_BYTES {
      U32AtOfLe32(b, i, MAGIC);
    }
    if b[i..i + 4] == TABLE_TYPE_BYTES {
      U32AtOfLe32(b, i, 0);
    }
    if b[i..i + 4] == PATCH_TYPE_BYTES {
      U32AtOfLe32(b, i, 1);
    }
  }

  lemma SizeInSlots(b: seq<u8>)
    requires |b| >= 12
    ensures U32At(b, 8) % 16 == b[8] % 16
  {
    var high := b[9] as int + 0x100 * (b[10] as int) + 0x1_0000 * (b[11] as int);
    assert U32At(b, 8) == b[8] as int + 16 * (16 * high);
  }

  lemma HeaderForMatches(b: seq<u8>, slots: nat)
    requires |b| >= 12
    ensures HeaderFor(b, slots) <==> 16 * slots < 0x1_0000_0000 && HeaderMatches(b, slots)
  {
    if 16 * slots < 0x1_0000_0000 {
      HeaderExactly(b, slots);
      assert Le32(MAGIC) == MAGIC_BYTES && Le32(EQUIV_CPU_TABLE_TYPE) == TABLE_TYPE_BYTES;
      assert b[0..12] == b[..12];
    }
  }

  /** Past the checks of the outer header, the reader is its table and its patches. */
  lemma HeaderDecides(b: seq<u8>)
    requires |b| >= 12
    ensures b[..4] != MAGIC_BYTES ==> ParseImage(b) == Err(WrongMagic)
    ensures b[..4] == MAGIC_BYTES && b[4..8] != TABLE_TYPE_BYTES ==> ParseImage(b) == Err(NoEquivCpuTable)
    ensures b[..4] == MAGIC_BYTES && b[4..8] == TABLE_TYPE_BYTES && b[8] % 16 != 0 ==>
            ParseImage(b) == Err(WrongTableLength)
    ensures b[..4] == MAGIC_BYTES && b[4..8] == TABLE_TYPE_BYTES && b[8] % 16 == 0 ==>
            HeaderFor(b, U32At(b, 8) / 16)
  {
    MagicBytes(b, 0);
    MagicBytes(b, 4);
    SizeInSlots(b);
    assert b[0..4] == b[..4];
    HeaderForMatches(b, U32At(b, 8) / 16);
  }

  lemma HeaderReads(b: seq<u8>, slots: nat)
    requires HeaderFor(b, slots)
    ensures ReadTable(b, 12, slots).Err? ==> ParseImage(b) == Err(ReadTable(b, 12, slots).error)
    ensures ReadTable(b, 12, slots).Ok? ==>
            var table := ReadTable(b, 12, slots).value;
            var patches := ReadPatches(b, table.end, |table.entries|);
            if patches.Err? then ParseImage(b) == Err(patches.error) else ParseImage(b).Ok?
  {
    HeaderForMatches(b, slots);
    HeaderThenBody(b, slots);
  }

  // ----- the table -----

  lemma {:induction false} TableErrorSound(b: seq<u8>, pos: nat, slots: nat) returns (entries: seq<Entry>)
    requires pos <= |b| && ReadTable(b, pos, slots).Err?
    ensures ReadTable(b, pos, slots) == Err(ShortEntry) && TableBreaksOff(b, pos, slots, entries)
    decreases slots
  {
    if |b| - pos < ENTRY_SIZE {
      entries := [];
    } else {
      var e := EntryAt(b, pos);
      var rest := TableErrorSound(b, pos + ENTRY_SIZE, slots - 1);
      entries := [e] + rest;
      EntryExactly(b, pos, e);
      assert entries[1..] == rest;
      PrefixSplits(b, pos, pos + 16 * |entries|, PrintEntry(e), PrintTable(rest, None));
    }
  }

  lemma TableTail(b: seq<u8>, pos: nat, slots: nat, entries: seq<Entry>)
    requires pos <= |b| && TableBreaksOff(b, pos, slots, entries) && entries != []
    ensures PrefixAt(b, pos, pos + ENTRY_SIZE, PrintEntry(entries[0]))
    ensures TableBreaksOff(b, pos + ENTRY_SIZE, slots - 1, entries[1..])
  {
    PrefixSplits(b, pos, pos + 16 * |entries|, PrintEntry(entries[0]), PrintTable(entries[1..], None));
  }

  lemma {:induction false} TableErrorComplete(b: seq<u8>, pos: nat, slots: nat, entries: seq<Entry>)
    requires pos <= |b| && TableBreaksOff(b, pos, slots, entries)
    ensures ReadTable(b, pos, slots) == Err(ShortEntry)
    decreases slots
  {
    if entries != [] {
      TableTail(b, pos, slots, entries);
      EntryReads(b, pos, slots, entries[0]);
      TableErrorComplete(b, pos + ENTRY_SIZE, slots - 1, entries[1..]);
    }
  }

  // ----- the patches -----

  lemma PatchFaultExactly(b: seq<u8>, pos: nat, e: Error)
    requires pos <= |b|
    ensures PatchAt(b, pos) == Err(e) <==> PatchFault(b, pos, e)
  {
    if pos + 8 <= |b| {
      MagicBytes(b, pos);
      Le32OfU32At(b, pos + 4);
      forall size: u32 | b[pos + 4..pos + 8] == Le32(size) ensures size == U32At(b, pos + 4) {
        U32AtOfLe32(b, pos + 4, size);
      }
    }
  }

  lemma NoPatches(b: seq<u8>, pos: nat)
    requires pos <= |b|
    ensures PatchesMatch(b, pos, 0, Patches([], pos))
  {
  }

  lemma {:induction false} PatchesErrorSound(b: seq<u8>, pos: nat, count: nat) returns (ps: Patches)
    requires pos <= |b| && ReadPatches(b, pos, count).Err?
    ensures |ps.payloads| < count && PatchesMatch(b, pos, |ps.payloads|, ps)
    ensures PatchAt(b, ps.end) == Err(ReadPatches(b, pos, count).error)
    decreases count
  {
    if PatchAt(b, pos).Err? {
      ps := Patches([], pos);
    } else {
      var p := PatchAt(b, pos).value;
      var rest := PatchesErrorSound(b, pos + INNER_HEADER_SIZE + |p|, count - 1);
      ps := Patches([p] + rest.payloads, rest.end);
      PatchesSplit(b, pos, |ps.payloads|, p, rest.payloads, rest.end);
    }
  }

  lemma {:induction false} ReachedFault(b: seq<u8>, pos: nat, count: nat, payloads: seq<Payload>, end: nat)
    requires pos <= |b| && |payloads| < count && Reaches(b, pos, payloads, end)
    requires end <= |b| && PatchAt(b, end).Err?
    ensures ReadPatches(b, pos, count) == Err(PatchAt(b, end).error)
    decreases count
  {
    if payloads != [] {
      ReachedFault(b, pos + INNER_HEADER_SIZE + |payloads[0]|, count - 1, payloads[1..], end);
    }
  }

  // ----- the result -----

  lemma FaultOfError(b: seq<u8>, e: Error)
    requires ParseImage(b) == Err(e)
    ensures Fault(b, e)
  {
    if |b| >= 12 {
      HeaderDecides(b);
      if b[..4] == MAGIC_BYTES && b[4..8] == TABLE_TYPE_BYTES {
        assert b[..8] == b[..4] + b[4..8];
        if b[8] % 16 == 0 {
          var slots: nat := U32At(b, 8) / 16;
          HeaderReads(b, slots);
          var table := ReadTable(b, 12, slots);
          if table.Err? {
            var entries := TableErrorSound(b, 12, slots);
          } else {
            ReadTableSound(b, 12, slots);
            var ps := PatchesErrorSound(b, table.value.end, |table.value.entries|);
            PatchFaultExactly(b, ps.end, e);
            assert SoundUpTo(b, slots, table.value, ps);
          }
        }
      }
    }
  }

  lemma ErrorOfFault(b: seq<u8>, e: Error)
    requires Fault(b, e)
    ensures ParseImage(b) == Err(e)
  {
    if e == ShortEntry {
      var slots: nat, entries: seq<Entry> :| HeaderFor(b, slots) && TableBreaksOff(b, 12, slots, entries);
      TableErrorComplete(b, 12, slots, entries);
      HeaderReads(b, slots);
    } else if e in {ShortInnerHeader, WrongPatchType, ShortMicrocodeHeader, ShortPayload} {
      var slots: nat, t: Table, ps: Patches :| SoundUpTo(b, slots, t, ps) && PatchFault(b, ps.end, e);
      ReadTableComplete(b, 12, slots, t);
      PatchFaultExactly(b, ps.end, e);
      MatchReaches(b, t.end, ps);
      ReachedFault(b, t.end, |t.entries|, ps.payloads, ps.end);
      HeaderReads(b, slots);
    } else if |b| >= 12 {
      HeaderDecides(b);
      if e == WrongTableLength {
        assert b[..4] == b[..8][..4] && b[4..8] == b[..8][4..];
      }
    }
  }

  /** The files that get an error are exactly those with that fault. */
  lemma ErrorExactly(b: seq<u8>, e: Error)
    ensures ParseImage(b) == Err(e) <==> Fault(b, e)
  {
    if ParseImage(b) == Err(e) {
      FaultOfError(b, e);
    }
    if Fault(b, e) {
      ErrorOfFault(b, e);
    }
  }
}
