/**
 The AMD microcode container reader (src/amd_microcode.cpp): an outer header, a table of CPU
 entries that may end early at an entry for CPU 0, and one patch for each entry read.
 */
module Microcode {
  import opened Bytes
  import opened Wrappers

  const MAGIC: u32 := 0x414d44
  const EQUIV_CPU_TABLE_TYPE: u32 := 0
  const UCODE_TYPE: u32 := 1

  const OUTER_HEADER_SIZE: nat := 12
  const ENTRY_SIZE: nat := 16
  const INNER_HEADER_SIZE: nat := 8
  const MICROCODE_HEADER_SIZE: nat := 64

  datatype Entry = Entry(
    installedCpu: u32,
    fixedErrataMask: u32,
    fixedErrataCompare: u32,
    equivCpu: u16,
    res: u16
  )

  /** A payload's length is stored in 32 bits. */
  type Payload = p: seq<u8> | |p| < 0x1_0000_0000 witness []

  datatype Error =
    | EmptyFile
    | NoOuterHeader
    | WrongMagic
    | NoEquivCpuTable
    | WrongTableLength
    | ShortEntry
    | ShortInnerHeader
    | WrongPatchType
    | ShortMicrocodeHeader
    | ShortPayload

  /** `terminator` is the entry for CPU 0 that ended the table, if one did. */
  datatype Table = Table(entries: seq<Entry>, terminator: Option<Entry>, end: nat)

  datatype Patches = Patches(payloads: seq<Payload>, end: nat)

  /** `slots` is the number of entries the outer header announces. */
  datatype Container = Container(
    slots: nat,
    entries: seq<Entry>,
    terminator: Option<Entry>,
    payloads: seq<Payload>
  )

  datatype Parsed = Parsed(container: Container, consumed: nat)

  // ----- the format, read recursively -----

  function EntryAt(b: seq<u8>, i: nat): Entry
    requires i + ENTRY_SIZE <= |b|
  {
    Entry(U32At(b, i), U32At(b, i + 4), U32At(b, i + 8), U16At(b, i + 12), U16At(b, i + 14))
  }

  function AddEntry(e: Entry, r: Result<Table, Error>): Result<Table, Error> {
    match r
    case Ok(t) => Ok(t.(entries := [e] + t.entries))
    case Err(_) => r
  }

  function ReadTable(b: seq<u8>, pos: nat, slots: nat): (r: Result<Table, Error>)
    requires pos <= |b|
    ensures r.Ok? ==> pos <= r.value.end <= |b|
    decreases slots
  {
    if slots == 0 then Ok(Table([], None, pos))
    else if |b| - pos < ENTRY_SIZE then Err(ShortEntry)
    else
      var e := EntryAt(b, pos);
      if e.installedCpu == 0 then Ok(Table([], Some(e), pos + ENTRY_SIZE))
      else AddEntry(e, ReadTable(b, pos + ENTRY_SIZE, slots - 1))
  }

  function PatchAt(b: seq<u8>, pos: nat): (r: Result<Payload, Error>)
    requires pos <= |b|
    ensures r.Ok? ==> pos + INNER_HEADER_SIZE + |r.value| <= |b|
  {
    if |b| - pos < INNER_HEADER_SIZE then Err(ShortInnerHeader)
    else if U32At(b, pos) != UCODE_TYPE then Err(WrongPatchType)
    else if |b| - pos - INNER_HEADER_SIZE < MICROCODE_HEADER_SIZE then Err(ShortMicrocodeHeader)
    else if |b| - pos - INNER_HEADER_SIZE < U32At(b, pos + 4) then Err(ShortPayload)
    else Ok(b[pos + INNER_HEADER_SIZE..pos + INNER_HEADER_SIZE + U32At(b, pos + 4)])
  }

  function AddPatch(p: Payload, r: Result<Patches, Error>): Result<Patches, Error> {
    match r
    case Ok(ps) => Ok(ps.(payloads := [p] + ps.payloads))
    case Err(_) => r
  }

  function ReadPatches(b: seq<u8>, pos: nat, count: nat): Result<Patches, Error>
    requires pos <= |b|
    decreases count
  {
    if count == 0 then Ok(Patches([], pos))
    else
      match PatchAt(b, pos)
      case Err(e) => Err(e)
      case Ok(p) => AddPatch(p, ReadPatches(b, pos + INNER_HEADER_SIZE + |p|, count - 1))
  }

  /** The table of `slots` entries, and the patches. */
  function ParseBody(b: seq<u8>, slots: nat): Result<Parsed, Error>
    requires OUTER_HEADER_SIZE <= |b|
  {
    match ReadTable(b, OUTER_HEADER_SIZE, slots)
    case Err(e) => Err(e)
    case Ok(t) =>
      match ReadPatches(b, t.end, |t.entries|)
      case Err(e) => Err(e)
      case Ok(ps) => Ok(Parsed(Container(slots, t.entries, t.terminator, ps.payloads), ps.end))
  }

  function ParseImage(b: seq<u8>): Result<Parsed, Error> {
    if |b| == 0 then Err(EmptyFile)
    else if |b| < OUTER_HEADER_SIZE then Err(NoOuterHeader)
    else if U32At(b, 0) != MAGIC then Err(WrongMagic)
    else if U32At(b, 4) != EQUIV_CPU_TABLE_TYPE then Err(NoEquivCpuTable)
    else if U32At(b, 8) % ENTRY_SIZE != 0 then Err(WrongTableLength)
    else ParseBody(b, U32At(b, 8) / ENTRY_SIZE)
  }

  // ----- the program -----

  /**
   The loops over a cursor and a count of the bytes left. The cursor and the count always add up to
   the length of the file, so no copy leaves the buffer.
   */
  method Parse(image: seq<u8>) returns (r: Result<Parsed, Error>)
    ensures r == ParseImage(image)
  {
    if |image| == 0 {
      return Err(EmptyFile);
    }
    var buffer: nat, available: nat := 0, |image|;
    if available < OUTER_HEADER_SIZE {
      return Err(NoOuterHeader);
    }
    var magic, tableType, tableLen := U32At(image, 0), U32At(image, 4), U32At(image, 8);
    buffer, available := buffer + OUTER_HEADER_SIZE, available - OUTER_HEADER_SIZE;
    if magic != MAGIC {
      return Err(WrongMagic);
    }
    if tableType != EQUIV_CPU_TABLE_TYPE {
      return Err(NoEquivCpuTable);
    }
    if tableLen % ENTRY_SIZE != 0 {
      return Err(WrongTableLength);
    }
    var numEntries := tableLen / ENTRY_SIZE;
    var table := TableLoop(image, buffer, available, numEntries);
    match table {
      case Err(e) => return Err(e);
      case Ok(t) =>
        var patches := PatchLoop(image, t.end, |image| - t.end, t.entries);
        match patches {
          case Err(e) => return Err(e);
          case Ok(ps) =>
            return Ok(Parsed(Container(numEntries, t.entries, t.terminator, ps.payloads), ps.end));
        }
    }
  }

  method TableLoop(image: seq<u8>, pos: nat, left: nat, numEntries: nat) returns (r: Result<Table, Error>)
    requires pos + left == |image|
    ensures r == ReadTable(image, pos, numEntries)
  {
    var buffer: nat, available: nat := pos, left;
    var entries: seq<Entry> := [];
    ghost var whole := ReadTable(image, pos, numEntries);
    ghost var rest := whole;
    assert rest.Ok? ==> [] + rest.value.entries == rest.value.entries;
    for i := 0 to numEntries
      invariant buffer + available == |image|
      invariant rest == ReadTable(image, buffer, numEntries - i)
      invariant whole == AddEntries(entries, rest)
    {
      if available < ENTRY_SIZE {
        return Err(ShortEntry);
      }
      var entry := EntryAt(image, buffer);
      buffer, available := buffer + ENTRY_SIZE, available - ENTRY_SIZE;
      if entry.installedCpu == 0 {
        assert entries + [] == entries;
        return Ok(Table(entries, Some(entry), buffer));
      }
      rest := ReadTable(image, buffer, numEntries - i - 1);
      AddEntriesStep(entries, entry, rest);
      entries := entries + [entry];
    }
    assert entries + [] == entries;
    return Ok(Table(entries, None, buffer));
  }

  method PatchLoop(image: seq<u8>, pos: nat, left: nat, entries: seq<Entry>) returns (r: Result<Patches, Error>)
    requires pos + left == |image|
    ensures r == ReadPatches(image, pos, |entries|)
  {
    var buffer: nat, available: nat := pos, left;
    var payloads: seq<Payload> := [];
    ghost var whole := ReadPatches(image, pos, |entries|);
    ghost var rest := whole;
    assert rest.Ok? ==> [] + rest.value.payloads == rest.value.payloads;
    for k := 0 to |entries|
      invariant buffer + available == |image|
      invariant rest == ReadPatches(image, buffer, |entries| - k)
      invariant whole == AddPatches(payloads, rest)
    {
      if available < INNER_HEADER_SIZE {
        return Err(ShortInnerHeader);
      }
      var patchType, patchSize := U32At(image, buffer), U32At(image, buffer + 4);
      buffer, available := buffer + INNER_HEADER_SIZE, available - INNER_HEADER_SIZE;
      if patchType != UCODE_TYPE {
        return Err(WrongPatchType);
      }
      if available < MICROCODE_HEADER_SIZE {
        return Err(ShortMicrocodeHeader);
      }
      if available < patchSize {
        return Err(ShortPayload);
      }
      var payload := image[buffer..buffer + patchSize];
      buffer, available := buffer + patchSize, available - patchSize;
      rest := ReadPatches(image, buffer, |entries| - k - 1);
      AddPatchesStep(payloads, payload, rest);
      payloads := payloads + [payload];
    }
    assert payloads + [] == payloads;
    return Ok(Patches(payloads, buffer));
  }

  /** The entries read so far, put before what the rest of the table gives. */
  ghost function AddEntries(es: seq<Entry>, r: Result<Table, Error>): Result<Table, Error> {
    match r
    case Ok(t) => Ok(t.(entries := es + t.entries))
    case Err(_) => r
  }

  lemma AddEntriesStep(es: seq<Entry>, e: Entry, r: Result<Table, Error>)
    ensures AddEntries(es, AddEntry(e, r)) == AddEntries(es + [e], r)
  {
    assert r.Ok? ==> es + ([e] + r.value.entries) == (es + [e]) + r.value.entries;
  }

  ghost function AddPatches(ps: seq<Payload>, r: Result<Patches, Error>): Result<Patches, Error> {
    match r
    case Ok(q) => Ok(q.(payloads := ps + q.payloads))
    case Err(_) => r
  }

  lemma AddPatchesStep(ps: seq<Payload>, p: Payload, r: Result<Patches, Error>)
    ensures AddPatches(ps, AddPatch(p, r)) == AddPatches(ps + [p], r)
  {
    assert r.Ok? ==> ps + ([p] + r.value.payloads) == (ps + [p]) + r.value.payloads;
  }
}
