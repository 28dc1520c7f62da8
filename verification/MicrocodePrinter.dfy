/**
 The container format as a printer, and the proof that the reader of module Microcode accepts
 exactly the images this printer produces, whatever bytes follow them.
 */
module MicrocodePrinter {
  import opened Bytes
  import opened Microcode
  import opened Wrappers

  function PrintEntry(e: Entry): (b: seq<u8>)
    ensures |b| == ENTRY_SIZE
  {
    Le32(e.installedCpu) + Le32(e.fixedErrataMask) + Le32(e.fixedErrataCompare)
    + Le16(e.equivCpu) + Le16(e.res)
  }

  /** The fields of an entry, byte by byte. */
  lemma EntryBytes(b: seq<u8>, i: nat)
    requires i + 16 <= |b|
    ensures var e := EntryAt(b, i);
            && e.installedCpu == LittleEndian(b[i..i + 4])
            && e.fixedErrataMask == LittleEndian(b[i + 4..i + 8])
            && e.fixedErrataCompare == LittleEndian(b[i + 8..i + 12])
            && e.equivCpu == LittleEndian(b[i + 12..i + 14])
            && e.res == LittleEndian(b[i + 14..i + 16])
  {
    WordsAreLittleEndian(b, i);
    WordsAreLittleEndian(b, i + 4);
    WordsAreLittleEndian(b, i + 8);
    WordsAreLittleEndian(b, i + 12);
    WordsAreLittleEndian(b, i + 14);
  }

  function PrintTable(es: seq<Entry>, terminator: Option<Entry>): (b: seq<u8>)
    ensures |b| == ENTRY_SIZE * (|es| + if terminator.Some? then 1 else 0)
  {
    if es != [] then PrintEntry(es[0]) + PrintTable(es[1..], terminator)
    else if terminator.Some? then PrintEntry(terminator.value)
    else []
  }

  function PrintPatch(p: Payload): (b: seq<u8>)
    ensures |b| == INNER_HEADER_SIZE + |p|
  {
    Le32(UCODE_TYPE) + Le32(|p|) + p
  }

  function PrintPatches(ps: seq<Payload>): (b: seq<u8>)
    ensures ps != [] ==> |b| >= INNER_HEADER_SIZE + |ps[|ps| - 1]|
  {
    if ps == [] then [] else PrintPatch(ps[0]) + PrintPatches(ps[1..])
  }

  /** The table ends by filling its slots or, before that, at an entry for CPU 0. */
  ghost predicate ValidTable(slots: nat, es: seq<Entry>, terminator: Option<Entry>) {
    && (forall i | 0 <= i < |es| :: es[i].installedCpu != 0)
    && match terminator
       case None => |es| == slots
       case Some(t) => t.installedCpu == 0 && |es| < slots
  }

  ghost predicate Valid(c: Container) {
    && ENTRY_SIZE * c.slots < 0x1_0000_0000
    && ValidTable(c.slots, c.entries, c.terminator)
    && |c.payloads| == |c.entries|
  }

  function Print(c: Container): seq<u8>
    requires ENTRY_SIZE * c.slots < 0x1_0000_0000
  {
    Le32(MAGIC) + Le32(EQUIV_CPU_TABLE_TYPE) + Le32(ENTRY_SIZE * c.slots)
    + PrintTable(c.entries, c.terminator) + PrintPatches(c.payloads)
  }

  /**
   The reader wants 64 bytes to be left at the start of each payload, however short the payload
   is. Only the last one can miss them.
   */
  predicate RoomForHeader(ps: seq<Payload>, trailing: nat) {
    ps == [] || |ps[|ps| - 1]| + trailing >= MICROCODE_HEADER_SIZE
  }

  ghost predicate PrefixAt(b: seq<u8>, lo: nat, hi: nat, text: seq<u8>) {
    hi == lo + |text| <= |b| && b[lo..hi] == text
  }

  lemma PrefixSplits(b: seq<u8>, lo: nat, hi: nat, left: seq<u8>, right: seq<u8>)
    requires lo + |left| <= |b|
    ensures PrefixAt(b, lo, hi, left + right)
       <==> PrefixAt(b, lo, lo + |left|, left) && PrefixAt(b, lo + |left|, hi, right)
  {
    var mid := lo + |left|;
    if hi == mid + |right| <= |b| {
      assert b[lo..hi] == b[lo..mid] + b[mid..hi];
      assert (left + right)[..|left|] == left && (left + right)[|left|..] == right;
    }
  }

  lemma EntryExactly(b: seq<u8>, i: nat, e: Entry)
    requires i + ENTRY_SIZE <= |b|
    ensures EntryAt(b, i) == e <==> PrefixAt(b, i, i + ENTRY_SIZE, PrintEntry(e))
  {
    var w := b[i..i + ENTRY_SIZE];
    assert w == b[i..i + 4] + b[i + 4..i + 8] + b[i + 8..i + 12] + b[i + 12..i + 14] + b[i + 14..i + 16];
    if EntryAt(b, i) == e {
      Le32OfU32At(b, i);
      Le32OfU32At(b, i + 4);
      Le32OfU32At(b, i + 8);
      Le16OfU16At(b, i + 12);
      Le16OfU16At(b, i + 14);
    }
    if w == PrintEntry(e) {
      assert w[0..4] == b[i..i + 4] && w[4..8] == b[i + 4..i + 8] && w[8..12] == b[i + 8..i + 12];
      SliceOfSlice(b, i, i + 16, 12, 14);
      SliceOfSlice(b, i, i + 16, 14, 16);
      U32AtOfLe32(b, i, e.installedCpu);
      U32AtOfLe32(b, i + 4, e.fixedErrataMask);
      U32AtOfLe32(b, i + 8, e.fixedErrataCompare);
      U16AtOfLe16(b, i + 12, e.equivCpu);
      U16AtOfLe16(b, i + 14, e.res);
    }
  }

  ghost predicate TableMatches(b: seq<u8>, pos: nat, slots: nat, t: Table) {
    ValidTable(slots, t.entries, t.terminator) && PrefixAt(b, pos, t.end, PrintTable(t.entries, t.terminator))
  }

  lemma {:induction false} ReadTableSound(b: seq<u8>, pos: nat, slots: nat)
    requires pos <= |b| && ReadTable(b, pos, slots).Ok?
    ensures TableMatches(b, pos, slots, ReadTable(b, pos, slots).value)
    decreases slots
  {
    if slots > 0 {
      var e := EntryAt(b, pos);
      EntryExactly(b, pos, e);
      if e.installedCpu != 0 {
        ReadTableSound(b, pos + ENTRY_SIZE, slots - 1);
        var t := ReadTable(b, pos, slots).value;
        PrefixSplits(b, pos, t.end, PrintEntry(e), PrintTable(t.entries[1..], t.terminator));
      }
    }
  }

  lemma EntryReads(b: seq<u8>, pos: nat, slots: nat, e: Entry)
    requires slots > 0 && PrefixAt(b, pos, pos + ENTRY_SIZE, PrintEntry(e))
    ensures ReadTable(b, pos, slots)
         == if e.installedCpu == 0 then Ok(Table([], Some(e), pos + ENTRY_SIZE))
            else AddEntry(e, ReadTable(b, pos + ENTRY_SIZE, slots - 1))
  {
    EntryExactly(b, pos, e);
  }

  lemma TableSplits(b: seq<u8>, pos: nat, slots: nat, t: Table)
    requires pos <= |b| && TableMatches(b, pos, slots, t) && t.entries != []
    ensures slots > 0 && t.entries[0].installedCpu != 0
    ensures PrefixAt(b, pos, pos + ENTRY_SIZE, PrintEntry(t.entries[0]))
    ensures TableMatches(b, pos + ENTRY_SIZE, slots - 1, t.(entries := t.entries[1..]))
  {
    PrefixSplits(b, pos, t.end, PrintEntry(t.entries[0]), PrintTable(t.entries[1..], t.terminator));
  }

  lemma {:induction false} ReadTableComplete(b: seq<u8>, pos: nat, slots: nat, t: Table)
    requires pos <= |b| && TableMatches(b, pos, slots, t)
    ensures ReadTable(b, pos, slots) == Ok(t)
    decreases slots
  {
    if t.entries != [] {
      TableSplits(b, pos, slots, t);
      ReadTableComplete(b, pos + ENTRY_SIZE, slots - 1, t.(entries := t.entries[1..]));
      EntryReads(b, pos, slots, t.entries[0]);
      assert t.entries == [t.entries[0]] + t.entries[1..];
    } else if t.terminator.Some? {
      EntryReads(b, pos, slots, t.terminator.value);
    }
  }

  ghost predicate PatchesMatch(b: seq<u8>, pos: nat, count: nat, ps: Patches) {
    && |ps.payloads| == count
    && PrefixAt(b, pos, ps.end, PrintPatches(ps.payloads))
    && RoomForHeader(ps.payloads, |b| - ps.end)
  }

  lemma PatchExactly(b: seq<u8>, pos: nat, p: Payload)
    requires pos <= |b|
    ensures PatchAt(b, pos) == Ok(p)
       <==> PrefixAt(b, pos, pos + INNER_HEADER_SIZE + |p|, PrintPatch(p))
            && |b| - pos - INNER_HEADER_SIZE >= MICROCODE_HEADER_SIZE
  {
    if pos + INNER_HEADER_SIZE <= |b| {
      var header := Le32(UCODE_TYPE) + Le32(|p|);
      assert PrintPatch(p) == header + p;
      PrefixSplits(b, pos, pos + INNER_HEADER_SIZE + |p|, header, p);
      PrefixSplits(b, pos, pos + INNER_HEADER_SIZE, Le32(UCODE_TYPE), Le32(|p|));
      Le32OfU32At(b, pos);
      Le32OfU32At(b, pos + 4);
      if b[pos..pos + 4] == Le32(UCODE_TYPE) && b[pos + 4..pos + 8] == Le32(|p|) {
        U32AtOfLe32(b, pos, UCODE_TYPE);
        U32AtOfLe32(b, pos + 4, |p|);
      }
    }
  }

  lemma PatchesSplit(b: seq<u8>, pos: nat, count: nat, p: Payload, rest: seq<Payload>, end: nat)
    requires pos <= |b| && count > 0
    ensures PatchesMatch(b, pos, count, Patches([p] + rest, end))
       <==> PatchAt(b, pos) == Ok(p)
            && PatchesMatch(b, pos + INNER_HEADER_SIZE + |p|, count - 1, Patches(rest, end))
  {
    PatchExactly(b, pos, p);
    var all := [p] + rest;
    assert all[1..] == rest && PrintPatches(all) == PrintPatch(p) + PrintPatches(rest);
    if pos + INNER_HEADER_SIZE + |p| <= |b| {
      PrefixSplits(b, pos, end, PrintPatch(p), PrintPatches(rest));
    }
  }

  lemma {:induction false} ReadPatchesSound(b: seq<u8>, pos: nat, count: nat)
    requires pos <= |b| && ReadPatches(b, pos, count).Ok?
    ensures PatchesMatch(b, pos, count, ReadPatches(b, pos, count).value)
    decreases count
  {
    if count > 0 {
      var p := PatchAt(b, pos).value;
      var next := pos + INNER_HEADER_SIZE + |p|;
      ReadPatchesSound(b, next, count - 1);
      var rest := ReadPatches(b, next, count - 1).value;
      PatchesSplit(b, pos, count, p, rest.payloads, rest.end);
    }
  }

  lemma PatchesTail(b: seq<u8>, pos: nat, ps: Patches)
    requires pos <= |b| && ps.payloads != [] && PatchesMatch(b, pos, |ps.payloads|, ps)
    ensures PatchAt(b, pos) == Ok(ps.payloads[0])
    ensures var next := pos + INNER_HEADER_SIZE + |ps.payloads[0]|;
            next <= |b| && PatchesMatch(b, next, |ps.payloads| - 1, Patches(ps.payloads[1..], ps.end))
  {
    assert ps.payloads == [ps.payloads[0]] + ps.payloads[1..];
    PatchesSplit(b, pos, |ps.payloads|, ps.payloads[0], ps.payloads[1..], ps.end);
  }

  /** The reader gets past `payloads` and stands at `end`. */
  predicate Reaches(b: seq<u8>, pos: nat, payloads: seq<Payload>, end: nat)
    requires pos <= |b|
    decreases |payloads|
  {
    if payloads == [] then end == pos
    else
      && PatchAt(b, pos) == Ok(payloads[0])
      && Reaches(b, pos + INNER_HEADER_SIZE + |payloads[0]|, payloads[1..], end)
  }

  lemma {:induction false} MatchReaches(b: seq<u8>, pos: nat, ps: Patches)
    requires pos <= |b| && PatchesMatch(b, pos, |ps.payloads|, ps)
    ensures Reaches(b, pos, ps.payloads, ps.end)
    decreases |ps.payloads|
  {
    if ps.payloads != [] {
      PatchesTail(b, pos, ps);
      MatchReaches(b, pos + INNER_HEADER_SIZE + |ps.payloads[0]|, Patches(ps.payloads[1..], ps.end));
    }
  }

  lemma {:induction false} ReachedReads(b: seq<u8>, pos: nat, payloads: seq<Payload>, end: nat)
    requires pos <= |b| && Reaches(b, pos, payloads, end)
    ensures ReadPatches(b, pos, |payloads|) == Ok(Patches(payloads, end))
    decreases |payloads|
  {
    if payloads != [] {
      ReachedReads(b, pos + INNER_HEADER_SIZE + |payloads[0]|, payloads[1..], end);
      assert [payloads[0]] + payloads[1..] == payloads;
    }
  }

  lemma ReadPatchesComplete(b: seq<u8>, pos: nat, payloads: seq<Payload>, end: nat)
    requires pos <= |b| && PatchesMatch(b, pos, |payloads|, Patches(payloads, end))
    ensures ReadPatches(b, pos, |payloads|) == Ok(Patches(payloads, end))
  {
    MatchReaches(b, pos, Patches(payloads, end));
    ReachedReads(b, pos, payloads, end);
  }

  // ----- the main results -----

  /** The image starts with a printed container, and enough bytes follow the last payload's start. */
  ghost predicate Accepts(b: seq<u8>, c: Container, consumed: nat) {
    && Valid(c)
    && PrefixAt(b, 0, consumed, Print(c))
    && RoomForHeader(c.payloads, |b| - consumed)
  }

  ghost predicate HeaderMatches(b: seq<u8>, slots: nat)
    requires |b| >= OUTER_HEADER_SIZE
  {
    U32At(b, 0) == MAGIC && U32At(b, 4) == EQUIV_CPU_TABLE_TYPE && U32At(b, 8) == ENTRY_SIZE * slots
  }

  lemma HeaderExactly(b: seq<u8>, slots: nat)
    requires |b| >= OUTER_HEADER_SIZE && ENTRY_SIZE * slots < 0x1_0000_0000
    ensures HeaderMatches(b, slots)
       <==> PrefixAt(b, 0, 12, Le32(MAGIC) + Le32(EQUIV_CPU_TABLE_TYPE) + Le32(ENTRY_SIZE * slots))
  {
    var first, second, third := Le32(MAGIC), Le32(EQUIV_CPU_TABLE_TYPE), Le32(ENTRY_SIZE * slots);
    PrefixSplits(b, 0, 12, first + second, third);
    PrefixSplits(b, 0, 8, first, second);
    Le32OfU32At(b, 0);
    Le32OfU32At(b, 4);
    Le32OfU32At(b, 8);
    if b[0..4] == first && b[4..8] == second && b[8..12] == third {
      U32AtOfLe32(b, 0, MAGIC);
      U32AtOfLe32(b, 4, EQUIV_CPU_TABLE_TYPE);
      U32AtOfLe32(b, 8, ENTRY_SIZE * slots);
    }
  }

  /** Splits a printed container at its three parts. */
  lemma PrintSplits(b: seq<u8>, c: Container, consumed: nat, tableEnd: nat)
    requires |b| >= OUTER_HEADER_SIZE && ENTRY_SIZE * c.slots < 0x1_0000_0000
    requires tableEnd == OUTER_HEADER_SIZE + |PrintTable(c.entries, c.terminator)|
    ensures PrefixAt(b, 0, consumed, Print(c))
       <==> HeaderMatches(b, c.slots)
            && PrefixAt(b, OUTER_HEADER_SIZE, tableEnd, PrintTable(c.entries, c.terminator))
            && PrefixAt(b, tableEnd, consumed, PrintPatches(c.payloads))
  {
    var header := Le32(MAGIC) + Le32(EQUIV_CPU_TABLE_TYPE) + Le32(ENTRY_SIZE * c.slots);
    var table := PrintTable(c.entries, c.terminator);
    var patches := PrintPatches(c.payloads);
    HeaderExactly(b, c.slots);
    assert Print(c) == (header + table) + patches;
    if tableEnd <= |b| {
      PrefixSplits(b, 0, consumed, header + table, patches);
      PrefixSplits(b, 0, tableEnd, header, table);
    }
  }

  lemma AcceptsByParts(b: seq<u8>, c: Container, consumed: nat, tableEnd: nat)
    requires |b| >= OUTER_HEADER_SIZE && Valid(c)
    requires tableEnd == OUTER_HEADER_SIZE + |PrintTable(c.entries, c.terminator)|
    ensures Accepts(b, c, consumed)
       <==> HeaderMatches(b, c.slots)
            && TableMatches(b, OUTER_HEADER_SIZE, c.slots, Table(c.entries, c.terminator, tableEnd))
            && PatchesMatch(b, tableEnd, |c.entries|, Patches(c.payloads, consumed))
  {
    PrintSplits(b, c, consumed, tableEnd);
  }

  /** The reader accepts an image as a container exactly when the image is that container printed. */
  lemma ParsesExactly(b: seq<u8>, c: Container, consumed: nat)
    ensures ParseImage(b) == Ok(Parsed(c, consumed)) <==> Accepts(b, c, consumed)
  {
    if ParseImage(b) == Ok(Parsed(c, consumed)) {
      ParseSound(b, c, consumed);
    }
    if Accepts(b, c, consumed) {
      ParseComplete(b, c, consumed);
    }
  }

  /** The successful path through the reader. */
  ghost predicate ReadsAs(b: seq<u8>, c: Container, consumed: nat, tableEnd: nat) {
    && OUTER_HEADER_SIZE <= |b|
    && ENTRY_SIZE * c.slots < 0x1_0000_0000
    && HeaderMatches(b, c.slots)
    && tableEnd <= |b|
    && ReadTable(b, OUTER_HEADER_SIZE, c.slots) == Ok(Table(c.entries, c.terminator, tableEnd))
    && ReadPatches(b, tableEnd, |c.entries|) == Ok(Patches(c.payloads, consumed))
  }

  lemma HeaderThenBody(b: seq<u8>, slots: nat)
    requires |b| >= OUTER_HEADER_SIZE && HeaderMatches(b, slots)
    ensures ParseImage(b) == ParseBody(b, slots)
  {
    assert U32At(b, 8) / ENTRY_SIZE == slots;
  }

  lemma ParseReads(b: seq<u8>, c: Container, consumed: nat) returns (tableEnd: nat)
    requires ParseImage(b) == Ok(Parsed(c, consumed))
    ensures ReadsAs(b, c, consumed, tableEnd)
  {
    HeaderThenBody(b, U32At(b, 8) / ENTRY_SIZE);
    tableEnd := ReadTable(b, OUTER_HEADER_SIZE, c.slots).value.end;
  }

  lemma ReadsParse(b: seq<u8>, c: Container, consumed: nat, tableEnd: nat)
    requires ReadsAs(b, c, consumed, tableEnd)
    ensures ParseImage(b) == Ok(Parsed(c, consumed))
  {
    HeaderThenBody(b, c.slots);
  }

  lemma ParseSound(b: seq<u8>, c: Container, consumed: nat)
    requires ParseImage(b) == Ok(Parsed(c, consumed))
    ensures Accepts(b, c, consumed)
  {
    var tableEnd := ParseReads(b, c, consumed);
    ReadTableSound(b, OUTER_HEADER_SIZE, c.slots);
    ReadPatchesSound(b, tableEnd, |c.entries|);
    AcceptsByParts(b, c, consumed, tableEnd);
  }

  lemma ParseComplete(b: seq<u8>, c: Container, consumed: nat)
    requires Accepts(b, c, consumed)
    ensures ParseImage(b) == Ok(Parsed(c, consumed))
  {
    var tableEnd := OUTER_HEADER_SIZE + |PrintTable(c.entries, c.terminator)|;
    AcceptsByParts(b, c, consumed, tableEnd);
    ReadTableComplete(b, OUTER_HEADER_SIZE, c.slots, Table(c.entries, c.terminator, tableEnd));
    ReadPatchesComplete(b, tableEnd, c.payloads, consumed);
    ReadsParse(b, c, consumed, tableEnd);
  }

  lemma PatchShort(b: seq<u8>, pos: nat, p: Payload)
    requires pos <= |b| && PrefixAt(b, pos, pos + INNER_HEADER_SIZE + |p|, PrintPatch(p))
    ensures PatchAt(b, pos) == if |b| - pos - INNER_HEADER_SIZE < MICROCODE_HEADER_SIZE then Err(ShortMicrocodeHeader)
                               else Ok(p)
  {
    PatchExactly(b, pos, p);
    PrefixSplits(b, pos, pos + INNER_HEADER_SIZE + |p|, Le32(UCODE_TYPE), Le32(|p|) + p);
    assert PrintPatch(p) == Le32(UCODE_TYPE) + (Le32(|p|) + p);
    U32AtOfLe32(b, pos, UCODE_TYPE);
  }

  ghost predicate LacksRoom(b: seq<u8>, pos: nat, payloads: seq<Payload>, end: nat) {
    PrefixAt(b, pos, end, PrintPatches(payloads)) && !RoomForHeader(payloads, |b| - end)
  }

  lemma FirstOfShort(b: seq<u8>, pos: nat, payloads: seq<Payload>, end: nat)
    requires pos <= |b| && end <= |b| && LacksRoom(b, pos, payloads, end)
    ensures payloads != []
    ensures PatchAt(b, pos) == Ok(payloads[0]) || PatchAt(b, pos) == Err(ShortMicrocodeHeader)
    ensures PatchAt(b, pos).Ok? ==>
            |payloads| > 1 && LacksRoom(b, pos + INNER_HEADER_SIZE + |payloads[0]|, payloads[1..], end)
  {
    var p, rest := payloads[0], payloads[1..];
    PrefixSplits(b, pos, end, PrintPatch(p), PrintPatches(rest));
    PatchShort(b, pos, p);
    if rest != [] {
      assert rest[|rest| - 1] == payloads[|payloads| - 1];
    }
  }

  /** The reader gets past some of `payloads` and then misses a patch header. */
  predicate StopsShort(b: seq<u8>, pos: nat, payloads: seq<Payload>)
    requires pos <= |b|
    decreases |payloads|
  {
    && payloads != []
    && (PatchAt(b, pos) == Err(ShortMicrocodeHeader)
        || (PatchAt(b, pos) == Ok(payloads[0])
            && StopsShort(b, pos + INNER_HEADER_SIZE + |payloads[0]|, payloads[1..])))
  }

  lemma {:induction false} LacksRoomStops(b: seq<u8>, pos: nat, payloads: seq<Payload>, end: nat)
    requires pos <= |b| && end <= |b| && LacksRoom(b, pos, payloads, end)
    ensures StopsShort(b, pos, payloads)
    decreases |payloads|
  {
    FirstOfShort(b, pos, payloads, end);
    if PatchAt(b, pos).Ok? {
      LacksRoomStops(b, pos + INNER_HEADER_SIZE + |payloads[0]|, payloads[1..], end);
    }
  }

  lemma {:induction false} StopsShortReads(b: seq<u8>, pos: nat, payloads: seq<Payload>)
    requires pos <= |b| && StopsShort(b, pos, payloads)
    ensures ReadPatches(b, pos, |payloads|) == Err(ShortMicrocodeHeader)
    decreases |payloads|
  {
    if PatchAt(b, pos).Ok? {
      StopsShortReads(b, pos + INNER_HEADER_SIZE + |payloads[0]|, payloads[1..]);
    }
  }

  /**
   Parsing a printed container gives it back, whatever follows, if the last payload and what follows
   make up 64 bytes; otherwise it always fails for lack of a patch header.
   */
  lemma {:induction false} ParseOfPrint(c: Container, trailing: seq<u8>)
    requires Valid(c)
    ensures ParseImage(Print(c) + trailing)
         == if RoomForHeader(c.payloads, |trailing|) then Ok(Parsed(c, |Print(c)|)) else Err(ShortMicrocodeHeader)
  {
    var b := Print(c) + trailing;
    if RoomForHeader(c.payloads, |trailing|) {
      ParsesExactly(b, c, |Print(c)|);
    } else {
      var tableEnd := OUTER_HEADER_SIZE + |PrintTable(c.entries, c.terminator)|;
      PrintSplits(b, c, |Print(c)|, tableEnd);
      ReadTableComplete(b, OUTER_HEADER_SIZE, c.slots, Table(c.entries, c.terminator, tableEnd));
      LacksRoomStops(b, tableEnd, c.payloads, |Print(c)|);
      StopsShortReads(b, tableEnd, c.payloads);
      HeaderThenBody(b, c.slots);
    }
  }

  /** One entry and one empty patch, with nothing after it: a valid container that is refused. */
  lemma ShortContainerRefused()
    ensures var c := Container(1, [Entry(1, 0, 0, 0, 0)], None, [[]]);
            Valid(c) && ParseImage(Print(c)) == Err(ShortMicrocodeHeader)
  {
    var c := Container(1, [Entry(1, 0, 0, 0, 0)], None, [[]]);
    ParseOfPrint(c, []);
    assert Print(c) + [] == Print(c);
  }

  /** Printing is injective. */
  lemma PrintInjective(c: Container, d: Container)
    requires Valid(c) && Valid(d) && Print(c) == Print(d)
    ensures c == d
  {
    var trailing: seq<u8> := seq(MICROCODE_HEADER_SIZE, _ => 0);
    ParseOfPrint(c, trailing);
    ParseOfPrint(d, trailing);
  }

  /** The errors that say the file ended too early, rather than that its content is wrong. */
  predicate Shortage(e: Error) {
    e in {EmptyFile, NoOuterHeader, ShortEntry, ShortInnerHeader, ShortMicrocodeHeader, ShortPayload}
  }

  predicate Decided<T>(r: Result<T, Error>) {
    r.Err? ==> !Shortage(r.error)
  }

  lemma WordsExtend(b: seq<u8>, trailing: seq<u8>, i: nat)
    ensures i + 4 <= |b| ==> U32At(b + trailing, i) == U32At(b, i)
    ensures i + ENTRY_SIZE <= |b| ==> EntryAt(b + trailing, i) == EntryAt(b, i)
  {
  }

  lemma {:induction false} ReadTableExtends(b: seq<u8>, trailing: seq<u8>, pos: nat, slots: nat)
    requires pos <= |b| && Decided(ReadTable(b, pos, slots))
    ensures ReadTable(b + trailing, pos, slots) == ReadTable(b, pos, slots)
    decreases slots
  {
    WordsExtend(b, trailing, pos);
    if slots > 0 && EntryAt(b, pos).installedCpu != 0 {
      ReadTableExtends(b, trailing, pos + ENTRY_SIZE, slots - 1);
    }
  }

  lemma PatchExtends(b: seq<u8>, trailing: seq<u8>, pos: nat)
    requires pos <= |b| && Decided(PatchAt(b, pos))
    ensures PatchAt(b + trailing, pos) == PatchAt(b, pos)
  {
    WordsExtend(b, trailing, pos);
    WordsExtend(b, trailing, pos + 4);
    match PatchAt(b, pos) {
      case Err(_) =>
      case Ok(p) =>
        var start := pos + INNER_HEADER_SIZE;
        assert (b + trailing)[start..start + |p|] == b[start..start + |p|];
    }
  }

  lemma {:induction false} ReadPatchesExtends(b: seq<u8>, trailing: seq<u8>, pos: nat, count: nat)
    requires pos <= |b| && Decided(ReadPatches(b, pos, count))
    ensures ReadPatches(b + trailing, pos, count) == ReadPatches(b, pos, count)
    decreases count
  {
    if count > 0 {
      PatchExtends(b, trailing, pos);
      match PatchAt(b, pos) {
        case Err(_) =>
        case Ok(p) => ReadPatchesExtends(b, trailing, pos + INNER_HEADER_SIZE + |p|, count - 1);
      }
    }
  }

  /** Once a file is accepted or refused for its content, no bytes appended to it change that. */
  lemma {:induction false} ParseExtends(b: seq<u8>, trailing: seq<u8>)
    requires Decided(ParseImage(b))
    ensures ParseImage(b + trailing) == ParseImage(b)
  {
    WordsExtend(b, trailing, 0);
    WordsExtend(b, trailing, 4);
    WordsExtend(b, trailing, 8);
    if ENTRY_SIZE <= |b| + 4 && U32At(b, 8) % ENTRY_SIZE == 0 {
      var slots := U32At(b, 8) / ENTRY_SIZE;
      var table := ReadTable(b, OUTER_HEADER_SIZE, slots);
      if Decided(table) {
        ReadTableExtends(b, trailing, OUTER_HEADER_SIZE, slots);
        if table.Ok? && Decided(ReadPatches(b, table.value.end, |table.value.entries|)) {
          ReadPatchesExtends(b, trailing, table.value.end, |table.value.entries|);
        }
      }
    }
  }

  /** Every strict prefix of what an accepted image consumes is refused as too short. */
  lemma ParsePrefixRejected(b: seq<u8>, r: Parsed, n: nat)
    requires ParseImage(b) == Ok(r) && n < r.consumed
    ensures n <= |b| && ParseImage(b[..n]).Err? && Shortage(ParseImage(b[..n]).error)
  {
    ParsesExactly(b, r.container, r.consumed);
    assert b[..n] + b[n..] == b;
    if Decided(ParseImage(b[..n])) {
      ParseExtends(b[..n], b[n..]);
      PrefixConsumes(b[..n], r);
      assert false;
    }
  }

  lemma PrefixConsumes(b: seq<u8>, r: Parsed)
    requires ParseImage(b) == Ok(r)
    ensures r.consumed <= |b|
  {
    ParsesExactly(b, r.container, r.consumed);
  }

  function PayloadBytes(ps: seq<Payload>): nat {
    if ps == [] then 0 else INNER_HEADER_SIZE + |ps[0]| + PayloadBytes(ps[1..])
  }

  lemma {:induction false} PrintPatchesLength(ps: seq<Payload>)
    ensures |PrintPatches(ps)| == PayloadBytes(ps)
  {
    if ps != [] {
      PrintPatchesLength(ps[1..]);
    }
  }

  /** What an accepted image consumes, in closed form, with one patch for each entry. */
  lemma ConsumedBytes(b: seq<u8>)
    requires ParseImage(b).Ok?
    ensures var r := ParseImage(b).value;
            && |r.container.payloads| == |r.container.entries|
            && r.consumed <= |b|
            && r.consumed
               == OUTER_HEADER_SIZE
                + ENTRY_SIZE * (|r.container.entries| + if r.container.terminator.Some? then 1 else 0)
                + PayloadBytes(r.container.payloads)
  {
    var r := ParseImage(b).value;
    ParsesExactly(b, r.container, r.consumed);
    PrintPatchesLength(r.container.payloads);
  }
}
