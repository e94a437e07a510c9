/** The program map section parser of the MPEG-2 transport stream demuxer
    (cobalt/media/formats/mp2t/ts_section_pmt.cc), which reads the
    TS_program_map_section of ISO/IEC 13818-1, section 2.4.4.8.

    The section is read through a `BitReader`; its body
    (cobalt/media/base/bit_reader.h) is not part of this model, so it is a
    sequence of bits with a cursor, read most significant bit first, where a
    read or skip past the end fails. `RCHECK` (mp2t_common.h, not part of
    this model) returns false from the parser when its condition fails. The
    registration callback appends to a list. */
module TsSectionPmt {
  import opened Wrappers

  // ---------------------------------------------------------------------
  // Bits

  /** The unsigned number a run of bits spells, most significant first. */
  function Value(bits: seq<bool>): (v: nat)
  {
    if bits == [] then 0 else 2 * Value(bits[..|bits| - 1]) + (if bits[|bits| - 1] then 1 else 0)
  }

  /** The `n`-bit field at bit `at`. */
  function Field(data: seq<bool>, at: nat, n: nat): nat
    requires at + n <= |data|
  {
    Value(data[at..at + n])
  }

  /** A field is determined by the bits it covers. */
  lemma FieldAgree(data: seq<bool>, other: seq<bool>, k: nat, at: nat, n: nat)
    requires k <= |data| && k <= |other| && data[..k] == other[..k] && at + n <= k
    ensures Field(data, at, n) == Field(other, at, n)
  {
    assert data[at..at + n] == data[..k][at..at + n];
    assert other[at..at + n] == other[..k][at..at + n];
  }

  /** `BitReader`: the section's bits and the read position. */
  class BitReader {
    const data: seq<bool>
    var pos: nat

    ghost predicate Valid()
      reads this
    {
      pos <= |data|
    }

    constructor (data: seq<bool>)
      ensures this.data == data && pos == 0 && Valid()
    {
      this.data := data;
      pos := 0;
    }

    /** `bits_available()`: the bits after the cursor, which with those
        already read make up the whole section. */
    function BitsAvailable(): (r: nat)
      reads this
      requires Valid()
      ensures pos + r == |data|
    {
      |data| - pos
    }

    /** `ReadBits(n, &v)`: fails when fewer than `n` bits are left, else
        reads the next `n` bits as an unsigned number. */
    method ReadBits(n: nat) returns (ok: bool, v: nat)
      requires Valid()
      modifies this`pos
      ensures Valid()
      ensures ok <==> n <= old(BitsAvailable())
      ensures ok ==> pos == old(pos) + n && v == Field(data, old(pos), n)
      ensures !ok ==> pos == old(pos)
    {
      if n > |data| - pos {
        return false, 0;
      }
      v := 0;
      var i := 0;
      while i < n
        invariant i <= n && v == Value(data[pos..pos + i])
      {
        assert data[pos..pos + i + 1][..i] == data[pos..pos + i];
        v := 2 * v + (if data[pos + i] then 1 else 0);
        i := i + 1;
      }
      pos := pos + n;
      ok := true;
    }

    /** `SkipBits(n)`: fails when fewer than `n` bits are left. */
    method SkipBits(n: nat) returns (ok: bool)
      requires Valid()
      modifies this`pos
      ensures Valid()
      ensures ok <==> n <= old(BitsAvailable())
      ensures ok ==> pos == old(pos) + n
      ensures !ok ==> pos == old(pos)
    {
      if n > |data| - pos {
        return false;
      }
      pos := pos + n;
      ok := true;
    }
  }

  // ---------------------------------------------------------------------
  // The section, as a function of the bits from the read position `p`

  const PmtTableId: nat := 0x02
  const MaxSectionLength: nat := 1021
  /** `program_info_length` must be below this. */
  const ProgramInfoLengthLimit: nat := 1024
  /** The fixed part up to `last_section_number`, and up to
      `program_info_length`. */
  const HeaderBits: nat := 64
  const FixedBits: nat := 96
  /** One elementary stream entry before its descriptors. */
  const EsEntryBits: nat := 40
  const CrcBits: nat := 32

  /** One elementary stream of the PMT; also what is registered. */
  datatype EsEntry = EsEntry(pid: nat, streamType: nat)

  /** The checks made on the first 64 bits: a PMT table id, the syntax
      indicator set, the zero bit clear, a section length of at most 1021
      and a single section. */
  predicate HeaderChecks(data: seq<bool>, p: nat)
    requires p + HeaderBits <= |data|
  {
    Field(data, p, 8) == PmtTableId && Field(data, p + 8, 1) != 0 && Field(data, p + 9, 1) == 0 &&
    Field(data, p + 12, 12) <= MaxSectionLength && Field(data, p + 48, 8) == 0 && Field(data, p + 56, 8) == 0
  }

  /** `section_length`. */
  function SectionLength(data: seq<bool>, p: nat): nat
    requires p + HeaderBits <= |data|
  {
    Field(data, p + 12, 12)
  }

  /** `section_start_marker`: the bytes available after `section_length`. */
  function StartMarker(data: seq<bool>, p: nat): int
    requires p + 24 <= |data|
  {
    (|data| - (p + 24)) / 8
  }

  /** `program_info_length`. */
  function ProgramInfoLength(data: seq<bool>, p: nat): nat
    requires p + FixedBits <= |data|
  {
    Field(data, p + 84, 12)
  }

  /** The fixed part reads and passes its checks, and the program info
      descriptors that follow it fit. */
  predicate FixedPartOk(data: seq<bool>, p: nat)
  {
    p + FixedBits <= |data| && HeaderChecks(data, p) &&
    ProgramInfoLength(data, p) < ProgramInfoLengthLimit &&
    8 * ProgramInfoLength(data, p) <= |data| - (p + FixedBits)
  }

  /** The field values of the entry at `pos`. */
  function EntryAt(data: seq<bool>, pos: nat): EsEntry
    requires pos + EsEntryBits <= |data|
  {
    EsEntry(Field(data, pos + 11, 13), Field(data, pos, 8))
  }

  /** `es_info_length` of the entry at `pos`. */
  function EsInfoLength(data: seq<bool>, pos: nat): nat
    requires pos + EsEntryBits <= |data|
  {
    Field(data, pos + 28, 12)
  }

  /** The elementary stream loop from `pos`: while more than
      `8 * endMarker` bits are left an entry is read and its descriptors
      skipped. The result is where the loop stopped and the entries read
      after `acc`; `None` when a read or skip fails. */
  function EsLoop(data: seq<bool>, pos: nat, endMarker: int, acc: seq<EsEntry>): Option<(nat, seq<EsEntry>)>
    requires pos <= |data|
    decreases |data| - pos
  {
    if |data| - pos <= 8 * endMarker then Some((pos, acc))
    else if |data| - pos < EsEntryBits then None
    else if 8 * EsInfoLength(data, pos) > |data| - (pos + EsEntryBits) then None
    else EsLoop(data, pos + EsEntryBits + 8 * EsInfoLength(data, pos), endMarker, acc + [EntryAt(data, pos)])
  }

  /** `pid_map_end_marker`. */
  function EndMarker(data: seq<bool>, p: nat): int
    requires p + HeaderBits <= |data|
  {
    StartMarker(data, p) - SectionLength(data, p) + 4
  }

  /** Where the loop starts: after the program info descriptors. */
  function LoopStart(data: seq<bool>, p: nat): nat
    requires FixedPartOk(data, p)
  {
    p + FixedBits + 8 * ProgramInfoLength(data, p)
  }

  /** What `ParsePsiSection` does with the bits from `p`: the entries of
      the section when every read and check succeeds, the CRC included;
      `None` when it returns false. */
  function ParsedEntries(data: seq<bool>, p: nat): Option<seq<EsEntry>>
  {
    if !FixedPartOk(data, p) then None
    else match EsLoop(data, LoopStart(data, p), EndMarker(data, p), [])
      case None => None
      case Some(stop) => if |data| - stop.0 < CrcBits then None else Some(stop.1)
  }

  /** `pid_map` after the entries: `insert` keeps the first stream type
      seen for a PID. */
  function Collect(entries: seq<EsEntry>): map<nat, nat>
  {
    if entries == [] then map[]
    else
      var m := Collect(entries[..|entries| - 1]);
      var e := entries[|entries| - 1];
      if e.pid in m then m else m[e.pid := e.streamType]
  }

  /** The smallest element of a non-empty set. */
  ghost function SetMin(s: set<nat>): (k: nat)
    requires s != {}
    ensures k in s && forall j :: j in s ==> k <= j
  {
    var x :| x in s;
    if s - {x} == {} then
      assert forall j :: j in s ==> j == x || j in s - {x};
      x
    else
      var y := SetMin(s - {x});
      assert forall j :: j in s ==> j == x || j in s - {x};
      if x < y then x else y
  }

  /** The registrations of the keys `keys` of `m`, in ascending order, as
      the iteration over the `std::map` makes them. */
  ghost function InOrder(m: map<nat, nat>, keys: set<nat>): seq<EsEntry>
    requires keys <= m.Keys
    decreases keys
  {
    if keys == {} then []
    else
      var k := SetMin(keys);
      [EsEntry(k, m[k])] + InOrder(m, keys - {k})
  }

  /** Everything a section registers. */
  ghost function Registrations(entries: seq<EsEntry>): seq<EsEntry>
  {
    InOrder(Collect(entries), Collect(entries).Keys)
  }

  // ---------------------------------------------------------------------
  // The parser

  class TsSectionPmtParser {
    /** The calls made to `register_pes_cb_`, in order. */
    var registered: seq<EsEntry>

    constructor ()
      ensures registered == []
    {
      registered := [];
    }

    /** `ParsePsiSection`: true exactly when the whole section reads and
        passes its checks; only then, and only after the CRC, are the PIDs
        registered, once each, in ascending order. */
    method ParsePsiSection(reader: BitReader) returns (ok: bool)
      requires reader.Valid()
      modifies this`registered, reader`pos
      ensures reader.Valid()
      ensures ok <==> ParsedEntries(reader.data, old(reader.pos)).Some?
      ensures ok ==> registered == old(registered) + Registrations(ParsedEntries(reader.data, old(reader.pos)).value)
      ensures !ok ==> registered == old(registered)
    {
      ghost var p := reader.pos;
      var ok1, sectionLength, startMarker := ReadHeader(reader);
      if !ok1 {
        return false;
      }
      var ok2 := ReadFixedPart(reader, p);
      if !ok2 {
        return false;
      }
      var pidMapEndMarker := startMarker - sectionLength + 4;
      var ok3, pidMap, entries := ReadEsLoop(reader, pidMapEndMarker);
      if !ok3 {
        return false;
      }
      var ok4, crc32 := reader.ReadBits(CrcBits);
      if !ok4 {
        return false;
      }
      Register(pidMap);
      ok := true;
    }

    /** Registers the PIDs of `pidMap` in ascending order. */
    method Register(pidMap: map<nat, nat>)
      modifies this`registered
      ensures registered == old(registered) + InOrder(pidMap, pidMap.Keys)
    {
      var keys := pidMap.Keys;
      while keys != {}
        invariant keys <= pidMap.Keys
        invariant registered + InOrder(pidMap, keys) == old(registered) + InOrder(pidMap, pidMap.Keys)
        decreases keys
      {
        ghost var least := SetMin(keys);
        var pid :| pid in keys && forall k :: k in keys ==> pid <= k;
        assert pid == least;
        registered := registered + [EsEntry(pid, pidMap[pid])];
        keys := keys - {pid};
      }
    }

    /** `ResetPsiSection`: there is no state to reset. */
    method ResetPsiSection()
      ensures unchanged(this)
    {
    }
  }

  /** The reads up to `last_section_number` and the checks on them. */
  method ReadHeader(reader: BitReader) returns (ok: bool, sectionLength: nat, startMarker: int)
    requires reader.Valid()
    modifies reader`pos
    ensures reader.Valid()
    ensures ok <==> old(reader.pos) + HeaderBits <= |reader.data| && HeaderChecks(reader.data, old(reader.pos))
    ensures ok ==> reader.pos == old(reader.pos) + HeaderBits &&
                   sectionLength == SectionLength(reader.data, old(reader.pos)) &&
                   startMarker == StartMarker(reader.data, old(reader.pos))
  {
    sectionLength, startMarker := 0, 0;
    var okId, tableId := reader.ReadBits(8);
    if !okId { return false, 0, 0; }
    var okSyntax, sectionSyntaxIndicator := reader.ReadBits(1);
    if !okSyntax { return false, 0, 0; }
    var okZero, dummyZero := reader.ReadBits(1);
    if !okZero { return false, 0, 0; }
    var okReserved, reserved := reader.ReadBits(2);
    if !okReserved { return false, 0, 0; }
    var okLength, length := reader.ReadBits(12);
    if !okLength { return false, 0, 0; }
    var marker := reader.BitsAvailable() / 8;
    ok, sectionLength, startMarker := ReadSectionNumbers(reader, tableId, sectionSyntaxIndicator, dummyZero, length);
    if ok {
      startMarker := marker;
    }
  }

  /** The second half of `ReadHeader`, from `program_number`. */
  method ReadSectionNumbers(reader: BitReader, tableId: nat, sectionSyntaxIndicator: nat, dummyZero: nat, length: nat)
    returns (ok: bool, sectionLength: nat, startMarker: int)
    requires reader.Valid() && reader.pos >= 24
    requires tableId == Field(reader.data, reader.pos - 24, 8) && sectionSyntaxIndicator == Field(reader.data, reader.pos - 16, 1)
    requires dummyZero == Field(reader.data, reader.pos - 15, 1) && length == Field(reader.data, reader.pos - 12, 12)
    modifies reader`pos
    ensures reader.Valid()
    ensures ok <==> old(reader.pos) + 40 <= |reader.data| && HeaderChecks(reader.data, old(reader.pos) - 24)
    ensures ok ==> reader.pos == old(reader.pos) + 40 && sectionLength == length
  {
    sectionLength, startMarker := 0, 0;
    var okProgram, programNumber := reader.ReadBits(16);
    if !okProgram { return false, 0, 0; }
    var okReserved, reserved := reader.ReadBits(2);
    if !okReserved { return false, 0, 0; }
    var okVersion, versionNumber := reader.ReadBits(5);
    if !okVersion { return false, 0, 0; }
    var okCurrent, currentNextIndicator := reader.ReadBits(1);
    if !okCurrent { return false, 0, 0; }
    var okSection, sectionNumber := reader.ReadBits(8);
    if !okSection { return false, 0, 0; }
    var okLast, lastSectionNumber := reader.ReadBits(8);
    if !okLast { return false, 0, 0; }
    ok := tableId == PmtTableId && sectionSyntaxIndicator != 0 && dummyZero == 0 &&
          length <= MaxSectionLength && sectionNumber == 0 && lastSectionNumber == 0;
    sectionLength := length;
  }

  /** The reads from `pcr_pid` to the end of the program info descriptors. */
  method ReadFixedPart(reader: BitReader, ghost p: nat) returns (ok: bool)
    requires reader.Valid() && reader.pos == p + HeaderBits && HeaderChecks(reader.data, p)
    modifies reader`pos
    ensures reader.Valid()
    ensures ok <==> FixedPartOk(reader.data, p)
    ensures ok ==> reader.pos == LoopStart(reader.data, p)
  {
    var okReserved, reserved := reader.ReadBits(3);
    if !okReserved { return false; }
    var okPcr, pcrPid := reader.ReadBits(13);
    if !okPcr { return false; }
    var okReserved2, reserved2 := reader.ReadBits(4);
    if !okReserved2 { return false; }
    var okInfo, programInfoLength := reader.ReadBits(12);
    if !okInfo { return false; }
    if programInfoLength >= ProgramInfoLengthLimit { return false; }
    ok := reader.SkipBits(8 * programInfoLength);
  }

  /** The elementary stream loop, collecting `pid_map`. */
  method ReadEsLoop(reader: BitReader, endMarker: int) returns (ok: bool, pidMap: map<nat, nat>, ghost entries: seq<EsEntry>)
    requires reader.Valid()
    modifies reader`pos
    ensures reader.Valid()
    ensures ok <==> EsLoop(reader.data, old(reader.pos), endMarker, []).Some?
    ensures ok ==> EsLoop(reader.data, old(reader.pos), endMarker, []) == Some((reader.pos, entries)) &&
                   pidMap == Collect(entries)
  {
    ghost var start := reader.pos;
    entries := [];
    pidMap := map[];
    while reader.BitsAvailable() > 8 * endMarker
      invariant reader.Valid() && pidMap == Collect(entries)
      invariant EsLoop(reader.data, reader.pos, endMarker, entries) == EsLoop(reader.data, start, endMarker, [])
      decreases reader.BitsAvailable()
    {
      var okEntry, entry, esInfoLength := ReadEsEntry(reader);
      if !okEntry {
        return false, pidMap, entries;
      }
      assert (entries + [entry])[..|entries|] == entries;
      if entry.pid !in pidMap {
        pidMap := pidMap[entry.pid := entry.streamType];
      }
      entries := entries + [entry];
      var okSkip := reader.SkipBits(8 * esInfoLength);
      if !okSkip {
        return false, pidMap, entries;
      }
    }
    ok := true;
  }

  /** The five reads of one entry. */
  method ReadEsEntry(reader: BitReader) returns (ok: bool, entry: EsEntry, esInfoLength: nat)
    requires reader.Valid()
    modifies reader`pos
    ensures reader.Valid()
    ensures ok <==> old(reader.pos) + EsEntryBits <= |reader.data|
    ensures ok ==> reader.pos == old(reader.pos) + EsEntryBits && entry == EntryAt(reader.data, old(reader.pos)) &&
                   esInfoLength == EsInfoLength(reader.data, old(reader.pos))
  {
    entry, esInfoLength := EsEntry(0, 0), 0;
    var okType, streamType := reader.ReadBits(8);
    if !okType { return false, entry, 0; }
    var okReserved, reserved := reader.ReadBits(3);
    if !okReserved { return false, entry, 0; }
    var okPid, pidEs := reader.ReadBits(13);
    if !okPid { return false, entry, 0; }
    var okReserved2, reserved2 := reader.ReadBits(4);
    if !okReserved2 { return false, entry, 0; }
    var okInfo, infoLength := reader.ReadBits(12);
    if !okInfo { return false, entry, 0; }
    entry, esInfoLength := EsEntry(pidEs, streamType), infoLength;
    ok := true;
  }

  // ---------------------------------------------------------------------
  // Properties of the section

  /** A section that parses has every header field the parser checks at
      its required value. */
  lemma ParsedHeaderChecks(data: seq<bool>, p: nat)
    requires ParsedEntries(data, p).Some?
    ensures p + FixedBits <= |data|
    ensures Field(data, p, 8) == PmtTableId && Field(data, p + 8, 1) != 0 && Field(data, p + 9, 1) == 0
    ensures SectionLength(data, p) <= MaxSectionLength
    ensures Field(data, p + 48, 8) == 0 && Field(data, p + 56, 8) == 0
    ensures ProgramInfoLength(data, p) < ProgramInfoLengthLimit
  {
  }

  /** The loop stops only once at most `8 * endMarker` bits are left, and
      never before `pos`. */
  lemma {:induction false} EsLoopStop(data: seq<bool>, pos: nat, endMarker: int, acc: seq<EsEntry>)
    requires pos <= |data| && EsLoop(data, pos, endMarker, acc).Some?
    ensures var stop := EsLoop(data, pos, endMarker, acc).value;
            pos <= stop.0 <= |data| && |data| - stop.0 <= 8 * endMarker
    decreases |data| - pos
  {
    if |data| - pos > 8 * endMarker {
      EsLoopStop(data, pos + EsEntryBits + 8 * EsInfoLength(data, pos), endMarker, acc + [EntryAt(data, pos)]);
    }
  }

  /** When `section_length` claims more than 4 bytes beyond the data, the
      end marker is negative, the loop can only end in a failed read, and
      the section is rejected. */
  lemma {:induction false} EsLoopNeverStops(data: seq<bool>, pos: nat, endMarker: int, acc: seq<EsEntry>)
    requires pos <= |data| && endMarker < 0
    ensures EsLoop(data, pos, endMarker, acc).None?
    decreases |data| - pos
  {
    if |data| - pos >= EsEntryBits && 8 * EsInfoLength(data, pos) <= |data| - (pos + EsEntryBits) {
      EsLoopNeverStops(data, pos + EsEntryBits + 8 * EsInfoLength(data, pos), endMarker, acc + [EntryAt(data, pos)]);
    }
  }

  lemma OverlongSectionRejected(data: seq<bool>, p: nat)
    requires p + HeaderBits <= |data| && SectionLength(data, p) > StartMarker(data, p) + 4
    ensures ParsedEntries(data, p).None?
  {
    if FixedPartOk(data, p) {
      EsLoopNeverStops(data, LoopStart(data, p), EndMarker(data, p), []);
    }
  }

  /** A reader holding exactly one section (`section_length` bytes after
      the length field): the loop leaves exactly the 4 CRC bytes, so a
      successful parse reads them as the last 32 bits. */
  lemma ExactSectionLeavesCrc(data: seq<bool>, p: nat)
    requires p + HeaderBits <= |data| && |data| == p + 24 + 8 * SectionLength(data, p)
    requires ParsedEntries(data, p).Some?
    ensures EsLoop(data, LoopStart(data, p), EndMarker(data, p), []).value.0 == |data| - CrcBits
  {
    assert StartMarker(data, p) == SectionLength(data, p);
    EsLoopStop(data, LoopStart(data, p), EndMarker(data, p), []);
  }

  /** The loop reads nothing at or beyond where it stops. */
  lemma {:induction false} EsLoopAgree(data: seq<bool>, other: seq<bool>, k: nat, pos: nat, endMarker: int, acc: seq<EsEntry>)
    requires |other| == |data| && k <= |data| && data[..k] == other[..k] && pos <= |data|
    requires EsLoop(data, pos, endMarker, acc).Some? && EsLoop(data, pos, endMarker, acc).value.0 <= k
    ensures EsLoop(other, pos, endMarker, acc) == EsLoop(data, pos, endMarker, acc)
    decreases |data| - pos
  {
    if |data| - pos > 8 * endMarker {
      var next := pos + EsEntryBits + 8 * EsInfoLength(data, pos);
      EsLoopStop(data, next, endMarker, acc + [EntryAt(data, pos)]);
      FieldAgree(data, other, k, pos, 8);
      FieldAgree(data, other, k, pos + 11, 13);
      FieldAgree(data, other, k, pos + 28, 12);
      EsLoopAgree(data, other, k, next, endMarker, acc + [EntryAt(data, pos)]);
    }
  }

  /** The CRC is read but not checked: on a reader holding exactly one
      section, any 32 bits in its place give the same result. */
  lemma CrcNotValidated(data: seq<bool>, other: seq<bool>, p: nat)
    requires p + HeaderBits <= |data| && |data| == p + 24 + 8 * SectionLength(data, p)
    requires |other| == |data| && data[..|data| - CrcBits] == other[..|data| - CrcBits]
    requires ParsedEntries(data, p).Some?
    ensures ParsedEntries(other, p) == ParsedEntries(data, p)
  {
    var k := |data| - CrcBits;
    ExactSectionLeavesCrc(data, p);
    EsLoopStop(data, LoopStart(data, p), EndMarker(data, p), []);
    HeaderAgree(data, other, k, p);
    EsLoopAgree(data, other, k, LoopStart(data, p), EndMarker(data, p), []);
  }

  /** Two sections that agree on the fixed part read the same header,
      fixed part and loop bounds. */
  lemma HeaderAgree(data: seq<bool>, other: seq<bool>, k: nat, p: nat)
    requires |other| == |data| && k <= |data| && data[..k] == other[..k] && FixedPartOk(data, p)
    requires p + FixedBits <= k
    ensures FixedPartOk(other, p) && LoopStart(other, p) == LoopStart(data, p)
    ensures EndMarker(other, p) == EndMarker(data, p)
  {
    FieldAgree(data, other, k, p, 8);
    FieldAgree(data, other, k, p + 8, 1);
    FieldAgree(data, other, k, p + 9, 1);
    FieldAgree(data, other, k, p + 12, 12);
    FieldAgree(data, other, k, p + 48, 8);
    FieldAgree(data, other, k, p + 56, 8);
    FieldAgree(data, other, k, p + 84, 12);
  }

  /** The first entry of its PID. */
  ghost predicate FirstOfPid(entries: seq<EsEntry>, i: nat)
    requires i < |entries|
  {
    forall j :: 0 <= j < i ==> entries[j].pid != entries[i].pid
  }

  /** `pid_map` holds every PID of the entries, with the stream type of the
      first entry that names it. */
  lemma {:induction false} CollectFirstWins(entries: seq<EsEntry>)
    ensures Collect(entries).Keys == set e | e in entries :: e.pid
    ensures forall i :: 0 <= i < |entries| && FirstOfPid(entries, i) ==>
              Collect(entries)[entries[i].pid] == entries[i].streamType
  {
    if entries != [] {
      var init := entries[..|entries| - 1];
      var last := entries[|entries| - 1];
      CollectFirstWins(init);
      assert entries == init + [last];
      forall i | 0 <= i < |entries| && FirstOfPid(entries, i)
        ensures Collect(entries)[entries[i].pid] == entries[i].streamType
      {
        if i < |init| {
          assert init[i] == entries[i];
          assert FirstOfPid(init, i);
        } else {
          assert forall e :: e in init ==> e.pid != last.pid by {
            forall e | e in init ensures e.pid != last.pid {
              var j :| 0 <= j < |init| && init[j] == e;
              assert entries[j] == e;
            }
          }
        }
      }
    }
  }

  /** Strictly ascending PIDs. */
  ghost predicate Ascending(r: seq<EsEntry>)
  {
    forall i, j :: 0 <= i < j < |r| ==> r[i].pid < r[j].pid
  }

  /** Every registration of a map is one of its entries. */
  lemma {:induction false} InOrderFromMap(m: map<nat, nat>, keys: set<nat>)
    requires keys <= m.Keys
    ensures forall e :: e in InOrder(m, keys) ==> e.pid in keys && e.streamType == m[e.pid]
    decreases keys
  {
    if keys != {} {
      InOrderFromMap(m, keys - {SetMin(keys)});
    }
  }

  /** The registrations of a map come in strictly ascending key order. */
  lemma {:induction false} InOrderAscending(m: map<nat, nat>, keys: set<nat>)
    requires keys <= m.Keys
    ensures Ascending(InOrder(m, keys))
    decreases keys
  {
    if keys != {} {
      var k := SetMin(keys);
      var rest := InOrder(m, keys - {k});
      InOrderAscending(m, keys - {k});
      assert Ascending(rest);
      InOrderFromMap(m, keys - {k});
      var r := InOrder(m, keys);
      assert r == [EsEntry(k, m[k])] + rest;
      forall i, j | 0 <= i < j < |r| ensures r[i].pid < r[j].pid {
        assert r[j] == rest[j - 1];
        assert rest[j - 1] in rest;
        if i > 0 {
          assert r[i] == rest[i - 1];
          assert rest[i - 1].pid < rest[j - 1].pid;
        } else {
          assert r[j].pid in keys - {k};
          assert r[i].pid == k;
        }
      }
    }
  }

  /** Every key of the map is registered. */
  lemma {:induction false} InOrderCovers(m: map<nat, nat>, keys: set<nat>)
    requires keys <= m.Keys
    ensures forall q :: q in keys ==> exists e :: e in InOrder(m, keys) && e.pid == q
    decreases keys
  {
    if keys != {} {
      var k := SetMin(keys);
      InOrderCovers(m, keys - {k});
      var r := InOrder(m, keys);
      assert r == [EsEntry(k, m[k])] + InOrder(m, keys - {k});
      assert r[0].pid == k;
      assert forall q :: q in keys ==> q == k || q in keys - {k};
    }
  }

  /** A section registers each distinct PID of its entries exactly once,
      in ascending PID order, with the stream type of its first entry. */
  ghost predicate CoversPids(entries: seq<EsEntry>, r: seq<EsEntry>)
  {
    forall e :: e in entries ==> exists x :: x in r && x.pid == e.pid
  }

  ghost predicate FirstEntries(entries: seq<EsEntry>, r: seq<EsEntry>)
  {
    forall x :: x in r ==> exists j :: 0 <= j < |entries| && entries[j] == x && FirstOfPid(entries, j)
  }

  lemma RegistrationsOnce(entries: seq<EsEntry>)
    ensures Ascending(Registrations(entries))
    ensures CoversPids(entries, Registrations(entries))
    ensures FirstEntries(entries, Registrations(entries))
  {
    var m := Collect(entries);
    var r := Registrations(entries);
    CollectFirstWins(entries);
    InOrderAscending(m, m.Keys);
    assert CoversPids(entries, r) by {
      InOrderCovers(m, m.Keys);
    }
    assert FirstEntries(entries, r) by {
      InOrderFromMap(m, m.Keys);
      forall x | x in r
        ensures exists j :: 0 <= j < |entries| && entries[j] == x && FirstOfPid(entries, j)
      {
        assert x.pid in m.Keys;
        var j := FirstIndex(entries, x.pid);
        assert entries[j] == x;
      }
    }
  }

  /** The index of the first entry naming `pid`. */
  ghost function FirstIndex(entries: seq<EsEntry>, pid: nat): (j: nat)
    requires exists e :: e in entries && e.pid == pid
    ensures j < |entries| && entries[j].pid == pid && FirstOfPid(entries, j)
  {
    if entries[0].pid == pid then 0
    else
      assert exists e :: e in entries[1..] && e.pid == pid by {
        var e :| e in entries && e.pid == pid;
        assert e != entries[0];
      }
      var j := FirstIndex(entries[1..], pid);
      assert FirstOfPid(entries[1..], j);
      1 + j
  }
}
