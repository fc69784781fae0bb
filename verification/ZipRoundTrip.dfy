/** What the ZIP writer (cli/zip.ts) is to produce, and that a reader gets everything back from it. */
module ZipRoundTrip {
  import opened Crc32
  import opened ZipFormat
  import opened Wrappers

  /** A file to pack: the size it was listed with, and what its two readings return, read by read. */
  datatype ZipInput = ZipInput(name: Bytes, size: nat, forCrc: seq<Bytes>, forData: seq<Bytes>)
  {
    function Crc(): nat { Checksum(Concat(forCrc), 0) as int }

    function Data(): Bytes { Concat(forData) }

    /** The file kept the size its header promises, and its name fits the length field. */
    predicate Good() { |name| <= 0xffff && |Data()| == size }

    /** As packed: stamped with the first moment of the format's calendar, and needing version 2.0. */
    function File(): ZipFile { ZipFile(name, Crc(), Data(), Stamp(1980, 1, 1, 0, 0, 0), 20) }
  }

  const ZIP32_MAX_BYTES := 0xffffffff
  const ZIP32_MAX_ENTRIES := 0xffff

  function Local(e: ZipInput): Bytes {
    LocalHeader(e.name, e.size, e.Crc()) + e.Data()
  }

  function Locals(entries: seq<ZipInput>): Bytes {
    if |entries| == 0 then [] else Locals(entries[..|entries| - 1]) + Local(entries[|entries| - 1])
  }

  /** A directory header: it points at where its file's local header starts. */
  function HeaderAt(entries: seq<ZipInput>, i: nat): Bytes
    requires i < |entries|
  {
    var e := entries[i];
    CentralHeader(e.name, e.size, e.Crc(), |Locals(entries[..i])|)
  }

  function Central(entries: seq<ZipInput>): Bytes {
    if |entries| == 0 then [] else Central(entries[..|entries| - 1]) + HeaderAt(entries, |entries| - 1)
  }

  function Archive(entries: seq<ZipInput>): Bytes {
    Locals(entries) + Central(entries) + EndRecord(|entries|, |Central(entries)|, |Locals(entries)|)
  }

  function TotalSize(entries: seq<ZipInput>): nat {
    if |entries| == 0 then 0 else TotalSize(entries[..|entries| - 1]) + entries[|entries| - 1].size
  }

  function Overhead(entries: seq<ZipInput>): nat {
    if |entries| == 0 then EOCD_SIZE
    else Overhead(entries[..|entries| - 1]) + LOCAL_HEADER_SIZE + CENTRAL_HEADER_SIZE + 2 * |entries[|entries| - 1].name|
  }

  /** What guardZip32 lets through. */
  predicate Guarded(entries: seq<ZipInput>) {
    |entries| <= 65535 && TotalSize(entries) + Overhead(entries) <= 4294967295
  }

  predicate Packable(entries: seq<ZipInput>) {
    Guarded(entries) && forall e | e in entries :: e.Good()
  }

  function Files(entries: seq<ZipInput>): seq<ZipFile> {
    seq(|entries|, i requires 0 <= i < |entries| => entries[i].File())
  }

  lemma LocalFieldsLayout(nameLength: nat, size: nat, crc: nat)
    ensures Widths(LocalFields(nameLength, size, crc)) == LOCAL_LAYOUT
    ensures Values(LocalFields(nameLength, size, crc))
         == [LOCAL_SIGNATURE, VERSION, FLAG_UTF8, STORED, DOS_TIME, DOS_DATE, crc, size, size, nameLength, 0]
  {
  }

  lemma CentralFieldsLayout(nameLength: nat, size: nat, crc: nat, offset: nat)
    ensures Widths(CentralFields(nameLength, size, crc, offset)) == CENTRAL_LAYOUT
    ensures Values(CentralFields(nameLength, size, crc, offset))
         == [CENTRAL_SIGNATURE, VERSION, VERSION, FLAG_UTF8, STORED, DOS_TIME, DOS_DATE, crc, size, size,
             nameLength, 0, 0, 0, 0, 0, offset]
  {
  }

  lemma LocalFieldsShape(nameLength: nat, size: nat, crc: nat)
    ensures Widths(LocalFields(nameLength, size, crc)) == LOCAL_LAYOUT
    ensures |Pack(LocalFields(nameLength, size, crc))| == LOCAL_HEADER_SIZE
    ensures Values(LocalFields(nameLength, size, crc))
         == [LOCAL_SIGNATURE, VERSION, FLAG_UTF8, STORED, DOS_TIME, DOS_DATE, crc, size, size, nameLength, 0]
  {
    hide Widths, Values, Pack, Total, LocalFields;
    LocalFieldsLayout(nameLength, size, crc);
    PackLength(LocalFields(nameLength, size, crc));
    Layouts();
  }

  lemma CentralFieldsShape(nameLength: nat, size: nat, crc: nat, offset: nat)
    ensures Widths(CentralFields(nameLength, size, crc, offset)) == CENTRAL_LAYOUT
    ensures |Pack(CentralFields(nameLength, size, crc, offset))| == CENTRAL_HEADER_SIZE
    ensures Values(CentralFields(nameLength, size, crc, offset))
         == [CENTRAL_SIGNATURE, VERSION, VERSION, FLAG_UTF8, STORED, DOS_TIME, DOS_DATE, crc, size, size,
             nameLength, 0, 0, 0, 0, 0, offset]
  {
    hide Widths, Values, Pack, Total, CentralFields;
    CentralFieldsLayout(nameLength, size, crc, offset);
    PackLength(CentralFields(nameLength, size, crc, offset));
    Layouts();
  }

  lemma EndFieldsShape(count: nat, size: nat, offset: nat)
    ensures Widths(EndFields(count, size, offset)) == END_LAYOUT
    ensures |EndRecord(count, size, offset)| == EOCD_SIZE
    ensures Values(EndFields(count, size, offset)) == [END_SIGNATURE, 0, 0, count, count, size, offset, 0]
  {
    PackLength(EndFields(count, size, offset));
    Layouts();
  }

  // --- Lengths ---

  lemma HeaderLengths(e: ZipInput, offset: nat)
    ensures |LocalHeader(e.name, e.size, e.Crc())| == LOCAL_HEADER_SIZE + |e.name|
    ensures |CentralHeader(e.name, e.size, e.Crc(), offset)| == CENTRAL_HEADER_SIZE + |e.name|
  {
    LocalFieldsShape(|e.name|, e.size, e.Crc());
    CentralFieldsShape(|e.name|, e.size, e.Crc(), offset);
  }

  /** The up-front estimate is exact: the headers and the data add up to it. */
  lemma {:induction false} EstimateIsExact(entries: seq<ZipInput>)
    requires forall e | e in entries :: e.Good()
    ensures |Locals(entries)| + |Central(entries)| + EOCD_SIZE == TotalSize(entries) + Overhead(entries)
  {
    hide LocalHeader, CentralHeader;
    if |entries| > 0 {
      var init, e := entries[..|entries| - 1], entries[|entries| - 1];
      assert e in entries;
      EstimateIsExact(init);
      HeaderLengths(e, |Locals(init)|);
    }
  }

  lemma ArchiveLength(entries: seq<ZipInput>)
    requires forall e | e in entries :: e.Good()
    ensures |Archive(entries)| == TotalSize(entries) + Overhead(entries)
  {
    EstimateIsExact(entries);
    EndFieldsShape(|entries|, |Central(entries)|, |Locals(entries)|);
  }

  // --- Reading back ---

  lemma CrcRange(e: ZipInput)
    ensures e.Crc() < Range(4)
  {
    Ranges();
  }

  /** The local header is read where it was put, and the data after it. */
  lemma ReadLocalBack(e: ZipInput, b: Bytes, offset: nat)
    requires e.Good() && e.size <= ZIP32_MAX_BYTES
    requires offset + |Local(e)| <= |b| && b[offset..offset + |Local(e)|] == Local(e)
    ensures ReadLocal(b, offset, e.name, e.Crc(), e.size) == Some(e.Data())
  {
    hide Pack, Unpack, Widths, Values, ZipInput.Crc, ZipInput.Data;
    var fields := LocalFields(|e.name|, e.size, e.Crc());
    var rest := b[offset + |Local(e)|..];
    LocalFieldsShape(|e.name|, e.size, e.Crc());
    CrcRange(e);
    Ranges();
    Layouts();
    assert b[offset..] == Local(e) + rest;
    assert b[offset..] == Pack(fields) + (e.name + e.Data() + rest);
    UnpackOfPack(fields, e.name + e.Data() + rest);
    assert b[offset + LOCAL_HEADER_SIZE..] == e.name + e.Data() + rest;
    var start := offset + LOCAL_HEADER_SIZE + |e.name|;
    assert b[start..] == e.Data() + rest;
    assert b[start..start + e.size] == e.Data();
  }

  /** The directory from its `i`th header on. */
  function CentralFrom(entries: seq<ZipInput>, i: nat): Bytes
    requires i <= |entries|
    decreases |entries| - i
  {
    if i == |entries| then []
    else
      HeaderAt(entries, i) + CentralFrom(entries, i + 1)
  }

  lemma HeaderOfPrefix(entries: seq<ZipInput>, i: nat)
    requires i < |entries|
    ensures entries[..i + 1][..i] == entries[..i] && HeaderAt(entries[..i + 1], i) == HeaderAt(entries, i)
  {
    hide CentralHeader, Locals;
  }

  lemma {:induction false} CentralSplits(entries: seq<ZipInput>, i: nat)
    requires i <= |entries|
    ensures Central(entries) == Central(entries[..i]) + CentralFrom(entries, i)
    decreases |entries| - i
  {
    hide HeaderAt;
    if i == |entries| {
      assert entries[..i] == entries;
    } else {
      CentralSplits(entries, i + 1);
      HeaderOfPrefix(entries, i);
    }
  }

  /** A file's local header starts after everything before it. */
  lemma {:induction false} LocalAt(entries: seq<ZipInput>, i: nat)
    requires i < |entries|
    ensures
      var start := |Locals(entries[..i])|;
      start + |Local(entries[i])| <= |Locals(entries)| && Locals(entries)[start..start + |Local(entries[i])|] == Local(entries[i])
  {
    hide Local;
    var n := |entries| - 1;
    var init := entries[..n];
    if i < n {
      LocalAt(init, i);
      assert init[..i] == entries[..i];
      var start, end := |Locals(init[..i])|, |Locals(init[..i])| + |Local(entries[i])|;
      assert Locals(entries)[start..end] == Locals(init)[start..end];
    }
  }

  lemma {:induction false} SizesBound(entries: seq<ZipInput>, i: nat)
    requires i < |entries| && Packable(entries)
    ensures entries[i].size <= ZIP32_MAX_BYTES && |Locals(entries[..i])| <= ZIP32_MAX_BYTES
  {
    hide Central, Local;
    EstimateIsExact(entries);
    LocalAt(entries, i);
    assert entries[i] in entries;
    HeaderLengths(entries[i], 0);
    assert |Local(entries[i])| == LOCAL_HEADER_SIZE + |entries[i].name| + entries[i].size by { LocalLength(entries[i]); }
  }

  lemma LocalLength(e: ZipInput)
    requires e.Good()
    ensures |Local(e)| == LOCAL_HEADER_SIZE + |e.name| + e.size
  {
    hide LocalHeader;
    HeaderLengths(e, 0);
  }

  /** One header of the directory, read from the front of what is left of it. */
  lemma ReadCentralBack(e: ZipInput, offset: nat, rest: Bytes)
    requires |e.name| <= 0xffff && e.size <= ZIP32_MAX_BYTES && offset <= ZIP32_MAX_BYTES
    ensures
      var header := CentralHeader(e.name, e.size, e.Crc(), offset);
      && |header| == CENTRAL_HEADER_SIZE + |e.name|
      && (Layouts();
          var f := Unpack(header + rest, CENTRAL_LAYOUT);
          && f[0] == CENTRAL_SIGNATURE && f[2] == VERSION && f[3] == FLAG_UTF8 && f[4] == STORED && f[5] == DOS_TIME && f[6] == DOS_DATE
          && f[7] == e.Crc() && f[8] == f[9] == e.size
          && f[10] == |e.name| && f[11] == 0 && f[12] == 0 && f[13] == 0 && f[16] == offset)
      && (header + rest)[CENTRAL_HEADER_SIZE..][..|e.name|] == e.name
      && (header + rest)[CENTRAL_HEADER_SIZE + |e.name|..] == rest
  {
    hide Pack, Unpack, Widths, Values, ZipInput.Crc;
    var fields := CentralFields(|e.name|, e.size, e.Crc(), offset);
    CentralFieldsShape(|e.name|, e.size, e.Crc(), offset);
    CrcRange(e);
    Ranges();
    Layouts();
    UnpackOfPack(fields, e.name + rest);
    assert Pack(fields) + e.name + rest == Pack(fields) + (e.name + rest);
  }

  lemma ReadOneEntryBack(e: ZipInput, b: Bytes, offset: nat, rest: Bytes)
    requires |e.name| <= 0xffff && e.size <= ZIP32_MAX_BYTES && offset <= ZIP32_MAX_BYTES
    requires ReadLocal(b, offset, e.name, e.Crc(), e.size) == Some(e.Data())
    ensures ReadEntry(b, CentralHeader(e.name, e.size, e.Crc(), offset) + rest) == Some(Entry(e.File(), rest))
  {
    hide CentralHeader, ReadLocal, Unpack, ZipInput.Crc, ZipInput.Data;
    ReadCentralBack(e, offset, rest);
    Layouts();
  }

  /** The `i`th header leads to the `i`th file. */
  lemma ReadEntryBack(entries: seq<ZipInput>, b: Bytes, i: nat, rest: Bytes)
    requires i < |entries| && Packable(entries) && Locals(entries) <= b
    ensures ReadEntry(b, HeaderAt(entries, i) + rest) == Some(Entry(entries[i].File(), rest))
  {
    hide Locals, Local, CentralHeader, ReadLocal, ReadEntry, ZipInput.Crc, ZipInput.Data;
    var e := entries[i];
    assert e in entries;
    SizesBound(entries, i);
    LocalAt(entries, i);
    ReadLocalBack(e, b, |Locals(entries[..i])|);
    ReadOneEntryBack(e, b, |Locals(entries[..i])|, rest);
  }

  lemma {:induction false} ReadDirectoryBack(entries: seq<ZipInput>, b: Bytes, i: nat)
    requires i <= |entries| && Packable(entries) && Locals(entries) <= b
    ensures ReadDirectory(b, CentralFrom(entries, i), |entries| - i) == Some(Files(entries)[i..])
    decreases |entries| - i
  {
    hide Locals, HeaderAt, ReadEntry, Packable, ZipInput.File;
    if i == |entries| {
      assert Files(entries)[i..] == [];
    } else {
      ReadEntryBack(entries, b, i, CentralFrom(entries, i + 1));
      ReadDirectoryBack(entries, b, i + 1);
      assert Files(entries)[i..] == [entries[i].File()] + Files(entries)[i + 1..];
    }
  }

  /** The end record is found at once: it ends the archive and has no comment. */
  lemma ReadEndBack(before: Bytes, count: nat, size: nat, offset: nat)
    requires count <= 0xffff && size <= ZIP32_MAX_BYTES && offset <= ZIP32_MAX_BYTES
    ensures
      var b := before + EndRecord(count, size, offset);
      && |b| == |before| + EOCD_SIZE
      && FindEnd(b, |before|) == Some(|before|)
      && (Layouts(); Unpack(b[|before|..], END_LAYOUT)) == [END_SIGNATURE, 0, 0, count, count, size, offset, 0]
  {
    hide Pack, Unpack, Widths, Values;
    var fields := EndFields(count, size, offset);
    EndFieldsShape(count, size, offset);
    Ranges();
    Layouts();
    UnpackOfPack(fields, []);
    assert Pack(fields) + [] == EndRecord(count, size, offset);
    assert (before + EndRecord(count, size, offset))[|before|..] == EndRecord(count, size, offset);
  }

  /** A reader gets back exactly the names, checksums and data that were packed, in order. */
  lemma RoundTrip(entries: seq<ZipInput>)
    requires Packable(entries)
    ensures ReadZip(Archive(entries)) == Some(Files(entries))
    ensures |Archive(entries)| == TotalSize(entries) + Overhead(entries)
  {
    hide Locals, Central, EndRecord, Unpack, FindEnd, ReadDirectory, TotalSize, Overhead;
    var locals, central := Locals(entries), Central(entries);
    var b := Archive(entries);
    EstimateIsExact(entries);
    ArchiveLength(entries);
    ReadEndBack(locals + central, |entries|, |central|, |locals|);
    assert b[|locals|..|locals| + |central|] == central;
    assert b == locals + central + EndRecord(|entries|, |central|, |locals|);
    assert FindEnd(b, |b| - EOCD_SIZE) == Some(|locals + central|);
    assert entries[..0] == [];
    CentralSplits(entries, 0);
    assert Central(entries[..0]) == [] by { EmptyCentral(); }
    ReadDirectoryBack(entries, b, 0);
    Layouts();
    var f := Unpack(b[|locals + central|..], END_LAYOUT);
    assert f[1] == 0 && f[2] == 0 && f[3] == f[4] == |entries| && f[5] == |central| && f[6] == |locals|;
    assert ReadZip(b) == ReadDirectory(b, central, |entries|);
    assert CentralFrom(entries, 0) == central;
    assert Files(entries)[0..] == Files(entries);
  }

  lemma EmptyCentral()
    ensures Central([]) == []
  {
  }

  /** Every checksum a reader finds is that of the data beside it exactly when no file's checksum changed between its readings. */
  lemma ChecksumsHoldExactly(entries: seq<ZipInput>)
    requires Packable(entries)
    ensures ReadZip(Archive(entries)).Some?
    ensures (forall file | file in ReadZip(Archive(entries)).value :: file.crc == Checksum(file.data, 0) as int)
       <==> (forall e | e in entries :: Checksum(Concat(e.forCrc), 0) == Checksum(e.Data(), 0))
  {
    hide Archive, ReadZip, Checksum, Packable, Files;
    RoundTrip(entries);
    FilesAreOfEntries(entries);
    forall e | e in entries
      ensures e.File().crc == Checksum(e.File().data, 0) as int <==> Checksum(Concat(e.forCrc), 0) == Checksum(e.Data(), 0)
    {
      SameNumber(Checksum(Concat(e.forCrc), 0), Checksum(e.Data(), 0));
    }
  }

  lemma FilesAreOfEntries(entries: seq<ZipInput>)
    ensures forall e | e in entries :: e.File() in Files(entries)
    ensures forall file | file in Files(entries) :: exists e :: e in entries && e.File() == file
  {
    forall e | e in entries
      ensures e.File() in Files(entries)
    {
      var i :| 0 <= i < |entries| && entries[i] == e;
      assert Files(entries)[i] == e.File();
    }
    forall file | file in Files(entries)
      ensures exists e :: e in entries && e.File() == file
    {
      var i :| 0 <= i < |entries| && Files(entries)[i] == file;
      assert entries[i] in entries;
    }
  }

  lemma SameNumber(a: bv32, b: bv32)
    ensures a as int == b as int <==> a == b
  {
    Back(a);
    Back(b);
  }

  lemma Back(a: bv32)
    ensures (a as int) as bv32 == a
  {
  }

  /** So it is when no file changed at all. */
  lemma ChecksumsHold(entries: seq<ZipInput>)
    requires Packable(entries) && forall e | e in entries :: Concat(e.forCrc) == Concat(e.forData)
    ensures ReadZip(Archive(entries)).Some?
    ensures forall file | file in ReadZip(Archive(entries)).value :: file.crc == Checksum(file.data, 0) as int
  {
    hide Archive, ReadZip, Checksum;
    ChecksumsHoldExactly(entries);
  }

  lemma OneEntry(e: ZipInput)
    ensures TotalSize([e]) == e.size
    ensures Overhead([e]) == EOCD_SIZE + LOCAL_HEADER_SIZE + CENTRAL_HEADER_SIZE + 2 * |e.name|
  {
    assert [e][..0] == [];
    assert TotalSize([]) == 0 && Overhead([]) == EOCD_SIZE;
  }

  /** A file rewritten at the same size between its readings is packed without complaint, under a wrong checksum. */
  lemma SameSizeChangeIsMissed(name: Bytes)
    requires |name| <= 0xffff
    ensures
      var e := ZipInput(name, 1, [[0]], [[1]]);
      && Packable([e])
      && ReadZip(Archive([e])) == Some([e.File()])
      && e.File().crc != Checksum(e.File().data, 0) as int
  {
    hide Archive, ReadZip, Checksum;
    var e := ZipInput(name, 1, [[0]], [[1]]);
    assert Concat(e.forCrc) == [0] && Concat(e.forData) == [1];
    OneEntry(e);
    assert Packable([e]);
    RoundTrip([e]);
    assert Files([e]) == [e.File()];
    DifferentChecksums();
    SameNumber(Checksum([0], 0), Checksum([1], 0));
  }

  lemma DifferentChecksums()
    ensures Checksum([0], 0) != Checksum([1], 0)
  {
    hide ClockBits, FoldTimes, Fold;
    var zero, one: seq<bv8> := [0], [1];
    assert zero[..0] == [] && one[..0] == [];
    var register: bv32 := Complement(0);
    TableStep(register, 0);
    TableStep(register, 1);
    FoldEight(0xff);
    FoldEight(0xfe);
    FoldedBytes();
  }

  lemma FoldEight(c: bv32)
    ensures FoldTimes(c, 8) == Fold(Fold(Fold(Fold(Fold(Fold(Fold(Fold(c))))))))
  {
    hide Fold;
    var half := Fold(Fold(Fold(Fold(c))));
    assert FoldTimes(half, 4) == Fold(Fold(Fold(Fold(half)))) by {
      assert FoldTimes(Fold(Fold(half)), 2) == Fold(Fold(Fold(Fold(half))));
    }
    assert FoldTimes(Fold(Fold(c)), 6) == FoldTimes(half, 4);
  }

  lemma FoldedBytes()
    ensures Fold(Fold(Fold(Fold(Fold(Fold(Fold(Fold(0xff)))))))) != Fold(Fold(Fold(Fold(Fold(Fold(Fold(Fold(0xfe))))))))
  {
  }
}
