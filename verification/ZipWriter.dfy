/** The stored-ZIP writer (cli/zip.ts): headers filled in at their offsets, running offsets, two readings a file. */
module ZipWriter {
  import opened Crc32
  import opened ZipFormat
  import opened ZipRoundTrip
  import opened Wrappers

  /** How packing ends: the archive's length, or the reason it was refused and the entry at fault. */
  datatype Outcome =
    | Ok(files: nat, bytes: nat)
    | TooManyFiles
    | TooLarge
    | NameTooLong(entry: nat)
    | FileChanged(entry: nat)

  /** The first `k` fields of the record are in place, and they end at `offset`. */
  ghost predicate Holds(head: array<bv8>, fields: seq<Field>, k: nat, offset: nat)
    reads head
  {
    k <= |fields| && offset <= head.Length && head[..offset] == Pack(fields[..k])
  }

  lemma PackAppends(fields: seq<Field>, k: nat)
    requires k < |fields|
    ensures Pack(fields[..k + 1]) == Pack(fields[..k]) + Little(fields[k].value, fields[k].width)
  {
    hide Little;
    assert fields[..k + 1][..k] == fields[..k];
  }

  method Alloc(size: nat, ghost fields: seq<Field>) returns (head: array<bv8>)
    ensures fresh(head) && head.Length == size && Holds(head, fields, 0, 0)
  {
    head := new bv8[size](i => 0);
  }

  lemma Complete(head: array<bv8>, fields: seq<Field>)
    requires Holds(head, fields, |fields|, head.Length)
    ensures head[..] == Pack(fields)
  {
    hide Pack;
    assert fields[..|fields|] == fields && head[..] == head[..head.Length];
  }

  method WriteUInt16LE(head: array<bv8>, value: nat, offset: nat, ghost fields: seq<Field>, ghost k: nat)
    requires value <= 0xffff && offset + 2 <= head.Length
    requires k < |fields| && fields[k] == Field(value, 2)
    requires Holds(head, fields, k, offset)
    modifies head
    ensures Holds(head, fields, k + 1, offset + 2)
  {
    PackAppends(fields, k);
    Little2(value);
    hide Pack, Little;
    head[offset], head[offset + 1] := ByteOf(value % 256), ByteOf(value / 256);
    assert head[..offset + 2] == head[..offset] + [head[offset], head[offset + 1]];
  }

  lemma LittleCons(n: nat, width: nat)
    requires width > 0
    ensures Little(n, width) == [ByteOf(n % 256)] + Little(n / 256, width - 1)
  {
    hide ByteOf;
  }

  lemma SmallQuotient(n: nat)
    requires n <= 0xffff
    ensures n / 256 < 256 && n / 256 % 256 == n / 256
  {
  }

  lemma Little2(n: nat)
    requires n <= 0xffff
    ensures n / 256 < 256 && Little(n, 2) == [ByteOf(n % 256), ByteOf(n / 256)]
  {
    hide ByteOf, Little;
    LittleCons(n, 2);
    LittleCons(n / 256, 1);
    SmallQuotient(n);
  }

  method WriteUInt32LE(head: array<bv8>, value: nat, offset: nat, ghost fields: seq<Field>, ghost k: nat)
    requires value <= 0xffff_ffff && offset + 4 <= head.Length
    requires k < |fields| && fields[k] == Field(value, 4)
    requires Holds(head, fields, k, offset)
    modifies head
    ensures Holds(head, fields, k + 1, offset + 4)
  {
    PackAppends(fields, k);
    Little4(value);
    hide Pack, Little;
    var b0, b1 := ByteOf(value % 256), ByteOf(value / 256 % 256);
    var b2, b3 := ByteOf(value / 256 / 256 % 256), ByteOf(value / 256 / 256 / 256);
    head[offset], head[offset + 1], head[offset + 2], head[offset + 3] := b0, b1, b2, b3;
    assert head[..offset + 4] == head[..offset] + [b0, b1, b2, b3];
  }

  lemma Little4(n: nat)
    requires n <= 0xffff_ffff
    ensures n / 256 / 256 / 256 < 256
    ensures Little(n, 4) == [ByteOf(n % 256), ByteOf(n / 256 % 256),
                             ByteOf(n / 256 / 256 % 256), ByteOf(n / 256 / 256 / 256)]
  {
    hide ByteOf, Little;
    LittleCons(n, 4);
    LittleCons(n / 256, 3);
    Little2(n / 256 / 256);
  }

  lemma {:induction false} PackStarts(fields: seq<Field>)
    requires |fields| > 0
    ensures Little(fields[0].value, fields[0].width) <= Pack(fields)
  {
    hide Little;
    var n := |fields| - 1;
    if n > 0 {
      PackStarts(fields[..n]);
    } else {
      assert Pack(fields[..0]) == [];
    }
  }

  /** Every archive that has a file starts with the letters PK and the bytes 3 and 4: the low byte of a number comes first. */
  lemma StartsWithLetters(entries: seq<ZipInput>)
    requires |entries| > 0
    ensures
      var b := Archive(entries);
      |b| > 4 && b[0] as int == 'P' as int && b[1] as int == 'K' as int && b[2] == 3 && b[3] == 4
  {
    var e := entries[0];
    var fields := LocalFields(|e.name|, e.size, e.Crc());
    PackStarts(fields);
    Little4(LOCAL_SIGNATURE);
    LocalFieldsShape(|e.name|, e.size, e.Crc());
    LocalAt(entries, 0);
    assert Locals(entries[..0]) == [];
    hide Pack, Little, Locals, Central, EndRecord, ZipInput.Crc, ZipInput.Data, LocalFields;
    assert Little(LOCAL_SIGNATURE, 4) <= Pack(fields);
    assert Pack(fields) <= Local(e);
    assert Local(e) <= Archive(entries);
    LettersAsBytes();
  }

  lemma LettersAsBytes()
    ensures ByteOf(0x50) as int == 'P' as int && ByteOf(0x4b) as int == 'K' as int && ByteOf(3) == 3 && ByteOf(4) == 4
  {
    hide ByteOf;
    ByteBack(3);
    ByteBack(4);
  }

  lemma ByteBack(b: bv8)
    ensures ByteOf(b as int) == b
  {
    hide ByteOf;
    assert ByteOf(b as int) as int == b as int;
  }

  /** The local header, or nothing when the name does not fit its length field (a RangeError). */
  method MakeLocalHeader(name: Bytes, size: nat, crc: nat) returns (header: Option<Bytes>)
    requires size <= 0xffff_ffff && crc <= 0xffff_ffff
    ensures header == if |name| <= 0xffff then Some(LocalHeader(name, size, crc)) else None
  {
    hide Pack, Little, Holds;
    if |name| > 0xffff { return None; }
    ghost var fields := LocalFields(|name|, size, crc);
    var head := Alloc(LOCAL_HEADER_SIZE, fields);
    WriteUInt32LE(head, LOCAL_SIGNATURE, 0, fields, 0);
    WriteUInt16LE(head, VERSION, 4, fields, 1);
    WriteUInt16LE(head, FLAG_UTF8, 6, fields, 2);
    WriteUInt16LE(head, STORED, 8, fields, 3);
    WriteUInt16LE(head, DOS_TIME, 10, fields, 4);
    WriteUInt16LE(head, DOS_DATE, 12, fields, 5);
    WriteUInt32LE(head, crc, 14, fields, 6);
    WriteUInt32LE(head, size, 18, fields, 7);
    WriteUInt32LE(head, size, 22, fields, 8);
    WriteUInt16LE(head, |name|, 26, fields, 9);
    WriteUInt16LE(head, 0, 28, fields, 10);
    Complete(head, fields);
    header := Some(head[..] + name);
  }

  lemma CentralFieldAt(nameLength: nat, size: nat, crc: nat, offset: nat)
    ensures
      var f := CentralFields(nameLength, size, crc, offset);
      && |f| == 17
      && f[0] == Field(CENTRAL_SIGNATURE, 4) && f[1] == f[2] == Field(VERSION, 2) && f[3] == Field(FLAG_UTF8, 2)
      && f[4] == Field(STORED, 2) && f[5] == Field(DOS_TIME, 2) && f[6] == Field(DOS_DATE, 2) && f[7] == Field(crc, 4)
      && f[8] == f[9] == Field(size, 4) && f[10] == Field(nameLength, 2)
      && f[11] == f[12] == f[13] == f[14] == Field(0, 2) && f[15] == Field(0, 4) && f[16] == Field(offset, 4)
  {
  }

  method MakeCentralHeader(name: Bytes, size: nat, crc: nat, offset: nat) returns (header: Bytes)
    requires |name| <= 0xffff && size <= 0xffff_ffff && crc <= 0xffff_ffff && offset <= 0xffff_ffff
    ensures header == CentralHeader(name, size, crc, offset)
  {
    hide Pack, Little, Holds, CentralFields;
    ghost var fields := CentralFields(|name|, size, crc, offset);
    CentralFieldAt(|name|, size, crc, offset);
    var head := Alloc(CENTRAL_HEADER_SIZE, fields);
    WriteUInt32LE(head, CENTRAL_SIGNATURE, 0, fields, 0);
    WriteUInt16LE(head, VERSION, 4, fields, 1);
    WriteUInt16LE(head, VERSION, 6, fields, 2);
    WriteUInt16LE(head, FLAG_UTF8, 8, fields, 3);
    WriteUInt16LE(head, STORED, 10, fields, 4);
    WriteUInt16LE(head, DOS_TIME, 12, fields, 5);
    WriteUInt16LE(head, DOS_DATE, 14, fields, 6);
    WriteUInt32LE(head, crc, 16, fields, 7);
    WriteUInt32LE(head, size, 20, fields, 8);
    WriteUInt32LE(head, size, 24, fields, 9);
    WriteUInt16LE(head, |name|, 28, fields, 10);
    WriteUInt16LE(head, 0, 30, fields, 11);
    WriteUInt16LE(head, 0, 32, fields, 12);
    WriteUInt16LE(head, 0, 34, fields, 13);
    WriteUInt16LE(head, 0, 36, fields, 14);
    WriteUInt32LE(head, 0, 38, fields, 15);
    WriteUInt32LE(head, offset, 42, fields, 16);
    Complete(head, fields);
    header := head[..] + name;
  }

  method MakeEndRecord(count: nat, size: nat, offset: nat) returns (eocd: Bytes)
    requires count <= 0xffff && size <= 0xffff_ffff && offset <= 0xffff_ffff
    ensures eocd == EndRecord(count, size, offset)
  {
    hide Pack, Little, Holds;
    ghost var fields := EndFields(count, size, offset);
    var head := Alloc(EOCD_SIZE, fields);
    WriteUInt32LE(head, END_SIGNATURE, 0, fields, 0);
    WriteUInt16LE(head, 0, 4, fields, 1);
    WriteUInt16LE(head, 0, 6, fields, 2);
    WriteUInt16LE(head, count, 8, fields, 3);
    WriteUInt16LE(head, count, 10, fields, 4);
    WriteUInt32LE(head, size, 12, fields, 5);
    WriteUInt32LE(head, offset, 16, fields, 6);
    WriteUInt16LE(head, 0, 20, fields, 7);
    Complete(head, fields);
    eocd := head[..];
  }

  /** The check up front: too many files for a 16-bit count, or an archive too long for 32-bit offsets. */
  method GuardZip32(entries: seq<ZipInput>, totalSize: nat) returns (refusal: Option<Outcome>)
    requires totalSize == TotalSize(entries)
    ensures refusal.None? <==> Guarded(entries)
    ensures refusal.Some? ==> refusal.value == if |entries| > ZIP32_MAX_ENTRIES then TooManyFiles else TooLarge
  {
    if |entries| > ZIP32_MAX_ENTRIES { return Some(TooManyFiles); }
    var overhead := EOCD_SIZE;
    var i := 0;
    while i < |entries|
      invariant 0 <= i <= |entries|
      invariant overhead == Overhead(entries[..i])
    {
      assert entries[..i + 1][..i] == entries[..i];
      overhead := overhead + LOCAL_HEADER_SIZE + CENTRAL_HEADER_SIZE + 2 * |entries[i].name|;
      i := i + 1;
    }
    assert entries[..i] == entries;
    refusal := if totalSize + overhead > ZIP32_MAX_BYTES then Some(TooLarge) else None;
  }

  method SumSizes(entries: seq<ZipInput>) returns (total: nat)
    ensures total == TotalSize(entries)
  {
    total := 0;
    var i := 0;
    while i < |entries|
      invariant 0 <= i <= |entries|
      invariant total == TotalSize(entries[..i])
    {
      assert entries[..i + 1][..i] == entries[..i];
      total := total + entries[i].size;
      i := i + 1;
    }
    assert entries[..i] == entries;
  }

  /** The second reading: the data goes out as it is read, and is counted. */
  method CopyData(e: ZipInput, before: Bytes) returns (out: Bytes, written: nat)
    ensures out == before + e.Data() && written == |e.Data()|
  {
    out, written := before, 0;
    var i := 0;
    while i < |e.forData|
      invariant 0 <= i <= |e.forData|
      invariant out == before + Concat(e.forData[..i]) && written == |Concat(e.forData[..i])|
    {
      assert e.forData[..i + 1][..i] == e.forData[..i];
      out, written := out + e.forData[i], written + |e.forData[i]|;
      i := i + 1;
    }
    assert e.forData[..i] == e.forData;
  }

  method SumLengths(blocks: seq<Bytes>) returns (total: nat)
    ensures total == |Concat(blocks)|
  {
    total := 0;
    var i := 0;
    while i < |blocks|
      invariant 0 <= i <= |blocks|
      invariant total == |Concat(blocks[..i])|
    {
      assert blocks[..i + 1][..i] == blocks[..i];
      total := total + |blocks[i]|;
      i := i + 1;
    }
    assert blocks[..i] == blocks;
  }

  method WriteBlocks(blocks: seq<Bytes>, before: Bytes) returns (out: Bytes)
    ensures out == before + Concat(blocks)
  {
    out := before;
    var i := 0;
    while i < |blocks|
      invariant 0 <= i <= |blocks|
      invariant out == before + Concat(blocks[..i])
    {
      assert blocks[..i + 1][..i] == blocks[..i];
      out := out + blocks[i];
      i := i + 1;
    }
    assert blocks[..i] == blocks;
  }

  /** The next file's headers fit their fields, because the guard counted everything. */
  lemma FieldsFit(entries: seq<ZipInput>, i: nat)
    requires i < |entries| && Guarded(entries) && forall j | 0 <= j < i :: entries[j].Good()
    ensures entries[i].size <= 0xffff_ffff && |Locals(entries[..i])| <= 0xffff_ffff
  {
    hide Locals, Central;
    var before := entries[..i];
    EstimateIsExact(before);
    Parts(entries, i);
    Parts(entries, i + 1);
    assert entries[..i + 1][..i] == before;
  }

  /** A prefix asks for no more than the whole. */
  lemma {:induction false} Parts(entries: seq<ZipInput>, i: nat)
    requires i <= |entries|
    ensures TotalSize(entries[..i]) <= TotalSize(entries) && Overhead(entries[..i]) <= Overhead(entries)
  {
    if i == |entries| {
      assert entries[..i] == entries;
    } else {
      Parts(entries[..|entries| - 1], i);
      assert entries[..|entries| - 1][..i] == entries[..i];
    }
  }

  lemma NextEntry(entries: seq<ZipInput>, i: nat)
    requires i < |entries|
    ensures Locals(entries[..i + 1]) == Locals(entries[..i]) + Local(entries[i])
    ensures Central(entries[..i + 1]) == Central(entries[..i]) + HeaderAt(entries, i)
  {
    hide HeaderAt, Local;
    HeaderOfPrefix(entries, i);
  }

  /**
   * Packs the entries. It succeeds exactly when the guard lets them through and every file
   * keeps its size and has a name that fits; the output is then the archive, as long as reported.
   */
  method WriteStoredZip(table: array<bv32>, entries: seq<ZipInput>) returns (outcome: Outcome, out: Bytes)
    requires IsTable(table)
    ensures outcome.Ok? <==> Packable(entries)
    ensures outcome.Ok? ==> out == Archive(entries) && outcome == Ok(|entries|, |out|)
    ensures outcome.TooManyFiles? <==> |entries| > ZIP32_MAX_ENTRIES
    ensures outcome.TooManyFiles? || outcome.TooLarge? <==> !Guarded(entries)
    ensures outcome.TooManyFiles? || outcome.TooLarge? ==> out == []
    ensures outcome.NameTooLong? ==> FirstBad(entries, outcome.entry) && |entries[outcome.entry].name| > 0xffff
    ensures outcome.FileChanged? ==> FirstBad(entries, outcome.entry) && |entries[outcome.entry].name| <= 0xffff
  {
    hide LocalHeader, CentralHeader, EndRecord, Locals, Central, TotalSize, Overhead, IsTable, Checksum;
    out := [];
    var totalSize := SumSizes(entries);
    var refusal := GuardZip32(entries, totalSize);
    if refusal.Some? { return refusal.value, out; }

    var central: seq<Bytes> := [];
    var offset := 0;
    assert entries[..0] == [];
    assert out == Locals(entries[..0]) && Concat(central) == Central(entries[..0]) by { Nothing(); }
    var i := 0;
    while i < |entries|
      invariant 0 <= i <= |entries|
      invariant forall j | 0 <= j < i :: entries[j].Good()
      invariant out == Locals(entries[..i]) && offset == |out|
      invariant Concat(central) == Central(entries[..i])
      invariant |central| == i
    {
      var e := entries[i];
      assert e in entries;
      FieldsFit(entries, i);
      var crc := CrcOfFile(table, e.forCrc);
      var made := MakeLocalHeader(e.name, e.size, crc as int);
      if made.None? { return NameTooLong(i), out; }
      var header := made.value;
      out := out + header;
      offset := offset + |header|;
      var written;
      out, written := CopyData(e, out);
      if written != e.size { return FileChanged(i), out; }
      var block := MakeCentralHeader(e.name, e.size, crc as int, offset - |header|);
      NextEntry(entries, i);
      assert (central + [block])[..|central|] == central;
      central := central + [block];
      offset := offset + e.size;
      i := i + 1;
    }
    assert entries[..i] == entries;
    EstimateIsExact(entries);
    var centralSize := SumLengths(central);
    var centralOffset := offset;
    out := WriteBlocks(central, out);
    var eocd := MakeEndRecord(|central|, centralSize, centralOffset);
    out := out + eocd;
    outcome := Ok(|entries|, offset + centralSize + EOCD_SIZE);
    ArchiveLength(entries);
  }

  lemma Nothing()
    ensures Locals([]) == [] && Central([]) == []
  {
  }

  /** The first entry that cannot be packed. */
  ghost predicate FirstBad(entries: seq<ZipInput>, i: nat) {
    i < |entries| && !entries[i].Good() && forall j | 0 <= j < i :: entries[j].Good()
  }
}
