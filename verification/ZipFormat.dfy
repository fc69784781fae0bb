/**
 * The parts of the ZIP format a stored archive uses: packed little-endian records, the
 * three headers the writer emits (cli/zip.ts), and a reader written from PKWARE's
 * APPNOTE.TXT, sections 4.3.7 (local header), 4.3.12 (central directory) and 4.3.16 (end record).
 */
module ZipFormat {
  import opened Crc32
  import opened Wrappers

  type Bytes = seq<bv8>

  // --- Little-endian fields ---

  lemma NextByte(b: bv8)
    requires b < 255
    ensures (b + 1) as int == b as int + 1
  {
  }

  /** The byte of value `n`. */
  function ByteOf(n: nat): (b: bv8)
    requires n < 256
    ensures b as int == n
  {
    if n == 0 then 0
    else
      NextByte(ByteOf(n - 1));
      ByteOf(n - 1) + 1
  }

  function Little(n: nat, width: nat): (b: Bytes)
    ensures |b| == width
    decreases width
  {
    if width == 0 then [] else [ByteOf(n % 256)] + Little(n / 256, width - 1)
  }

  function Number(b: Bytes): nat {
    if |b| == 0 then 0 else (b[0] as int) + 256 * Number(b[1..])
  }

  /** The number of values a field of `width` bytes can hold. */
  function Range(width: nat): (r: nat)
    ensures r > 0
  {
    if width == 0 then 1 else 256 * Range(width - 1)
  }

  lemma {:induction false} NumberOfLittle(n: nat, width: nat)
    requires n < Range(width)
    ensures Number(Little(n, width)) == n
    decreases width
  {
    if width > 0 {
      NumberOfLittle(n / 256, width - 1);
    }
  }

  lemma Ranges()
    ensures Range(2) == 0x1_0000 && Range(4) == 0x1_0000_0000
  {
    assert Range(1) == 256 && Range(3) == 256 * Range(2);
  }

  // --- Records ---

  datatype Field = Field(value: nat, width: nat)

  function Pack(fields: seq<Field>): Bytes {
    if |fields| == 0 then [] else Pack(fields[..|fields| - 1]) + Little(fields[|fields| - 1].value, fields[|fields| - 1].width)
  }

  function Widths(fields: seq<Field>): seq<nat> {
    seq(|fields|, i requires 0 <= i < |fields| => fields[i].width)
  }

  function Values(fields: seq<Field>): seq<nat> {
    seq(|fields|, i requires 0 <= i < |fields| => fields[i].value)
  }

  function Total(widths: seq<nat>): nat {
    if |widths| == 0 then 0 else Total(widths[..|widths| - 1]) + widths[|widths| - 1]
  }

  /** The numbers in a record that starts `b`. */
  function Unpack(b: Bytes, widths: seq<nat>): (values: seq<nat>)
    requires |b| >= Total(widths)
    ensures |values| == |widths|
  {
    if |widths| == 0 then []
    else
      var start := Total(widths[..|widths| - 1]);
      Unpack(b, widths[..|widths| - 1]) + [Number(b[start..start + widths[|widths| - 1]])]
  }

  predicate Fits(fields: seq<Field>) {
    forall i | 0 <= i < |fields| :: fields[i].value < Range(fields[i].width)
  }

  lemma {:induction false} PackLength(fields: seq<Field>)
    ensures |Pack(fields)| == Total(Widths(fields))
  {
    if |fields| > 0 {
      var init := fields[..|fields| - 1];
      PackLength(init);
      assert Widths(fields)[..|fields| - 1] == Widths(init);
    }
  }

  /** Splitting a record before its last field. */
  lemma LastField(fields: seq<Field>, rest: Bytes)
    requires |fields| > 0
    ensures
      var n := |fields| - 1;
      var last := fields[n];
      && Pack(fields) + rest == Pack(fields[..n]) + (Little(last.value, last.width) + rest)
      && Widths(fields)[..n] == Widths(fields[..n])
      && Values(fields) == Values(fields[..n]) + [last.value]
      && Total(Widths(fields[..n])) == |Pack(fields[..n])|
      && Total(Widths(fields)) == |Pack(fields)|
  {
    hide Little, Number;
    PackLength(fields);
    PackLength(fields[..|fields| - 1]);
  }

  lemma Middle(a: Bytes, b: Bytes, c: Bytes)
    ensures (a + (b + c))[|a|..|a| + |b|] == b
  {
  }

  /** What is unpacked is what was packed, whatever follows. */
  lemma {:induction false} UnpackOfPack(fields: seq<Field>, rest: Bytes)
    requires Fits(fields)
    ensures |Pack(fields)| == Total(Widths(fields))
    ensures Unpack(Pack(fields) + rest, Widths(fields)) == Values(fields)
  {
    hide Little, Number, Pack, Total, Widths, Values;
    PackLength(fields);
    if |fields| > 0 {
      var n := |fields| - 1;
      var last := fields[n];
      LastField(fields, rest);
      UnpackOfPack(fields[..n], Little(last.value, last.width) + rest);
      Middle(Pack(fields[..n]), Little(last.value, last.width), rest);
      NumberOfLittle(last.value, last.width);
      LastWidth(fields);
    } else {
      assert Values(fields) == [] by { NoFields(fields); }
      NoFields(fields);
    }
  }

  lemma LastWidth(fields: seq<Field>)
    ensures |Widths(fields)| == |fields|
    ensures forall i | 0 <= i < |fields| :: Widths(fields)[i] == fields[i].width
  {
  }

  lemma NoFields(fields: seq<Field>)
    requires |fields| == 0
    ensures Values(fields) == [] && Widths(fields) == []
  {
  }

  // --- The headers, as the writer fills them in ---

  const LOCAL_SIGNATURE := 0x04034b50
  const CENTRAL_SIGNATURE := 0x02014b50
  const END_SIGNATURE := 0x06054b50

  const LOCAL_HEADER_SIZE := 30
  const CENTRAL_HEADER_SIZE := 46
  const EOCD_SIZE := 22

  /** Version 2.0, UTF-8 names, stored, stamped with the DOS epoch. */
  const VERSION := 20
  const FLAG_UTF8 := 0x800
  const STORED := 0
  const DOS_TIME := 0
  const DOS_DATE := 33

  function LocalFields(nameLength: nat, size: nat, crc: nat): seq<Field> {
    [ Field(LOCAL_SIGNATURE, 4), Field(VERSION, 2), Field(FLAG_UTF8, 2), Field(STORED, 2),
      Field(DOS_TIME, 2), Field(DOS_DATE, 2), Field(crc, 4), Field(size, 4), Field(size, 4),
      Field(nameLength, 2), Field(0, 2) ]
  }

  function CentralFields(nameLength: nat, size: nat, crc: nat, offset: nat): seq<Field> {
    [ Field(CENTRAL_SIGNATURE, 4), Field(VERSION, 2), Field(VERSION, 2), Field(FLAG_UTF8, 2), Field(STORED, 2),
      Field(DOS_TIME, 2), Field(DOS_DATE, 2), Field(crc, 4), Field(size, 4), Field(size, 4),
      Field(nameLength, 2), Field(0, 2), Field(0, 2), Field(0, 2), Field(0, 2), Field(0, 4), Field(offset, 4) ]
  }

  function EndFields(count: nat, size: nat, offset: nat): seq<Field> {
    [ Field(END_SIGNATURE, 4), Field(0, 2), Field(0, 2), Field(count, 2), Field(count, 2),
      Field(size, 4), Field(offset, 4), Field(0, 2) ]
  }

  function LocalHeader(name: Bytes, size: nat, crc: nat): Bytes {
    Pack(LocalFields(|name|, size, crc)) + name
  }

  function CentralHeader(name: Bytes, size: nat, crc: nat, offset: nat): Bytes {
    Pack(CentralFields(|name|, size, crc, offset)) + name
  }

  function EndRecord(count: nat, size: nat, offset: nat): Bytes {
    Pack(EndFields(count, size, offset))
  }

  // --- Reading (APPNOTE.TXT) ---

  /** 4.4.6: a date and a time, to two seconds. */
  datatype Stamp = Stamp(year: nat, month: nat, day: nat, hour: nat, minute: nat, second: nat)

  function StampOf(date: nat, time: nat): Stamp {
    Stamp(1980 + date / 512, date / 32 % 16, date % 32, time / 2048, time / 32 % 64, time % 32 * 2)
  }

  /** One file as a reader sees it: its name in UTF-8, stored as it is, and the version of the format it needs. */
  datatype ZipFile = ZipFile(name: Bytes, crc: nat, data: Bytes, stamp: Stamp, version: nat)

  /** 4.4.4: not encrypted (bit 0), sizes in the header (bit 3), and a UTF-8 name (bit 11). */
  predicate PlainFlags(flags: nat) {
    flags % 2 == 0 && flags / 8 % 2 == 0 && flags / 2048 % 2 == 1
  }

  /** 4.3.7: signature, version, flags, method, time, date, crc, sizes, name and extra lengths. */
  const LOCAL_LAYOUT: seq<nat> := [4, 2, 2, 2, 2, 2, 4, 4, 4, 2, 2]
  /** 4.3.12: the same with the version made by, a comment, the disk, attributes and the local header's offset. */
  const CENTRAL_LAYOUT: seq<nat> := [4, 2, 2, 2, 2, 2, 2, 4, 4, 4, 2, 2, 2, 2, 2, 4, 4]
  /** 4.3.16: signature, disks, entry counts, the directory's size and offset, the comment's length. */
  const END_LAYOUT: seq<nat> := [4, 2, 2, 2, 2, 4, 4, 2]

  lemma Layouts()
    ensures Total(LOCAL_LAYOUT) == LOCAL_HEADER_SIZE
    ensures Total(CENTRAL_LAYOUT) == CENTRAL_HEADER_SIZE
    ensures Total(END_LAYOUT) == EOCD_SIZE
  {
    LayoutTotal(LOCAL_LAYOUT, 11, 30);
    assert Sum(CENTRAL_LAYOUT, 15) == 8 && Sum(CENTRAL_LAYOUT, 13) == 12 && Sum(CENTRAL_LAYOUT, 11) == 16;
    assert Sum(CENTRAL_LAYOUT, 9) == 22 && Sum(CENTRAL_LAYOUT, 7) == 30 && Sum(CENTRAL_LAYOUT, 5) == 34;
    assert Sum(CENTRAL_LAYOUT, 3) == 38;
    LayoutTotal(CENTRAL_LAYOUT, 17, 46);
    LayoutTotal(END_LAYOUT, 8, 22);
  }

  /** A running sum from the front, which the verifier can carry out. */
  function Sum(widths: seq<nat>, from: nat): nat
    requires from <= |widths|
    decreases |widths| - from
  {
    if from == |widths| then 0 else widths[from] + Sum(widths, from + 1)
  }

  lemma {:induction false} TotalIsSum(widths: seq<nat>, n: nat)
    requires n <= |widths|
    ensures Total(widths) == Total(widths[..n]) + Sum(widths, n)
    decreases |widths| - n
  {
    if n < |widths| {
      TotalIsSum(widths, n + 1);
      assert widths[..n + 1][..n] == widths[..n];
    } else {
      assert widths[..n] == widths;
    }
  }

  lemma LayoutTotal(widths: seq<nat>, n: nat, total: nat)
    requires |widths| == n && Sum(widths, 0) == total
    ensures Total(widths) == total
  {
    TotalIsSum(widths, 0);
  }

  /** 4.3.16: an end record whose comment reaches the end of the archive. */
  predicate EndAt(b: Bytes, p: nat) {
    && p + 22 <= |b|
    && (Layouts(); var f := Unpack(b[p..], END_LAYOUT); f[0] == 0x06054b50 && p + 22 + f[7] == |b|)
  }

  /** The last such record, looked for from `p` backwards. */
  function FindEnd(b: Bytes, p: nat): (r: Option<nat>)
    requires p + 22 <= |b|
    ensures r.Some? ==> r.value <= p && EndAt(b, r.value)
  {
    if EndAt(b, p) then Some(p) else if p == 0 then None else FindEnd(b, p - 1)
  }

  /** The data of the file whose local header is at `offset`, if that header agrees with the directory. */
  function ReadLocal(b: Bytes, offset: nat, name: Bytes, crc: nat, size: nat): Option<Bytes> {
    if offset + 30 > |b| then None
    else
      Layouts();
      var f := Unpack(b[offset..], LOCAL_LAYOUT);
      var start := offset + 30 + f[9] + f[10];
      if || f[0] != 0x04034b50 || !PlainFlags(f[2]) || f[3] != 0 || f[6] != crc || f[7] != size || f[8] != size
         || start + size > |b| || b[offset + 30..][..f[9]] != name then None
      else Some(b[start..start + size])
  }

  /** A file of the directory, and what is left of the directory after it. */
  datatype Entry = Entry(file: ZipFile, rest: Bytes)

  /** The file named by the header at the front of `directory`. */
  function ReadEntry(b: Bytes, directory: Bytes): Option<Entry> {
    if |directory| < 46 then None
    else
      Layouts();
      var f := Unpack(directory, CENTRAL_LAYOUT);
      var next := 46 + f[10] + f[11] + f[12];
      if f[0] != 0x02014b50 || !PlainFlags(f[3]) || f[4] != 0 || f[8] != f[9] || f[13] != 0 || next > |directory| then None
      else
        var name := directory[46..][..f[10]];
        match ReadLocal(b, f[16], name, f[7], f[8])
        case None => None
        case Some(data) => Some(Entry(ZipFile(name, f[7], data, StampOf(f[6], f[5]), f[2]), directory[next..]))
  }

  /** The files named by the `count` headers in `directory`, which they must fill exactly. */
  function ReadDirectory(b: Bytes, directory: Bytes, count: nat): Option<seq<ZipFile>>
    decreases count
  {
    if count == 0 then if |directory| == 0 then Some([]) else None
    else
      match ReadEntry(b, directory)
      case None => None
      case Some(entry) =>
        match ReadDirectory(b, entry.rest, count - 1)
        case None => None
        case Some(files) => Some([entry.file] + files)
  }

  /** The archive's files, from the end record through the directory to the local headers. */
  function ReadZip(b: Bytes): Option<seq<ZipFile>> {
    if |b| < 22 then None
    else
      match FindEnd(b, |b| - 22)
      case None => None
      case Some(p) =>
        Layouts();
        var f := Unpack(b[p..], END_LAYOUT);
        if f[1] != 0 || f[2] != 0 || f[3] != f[4] || f[6] + f[5] > p then None
        else ReadDirectory(b, b[f[6]..f[6] + f[5]], f[4])
  }
}
