/** Serving part of a stream (core/file/stream.ts), with the lengths announced for it (core/file/handler.ts). */
module SliceStream {
  import opened Text
  import opened Cursor
  import opened Crc32
  import opened Wrappers

  type Bytes = seq<bv8>

  datatype Range = Range(offset: nat, length: int)

  const MAX_SAFE_INTEGER := 9007199254740991

  // --- The Range header ---

  /** `bytes=<start>-<end>` or `bytes=<start>-`; anything else is no range. */
  function ParseRange(header: string): Option<Range> {
    if StartsWith(header, "bytes=") then ParseSpan(header[6..]) else None
  }

  function ParseSpan(span: string): Option<Range> {
    var n := DigitRun(span);
    if n == 0 || n == |span| || span[n] != '-' || DigitRun(span[n + 1..]) != |span| - n - 1 then None
    else
      var start, last := ValueOf(span[..n]), span[n + 1..];
      if |last| == 0 then Some(Range(start, MAX_SAFE_INTEGER)) else Some(Range(start, ValueOf(last) - start + 1))
  }

  /** The header a client writes for bytes `start` to `last`, or from `start` on. */
  function PrintRange(start: nat, last: Option<nat>): string {
    "bytes=" + (Decimal(start) + ("-" + if last.Some? then Decimal(last.value) else ""))
  }

  lemma Cut(start: string, end: string)
    ensures
      var span := start + ("-" + end);
      |span| == |start| + 1 + |end| && span[|start|] == '-' && span[..|start|] == start && span[|start| + 1..] == end
  {
  }

  lemma HyphenIsNoDigit()
    ensures !IsDigit('-')
  {
  }

  lemma SpanRoundTrip(start: nat, last: Option<nat>)
    ensures ParseSpan(Decimal(start) + ("-" + if last.Some? then Decimal(last.value) else ""))
         == Some(Range(start, if last.Some? then last.value - start + 1 else MAX_SAFE_INTEGER))
  {
    hide Decimal, ValueOf, DigitRun, IsDigit;
    var end := if last.Some? then Decimal(last.value) else "";
    DecimalReads(start);
    if last.Some? { DecimalReads(last.value); }
    HyphenIsNoDigit();
    RunIsDigits(Decimal(start), "-" + end);
    AllDigits(end);
    Cut(Decimal(start), end);
  }

  /** The header reads back as the bytes it names. */
  lemma RangeRoundTrip(start: nat, last: Option<nat>)
    ensures ParseRange(PrintRange(start, last))
         == Some(Range(start, if last.Some? then last.value - start + 1 else MAX_SAFE_INTEGER))
  {
    hide Decimal, ParseSpan;
    var span := Decimal(start) + ("-" + if last.Some? then Decimal(last.value) else "");
    assert ("bytes=" + span)[6..] == span;
    SpanRoundTrip(start, last);
  }

  predicate Digits(s: string) {
    forall i | 0 <= i < |s| :: IsDigit(s[i])
  }

  /** A range is read exactly from `bytes=`, digits, a hyphen, and digits or nothing; no other form is taken for one. */
  lemma ParsedExactly(header: string, range: Range)
    ensures
      ParseRange(header) == Some(range)
      <==> exists a, b :: RangeParts(header, a, b)
             && range == Range(ValueOf(a), if b == "" then 9007199254740991 else ValueOf(b) - ValueOf(a) + 1)
  {
    hide ValueOf, DigitRun, IsDigit, ParseSpan;
    if ParseRange(header) == Some(range) {
      var span := header[6..];
      var n := DigitRun(span);
      SpanParts(header);
      PartsParse(header, span[..n], span[n + 1..]);
    }
    forall a, b | RangeParts(header, a, b)
      ensures ParseRange(header) == Some(Range(ValueOf(a), if b == "" then 9007199254740991 else ValueOf(b) - ValueOf(a) + 1))
    {
      PartsParse(header, a, b);
    }
  }

  lemma SpanParts(header: string)
    requires ParseRange(header).Some?
    ensures var span := header[6..]; var n := DigitRun(span); n < |span| && RangeParts(header, span[..n], span[n + 1..])
  {
    hide ValueOf, IsDigit, DigitRun;
    var span := header[6..];
    var n := DigitRun(span);
    assert header == "bytes=" + span && span == span[..n] + ("-" + span[n + 1..]);
  }

  lemma PartsParse(header: string, a: string, b: string)
    requires RangeParts(header, a, b)
    ensures ParseRange(header) == Some(Range(ValueOf(a), if b == "" then 9007199254740991 else ValueOf(b) - ValueOf(a) + 1))
  {
    hide ValueOf, IsDigit, DigitRun;
    var span := a + ("-" + b);
    Cut(a, b);
    HyphenIsNoDigit();
    RunIsDigits(a, "-" + b);
    AllDigits(b);
    assert header[6..] == span && StartsWith(header, "bytes=");
  }

  predicate RangeParts(header: string, a: string, b: string) {
    |a| > 0 && Digits(a) && Digits(b) && header == "bytes=" + (a + ("-" + b))
  }

  // --- Slicing ---

  function Min(a: int, b: int): int { if a < b then a else b }
  function Max(a: int, b: int): int { if a > b then a else b }

  /** What is to be sent of a stream of `total` bytes, when its size is known. */
  function ActualLength(offset: nat, length: int, total: Option<nat>): int {
    if total.Some? && total.value > 0 then Min(length, total.value - offset) else length
  }

  /** After `skipped` bytes of the stream, `passed` is what of them is in the slice, `sent` bytes. */
  ghost predicate Passed(data: Bytes, skipped: nat, offset: nat, wanted: nat, sent: int, passed: Bytes) {
    && skipped <= |data| && sent == |passed|
    && passed == data[Min(offset, skipped)..Min(offset + wanted, skipped)]
  }

  /**
   * Reads chunk after chunk and passes on the part of each that is in the slice. However the data
   * is cut, what is passed on is the slice, and no chunk is read after the one that completes it.
   */
  method Slice(chunks: seq<Bytes>, offset: nat, length: int, total: Option<nat>)
      returns (out: seq<Bytes>, read: nat)
    requires ActualLength(offset, length, total) > 0
    ensures
      var data, wanted := Concat(chunks), ActualLength(offset, length, total);
      Concat(out) == data[Min(offset, |data|)..Min(offset + wanted, |data|)]
    ensures read <= |chunks|
    ensures |Concat(chunks[..read])| < offset + ActualLength(offset, length, total) ==> read == |chunks|
    ensures read > 0 ==> |Concat(chunks[..read - 1])| < offset + ActualLength(offset, length, total)
  {
    hide Concat, Passed;
    var actualLength := ActualLength(offset, length, total);
    ghost var data := Concat(chunks);
    var skipped, sent := 0, 0;
    out, read := [], 0;
    assert chunks[..0] == [];
    NothingPassed(data, offset, actualLength);
    while sent < actualLength
      invariant 0 <= read <= |chunks| && skipped == |Concat(chunks[..read])|
      invariant Concat(chunks[..read]) <= data
      invariant Passed(data, skipped, offset, actualLength, sent, Concat(out))
      invariant read > 0 ==> |Concat(chunks[..read - 1])| < offset + actualLength
      decreases |chunks| - read
    {
      EarlyOrDone(data, skipped, offset, actualLength, sent, Concat(out));
      if read == |chunks| {
        assert chunks[..read] == chunks;
        return;
      }
      var chunk := chunks[read];
      NextChunk(chunks, read);
      assert data[skipped..skipped + |chunk|] == chunk;
      read := read + 1;
      var chunkStart := skipped;
      var chunkEnd := skipped + |chunk|;
      if chunkEnd <= offset {
        SkipChunk(data, |chunk|, skipped, offset, actualLength, sent, Concat(out));
        skipped := skipped + |chunk|;
        continue;
      }
      var sliceStart := Max(0, offset - chunkStart);
      var remaining := actualLength - sent;
      var sliceEnd := Min(|chunk|, sliceStart + remaining);
      NextSlice(data, chunk, skipped, offset, actualLength, sent, Concat(out));
      var slice := chunk[sliceStart..sliceEnd];
      ConcatSnoc(out, slice);
      out := out + [slice];
      sent := sent + |slice|;
      skipped := skipped + |chunk|;
    }
    EarlyOrDone(data, skipped, offset, actualLength, sent, Concat(out));
  }

  lemma NothingPassed(data: Bytes, offset: nat, wanted: nat)
    ensures Concat([]) == [] && Passed(data, 0, offset, wanted, 0, [])
  {
  }

  /** While something is missing the stream has not got past the slice; when nothing is, all of it has been passed on. */
  lemma EarlyOrDone(data: Bytes, skipped: nat, offset: nat, wanted: nat, sent: int, passed: Bytes)
    requires Passed(data, skipped, offset, wanted, sent, passed) && wanted > 0
    ensures sent < wanted <==> skipped < offset + wanted
    ensures skipped >= offset + wanted || skipped == |data| ==> passed == data[Min(offset, |data|)..Min(offset + wanted, |data|)]
  {
  }

  lemma SkipChunk(data: Bytes, n: nat, skipped: nat, offset: nat, wanted: nat, sent: int, passed: Bytes)
    requires Passed(data, skipped, offset, wanted, sent, passed) && skipped + n <= offset && skipped + n <= |data|
    ensures Passed(data, skipped + n, offset, wanted, sent, passed)
  {
  }

  lemma ConcatSnoc(pieces: seq<Bytes>, piece: Bytes)
    ensures Concat(pieces + [piece]) == Concat(pieces) + piece
  {
    assert (pieces + [piece])[..|pieces|] == pieces;
  }

  lemma {:induction false} PrefixOfConcat(chunks: seq<Bytes>, i: nat)
    requires i <= |chunks|
    ensures Concat(chunks[..i]) <= Concat(chunks)
  {
    if i == |chunks| {
      assert chunks[..i] == chunks;
    } else {
      PrefixOfConcat(chunks[..|chunks| - 1], i);
      assert chunks[..|chunks| - 1][..i] == chunks[..i];
    }
  }

  lemma TakeOneMore<T>(s: seq<T>, i: nat)
    requires i < |s|
    ensures s[..i + 1] == s[..i] + [s[i]]
  {
  }

  lemma NextChunk(chunks: seq<Bytes>, i: nat)
    requires i < |chunks|
    ensures Concat(chunks[..i + 1]) == Concat(chunks[..i]) + chunks[i]
    ensures Concat(chunks[..i + 1]) <= Concat(chunks)
  {
    hide Concat;
    TakeOneMore(chunks, i);
    ConcatSnoc(chunks[..i], chunks[i]);
    PrefixOfConcat(chunks, i + 1);
  }

  lemma SliceOfSlice(data: Bytes, i: nat, n: nat, a: nat, b: nat)
    requires i + n <= |data| && a <= b <= n
    ensures data[i..i + n][a..b] == data[i + a..i + b]
  {
    var left, right := data[i..i + n][a..b], data[i + a..i + b];
    assert |left| == |right| == b - a;
    forall j | 0 <= j < b - a
      ensures left[j] == right[j]
    {
      assert left[j] == data[i..i + n][a + j] == data[i + (a + j)];
      assert right[j] == data[(i + a) + j];
    }
  }

  /** The part of a chunk that is passed on continues the slice. */
  lemma NextSlice(data: Bytes, chunk: Bytes, skipped: nat, offset: nat, wanted: nat, sent: int, passed: Bytes)
    requires Passed(data, skipped, offset, wanted, sent, passed) && sent < wanted
    requires skipped + |chunk| <= |data| && data[skipped..skipped + |chunk|] == chunk && offset < skipped + |chunk|
    ensures
      var start := Max(0, offset - skipped);
      var end := Min(|chunk|, start + (wanted - sent));
      && 0 <= start <= end <= |chunk|
      && Passed(data, skipped + |chunk|, offset, wanted, sent + (end - start), passed + chunk[start..end])
  {
    var start := Max(0, offset - skipped);
    var end := Min(|chunk|, start + (wanted - sent));
    assert chunk[start..end] == data[skipped..skipped + |chunk|][start..end];
    SliceOfSlice(data, skipped, |chunk|, start, end);
    if skipped <= offset {
      assert passed == [];
    } else {
      assert passed == data[offset..skipped];
      assert data[offset..skipped] + data[skipped..skipped + end] == data[offset..skipped + end];
    }
  }

  // --- The headers of a partial response ---

  /** `Content-Range` and `Content-Length` of a partial response, and the body it goes with. */
  datatype Partial = Partial(first: int, last: int, size: nat, contentLength: int)

  function Headers(range: Range, size: nat): Partial {
    var end := Min(range.offset + range.length, size) - 1;
    Partial(range.offset, end, size, end - range.offset + 1)
  }

  /** A satisfiable range of a file of known size. */
  predicate InRange(range: Range, size: nat) {
    range.length > 0 && range.offset < size
  }

  /** The branch that decompresses: the announced length is the length of the body, and the range is what it holds. */
  method ServeRange(chunks: seq<Bytes>, range: Range, size: nat) returns (headers: Partial, body: seq<Bytes>)
    requires InRange(range, size) && |Concat(chunks)| == size
    ensures headers.contentLength == |Concat(body)| == headers.last - headers.first + 1
    ensures 0 <= headers.first <= headers.last < headers.size == size
    ensures Concat(body) == Concat(chunks)[headers.first..headers.last + 1]
    ensures headers.first == range.offset && |Concat(body)| <= range.length
  {
    var read;
    body, read := Slice(chunks, range.offset, range.length, Some(size));
    headers := Headers(range, size);
  }
}
