/** The metadata adapter of Native.Windows.cs: decoding one packed
    FILE_ID_EXTD_DIR_INFO record and advancing the cursor, the Win32 path argument
    handed to CreateFileW, the mapping of a GetFileInformationByHandleEx outcome,
    and an abstract model of the operating system those calls reach. */
module Native {
  import opened Base
  import opened BinaryPrimitives

  /** ERROR_NO_MORE_FILES: the directory query reports exhaustion. */
  const ErrorNoMoreFiles: int := 0x12

  // Byte offsets of the FILE_ID_EXTD_DIR_INFO fields the decoder reads.
  const NextEntryOffsetOffset: nat := 0
  const EndOfFileOffset: nat := 40
  const AllocationSizeOffset: nat := 48
  const FileAttributesOffset: nat := 56
  const FileNameLengthOffset: nat := 60
  const FileIdOffset: nat := 72
  const FileIdLength: nat := 16
  const FileNameOffset: nat := 88

  /** The raw 16 bytes of a FILE_ID_128. */
  type FileId128 = s: seq<Byte> | |s| == 16 witness [0, 0, 0, 0, 0, 0, 0, 0, 0, 0, 0, 0, 0, 0, 0, 0]

  /** The fields one record yields. */
  datatype DirectoryRecord = DirectoryRecord(
    endOfFile: U64,
    allocationSize: U64,
    fileAttributes: U32,
    fileId: FileId128,
    fileName: Text)

  /** The three ways `TryReadDirectoryEntryAndAdvance` can end: `false` on an empty
      cursor, `true` with a record and the advanced cursor, or the
      `ArgumentOutOfRangeException` a slice outside the span raises. */
  datatype DecodeStep =
    | Exhausted
    | Decoded(record: DirectoryRecord, rest: seq<Byte>)
    | OutOfRange

  /** `MemoryMarshal.Cast<byte, char>`: little-endian byte pairs, an odd last byte dropped. */
  function Utf16Units(bytes: seq<Byte>): (units: Text)
    ensures |units| == |bytes| / 2
    ensures forall i :: 0 <= i < |units| ==> units[i] == bytes[2 * i] as int + 0x100 * (bytes[2 * i + 1] as int)
  {
    seq(|bytes| / 2, i requires 0 <= i < |bytes| / 2 => bytes[2 * i] as int + 0x100 * (bytes[2 * i + 1] as int))
  }

  /** The signed `int` the decoder reads as `nextOffset`. */
  function NextOffset(cursor: seq<Byte>): int
    requires |cursor| >= 4
  {
    ToInt32(ReadU32(cursor, NextEntryOffsetOffset))
  }

  /** The signed `int` the decoder reads as `fileNameLength`, in bytes. */
  function FileNameLength(cursor: seq<Byte>): int
    requires |cursor| >= FileNameOffset
  {
    ToInt32(ReadU32(cursor, FileNameLengthOffset))
  }

  /** Every slice the decoder takes of a non-empty cursor lies inside it. */
  predicate SlicesInBounds(cursor: seq<Byte>) {
    && |cursor| >= FileNameOffset
    && 0 <= FileNameLength(cursor) <= |cursor| - FileNameOffset
    && NextOffset(cursor) <= |cursor|
  }

  /** `Native.TryReadDirectoryEntryAndAdvance` on the cursor `bufferSpan`: the
      record at its start, and the cursor it leaves behind. */
  function TryReadDirectoryEntryAndAdvance(cursor: seq<Byte>): (step: DecodeStep)
    ensures step.Exhausted? <==> cursor == []
    ensures step.OutOfRange? <==> cursor != [] && !SlicesInBounds(cursor)
    ensures step.Decoded? ==>
      && SlicesInBounds(cursor)
      && step.record.endOfFile == ReadU64(cursor, EndOfFileOffset)
      && step.record.allocationSize == ReadU64(cursor, AllocationSizeOffset)
      && step.record.fileAttributes == ReadU32(cursor, FileAttributesOffset)
      && step.record.fileId == cursor[FileIdOffset..FileIdOffset + FileIdLength]
      && step.record.fileName == Utf16Units(cursor[FileNameOffset..FileNameOffset + FileNameLength(cursor)])
      && |step.record.fileName| == FileNameLength(cursor) / 2
    ensures step.Decoded? ==> |step.rest| < |cursor|
    ensures step.Decoded? && NextOffset(cursor) > 0 ==> step.rest == cursor[NextOffset(cursor)..]
    ensures step.Decoded? && NextOffset(cursor) <= 0 ==> step.rest == []
  {
    if |cursor| == 0 then Exhausted
    else if !SlicesInBounds(cursor) then OutOfRange
    else
      var nextOffset := NextOffset(cursor);
      var fileNameLength := FileNameLength(cursor);
      var record := DirectoryRecord(
        ReadU64(cursor, EndOfFileOffset),
        ReadU64(cursor, AllocationSizeOffset),
        ReadU32(cursor, FileAttributesOffset),
        cursor[FileIdOffset..][..FileIdLength],
        Utf16Units(cursor[FileNameOffset..][..fileNameLength]));
      Decoded(record, if nextOffset > 0 then cursor[nextOffset..] else [])
  }

  /** The records a batch holds, in `NextEntryOffset` order, and whether the walk
      reached the end of the chain (`false`: it stopped at an out-of-range record). */
  datatype Chain = Chain(records: seq<DirectoryRecord>, complete: bool)

  /** Decoding a batch until the decoder returns `false`; the recursion is well
      founded because every successful step leaves a strictly shorter cursor. */
  function DecodeChain(cursor: seq<Byte>): (c: Chain)
    ensures |c.records| <= |cursor|
    ensures cursor == [] ==> c == Chain([], true)
    decreases |cursor|
  {
    match TryReadDirectoryEntryAndAdvance(cursor)
    case Exhausted => Chain([], true)
    case OutOfRange => Chain([], false)
    case Decoded(record, rest) =>
      var tail := DecodeChain(rest);
      Chain([record] + tail.records, tail.complete)
  }

  // ---------------------------------------------------------------------------
  // The writer side of the layout, to state what the decoder recovers.

  function Zeros(n: nat): (z: seq<Byte>)
    ensures |z| == n && forall i :: 0 <= i < n ==> z[i] == 0
  {
    seq(n, _ => 0)
  }

  function Utf16Bytes(units: Text): (bytes: seq<Byte>)
    ensures |bytes| == 2 * |units|
  {
    if units == [] then [] else [units[0] % 0x100, units[0] / 0x100] + Utf16Bytes(units[1..])
  }

  lemma {:induction false} Utf16BytesAt(units: Text, i: nat)
    requires i < |units|
    ensures Utf16Bytes(units)[2 * i] == units[i] % 0x100
    ensures Utf16Bytes(units)[2 * i + 1] == units[i] / 0x100
  {
    if i > 0 {
      Utf16BytesAt(units[1..], i - 1);
    }
  }

  lemma Utf16RoundTrip(units: Text)
    ensures Utf16Units(Utf16Bytes(units)) == units
  {
    var back := Utf16Units(Utf16Bytes(units));
    forall i | 0 <= i < |units| ensures back[i] == units[i] {
      Utf16BytesAt(units, i);
    }
  }

  /** A record the layout can carry: its length fits a non-negative `int`. */
  predicate Encodable(r: DirectoryRecord) {
    FileNameOffset + 2 * |r.fileName| < 0x8000_0000
  }

  /** The bytes of one record with the given `NextEntryOffset`; the fields the
      decoder skips (times, FileIndex, EaSize, ReparsePointTag) are zero. */
  function EncodeRecord(r: DirectoryRecord, nextOffset: U32): (bytes: seq<Byte>)
    requires Encodable(r)
    ensures |bytes| == FileNameOffset + 2 * |r.fileName|
  {
    U32Bytes(nextOffset) + Zeros(36) + U64Bytes(r.endOfFile) + U64Bytes(r.allocationSize)
      + U32Bytes(r.fileAttributes) + U32Bytes(2 * |r.fileName|) + Zeros(8) + r.fileId + Utf16Bytes(r.fileName)
  }

  /** The fixed-offset reads of an encoded record give back what was written. */
  lemma EncodedSizes(r: DirectoryRecord, nextOffset: U32, tail: seq<Byte>)
    requires Encodable(r)
    ensures var bytes := EncodeRecord(r, nextOffset) + tail;
      && ReadU32(bytes, NextEntryOffsetOffset) == nextOffset
      && ReadU64(bytes, EndOfFileOffset) == r.endOfFile
      && ReadU64(bytes, AllocationSizeOffset) == r.allocationSize
  {
    var enc := EncodeRecord(r, nextOffset);
    var bytes := enc + tail;
    assert bytes == [] + U32Bytes(nextOffset) + (enc[4..] + tail);
    ReadU32OfU32Bytes(nextOffset, [], enc[4..] + tail);
    assert bytes == enc[..40] + U64Bytes(r.endOfFile) + (enc[48..] + tail);
    ReadU64OfU64Bytes(r.endOfFile, enc[..40], enc[48..] + tail);
    assert bytes == enc[..48] + U64Bytes(r.allocationSize) + (enc[56..] + tail);
    ReadU64OfU64Bytes(r.allocationSize, enc[..48], enc[56..] + tail);
  }

  lemma EncodedAttributes(r: DirectoryRecord, nextOffset: U32, tail: seq<Byte>)
    requires Encodable(r)
    ensures var bytes := EncodeRecord(r, nextOffset) + tail;
      && ReadU32(bytes, FileAttributesOffset) == r.fileAttributes
      && ReadU32(bytes, FileNameLengthOffset) == 2 * |r.fileName|
  {
    var enc := EncodeRecord(r, nextOffset);
    var bytes := enc + tail;
    assert bytes == enc[..56] + U32Bytes(r.fileAttributes) + (enc[60..] + tail);
    ReadU32OfU32Bytes(r.fileAttributes, enc[..56], enc[60..] + tail);
    assert bytes == enc[..60] + U32Bytes(2 * |r.fileName|) + (enc[64..] + tail);
    ReadU32OfU32Bytes(2 * |r.fileName|, enc[..60], enc[64..] + tail);
  }

  /** The id and name slices of an encoded record are the id and the name's bytes. */
  lemma EncodedSlices(r: DirectoryRecord, nextOffset: U32, tail: seq<Byte>)
    requires Encodable(r)
    ensures var bytes := EncodeRecord(r, nextOffset) + tail;
      && bytes[FileIdOffset..FileIdOffset + FileIdLength] == r.fileId
      && Utf16Units(bytes[FileNameOffset..FileNameOffset + 2 * |r.fileName|]) == r.fileName
  {
    var bytes := EncodeRecord(r, nextOffset) + tail;
    assert bytes[FileIdOffset..FileIdOffset + FileIdLength] == r.fileId;
    assert bytes[FileNameOffset..FileNameOffset + 2 * |r.fileName|] == Utf16Bytes(r.fileName);
    Utf16RoundTrip(r.fileName);
  }

  /** Round trip of one record: its fields come back, and a positive
      `NextEntryOffset` moves the cursor exactly that far, a zero one empties it. */
  lemma DecodeEncodedRecord(r: DirectoryRecord, nextOffset: U32, tail: seq<Byte>)
    requires Encodable(r)
    requires nextOffset < 0x8000_0000
    requires nextOffset <= FileNameOffset + 2 * |r.fileName| + |tail|
    ensures var bytes := EncodeRecord(r, nextOffset) + tail;
      TryReadDirectoryEntryAndAdvance(bytes)
        == Decoded(r, if nextOffset == 0 then [] else bytes[nextOffset..])
  {
    EncodedSizes(r, nextOffset, tail);
    EncodedAttributes(r, nextOffset, tail);
    EncodedSlices(r, nextOffset, tail);
  }

  /** A batch as the operating system lays it out: each record's `NextEntryOffset`
      is its own length, the last one's is zero. */
  function EncodeBatch(records: seq<DirectoryRecord>): (bytes: seq<Byte>)
    requires forall r :: r in records ==> Encodable(r)
  {
    if records == [] then []
    else
      var first := records[0];
      assert first in records;
      EncodeRecord(first, NextOffsetFor(records)) + EncodeBatch(records[1..])
  }

  /** The `NextEntryOffset` of the first record of a laid-out batch. */
  function NextOffsetFor(records: seq<DirectoryRecord>): (next: U32)
    requires records != [] && Encodable(records[0])
    ensures next < 0x8000_0000
  {
    if |records| == 1 then 0 else FileNameOffset + 2 * |records[0].fileName|
  }

  lemma DecodeFirstOfBatch(records: seq<DirectoryRecord>)
    requires records != []
    requires forall r :: r in records ==> Encodable(r)
    ensures TryReadDirectoryEntryAndAdvance(EncodeBatch(records)) == Decoded(records[0], EncodeBatch(records[1..]))
  {
    var first := records[0];
    assert first in records;
    var next := NextOffsetFor(records);
    var rest := EncodeBatch(records[1..]);
    var bytes := EncodeRecord(first, next) + rest;
    assert bytes == EncodeBatch(records);
    DecodeEncodedRecord(first, next, rest);
    if next == 0 {
      assert records[1..] == [];
    } else {
      assert bytes[next..] == rest;
    }
  }

  /** Decoding a well-laid-out batch yields exactly its records, in order, and
      reaches the end of the chain. */
  lemma {:induction false} DecodeEncodedBatch(records: seq<DirectoryRecord>)
    requires forall r :: r in records ==> Encodable(r)
    ensures DecodeChain(EncodeBatch(records)) == Chain(records, true)
  {
    if records != [] {
      DecodeFirstOfBatch(records);
      DecodeEncodedBatch(records[1..]);
      assert [records[0]] + records[1..] == records;
    }
  }

  // ---------------------------------------------------------------------------
  // Opening a directory.

  /** The `\\?\` prefix that makes CreateFileW take the path verbatim. */
  const Win32Prefix: Text := [Backslash, Backslash, QuestionMark, Backslash]

  /** The path CreateFileW sees in a NUL-terminated argument: what follows the
      `\\?\` prefix up to the first NUL, or None without the prefix. */
  function ArgumentPath(argument: Text): (path: Option<Text>)
    ensures path.Some? ==> Nul !in path.value
  {
    if |argument| >= 4 && argument[..4] == Win32Prefix then
      var body := argument[4..];
      var end := IndexOf(body, Nul);
      Some(if end < 0 then body else body[..end])
    else None
  }

  /** CreateFileW sees exactly the path the argument was built from, unless that
      path holds a NUL, where the C string ends early. */
  lemma ArgumentPathOfPrefixed(path: Text)
    ensures Nul !in path ==> ArgumentPath(Win32Prefix + path + [Nul]) == Some(path)
    ensures Nul in path ==> ArgumentPath(Win32Prefix + path + [Nul]) == Some(path[..IndexOf(path, Nul)])
  {
    var argument := Win32Prefix + path + [Nul];
    assert argument[..4] == Win32Prefix;
    assert argument[4..] == path + [Nul];
    if Nul in path {
      IndexOfAppend(path, [Nul], Nul);
      var k := IndexOf(path, Nul);
      assert (path + [Nul])[..k] == path[..k];
    } else {
      assert IndexOf(path + [Nul], Nul) == |path|;
      assert (path + [Nul])[..|path|] == path;
    }
  }

  /** The stack buffer `TryOpenDirectoryForRead` fills: the prefix, the path, a NUL. */
  method BuildPathArgument(path: Text) returns (argument: Text)
    ensures |argument| == |Win32Prefix| + |path| + 1
    ensures argument[..4] == Win32Prefix && argument[4..|argument| - 1] == path && argument[|argument| - 1] == Nul
    ensures Nul !in path ==> ArgumentPath(argument) == Some(path)
    ensures Nul in path ==> ArgumentPath(argument) == Some(path[..IndexOf(path, Nul)])
  {
    var buffer := new CodeUnit[|Win32Prefix| + |path| + 1];
    var i := 0;
    while i < |Win32Prefix|
      invariant 0 <= i <= |Win32Prefix|
      invariant buffer[..i] == Win32Prefix[..i]
    {
      buffer[i] := Win32Prefix[i];
      i := i + 1;
    }
    var j := 0;
    while j < |path|
      invariant 0 <= j <= |path|
      invariant buffer[..4] == Win32Prefix
      invariant buffer[4..4 + j] == path[..j]
    {
      buffer[4 + j] := path[j];
      j := j + 1;
    }
    buffer[buffer.Length - 1] := Nul;
    argument := buffer[..];
    assert argument == Win32Prefix + path + [Nul];
    ArgumentPathOfPrefixed(path);
  }

  // ---------------------------------------------------------------------------
  // The operating system, as the traversal sees it.

  /** What successive GetFileInformationByHandleEx calls give for an open directory:
      each batch is the buffer content after one successful call; after the last
      batch the call fails with `lastError` (the raw Win32 code). */
  datatype Listing = Listing(batches: seq<seq<Byte>>, lastError: int)

  datatype OpenResult = Opened(listing: Listing) | OpenFailed(error: int)

  /** A finite file system: every path it knows opens or fails as given; any other
      path fails with `missingError`. */
  datatype FileSystem = FileSystem(dirs: map<Text, OpenResult>, missingError: int)

  function Open(fs: FileSystem, path: Text): OpenResult {
    if path in fs.dirs then fs.dirs[path] else OpenFailed(fs.missingError)
  }

  /** CreateFileW on a Win32 argument. */
  function CreateFileW(fs: FileSystem, argument: Text): OpenResult {
    match ArgumentPath(argument)
    case Some(path) => Open(fs, path)
    case None => OpenFailed(fs.missingError)
  }

  /** One GetFileInformationByHandleEx call, as the OS reports it. */
  datatype QueryCall = QuerySucceeded | QueryFailed(lastError: int)

  /** The `(bool, error)` pair `TryReadDirectoryEntries` returns for a call. */
  datatype QueryResult = QueryResult(more: bool, error: int)

  /** `TryReadDirectoryEntries`: only success continues; a failure reports its code,
      except ERROR_NO_MORE_FILES, which means "exhausted" and reports no error. */
  function MapQueryResult(call: QueryCall): (r: QueryResult)
    ensures r.more <==> call.QuerySucceeded?
    ensures r.more ==> r.error == 0
    ensures call.QueryFailed? && call.lastError == ErrorNoMoreFiles ==> r == QueryResult(false, 0)
    ensures call.QueryFailed? && call.lastError != ErrorNoMoreFiles ==> r == QueryResult(false, call.lastError)
    ensures r.error != 0 ==> call.QueryFailed? && r.error == call.lastError
  {
    match call
    case QuerySucceeded => QueryResult(true, 0)
    case QueryFailed(lastError) => QueryResult(false, if lastError == ErrorNoMoreFiles then 0 else lastError)
  }

  /** The error the traversal is left with once a listing is exhausted. */
  function FinalError(listing: Listing): int {
    MapQueryResult(QueryFailed(listing.lastError)).error
  }

  /** An open directory handle; the only state it has is how far the listing has been read. */
  class DirectoryHandle {
    const listing: Listing
    var position: nat

    constructor (listing: Listing)
      ensures this.listing == listing && position == 0
    {
      this.listing := listing;
      position := 0;
    }

    /** `TryReadDirectoryEntries(handle, buffer, out error)`: the next batch into the
        buffer, or the mapped final error once the listing is exhausted. */
    method TryReadDirectoryEntries() returns (more: bool, error: int, batch: seq<Byte>)
      modifies this
      ensures old(position) < |listing.batches| ==>
        more && error == 0 && batch == listing.batches[old(position)] && position == old(position) + 1
      ensures old(position) >= |listing.batches| ==>
        !more && error == FinalError(listing) && batch == [] && position == old(position)
    {
      var call := if position < |listing.batches| then QuerySucceeded else QueryFailed(listing.lastError);
      var result := MapQueryResult(call);
      more, error := result.more, result.error;
      if more {
        batch := listing.batches[position];
        position := position + 1;
      } else {
        batch := [];
      }
    }
  }

  /** `Native.TryOpenDirectoryForRead`: build the argument and ask CreateFileW. */
  method TryOpenDirectoryForRead(fs: FileSystem, path: Text) returns (ok: bool, handle: DirectoryHandle?, error: int)
    ensures var outcome := CreateFileW(fs, Win32Prefix + path + [Nul]);
      && (ok <==> outcome.Opened?)
      && (ok ==> handle != null && fresh(handle) && handle.listing == outcome.listing && handle.position == 0 && error == 0)
      && (!ok ==> error == outcome.error)
    ensures Nul !in path ==> CreateFileW(fs, Win32Prefix + path + [Nul]) == Open(fs, path)
  {
    var argument := BuildPathArgument(path);
    assert argument == Win32Prefix + path + [Nul];
    match CreateFileW(fs, argument)
    case Opened(listing) =>
      ok, error := true, 0;
      handle := new DirectoryHandle(listing);
    case OpenFailed(code) =>
      ok, handle, error := false, null, code;
  }
}
