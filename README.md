# jt-canhasfreespace: the directory walk and the CSV writer, modelled in Dafny

`jt-canhasfreespace` is a Windows command-line tool. It lists every file below a
root directory and writes one CSV row per file: the file id, the end-of-file
size, the allocation size, the extension, the MIME type split at its first
`/`, and the directory split into one column per level. This project models
the three files that do the work and proves properties of the model:

- `Native.Windows.cs` pieces, in module `Native`:
  - the `\\?\`-prefixed, NUL-terminated argument that `TryOpenDirectoryForRead`
    gives to `CreateFileW`;
  - the mapping from a `GetFileInformationByHandleEx` result to
    `TryReadDirectoryEntries`' `(bool, error)`, where `ERROR_NO_MORE_FILES`
    (0x12) means exhausted;
  - the `FILE_ID_EXTD_DIR_INFO` decoder `TryReadDirectoryEntryAndAdvance`.

  The decoder reads
  - `NextEntryOffset` at 0;
  - `EndOfFile` at 40;
  - `AllocationSize` at 48;
  - `FileAttributes` at 56;
  - `FileNameLength` at 60;
  - the 16-byte `FileId` at 72;
  - the UTF-16 name at 88.

  It moves the cursor to `NextEntryOffset`, or to the empty span when that
  offset is not positive. It throws `ArgumentOutOfRangeException` when a slice
  falls outside the buffer.

  Module `BinaryPrimitives` holds the little-endian readers it uses: `ReadU32`,
  `ReadU64` and the `(int)` cast `ToInt32`. Module `Base` holds code units and
  `IndexOf`.
- `WindowsFileEnumerator.cs`, in module `WindowsFileEnumerator`: the
  depth-first walk `Enumerate`. It keeps a stack of directories.
  - They are popped last-in first-out.
  - A directory that cannot be opened is reported to the failure callback.
  - Its records are read batch after batch and record after record.
  - `.` and `..` are skipped.
  - A file id wider than 64 bits ends the walk with `NotSupportedException`.
  - Every other record goes to the accept callback.
  - A non-reparse-point subdirectory is pushed as a freshly allocated path
    (`Path.TryJoin`, modelled in module `Path` together with
    `Path.GetExtension`).
  - A non-zero final error is reported once the listing is done.

  Module `EnumeratorProperties` gives the walk an independent reference
  meaning. It then proves what every finished or aborted walk satisfies.
  Module `TraversalMeasure` is the termination measure.
- `CsvWriter.cs`, in modules `CsvFormat` (the text the writer must produce, and
  a CSV reader to state round trips against) and `CsvWriting` (the class
  `CsvWriter` with its `StringBuilder` and the directory cache in
  `lastDirectory`/`lastDirectorySerialized`). `WriteHeader` writes the six
  fixed column names and `p00`…`p11`. `WriteRow` writes `fileId`,
  `endOfFile`, `allocationSize`, the extension without its dot, the MIME type
  and subtype, the directory columns and the escaped file name. The directory
  columns often come from the cache. `WriteDirectoryPath` splits the
  directory at `\` into at most 12 columns. `EscapeAndWrite` leaves a field
  holding neither `,` nor `"` as it is, and otherwise quotes it, doubling
  any `"`.

The operating system is a parameter. A `FileSystem` value says, for every
path, whether `CreateFileW` opens it and which batches of raw bytes
`GetFileInformationByHandleEx` then returns, followed by which final error.
The two callbacks become the result of `Enumerate`: the sequence of
`Accepted` and `DirectoryFailed` events it makes, in order, and whether it
completed or threw. A `ReadOnlyMemory<char>` directory is a `DirectoryRef`:
its text plus an identity. Each `new char[]` the walk allocates gets a fresh
identity, and the root gets identity 0. The writer's cache compares those
identities, as `ReadOnlyMemory.Equals` compares the underlying object and range.

What writing a row looks like as a CSV line:
- A directory with `k <= 12` components gives `6 + k + 1` fields: the file
  name follows the last directory column.
- With 12 components the row has 19 fields against 18 header names.
- With more than 12 components, the rest of the path after the twelfth
  component is escaped, followed by `\` and then the escaped file name with
  no comma in between. That last field may contain stray quotes.

`RowRoundTrip` is therefore stated for directories of at most 12 components.
Line breaks inside a field are not quoted by the source. The CSV reader in
`CsvFormat` reads one line and does not split lines.

## Model

| member | source | states |
|---|---|---|
| Base.IndexOf | src/Jt.CanHasFreeSpace.Cli/CsvWriter.cs:121 | `Span.IndexOf`: -1 exactly when the unit is absent, otherwise the position of its first occurrence |
| Base.IndexOfAppend | src/Jt.CanHasFreeSpace.Cli/CsvWriter.cs:121 | the first occurrence in `s` is still the first once text is appended |
| Base.Units | src/Jt.CanHasFreeSpace.Cli/CsvWriter.cs:26 | a string literal's UTF-16 code units, one per character |
| BinaryPrimitives.ReadU32 | src/Jt.CanHasFreeSpace.Cli/Native.Windows.cs:128-133 | little-endian: the byte at the offset is the lowest, the one three further the highest |
| BinaryPrimitives.ReadU64 | src/Jt.CanHasFreeSpace.Cli/Native.Windows.cs:129-130 | little-endian: the low 32-bit word first, then the high one |
| BinaryPrimitives.ToInt32 | src/Jt.CanHasFreeSpace.Cli/Native.Windows.cs:128-133 | the `(int)` cast of a `uint`: in the 32-bit signed range, positive exactly for 1..2^31-1, unchanged when not negative |
| BinaryPrimitives.ReadU32OfU32Bytes | src/Jt.CanHasFreeSpace.Cli/Native.Windows.cs:128-133 | reading back four little-endian bytes anywhere in a buffer gives the number written |
| BinaryPrimitives.ReadU64OfU64Bytes | src/Jt.CanHasFreeSpace.Cli/Native.Windows.cs:129-130 | the same round trip for eight bytes |
| BinaryPrimitives.ReadU64ZeroIff | src/Jt.CanHasFreeSpace.Cli/WindowsFileEnumerator.cs:62 | an eight-byte read is zero iff all eight bytes are zero |
| Path.ExtensionScan | src/Jt.CanHasFreeSpace.Cli/CsvWriter.cs:47 | the backward scan of `Path.GetExtension`: a suffix starting at a `.`, of length at least 2, with no `.`, `\` or `/` after it; empty only when no `.` is followed by a non-empty marker-free tail |
| Path.GetExtension | src/Jt.CanHasFreeSpace.Cli/CsvWriter.cs:47 | `.` plus the marker-free tail of the final component, or empty when there is none |
| Path.Join | src/Jt.CanHasFreeSpace.Cli/WindowsFileEnumerator.cs:77 | both paths in order, with one `\` between them exactly when neither is empty and neither has a separator at the seam |
| Path.TryJoin | src/Jt.CanHasFreeSpace.Cli/WindowsFileEnumerator.cs:76-82 | succeeds iff the joined path fits the destination, and then gives the joined path |
| Path.JoinFitsTraversalBuffer | src/Jt.CanHasFreeSpace.Cli/WindowsFileEnumerator.cs:76-80 | a buffer of `directory.Length + 1 + fileName.Length` always suffices, so `CodeBugException` is never thrown; a non-empty name gives a strictly longer path |
| Native.Utf16RoundTrip | src/Jt.CanHasFreeSpace.Cli/Native.Windows.cs:134 | `MemoryMarshal.Cast<byte, char>` gives back every code unit written as a little-endian pair |
| Native.Utf16BytesAt | src/Jt.CanHasFreeSpace.Cli/Native.Windows.cs:134 | a unit is stored as its low byte, then its high byte |
| Native.Utf16Units | src/Jt.CanHasFreeSpace.Cli/Native.Windows.cs:134 | `MemoryMarshal.Cast<byte, char>`: one unit per little-endian byte pair, an odd last byte dropped; `Utf16RoundTrip` is its inverse |
| Native.TryReadDirectoryEntryAndAdvance | src/Jt.CanHasFreeSpace.Cli/Native.Windows.cs:100-141 | false (Exhausted) iff the cursor is empty; throws (OutOfRange) iff it is non-empty and a slice falls outside it; otherwise the fields are read at offsets 40, 48, 56, the id as bytes 72..88, the name from 88 for `FileNameLength` bytes; the cursor moves to `NextEntryOffset` when that is positive, to empty otherwise, and always gets shorter |
| Native.DecodeChain | src/Jt.CanHasFreeSpace.Cli/WindowsFileEnumerator.cs:45-51 | the records of one buffer in `NextEntryOffset` order, never more than its length, and whether the chain ended normally; an empty buffer has none |
| Native.EncodedSizes | src/Jt.CanHasFreeSpace.Cli/Native.Windows.cs:121-130 | in a record written with the `FILE_ID_EXTD_DIR_INFO` layout, the next offset, end of file and allocation size read back unchanged |
| Native.EncodedAttributes | src/Jt.CanHasFreeSpace.Cli/Native.Windows.cs:123-133 | the attributes and the name length (twice the units) read back unchanged |
| Native.EncodedSlices | src/Jt.CanHasFreeSpace.Cli/Native.Windows.cs:125-134 | the 16-byte file id and the name read back unchanged |
| Native.DecodeEncodedRecord | src/Jt.CanHasFreeSpace.Cli/Native.Windows.cs:120-140 | decoding a written record gives that record and the cursor at its next offset |
| Native.DecodeFirstOfBatch | src/Jt.CanHasFreeSpace.Cli/Native.Windows.cs:136-138 | decoding a written batch gives its first record, and the rest of the batch as the new cursor |
| Native.DecodeEncodedBatch | src/Jt.CanHasFreeSpace.Cli/Native.Windows.cs:100-141 | decoding a whole written batch gives back all its records, in order, with a complete chain |
| Native.ArgumentPath | src/Jt.CanHasFreeSpace.Cli/Native.Windows.cs:22-24 | what `CreateFileW` sees in a `\\?\` argument: the text up to the first NUL, which is NUL-free |
| Native.ArgumentPathOfPrefixed | src/Jt.CanHasFreeSpace.Cli/Native.Windows.cs:14-18 | prefix + path + NUL shows `CreateFileW` exactly the path when it has no NUL, and the path up to its first NUL otherwise |
| Native.Open | src/Jt.CanHasFreeSpace.Cli/Native.Windows.cs:22-37 | the directory the file system opens for a path, or its open error; a path it does not know fails with its missing-path error |
| Native.CreateFileW | src/Jt.CanHasFreeSpace.Cli/Native.Windows.cs:22-37 | `CreateFileW` on a Win32 argument: opens the path the argument shows after `\\?\` up to its first NUL (`ArgumentPath`), and fails otherwise |
| Native.BuildPathArgument | src/Jt.CanHasFreeSpace.Cli/Native.Windows.cs:14-18 | the stack buffer has length 4 + path + 1 and holds `\\?\`, the path and a NUL, in that order, so `CreateFileW` sees the path |
| Native.MapQueryResult | src/Jt.CanHasFreeSpace.Cli/Native.Windows.cs:78-96 | true iff the call succeeded, and then error 0; `ERROR_NO_MORE_FILES` gives (false, 0); any other failure gives (false, its code); a non-zero error is always the call's own |
| Native.FinalError | src/Jt.CanHasFreeSpace.Cli/Native.Windows.cs:84-92 | the error `TryReadDirectoryEntries` reports once a listing is exhausted: 0 for `ERROR_NO_MORE_FILES`, the last error otherwise (by `MapQueryResult`) |
| Native.DirectoryHandle.constructor | src/Jt.CanHasFreeSpace.Cli/Native.Windows.cs:22-31 | a handle on a listing, nothing read yet |
| Native.DirectoryHandle.TryReadDirectoryEntries | src/Jt.CanHasFreeSpace.Cli/Native.Windows.cs:72-98 | while batches remain: true, error 0, the next batch, one step on; afterwards: false with the mapped final error and no progress |
| Native.TryOpenDirectoryForRead | src/Jt.CanHasFreeSpace.Cli/Native.Windows.cs:12-42 | true iff `CreateFileW` opens the built argument, then a fresh handle at the start of that listing and error 0; otherwise the open error; for a NUL-free path this is opening the path itself |
| WindowsFileEnumerator.Push | src/Jt.CanHasFreeSpace.Cli/WindowsFileEnumerator.cs:76-83 | the new path goes on top of the stack with the next fresh identity; events and visited directories unchanged |
| WindowsFileEnumerator.Pop | src/Jt.CanHasFreeSpace.Cli/WindowsFileEnumerator.cs:31 | `TryPop`: the top of the stack leaves it and becomes the next visited directory |
| WindowsFileEnumerator.IsSelfOrParent | src/Jt.CanHasFreeSpace.Cli/WindowsFileEnumerator.cs:53-55 | a name that is exactly `.` or `..`; `KeptMember` and `EnumerationInvariants` show that no accept callback names one |
| WindowsFileEnumerator.LowFileId | src/Jt.CanHasFreeSpace.Cli/WindowsFileEnumerator.cs:64-71 | the file id given to the accept callback: the low eight bytes, little-endian |
| WindowsFileEnumerator.HighFileId | src/Jt.CanHasFreeSpace.Cli/WindowsFileEnumerator.cs:62 | the upper eight bytes of the file id read as a number; `WideFileId` shows it is non-zero iff one of those bytes is |
| WindowsFileEnumerator.IsTraversable | src/Jt.CanHasFreeSpace.Cli/WindowsFileEnumerator.cs:73-74 | a directory that is not a reparse point: the attribute test that decides a push |
| WindowsFileEnumerator.AcceptRecord | src/Jt.CanHasFreeSpace.Cli/WindowsFileEnumerator.cs:53-84 | the record loop body: `.`/`..` skipped, a 128-bit id refused with `NotSupportedException`, otherwise one accept callback, then a push of the joined path for a traversable directory; `ExtendOne` ties it to the reference handling and `AcceptEntry` computes it |
| WindowsFileEnumerator.ScanRecords | src/Jt.CanHasFreeSpace.Cli/WindowsFileEnumerator.cs:45-85 | the record loop over one buffer: decode, handle, stop at a decoder exception or a refused record; `ScanRecordsMeaning` gives its meaning and `ReadBuffer` computes it |
| WindowsFileEnumerator.ReportError | src/Jt.CanHasFreeSpace.Cli/WindowsFileEnumerator.cs:88-91 | the failure callback for a non-zero final error, nothing for 0 |
| WindowsFileEnumerator.ScanBatches | src/Jt.CanHasFreeSpace.Cli/WindowsFileEnumerator.cs:41-91 | the batch loop, then the final error report; `ScanBatchesMeaning` gives its meaning and `ReadListing` computes it |
| WindowsFileEnumerator.VisitDirectory | src/Jt.CanHasFreeSpace.Cli/WindowsFileEnumerator.cs:33-92 | one turn of the outer loop: an open failure reported and the walk goes on, or the opened listing scanned; `VisitMeaning` gives its meaning |
| WindowsFileEnumerator.Start | src/Jt.CanHasFreeSpace.Cli/WindowsFileEnumerator.cs:28-29 | the walk begins with no callbacks, nothing visited, and a stack holding only the root's memory, with identity 0; `EnumerationInvariants` starts its induction from it |
| WindowsFileEnumerator.Run | src/Jt.CanHasFreeSpace.Cli/WindowsFileEnumerator.cs:28-95 | the outer loop until the stack is empty or a fault stops it; well founded by `VisitShrinks`; `Enumerate` computes it and `EnumerationInvariants` and `EnumerationOrder` state what it guarantees |
| WindowsFileEnumerator.AcceptRecordPushes | src/Jt.CanHasFreeSpace.Cli/WindowsFileEnumerator.cs:53-84 | one record pushes at most one directory, strictly longer than its parent, NUL-free when its parent is, and leaves the stack below intact |
| WindowsFileEnumerator.PushesChildrenTransitive | src/Jt.CanHasFreeSpace.Cli/WindowsFileEnumerator.cs:45-85 | those push bounds add up over consecutive steps |
| WindowsFileEnumerator.ScanRecordsPushes | src/Jt.CanHasFreeSpace.Cli/WindowsFileEnumerator.cs:45-85 | one buffer pushes at most as many directories as it has bytes, each a child of the directory being read |
| WindowsFileEnumerator.TotalBytesFrom | src/Jt.CanHasFreeSpace.Cli/WindowsFileEnumerator.cs:41-43 | the size of the remaining batches is the current one plus the rest |
| WindowsFileEnumerator.ScanBatchesPushes | src/Jt.CanHasFreeSpace.Cli/WindowsFileEnumerator.cs:41-91 | a whole listing pushes at most its total size in children |
| WindowsFileEnumerator.VisitShrinks | src/Jt.CanHasFreeSpace.Cli/WindowsFileEnumerator.cs:31-92 | one turn of the outer loop keeps every stacked path NUL-free and strictly lowers the termination measure, so the walk ends |
| WindowsFileEnumerator.Enumerate | src/Jt.CanHasFreeSpace.Cli/WindowsFileEnumerator.cs:21-96 | the events and outcome are those of `Run` from the stack holding only the root |
| WindowsFileEnumerator.ReadListing | src/Jt.CanHasFreeSpace.Cli/WindowsFileEnumerator.cs:39-92 | the batch loop and the final error report compute `ScanBatches` of the whole listing |
| WindowsFileEnumerator.ReadBuffer | src/Jt.CanHasFreeSpace.Cli/WindowsFileEnumerator.cs:43-85 | the record loop computes `ScanRecords` of the buffer |
| WindowsFileEnumerator.AcceptEntry | src/Jt.CanHasFreeSpace.Cli/WindowsFileEnumerator.cs:53-84 | the loop body computes `AcceptRecord`: skip `.`/`..`, throw on a 128-bit id, accept, push a traversable directory |
| TraversalMeasure.Pow | src/Jt.CanHasFreeSpace.Cli/WindowsFileEnumerator.cs:31 | a power of a positive base is positive |
| TraversalMeasure.PowMonotonic | src/Jt.CanHasFreeSpace.Cli/WindowsFileEnumerator.cs:31 | powers of a positive base grow with the exponent |
| TraversalMeasure.BoundOverCovers | src/Jt.CanHasFreeSpace.Cli/WindowsFileEnumerator.cs:31 | the bound over a set of known paths covers each of them |
| TraversalMeasure.BoundCovers | src/Jt.CanHasFreeSpace.Cli/WindowsFileEnumerator.cs:31-43 | every known path, and the byte size of every listing, is within the file system's bound |
| TraversalMeasure.PathWeight | src/Jt.CanHasFreeSpace.Cli/WindowsFileEnumerator.cs:31 | every stacked directory weighs at least 1 |
| TraversalMeasure.WeightAppend | src/Jt.CanHasFreeSpace.Cli/WindowsFileEnumerator.cs:83 | the weight of a stack is the sum of its parts |
| TraversalMeasure.ChildrenWeight | src/Jt.CanHasFreeSpace.Cli/WindowsFileEnumerator.cs:76-83 | children strictly longer than their parent each weigh at most one rank less |
| TraversalMeasure.ChildrenLighter | src/Jt.CanHasFreeSpace.Cli/WindowsFileEnumerator.cs:76-83 | boundedly many longer children weigh less than their parent |
| TraversalMeasure.ReplaceByChildrenDecreases | src/Jt.CanHasFreeSpace.Cli/WindowsFileEnumerator.cs:31-83 | replacing the popped directory by its children lowers the stack's weight |
| TraversalMeasure.PopDecreases | src/Jt.CanHasFreeSpace.Cli/WindowsFileEnumerator.cs:31 | popping lowers the weight by the popped directory's weight |
| EnumeratorProperties.Entries | src/Jt.CanHasFreeSpace.Cli/WindowsFileEnumerator.cs:45-51 | one item per decoded record |
| EnumeratorProperties.FirstFault | src/Jt.CanHasFreeSpace.Cli/WindowsFileEnumerator.cs:45-69 | the position of the first item that stops the walk (a broken chain or a 128-bit id), or the length; no item before it is faulty |
| EnumeratorProperties.AcceptedEvents | src/Jt.CanHasFreeSpace.Cli/WindowsFileEnumerator.cs:71 | one accept callback per kept record |
| EnumeratorProperties.Numbered | src/Jt.CanHasFreeSpace.Cli/WindowsFileEnumerator.cs:76-83 | one fresh directory per pushed path |
| EnumeratorProperties.KeptAppend | src/Jt.CanHasFreeSpace.Cli/WindowsFileEnumerator.cs:53-60 | dropping `.`/`..` commutes with concatenation |
| EnumeratorProperties.ChildPathsAppend | src/Jt.CanHasFreeSpace.Cli/WindowsFileEnumerator.cs:73-84 | the pushed child paths of two runs of records are those of each, in order |
| EnumeratorProperties.RecordsOfAppend | src/Jt.CanHasFreeSpace.Cli/WindowsFileEnumerator.cs:45-51 | the records of two item runs are those of each, in order |
| EnumeratorProperties.NumberedAppend | src/Jt.CanHasFreeSpace.Cli/WindowsFileEnumerator.cs:76-83 | fresh identities continue across two runs of pushes |
| EnumeratorProperties.AcceptedEventsAppend | src/Jt.CanHasFreeSpace.Cli/WindowsFileEnumerator.cs:71 | accept callbacks of two runs appear in order |
| EnumeratorProperties.ExtendEmpty | src/Jt.CanHasFreeSpace.Cli/WindowsFileEnumerator.cs:45 | handling no records changes nothing |
| EnumeratorProperties.ExtendAppendEvents | src/Jt.CanHasFreeSpace.Cli/WindowsFileEnumerator.cs:45-85 | handling `a + b` gives the callbacks of `a` then of `b` |
| EnumeratorProperties.ExtendAppendStack | src/Jt.CanHasFreeSpace.Cli/WindowsFileEnumerator.cs:45-85 | handling `a + b` pushes what `a` pushes, then what `b` pushes, with identities in sequence |
| EnumeratorProperties.ExtendAppend | src/Jt.CanHasFreeSpace.Cli/WindowsFileEnumerator.cs:45-85 | handling `a + b` is handling `a`, then `b` |
| EnumeratorProperties.ExtendOne | src/Jt.CanHasFreeSpace.Cli/WindowsFileEnumerator.cs:53-84 | the loop body on a record that cannot fault is the reference handling of that one record |
| EnumeratorProperties.ResolveEmpty | src/Jt.CanHasFreeSpace.Cli/WindowsFileEnumerator.cs:45 | no items: nothing happens |
| EnumeratorProperties.ResolveCons | src/Jt.CanHasFreeSpace.Cli/WindowsFileEnumerator.cs:45-85 | a faulty first item stops the walk before anything of it is reported; otherwise it is handled and the rest follows |
| EnumeratorProperties.ResolveAppend | src/Jt.CanHasFreeSpace.Cli/WindowsFileEnumerator.cs:41-85 | items of consecutive batches are handled in sequence, stopping at the first fault |
| EnumeratorProperties.EntriesCons | src/Jt.CanHasFreeSpace.Cli/WindowsFileEnumerator.cs:45-51 | items keep record order |
| EnumeratorProperties.ChainItemsCons | src/Jt.CanHasFreeSpace.Cli/WindowsFileEnumerator.cs:45-51 | a decoded record is the first item of its buffer, and the rest follow from the advanced cursor |
| EnumeratorProperties.ScanRecordsMeaning | src/Jt.CanHasFreeSpace.Cli/WindowsFileEnumerator.cs:45-85 | the record loop on a buffer equals the reference handling of that buffer's items |
| EnumeratorProperties.ScanBatchesMeaning | src/Jt.CanHasFreeSpace.Cli/WindowsFileEnumerator.cs:41-91 | the batch loop equals the reference handling of all items of the remaining batches, then the final error report unless a fault stopped it |
| EnumeratorProperties.VisitUnopened | src/Jt.CanHasFreeSpace.Cli/WindowsFileEnumerator.cs:33-37 | a directory that cannot be opened gives exactly one failure callback with the open error |
| EnumeratorProperties.VisitOpened | src/Jt.CanHasFreeSpace.Cli/WindowsFileEnumerator.cs:39-92 | an opened directory gives the reference handling of its whole listing, then the final error report |
| EnumeratorProperties.VisitMeaning | src/Jt.CanHasFreeSpace.Cli/WindowsFileEnumerator.cs:31-92 | a visit ends the walk iff the directory is not clean; a clean one adds its callbacks and pushes its subdirectories in order; an unclean one accepts what precedes the first fault and nothing of it |
| EnumeratorProperties.Ids | src/Jt.CanHasFreeSpace.Cli/WindowsFileEnumerator.cs:28-29 | one identity per directory |
| EnumeratorProperties.Interval | src/Jt.CanHasFreeSpace.Cli/WindowsFileEnumerator.cs:28-29 | the identities handed out so far |
| EnumeratorProperties.IdsAppend | src/Jt.CanHasFreeSpace.Cli/WindowsFileEnumerator.cs:83 | identities of two runs of directories, in order |
| EnumeratorProperties.IntervalCount | src/Jt.CanHasFreeSpace.Cli/WindowsFileEnumerator.cs:76 | each identity below the counter was handed out exactly once |
| EnumeratorProperties.AcceptedEventsMember | src/Jt.CanHasFreeSpace.Cli/WindowsFileEnumerator.cs:53-71 | every accept callback from one directory names that directory and no `.`/`..` |
| EnumeratorProperties.KeptMember | src/Jt.CanHasFreeSpace.Cli/WindowsFileEnumerator.cs:53-60 | a kept record is never `.` or `..` |
| EnumeratorProperties.ExtendKeepsInv | src/Jt.CanHasFreeSpace.Cli/WindowsFileEnumerator.cs:45-85 | handling records keeps the identity and accept invariants |
| EnumeratorProperties.PopKeepsInv | src/Jt.CanHasFreeSpace.Cli/WindowsFileEnumerator.cs:31 | popping keeps them |
| EnumeratorProperties.ReportErrorKeepsInv | src/Jt.CanHasFreeSpace.Cli/WindowsFileEnumerator.cs:88-91 | a failure callback keeps them |
| EnumeratorProperties.VisitKeepsInv | src/Jt.CanHasFreeSpace.Cli/WindowsFileEnumerator.cs:31-92 | one turn of the outer loop keeps them |
| EnumeratorProperties.RunKeepsInv | src/Jt.CanHasFreeSpace.Cli/WindowsFileEnumerator.cs:31-93 | the whole walk keeps them |
| EnumeratorProperties.SameIdCountsTwice | src/Jt.CanHasFreeSpace.Cli/WindowsFileEnumerator.cs:76 | two different directories with the same identity would have counted that identity twice |
| EnumeratorProperties.EnumerationInvariants | src/Jt.CanHasFreeSpace.Cli/WindowsFileEnumerator.cs:21-96 | no accept callback names `.` or `..`; each names a directory that was popped; two callbacks with the same directory memory have the same directory text; a completed walk empties the stack and pops each allocated directory exactly once |
| EnumeratorProperties.RunCompletedEmpties | src/Jt.CanHasFreeSpace.Cli/WindowsFileEnumerator.cs:31 | a completed walk leaves the stack empty |
| EnumeratorProperties.CleanVisitOrder | src/Jt.CanHasFreeSpace.Cli/WindowsFileEnumerator.cs:31-92 | a turn of the outer loop that no fault stops appends the popped directory's callbacks after those of every directory popped before it |
| EnumeratorProperties.RunCompletedOrder | src/Jt.CanHasFreeSpace.Cli/WindowsFileEnumerator.cs:31-93 | from any point where the callbacks so far are those of the directories visited, a completed walk keeps that so |
| EnumeratorProperties.AbortingVisit | src/Jt.CanHasFreeSpace.Cli/WindowsFileEnumerator.cs:31-92 | the turn of the outer loop that a fault stops leaves the walk with the callbacks of the earlier popped directories, then the accepts before the faulty item of the one just popped, and that item's fault |
| EnumeratorProperties.RunAbortedOrder | src/Jt.CanHasFreeSpace.Cli/WindowsFileEnumerator.cs:31-93 | from any point where the callbacks so far are those of the directories visited, a walk a fault stops ends in a popped directory that is not clean, after the callbacks of all earlier ones and the accepts that precede that directory's first faulty item |
| EnumeratorProperties.EnumerationOrder | src/Jt.CanHasFreeSpace.Cli/WindowsFileEnumerator.cs:21-96 | a completed walk's callbacks are, directory by directory in pop order, each directory's accepts in listing order and then its failure if any; a walk a fault stopped made those of every popped directory but the last, then the accepts of the last one's records before its first faulty item, and the fault is that item's |
| EnumeratorProperties.CleanVisitPushes | src/Jt.CanHasFreeSpace.Cli/WindowsFileEnumerator.cs:73-84 | a clean directory pushes exactly its traversable subdirectories, in listing order, with fresh identities |
| EnumeratorProperties.WideFileId | src/Jt.CanHasFreeSpace.Cli/WindowsFileEnumerator.cs:62-69 | the walk refuses a file id exactly when one of its upper eight bytes is non-zero |
| CsvFormat.DoubleQuotesBounds | src/Jt.CanHasFreeSpace.Cli/CsvWriter.cs:151 | `Replace("\"", "\"\"")` leaves quote-free text as it is and never shortens text |
| CsvFormat.DoubleQuotes | src/Jt.CanHasFreeSpace.Cli/CsvWriter.cs:151 | `Replace("\"", "\"\"")`: every `"` doubled, every other unit kept, in order; `ParseDoubled` undoes it |
| CsvFormat.Escape | src/Jt.CanHasFreeSpace.Cli/CsvWriter.cs:136-159 | `EscapeAndWrite`'s output: verbatim without `,` and `"`, else quoted, with `"` doubled only when one occurs; `EscapeVerbatimIff` and `ParseEscaped` characterize it |
| CsvFormat.EscapeVerbatimIff | src/Jt.CanHasFreeSpace.Cli/CsvWriter.cs:136-159 | a field is written verbatim exactly when it has neither `,` nor `"` |
| CsvFormat.ParseQuoted | src/Jt.CanHasFreeSpace.Cli/CsvWriter.cs:147-158 | reading the body of a quoted field consumes at least the closing quote |
| CsvFormat.ParseField | src/Jt.CanHasFreeSpace.Cli/CsvWriter.cs:136-159 | reading one field never grows the remaining input |
| CsvFormat.IndexOfAfter | src/Jt.CanHasFreeSpace.Cli/CsvWriter.cs:121-139 | a unit missing from a prefix is first found in what follows it |
| CsvFormat.ParseDoubled | src/Jt.CanHasFreeSpace.Cli/CsvWriter.cs:149-152 | the reader undoes quote doubling up to the closing quote |
| CsvFormat.ParseVerbatim | src/Jt.CanHasFreeSpace.Cli/CsvWriter.cs:141-145 | a verbatim field reads back unchanged up to the next comma |
| CsvFormat.ParseQuotedField | src/Jt.CanHasFreeSpace.Cli/CsvWriter.cs:147-158 | a quoted field reads back to the original text |
| CsvFormat.ParseOpeningQuote | src/Jt.CanHasFreeSpace.Cli/CsvWriter.cs:147 | a field opening with `"` is read as a quoted field |
| CsvFormat.ParseEscaped | src/Jt.CanHasFreeSpace.Cli/CsvWriter.cs:136-159 | every escaped field, verbatim or quoted, reads back to the original text |
| CsvFormat.ParseFieldsLast | src/Jt.CanHasFreeSpace.Cli/CsvWriter.cs:102 | a line's last field reads as a one-field line |
| CsvFormat.ParseFieldsCons | src/Jt.CanHasFreeSpace.Cli/CsvWriter.cs:76-87 | a field, a comma and a line read as that field before the line's fields |
| CsvFormat.LineCons | src/Jt.CanHasFreeSpace.Cli/CsvWriter.cs:76-87 | a comma-joined line starts with its first field escaped |
| CsvFormat.ParseLine | src/Jt.CanHasFreeSpace.Cli/CsvWriter.cs:136-159 | any non-empty list of fields, escaped and joined by commas, reads back to exactly those fields |
| CsvFormat.TerminatedCons | src/Jt.CanHasFreeSpace.Cli/CsvWriter.cs:76-87 | fields each followed by a comma start with the first |
| CsvFormat.TerminatedAppend | src/Jt.CanHasFreeSpace.Cli/CsvWriter.cs:76-131 | comma-terminated columns of two lists concatenate |
| CsvFormat.TerminatedThenLast | src/Jt.CanHasFreeSpace.Cli/CsvWriter.cs:87-102 | comma-terminated fields followed by one more escaped field form a comma-joined line |
| CsvFormat.Decimal | src/Jt.CanHasFreeSpace.Cli/CsvWriter.cs:76-80 | `StringBuilder.Append(ulong)`: a non-empty run of decimal digits |
| CsvFormat.DecimalRoundTrip | src/Jt.CanHasFreeSpace.Cli/CsvWriter.cs:76-80 | reading those digits back gives the number |
| CsvFormat.DecimalVerbatim | src/Jt.CanHasFreeSpace.Cli/CsvWriter.cs:76-81 | a number column never needs quoting |
| CsvFormat.TwoDigits | src/Jt.CanHasFreeSpace.Cli/CsvWriter.cs:31 | `ToString("D2")` below 100: exactly two digits that read back as the level |
| CsvFormat.LevelColumns | src/Jt.CanHasFreeSpace.Cli/CsvWriter.cs:28-32 | one column per level, column `i` being `p` and `i` in two digits |
| CsvFormat.HeaderText | src/Jt.CanHasFreeSpace.Cli/CsvWriter.cs:24-34 | the header line before its newline: the fixed literal, then `,pNN` for each of the 12 levels; `HeaderColumnsParse` reads it back |
| CsvFormat.UnitsSix | src/Jt.CanHasFreeSpace.Cli/CsvWriter.cs:26 | six comma-joined names, unit by unit |
| CsvFormat.HeaderLiteralPieces | src/Jt.CanHasFreeSpace.Cli/CsvWriter.cs:26 | the header literal is the six column names joined by commas |
| CsvFormat.HeaderNamesJoined | src/Jt.CanHasFreeSpace.Cli/CsvWriter.cs:26 | the literal's code units are the six names' units with commas between |
| CsvFormat.PlainName | src/Jt.CanHasFreeSpace.Cli/CsvWriter.cs:141-145 | a name with no `,` or `"` needs no quoting |
| CsvFormat.PrefixLineCons | src/Jt.CanHasFreeSpace.Cli/CsvWriter.cs:26 | a comma-joined line after any prefix starts with its first field |
| CsvFormat.PlainLineSix | src/Jt.CanHasFreeSpace.Cli/CsvWriter.cs:26 | six verbatim fields join into a line by commas alone |
| CsvFormat.FixedHeaderLiteral | src/Jt.CanHasFreeSpace.Cli/CsvWriter.cs:26 | the six fixed column names, written as a CSV line, are exactly the literal `fileId,endOfFile,allocationSize,extension,mimeType,mimeSubtype` |
| CsvFormat.LevelColumnVerbatim | src/Jt.CanHasFreeSpace.Cli/CsvWriter.cs:30-31 | a level column name never needs quoting |
| CsvFormat.LineSnoc | src/Jt.CanHasFreeSpace.Cli/CsvWriter.cs:30-31 | one more field at the end of a line is a comma and that field |
| CsvFormat.LevelColumnsSnoc | src/Jt.CanHasFreeSpace.Cli/CsvWriter.cs:28-32 | the level columns grow one level per loop turn |
| CsvFormat.LevelSuffixesLine | src/Jt.CanHasFreeSpace.Cli/CsvWriter.cs:26-32 | the literal followed by `n` suffixes `,pNN` is the CSV line of the fixed names and `n` level names |
| CsvFormat.HeaderColumnsParse | src/Jt.CanHasFreeSpace.Cli/CsvWriter.cs:24-35 | the header reads back as the six fixed names followed by `p00` … `p11` |
| CsvFormat.LevelColumnsParse | src/Jt.CanHasFreeSpace.Cli/CsvWriter.cs:26-32 | for any number of levels below 100, the header reads back as the fixed names and that many level names |
| CsvFormat.ExtensionOf | src/Jt.CanHasFreeSpace.Cli/CsvWriter.cs:47-52 | the extension column: the text after the last `.` of the final component, with no `.`, `\` or `/` in it, or empty when the name ends in `.` or has no such `.` |
| CsvFormat.ClassifyMime | src/Jt.CanHasFreeSpace.Cli/CsvWriter.cs:54-74 | unknown extension: `unknown` and the extension; a known type without a `/` past its first character: the whole type, empty subtype; otherwise the part before the first `/` and the part after it |
| CsvFormat.Components | src/Jt.CanHasFreeSpace.Cli/CsvWriter.cs:106-134 | the directory split at every `\`, with no empty column for a trailing `\`; `ComponentsRejoin` shows the split loses nothing |
| CsvFormat.SkipLevels | src/Jt.CanHasFreeSpace.Cli/CsvWriter.cs:110-133 | what `input` holds after `n` turns of the directory loop; `SkipLevelsComponents` relates it to the components |
| CsvFormat.DirectoryColumns | src/Jt.CanHasFreeSpace.Cli/CsvWriter.cs:106-134 | the directory columns: each component followed by a comma when there are at most 12, otherwise 12 such columns, then the escaped rest and a `\`; `WriteDirectoryPath` computes it |
| CsvFormat.NextLevel | src/Jt.CanHasFreeSpace.Cli/CsvWriter.cs:132 | moving past the next `\` shortens a non-empty directory |
| CsvFormat.NoSeparator | src/Jt.CanHasFreeSpace.Cli/CsvWriter.cs:123-128 | a directory without `\` is one last component |
| CsvFormat.SeparatorAt | src/Jt.CanHasFreeSpace.Cli/CsvWriter.cs:121-132 | at the first `\`, the component is the text before it and the rest follows it |
| CsvFormat.ComponentsStep | src/Jt.CanHasFreeSpace.Cli/CsvWriter.cs:121-132 | components split at the first `\` found by `IndexOf` |
| CsvFormat.ComponentsSplit | src/Jt.CanHasFreeSpace.Cli/CsvWriter.cs:121-132 | a non-empty directory's components are its first component, then those of the rest |
| CsvFormat.ComponentsWhole | src/Jt.CanHasFreeSpace.Cli/CsvWriter.cs:123-128 | a non-empty directory without `\` is one component |
| CsvFormat.FirstComponentFree | src/Jt.CanHasFreeSpace.Cli/CsvWriter.cs:130 | a component has no `\` |
| CsvFormat.ComponentsSeparatorFree | src/Jt.CanHasFreeSpace.Cli/CsvWriter.cs:121-132 | no component holds `\` |
| CsvFormat.JoinBackslashCons | src/Jt.CanHasFreeSpace.Cli/CsvWriter.cs:121-132 | joining components puts `\` between the first and the rest |
| CsvFormat.RejoinStep | src/Jt.CanHasFreeSpace.Cli/CsvWriter.cs:130-132 | rejoining is preserved by one split at `\` |
| CsvFormat.ComponentsRejoinStep | src/Jt.CanHasFreeSpace.Cli/CsvWriter.cs:121-132 | a directory with a `\` rejoins from its components |
| CsvFormat.ComponentsRejoinLast | src/Jt.CanHasFreeSpace.Cli/CsvWriter.cs:123-128 | one without a `\` rejoins too |
| CsvFormat.ComponentsRejoin | src/Jt.CanHasFreeSpace.Cli/CsvWriter.cs:106-134 | the directory columns lose nothing: the components joined by `\`, plus a trailing `\` when there was one, give back the directory |
| CsvFormat.EmptyDirectoryColumns | src/Jt.CanHasFreeSpace.Cli/CsvWriter.cs:110 | an empty directory writes no columns |
| CsvFormat.TrailingSeparatorAddsNothing | src/Jt.CanHasFreeSpace.Cli/CsvWriter.cs:110-132 | a trailing `\` adds no empty column |
| CsvFormat.DoubledSeparatorEmptyComponent | src/Jt.CanHasFreeSpace.Cli/CsvWriter.cs:121-132 | `\\` inside a directory gives an empty column |
| CsvFormat.SkipLevelsNext | src/Jt.CanHasFreeSpace.Cli/CsvWriter.cs:132 | skipping one more level moves past one more `\` |
| CsvFormat.SkipLevelsComponents | src/Jt.CanHasFreeSpace.Cli/CsvWriter.cs:110-133 | what `input` holds after `n` turns has exactly the components after the first `n` |
| CsvFormat.NextComponent | src/Jt.CanHasFreeSpace.Cli/CsvWriter.cs:121-132 | while `input` is not empty, its first component is the next one of the directory |
| CsvFormat.LastLevel | src/Jt.CanHasFreeSpace.Cli/CsvWriter.cs:110 | `input` is empty only once every component has been written |
| CsvFormat.TerminatedSnoc | src/Jt.CanHasFreeSpace.Cli/CsvWriter.cs:130-131 | one more component column is its escaped text and a comma |
| CsvFormat.ColumnStep | src/Jt.CanHasFreeSpace.Cli/CsvWriter.cs:130-131 | one loop turn writes the next component column |
| CsvFormat.FittingColumns | src/Jt.CanHasFreeSpace.Cli/CsvWriter.cs:123-128 | with at most 12 components, one comma-terminated column per component is the directory's columns |
| CsvFormat.OverflowColumns | src/Jt.CanHasFreeSpace.Cli/CsvWriter.cs:114-118 | past 12 components, 12 columns, then the rest escaped and a `\`, are the directory's columns |
| CsvFormat.SixColumns | src/Jt.CanHasFreeSpace.Cli/CsvWriter.cs:76-87 | six appends, each an escaped field and a comma, are the six comma-terminated columns |
| CsvFormat.PrependColumn | src/Jt.CanHasFreeSpace.Cli/CsvWriter.cs:76-87 | a column in front of comma-terminated columns |
| CsvFormat.RowText | src/Jt.CanHasFreeSpace.Cli/CsvWriter.cs:37-104 | the text of one row before its newline: fileId, endOfFile and allocationSize in decimal, extension, MIME type and subtype, each escaped and followed by a comma, then the directory columns and the escaped file name; `RowRoundTrip` reads it back |
| CsvFormat.RowRoundTrip | src/Jt.CanHasFreeSpace.Cli/CsvWriter.cs:37-104 | a row for a directory of at most 12 components reads back as: fileId, endOfFile and allocationSize in decimal, the extension, the MIME type and subtype, each directory component, and the file name |
| CsvWriting.HeaderTurn | src/Jt.CanHasFreeSpace.Cli/CsvWriter.cs:30-31 | one header loop turn appends the next `,pNN` |
| CsvWriting.HeaderLine | src/Jt.CanHasFreeSpace.Cli/CsvWriter.cs:26-34 | literal, suffixes and newline are the header line |
| CsvWriting.AppendedSince | src/Jt.CanHasFreeSpace.Cli/CsvWriter.cs:89-99 | `ToString(from, Length - from)` is exactly what was appended since `from` |
| CsvWriting.RowTextOf | src/Jt.CanHasFreeSpace.Cli/CsvWriter.cs:45-103 | a row is its six leading columns, its directory columns and its escaped file name |
| CsvWriting.StringBuilder.Clear | src/Jt.CanHasFreeSpace.Cli/CsvWriter.cs:45 | `StringBuilder.Clear`: the builder becomes empty |
| CsvWriting.StringBuilder.Append | src/Jt.CanHasFreeSpace.Cli/CsvWriter.cs:76-87 | `StringBuilder.Append` of text: the text is added at the end |
| CsvWriting.StringBuilder.AppendNumber | src/Jt.CanHasFreeSpace.Cli/CsvWriter.cs:76-80 | `StringBuilder.Append(ulong)`: the number's decimal digits are added at the end |
| CsvWriting.StreamWriter.Write | src/Jt.CanHasFreeSpace.Cli/CsvWriter.cs:26-31 | `StreamWriter.Write`: the text is added to what was written |
| CsvWriting.StreamWriter.WriteLine | src/Jt.CanHasFreeSpace.Cli/CsvWriter.cs:34 | `StreamWriter.WriteLine()`: the newline is added |
| CsvWriting.StreamWriter.WriteLineOf | src/Jt.CanHasFreeSpace.Cli/CsvWriter.cs:103 | `StreamWriter.WriteLine(StringBuilder)`: the builder's text and the newline are added |
| CsvWriting.CsvWriter.Valid | src/Jt.CanHasFreeSpace.Cli/CsvWriter.cs:12-15 | the cache invariant: a cached directory's serialization is exactly its `DirectoryColumns` |
| CsvWriting.CsvWriter.constructor | src/Jt.CanHasFreeSpace.Cli/CsvWriter.cs:17-22 | an empty builder and an empty cache |
| CsvWriting.CsvWriter.WriteHeader | src/Jt.CanHasFreeSpace.Cli/CsvWriter.cs:24-35 | appends exactly the header line (which reads back as the 18 column names) and a newline |
| CsvWriting.CsvWriter.WriteLevelNames | src/Jt.CanHasFreeSpace.Cli/CsvWriter.cs:28-32 | the loop appends `,p00` … for each level it runs |
| CsvWriting.CsvWriter.WriteRow | src/Jt.CanHasFreeSpace.Cli/CsvWriter.cs:37-104 | appends exactly the row text (whose fields `RowRoundTrip` gives) and a newline, whether or not the directory came from the cache, and keeps the cache consistent |
| CsvWriting.CsvWriter.ExtensionAndMime | src/Jt.CanHasFreeSpace.Cli/CsvWriter.cs:47-74 | computes the extension column and the MIME split `ClassifyMime` describes |
| CsvWriting.CsvWriter.WriteLeadingColumns | src/Jt.CanHasFreeSpace.Cli/CsvWriter.cs:76-87 | appends the six leading columns, each followed by a comma |
| CsvWriting.CsvWriter.WriteDirectory | src/Jt.CanHasFreeSpace.Cli/CsvWriter.cs:89-100 | a cache hit and a miss both append the directory's columns; afterwards the cache holds this directory and its columns |
| CsvWriting.CsvWriter.WriteDirectoryPath | src/Jt.CanHasFreeSpace.Cli/CsvWriter.cs:106-134 | appends the directory's columns: one per component up to 12, then the rest escaped and a `\` |
| CsvWriting.CsvWriter.EscapeAndWrite | src/Jt.CanHasFreeSpace.Cli/CsvWriter.cs:136-159 | appends the field escaped: verbatim, or quoted with `"` doubled |

## Left out

- `Program.cs` (argument handling, output files, the wiring between the walk and the writer) is not part of this model.
- P/Invoke, `SafeFileHandle`, `Marshal.GetLastWin32Error`, `stackalloc` and `fixed` are not modelled. The file system, `CreateFileW` and `GetFileInformationByHandleEx` are a `FileSystem` parameter, whose listings are given batches of raw bytes.
- `Native.TryReadFileId` is not modelled: the walk and the writer never call it.
- The 16 KiB buffer from `ArrayPool` is not modelled: its rental and return, and its size. A batch is the whole buffer as the call leaves it.
- The two callbacks are not called: the model records them as events in the order they would be made.
- `MimeTypeMap.TryGetMimeType` is a library call whose table is not visible. It is a parameter map from the string it is given to the type it returns, with exact key look-up.
- `StreamWriter` is modelled as the sequence of UTF-16 code units written. Its UTF-8 encoding and buffering are left out, and its `NewLine` is a parameter.
- `StringBuilder.Append(ulong)` is modelled as plain decimal digits (`Decimal`), which is what the invariant formatting of an unsigned number produces.
- WindowsFileEnumerator.Enumerate: requires every listing's records to have a non-empty, NUL-free name, and a NUL-free root. File systems guarantee this, but the source does not check it. Without it, `Path.TryJoin(d, "")` would push `d` again and the walk would not end, so termination cannot be proved.
- CsvFormat.RowRoundTrip: stated only for directories of at most 12 components. Above that the remainder and the file name share one field, which a reader cannot split back.
- Line breaks in names are not modelled. The CSV reader `ParseFields` reads a single line. The writer does not quote line breaks, so a name with a CR or LF breaks the row when read line by line.
- CsvWriting.CsvWriter.WriteRow: requires that a cached directory with the same identity has the same text. `ReadOnlyMemory.Equals` compares the memory, not its text. EnumeratorProperties.EnumerationInvariants proves that the walk hands out directories that satisfy this.
- `ReadOnlyMemory<char>.Empty`, the cache's initial state, is `None`: no directory the walk produces is equal to it.
- `WriteLevelNames`, `ExtensionAndMime`, `WriteLeadingColumns` and `WriteDirectory` are contiguous blocks of `WriteHeader` and `WriteRow`, extracted as methods so that each proof stays small. `ReadListing`, `ReadBuffer` and `AcceptEntry` are the nested loops of `Enumerate`, extracted in the same way.
- The `using` disposal of the handle is not modelled, nor exceptions other than:
  - `NotSupportedException` for 128-bit file ids;
  - `ArgumentOutOfRangeException` from the decoder's slices.

  `CodeBugException` is proved unreachable.
- `Path.GetExtension` follows the .NET code: a name like `.gitignore` has the extension `gitignore`. A name whose only `.` is its first character still has an extension.
