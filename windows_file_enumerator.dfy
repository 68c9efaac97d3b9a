/** `WindowsFileEnumerator.Enumerate`: a depth-first walk of a directory tree driven
    by an explicit stack. The two callbacks become events appended to a log, and the
    two exceptions that escape the walk become an `Aborted` outcome. The walk is
    specified by the functions `AcceptRecord`, `ScanRecords`, `ScanBatches`,
    `VisitDirectory` and `Run`; the method `Enumerate` is proved to compute `Run`. */
module WindowsFileEnumerator {
  import opened Base
  import opened BinaryPrimitives
  import opened Native
  import opened TraversalMeasure
  import Path

  const FileAttributeDirectory: bv32 := 0x10
  const FileAttributeReparsePoint: bv32 := 0x400

  /** One callback invocation: `acceptDelegate` or `enumerationFailedDelegate`. */
  datatype Event =
    | Accepted(directory: DirectoryRef, fileName: Text, endOfFile: U64, allocationSize: U64, fileId: U64)
    | DirectoryFailed(failedDirectory: Text, error: int)

  /** The exceptions that end the walk: `NotSupportedException` for a file id whose
      upper 64 bits are set, `ArgumentOutOfRangeException` from a record whose
      offsets do not fit the buffer. */
  datatype Fault = NotSupported128BitFileId | ArgumentOutOfRange

  datatype Outcome = Completed | Aborted(fault: Fault)

  /** The walk's state: the callbacks made so far, the stack of directories still to
      visit (its top is the last element), the directories popped so far, in order,
      and the identity the next pushed directory memory receives. */
  datatype Progress = Progress(events: seq<Event>, stack: seq<DirectoryRef>, visited: seq<DirectoryRef>, nextId: nat)

  /** The state after part of a walk, and the fault that stopped it, if any. */
  datatype Scan = Scan(progress: Progress, fault: Option<Fault>)

  /** A whole walk: its final state and how it ended. */
  datatype Traversal = Traversal(progress: Progress, outcome: Outcome)

  predicate IsSelfOrParent(name: Text) {
    (|name| == 1 && name[0] == Dot) || (|name| == 2 && name[0] == Dot && name[1] == Dot)
  }

  /** The file id the accept callback receives: the low eight bytes, little-endian. */
  function LowFileId(fileId: FileId128): U64 {
    ReadU64(fileId, 0)
  }

  /** The upper eight bytes, which must be zero. */
  function HighFileId(fileId: FileId128): U64 {
    ReadU64(fileId, 8)
  }

  /** A directory that is not a reparse point (junction, symbolic link) is descended into. */
  predicate IsTraversable(attributes: U32) {
    (attributes as bv32) & FileAttributeDirectory != 0 && (attributes as bv32) & FileAttributeReparsePoint == 0
  }

  /** The fresh memory `fullPath` the walk allocates for a subdirectory and pushes. */
  function Push(p: Progress, text: Text): (q: Progress)
    ensures q.stack == p.stack + [DirectoryRef(p.nextId, text)] && q.nextId == p.nextId + 1
    ensures q.events == p.events && q.visited == p.visited
  {
    p.(stack := p.stack + [DirectoryRef(p.nextId, text)], nextId := p.nextId + 1)
  }

  /** `TryPop`: the top of the stack moves to the visited list. */
  function Pop(p: Progress): (q: Progress)
    requires p.stack != []
    ensures q.stack == p.stack[..|p.stack| - 1] && q.visited == p.visited + [p.stack[|p.stack| - 1]]
    ensures q.events == p.events && q.nextId == p.nextId
  {
    p.(stack := p.stack[..|p.stack| - 1], visited := p.visited + [p.stack[|p.stack| - 1]])
  }

  /** The body of the innermost loop for one decoded record of `directory`. */
  function AcceptRecord(directory: DirectoryRef, record: DirectoryRecord, p: Progress): Scan {
    if IsSelfOrParent(record.fileName) then Scan(p, None)
    else if HighFileId(record.fileId) != 0 then Scan(p, Some(NotSupported128BitFileId))
    else
      var accepted := p.(events := p.events + [Accepted(directory, record.fileName, record.endOfFile, record.allocationSize, LowFileId(record.fileId))]);
      if IsTraversable(record.fileAttributes) then Scan(Push(accepted, Path.Join(directory.text, record.fileName)), None)
      else Scan(accepted, None)
  }

  /** The innermost loop: decode and handle records until the buffer is used up,
      the decoder throws, or a record is refused. */
  function ScanRecords(directory: DirectoryRef, cursor: seq<Byte>, p: Progress): Scan
    decreases |cursor|
  {
    match TryReadDirectoryEntryAndAdvance(cursor)
    case Exhausted => Scan(p, None)
    case OutOfRange => Scan(p, Some(ArgumentOutOfRange))
    case Decoded(record, rest) =>
      var s := AcceptRecord(directory, record, p);
      if s.fault.Some? then s else ScanRecords(directory, rest, s.progress)
  }

  /** The failure callback made, after the last batch, when `error` is not zero. */
  function ReportError(directory: DirectoryRef, error: int, p: Progress): Progress {
    if error != 0 then p.(events := p.events + [DirectoryFailed(directory.text, error)]) else p
  }

  /** The middle loop from batch `k` on; once the listing is exhausted its mapped
      final error is reported. */
  function ScanBatches(directory: DirectoryRef, listing: Listing, k: nat, p: Progress): Scan
    requires k <= |listing.batches|
    decreases |listing.batches| - k
  {
    if k == |listing.batches| then Scan(ReportError(directory, FinalError(listing), p), None)
    else
      var s := ScanRecords(directory, listing.batches[k], p);
      if s.fault.Some? then s else ScanBatches(directory, listing, k + 1, s.progress)
  }

  /** One turn of the outer loop for a popped `directory`. */
  function VisitDirectory(fs: FileSystem, directory: DirectoryRef, p: Progress): Scan {
    match CreateFileW(fs, Win32Prefix + directory.text + [Nul])
    case OpenFailed(error) => Scan(p.(events := p.events + [DirectoryFailed(directory.text, error)]), None)
    case Opened(listing) => ScanBatches(directory, listing, 0, p)
  }

  /** A file name the walk can push a child for: `Path.TryJoin` with an empty name
      gives back the directory itself, and a NUL ends the path CreateFileW sees. */
  predicate ValidName(name: Text) {
    name != [] && Nul !in name
  }

  predicate ChainNamesValid(cursor: seq<Byte>) {
    forall r :: r in DecodeChain(cursor).records ==> ValidName(r.fileName)
  }

  /** Every record any listing of `fs` holds has a valid name, as NTFS guarantees. */
  predicate ReportsValidNames(fs: FileSystem) {
    forall path :: path in fs.dirs && fs.dirs[path].Opened? ==>
      forall k :: 0 <= k < |fs.dirs[path].listing.batches| ==> ChainNamesValid(fs.dirs[path].listing.batches[k])
  }

  predicate NulFree(stack: seq<DirectoryRef>) {
    forall d :: d in stack ==> Nul !in d.text
  }

  /** The walk stays within what `p` has already pushed plus a bounded number of
      children of `directory`, each strictly longer than it and free of NUL. */
  predicate PushesChildren(directory: DirectoryRef, p: Progress, q: Progress, bound: nat) {
    && |p.stack| <= |q.stack| <= |p.stack| + bound
    && q.stack[..|p.stack|] == p.stack
    && q.visited == p.visited
    && forall i :: |p.stack| <= i < |q.stack| ==>
         |q.stack[i].text| > |directory.text| && (Nul !in directory.text ==> Nul !in q.stack[i].text)
  }

  lemma PushesChildrenTransitive(directory: DirectoryRef, p: Progress, q: Progress, r: Progress, m: nat, n: nat)
    requires PushesChildren(directory, p, q, m) && PushesChildren(directory, q, r, n)
    ensures PushesChildren(directory, p, r, m + n)
  {
    assert r.stack[..|p.stack|] == r.stack[..|q.stack|][..|p.stack|];
    forall i | |p.stack| <= i < |r.stack|
      ensures |r.stack[i].text| > |directory.text| && (Nul !in directory.text ==> Nul !in r.stack[i].text)
    {
      if i < |q.stack| {
        assert r.stack[i] == r.stack[..|q.stack|][i];
      }
    }
  }

  lemma AcceptRecordPushes(directory: DirectoryRef, record: DirectoryRecord, p: Progress)
    requires ValidName(record.fileName)
    ensures PushesChildren(directory, p, AcceptRecord(directory, record, p).progress, 1)
  {
    var q := AcceptRecord(directory, record, p).progress;
    if |q.stack| > |p.stack| {
      var joined := Path.Join(directory.text, record.fileName);
      assert q.stack[|p.stack|].text == joined;
      if Nul !in directory.text {
        forall j | 0 <= j < |joined| ensures joined[j] != Nul {
          if j < |directory.text| {
            assert joined[j] == joined[..|directory.text|][j];
          } else if j >= |joined| - |record.fileName| {
            assert joined[j] == joined[|joined| - |record.fileName|..][j - (|joined| - |record.fileName|)];
          }
        }
      }
    }
  }

  lemma {:induction false} ScanRecordsPushes(directory: DirectoryRef, cursor: seq<Byte>, p: Progress)
    requires ChainNamesValid(cursor)
    ensures PushesChildren(directory, p, ScanRecords(directory, cursor, p).progress, |cursor|)
    decreases |cursor|
  {
    match TryReadDirectoryEntryAndAdvance(cursor)
    case Exhausted =>
    case OutOfRange =>
    case Decoded(record, rest) =>
      assert DecodeChain(cursor).records == [record] + DecodeChain(rest).records;
      assert record in DecodeChain(cursor).records;
      AcceptRecordPushes(directory, record, p);
      var s := AcceptRecord(directory, record, p);
      if s.fault.None? {
        ScanRecordsPushes(directory, rest, s.progress);
        PushesChildrenTransitive(directory, p, s.progress, ScanRecords(directory, rest, s.progress).progress, 1, |rest|);
      }
  }

  /** The bytes of the batches from `k` on. */
  lemma TotalBytesFrom(batches: seq<seq<Byte>>, k: nat)
    requires k < |batches|
    ensures TotalBytes(batches[k..]) == |batches[k]| + TotalBytes(batches[k + 1..])
  {
    assert batches[k..][1..] == batches[k + 1..];
  }

  lemma {:induction false} ScanBatchesPushes(directory: DirectoryRef, listing: Listing, k: nat, p: Progress)
    requires k <= |listing.batches|
    requires forall j :: k <= j < |listing.batches| ==> ChainNamesValid(listing.batches[j])
    ensures PushesChildren(directory, p, ScanBatches(directory, listing, k, p).progress, TotalBytes(listing.batches[k..]))
    decreases |listing.batches| - k
  {
    if k < |listing.batches| {
      TotalBytesFrom(listing.batches, k);
      var cursor := listing.batches[k];
      ScanRecordsPushes(directory, cursor, p);
      var s := ScanRecords(directory, cursor, p);
      if s.fault.None? {
        ScanBatchesPushes(directory, listing, k + 1, s.progress);
        PushesChildrenTransitive(directory, p, s.progress, ScanBatches(directory, listing, k + 1, s.progress).progress,
          |cursor|, TotalBytes(listing.batches[k + 1..]));
      }
    }
  }

  /** One turn of the outer loop keeps the stack free of NUL and lowers its weight. */
  lemma VisitShrinks(fs: FileSystem, p: Progress)
    requires ReportsValidNames(fs) && NulFree(p.stack) && p.stack != []
    ensures var s := VisitDirectory(fs, p.stack[|p.stack| - 1], Pop(p));
      NulFree(s.progress.stack) && Weight(fs, s.progress.stack) < Weight(fs, p.stack)
  {
    var top := p.stack[|p.stack| - 1];
    var popped := Pop(p);
    assert p.stack == popped.stack + [top];
    assert top in p.stack;
    ArgumentPathOfPrefixed(top.text);
    var s := VisitDirectory(fs, top, popped);
    match CreateFileW(fs, Win32Prefix + top.text + [Nul])
    case OpenFailed(error) =>
      PopDecreases(fs, popped.stack, top);
    case Opened(listing) =>
      assert top.text in fs.dirs && fs.dirs[top.text] == Opened(listing);
      ScanBatchesPushes(top, listing, 0, popped);
      assert listing.batches[0..] == listing.batches;
      BoundCovers(fs, top.text);
      var q := s.progress;
      var children := q.stack[|popped.stack|..];
      assert q.stack == popped.stack + children;
      forall c | c in children ensures |c.text| > |top.text| && Nul !in c.text {
        var i :| 0 <= i < |children| && children[i] == c;
        assert c == q.stack[|popped.stack| + i];
      }
      ReplaceByChildrenDecreases(fs, popped.stack, top, children);
      forall d | d in q.stack ensures Nul !in d.text {
        if d !in children {
          assert d in popped.stack;
        }
      }
  }

  /** The outer loop from state `p` to the end of the walk. */
  function Run(fs: FileSystem, p: Progress): Traversal
    requires ReportsValidNames(fs) && NulFree(p.stack)
    decreases Weight(fs, p.stack)
  {
    if p.stack == [] then Traversal(p, Completed)
    else
      var s := VisitDirectory(fs, p.stack[|p.stack| - 1], Pop(p));
      if s.fault.Some? then Traversal(s.progress, Aborted(s.fault.value))
      else
        VisitShrinks(fs, p);
        Run(fs, s.progress)
  }

  /** The state `Enumerate` starts from: the root's memory on the stack. */
  function Start(rootDirectory: Text): Progress {
    Progress([], [DirectoryRef(0, rootDirectory)], [], 1)
  }

  /** `Enumerate(rootDirectory, acceptDelegate, enumerationFailedDelegate)`: the
      callbacks it makes, in order, and whether an exception ended it. */
  method Enumerate(fs: FileSystem, rootDirectory: Text) returns (events: seq<Event>, outcome: Outcome)
    requires ReportsValidNames(fs) && Nul !in rootDirectory
    ensures var t := Run(fs, Start(rootDirectory)); events == t.progress.events && outcome == t.outcome
  {
    var directories: seq<DirectoryRef> := [DirectoryRef(0, rootDirectory)];
    var nextId: nat := 1;
    ghost var visited: seq<DirectoryRef> := [];
    ghost var goal := Run(fs, Start(rootDirectory));
    events := [];
    while directories != []
      invariant NulFree(directories)
      invariant Run(fs, Progress(events, directories, visited, nextId)) == goal
      decreases Weight(fs, directories)
    {
      ghost var before := Progress(events, directories, visited, nextId);
      var directory := directories[|directories| - 1];
      directories := directories[..|directories| - 1];
      visited := visited + [directory];
      assert Progress(events, directories, visited, nextId) == Pop(before);
      ghost var visit := VisitDirectory(fs, directory, Pop(before));
      VisitShrinks(fs, before);

      var ok, handle, error := TryOpenDirectoryForRead(fs, directory.text);
      if !ok {
        events := events + [DirectoryFailed(directory.text, error)];
        assert Progress(events, directories, visited, nextId) == visit.progress;
        continue;
      }
      var fault;
      events, directories, nextId, fault := ReadListing(directory, handle, events, directories, nextId, visited);
      if fault.Some? {
        outcome := Aborted(fault.value);
        return;
      }
    }
    outcome := Completed;
  }

  /** The middle loop of `Enumerate` and the report after it: fill the buffer from
      the open handle until the listing is exhausted, handling each batch, then report
      a nonzero final error. */
  method ReadListing(directory: DirectoryRef, handle: DirectoryHandle, events0: seq<Event>, directories0: seq<DirectoryRef>,
                     nextId0: nat, ghost visited: seq<DirectoryRef>)
    returns (events: seq<Event>, directories: seq<DirectoryRef>, nextId: nat, fault: Option<Fault>)
    requires handle.position == 0
    modifies handle
    ensures ScanBatches(directory, handle.listing, 0, Progress(events0, directories0, visited, nextId0))
         == Scan(Progress(events, directories, visited, nextId), fault)
  {
    events, directories, nextId := events0, directories0, nextId0;
    ghost var listing := handle.listing;
    ghost var goal := ScanBatches(directory, listing, 0, Progress(events, directories, visited, nextId));
    var error;
    while true
      invariant handle.listing == listing && handle.position <= |listing.batches|
      invariant goal == ScanBatches(directory, listing, handle.position, Progress(events, directories, visited, nextId))
      decreases |listing.batches| - handle.position
    {
      var more, batch;
      more, error, batch := handle.TryReadDirectoryEntries();
      if !more {
        break;
      }
      events, directories, nextId, fault := ReadBuffer(directory, batch, events, directories, nextId, visited);
      if fault.Some? {
        return;
      }
    }
    if error != 0 {
      events := events + [DirectoryFailed(directory.text, error)];
    }
    fault := None;
  }

  /** The innermost loop of `Enumerate` over one filled buffer: decode records and
      advance the cursor until the decoder reports the buffer used up; accept every
      record but "." and "..", and push the traversable ones. `fault` is the
      exception that escapes, if any. */
  method ReadBuffer(directory: DirectoryRef, buffer: seq<Byte>, events0: seq<Event>, directories0: seq<DirectoryRef>,
                    nextId0: nat, ghost visited: seq<DirectoryRef>)
    returns (events: seq<Event>, directories: seq<DirectoryRef>, nextId: nat, fault: Option<Fault>)
    ensures ScanRecords(directory, buffer, Progress(events0, directories0, visited, nextId0))
         == Scan(Progress(events, directories, visited, nextId), fault)
  {
    events, directories, nextId := events0, directories0, nextId0;
    ghost var goal := ScanRecords(directory, buffer, Progress(events, directories, visited, nextId));
    var bufferSpan := buffer;
    while true
      invariant goal == ScanRecords(directory, bufferSpan, Progress(events, directories, visited, nextId))
      decreases |bufferSpan|
    {
      var step := TryReadDirectoryEntryAndAdvance(bufferSpan);
      if step.Exhausted? {
        return events, directories, nextId, None;
      }
      if step.OutOfRange? {
        return events, directories, nextId, Some(ArgumentOutOfRange);
      }
      bufferSpan := step.rest;
      events, directories, nextId, fault := AcceptEntry(directory, step.record, events, directories, nextId, visited);
      if fault.Some? {
        return;
      }
    }
  }

  /** The body of the innermost loop for one decoded record: skip "." and "..",
      refuse a file id wider than 64 bits, else accept the record and push it when
      it is a traversable directory. */
  method AcceptEntry(directory: DirectoryRef, record: DirectoryRecord, events0: seq<Event>, directories0: seq<DirectoryRef>,
                     nextId0: nat, ghost visited: seq<DirectoryRef>)
    returns (events: seq<Event>, directories: seq<DirectoryRef>, nextId: nat, fault: Option<Fault>)
    ensures AcceptRecord(directory, record, Progress(events0, directories0, visited, nextId0))
         == Scan(Progress(events, directories, visited, nextId), fault)
  {
    events, directories, nextId, fault := events0, directories0, nextId0, None;
    if IsSelfOrParent(record.fileName) {
      return;
    }
    if HighFileId(record.fileId) != 0 {
      fault := Some(NotSupported128BitFileId);
      return;
    }
    events := events + [Accepted(directory, record.fileName, record.endOfFile, record.allocationSize, LowFileId(record.fileId))];
    if IsTraversable(record.fileAttributes) {
      Path.JoinFitsTraversalBuffer(directory.text, record.fileName);
      var fullPath := Path.TryJoin(directory.text, record.fileName, |directory.text| + 1 + |record.fileName|);
      match fullPath
      case None =>
        assert false;
      case Some(joined) =>
        directories := directories + [DirectoryRef(nextId, joined)];
        nextId := nextId + 1;
    }
  }
}
