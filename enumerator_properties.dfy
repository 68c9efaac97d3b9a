/** What `Enumerate` promises, stated against reference definitions that are
    independent of its loop structure: a filter/map description of the records of
    one directory (`Resolve`), a per-directory description of the callbacks
    (`DirectoryEvents`) and of the pushes (`DirectoryChildren`), and whole-walk
    invariants of `Run`. */
module EnumeratorProperties {
  import opened Base
  import opened BinaryPrimitives
  import opened Native
  import opened TraversalMeasure
  import opened WindowsFileEnumerator
  import Path

  // ---------------------------------------------------------------------------
  // Reference semantics of one directory

  /** What the decoder yields for one buffer: its records, then a marker where the
      chain breaks on an out-of-range record. */
  datatype Item = Entry(record: DirectoryRecord) | Broken

  function Entries(records: seq<DirectoryRecord>): (items: seq<Item>)
    ensures |items| == |records|
  {
    seq(|records|, i requires 0 <= i < |records| => Entry(records[i]))
  }

  function ChainItems(cursor: seq<Byte>): seq<Item> {
    var chain := DecodeChain(cursor);
    Entries(chain.records) + (if chain.complete then [] else [Broken])
  }

  /** The items of a whole listing, batch after batch. */
  function Stream(batches: seq<seq<Byte>>): seq<Item> {
    if batches == [] then [] else ChainItems(batches[0]) + Stream(batches[1..])
  }

  /** An item that ends the walk: a broken chain, or a record other than "." and ".."
      whose file id does not fit 64 bits. */
  predicate Faulty(item: Item) {
    item.Broken? || (!IsSelfOrParent(item.record.fileName) && HighFileId(item.record.fileId) != 0)
  }

  function FaultOf(item: Item): Fault
    requires Faulty(item)
  {
    if item.Broken? then ArgumentOutOfRange else NotSupported128BitFileId
  }

  /** The position of the first faulty item, or the length when there is none. */
  function FirstFault(items: seq<Item>): (j: nat)
    ensures j <= |items|
    ensures j < |items| ==> Faulty(items[j])
    ensures forall i :: 0 <= i < j ==> !Faulty(items[i])
  {
    if items == [] then 0 else if Faulty(items[0]) then 0 else 1 + FirstFault(items[1..])
  }

  function RecordsOf(items: seq<Item>): seq<DirectoryRecord> {
    if items == [] then []
    else (if items[0].Entry? then [items[0].record] else []) + RecordsOf(items[1..])
  }

  /** The records the walk reports, "." and ".." removed. */
  function Kept(records: seq<DirectoryRecord>): seq<DirectoryRecord> {
    if records == [] then []
    else (if IsSelfOrParent(records[0].fileName) then [] else [records[0]]) + Kept(records[1..])
  }

  function AcceptedEvent(directory: DirectoryRef, r: DirectoryRecord): Event {
    Accepted(directory, r.fileName, r.endOfFile, r.allocationSize, LowFileId(r.fileId))
  }

  function AcceptedEvents(directory: DirectoryRef, records: seq<DirectoryRecord>): (events: seq<Event>)
    ensures |events| == |records|
  {
    seq(|records|, i requires 0 <= i < |records| => AcceptedEvent(directory, records[i]))
  }

  /** The joined paths of the traversable records, in order. */
  function ChildPaths(directory: DirectoryRef, records: seq<DirectoryRecord>): seq<Text> {
    if records == [] then []
    else (if IsTraversable(records[0].fileAttributes) then [Path.Join(directory.text, records[0].fileName)] else [])
         + ChildPaths(directory, records[1..])
  }

  /** Fresh memories for `texts`, identities counted from `first`. */
  function Numbered(first: nat, texts: seq<Text>): (refs: seq<DirectoryRef>)
    ensures |refs| == |texts|
  {
    seq(|texts|, i requires 0 <= i < |texts| => DirectoryRef(first + i, texts[i]))
  }

  /** Accepting `records` of `directory`: one accept event per kept record, one
      push per traversable kept record, in record order. */
  function Extend(directory: DirectoryRef, records: seq<DirectoryRecord>, p: Progress): Progress {
    var kept := Kept(records);
    var children := ChildPaths(directory, kept);
    p.(events := p.events + AcceptedEvents(directory, kept),
       stack := p.stack + Numbered(p.nextId, children),
       nextId := p.nextId + |children|)
  }

  /** Items handled up to the first faulty one, which stops the walk. */
  function Resolve(directory: DirectoryRef, items: seq<Item>, p: Progress): Scan {
    var j := FirstFault(items);
    var progress := Extend(directory, RecordsOf(items[..j]), p);
    if j < |items| then Scan(progress, Some(FaultOf(items[j]))) else Scan(progress, None)
  }

  /** After the last batch, the failure callback iff the final error is not zero. */
  function Finish(directory: DirectoryRef, listing: Listing, s: Scan): Scan {
    if s.fault.Some? then s else Scan(ReportError(directory, FinalError(listing), s.progress), None)
  }

  // ---------------------------------------------------------------------------
  // Algebra of the reference functions

  lemma {:induction false} KeptAppend(a: seq<DirectoryRecord>, b: seq<DirectoryRecord>)
    ensures Kept(a + b) == Kept(a) + Kept(b)
  {
    if a == [] {
      assert a + b == b;
    } else {
      var head := if IsSelfOrParent(a[0].fileName) then [] else [a[0]];
      assert (a + b)[0] == a[0] && (a + b)[1..] == a[1..] + b;
      assert Kept(a + b) == head + Kept(a[1..] + b);
      KeptAppend(a[1..], b);
      assert Kept(a) == head + Kept(a[1..]);
    }
  }

  lemma {:induction false} ChildPathsAppend(directory: DirectoryRef, a: seq<DirectoryRecord>, b: seq<DirectoryRecord>)
    ensures ChildPaths(directory, a + b) == ChildPaths(directory, a) + ChildPaths(directory, b)
  {
    if a == [] {
      assert a + b == b;
    } else {
      var head := if IsTraversable(a[0].fileAttributes) then [Path.Join(directory.text, a[0].fileName)] else [];
      assert (a + b)[0] == a[0] && (a + b)[1..] == a[1..] + b;
      assert ChildPaths(directory, a + b) == head + ChildPaths(directory, a[1..] + b);
      ChildPathsAppend(directory, a[1..], b);
      assert ChildPaths(directory, a) == head + ChildPaths(directory, a[1..]);
    }
  }

  lemma {:induction false} RecordsOfAppend(a: seq<Item>, b: seq<Item>)
    ensures RecordsOf(a + b) == RecordsOf(a) + RecordsOf(b)
  {
    if a == [] {
      assert a + b == b;
    } else {
      var head := if a[0].Entry? then [a[0].record] else [];
      assert (a + b)[0] == a[0] && (a + b)[1..] == a[1..] + b;
      assert RecordsOf(a + b) == head + RecordsOf(a[1..] + b);
      RecordsOfAppend(a[1..], b);
      assert RecordsOf(a) == head + RecordsOf(a[1..]);
    }
  }

  lemma NumberedAppend(first: nat, a: seq<Text>, b: seq<Text>)
    ensures Numbered(first, a + b) == Numbered(first, a) + Numbered(first + |a|, b)
  {
    assert Numbered(first, a + b) == Numbered(first, a) + Numbered(first + |a|, b);
  }

  lemma AcceptedEventsAppend(directory: DirectoryRef, a: seq<DirectoryRecord>, b: seq<DirectoryRecord>)
    ensures AcceptedEvents(directory, a + b) == AcceptedEvents(directory, a) + AcceptedEvents(directory, b)
  {
    assert AcceptedEvents(directory, a + b) == AcceptedEvents(directory, a) + AcceptedEvents(directory, b);
  }

  lemma ExtendEmpty(directory: DirectoryRef, p: Progress)
    ensures Extend(directory, [], p) == p
  {
    assert AcceptedEvents(directory, []) == [];
    assert Numbered(p.nextId, []) == [];
  }

  lemma ExtendAppendEvents(directory: DirectoryRef, a: seq<DirectoryRecord>, b: seq<DirectoryRecord>, p: Progress)
    ensures Extend(directory, a + b, p).events == Extend(directory, b, Extend(directory, a, p)).events
  {
    KeptAppend(a, b);
    AcceptedEventsAppend(directory, Kept(a), Kept(b));
  }

  lemma ExtendAppendStack(directory: DirectoryRef, a: seq<DirectoryRecord>, b: seq<DirectoryRecord>, p: Progress)
    ensures Extend(directory, a + b, p).stack == Extend(directory, b, Extend(directory, a, p)).stack
    ensures Extend(directory, a + b, p).nextId == Extend(directory, b, Extend(directory, a, p)).nextId
  {
    var ca, cb := ChildPaths(directory, Kept(a)), ChildPaths(directory, Kept(b));
    var q := Extend(directory, a, p);
    assert q.stack == p.stack + Numbered(p.nextId, ca) && q.nextId == p.nextId + |ca|;
    assert Extend(directory, b, q).stack == q.stack + Numbered(q.nextId, cb);
    KeptAppend(a, b);
    ChildPathsAppend(directory, Kept(a), Kept(b));
    assert Extend(directory, a + b, p).stack == p.stack + Numbered(p.nextId, ca + cb);
    StackAppend(p.stack, p.nextId, ca, cb);
  }

  // Only splits the numbering of two runs of pushes, which keeps its callers' proofs cheap.
  lemma StackAppend(stack: seq<DirectoryRef>, first: nat, a: seq<Text>, b: seq<Text>)
    ensures stack + Numbered(first, a + b) == stack + Numbered(first, a) + Numbered(first + |a|, b)
  {
    NumberedAppend(first, a, b);
  }

  /** Accepting two runs of records one after the other is accepting their concatenation. */
  lemma ExtendAppend(directory: DirectoryRef, a: seq<DirectoryRecord>, b: seq<DirectoryRecord>, p: Progress)
    ensures Extend(directory, a + b, p) == Extend(directory, b, Extend(directory, a, p))
  {
    ExtendAppendEvents(directory, a, b, p);
    ExtendAppendStack(directory, a, b, p);
  }

  /** On one record that is not faulty, the reference agrees with the loop body. */
  lemma ExtendOne(directory: DirectoryRef, r: DirectoryRecord, p: Progress)
    requires !Faulty(Entry(r))
    ensures AcceptRecord(directory, r, p) == Scan(Extend(directory, [r], p), None)
  {
    assert [r][1..] == [];
    assert Kept([]) == [] && ChildPaths(directory, []) == [];
    if IsSelfOrParent(r.fileName) {
      assert Kept([r]) == [];
      ExtendEmpty(directory, p);
    } else {
      assert Kept([r]) == [r];
      var e := AcceptedEvent(directory, r);
      assert AcceptedEvents(directory, [r]) == [e];
      var accepted := p.(events := p.events + [e]);
      if IsTraversable(r.fileAttributes) {
        var t := Path.Join(directory.text, r.fileName);
        assert ChildPaths(directory, [r]) == [t];
        assert Numbered(p.nextId, [t]) == [DirectoryRef(p.nextId, t)];
        assert AcceptRecord(directory, r, p) == Scan(Push(accepted, t), None);
      } else {
        assert ChildPaths(directory, [r]) == [];
        assert Numbered(p.nextId, []) == [];
        assert AcceptRecord(directory, r, p) == Scan(accepted, None);
      }
    }
  }

  lemma ResolveEmpty(directory: DirectoryRef, p: Progress)
    ensures Resolve(directory, [], p) == Scan(p, None)
  {
    assert RecordsOf([]) == [];
    ExtendEmpty(directory, p);
  }

  lemma ResolveCons(directory: DirectoryRef, item: Item, items: seq<Item>, p: Progress)
    ensures Resolve(directory, [item] + items, p) ==
      if Faulty(item) then Scan(p, Some(FaultOf(item)))
      else Resolve(directory, items, Extend(directory, RecordsOf([item]), p))
  {
    var all := [item] + items;
    assert all[1..] == items;
    var j := FirstFault(all);
    if Faulty(item) {
      assert all[..j] == [];
      assert RecordsOf([]) == [];
      ExtendEmpty(directory, p);
    } else {
      var k := FirstFault(items);
      assert j == k + 1;
      assert all[..j] == [item] + items[..k];
      RecordsOfAppend([item], items[..k]);
      ExtendAppend(directory, RecordsOf([item]), RecordsOf(items[..k]), p);
    }
  }

  /** Handling two runs of items in sequence is handling their concatenation, unless
      the first run already stopped the walk. */
  lemma {:induction false} ResolveAppend(directory: DirectoryRef, a: seq<Item>, b: seq<Item>, p: Progress)
    ensures Resolve(directory, a + b, p) ==
      var s := Resolve(directory, a, p);
      if s.fault.Some? then s else Resolve(directory, b, s.progress)
  {
    if a == [] {
      assert a + b == b;
      ResolveEmpty(directory, p);
    } else {
      assert a == [a[0]] + a[1..];
      assert a + b == [a[0]] + (a[1..] + b);
      ResolveCons(directory, a[0], a[1..] + b, p);
      ResolveCons(directory, a[0], a[1..], p);
      if !Faulty(a[0]) {
        ResolveAppend(directory, a[1..], b, Extend(directory, RecordsOf([a[0]]), p));
      }
    }
  }

  // ---------------------------------------------------------------------------
  // The loops against the reference

  lemma EntriesCons(r: DirectoryRecord, records: seq<DirectoryRecord>)
    ensures Entries([r] + records) == [Entry(r)] + Entries(records)
  {
    assert Entries([r] + records) == [Entry(r)] + Entries(records);
  }

  lemma ChainItemsCons(cursor: seq<Byte>)
    requires TryReadDirectoryEntryAndAdvance(cursor).Decoded?
    ensures var step := TryReadDirectoryEntryAndAdvance(cursor);
      ChainItems(cursor) == [Entry(step.record)] + ChainItems(step.rest)
  {
    var step := TryReadDirectoryEntryAndAdvance(cursor);
    var tail := DecodeChain(step.rest);
    assert DecodeChain(cursor) == Chain([step.record] + tail.records, tail.complete);
    EntriesCons(step.record, tail.records);
  }

  /** The record loop over one buffer equals the reference on the decoded chain. */
  lemma {:induction false} ScanRecordsMeaning(directory: DirectoryRef, cursor: seq<Byte>, p: Progress)
    ensures ScanRecords(directory, cursor, p) == Resolve(directory, ChainItems(cursor), p)
    decreases |cursor|
  {
    match TryReadDirectoryEntryAndAdvance(cursor)
    case Exhausted =>
      assert ChainItems(cursor) == [];
      ResolveEmpty(directory, p);
    case OutOfRange =>
      assert ChainItems(cursor) == [Broken] + [];
      ResolveCons(directory, Broken, [], p);
    case Decoded(record, rest) =>
      ChainItemsCons(cursor);
      ResolveCons(directory, Entry(record), ChainItems(rest), p);
      if !Faulty(Entry(record)) {
        ExtendOne(directory, record, p);
        assert RecordsOf([Entry(record)]) == [record];
        ScanRecordsMeaning(directory, rest, Extend(directory, [record], p));
      }
  }

  /** The batch loop from batch `k` equals the reference on the rest of the stream,
      followed by the final-error report. */
  lemma {:induction false} ScanBatchesMeaning(directory: DirectoryRef, listing: Listing, k: nat, p: Progress)
    requires k <= |listing.batches|
    ensures ScanBatches(directory, listing, k, p) == Finish(directory, listing, Resolve(directory, Stream(listing.batches[k..]), p))
    decreases |listing.batches| - k
  {
    var rest := listing.batches[k..];
    if k == |listing.batches| {
      assert rest == [];
      ResolveEmpty(directory, p);
    } else {
      assert rest[0] == listing.batches[k] && rest[1..] == listing.batches[k + 1..];
      ScanRecordsMeaning(directory, listing.batches[k], p);
      ResolveAppend(directory, ChainItems(listing.batches[k]), Stream(listing.batches[k + 1..]), p);
      var s := ScanRecords(directory, listing.batches[k], p);
      if s.fault.None? {
        ScanBatchesMeaning(directory, listing, k + 1, s.progress);
      }
    }
  }

  /** The callbacks one directory causes when it does not stop the walk: a single
      failure when it cannot be opened; otherwise every kept record in batch and
      chain order, then the failure for a nonzero final error. */
  function DirectoryEvents(fs: FileSystem, directory: DirectoryRef): seq<Event> {
    match Open(fs, directory.text)
    case OpenFailed(error) => [DirectoryFailed(directory.text, error)]
    case Opened(listing) =>
      AcceptedEvents(directory, Kept(RecordsOf(Stream(listing.batches))))
      + (if FinalError(listing) != 0 then [DirectoryFailed(directory.text, FinalError(listing))] else [])
  }

  /** The subdirectory paths one directory pushes, in order. */
  function DirectoryChildren(fs: FileSystem, directory: DirectoryRef): seq<Text> {
    match Open(fs, directory.text)
    case OpenFailed(_) => []
    case Opened(listing) => ChildPaths(directory, Kept(RecordsOf(Stream(listing.batches))))
  }

  /** A directory whose visit does not stop the walk. */
  predicate Clean(fs: FileSystem, directory: DirectoryRef) {
    match Open(fs, directory.text)
    case OpenFailed(_) => true
    case Opened(listing) => FirstFault(Stream(listing.batches)) == |Stream(listing.batches)|
  }

  /** A directory that cannot be opened causes one failure callback and nothing else. */
  lemma VisitUnopened(fs: FileSystem, directory: DirectoryRef, p: Progress)
    requires Nul !in directory.text && Open(fs, directory.text).OpenFailed?
    ensures VisitDirectory(fs, directory, p) ==
      Scan(p.(events := p.events + [DirectoryFailed(directory.text, Open(fs, directory.text).error)]), None)
  {
    ArgumentPathOfPrefixed(directory.text);
  }

  /** An opened directory is handled as the reference handles its stream. */
  lemma VisitOpened(fs: FileSystem, directory: DirectoryRef, p: Progress)
    requires Nul !in directory.text && Open(fs, directory.text).Opened?
    ensures var listing := Open(fs, directory.text).listing;
      VisitDirectory(fs, directory, p) == Finish(directory, listing, Resolve(directory, Stream(listing.batches), p))
  {
    ArgumentPathOfPrefixed(directory.text);
    var listing := Open(fs, directory.text).listing;
    ScanBatchesMeaning(directory, listing, 0, p);
    assert listing.batches[0..] == listing.batches;
  }

  /** One turn of the outer loop: an open failure is reported once and the walk goes
      on; a clean directory adds its events and pushes its children; otherwise the
      walk stops at the first faulty item, with the records before it accepted and
      nothing of the faulty one. */
  lemma VisitMeaning(fs: FileSystem, directory: DirectoryRef, p: Progress)
    requires Nul !in directory.text
    ensures var s := VisitDirectory(fs, directory, p);
      && (s.fault.None? <==> Clean(fs, directory))
      && (Clean(fs, directory) ==>
            var children := DirectoryChildren(fs, directory);
            s.progress == p.(events := p.events + DirectoryEvents(fs, directory),
                             stack := p.stack + Numbered(p.nextId, children),
                             nextId := p.nextId + |children|))
      && (!Clean(fs, directory) ==>
            var items := Stream(Open(fs, directory.text).listing.batches);
            var j := FirstFault(items);
            s == Scan(Extend(directory, RecordsOf(items[..j]), p), Some(FaultOf(items[j]))))
  {
    match Open(fs, directory.text)
    case OpenFailed(error) =>
      VisitUnopened(fs, directory, p);
      assert Numbered(p.nextId, []) == [];
    case Opened(listing) =>
      VisitOpened(fs, directory, p);
      var items := Stream(listing.batches);
      var j := FirstFault(items);
      if j == |items| {
        assert items[..j] == items;
        var q := Extend(directory, RecordsOf(items), p);
        assert VisitDirectory(fs, directory, p) == Scan(ReportError(directory, FinalError(listing), q), None);
      }
  }

  // ---------------------------------------------------------------------------
  // Whole-walk invariants

  function Ids(refs: seq<DirectoryRef>): (ids: seq<nat>)
    ensures |ids| == |refs|
  {
    seq(|refs|, i requires 0 <= i < |refs| => refs[i].id)
  }

  function Interval(lo: nat, n: nat): (s: seq<nat>)
    ensures |s| == n
  {
    seq(n, i requires 0 <= i < n => lo + i)
  }

  lemma IdsAppend(a: seq<DirectoryRef>, b: seq<DirectoryRef>)
    ensures Ids(a + b) == Ids(a) + Ids(b)
  {
    assert Ids(a + b) == Ids(a) + Ids(b);
  }

  lemma {:induction false} IntervalCount(lo: nat, n: nat, k: nat)
    ensures multiset(Interval(lo, n))[k] == if lo <= k < lo + n then 1 else 0
    decreases n
  {
    if n > 0 {
      assert Interval(lo, n) == Interval(lo, n - 1) + [lo + n - 1];
      IntervalCount(lo, n - 1, k);
    } else {
      assert Interval(lo, n) == [];
    }
  }

  /** Every memory allocated so far is either still on the stack or was popped, exactly
      once; every accept event names a popped directory and never "." or "..". */
  predicate Inv(p: Progress) {
    && multiset(Ids(p.visited + p.stack)) == multiset(Interval(0, p.nextId))
    && forall e :: e in p.events && e.Accepted? ==> e.directory in p.visited && !IsSelfOrParent(e.fileName)
  }

  lemma AcceptedEventsMember(directory: DirectoryRef, records: seq<DirectoryRecord>, e: Event)
    requires e in AcceptedEvents(directory, Kept(records))
    ensures e.Accepted? && e.directory == directory && !IsSelfOrParent(e.fileName)
  {
    var kept := Kept(records);
    var i :| 0 <= i < |kept| && AcceptedEvents(directory, kept)[i] == e;
    KeptMember(records, kept[i]);
  }

  lemma {:induction false} KeptMember(records: seq<DirectoryRecord>, r: DirectoryRecord)
    requires r in Kept(records)
    ensures !IsSelfOrParent(r.fileName)
  {
    var head := if IsSelfOrParent(records[0].fileName) then [] else [records[0]];
    if r !in head {
      KeptMember(records[1..], r);
    }
  }

  lemma ExtendKeepsInv(directory: DirectoryRef, records: seq<DirectoryRecord>, p: Progress)
    requires Inv(p) && directory in p.visited
    ensures Inv(Extend(directory, records, p))
  {
    var q := Extend(directory, records, p);
    var children := ChildPaths(directory, Kept(records));
    var pushed := Numbered(p.nextId, children);
    assert q.visited + q.stack == (p.visited + p.stack) + pushed;
    IdsAppend(p.visited + p.stack, pushed);
    assert Ids(pushed) == Interval(p.nextId, |children|);
    assert Interval(0, q.nextId) == Interval(0, p.nextId) + Interval(p.nextId, |children|);
    forall e | e in q.events && e.Accepted? ensures e.directory in q.visited && !IsSelfOrParent(e.fileName) {
      if e !in p.events {
        AcceptedEventsMember(directory, records, e);
      }
    }
  }

  lemma PopKeepsInv(p: Progress)
    requires Inv(p) && p.stack != []
    ensures Inv(Pop(p))
  {
    var q := Pop(p);
    var top := p.stack[|p.stack| - 1];
    assert p.stack == q.stack + [top];
    assert p.visited + p.stack == (p.visited + q.stack) + [top];
    assert q.visited + q.stack == (p.visited + [top]) + q.stack;
    IdsAppend(p.visited + q.stack, [top]);
    IdsAppend(p.visited, q.stack);
    IdsAppend(p.visited + [top], q.stack);
    IdsAppend(p.visited, [top]);
  }

  lemma ReportErrorKeepsInv(directory: DirectoryRef, error: int, p: Progress)
    requires Inv(p)
    ensures Inv(ReportError(directory, error, p))
  {
  }

  lemma VisitKeepsInv(fs: FileSystem, p: Progress)
    requires Inv(p) && NulFree(p.stack) && p.stack != []
    ensures Inv(VisitDirectory(fs, p.stack[|p.stack| - 1], Pop(p)).progress)
  {
    var top := p.stack[|p.stack| - 1];
    assert top in p.stack;
    var popped := Pop(p);
    PopKeepsInv(p);
    assert top in popped.visited;
    if Open(fs, top.text).OpenFailed? {
      VisitUnopened(fs, top, popped);
    } else {
      VisitOpened(fs, top, popped);
      var listing := Open(fs, top.text).listing;
      var items := Stream(listing.batches);
      var extended := Extend(top, RecordsOf(items[..FirstFault(items)]), popped);
      ExtendKeepsInv(top, RecordsOf(items[..FirstFault(items)]), popped);
      ReportErrorKeepsInv(top, FinalError(listing), extended);
    }
  }

  lemma {:induction false} RunKeepsInv(fs: FileSystem, p: Progress)
    requires ReportsValidNames(fs) && NulFree(p.stack) && Inv(p)
    ensures Inv(Run(fs, p).progress)
    decreases Weight(fs, p.stack)
  {
    if p.stack != [] {
      VisitKeepsInv(fs, p);
      var s := VisitDirectory(fs, p.stack[|p.stack| - 1], Pop(p));
      if s.fault.None? {
        VisitShrinks(fs, p);
        RunKeepsInv(fs, s.progress);
      }
    }
  }

  /** Two directories at different positions with the same identity count twice. */
  lemma SameIdCountsTwice(refs: seq<DirectoryRef>, a: DirectoryRef, b: DirectoryRef)
    requires a in refs && b in refs && a != b && a.id == b.id
    ensures multiset(Ids(refs))[a.id] >= 2
  {
    var i :| 0 <= i < |refs| && refs[i] == a;
    var j :| 0 <= j < |refs| && refs[j] == b;
    var lo, hi := if i < j then i else j, if i < j then j else i;
    assert refs == refs[..hi] + refs[hi..];
    IdsAppend(refs[..hi], refs[hi..]);
    assert Ids(refs[..hi])[lo] == a.id;
    assert Ids(refs[hi..])[0] == a.id;
  }

  /** What every walk guarantees, however it ends: the accept callback never sees "."
      or "..", only popped directories, and two accept calls with the same directory
      memory see the same text (so a cache keyed by memory identity is sound); a
      completed walk has emptied the stack and popped each allocated memory exactly
      once. */
  lemma EnumerationInvariants(fs: FileSystem, rootDirectory: Text)
    requires ReportsValidNames(fs) && Nul !in rootDirectory
    ensures var t := Run(fs, Start(rootDirectory));
      && (forall e :: e in t.progress.events && e.Accepted? ==>
            e.directory in t.progress.visited && !IsSelfOrParent(e.fileName))
      && (forall e1, e2 ::
            (e1 in t.progress.events && e2 in t.progress.events && e1.Accepted? && e2.Accepted? && e1.directory.id == e2.directory.id)
            ==> e1.directory.text == e2.directory.text)
      && (t.outcome.Completed? ==>
            (t.progress.stack == [] &&
             forall k: nat :: multiset(Ids(t.progress.visited))[k] == if k < t.progress.nextId then 1 else 0))
  {
    var start := Start(rootDirectory);
    assert Ids(start.visited + start.stack) == Interval(0, 1);
    RunKeepsInv(fs, start);
    var t := Run(fs, start);
    var q := t.progress;
    forall e1, e2 | e1 in q.events && e2 in q.events && e1.Accepted? && e2.Accepted? && e1.directory.id == e2.directory.id
      ensures e1.directory.text == e2.directory.text
    {
      if e1.directory != e2.directory {
        assert e1.directory in q.visited + q.stack && e2.directory in q.visited + q.stack;
        SameIdCountsTwice(q.visited + q.stack, e1.directory, e2.directory);
        IntervalCount(0, q.nextId, e1.directory.id);
      }
    }
    if t.outcome.Completed? {
      RunCompletedEmpties(fs, start);
      assert q.visited + q.stack == q.visited;
      forall k: nat ensures multiset(Ids(q.visited))[k] == if k < q.nextId then 1 else 0 {
        IntervalCount(0, q.nextId, k);
      }
    }
  }

  lemma {:induction false} RunCompletedEmpties(fs: FileSystem, p: Progress)
    requires ReportsValidNames(fs) && NulFree(p.stack)
    ensures Run(fs, p).outcome.Completed? ==> Run(fs, p).progress.stack == []
    decreases Weight(fs, p.stack)
  {
    if p.stack != [] {
      var s := VisitDirectory(fs, p.stack[|p.stack| - 1], Pop(p));
      if s.fault.None? {
        VisitShrinks(fs, p);
        RunCompletedEmpties(fs, s.progress);
      }
    }
  }

  /** The callbacks of the directories in `visited`, in the order they were popped. */
  function AllEvents(fs: FileSystem, visited: seq<DirectoryRef>): seq<Event> {
    if visited == [] then []
    else AllEvents(fs, visited[..|visited| - 1]) + DirectoryEvents(fs, visited[|visited| - 1])
  }

  /** A turn of the outer loop that no fault stops adds the popped directory's
      callbacks after those of the directories popped before it. */
  lemma CleanVisitOrder(fs: FileSystem, p: Progress)
    requires NulFree(p.stack) && p.stack != [] && p.events == AllEvents(fs, p.visited)
    requires VisitDirectory(fs, p.stack[|p.stack| - 1], Pop(p)).fault.None?
    ensures var s := VisitDirectory(fs, p.stack[|p.stack| - 1], Pop(p));
      s.progress.events == AllEvents(fs, s.progress.visited)
  {
    var top := p.stack[|p.stack| - 1];
    assert top in p.stack;
    var popped := Pop(p);
    VisitMeaning(fs, top, popped);
    assert popped.visited[..|popped.visited| - 1] == p.visited;
  }

  lemma {:induction false} RunCompletedOrder(fs: FileSystem, p: Progress)
    requires ReportsValidNames(fs) && NulFree(p.stack)
    requires p.events == AllEvents(fs, p.visited)
    ensures var t := Run(fs, p); t.outcome.Completed? ==> t.progress.events == AllEvents(fs, t.progress.visited)
    decreases Weight(fs, p.stack)
  {
    if p.stack != [] {
      var s := VisitDirectory(fs, p.stack[|p.stack| - 1], Pop(p));
      if s.fault.None? {
        CleanVisitOrder(fs, p);
        VisitShrinks(fs, p);
        RunCompletedOrder(fs, s.progress);
      }
    }
  }

  /** How a walk a fault stopped looks: the last directory it popped is not clean,
      the callbacks are those of every earlier popped directory, then the accepts of
      the records before that directory's first faulty item, and the fault is the one
      that item raises. */
  predicate AbortedAfter(fs: FileSystem, visited: seq<DirectoryRef>, events: seq<Event>, fault: Fault) {
    && |visited| > 0 && !Clean(fs, visited[|visited| - 1])
    && var items := Stream(Open(fs, visited[|visited| - 1].text).listing.batches);
       && fault == FaultOf(items[FirstFault(items)])
       && events == AllEvents(fs, visited[..|visited| - 1])
                    + AcceptedEvents(visited[|visited| - 1], Kept(RecordsOf(items[..FirstFault(items)])))
  }

  /** The turn of the outer loop that a fault stops. */
  lemma AbortingVisit(fs: FileSystem, p: Progress)
    requires NulFree(p.stack) && p.stack != [] && p.events == AllEvents(fs, p.visited)
    requires VisitDirectory(fs, p.stack[|p.stack| - 1], Pop(p)).fault.Some?
    ensures var s := VisitDirectory(fs, p.stack[|p.stack| - 1], Pop(p));
      AbortedAfter(fs, s.progress.visited, s.progress.events, s.fault.value)
  {
    var top := p.stack[|p.stack| - 1];
    assert top in p.stack;
    var popped := Pop(p);
    VisitMeaning(fs, top, popped);
    var s := VisitDirectory(fs, top, popped);
    assert s.progress.visited == p.visited + [top];
    assert (p.visited + [top])[..|p.visited|] == p.visited;
  }

  /** From any point where the callbacks so far are those of the popped directories,
      a walk a fault stops has the shape `AbortedAfter` describes. */
  lemma {:induction false} RunAbortedOrder(fs: FileSystem, p: Progress)
    requires ReportsValidNames(fs) && NulFree(p.stack)
    requires p.events == AllEvents(fs, p.visited)
    ensures var t := Run(fs, p);
      t.outcome.Aborted? ==> AbortedAfter(fs, t.progress.visited, t.progress.events, t.outcome.fault)
    decreases Weight(fs, p.stack)
  {
    if p.stack != [] {
      var s := VisitDirectory(fs, p.stack[|p.stack| - 1], Pop(p));
      if s.fault.None? {
        CleanVisitOrder(fs, p);
        VisitShrinks(fs, p);
        RunAbortedOrder(fs, s.progress);
      } else {
        AbortingVisit(fs, p);
      }
    }
  }

  /** A completed walk made exactly the callbacks of its popped directories, all of one
      directory's before any of the next one's; a walk a fault stopped made those of
      every popped directory but the last, then the accepts that precede the faulty
      item of the last one. */
  lemma EnumerationOrder(fs: FileSystem, rootDirectory: Text)
    requires ReportsValidNames(fs) && Nul !in rootDirectory
    ensures var t := Run(fs, Start(rootDirectory));
      t.outcome.Completed? ==> t.progress.events == AllEvents(fs, t.progress.visited)
    ensures var t := Run(fs, Start(rootDirectory));
      t.outcome.Aborted? ==>
        var v := t.progress.visited;
        && |v| > 0 && !Clean(fs, v[|v| - 1])
        && var items := Stream(Open(fs, v[|v| - 1].text).listing.batches);
           && t.outcome.fault == FaultOf(items[FirstFault(items)])
           && t.progress.events == AllEvents(fs, v[..|v| - 1]) + AcceptedEvents(v[|v| - 1], Kept(RecordsOf(items[..FirstFault(items)])))
  {
    RunCompletedOrder(fs, Start(rootDirectory));
    RunAbortedOrder(fs, Start(rootDirectory));
  }

  /** A clean directory pushes exactly its children, numbered in order, on top of the
      stack, so the next pop takes its last child. */
  lemma CleanVisitPushes(fs: FileSystem, directory: DirectoryRef, p: Progress)
    requires Nul !in directory.text && Clean(fs, directory)
    ensures VisitDirectory(fs, directory, p).progress.stack == p.stack + Numbered(p.nextId, DirectoryChildren(fs, directory))
  {
    VisitMeaning(fs, directory, p);
  }

  /** The test of the upper file-id half is a test of its eight bytes. */
  lemma WideFileId(fileId: FileId128)
    ensures HighFileId(fileId) != 0 <==> exists i :: 8 <= i < 16 && fileId[i] != 0
  {
    ReadU64ZeroIff(fileId, 8);
  }
}
