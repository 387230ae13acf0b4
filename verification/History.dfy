/**
 Reads over whole runs of the engine: the last accepted write up to a timestamp, and snapshots that later batches
 cannot change.
 */
module History {
  import opened ByteStrings
  import opened Types
  import opened Lmdb
  import opened HeedEncoding
  import opened Documents
  import opened WriteSets
  import opened Batches
  import opened BatchInvariants
  import opened BatchEffects
  import opened Engines

  // ------------------------------------------------------------ one timestamp

  ghost predicate SameUpTo(before: Database, after: Database, ts: U64, c: CollectionId, d: DocumentId) {
    forall v: U64 | v <= ts :: RowAt(after, EncodeDocumentKey(c, d, v)) == RowAt(before, EncodeDocumentKey(c, d, v))
  }

  lemma SameVersionsSameValue(before: Database, after: Database, ts: U64, c: CollectionId, d: DocumentId)
    requires DocumentRows(before) && DocumentRows(after) && SameUpTo(before, after, ts, c, d)
    ensures Visible(after, ts, c, d) == Visible(before, ts, c, d)
  {
    forall v: U64 | v <= ts ensures HasVersion(after, c, d, v) <==> HasVersion(before, c, d, v) {
      assert RowAt(after, EncodeDocumentKey(c, d, v)) == RowAt(before, EncodeDocumentKey(c, d, v));
    }
    forall v: U64 ensures Newest(after, ts, c, d, v) <==> Newest(before, ts, c, d, v) {
    }
    if v: U64 :| Newest(before, ts, c, d, v) {
      assert RowAt(after, EncodeDocumentKey(c, d, v)) == RowAt(before, EncodeDocumentKey(c, d, v));
      VisibleIsNewest(before, ts, c, d, v);
      VisibleIsNewest(after, ts, c, d, v);
    }
  }

  ghost predicate VersionsUpTo(db: Database, ts: U64) {
    forall c: CollectionId, d: DocumentId, v: U64 | HasVersion(db, c, d, v) :: v <= ts
  }

  ghost function WrittenValue(write: DocumentWrite): Option<Bytes> {
    match write
    case DocumentPut(value) => Some(value)
    case DocumentDeleted => None
  }

  /** What is read where a write, if there is one, replaces what was read before. */
  ghost function Overwritten(write: Option<DocumentWrite>, before: Option<Bytes>): Option<Bytes> {
    if write.Some? then WrittenValue(write.value) else before
  }

  /** No stored version of the document lies after `at` and up to `ts`. */
  ghost predicate Unshadowed(db: Database, c: CollectionId, d: DocumentId, at: U64, ts: U64) {
    forall v: U64 | HasVersion(db, c, d, v) && v <= ts :: v <= at
  }

  lemma NewVersionIsRead(db: Database, ts: U64, c: CollectionId, d: DocumentId, v: U64, write: DocumentWrite)
    requires DocumentRows(db) && Unshadowed(db, c, d, v, ts) && v <= ts
    requires RowAt(db, EncodeDocumentKey(c, d, v)) == Some(EncodeWrite(write))
    ensures Visible(db, ts, c, d) == WrittenValue(write)
  {
    assert Newest(db, ts, c, d, v);
    VisibleIsNewest(db, ts, c, d, v);
    DocumentValueRoundTrip(if write.DocumentPut? then write.value else []);
  }

  // ---------------------------------------------------------------- one batch

  function WriteOf(e: Engine, batch: Batch, c: CollectionId, d: DocumentId): Option<DocumentWrite> {
    LastDocumentWrite(Begin(e), Operations(batch), batch.ts, c, d)
  }

  lemma AcceptedPut(e: Engine, batch: Batch, commits: bool)
    requires EngineOk(e) && Put(e, batch, commits).1.Success?
    ensures Run(Begin(e), Operations(batch), batch.ts).error.None? && e.memory.ts <= batch.ts
    ensures var p, e' := Run(Begin(e), Operations(batch), batch.ts), Put(e, batch, commits).0;
      && e'.committed == p.writer.db.(metadata := e'.committed.metadata)
      && e'.memory.ts == batch.ts
      && StoredAt(e'.committed.metadata, TS_KEY)
         == (if batch.ts == e.memory.ts then StoredAt(e.committed.metadata, TS_KEY) else batch.ts)
  {
    BeginOk(e);
    RunKeeps(Begin(e), Operations(batch), batch.ts);
    var p := Run(Begin(e), Operations(batch), batch.ts);
    SetTsKeeps(p.writer, batch.ts);
    SavedCounters(SetTs(p.writer, batch.ts).value);
  }

  lemma PutRows(e: Engine, batch: Batch, commits: bool, c: CollectionId, d: DocumentId, v: U64)
    requires EngineOk(e) && Put(e, batch, commits).1.Success?
    ensures RowAt(Put(e, batch, commits).0.committed.documents, EncodeDocumentKey(c, d, v))
         == RowAfter(e.committed.documents, c, d, v, batch.ts, WriteOf(e, batch, c, d))
  {
    AcceptedPut(e, batch, commits);
    RunDocuments(Begin(e), Operations(batch), batch.ts, c, d, v);
  }

  lemma PutVersionsUpTo(e: Engine, batch: Batch, commits: bool)
    requires EngineOk(e) && Put(e, batch, commits).1.Success? && VersionsUpTo(e.committed.documents, e.memory.ts)
    ensures VersionsUpTo(Put(e, batch, commits).0.committed.documents, batch.ts)
  {
    AcceptedPut(e, batch, commits);
    forall c: CollectionId, d: DocumentId,
      v: U64 | HasVersion(Put(e, batch, commits).0.committed.documents, c, d, v) ensures v <= batch.ts {
      PutRows(e, batch, commits, c, d, v);
      assert v == batch.ts || HasVersion(e.committed.documents, c, d, v);
    }
  }

  /** A version row after a write at `at`. */
  function RowAfter(before: Database, c: CollectionId, d: DocumentId, v: U64, at: U64,
                    write: Option<DocumentWrite>): Option<Bytes> {
    if v == at && write.Some? then Some(EncodeWrite(write.value)) else RowAt(before, EncodeDocumentKey(c, d, v))
  }

  /** The rows of one document after a write at `at`. */
  ghost predicate OneRowWritten(before: Database, after: Database, c: CollectionId, d: DocumentId, at: U64,
                                write: Option<DocumentWrite>) {
    forall v: U64 :: RowAt(after, EncodeDocumentKey(c, d, v)) == RowAfter(before, c, d, v, at, write)
  }

  /** A new version is the newest exactly if no stored one lies between it and the reader. */
  lemma NewVersionIsNewest(before: Database, after: Database, at: U64, write: DocumentWrite, ts: U64, c: CollectionId,
                           d: DocumentId)
    requires OneRowWritten(before, after, c, d, at, Some(write)) && at <= ts
    ensures Newest(after, ts, c, d, at) <==> Unshadowed(before, c, d, at, ts)
  {
    forall v: U64 ensures HasVersion(after, c, d, v) <==> v == at || HasVersion(before, c, d, v) {
      assert RowAt(after, EncodeDocumentKey(c, d, v)) == RowAfter(before, c, d, v, at, Some(write));
    }
  }

  /** A shadowed version is not read. */
  lemma ShadowedIsUnread(before: Database, after: Database, at: U64, write: DocumentWrite, ts: U64, c: CollectionId,
                         d: DocumentId)
    requires DocumentRows(before) && DocumentRows(after)
    requires OneRowWritten(before, after, c, d, at, Some(write)) && at <= ts && !Unshadowed(before, c, d, at, ts)
    ensures Visible(after, ts, c, d) == Visible(before, ts, c, d)
  {
    forall v: U64 ensures HasVersion(after, c, d, v) <==> v == at || HasVersion(before, c, d, v) {
      assert RowAt(after, EncodeDocumentKey(c, d, v)) == RowAfter(before, c, d, v, at, Some(write));
    }
    var w: U64 :| HasVersion(before, c, d, w) && at < w <= ts;
    var newest := NewestVersion(before, ts, c, d, w);
    assert Newest(after, ts, c, d, newest);
    assert RowAt(after, EncodeDocumentKey(c, d, newest)) == RowAfter(before, c, d, newest, at, Some(write));
    VisibleIsNewest(before, ts, c, d, newest);
    VisibleIsNewest(after, ts, c, d, newest);
  }

  lemma {:induction false} NewestVersion(db: Database, ts: U64, c: CollectionId, d: DocumentId, v: U64)
      returns (newest: U64)
    requires HasVersion(db, c, d, v) && v <= ts
    ensures Newest(db, ts, c, d, newest) && v <= newest
    decreases ts - v
  {
    if w: U64 :| HasVersion(db, c, d, w) && v < w <= ts {
      newest := NewestVersion(db, ts, c, d, w);
    } else {
      newest := v;
    }
  }

  /** The write that a reader at `ts` meets: one at or before `ts` that no stored version shadows. */
  ghost function ReadWrite(before: Database, c: CollectionId, d: DocumentId, at: U64, write: Option<DocumentWrite>,
                           ts: U64): Option<DocumentWrite> {
    if at <= ts && Unshadowed(before, c, d, at, ts) then write else None
  }

  lemma NewVersionDecides(before: Database, after: Database, at: U64, write: Option<DocumentWrite>, ts: U64,
                          c: CollectionId, d: DocumentId)
    requires DocumentRows(before) && DocumentRows(after) && OneRowWritten(before, after, c, d, at, write)
    ensures Visible(after, ts, c, d) == Overwritten(ReadWrite(before, c, d, at, write, ts), Visible(before, ts, c, d))
  {
    if at <= ts && write.Some? {
      if Unshadowed(before, c, d, at, ts) {
        NewVersionIsNewest(before, after, at, write.value, ts, c, d);
        assert RowAt(after, EncodeDocumentKey(c, d, at)) == RowAfter(before, c, d, at, at, write);
        NewVersionIsRead(after, ts, c, d, at, write.value);
      } else {
        ShadowedIsUnread(before, after, at, write.value, ts, c, d);
      }
    } else {
      SameVersionsSameValue(before, after, ts, c, d);
    }
  }

  lemma PutDocumentRows(e: Engine, batch: Batch, commits: bool)
    requires EngineOk(e)
    ensures DocumentRows(Put(e, batch, commits).0.committed.documents)
  {
    PutKeeps(e, batch, commits);
  }

  lemma PutOneRow(e: Engine, batch: Batch, commits: bool, c: CollectionId, d: DocumentId)
    requires EngineOk(e) && Put(e, batch, commits).1.Success?
    ensures OneRowWritten(e.committed.documents, Put(e, batch, commits).0.committed.documents, c, d, batch.ts,
                          WriteOf(e, batch, c, d))
  {
    forall v: U64 ensures RowAt(Put(e, batch, commits).0.committed.documents, EncodeDocumentKey(c, d, v))
                       == RowAfter(e.committed.documents, c, d, v, batch.ts, WriteOf(e, batch, c, d)) {
      PutRows(e, batch, commits, c, d, v);
    }
  }

  /**
   An accepted batch decides the reads at or after its timestamp of the documents it writes, where no stored version
   shadows it, and no other read.
   */
  lemma PutReads(e: Engine, batch: Batch, commits: bool, ts: U64, c: CollectionId, d: DocumentId)
    requires EngineOk(e) && Put(e, batch, commits).1.Success?
    ensures DocumentRows(Put(e, batch, commits).0.committed.documents)
    ensures Visible(Put(e, batch, commits).0.committed.documents, ts, c, d)
         == Overwritten(ReadWrite(e.committed.documents, c, d, batch.ts, WriteOf(e, batch, c, d), ts),
                        Visible(e.committed.documents, ts, c, d))
  {
    PutDocumentRows(e, batch, commits);
    PutOneRow(e, batch, commits, c, d);
    NewVersionDecides(e.committed.documents, Put(e, batch, commits).0.committed.documents, batch.ts,
                      WriteOf(e, batch, c, d), ts, c, d);
  }

  /** A batch at or after every stored version is read from its timestamp on. */
  lemma LatestPutReads(e: Engine, batch: Batch, commits: bool, ts: U64, c: CollectionId, d: DocumentId)
    requires EngineOk(e) && Put(e, batch, commits).1.Success?
    requires batch.ts <= ts ==> VersionsUpTo(e.committed.documents, batch.ts)
    ensures DocumentRows(Put(e, batch, commits).0.committed.documents)
    ensures Visible(Put(e, batch, commits).0.committed.documents, ts, c, d)
         == Overwritten(if batch.ts <= ts then WriteOf(e, batch, c, d)
           else None, Visible(e.committed.documents, ts, c, d))
  {
    PutReads(e, batch, commits, ts, c, d);
    if batch.ts <= ts {
      LatestIsUnshadowed(e.committed.documents, batch.ts, ts, c, d);
    }
  }

  lemma LatestIsUnshadowed(db: Database, at: U64, ts: U64, c: CollectionId, d: DocumentId)
    requires VersionsUpTo(db, at)
    ensures Unshadowed(db, c, d, at, ts)
  {
  }

  lemma EarlierVersions(db: Database, ts: U64, later: U64)
    requires VersionsUpTo(db, ts) && ts <= later
    ensures VersionsUpTo(db, later)
  {
  }

  /**
   The version that a batch writes is the newest at `ts` exactly if no stored version of the document lies between.
   */
  lemma PutIsNewest(e: Engine, batch: Batch, commits: bool, ts: U64, c: CollectionId, d: DocumentId)
    requires EngineOk(e) && Put(e, batch, commits).1.Success?
    requires batch.ts <= ts && WriteOf(e, batch, c, d).Some?
    ensures Newest(Put(e, batch, commits).0.committed.documents, ts, c, d, batch.ts)
       <==> Unshadowed(e.committed.documents, c, d, batch.ts, ts)
  {
    PutOneRow(e, batch, commits, c, d);
    NewVersionIsNewest(e.committed.documents, Put(e, batch, commits).0.committed.documents, batch.ts,
                       WriteOf(e, batch, c, d).value, ts, c, d);
  }

  // --------------------------------------------------------------------- runs

  /** The write of an accepted batch with a timestamp up to `ts`. */
  function EventWrite(e: Engine, event: Event, ts: U64, c: CollectionId, d: DocumentId): Option<DocumentWrite> {
    if event.PutBatch? && Put(e, event.batch, event.commits).1.Success? && event.batch.ts <= ts
    then WriteOf(e, event.batch, c, d)
    else None
  }

  /** The last write to a document among the accepted batches with a timestamp up to `ts`. */
  function LastWrite(e: Engine, events: seq<Event>, ts: U64, c: CollectionId, d: DocumentId): Option<DocumentWrite>
    decreases |events|
  {
    if events == [] then None
    else
      var later := LastWrite(Next(e, events[0]), events[1..], ts, c, d);
      if later.Some? then later else EventWrite(e, events[0], ts, c, d)
  }

  /** The write of an accepted batch with timestamp `v`. */
  function EventWriteAt(e: Engine, event: Event, v: U64, c: CollectionId, d: DocumentId): Option<DocumentWrite> {
    if event.PutBatch? && event.batch.ts == v then EventWrite(e, event, v, c, d) else None
  }

  /** The last write to a document among the accepted batches with timestamp `v`. */
  function LastWriteAt(e: Engine, events: seq<Event>, v: U64, c: CollectionId, d: DocumentId): Option<DocumentWrite>
    decreases |events|
  {
    if events == [] then None
    else
      var later := LastWriteAt(Next(e, events[0]), events[1..], v, c, d);
      if later.Some? then later else EventWriteAt(e, events[0], v, c, d)
  }

  /** The last write to a document among the accepted batches with a timestamp up to `ts`, and that timestamp. */
  function LastStamp(e: Engine, events: seq<Event>, ts: U64, c: CollectionId, d: DocumentId): Option<U64>
    decreases |events|
  {
    if events == [] then None
    else
      var later := LastStamp(Next(e, events[0]), events[1..], ts, c, d);
      if later.Some? then later
      else if EventWrite(e, events[0], ts, c, d).Some? then Some(events[0].batch.ts)
      else None
  }

  ghost predicate MayFollow(e: Engine, event: Event) {
    event.Reopen? ==> StoredAt(e.committed.metadata, TS_KEY) == e.memory.ts
  }

  /** The engine restarts only when the stored timestamp is the one in memory. */
  ghost predicate Orderly(e: Engine, events: seq<Event>)
    decreases |events|
  {
    events != [] ==> MayFollow(e, events[0]) && Orderly(Next(e, events[0]), events[1..])
  }

  lemma BatchGrows(e: Engine, batch: Batch)
    requires EngineOk(e)
    ensures Run(Begin(e), Operations(batch), batch.ts).writer.memory.ts == e.memory.ts
  {
    BeginOk(e);
    RunKeeps(Begin(e), Operations(batch), batch.ts);
  }

  /** A rejected batch, or one lost at commit, changes nothing stored. */
  lemma RejectedPut(e: Engine, batch: Batch, commits: bool)
    requires EngineOk(e) && Put(e, batch, commits).1.Failure?
    ensures Put(e, batch, commits).0.committed == e.committed && e.memory.ts <= Put(e, batch, commits).0.memory.ts
  {
    BatchGrows(e, batch);
  }

  /** Moving the timestamp changes metadata only, and a restart changes nothing stored. */
  lemma QuietEvent(e: Engine, event: Event)
    requires EngineOk(e) && !event.PutBatch?
    ensures Next(e, event).committed == e.committed.(metadata := Next(e, event).committed.metadata)
    ensures MayFollow(e, event) ==> e.memory.ts <= Next(e, event).memory.ts
  {
    match event
    case MoveTs(ts, commits) => SetTsKeeps(Writer(e.committed, e.memory), ts);
    case MoveVisibleTs(ts, commits) => SetVisibleTsKeeps(e, ts, commits);
    case Reopen => Restarted(e);
  }

  lemma Restarted(e: Engine)
    requires EngineOk(e)
    ensures Next(e, Reopen).committed == e.committed
      && Next(e, Reopen).memory.ts == StoredAt(e.committed.metadata, TS_KEY)
  {
  }

  lemma PutEventVersionsUpTo(e: Engine, batch: Batch, commits: bool)
    requires EngineOk(e) && VersionsUpTo(e.committed.documents, e.memory.ts)
    ensures VersionsUpTo(Put(e, batch, commits).0.committed.documents, Put(e, batch, commits).0.memory.ts)
  {
    if Put(e, batch, commits).1.Success? {
      AcceptedPut(e, batch, commits);
      PutVersionsUpTo(e, batch, commits);
    } else {
      RejectedPut(e, batch, commits);
    }
  }

  /** No version is ever ahead of the timestamp in memory. */
  lemma NextVersionsUpTo(e: Engine, event: Event)
    requires EngineOk(e) && VersionsUpTo(e.committed.documents, e.memory.ts) && MayFollow(e, event)
    ensures VersionsUpTo(Next(e, event).committed.documents, Next(e, event).memory.ts)
  {
    if event.PutBatch? {
      PutEventVersionsUpTo(e, event.batch, event.commits);
    } else {
      QuietEvent(e, event);
    }
  }

  lemma PutEventReads(e: Engine, batch: Batch, commits: bool, ts: U64, c: CollectionId, d: DocumentId)
    requires EngineOk(e) && VersionsUpTo(e.committed.documents, e.memory.ts)
    ensures DocumentRows(Put(e, batch, commits).0.committed.documents)
    ensures Visible(Put(e, batch, commits).0.committed.documents, ts, c, d)
         == Overwritten(EventWrite(e, PutBatch(batch, commits), ts, c, d), Visible(e.committed.documents, ts, c, d))
  {
    if Put(e, batch, commits).1.Success? {
      AcceptedPut(e, batch, commits);
      EarlierVersions(e.committed.documents, e.memory.ts, batch.ts);
      LatestPutReads(e, batch, commits, ts, c, d);
    } else {
      RejectedPut(e, batch, commits);
    }
  }

  lemma NextReads(e: Engine, event: Event, ts: U64, c: CollectionId, d: DocumentId)
    requires EngineOk(e) && VersionsUpTo(e.committed.documents, e.memory.ts)
    ensures DocumentRows(Next(e, event).committed.documents)
    ensures Visible(Next(e, event).committed.documents, ts, c, d)
         == Overwritten(EventWrite(e, event, ts, c, d), Visible(e.committed.documents, ts, c, d))
  {
    if event.PutBatch? {
      PutEventReads(e, event.batch, event.commits, ts, c, d);
    } else {
      QuietEvent(e, event);
    }
  }

  lemma ReplayDocumentRows(e: Engine, events: seq<Event>)
    requires EngineOk(e)
    ensures DocumentRows(Replay(e, events).committed.documents)
  {
    ReplayKeeps(e, events);
  }

  lemma PutEventRows(e: Engine, batch: Batch, commits: bool, c: CollectionId, d: DocumentId, v: U64)
    requires EngineOk(e)
    ensures RowAt(Put(e, batch, commits).0.committed.documents, EncodeDocumentKey(c, d, v))
         == RowAfter(e.committed.documents, c, d, v, v, EventWriteAt(e, PutBatch(batch, commits), v, c, d))
  {
    if Put(e, batch, commits).1.Success? {
      PutRows(e, batch, commits, c, d, v);
    } else {
      RejectedPut(e, batch, commits);
    }
  }

  lemma NextRows(e: Engine, event: Event, c: CollectionId, d: DocumentId, v: U64)
    requires EngineOk(e)
    ensures RowAt(Next(e, event).committed.documents, EncodeDocumentKey(c, d, v))
         == RowAfter(e.committed.documents, c, d, v, v, EventWriteAt(e, event, v, c, d))
  {
    if event.PutBatch? {
      PutEventRows(e, event.batch, event.commits, c, d, v);
    } else {
      QuietEvent(e, event);
    }
  }

  /** After any run, the version of a document at a timestamp is the last accepted write with that timestamp. */
  lemma {:induction false} RowsAreLastWrites(e: Engine, events: seq<Event>, c: CollectionId, d: DocumentId, v: U64)
    requires EngineOk(e)
    ensures RowAt(Replay(e, events).committed.documents, EncodeDocumentKey(c, d, v))
         == RowAfter(e.committed.documents, c, d, v, v, LastWriteAt(e, events, v, c, d))
    decreases |events|
  {
    if events != [] {
      NextKeeps(e, events[0]);
      NextRows(e, events[0], c, d, v);
      RowsAreLastWrites(Next(e, events[0]), events[1..], c, d, v);
    }
  }

  lemma {:induction false} StampedWrite(e: Engine, events: seq<Event>, ts: U64, c: CollectionId, d: DocumentId)
    ensures LastStamp(e, events, ts, c, d).Some? <==> LastWrite(e, events, ts, c, d).Some?
    ensures LastStamp(e, events, ts, c, d).Some? ==> LastStamp(e, events, ts, c, d).value <= ts
    ensures LastStamp(e, events, ts, c, d).Some? ==>
      LastWriteAt(e, events, LastStamp(e, events, ts, c, d).value, c, d) == LastWrite(e, events, ts, c, d)
    decreases |events|
  {
    if events != [] {
      StampedWrite(Next(e, events[0]), events[1..], ts, c, d);
      LaterStamps(Next(e, events[0]), events[1..], ts, c, d);
    }
  }

  /** Without a write up to `ts` there is none at any timestamp up to `ts`. */
  lemma {:induction false} LaterStamps(e: Engine, events: seq<Event>, ts: U64, c: CollectionId, d: DocumentId)
    ensures LastWrite(e, events, ts, c, d).None? ==> forall v: U64 | v <= ts :: LastWriteAt(e, events, v, c, d).None?
    decreases |events|
  {
    if events != [] {
      LaterStamps(Next(e, events[0]), events[1..], ts, c, d);
    }
  }

  /** The document has neither a version from before the run nor a write in it after `v` and up to `ts`. */
  ghost predicate NothingNewer(e: Engine, events: seq<Event>, c: CollectionId, d: DocumentId, v: U64, ts: U64) {
    forall x: U64 | v < x <= ts :: !HasVersion(e.committed.documents, c, d, x) && LastWriteAt(e, events, x, c, d).None?
  }

  /**
   After any run, the last write up to `ts` is the newest version at `ts`, and what is read there, exactly if nothing
   with a greater timestamp up to `ts` was written.
   */
  lemma LastWriteIsNewest(e: Engine, events: seq<Event>, ts: U64, c: CollectionId, d: DocumentId)
    requires EngineOk(e) && LastStamp(e, events, ts, c, d).Some?
    ensures DocumentRows(Replay(e, events).committed.documents)
    ensures var v, after := LastStamp(e, events, ts, c, d).value, Replay(e, events).committed.documents;
      && (Newest(after, ts, c, d, v) <==> NothingNewer(e, events, c, d, v, ts))
      && (NothingNewer(e, events, c, d, v, ts) ==>
         Visible(after, ts, c, d) == Overwritten(LastWrite(e, events, ts, c, d), None))
  {
    ReplayDocumentRows(e, events);
    StampedWrite(e, events, ts, c, d);
    var v, after := LastStamp(e, events, ts, c, d).value, Replay(e, events).committed.documents;
    forall x: U64
      ensures RowAt(after, EncodeDocumentKey(c, d, x))
         == RowAfter(e.committed.documents, c, d, x, x, LastWriteAt(e, events, x, c, d))
    {
      RowsAreLastWrites(e, events, c, d, x);
    }
    forall x: U64
      ensures HasVersion(after, c, d, x)
         <==> HasVersion(e.committed.documents, c, d, x) || LastWriteAt(e, events, x, c, d).Some?
    {
      assert RowAt(after, EncodeDocumentKey(c, d, x))
        == RowAfter(e.committed.documents, c, d, x, x, LastWriteAt(e, events, x, c, d));
    }
    if NothingNewer(e, events, c, d, v, ts) {
      NewVersionIsRead(after, ts, c, d, v, LastWrite(e, events, ts, c, d).value);
    }
  }

  lemma OverwrittenTwice(later: Option<DocumentWrite>, first: Option<DocumentWrite>, before: Option<Bytes>)
    ensures Overwritten(later, Overwritten(first, before)) == Overwritten(if later.Some? then later else first, before)
  {
  }

  /**
   In an orderly run, a document reads at any timestamp as the last write that accepted batches made to it up to then.
   */
  lemma {:induction false} ReadsAreLastWrites(e: Engine, events: seq<Event>, ts: U64, c: CollectionId, d: DocumentId)
    requires EngineOk(e) && VersionsUpTo(e.committed.documents, e.memory.ts) && Orderly(e, events)
    ensures DocumentRows(Replay(e, events).committed.documents)
    ensures Visible(Replay(e, events).committed.documents, ts, c, d)
         == Overwritten(LastWrite(e, events, ts, c, d), Visible(e.committed.documents, ts, c, d))
    decreases |events|
  {
    ReplayDocumentRows(e, events);
    if events != [] {
      NextKeeps(e, events[0]);
      NextVersionsUpTo(e, events[0]);
      NextReads(e, events[0], ts, c, d);
      ReadsAreLastWrites(Next(e, events[0]), events[1..], ts, c, d);
      OverwrittenTwice(LastWrite(Next(e, events[0]), events[1..], ts, c, d), EventWrite(e, events[0], ts, c, d),
        Visible(e.committed.documents, ts, c, d));
    }
  }

  lemma {:induction false} ReplayVersionsUpTo(e: Engine, events: seq<Event>)
    requires EngineOk(e) && VersionsUpTo(e.committed.documents, e.memory.ts) && Orderly(e, events)
    ensures VersionsUpTo(Replay(e, events).committed.documents, Replay(e, events).memory.ts)
    decreases |events|
  {
    if events != [] {
      NextKeeps(e, events[0]);
      NextVersionsUpTo(e, events[0]);
      ReplayVersionsUpTo(Next(e, events[0]), events[1..]);
    }
  }

  // ---------------------------------------------------------- stable snapshots

  ghost predicate LaterThan(events: seq<Event>, ts: U64) {
    forall i | 0 <= i < |events| && events[i].PutBatch? :: events[i].batch.ts > ts
  }

  lemma NextSnapshot(e: Engine, event: Event, ts: U64, c: CollectionId, d: DocumentId)
    requires EngineOk(e) && (event.PutBatch? ==> event.batch.ts > ts)
    ensures DocumentRows(Next(e, event).committed.documents)
    ensures Visible(Next(e, event).committed.documents, ts, c, d) == Visible(e.committed.documents, ts, c, d)
  {
    if event.PutBatch? {
      var batch, commits := event.batch, event.commits;
      if Put(e, batch, commits).1.Success? {
        LatestPutReads(e, batch, commits, ts, c, d);
      } else {
        RejectedPut(e, batch, commits);
      }
    } else {
      QuietEvent(e, event);
    }
  }

  /** Whatever happens later, batches with later timestamps change no document read at `ts`. */
  lemma {:induction false} StableDocuments(e: Engine, events: seq<Event>, ts: U64, c: CollectionId, d: DocumentId)
    requires EngineOk(e) && LaterThan(events, ts)
    ensures DocumentRows(Replay(e, events).committed.documents)
    ensures Visible(Replay(e, events).committed.documents, ts, c, d) == Visible(e.committed.documents, ts, c, d)
    decreases |events|
  {
    ReplayDocumentRows(e, events);
    if events != [] {
      assert LaterThan([events[0]], ts) && LaterThan(events[1..], ts);
      NextKeeps(e, events[0]);
      NextSnapshot(e, events[0], ts, c, d);
      StableDocuments(Next(e, events[0]), events[1..], ts, c, d);
    }
  }

  // ------------------------------------------------------ the stored timestamp

  /**
   After an accepted batch the stored timestamp is the batch's, exactly when the batch moved the timestamp in memory or
   found it already stored.
   */
  lemma StoredTimestamp(e: Engine, batch: Batch, commits: bool)
    requires EngineOk(e) && Put(e, batch, commits).1.Success?
    ensures StoredAt(Put(e, batch, commits).0.committed.metadata, TS_KEY) == batch.ts
       <==> batch.ts > e.memory.ts || StoredAt(e.committed.metadata, TS_KEY) == batch.ts
  {
    AcceptedPut(e, batch, commits);
  }

  ghost predicate Infallible(events: seq<Event>) {
    forall i | 0 <= i < |events| :: events[i].Reopen? || events[i].commits
  }

  lemma NextSynced(e: Engine, event: Event)
    requires EngineOk(e) && StoredAt(e.committed.metadata, TS_KEY) == e.memory.ts && Infallible([event])
    ensures StoredAt(Next(e, event).committed.metadata, TS_KEY) == Next(e, event).memory.ts
  {
    assert event == [event][0];
    match event
    case PutBatch(batch, commits) =>
      if Put(e, batch, commits).1.Success? {
        AcceptedPut(e, batch, commits);
      } else {
        BatchGrows(e, batch);
        RejectedTs(e, batch);
      }
    case MoveTs(ts, commits) => SetTsKeeps(Writer(e.committed, e.memory), ts);
    case MoveVisibleTs(ts, commits) => SetVisibleTsKeeps(e, ts, commits);
    case Reopen =>
  }

  lemma RejectedTs(e: Engine, batch: Batch)
    requires EngineOk(e) && Put(e, batch, true).1.Failure?
    ensures Put(e, batch, true).0.memory.ts == e.memory.ts && Put(e, batch, true).0.committed == e.committed
  {
    BatchGrows(e, batch);
  }

  /** If no commit is lost, the stored timestamp is always the one in memory, so restarts are harmless. */
  lemma {:induction false} InfallibleIsOrderly(e: Engine, events: seq<Event>)
    requires EngineOk(e) && StoredAt(e.committed.metadata, TS_KEY) == e.memory.ts && Infallible(events)
    ensures Orderly(e, events)
    decreases |events|
  {
    if events != [] {
      assert Infallible([events[0]]) && Infallible(events[1..]);
      NextKeeps(e, events[0]);
      NextSynced(e, events[0]);
      InfallibleIsOrderly(Next(e, events[0]), events[1..]);
    }
  }
}
