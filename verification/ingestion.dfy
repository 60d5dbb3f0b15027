/** Document ingestion (`process_document`): mark the document as
    processing, download its bytes, decode them, cut the text into chunks,
    insert one chunk row per chunk, and mark the document completed; any
    failure is recorded on the document as "failed: <message>" and nothing
    already written is undone. */
module Ingestion {
  import opened Text
  import opened Results
  import Chunker
  import Retrieval
  import Storage

  /** The rows ingestion reads and writes. */
  datatype Store = Store(docs: seq<Retrieval.DocRow>, chunks: seq<Retrieval.ChunkRow>)

  /** How a run ends: `True`, `False`, or the exception of the failed-status
      write, which escapes when that write raises too. */
  datatype Outcome = Succeeded | Failed | Escaped(message: string)

  /** Strict and lenient UTF-8 decoding: the strict one may refuse the
      bytes, the lenient one (`errors='ignore'`) always answers. */
  datatype Decoder = Decoder(strict: seq<Storage.Byte> -> Option<string>, lenient: seq<Storage.Byte> -> string)

  const Processing: string := "processing"
  const Completed: string := "completed"
  const FailedPrefix: string := "failed: "

  /** `update(...).eq('id', id)`: every row with that id gets the status. */
  function SetStatus(docs: seq<Retrieval.DocRow>, id: string, status: string): (r: seq<Retrieval.DocRow>)
    ensures |r| == |docs|
    ensures forall i :: 0 <= i < |docs| ==> r[i] == if docs[i].id == id then docs[i].(embeddingStatus := status) else docs[i]
  {
    seq(|docs|, i requires 0 <= i < |docs| => if docs[i].id == id then docs[i].(embeddingStatus := status) else docs[i])
  }

  /** The "completed" update also sets the processed flag. */
  function SetCompleted(docs: seq<Retrieval.DocRow>, id: string): (r: seq<Retrieval.DocRow>)
    ensures |r| == |docs|
    ensures forall i :: 0 <= i < |docs| ==> r[i] == if docs[i].id == id then docs[i].(embeddingStatus := Completed, isProcessed := 1) else docs[i]
  {
    seq(|docs|, i requires 0 <= i < |docs| =>
      if docs[i].id == id then docs[i].(embeddingStatus := Completed, isProcessed := 1) else docs[i])
  }

  /** The text of the downloaded bytes: "txt" and "text" documents are
      decoded strictly first and leniently if that fails; every other type
      leniently. Decoding never fails. */
  function DecodeText(content: seq<Storage.Byte>, documentType: string, dec: Decoder): (text: string)
    ensures Lower(documentType) in ["txt", "text"] && dec.strict(content).Some? ==> text == dec.strict(content).value
    ensures !(Lower(documentType) in ["txt", "text"] && dec.strict(content).Some?) ==> text == dec.lenient(content)
  {
    if Lower(documentType) in ["txt", "text"] then
      match dec.strict(content)
      case Some(t) => t
      case None => dec.lenient(content)
    else dec.lenient(content)
  }

  /** The chunk rows of a document, indexed from 0 in chunk order. */
  function ChunkRows(documentId: string, tenantId: string, texts: seq<string>, chunkId: nat -> string): (r: seq<Retrieval.ChunkRow>)
    ensures |r| == |texts|
    ensures forall i :: 0 <= i < |texts| ==>
      r[i] == Retrieval.ChunkRow(chunkId(i), documentId, tenantId, texts[i], i)
  {
    seq(|texts|, i requires 0 <= i < |texts| => Retrieval.ChunkRow(chunkId(i), documentId, tenantId, texts[i], i))
  }

  /** What a run decodes and chunks, when it gets that far. */
  function ChunksOf(files: Storage.Files, filePath: string, documentType: string, dec: Decoder): seq<string> {
    Chunker.ChunkTexts(DecodeText(Storage.Download(files, filePath), documentType, dec), Chunker.MaxChunkSize)
  }

  /** Whether the step numbered `k` raises, given the step that raises. */
  predicate Raises(failAt: Option<nat>, k: nat) {
    failAt == Some(k)
  }

  /** The inputs of one run. `failAt` numbers the store step that raises
      (0 the "processing" update, 1 the download, 2 + i the insert of chunk
      i, 2 + n the "completed" update for n chunks) and `message` is its
      text. A write commits before it reads its rows back, so a writing
      step can raise with its change already kept: `committed` says so of
      the raising step (the download writes nothing, so there it plays no
      part). `recordFails` says whether writing the failed status raises
      as well, `recordMessage` is the text of that second exception, and
      `recordCommitted` says whether that write was kept all the same.
      `chunkId(i)` is the fresh id of chunk i. */
  datatype Run = Run(files: Storage.Files, documentId: string, filePath: string, documentType: string,
                     tenantId: string, dec: Decoder, chunkId: nat -> string,
                     failAt: Option<nat>, committed: bool, message: string,
                     recordFails: bool, recordMessage: string, recordCommitted: bool)

  /** The chunk rows a complete run inserts. */
  function RunRows(run: Run): seq<Retrieval.ChunkRow> {
    ChunkRows(run.documentId, run.tenantId, ChunksOf(run.files, run.filePath, run.documentType, run.dec), run.chunkId)
  }

  /** The except branch: the failed status is recorded and the answer is
      False; when recording raises too, its own exception escapes, with
      the failed status kept only if that write committed first. */
  function Failure(store: Store, run: Run): (Outcome, Store) {
    var recorded := store.(docs := SetStatus(store.docs, run.documentId, FailedPrefix + run.message));
    if !run.recordFails then (Failed, recorded)
    else if run.recordCommitted then (Escaped(run.recordMessage), recorded)
    else (Escaped(run.recordMessage), store)
  }

  /** Reference definition of a run, step by step: the steps before the
      raising one take effect, and the raising one takes effect exactly
      when its write committed before it raised. */
  function Expected(store: Store, run: Run): (Outcome, Store) {
    Steps(store, run, RunRows(run))
  }

  /** The run's steps over the chunk rows `rows` it inserts. */
  function Steps(store: Store, run: Run, rows: seq<Retrieval.ChunkRow>): (Outcome, Store) {
    var marked := SetStatus(store.docs, run.documentId, Processing);
    if run.failAt.Some? && run.failAt.value <= 2 + |rows| then
      var k := run.failAt.value;
      var docs := if k == 0 && !run.committed then store.docs
                  else if k == 2 + |rows| && run.committed then SetCompleted(marked, run.documentId)
                  else marked;
      var inserted := if k < 2 then 0 else if k < 2 + |rows| && run.committed then k - 1 else k - 2;
      Failure(Store(docs, store.chunks + rows[..inserted]), run)
    else (Succeeded, Store(SetCompleted(marked, run.documentId), store.chunks + rows))
  }

  /** `process_document`, one store step at a time. */
  method ProcessDocument(store: Store, run: Run) returns (outcome: Outcome, final: Store)
    ensures (outcome, final) == Expected(store, run)
  {
    var marked := store.(docs := SetStatus(store.docs, run.documentId, Processing));
    if Raises(run.failAt, 0) {
      StepsBefore(store, run, RunRows(run), 0);
      assert store.chunks + RunRows(run)[..0] == store.chunks;
      outcome, final := RecordFailure(if run.committed then marked else store, run);
      return;
    }
    if Raises(run.failAt, 1) {
      StepsBefore(store, run, RunRows(run), 1);
      assert store.chunks + RunRows(run)[..0] == store.chunks;
      outcome, final := RecordFailure(marked, run);
      return;
    }
    var rows := DownloadAndChunk(run);
    outcome, final := InsertAndComplete(store, run, rows);
  }

  /** Download the file, decode it and cut it into chunk rows. */
  method DownloadAndChunk(run: Run) returns (rows: seq<Retrieval.ChunkRow>)
    ensures rows == RunRows(run)
  {
    var content := Storage.Download(run.files, run.filePath);
    var text := DecodeText(content, run.documentType, run.dec);
    var chunks := Chunker.SplitTextIntoChunks(text, Chunker.MaxChunkSize);
    rows := ChunkRows(run.documentId, run.tenantId, chunks, run.chunkId);
  }

  /** The rest of `process_document` once the document is marked processing
      and its chunk rows are cut: insert them, then mark it completed. */
  method InsertAndComplete(store: Store, run: Run, rows: seq<Retrieval.ChunkRow>) returns (outcome: Outcome, final: Store)
    requires !Raises(run.failAt, 0) && !Raises(run.failAt, 1)
    ensures (outcome, final) == Steps(store, run, rows)
  {
    final := store.(docs := SetStatus(store.docs, run.documentId, Processing));
    var failed;
    failed, final := InsertChunks(final, rows, run.failAt, run.committed);
    if failed {
      StepsBefore(store, run, rows, run.failAt.value);
      outcome, final := RecordFailure(final, run);
      return;
    }
    if Raises(run.failAt, 2 + |rows|) {
      StepsBefore(store, run, rows, 2 + |rows|);
      assert rows[..|rows|] == rows;
      if run.committed {
        final := final.(docs := SetCompleted(final.docs, run.documentId));
      }
      outcome, final := RecordFailure(final, run);
      return;
    }
    final := final.(docs := SetCompleted(final.docs, run.documentId));
    outcome := Succeeded;
  }

  /** A run whose step `k` raises: the reference outcome, phase by phase. */
  lemma StepsBefore(store: Store, run: Run, rows: seq<Retrieval.ChunkRow>, k: nat)
    requires run.failAt == Some(k) && k <= 2 + |rows|
    ensures var marked := SetStatus(store.docs, run.documentId, Processing);
      Steps(store, run, rows)
      == Failure(Store(if k == 0 && !run.committed then store.docs
                       else if k == 2 + |rows| && run.committed then SetCompleted(marked, run.documentId)
                       else marked,
                       store.chunks + rows[..if k < 2 then 0 else if k < 2 + |rows| && run.committed then k - 1 else k - 2]),
                 run)
  {
  }

  /** The insert loop: chunk rows go in one by one, in order, until the
      insert numbered `failAt` raises; that row stays when its insert
      committed before raising. */
  method InsertChunks(store: Store, rows: seq<Retrieval.ChunkRow>, failAt: Option<nat>, committed: bool)
    returns (failed: bool, final: Store)
    ensures failed <==> failAt.Some? && 2 <= failAt.value < 2 + |rows|
    ensures failed && !committed ==> final == Store(store.docs, store.chunks + rows[..failAt.value - 2])
    ensures failed && committed ==> final == Store(store.docs, store.chunks + rows[..failAt.value - 1])
    ensures !failed ==> final == Store(store.docs, store.chunks + rows)
  {
    final := store;
    var i := 0;
    while i < |rows|
      invariant 0 <= i <= |rows|
      invariant final == Store(store.docs, store.chunks + rows[..i])
      invariant forall k :: 2 <= k < 2 + i ==> !Raises(failAt, k)
    {
      assert rows[..i + 1] == rows[..i] + [rows[i]];
      if Raises(failAt, 2 + i) {
        if committed {
          final := final.(chunks := final.chunks + [rows[i]]);
        }
        return true, final;
      }
      final := final.(chunks := final.chunks + [rows[i]]);
      i := i + 1;
    }
    assert rows[..i] == rows;
    if failAt.Some? && 2 <= failAt.value < 2 + |rows| {
      assert Raises(failAt, failAt.value);
    }
    return false, final;
  }

  /** The except branch, as a step of the method. */
  method RecordFailure(store: Store, run: Run) returns (outcome: Outcome, final: Store)
    ensures !run.recordFails ==> outcome == Failed
    ensures run.recordFails ==> outcome == Escaped(run.recordMessage)
    ensures !run.recordFails || run.recordCommitted ==>
      final == store.(docs := SetStatus(store.docs, run.documentId, FailedPrefix + run.message))
    ensures run.recordFails && !run.recordCommitted ==> final == store
  {
    var recorded := store.(docs := SetStatus(store.docs, run.documentId, FailedPrefix + run.message));
    if !run.recordFails {
      return Failed, recorded;
    }
    if run.recordCommitted {
      return Escaped(run.recordMessage), recorded;
    }
    return Escaped(run.recordMessage), store;
  }

  // ---------------------------------------------------------------------
  // Facts

  /** A failed run leaves every processed flag as it was, so it opens or
      closes no tenant's retrieval gate; and the chunks it did insert are
      searched for its tenant like any others. */
  lemma FailureKeepsGate(docs: seq<Retrieval.DocRow>, documentId: string, status: string, tenant: string)
    ensures Retrieval.HasProcessed(SetStatus(docs, documentId, status), tenant) <==> Retrieval.HasProcessed(docs, tenant)
  {
    var after := SetStatus(docs, documentId, status);
    if Retrieval.HasProcessed(docs, tenant) {
      var d :| d in docs && d.tenantId == tenant && d.isProcessed == 1;
      var i :| 0 <= i < |docs| && docs[i] == d;
      assert after[i] in after;
    }
    if Retrieval.HasProcessed(after, tenant) {
      var d :| d in after && d.tenantId == tenant && d.isProcessed == 1;
      var i :| 0 <= i < |after| && after[i] == d;
      assert docs[i] in docs;
    }
  }

  /** Chunks inserted before a failure stay in the store and are among the
      tenant's chunks that retrieval scores. */
  lemma PartialChunksSearched(before: seq<Retrieval.ChunkRow>, rows: seq<Retrieval.ChunkRow>, tenant: string, c: Retrieval.ChunkRow)
    requires c in rows && c.tenantId == tenant
    ensures c in Retrieval.TenantChunks(before + rows, tenant)
  {
    assert c in before + rows;
  }

  /** The chunk rows are indexed 0..n-1 in order and all carry the
      document's and tenant's ids; a prefix of them is again indexed from 0. */
  lemma ChunkIndices(documentId: string, tenantId: string, texts: seq<string>, chunkId: nat -> string, k: nat)
    requires k <= |texts|
    ensures var rows := ChunkRows(documentId, tenantId, texts, chunkId)[..k];
      forall i :: 0 <= i < k ==>
        rows[i].chunkIndex == i && rows[i].documentId == documentId && rows[i].tenantId == tenantId && rows[i].content == texts[i]
  {
  }

  /** A document whose text has no words completes with no chunk rows. */
  lemma EmptyDocumentCompletes(files: Storage.Files, filePath: string, documentType: string, dec: Decoder)
    requires AllSpace(DecodeText(Storage.Download(files, filePath), documentType, dec))
    ensures ChunksOf(files, filePath, documentType, dec) == []
  {
    Chunker.ChunksEmptyIff(DecodeText(Storage.Download(files, filePath), documentType, dec), Chunker.MaxChunkSize);
  }

  /** A missing file is read as the bytes of "File not found", so it is
      ingested as that text rather than failing. */
  lemma MissingFileIngested(files: Storage.Files, filePath: string, documentType: string, dec: Decoder)
    requires filePath !in files
    ensures ChunksOf(files, filePath, documentType, dec)
         == Chunker.ChunkTexts(DecodeText(Storage.NotFoundBytes(), documentType, dec), Chunker.MaxChunkSize)
  {
  }

  /** A run with no raising step answers True, marks every row of the
      document completed and processed, and inserts every chunk row. */
  lemma SuccessfulRun(store: Store, run: Run)
    requires run.failAt.None?
    ensures var (outcome, final) := Expected(store, run);
      outcome == Succeeded && final.chunks == store.chunks + RunRows(run) &&
      |final.docs| == |store.docs| &&
      forall i :: 0 <= i < |store.docs| ==>
        (store.docs[i].id == run.documentId ==> final.docs[i].embeddingStatus == Completed && final.docs[i].isProcessed == 1) &&
        (store.docs[i].id != run.documentId ==> final.docs[i] == store.docs[i])
  {
  }

  /** A later status overwrites an earlier one, and a status update keeps
      every row's id, tenant and processed flag. */
  lemma SetStatusOverwrites(docs: seq<Retrieval.DocRow>, id: string, s1: string, s2: string)
    ensures SetStatus(SetStatus(docs, id, s1), id, s2) == SetStatus(docs, id, s2)
    ensures var r := SetStatus(docs, id, s1);
      forall i :: 0 <= i < |docs| ==>
        r[i].id == docs[i].id && r[i].tenantId == docs[i].tenantId && r[i].isProcessed == docs[i].isProcessed
  {
  }

  /** Some row of `docs` is the document `id` of tenant `tenant`. */
  predicate Owns(docs: seq<Retrieval.DocRow>, id: string, tenant: string) {
    exists d :: d in docs && d.id == id && d.tenantId == tenant
  }

  /** A status update changes no row's id or tenant. */
  lemma OwnsAfterStatus(docs: seq<Retrieval.DocRow>, id: string, status: string, owner: string, tenant: string)
    ensures Owns(SetStatus(docs, id, status), owner, tenant) <==> Owns(docs, owner, tenant)
  {
    var after := SetStatus(docs, id, status);
    if Owns(docs, owner, tenant) {
      var d :| d in docs && d.id == owner && d.tenantId == tenant;
      var i :| 0 <= i < |docs| && docs[i] == d;
      assert after[i] in after;
    }
    if Owns(after, owner, tenant) {
      var d :| d in after && d.id == owner && d.tenantId == tenant;
      var i :| 0 <= i < |after| && after[i] == d;
      assert docs[i] in docs;
    }
  }

  /** The "completed" update opens the retrieval gate of exactly the
      tenants owning a row of the document, and closes none. */
  lemma CompletedGate(docs: seq<Retrieval.DocRow>, id: string, tenant: string)
    ensures Retrieval.HasProcessed(SetCompleted(docs, id), tenant) <==>
      Retrieval.HasProcessed(docs, tenant) || Owns(docs, id, tenant)
  {
    var after := SetCompleted(docs, id);
    if Retrieval.HasProcessed(docs, tenant) {
      var d :| d in docs && d.tenantId == tenant && d.isProcessed == 1;
      var i :| 0 <= i < |docs| && docs[i] == d;
      assert after[i] in after;
    }
    if Owns(docs, id, tenant) {
      var d :| d in docs && d.id == id && d.tenantId == tenant;
      var i :| 0 <= i < |docs| && docs[i] == d;
      assert after[i] in after;
    }
    if Retrieval.HasProcessed(after, tenant) {
      var d :| d in after && d.tenantId == tenant && d.isProcessed == 1;
      var i :| 0 <= i < |after| && after[i] == d;
      assert docs[i] in docs;
    }
  }

  /** Outside "txt" and "text" the strict decoder is never consulted:
      decoders that agree on the lenient reading give the same text. */
  lemma DecodeIgnoresStrict(content: seq<Storage.Byte>, documentType: string, d1: Decoder, d2: Decoder)
    requires Lower(documentType) !in ["txt", "text"]
    requires d1.lenient(content) == d2.lenient(content)
    ensures DecodeText(content, documentType, d1) == DecodeText(content, documentType, d2)
  {
  }

  /** Whichever step raises, the chunk rows inserted before it stay (and
      its own row when it is a committed insert), and the except branch
      answers False with every row of the document reading "failed: " and
      the message. When recording raises too, its exception escapes and
      the status is the failed one only if that write committed; otherwise
      it is whatever the steps before left. Other documents are untouched,
      and the processed flag is set only by a committed "completed"
      update. */
  lemma FailedRunStatus(store: Store, run: Run, rows: seq<Retrieval.ChunkRow>)
    requires run.failAt.Some? && run.failAt.value <= 2 + |rows|
    ensures var (outcome, final) := Steps(store, run, rows);
      var k := run.failAt.value;
      var completed := k == 2 + |rows| && run.committed;
      var inserted := if k < 2 then 0 else if k < 2 + |rows| && run.committed then k - 1 else k - 2;
      && (!run.recordFails ==> outcome == Failed)
      && (run.recordFails ==> outcome == Escaped(run.recordMessage))
      && final.chunks == store.chunks + rows[..inserted]
      && |final.docs| == |store.docs|
      && forall i :: 0 <= i < |store.docs| ==>
        (store.docs[i].id != run.documentId ==> final.docs[i] == store.docs[i]) &&
        (store.docs[i].id == run.documentId ==>
          && final.docs[i].isProcessed == (if completed then 1 else store.docs[i].isProcessed)
          && final.docs[i].embeddingStatus ==
               if !run.recordFails || run.recordCommitted then FailedPrefix + run.message
               else if k == 0 && !run.committed then store.docs[i].embeddingStatus
               else if completed then Completed
               else Processing)
  {
    StepsBefore(store, run, rows, run.failAt.value);
  }

  /** When the insert of chunk `j` raises, the `j` chunk rows before it stay
      in the store, and chunk `j` too when its insert committed first. The
      document is marked failed with the message, or, when recording the
      failure raises before it commits, stays "processing" and the
      recording write's exception escapes. Stated for any
      row list; a run's own rows are `RunRows(run)`. */
  lemma FailedInsertKeepsPrefix(store: Store, run: Run, rows: seq<Retrieval.ChunkRow>, j: nat)
    requires j < |rows| && run.failAt == Some(2 + j)
    ensures var (outcome, final) := Steps(store, run, rows);
      var kept := if run.committed then j + 1 else j;
      final.chunks == store.chunks + rows[..kept] && |final.chunks| == |store.chunks| + kept &&
      (run.recordFails ==> outcome == Escaped(run.recordMessage)) &&
      (!run.recordFails ==> outcome == Failed) && |final.docs| == |store.docs| &&
      (forall i :: 0 <= i < |store.docs| && store.docs[i].id == run.documentId ==>
        final.docs[i].embeddingStatus == if run.recordFails && !run.recordCommitted then Processing else FailedPrefix + run.message)
  {
    StepsBefore(store, run, rows, 2 + j);
  }

  /** A run that does not succeed closes no tenant's retrieval gate, and
      opens one only when the raising step is the "completed" update and
      that update committed first: then the tenants owning the document
      find it processed. */
  lemma {:induction false} FailedRunGate(store: Store, run: Run, rows: seq<Retrieval.ChunkRow>, tenant: string)
    requires Steps(store, run, rows).0 != Succeeded
    ensures Retrieval.HasProcessed(Steps(store, run, rows).1.docs, tenant) <==>
      Retrieval.HasProcessed(store.docs, tenant) ||
      (run.committed && run.failAt == Some(2 + |rows|) && Owns(store.docs, run.documentId, tenant))
  {
    var k := run.failAt.value;
    StepsBefore(store, run, rows, k);
    var marked := SetStatus(store.docs, run.documentId, Processing);
    var failed := FailedPrefix + run.message;
    FailureKeepsGate(store.docs, run.documentId, Processing, tenant);
    if k == 2 + |rows| && run.committed {
      var completed := SetCompleted(marked, run.documentId);
      CompletedGate(marked, run.documentId, tenant);
      OwnsAfterStatus(store.docs, run.documentId, Processing, run.documentId, tenant);
      FailureKeepsGate(completed, run.documentId, failed, tenant);
    } else {
      FailureKeepsGate(marked, run.documentId, failed, tenant);
      FailureKeepsGate(store.docs, run.documentId, failed, tenant);
    }
  }
}
