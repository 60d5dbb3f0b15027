/** The document endpoints' decision logic: the ownership gate, extension
    validation, the shape of a new document record, when processing is
    scheduled, and the order in which a delete cascades. Store and storage
    calls are recorded as actions in the order they are issued; their
    failures are inputs. */
module DocumentsApi {
  import opened Text
  import opened Results
  import opened Tenants
  import Retrieval

  datatype HttpError = HttpError(status: int, detail: string)

  /** A `documents` row as the upload endpoint writes it. */
  datatype DocRecord = DocRecord(id: string, title: string, description: Option<string>, filePath: string,
                                 documentType: string, tenantId: string, createdAt: string, updatedAt: string,
                                 isProcessed: int, embeddingStatus: string)

  /** The arguments `process_document` is scheduled with. */
  datatype Job = Job(documentId: string, filePath: string, documentType: string, tenantId: string)

  /** Store and storage calls, in issue order. */
  datatype Action =
    | StoreFile(path: string)
    | InsertDocument(record: DocRecord)
    | Schedule(job: Job)
    | RemoveFile(path: string)
    | DeleteChunks(documentId: string)
    | DeleteDocument(documentId: string)

  const DocumentNotFound: string := "Document not found"

  // ---------------------------------------------------------------------
  // File extensions

  /** `s.rfind(c)`: the last index of `c`, or -1. */
  function LastIndexOf(s: string, c: char): (r: int)
    ensures -1 <= r < |s|
    ensures r >= 0 ==> s[r] == c
    ensures forall j :: r < j < |s| ==> s[j] != c
  {
    if |s| == 0 then -1
    else if s[|s| - 1] == c then |s| - 1
    else LastIndexOf(s[..|s| - 1], c)
  }

  /** `os.path.splitext(p)` on POSIX paths: the extension runs from the last
      dot of the last path component, unless that component is all dots
      up to there (a leading-dot name such as ".txt" has no extension). */
  function SplitExt(p: string): (r: (string, string))
    ensures r.0 + r.1 == p
    ensures r.1 == [] || (r.1[0] == '.' && '/' !in r.1 && '.' !in r.1[1..])
  {
    var sep := LastIndexOf(p, '/');
    var dot := LastIndexOf(p, '.');
    if dot > sep && exists j :: sep + 1 <= j < dot && p[j] != '.' then
      assert p[..dot] + p[dot..] == p;
      assert forall j :: dot < j < |p| ==> p[j] != '/' && p[j] != '.';
      assert forall c :: c in p[dot..] ==> c == '.' || c != '/';
      (p[..dot], p[dot..])
    else (p, "")
  }

  /** The last index of `c` is pinned by any position holding `c` with
      none after it. */
  lemma LastIndexAt(s: string, c: char, k: int)
    requires 0 <= k < |s| && s[k] == c
    requires forall j :: k < j < |s| ==> s[j] != c
    ensures LastIndexOf(s, c) == k
  {
  }

  /** A path whose last part is a stem holding some character other than
      a dot, then a dot, then a dot-free extension, splits just before
      that dot. */
  lemma SplitAtLastDot(dir: string, stem: string, e: string, i: nat)
    requires dir == [] || dir[|dir| - 1] == '/'
    requires '/' !in stem && i < |stem| && stem[i] != '.'
    requires '/' !in e && '.' !in e
    ensures SplitExt(dir + stem + "." + e) == (dir + stem, "." + e)
  {
    var p := dir + stem + "." + e;
    var dot := |dir| + |stem|;
    assert p[dot] == '.';
    assert forall j :: dot < j < |p| ==> p[j] == e[j - dot - 1];
    LastIndexAt(p, '.', dot);
    assert forall j :: |dir| <= j < |p| ==> p[j] != '/' by {
      forall j | |dir| <= j < |p| ensures p[j] != '/' {
        if j < dot { assert p[j] == stem[j - |dir|]; }
        else if j > dot { assert p[j] == e[j - dot - 1]; }
      }
    }
    if dir != [] {
      assert p[|dir| - 1] == '/';
      LastIndexAt(p, '/', |dir| - 1);
    } else {
      assert LastIndexOf(p, '/') == -1;
    }
    assert p[|dir| + i] == stem[i];
    assert p[..dot] == dir + stem;
    assert p[dot..] == "." + e;
  }

  /** A last part made of dots and then a dot-free tail (no dot at all,
      or a leading-dot name such as ".txt") has no extension. */
  lemma NoExtension(dir: string, dots: string, tail: string)
    requires dir == [] || dir[|dir| - 1] == '/'
    requires forall j :: 0 <= j < |dots| ==> dots[j] == '.'
    requires '/' !in tail && '.' !in tail
    ensures SplitExt(dir + dots + tail) == (dir + dots + tail, "")
  {
    var p := dir + dots + tail;
    var sep := LastIndexOf(p, '/');
    var dot := LastIndexOf(p, '.');
    assert forall j :: |dir| <= j < |p| ==> p[j] != '/' by {
      forall j | |dir| <= j < |p| ensures p[j] != '/' {
        if j < |dir| + |dots| { assert p[j] == dots[j - |dir|]; }
        else { assert p[j] == tail[j - |dir| - |dots|]; }
      }
    }
    if dir != [] {
      assert p[|dir| - 1] == '/';
      LastIndexAt(p, '/', |dir| - 1);
    }
    assert sep == |dir| - 1;
    assert forall j :: |dir| + |dots| <= j < |p| ==> p[j] != '.' by {
      forall j | |dir| + |dots| <= j < |p| ensures p[j] != '.' {
        assert p[j] == tail[j - |dir| - |dots|];
      }
    }
    assert forall j :: sep + 1 <= j < dot ==> p[j] == '.' by {
      forall j | sep + 1 <= j < dot ensures p[j] == '.' {
        assert p[j] == dots[j - |dir|];
      }
    }
  }

  const ValidExtensions: seq<string> := [".pdf", ".txt", ".doc", ".docx", ".csv"]

  /** The lowercased extension of an uploaded file's name. */
  function FileExtension(filename: string): string {
    Lower(SplitExt(filename).1)
  }

  /** The 400 answer for an unsupported extension. */
  function InvalidType(): HttpError {
    HttpError(400, "Invalid file type. Supported types: " + Join(", ", ValidExtensions))
  }

  // ---------------------------------------------------------------------
  // Gates

  function FindDocument(docs: seq<DocRecord>, id: string): (r: Option<DocRecord>)
    ensures r.Some? ==> r.value in docs && r.value.id == id
    ensures r.None? ==> forall d :: d in docs ==> d.id != id
  {
    if |docs| == 0 then None
    else if docs[0].id == id then Some(docs[0])
    else FindDocument(docs[1..], id)
  }

  /** The tenant gate: 404 when the tenant is missing, else 403 when the
      current user does not own it. */
  function TenantGate(tenants: seq<TenantRow>, tenantId: string, userId: string, forbidden: string): (r: Result<TenantRow, HttpError>)
    ensures r.Ok? <==> exists t :: t in tenants && t.id == tenantId && FindTenant(tenants, tenantId) == Some(t) && t.ownerId == userId
    ensures r.Err? && r.error.status == 404 <==> FindTenant(tenants, tenantId).None?
  {
    match FindTenant(tenants, tenantId)
    case None => Err(HttpError(404, TenantNotFound))
    case Some(t) => if t.ownerId != userId then Err(HttpError(403, forbidden)) else Ok(t)
  }

  /** The document gate of delete and status: 404 for a missing document,
      then the tenant gate on the document's tenant. */
  function DocumentGate(docs: seq<DocRecord>, tenants: seq<TenantRow>, documentId: string, userId: string, forbidden: string): (r: Result<DocRecord, HttpError>)
    ensures r.Ok? ==> FindDocument(docs, documentId) == Some(r.value)
    ensures r.Ok? ==> TenantGate(tenants, r.value.tenantId, userId, forbidden).Ok?
    ensures FindDocument(docs, documentId).None? ==> r == Err(HttpError(404, DocumentNotFound))
  {
    match FindDocument(docs, documentId)
    case None => Err(HttpError(404, DocumentNotFound))
    case Some(d) =>
      match TenantGate(tenants, d.tenantId, userId, forbidden)
      case Err(e) => Err(e)
      case Ok(_) => Ok(d)
  }

  // ---------------------------------------------------------------------
  // Upload

  datatype UploadRequest = UploadRequest(tenantId: string, title: string, description: Option<string>, filename: string)

  /** Where the failure, if any, is raised: reading the tenant, storing the
      file, or inserting the record. */
  datatype UploadFault = NoUploadFault | TenantReadFault | StorageFault | InsertFault

  /** The record the upload inserts. */
  function NewRecord(req: UploadRequest, newId: string, createdAt: string, updatedAt: string): (d: DocRecord) {
    var ext := FileExtension(req.filename);
    DocRecord(newId, req.title, req.description, StoragePath(req.tenantId, req.filename),
              if |ext| > 0 then ext[1..] else "", req.tenantId, createdAt, updatedAt, 0, "pending")
  }

  function StoragePath(tenantId: string, filename: string): string {
    "documents/" + tenantId + "/" + filename
  }

  const UploadErrorPrefix: string := "Error uploading document: "

  /** `upload_document`: the gates in order, then store the file, insert
      the record, and schedule processing only when the insert answered a
      row. `answered` is what the insert answers; `message` is the text of
      a raised failure. */
  function Upload(req: UploadRequest, userId: string, tenants: seq<TenantRow>, newId: string, createdAt: string, updatedAt: string,
                  fault: UploadFault, answered: seq<DocRecord>, message: string): (r: (Result<DocRecord, HttpError>, seq<Action>))
    ensures r.0.Ok? ==> |answered| > 0 && r.0.value == answered[0]
  {
    if fault == TenantReadFault then (Err(HttpError(500, UploadErrorPrefix + message)), [])
    else match TenantGate(tenants, req.tenantId, userId, "Not authorized to upload documents for this tenant")
    case Err(e) => (Err(e), [])
    case Ok(_) =>
      var ext := FileExtension(req.filename);
      if ext !in ValidExtensions then (Err(InvalidType()), [])
      else
        var path := StoragePath(req.tenantId, req.filename);
        if fault == StorageFault then (Err(HttpError(500, UploadErrorPrefix + message)), [StoreFile(path)])
        else
          var record := NewRecord(req, newId, createdAt, updatedAt);
          var written := [StoreFile(path), InsertDocument(record)];
          if fault == InsertFault then (Err(HttpError(500, UploadErrorPrefix + message)), written)
          else if |answered| == 0 then (Err(HttpError(400, "Failed to create document record")), written)
          else
            var job := Job(answered[0].id, path, record.documentType, req.tenantId);
            (Ok(answered[0]), written + [Schedule(job)])
  }

  // ---------------------------------------------------------------------
  // Listing and status

  /** `select * from documents where tenant_id = ...`, in table order. */
  function TenantDocuments(docs: seq<DocRecord>, tenantId: string): (r: seq<DocRecord>)
    ensures forall d :: d in r <==> d in docs && d.tenantId == tenantId
  {
    if |docs| == 0 then []
    else (if docs[0].tenantId == tenantId then [docs[0]] else []) + TenantDocuments(docs[1..], tenantId)
  }

  /** Which of the two reads raises, if any. */
  datatype ListFault = NoListFault | TenantListFault | DocumentsListFault

  /** `get_tenant_documents`: the tenant gate's 404 and 403 propagate, but a
      failed read answers an empty list. */
  function ListDocuments(tenantId: string, userId: string, tenants: seq<TenantRow>, docs: seq<DocRecord>,
                         fault: ListFault): (r: Result<seq<DocRecord>, HttpError>)
    ensures fault == TenantListFault ==> r == Ok([])
    ensures r.Err? ==> r.error.status == 404 || r.error.status == 403
  {
    if fault == TenantListFault then Ok([])
    else match TenantGate(tenants, tenantId, userId, "Not authorized to access documents for this tenant")
    case Err(e) => Err(e)
    case Ok(_) => if fault == DocumentsListFault then Ok([]) else Ok(TenantDocuments(docs, tenantId))
  }

  /** `get_document_status`: the document gate, then the row itself; a
      read that raises (`readFails`, with text `message`) answers 500. */
  function DocumentStatus(documentId: string, userId: string, docs: seq<DocRecord>, tenants: seq<TenantRow>,
                          readFails: bool, message: string): (r: Result<DocRecord, HttpError>)
    ensures readFails ==> r == Err(HttpError(500, "Error getting document status: " + message))
    ensures r.Ok? ==> r.value.id == documentId && r.value in docs
    ensures !readFails && FindDocument(docs, documentId).None? ==> r == Err(HttpError(404, DocumentNotFound))
    ensures r.Ok? <==> !readFails && FindDocument(docs, documentId).Some? &&
                       var t := FindTenant(tenants, FindDocument(docs, documentId).value.tenantId);
                       t.Some? && t.value.ownerId == userId
  {
    if readFails then Err(HttpError(500, "Error getting document status: " + message))
    else DocumentGate(docs, tenants, documentId, userId, "Not authorized to access this document")
  }

  // ---------------------------------------------------------------------
  // Delete

  /** Which steps of a delete raise. */
  datatype DeleteFaults = DeleteFaults(lookup: bool, storage: bool, chunks: bool, row: bool)

  const DeleteErrorPrefix: string := "Error deleting document: "

  /** `delete_document`: the document gate, then remove the stored file,
      then the document's chunks, then its row; failures of the first two
      are swallowed. */
  function Delete(documentId: string, userId: string, docs: seq<DocRecord>, tenants: seq<TenantRow>,
                  faults: DeleteFaults, message: string): (r: (Result<(), HttpError>, seq<Action>))
    ensures r.1 != [] ==> FindDocument(docs, documentId).Some?
  {
    if faults.lookup then (Err(HttpError(500, DeleteErrorPrefix + message)), [])
    else match DocumentGate(docs, tenants, documentId, userId, "Not authorized to delete this document")
    case Err(e) => (Err(e), [])
    case Ok(d) =>
      var actions := [RemoveFile(d.filePath), DeleteChunks(documentId), DeleteDocument(documentId)];
      if faults.row then (Err(HttpError(500, DeleteErrorPrefix + message)), actions)
      else (Ok(()), actions)
  }

  // ---------------------------------------------------------------------
  // Facts

  /** Upload answers 404, then 403, then 400, and nothing is stored or
      written before all three checks pass. */
  lemma UploadGateOrder(req: UploadRequest, userId: string, tenants: seq<TenantRow>, newId: string, createdAt: string, updatedAt: string,
                        fault: UploadFault, answered: seq<DocRecord>, message: string)
    requires fault != TenantReadFault
    ensures var (res, actions) := Upload(req, userId, tenants, newId, createdAt, updatedAt, fault, answered, message);
      var tenant := FindTenant(tenants, req.tenantId);
      && (tenant.None? ==> res == Err(HttpError(404, TenantNotFound)) && actions == [])
      && (tenant.Some? && tenant.value.ownerId != userId ==> res.Err? && res.error.status == 403 && actions == [])
      && (tenant.Some? && tenant.value.ownerId == userId && FileExtension(req.filename) !in ValidExtensions ==>
            res == Err(InvalidType()) && actions == [])
      && (actions != [] ==> tenant.Some? && tenant.value.ownerId == userId && FileExtension(req.filename) in ValidExtensions)
  {
  }

  /** A raising store call answers 500 with the error's text, after the
      calls issued so far: none when the tenant read raises, the file when
      storing it raises, the file and the record when the insert raises. */
  lemma UploadFaultAnswers(req: UploadRequest, userId: string, tenants: seq<TenantRow>, newId: string, createdAt: string, updatedAt: string,
                           fault: UploadFault, answered: seq<DocRecord>, message: string)
    ensures var (res, actions) := Upload(req, userId, tenants, newId, createdAt, updatedAt, fault, answered, message);
      var passed := TenantGate(tenants, req.tenantId, userId, "Not authorized to upload documents for this tenant").Ok?
                    && FileExtension(req.filename) in ValidExtensions;
      var path := StoragePath(req.tenantId, req.filename);
      && (fault == TenantReadFault ==> res == Err(HttpError(500, UploadErrorPrefix + message)) && actions == [])
      && (fault == StorageFault && passed ==>
            res == Err(HttpError(500, UploadErrorPrefix + message)) && actions == [StoreFile(path)])
      && (fault == InsertFault && passed ==>
            res == Err(HttpError(500, UploadErrorPrefix + message))
            && actions == [StoreFile(path), InsertDocument(NewRecord(req, newId, createdAt, updatedAt))])
      && (res.Err? && res.error.status == 500 ==> fault != NoUploadFault)
  {
  }

  /** The record a successful gate writes: pending, unprocessed, stored
      under the tenant's folder, typed by the extension without its dot. */
  lemma RecordShape(req: UploadRequest, newId: string, createdAt: string, updatedAt: string)
    requires FileExtension(req.filename) in ValidExtensions
    ensures var d := NewRecord(req, newId, createdAt, updatedAt);
      && d.embeddingStatus == "pending" && d.isProcessed == 0
      && d.filePath == "documents/" + req.tenantId + "/" + req.filename
      && "." + d.documentType == FileExtension(req.filename)
      && d.documentType in ["pdf", "txt", "doc", "docx", "csv"]
  {
    var ext := FileExtension(req.filename);
    assert ext == "." + ext[1..];
  }

  /** Processing is scheduled exactly when the gates pass, nothing raises
      and the insert answers a row; the job carries the answered id, the
      stored path, the type and the tenant, and is the last action. */
  lemma ScheduleRule(req: UploadRequest, userId: string, tenants: seq<TenantRow>, newId: string, createdAt: string, updatedAt: string,
                     fault: UploadFault, answered: seq<DocRecord>, message: string)
    ensures var (res, actions) := Upload(req, userId, tenants, newId, createdAt, updatedAt, fault, answered, message);
      && (res.Ok? <==> |actions| == 3 && actions[2].Schedule?)
      && (res.Ok? ==> actions == [StoreFile(StoragePath(req.tenantId, req.filename)),
                                  InsertDocument(NewRecord(req, newId, createdAt, updatedAt)),
                                  Schedule(Job(answered[0].id, StoragePath(req.tenantId, req.filename),
                                               NewRecord(req, newId, createdAt, updatedAt).documentType, req.tenantId))])
      && (fault == NoUploadFault && |answered| == 0 && actions != [] ==>
            res == Err(HttpError(400, "Failed to create document record")) && |actions| == 2)
  {
    var (res, actions) := Upload(req, userId, tenants, newId, createdAt, updatedAt, fault, answered, message);
    var gate := TenantGate(tenants, req.tenantId, userId, "Not authorized to upload documents for this tenant");
    if fault == TenantReadFault || gate.Err? || FileExtension(req.filename) !in ValidExtensions {
      assert res.Err? && actions == [];
    } else if fault == StorageFault {
      assert res.Err? && |actions| == 1;
    } else {
      var path := StoragePath(req.tenantId, req.filename);
      var written := [StoreFile(path), InsertDocument(NewRecord(req, newId, createdAt, updatedAt))];
      if fault == InsertFault || |answered| == 0 {
        assert res.Err? && actions == written;
      } else {
        assert res.Ok? && actions == written + [Schedule(Job(answered[0].id, path, NewRecord(req, newId, createdAt, updatedAt).documentType, req.tenantId))];
      }
    }
  }

  /** A document fresh from upload does not make its tenant's knowledge
      base searchable. */
  lemma NewRecordNotProcessed(req: UploadRequest, newId: string, createdAt: string, updatedAt: string, docs: seq<Retrieval.DocRow>, tenant: string)
    ensures var d := NewRecord(req, newId, createdAt, updatedAt);
      Retrieval.HasProcessed(docs + [Retrieval.DocRow(d.id, d.tenantId, d.isProcessed, d.embeddingStatus)], tenant)
      <==> Retrieval.HasProcessed(docs, tenant)
  {
    var d := NewRecord(req, newId, createdAt, updatedAt);
    var all := docs + [Retrieval.DocRow(d.id, d.tenantId, d.isProcessed, d.embeddingStatus)];
    assert forall x :: x in all <==> x in docs || x == all[|docs|];
  }

  /** Extensions are compared in lower case: "X.PDF" is a PDF. */
  lemma UpperCaseExtension()
    ensures FileExtension("X.PDF") == ".pdf" && FileExtension("X.PDF") in ValidExtensions
  {
    var p := "X.PDF";
    assert p[1] == '.' && p[2] != '.' && p[3] != '.' && p[4] != '.';
    assert '/' !in p;
    assert LastIndexOf(p, '.') == 1;
    assert p[0] != '.';
    assert SplitExt(p).1 == ".PDF";
  }

  /** A name that is only a dotted suffix has no extension, so ".txt" is
      refused. */
  lemma DotNameRefused()
    ensures FileExtension(".txt") == "" && FileExtension(".txt") !in ValidExtensions
  {
    var p := ".txt";
    assert p[0] == '.' && p[1] != '.' && p[2] != '.' && p[3] != '.';
    assert LastIndexOf(p, '.') == 0;
  }

  /** A name without a dot has no extension, so "notes" is refused. */
  lemma PlainNameRefused()
    ensures FileExtension("notes") == "" && FileExtension("notes") !in ValidExtensions
  {
    assert '.' !in "notes";
  }

  /** Once the gate passes and the lookups succeed, delete removes the
      file, then the chunks, then the row, whatever the first two steps
      raise; it fails only when the row's own delete raises. */
  lemma DeleteCascade(documentId: string, userId: string, docs: seq<DocRecord>, tenants: seq<TenantRow>,
                      faults: DeleteFaults, message: string, d: DocRecord)
    requires !faults.lookup
    requires DocumentGate(docs, tenants, documentId, userId, "Not authorized to delete this document") == Ok(d)
    ensures var (res, actions) := Delete(documentId, userId, docs, tenants, faults, message);
      && actions == [RemoveFile(d.filePath), DeleteChunks(documentId), DeleteDocument(documentId)]
      && (res.Ok? <==> !faults.row)
      && (faults.row ==> res == Err(HttpError(500, DeleteErrorPrefix + message)))
  {
  }

  /** A document or tenant read that raises answers 500 with the error's
      text, before anything is removed. */
  lemma DeleteLookupFault(documentId: string, userId: string, docs: seq<DocRecord>, tenants: seq<TenantRow>,
                          faults: DeleteFaults, message: string)
    requires faults.lookup
    ensures Delete(documentId, userId, docs, tenants, faults, message) == (Err(HttpError(500, DeleteErrorPrefix + message)), [])
  {
  }

  /** A delete the gate refuses touches nothing; a missing document is a 404
      before its tenant is looked at. */
  lemma DeleteRefused(documentId: string, userId: string, docs: seq<DocRecord>, tenants: seq<TenantRow>,
                      faults: DeleteFaults, message: string)
    requires !faults.lookup
    requires DocumentGate(docs, tenants, documentId, userId, "Not authorized to delete this document").Err?
    ensures var (res, actions) := Delete(documentId, userId, docs, tenants, faults, message);
      && actions == [] && res.Err?
      && (FindDocument(docs, documentId).None? ==> res == Err(HttpError(404, DocumentNotFound)))
  {
  }

  /** Listing: a failed read answers [] while the gate's refusals still
      reach the caller. */
  lemma ListingErrors(tenantId: string, userId: string, tenants: seq<TenantRow>, docs: seq<DocRecord>)
    ensures FindTenant(tenants, tenantId).None? ==>
      ListDocuments(tenantId, userId, tenants, docs, DocumentsListFault) == Err(HttpError(404, TenantNotFound))
    ensures TenantGate(tenants, tenantId, userId, "Not authorized to access documents for this tenant").Ok? ==>
      ListDocuments(tenantId, userId, tenants, docs, DocumentsListFault) == Ok([])
      && ListDocuments(tenantId, userId, tenants, docs, NoListFault) == Ok(TenantDocuments(docs, tenantId))
  {
  }
}
