/** Ingestion tasks, uploads, deletions and retries, interleaved one commit point at a
    time (app/ingestion/tasks.py).  At most one attempt of a document is live at a time. */
module Ingestion {
  import opened Wrappers
  import opened Chunker
  import opened Embedder
  import opened Documents

  /** Where a delivery of a document stands.  An attempt works on the row it fetched. */
  datatype Phase =
    | Waiting                                        // about to fetch the row
    | Fetched(doc: Document)
    | Marked(doc: Document)                          // `processing` is committed
    | Prepared(doc: Document, run: nat, chunks: seq<Chunk>, vectors: seq<Vector>)   // by embedder number `run`
    | Committed(doc: Document)                       // `ready` and the rows are committed
    | Raising(error: string)
    | Ended

  /** `lost`: the last failure write failed. */
  datatype Delivery = Delivery(phase: Phase, attempts: nat, retriesLeft: nat, lost: bool)

  /** `used` holds the ids of all documents ever created; `runs` counts the embedders used. */
  datatype System = System(db: Db, used: set<DocId>, deliveries: map<DocId, Delivery>, runs: nat)

  const INITIAL := System(Db(map[], map[]), {}, map[], 0)

  datatype Step =
    | Create(d: DocId, tenant: Tenant, file: File)   // the upload's transaction commits
    | Delete(d: DocId)
    | Deliver(d: DocId)                              // Celery hands the document to a worker
    | Proceed(d: DocId)                              // the next operation of the live attempt
    | Raise(d: DocId, error: string)                 // any operation of it raises
    | WriteFailure(d: DocId, written: bool)          // the failure path, then retry or give up

  function Phased(s: System, d: DocId, phase: Phase): System
    requires d in s.deliveries
  {
    s.(deliveries := s.deliveries[d := s.deliveries[d].(phase := phase)])
  }

  /** The row was deleted under the attempt: its update matches no row and raises. */
  const STALE := "stale row"

  function Proceeded(env: Env, s: System, d: DocId): System
    requires env.config.Valid() && d in s.deliveries
  {
    var v := s.deliveries[d];
    match v.phase
    case Waiting =>
      var started := s.(deliveries := s.deliveries[d := v.(attempts := v.attempts + 1, lost := false)]);
      Phased(started, d, if d in s.db.docs then Fetched(s.db.docs[d]) else Ended)
    case Fetched(doc) =>
      if d in s.db.docs then Phased(s, d, Marked(doc)).(db := WithStatus(s.db, d, Processing))
      else Phased(s, d, Raising(STALE))
    case Marked(doc) =>
      var p := Prepare(env, doc.file, s.runs);
      var next := if p.Built? then Prepared(doc, s.runs, p.chunks, p.vectors) else Raising(p.error);
      Phased(s, d, next).(runs := s.runs + 1)
    case Prepared(doc, run, chunks, vectors) =>
      if d in s.db.docs then
        var extra := env.extract(doc.file).metadata;
        Phased(s, d, Committed(doc)).(db := Persisted(s.db, d, doc, Built(chunks, vectors), extra))
      else Phased(s, d, Raising(STALE))
    case Committed(doc) => Phased(s, d, Ended)
    case Raising(error) => s
    case Ended => s
  }

  function Interrupted(s: System, d: DocId, error: string): System
    requires d in s.deliveries
  {
    var v := s.deliveries[d];
    if v.phase.Ended? || v.phase.Raising? then s
    else
      var attempts := if v.phase.Waiting? then v.attempts + 1 else v.attempts;
      s.(deliveries := s.deliveries[d := v.(phase := Raising(error), attempts := attempts)])
  }

  function Failing(s: System, d: DocId, written: bool): System
    requires d in s.deliveries && s.deliveries[d].phase.Raising?
  {
    var v := s.deliveries[d];
    var next :=
      if v.retriesLeft == 0 then v.(phase := Ended, lost := !written)
      else v.(phase := Waiting, retriesLeft := v.retriesLeft - 1, lost := !written);
    s.(db := if written then MarkedFailed(s.db, d, v.phase.error) else s.db, deliveries := s.deliveries[d := next])
  }

  function After(env: Env, maxRetries: nat, s: System, step: Step): System
    requires env.config.Valid()
  {
    match step
    case Create(d, tenant, file) =>
      if d in s.used then s else s.(db := Created(s.db, d, tenant, file), used := s.used + {d})
    case Delete(d) => s.(db := Deleted(s.db, d))
    case Deliver(d) =>
      if d in s.deliveries && !s.deliveries[d].phase.Ended? then s
      else s.(deliveries := s.deliveries[d := Delivery(Waiting, 0, maxRetries, false)])
    case Proceed(d) => if d in s.deliveries then Proceeded(env, s, d) else s
    case Raise(d, error) => if d in s.deliveries then Interrupted(s, d, error) else s
    case WriteFailure(d, written) =>
      if d in s.deliveries && s.deliveries[d].phase.Raising? then Failing(s, d, written) else s
  }

  function RunOf(env: Env, maxRetries: nat, steps: seq<Step>): System
    requires env.config.Valid()
  {
    if steps == [] then INITIAL
    else After(env, maxRetries, RunOf(env, maxRetries, steps[..|steps| - 1]), steps[|steps| - 1])
  }

  // ---------------------------------------------------------------- the invariant

  /** The row an attempt fetched still is the row's owner, file and metadata, if the row is there. */
  ghost predicate SameRow(s: System, d: DocId, doc: Document) {
    d in s.used && (d in s.db.docs ==>
      s.db.docs[d].tenant == doc.tenant && s.db.docs[d].file == doc.file && s.db.docs[d].metadata == doc.metadata)
  }

  ghost predicate InStatus(s: System, d: DocId, status: Status) {
    d in s.db.docs ==> s.db.docs[d].status == status
  }

  ghost predicate ValidPhase(env: Env, s: System, d: DocId, p: Phase)
    requires env.config.Valid()
  {
    match p
    case Fetched(doc) => SameRow(s, d, doc)
    case Marked(doc) => SameRow(s, d, doc) && InStatus(s, d, Processing)
    case Prepared(doc, run, chunks, vectors) =>
      SameRow(s, d, doc) && InStatus(s, d, Processing) && Prepare(env, doc.file, run) == Built(chunks, vectors)
    case Committed(doc) => d in s.used && InStatus(s, d, Ready)
    case _ => true
  }

  ghost predicate ValidDelivery(env: Env, maxRetries: nat, s: System, d: DocId, v: Delivery)
    requires env.config.Valid()
  {
    && v.attempts + v.retriesLeft + (if v.phase.Waiting? then 1 else 0) == maxRetries + 1
    && ValidPhase(env, s, d, v.phase)
  }

  /** Deliveries are where the tables say they are, whatever the embedders return. */
  ghost predicate Phases(env: Env, maxRetries: nat, s: System)
    requires env.config.Valid()
  {
    && s.db.docs.Keys <= s.used
    && (forall d :: d in s.deliveries ==> ValidDelivery(env, maxRetries, s, d, s.deliveries[d]))
  }

  ghost predicate Inv(env: Env, maxRetries: nat, s: System)
    requires env.config.Valid()
  {
    DbInv(env, s.db) && Phases(env, maxRetries, s)
  }

  // ---------------------------------------------------------------- every step keeps it

  /** A step on one document leaves every other row and delivery as it is. */
  ghost predicate OnlyTouches(s: System, s': System, d: DocId) {
    && (forall e :: e in s'.deliveries && e != d ==> e in s.deliveries && s'.deliveries[e] == s.deliveries[e])
    && (forall e :: e != d ==> (e in s'.used <==> e in s.used))
    && (forall e :: e in s'.db.docs && e != d ==> e in s.db.docs && s'.db.docs[e] == s.db.docs[e])
  }

  lemma OthersKept(env: Env, maxRetries: nat, s: System, s': System, d: DocId)
    requires env.config.Valid() && Phases(env, maxRetries, s)
    requires s'.db.docs.Keys <= s'.used && OnlyTouches(s, s', d)
    requires d in s'.deliveries ==> ValidDelivery(env, maxRetries, s', d, s'.deliveries[d])
    ensures Phases(env, maxRetries, s')
  {
    hide Prepare;
    forall e | e in s'.deliveries && e != d
      ensures ValidDelivery(env, maxRetries, s', e, s'.deliveries[e])
    {
      assert ValidDelivery(env, maxRetries, s, e, s.deliveries[e]);
    }
  }

  /** The operations of an attempt that change a table. */
  lemma TableOperation(env: Env, maxRetries: nat, s: System, d: DocId)
    requires env.config.Valid() && Phases(env, maxRetries, s) && d in s.deliveries
    requires var p := s.deliveries[d].phase; p.Fetched? || p.Prepared?
    ensures Phases(env, maxRetries, Proceeded(env, s, d))
  {
    hide Prepare, ZipRows;
    var s' := Proceeded(env, s, d);
    assert ValidDelivery(env, maxRetries, s, d, s.deliveries[d]);
    assert OnlyTouches(s, s', d);
    OthersKept(env, maxRetries, s, s', d);
  }

  /** The operations that change no table. */
  lemma LocalOperation(env: Env, maxRetries: nat, s: System, d: DocId)
    requires env.config.Valid() && Phases(env, maxRetries, s) && d in s.deliveries
    requires var p := s.deliveries[d].phase; !p.Fetched? && !p.Prepared?
    ensures Phases(env, maxRetries, Proceeded(env, s, d))
  {
    hide Prepare;
    var s' := Proceeded(env, s, d);
    assert ValidDelivery(env, maxRetries, s, d, s.deliveries[d]);
    assert s'.db == s.db && OnlyTouches(s, s', d);
    OthersKept(env, maxRetries, s, s', d);
  }

  lemma FailureOperation(env: Env, maxRetries: nat, s: System, d: DocId, written: bool)
    requires env.config.Valid() && Phases(env, maxRetries, s) && d in s.deliveries && s.deliveries[d].phase.Raising?
    ensures Phases(env, maxRetries, Failing(s, d, written))
  {
    hide Prepare, Truncated;
    var s' := Failing(s, d, written);
    assert ValidDelivery(env, maxRetries, s, d, s.deliveries[d]);
    assert OnlyTouches(s, s', d);
    OthersKept(env, maxRetries, s, s', d);
  }

  lemma RaiseOperation(env: Env, maxRetries: nat, s: System, d: DocId, error: string)
    requires env.config.Valid() && Phases(env, maxRetries, s) && d in s.deliveries
    ensures Phases(env, maxRetries, Interrupted(s, d, error))
  {
    hide Prepare;
    assert ValidDelivery(env, maxRetries, s, d, s.deliveries[d]);
    assert OnlyTouches(s, Interrupted(s, d, error), d);
    OthersKept(env, maxRetries, s, Interrupted(s, d, error), d);
  }

  /** Steps that are no operation of an attempt. */
  lemma OutsideStep(env: Env, maxRetries: nat, s: System, step: Step)
    requires env.config.Valid() && Phases(env, maxRetries, s) && (step.Create? || step.Delete? || step.Deliver?)
    ensures Phases(env, maxRetries, After(env, maxRetries, s, step))
  {
    hide Prepare;
    var s', d := After(env, maxRetries, s, step), step.d;
    assert d in s.deliveries ==> ValidDelivery(env, maxRetries, s, d, s.deliveries[d]);
    assert OnlyTouches(s, s', d);
    OthersKept(env, maxRetries, s, s', d);
  }

  lemma StepPhases(env: Env, maxRetries: nat, s: System, step: Step)
    requires env.config.Valid() && Phases(env, maxRetries, s)
    ensures Phases(env, maxRetries, After(env, maxRetries, s, step))
  {
    hide Phases, Proceeded, Interrupted, Failing;
    match step
    case Proceed(d) =>
      if d in s.deliveries {
        var p := s.deliveries[d].phase;
        if p.Fetched? || p.Prepared? {
          TableOperation(env, maxRetries, s, d);
        } else {
          LocalOperation(env, maxRetries, s, d);
        }
      }
    case Raise(d, error) => if d in s.deliveries { RaiseOperation(env, maxRetries, s, d, error); }
    case WriteFailure(d, written) =>
      if d in s.deliveries && s.deliveries[d].phase.Raising? { FailureOperation(env, maxRetries, s, d, written); }
    case _ => OutsideStep(env, maxRetries, s, step);
  }

  function RaisedError(s: System, d: DocId): string {
    if d in s.deliveries && s.deliveries[d].phase.Raising? then s.deliveries[d].phase.error else ""
  }

  /** What a step does to the tables: one transaction on one document, or nothing. */
  ghost predicate Transaction(env: Env, s: System, step: Step, after: Db)
    requires env.config.Valid()
  {
    var d := step.d;
    || after == s.db
    || after == Deleted(s.db, d)
    || (step.Create? && d !in s.used && after == Created(s.db, d, step.tenant, step.file))
    || (d in s.db.docs && after == WithStatus(s.db, d, Processing))
    || after == MarkedFailed(s.db, d, RaisedError(s, d))
    || (d in s.db.docs && d in s.deliveries && s.deliveries[d].phase.Prepared? &&
        var p := s.deliveries[d].phase;
        after == Persisted(s.db, d, p.doc, Built(p.chunks, p.vectors), env.extract(p.doc.file).metadata))
  }

  lemma StepTransaction(env: Env, maxRetries: nat, s: System, step: Step)
    requires env.config.Valid()
    ensures Transaction(env, s, step, After(env, maxRetries, s, step).db)
  {
    hide Prepare, ZipRows, Truncated;
  }

  lemma StepKeeps(env: Env, maxRetries: nat, s: System, step: Step)
    requires Sound(env) && Inv(env, maxRetries, s)
    ensures Inv(env, maxRetries, After(env, maxRetries, s, step))
  {
    hide DbInv, Prepare, After, Persisted, Truncated;
    var d := step.d;
    StepPhases(env, maxRetries, s, step);
    StepTransaction(env, maxRetries, s, step);
    TransactionsKeep(env, s.db, d, RaisedError(s, d));
    if d in s.db.docs && d in s.deliveries && s.deliveries[d].phase.Prepared? {
      assert ValidDelivery(env, maxRetries, s, d, s.deliveries[d]);
      PersistedKeeps(env, s.db, d, s.deliveries[d].phase.doc, s.deliveries[d].phase.run);
    }
  }

  /** Every reachable state of every interleaving satisfies the invariant. */
  lemma {:induction false} Reachable(env: Env, maxRetries: nat, steps: seq<Step>)
    requires Sound(env)
    ensures Inv(env, maxRetries, RunOf(env, maxRetries, steps))
  {
    hide After, ValidDelivery;
    if steps != [] {
      var p := steps[..|steps| - 1];
      Reachable(env, maxRetries, p);
      StepKeeps(env, maxRetries, RunOf(env, maxRetries, p), steps[|p|]);
    }
  }

  // ---------------------------------------------------------------- counts, whatever the embedders return

  lemma StepCounted(env: Env, maxRetries: nat, s: System, step: Step)
    requires env.config.Valid() && Enough(env) && Phases(env, maxRetries, s) && AllCounted(s.db)
    ensures AllCounted(After(env, maxRetries, s, step).db)
  {
    hide AllCounted, Prepare, After, Persisted, Truncated;
    var d := step.d;
    StepTransaction(env, maxRetries, s, step);
    TransactionsCounted(s.db, d, RaisedError(s, d));
    if d in s.db.docs && d in s.deliveries && s.deliveries[d].phase.Prepared? {
      assert ValidDelivery(env, maxRetries, s, d, s.deliveries[d]);
      var p := s.deliveries[d].phase;
      assert EnoughFor(env, p.doc.file, p.run);
      PreparedChunks(env, p.doc.file, p.run);
      PersistedCounted(env, s.db, d, p.doc, Built(p.chunks, p.vectors), env.extract(p.doc.file).metadata);
    }
  }

  lemma {:induction false} AlwaysCounted(env: Env, maxRetries: nat, steps: seq<Step>)
    requires env.config.Valid() && Enough(env)
    ensures Phases(env, maxRetries, RunOf(env, maxRetries, steps)) && AllCounted(RunOf(env, maxRetries, steps).db)
  {
    hide After, ValidDelivery, Enough;
    if steps != [] {
      var p := steps[..|steps| - 1];
      AlwaysCounted(env, maxRetries, p);
      StepPhases(env, maxRetries, RunOf(env, maxRetries, p), steps[|p|]);
      StepCounted(env, maxRetries, RunOf(env, maxRetries, p), steps[|p|]);
    }
  }

  lemma RunOfAppend(env: Env, maxRetries: nat, steps: seq<Step>, step: Step)
    requires env.config.Valid()
    ensures RunOf(env, maxRetries, steps + [step]) == After(env, maxRetries, RunOf(env, maxRetries, steps), step)
  {
    assert (steps + [step])[..|steps|] == steps;
  }

  /** No document from number n on is known. */
  ghost predicate UnknownFrom(s: System, n: nat) {
    forall e :: e >= n ==> e !in s.used && e !in s.deliveries && e !in s.db.docs
  }

  /** A new document whose first attempt has just used its embedder. */
  lemma NewAttempt(env: Env, maxRetries: nat, steps: seq<Step>, d: DocId, file: File) returns (more: seq<Step>)
    requires env.config.Valid() && UnknownFrom(RunOf(env, maxRetries, steps), d)
    ensures var s, s' := RunOf(env, maxRetries, steps), RunOf(env, maxRetries, more);
      && UnknownFrom(s', d + 1) && s'.runs == s.runs + 1 && d in s'.db.docs && d in s'.deliveries
      && var p := Prepare(env, file, s.runs);
         p.Built? ==> s'.deliveries[d].phase.Prepared? && s'.deliveries[d].phase.chunks == p.chunks
                      && s'.deliveries[d].phase.vectors == p.vectors
  {
    hide Prepare, RunOf;
    var created := steps + [Create(d, 0, file)];
    var delivered := created + [Deliver(d)];
    var fetched := delivered + [Proceed(d)];
    var marked := fetched + [Proceed(d)];
    more := marked + [Proceed(d)];
    RunOfAppend(env, maxRetries, steps, Create(d, 0, file));
    RunOfAppend(env, maxRetries, created, Deliver(d));
    RunOfAppend(env, maxRetries, delivered, Proceed(d));
    RunOfAppend(env, maxRetries, fetched, Proceed(d));
    RunOfAppend(env, maxRetries, marked, Proceed(d));
  }

  /** A run that has used n embedders. */
  lemma {:induction false} UseUp(env: Env, maxRetries: nat, n: nat, file: File) returns (steps: seq<Step>)
    requires env.config.Valid()
    ensures var s := RunOf(env, maxRetries, steps); s.runs == n && UnknownFrom(s, n)
  {
    if n == 0 {
      steps := [];
    } else {
      var p := UseUp(env, maxRetries, n - 1, file);
      steps := NewAttempt(env, maxRetries, p, n - 1, file);
    }
  }

  /** An embedder that returns too few vectors leads to a document whose count is wrong. */
  lemma TooFew(env: Env, maxRetries: nat, file: File, run: nat) returns (steps: seq<Step>)
    requires env.config.Valid() && !EnoughFor(env, file, run)
    ensures var db := RunOf(env, maxRetries, steps).db; run in db.docs && !Counted(db, run)
  {
    hide Prepare;
    var before := UseUp(env, maxRetries, run, file);
    var p := NewAttempt(env, maxRetries, before, run, file);
    steps := p + [Proceed(run)];
    RunOfAppend(env, maxRetries, p, Proceed(run));
    var phase := RunOf(env, maxRetries, p).deliveries[run].phase;
    ZipRowsAt(phase.doc.tenant, phase.chunks, phase.vectors);
  }

  ghost predicate CountsMatch(env: Env, maxRetries: nat, steps: seq<Step>)
    requires env.config.Valid()
  {
    forall d :: d in RunOf(env, maxRetries, steps).db.docs ==> Counted(RunOf(env, maxRetries, steps).db, d)
  }

  /** In every committed state of every run chunk_count is the number of rows, numbered from 0
      and of the document's tenant, if and only if no embedder ever returns fewer vectors than
      texts to an attempt. */
  lemma CountsMatchIff(env: Env, maxRetries: nat)
    requires env.config.Valid()
    ensures (forall steps :: CountsMatch(env, maxRetries, steps)) <==> Enough(env)
  {
    if Enough(env) {
      forall steps ensures CountsMatch(env, maxRetries, steps) {
        AlwaysCounted(env, maxRetries, steps);
      }
    } else {
      var file, run :| !EnoughFor(env, file, run);
      var steps := TooFew(env, maxRetries, file, run);
      assert !CountsMatch(env, maxRetries, steps);
    }
  }

  // ---------------------------------------------------------------- what it means

  /** In every committed state of every run: the chunk count is the number of rows, their
      indices are 0 to the count, their tenant is the document's, and a ready document
      has the rows and vectors of one complete attempt on its file. */
  lemma RowsMatchDocument(env: Env, maxRetries: nat, steps: seq<Step>, d: DocId)
    requires Sound(env) && d in RunOf(env, maxRetries, steps).db.docs
    ensures var db := RunOf(env, maxRetries, steps).db;
      var doc, rows := db.docs[d], RowsOf(db, d);
      && |rows| == doc.chunkCount
      && (forall i :: 0 <= i < |rows| ==> rows[i].chunkIndex == i && rows[i].tenant == doc.tenant)
      && (rows != [] ==> rows == BuildRows(env, doc.tenant, doc.file) && doc.metadata == env.extract(doc.file).metadata)
      && (doc.status == Ready ==> rows != [])
  {
    Reachable(env, maxRetries, steps);
    var db := RunOf(env, maxRetries, steps).db;
    assert Consistent(env, db, d);
    BuiltRows(env, db.docs[d].tenant, db.docs[d].file);
  }

  /** Isolation in every run: a search by tenant alone returns exactly the rows of the
      tenant's ready documents, so none of a failed or unfinished one. */
  lemma SearchIsIsolated(env: Env, maxRetries: nat, steps: seq<Step>, tenant: Tenant, d: DocId, i: nat)
    requires Sound(env)
    ensures var db := RunOf(env, maxRetries, steps).db;
      (d, i) in Searchable(db, tenant) <==>
        d in db.docs && db.docs[d].tenant == tenant && db.docs[d].status == Ready && i < db.docs[d].chunkCount
  {
    Reachable(env, maxRetries, steps);
    SearchSeesOwnReadyRows(env, RunOf(env, maxRetries, steps).db, tenant, d, i);
  }

  // ---------------------------------------------------------------- whose documents

  /** Owner and file of a document never change, and no id is used twice. */
  lemma OwnerStep(env: Env, maxRetries: nat, s: System, step: Step, d: DocId)
    requires env.config.Valid() && d in s.used
    ensures var s' := After(env, maxRetries, s, step);
      d in s'.used && (d in s'.db.docs ==>
        d in s.db.docs && s'.db.docs[d].tenant == s.db.docs[d].tenant && s'.db.docs[d].file == s.db.docs[d].file)
  {
    hide Prepare, ZipRows, Truncated;
  }

  /** A document belongs to the tenant that uploaded it and holds the file uploaded, for as long
      as it exists and whatever else happens. */
  lemma {:induction false} UploadersDocument(env: Env, maxRetries: nat, before: seq<Step>, after: seq<Step>,
                                             d: DocId, tenant: Tenant, file: File)
    requires env.config.Valid() && d !in RunOf(env, maxRetries, before).used
    ensures var s := RunOf(env, maxRetries, before + [Create(d, tenant, file)] + after);
      d in s.used && (d in s.db.docs ==> s.db.docs[d].tenant == tenant && s.db.docs[d].file == file)
    decreases |after|
  {
    hide After;
    var created := before + [Create(d, tenant, file)];
    if after == [] {
      assert created + after == created;
      RunOfAppend(env, maxRetries, before, Create(d, tenant, file));
      JustCreated(env, maxRetries, RunOf(env, maxRetries, before), d, tenant, file);
    } else {
      var p, last := after[..|after| - 1], after[|after| - 1];
      UploadersDocument(env, maxRetries, before, p, d, tenant, file);
      assert created + after == (created + p) + [last];
      RunOfAppend(env, maxRetries, created + p, last);
      OwnerStep(env, maxRetries, RunOf(env, maxRetries, created + p), last, d);
    }
  }

  /** A new document is pending, without rows, count, metadata or error. */
  lemma JustCreated(env: Env, maxRetries: nat, s: System, d: DocId, tenant: Tenant, file: File)
    requires env.config.Valid() && d !in s.used
    ensures var s' := After(env, maxRetries, s, Create(d, tenant, file));
      && d in s'.used && d in s'.db.docs
      && s'.db.docs[d] == Document(tenant, file, Pending, 0, map[], "") && s'.db.rows == s.db.rows
      && s'.db.docs - {d} == s.db.docs - {d} && s'.deliveries == s.deliveries
  {
  }

  /** Step k uploads the document. */
  ghost predicate UploadedAt(env: Env, maxRetries: nat, steps: seq<Step>, k: nat, d: DocId)
    requires env.config.Valid()
  {
    k < |steps| && steps[k].Create? && steps[k].d == d && d !in RunOf(env, maxRetries, steps[..k]).used
  }

  /** Every document was uploaded by some step. */
  lemma {:induction false} Uploader(env: Env, maxRetries: nat, steps: seq<Step>, d: DocId) returns (k: nat)
    requires env.config.Valid() && d in RunOf(env, maxRetries, steps).used
    ensures UploadedAt(env, maxRetries, steps, k, d)
    decreases |steps|
  {
    var p := steps[..|steps| - 1];
    if d in RunOf(env, maxRetries, p).used {
      k := Uploader(env, maxRetries, p, d);
      assert p[..k] == steps[..k];
    } else {
      k := |p|;
      OnlyCreates(env, maxRetries, RunOf(env, maxRetries, p), steps[k], d);
    }
  }

  lemma OnlyCreates(env: Env, maxRetries: nat, s: System, step: Step, d: DocId)
    requires env.config.Valid() && d !in s.used && d in After(env, maxRetries, s, step).used
    ensures step.Create? && step.d == d
  {
    hide Prepare;
  }

  lemma Uploaded(env: Env, maxRetries: nat, steps: seq<Step>, d: DocId) returns (k: nat)
    requires env.config.Valid() && d in RunOf(env, maxRetries, steps).used
    ensures UploadedAt(env, maxRetries, steps, k, d)
    ensures var docs := RunOf(env, maxRetries, steps).db.docs;
      d in docs ==> docs[d].tenant == steps[k].tenant && docs[d].file == steps[k].file
  {
    hide After;
    k := Uploader(env, maxRetries, steps, d);
    var create := Create(d, steps[k].tenant, steps[k].file);
    assert steps == steps[..k] + [create] + steps[k + 1..];
    UploadersDocument(env, maxRetries, steps[..k], steps[k + 1..], d, steps[k].tenant, steps[k].file);
  }

  /** Isolation over steps: a tenant finds a row only of a document that it uploaded itself, and
      the row is one of the complete attempt on the file uploaded. */
  lemma SearchFindsOwnUploads(env: Env, maxRetries: nat, steps: seq<Step>, tenant: Tenant, d: DocId, i: nat)
    returns (k: nat)
    requires Sound(env) && (d, i) in Searchable(RunOf(env, maxRetries, steps).db, tenant)
    ensures UploadedAt(env, maxRetries, steps, k, d) && steps[k].tenant == tenant
    ensures var rows, built := RowsOf(RunOf(env, maxRetries, steps).db, d), BuildRows(env, tenant, steps[k].file);
      i < |rows| && i < |built| && rows[i] == built[i]
  {
    SearchIsIsolated(env, maxRetries, steps, tenant, d, i);
    hide Searchable, RunOf, UploadedAt, Sound, BuildRows;
    RowsMatchDocument(env, maxRetries, steps, d);
    UsedIfThere(env, maxRetries, steps, d);
    k := Uploaded(env, maxRetries, steps, d);
  }

  lemma UsedIfThere(env: Env, maxRetries: nat, steps: seq<Step>, d: DocId)
    requires Sound(env) && d in RunOf(env, maxRetries, steps).db.docs
    ensures d in RunOf(env, maxRetries, steps).used
  {
    hide RunOf;
    Reachable(env, maxRetries, steps);
  }

  /** And only its uploader can list a document. */
  lemma ListingIsUploaders(env: Env, maxRetries: nat, steps: seq<Step>, tenant: Tenant, d: DocId) returns (k: nat)
    requires Sound(env) && ListChunks(RunOf(env, maxRetries, steps).db, d, tenant).Some?
    ensures UploadedAt(env, maxRetries, steps, k, d) && steps[k].tenant == tenant
  {
    hide RunOf, UploadedAt;
    UsedIfThere(env, maxRetries, steps, d);
    k := Uploaded(env, maxRetries, steps, d);
  }

  /** A deleted document never comes back: no search and no listing finds it again. */
  lemma {:induction false} DeletedForGood(env: Env, maxRetries: nat, before: seq<Step>, after: seq<Step>, d: DocId,
                                          tenant: Tenant, i: nat)
    requires env.config.Valid() && d in RunOf(env, maxRetries, before).used
    ensures var s := RunOf(env, maxRetries, before + [Delete(d)] + after);
      d in s.used && d !in s.db.docs && (d, i) !in Searchable(s.db, tenant) && ListChunks(s.db, d, tenant) == None
    decreases |after|
  {
    var deleted := before + [Delete(d)];
    if after == [] {
      assert deleted + after == deleted;
      RunOfAppend(env, maxRetries, before, Delete(d));
    } else {
      hide After;
      var p, last := after[..|after| - 1], after[|after| - 1];
      DeletedForGood(env, maxRetries, before, p, d, tenant, i);
      assert deleted + after == (deleted + p) + [last];
      RunOfAppend(env, maxRetries, deleted + p, last);
      OwnerStep(env, maxRetries, RunOf(env, maxRetries, deleted + p), last, d);
    }
  }

  /** A live attempt may raise at any point, which changes no table. */
  lemma RaiseAnywhere(env: Env, maxRetries: nat, s: System, d: DocId, error: string)
    requires env.config.Valid() && d in s.deliveries
    requires !s.deliveries[d].phase.Ended? && !s.deliveries[d].phase.Raising?
    ensures var s', v := After(env, maxRetries, s, Raise(d, error)), s.deliveries[d];
      && s'.db == s.db && s'.used == s.used && d in s'.deliveries && s'.deliveries[d].phase == Raising(error)
      && s'.deliveries[d].retriesLeft == v.retriesLeft
      && s'.deliveries[d].attempts == v.attempts + (if v.phase.Waiting? then 1 else 0)
      && s'.deliveries - {d} == s.deliveries - {d}
  {
  }

  /** An attempt whose row was deleted under it raises at its next commit and writes nothing. */
  lemma DeletedUnderAttempt(env: Env, maxRetries: nat, s: System, d: DocId)
    requires env.config.Valid() && d in s.deliveries && d !in s.db.docs
    requires s.deliveries[d].phase.Fetched? || s.deliveries[d].phase.Prepared?
    ensures var s' := After(env, maxRetries, s, Proceed(d));
      s'.db == s.db && d in s'.deliveries && s'.deliveries[d].phase.Raising?
  {
    hide Prepare;
  }

  /** A delivery starts with all its retries; while one is live there is no second. */
  lemma DeliveryStarts(env: Env, maxRetries: nat, s: System, d: DocId)
    requires env.config.Valid()
    ensures var s' := After(env, maxRetries, s, Deliver(d));
      && s'.db == s.db && s'.used == s.used && d in s'.deliveries && s'.deliveries - {d} == s.deliveries - {d}
      && s'.deliveries[d] ==
           if d in s.deliveries && !s.deliveries[d].phase.Ended? then s.deliveries[d]
           else Delivery(Waiting, 0, maxRetries, false)
  {
  }

  /** Rows once written stay as they are while the document exists, through failed and
      successful repetitions alike. */
  lemma {:induction false} RowsAreStable(env: Env, maxRetries: nat, before: seq<Step>, after: seq<Step>, d: DocId)
    requires Sound(env)
    requires d in RunOf(env, maxRetries, before).db.docs && RowsOf(RunOf(env, maxRetries, before).db, d) != []
    ensures var s, s' := RunOf(env, maxRetries, before), RunOf(env, maxRetries, before + after);
      d in s'.used && (d in s'.db.docs ==> RowsOf(s'.db, d) == RowsOf(s.db, d))
  {
    hide After, ValidDelivery, DbInv;
    Reachable(env, maxRetries, before);
    if after == [] {
      assert before + after == before;
    } else {
      var p, last := before + after[..|after| - 1], after[|after| - 1];
      RowsAreStable(env, maxRetries, before, after[..|after| - 1], d);
      assert (before + after)[..|p|] == p && before + after == p + [last];
      Reachable(env, maxRetries, p);
      Reachable(env, maxRetries, before + after);
      RowsStep(env, maxRetries, RunOf(env, maxRetries, p), last, d);
    }
  }

  /** A row set only ever goes from empty to the document's own; ids are not used twice. */
  lemma RowsStep(env: Env, maxRetries: nat, s: System, step: Step, d: DocId)
    requires Sound(env) && d in s.used
    requires Inv(env, maxRetries, s) && Inv(env, maxRetries, After(env, maxRetries, s, step))
    ensures var s' := After(env, maxRetries, s, step);
      d in s'.used && (d in s'.db.docs ==>
        d in s.db.docs && (RowsOf(s.db, d) != [] ==> RowsOf(s'.db, d) == RowsOf(s.db, d)))
  {
    var s' := After(env, maxRetries, s, step);
    RowsEmptied(env, maxRetries, s, step, d);
    if d in s'.db.docs {
      SameRows(env, s.db, s'.db, d);
    }
  }

  lemma SameRows(env: Env, db: Db, after: Db, d: DocId)
    requires env.config.Valid() && DbInv(env, db) && DbInv(env, after) && d in db.docs && d in after.docs
    requires after.docs[d].tenant == db.docs[d].tenant && after.docs[d].file == db.docs[d].file
    requires RowsOf(db, d) != [] ==> RowsOf(after, d) != []
    ensures RowsOf(db, d) != [] ==> RowsOf(after, d) == RowsOf(db, d)
  {
    assert Consistent(env, db, d) && Consistent(env, after, d);
  }

  lemma RowsEmptied(env: Env, maxRetries: nat, s: System, step: Step, d: DocId)
    requires Sound(env) && Inv(env, maxRetries, s) && d in s.used
    ensures var s' := After(env, maxRetries, s, step);
      && d in s'.used
      && (d in s'.db.docs ==>
            && d in s.db.docs && s'.db.docs[d].tenant == s.db.docs[d].tenant && s'.db.docs[d].file == s.db.docs[d].file
            && (RowsOf(s.db, d) != [] ==> RowsOf(s'.db, d) != []))
  {
    hide BuildRows, Prepare, ZipRows;
    match step
    case Proceed(e) =>
      if e in s.deliveries && s.deliveries[e].phase.Prepared? {
        assert ValidDelivery(env, maxRetries, s, e, s.deliveries[e]);
        var p := s.deliveries[e].phase;
        if e in s.db.docs {
          PersistedRows(env, s.db, e, p.doc, p.run, env.extract(p.doc.file).metadata);
        }
      }
    case _ =>
  }

  // ---------------------------------------------------------------- how a delivery ends

  /** A delivery that ended with its failure written, if it failed, left the document ready or failed. */
  ghost predicate Settled(s: System, d: DocId) {
    d in s.deliveries && s.deliveries[d].phase.Ended? && !s.deliveries[d].lost && d in s.db.docs ==>
      s.db.docs[d].status == Ready || s.db.docs[d].status == Failed
  }

  lemma SettledStep(env: Env, maxRetries: nat, s: System, step: Step, d: DocId)
    requires env.config.Valid() && Inv(env, maxRetries, s) && d in s.used && Settled(s, d)
    ensures d in After(env, maxRetries, s, step).used && Settled(After(env, maxRetries, s, step), d)
  {
    hide DbInv, Prepare, Truncated;
    if d in s.deliveries {
      assert ValidDelivery(env, maxRetries, s, d, s.deliveries[d]);
    }
  }

  /** Once the row is committed and no delivery has ended without it, every delivery that ends,
      whatever else happens, leaves the document gone, ready or failed. */
  lemma {:induction false} CommittedSettles(env: Env, maxRetries: nat, before: seq<Step>, after: seq<Step>, d: DocId)
    requires Sound(env)
    requires d in RunOf(env, maxRetries, before).used && Settled(RunOf(env, maxRetries, before), d)
    ensures d in RunOf(env, maxRetries, before + after).used && Settled(RunOf(env, maxRetries, before + after), d)
  {
    hide After, Inv;
    if after == [] {
      assert before + after == before;
    } else {
      var p, last := before + after[..|after| - 1], after[|after| - 1];
      CommittedSettles(env, maxRetries, before, after[..|after| - 1], d);
      assert (before + after)[..|p|] == p && before + after == p + [last];
      Reachable(env, maxRetries, p);
      SettledStep(env, maxRetries, RunOf(env, maxRetries, p), last, d);
    }
  }

  /** The delivery has ended and found no row. */
  ghost predicate Stuck(s: System, d: DocId) {
    && d in s.deliveries && s.deliveries[d].phase.Ended?
    && InStatus(s, d, Pending)
  }

  lemma StuckStep(env: Env, maxRetries: nat, s: System, step: Step, d: DocId)
    requires env.config.Valid() && Inv(env, maxRetries, s) && step != Deliver(d) && Stuck(s, d)
    ensures Stuck(After(env, maxRetries, s, step), d)
  {
    hide DbInv, Prepare, Truncated;
  }

  lemma {:induction false} StuckForGood(env: Env, maxRetries: nat, before: seq<Step>, after: seq<Step>, d: DocId)
    requires Sound(env) && Deliver(d) !in after && Stuck(RunOf(env, maxRetries, before), d)
    ensures Stuck(RunOf(env, maxRetries, before + after), d)
  {
    hide After, Inv, Stuck;
    if after == [] {
      assert before + after == before;
    } else {
      var p, last := before + after[..|after| - 1], after[|after| - 1];
      StuckForGood(env, maxRetries, before, after[..|after| - 1], d);
      assert (before + after)[..|p|] == p && before + after == p + [last];
      Reachable(env, maxRetries, p);
      StuckStep(env, maxRetries, RunOf(env, maxRetries, p), last, d);
    }
  }

  /** An attempt that fetches before the row is committed ends its delivery at once, and
      without another delivery the document is pending for as long as it exists. */
  lemma FetchedTooEarly(env: Env, maxRetries: nat, before: seq<Step>, after: seq<Step>, d: DocId)
    requires Sound(env) && Deliver(d) !in after
    requires var s := RunOf(env, maxRetries, before);
      d !in s.used && d in s.deliveries && s.deliveries[d].phase.Waiting?
    ensures var s := RunOf(env, maxRetries, before + [Proceed(d)]); d in s.deliveries && s.deliveries[d].phase.Ended?
    ensures var s := RunOf(env, maxRetries, before + [Proceed(d)] + after);
      d in s.deliveries && s.deliveries[d].phase.Ended? && (d in s.db.docs ==> s.db.docs[d].status == Pending)
  {
    Reachable(env, maxRetries, before);
    assert (before + [Proceed(d)])[..|before|] == before;
    StuckForGood(env, maxRetries, before + [Proceed(d)], after, d);
  }

  /** A run in which the worker is faster than the upload's commit. */
  lemma StuckPending(env: Env, maxRetries: nat, d: DocId, tenant: Tenant, file: File)
    requires Sound(env)
    ensures var s := RunOf(env, maxRetries, [Deliver(d), Proceed(d)] + [Create(d, tenant, file)]);
      && d in s.deliveries && s.deliveries[d] == Delivery(Ended, 1, maxRetries, false)
      && d in s.db.docs && s.db.docs[d].status == Pending
  {
    var first, both := [Deliver(d)], [Deliver(d), Proceed(d)];
    assert first[..0] == [] && both[..1] == first && (both + [Create(d, tenant, file)])[..2] == both;
    assert RunOf(env, maxRetries, first).deliveries[d].phase == Waiting;
    assert RunOf(env, maxRetries, both).deliveries[d].phase == Ended;
  }

  predicate EndedAt(env: Env, maxRetries: nat, steps: seq<Step>, i: nat, d: DocId)
    requires env.config.Valid() && i <= |steps|
  {
    var s := RunOf(env, maxRetries, steps[..i]);
    d in s.deliveries && s.deliveries[d].phase.Ended?
  }

  predicate CommittedAt(env: Env, maxRetries: nat, steps: seq<Step>, i: nat, d: DocId)
    requires env.config.Valid() && i <= |steps|
  {
    d in RunOf(env, maxRetries, steps[..i]).used
  }

  /** The upload's commit comes before the end of the delivery made by step k. */
  ghost predicate CommittedInTime(env: Env, maxRetries: nat, steps: seq<Step>, k: nat, d: DocId)
    requires env.config.Valid()
  {
    forall i :: k < i <= |steps| && EndedAt(env, maxRetries, steps, i, d) ==> CommittedAt(env, maxRetries, steps, i, d)
  }

  lemma {:induction false} InTimeSettles(env: Env, maxRetries: nat, steps: seq<Step>, k: nat, n: nat, d: DocId)
    requires Sound(env) && k < n <= |steps| && steps[k] == Deliver(d)
    requires CommittedInTime(env, maxRetries, steps, k, d)
    ensures var s := RunOf(env, maxRetries, steps[..n]);
      d in s.deliveries && (d in s.used ==> Settled(s, d))
  {
    var p, step := steps[..n - 1], steps[n - 1];
    assert steps[..n][..n - 1] == p;
    Reachable(env, maxRetries, p);
    if n > k + 1 {
      InTimeSettles(env, maxRetries, steps, k, n - 1, d);
      assert EndedAt(env, maxRetries, steps, n - 1, d) ==> CommittedAt(env, maxRetries, steps, n - 1, d);
      SettledOrNew(env, maxRetries, RunOf(env, maxRetries, p), step, d);
    }
  }

  lemma SettledOrNew(env: Env, maxRetries: nat, s: System, step: Step, d: DocId)
    requires env.config.Valid() && Inv(env, maxRetries, s) && d in s.deliveries
    requires if d in s.used then Settled(s, d) else !s.deliveries[d].phase.Ended?
    ensures var s' := After(env, maxRetries, s, step);
      d in s'.deliveries && (d in s'.used ==> Settled(s', d))
  {
    if d in s.used {
      SettledStep(env, maxRetries, s, step, d);
    }
    hide DbInv, Prepare;
  }

  /** A delivery makes at most one attempt more than the retries allowed.  Once the delivery
      made by step k has ended with its failure written, if it failed, a document that still
      exists is ready or failed exactly when its upload was committed before the delivery
      ended; otherwise it is pending. */
  lemma DeliveryOutcome(env: Env, maxRetries: nat, steps: seq<Step>, k: nat, d: DocId)
    requires Sound(env) && k < |steps| && steps[k] == Deliver(d) && Deliver(d) !in steps[k + 1..]
    ensures var s := RunOf(env, maxRetries, steps);
      && d in s.deliveries && s.deliveries[d].attempts <= maxRetries + 1
      && (s.deliveries[d].phase.Ended? && !s.deliveries[d].lost && d in s.db.docs ==>
            var status := s.db.docs[d].status;
            && (status == Ready || status == Failed <==> CommittedInTime(env, maxRetries, steps, k, d))
            && (status == Pending <==> !CommittedInTime(env, maxRetries, steps, k, d)))
  {
    hide After;
    assert steps[..|steps|] == steps;
    Reachable(env, maxRetries, steps);
    DeliveryStays(env, maxRetries, steps, k, |steps|, d);
    var s := RunOf(env, maxRetries, steps);
    assert ValidDelivery(env, maxRetries, s, d, s.deliveries[d]);
    if CommittedInTime(env, maxRetries, steps, k, d) {
      InTimeSettles(env, maxRetries, steps, k, |steps|, d);
    } else {
      var i :| k < i <= |steps| && EndedAt(env, maxRetries, steps, i, d) && !CommittedAt(env, maxRetries, steps, i, d);
      Reachable(env, maxRetries, steps[..i]);
      assert steps[..i] + steps[i..] == steps;
      assert Deliver(d) !in steps[i..] by {
        assert steps[i..] == steps[k + 1..][i - k - 1..];
      }
      StuckForGood(env, maxRetries, steps[..i], steps[i..], d);
    }
  }

  lemma {:induction false} DeliveryStays(env: Env, maxRetries: nat, steps: seq<Step>, k: nat, n: nat, d: DocId)
    requires env.config.Valid() && k < n <= |steps| && steps[k] == Deliver(d)
    ensures d in RunOf(env, maxRetries, steps[..n]).deliveries
  {
    assert steps[..n][..n - 1] == steps[..n - 1];
    if n > k + 1 {
      DeliveryStays(env, maxRetries, steps, k, n - 1, d);
    }
  }

  // ---------------------------------------------------------------- a delivery ends

  function Rank(p: Phase): nat {
    match p
    case Waiting => 6
    case Fetched(_) => 5
    case Marked(_) => 4
    case Prepared(_, _, _, _) => 3
    case Committed(_) => 2
    case Raising(_) => 1
    case Ended => 0
  }

  /** Retries left first, then operations left in the attempt. */
  function Measure(s: System, d: DocId): nat {
    if d in s.deliveries then s.deliveries[d].retriesLeft * 7 + Rank(s.deliveries[d].phase) else 0
  }

  predicate OwnStep(step: Step, d: DocId) {
    (step.Proceed? || step.Raise? || step.WriteFailure?) && step.d == d
  }

  /** A step takes effect when it changes the state. */
  function Effective(env: Env, maxRetries: nat, s: System, steps: seq<Step>, d: DocId): nat
    requires env.config.Valid()
    decreases |steps|
  {
    if steps == [] then 0
    else
      var next := After(env, maxRetries, s, steps[0]);
      (if OwnStep(steps[0], d) && next != s then 1 else 0) + Effective(env, maxRetries, next, steps[1..], d)
  }

  lemma OwnStepsDecrease(env: Env, maxRetries: nat, s: System, step: Step, d: DocId)
    requires env.config.Valid()
    ensures var s' := After(env, maxRetries, s, step);
      && (OwnStep(step, d) && s' != s ==> Measure(s', d) < Measure(s, d))
      && (!OwnStep(step, d) && step != Deliver(d) ==> Measure(s', d) == Measure(s, d))
  {
  }

  /** Until it is delivered again, a document's delivery takes a bounded number of steps,
      whatever the rest of the system does. */
  lemma {:induction false} DeliveryIsBounded(env: Env, maxRetries: nat, s: System, steps: seq<Step>, d: DocId)
    requires env.config.Valid() && Deliver(d) !in steps
    ensures Effective(env, maxRetries, s, steps, d) <= Measure(s, d)
    decreases |steps|
  {
    if steps != [] {
      OwnStepsDecrease(env, maxRetries, s, steps[0], d);
      DeliveryIsBounded(env, maxRetries, After(env, maxRetries, s, steps[0]), steps[1..], d);
    }
  }

  /** And while it has not ended it can always go on. */
  lemma DeliveryCanGoOn(env: Env, maxRetries: nat, s: System, d: DocId)
    requires env.config.Valid() && d in s.deliveries && !s.deliveries[d].phase.Ended?
    ensures After(env, maxRetries, s, Proceed(d)) != s || After(env, maxRetries, s, WriteFailure(d, true)) != s
  {
    var v := s.deliveries[d];
    if v.phase.Raising? {
      assert After(env, maxRetries, s, WriteFailure(d, true)).deliveries[d].phase != v.phase;
    } else {
      assert Proceeded(env, s, d).deliveries[d].phase != v.phase;
    }
  }

  /** The operations of an attempt that nothing else interferes with, as far as it gets, and
      its failure path. */
  function Undisturbed(env: Env, maxRetries: nat, s: System, d: DocId, c: Course): System
    requires env.config.Valid()
  {
    var marked := if c.fault == BeforeMark then s else Twice(env, maxRetries, s, d);
    var stored := if c.fault == BeforeMark || c.fault == AfterMark then marked else Twice(env, maxRetries, marked, d);
    var over := After(env, maxRetries, stored, if c.fault == NoFault then Proceed(d) else Raise(d, c.error));
    After(env, maxRetries, over, WriteFailure(d, c.failureWritten))
  }

  function Twice(env: Env, maxRetries: nat, s: System, d: DocId): System
    requires env.config.Valid()
  {
    After(env, maxRetries, After(env, maxRetries, s, Proceed(d)), Proceed(d))
  }

  /** The delivery `v` after an attempt with this result. */
  ghost predicate Concluded(v: Delivery, v': Delivery, result: Result) {
    var retried := result.Aborted? && v.retriesLeft > 0;
    && v'.attempts == v.attempts + 1 && v'.phase == (if retried then Waiting else Ended)
    && v'.retriesLeft == (if retried then v.retriesLeft - 1 else v.retriesLeft)
  }

  lemma FailurePath(env: Env, maxRetries: nat, s: System, d: DocId, v: Delivery, db: Db, result: Result, written: bool)
    requires env.config.Valid() && d in s.deliveries && s.db == db
    requires s.deliveries[d].attempts == v.attempts + 1 && s.deliveries[d].retriesLeft == v.retriesLeft
    requires s.deliveries[d].phase == if result.Aborted? then Raising(result.error) else Ended
    ensures var s' := After(env, maxRetries, s, WriteFailure(d, written));
      && d in s'.deliveries && Concluded(v, s'.deliveries[d], result)
      && s'.db == if result.Aborted? && written then MarkedFailed(db, d, result.error) else db
  {
    hide MarkedFailed;
  }

  /** Fetching and marking. */
  lemma FirstTwo(env: Env, maxRetries: nat, s: System, d: DocId)
    requires env.config.Valid() && d in s.deliveries && s.deliveries[d].phase.Waiting?
    ensures var s', v := Twice(env, maxRetries, s, d), s.deliveries[d];
      && s'.runs == s.runs && d in s'.deliveries
      && s'.db == (if d in s.db.docs then WithStatus(s.db, d, Processing) else s.db)
      && s'.deliveries[d] ==
        v.(attempts := v.attempts + 1, lost := false, phase := if d in s.db.docs then Marked(s.db.docs[d]) else Ended)
  {
  }

  /** Preparing and storing. */
  lemma NextTwo(env: Env, maxRetries: nat, s: System, d: DocId)
    requires env.config.Valid() && d in s.deliveries
    requires var p := s.deliveries[d].phase; p.Ended? || (p.Marked? && d in s.db.docs)
    ensures var s', v := Twice(env, maxRetries, s, d), s.deliveries[d];
      && d in s'.deliveries
      && if v.phase.Ended? then s'.db == s.db && s'.deliveries[d] == v
         else
           var doc := v.phase.doc;
           var p := Prepare(env, doc.file, s.runs);
           && s'.db == (if p.Built? then Persisted(s.db, d, doc, p, env.extract(doc.file).metadata) else s.db)
           && s'.deliveries[d] == v.(phase := if p.Built? then Committed(doc) else Raising(p.error))
  {
    hide Prepare, ZipRows;
  }

  /** The two views of an attempt agree: whatever it meets, its operations without interference
      leave the tables as the uninterrupted attempt does and the delivery as its result says. */
  lemma UndisturbedAttempt(env: Env, maxRetries: nat, s: System, d: DocId, c: Course)
    requires env.config.Valid() && d in s.deliveries && s.deliveries[d].phase.Waiting? && s.runs == c.run
    ensures var s' := Undisturbed(env, maxRetries, s, d, c);
      var (after, result) := Attempted(env, s.db, d, c);
      s'.db == after && d in s'.deliveries && Concluded(s.deliveries[d], s'.deliveries[d], result)
  {
    hide Prepare, ZipRows, Truncated, Twice, Concluded, MarkedFailed;
    var marked, stored, step := s, s, if c.fault == NoFault then Proceed(d) else Raise(d, c.error);
    if c.fault != BeforeMark {
      FirstTwo(env, maxRetries, s, d);
      marked := Twice(env, maxRetries, s, d);
      stored := marked;
      if c.fault != AfterMark {
        NextTwo(env, maxRetries, marked, d);
        stored := Twice(env, maxRetries, marked, d);
      }
    }
    var over := After(env, maxRetries, stored, step);
    var (db, result) := Tried(env, s.db, d, c);
    FailurePath(env, maxRetries, over, d, s.deliveries[d], db, result, c.failureWritten);
  }
}
