/** The document and chunk tables and what one ingestion attempt does to them
    (app/ingestion/tasks.py, app/documents/service.py). */
module Documents {
  import opened Wrappers
  import opened Arithmetic
  import opened Chunker
  import opened Embedder

  type DocId = nat
  type Tenant = nat

  datatype Status = Pending | Processing | Ready | Failed

  datatype File = File(bytes: string, contentType: string, filename: string)

  type Metadata = map<string, string>

  datatype Document =
    Document(tenant: Tenant, file: File, status: Status, chunkCount: nat, metadata: Metadata, error: string)

  datatype Row =
    Row(tenant: Tenant, chunkIndex: nat, content: string, embedding: Vector, tokenCount: nat, metadata: Metadata)

  /** The committed tables, the chunk rows listed by their document in insertion order. */
  datatype Db = Db(docs: map<DocId, Document>, rows: map<DocId, seq<Row>>)

  datatype Extracted = Extracted(text: string, metadata: Metadata)

  /** Text extraction, tokenizer and embedding model are deterministic functions.  Every
      attempt takes a new embedder, with replies of its own. */
  datatype Env = Env(extract: File -> Extracted, tokenizer: Tokenizer, config: Config,
                     embed: string -> Vector, provider: nat -> Provider)

  /** The responses of the providers answer their requests. */
  ghost predicate Sound(env: Env) {
    env.config.Valid() && forall run :: env.provider(run).IsHonest(env.embed)
  }

  function RowsOf(db: Db, d: DocId): seq<Row> { if d in db.rows then db.rows[d] else [] }

  // ---------------------------------------------------------------- what an attempt computes

  function ChunksOf(env: Env, file: File): seq<Chunk>
    requires env.config.Valid()
  {
    var extracted := env.extract(file);
    Chunks(env.tokenizer, extracted.text, env.config, map["source" := file.filename] + extracted.metadata)
  }

  function Contents(chunks: seq<Chunk>): seq<string> {
    seq(|chunks|, i requires 0 <= i < |chunks| => chunks[i].content)
  }

  function RowFor(tenant: Tenant, chunk: Chunk, vector: Vector): Row {
    Row(tenant, chunk.chunkIndex, chunk.content, vector, chunk.tokenCount, chunk.metadata)
  }

  /** One row per pair of the zipped lists: the longer list loses its tail. */
  function ZipRows(tenant: Tenant, chunks: seq<Chunk>, vectors: seq<Vector>): seq<Row> {
    if chunks == [] || vectors == [] then []
    else [RowFor(tenant, chunks[0], vectors[0])] + ZipRows(tenant, chunks[1..], vectors[1..])
  }

  /** The rows of one complete attempt on a file. */
  function BuildRows(env: Env, tenant: Tenant, file: File): seq<Row>
    requires env.config.Valid()
  {
    var chunks := ChunksOf(env, file);
    ZipRows(tenant, chunks, EmbedAll(env.embed, Contents(chunks)))
  }

  const EMPTY_TEXT := "Extracted text is empty \U{2014} document may be image-only or corrupt"
  const NO_CHUNKS := "No chunks produced from document"
  const NO_EMBEDDING := "Embedding failed after all retries"

  /** What an attempt has in hand before its final transaction, or the error it raises. */
  datatype Preparation = Built(chunks: seq<Chunk>, vectors: seq<Vector>) | Broken(error: string)

  /** Extraction, chunking and embedding of the attempt number `run`. */
  function Prepare(env: Env, file: File, run: nat): Preparation
    requires env.config.Valid()
  {
    var chunks := ChunksOf(env, file);
    if env.tokenizer.isBlank(env.extract(file).text) then Broken(EMPTY_TEXT)
    else if chunks == [] then Broken(NO_CHUNKS)
    else
      match env.provider(run).EmbedMany(Contents(chunks))
      case Embedded(vectors) => Built(chunks, vectors)
      case Raised(error) => Broken(error)
      case Exhausted => Broken(NO_EMBEDDING)
  }

  /** What an embedder returns to an attempt is one vector per chunk, in order. */
  lemma PreparedInOrder(env: Env, file: File, run: nat)
    requires Sound(env) && Prepare(env, file, run).Built?
    ensures var p := Prepare(env, file, run);
      p.chunks == ChunksOf(env, file) != [] && p.vectors == EmbedAll(env.embed, Contents(p.chunks))
  {
    ProviderInOrder(env.provider(run), Contents(ChunksOf(env, file)), env.embed);
  }

  lemma PreparedChunks(env: Env, file: File, run: nat)
    requires env.config.Valid() && Prepare(env, file, run).Built?
    ensures Prepare(env, file, run).chunks == ChunksOf(env, file) != []
  {
  }

  lemma {:induction false} ZipRowsAt(tenant: Tenant, chunks: seq<Chunk>, vectors: seq<Vector>)
    ensures var rows := ZipRows(tenant, chunks, vectors);
      && |rows| == Min(|chunks|, |vectors|)
      && forall i :: 0 <= i < |rows| ==>
        var c := chunks[i];
        rows[i] == Row(tenant, c.chunkIndex, c.content, vectors[i], c.tokenCount, c.metadata)
  {
    if chunks != [] && vectors != [] {
      ZipRowsAt(tenant, chunks[1..], vectors[1..]);
    }
  }

  /** The recorded chunk count is the number of rows exactly when the embedder returned no fewer vectors than texts. */
  lemma CountMatchesRows(tenant: Tenant, chunks: seq<Chunk>, vectors: seq<Vector>)
    ensures |ZipRows(tenant, chunks, vectors)| == |chunks| <==> |vectors| >= |chunks|
  {
    ZipRowsAt(tenant, chunks, vectors);
  }

  /** Composition of chunker, embedder and insertion: one row per chunk, numbered from 0,
      each with the vector of its own text and the document's tenant. */
  lemma BuiltRows(env: Env, tenant: Tenant, file: File)
    requires env.config.Valid()
    ensures var rows := BuildRows(env, tenant, file);
      && |rows| == |ChunksOf(env, file)|
      && forall i :: 0 <= i < |rows| ==>
        rows[i].tenant == tenant && rows[i].chunkIndex == i && rows[i].embedding == env.embed(rows[i].content)
  {
    var extracted := env.extract(file);
    var metadata := map["source" := file.filename] + extracted.metadata;
    var chunks := ChunksOf(env, file);
    ZipRowsAt(tenant, chunks, EmbedAll(env.embed, Contents(chunks)));
    if !env.tokenizer.isBlank(extracted.text) {
      var tokens := env.tokenizer.encode(extracted.text);
      ChunksUpToAt(env.tokenizer, tokens, env.config, metadata, Count(|tokens|, env.config));
    }
  }

  /** Row i of a complete attempt holds the text of the tokens from i strides on, its vector, its
      number and token count, and the metadata extracted, with the file name as the source unless
      that names another. */
  lemma RowIs(env: Env, tenant: Tenant, file: File, i: nat, lo: nat, hi: nat)
    requires env.config.overlap < env.config.chunkSize && i < |BuildRows(env, tenant, file)|
    requires lo == i * (env.config.chunkSize - env.config.overlap)
    requires var total := |env.tokenizer.encode(env.extract(file).text)|;
      hi == if lo + env.config.chunkSize < total then lo + env.config.chunkSize else total
    ensures !env.tokenizer.isBlank(env.extract(file).text)
    ensures var tokens, found := env.tokenizer.encode(env.extract(file).text), env.extract(file).metadata;
      var row := BuildRows(env, tenant, file)[i];
      && lo < hi <= |tokens| && row.content == env.tokenizer.render(tokens[lo..hi])
      && row.embedding == env.embed(row.content)
      && row.tenant == tenant && row.chunkIndex == i && row.tokenCount == hi - lo
      && row.metadata.Keys == found.Keys + {"source"}
      && row.metadata["source"] == (if "source" in found then found["source"] else file.filename)
      && forall k :: k in found ==> row.metadata[k] == found[k]
  {
    var extracted := env.extract(file);
    var chunks := ChunksOf(env, file);
    ZipRowsAt(tenant, chunks, EmbedAll(env.embed, Contents(chunks)));
    hide BuildRows, ZipRows, Chunks;
    BuiltRows(env, tenant, file);
    ChunkCounted(env.tokenizer, extracted.text, env.config, map["source" := file.filename] + extracted.metadata, i);
    ChunkIs(env.tokenizer, extracted.text, env.config, map["source" := file.filename] + extracted.metadata, i, lo, hi);
  }

  // ---------------------------------------------------------------- transactions

  function WithStatus(db: Db, d: DocId, status: Status): Db
    requires d in db.docs
  {
    db.(docs := db.docs[d := db.docs[d].(status := status)])
  }

  /** The delete, the inserts and the final update, committed together, by an attempt that
      fetched the row `doc`. */
  function Persisted(db: Db, d: DocId, doc: Document, p: Preparation, extra: Metadata): Db
    requires d in db.docs && p.Built?
  {
    Db(db.docs[d := db.docs[d].(status := Ready, chunkCount := |p.chunks|, metadata := doc.metadata + extra)],
       db.rows[d := ZipRows(doc.tenant, p.chunks, p.vectors)])
  }

  /** An error message as it is stored. */
  function Truncated(error: string): string { if |error| <= 1000 then error else error[..1000] }

  /** The failure path, in its own session: nothing if the row is gone. */
  function MarkedFailed(db: Db, d: DocId, error: string): Db {
    if d in db.docs then db.(docs := db.docs[d := db.docs[d].(status := Failed, error := Truncated(error))])
    else db
  }

  function Created(db: Db, d: DocId, tenant: Tenant, file: File): Db {
    db.(docs := db.docs[d := Document(tenant, file, Pending, 0, map[], "")])
  }

  /** Deleting a document deletes its chunk rows with it. */
  function Deleted(db: Db, d: DocId): Db {
    Db(db.docs - {d}, db.rows - {d})
  }

  /** What every committed state keeps of a document: its count is that of its rows; it has
      no rows and no metadata, or exactly those of a complete attempt on its file. */
  ghost predicate Consistent(env: Env, db: Db, d: DocId)
    requires env.config.Valid() && d in db.docs
  {
    var doc, rows := db.docs[d], RowsOf(db, d);
    && doc.chunkCount == |rows|
    && (rows == [] ==> doc.metadata == map[])
    && (rows != [] ==> rows == BuildRows(env, doc.tenant, doc.file) && doc.metadata == env.extract(doc.file).metadata)
    && (doc.status == Ready ==> rows != [])
  }

  ghost predicate DbInv(env: Env, db: Db)
    requires env.config.Valid()
  {
    && (forall d :: d in db.rows ==> d in db.docs)
    && (forall d :: d in db.docs ==> Consistent(env, db, d))
  }

  /** A transaction on one document leaves the others as they are. */
  lemma OneKeeps(env: Env, db: Db, after: Db, d: DocId)
    requires env.config.Valid() && DbInv(env, db)
    requires after.docs - {d} == db.docs - {d} && after.rows - {d} == db.rows - {d}
    requires d in after.rows ==> d in after.docs
    requires d in after.docs ==> Consistent(env, after, d)
    ensures DbInv(env, after)
  {
    hide BuildRows;
    forall e | e in after.docs && e != d ensures Consistent(env, after, e) {
      assert e in after.docs - {d} && Consistent(env, db, e);
      assert e in db.rows ==> e in db.rows - {d};
      assert e in after.rows ==> e in after.rows - {d};
    }
    forall e | e in after.rows ensures e in after.docs {
      assert e != d ==> e in after.rows - {d};
      assert e in db.docs && e != d ==> e in db.docs - {d};
    }
  }

  lemma MarkKeeps(env: Env, db: Db, d: DocId)
    requires env.config.Valid() && DbInv(env, db) && d in db.docs
    ensures DbInv(env, WithStatus(db, d, Processing))
  {
    hide BuildRows;
    assert Consistent(env, db, d);
    OneKeeps(env, db, WithStatus(db, d, Processing), d);
  }

  lemma FailureKeeps(env: Env, db: Db, d: DocId, error: string)
    requires env.config.Valid() && DbInv(env, db)
    ensures DbInv(env, MarkedFailed(db, d, error))
  {
    hide BuildRows, Truncated;
    if d in db.docs {
      assert Consistent(env, db, d);
      OneKeeps(env, db, MarkedFailed(db, d, error), d);
    }
  }

  lemma DeletionKeeps(env: Env, db: Db, d: DocId)
    requires env.config.Valid() && DbInv(env, db)
    ensures DbInv(env, Deleted(db, d))
  {
    hide BuildRows;
    OneKeeps(env, db, Deleted(db, d), d);
  }

  lemma CreationKeeps(env: Env, db: Db, d: DocId, tenant: Tenant, file: File)
    requires env.config.Valid() && DbInv(env, db) && d !in db.docs
    ensures DbInv(env, Created(db, d, tenant, file))
  {
    hide BuildRows;
    OneKeeps(env, db, Created(db, d, tenant, file), d);
  }

  /** Creating, marking, failing and deleting documents keep every document consistent with its rows. */
  lemma TransactionsKeep(env: Env, db: Db, d: DocId, error: string)
    requires env.config.Valid() && DbInv(env, db)
    ensures DbInv(env, Deleted(db, d)) && DbInv(env, MarkedFailed(db, d, error))
    ensures d in db.docs ==> DbInv(env, WithStatus(db, d, Processing))
    ensures d !in db.docs ==> forall tenant, file :: DbInv(env, Created(db, d, tenant, file))
  {
    hide DbInv;
    DeletionKeeps(env, db, d);
    FailureKeeps(env, db, d, error);
    if d in db.docs {
      MarkKeeps(env, db, d);
    } else {
      forall tenant, file ensures DbInv(env, Created(db, d, tenant, file)) {
        CreationKeeps(env, db, d, tenant, file);
      }
    }
  }

  /** The rows a complete attempt inserts. */
  lemma PersistedRows(env: Env, db: Db, d: DocId, doc: Document, run: nat, extra: Metadata)
    requires Sound(env) && d in db.docs && Prepare(env, doc.file, run).Built?
    ensures var p := Prepare(env, doc.file, run);
      var rows := RowsOf(Persisted(db, d, doc, p, extra), d);
      rows == BuildRows(env, doc.tenant, doc.file) && |rows| == |p.chunks| > 0
  {
    hide EmbedAll, Contents, ChunksOf;
    PreparedInOrder(env, doc.file, run);
    BuiltRows(env, doc.tenant, doc.file);
  }

  lemma PersistedKeeps(env: Env, db: Db, d: DocId, doc: Document, run: nat)
    requires Sound(env) && DbInv(env, db) && d in db.docs && Prepare(env, doc.file, run).Built?
    requires doc.tenant == db.docs[d].tenant && doc.file == db.docs[d].file && doc.metadata == db.docs[d].metadata
    ensures DbInv(env, Persisted(db, d, doc, Prepare(env, doc.file, run), env.extract(doc.file).metadata))
  {
    hide BuildRows, ZipRows, Prepare;
    var extra := env.extract(doc.file).metadata;
    var after := Persisted(db, d, doc, Prepare(env, doc.file, run), extra);
    PersistedRows(env, db, d, doc, run, extra);
    assert Consistent(env, db, d);
    assert map[] + extra == extra && extra + extra == extra;
    OneKeeps(env, db, after, d);
  }

  // ---------------------------------------------------------------- counts, whatever the embedder returns

  /** The chunk count is the number of rows, which are numbered from 0 and have the document's tenant. */
  ghost predicate Counted(db: Db, d: DocId)
    requires d in db.docs
  {
    var doc, rows := db.docs[d], RowsOf(db, d);
    && doc.chunkCount == |rows|
    && forall i :: 0 <= i < |rows| ==> rows[i].chunkIndex == i && rows[i].tenant == doc.tenant
  }

  ghost predicate AllCounted(db: Db) {
    && (forall d :: d in db.rows ==> d in db.docs)
    && (forall d :: d in db.docs ==> Counted(db, d))
  }

  lemma OneCounted(db: Db, after: Db, d: DocId)
    requires AllCounted(db)
    requires after.docs - {d} == db.docs - {d} && after.rows - {d} == db.rows - {d}
    requires d in after.rows ==> d in after.docs
    requires d in after.docs ==> Counted(after, d)
    ensures AllCounted(after)
  {
    forall e | e in after.docs && e != d ensures Counted(after, e) {
      assert e in after.docs - {d} && Counted(db, e);
      assert e in db.rows ==> e in db.rows - {d};
      assert e in after.rows ==> e in after.rows - {d};
    }
    forall e | e in after.rows ensures e in after.docs {
      assert e != d ==> e in after.rows - {d};
      assert e in db.docs && e != d ==> e in db.docs - {d};
    }
  }

  lemma TransactionsCounted(db: Db, d: DocId, error: string)
    requires AllCounted(db)
    ensures AllCounted(Deleted(db, d)) && AllCounted(MarkedFailed(db, d, error))
    ensures d in db.docs ==> AllCounted(WithStatus(db, d, Processing))
    ensures d !in db.docs ==> forall tenant, file :: AllCounted(Created(db, d, tenant, file))
  {
    hide AllCounted, Truncated;
    OneCounted(db, Deleted(db, d), d);
    if d in db.docs {
      CountedAt(db, d);
      OneCounted(db, MarkedFailed(db, d, error), d);
      OneCounted(db, WithStatus(db, d, Processing), d);
    } else {
      CountedAt(db, d);
      forall tenant, file ensures AllCounted(Created(db, d, tenant, file)) {
        OneCounted(db, Created(db, d, tenant, file), d);
      }
    }
  }

  lemma CountedAt(db: Db, d: DocId)
    requires AllCounted(db)
    ensures if d in db.docs then Counted(db, d) else d !in db.rows
  {
  }

  /** The chunks of a file are numbered from 0. */
  lemma ChunksNumbered(env: Env, file: File)
    requires env.config.Valid()
    ensures forall i :: 0 <= i < |ChunksOf(env, file)| ==> ChunksOf(env, file)[i].chunkIndex == i
  {
    var extracted := env.extract(file);
    if !env.tokenizer.isBlank(extracted.text) {
      var tokens := env.tokenizer.encode(extracted.text);
      ChunksUpToAt(env.tokenizer, tokens, env.config, map["source" := file.filename] + extracted.metadata,
                   Count(|tokens|, env.config));
    }
  }

  /** The final transaction keeps the counts exactly when no chunk is without a vector. */
  lemma PersistedCounted(env: Env, db: Db, d: DocId, doc: Document, p: Preparation, extra: Metadata)
    requires env.config.Valid() && AllCounted(db) && d in db.docs && doc.tenant == db.docs[d].tenant
    requires p.Built? && p.chunks == ChunksOf(env, doc.file)
    ensures AllCounted(Persisted(db, d, doc, p, extra)) <==> |p.vectors| >= |p.chunks|
  {
    hide ChunksOf;
    var after := Persisted(db, d, doc, p, extra);
    ZipRowsAt(doc.tenant, p.chunks, p.vectors);
    ChunksNumbered(env, doc.file);
    CountMatchesRows(doc.tenant, p.chunks, p.vectors);
    if |p.vectors| >= |p.chunks| {
      CountedAt(db, d);
      OneCounted(db, after, d);
    } else {
      assert !Counted(after, d);
    }
  }

  /** No embedder of an attempt returns fewer vectors than texts. */
  ghost predicate Enough(env: Env)
    requires env.config.Valid()
  {
    forall file, run :: EnoughFor(env, file, run)
  }

  ghost predicate EnoughFor(env: Env, file: File, run: nat)
    requires env.config.Valid()
  {
    var p := Prepare(env, file, run);
    p.Built? ==> |p.vectors| >= |p.chunks|
  }

  lemma SoundIsEnough(env: Env)
    requires Sound(env)
    ensures Enough(env)
  {
    forall file, run ensures EnoughFor(env, file, run) {
      if Prepare(env, file, run).Built? {
        PreparedInOrder(env, file, run);
      }
    }
  }

  // ---------------------------------------------------------------- reading

  /** The rows a search may rank: filtered by the row's tenant and the document's status only. */
  function Searchable(db: Db, tenant: Tenant): set<(DocId, nat)> {
    set d, i | d in db.rows && d in db.docs && 0 <= i < |db.rows[d]| &&
      db.rows[d][i].tenant == tenant && db.docs[d].status == Ready :: (d, i)
  }

  /** The rows of a document, filtered by document only, after the ownership check. */
  function ListChunks(db: Db, d: DocId, tenant: Tenant): Option<seq<Row>> {
    if d in db.docs && db.docs[d].tenant == tenant then Some(RowsOf(db, d)) else None
  }

  /** Isolation: a search sees exactly the rows of the ready documents its tenant owns. */
  lemma SearchSeesOwnReadyRows(env: Env, db: Db, tenant: Tenant, d: DocId, i: nat)
    requires env.config.Valid() && DbInv(env, db)
    ensures (d, i) in Searchable(db, tenant) <==>
      d in db.docs && db.docs[d].tenant == tenant && db.docs[d].status == Ready && i < db.docs[d].chunkCount
  {
    if d in db.docs {
      assert Consistent(env, db, d);
      BuiltRows(env, db.docs[d].tenant, db.docs[d].file);
    }
  }

  /** Isolation and order of a listing. */
  lemma ListingIsOwnedAndOrdered(env: Env, db: Db, d: DocId, tenant: Tenant)
    requires env.config.Valid() && DbInv(env, db)
    ensures var listing := ListChunks(db, d, tenant);
      && (listing.Some? <==> d in db.docs && db.docs[d].tenant == tenant)
      && (listing.Some? ==> |listing.value| == db.docs[d].chunkCount)
      && (listing.Some? ==> forall i :: 0 <= i < |listing.value| ==>
            listing.value[i].tenant == tenant && listing.value[i].chunkIndex == i)
      && (listing.Some? && listing.value != [] ==> listing.value == BuildRows(env, tenant, db.docs[d].file))
  {
    if d in db.docs {
      assert Consistent(env, db, d);
      BuiltRows(env, db.docs[d].tenant, db.docs[d].file);
    }
  }

  /** A deleted document is in no search and no listing, and nothing else changes. */
  lemma DeletedIsGone(db: Db, d: DocId, tenant: Tenant, e: DocId, i: nat)
    ensures d !in Deleted(db, d).docs && RowsOf(Deleted(db, d), d) == []
    ensures (d, i) !in Searchable(Deleted(db, d), tenant) && ListChunks(Deleted(db, d), d, tenant) == None
    ensures e != d ==>
      && ((e, i) in Searchable(Deleted(db, d), tenant) <==> (e, i) in Searchable(db, tenant))
      && ListChunks(Deleted(db, d), e, tenant) == ListChunks(db, e, tenant)
  {
  }

  // ---------------------------------------------------------------- a delivery without interference

  /** Where something other than extraction, chunking and embedding raises, if it does. */
  datatype Fault = NoFault | BeforeMark | AfterMark | AfterCommit

  /** What an attempt meets: the fault and its error, the number of its embedder, and whether
      the failure write succeeds. */
  datatype Course = Course(fault: Fault, error: string, run: nat, failureWritten: bool)

  datatype Result = Missing | Done(chunks: nat) | Aborted(error: string)

  /** One attempt up to the point where it ends or raises. */
  function Tried(env: Env, db: Db, d: DocId, c: Course): (Db, Result)
    requires env.config.Valid()
  {
    if c.fault == BeforeMark then (db, Aborted(c.error))
    else if d !in db.docs then (db, Missing)
    else
      var marked, doc := WithStatus(db, d, Processing), db.docs[d];
      var p := Prepare(env, doc.file, c.run);
      if c.fault == AfterMark then (marked, Aborted(c.error))
      else if p.Broken? then (marked, Aborted(p.error))
      else
        var ready := Persisted(marked, d, doc, p, env.extract(doc.file).metadata);
        (ready, if c.fault == AfterCommit then Aborted(c.error) else Done(|p.chunks|))
  }

  function Attempted(env: Env, db: Db, d: DocId, c: Course): (Db, Result)
    requires env.config.Valid()
  {
    var (after, result) := Tried(env, db, d, c);
    (if result.Aborted? && c.failureWritten then MarkedFailed(after, d, result.error) else after, result)
  }

  /** The same documents, with the same owner and file; rows once written stay as they are. */
  ghost predicate Follows(db: Db, after: Db, d: DocId) {
    && after.docs.Keys == db.docs.Keys
    && (d in db.docs ==> after.docs[d].tenant == db.docs[d].tenant && after.docs[d].file == db.docs[d].file)
    && (d in db.docs && RowsOf(db, d) != [] ==> RowsOf(after, d) == RowsOf(db, d))
  }

  lemma ReadyKeeps(env: Env, db: Db, d: DocId, run: nat)
    requires Sound(env) && DbInv(env, db) && d in db.docs && Prepare(env, db.docs[d].file, run).Built?
    ensures var doc := db.docs[d];
      var p := Prepare(env, doc.file, run);
      var after := Persisted(WithStatus(db, d, Processing), d, doc, p, env.extract(doc.file).metadata);
      && DbInv(env, after) && Follows(db, after, d)
      && after.docs[d].status == Ready && |p.chunks| == |RowsOf(after, d)| > 0
  {
    hide BuildRows, ZipRows, Prepare;
    var marked, doc := WithStatus(db, d, Processing), db.docs[d];
    MarkKeeps(env, db, d);
    PersistedKeeps(env, marked, d, doc, run);
    PersistedRows(env, marked, d, doc, run, env.extract(doc.file).metadata);
    assert Consistent(env, db, d);
  }

  lemma TriedKeeps(env: Env, db: Db, d: DocId, c: Course)
    requires Sound(env) && DbInv(env, db)
    ensures var (after, result) := Tried(env, db, d, c);
      && DbInv(env, after) && Follows(db, after, d)
      && (result.Missing? ==> d !in db.docs)
      && (result.Done? ==> d in db.docs && after.docs[d].status == Ready && result.chunks == |RowsOf(after, d)| > 0)
  {
    hide BuildRows, ZipRows, Prepare, DbInv;
    if d in db.docs {
      MarkKeeps(env, db, d);
      if Prepare(env, db.docs[d].file, c.run).Built? {
        ReadyKeeps(env, db, d, c.run);
      }
    }
  }

  /** What an attempt leaves behind, whatever it meets. */
  lemma AttemptKeeps(env: Env, db: Db, d: DocId, c: Course)
    requires Sound(env) && DbInv(env, db)
    ensures var (after, result) := Attempted(env, db, d, c);
      && DbInv(env, after) && Follows(db, after, d)
      && (result.Missing? ==> d !in db.docs)
      && (result.Done? ==> d in db.docs && after.docs[d].status == Ready && result.chunks == |RowsOf(after, d)| > 0)
      && (result.Aborted? && c.failureWritten && d in db.docs ==>
            after.docs[d].status == Failed && after.docs[d].error == Truncated(result.error))
  {
    hide Tried, DbInv, Truncated;
    TriedKeeps(env, db, d, c);
    var (after, result) := Tried(env, db, d, c);
    if result.Aborted? {
      FailureKeeps(env, after, d, result.error);
    }
  }

  /** Everything about a document but its status and error message. */
  ghost predicate SameButStatus(db: Db, after: Db, d: DocId) {
    && after.docs.Keys == db.docs.Keys && after.docs - {d} == db.docs - {d} && after.rows == db.rows
    && (d in db.docs ==>
          after.docs[d] == db.docs[d].(status := after.docs[d].status, error := after.docs[d].error))
  }

  /** A healthy attempt succeeds: of a document with text and chunks whose embedder returns
      vectors, it inserts a row for each pair, merges the metadata, marks the document ready with
      its chunk count, and leaves its error message and all other documents as they are. */
  lemma HealthyAttempt(env: Env, db: Db, d: DocId, c: Course, vectors: seq<Vector>)
    requires env.config.Valid() && c.fault == NoFault && d in db.docs
    requires !env.tokenizer.isBlank(env.extract(db.docs[d].file).text) && ChunksOf(env, db.docs[d].file) != []
    requires env.provider(c.run).EmbedMany(Contents(ChunksOf(env, db.docs[d].file))) == Embedded(vectors)
    ensures var doc, chunks := db.docs[d], ChunksOf(env, db.docs[d].file);
      var (after, result) := Attempted(env, db, d, c);
      && result == Done(|chunks|)
      && d in after.docs && RowsOf(after, d) == ZipRows(doc.tenant, chunks, vectors)
      && after.docs[d] ==
           doc.(status := Ready, chunkCount := |chunks|, metadata := doc.metadata + env.extract(doc.file).metadata)
      && after.docs - {d} == db.docs - {d} && after.rows - {d} == db.rows - {d}
  {
    hide ChunksOf, ZipRows;
  }

  /** How an attempt fails, and with which error: in this order. */
  lemma AttemptFails(env: Env, db: Db, d: DocId, c: Course)
    requires env.config.Valid()
    ensures var result := Attempted(env, db, d, c).1;
      if c.fault == BeforeMark then result == Aborted(c.error)
      else if d !in db.docs then result == Missing
      else
        var file := db.docs[d].file;
        if c.fault == AfterMark then result == Aborted(c.error)
        else if env.tokenizer.isBlank(env.extract(file).text) then
          result == Aborted("Extracted text is empty \U{2014} document may be image-only or corrupt")
        else if ChunksOf(env, file) == [] then result == Aborted("No chunks produced from document")
        else
          match env.provider(c.run).EmbedMany(Contents(ChunksOf(env, file)))
          case Raised(error) => result == Aborted(error)
          case Exhausted => result == Aborted("Embedding failed after all retries")
          case Embedded(_) => c.fault == AfterCommit ==> result == Aborted(c.error)
  {
    hide ChunksOf, ZipRows, Persisted;
  }

  /** What a failed attempt leaves: before the final transaction rows and count are as they were,
      the document is failed with the first thousand characters of the error if that could be
      written, and otherwise still being processed, or untouched if the row was never fetched. */
  lemma AttemptLeaves(env: Env, db: Db, d: DocId, c: Course)
    requires env.config.Valid() && Attempted(env, db, d, c).1.Aborted? && c.fault != AfterCommit && d in db.docs
    ensures var (after, result) := Attempted(env, db, d, c);
      && SameButStatus(db, after, d)
      && var unwritten := if c.fault == BeforeMark then db.docs[d].status else Processing;
         var message := if |result.error| <= 1000 then result.error else result.error[..1000];
         && after.docs[d].status == (if c.failureWritten then Failed else unwritten)
         && after.docs[d].error == (if c.failureWritten then message else db.docs[d].error)
  {
    hide Prepare;
  }

  /** An attempt that raises after its final transaction keeps the rows it inserted. */
  lemma LateFailure(env: Env, db: Db, d: DocId, c: Course)
    requires env.config.Valid() && c.fault == AfterCommit && d in db.docs
    requires Attempted(env, db, d, c.(fault := NoFault)).1.Done?
    ensures var (after, result) := Attempted(env, db, d, c);
      var healthy := Attempted(env, db, d, c.(fault := NoFault)).0;
      && result == Aborted(c.error) && after.rows == healthy.rows
      && after == if c.failureWritten then MarkedFailed(healthy, d, c.error) else healthy
  {
    hide Prepare, Persisted;
  }

  /** An attempt on a document that is gone changes nothing. */
  lemma MissingAttempt(env: Env, db: Db, d: DocId, c: Course)
    requires env.config.Valid() && d !in db.docs
    ensures Attempted(env, db, d, c).0 == db
  {
  }

  /** Attempts in turn up to the first that does not raise, or the last: what they leave, the
      last result, and how many there were. */
  function Delivered(env: Env, db: Db, d: DocId, courses: seq<Course>): (Db, Result, nat)
    requires env.config.Valid() && courses != []
    decreases |courses|
  {
    var (after, result) := Attempted(env, db, d, courses[0]);
    if result.Aborted? && |courses| > 1 then
      var (end, last, more) := Delivered(env, after, d, courses[1..]);
      (end, last, more + 1)
    else (after, result, 1)
  }

  /** A delivery whose first k attempts raise and whose next does not makes k + 1 attempts and
      ends as that one does; if all raise it makes all of them. */
  lemma {:induction false} DeliveryEnds(env: Env, db: Db, d: DocId, courses: seq<Course>, states: seq<Db>, k: nat)
    requires env.config.Valid() && k < |courses| && |states| == k + 1 && states[0] == db
    requires forall i :: 0 <= i < k ==>
      Attempted(env, states[i], d, courses[i]).1.Aborted? && states[i + 1] == Attempted(env, states[i], d, courses[i]).0
    requires !Attempted(env, states[k], d, courses[k]).1.Aborted? || k + 1 == |courses|
    ensures var (after, result) := Attempted(env, states[k], d, courses[k]);
      Delivered(env, db, d, courses) == (after, result, k + 1)
    decreases k
  {
    hide Attempted;
    if k > 0 {
      DeliveryEnds(env, states[1], d, courses[1..], states[1..], k - 1);
    }
  }

  class Database {
    var docs: map<DocId, Document>
    var rows: map<DocId, seq<Row>>

    constructor ()
      ensures State() == Db(map[], map[])
    {
      docs, rows := map[], map[];
    }

    function State(): Db
      reads this
    {
      Db(docs, rows)
    }

    /** The transaction at the end of an attempt that fetched the row `doc`. */
    method Persist(d: DocId, doc: Document, chunks: seq<Chunk>, vectors: seq<Vector>, extra: Metadata)
      requires d in docs
      modifies this
      ensures State() == Persisted(old(State()), d, doc, Built(chunks, vectors), extra)
    {
      rows := rows[d := []];
      var i := 0;
      ghost var all := ZipRows(doc.tenant, chunks, vectors);
      ZipRowsAt(doc.tenant, chunks, vectors);
      while i < |chunks| && i < |vectors|
        invariant 0 <= i <= |all|
        invariant docs == old(docs)
        invariant rows == old(rows)[d := all[..i]]
      {
        assert all[..i + 1] == all[..i] + [all[i]];
        rows := rows[d := rows[d] + [RowFor(doc.tenant, chunks[i], vectors[i])]];
        i := i + 1;
      }
      assert all[..i] == all;
      docs := docs[d := docs[d].(status := Ready, chunkCount := |chunks|, metadata := doc.metadata + extra)];
    }

    method MarkFailed(d: DocId, error: string)
      modifies this
      ensures State() == MarkedFailed(old(State()), d, error)
    {
      if d in docs {
        docs := docs[d := docs[d].(status := Failed, error := if |error| <= 1000 then error else error[..1000])];
      }
    }

    method Process(env: Env, d: DocId, c: Course) returns (result: Result)
      requires env.config.Valid()
      modifies this
      ensures (State(), result) == Attempted(env, old(State()), d, c)
    {
      hide Prepare;
      result := Aborted(c.error);
      if c.fault != BeforeMark {
        if d !in docs {
          return Missing;
        }
        var doc := docs[d];
        docs := docs[d := docs[d].(status := Processing)];
        var extracted := env.extract(doc.file);
        var p := Prepare(env, doc.file, c.run);
        if c.fault != AfterMark {
          if p.Built? {
            Persist(d, doc, p.chunks, p.vectors, extracted.metadata);
            if c.fault != AfterCommit {
              return Done(|p.chunks|);
            }
          } else {
            result := Aborted(p.error);
          }
        }
      }
      if c.failureWritten {
        MarkFailed(d, result.error);
      }
    }

    /** A delivery: at most `maxRetries` further attempts after one that raises.  Of a
        document that exists it ends ready, or failed after the last attempt. */
    method ProcessDocument(env: Env, d: DocId, maxRetries: nat, courses: seq<Course>)
      returns (result: Result, attempts: nat)
      requires Sound(env) && DbInv(env, State()) && |courses| == maxRetries + 1
      modifies this
      ensures (State(), result, attempts) == Delivered(env, old(State()), d, courses)
      ensures DbInv(env, State()) && Follows(old(State()), State(), d)
      ensures 1 <= attempts <= maxRetries + 1
      ensures result.Aborted? ==> attempts == maxRetries + 1
      ensures d in docs ==> !result.Missing?
      ensures result.Done? ==> d in docs && docs[d].status == Ready && result.chunks == |RowsOf(State(), d)| > 0
      ensures result.Aborted? && courses[maxRetries].failureWritten && d in docs ==>
        docs[d].status == Failed && docs[d].error == Truncated(result.error)
    {
      hide Attempted, Truncated, DbInv;
      attempts := 0;
      while true
        invariant 0 <= attempts <= maxRetries
        invariant DbInv(env, State()) && Follows(old(State()), State(), d)
        invariant Delivered(env, old(State()), d, courses) ==
          var (end, last, more) := Delivered(env, State(), d, courses[attempts..]);
          (end, last, attempts + more)
        decreases maxRetries - attempts
      {
        assert courses[attempts..][0] == courses[attempts] && courses[attempts..][1..] == courses[attempts + 1..];
        AttemptKeeps(env, State(), d, courses[attempts]);
        result := Process(env, d, courses[attempts]);
        attempts := attempts + 1;
        if !result.Aborted? || attempts > maxRetries {
          return;
        }
      }
    }
  }
}
