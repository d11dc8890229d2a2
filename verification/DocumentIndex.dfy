/** Documents, their chunks and embeddings, and the ingest transaction that keeps them in step. */
module DocumentIndex {
  import opened Wrappers
  import opened Paragraphs
  import opened Chunker
  import opened EmbeddingCache

  // ----- Tables -----

  datatype Json = Text(text: string) | Number(number: int) | Texts(texts: seq<string>)

  datatype Request = Request(
    userId: int, sourceType: string, externalId: Option<string>,
    title: string, content: string, url: Option<string>, metadata: map<string, Json>,
    contentHash: Option<string>, crawledAt: Option<int>, ingestionStatus: string)

  /** A row of documents; the columns of the request, which an upsert overwrites but for the key. */
  type Document = Request

  datatype ChunkRow = ChunkRow(documentId: int, index: nat, content: string, tokenCount: nat, embedding: Embedding)

  datatype Tables = Tables(documents: map<int, Document>, chunks: seq<ChunkRow>)

  predicate SameKey(a: Document, b: Document) {
    a.userId == b.userId && a.sourceType == b.sourceType && a.externalId == b.externalId
  }

  /** The unique constraint; rows without an external id are exempt from it. */
  ghost predicate UniqueKeys(documents: map<int, Document>) {
    forall i, j ::
      i in documents && j in documents && documents[i].externalId.Some? && SameKey(documents[i], documents[j]) ==>
        i == j
  }

  function RowsOf(chunks: seq<ChunkRow>, id: int): seq<ChunkRow> {
    if chunks == [] then []
    else (if chunks[0].documentId == id then [chunks[0]] else []) + RowsOf(chunks[1..], id)
  }

  function Without(chunks: seq<ChunkRow>, id: int): seq<ChunkRow> {
    if chunks == [] then []
    else (if chunks[0].documentId == id then [] else [chunks[0]]) + Without(chunks[1..], id)
  }

  /** The rows for some chunks of a document. */
  function Rows(embed: string -> Embedding, id: int, chunks: seq<TextChunk>): (r: seq<ChunkRow>)
    ensures |r| == |chunks|
    ensures forall i :: 0 <= i < |chunks| ==>
              r[i] == ChunkRow(id, chunks[i].index, chunks[i].content, chunks[i].tokenCount, embed(chunks[i].content))
  {
    if chunks == [] then []
    else
      var c := chunks[0];
      [ChunkRow(id, c.index, c.content, c.tokenCount, embed(c.content))] + Rows(embed, id, chunks[1..])
  }

  ghost predicate Owned(chunks: seq<ChunkRow>, owners: set<int>) {
    forall k :: 0 <= k < |chunks| ==> chunks[k].documentId in owners
  }

  predicate InStep(t: Tables, config: Config, embed: string -> Embedding, id: int)
    requires config.Valid() && id in t.documents
  {
    RowsOf(t.chunks, id) == Rows(embed, id, config.Chunks(t.documents[id].content))
  }

  /** The stored chunks of every document are those computed afresh from its content, in order, and there are no
      others; keys are unique. */
  ghost predicate Indexed(t: Tables, config: Config, embed: string -> Embedding)
    requires config.Valid()
  {
    && Owned(t.chunks, t.documents.Keys)
    && (forall id :: id in t.documents ==> InStep(t, config, embed, id))
    && UniqueKeys(t.documents)
  }

  // ----- One ingest -----

  predicate Keyed(request: Request) {
    request.externalId.Some? && request.externalId.value != ""
  }

  ghost predicate Taken(t: Tables, request: Request) {
    request.externalId.Some? && exists id :: id in t.documents && SameKey(t.documents[id], request)
  }

  /** The tables after `request` has been ingested as document `id`. */
  function Ingested(t: Tables, request: Request, id: int, config: Config, embed: string -> Embedding): Tables
    requires config.Valid()
  {
    Tables(t.documents[id := request], Without(t.chunks, id) + Rows(embed, id, config.Chunks(request.content)))
  }

  /** The document an ingest writes: the one with its key, else a new one. */
  ghost predicate Target(t: Tables, request: Request, id: int) {
    if id in t.documents then Keyed(request) && SameKey(t.documents[id], request) else !Taken(t, request)
  }

  lemma {:induction false} RowsOfAppend(a: seq<ChunkRow>, b: seq<ChunkRow>, id: int)
    ensures RowsOf(a + b, id) == RowsOf(a, id) + RowsOf(b, id)
  {
    if a == [] {
      assert a + b == b;
    } else {
      var first := if a[0].documentId == id then [a[0]] else [];
      assert (a + b)[1..] == a[1..] + b;
      RowsOfAppend(a[1..], b, id);
      assert first + (RowsOf(a[1..], id) + RowsOf(b, id)) == first + RowsOf(a[1..], id) + RowsOf(b, id);
    }
  }

  lemma {:induction false} RowsOfWithout(chunks: seq<ChunkRow>, gone: int, id: int)
    ensures RowsOf(Without(chunks, gone), id) == if id == gone then [] else RowsOf(chunks, id)
    ensures forall r :: r in Without(chunks, gone) ==> r in chunks
  {
    if chunks != [] {
      RowsOfWithout(chunks[1..], gone, id);
      if chunks[0].documentId != gone {
        assert ([chunks[0]] + Without(chunks[1..], gone))[1..] == Without(chunks[1..], gone);
      } else {
        assert Without(chunks, gone) == Without(chunks[1..], gone);
      }
    }
  }

  lemma {:induction false} RowsOfSame(rows: seq<ChunkRow>, owner: int, id: int)
    requires forall k :: 0 <= k < |rows| ==> rows[k].documentId == owner
    ensures RowsOf(rows, id) == if id == owner then rows else []
  {
    if rows != [] {
      RowsOfSame(rows[1..], owner, id);
      assert rows == [rows[0]] + rows[1..];
    }
  }

  /** Replacing the rows of one document by others of its own. */
  lemma RowsReplaced(chunks: seq<ChunkRow>, id: int, added: seq<ChunkRow>, d: int)
    requires forall k :: 0 <= k < |added| ==> added[k].documentId == id
    ensures RowsOf(Without(chunks, id) + added, d) == if d == id then added else RowsOf(chunks, d)
  {
    RowsOfAppend(Without(chunks, id), added, d);
    RowsOfWithout(chunks, id, d);
    RowsOfSame(added, id, d);
  }

  lemma OwnersKept(chunks: seq<ChunkRow>, id: int, added: seq<ChunkRow>, owners: set<int>)
    requires forall k :: 0 <= k < |added| ==> added[k].documentId == id
    requires Owned(chunks, owners)
    ensures Owned(Without(chunks, id) + added, owners + {id})
  {
    RowsOfWithout(chunks, id, id);
    var rows := Without(chunks, id) + added;
    forall k | 0 <= k < |rows|
      ensures rows[k].documentId in owners + {id}
    {
      if k < |Without(chunks, id)| {
        assert rows[k] in Without(chunks, id);
      }
    }
  }

  lemma IngestedInStep(t: Tables, request: Request, id: int, config: Config, embed: string -> Embedding, d: int)
    requires config.Valid() && (d != id ==> d in t.documents && InStep(t, config, embed, d))
    ensures InStep(Ingested(t, request, id, config, embed), config, embed, d)
  {
    RowsReplaced(t.chunks, id, Rows(embed, id, config.Chunks(request.content)), d);
  }

  /** An ingest keeps the index in step, for every document. */
  lemma IngestedIndexed(t: Tables, request: Request, id: int, config: Config, embed: string -> Embedding)
    requires config.Valid() && Indexed(t, config, embed) && Target(t, request, id)
    ensures Indexed(Ingested(t, request, id, config, embed), config, embed)
  {
    var t' := Ingested(t, request, id, config, embed);
    OwnersKept(t.chunks, id, Rows(embed, id, config.Chunks(request.content)), t.documents.Keys);
    assert t'.documents.Keys == t.documents.Keys + {id};
    KeysStayUnique(t, request, id);
    forall d | d in t'.documents
      ensures InStep(t', config, embed, d)
    {
      IngestedInStep(t, request, id, config, embed, d);
    }
  }

  /** What a committed ingest of `request` as document `id` does to the tables, column by column. */
  ghost predicate Written(t: Tables, request: Request, id: int, t': Tables) {
    // The document has the request's columns; it is new unless the request names an old one by a non-empty key.
    && t'.documents.Keys == t.documents.Keys + {id} && t'.documents[id] == request
    && (id in t.documents <==>
          && request.externalId.Some? && request.externalId.value != ""
          && exists d :: (
            && d in t.documents && t.documents[d].userId == request.userId
            && t.documents[d].sourceType == request.sourceType && t.documents[d].externalId == request.externalId))
    // A row with another user, type or external id stays, with its chunks; so does a row without an external id.
    && (forall d :: d in t.documents ==>
          if && t.documents[d].userId == request.userId && t.documents[d].sourceType == request.sourceType
             && t.documents[d].externalId == request.externalId && request.externalId.Some?
          then d == id
          else d != id && t'.documents[d] == t.documents[d] && RowsOf(t'.chunks, d) == RowsOf(t.chunks, d))
    // No two rows share a user, a type and an external id.
    && (forall i, j ::
          i in t'.documents && j in t'.documents && i != j && t'.documents[i].externalId.Some? ==>
            || t'.documents[i].userId != t'.documents[j].userId
            || t'.documents[i].sourceType != t'.documents[j].sourceType
            || t'.documents[i].externalId != t'.documents[j].externalId)
  }

  /** An empty external id is never looked up, so a second row with it violates the unique key. */
  ghost predicate Clashes(t: Tables, request: Request) {
    && request.externalId == Some("")
    && exists d :: (
      && d in t.documents && t.documents[d].userId == request.userId
      && t.documents[d].sourceType == request.sourceType && t.documents[d].externalId == request.externalId)
  }

  lemma ClashesIff(t: Tables, request: Request)
    ensures Clashes(t, request) <==> !Keyed(request) && Taken(t, request)
  {
  }

  lemma IngestedIsWritten(t: Tables, request: Request, id: int, config: Config, embed: string -> Embedding)
    requires config.Valid() && Indexed(t, config, embed) && Target(t, request, id)
    ensures Written(t, request, id, Ingested(t, request, id, config, embed))
  {
    var t' := Ingested(t, request, id, config, embed);
    KeysStayUnique(t, request, id);
    forall d | d in t.documents && d != id
      ensures RowsOf(t'.chunks, d) == RowsOf(t.chunks, d)
    {
      RowsReplaced(t.chunks, id, Rows(embed, id, config.Chunks(request.content)), d);
    }
  }

  ghost predicate ListedRows(chunks: seq<ChunkRow>, id: int, rows: seq<ChunkRow>, at: seq<nat>) {
    && |at| == |rows|
    && (forall k :: 0 <= k < |at| ==> at[k] < |chunks| && rows[k] == chunks[at[k]] && rows[k].documentId == id)
  }

  /** The rows are those of the document from place n on, in order. */
  ghost predicate AllRowsAt(chunks: seq<ChunkRow>, id: int, n: nat, rows: seq<ChunkRow>, at: seq<nat>) {
    && Rising(at, n)
    && ListedRows(chunks, id, rows, at)
    && (forall j :: n <= j < |chunks| && chunks[j].documentId == id ==> j in at)
  }

  lemma ListedRowsCons(chunks: seq<ChunkRow>, id: int, n: nat, rows: seq<ChunkRow>, at: seq<nat>)
    requires n < |chunks| && ListedRows(chunks, id, rows, at) && chunks[n].documentId == id
    ensures ListedRows(chunks, id, [chunks[n]] + rows, [n] + at)
  {
  }

  lemma {:induction false} RowsOfAt(chunks: seq<ChunkRow>, id: int, n: nat) returns (at: seq<nat>)
    requires n <= |chunks|
    ensures AllRowsAt(chunks, id, n, RowsOf(chunks[n..], id), at)
    decreases |chunks| - n
  {
    at := [];
    if n < |chunks| {
      at := RowsOfAt(chunks, id, n + 1);
      assert chunks[n..][0] == chunks[n] && chunks[n..][1..] == chunks[n + 1..];
      if chunks[n].documentId == id {
        RisingCons(at, n);
        ListedRowsCons(chunks, id, n, RowsOf(chunks[n + 1..], id), at);
        at := [n] + at;
      } else {
        assert [] + RowsOf(chunks[n + 1..], id) == RowsOf(chunks[n + 1..], id);
      }
    }
  }

  /** The chunk rows of a document are all rows with its id, in order. */
  lemma RowsOfExact(chunks: seq<ChunkRow>, id: int) returns (at: seq<nat>)
    ensures AllRowsAt(chunks, id, 0, RowsOf(chunks, id), at)
  {
    at := RowsOfAt(chunks, id, 0);
    assert chunks[0..] == chunks;
  }

  lemma KeysStayUnique(t: Tables, request: Request, id: int)
    requires UniqueKeys(t.documents) && Target(t, request, id)
    ensures UniqueKeys(t.documents[id := request])
  {
  }

  // ----- Histories of ingests -----

  /** One attempt to ingest: committed as some document, or rolled back. */
  datatype Attempt = Attempt(request: Request, committedAs: Option<int>)

  const EMPTY := Tables(map[], [])

  ghost function Replay(log: seq<Attempt>, config: Config, embed: string -> Embedding): Tables
    requires config.Valid()
  {
    if log == [] then EMPTY
    else
      var last := log[|log| - 1];
      var before := Replay(log[..|log| - 1], config, embed);
      if last.committedAs.Some? then Ingested(before, last.request, last.committedAs.value, config, embed) else before
  }

  /** Every committed attempt wrote the document it should. */
  ghost predicate Lawful(log: seq<Attempt>, config: Config, embed: string -> Embedding)
    requires config.Valid()
  {
    log == [] ||
    var last := log[|log| - 1];
    && Lawful(log[..|log| - 1], config, embed)
    && (last.committedAs.Some? ==>
          Target(Replay(log[..|log| - 1], config, embed), last.request, last.committedAs.value))
  }

  /** The index is in step after every history of new documents, updates, blank contents and rolled-back failures. */
  lemma {:induction false} ReplayIndexed(log: seq<Attempt>, config: Config, embed: string -> Embedding)
    requires config.Valid() && Lawful(log, config, embed)
    ensures Indexed(Replay(log, config, embed), config, embed)
  {
    if log != [] {
      var before, last := log[..|log| - 1], log[|log| - 1];
      ReplayIndexed(before, config, embed);
      if last.committedAs.Some? {
        IngestedIndexed(Replay(before, config, embed), last.request, last.committedAs.value, config, embed);
      }
    }
  }

  lemma ReplayNext(log: seq<Attempt>, last: Attempt, config: Config, embed: string -> Embedding)
    requires config.Valid() && Lawful(log, config, embed)
    requires last.committedAs.Some? ==> Target(Replay(log, config, embed), last.request, last.committedAs.value)
    ensures Lawful(log + [last], config, embed)
    ensures Replay(log + [last], config, embed) ==
            var before := Replay(log, config, embed);
            if last.committedAs.Some?
            then Ingested(before, last.request, last.committedAs.value, config, embed)
            else before
  {
    assert (log + [last])[..|log + [last]| - 1] == log;
  }

  /** A document holds what its last committed ingest wrote. */
  lemma {:induction false} LastIngestWins(log: seq<Attempt>, config: Config, embed: string -> Embedding, k: nat)
    requires config.Valid() && Lawful(log, config, embed)
    requires k < |log| && log[k].committedAs.Some?
    requires forall m :: k < m < |log| ==> log[m].committedAs != log[k].committedAs
    ensures var t, id := Replay(log, config, embed), log[k].committedAs.value;
            && id in t.documents && t.documents[id] == log[k].request
            && RowsOf(t.chunks, id) == Rows(embed, id, config.Chunks(log[k].request.content))
  {
    ReplayIndexed(log, config, embed);
    if k < |log| - 1 {
      LastIngestWins(log[..|log| - 1], config, embed, k);
    }
  }

  lemma {:induction false} WithoutAbsent(chunks: seq<ChunkRow>, id: int)
    requires forall k :: 0 <= k < |chunks| ==> chunks[k].documentId != id
    ensures Without(chunks, id) == chunks
  {
    if chunks != [] {
      WithoutAbsent(chunks[1..], id);
    }
  }

  // ----- The service -----

  /** A database with one session: `working` is what the open transaction sees. Row ids are not rolled back. */
  class Database {
    var committed: Tables
    var working: Tables
    var nextId: int

    constructor ()
      ensures committed == working == EMPTY && nextId == 1
    {
      committed, working, nextId := EMPTY, EMPTY, 1;
    }

    method Begin()
      modifies this`working
      ensures working == committed
    {
      working := committed;
    }

    method Commit()
      modifies this`committed
      ensures committed == working
    {
      committed := working;
    }

    method Rollback()
      modifies this`working
      ensures working == committed
    {
      working := committed;
    }

    /** `scalar_one_or_none`: raises when several rows match. */
    method FindByExternalId(request: Request) returns (r: Result<Option<int>, string>)
      requires request.externalId.Some? && UniqueKeys(working.documents)
      ensures r.Ok?
      ensures r.value.Some? ==> r.value.value in working.documents && SameKey(working.documents[r.value.value], request)
      ensures r.value.None? <==> !Taken(working, request)
    {
      var rows := working.documents;
      if !exists id :: id in rows && SameKey(rows[id], request) {
        return Ok(None);
      }
      var id :| id in rows && SameKey(rows[id], request);
      if exists other :: other in rows && SameKey(rows[other], request) && other != id {
        return Err("multiple rows");
      }
      r := Ok(Some(id));
    }

    /** Fails on a duplicate key. */
    method Create(request: Request) returns (r: Result<int, string>)
      requires forall id :: id in working.documents ==> id < nextId
      modifies this`working, this`nextId
      ensures nextId == old(nextId) + 1
      ensures r.Ok? <==> !Taken(old(working), request)
      ensures r.Ok? ==>
                && r.value == old(nextId)
                && working == old(working).(documents := old(working).documents[r.value := request])
      ensures r.Err? ==> working == old(working)
    {
      var id := nextId;
      nextId := nextId + 1;
      if request.externalId.Some? && exists d :: d in working.documents && SameKey(working.documents[d], request) {
        return Err("unique constraint");
      }
      working := working.(documents := working.documents[id := request]);
      r := Ok(id);
    }
  }

  ghost predicate Below(documents: map<int, Document>, nextId: int) {
    forall id :: id in documents ==> id < nextId
  }

  class DocumentService {
    const config: Config
    const db: Database
    const cache: EmbeddingCache
    ghost const embed: string -> Embedding
    ghost var log: seq<Attempt>

    ghost predicate Valid()
      reads this, db, cache
    {
      && config.Valid()
      && Injective(cache.hash) && cache.Faithful(embed)
      && Recorded()
    }

    /** The committed tables are those of the attempts so far. */
    ghost predicate Recorded()
      requires config.Valid()
      reads this, db
    {
      && Lawful(log, config, embed)
      && db.committed == Replay(log, config, embed)
      && Below(db.committed.documents, db.nextId)
    }

    constructor (config: Config, db: Database, cache: EmbeddingCache, ghost embed: string -> Embedding)
      requires config.Valid() && Injective(cache.hash) && cache.Faithful(embed) && db.committed == EMPTY
      ensures Valid() && this.db == db && this.cache == cache && this.config == config && log == []
    {
      this.config, this.db, this.cache, this.embed := config, db, cache, embed;
      log := [];
    }

    lemma KeysUnique()
      requires Valid()
      ensures UniqueKeys(db.committed.documents)
    {
      ReplayIndexed(log, config, embed);
    }

    /** Upsert: an existing row is overwritten and its chunks deleted, else a row is added. */
    method UpsertDocument(request: Request) returns (r: Result<int, string>)
      requires UniqueKeys(db.working.documents)
      requires forall id :: id in db.working.documents ==> id < db.nextId
      requires forall k :: 0 <= k < |db.working.chunks| ==> db.working.chunks[k].documentId in db.working.documents
      modifies db`working, db`nextId
      ensures db.nextId >= old(db.nextId)
      ensures r.Err? ==> !Keyed(request) && Taken(old(db.working), request)
      ensures r.Ok? ==>
                && Target(old(db.working), request, r.value) && r.value < db.nextId
                && db.working.documents == old(db.working).documents[r.value := request]
                && db.working.chunks == Without(old(db.working).chunks, r.value)
    {
      if Keyed(request) {
        var found := db.FindByExternalId(request);
        if found.value.Some? {
          var id := found.value.value;
          db.working := Tables(db.working.documents[id := request], Without(db.working.chunks, id));
          return Ok(id);
        }
      }
      WithoutAbsent(db.working.chunks, db.nextId);
      r := db.Create(request);
    }

    method IngestAndChunk(request: Request, embed: string -> Embedding, fault: Fault)
      returns (r: Result<(int, nat), string>)
      requires Valid() && this.embed == embed && db.working == db.committed
      modifies db`working, db`nextId, cache
      ensures cache.Faithful(embed) && db.nextId >= old(db.nextId)
      ensures !Keyed(request) && Taken(old(db.working), request) ==> r.Err?
      ensures r.Err? ==>
                || (!Keyed(request) && Taken(old(db.working), request))
                || (HitsEmbedding(fault) && config.Chunks(request.content) != [])
      ensures r.Ok? ==>
                var (id, count) := r.value;
                && Target(old(db.working), request, id) && id < db.nextId
                && db.working == Ingested(old(db.working), request, id, config, embed)
                && count == |config.Chunks(request.content)|
    {
      ReplayIndexed(log, config, embed);
      var upserted := UpsertDocument(request);
      if upserted.Err? {
        return Err(upserted.error);
      }
      r := ChunkAndStore(upserted.value, request.content, embed, fault);
    }

    /** A content without chunks, that is a blank one, costs no embedding. */
    method ChunkAndStore(id: int, content: string, embed: string -> Embedding, fault: Fault)
      returns (r: Result<(int, nat), string>)
      requires config.Valid() && Injective(cache.hash) && cache.Faithful(embed)
      modifies db`working, cache
      ensures cache.Faithful(embed)
      ensures r.Err? ==> HitsEmbedding(fault) && config.Chunks(content) != []
      ensures r.Ok? ==>
                && r.value == (id, |config.Chunks(content)|)
                && db.working == old(db.working).(
                                   chunks := old(db.working).chunks + Rows(embed, id, config.Chunks(content)))
    {
      var chunker := new TextChunker(config);
      var textChunks := chunker.Chunk(content);
      if textChunks == [] {
        assert db.working.chunks + [] == db.working.chunks;
        return Ok((id, 0));
      }
      r := StoreChunks(id, textChunks, embed, fault);
    }

    /** The embeddings of the chunks, and their rows. */
    method StoreChunks(id: int, textChunks: seq<TextChunk>, embed: string -> Embedding, fault: Fault)
      returns (r: Result<(int, nat), string>)
      requires Injective(cache.hash) && cache.Faithful(embed)
      modifies db`working, cache
      ensures cache.Faithful(embed)
      ensures r.Err? ==> HitsEmbedding(fault) && db.working == old(db.working)
      ensures r.Ok? ==>
                && r.value == (id, |textChunks|)
                && db.working == old(db.working).(chunks := old(db.working).chunks + Rows(embed, id, textChunks))
    {
      var texts := seq(|textChunks|, i requires 0 <= i < |textChunks| => textChunks[i].content);
      var embedded := cache.EmbedWithCache(texts, embed, fault);
      if embedded.Err? {
        return Err(embedded.error);
      }
      var rows := ZipRows(id, textChunks, embedded.value, embed);
      db.working := db.working.(chunks := db.working.chunks + rows);
      r := Ok((id, |rows|));
    }

    /** `session_scope` around one ingest: all of it is committed, or nothing. */
    method Ingest(request: Request, embed: string -> Embedding, fault: Fault) returns (r: Result<(int, nat), string>)
      requires Valid() && this.embed == embed
      modifies this`log, db, cache
      ensures Valid() && Indexed(db.committed, config, embed)
      ensures db.working == db.committed
      ensures r.Err? && fault != CommitReplyLost ==> db.committed == old(db.committed)
      ensures r.Ok? ==>
                && Target(old(db.committed), request, r.value.0)
                && db.committed == Ingested(old(db.committed), request, r.value.0, config, embed)
                && Written(old(db.committed), request, r.value.0, db.committed)
                && r.value.1 == |config.Chunks(request.content)|
      ensures Clashes(old(db.committed), request) || fault == CommitFails || fault == CommitReplyLost ==> r.Err?
      ensures r.Err? ==>
                || Clashes(old(db.committed), request) || fault == CommitFails || fault == CommitReplyLost
                || (HitsEmbedding(fault) && config.Chunks(request.content) != [])
      ensures fault == CommitReplyLost && !Clashes(old(db.committed), request) ==>
                exists id :: Written(old(db.committed), request, id, db.committed)
    {
      ClashesIff(db.committed, request);
      db.Begin();
      var result := IngestAndChunk(request, embed, fault);
      r := EndSession(request, result, fault);
      ReplayIndexed(log, config, embed);
    }

    /** The end of the session: commit, or roll back after an exception. A commit may fail, or take effect and raise. */
    method EndSession(request: Request, result: Result<(int, nat), string>, fault: Fault)
      returns (r: Result<(int, nat), string>)
      requires config.Valid() && Recorded()
      requires result.Ok? ==>
                 && Target(db.committed, request, result.value.0)
                 && db.working == Ingested(db.committed, request, result.value.0, config, embed)
                 && Below(db.working.documents, db.nextId)
      modifies this`log, db`committed, db`working
      ensures Recorded() && db.working == db.committed
      ensures r.Ok? <==> result.Ok? && fault != CommitFails && fault != CommitReplyLost
      ensures r.Ok? ==> r == result
      ensures if result.Ok? && fault != CommitFails then
                && db.committed == old(db.working)
                && Written(old(db.committed), request, result.value.0, db.committed)
              else db.committed == old(db.committed)
    {
      r := result;
      if result.Ok? && fault != CommitFails {
        Close(request, result.value.0);
        if fault == CommitReplyLost {
          r := Err("commit");
        }
      } else {
        GiveUp(request);
        r := Err(if result.Err? then result.error else "commit");
      }
      if r.Err? {
        db.Rollback();
      }
    }

    /** The commit takes effect. */
    method Close(request: Request, id: int)
      requires config.Valid() && Recorded() && Target(db.committed, request, id)
      requires db.working == Ingested(db.committed, request, id, config, embed)
      requires Below(db.working.documents, db.nextId)
      modifies this`log, db`committed
      ensures Recorded() && db.committed == db.working
      ensures Written(old(db.committed), request, id, db.committed)
    {
      ReplayIndexed(log, config, embed);
      IngestedIsWritten(db.committed, request, id, config, embed);
      db.Commit();
      ReplayNext(log, Attempt(request, Some(id)), config, embed);
      log := log + [Attempt(request, Some(id))];
    }

    /** The attempt is rolled back. */
    ghost method GiveUp(request: Request)
      requires config.Valid() && Recorded()
      modifies this`log
      ensures Recorded()
    {
      ReplayNext(log, Attempt(request, None), config, embed);
      log := log + [Attempt(request, None)];
    }
  }

  /** `zip(..., strict=True)` of chunks and embeddings. */
  method ZipRows(id: int, chunks: seq<TextChunk>, embeddings: seq<Embedding>, ghost embed: string -> Embedding)
    returns (rows: seq<ChunkRow>)
    requires |chunks| == |embeddings| && forall i :: 0 <= i < |chunks| ==> embeddings[i] == embed(chunks[i].content)
    ensures rows == Rows(embed, id, chunks)
  {
    rows := [];
    for i := 0 to |chunks|
      invariant |rows| == i && forall k :: 0 <= k < i ==> rows[k] == Rows(embed, id, chunks)[k]
    {
      var tc := chunks[i];
      rows := rows + [ChunkRow(id, tc.index, tc.content, tc.tokenCount, embeddings[i])];
    }
  }
}
