/** The service that joins the posts of a batch into one snapshot document, at most once. */
module BlogSnapshot {
  import opened Wrappers
  import opened Paragraphs
  import opened EmbeddingCache
  import opened DocumentIndex

  const MAX_CONTENT_PER_POST := 3000
  const POST_SEPARATOR := "\n\n---\n\n"
  const SNAPSHOT_TYPE := "blog_snapshot"

  function Decimal(n: int): string
    decreases if n < 0 then 1 - n else n
  {
    if n < 0 then "-" + Decimal(-n)
    else if n < 10 then [('0' as int + n) as char]
    else Decimal(n / 10) + [('0' as int + n % 10) as char]
  }

  function ExternalId(batchId: string): string {
    "blog_snapshot:" + batchId
  }

  /** The request the snapshot row answers to. */
  predicate IsSnapshot(d: Document, userId: int, batchId: string) {
    d.userId == userId && d.sourceType == SNAPSHOT_TYPE && d.externalId == Some(ExternalId(batchId))
  }

  function Part(post: Document): string {
    "## " + post.title + "\n\n"
    + if |post.content| <= MAX_CONTENT_PER_POST then post.content else post.content[..MAX_CONTENT_PER_POST]
  }

  function JoinParts(posts: seq<Document>): string {
    if posts == [] then ""
    else if |posts| == 1 then Part(posts[0])
    else Part(posts[0]) + POST_SEPARATOR + JoinParts(posts[1..])
  }

  /** The posts that exist, in the order of their ids. */
  function Found(documents: map<int, Document>, ids: seq<int>): seq<Document> {
    if ids == [] then []
    else
      var before := Found(documents, ids[..|ids| - 1]);
      var last := ids[|ids| - 1];
      if last in documents then before + [documents[last]] else before
  }

  /** `at` lists the places of the ids that have a row, in order, and `posts` their rows. */
  ghost predicate RowsAt(documents: map<int, Document>, ids: seq<int>, posts: seq<Document>, at: seq<nat>) {
    && |posts| == |at|
    && (forall k :: 0 <= k < |at| ==> at[k] < |ids| && ids[at[k]] in documents && posts[k] == documents[ids[at[k]]])
    && (forall k, m :: 0 <= k < m < |at| ==> at[k] < at[m])
    && (forall i :: 0 <= i < |ids| && ids[i] in documents ==> i in at)
  }

  lemma NextRow(documents: map<int, Document>, ids: seq<int>, posts: seq<Document>, at: seq<nat>, id: int)
    requires RowsAt(documents, ids, posts, at)
    ensures id in documents ==> RowsAt(documents, ids + [id], posts + [documents[id]], at + [|ids|])
    ensures id !in documents ==> RowsAt(documents, ids + [id], posts, at)
  {
    if id in documents {
      assert (at + [|ids|])[|at|] == |ids|;
      assert forall i :: i in at ==> i in at + [|ids|];
    }
  }

  /** What is found are the rows of exactly those ids that have one, in the order of the ids. */
  lemma {:induction false} FoundInOrder(documents: map<int, Document>, ids: seq<int>) returns (at: seq<nat>)
    ensures RowsAt(documents, ids, Found(documents, ids), at)
    ensures forall p :: p in Found(documents, ids) <==> exists id :: id in ids && id in documents && documents[id] == p
    decreases |ids|
  {
    at := [];
    if ids != [] {
      var init, last := ids[..|ids| - 1], ids[|ids| - 1];
      assert ids == init + [last];
      at := FoundInOrder(documents, init);
      NextRow(documents, init, Found(documents, init), at, last);
      at := at + if last in documents then [|init|] else [];
    }
  }

  function IdTexts(ids: seq<int>): seq<string> {
    seq(|ids|, i requires 0 <= i < |ids| => Decimal(ids[i]))
  }

  function SnapshotMetadata(blogId: Option<int>, batchId: string, ids: seq<int>, correlationId: Option<string>,
                            count: nat): map<string, Json> {
    var metadata := map["batch_id" := Text(batchId), "post_count" := Number(count),
                        "source_document_ids" := Texts(IdTexts(ids))];
    var metadata := if blogId.Some? then metadata["blog_id" := Text(Decimal(blogId.value))] else metadata;
    if correlationId.Some? then metadata["correlation_id" := Text(correlationId.value)] else metadata
  }

  function SnapshotRequest(userId: int, blogId: Option<int>, batchId: string, ids: seq<int>,
                           correlationId: Option<string>, posts: seq<Document>): Request {
    var metadata := SnapshotMetadata(blogId, batchId, ids, correlationId, |posts|);
    Request(userId, SNAPSHOT_TYPE, Some(ExternalId(batchId)),
            "블로그 전체 분석 스냅샷 (" + Decimal(|posts|) + "개 포스트)", JoinParts(posts), None, metadata,
            None, None, "completed")
  }

  /** The row joins one part for each post, in order: its title and the first 3000 characters of its content. */
  ghost predicate Aggregates(row: Document, posts: seq<Document>) {
    exists parts: seq<string> ::
      && |parts| == |posts|
      && (forall k :: 0 <= k < |posts| ==>
            var content := posts[k].content;
            parts[k] == "## " + posts[k].title + "\n\n" + if |content| <= 3000 then content else content[..3000])
      && row.content == Joined("\n\n---\n\n", parts)
  }

  function Parts(posts: seq<Document>): (r: seq<string>)
    ensures |r| == |posts| && forall k :: 0 <= k < |posts| ==> r[k] == Part(posts[k])
  {
    if posts == [] then [] else [Part(posts[0])] + Parts(posts[1..])
  }

  lemma {:induction false} JoinPartsIsJoined(posts: seq<Document>)
    ensures JoinParts(posts) == Joined("\n\n---\n\n", Parts(posts))
  {
    if |posts| > 1 {
      JoinPartsIsJoined(posts[1..]);
      assert Parts(posts)[1..] == Parts(posts[1..]);
    }
  }

  ghost predicate HasTitle(title: string, count: nat) {
    exists numeral ::
      DecimalValue(numeral) == count && title == "블로그 전체 분석 스냅샷 (" + numeral + "개 포스트)"
  }

  /** The row of a snapshot, column by column. */
  ghost predicate IsSnapshotOf(row: Document, userId: int, blogId: Option<int>, batchId: string, ids: seq<int>,
                               correlationId: Option<string>, posts: seq<Document>) {
    && row.userId == userId && row.sourceType == "blog_snapshot" && row.externalId == Some("blog_snapshot:" + batchId)
    && HasTitle(row.title, |posts|) && Aggregates(row, posts)
    && row.url == None && row.contentHash == None && row.crawledAt == None && row.ingestionStatus == "completed"
    && Describes(row.metadata, blogId, batchId, ids, correlationId, |posts|)
  }

  ghost predicate Describes(metadata: map<string, Json>, blogId: Option<int>, batchId: string, ids: seq<int>,
                            correlationId: Option<string>, count: nat) {
    && "batch_id" in metadata && metadata["batch_id"] == Text(batchId)
    && "post_count" in metadata && metadata["post_count"] == Number(count)
    && "source_document_ids" in metadata && metadata["source_document_ids"].Texts?
    && AreNumerals(metadata["source_document_ids"].texts, ids)
    && (correlationId.Some? ==>
          "correlation_id" in metadata && metadata["correlation_id"] == Text(correlationId.value))
    && (blogId.Some? ==>
          "blog_id" in metadata && metadata["blog_id"].Text? && DecimalValue(metadata["blog_id"].text) == blogId.value)
  }

  ghost predicate AreNumerals(texts: seq<string>, numbers: seq<int>) {
    |texts| == |numbers| && forall i :: 0 <= i < |numbers| ==> DecimalValue(texts[i]) == numbers[i]
  }

  /** The number a decimal numeral stands for. */
  function DecimalValue(s: string): int {
    if s == "" then 0
    else if s[0] == '-' then -DecimalValue(s[1..])
    else 10 * DecimalValue(s[..|s| - 1]) + s[|s| - 1] as int - '0' as int
  }

  lemma {:induction false} DecimalRoundTrip(n: int)
    ensures DecimalValue(Decimal(n)) == n
    ensures Decimal(n) != "" && (Decimal(n)[0] == '-' <==> n < 0)
    decreases if n < 0 then 1 - n else n
  {
    if n < 0 {
      DecimalRoundTrip(-n);
      assert Decimal(n)[1..] == Decimal(-n);
    } else if n >= 10 {
      DecimalRoundTrip(n / 10);
      assert Decimal(n)[..|Decimal(n)| - 1] == Decimal(n / 10);
    } else {
      assert Decimal(n)[..0] == "";
    }
  }

  lemma MetadataDescribes(blogId: Option<int>, batchId: string, ids: seq<int>, correlationId: Option<string>,
                          count: nat)
    ensures Describes(SnapshotMetadata(blogId, batchId, ids, correlationId, count),
                      blogId, batchId, ids, correlationId, count)
  {
    forall i | 0 <= i < |ids|
      ensures DecimalValue(IdTexts(ids)[i]) == ids[i]
    {
      DecimalRoundTrip(ids[i]);
    }
    if blogId.Some? {
      DecimalRoundTrip(blogId.value);
    }
    assert "batch_id"[0] == 'b' && "blog_id"[1] == 'l' && "batch_id"[1] == 'a' && "correlation_id"[0] == 'c';
  }

  lemma SnapshotRequestIsSnapshot(userId: int, blogId: Option<int>, batchId: string, ids: seq<int>,
                                  correlationId: Option<string>, posts: seq<Document>)
    ensures IsSnapshotOf(SnapshotRequest(userId, blogId, batchId, ids, correlationId, posts),
                         userId, blogId, batchId, ids, correlationId, posts)
  {
    JoinPartsIsJoined(posts);
    MetadataDescribes(blogId, batchId, ids, correlationId, |posts|);
    var row := SnapshotRequest(userId, blogId, batchId, ids, correlationId, posts);
    assert row.content == Joined("\n\n---\n\n", Parts(posts));
    DecimalRoundTrip(|posts|);
  }

  /** Every post of the batch appears in the snapshot, under its title. */
  lemma {:induction false} PostIsPart(posts: seq<Document>, k: nat)
    requires k < |posts|
    ensures exists before, after :: JoinParts(posts) == before + Part(posts[k]) + after
  {
    if |posts| == 1 {
      assert JoinParts(posts) == "" + Part(posts[k]) + "";
    } else if k == 0 {
      var after := POST_SEPARATOR + JoinParts(posts[1..]);
      assert JoinParts(posts) == "" + Part(posts[0]) + after;
    } else {
      PostIsPart(posts[1..], k - 1);
      var before, after :| JoinParts(posts[1..]) == before + Part(posts[k]) + after;
      var before' := Part(posts[0]) + POST_SEPARATOR + before;
      assert JoinParts(posts) == before' + Part(posts[k]) + after;
    }
  }

  ghost predicate HasSnapshot(t: Tables, userId: int, batchId: string) {
    exists id :: id in t.documents && IsSnapshot(t.documents[id], userId, batchId)
  }

  class BlogSnapshotService {
    const service: DocumentService

    constructor (service: DocumentService)
      ensures this.service == service
    {
      this.service := service;
    }

    method FindExistingSnapshot(userId: int, batchId: string) returns (r: Option<int>)
      requires UniqueKeys(service.db.committed.documents)
      ensures r.Some? <==> HasSnapshot(service.db.committed, userId, batchId)
      ensures r.Some? ==> forall id :: id in service.db.committed.documents ==>
                            (IsSnapshot(service.db.committed.documents[id], userId, batchId) <==> id == r.value)
    {
      var rows := service.db.committed.documents;
      if !exists id :: id in rows && IsSnapshot(rows[id], userId, batchId) {
        return None;
      }
      var id :| id in rows && IsSnapshot(rows[id], userId, batchId);
      assert forall other :: other in rows && IsSnapshot(rows[other], userId, batchId) ==>
                               SameKey(rows[id], rows[other]);
      r := Some(id);
    }

    /** The rows of exactly those ids that have one, in the order of the ids. */
    method CollectPosts(ids: seq<int>) returns (posts: seq<Document>, ghost at: seq<nat>)
      ensures RowsAt(service.db.committed.documents, ids, posts, at)
      ensures posts == Found(service.db.committed.documents, ids)
    {
      posts, at := [], [];
      for i := 0 to |ids|
        invariant RowsAt(service.db.committed.documents, ids[..i], posts, at)
        invariant posts == Found(service.db.committed.documents, ids[..i])
      {
        assert ids[..i + 1] == ids[..i] + [ids[i]];
        NextRow(service.db.committed.documents, ids[..i], posts, at, ids[i]);
        if ids[i] in service.db.committed.documents {
          posts := posts + [service.db.committed.documents[ids[i]]];
          at := at + [i];
        }
      }
      assert ids[..|ids|] == ids;
    }

    /** Reuses an existing snapshot untouched, whatever its posts have become; else builds it from the posts that exist,
        and raises when there are none. So a second call returns the same document and changes nothing. */
    method CreateSnapshot(userId: int, blogId: Option<int>, batchId: string, ids: seq<int>,
                          correlationId: Option<string>, embed: string -> Embedding, fault: Fault)
      returns (r: Result<(int, seq<int>), string>)
      requires service.Valid() && service.embed == embed
      modifies service`log, service.db, service.cache
      ensures service.Valid()
      ensures r.Ok? ==> r.value.1 == ids && HasSnapshot(service.db.committed, userId, batchId)
      ensures r.Ok? ==> r.value.0 in service.db.committed.documents
                        && IsSnapshot(service.db.committed.documents[r.value.0], userId, batchId)
      ensures old(HasSnapshot(service.db.committed, userId, batchId)) ==>
                r.Ok? && service.db.committed == old(service.db.committed)
      ensures r.Ok? && !old(HasSnapshot(service.db.committed, userId, batchId)) ==>
                var posts := Found(old(service.db.committed.documents), ids);
                && posts != []
                && r.value.0 in service.db.committed.documents
                && IsSnapshotOf(service.db.committed.documents[r.value.0],
                                userId, blogId, batchId, ids, correlationId, posts)
                && service.db.committed == Ingested(old(service.db.committed),
                                                    SnapshotRequest(userId, blogId, batchId, ids, correlationId, posts),
                                                    r.value.0, service.config, embed)
      ensures r.Err? && fault != CommitReplyLost ==> service.db.committed == old(service.db.committed)
    {
      service.KeysUnique();
      var existing := FindExistingSnapshot(userId, batchId);
      if existing.Some? {
        return Ok((existing.value, ids));
      }
      var posts, _ := CollectPosts(ids);
      if posts == [] {
        return Err("no source documents found");
      }
      var request := SnapshotRequest(userId, blogId, batchId, ids, correlationId, posts);
      SnapshotRequestIsSnapshot(userId, blogId, batchId, ids, correlationId, posts);
      r := IngestSnapshot(request, userId, batchId, ids, embed, fault);
    }

    method IngestSnapshot(request: Request, ghost userId: int, ghost batchId: string, ids: seq<int>,
                          embed: string -> Embedding, fault: Fault)
      returns (r: Result<(int, seq<int>), string>)
      requires service.Valid() && service.embed == embed && IsSnapshot(request, userId, batchId)
      modifies service`log, service.db, service.cache
      ensures service.Valid()
      ensures r.Ok? ==> r.value.1 == ids && HasSnapshot(service.db.committed, userId, batchId)
      ensures r.Ok? ==> r.value.0 in service.db.committed.documents
                        && IsSnapshot(service.db.committed.documents[r.value.0], userId, batchId)
      ensures r.Ok? ==>
                service.db.committed == Ingested(old(service.db.committed), request, r.value.0, service.config, embed)
      ensures r.Err? && fault != CommitReplyLost ==> service.db.committed == old(service.db.committed)
    {
      var response := service.Ingest(request, embed, fault);
      if response.Err? {
        return Err(response.error);
      }
      assert service.db.committed.documents[response.value.0] == request;
      r := Ok((response.value.0, ids));
    }
  }
}
