/** The retrieval query: join chunks with their documents, keep the best chunk of each document, order by score, cut
    off at k. SQL leaves the order of ties open, so a query has a set of answers; what is proved holds of all of
    them. */
module Retrieval {
  import opened Wrappers

  const PREVIEW := 300

  datatype SourceType = MyBlog | ExtBlog | JobPosting | BlogSnapshot

  datatype Document = Document(id: int, userId: int, sourceType: SourceType, title: string)

  /** `distance`: from the embedding of the chunk to that of the query. */
  datatype Chunk = Chunk(documentId: int, content: string, distance: real)

  /** The three queries. */
  datatype Query = OwnPosts(userId: int, exclude: int) | InfluencerPosts | JobPostings

  predicate Matches(d: Document, q: Query) {
    match q
    case OwnPosts(userId, exclude) => d.userId == userId && d.sourceType.MyBlog? && d.id != exclude
    case InfluencerPosts => d.sourceType.ExtBlog?
    case JobPostings => d.sourceType.JobPosting?
  }

  datatype Row = Row(documentId: int, title: string, preview: string, sourceType: SourceType, score: real)

  function Left(s: string, n: nat): string {
    if |s| <= n then s else s[..n]
  }

  function JoinedRow(c: Chunk, d: Document): Row {
    Row(d.id, d.title, Left(c.content, PREVIEW), d.sourceType, 1.0 - c.distance)
  }

  function FindDocument(docs: seq<Document>, id: int): (r: Option<Document>)
    ensures r.Some? ==> r.value in docs && r.value.id == id
    ensures r.None? ==> forall d :: d in docs ==> d.id != id
  {
    if docs == [] then None else if docs[0].id == id then Some(docs[0]) else FindDocument(docs[1..], id)
  }

  /** The rows of the query before DISTINCT ON. */
  function Join(docs: seq<Document>, chunks: seq<Chunk>, q: Query): seq<Row> {
    if chunks == [] then []
    else
      var d := FindDocument(docs, chunks[0].documentId);
      (if d.Some? && Matches(d.value, q) then [JoinedRow(chunks[0], d.value)] else []) + Join(docs, chunks[1..], q)
  }

  lemma {:induction false} JoinExact(docs: seq<Document>, chunks: seq<Chunk>, q: Query, row: Row)
    requires forall d, e :: d in docs && e in docs && d.id == e.id ==> d == e
    ensures row in Join(docs, chunks, q) <==>
      exists c, d ::
        && c in chunks && d in docs && c.documentId == d.id
        && (q.OwnPosts? ==> d.sourceType == MyBlog && d.userId == q.userId && d.id != q.exclude)
        && (q.InfluencerPosts? ==> d.sourceType == ExtBlog)
        && (q.JobPostings? ==> d.sourceType == JobPosting)
        && row.documentId == d.id && row.title == d.title && row.sourceType == d.sourceType
        && row.preview == (if |c.content| <= 300 then c.content else c.content[..300])
        && row.score == 1.0 - c.distance
  {
    if chunks != [] {
      JoinExact(docs, chunks[1..], q, row);
      assert forall c :: c in chunks <==> c == chunks[0] || c in chunks[1..];
    }
  }

  // ----- The answers of the query -----

  predicate ByScore(rows: seq<Row>) {
    forall i, j :: 0 <= i < j < |rows| ==> rows[i].score >= rows[j].score
  }

  predicate ByDocument(rows: seq<Row>) {
    forall i, j :: 0 <= i < j < |rows| ==>
      rows[i].documentId < rows[j].documentId
      || (rows[i].documentId == rows[j].documentId && rows[i].score >= rows[j].score)
  }

  /** DISTINCT ON: the first row of every group. */
  function DistinctOn(rows: seq<Row>): seq<Row> {
    if rows == [] then []
    else
      var n := |rows| - 1;
      if n > 0 && rows[n - 1].documentId == rows[n].documentId then DistinctOn(rows[..n])
      else DistinctOn(rows[..n]) + [rows[n]]
  }

  function Limit(rows: seq<Row>, k: nat): seq<Row> {
    if |rows| <= k then rows else rows[..k]
  }

  predicate Permuted(a: seq<Row>, b: seq<Row>) {
    multiset(a) == multiset(b)
  }

  ghost predicate AnswerVia(rows: seq<Row>, k: nat, answer: seq<Row>, grouped: seq<Row>, ranked: seq<Row>) {
    && Permuted(grouped, rows) && ByDocument(grouped)
    && Permuted(ranked, DistinctOn(grouped)) && ByScore(ranked)
    && answer == Limit(ranked, k)
  }

  /** SQL may return this answer. */
  ghost predicate Answer(rows: seq<Row>, k: nat, answer: seq<Row>) {
    exists grouped, ranked :: AnswerVia(rows, k, answer, grouped, ranked)
  }

  // ----- What every answer is -----

  predicate OncePerDocument(rows: seq<Row>) {
    forall i, j :: 0 <= i < j < |rows| ==> rows[i].documentId != rows[j].documentId
  }

  predicate Has(rows: seq<Row>, documentId: int) {
    exists i :: 0 <= i < |rows| && rows[i].documentId == documentId
  }

  predicate BestOfDocument(rows: seq<Row>, row: Row) {
    row in rows && forall r :: r in rows && r.documentId == row.documentId ==> r.score <= row.score
  }

  /** A left-out document means the answer is full, and no chunk of the document scores higher than any row of it. */
  predicate LeftOut(answer: seq<Row>, k: nat, row: Row) {
    |answer| == k && forall r :: r in answer ==> r.score >= row.score
  }

  /** The k best documents, each with its best row, in descending score. */
  predicate TopDocuments(rows: seq<Row>, k: nat, answer: seq<Row>) {
    && |answer| <= k && OncePerDocument(answer) && ByScore(answer)
    && (forall row :: row in answer ==> BestOfDocument(rows, row))
    && (forall row :: row in rows && !Has(answer, row.documentId) ==> LeftOut(answer, k, row))
  }

  /** One best row for every document. */
  predicate BestRows(rows: seq<Row>, best: seq<Row>) {
    && OncePerDocument(best)
    && (forall row :: row in best ==> BestOfDocument(rows, row))
    && (forall row :: row in rows ==> Has(best, row.documentId))
  }

  /** A row of a document already seen, no better than the row before it. */
  lemma SameGroup(rows: seq<Row>, best: seq<Row>, previous: Row, last: Row)
    requires BestRows(rows, best) && previous in rows
    requires previous.documentId == last.documentId && previous.score >= last.score
    ensures BestRows(rows + [last], best)
  {
    forall row | row in best
      ensures BestOfDocument(rows + [last], row)
    {
      assert BestOfDocument(rows, row);
    }
    assert Has(best, previous.documentId);
  }

  /** The first row of a new document. */
  lemma NewGroup(rows: seq<Row>, best: seq<Row>, last: Row)
    requires BestRows(rows, best)
    requires forall row :: row in rows ==> row.documentId != last.documentId
    ensures BestRows(rows + [last], best + [last])
  {
    forall row | row in rows + [last]
      ensures Has(best + [last], row.documentId)
    {
      if row in rows {
        var i :| 0 <= i < |best| && best[i].documentId == row.documentId;
        assert (best + [last])[i] == best[i];
      } else {
        assert (best + [last])[|best|] == row;
      }
    }
    forall row | row in best
      ensures BestOfDocument(rows + [last], row) && row.documentId != last.documentId
    {
      assert BestOfDocument(rows, row);
    }
  }

  lemma {:induction false} DistinctOnBest(rows: seq<Row>)
    requires ByDocument(rows)
    ensures BestRows(rows, DistinctOn(rows))
  {
    if rows != [] {
      var n := |rows| - 1;
      DistinctOnBest(rows[..n]);
      assert rows == rows[..n] + [rows[n]];
      if n > 0 && rows[n - 1].documentId == rows[n].documentId {
        SameGroup(rows[..n], DistinctOn(rows[..n]), rows[n - 1], rows[n]);
      } else {
        NewGroup(rows[..n], DistinctOn(rows[..n]), rows[n]);
      }
    }
  }

  lemma PermutedBest(rows: seq<Row>, grouped: seq<Row>, best: seq<Row>, ranked: seq<Row>)
    requires Permuted(grouped, rows) && BestRows(grouped, best) && Permuted(ranked, best)
    ensures BestRows(rows, ranked)
  {
    assert forall row :: row in rows <==> row in multiset(rows);
    assert forall row :: row in grouped <==> row in multiset(grouped);
    assert forall row :: row in best <==> row in multiset(best);
    assert forall row :: row in ranked <==> row in multiset(ranked);
    OnceWhenPermuted(best, ranked);
    forall row | row in rows
      ensures Has(ranked, row.documentId)
    {
      var i :| 0 <= i < |best| && best[i].documentId == row.documentId;
      assert best[i] in ranked;
    }
  }

  lemma OnceWhenPermuted(best: seq<Row>, ranked: seq<Row>)
    requires Permuted(ranked, best) && OncePerDocument(best)
    ensures OncePerDocument(ranked)
  {
    forall i, j | 0 <= i < j < |ranked|
      ensures ranked[i].documentId != ranked[j].documentId
    {
      assert ranked[i] in multiset(best) && ranked[j] in multiset(best);
      CountTwo(ranked, i, j);
      CountOnce(best, ranked[i]);
    }
  }

  lemma CountTwo(rows: seq<Row>, i: nat, j: nat)
    requires i < j < |rows|
    ensures rows[i] == rows[j] ==> multiset(rows)[rows[i]] >= 2
  {
    assert rows == rows[..j] + [rows[j]] + rows[j + 1..];
    assert rows[..j][i] in multiset(rows[..j]);
  }

  lemma {:induction false} CountOnce(rows: seq<Row>, row: Row)
    requires OncePerDocument(rows)
    ensures multiset(rows)[row] <= 1
  {
    if rows != [] {
      CountOnce(rows[1..], row);
      assert rows == [rows[0]] + rows[1..];
      assert forall i :: 0 <= i < |rows[1..]| ==> rows[1..][i] == rows[i + 1];
      assert rows[0] !in rows[1..];
    }
  }

  lemma LimitTop(rows: seq<Row>, k: nat, ranked: seq<Row>)
    requires BestRows(rows, ranked) && ByScore(ranked)
    ensures TopDocuments(rows, k, Limit(ranked, k))
  {
    var answer := Limit(ranked, k);
    assert forall j :: 0 <= j < |answer| ==> answer[j] == ranked[j];
    forall row | row in rows && !Has(answer, row.documentId)
      ensures LeftOut(answer, k, row)
    {
      var i :| 0 <= i < |ranked| && ranked[i].documentId == row.documentId;
      assert BestOfDocument(rows, ranked[i]);
    }
  }

  /** Every answer holds at most k documents, each once with its best chunk, in descending score, and no chunk of a
      document that was left out scores higher. */
  lemma AnswerIsTop(rows: seq<Row>, k: nat, answer: seq<Row>)
    requires Answer(rows, k, answer)
    ensures TopDocuments(rows, k, answer)
  {
    var grouped, ranked :| AnswerVia(rows, k, answer, grouped, ranked);
    DistinctOnBest(grouped);
    PermutedBest(rows, grouped, DistinctOn(grouped), ranked);
    LimitTop(rows, k, ranked);
  }

  /** Every row of an answer is about a document of the queried kind, with its title, the first 300 characters of one of
      its chunks, and the similarity of that chunk. */
  lemma AnswerRowsMatch(docs: seq<Document>, chunks: seq<Chunk>, q: Query, k: nat, answer: seq<Row>, row: Row)
    returns (c: Chunk, d: Document)
    requires forall d, e :: d in docs && e in docs && d.id == e.id ==> d == e
    requires Answer(Join(docs, chunks, q), k, answer) && row in answer
    ensures c in chunks && d in docs && c.documentId == d.id == row.documentId
    ensures q.OwnPosts? ==> d.sourceType == MyBlog && d.userId == q.userId && d.id != q.exclude
    ensures q.InfluencerPosts? ==> d.sourceType == ExtBlog
    ensures q.JobPostings? ==> d.sourceType == JobPosting
    ensures row.title == d.title && row.preview == if |c.content| <= 300 then c.content else c.content[..300]
    ensures row.score == 1.0 - c.distance
  {
    AnswerIsTop(Join(docs, chunks, q), k, answer);
    assert BestOfDocument(Join(docs, chunks, q), row);
    JoinExact(docs, chunks, q, row);
    c, d :| && c in chunks && d in docs && c.documentId == d.id && row.documentId == d.id
            && (q.OwnPosts? ==> d.sourceType == MyBlog && d.userId == q.userId && d.id != q.exclude)
            && (q.InfluencerPosts? ==> d.sourceType == ExtBlog)
            && (q.JobPostings? ==> d.sourceType == JobPosting)
            && row.title == d.title && row.score == 1.0 - c.distance
            && row.preview == (if |c.content| <= 300 then c.content else c.content[..300]);
  }

  // ----- Walking the rows by score -----

  predicate DistinctScores(rows: seq<Row>) {
    forall i, j :: 0 <= i < j < |rows| ==> rows[i].score != rows[j].score
  }

  /** Keep the first row of each document not yet seen, and stop at k. */
  function Walk(rows: seq<Row>, k: nat, seen: set<int>): seq<Row> {
    if rows == [] || k == 0 then []
    else if rows[0].documentId in seen then Walk(rows[1..], k, seen)
    else [rows[0]] + Walk(rows[1..], k - 1, seen + {rows[0].documentId})
  }

  /** What the walk over the remaining rows picks. */
  predicate Picked(rows: seq<Row>, k: nat, seen: set<int>, picked: seq<Row>) {
    && |picked| <= k && OncePerDocument(picked) && ByScore(picked)
    && (forall row :: row in picked ==> row.documentId !in seen && BestOfDocument(rows, row))
    && (forall row ::
          row in rows && row.documentId !in seen && !Has(picked, row.documentId) ==> LeftOut(picked, k, row))
  }

  /** The first row of the rest is best of its document; what is best in the tail is best, for other documents. */
  lemma BestWithFirst(rows: seq<Row>, row: Row)
    requires rows != [] && ByScore(rows)
    ensures BestOfDocument(rows, rows[0])
    ensures row.documentId != rows[0].documentId && BestOfDocument(rows[1..], row) ==> BestOfDocument(rows, row)
  {
    assert forall r :: r in rows ==> r == rows[0] || r in rows[1..];
  }

  lemma LeftOutWithFirst(first: Row, picked: seq<Row>, k: nat, row: Row)
    requires k > 0 && first.score >= row.score && (!Has(picked, row.documentId) ==> LeftOut(picked, k - 1, row))
    ensures !Has([first] + picked, row.documentId) ==>
              row.documentId != first.documentId && LeftOut([first] + picked, k, row)
  {
    var all := [first] + picked;
    assert all[0] == first;
    assert forall i :: 0 <= i < |picked| ==> all[i + 1] == picked[i];
  }

  lemma PickFirst(rows: seq<Row>, k: nat, seen: set<int>, picked: seq<Row>)
    requires rows != [] && k > 0 && ByScore(rows) && rows[0].documentId !in seen
    requires Picked(rows[1..], k - 1, seen + {rows[0].documentId}, picked)
    ensures Picked(rows, k, seen, [rows[0]] + picked)
  {
    var all := [rows[0]] + picked;
    forall row | row in all
      ensures row.documentId !in seen && BestOfDocument(rows, row)
      ensures row.score <= rows[0].score
    {
      BestWithFirst(rows, row);
    }
    forall row | row in rows && row.documentId !in seen && !Has(all, row.documentId)
      ensures LeftOut(all, k, row)
    {
      assert Has(all, rows[0].documentId) by {
        assert all[0] == rows[0];
      }
      LeftOutWithFirst(rows[0], picked, k, row);
    }
  }

  lemma {:induction false} WalkPicks(rows: seq<Row>, k: nat, seen: set<int>)
    requires ByScore(rows)
    ensures Picked(rows, k, seen, Walk(rows, k, seen))
  {
    if rows == [] || k == 0 {
    } else if rows[0].documentId in seen {
      WalkPicks(rows[1..], k, seen);
      assert forall row :: row in rows <==> row == rows[0] || row in rows[1..];
      forall row | row in Walk(rows, k, seen)
        ensures BestOfDocument(rows, row)
      {
        assert BestOfDocument(rows[1..], row);
      }
    } else {
      WalkPicks(rows[1..], k - 1, seen + {rows[0].documentId});
      PickFirst(rows, k, seen, Walk(rows[1..], k - 1, seen + {rows[0].documentId}));
    }
  }

  lemma SameScoreSameRow(rows: seq<Row>, r: Row, t: Row)
    requires DistinctScores(rows) && r in rows && t in rows
    ensures r.score == t.score ==> r == t
  {
  }

  function RowSet(rows: seq<Row>): set<Row> {
    set r | r in rows
  }

  lemma {:induction false} RowSetSize(rows: seq<Row>)
    requires OncePerDocument(rows)
    ensures |RowSet(rows)| == |rows|
  {
    if rows != [] {
      RowSetSize(rows[1..]);
      assert forall i :: 0 <= i < |rows[1..]| ==> rows[1..][i] == rows[i + 1];
      assert rows[0] !in rows[1..];
      assert RowSet(rows) == {rows[0]} + RowSet(rows[1..]);
    }
  }

  lemma FewerRows(a: seq<Row>, b: seq<Row>, row: Row)
    requires OncePerDocument(a) && OncePerDocument(b)
    requires row in a && forall r :: r in b ==> r in a && r != row
    ensures |b| < |a|
  {
    RowSetSize(a);
    RowSetSize(b);
    var rest := RowSet(a) - RowSet(b);
    assert RowSet(a) == RowSet(b) + rest && row in rest;
  }

  /** With distinct scores two lists of the k best documents have the same rows. */
  lemma TopSubset(rows: seq<Row>, k: nat, a: seq<Row>, b: seq<Row>, row: Row)
    requires DistinctScores(rows) && TopDocuments(rows, k, a) && TopDocuments(rows, k, b)
    requires row in a
    ensures row in b
  {
    if Has(b, row.documentId) {
      TopSameDocument(rows, k, a, b, row);
    } else {
      assert BestOfDocument(rows, row) && LeftOut(b, k, row);
      forall r | r in b
        ensures r in a && r != row
      {
        assert BestOfDocument(rows, r);
        if Has(a, r.documentId) {
          TopSameDocument(rows, k, b, a, r);
        } else {
          assert LeftOut(a, k, r);
          SameScoreSameRow(rows, r, row);
        }
      }
      FewerRows(a, b, row);
    }
  }

  lemma TopSameDocument(rows: seq<Row>, k: nat, a: seq<Row>, b: seq<Row>, row: Row)
    requires DistinctScores(rows) && TopDocuments(rows, k, a) && TopDocuments(rows, k, b)
    requires row in a && Has(b, row.documentId)
    ensures row in b
  {
    var i :| 0 <= i < |b| && b[i].documentId == row.documentId;
    assert BestOfDocument(rows, row) && BestOfDocument(rows, b[i]);
    SameScoreSameRow(rows, row, b[i]);
  }

  predicate Descending(rows: seq<Row>) {
    forall i, j :: 0 <= i < j < |rows| ==> rows[i].score > rows[j].score
  }

  lemma {:induction false} SameRowsSameOrder(a: seq<Row>, b: seq<Row>)
    requires Descending(a) && Descending(b)
    requires forall row :: row in a <==> row in b
    ensures a == b
  {
    assert b != [] ==> b[0] in a;
    if a != [] {
      assert a[0] in b && b[0] in a;
      assert a[0] == b[0];
      assert forall row :: row in a[1..] <==> row in a && row != a[0];
      assert forall row :: row in b[1..] <==> row in b && row != b[0];
      SameRowsSameOrder(a[1..], b[1..]);
      assert a == [a[0]] + a[1..] && b == [b[0]] + b[1..];
    }
  }

  lemma TopDescending(rows: seq<Row>, k: nat, a: seq<Row>)
    requires DistinctScores(rows) && TopDocuments(rows, k, a)
    ensures Descending(a)
  {
    forall i, j | 0 <= i < j < |a|
      ensures a[i].score > a[j].score
    {
      assert BestOfDocument(rows, a[i]) && BestOfDocument(rows, a[j]);
      SameScoreSameRow(rows, a[i], a[j]);
    }
  }

  lemma TopIsUnique(rows: seq<Row>, k: nat, a: seq<Row>, b: seq<Row>)
    requires DistinctScores(rows) && TopDocuments(rows, k, a) && TopDocuments(rows, k, b)
    ensures a == b
  {
    forall row
      ensures row in a <==> row in b
    {
      if row in a {
        TopSubset(rows, k, a, b, row);
      }
      if row in b {
        TopSubset(rows, k, b, a, row);
      }
    }
    TopDescending(rows, k, a);
    TopDescending(rows, k, b);
    SameRowsSameOrder(a, b);
  }

  /** When no two chunks score the same, the query walks the chunks by descending score, keeps the first of each
      document and stops at k. */
  lemma AnswerIsWalk(rows: seq<Row>, k: nat, answer: seq<Row>, walked: seq<Row>)
    requires DistinctScores(rows) && Permuted(walked, rows) && ByScore(walked)
    requires Answer(rows, k, answer)
    ensures answer == Walk(walked, k, {})
  {
    AnswerIsTop(rows, k, answer);
    WalkPicks(walked, k, {});
    assert forall row :: row in rows <==> row in multiset(rows);
    assert forall row :: row in walked <==> row in multiset(walked);
    var picked := Walk(walked, k, {});
    forall row | row in picked
      ensures BestOfDocument(rows, row)
    {
      assert BestOfDocument(walked, row);
    }
    TopIsUnique(rows, k, answer, picked);
  }

  // ----- There is an answer -----

  datatype Order = Score | DocumentThenScore

  predicate Before(o: Order, r: Row, t: Row) {
    match o
    case Score => r.score >= t.score
    case DocumentThenScore => r.documentId < t.documentId || (r.documentId == t.documentId && r.score >= t.score)
  }

  predicate Sorted(o: Order, rows: seq<Row>) {
    forall i, j :: 0 <= i < j < |rows| ==> Before(o, rows[i], rows[j])
  }

  function Insert(o: Order, row: Row, rows: seq<Row>): seq<Row> {
    if rows == [] || Before(o, row, rows[0]) then [row] + rows else [rows[0]] + Insert(o, row, rows[1..])
  }

  function Sort(o: Order, rows: seq<Row>): seq<Row> {
    if rows == [] then [] else Insert(o, rows[0], Sort(o, rows[1..]))
  }

  lemma {:induction false} InsertPermutes(o: Order, row: Row, rows: seq<Row>)
    ensures multiset(Insert(o, row, rows)) == multiset(rows) + multiset{row}
  {
    if rows != [] {
      InsertPermutes(o, row, rows[1..]);
      assert rows == [rows[0]] + rows[1..];
    }
  }

  lemma Prepend(o: Order, row: Row, rows: seq<Row>)
    requires Sorted(o, rows) && forall t :: t in rows ==> Before(o, row, t)
    ensures Sorted(o, [row] + rows)
  {
  }

  lemma {:induction false} InsertSorts(o: Order, row: Row, rows: seq<Row>)
    requires Sorted(o, rows)
    ensures Sorted(o, Insert(o, row, rows))
  {
    if rows == [] || Before(o, row, rows[0]) {
      Prepend(o, row, rows);
    } else {
      var rest := Insert(o, row, rows[1..]);
      InsertSorts(o, row, rows[1..]);
      forall t | t in rest
        ensures Before(o, rows[0], t)
      {
        InsertPermutes(o, row, rows[1..]);
        assert t in multiset(rest);
      }
      Prepend(o, rows[0], rest);
    }
  }

  lemma {:induction false} SortSorts(o: Order, rows: seq<Row>)
    ensures Sorted(o, Sort(o, rows)) && Permuted(Sort(o, rows), rows)
  {
    if rows != [] {
      SortSorts(o, rows[1..]);
      assert rows == [rows[0]] + rows[1..];
      InsertSorts(o, rows[0], Sort(o, rows[1..]));
      InsertPermutes(o, rows[0], Sort(o, rows[1..]));
    }
  }

  /** One way to evaluate a query. */
  function Search(docs: seq<Document>, chunks: seq<Chunk>, q: Query, k: nat): seq<Row> {
    Limit(Sort(Score, DistinctOn(Sort(DocumentThenScore, Join(docs, chunks, q)))), k)
  }

  lemma SearchAnswers(docs: seq<Document>, chunks: seq<Chunk>, q: Query, k: nat)
    ensures Answer(Join(docs, chunks, q), k, Search(docs, chunks, q, k))
  {
    var rows := Join(docs, chunks, q);
    var grouped := Sort(DocumentThenScore, rows);
    var ranked := Sort(Score, DistinctOn(grouped));
    SortSorts(DocumentThenScore, rows);
    SortSorts(Score, DistinctOn(grouped));
    assert forall i, j :: 0 <= i < j < |grouped| ==> Before(DocumentThenScore, grouped[i], grouped[j]);
    assert forall i, j :: 0 <= i < j < |ranked| ==> Before(Score, ranked[i], ranked[j]);
    assert AnswerVia(rows, k, Search(docs, chunks, q, k), grouped, ranked);
  }

  /** What a caller gets back: for each matching document with a chunk, its best chunk, or a full list of others that
      score at least as high. */
  lemma SearchFindsBest(docs: seq<Document>, chunks: seq<Chunk>, q: Query, k: nat, c: Chunk, d: Document)
    requires forall d, e :: d in docs && e in docs && d.id == e.id ==> d == e
    requires c in chunks && d in docs && c.documentId == d.id && Matches(d, q)
    ensures
      var answer := Search(docs, chunks, q, k);
      if Has(answer, d.id) then exists row :: row in answer && row.documentId == d.id && row.score >= 1.0 - c.distance
      else LeftOut(answer, k, JoinedRow(c, d))
  {
    var rows, answer := Join(docs, chunks, q), Search(docs, chunks, q, k);
    SearchAnswers(docs, chunks, q, k);
    AnswerIsTop(rows, k, answer);
    JoinExact(docs, chunks, q, JoinedRow(c, d));
    if Has(answer, d.id) {
      var i :| 0 <= i < |answer| && answer[i].documentId == d.id;
      assert BestOfDocument(rows, answer[i]);
    }
  }
}
