/** What chunking keeps of a text, and how large its chunks are. */
module ChunkLaws {
  import opened Paragraphs
  import opened TokenWindows
  import opened Packing
  import opened Chunker

  // ----- Overlap is invertible -----

  function Drop(s: string, n: nat): string {
    if n <= |s| then s[n..] else ""
  }

  /** The first `n` chunks before the overlap, read off from the final chunks: each tail is that of the chunk already
      recovered, not of the prefixed one. */
  function Recover(c: Config, out: seq<string>, n: nat): seq<string>
    requires n <= |out|
    ensures |Recover(c, out, n)| == n
  {
    if n == 0 then []
    else if n == 1 then [out[0]]
    else
      var before := Recover(c, out, n - 1);
      before + [Drop(out[n - 1], |c.Tail(before[n - 2])| + |SEPARATOR|)]
  }

  function RemoveOverlap(c: Config, out: seq<string>): seq<string> {
    if c.overlap == 0 || |out| <= 1 then out else Recover(c, out, |out|)
  }

  lemma DropPrefix(a: string, b: string)
    ensures Drop(a + b, |a|) == b
  {
  }

  lemma DropTail(c: Config, chunks: seq<string>, i: nat)
    requires c.overlap != 0 && 0 < i < |chunks|
    ensures Drop(c.ApplyOverlap(chunks)[i], |c.Tail(chunks[i - 1])| + |SEPARATOR|) == chunks[i]
  {
    OverlapAt(c, chunks, i);
    DropPrefix(c.Tail(chunks[i - 1]) + SEPARATOR, chunks[i]);
  }

  lemma {:induction false} RecoverPrefix(c: Config, chunks: seq<string>, n: nat)
    requires c.overlap != 0 && |chunks| > 1 && n <= |chunks|
    ensures Recover(c, c.ApplyOverlap(chunks), n) == chunks[..n]
  {
    if n > 1 {
      RecoverPrefix(c, chunks, n - 1);
      assert chunks[..n - 1][n - 2] == chunks[n - 2];
      DropTail(c, chunks, n - 1);
      assert chunks[..n] == chunks[..n - 1] + [chunks[n - 1]];
    } else if n == 1 {
      OverlapAt(c, chunks, 0);
    }
  }

  /** Removing the tails gives back the chunks, for any tokenizer. */
  lemma OverlapIsInvertible(c: Config, chunks: seq<string>)
    ensures RemoveOverlap(c, c.ApplyOverlap(chunks)) == chunks
  {
    if c.overlap != 0 && |chunks| > 1 {
      RecoverPrefix(c, chunks, |chunks|);
    }
  }

  function Contents(chunks: seq<TextChunk>): seq<string> {
    seq(|chunks|, i requires 0 <= i < |chunks| => chunks[i].content)
  }

  // ----- Nothing is lost -----

  lemma InkSeparated(a: string, b: string)
    ensures Ink(a + SEPARATOR + b) == Ink(a) + Ink(b)
  {
    InkAppend(a + SEPARATOR, b);
    InkAppend(a, SEPARATOR);
    InkSeparatorFirst(SEPARATOR);
  }

  lemma {:induction false} InkJoin(ps: seq<Para>)
    ensures Ink(Join(ps)) == Ink(Flatten(Texts(ps)))
  {
    if ps != [] {
      var head, tail := ps[0].text, ps[1..];
      InkJoin(tail);
      assert Texts(ps) == [head] + Texts(tail) && ([head] + Texts(tail))[1..] == Texts(tail);
      InkAppend(head, Flatten(Texts(tail)));
      if tail != [] {
        assert Join(ps) == head + SEPARATOR + Join(tail);
        InkSeparated(head, Join(tail));
      }
    }
  }

  lemma InkCons(head: string, rest: seq<string>)
    ensures Ink(Flatten([head] + rest)) == Ink(head) + Ink(Flatten(rest))
  {
    FlattenCons(head, rest);
    InkAppend(head, Flatten(rest));
  }

  lemma InkTexts(a: seq<Para>, b: seq<Para>)
    ensures Ink(Flatten(Texts(a + b))) == Ink(Flatten(Texts(a))) + Ink(Flatten(Texts(b)))
  {
    assert Texts(a + b) == Texts(a) + Texts(b);
    FlattenAppend(Texts(a), Texts(b));
    InkAppend(Flatten(Texts(a)), Flatten(Texts(b)));
  }

  lemma {:induction false} InkPieces(c: Config, pieces: seq<Piece>)
    requires c.Valid() && NoneSliced(pieces)
    ensures Ink(Flatten(c.Render(pieces))) == Ink(Flatten(Texts(AllParas(pieces))))
  {
    if pieces != [] {
      var ps, rest := pieces[0].group, pieces[1..];
      InkPieces(c, rest);
      InkJoin(ps);
      InkCons(Join(ps), c.Render(rest));
      InkTexts(ps, AllParas(rest));
    }
  }

  lemma {:induction false} FlattenAppend<T>(a: seq<seq<T>>, b: seq<seq<T>>)
    ensures Flatten(a + b) == Flatten(a) + Flatten(b)
  {
    if a == [] {
      assert a + b == b;
    } else {
      assert (a + b)[1..] == a[1..] + b;
      FlattenAppend(a[1..], b);
    }
  }

  ghost predicate NoLongParagraph(c: Config, text: string)
    requires c.Valid()
  {
    Short(c.chunkSize, c.Measure(Paragraphs.Paragraphs(text)))
  }

  /** As long as no paragraph is too long, the chunks without their tails hold the whole text but for white space, in
      order, for any tokenizer. */
  lemma ChunksKeepText(c: Config, text: string)
    requires c.Valid() && NoLongParagraph(c, text)
    ensures Ink(Flatten(RemoveOverlap(c, Contents(c.Chunks(text))))) == Ink(text)
  {
    var paras := c.Measure(Paragraphs.Paragraphs(text));
    var pieces := Pack(c.chunkSize, paras, []);
    assert Contents(c.Chunks(text)) == c.ApplyOverlap(c.RawChunks(text));
    OverlapIsInvertible(c, c.RawChunks(text));
    PackIsGreedy(c.chunkSize, paras, []);
    assert [] + paras == paras;
    ShortNotSliced(c.chunkSize, pieces);
    InkPieces(c, pieces);
    assert Texts(paras) == Paragraphs.Paragraphs(text);
    ParagraphsKeepInk(text);
  }

  function Pieces(c: Config, text: string): seq<Piece>
    requires c.Valid()
  {
    Pack(c.chunkSize, c.Measure(Paragraphs.Paragraphs(text)), [])
  }

  /** The pieces of a text are the greedy packing of its paragraphs, with the tokenizer's counts. */
  lemma PiecesOf(c: Config, text: string)
    requires c.Valid()
    ensures var pieces := Pieces(c, text);
            && Greedy(c.chunkSize, pieces)
            && AllParas(pieces) == c.Measure(Paragraphs.Paragraphs(text))
            && forall i :: 0 <= i < |pieces| ==> Measured(c, pieces[i].Paras())
  {
    var paras := c.Measure(Paragraphs.Paragraphs(text));
    PackIsGreedy(c.chunkSize, paras, []);
    assert [] + paras == paras;
    MeasuredFrom(c, Paragraphs.Paragraphs(text), Pieces(c, text));
  }

  /** For every text, long paragraphs included: the chunks without their tails render pieces that hold the whole text
      but for white space, in order, and the windows of a sliced paragraph give back its tokens. */
  lemma ChunksKeepTokens(c: Config, text: string, i: nat)
    requires c.Valid() && c.overlap >= 0 && i < |Pieces(c, text)|
    ensures RemoveOverlap(c, Contents(c.Chunks(text))) == c.Render(Pieces(c, text))
    ensures Ink(Flatten(Texts(AllParas(Pieces(c, text))))) == Ink(text)
    ensures var piece := Pieces(c, text)[i];
            piece.Sliced? ==>
              var tokens := c.encoder.encode(piece.para.text);
              var windows := Windows(tokens, c.chunkSize, c.overlap, 0);
              c.RenderPiece(piece) == c.Decoded(windows) && Rebuild(windows, c.overlap) == tokens
  {
    assert Contents(c.Chunks(text)) == c.ApplyOverlap(c.RawChunks(text));
    OverlapIsInvertible(c, c.RawChunks(text));
    PiecesOf(c, text);
    assert Texts(c.Measure(Paragraphs.Paragraphs(text))) == Paragraphs.Paragraphs(text);
    ParagraphsKeepInk(text);
    match Pieces(c, text)[i]
    case Packed(_) =>
    case Sliced(p) => WindowsRebuild(c.encoder.encode(p.text), c.chunkSize, c.overlap);
  }

  /** A text has no chunks exactly when it is blank. */
  lemma NoChunksIffBlank(c: Config, text: string)
    requires c.Valid()
    ensures c.Chunks(text) == [] <==> Ink(text) == ""
  {
    var pieces := Pieces(c, text);
    PiecesOf(c, text);
    ParagraphsKeepInk(text);
    assert |c.Chunks(text)| == |c.Render(pieces)|;
    assert |c.Measure(Paragraphs.Paragraphs(text))| == |Paragraphs.Paragraphs(text)|;
    if pieces != [] {
      GreedyTail(c.chunkSize, pieces);
      SomePieceChunk(c, pieces[0]);
    }
  }

  lemma SomePieceChunk(c: Config, piece: Piece)
    requires c.Valid() && Fits(c.chunkSize, piece) && Measured(c, piece.Paras())
    ensures c.RenderPiece(piece) != []
  {
    if piece.Sliced? {
      assert piece.Paras()[0] == piece.para;
      assert Windows(c.encoder.encode(piece.para.text), c.chunkSize, c.overlap, 0) != [];
    }
  }

  ghost predicate Measured(c: Config, ps: seq<Para>) {
    forall i :: 0 <= i < |ps| ==> ps[i].tokens == c.Count(ps[i].text)
  }

  /** The paragraphs of a packing carry the counts of the tokenizer. */
  lemma {:induction false} MeasuredFrom(c: Config, texts: seq<string>, pieces: seq<Piece>)
    requires c.Valid() && Greedy(c.chunkSize, pieces) && AllParas(pieces) == c.Measure(texts)
    ensures forall i :: 0 <= i < |pieces| ==> Measured(c, pieces[i].Paras())
  {
    if pieces != [] {
      GreedyTail(c.chunkSize, pieces);
      var n := |pieces[0].Paras()|;
      assert AllParas(pieces) == pieces[0].Paras() + AllParas(pieces[1..]);
      assert AllParas(pieces[1..]) == c.Measure(texts)[n..];
      assert c.Measure(texts)[n..] == c.Measure(texts[n..]);
      MeasuredFrom(c, texts[n..], pieces[1..]);
      assert Measured(c, pieces[0].Paras()) by {
        assert forall j :: 0 <= j < n ==> pieces[0].Paras()[j] == c.Measure(texts)[j];
      }
      assert forall i :: 0 < i < |pieces| ==> pieces[i] == pieces[1..][i - 1];
    }
  }
}
