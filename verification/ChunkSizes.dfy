/** How many tokens a final chunk has: exactly, for any tokenizer, and at most, for one that obeys two laws. */
module ChunkSizes {
  import opened Paragraphs
  import opened TokenWindows
  import opened Packing
  import opened Chunker
  import opened ChunkLaws

  // ----- Exact counts -----

  /** What it costs to join two texts over a blank line; negative when their tokens merge. */
  function Glue(c: Config, a: string, b: string): int {
    c.Count(a + SEPARATOR + b) - c.Count(a) - c.Count(b)
  }

  /** The cost of joining a group, which the packing does not count. */
  function GlueSum(c: Config, ps: seq<Para>): int {
    if |ps| <= 1 then 0 else Glue(c, ps[0].text, Join(ps[1..])) + GlueSum(c, ps[1..])
  }

  /** A joined group counts its paragraphs and their joins, for any tokenizer. */
  lemma {:induction false} JoinCount(c: Config, ps: seq<Para>)
    requires Measured(c, ps) && ps != []
    ensures c.Count(Join(ps)) == Total(ps) + GlueSum(c, ps)
  {
    if |ps| == 1 {
      assert Total(ps[1..]) == 0;
    } else {
      JoinCount(c, ps[1..]);
      assert Join(ps) == ps[0].text + SEPARATOR + Join(ps[1..]);
    }
  }

  /** The piece each chunk before the overlap comes from. */
  function Origins(c: Config, pieces: seq<Piece>): (r: seq<Piece>)
    requires c.Valid()
    ensures |r| == |c.Render(pieces)|
  {
    if pieces == [] then [] else Copies(pieces[0], |c.RenderPiece(pieces[0])|) + Origins(c, pieces[1..])
  }

  function Copies(piece: Piece, n: nat): (r: seq<Piece>)
    ensures |r| == n && forall i :: 0 <= i < n ==> r[i] == piece
  {
    if n == 0 then [] else [piece] + Copies(piece, n - 1)
  }

  lemma {:induction false} OriginOf(c: Config, pieces: seq<Piece>, i: nat)
    requires c.Valid() && i < |c.Render(pieces)|
    ensures Origins(c, pieces)[i] in pieces
    ensures c.Render(pieces)[i] in c.RenderPiece(Origins(c, pieces)[i])
  {
    var n := |c.RenderPiece(pieces[0])|;
    if i < n {
      assert c.Render(pieces)[i] == c.RenderPiece(pieces[0])[i];
    } else {
      OriginOf(c, pieces[1..], i - n);
      assert c.Render(pieces)[i] == c.Render(pieces[1..])[i - n];
      assert Origins(c, pieces)[i] == Origins(c, pieces[1..])[i - n];
    }
  }

  /** The tail put before chunk i, with its join. */
  function TailCost(c: Config, chunks: seq<string>, i: nat): int
    requires i < |chunks|
  {
    if c.overlap == 0 || i == 0 then 0
    else c.Count(c.Tail(chunks[i - 1])) + Glue(c, c.Tail(chunks[i - 1]), chunks[i])
  }

  lemma OverlapCount(c: Config, chunks: seq<string>, i: nat)
    requires i < |chunks|
    ensures c.Count(c.ApplyOverlap(chunks)[i]) == c.Count(chunks[i]) + TailCost(c, chunks, i)
  {
    OverlapAt(c, chunks, i);
  }

  lemma OriginFits(c: Config, text: string, i: nat)
    requires c.Valid() && i < |c.RawChunks(text)|
    ensures var piece := Origins(c, Pieces(c, text))[i];
            && Fits(c.chunkSize, piece) && Measured(c, piece.Paras())
            && c.RawChunks(text)[i] in c.RenderPiece(piece)
  {
    var pieces := Pieces(c, text);
    OriginOf(c, pieces, i);
    PiecesOf(c, text);
    var k :| 0 <= k < |pieces| && pieces[k] == Origins(c, pieces)[i];
    assert Fits(c.chunkSize, pieces[k]) && Measured(c, pieces[k].Paras());
  }

  /** A final chunk counts the chunk before the overlap and its tail; a packed one its paragraphs, their joins and its
      tail. Nothing is asked of the tokenizer. */
  lemma FinalCount(c: Config, text: string, i: nat)
    requires c.Valid() && i < |c.Chunks(text)|
    ensures c.Chunks(text)[i].tokenCount == c.Count(c.RawChunks(text)[i]) + TailCost(c, c.RawChunks(text), i)
    ensures var piece := Origins(c, Pieces(c, text))[i];
            if piece.Packed? then c.Count(c.RawChunks(text)[i]) == Total(piece.group) + GlueSum(c, piece.group)
            else c.RawChunks(text)[i] in c.SliceText(piece.para.text)
  {
    OverlapCount(c, c.RawChunks(text), i);
    OriginFits(c, text, i);
    var piece := Origins(c, Pieces(c, text))[i];
    if piece.Packed? {
      JoinCount(c, piece.group);
    }
  }

  // ----- Bounds -----

  /** Joining over a blank line costs at most `cost` tokens. */
  ghost predicate JoinsWithin(c: Config, cost: nat) {
    forall a, b :: Glue(c, a, b) <= cost
  }

  /** Decoding and encoding again never makes more tokens. */
  ghost predicate DecodesShort(c: Config) {
    forall ts :: c.Count(c.encoder.decode(ts)) <= |ts|
  }

  lemma {:induction false} GlueSumWithin(c: Config, ps: seq<Para>, cost: nat)
    requires JoinsWithin(c, cost) && ps != []
    ensures GlueSum(c, ps) <= (|ps| - 1) * cost
  {
    if |ps| > 1 {
      GlueSumWithin(c, ps[1..], cost);
      Distribute(|ps| - 2, cost);
    }
  }

  lemma TailWithin(c: Config, chunks: seq<string>, i: nat, cost: nat)
    requires c.overlap >= 0 && i < |chunks| && JoinsWithin(c, cost) && DecodesShort(c)
    ensures TailCost(c, chunks, i) <= if c.overlap == 0 || i == 0 then 0 else c.overlap + cost
  {
    if c.overlap > 0 && i > 0 {
      var ts := c.LastTokens(c.encoder.encode(chunks[i - 1]));
      assert c.Count(c.encoder.decode(ts)) <= |ts| <= c.overlap;
      assert Glue(c, c.Tail(chunks[i - 1]), chunks[i]) <= cost;
    }
  }

  lemma SliceWithin(c: Config, text: string, chunk: string)
    requires c.Valid() && c.overlap >= 0 && DecodesShort(c) && chunk in c.SliceText(text)
    ensures c.Count(chunk) <= c.chunkSize
  {
    var tokens := c.encoder.encode(text);
    var ws := Windows(tokens, c.chunkSize, c.overlap, 0);
    var i :| 0 <= i < |ws| && c.SliceText(text)[i] == chunk;
    WindowSizes(tokens, c.chunkSize, c.overlap, 0);
    assert c.Count(c.encoder.decode(ws[i])) <= |ws[i]|;
  }

  /** A final chunk is above chunk size plus overlap by at most one join for each paragraph in its piece: tails do not
      compound. */
  lemma ChunkSizeBound(c: Config, text: string, cost: nat, i: nat)
    requires c.Valid() && c.overlap >= 0 && JoinsWithin(c, cost) && DecodesShort(c) && i < |c.Chunks(text)|
    ensures c.Chunks(text)[i].tokenCount <=
            c.chunkSize + c.overlap + |Origins(c, Pieces(c, text))[i].Paras()| * cost
  {
    OverlapCount(c, c.RawChunks(text), i);
    TailWithin(c, c.RawChunks(text), i, cost);
    OriginFits(c, text, i);
    PieceWithin(c, Origins(c, Pieces(c, text))[i], c.RawChunks(text)[i], cost);
  }

  lemma PackedWithin(c: Config, ps: seq<Para>, cost: nat)
    requires JoinsWithin(c, cost) && ps != [] && Total(ps) <= c.chunkSize && Measured(c, ps)
    ensures c.Count(Join(ps)) + cost <= c.chunkSize + |ps| * cost
  {
    JoinCount(c, ps);
    GlueSumWithin(c, ps, cost);
    Distribute(|ps| - 1, cost);
  }

  lemma PieceWithin(c: Config, piece: Piece, chunk: string, cost: nat)
    requires c.Valid() && c.overlap >= 0 && JoinsWithin(c, cost) && DecodesShort(c)
    requires Fits(c.chunkSize, piece) && Measured(c, piece.Paras()) && chunk in c.RenderPiece(piece)
    ensures c.Count(chunk) + cost <= c.chunkSize + |piece.Paras()| * cost
  {
    if piece.Packed? {
      PackedWithin(c, piece.group, cost);
    } else {
      SliceWithin(c, piece.para.text, chunk);
      assert |piece.Paras()| == 1;
    }
  }

  // ----- The chunk size is not a bound -----

  /** One token for each character. */
  function CharEncode(s: string): seq<Token> {
    seq(|s|, i requires 0 <= i < |s| => s[i] as int)
  }

  function CharDecode(ts: seq<Token>): string {
    seq(|ts|, i requires 0 <= i < |ts| => if 0 <= ts[i] < 0xD800 then ts[i] as char else '?')
  }

  const PER_CHARACTER := Config(4, 0, Encoder(CharEncode, CharDecode))

  lemma SplitLetter(letter: char, rest: string)
    requires letter != '\n'
    ensures Split([letter] + rest) == [[letter] + Split(rest)[0]] + Split(rest)[1..]
  {
    assert ([letter] + rest)[1..] == rest && ([letter] + rest)[0] == letter;
  }

  lemma SplitBlank(rest: string)
    ensures Split(SEPARATOR + rest) == [""] + Split(rest)
  {
    assert (SEPARATOR + rest)[2..] == rest && SEPARATOR <= SEPARATOR + rest;
  }

  lemma TwoSplit()
    ensures Split("ab\n\ncd") == ["ab", "cd"]
  {
    var d := ['d'] + "";
    SplitLetter('d', "");
    assert Split(d) == [d];
    var cd := ['c'] + d;
    SplitLetter('c', d);
    assert Split(cd) == [cd];
    var blank := SEPARATOR + cd;
    SplitBlank(cd);
    assert Split(blank)[1..] == [cd] && ['b'] + "" == ['b'];
    var b := ['b'] + blank;
    SplitLetter('b', blank);
    assert Split(b) == [['b'], cd];
    SplitLetter('a', b);
    assert ['a'] + ['b'] == "ab" && cd == "cd" && ['a'] + b == "ab\n\ncd";
  }

  lemma TwoParagraphs()
    ensures Paragraphs.Paragraphs("ab\n\ncd") == ["ab", "cd"]
  {
    TwoSplit();
    assert Strip("ab\n\ncd") == "ab\n\ncd" && Strip("ab") == "ab" && Strip("cd") == "cd";
    assert ["ab", "cd"][1..] == ["cd"] && ["cd"][1..] == [];
  }

  lemma TwoPacked()
    ensures var ps := [Para("ab", 2), Para("cd", 2)]; Pack(4, ps, []) == [Packed(ps)]
  {
    var ps := [Para("ab", 2), Para("cd", 2)];
    assert ps[1..] == [ps[1]] && [ps[1]][1..] == [];
    assert Total([ps[0]]) == 2 + Total([]) by {
      assert [ps[0]][1..] == [];
    }
    assert [] + [ps[0]] == [ps[0]] && [ps[0]] + [ps[1]] == ps;
    assert Pack(4, ps, []) == Pack(4, [ps[1]], [ps[0]]);
    assert Pack(4, [ps[1]], [ps[0]]) == Pack(4, [], ps);
  }

  lemma TwoMeasured()
    ensures PER_CHARACTER.Measure(["ab", "cd"]) == [Para("ab", 2), Para("cd", 2)]
    ensures Join([Para("ab", 2), Para("cd", 2)]) == "ab\n\ncd"
  {
    assert [Para("ab", 2), Para("cd", 2)][1..] == [Para("cd", 2)];
  }

  lemma RawOfTwo()
    ensures PER_CHARACTER.Valid() && PER_CHARACTER.RawChunks("ab\n\ncd") == ["ab\n\ncd"]
  {
    TwoParagraphs();
    TwoMeasured();
    TwoPacked();
    RenderOne(PER_CHARACTER, Packed([Para("ab", 2), Para("cd", 2)]));
  }

  /** The packing does not count the joins. With a tokenizer that does, a text of two short paragraphs becomes one chunk
      above the chunk size, although there is no overlap and the tokenizer obeys both laws. */
  lemma SeparatorsExceedChunkSize()
    ensures PER_CHARACTER.Valid() && JoinsWithin(PER_CHARACTER, 2) && DecodesShort(PER_CHARACTER)
    ensures PER_CHARACTER.Chunks("ab\n\ncd") == [TextChunk(0, "ab\n\ncd", 6)]
    ensures 6 > PER_CHARACTER.chunkSize + PER_CHARACTER.overlap
  {
    RawOfTwo();
  }
}
