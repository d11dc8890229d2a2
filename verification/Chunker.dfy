/** Token-based chunking: paragraphs are packed greedily, long paragraphs are cut into overlapping windows, and every
    chunk but the first is prefixed with the tail of its predecessor.

    The tokenizer is an arbitrary pair of functions; the laws a result needs of it are stated where they are used. */
module Chunker {
  import opened Wrappers
  import opened Paragraphs
  import opened TokenWindows
  import opened Packing

  datatype Encoder = Encoder(encode: string -> seq<Token>, decode: seq<Token> -> string)

  datatype TextChunk = TextChunk(index: nat, content: string, tokenCount: nat)

  datatype Config = Config(chunkSize: int, overlap: int, encoder: Encoder) {
    /** What the constructor lets through, for a positive chunk size. */
    predicate Valid() {
      chunkSize >= 1 && overlap < chunkSize
    }

    function Count(s: string): nat {
      |encoder.encode(s)|
    }

    function Measure(texts: seq<string>): seq<Para> {
      seq(|texts|, i requires 0 <= i < |texts| => Para(texts[i], Count(texts[i])))
    }

    function Decoded(windows: seq<seq<Token>>): (r: seq<string>)
      ensures |r| == |windows| && forall i :: 0 <= i < |windows| ==> r[i] == encoder.decode(windows[i])
    {
      if windows == [] then []
      else Decoded(windows[..|windows| - 1]) + [encoder.decode(windows[|windows| - 1])]
    }

    function SliceText(text: string): seq<string>
      requires Valid()
    {
      Decoded(Windows(encoder.encode(text), chunkSize, overlap, 0))
    }

    /** The chunks of a packing, before the overlap. */
    function Render(pieces: seq<Piece>): seq<string>
      requires Valid()
    {
      if pieces == [] then [] else RenderPiece(pieces[0]) + Render(pieces[1..])
    }

    function RenderPiece(piece: Piece): seq<string>
      requires Valid()
    {
      match piece
      case Packed(ps) => [Join(ps)]
      case Sliced(p) => SliceText(p.text)
    }

    /** The last `overlap` tokens, as Python's slice from `-overlap` takes them. */
    function LastTokens(tokens: seq<Token>): seq<Token> {
      if overlap > 0 then
        if |tokens| <= overlap then tokens else tokens[|tokens| - overlap..]
      else
        if -overlap <= |tokens| then tokens[-overlap..] else []
    }

    function Tail(chunk: string): string {
      encoder.decode(LastTokens(encoder.encode(chunk)))
    }

    /** Chunk i behind the tail of the original chunk before it. */
    function Prefixed(chunks: seq<string>, i: nat): string
      requires i < |chunks|
    {
      if i == 0 then chunks[0] else Tail(chunks[i - 1]) + SEPARATOR + chunks[i]
    }

    function PrefixedUpTo(chunks: seq<string>, n: nat): (r: seq<string>)
      requires n <= |chunks|
      ensures |r| == n && forall i :: 0 <= i < n ==> r[i] == Prefixed(chunks, i)
    {
      if n == 0 then [] else PrefixedUpTo(chunks, n - 1) + [Prefixed(chunks, n - 1)]
    }

    function ApplyOverlap(chunks: seq<string>): (r: seq<string>)
      ensures |r| == |chunks|
    {
      if overlap == 0 || |chunks| <= 1 then chunks else PrefixedUpTo(chunks, |chunks|)
    }

    /** The final chunk is the chunk behind the last tokens of the one before it: at most `overlap` of them, or, for a
        negative overlap, all but the first `-overlap`. */
    ghost predicate BehindTail(previous: string, chunk: string, final: string) {
      exists before: seq<Token>, tail: seq<Token> ::
        && before + tail == encoder.encode(previous)
        && (overlap > 0 ==> |tail| == overlap || (|tail| < overlap && before == []))
        && (overlap < 0 ==> |before| == -overlap || (|before| < -overlap && tail == []))
        && final == encoder.decode(tail) + "\n\n" + chunk
    }

    /** The first chunk stays as it is, and so do all without an overlap. */
    ghost predicate Overlapped(chunks: seq<string>, final: seq<string>) {
      && |final| == |chunks|
      && (chunks != [] ==> final[0] == chunks[0])
      && (overlap == 0 ==> final == chunks)
      && (overlap != 0 ==> forall i :: 0 < i < |chunks| ==> BehindTail(chunks[i - 1], chunks[i], final[i]))
    }

    function RawChunks(text: string): seq<string>
      requires Valid()
    {
      Render(Pack(chunkSize, Measure(Paragraphs.Paragraphs(text)), []))
    }

    function Chunks(text: string): (r: seq<TextChunk>)
      requires Valid()
    {
      Numbered(ApplyOverlap(RawChunks(text)))
    }

    function Numbered(contents: seq<string>): seq<TextChunk> {
      seq(|contents|, i requires 0 <= i < |contents| => TextChunk(i, contents[i], Count(contents[i])))
    }
  }

  /** The paragraphs of a group, separated by blank lines. */
  function Join(ps: seq<Para>): string {
    if ps == [] then ""
    else if |ps| == 1 then ps[0].text
    else ps[0].text + SEPARATOR + Join(ps[1..])
  }

  lemma {:induction false} JoinIsJoined(ps: seq<Para>)
    ensures Join(ps) == Joined("\n\n", Texts(ps))
  {
    if |ps| > 1 {
      JoinIsJoined(ps[1..]);
      assert Texts(ps)[1..] == Texts(ps[1..]);
    }
  }

  function Texts(ps: seq<Para>): (r: seq<string>)
    ensures |r| == |ps| && forall i :: 0 <= i < |ps| ==> r[i] == ps[i].text
  {
    if ps == [] then [] else [ps[0].text] + Texts(ps[1..])
  }

  // ----- The chunker -----

  class TextChunker {
    const config: Config

    constructor (config: Config)
      ensures this.config == config
    {
      this.config := config;
    }

    /** The public constructor raises unless the chunk size is above the overlap. */
    static method Create(chunkSize: int, overlap: int, encoder: Encoder) returns (r: Result<TextChunker, string>)
      ensures r.Ok? <==> chunkSize > overlap
      ensures r.Ok? ==> r.value.config == Config(chunkSize, overlap, encoder)
      ensures r.Ok? ==> (r.value.config.Valid() <==> chunkSize >= 1)
    {
      if chunkSize <= overlap {
        return Err("chunk_size must be greater than overlap");
      }
      var chunker := new TextChunker(Config(chunkSize, overlap, encoder));
      return Ok(chunker);
    }

    method Chunk(text: string) returns (result: seq<TextChunk>)
      requires config.Valid()
      ensures result == config.Chunks(text)
      ensures forall i :: 0 <= i < |result| ==>
        result[i].index == i && result[i].tokenCount == |config.encoder.encode(result[i].content)|
      ensures exists contents ::
        && config.Overlapped(config.RawChunks(text), contents)
        && |contents| == |result|
        && forall i :: 0 <= i < |result| ==> contents[i] == result[i].content
    {
      var raw := PackParagraphs(config.Measure(Paragraphs.Paragraphs(text)));
      var contents := OverlapChunks(raw);
      result := Number(contents);
    }

    method Number(contents: seq<string>) returns (result: seq<TextChunk>)
      ensures result == config.Numbered(contents)
    {
      result := [];
      for k := 0 to |contents|
        invariant result == config.Numbered(contents)[..k]
      {
        result := result + [TextChunk(k, contents[k], config.Count(contents[k]))];
      }
    }

    /** The packing loop. */
    method PackParagraphs(paragraphs: seq<Para>) returns (chunks: seq<string>)
      requires config.Valid()
      ensures chunks == config.Render(Pack(config.chunkSize, paragraphs, []))
    {
      var buffer: seq<Para>, bufferTokens := [], 0;
      chunks := [];
      assert paragraphs[0..] == paragraphs;
      for i := 0 to |paragraphs|
        invariant bufferTokens == Total(buffer) <= config.chunkSize
        invariant config.Render(Pack(config.chunkSize, paragraphs, [])) ==
                  chunks + config.Render(Pack(config.chunkSize, paragraphs[i..], buffer))
      {
        var para := paragraphs[i];
        assert paragraphs[i..] == [para] + paragraphs[i + 1..];
        if para.tokens > config.chunkSize {
          chunks := AddLong(chunks, buffer, para, paragraphs[i + 1..]);
          buffer, bufferTokens := [], 0;
        } else {
          chunks, buffer, bufferTokens := AddShort(chunks, buffer, bufferTokens, para, paragraphs[i + 1..]);
        }
      }
      RenderFlush(config, buffer);
      if buffer != [] {
        chunks := chunks + [Join(buffer)];
      }
    }

    /** A paragraph above the chunk size: the buffer is flushed and the windows follow. */
    method AddLong(chunks: seq<string>, buffer: seq<Para>, para: Para, ghost rest: seq<Para>)
      returns (chunks': seq<string>)
      requires config.Valid() && para.tokens > config.chunkSize
      ensures chunks + config.Render(Pack(config.chunkSize, [para] + rest, buffer)) ==
              chunks' + config.Render(Pack(config.chunkSize, rest, []))
    {
      RenderLong(config, para, rest, buffer, chunks);
      chunks' := chunks;
      if buffer != [] {
        chunks' := chunks' + [Join(buffer)];
      }
      assert chunks' == chunks + RenderBuffer(buffer);
      var windows, _ := SliceLongText(para.text);
      chunks' := chunks' + windows;
    }

    /** Any other: the buffer is flushed first if the paragraph does not fit into it. */
    method AddShort(chunks: seq<string>, buffer: seq<Para>, bufferTokens: nat, para: Para, ghost rest: seq<Para>)
      returns (chunks': seq<string>, buffer': seq<Para>, bufferTokens': nat)
      requires config.Valid() && para.tokens <= config.chunkSize && bufferTokens == Total(buffer) <= config.chunkSize
      ensures chunks + config.Render(Pack(config.chunkSize, [para] + rest, buffer)) ==
              chunks' + config.Render(Pack(config.chunkSize, rest, buffer'))
      ensures bufferTokens' == Total(buffer') <= config.chunkSize
    {
      RenderShort(config, para, rest, buffer, chunks);
      chunks', buffer', bufferTokens' := chunks, buffer, bufferTokens;
      if bufferTokens' + para.tokens > config.chunkSize {
        chunks' := chunks' + [Join(buffer')];
        buffer', bufferTokens' := [], 0;
        assert [] + [para] == [para];
      }
      TotalSnoc(buffer', para);
      buffer' := buffer' + [para];
      bufferTokens' := bufferTokens' + para.tokens;
    }

    /** Windows of the text; `atBreak` tells that the loop ended at its break, not by running out of starts. */
    method SliceLongText(text: string) returns (result: seq<string>, atBreak: bool)
      requires config.Valid()
      ensures result == config.SliceText(text)
      ensures config.overlap >= 0 && config.encoder.encode(text) != [] ==> atBreak
    {
      ghost var windows;
      result, atBreak, windows := SliceTokens(config.encoder.encode(text));
    }

    method SliceTokens(tokens: seq<Token>) returns (result: seq<string>, atBreak: bool, ghost windows: seq<seq<Token>>)
      requires config.Valid()
      ensures windows == Windows(tokens, config.chunkSize, config.overlap, 0) && result == config.Decoded(windows)
      ensures config.overlap >= 0 && tokens != [] ==> atBreak
    {
      var size := config.chunkSize;
      var step := size - config.overlap;
      windows := [];
      result, atBreak := [], false;
      var start := 0;
      while start < |tokens| && !atBreak
        invariant start >= 0
        invariant result == config.Decoded(windows)
        invariant atBreak ==> windows == Windows(tokens, size, config.overlap, 0)
        invariant !atBreak ==>
          Windows(tokens, size, config.overlap, 0) == windows + Windows(tokens, size, config.overlap, start)
        invariant config.overlap >= 0 && tokens != [] && !atBreak ==> start < |tokens|
        decreases |tokens| - start, !atBreak
      {
        var window := if start + size <= |tokens| then tokens[start..start + size] else tokens[start..];
        FirstWindow(tokens, size, config.overlap, start, window, windows);
        DecodedSnoc(config, windows, window);
        result := result + [config.encoder.decode(window)];
        windows := windows + [window];
        if start + size >= |tokens| {
          atBreak := true;
        } else {
          start := start + step;
        }
      }
    }

    method OverlapChunks(chunks: seq<string>) returns (result: seq<string>)
      ensures result == config.ApplyOverlap(chunks) && config.Overlapped(chunks, result)
    {
      OverlapExact(config, chunks);
      if config.overlap == 0 || |chunks| <= 1 {
        return chunks;
      }
      result := [chunks[0]];
      assert config.PrefixedUpTo(chunks, 1) == config.PrefixedUpTo(chunks, 0) + [chunks[0]];
      for i := 1 to |chunks|
        invariant result == config.PrefixedUpTo(chunks, i)
      {
        var prevTokens := config.encoder.encode(chunks[i - 1]);
        var tail := config.encoder.decode(config.LastTokens(prevTokens));
        result := result + [tail + SEPARATOR + chunks[i]];
      }
    }
  }

  lemma OverlapAt(c: Config, chunks: seq<string>, i: nat)
    requires i < |chunks|
    ensures c.ApplyOverlap(chunks)[i] ==
            if c.overlap == 0 || i == 0 then chunks[i] else c.Tail(chunks[i - 1]) + SEPARATOR + chunks[i]
  {
  }

  /** The tail in front of a chunk is made of the last tokens of the original chunk before it. */
  lemma OverlapExact(c: Config, chunks: seq<string>)
    ensures c.Overlapped(chunks, c.ApplyOverlap(chunks))
  {
    if c.overlap != 0 {
      forall i | 0 < i < |chunks|
        ensures c.BehindTail(chunks[i - 1], chunks[i], c.ApplyOverlap(chunks)[i])
      {
        OverlapAt(c, chunks, i);
        var tail := c.LastTokens(c.encoder.encode(chunks[i - 1]));
        var before := BeforeTail(c, c.encoder.encode(chunks[i - 1]));
      }
    }
  }

  lemma BeforeTail(c: Config, tokens: seq<Token>) returns (before: seq<Token>)
    requires c.overlap != 0
    ensures before + c.LastTokens(tokens) == tokens
    ensures c.overlap > 0 ==> |c.LastTokens(tokens)| == c.overlap || (|c.LastTokens(tokens)| < c.overlap && before == [])
    ensures c.overlap < 0 ==> |before| == -c.overlap || (|before| < -c.overlap && c.LastTokens(tokens) == [])
  {
    before := tokens[..|tokens| - |c.LastTokens(tokens)|];
  }

  lemma {:induction false} RenderAppend(c: Config, a: seq<Piece>, b: seq<Piece>)
    requires c.Valid()
    ensures c.Render(a + b) == c.Render(a) + c.Render(b)
  {
    if a == [] {
      assert a + b == b;
    } else {
      assert (a + b)[1..] == a[1..] + b;
      RenderAppend(c, a[1..], b);
    }
  }

  lemma DecodedSnoc(c: Config, windows: seq<seq<Token>>, window: seq<Token>)
    ensures c.Decoded(windows + [window]) == c.Decoded(windows) + [c.encoder.decode(window)]
  {
    assert (windows + [window])[..|windows|] == windows;
  }

  function RenderBuffer(buffer: seq<Para>): seq<string> {
    if buffer == [] then [] else [Join(buffer)]
  }

  lemma RenderOne(c: Config, piece: Piece)
    requires c.Valid()
    ensures c.Render([piece]) == c.RenderPiece(piece)
  {
    assert [piece][1..] == [];
  }

  lemma RenderFlush(c: Config, buffer: seq<Para>)
    requires c.Valid()
    ensures c.Render(Flush(buffer)) == RenderBuffer(buffer)
  {
    RenderOne(c, Packed(buffer));
  }

  lemma Regroup(a: seq<string>, b: seq<string>, c: seq<string>, d: seq<string>)
    ensures a + (b + c + d) == a + b + c + d
  {
  }

  /** What is still to come when the next paragraph is too long for a chunk. */
  lemma RenderLong(c: Config, para: Para, rest: seq<Para>, buffer: seq<Para>, chunks: seq<string>)
    requires c.Valid() && para.tokens > c.chunkSize
    ensures chunks + c.Render(Pack(c.chunkSize, [para] + rest, buffer)) ==
            chunks + RenderBuffer(buffer) + c.SliceText(para.text) + c.Render(Pack(c.chunkSize, rest, []))
  {
    assert ([para] + rest)[1..] == rest;
    var later := Pack(c.chunkSize, rest, []);
    RenderAppend(c, Flush(buffer) + [Sliced(para)], later);
    RenderAppend(c, Flush(buffer), [Sliced(para)]);
    RenderFlush(c, buffer);
    RenderOne(c, Sliced(para));
    Regroup(chunks, RenderBuffer(buffer), c.SliceText(para.text), c.Render(later));
  }

  /** ... and when it is not. */
  lemma RenderShort(c: Config, para: Para, rest: seq<Para>, buffer: seq<Para>, chunks: seq<string>)
    requires c.Valid() && para.tokens <= c.chunkSize
    ensures chunks + c.Render(Pack(c.chunkSize, [para] + rest, buffer)) ==
            if Total(buffer) + para.tokens > c.chunkSize
            then chunks + [Join(buffer)] + c.Render(Pack(c.chunkSize, rest, [para]))
            else chunks + c.Render(Pack(c.chunkSize, rest, buffer + [para]))
  {
    assert ([para] + rest)[1..] == rest;
    RenderFull(c, buffer, Pack(c.chunkSize, rest, [para]), chunks);
  }

  lemma RenderFull(c: Config, buffer: seq<Para>, later: seq<Piece>, chunks: seq<string>)
    requires c.Valid()
    ensures chunks + c.Render([Packed(buffer)] + later) == chunks + [Join(buffer)] + c.Render(later)
  {
    assert ([Packed(buffer)] + later)[1..] == later;
  }
}
