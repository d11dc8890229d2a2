/** Greedy packing of paragraphs into chunks of bounded token count. */
module Packing {

  /** A paragraph and the token count the tokenizer gives it. */
  datatype Para = Para(text: string, tokens: nat)

  /** Some paragraphs joined into one chunk, or one long paragraph to be cut into windows. */
  datatype Piece = Packed(group: seq<Para>) | Sliced(para: Para) {
    function Paras(): seq<Para> {
      match this
      case Packed(ps) => ps
      case Sliced(p) => [p]
    }
  }

  function Total(paras: seq<Para>): nat {
    if paras == [] then 0 else paras[0].tokens + Total(paras[1..])
  }

  function AllParas(pieces: seq<Piece>): seq<Para> {
    if pieces == [] then [] else pieces[0].Paras() + AllParas(pieces[1..])
  }

  function Flush(buffer: seq<Para>): seq<Piece> {
    if buffer == [] then [] else [Packed(buffer)]
  }

  /** The pieces still to come when `buffer` is open. */
  function Pack(size: nat, paras: seq<Para>, buffer: seq<Para>): seq<Piece>
    decreases |paras|
  {
    if paras == [] then Flush(buffer)
    else if paras[0].tokens > size then Flush(buffer) + [Sliced(paras[0])] + Pack(size, paras[1..], [])
    else if Total(buffer) + paras[0].tokens > size then [Packed(buffer)] + Pack(size, paras[1..], [paras[0]])
    else Pack(size, paras[1..], buffer + [paras[0]])
  }

  ghost predicate Short(size: nat, paras: seq<Para>) {
    forall i :: 0 <= i < |paras| ==> paras[i].tokens <= size
  }

  ghost predicate Fits(size: nat, piece: Piece) {
    match piece
    case Packed(ps) => ps != [] && Total(ps) <= size && Short(size, ps)
    case Sliced(p) => p.tokens > size
  }

  /** Two packed neighbours could not have been packed together: not even the next paragraph would have fitted. */
  ghost predicate Apart(size: nat, a: Piece, b: Piece) {
    a.Packed? && b.Packed? && b.group != [] ==> Total(a.group) + b.group[0].tokens > size
  }

  ghost predicate Greedy(size: nat, pieces: seq<Piece>) {
    && (forall i :: 0 <= i < |pieces| ==> Fits(size, pieces[i]))
    && (forall i :: 0 < i < |pieces| ==> Apart(size, pieces[i - 1], pieces[i]))
  }

  lemma {:induction false} TotalAppend(a: seq<Para>, b: seq<Para>)
    ensures Total(a + b) == Total(a) + Total(b)
  {
    if a == [] {
      assert a + b == b;
    } else {
      assert (a + b)[1..] == a[1..] + b;
      TotalAppend(a[1..], b);
    }
  }

  lemma TotalSnoc(a: seq<Para>, p: Para)
    ensures Total(a + [p]) == Total(a) + p.tokens
  {
    TotalAppend(a, [p]);
    assert Total([p]) == p.tokens + Total([]);
  }

  /** Putting a piece before a greedy packing that it does not fit with. */
  lemma GreedyCons(size: nat, piece: Piece, rest: seq<Piece>)
    requires Fits(size, piece) && Greedy(size, rest) && (rest != [] ==> Apart(size, piece, rest[0]))
    ensures Greedy(size, [piece] + rest)
    ensures AllParas([piece] + rest) == piece.Paras() + AllParas(rest)
  {
    assert ([piece] + rest)[1..] == rest;
  }

  /** A packing of `buffer` and then `paras` that keeps every paragraph in order and is greedy; an open buffer
      starts its first piece. */
  ghost predicate PackedWell(size: nat, pieces: seq<Piece>, buffer: seq<Para>, paras: seq<Para>) {
    && AllParas(pieces) == buffer + paras
    && Greedy(size, pieces)
    && (buffer != [] ==>
          pieces != [] && pieces[0].Packed? && pieces[0].group != [] && pieces[0].group[0] == buffer[0])
  }

  lemma FlushWell(size: nat, buffer: seq<Para>, later: seq<Piece>, paras: seq<Para>)
    requires Total(buffer) <= size && Short(size, buffer) && PackedWell(size, later, [], paras)
    requires buffer != [] && later != [] ==> Apart(size, Packed(buffer), later[0])
    ensures PackedWell(size, Flush(buffer) + later, buffer, paras)
  {
    if buffer == [] {
      assert Flush(buffer) + later == later;
    } else {
      GreedyCons(size, Packed(buffer), later);
      assert AllParas(later) == paras;
    }
  }

  lemma SliceWell(size: nat, p: Para, later: seq<Piece>, paras: seq<Para>)
    requires p.tokens > size && PackedWell(size, later, [], paras)
    ensures PackedWell(size, [Sliced(p)] + later, [], [p] + paras)
  {
    GreedyCons(size, Sliced(p), later);
    assert AllParas(later) == paras;
  }

  lemma {:induction false} PackIsGreedy(size: nat, paras: seq<Para>, buffer: seq<Para>)
    requires Total(buffer) <= size && Short(size, buffer)
    ensures PackedWell(size, Pack(size, paras, buffer), buffer, paras)
    decreases |paras|
  {
    if paras == [] {
      FlushWell(size, buffer, [], []);
      assert Flush(buffer) + [] == Flush(buffer);
    } else {
      var p, rest := paras[0], paras[1..];
      assert paras == [p] + rest;
      TotalSnoc(buffer, p);
      if p.tokens > size {
        var later := Pack(size, rest, []);
        PackIsGreedy(size, rest, []);
        SliceWell(size, p, later, rest);
        FlushWell(size, buffer, [Sliced(p)] + later, paras);
        assert Flush(buffer) + [Sliced(p)] + later == Flush(buffer) + ([Sliced(p)] + later);
      } else if Total(buffer) + p.tokens > size {
        assert Total([p]) == p.tokens + Total([]);
        PackIsGreedy(size, rest, [p]);
        FlushWell(size, buffer, Pack(size, rest, [p]), paras);
      } else {
        PackIsGreedy(size, rest, buffer + [p]);
        assert buffer + [p] + rest == buffer + paras;
      }
    }
  }

  lemma GreedyTail(size: nat, pieces: seq<Piece>)
    requires Greedy(size, pieces) && pieces != []
    ensures Greedy(size, pieces[1..])
    ensures pieces[0].Paras() != [] && AllParas(pieces) != [] && AllParas(pieces)[0] == pieces[0].Paras()[0]
  {
    assert Fits(size, pieces[0]);
    forall i | 0 < i < |pieces[1..]|
      ensures Apart(size, pieces[1..][i - 1], pieces[1..][i])
    {
      assert Apart(size, pieces[i], pieces[i + 1]);
    }
  }

  lemma TotalPrefix(paras: seq<Para>, n: nat)
    requires n <= |paras|
    ensures Total(paras[..n]) <= Total(paras)
  {
    TotalAppend(paras[..n], paras[n..]);
    assert paras[..n] + paras[n..] == paras;
  }

  /** The paragraph after a packed piece would not have fitted into it. */
  lemma NextDoesNotFit(size: nat, a: seq<Piece>)
    requires Greedy(size, a) && a != [] && a[0].Packed? && |AllParas(a)| > |a[0].group|
    ensures var q := AllParas(a)[|a[0].group|]; q.tokens > size || Total(a[0].group) + q.tokens > size
  {
    GreedyTail(size, a);
    if |a| > 1 {
      GreedyTail(size, a[1..]);
      assert Apart(size, a[0], a[1]) && Fits(size, a[1]);
    }
  }

  /** So its end is forced: no group of paragraphs that starts there and fits is longer. */
  lemma EndForced(size: nat, a: seq<Piece>, ys: seq<Para>)
    requires Greedy(size, a) && a != [] && a[0].Packed? && Fits(size, Packed(ys)) && ys <= AllParas(a)
    ensures |ys| <= |a[0].group|
  {
    var xs := a[0].group;
    var n := |xs|;
    if n < |ys| {
      assert AllParas(a)[..n] == xs;
      assert ys[..n + 1] == xs + [ys[n]];
      TotalSnoc(xs, ys[n]);
      TotalPrefix(ys, n + 1);
      NextDoesNotFit(size, a);
    }
  }

  lemma SameHead(size: nat, a: seq<Piece>, b: seq<Piece>)
    requires Greedy(size, a) && Greedy(size, b) && AllParas(a) == AllParas(b) && a != [] && b != []
    ensures a[0] == b[0]
  {
    GreedyTail(size, a);
    GreedyTail(size, b);
    assert Fits(size, a[0]) && Fits(size, b[0]);
    var xs, ys := a[0].Paras(), b[0].Paras();
    assert xs == AllParas(a)[..|xs|] && ys == AllParas(b)[..|ys|];
    if a[0].Packed? && b[0].Packed? {
      EndForced(size, a, ys);
      EndForced(size, b, xs);
    }
  }

  /** There is only one greedy packing of a list of paragraphs. */
  lemma {:induction false} GreedyUnique(size: nat, a: seq<Piece>, b: seq<Piece>)
    requires Greedy(size, a) && Greedy(size, b) && AllParas(a) == AllParas(b)
    ensures a == b
  {
    if a == [] && b != [] {
      GreedyTail(size, b);
    } else if b == [] && a != [] {
      GreedyTail(size, a);
    } else if a != [] {
      SameHead(size, a, b);
      GreedyTail(size, a);
      GreedyTail(size, b);
      var n := |a[0].Paras()|;
      assert AllParas(a[1..]) == AllParas(a)[n..] && AllParas(b[1..]) == AllParas(b)[n..];
      GreedyUnique(size, a[1..], b[1..]);
      assert a == [a[0]] + a[1..] && b == [b[0]] + b[1..];
    }
  }

  /** The pieces are the one greedy packing of the paragraphs, and nothing else is. */
  lemma PackIsTheGreedy(size: nat, paras: seq<Para>, pieces: seq<Piece>)
    ensures pieces == Pack(size, paras, []) <==> Greedy(size, pieces) && AllParas(pieces) == paras
  {
    PackIsGreedy(size, paras, []);
    assert [] + paras == paras;
    if Greedy(size, pieces) && AllParas(pieces) == paras {
      GreedyUnique(size, pieces, Pack(size, paras, []));
    }
  }

  ghost predicate NoneSliced(pieces: seq<Piece>) {
    forall i :: 0 <= i < |pieces| ==> pieces[i].Packed?
  }

  /** Two packed neighbours hold more than one chunk size. */
  lemma {:induction false} FewPieces(size: nat, pieces: seq<Piece>)
    requires Greedy(size, pieces) && pieces != [] && NoneSliced(pieces)
    ensures 2 * Total(AllParas(pieces)) >= (|pieces| - 1) * (size + 1) + Total(pieces[0].group)
  {
    TotalAppend(pieces[0].group, AllParas(pieces[1..]));
    if |pieces| > 1 {
      GreedyTail(size, pieces);
      FewPieces(size, pieces[1..]);
      assert Apart(size, pieces[0], pieces[1]) && Fits(size, pieces[1]);
      assert Total(pieces[1].group) >= pieces[1].group[0].tokens;
      Distribute(|pieces| - 2, size + 1);
    }
  }

  lemma Distribute(n: int, k: int)
    ensures (n + 1) * k == n * k + k
  {
  }

  lemma {:induction false} ShortNotSliced(size: nat, pieces: seq<Piece>)
    requires Greedy(size, pieces) && Short(size, AllParas(pieces))
    ensures NoneSliced(pieces)
  {
    if pieces != [] {
      GreedyTail(size, pieces);
      var n := |pieces[0].Paras()|;
      assert AllParas(pieces[1..]) == AllParas(pieces)[n..];
      ShortNotSliced(size, pieces[1..]);
      assert Fits(size, pieces[0]) && AllParas(pieces)[0].tokens <= size;
      assert forall i :: 0 < i < |pieces| ==> pieces[i] == pieces[1..][i - 1];
    }
  }

  /** T tokens without a long paragraph make at most 2T / size + 1 pieces. */
  lemma PieceBound(size: nat, paras: seq<Para>)
    requires size >= 1 && Short(size, paras)
    ensures |Pack(size, paras, [])| <= 2 * Total(paras) / size + 1
  {
    var pieces := Pack(size, paras, []);
    PackIsGreedy(size, paras, []);
    assert [] + paras == paras;
    if pieces != [] {
      ShortNotSliced(size, pieces);
      FewPieces(size, pieces);
      QuotientBound(|pieces| - 1, size, 2 * Total(paras));
    }
  }

  lemma QuotientBound(n: nat, size: nat, t: nat)
    requires size >= 1 && n * (size + 1) <= t
    ensures n <= t / size
  {
    var q := t / size;
    assert t < (q + 1) * size;
    assert n * size + n <= t;
    if q < n {
      Monotone(q + 1, n, size);
    }
  }

  lemma Monotone(a: nat, b: nat, k: nat)
    requires a <= b
    ensures a * k <= b * k
  {
  }
}
