/** The overlapping windows cut out of the tokens of a long paragraph. */
module TokenWindows {

  type Token = int

  /** The windows from token `start` on, as the loop with its break produces them. */
  function Windows(tokens: seq<Token>, size: nat, overlap: int, start: nat): seq<seq<Token>>
    requires size >= 1 && overlap < size
    decreases |tokens| - start
  {
    if start >= |tokens| then []
    else if start + size >= |tokens| then [tokens[start..]]
    else [tokens[start..start + size]] + Windows(tokens, size, overlap, start + (size - overlap))
  }

  lemma FirstWindow(tokens: seq<Token>, size: nat, overlap: int, start: nat, window: seq<Token>, done: seq<seq<Token>>)
    requires size >= 1 && overlap < size && start < |tokens|
    requires window == if start + size <= |tokens| then tokens[start..start + size] else tokens[start..]
    ensures done + Windows(tokens, size, overlap, start) ==
            if start + size >= |tokens| then done + [window]
            else done + [window] + Windows(tokens, size, overlap, start + (size - overlap))
  {
    assert start + size == |tokens| ==> window == tokens[start..];
  }

  /** Tokens of all windows, the repeated ones of each later window dropped. */
  ghost function Rebuild(windows: seq<seq<Token>>, overlap: int): seq<Token> {
    if windows == [] then [] else windows[0] + RebuildRest(windows[1..], overlap)
  }

  ghost function RebuildRest(windows: seq<seq<Token>>, overlap: int): seq<Token> {
    if windows == [] then []
    else
      (if 0 <= overlap <= |windows[0]| then windows[0][overlap..] else windows[0])
      + RebuildRest(windows[1..], overlap)
  }

  /** Each window is at most `size` tokens, and all but the last are exactly that. */
  lemma {:induction false} WindowSizes(tokens: seq<Token>, size: nat, overlap: nat, start: nat)
    requires size >= 1 && overlap < size && start < |tokens|
    requires start == 0 || start + overlap < |tokens|
    ensures var ws := Windows(tokens, size, overlap, start);
            && ws != []
            && (forall k :: 0 <= k < |ws| ==> 0 < |ws[k]| <= size)
            && (forall k :: 0 <= k < |ws| - 1 ==> |ws[k]| == size)
    decreases |tokens| - start
  {
    if start + size < |tokens| {
      WindowSizes(tokens, size, overlap, start + (size - overlap));
    }
  }

  /** The last window ends with the text. */
  lemma {:induction false} LastWindow(tokens: seq<Token>, size: nat, overlap: nat, start: nat)
    requires size >= 1 && overlap < size && start < |tokens|
    requires start == 0 || start + overlap < |tokens|
    ensures var ws := Windows(tokens, size, overlap, start);
            && ws != [] && |ws[|ws| - 1]| <= |tokens|
            && ws[|ws| - 1] == tokens[|tokens| - |ws[|ws| - 1]|..]
    decreases |tokens| - start
  {
    if start + size < |tokens| {
      var next := start + (size - overlap);
      LastWindow(tokens, size, overlap, next);
      var first, rest := tokens[start..start + size], Windows(tokens, size, overlap, next);
      assert Windows(tokens, size, overlap, start) == [first] + rest;
    }
  }

  /** Consecutive windows share exactly `overlap` tokens. */
  lemma {:induction false} WindowsShare(tokens: seq<Token>, size: nat, overlap: nat, start: nat, k: nat)
    requires size >= 1 && overlap < size && start < |tokens|
    requires start == 0 || start + overlap < |tokens|
    requires k + 1 < |Windows(tokens, size, overlap, start)|
    ensures var ws := Windows(tokens, size, overlap, start);
            && |ws[k]| == size && |ws[k + 1]| > overlap
            && ws[k][size - overlap..] == ws[k + 1][..overlap]
    decreases |tokens| - start
  {
    var next := start + (size - overlap);
    assert Windows(tokens, size, overlap, start) ==
           [tokens[start..start + size]] + Windows(tokens, size, overlap, next);
    if k > 0 {
      WindowsShare(tokens, size, overlap, next, k - 1);
    } else {
      FirstTwoShare(tokens, size, overlap, start);
    }
  }

  lemma FirstTwoShare(tokens: seq<Token>, size: nat, overlap: nat, start: nat)
    requires overlap < size && start + size < |tokens|
    ensures var second := Windows(tokens, size, overlap, start + (size - overlap));
            && second != [] && |second[0]| > overlap
            && tokens[start..start + size][size - overlap..] == second[0][..overlap]
  {
    var next := start + (size - overlap);
    var second := if next + size >= |tokens| then tokens[next..] else tokens[next..next + size];
    assert second[..overlap] == tokens[next..start + size];
    assert tokens[start..start + size][size - overlap..] == tokens[next..start + size];
  }

  lemma {:induction false} RebuildRestTokens(tokens: seq<Token>, size: nat, overlap: nat, start: nat)
    requires size >= 1 && overlap < size && start + overlap < |tokens|
    ensures RebuildRest(Windows(tokens, size, overlap, start), overlap) == tokens[start + overlap..]
    decreases |tokens| - start
  {
    var ws := Windows(tokens, size, overlap, start);
    if start + size >= |tokens| {
      assert ws == [tokens[start..]] && ws[1..] == [];
    } else {
      var next := start + (size - overlap);
      RebuildRestTokens(tokens, size, overlap, next);
      assert ws[1..] == Windows(tokens, size, overlap, next);
      assert tokens[start..start + size][overlap..] + tokens[start + size..] == tokens[start + overlap..];
    }
  }

  /** Dropping the shared tokens from every later window gives back the token list. */
  lemma WindowsRebuild(tokens: seq<Token>, size: nat, overlap: nat)
    requires size >= 1 && overlap < size
    ensures Rebuild(Windows(tokens, size, overlap, 0), overlap) == tokens
  {
    var ws := Windows(tokens, size, overlap, 0);
    if |tokens| > size {
      RebuildRestTokens(tokens, size, overlap, size - overlap);
      assert ws[1..] == Windows(tokens, size, overlap, size - overlap);
      assert tokens[..size] + tokens[size..] == tokens;
    } else if tokens != [] {
      assert ws == [tokens] && ws[1..] == [];
    }
  }

  /** How many steps of `b` it takes to cover `a`. */
  function CeilDiv(a: nat, b: nat): nat
    requires b > 0
  {
    if a == 0 then 0 else 1 + CeilDiv(if a >= b then a - b else 0, b)
  }

  lemma {:induction false} CeilDivLeast(a: nat, b: nat)
    requires b > 0
    ensures (CeilDiv(a, b) - 1) * b < a <= CeilDiv(a, b) * b || (a == 0 && CeilDiv(a, b) == 0)
  {
    if a > b {
      CeilDivLeast(a - b, b);
    }
  }

  lemma {:induction false} WindowCountFrom(tokens: seq<Token>, size: nat, overlap: nat, start: nat)
    requires size >= 1 && overlap < size && start < |tokens|
    requires start == 0 || start + overlap < |tokens|
    ensures |Windows(tokens, size, overlap, start)| ==
            1 + CeilDiv(if start + size < |tokens| then |tokens| - start - size else 0, size - overlap)
    decreases |tokens| - start
  {
    var step := size - overlap;
    if start + size < |tokens| {
      WindowCountFrom(tokens, size, overlap, start + step);
    }
  }

  /** One window for a text that fits, else one more for each step that is left. */
  lemma WindowCount(tokens: seq<Token>, size: nat, overlap: nat)
    requires size >= 1 && overlap < size
    ensures |Windows(tokens, size, overlap, 0)| ==
            if tokens == [] then 0
            else if |tokens| <= size then 1
            else 1 + CeilDiv(|tokens| - size, size - overlap)
  {
    if tokens != [] {
      WindowCountFrom(tokens, size, overlap, 0);
    }
  }

  /** With a negative overlap the windows from `start` on are disjoint, so they hold no more tokens than are left. */
  lemma {:induction false} NegativeRest(tokens: seq<Token>, size: nat, overlap: int, start: nat)
    requires size >= 1 && overlap < 0
    ensures |RebuildRest(Windows(tokens, size, overlap, start), overlap)| <=
            if start < |tokens| then |tokens| - start else 0
    decreases |tokens| - start
  {
    var ws := Windows(tokens, size, overlap, start);
    if start < |tokens| {
      assert RebuildRest(ws, overlap) == ws[0] + RebuildRest(ws[1..], overlap);
      if start + size >= |tokens| {
        assert ws[1..] == [];
      } else {
        var next := start + (size - overlap);
        NegativeRest(tokens, size, overlap, next);
        assert ws[1..] == Windows(tokens, size, overlap, next);
      }
    }
  }

  /** The constructor accepts a negative overlap, and then windows skip tokens: a token list is rebuilt exactly when the
      overlap is not negative or the list fits into one window. */
  lemma RebuildsIff(tokens: seq<Token>, size: nat, overlap: int)
    requires size >= 1 && overlap < size
    ensures Rebuild(Windows(tokens, size, overlap, 0), overlap) == tokens <==> overlap >= 0 || |tokens| <= size
  {
    var ws := Windows(tokens, size, overlap, 0);
    if overlap >= 0 {
      WindowsRebuild(tokens, size, overlap);
    } else if |tokens| <= size {
      assert tokens != [] ==> ws == [tokens] && ws[1..] == [];
    } else {
      NegativeRest(tokens, size, overlap, size - overlap);
      assert ws[1..] == Windows(tokens, size, overlap, size - overlap);
    }
  }

  /** So all token lists are rebuilt exactly when the overlap is not negative. */
  lemma RebuildsIffNonNegative(size: nat, overlap: int)
    requires size >= 1 && overlap < size
    ensures (forall tokens :: Rebuild(Windows(tokens, size, overlap, 0), overlap) == tokens) <==> overlap >= 0
  {
    forall tokens: seq<Token>
      ensures Rebuild(Windows(tokens, size, overlap, 0), overlap) == tokens <==> overlap >= 0 || |tokens| <= size
    {
      RebuildsIff(tokens, size, overlap);
    }
    var long: seq<Token> := seq(size + 1, i => i);
    assert Rebuild(Windows(long, size, overlap, 0), overlap) == long <==> overlap >= 0;
  }
}
