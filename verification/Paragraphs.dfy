/** Splitting a text into its paragraphs: Python's `strip` and `split`, and what they lose. */
module Paragraphs {

  const SEPARATOR := "\n\n"

  /** The characters Python strips. */
  predicate IsSpace(c: char) {
    || '\t' <= c <= '\r' || '\U{1c}' <= c <= ' ' || c == '\U{85}' || c == '\U{a0}' || c == '\U{1680}'
    || '\U{2000}' <= c <= '\U{200a}' || c == '\U{2028}' || c == '\U{2029}' || c == '\U{202f}' || c == '\U{205f}'
    || c == '\U{3000}'
  }

  lemma SpacesListed(c: char)
    ensures IsSpace(c) <==>
      c in "\t\n\U{b}\U{c}\r\U{1c}\U{1d}\U{1e}\U{1f} \U{85}\U{a0}\U{1680}\U{2000}\U{2001}\U{2002}\U{2003}\U{2004}"
         + "\U{2005}\U{2006}\U{2007}\U{2008}\U{2009}\U{200a}\U{2028}\U{2029}\U{202f}\U{205f}\U{3000}"
  {
  }

  function StripLeft(s: string): (r: string)
    ensures r != "" ==> !IsSpace(r[0])
    ensures |r| <= |s|
  {
    if s == "" then "" else if IsSpace(s[0]) then StripLeft(s[1..]) else s
  }

  function StripRight(s: string): (r: string)
    ensures r <= s
    ensures r != "" ==> !IsSpace(r[|r| - 1])
  {
    if s == "" then "" else if IsSpace(s[|s| - 1]) then StripRight(s[..|s| - 1]) else s
  }

  function Strip(s: string): string {
    StripRight(StripLeft(s))
  }

  /** Python's `split` on a blank line: leftmost matches that do not overlap. */
  function Split(s: string): (parts: seq<string>)
    ensures |parts| >= 1
  {
    if s == "" then [""]
    else if SEPARATOR <= s then [""] + Split(s[2..])
    else
      var rest := Split(s[1..]);
      [[s[0]] + rest[0]] + rest[1..]
  }

  function NonEmpty(parts: seq<string>): seq<string> {
    if parts == [] then []
    else (if Strip(parts[0]) == "" then [] else [Strip(parts[0])]) + NonEmpty(parts[1..])
  }

  function Paragraphs(text: string): seq<string> {
    if Strip(text) == "" then [] else NonEmpty(Split(Strip(text)))
  }

  /** The characters that are not white space, in order. */
  function Ink(s: string): string {
    if s == "" then "" else (if IsSpace(s[0]) then "" else [s[0]]) + Ink(s[1..])
  }

  function Flatten<T>(parts: seq<seq<T>>): seq<T> {
    if parts == [] then [] else parts[0] + Flatten(parts[1..])
  }

  lemma {:induction false} InkAppend(a: string, b: string)
    ensures Ink(a + b) == Ink(a) + Ink(b)
  {
    if a == "" {
      assert a + b == b;
    } else {
      assert (a + b)[1..] == a[1..] + b;
      InkAppend(a[1..], b);
    }
  }

  lemma {:induction false} InkStripLeft(s: string)
    ensures Ink(StripLeft(s)) == Ink(s)
  {
    if s != "" && IsSpace(s[0]) {
      InkStripLeft(s[1..]);
    }
  }

  lemma {:induction false} InkStripRight(s: string)
    ensures Ink(StripRight(s)) == Ink(s)
  {
    if s != "" && IsSpace(s[|s| - 1]) {
      InkStripRight(s[..|s| - 1]);
      assert s == s[..|s| - 1] + [s[|s| - 1]];
      InkAppend(s[..|s| - 1], [s[|s| - 1]]);
      assert [s[|s| - 1]][1..] == "";
    }
  }

  lemma InkStrip(s: string)
    ensures Ink(Strip(s)) == Ink(s)
    ensures Strip(s) == "" <==> Ink(s) == ""
  {
    InkStripLeft(s);
    InkStripRight(StripLeft(s));
    var r := Strip(s);
    if r != "" {
      var init, last := r[..|r| - 1], [r[|r| - 1]];
      assert r == init + last && last[1..] == "";
      InkAppend(init, last);
    }
  }

  lemma FlattenCons<T>(head: seq<T>, rest: seq<seq<T>>)
    ensures Flatten([head] + rest) == head + Flatten(rest)
  {
    assert ([head] + rest)[1..] == rest;
  }

  /** A separator holds no ink. */
  lemma InkSeparatorFirst(s: string)
    requires SEPARATOR <= s
    ensures Ink(s) == Ink(s[2..])
  {
    assert s[0] == '\n' && s[1] == '\n' && s[1..][1..] == s[2..];
  }

  lemma {:induction false} InkSplit(s: string)
    ensures Ink(Flatten(Split(s))) == Ink(s)
  {
    if s == "" {
      FlattenCons("", []);
    } else if SEPARATOR <= s {
      InkSplit(s[2..]);
      InkSeparatorFirst(s);
      FlattenCons("", Split(s[2..]));
      assert "" + Flatten(Split(s[2..])) == Flatten(Split(s[2..]));
    } else {
      InkSplit(s[1..]);
      SplitFirst([s[0]], Split(s[1..]));
      assert ([s[0]] + Flatten(Split(s[1..])))[1..] == Flatten(Split(s[1..]));
    }
  }

  lemma SplitFirst(c: string, rest: seq<string>)
    requires rest != []
    ensures Flatten([c + rest[0]] + rest[1..]) == c + Flatten(rest)
  {
    FlattenCons(c + rest[0], rest[1..]);
  }

  lemma {:induction false} InkNonEmpty(parts: seq<string>)
    ensures Ink(Flatten(NonEmpty(parts))) == Ink(Flatten(parts))
    ensures forall p :: p in NonEmpty(parts) ==> Ink(p) != ""
  {
    if parts != [] {
      var head, rest := Strip(parts[0]), NonEmpty(parts[1..]);
      InkNonEmpty(parts[1..]);
      InkStrip(parts[0]);
      InkStrip(head);
      InkAppend(parts[0], Flatten(parts[1..]));
      InkAppend(head, Flatten(rest));
      if head != "" {
        assert NonEmpty(parts) == [head] + rest && ([head] + rest)[1..] == rest;
      } else {
        assert NonEmpty(parts) == rest;
      }
    }
  }

  /** Splitting into paragraphs loses nothing but white space, and no paragraph is blank. */
  lemma ParagraphsKeepInk(text: string)
    ensures Ink(Flatten(Paragraphs(text))) == Ink(text)
    ensures forall p :: p in Paragraphs(text) ==> Ink(p) != ""
    ensures Paragraphs(text) == [] <==> Ink(text) == ""
  {
    InkStrip(text);
    InkSplit(Strip(text));
    InkNonEmpty(Split(Strip(text)));
    var ps := Paragraphs(text);
    if ps != [] {
      InkAppend(ps[0], Flatten(ps[1..]));
      assert ps[0] in ps;
    }
  }

  // ----- What splitting is -----

  /** Python's `join`. */
  function Joined(separator: string, parts: seq<string>): string {
    if parts == [] then ""
    else if |parts| == 1 then parts[0]
    else parts[0] + separator + Joined(separator, parts[1..])
  }

  ghost predicate BlankAt(part: string, i: int) {
    0 <= i < |part| - 1 && part[i] == '\n' && part[i + 1] == '\n'
  }

  ghost predicate HoldsBlankLine(part: string) {
    exists i :: BlankAt(part, i)
  }

  /** The parts join to the text, none holds a blank line, and each blank line is the leftmost possible. */
  ghost predicate IsSplit(parts: seq<string>, s: string) {
    && parts != []
    && Joined("\n\n", parts) == s
    && (forall i :: 0 <= i < |parts| ==> !HoldsBlankLine(parts[i]))
    && (forall i :: 0 <= i < |parts| - 1 && parts[i] != "" ==> parts[i][|parts[i]| - 1] != '\n')
  }

  lemma JoinedCons(head: string, rest: seq<string>)
    ensures Joined("\n\n", [head] + rest) == if rest == [] then head else head + "\n\n" + Joined("\n\n", rest)
  {
    assert ([head] + rest)[1..] == rest;
  }

  lemma Regroup(a: string, b: string, c: string, d: string)
    ensures a + b + c + d == a + (b + c + d)
  {
  }

  lemma JoinedFirst(parts: seq<string>, c: string)
    requires parts != []
    ensures Joined("\n\n", [c + parts[0]] + parts[1..]) == c + Joined("\n\n", parts)
  {
    JoinedCons(c + parts[0], parts[1..]);
    if |parts| > 1 {
      Regroup(c, parts[0], "\n\n", Joined("\n\n", parts[1..]));
    }
  }

  lemma JoinedStart(parts: seq<string>)
    requires parts != []
    ensures parts[0] != "" ==> Joined("\n\n", parts) != "" && Joined("\n\n", parts)[0] == parts[0][0]
    ensures |parts[0]| > 1 ==> |Joined("\n\n", parts)| > 1 && Joined("\n\n", parts)[1] == parts[0][1]
    ensures |parts| > 1 && |parts[0]| <= 1 ==> |Joined("\n\n", parts)| > 1 && Joined("\n\n", parts)[|parts[0]|] == '\n'
    ensures |parts| > 1 && parts[0] == "" ==> Joined("\n\n", parts) == "\n\n" + Joined("\n\n", parts[1..])
  {
  }

  lemma {:induction false} SplitIsSplit(s: string)
    ensures IsSplit(Split(s), s)
  {
    if s == "" {
    } else if SEPARATOR <= s {
      SplitIsSplit(s[2..]);
      BlankLineFirst(s, Split(s[2..]));
    } else {
      SplitIsSplit(s[1..]);
      LongerSplit(s, Split(s[1..]));
    }
  }

  lemma BlankLineFirst(s: string, rest: seq<string>)
    requires |s| > 1 && s[0] == '\n' && s[1] == '\n' && IsSplit(rest, s[2..])
    ensures IsSplit([""] + rest, s)
  {
    JoinedCons("", rest);
    NothingBefore("\n\n", s[2..]);
    assert s == "\n\n" + s[2..];
    var parts := [""] + rest;
    forall i | 0 <= i < |parts|
      ensures !HoldsBlankLine(parts[i])
    {
      assert i > 0 ==> parts[i] == rest[i - 1];
    }
    assert forall i :: 0 < i < |parts| ==> parts[i] == rest[i - 1];
  }

  lemma NothingBefore(a: string, b: string)
    ensures "" + a + b == a + b
  {
  }

  lemma LongerSplit(s: string, rest: seq<string>)
    requires s != "" && !BlankAt(s, 0) && IsSplit(rest, s[1..])
    ensures IsSplit([[s[0]] + rest[0]] + rest[1..], s)
  {
    var longer := [[s[0]] + rest[0]] + rest[1..];
    JoinedFirst(rest, [s[0]]);
    assert s == [s[0]] + s[1..];
    LongerPart(s, rest);
    assert forall i :: 0 < i < |longer| ==> longer[i] == rest[i];
  }

  /** A character in front of the first part, where no blank line starts. */
  lemma LongerPart(s: string, rest: seq<string>)
    requires s != "" && !BlankAt(s, 0) && IsSplit(rest, s[1..])
    ensures !HoldsBlankLine([s[0]] + rest[0])
    ensures |rest| > 1 ==> ([s[0]] + rest[0])[|rest[0]|] != '\n'
  {
    JoinedStart(rest);
    var part := [s[0]] + rest[0];
    assert rest[0] != "" ==> s[1] == rest[0][0];
    forall i
      ensures !BlankAt(part, i)
    {
      assert !BlankAt(rest[0], i - 1);
    }
  }

  lemma ShorterPart(part: string)
    requires part != "" && !HoldsBlankLine(part)
    ensures !HoldsBlankLine(part[1..])
  {
    forall i
      ensures !BlankAt(part[1..], i)
    {
      assert !BlankAt(part, i + 1);
    }
  }

  lemma {:induction false} SplitIsUnique(parts: seq<string>, s: string)
    requires IsSplit(parts, s)
    ensures parts == Split(s)
    decreases |s|
  {
    JoinedStart(parts);
    if s == "" {
      assert parts == [""];
    } else if SEPARATOR <= s {
      assert BlankAt(s, 0);
      assert !BlankAt(parts[0], 0);
      assert parts[0] == "";
      assert s == "\n\n" + s[2..];
      SplitIsUnique(parts[1..], s[2..]);
      assert [""] + parts[1..] == parts;
    } else {
      assert parts[0] != "";
      ShorterSplit(parts, s);
      var shorter := [parts[0][1..]] + parts[1..];
      SplitIsUnique(shorter, s[1..]);
      assert [s[0]] + shorter[0] == parts[0];
      assert [parts[0]] + shorter[1..] == parts;
    }
  }

  lemma ShorterSplit(parts: seq<string>, s: string)
    requires IsSplit(parts, s) && s != "" && parts[0] != ""
    ensures parts[0][0] == s[0] && IsSplit([parts[0][1..]] + parts[1..], s[1..])
  {
    var shorter := [parts[0][1..]] + parts[1..];
    JoinedStart(parts);
    JoinedFirst(shorter, [s[0]]);
    assert [s[0]] + shorter[0] == parts[0] && [parts[0]] + shorter[1..] == parts;
    assert ([s[0]] + Joined("\n\n", shorter))[1..] == Joined("\n\n", shorter);
    ShorterPart(parts[0]);
    assert forall i :: 0 < i < |shorter| ==> shorter[i] == parts[i];
  }

  /** Splitting has exactly one result: the parts that join to the text, none with a blank line in it and none but the
      last with a newline at its end. */
  lemma SplitIff(parts: seq<string>, s: string)
    ensures parts == Split(s) <==> IsSplit(parts, s)
  {
    SplitIsSplit(s);
    if IsSplit(parts, s) {
      SplitIsUnique(parts, s);
    }
  }

  ghost predicate AllSpace(s: string) {
    forall i :: 0 <= i < |s| ==> IsSpace(s[i])
  }

  lemma {:induction false} StripLeftExact(s: string) returns (before: string)
    ensures s == before + StripLeft(s) && AllSpace(before)
  {
    before := "";
    if s != "" && IsSpace(s[0]) {
      before := StripLeftExact(s[1..]);
      before := [s[0]] + before;
    }
  }

  lemma {:induction false} StripRightExact(s: string) returns (after: string)
    ensures s == StripRight(s) + after && AllSpace(after)
    ensures StripRight(s) != "" ==> StripRight(s)[0] == s[0]
  {
    after := "";
    if s != "" && IsSpace(s[|s| - 1]) {
      after := StripRightExact(s[..|s| - 1]);
      after := after + [s[|s| - 1]];
    }
  }

  /** Stripping takes white space off both ends, and all of it. */
  lemma StripExact(s: string) returns (before: string, after: string)
    ensures s == before + Strip(s) + after && AllSpace(before) && AllSpace(after)
    ensures Strip(s) != "" ==> !IsSpace(Strip(s)[0]) && !IsSpace(Strip(s)[|Strip(s)| - 1])
  {
    before := StripLeftExact(s);
    after := StripRightExact(StripLeft(s));
    assert before + (Strip(s) + after) == before + Strip(s) + after;
  }

  ghost predicate Rising(at: seq<nat>, n: nat) {
    && (forall k :: 0 <= k < |at| ==> n <= at[k])
    && (forall k, l :: 0 <= k < l < |at| ==> at[k] < at[l])
  }

  ghost predicate Listed(parts: seq<string>, found: seq<string>, at: seq<nat>) {
    && |at| == |found|
    && (forall k :: 0 <= k < |at| ==> at[k] < |parts| && found[k] == Strip(parts[at[k]]) != "")
  }

  /** The texts found are the stripped parts at the given places, in order; parts from n on at other places are blank. */
  ghost predicate StrippedAt(parts: seq<string>, n: nat, found: seq<string>, at: seq<nat>) {
    && Rising(at, n)
    && Listed(parts, found, at)
    && (forall j :: n <= j < |parts| && Strip(parts[j]) != "" ==> j in at)
  }

  lemma RisingCons(at: seq<nat>, n: nat)
    requires Rising(at, n + 1)
    ensures Rising([n] + at, n)
  {
  }

  lemma ListedCons(parts: seq<string>, n: nat, found: seq<string>, at: seq<nat>, part: string)
    requires n < |parts| && Listed(parts, found, at) && Strip(parts[n]) == part != ""
    ensures Listed(parts, [part] + found, [n] + at)
  {
  }

  lemma {:induction false} NonEmptyAt(parts: seq<string>, n: nat) returns (at: seq<nat>)
    requires n <= |parts|
    ensures StrippedAt(parts, n, NonEmpty(parts[n..]), at)
    decreases |parts| - n
  {
    at := [];
    if n < |parts| {
      at := NonEmptyAt(parts, n + 1);
      assert parts[n..][0] == parts[n] && parts[n..][1..] == parts[n + 1..];
      if Strip(parts[n]) != "" {
        RisingCons(at, n);
        ListedCons(parts, n, NonEmpty(parts[n + 1..]), at, Strip(parts[n]));
        at := [n] + at;
      } else {
        assert [] + NonEmpty(parts[n + 1..]) == NonEmpty(parts[n + 1..]);
      }
    }
  }

  /** The paragraphs are the stripped parts, in order, of the text cut at its blank lines; only blank parts are left
      out. */
  lemma ParagraphsExact(text: string) returns (parts: seq<string>, at: seq<nat>)
    ensures IsSplit(parts, Strip(text))
    ensures StrippedAt(parts, 0, Paragraphs(text), at)
  {
    parts := Split(Strip(text));
    SplitIsSplit(Strip(text));
    at := NonEmptyAt(parts, 0);
    assert parts[0..] == parts;
    if Strip(text) == "" {
      assert parts == [""] && Strip("") == "";
      assert |NonEmpty(parts)| == 0;
    }
  }
}
