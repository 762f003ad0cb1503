/**
 * Text preparation of the PDF reader (pages/pdf-to-speech/index.tsx):
 * `cleanTextForSpeech` trims the extracted text and `splitTextIntoChunks`
 * cuts it into sentences with the regular expression `/[^.!?]+[.!?]+/g`
 * and groups them three at a time.
 */
module Segmenter {
  import opened Strings

  /** `cleanTextForSpeech`. */
  function CleanTextForSpeech(text: string): (r: string)
    ensures IsTrimmed(r)
    ensures Trim(r) == r
    ensures SpaceCut(text, r)
  {
    TrimIdempotent(text);
    TrimCutsSpace(text);
    Trim(text)
  }

  // ----- the sentence regular expression -----

  predicate IsTerminator(c: char) {
    c == '.' || c == '!' || c == '?'
  }

  ghost predicate NoTerminators(s: string) {
    forall i :: 0 <= i < |s| ==> !IsTerminator(s[i])
  }

  /** End of the longest run matched by `[^.!?]*` starting at `i`. */
  function NonTerminatorEnd(s: string, i: nat): (j: nat)
    requires i <= |s|
    ensures i <= j <= |s|
    ensures j < |s| ==> IsTerminator(s[j])
    decreases |s| - i
  {
    if i == |s| || IsTerminator(s[i]) then i else NonTerminatorEnd(s, i + 1)
  }

  /** End of the longest run matched by `[.!?]*` starting at `i`. */
  function TerminatorEnd(s: string, i: nat): (j: nat)
    requires i <= |s|
    ensures i <= j <= |s|
    ensures j < |s| ==> !IsTerminator(s[j])
    decreases |s| - i
  {
    if i == |s| || !IsTerminator(s[i]) then i else TerminatorEnd(s, i + 1)
  }

  /** The run `[^.!?]*` takes from `i` holds no terminator. */
  lemma {:induction false} NonTerminatorRun(s: string, i: nat)
    requires i <= |s|
    ensures forall k :: i <= k < NonTerminatorEnd(s, i) ==> !IsTerminator(s[k])
    decreases |s| - i
  {
    if i < |s| && !IsTerminator(s[i]) {
      NonTerminatorRun(s, i + 1);
    }
  }

  /** The run `[.!?]*` takes from `i` is all terminators. */
  lemma {:induction false} TerminatorRun(s: string, i: nat)
    requires i <= |s|
    ensures forall k :: i <= k < TerminatorEnd(s, i) ==> IsTerminator(s[k])
    decreases |s| - i
  {
    if i < |s| && IsTerminator(s[i]) {
      TerminatorRun(s, i + 1);
    }
  }

  /**
   * The global search of `/[^.!?]+[.!?]+/g` from position `i` on. At a
   * terminator no match can start, so the search moves on by one character;
   * otherwise the greedy `[^.!?]+` runs to the next terminator and, when
   * there is one, `[.!?]+` takes the whole run of terminators, and the
   * search resumes after it.
   */
  function MatchesFrom(s: string, i: nat): seq<string>
    requires i <= |s|
    decreases |s| - i
  {
    if i == |s| then []
    else if IsTerminator(s[i]) then MatchesFrom(s, i + 1)
    else
      var j := NonTerminatorEnd(s, i);
      if j == |s| then []
      else
        var e := TerminatorEnd(s, j);
        [s[i..e]] + MatchesFrom(s, e)
  }

  /** `text.match(/[^.!?]+[.!?]+/g)`, the empty list standing for `null`. */
  function Matches(s: string): seq<string> {
    MatchesFrom(s, 0)
  }

  /** `m[..k]` is matched by `[^.!?]+` and `m[k..]` by `[.!?]+`. */
  ghost predicate SentenceBreak(m: string, k: int) {
    && 0 < k < |m|
    && (forall x :: 0 <= x < k ==> !IsTerminator(m[x]))
    && (forall x :: k <= x < |m| ==> IsTerminator(m[x]))
  }

  /** A string the regular expression matches as a whole: non-terminators, then terminators. */
  ghost predicate IsSentence(m: string) {
    exists k :: SentenceBreak(m, k)
  }

  /** `ms` are sentences lying back to back in `s`, from position `b` to position `e`. */
  ghost predicate SentencesAt(s: string, b: nat, ms: seq<string>, e: nat)
    decreases ms
  {
    if ms == [] then b == e
    else
      && b + |ms[0]| <= |s|
      && s[b..b + |ms[0]|] == ms[0]
      && IsSentence(ms[0])
      && SentencesAt(s, b + |ms[0]|, ms[1..], e)
  }

  /**
   * `ms` is a way to read `s[i..]` as the global match does: terminators on
   * `[i, b)` that no match can start on, then the sentences `ms` back to back
   * from `b` to `e`, then a tail without a terminator that no match can end.
   */
  ghost predicate Layout(s: string, i: nat, b: nat, ms: seq<string>, e: nat) {
    && i <= b <= e <= |s|
    && (forall x :: i <= x < b ==> IsTerminator(s[x]))
    && SentencesAt(s, b, ms, e)
    && (forall x :: e <= x < |s| ==> !IsTerminator(s[x]))
  }

  /** `ms` lists the matches of the regular expression in `s`, read left to right. */
  ghost predicate IsMatchSequence(s: string, ms: seq<string>) {
    exists b, e :: Layout(s, 0, b, ms, e)
  }

  /** The search unfolded at a match starting at `i`. */
  lemma MatchUnfold(s: string, i: nat)
    requires i < |s| && !IsTerminator(s[i]) && NonTerminatorEnd(s, i) < |s|
    ensures MatchesFrom(s, i) == [s[i..TerminatorEnd(s, NonTerminatorEnd(s, i))]] + MatchesFrom(s, TerminatorEnd(s, NonTerminatorEnd(s, i)))
  {
  }

  /** A non-empty list is its head in front of its tail. */
  lemma HeadTail<T>(xs: seq<T>, ys: seq<T>, rest: seq<T>)
    requires xs != [] && ys == [xs[0]] + rest && xs[1..] == rest
    ensures xs == ys
  {
    assert xs == [xs[0]] + xs[1..];
  }

  // ----- the search lays out a match sequence -----

  /** A terminator at `i` is skipped, and joins the leading run. */
  lemma SkipLayout(s: string, i: nat, b: nat, e: nat)
    requires i < |s| && IsTerminator(s[i])
    requires Layout(s, i + 1, b, MatchesFrom(s, i + 1), e)
    ensures Layout(s, i, b, MatchesFrom(s, i), e)
  {
  }

  /** Without a terminator from `i` on, nothing matches and everything is tail. */
  lemma TailLayout(s: string, i: nat)
    requires i < |s| && !IsTerminator(s[i]) && NonTerminatorEnd(s, i) == |s|
    ensures Layout(s, i, i, MatchesFrom(s, i), i)
  {
    NonTerminatorRun(s, i);
  }

  /** The match found at `i` is a sentence. */
  lemma MatchIsSentence(s: string, i: nat)
    requires i < |s| && !IsTerminator(s[i]) && NonTerminatorEnd(s, i) < |s|
    ensures i < TerminatorEnd(s, NonTerminatorEnd(s, i))
    ensures IsSentence(s[i..TerminatorEnd(s, NonTerminatorEnd(s, i))])
  {
    var j := NonTerminatorEnd(s, i);
    var e := TerminatorEnd(s, j);
    NonTerminatorRun(s, i);
    TerminatorRun(s, j);
    assert SentenceBreak(s[i..e], j - i);
  }

  /** The sentence `s[b..c]` in front of sentences laid out from `c`. */
  lemma SentencesAtCons(s: string, b: nat, c: nat, rest: seq<string>, e: nat)
    requires b <= c <= |s| && IsSentence(s[b..c])
    requires SentencesAt(s, c, rest, e)
    ensures SentencesAt(s, b, [s[b..c]] + rest, e)
  {
    assert ([s[b..c]] + rest)[0] == s[b..c] && ([s[b..c]] + rest)[1..] == rest;
  }

  /** The sentence `s[i..c]` in front of a layout that starts right after it. */
  lemma LayoutCons(s: string, i: nat, c: nat, rest: seq<string>, e: nat)
    requires i <= c <= |s| && IsSentence(s[i..c])
    requires Layout(s, c, c, rest, e)
    ensures Layout(s, i, i, [s[i..c]] + rest, e)
  {
    SentencesAtCons(s, i, c, rest, e);
  }

  /** A match at `i` in front of a layout of what follows it. */
  lemma ConsLayout(s: string, i: nat, b: nat, e: nat)
    requires i < |s| && !IsTerminator(s[i]) && NonTerminatorEnd(s, i) < |s|
    requires Layout(s, TerminatorEnd(s, NonTerminatorEnd(s, i)), b, MatchesFrom(s, TerminatorEnd(s, NonTerminatorEnd(s, i))), e)
    ensures Layout(s, i, i, MatchesFrom(s, i), e)
  {
    var end := TerminatorEnd(s, NonTerminatorEnd(s, i));
    MatchUnfold(s, i);
    MatchIsSentence(s, i);
    assert b == end;
    LayoutCons(s, i, end, MatchesFrom(s, end), e);
  }

  /** The search from `i` lays out a match sequence of `s[i..]`. */
  lemma {:induction false} SearchLayout(s: string, i: nat) returns (b: nat, e: nat)
    requires i <= |s|
    ensures Layout(s, i, b, MatchesFrom(s, i), e)
    decreases |s| - i
  {
    if i == |s| {
      b, e := i, i;
    } else if IsTerminator(s[i]) {
      b, e := SearchLayout(s, i + 1);
      SkipLayout(s, i, b, e);
    } else if NonTerminatorEnd(s, i) == |s| {
      b, e := i, i;
      TailLayout(s, i);
    } else {
      var b', e' := SearchLayout(s, TerminatorEnd(s, NonTerminatorEnd(s, i)));
      ConsLayout(s, i, b', e');
      b, e := i, e';
    }
  }

  // ----- a match sequence is what the search finds -----

  /** Sentences laid out from `b` end at `e`, no earlier than `b`. */
  lemma {:induction false} SentencesAtBounds(s: string, b: nat, ms: seq<string>, e: nat)
    requires SentencesAt(s, b, ms, e)
    ensures b <= e <= |s| || (ms == [] && b == e)
    decreases ms
  {
    if ms != [] {
      SentencesAtBounds(s, b + |ms[0]|, ms[1..], e);
    }
  }

  /** In a layout, a sentence (or the tail) starts at `b`, so no terminator sits there. */
  lemma StartsOutsideRun(s: string, b: nat, ms: seq<string>, e: nat)
    requires SentencesAt(s, b, ms, e) && b < |s|
    requires forall x :: e <= x < |s| ==> !IsTerminator(s[x])
    ensures !IsTerminator(s[b])
  {
    if ms != [] {
      var k :| SentenceBreak(ms[0], k);
      assert s[b] == s[b..b + |ms[0]|][0];
    }
  }

  /** `[^.!?]*` from `i` stops exactly at the first terminator. */
  lemma NonTerminatorEndAt(s: string, i: nat, j: nat)
    requires i <= j < |s| && IsTerminator(s[j])
    requires forall x :: i <= x < j ==> !IsTerminator(s[x])
    ensures NonTerminatorEnd(s, i) == j
  {
    NonTerminatorRun(s, i);
  }

  /** `[.!?]*` from `i` stops exactly at the first non-terminator, or the end. */
  lemma TerminatorEndAt(s: string, i: nat, j: nat)
    requires i <= j <= |s| && (j < |s| ==> !IsTerminator(s[j]))
    requires forall x :: i <= x < j ==> IsTerminator(s[x])
    ensures TerminatorEnd(s, i) == j
  {
    TerminatorRun(s, i);
  }

  /** A sentence at `i` that a non-terminator (or the end) follows is the match the search finds at `i`. */
  lemma SentenceIsMatch(s: string, i: nat, m: string, k: nat)
    requires i + |m| <= |s| && s[i..i + |m|] == m && SentenceBreak(m, k)
    requires i + |m| < |s| ==> !IsTerminator(s[i + |m|])
    ensures MatchesFrom(s, i) == [m] + MatchesFrom(s, i + |m|)
  {
    forall x | 0 <= x < |m| ensures s[i + x] == m[x] {
      assert s[i..i + |m|][x] == s[i + x];
    }
    NonTerminatorEndAt(s, i, i + k);
    TerminatorEndAt(s, i + k, i + |m|);
    MatchUnfold(s, i);
  }

  /** A layout with a leading terminator: the search skips it. */
  lemma SkipStep(s: string, i: nat, b: nat, ms: seq<string>, e: nat)
    requires Layout(s, i, b, ms, e) && i < b
    ensures Layout(s, i + 1, b, ms, e)
    ensures MatchesFrom(s, i) == MatchesFrom(s, i + 1)
  {
  }

  /** With no terminator from `i` on, the search finds nothing. */
  lemma NoTerminatorsNoMatches(s: string, i: nat)
    requires i <= |s| && forall k :: i <= k < |s| ==> !IsTerminator(s[k])
    ensures MatchesFrom(s, i) == []
  {
  }

  /** A layout starting with a sentence: the search finds it, and the rest is a layout of what follows. */
  lemma ConsStep(s: string, i: nat, ms: seq<string>, e: nat)
    requires Layout(s, i, i, ms, e) && ms != []
    ensures 0 < |ms[0]| && Layout(s, i + |ms[0]|, i + |ms[0]|, ms[1..], e)
    ensures MatchesFrom(s, i) == [ms[0]] + MatchesFrom(s, i + |ms[0]|)
  {
    var m := ms[0];
    var k :| SentenceBreak(m, k);
    SentencesAtBounds(s, i + |m|, ms[1..], e);
    if i + |m| < |s| {
      StartsOutsideRun(s, i + |m|, ms[1..], e);
    }
    SentenceIsMatch(s, i, m, k);
  }

  /** Any layout of `s[i..]` lists exactly the matches the search finds. */
  lemma {:induction false} LayoutIsSearch(s: string, i: nat, b: nat, ms: seq<string>, e: nat)
    requires Layout(s, i, b, ms, e)
    ensures ms == MatchesFrom(s, i)
    decreases |s| - i, 1
  {
    if i < b {
      SkipCase(s, i, b, ms, e);
    } else if ms == [] {
      NoTerminatorsNoMatches(s, i);
    } else {
      ConsCase(s, i, ms, e);
    }
  }

  lemma {:induction false} SkipCase(s: string, i: nat, b: nat, ms: seq<string>, e: nat)
    requires Layout(s, i, b, ms, e) && i < b
    ensures ms == MatchesFrom(s, i)
    decreases |s| - i, 0
  {
    SkipStep(s, i, b, ms, e);
    LayoutIsSearch(s, i + 1, b, ms, e);
  }

  lemma {:induction false} ConsCase(s: string, i: nat, ms: seq<string>, e: nat)
    requires Layout(s, i, i, ms, e) && ms != []
    ensures ms == MatchesFrom(s, i)
    decreases |s| - i, 0
  {
    var c := i + |ms[0]|;
    ConsStep(s, i, ms, e);
    LayoutIsSearch(s, c, c, ms[1..], e);
    HeadTail(ms, MatchesFrom(s, i), MatchesFrom(s, c));
  }

  /**
   * The scanner agrees with the regular expression: `Matches(s)` is a match
   * sequence of `s`, and the only one.
   */
  lemma MatchesCharacterized(s: string, ms: seq<string>)
    ensures IsMatchSequence(s, ms) <==> ms == Matches(s)
  {
    var b, e := SearchLayout(s, 0);
    if IsMatchSequence(s, ms) {
      var b', e' :| Layout(s, 0, b', ms, e');
      LayoutIsSearch(s, 0, b', ms, e');
    }
  }

  /** Every sentence of a layout is a sentence of the regular expression. */
  lemma {:induction false} SentencesAtAreSentences(s: string, b: nat, ms: seq<string>, e: nat)
    requires SentencesAt(s, b, ms, e)
    ensures forall m :: m in ms ==> IsSentence(m)
    decreases ms
  {
    if ms != [] {
      SentencesAtAreSentences(s, b + |ms[0]|, ms[1..], e);
      assert forall m :: m in ms ==> m == ms[0] || m in ms[1..];
    }
  }

  /** `text.match(...) || [text]`: the sentences, or the whole text when nothing matches. */
  function Sentences(text: string): (ss: seq<string>)
    ensures |ss| >= 1
  {
    var ms := Matches(text);
    if ms == [] then [text] else ms
  }

  // ----- grouping sentences into chunks -----

  const ChunkSize: nat := 3

  function Min(a: int, b: int): int { if a <= b then a else b }

  /** `sentences.slice(i, i + 3).join(" ").trim()`. */
  function GroupText(ss: seq<string>, i: nat): string
    requires i < |ss|
  {
    Trim(Join(ss[i..Min(i + ChunkSize, |ss|)], " "))
  }

  /** The chunks the loop pushes from index `i` on: every group of three that is not blank. */
  function ChunksFrom(ss: seq<string>, i: nat): seq<string>
    decreases |ss| - i
  {
    if i >= |ss| then []
    else
      var chunk := GroupText(ss, i);
      (if chunk != "" then [chunk] else []) + ChunksFrom(ss, i + ChunkSize)
  }

  /** The chunks `splitTextIntoChunks` returns for `text`. */
  function Chunks(text: string): seq<string> {
    ChunksFrom(Sentences(text), 0)
  }

  lemma AppendAssociative<T>(a: seq<T>, b: seq<T>, c: seq<T>)
    ensures a + b + c == a + (b + c)
  {
  }

  /** `splitTextIntoChunks`: the `for` loop pushing each non-empty group into `result`. */
  method SplitTextIntoChunks(text: string) returns (result: seq<string>)
    ensures result == Chunks(text)
  {
    var sentences := Sentences(text);
    result := [];
    var i := 0;
    while i < |sentences|
      invariant result + ChunksFrom(sentences, i) == ChunksFrom(sentences, 0)
      decreases |sentences| - i
    {
      var chunk := Trim(Join(sentences[i..Min(i + ChunkSize, |sentences|)], " "));
      if chunk != "" {
        AppendAssociative(result, [chunk], ChunksFrom(sentences, i + ChunkSize));
        result := result + [chunk];
      }
      i := i + ChunkSize;
    }
  }

  // ----- properties of the chunks -----

  /** Every chunk is non-empty and already trimmed. */
  lemma {:induction false} ChunksNonEmptyAndTrimmed(ss: seq<string>, i: nat)
    ensures forall c :: c in ChunksFrom(ss, i) ==> c != "" && Trim(c) == c
    decreases |ss| - i
  {
    if i < |ss| {
      TrimIdempotent(Join(ss[i..Min(i + ChunkSize, |ss|)], " "));
      ChunksNonEmptyAndTrimmed(ss, i + ChunkSize);
    }
  }

  /** There are at most ⌈(|ss| - i) / 3⌉ chunks from `i` on. */
  lemma {:induction false} ChunkCountBound(ss: seq<string>, i: nat)
    requires i <= |ss|
    ensures |ChunksFrom(ss, i)| <= (|ss| - i + ChunkSize - 1) / ChunkSize
    decreases |ss| - i
  {
    if i + ChunkSize <= |ss| {
      ChunkCountBound(ss, i + ChunkSize);
    }
  }

  ghost predicate HasNonSpace(s: string) {
    exists k :: 0 <= k < |s| && !IsSpace(s[k])
  }

  /** A group whose first sentence holds a visible character is kept. */
  lemma GroupKept(ss: seq<string>, i: nat)
    requires i < |ss| && HasNonSpace(ss[i])
    ensures GroupText(ss, i) != ""
  {
    var group := ss[i..Min(i + ChunkSize, |ss|)];
    var k :| 0 <= k < |ss[i]| && !IsSpace(ss[i][k]);
    assert group[0] == ss[i];
    JoinContainsPart(group, " ", 0, k);
    var m :| 0 <= m < |Join(group, " ")| && Join(group, " ")[m] == group[0][k];
    TrimNonEmpty(Join(group, " "), m);
  }

  /**
   * When no group starting at `i + 3j` is blank none is dropped: chunk `j` from `i` on is
   * sentences `i + 3j .. i + 3j + 2` (fewer at the end) joined by single
   * spaces and trimmed.
   */
  lemma {:induction false} ChunksAreGroupsOfThree(ss: seq<string>, i: nat)
    requires i <= |ss|
    requires forall j: nat :: GroupStart(i, j) < |ss| ==> GroupText(ss, GroupStart(i, j)) != ""
    ensures |ChunksFrom(ss, i)| == (|ss| - i + ChunkSize - 1) / ChunkSize
    ensures forall j :: 0 <= j < |ChunksFrom(ss, i)| ==>
      i + ChunkSize * j < |ss| && ChunksFrom(ss, i)[j] == GroupText(ss, i + ChunkSize * j)
    decreases |ss| - i
  {
    if i < |ss| {
      assert GroupText(ss, i) != "" by {
        assert GroupStart(i, 0) == i;
      }
      if i + ChunkSize <= |ss| {
        GroupStartsShift(ss, i, i + ChunkSize);
        ChunksAreGroupsOfThree(ss, i + ChunkSize);
        KeptGroupInFront(ss, i);
      } else {
        assert ChunksFrom(ss, i + ChunkSize) == [];
        assert ChunksFrom(ss, i) == [GroupText(ss, i)];
      }
    }
  }

  /** A kept group in front of the chunks after it, laid out group by group. */
  lemma KeptGroupInFront(ss: seq<string>, i: nat)
    requires i + ChunkSize <= |ss| && GroupText(ss, i) != ""
    requires |ChunksFrom(ss, i + ChunkSize)| == (|ss| - (i + ChunkSize) + ChunkSize - 1) / ChunkSize
    requires forall j :: 0 <= j < |ChunksFrom(ss, i + ChunkSize)| ==>
      i + ChunkSize + ChunkSize * j < |ss| && ChunksFrom(ss, i + ChunkSize)[j] == GroupText(ss, i + ChunkSize + ChunkSize * j)
    ensures |ChunksFrom(ss, i)| == (|ss| - i + ChunkSize - 1) / ChunkSize
    ensures forall j :: 0 <= j < |ChunksFrom(ss, i)| ==>
      i + ChunkSize * j < |ss| && ChunksFrom(ss, i)[j] == GroupText(ss, i + ChunkSize * j)
  {
    var rest := ChunksFrom(ss, i + ChunkSize);
    var cs := ChunksFrom(ss, i);
    assert cs == [GroupText(ss, i)] + rest;
    forall j | 0 < j < |cs|
      ensures i + ChunkSize * j < |ss| && cs[j] == GroupText(ss, i + ChunkSize * j)
    {
      NextGroupStart(i, j);
      assert cs[j] == rest[j - 1];
    }
  }

  /** Where group `j` starts when the grouping starts at `i`. */
  function GroupStart(i: nat, j: nat): (k: nat)
    ensures i <= k
  {
    i + ChunkSize * j
  }

  /** The groups from `next = i + 3` on are the groups from `i` on, less the first. */
  lemma GroupStartsShift(ss: seq<string>, i: nat, next: nat)
    requires next == i + ChunkSize
    requires forall j: nat :: GroupStart(i, j) < |ss| ==> GroupText(ss, GroupStart(i, j)) != ""
    ensures forall j: nat :: GroupStart(next, j) < |ss| ==> GroupText(ss, GroupStart(next, j)) != ""
  {
    forall j: nat | GroupStart(next, j) < |ss|
      ensures GroupText(ss, GroupStart(next, j)) != ""
    {
      assert GroupStart(next, j) == GroupStart(i, j + 1);
    }
  }

  /** When every sentence holds a visible character, no group is blank. */
  lemma NoGroupBlank(ss: seq<string>)
    requires forall s :: s in ss ==> HasNonSpace(s)
    ensures forall k :: 0 <= k < |ss| ==> GroupText(ss, k) != ""
  {
    forall k | 0 <= k < |ss| ensures GroupText(ss, k) != "" {
      assert ss[k] in ss;
      GroupKept(ss, k);
    }
  }

  /** Group `j - 1` after the first group is group `j`. */
  lemma NextGroupStart(i: nat, j: nat)
    requires 0 < j
    ensures i + ChunkSize + ChunkSize * (j - 1) == i + ChunkSize * j
  {
  }

  /** Every regular-expression match ends in a terminator, so it holds a visible character. */
  lemma SentenceHasNonSpace(m: string)
    requires IsSentence(m)
    ensures HasNonSpace(m)
  {
    var k :| SentenceBreak(m, k);
    assert IsTerminator(m[k]);
  }

  /** When the regular expression matches, the chunks are its matches grouped by three. */
  lemma ChunksOfMatches(text: string)
    requires Matches(text) != []
    ensures Chunks(text) == ChunksFrom(Matches(text), 0)
    ensures |Chunks(text)| == (|Matches(text)| + ChunkSize - 1) / ChunkSize
    ensures forall j :: 0 <= j < |Chunks(text)| ==> Chunks(text)[j] == GroupText(Matches(text), ChunkSize * j)
  {
    var ms := Matches(text);
    var b, e := SearchLayout(text, 0);
    SentencesAtAreSentences(text, b, ms, e);
    forall s | s in ms ensures HasNonSpace(s) {
      SentenceHasNonSpace(s);
    }
    NoGroupBlank(ms);
    ChunksAreGroupsOfThree(ms, 0);
  }

  /** A single sentence makes one chunk, its trimmed text, unless that is empty. */
  lemma SingleSentenceChunks(t: string)
    ensures ChunksFrom([t], 0) == if Trim(t) == "" then [] else [Trim(t)]
  {
    assert [t][0..1] == [t];
  }

  /** Empty text yields zero chunks. */
  lemma EmptyTextHasNoChunks()
    ensures Chunks("") == []
  {
    assert Matches("") == [];
    SingleSentenceChunks("");
    assert Trim("") == "";
  }

  /** Text with no terminator is one chunk, the trimmed text (or none when that is empty). */
  lemma UnpunctuatedTextIsOneChunk(text: string)
    requires NoTerminators(text)
    ensures Chunks(text) == if Trim(text) == "" then [] else [Trim(text)]
  {
    NoTerminatorsNoMatches(text, 0);
    SingleSentenceChunks(text);
  }

  /** After cleaning, any non-empty text yields at least one chunk. */
  lemma CleanedTextHasChunk(text: string)
    requires CleanTextForSpeech(text) != ""
    ensures |Chunks(CleanTextForSpeech(text))| >= 1
  {
    var t := CleanTextForSpeech(text);
    if Matches(t) == [] {
      SingleSentenceChunks(t);
    } else {
      ChunksOfMatches(t);
    }
  }

  // ----- a worked example -----

  /** The three sentences of "Hello. World. Done." lie back to back, each keeping the space before it. */
  lemma ExampleSentences()
    ensures SentencesAt("Hello. World. Done.", 0, ["Hello.", " World.", " Done."], 19)
  {
    var s := "Hello. World. Done.";
    var ms := ["Hello.", " World.", " Done."];
    assert SentenceBreak(ms[0], 5);
    assert SentenceBreak(ms[1], 6);
    assert SentenceBreak(ms[2], 5);
    assert s[0..6] == ms[0];
    assert s[6..13] == ms[1];
    assert s[13..19] == ms[2];
    assert SentencesAt(s, 19, [], 19);
    assert SentencesAt(s, 13, ms[2..], 19);
    assert SentencesAt(s, 6, ms[1..], 19);
  }

  lemma ExampleMatches()
    ensures Matches("Hello. World. Done.") == ["Hello.", " World.", " Done."]
  {
    ExampleSentences();
    var ms := ["Hello.", " World.", " Done."];
    assert Layout("Hello. World. Done.", 0, 0, ms, 19);
    MatchesCharacterized("Hello. World. Done.", ms);
  }

  lemma ExampleJoin()
    ensures Join(["Hello.", " World.", " Done."], " ") == "Hello.  World.  Done."
  {
    var ms := ["Hello.", " World.", " Done."];
    assert ms[1..][1..] == [" Done."];
    assert Join(ms[1..], " ") == " World." + " " + " Done.";
  }

  /**
   * Three short sentences make one chunk, not three, and the join doubles
   * the spaces between them.
   */
  lemma ThreeSentencesMakeOneChunk()
    ensures Chunks("Hello. World. Done.") == ["Hello.  World.  Done."]
  {
    var ms := ["Hello.", " World.", " Done."];
    var j := "Hello.  World.  Done.";
    ExampleMatches();
    ExampleJoin();
    assert ms[0..Min(0 + ChunkSize, |ms|)] == ms;
    TrimOfTrimmed(j);
    assert GroupText(ms, 0) == j;
    assert ChunksFrom(ms, 3) == [];
  }
}
