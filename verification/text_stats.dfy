/** The word counters of the plugin and the theme: words, characters,
    sentences, paragraphs and lines of a text, the reading and speaking
    times derived from the word count, and the guards of the page. The
    regular expressions of the source are written out as tokenisers over
    characters, with `Base.IsSpace` standing for `\s`. */
module TextStats {
  import opened Base

  /** The character class `[.!?]`. */
  predicate IsSentenceEnd(c: char) {
    c == '.' || c == '!' || c == '?'
  }

  predicate IsNewline(c: char) {
    c == '\n'
  }

  // ---------------------------------------------------------------------
  // Words
  // ---------------------------------------------------------------------

  /** Reference count of words: the positions holding a non-space character
      that follows white space, or that open the text when `atBoundary`. */
  function WordStarts(s: string, atBoundary: bool): nat {
    if |s| == 0 then 0
    else if IsSpace(s[0]) then WordStarts(s[1..], true)
    else (if atBoundary then 1 else 0) + WordStarts(s[1..], false)
  }

  lemma FilterCons(x: string, rest: seq<string>, keep: string -> bool)
    ensures Filter([x] + rest, keep) == (if keep(x) then [x] else []) + Filter(rest, keep)
  {
    assert ([x] + rest)[0] == x;
    assert ([x] + rest)[1..] == rest;
  }

  /** A leading run of white space starts a fresh word, whatever came before. */
  lemma {:induction false} SkipSpaces(s: string, n: nat, atBoundary: bool)
    requires 1 <= n <= |s|
    requires forall i :: 0 <= i < n ==> IsSpace(s[i])
    ensures WordStarts(s, atBoundary) == WordStarts(s[n..], true)
    decreases n
  {
    if n > 1 {
      SkipSpaces(s[1..], n - 1, true);
      assert s[1..][n - 1..] == s[n..];
    }
  }

  /** White space holds no word. */
  lemma {:induction false} SpacesHoldNoWord(t: string, atBoundary: bool)
    requires AllSpace(t)
    ensures WordStarts(t, atBoundary) == 0
    decreases |t|
  {
    if |t| > 0 {
      SpacesHoldNoWord(t[1..], true);
    }
  }

  /** A non-space character anywhere opens at least one word. */
  lemma {:induction false} LetterOpensWord(t: string, k: nat)
    requires k < |t| && !IsSpace(t[k])
    ensures WordStarts(t, true) >= 1
    decreases k
  {
    if IsSpace(t[0]) {
      LetterOpensWord(t[1..], k - 1);
    }
  }

  /** A text holds no word exactly when it is all white space. */
  lemma NoWordIffSpaces(t: string)
    ensures WordStarts(t, true) == 0 <==> AllSpace(t)
  {
    if AllSpace(t) {
      SpacesHoldNoWord(t, true);
    } else {
      var k :| 0 <= k < |t| && !IsSpace(t[k]);
      LetterOpensWord(t, k);
    }
  }

  /** Trailing white space adds no word. */
  lemma {:induction false} TrailingSpaces(a: string, t: string, atBoundary: bool)
    requires AllSpace(t)
    ensures WordStarts(a + t, atBoundary) == WordStarts(a, atBoundary)
    decreases |a|
  {
    if |a| == 0 {
      assert a + t == t;
      SpacesHoldNoWord(t, atBoundary);
    } else {
      assert (a + t)[1..] == a[1..] + t;
      if IsSpace(a[0]) {
        TrailingSpaces(a[1..], t, true);
      } else {
        TrailingSpaces(a[1..], t, false);
      }
    }
  }

  /** Trimming changes no word count. */
  lemma TrimKeepsWords(text: string)
    ensures WordStarts(Trim(text), true) == WordStarts(text, true)
  {
    var t := TrimStart(text);
    var k := |text| - |t|;
    if k >= 1 {
      SkipSpaces(text, k, true);
    } else {
      assert t == text;
    }
    var r := TrimEnd(t);
    assert t == r + t[|r|..];
    TrailingSpaces(r, t[|r|..], true);
  }

  /** Counting the non-empty pieces of a split on white-space runs is
      counting word starts; without the first piece, it counts the words
      that begin after position 0. */
  lemma {:induction false} SplitCountsWords(s: string)
    ensures |Filter(SplitRuns(s, IsSpace), NonEmpty)| == WordStarts(s, true)
    ensures |Filter(SplitRuns(s, IsSpace)[1..], NonEmpty)| == WordStarts(s, false)
    decreases |s|
  {
    var r := SplitRuns(s, IsSpace);
    if |s| == 0 {
      assert r == [[]];
      FilterCons([], [], NonEmpty);
    } else if IsSpace(s[0]) {
      var n := SeparatorRun(s, IsSpace);
      var rest := SplitRuns(s[n..], IsSpace);
      assert r == [[]] + rest;
      assert r[1..] == rest;
      SplitCountsWords(s[n..]);
      SkipSpaces(s, n, true);
      SkipSpaces(s, n, false);
      FilterCons([], rest, NonEmpty);
    } else {
      var rest := SplitRuns(s[1..], IsSpace);
      var head := [s[0]] + rest[0];
      assert r == [head] + rest[1..];
      assert r[1..] == rest[1..];
      SplitCountsWords(s[1..]);
      FilterCons(head, rest[1..], NonEmpty);
    }
  }

  /** Words of the plugin page (word-counter.php): 0 for blank text,
      otherwise the non-empty pieces of the trimmed text split on white
      space. */
  function PluginWords(text: string): (n: nat)
    ensures n == WordStarts(text, true)
    ensures n == 0 <==> IsBlank(text)
  {
    BlankIffAllSpace(text);
    TrimKeepsWords(text);
    SplitCountsWords(Trim(text));
    NoWordIffSpaces(text);
    if IsBlank(text) then 0
    else |Filter(SplitRuns(Trim(text), IsSpace), NonEmpty)|
  }

  /** Words of the plugin script (script.js): the same split without the
      filter; a trimmed non-blank text has no empty piece to filter. */
  function ScriptWords(text: string): (n: nat)
    ensures n == WordStarts(text, true)
  {
    var t := Trim(text);
    TrimEnds(text);
    SplitRunsNonEmpty(t, IsSpace);
    TrimKeepsWords(text);
    SplitCountsWords(t);
    BlankIffAllSpace(text);
    NoWordIffSpaces(text);
    if IsBlank(text) then 0 else |SplitRuns(t, IsSpace)|
  }

  /** Words of the theme page: no blank guard, since a blank text trims to
      the empty string, whose single empty piece the filter drops. */
  function ThemeWords(text: string): (n: nat)
    ensures n == WordStarts(text, true)
  {
    TrimKeepsWords(text);
    SplitCountsWords(Trim(text));
    |Filter(SplitRuns(Trim(text), IsSpace), NonEmpty)|
  }

  // ---------------------------------------------------------------------
  // Characters
  // ---------------------------------------------------------------------

  /** `text.replace(/\s/g, '')`. */
  function RemoveSpaces(s: string): (r: string)
    ensures |r| <= |s|
    ensures forall i :: 0 <= i < |r| ==> !IsSpace(r[i])
    ensures forall c :: multiset(r)[c] == (if IsSpace(c) then 0 else multiset(s)[c])
  {
    if |s| == 0 then []
    else
      assert s == [s[0]] + s[1..];
      assert multiset(s) == multiset{s[0]} + multiset(s[1..]);
      if IsSpace(s[0]) then RemoveSpaces(s[1..])
      else [s[0]] + RemoveSpaces(s[1..])
  }

  /** Every word owns at least one non-space character. */
  lemma {:induction false} WordsAtMostLetters(s: string, atBoundary: bool)
    ensures WordStarts(s, atBoundary) <= |RemoveSpaces(s)|
    decreases |s|
  {
    if |s| > 0 {
      WordsAtMostLetters(s[1..], true);
      WordsAtMostLetters(s[1..], false);
    }
  }

  /** `letters / words` on exact reals. */
  function Ratio(letters: nat, words: nat): (q: real)
    requires words > 0
    ensures q * (words as real) == letters as real
    ensures words <= letters ==> q >= 1.0
  {
    var c := letters as real;
    var w := words as real;
    c / w
  }

  /** The average word length shown by the plugin (before rounding to one
      decimal): characters without spaces per word, 0 without words. */
  function AverageWordLength(words: nat, charactersNoSpaces: nat): (avg: real)
    ensures words == 0 ==> avg == 0.0
    ensures words > 0 ==> avg * (words as real) == charactersNoSpaces as real
    ensures 0 < words <= charactersNoSpaces ==> avg >= 1.0
  {
    if words > 0 then Ratio(charactersNoSpaces, words) else 0.0
  }

  /** On a real text the average word length is at least one character. */
  lemma AverageAtLeastOne(text: string)
    requires PluginWords(text) > 0
    ensures AverageWordLength(PluginWords(text), |RemoveSpaces(text)|) >= 1.0
  {
    WordsAtMostLetters(text, true);
  }

  // ---------------------------------------------------------------------
  // Sentences and the theme's paragraphs
  // ---------------------------------------------------------------------

  lemma {:induction false} FilterNone(parts: seq<string>, keep: string -> bool)
    requires forall i :: 0 <= i < |parts| ==> !keep(parts[i])
    ensures Filter(parts, keep) == []
  {
    if |parts| > 0 {
      FilterNone(parts[1..], keep);
    }
  }

  /** A text of white space and separators only splits into blank pieces. */
  lemma NoLetterNoPiece(s: string, isSep: char -> bool)
    requires forall k :: 0 <= k < |s| ==> IsSpace(s[k]) || isSep(s[k])
    ensures |Filter(SplitRuns(s, isSep), NotBlank)| == 0
  {
    var r := SplitRuns(s, isSep);
    forall i | 0 <= i < |r|
      ensures !NotBlank(r[i])
    {
      assert AllSpace(r[i]);
      BlankIffAllSpace(r[i]);
    }
    FilterNone(r, NotBlank);
  }

  /** A character that is neither white space nor a separator yields a
      non-blank piece. */
  lemma LetterMakesPiece(s: string, isSep: char -> bool, k: nat)
    requires k < |s| && !IsSpace(s[k]) && !isSep(s[k])
    ensures |Filter(SplitRuns(s, isSep), NotBlank)| > 0
  {
    var r := SplitRuns(s, isSep);
    SplitRunsKeeps(s, isSep, k);
    var i :| 0 <= i < |r| && s[k] in r[i];
    BlankIffAllSpace(r[i]);
    assert r[i] in Filter(r, NotBlank);
  }

  /** The non-blank pieces of a split on separator runs are none exactly
      when the text holds nothing but white space and separators. */
  lemma NonBlankPieces(s: string, isSep: char -> bool)
    ensures |Filter(SplitRuns(s, isSep), NotBlank)| == 0
            <==> forall k :: 0 <= k < |s| ==> IsSpace(s[k]) || isSep(s[k])
  {
    if forall k :: 0 <= k < |s| ==> IsSpace(s[k]) || isSep(s[k]) {
      NoLetterNoPiece(s, isSep);
    } else {
      var k :| 0 <= k < |s| && !IsSpace(s[k]) && !isSep(s[k]);
      LetterMakesPiece(s, isSep, k);
    }
  }

  /** Reference count of the non-blank pieces between separator runs: the
      non-space, non-separator characters that are the first such character
      since the start of the text or since the last separator. `counted`
      says whether the current piece already has one. */
  function ChunkStarts(s: string, isSep: char -> bool, counted: bool): nat
    decreases |s|
  {
    if |s| == 0 then 0
    else if isSep(s[0]) then ChunkStarts(s[1..], isSep, false)
    else if IsSpace(s[0]) then ChunkStarts(s[1..], isSep, counted)
    else (if counted then 0 else 1) + ChunkStarts(s[1..], isSep, true)
  }

  /** A leading run of separators closes the current piece. */
  lemma {:induction false} SkipSeparators(s: string, isSep: char -> bool, n: nat, counted: bool)
    requires 1 <= n <= |s|
    requires forall i :: 0 <= i < n ==> isSep(s[i])
    ensures ChunkStarts(s, isSep, counted) == ChunkStarts(s[n..], isSep, false)
    decreases n
  {
    if n > 1 {
      SkipSeparators(s[1..], isSep, n - 1, false);
      assert s[1..][n - 1..] == s[n..];
    }
  }

  /** The counting scan agrees with the split: the first piece adds one
      unless it is blank or already counted, and each later non-blank piece
      adds one. */
  predicate ScanMatchesSplit(s: string, isSep: char -> bool, counted: bool) {
    var r := SplitRuns(s, isSep);
    ChunkStarts(s, isSep, counted)
    == (if !counted && !AllSpace(r[0]) then 1 else 0) + |Filter(r[1..], NotBlank)|
  }

  lemma {:induction false} ChunkStartsSplit(s: string, isSep: char -> bool, counted: bool)
    ensures ScanMatchesSplit(s, isSep, counted)
    decreases |s|, 1
  {
    if |s| > 0 {
      if isSep(s[0]) {
        ChunkSplitAtSeparator(s, isSep, counted);
      } else {
        ChunkSplitAtChar(s, isSep, counted);
      }
    }
  }

  lemma {:induction false} ChunkSplitAtSeparator(s: string, isSep: char -> bool, counted: bool)
    requires |s| > 0 && isSep(s[0])
    ensures ScanMatchesSplit(s, isSep, counted)
    decreases |s|, 0
  {
    var n := SeparatorRun(s, isSep);
    SplitRunsAtSeparator(s, isSep);
    SkipSeparators(s, isSep, n, counted);
    ChunkStartsSplit(s[n..], isSep, false);
    var r' := SplitRuns(s[n..], isSep);
    BlankIffAllSpace(r'[0]);
    var r := SplitRuns(s, isSep);
    assert r[1..] == r';
    assert r[0] == [];
  }

  lemma {:induction false} ChunkSplitAtChar(s: string, isSep: char -> bool, counted: bool)
    requires |s| > 0 && !isSep(s[0])
    ensures ScanMatchesSplit(s, isSep, counted)
    decreases |s|, 0
  {
    var rest := SplitRuns(s[1..], isSep);
    SplitRunsAtChar(s, isSep);
    var r := SplitRuns(s, isSep);
    assert r[1..] == rest[1..];
    if IsSpace(s[0]) {
      ChunkStartsSplit(s[1..], isSep, counted);
      assert ChunkStarts(s, isSep, counted) == ChunkStarts(s[1..], isSep, counted);
      SpaceInFront(s[0], rest[0]);
    } else {
      ChunkStartsSplit(s[1..], isSep, true);
      assert ChunkStarts(s, isSep, counted) == (if counted then 0 else 1) + ChunkStarts(s[1..], isSep, true);
      assert !AllSpace(r[0]) by { assert r[0][0] == s[0]; }
    }
  }

  lemma SpaceInFront(c: char, t: string)
    requires IsSpace(c)
    ensures AllSpace([c] + t) <==> AllSpace(t)
  {
    var u := [c] + t;
    assert u[0] == c && u[1..] == t;
    if AllSpace(t) {
      forall i | 0 <= i < |u| ensures IsSpace(u[i]) {
        if i > 0 { assert u[i] == t[i - 1]; }
      }
    }
    if AllSpace(u) {
      forall i | 0 <= i < |t| ensures IsSpace(t[i]) {
        assert t[i] == u[i + 1];
      }
    }
  }

  /** The number of non-blank pieces of a split on separator runs is the
      reference count. */
  lemma ChunksCounted(s: string, isSep: char -> bool)
    ensures |Filter(SplitRuns(s, isSep), NotBlank)| == ChunkStarts(s, isSep, false)
  {
    var r := SplitRuns(s, isSep);
    ChunkStartsSplit(s, isSep, false);
    BlankIffAllSpace(r[0]);
  }

  /** Sentences of the plugin (word-counter.php and script.js): 0 for blank
      text, otherwise the non-blank pieces between runs of `.`, `!`, `?`. */
  function PluginSentences(text: string): (n: nat)
    ensures n == ChunkStarts(text, IsSentenceEnd, false)
    ensures n == 0 <==> forall k :: 0 <= k < |text| ==> IsSpace(text[k]) || IsSentenceEnd(text[k])
  {
    NonBlankPieces(text, IsSentenceEnd);
    ChunksCounted(text, IsSentenceEnd);
    BlankIffAllSpace(text);
    if IsBlank(text) then 0 else |Filter(SplitRuns(text, IsSentenceEnd), NotBlank)|
  }

  /** Sentences of the theme: the same count without the blank guard. */
  function ThemeSentences(text: string): (n: nat)
    ensures n == ChunkStarts(text, IsSentenceEnd, false)
    ensures n == 0 <==> forall k :: 0 <= k < |text| ==> IsSpace(text[k]) || IsSentenceEnd(text[k])
  {
    NonBlankPieces(text, IsSentenceEnd);
    ChunksCounted(text, IsSentenceEnd);
    |Filter(SplitRuns(text, IsSentenceEnd), NotBlank)|
  }

  /** The guard of the plugin changes nothing: both pages count the same
      sentences. */
  lemma SentenceCountsAgree(text: string)
    ensures PluginSentences(text) == ThemeSentences(text)
  {
    BlankIffAllSpace(text);
  }

  /** Paragraphs of the theme: the non-blank pieces between runs of
      newlines; none exactly for blank text, and no piece holds a newline. */
  function ThemeParagraphs(text: string): (n: nat)
    ensures n == ChunkStarts(text, IsNewline, false)
    ensures n == 0 <==> IsBlank(text)
    ensures forall p :: p in Filter(SplitRuns(text, IsNewline), NotBlank) ==> '\n' !in p
  {
    NonBlankPieces(text, IsNewline);
    ChunksCounted(text, IsNewline);
    BlankIffAllSpace(text);
    var r := SplitRuns(text, IsNewline);
    forall p | p in Filter(r, NotBlank)
      ensures '\n' !in p
    {
      var i :| 0 <= i < |r| && r[i] == p;
    }
    |Filter(r, NotBlank)|
  }

  // ---------------------------------------------------------------------
  // The plugin's paragraphs: a split on blank lines
  // ---------------------------------------------------------------------

  /** Index of the last newline of `t`, or -1. */
  function LastNewline(t: string): (j: int)
    ensures -1 <= j < |t|
    ensures j >= 0 ==> t[j] == '\n'
    ensures forall i :: j < i < |t| ==> t[i] != '\n'
  {
    if |t| == 0 then -1
    else if t[|t| - 1] == '\n' then |t| - 1
    else LastNewline(t[..|t| - 1])
  }

  /** Length of the match of `/\n\s*\n/` at the start of `s`, 0 when there
      is none: a newline, then the greedy white-space run cut back to its
      last newline. */
  function BlankLineMatch(s: string): (n: nat)
    ensures n <= |s|
    ensures n > 0 ==> n >= 2 && s[0] == '\n' && s[n - 1] == '\n'
    ensures forall i :: 0 <= i < n ==> IsSpace(s[i])
  {
    if |s| > 0 && s[0] == '\n' then
      var run := SeparatorRun(s[1..], IsSpace);
      var j := LastNewline(s[1..][..run]);
      if j >= 0 then j + 2 else 0
    else 0
  }

  /** Without a match at a newline, no blank line begins there: some
      non-space character separates it from every later newline. */
  lemma NoMatchNoBlankLine(s: string, b: nat)
    requires |s| > 0 && s[0] == '\n' && BlankLineMatch(s) == 0
    requires 1 <= b < |s| && s[b] == '\n'
    ensures !AllSpace(s[1..b])
  {
    var t := s[1..];
    var run := SeparatorRun(t, IsSpace);
    assert t[b - 1] == '\n';
    assert run <= b - 1;
    assert !IsSpace(t[run]);
    assert run < b - 1;
    assert s[1..b][run] == t[run];
  }

  /** `s.split(/\n\s*\n/)`: the match is searched leftmost first, so a
      character that starts no match joins the current piece. */
  function SplitBlankLines(s: string): (r: seq<string>)
    ensures |r| >= 1
    ensures |r[0]| <= |s| && r[0] == s[..|r[0]|]
    decreases |s|
  {
    if |s| == 0 then [[]]
    else if BlankLineMatch(s) > 0 then
      [[]] + SplitBlankLines(s[BlankLineMatch(s)..])
    else
      var rest := SplitBlankLines(s[1..]);
      assert [s[0]] + rest[0] == s[..|rest[0]| + 1];
      [[s[0]] + rest[0]] + rest[1..]
  }

  /** Two newlines with only white space between them: a blank line. */
  ghost predicate HasBlankLine(t: string) {
    exists i, j :: 0 <= i < j < |t| && t[i] == '\n' && t[j] == '\n' && AllSpace(t[i + 1..j])
  }

  /** No paragraph of the plugin's split contains a blank line. */
  lemma {:induction false} NoBlankLineInPieces(s: string)
    ensures forall i :: 0 <= i < |SplitBlankLines(s)| ==> !HasBlankLine(SplitBlankLines(s)[i])
    decreases |s|
  {
    if |s| == 0 {
    } else if BlankLineMatch(s) > 0 {
      NoBlankLineInPieces(s[BlankLineMatch(s)..]);
      MatchShape(s);
      CleanPieces([], SplitBlankLines(s[BlankLineMatch(s)..]));
    } else {
      var rest := SplitBlankLines(s[1..]);
      NoBlankLineInPieces(s[1..]);
      HeadHasNoBlankLine(s, rest[0]);
      NoMatchShape(s);
      CleanPieces([s[0]] + rest[0], rest[1..]);
    }
  }

  lemma MatchShape(s: string)
    requires BlankLineMatch(s) > 0
    ensures SplitBlankLines(s) == [[]] + SplitBlankLines(s[BlankLineMatch(s)..])
  {
  }

  /** A piece in front of pieces without blank lines. */
  lemma CleanPieces(head: string, rest: seq<string>)
    requires !HasBlankLine(head)
    requires forall i :: 0 <= i < |rest| ==> !HasBlankLine(rest[i])
    ensures forall i :: 0 <= i < |[head] + rest| ==> !HasBlankLine(([head] + rest)[i])
  {
    var r := [head] + rest;
    forall i | 0 <= i < |r|
      ensures !HasBlankLine(r[i])
    {
      if i > 0 {
        assert r[i] == rest[i - 1];
      }
    }
  }

  /** The first piece grows by a character that starts no blank line. */
  lemma HeadHasNoBlankLine(s: string, first: string)
    requires |s| > 0 && BlankLineMatch(s) == 0
    requires |first| <= |s| - 1 && first == s[1..][..|first|]
    requires !HasBlankLine(first)
    ensures !HasBlankLine([s[0]] + first)
  {
    var head := [s[0]] + first;
    forall a, b | 0 <= a < b < |head| && head[a] == '\n' && head[b] == '\n'
      ensures !AllSpace(head[a + 1..b])
    {
      if a == 0 {
        HeadIsPrefix(s, first, b);
        NoMatchNoBlankLine(s, b);
      } else {
        assert head[a + 1..b] == first[a..b - 1];
        assert first[a - 1] == '\n' && first[b - 1] == '\n';
      }
    }
  }

  lemma HeadIsPrefix(s: string, first: string, b: nat)
    requires |s| > 0 && |first| <= |s| - 1 && first == s[1..][..|first|]
    requires 1 <= b <= |first|
    ensures ([s[0]] + first)[b] == s[b]
    ensures ([s[0]] + first)[1..b] == s[1..b]
  {
    var head := [s[0]] + first;
    forall i | 1 <= i <= b
      ensures head[i] == s[i]
    {
      assert head[i] == first[i - 1] == s[1..][i - 1];
    }
  }

  /** Every non-space character of the text lands in some paragraph. */
  lemma {:induction false} SplitBlankLinesKeeps(s: string, k: nat)
    requires k < |s| && !IsSpace(s[k])
    ensures exists i :: 0 <= i < |SplitBlankLines(s)| && s[k] in SplitBlankLines(s)[i]
    decreases |s|
  {
    var n := BlankLineMatch(s);
    if n > 0 {
      SplitBlankLinesKeeps(s[n..], k - n);
      var i :| 0 <= i < |SplitBlankLines(s[n..])| && s[n..][k - n] in SplitBlankLines(s[n..])[i];
      KeptAfterMatch(s, i, s[k]);
    } else if k == 0 {
      assert s[0] == SplitBlankLines(s)[0][0];
    } else {
      SplitBlankLinesKeeps(s[1..], k - 1);
      var i :| 0 <= i < |SplitBlankLines(s[1..])| && s[1..][k - 1] in SplitBlankLines(s[1..])[i];
      KeptAfterChar(s, i, s[k]);
    }
  }

  /** After a blank-line match, the pieces of the rest follow an empty one. */
  lemma KeptAfterMatch(s: string, i: nat, c: char)
    requires BlankLineMatch(s) > 0
    requires i < |SplitBlankLines(s[BlankLineMatch(s)..])| && c in SplitBlankLines(s[BlankLineMatch(s)..])[i]
    ensures i + 1 < |SplitBlankLines(s)| && c in SplitBlankLines(s)[i + 1]
  {
  }

  /** A character that starts no match joins the first piece of the rest. */
  lemma KeptAfterChar(s: string, i: nat, c: char)
    requires |s| > 0 && BlankLineMatch(s) == 0
    requires i < |SplitBlankLines(s[1..])| && c in SplitBlankLines(s[1..])[i]
    ensures i < |SplitBlankLines(s)| && c in SplitBlankLines(s)[i]
  {
    NoMatchShape(s);
    KeptInFront(s[0], SplitBlankLines(s[1..]), i, c);
  }

  lemma NoMatchShape(s: string)
    requires |s| > 0 && BlankLineMatch(s) == 0
    ensures SplitBlankLines(s) == [[s[0]] + SplitBlankLines(s[1..])[0]] + SplitBlankLines(s[1..])[1..]
  {
  }

  lemma KeptInFront(x: char, rest: seq<string>, i: nat, c: char)
    requires i < |rest| && c in rest[i]
    ensures var r := [[x] + rest[0]] + rest[1..];
      i < |r| && c in r[i]
  {
    var r := [[x] + rest[0]] + rest[1..];
    if i == 0 {
      assert r[0] == [x] + rest[0];
    } else {
      assert r[i] == rest[i];
    }
  }

  /** Non-blank text has at least one non-blank paragraph. */
  lemma NonBlankHasParagraph(text: string)
    requires !IsBlank(text)
    ensures |Filter(SplitBlankLines(text), NotBlank)| > 0
  {
    var r := SplitBlankLines(text);
    BlankIffAllSpace(text);
    var k :| 0 <= k < |text| && !IsSpace(text[k]);
    SplitBlankLinesKeeps(text, k);
    var i :| 0 <= i < |r| && text[k] in r[i];
    BlankIffAllSpace(r[i]);
    assert r[i] in Filter(r, NotBlank);
  }

  /** Every counted paragraph is non-blank and free of blank lines. */
  lemma ParagraphsAreClean(text: string)
    ensures forall p :: p in Filter(SplitBlankLines(text), NotBlank) ==> !IsBlank(p) && !HasBlankLine(p)
  {
    NoBlankLineInPieces(text);
    CleanAfterFilter(SplitBlankLines(text));
  }

  /** Filtering out the blank pieces keeps only non-blank pieces, and
      keeps pieces free of blank lines if they all were. */
  lemma CleanAfterFilter(r: seq<string>)
    requires forall i :: 0 <= i < |r| ==> !HasBlankLine(r[i])
    ensures forall p :: p in Filter(r, NotBlank) ==> !IsBlank(p) && !HasBlankLine(p)
  {
    FilterKeeps(r, NotBlank, t => !HasBlankLine(t));
  }

  /** Reference count of the plugin's paragraphs: the non-space characters
      that are the first since the start of the text or since a run of
      white space holding two newlines or more, that is, a blank line.
      `counted` says whether the current paragraph already has a character;
      `sawNewline` whether the white space since the last non-space
      character holds a newline. */
  function ParaStarts(s: string, counted: bool, sawNewline: bool): nat
    decreases |s|
  {
    if |s| == 0 then 0
    else if s[0] == '\n' then ParaStarts(s[1..], counted && !sawNewline, true)
    else if IsSpace(s[0]) then ParaStarts(s[1..], counted, sawNewline)
    else (if counted then 0 else 1) + ParaStarts(s[1..], true, false)
  }

  /** White space alone starts no paragraph. */
  lemma {:induction false} SpacesStartNoParagraph(s: string, counted: bool, sawNewline: bool)
    requires AllSpace(s)
    ensures ParaStarts(s, counted, sawNewline) == 0
    decreases |s|
  {
    if |s| > 0 {
      SpacesStartNoParagraph(s[1..], counted && !(s[0] == '\n' && sawNewline), sawNewline || s[0] == '\n');
    }
  }

  /** White space without a newline, up to a non-space character or the
      end, leaves no trace of an earlier newline. */
  lemma {:induction false} QuietRun(t: string, k: nat, counted: bool)
    requires k <= |t|
    requires forall i :: 0 <= i < k ==> IsSpace(t[i]) && t[i] != '\n'
    requires k == |t| || !IsSpace(t[k])
    ensures ParaStarts(t, counted, true) == ParaStarts(t, counted, false)
    decreases k
  {
    if k > 0 {
      QuietRun(t[1..], k - 1, counted);
    }
  }

  /** White space after a newline, up to and including a second newline,
      closes the current paragraph. */
  lemma {:induction false} BlankRunTail(s: string, k: nat, counted: bool)
    requires 1 <= k <= |s|
    requires forall i :: 0 <= i < k ==> IsSpace(s[i])
    requires s[k - 1] == '\n'
    ensures ParaStarts(s, counted, true) == ParaStarts(s[k..], false, true)
    decreases k
  {
    if s[0] == '\n' {
      if k > 1 {
        BlankRunTail(s[1..], k - 1, false);
        assert s[1..][k - 1..] == s[k..];
      }
    } else {
      BlankRunTail(s[1..], k - 1, counted);
      assert s[1..][k - 1..] == s[k..];
    }
  }

  /** A match of the blank-line pattern closes the current paragraph and
      leaves the scan as at the start of a text. */
  lemma MatchSkips(s: string, counted: bool)
    requires BlankLineMatch(s) > 0
    ensures ParaStarts(s, counted, false) == ParaStarts(s[BlankLineMatch(s)..], false, false)
  {
    var m := BlankLineMatch(s);
    var t := s[1..];
    var run := SeparatorRun(t, IsSpace);
    var j := LastNewline(t[..run]);
    assert m == j + 2;
    assert ParaStarts(s, counted, false) == ParaStarts(t, counted, true);
    BlankRunTail(t, m - 1, counted);
    assert t[m - 1..] == s[m..];
    var u := s[m..];
    var k := run - (j + 1);
    forall i | 0 <= i < k
      ensures IsSpace(u[i]) && u[i] != '\n'
    {
      assert u[i] == t[..run][j + 1 + i];
    }
    if k < |u| {
      assert u[k] == t[run];
    }
    QuietRun(u, k, false);
  }

  /** A newline that starts no match only marks the white space. */
  lemma NoMatchNewline(s: string, counted: bool)
    requires |s| > 0 && s[0] == '\n' && BlankLineMatch(s) == 0
    ensures ParaStarts(s, counted, false) == ParaStarts(s[1..], counted, false)
  {
    var t := s[1..];
    var run := SeparatorRun(t, IsSpace);
    assert LastNewline(t[..run]) < 0;
    forall i | 0 <= i < run
      ensures IsSpace(t[i]) && t[i] != '\n'
    {
      assert t[i] == t[..run][i];
    }
    QuietRun(t, run, counted);
  }

  lemma SplitBlankLinesAtMatch(s: string)
    requires |s| > 0 && BlankLineMatch(s) > 0
    ensures SplitBlankLines(s) == [[]] + SplitBlankLines(s[BlankLineMatch(s)..])
  {
  }

  lemma SplitBlankLinesAtChar(s: string)
    requires |s| > 0 && BlankLineMatch(s) == 0
    ensures var rest := SplitBlankLines(s[1..]);
            SplitBlankLines(s) == [[s[0]] + rest[0]] + rest[1..]
  {
  }

  /** The paragraph scan agrees with the split on blank lines. */
  predicate ParaScanMatchesSplit(s: string, counted: bool) {
    var r := SplitBlankLines(s);
    ParaStarts(s, counted, false)
    == (if !counted && !AllSpace(r[0]) then 1 else 0) + |Filter(r[1..], NotBlank)|
  }

  lemma {:induction false} ParaStartsSplit(s: string, counted: bool)
    ensures ParaScanMatchesSplit(s, counted)
    decreases |s|, 1
  {
    if |s| > 0 {
      if BlankLineMatch(s) > 0 {
        ParaSplitAtMatch(s, counted);
      } else {
        ParaSplitAtChar(s, counted);
      }
    }
  }

  lemma {:induction false} ParaSplitAtMatch(s: string, counted: bool)
    requires |s| > 0 && BlankLineMatch(s) > 0
    ensures ParaScanMatchesSplit(s, counted)
    decreases |s|, 0
  {
    var m := BlankLineMatch(s);
    SplitBlankLinesAtMatch(s);
    MatchSkips(s, counted);
    ParaStartsSplit(s[m..], false);
    var r' := SplitBlankLines(s[m..]);
    BlankIffAllSpace(r'[0]);
    var r := SplitBlankLines(s);
    assert r[1..] == r';
    assert r[0] == [];
  }

  lemma {:induction false} ParaSplitAtChar(s: string, counted: bool)
    requires |s| > 0 && BlankLineMatch(s) == 0
    ensures ParaScanMatchesSplit(s, counted)
    decreases |s|, 0
  {
    var rest := SplitBlankLines(s[1..]);
    SplitBlankLinesAtChar(s);
    var r := SplitBlankLines(s);
    assert r[1..] == rest[1..];
    if s[0] == '\n' {
      NoMatchNewline(s, counted);
      ParaStartsSplit(s[1..], counted);
      SpaceInFront(s[0], rest[0]);
    } else if IsSpace(s[0]) {
      ParaStartsSplit(s[1..], counted);
      assert ParaStarts(s, counted, false) == ParaStarts(s[1..], counted, false);
      SpaceInFront(s[0], rest[0]);
    } else {
      ParaStartsSplit(s[1..], true);
      assert ParaStarts(s, counted, false) == (if counted then 0 else 1) + ParaStarts(s[1..], true, false);
      assert !AllSpace(r[0]) by { assert r[0][0] == s[0]; }
    }
  }

  /** The number of non-blank pieces of the split on blank lines is the
      reference count. */
  lemma ParagraphsCounted(s: string)
    ensures |Filter(SplitBlankLines(s), NotBlank)| == ParaStarts(s, false, false)
  {
    var r := SplitBlankLines(s);
    ParaStartsSplit(s, false);
    BlankIffAllSpace(r[0]);
  }

  /** Paragraphs of the plugin: 0 for blank text, otherwise the non-blank
      pieces between blank lines; each counted paragraph is non-blank and
      free of blank lines. */
  function PluginParagraphs(text: string): (n: nat)
    ensures n == ParaStarts(text, false, false)
    ensures n == 0 <==> IsBlank(text)
    ensures forall p :: p in Filter(SplitBlankLines(text), NotBlank) ==> !IsBlank(p) && !HasBlankLine(p)
  {
    ParagraphsAreClean(text);
    ParagraphsCounted(text);
    BlankIffAllSpace(text);
    if IsBlank(text) then
      SpacesStartNoParagraph(text, false, false);
      0
    else
      NonBlankHasParagraph(text);
      |Filter(SplitBlankLines(text), NotBlank)|
  }

  function Max(a: nat, b: nat): nat {
    if a >= b then a else b
  }

  /** The displayed count `Math.max(paragraphs, blank ? 0 : 1)`: the raw
      count is already at least 1 for non-blank text, so the maximum never
      changes it. */
  function DisplayedParagraphs(text: string): (n: nat)
    ensures n == PluginParagraphs(text)
    ensures n >= 1 <==> !IsBlank(text)
  {
    Max(PluginParagraphs(text), if IsBlank(text) then 0 else 1)
  }

  // ---------------------------------------------------------------------
  // Lines and times
  // ---------------------------------------------------------------------

  /** `text.split('\n').length`: one line more than there are newlines. */
  function Lines(text: string): (n: nat)
    ensures n == Count(text, '\n') + 1
    ensures n >= 1
  {
    |Split(text, '\n')|
  }

  /** `Math.ceil(w / per)` on natural numbers: the fewest whole minutes
      that cover `w` words at `per` words a minute. */
  function CeilDiv(w: nat, per: nat): (m: nat)
    requires per > 0
    ensures m * per >= w
    ensures m == 0 || (m - 1) * per < w
  {
    (w + per - 1) / per
  }

  /** Reading at 200 words a minute. */
  function ReadingTime(words: nat): (m: nat)
    ensures m * 200 >= words && (m == 0 || (m - 1) * 200 < words)
    ensures m == 0 <==> words == 0
  {
    CeilDiv(words, 200)
  }

  /** Speaking at 130 words a minute. */
  function SpeakingTime(words: nat): (m: nat)
    ensures m * 130 >= words && (m == 0 || (m - 1) * 130 < words)
    ensures m == 0 <==> words == 0
  {
    CeilDiv(words, 130)
  }

  lemma CancelFactor(x: int, y: int, q: int)
    requires q > 0 && x * q < y * q
    ensures x < y
  {
  }

  lemma MulMonotone(a: nat, p: nat, q: nat)
    requires p <= q
    ensures a * p <= a * q
  {
  }

  /** A slower rate never needs fewer minutes. */
  lemma CeilDivAntitone(w: nat, p: nat, q: nat)
    requires 0 < p <= q
    ensures CeilDiv(w, q) <= CeilDiv(w, p)
  {
    var a := CeilDiv(w, p);
    var b := CeilDiv(w, q);
    if b > 0 {
      MulMonotone(a, p, q);
      CancelFactor(b - 1, a, q);
    }
  }

  /** Speaking time is never shorter than reading time. */
  lemma SpeakingNotShorter(words: nat)
    ensures SpeakingTime(words) >= ReadingTime(words)
  {
    CeilDivAntitone(words, 130, 200);
  }

  // ---------------------------------------------------------------------
  // Page guards
  // ---------------------------------------------------------------------

  /** The statistics panel is shown iff the trimmed text is non-empty, that
      is, iff the text holds a word. */
  predicate StatsShown(text: string)
    ensures StatsShown(text) <==> PluginWords(text) > 0
  {
    |Trim(text)| > 0
  }

  /** `copyText`: blank text is refused with a message, anything else is
      copied verbatim. */
  function CopyText(text: string): (r: Result<string>)
    ensures r.Err? <==> PluginWords(text) == 0
    ensures r.Err? ==> r.message == "No text to copy!"
    ensures r.Ok? ==> r.value == text
  {
    if IsBlank(text) then Err("No text to copy!") else Ok(text)
  }

  // ---------------------------------------------------------------------
  // The two pages
  // ---------------------------------------------------------------------

  /** What `updateWordCount` of the plugin page displays. */
  datatype PluginStats = PluginStats(
    words: nat, characters: nat, charactersNoSpaces: nat, sentences: nat,
    paragraphs: nat, lines: nat, readingTime: nat, averageWordLength: real)

  function UpdateWordCount(text: string): (st: PluginStats)
    ensures st.words == WordStarts(text, true)
    ensures st.characters == |text| && st.charactersNoSpaces == |RemoveSpaces(text)|
    ensures st.charactersNoSpaces <= st.characters
    ensures st.sentences == ChunkStarts(text, IsSentenceEnd, false)
    ensures st.paragraphs == ParaStarts(text, false, false)
    ensures st.lines == Count(text, '\n') + 1
    ensures st.readingTime == ReadingTime(st.words)
    ensures st.averageWordLength == AverageWordLength(st.words, st.charactersNoSpaces)
    ensures st.paragraphs >= 1 <==> st.words >= 1
  {
    var words := PluginWords(text);
    var noSpaces := |RemoveSpaces(text)|;
    var sentences := PluginSentences(text);
    var paragraphs := DisplayedParagraphs(text);
    PluginStats(words, |text|, noSpaces, sentences, paragraphs, Lines(text),
                ReadingTime(words), AverageWordLength(words, noSpaces))
  }

  /** What `countText` of the theme page displays. */
  datatype ThemeStats = ThemeStats(
    words: nat, characters: nat, sentences: nat, paragraphs: nat,
    readingTime: nat, speakingTime: nat)

  function CountText(text: string): (st: ThemeStats)
    ensures st.words == WordStarts(text, true) && st.characters == |text|
    ensures st.sentences == ChunkStarts(text, IsSentenceEnd, false)
    ensures st.paragraphs == ChunkStarts(text, IsNewline, false)
    ensures st.paragraphs == 0 <==> st.words == 0
    ensures st.readingTime * 200 >= st.words && (st.readingTime == 0 || (st.readingTime - 1) * 200 < st.words)
    ensures st.speakingTime * 130 >= st.words && (st.speakingTime == 0 || (st.speakingTime - 1) * 130 < st.words)
    ensures st.speakingTime >= st.readingTime
  {
    var words := ThemeWords(text);
    SpeakingNotShorter(words);
    NoWordIffSpaces(text);
    BlankIffAllSpace(text);
    ThemeStats(words, |text|, ThemeSentences(text), ThemeParagraphs(text),
               ReadingTime(words), SpeakingTime(words))
  }
}
