/** The YouTube SEO tool: the reader of the model's reply, which sorts
    its lines into numbered titles, a description and a tag list under
    the headers TITLES:, DESCRIPTION: and TAGS:, and the session that
    keeps the ten most recent results. The request to the language model
    is a parameter: its reply, or the error it ends in. */
module SeoParser {
  import opened Base

  datatype Section = NoSection | Titles | Description | Tags

  /** The parser's state between lines. The description is kept as the
      list of its trimmed lines; the string the source builds with
      `description += line.trim() + ' '` is `Concat` of that list. */
  datatype Draft = Draft(section: Section, titles: seq<string>, descriptionLines: seq<string>, tags: seq<string>)

  datatype Parsed = Parsed(titles: seq<string>, description: string, tags: seq<string>)

  const Start: Draft := Draft(NoSection, [], [], [])

  /** `text.split('\n').filter(line => line.trim())`. */
  function Lines(text: string): (ls: seq<string>)
    ensures forall i :: 0 <= i < |ls| ==> NotBlank(ls[i]) && '\n' !in ls[i]
    ensures forall l :: l in Split(text, '\n') && NotBlank(l) ==> l in ls
  {
    Filter(Split(text, '\n'), NotBlank)
  }

  predicate IsHeader(line: string) {
    Contains(line, "TITLES:") || Contains(line, "DESCRIPTION:") || Contains(line, "TAGS:")
  }

  /** Number of leading decimal digits. */
  function LeadingDigits(s: string): (k: nat)
    ensures k <= |s|
    ensures forall i :: 0 <= i < k ==> IsDigit(s[i])
    ensures k == |s| || !IsDigit(s[k])
  {
    if |s| > 0 && IsDigit(s[0]) then 1 + LeadingDigits(s[1..]) else 0
  }

  /** The test `line.match(/^\d+\./)`. */
  predicate IsNumbered(line: string) {
    var k := LeadingDigits(line);
    1 <= k < |line| && line[k] == '.'
  }

  /** The title of a numbered line: the number, its dot and the white
      space after them removed (the regular expression `^\d+\.\s*`),
      then trimmed. */
  function TitleOf(line: string): (t: string)
    requires IsNumbered(line)
    ensures Trimmed(t)
  {
    var rest := TrimStart(AfterNumber(line));
    TrimEnds(rest);
    Trim(rest)
  }

  /** The text after the number and its dot. */
  function AfterNumber(line: string): string
    requires IsNumbered(line)
  {
    line[LeadingDigits(line) + 1..]
  }

  /** A numbered line gives back the trimmed text after its number. */
  lemma TitleOfNumbered(number: string, title: string)
    requires |number| >= 1 && forall i :: 0 <= i < |number| ==> IsDigit(number[i])
    requires Trimmed(title)
    ensures IsNumbered(number + ". " + title)
    ensures TitleOf(number + ". " + title) == title
  {
    NumberedLine(number, title);
    TitleAfterNumber(number + ". " + title, title);
  }

  lemma TitleAfterNumber(line: string, title: string)
    requires IsNumbered(line) && Trimmed(title)
    requires AfterNumber(line) == " " + title
    ensures TitleOf(line) == title
  {
    SpacedTitle(title);
  }

  lemma NumberedLine(number: string, title: string)
    requires forall i :: 0 <= i < |number| ==> IsDigit(number[i])
    requires |number| >= 1
    ensures IsNumbered(number + ". " + title)
    ensures AfterNumber(number + ". " + title) == " " + title
  {
    var rest := ". " + title;
    assert number + ". " + title == number + rest;
    LeadingOfNumber(number, rest);
    assert rest[1..] == " " + title;
  }

  lemma SpacedTitle(title: string)
    requires Trimmed(title)
    ensures Trim(TrimStart(" " + title)) == title
  {
    assert (" " + title)[1..] == title;
    assert TrimStart(" " + title) == TrimStart(title);
    TrimOfTrimmed(title);
  }

  lemma {:induction false} LeadingOfNumber(number: string, rest: string)
    requires forall i :: 0 <= i < |number| ==> IsDigit(number[i])
    requires rest == [] || !IsDigit(rest[0])
    ensures LeadingDigits(number + rest) == |number|
  {
    if |number| > 0 {
      assert (number + rest)[1..] == number[1..] + rest;
      LeadingOfNumber(number[1..], rest);
    } else {
      assert number + rest == rest;
    }
  }

  /** `line.replace(/^\[|\]$/g, '')`: one opening bracket at the start and
      one closing bracket at the end are removed. */
  function StripBrackets(line: string): (r: string)
    ensures |r| <= |line|
    ensures forall c :: c in r ==> c in line
  {
    var a := if |line| > 0 && line[0] == '[' then line[1..] else line;
    if |a| > 0 && a[|a| - 1] == ']' then a[..|a| - 1] else a
  }

  /** `.map(tag => tag.trim())`. */
  function TrimAll(xs: seq<string>): (r: seq<string>)
    ensures |r| == |xs|
    ensures forall i :: 0 <= i < |xs| ==> r[i] == Trim(xs[i])
  {
    seq(|xs|, i requires 0 <= i < |xs| => Trim(xs[i]))
  }

  predicate IsTag(t: string) {
    t != [] && Trimmed(t) && ',' !in t
  }

  /** The tags of a tag line: brackets stripped, split at commas, trimmed,
      empty ones dropped. */
  function TagsOf(line: string): (tags: seq<string>)
    ensures forall i :: 0 <= i < |tags| ==> IsTag(tags[i])
  {
    var pieces := Split(StripBrackets(line), ',');
    var trimmed := TrimAll(pieces);
    forall i | 0 <= i < |trimmed|
      ensures Trimmed(trimmed[i]) && ',' !in trimmed[i]
    {
      TrimEnds(pieces[i]);
      TrimKeepsChars(pieces[i]);
    }
    Filter(trimmed, NonEmpty)
  }

  // ---------------------------------------------------------------------
  // The parser
  // ---------------------------------------------------------------------

  /** Everything the parser has collected is in the shape it gives it:
      trimmed titles, non-empty trimmed description lines, and tags. */
  predicate WellFormed(d: Draft) {
    && (forall i :: 0 <= i < |d.titles| ==> Trimmed(d.titles[i]))
    && (forall i :: 0 <= i < |d.descriptionLines| ==> d.descriptionLines[i] != [] && Trimmed(d.descriptionLines[i]))
    && (forall i :: 0 <= i < |d.tags| ==> IsTag(d.tags[i]))
  }

  /** The section a header line opens. The headers are tried in the
      order TITLES:, DESCRIPTION:, TAGS:. */
  function HeaderOf(line: string): (h: Option<Section>)
    ensures h.Some? <==> IsHeader(line)
    ensures Contains(line, "TITLES:") ==> h == Some(Titles)
    ensures !Contains(line, "TITLES:") && Contains(line, "DESCRIPTION:") ==> h == Some(Description)
    ensures !Contains(line, "TITLES:") && !Contains(line, "DESCRIPTION:") && Contains(line, "TAGS:") ==> h == Some(Tags)
  {
    if Contains(line, "TITLES:") then Some(Titles)
    else if Contains(line, "DESCRIPTION:") then Some(Description)
    else if Contains(line, "TAGS:") then Some(Tags)
    else None
  }

  /** A line that is not a header, in the current section: a numbered
      line in the titles adds a title; a line in the description adds its
      trimmed text; a line in the tags replaces the tags; anything else is
      skipped. */
  function Content(d: Draft, line: string): (r: Draft)
    ensures r.section == d.section
    ensures d.section == Titles && IsNumbered(line) ==> r.titles == d.titles + [TitleOf(line)]
    ensures !(d.section == Titles && IsNumbered(line)) ==> r.titles == d.titles
    ensures d.section == Description && NotBlank(line) ==> r.descriptionLines == d.descriptionLines + [Trim(line)]
    ensures !(d.section == Description && NotBlank(line)) ==> r.descriptionLines == d.descriptionLines
    ensures d.section == Tags && NotBlank(line) ==> r.tags == TagsOf(line)
    ensures !(d.section == Tags && NotBlank(line)) ==> r.tags == d.tags
    ensures d.section == NoSection ==> r == d
  {
    if d.section == Titles && IsNumbered(line) then d.(titles := d.titles + [TitleOf(line)])
    else if d.section == Description && NotBlank(line) then d.(descriptionLines := d.descriptionLines + [Trim(line)])
    else if d.section == Tags && NotBlank(line) then d.(tags := TagsOf(line))
    else d
  }

  /** One line of the loop: a header line switches section and is not
      content. */
  function Step(d: Draft, line: string): (r: Draft)
    ensures IsHeader(line) ==> r.titles == d.titles && r.descriptionLines == d.descriptionLines && r.tags == d.tags
    ensures IsHeader(line) ==> r.section == HeaderOf(line).value
    ensures !IsHeader(line) ==> r.section == d.section
    ensures !IsHeader(line) && d.section == Titles && IsNumbered(line) ==> r.titles == d.titles + [TitleOf(line)]
    ensures !IsHeader(line) && !(d.section == Titles && IsNumbered(line)) ==> r.titles == d.titles
    ensures !IsHeader(line) && d.section == Description && NotBlank(line) ==> r.descriptionLines == d.descriptionLines + [Trim(line)]
    ensures !IsHeader(line) && !(d.section == Description && NotBlank(line)) ==> r.descriptionLines == d.descriptionLines
    ensures !IsHeader(line) && d.section == Tags && NotBlank(line) ==> r.tags == TagsOf(line)
    ensures !IsHeader(line) && !(d.section == Tags && NotBlank(line)) ==> r.tags == d.tags
    ensures d.section == NoSection && !IsHeader(line) ==> r == d
  {
    match HeaderOf(line)
    case Some(s) => d.(section := s)
    case None => Content(d, line)
  }

  lemma AppendTrimmed(xs: seq<string>, x: string)
    requires forall i :: 0 <= i < |xs| ==> Trimmed(xs[i])
    requires Trimmed(x)
    ensures forall i :: 0 <= i < |xs + [x]| ==> Trimmed((xs + [x])[i])
  {
  }

  /** A step keeps the collected values in shape. */
  lemma StepKeepsShape(d: Draft, line: string)
    requires WellFormed(d)
    ensures WellFormed(Step(d, line))
  {
    if HeaderOf(line).None? {
      ContentKeepsShape(d, line);
    }
  }

  lemma ContentKeepsShape(d: Draft, line: string)
    requires WellFormed(d)
    ensures WellFormed(Content(d, line))
  {
    if d.section == Titles && IsNumbered(line) {
      AppendTrimmed(d.titles, TitleOf(line));
    } else if d.section == Description && NotBlank(line) {
      AppendLine(d.descriptionLines, line);
    }
  }

  lemma AppendLine(xs: seq<string>, line: string)
    requires forall i :: 0 <= i < |xs| ==> xs[i] != [] && Trimmed(xs[i])
    requires NotBlank(line)
    ensures forall i :: 0 <= i < |xs + [Trim(line)]| ==> (xs + [Trim(line)])[i] != [] && Trimmed((xs + [Trim(line)])[i])
  {
    TrimEnds(line);
    var ys := xs + [Trim(line)];
    assert forall i :: 0 <= i < |xs| ==> ys[i] == xs[i];
  }

  /** The loop over the lines. */
  function Run(d: Draft, lines: seq<string>): Draft
    decreases |lines|
  {
    if |lines| == 0 then d else Run(Step(d, lines[0]), lines[1..])
  }

  /** The loop keeps the collected values in shape. */
  lemma {:induction false} RunKeepsShape(d: Draft, lines: seq<string>)
    requires WellFormed(d)
    ensures WellFormed(Run(d, lines))
    decreases |lines|
  {
    if |lines| > 0 {
      StepKeepsShape(d, lines[0]);
      RunKeepsShape(Step(d, lines[0]), lines[1..]);
    }
  }

  /** The loop's first round. */
  lemma RunFirst(d: Draft, lines: seq<string>, next: Draft)
    requires |lines| > 0 && Step(d, lines[0]) == next
    ensures Run(d, lines) == Run(next, lines[1..])
  {
  }

  lemma AppendFirst<T>(xs: seq<T>, ys: seq<T>)
    requires |ys| > 0
    ensures xs + [ys[0]] + ys[1..] == xs + ys
  {
    assert ys == [ys[0]] + ys[1..];
  }

  lemma RunNothing(d: Draft)
    ensures Run(d, []) == d
  {
  }

  /** Running two stretches of lines is running them one after the other. */
  lemma {:induction false} RunAppend(d: Draft, a: seq<string>, b: seq<string>)
    ensures Run(d, a + b) == Run(Run(d, a), b)
    decreases |a|
  {
    if |a| > 0 {
      assert (a + b)[0] == a[0];
      assert (a + b)[1..] == a[1..] + b;
      RunAppend(Step(d, a[0]), a[1..], b);
    } else {
      assert a + b == b;
    }
  }

  /** Lines before the first header change nothing. */
  lemma {:induction false} PreambleIgnored(d: Draft, pre: seq<string>)
    requires d.section == NoSection
    requires forall i :: 0 <= i < |pre| ==> !IsHeader(pre[i])
    ensures Run(d, pre) == d
    decreases |pre|
  {
    if |pre| > 0 {
      PreambleIgnored(Step(d, pre[0]), pre[1..]);
    }
  }

  /** The string built by `description += line + ' '`. */
  function Concat(xs: seq<string>): (s: string)
    ensures |s| >= |xs|
  {
    if |xs| == 0 then [] else xs[0] + " " + Concat(xs[1..])
  }

  /** The titles of the numbered lines among `lines`, in order. */
  function NumberedTitlesIn(lines: seq<string>): seq<string>
    decreases |lines|
  {
    if lines == [] then []
    else (if IsNumbered(lines[0]) then [TitleOf(lines[0])] else []) + NumberedTitlesIn(lines[1..])
  }

  /** Every title the loop collects is the title of one of its numbered
      lines, or was there before. */
  lemma {:induction false} RunTitlesFrom(d: Draft, lines: seq<string>)
    ensures forall t :: t in Run(d, lines).titles ==> t in d.titles || t in NumberedTitlesIn(lines)
    decreases |lines|
  {
    if lines != [] {
      var next := Step(d, lines[0]);
      RunFirst(d, lines, next);
      RunTitlesFrom(next, lines[1..]);
      StepTitlesFrom(d, lines[0]);
    }
  }

  lemma StepTitlesFrom(d: Draft, line: string)
    ensures forall t :: t in Step(d, line).titles ==> t in d.titles || (IsNumbered(line) && t == TitleOf(line))
  {
    if !IsHeader(line) && d.section == Titles && IsNumbered(line) {
      AppendedMembers(d.titles, TitleOf(line));
    }
  }

  lemma AppendedMembers(xs: seq<string>, x: string)
    ensures forall t :: t in xs + [x] ==> t in xs || t == x
  {
  }

  /** `parseGeneratedContent`. */
  function ParseLines(lines: seq<string>): (p: Parsed)
    ensures forall i :: 0 <= i < |p.titles| ==> Trimmed(p.titles[i])
    ensures forall t :: t in p.titles ==> t in NumberedTitlesIn(lines)
    ensures forall i :: 0 <= i < |p.tags| ==> IsTag(p.tags[i])
    ensures Trimmed(p.description)
  {
    var d := Run(Start, lines);
    RunTitlesFrom(Start, lines);
    RunKeepsShape(Start, lines);
    TrimEnds(Concat(d.descriptionLines));
    Parsed(d.titles, Trim(Concat(d.descriptionLines)), d.tags)
  }

  function Parse(text: string): (p: Parsed)
    ensures forall i :: 0 <= i < |p.titles| ==> Trimmed(p.titles[i])
    ensures forall t :: t in p.titles ==> t in NumberedTitlesIn(Lines(text))
    ensures forall i :: 0 <= i < |p.tags| ==> IsTag(p.tags[i])
    ensures Trimmed(p.description)
  {
    ParseLines(Lines(text))
  }

  /** A reply whose header-free lines come first parses as if they were
      not there. */
  lemma PreambleNotParsed(pre: seq<string>, rest: seq<string>)
    requires forall i :: 0 <= i < |pre| ==> !IsHeader(pre[i])
    ensures ParseLines(pre + rest) == ParseLines(rest)
  {
    RunAppend(Start, pre, rest);
    PreambleIgnored(Start, pre);
  }

  /** A reply without any header gives nothing. */
  lemma NoHeaderNothingParsed(lines: seq<string>)
    requires forall i :: 0 <= i < |lines| ==> !IsHeader(lines[i])
    ensures ParseLines(lines) == Parsed([], [], [])
  {
    PreambleIgnored(Start, lines);
  }

  lemma {:induction false} ConcatIsJoin(xs: seq<string>)
    requires |xs| >= 1
    ensures Concat(xs) == Join(xs, " ") + " "
  {
    if |xs| > 1 {
      ConcatIsJoin(xs[1..]);
    }
  }

  lemma {:induction false} JoinEnds(xs: seq<string>)
    requires |xs| >= 1
    requires forall i :: 0 <= i < |xs| ==> xs[i] != []
    ensures |Join(xs, " ")| > 0
    ensures Join(xs, " ")[0] == xs[0][0]
    ensures Join(xs, " ")[|Join(xs, " ")| - 1] == xs[|xs| - 1][|xs[|xs| - 1]| - 1]
  {
    if |xs| > 1 {
      JoinEnds(xs[1..]);
      assert Join(xs, " ") == xs[0] + " " + Join(xs[1..], " ");
      assert xs[1..][|xs| - 2] == xs[|xs| - 1];
      SpacedEnds(xs[0], Join(xs[1..], " "));
    }
  }

  lemma SpacedEnds(a: string, b: string)
    requires |a| > 0 && |b| > 0
    ensures (a + " " + b)[0] == a[0]
    ensures (a + " " + b)[|a + " " + b| - 1] == b[|b| - 1]
  {
  }

  /** Dropping one trailing space. */
  lemma TrimEndOfSpaced(j: string)
    requires |j| > 0 && !IsSpace(j[|j| - 1])
    ensures TrimEnd(j + " ") == j
  {
    assert (j + " ")[..|j|] == j;
  }

  /** The description is its lines joined by single spaces. */
  lemma DescriptionJoined(xs: seq<string>)
    requires forall i :: 0 <= i < |xs| ==> xs[i] != [] && Trimmed(xs[i])
    ensures Trim(Concat(xs)) == Join(xs, " ")
  {
    if |xs| > 0 {
      ConcatIsJoin(xs);
      JoinEnds(xs);
      var j := Join(xs, " ");
      assert (j + " ")[0] == j[0];
      assert TrimStart(j + " ") == j + " ";
      TrimEndOfSpaced(j);
    }
  }

  /** The parsed description is the trimmed description lines joined by
      single spaces. */
  lemma ParsedDescription(lines: seq<string>)
    ensures ParseLines(lines).description == Join(Run(Start, lines).descriptionLines, " ")
  {
    RunKeepsShape(Start, lines);
    DescriptionJoined(Run(Start, lines).descriptionLines);
  }


  // ---------------------------------------------------------------------
  // Tag lines
  // ---------------------------------------------------------------------

  /** `tags.join(', ')`, as a reply lists them. */
  function TagList(tags: seq<string>): string {
    Join(tags, ", ")
  }

  /** Each tag with the space that follows the comma in front of it. */
  function Spaced(ts: seq<string>): (r: seq<string>)
    ensures |r| == |ts|
    ensures forall i :: 0 <= i < |ts| ==> r[i] == " " + ts[i]
  {
    if ts == [] then [] else [" " + ts[0]] + Spaced(ts[1..])
  }

  lemma {:induction false} SplitTagList(tags: seq<string>)
    requires |tags| >= 1
    requires forall i :: 0 <= i < |tags| ==> ',' !in tags[i]
    ensures Split(TagList(tags), ',') == [tags[0]] + Spaced(tags[1..])
  {
    if |tags| > 1 {
      var rest := tags[1..];
      SplitTagList(rest);
      TagListStep(tags);
      SplitTagStep(tags[0], TagList(rest), rest);
    } else {
      SplitNone(tags[0], ',');
    }
  }

  /** One more tag in front of an already split list. */
  lemma SplitTagStep(t: string, x: string, rest: seq<string>)
    requires ',' !in t && |rest| >= 1
    requires Split(x, ',') == [rest[0]] + Spaced(rest[1..])
    ensures Split(t + [','] + ([' '] + x), ',') == [t] + Spaced(rest)
  {
    SplitAround(t, [' '] + x, ',');
    SplitFront(' ', x, ',');
    assert Spaced(rest) == [" " + rest[0]] + Spaced(rest[1..]);
  }

  lemma TagListStep(tags: seq<string>)
    requires |tags| > 1
    ensures TagList(tags) == tags[0] + [','] + ([' '] + TagList(tags[1..]))
  {
  }

  /** A character other than the separator joins the first piece. */
  lemma SplitFront(c: char, s: string, sep: char)
    requires c != sep
    ensures Split([c] + s, sep) == [[c] + Split(s, sep)[0]] + Split(s, sep)[1..]
  {
    assert ([c] + s)[1..] == s;
  }

  lemma TrimSpacedTags(tags: seq<string>)
    requires |tags| >= 1
    requires forall i :: 0 <= i < |tags| ==> IsTag(tags[i])
    ensures TrimAll([tags[0]] + Spaced(tags[1..])) == tags
  {
    var pieces := [tags[0]] + Spaced(tags[1..]);
    TrimEachPiece(tags);
    assert forall i :: 0 <= i < |tags| ==> TrimAll(pieces)[i] == tags[i];
  }

  /** Each piece of a tag list, once trimmed, is its tag. */
  lemma TrimEachPiece(tags: seq<string>)
    requires |tags| >= 1
    requires forall i :: 0 <= i < |tags| ==> IsTag(tags[i])
    ensures forall i :: 0 <= i < |tags| ==> Trim(([tags[0]] + Spaced(tags[1..]))[i]) == tags[i]
  {
    var pieces := [tags[0]] + Spaced(tags[1..]);
    forall i | 0 <= i < |tags|
      ensures Trim(pieces[i]) == tags[i]
    {
      assert IsTag(tags[i]);
      if i == 0 {
        TrimOfTrimmed(tags[0]);
      } else {
        TrimSpacedAt(tags, i);
      }
    }
  }

  /** A later piece of a tag list, once trimmed, is its tag. */
  lemma TrimSpacedAt(tags: seq<string>, i: nat)
    requires 1 <= i < |tags| && Trimmed(tags[i])
    ensures Trim(([tags[0]] + Spaced(tags[1..]))[i]) == tags[i]
  {
    assert ([tags[0]] + Spaced(tags[1..]))[i] == Spaced(tags[1..])[i - 1];
    assert tags[1..][i - 1] == tags[i];
    TrimSpace(tags[i]);
  }

  lemma TrimSpace(t: string)
    requires Trimmed(t)
    ensures Trim(" " + t) == t
  {
    assert (" " + t)[1..] == t;
    TrimOfTrimmed(t);
  }

  /** A tag line written `[a, b, c]` gives back exactly its tags. */
  lemma TagLineRoundTrip(tags: seq<string>)
    requires |tags| >= 1
    requires forall i :: 0 <= i < |tags| ==> IsTag(tags[i])
    ensures TagsOf("[" + TagList(tags) + "]") == tags
  {
    var line := "[" + TagList(tags) + "]";
    assert line[1..] == TagList(tags) + "]";
    assert StripBrackets(line) == TagList(tags);
    SplitTagList(tags);
    TrimSpacedTags(tags);
    assert forall i :: 0 <= i < |tags| ==> NonEmpty(tags[i]);
  }

  // ---------------------------------------------------------------------
  // A whole reply
  // ---------------------------------------------------------------------

  /** The title lines of a reply, numbered from `n`: "n. title". */
  function NumberedTitles(titles: seq<string>, n: nat): (lines: seq<string>)
    ensures |lines| == |titles|
    decreases |titles|
  {
    if titles == [] then [] else [NatToString(n) + ". " + titles[0]] + NumberedTitles(titles[1..], n + 1)
  }

  /** A reply laid out as the request asks: the three headers, each
      followed by its lines, and the tags as one bracketed list. */
  function LaidOut(titles: seq<string>, descriptionLines: seq<string>, tags: seq<string>): seq<string> {
    ["TITLES:"] + NumberedTitles(titles, 1) + ["DESCRIPTION:"] + descriptionLines + ["TAGS:", "[" + TagList(tags) + "]"]
  }

  /** Each header line opens its own section. */
  lemma HeaderLines()
    ensures HeaderOf("TITLES:") == Some(Titles)
    ensures HeaderOf("DESCRIPTION:") == Some(Description)
    ensures HeaderOf("TAGS:") == Some(Tags)
  {
    assert "TITLES:"[0..][..7] == "TITLES:";
    assert "DESCRIPTION:"[0..][..12] == "DESCRIPTION:";
    assert "TAGS:"[0..][..5] == "TAGS:";
    assert forall i :: 0 <= i <= 5 ==> "DESCRIPTION:"[i..][0] != 'T';
  }

  /** Every header marker ends in a colon, so a line without one is
      content. */
  lemma NoColonNoHeader(line: string)
    requires ':' !in line
    ensures !IsHeader(line)
  {
    NoColonNoMarker(line, "TITLES:");
    NoColonNoMarker(line, "DESCRIPTION:");
    NoColonNoMarker(line, "TAGS:");
  }

  lemma NoColonNoMarker(line: string, marker: string)
    requires ':' !in line
    requires |marker| > 0 && marker[|marker| - 1] == ':'
    ensures !Contains(line, marker)
  {
  }

  /** A numbered title line in the titles section adds its title. */
  lemma TitleStep(d: Draft, n: nat, title: string)
    requires d.section == Titles && PlainTitle(title)
    ensures Step(d, NatToString(n) + ". " + title) == d.(titles := d.titles + [title])
  {
    assert ':' !in title by {
      assert ':' in title ==> ':' in multiset(title);
    }
    var line := NatToString(n) + ". " + title;
    NumberedNoColon(NatToString(n), title);
    NoColonNoHeader(line);
    TitleOfNumbered(NatToString(n), title);
  }

  lemma NumberedNoColon(number: string, title: string)
    requires forall i :: 0 <= i < |number| ==> IsDigit(number[i])
    requires ':' !in title
    ensures ':' !in number + ". " + title
  {
    assert ':' !in number;
    assert ':' !in ". ";
    assert number + ". " + title == number + (". " + title);
  }

  /** Titles the layout can carry: trimmed and without a colon. */
  predicate PlainTitle(title: string) {
    Trimmed(title) && Count(title, ':') == 0
  }

  lemma PlainTail(titles: seq<string>)
    requires |titles| > 0
    requires forall i :: 0 <= i < |titles| ==> PlainTitle(titles[i])
    ensures forall i :: 0 <= i < |titles[1..]| ==> PlainTitle(titles[1..][i])
  {
  }

  /** In the titles section, numbered title lines add exactly their titles. */
  lemma {:induction false} RunTitles(d: Draft, titles: seq<string>, n: nat)
    requires d.section == Titles
    requires forall i :: 0 <= i < |titles| ==> PlainTitle(titles[i])
    ensures Run(d, NumberedTitles(titles, n)) == d.(titles := d.titles + titles)
    decreases |titles|
  {
    if titles != [] {
      var lines := NumberedTitles(titles, n);
      assert lines[0] == NatToString(n) + ". " + titles[0];
      assert lines[1..] == NumberedTitles(titles[1..], n + 1);
      var next := d.(titles := d.titles + [titles[0]]);
      TitleStep(d, n, titles[0]);
      RunFirst(d, lines, next);
      PlainTail(titles);
      RunTitles(next, titles[1..], n + 1);
      AppendFirst(d.titles, titles);
    } else {
      assert NumberedTitles(titles, n) == [];
      RunNothing(d);
      assert d.titles + titles == d.titles;
    }
  }

  lemma TrimAllFirst(lines: seq<string>)
    requires |lines| > 0
    ensures TrimAll(lines)[0] == Trim(lines[0]) && TrimAll(lines)[1..] == TrimAll(lines[1..])
  {
  }

  /** A line the reader keeps as description text. */
  predicate DescriptionLine(line: string) {
    NotBlank(line) && !IsHeader(line)
  }

  /** In the description section, every non-blank line adds its trimmed
      text. */
  lemma {:induction false} RunDescription(d: Draft, lines: seq<string>)
    requires d.section == Description
    requires forall i :: 0 <= i < |lines| ==> DescriptionLine(lines[i])
    ensures Run(d, lines) == d.(descriptionLines := d.descriptionLines + TrimAll(lines))
    decreases |lines|
  {
    if lines != [] {
      var next := d.(descriptionLines := d.descriptionLines + [Trim(lines[0])]);
      DescriptionStep(d, lines[0]);
      RunFirst(d, lines, next);
      RunDescription(next, lines[1..]);
      TrimAllFirst(lines);
      AppendFirst(d.descriptionLines, TrimAll(lines));
    } else {
      assert TrimAll(lines) == [];
      RunNothing(d);
      assert d.descriptionLines + [] == d.descriptionLines;
    }
  }

  lemma DescriptionStep(d: Draft, line: string)
    requires d.section == Description && DescriptionLine(line)
    ensures Step(d, line) == d.(descriptionLines := d.descriptionLines + [Trim(line)])
  {
  }

  /** Trimmed non-blank lines are non-empty and trimmed. */
  lemma TrimmedLines(lines: seq<string>)
    requires forall i :: 0 <= i < |lines| ==> NotBlank(lines[i])
    ensures forall i :: 0 <= i < |lines| ==> TrimAll(lines)[i] != [] && Trimmed(TrimAll(lines)[i])
  {
    forall i | 0 <= i < |lines|
      ensures TrimAll(lines)[i] != [] && Trimmed(TrimAll(lines)[i])
    {
      TrimEnds(lines[i]);
    }
  }

  /** A reply in the requested layout parses to exactly its titles, its
      trimmed description lines joined by single spaces, and its tags. */
  lemma ReplyRoundTrip(titles: seq<string>, descriptionLines: seq<string>, tags: seq<string>)
    requires forall i :: 0 <= i < |titles| ==> PlainTitle(titles[i])
    requires forall i :: 0 <= i < |descriptionLines| ==> DescriptionLine(descriptionLines[i])
    requires |tags| >= 1 && forall i :: 0 <= i < |tags| ==> IsTag(tags[i])
    requires !IsHeader("[" + TagList(tags) + "]")
    ensures ParseLines(LaidOut(titles, descriptionLines, tags))
         == Parsed(titles, Join(TrimAll(descriptionLines), " "), tags)
  {
    var titlePart := ["TITLES:"] + NumberedTitles(titles, 1);
    var descriptionPart := ["DESCRIPTION:"] + descriptionLines;
    var tagPart := ["TAGS:", "[" + TagList(tags) + "]"];
    assert LaidOut(titles, descriptionLines, tags) == titlePart + descriptionPart + tagPart;
    RunAppend(Start, titlePart + descriptionPart, tagPart);
    RunAppend(Start, titlePart, descriptionPart);
    TitlesPart(titles);
    DescriptionPart(Draft(Titles, titles, [], []), descriptionLines);
    TagsPart(Draft(Description, titles, TrimAll(descriptionLines), []), tags);
    TrimmedLines(descriptionLines);
    DescriptionJoined(TrimAll(descriptionLines));
  }

  /** The titles header and its numbered lines collect the titles. */
  lemma TitlesPart(titles: seq<string>)
    requires forall i :: 0 <= i < |titles| ==> PlainTitle(titles[i])
    ensures Run(Start, ["TITLES:"] + NumberedTitles(titles, 1)) == Draft(Titles, titles, [], [])
  {
    var lines := ["TITLES:"] + NumberedTitles(titles, 1);
    assert lines[0] == "TITLES:" && lines[1..] == NumberedTitles(titles, 1);
    assert Step(Start, "TITLES:") == Draft(Titles, [], [], []) by {
      HeaderLines();
    }
    RunFirst(Start, lines, Draft(Titles, [], [], []));
    RunTitles(Draft(Titles, [], [], []), titles, 1);
    assert [] + titles == titles;
  }

  /** The description header and its lines collect the trimmed lines. */
  lemma DescriptionPart(d: Draft, descriptionLines: seq<string>)
    requires d.descriptionLines == []
    requires forall i :: 0 <= i < |descriptionLines| ==> DescriptionLine(descriptionLines[i])
    ensures Run(d, ["DESCRIPTION:"] + descriptionLines) == d.(section := Description, descriptionLines := TrimAll(descriptionLines))
  {
    var lines := ["DESCRIPTION:"] + descriptionLines;
    assert lines[0] == "DESCRIPTION:" && lines[1..] == descriptionLines;
    assert Step(d, "DESCRIPTION:") == d.(section := Description) by {
      HeaderLines();
    }
    RunFirst(d, lines, d.(section := Description));
    RunDescription(d.(section := Description), descriptionLines);
    assert [] + TrimAll(descriptionLines) == TrimAll(descriptionLines);
  }

  /** The tags header and a bracketed tag list give exactly the tags. */
  lemma TagsPart(d: Draft, tags: seq<string>)
    requires |tags| >= 1 && forall i :: 0 <= i < |tags| ==> IsTag(tags[i])
    requires !IsHeader("[" + TagList(tags) + "]")
    ensures Run(d, ["TAGS:", "[" + TagList(tags) + "]"]) == d.(section := Tags, tags := tags)
  {
    var tagLine := "[" + TagList(tags) + "]";
    var lines := ["TAGS:", tagLine];
    TagLineRoundTrip(tags);
    assert NotBlank(tagLine) by {
      assert tagLine[0] == '[';
      BlankIffAllSpace(tagLine);
    }
    var tagSection := d.(section := Tags);
    assert Step(d, "TAGS:") == tagSection by {
      HeaderLines();
    }
    RunFirst(d, lines, tagSection);
    assert lines[1..] == [tagLine];
    RunFirst(tagSection, [tagLine], tagSection.(tags := tags));
    assert [tagLine][1..] == [];
    RunNothing(tagSection.(tags := tags));
  }

  // ---------------------------------------------------------------------
  // The session
  // ---------------------------------------------------------------------

  datatype SeoContent = SeoContent(titles: seq<string>, description: string, tags: seq<string>, timestamp: nat, topic: string)

  datatype Session = Session(current: Option<SeoContent>, history: seq<SeoContent>)

  /** What the request to the model ends in: the reply text (empty when
      the reply holds none), an error reported by the service (with its
      message, possibly empty), or a failure of the request itself. */
  datatype Reply = Answer(text: string) | ServiceError(message: string) | Failure(message: string)

  datatype Toast = Success(text: string) | Error(text: string)

  /** `[entry, ...history.slice(0, 9)]`: newest first, at most ten. */
  function Remember(entry: SeoContent, history: seq<SeoContent>): (r: seq<SeoContent>)
    ensures 1 <= |r| <= 10
    ensures r[0] == entry
    ensures |r| == if |history| < 9 then |history| + 1 else 10
    ensures forall i :: 1 <= i < |r| ==> r[i] == history[i - 1]
  {
    [entry] + history[..if |history| < 9 then |history| else 9]
  }

  /** An entry stays in the history for ten generations and no longer. */
  lemma {:induction false} RememberedForTen(entries: seq<SeoContent>, history: seq<SeoContent>, k: nat)
    requires k < |entries|
    ensures var h := RememberAll(entries, history);
      (k < 10 ==> |h| > k && h[k] == entries[|entries| - 1 - k])
    decreases |entries|
  {
    if k > 0 {
      RememberedForTen(entries[..|entries| - 1], history, k - 1);
      assert entries[..|entries| - 1][|entries| - 1 - 1 - (k - 1)] == entries[|entries| - 1 - k];
    }
  }

  /** Generating `entries` in order, starting from `history`. */
  function RememberAll(entries: seq<SeoContent>, history: seq<SeoContent>): (h: seq<SeoContent>)
    ensures |h| <= 10 || (entries == [] && h == history)
    ensures |entries| > 0 ==> |h| == if |entries| + |history| < 10 then |entries| + |history| else 10
  {
    if |entries| == 0 then history
    else Remember(entries[|entries| - 1], RememberAll(entries[..|entries| - 1], history))
  }

  /** `generateSEOContent`: a blank topic is refused before any request
      and leaves the session alone; a failed request shows its message
      and leaves the session alone; a reply is parsed, shown, and put at
      the head of the history. */
  function GenerateSeoContent(s: Session, topic: string, reply: Reply, now: nat): (r: (Session, Toast))
    ensures IsBlank(topic) ==> r == (s, Error("Please enter a topic"))
    ensures !IsBlank(topic) && !reply.Answer? ==> r.0 == s && r.1.Error? && r.1.text != []
    ensures !IsBlank(topic) && !reply.Answer? && reply.message != [] ==> r.1 == Error(reply.message)
    ensures !IsBlank(topic) && reply.ServiceError? && reply.message == []
            ==> r.1 == Error("Failed to generate content")
    ensures !IsBlank(topic) && reply.Failure? && reply.message == []
            ==> r.1 == Error("Failed to generate content. Please try again.")
    ensures !IsBlank(topic) && reply.Answer? ==>
      && r.0.current.Some?
      && r.0.current.value.topic == topic
      && r.0.history == Remember(r.0.current.value, s.history)
      && r.1 == Success("SEO content generated successfully!")
    ensures !IsBlank(topic) && reply.Answer? ==>
      var p := Parse(reply.text);
      var c := r.0.current.value;
      c.titles == p.titles && c.description == p.description && c.tags == p.tags
  {
    if IsBlank(topic) then (s, Error("Please enter a topic"))
    else
      match reply
      case ServiceError(m) =>
        (s, Error(if m != [] then m else "Failed to generate content"))
      case Failure(m) =>
        (s, Error(if m != [] then m else "Failed to generate content. Please try again."))
      case Answer(text) =>
        var p := Parse(text);
        var c := SeoContent(p.titles, p.description, p.tags, now, topic);
        (Session(Some(c), Remember(c, s.history)), Success("SEO content generated successfully!"))
  }

  /** The history never holds more than ten entries. */
  lemma HistoryBounded(s: Session, topic: string, reply: Reply, now: nat)
    requires |s.history| <= 10
    ensures |GenerateSeoContent(s, topic, reply, now).0.history| <= 10
  {
  }
}
