/** The line scanner that finds ATX and setext headings outside fenced code.
    Positions count characters; indentation counts UTF-8 bytes. */
module Headings {
  import opened Text
  import opened Slugs

  datatype Heading = Heading(level: nat, text: string, slug: string, start: nat, end: nat)

  datatype Fence = Fence(marker: char, length: nat)

  /** A line that an underline right below would turn into a heading. */
  datatype Candidate = Candidate(start: nat, end: nat, text: string)

  datatype State = State(
    headings: seq<Heading>,
    fence: Option<Fence>,
    offset: nat,
    previous: Option<Candidate>
  )

  const INITIAL := State([], None, 0, None)

  function Is(marker: char): char -> bool {
    c => c == marker
  }

  function Trimmed(line: string): string {
    TrimEnd(line, IsLineEnd)
  }

  function Content(line: string): string {
    TrimStart(Trimmed(line))
  }

  function Indent(line: string): nat {
    ByteLen(Trimmed(line)[..Leading(Trimmed(line), IsWhite)])
  }

  /** The content of a closing line. */
  predicate ClosingContent(fence: Fence, content: string) {
    Leading(content, Is(fence.marker)) >= fence.length && All(TrimEnd(content, IsWhite), fence.marker)
  }

  predicate Closes(fence: Fence, line: string) {
    Indent(line) <= 3 && ClosingContent(fence, Content(line))
  }

  /** What a line must be to close a fence: a run of the fence's marker that is long
      enough, blanks around it, at most three bytes of them in front. */
  ghost predicate ClosingLine(fence: Fence, line: string) {
    exists lead: string, n: nat, trail: string ::
      ClosedBy(fence, line, lead, n, trail)
  }

  ghost predicate ClosedBy(fence: Fence, line: string, lead: string, n: nat, trail: string) {
    && line == lead + Repeat(fence.marker, n) + trail
    && Blanks(lead) && Blanks(trail) && n >= fence.length && ByteLen(lead) <= 3
  }

  /** A line closes a fence of backquotes or tildes exactly when it is such a line. */
  lemma ClosesExactly(fence: Fence, line: string)
    requires (fence.marker == '`' || fence.marker == '~') && fence.length > 0
    ensures Closes(fence, line) <==> ClosingLine(fence, line)
  {
    hide ByteLen, Closes, ClosedBy;
    if Closes(fence, line) {
      ClosingShape(fence, line);
    }
    forall lead: string, n: nat, trail: string | ClosedBy(fence, line, lead, n, trail) ensures Closes(fence, line) {
      ShapeCloses(fence, line, lead, n, trail);
    }
  }

  /** A line is blanks, its content, and line ends. */
  lemma LineSplits(line: string) returns (lead: string, end: string)
    ensures line == lead + Content(line) + end && Blanks(lead) && Blanks(end)
    ensures Indent(line) == ByteLen(lead)
  {
    hide ByteLen, Leading, Kept;
    var trimmed := Trimmed(line);
    lead, end := trimmed[..Leading(trimmed, IsWhite)], line[|trimmed|..];
    assert line == trimmed + end && trimmed == lead + Content(line);
  }

  lemma ContentShape(fence: Fence, content: string) returns (n: nat)
    requires !IsWhite(fence.marker) && ClosingContent(fence, content)
    ensures fence.length <= n <= |content|
    ensures content[..n] == Repeat(fence.marker, n) && Blanks(content[n..])
  {
    hide Leading, Kept;
    n := Kept(content, IsWhite);
    assert n < |content| ==> IsWhite(content[n]);
    assert Leading(content, Is(fence.marker)) <= n;
  }

  lemma ClosingShape(fence: Fence, line: string)
    requires (fence.marker == '`' || fence.marker == '~') && fence.length > 0 && Closes(fence, line)
    ensures ClosingLine(fence, line)
  {
    hide ByteLen, ClosingContent, Content, Indent;
    var content := Content(line);
    var lead, end := LineSplits(line);
    var n := ContentShape(fence, content);
    assert content == content[..n] + content[n..];
    assert line == lead + Repeat(fence.marker, n) + (content[n..] + end);
    assert ClosedBy(fence, line, lead, n, content[n..] + end);
  }

  lemma RunCloses(fence: Fence, n: nat, blanks: string)
    requires !IsWhite(fence.marker) && n >= fence.length > 0 && Blanks(blanks)
    ensures ClosingContent(fence, Repeat(fence.marker, n) + blanks)
  {
    hide Leading, Kept;
    var content := Repeat(fence.marker, n) + blanks;
    KeptIs(content, IsWhite, n);
    assert content[..n] == Repeat(fence.marker, n);
    LeadingIs(content, Is(fence.marker), n);
  }

  lemma ShapeCloses(fence: Fence, line: string, lead: string, n: nat, trail: string)
    requires (fence.marker == '`' || fence.marker == '~') && fence.length > 0 && ClosedBy(fence, line, lead, n, trail)
    ensures Closes(fence, line)
  {
    hide ByteLen, Leading, Kept, ClosingContent, Content, Indent;
    RunTrimmed(lead, Repeat(fence.marker, n), trail);
    RunCloses(fence, n, trail[..Kept(trail, IsLineEnd)]);
  }

  lemma RunTrimmed(lead: string, run: string, trail: string)
    requires Blanks(lead) && run != "" && !IsWhite(run[0]) && !IsLineEnd(run[|run| - 1])
    ensures var line := lead + run + trail;
            Content(line) == run + trail[..Kept(trail, IsLineEnd)] && Indent(line) == ByteLen(lead)
  {
    hide ByteLen, Leading, Kept;
    var k := Kept(trail, IsLineEnd);
    var line, trimmed := lead + run + trail, lead + run + trail[..k];
    KeptIs(line, IsLineEnd, |lead| + |run| + k);
    assert line[..|lead| + |run| + k] == trimmed;
    LeadingIs(trimmed, IsWhite, |lead|);
    assert trimmed[..|lead|] == lead && trimmed[|lead|..] == run + trail[..k];
  }

  function Opens(line: string): Option<Fence> {
    var content := Content(line);
    if Indent(line) <= 3 && content != "" && (content[0] == '`' || content[0] == '~')
      && Leading(content, Is(content[0])) >= 3
    then Some(Fence(content[0], Leading(content, Is(content[0]))))
    else None
  }

  /** What a line outside fenced code makes a heading of. */
  datatype Found = Found(level: nat, text: string, start: nat)

  /** `hashes as u8` keeps the count modulo 256. */
  function Atx(content: string, offset: nat): Option<Found> {
    var hashes := Leading(content, Is('#'));
    var rest := content[hashes..];
    if 1 <= hashes % 256 <= 6 && (rest == "" || rest[0] == ' ' || rest[0] == '\t')
    then Some(Found(hashes % 256, Trim(TrimEnd(Trim(rest), Is('#'))), offset))
    else None
  }

  function Setext(content: string, previous: Option<Candidate>): Option<Found>
    requires content != ""
  {
    if (content[0] == '=' || content[0] == '-') && All(TrimEnd(content, IsWhite), content[0]) && previous.Some?
    then Some(Found(if content[0] == '=' then 1 else 2, previous.value.text, previous.value.start))
    else None
  }

  function Find(line: string, offset: nat, previous: Option<Candidate>): Option<Found> {
    var content := Content(line);
    if Indent(line) > 3 || content == "" then None
    else if content[0] == '#' then Atx(content, offset)
    else Setext(content, previous)
  }

  function SlugsOf(headings: seq<Heading>): seq<string> {
    seq(|headings|, i requires 0 <= i < |headings| => headings[i].slug)
  }

  /** One line of the scan. */
  function Step(cls: Classes, s: State, line: string): State {
    var end := s.offset + |line|;
    if s.fence.Some? then
      State(s.headings, if Closes(s.fence.value, line) then None else s.fence, end, None)
    else if Opens(line).Some? then
      State(s.headings, Opens(line), end, None)
    else match Find(line, s.offset, s.previous)
      case Some(Found(level, text, start)) =>
        var slug := SlugFor(cls, text, SlugsOf(s.headings));
        State(s.headings + [Heading(level, text, slug, start, end)], None, end, None)
      case None =>
        var content := Content(line);
        State(s.headings, None, end,
              if content == "" then None else Some(Candidate(s.offset, end, Trim(content))))
  }

  function Run(cls: Classes, s: State, lines: seq<string>): State {
    if lines == [] then s
    else Step(cls, Run(cls, s, lines[..|lines| - 1]), lines[|lines| - 1])
  }

  function Scan(cls: Classes, source: string): seq<Heading> {
    Run(cls, INITIAL, SplitInclusive(source)).headings
  }

  lemma RunNone(cls: Classes, lines: seq<string>)
    ensures Run(cls, INITIAL, lines[..0]) == INITIAL && SlugsOf([]) == []
  {
  }

  lemma RunSnoc(cls: Classes, s: State, lines: seq<string>, i: nat)
    requires i < |lines|
    ensures Run(cls, s, lines[..i + 1]) == Step(cls, Run(cls, s, lines[..i]), lines[i])
  {
    hide Step;
    assert lines[..i + 1][..i] == lines[..i];
  }

  lemma StepCases(cls: Classes, s: State, line: string)
    ensures var next := Step(cls, s, line);
            var end := s.offset + |line|;
            var found := Find(line, s.offset, s.previous);
            if s.fence.Some? then
              next == State(s.headings, if Closes(s.fence.value, line) then None else s.fence, end, None)
            else if Opens(line).Some? then next == State(s.headings, Opens(line), end, None)
            else if found.Some? then
              var Found(level, text, start) := found.value;
              var slug := SlugFor(cls, text, SlugsOf(s.headings));
              next == State(s.headings + [Heading(level, text, slug, start, end)], None, end, None)
            else
              next == State(s.headings, None, end,
                            if Content(line) == "" then None
                            else Some(Candidate(s.offset, end, Trim(Content(line)))))
  {
    hide Find, Opens, Closes, SlugFor, Content, Trim, SlugsOf;
  }

  lemma SlugsSnoc(headings: seq<Heading>, h: Heading)
    ensures SlugsOf(headings + [h]) == SlugsOf(headings) + [h.slug]
  {
  }

  method ScanHeadings(cls: Classes, source: string) returns (headings: seq<Heading>)
    requires cls.Valid()
    ensures headings == Scan(cls, source)
  {
    hide SplitInclusive, Run, Step, SlugsOf, SlugFor, Atx, Setext, Content, Indent, Leading, TrimEnd, Trim;
    headings := [];
    var slugs: seq<string> := [];
    var fence: Option<Fence> := None;
    var offset: nat := 0;
    var previous: Option<Candidate> := None;
    var lines := SplitInclusive(source);
    RunNone(cls, lines);
    for i := 0 to |lines|
      invariant State(headings, fence, offset, previous) == Run(cls, INITIAL, lines[..i])
      invariant slugs == SlugsOf(headings)
    {
      var line := lines[i];
      RunSnoc(cls, INITIAL, lines, i);
      StepCases(cls, State(headings, fence, offset, previous), line);
      var end := offset + |line|;
      var content := Content(line);
      var indent := Indent(line);

      if indent <= 3 {
        if fence.Some? {
          var run := Leading(content, Is(fence.value.marker));
          if run >= fence.value.length && All(TrimEnd(content, IsWhite), fence.value.marker) {
            fence := None;
          }
          offset := end;
          previous := None;
          continue;
        }
        if content != "" && (content[0] == '`' || content[0] == '~') {
          var run := Leading(content, Is(content[0]));
          if run >= 3 {
            fence := Some(Fence(content[0], run));
            offset := end;
            previous := None;
            continue;
          }
        }
      } else if fence.Some? {
        offset := end;
        previous := None;
        continue;
      }

      var found: Option<Found> := None;
      if indent <= 3 && content != "" && content[0] == '#' {
        found := Atx(content, offset);
      } else if indent <= 3 && content != "" {
        found := Setext(content, previous);
      }

      match found {
        case Some(Found(level, text, start)) =>
          var slug := Slugify(cls, text, slugs);
          SlugsSnoc(headings, Heading(level, text, slug, start, end));
          slugs := slugs + [slug];
          headings := headings + [Heading(level, text, slug, start, end)];
          previous := None;
        case None =>
          previous := if content == "" then None else Some(Candidate(offset, end, Trim(content)));
      }
      offset := end;
    }
    assert lines[..|lines|] == lines;
  }

  lemma {:induction false} RunAppend(cls: Classes, s: State, a: seq<string>, b: seq<string>)
    ensures Run(cls, s, a + b) == Run(cls, Run(cls, s, a), b)
    decreases |b|
  {
    if b == [] {
      assert a + b == a;
    } else {
      RunAppend(cls, s, a, b[..|b| - 1]);
      assert (a + b)[..|a + b| - 1] == a + b[..|b| - 1];
    }
  }

  /** Heading ranges are nonempty, in order, disjoint and inside the text, and
      their slugs are all different. */
  ghost predicate Ordered(headings: seq<Heading>, limit: nat) {
    && (forall i :: 0 <= i < |headings| ==>
          headings[i].start < headings[i].end <= limit && 1 <= headings[i].level <= 6)
    && (forall i, j :: 0 <= i < j < |headings| ==> headings[i].end <= headings[j].start)
  }

  ghost predicate DistinctSlugs(headings: seq<Heading>) {
    forall i, j :: 0 <= i < j < |headings| ==> headings[i].slug != headings[j].slug
  }

  ghost predicate Sound(s: State) {
    && Ordered(s.headings, s.offset)
    && DistinctSlugs(s.headings)
    && (s.previous.Some? ==>
          && s.previous.value.start < s.previous.value.end == s.offset
          && forall i :: 0 <= i < |s.headings| ==> s.headings[i].end <= s.previous.value.start)
  }

  lemma SoundAppend(headings: seq<Heading>, limit: nat, h: Heading)
    requires Ordered(headings, limit) && DistinctSlugs(headings)
    requires h.start < h.end && 1 <= h.level <= 6 && limit <= h.end
    requires forall i :: 0 <= i < |headings| ==> headings[i].end <= h.start
    requires h.slug !in SlugsOf(headings)
    ensures Ordered(headings + [h], h.end) && DistinctSlugs(headings + [h])
  {
    forall i | 0 <= i < |headings| ensures headings[i].slug != h.slug {
      assert SlugsOf(headings)[i] == headings[i].slug;
    }
  }

  lemma FoundIsSound(line: string, s: State)
    requires Sound(s) && line != ""
    ensures var found := Find(line, s.offset, s.previous);
            found.Some? ==>
              && 1 <= found.value.level <= 6 && found.value.start <= s.offset
              && forall i :: 0 <= i < |s.headings| ==> s.headings[i].end <= found.value.start
  {
  }

  lemma StepSound(cls: Classes, s: State, line: string)
    requires Sound(s) && line != ""
    ensures Sound(Step(cls, s, line)) && s.headings <= Step(cls, s, line).headings
  {
    hide Find, Opens, Closes, SlugFor, Content;
    var found := Find(line, s.offset, s.previous);
    if s.fence.None? && Opens(line).None? && found.Some? {
      var slug := SlugFor(cls, found.value.text, SlugsOf(s.headings));
      FoundIsSound(line, s);
      SlugIsFree(cls, found.value.text, SlugsOf(s.headings));
      SoundAppend(s.headings, s.offset,
                  Heading(found.value.level, found.value.text, slug, found.value.start, s.offset + |line|));
    }
  }

  lemma {:induction false} RunSound(cls: Classes, s: State, lines: seq<string>)
    requires Sound(s) && forall i :: 0 <= i < |lines| ==> lines[i] != ""
    ensures Sound(Run(cls, s, lines))
    decreases |lines|
  {
    if lines != [] {
      RunSound(cls, s, lines[..|lines| - 1]);
      StepSound(cls, Run(cls, s, lines[..|lines| - 1]), lines[|lines| - 1]);
    }
  }

  lemma {:induction false} RunOffset(cls: Classes, s: State, lines: seq<string>)
    ensures Run(cls, s, lines).offset == s.offset + |Flatten(lines)|
    decreases |lines|
  {
    if lines != [] {
      RunOffset(cls, s, lines[..|lines| - 1]);
      FlattenLast(lines);
    }
  }

  /** Whatever the text, scanned ranges are nonempty, ordered and disjoint, even
      with two-line setext headings, and no two slugs are equal. */
  lemma ScanIsSound(cls: Classes, source: string)
    ensures Ordered(Scan(cls, source), |source|) && DistinctSlugs(Scan(cls, source))
  {
    SplitFlatten(source);
    RunSound(cls, INITIAL, SplitInclusive(source));
    RunOffset(cls, INITIAL, SplitInclusive(source));
  }

  /** Lines that stay inside a fence only advance the offset. */
  lemma {:induction false} FencedRun(cls: Classes, s: State, lines: seq<string>)
    requires s.fence.Some? && lines != []
    requires forall i :: 0 <= i < |lines| ==> !Closes(s.fence.value, lines[i])
    ensures Run(cls, s, lines) == State(s.headings, s.fence, s.offset + |Flatten(lines)|, None)
    decreases |lines|
  {
    var front, last := lines[..|lines| - 1], lines[|lines| - 1];
    FlattenLast(lines);
    if front != [] {
      FencedRun(cls, s, front);
    }
  }

  /** Headings found after a point where no candidate line is pending start at
      or after that point. */
  ghost predicate Later(s: State, t: State) {
    && s.headings <= t.headings && s.offset <= t.offset
    && (t.previous.Some? ==> s.offset <= t.previous.value.start)
    && forall i :: |s.headings| <= i < |t.headings| ==> s.offset <= t.headings[i].start
  }

  lemma LaterStep(cls: Classes, s: State, t: State, line: string)
    requires Later(s, t)
    ensures Later(s, Step(cls, t, line))
  {
    hide Opens, Closes, SlugFor, Content, Trim, SlugsOf, Indent, Leading, Kept, All, TrimEnd;
  }

  lemma {:induction false} LaterHeadings(cls: Classes, s: State, lines: seq<string>)
    requires s.previous.None?
    ensures Later(s, Run(cls, s, lines))
    decreases |lines|
  {
    hide Step, Later;
    if lines == [] {
      LaterSame(s);
    } else {
      LaterHeadings(cls, s, lines[..|lines| - 1]);
      LaterStep(cls, s, Run(cls, s, lines[..|lines| - 1]), lines[|lines| - 1]);
    }
  }

  lemma LaterSame(s: State)
    requires s.previous.None?
    ensures Later(s, s)
  {
  }

  ghost predicate Fenced(cls: Classes, pre: string, block: string) {
    var fence := Run(cls, INITIAL, SplitInclusive(pre)).fence;
    && fence.Some?
    && forall line :: line in SplitInclusive(block) ==> !ClosingLine(fence.value, line)
  }

  /** Scanning three whole pieces is scanning them one after the other. */
  lemma RunPieces(cls: Classes, pre: string, block: string, post: string)
    requires Whole(pre) && (Whole(block) || post == "")
    ensures Run(cls, INITIAL, SplitInclusive(pre + block + post)) ==
            Run(cls, Run(cls, Run(cls, INITIAL, SplitInclusive(pre)), SplitInclusive(block)),
                SplitInclusive(post))
  {
    hide Step, SplitInclusive;
    SplitAppend(pre, block);
    RunAppend(cls, INITIAL, SplitInclusive(pre), SplitInclusive(block));
    if post == "" {
      assert pre + block + post == pre + block;
      NoLines(cls, Run(cls, INITIAL, SplitInclusive(pre + block)));
    } else {
      WholeAppend(pre, block);
      SplitAppend(pre + block, post);
      RunAppend(cls, INITIAL, SplitInclusive(pre + block), SplitInclusive(post));
    }
  }

  lemma NoLines(cls: Classes, s: State)
    ensures Run(cls, s, SplitInclusive("")) == s
  {
  }

  /** An open fence is one of at least three backquotes or tildes. */
  lemma {:induction false} RunFence(cls: Classes, lines: seq<string>)
    ensures var fence := Run(cls, INITIAL, lines).fence;
            fence.Some? ==> (fence.value.marker == '`' || fence.value.marker == '~') && fence.value.length >= 3
    decreases |lines|
  {
    hide Find, Closes, SlugFor, Content, Trim, SlugsOf;
    if lines != [] {
      RunFence(cls, lines[..|lines| - 1]);
    }
  }

  lemma FencedState(cls: Classes, pre: string, block: string)
    requires Whole(pre) && block != "" && Fenced(cls, pre, block)
    ensures var before := Run(cls, INITIAL, SplitInclusive(pre));
            && Ordered(before.headings, |pre|)
            && Run(cls, before, SplitInclusive(block)) ==
               State(before.headings, before.fence, |pre| + |block|, None)
  {
    hide Step, Closes, ClosingLine;
    ScanIsSound(cls, pre);
    RunFence(cls, SplitInclusive(pre));
    var fence := Run(cls, INITIAL, SplitInclusive(pre)).fence.value;
    forall line | line in SplitInclusive(block) ensures !Closes(fence, line) {
      ClosesExactly(fence, line);
    }
    SplitFlatten(pre);
    RunOffset(cls, INITIAL, SplitInclusive(pre));
    SplitFlatten(block);
    FencedRun(cls, Run(cls, INITIAL, SplitInclusive(pre)), SplitInclusive(block));
  }

  /** Fenced code is inert: exchanging a block of lines inside a fence for another
      of equal length changes no heading, and no heading touches the block, when none
      of the lines is a run of the marker that closes the fence. A block that ends the text may end within a line. */
  lemma FencedTextIsInert(cls: Classes, pre: string, a: string, b: string, post: string)
    requires Whole(pre) && ((Whole(a) && Whole(b)) || post == "") && |a| == |b| > 0
    requires Fenced(cls, pre, a) && Fenced(cls, pre, b)
    ensures Scan(cls, pre + a + post) == Scan(cls, pre + b + post)
    ensures forall h :: h in Scan(cls, pre + a + post) ==>
                          h.end <= |pre| || |pre| + |a| <= h.start
  {
    hide Step, SplitInclusive, Run, Fenced;
    RunPieces(cls, pre, a, post);
    RunPieces(cls, pre, b, post);
    FencedState(cls, pre, a);
    FencedState(cls, pre, b);
    var before := Run(cls, INITIAL, SplitInclusive(pre));
    LaterHeadings(cls, State(before.headings, before.fence, |pre| + |a|, None), SplitInclusive(post));
  }

  lemma WholeAppend(a: string, b: string)
    requires Whole(a) && Whole(b)
    ensures Whole(a + b)
  {
    if b == "" {
      assert a + b == a;
    } else {
      assert (a + b)[|a + b| - 1] == b[|b| - 1];
    }
  }
}
