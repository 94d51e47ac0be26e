/** What the scanner makes of lines written on purpose: headings, underlines,
    fences, and whole documents rendered from a list of headings. */
module HeadingLines {
  import opened Text
  import opened Slugs
  import opened Headings

  /** A heading text that survives trimming and is not mistaken for a closing
      run of `#`. */
  predicate Bare(text: string) {
    text != "" ==>
      !IsWhite(text[0]) && !IsWhite(text[|text| - 1]) && text[|text| - 1] != '#'
  }

  lemma BareTrim(text: string)
    requires Bare(text)
    ensures Trim(text) == text && TrimEnd(text, Is('#')) == text
  {
    hide Leading, Kept;
    LeadingIs(text, IsWhite, 0);
    KeptIs(text, IsWhite, |text|);
    KeptIs(text, Is('#'), |text|);
  }

  /** A line: some spaces, a body that starts with a visible character, an ending. */
  function Line(indent: nat, body: string, ending: string): string {
    Repeat(' ', indent) + body + ending
  }

  predicate Ending(ending: string) {
    ending == "" || ending == "\n" || ending == "\r\n"
  }

  predicate Body(body: string) {
    body != "" && !IsWhite(body[0]) && !IsLineEnd(body[|body| - 1])
  }

  lemma {:induction false} SpacesWide(n: nat)
    ensures ByteLen(Repeat(' ', n)) == n
  {
    if n > 0 {
      SpacesWide(n - 1);
      assert Repeat(' ', n)[1..] == Repeat(' ', n - 1);
    }
  }

  lemma LineParts(indent: nat, body: string, ending: string)
    requires Body(body) && Ending(ending)
    ensures Content(Line(indent, body, ending)) == body && Indent(Line(indent, body, ending)) == indent
  {
    hide Leading, Kept, ByteLen;
    var line, trimmed := Line(indent, body, ending), Repeat(' ', indent) + body;
    KeptIs(line, IsLineEnd, |trimmed|);
    assert line[..|trimmed|] == trimmed;
    LeadingIs(trimmed, IsWhite, indent);
    assert trimmed[..indent] == Repeat(' ', indent) && trimmed[indent..] == body;
    SpacesWide(indent);
  }

  /** What follows the opening hashes: one character, a text, blanks, and perhaps a
      closing run of hashes, which may touch the text. */
  function AtxRest(gap: char, text: string, blanks: string, closing: nat): string {
    [gap] + (text + (blanks + Repeat('#', closing)))
  }

  /** The text between the hashes survives. */
  lemma AtxText(gap: char, text: string, blanks: string, closing: nat)
    requires Bare(text) && IsWhite(gap) && Blanks(blanks)
    ensures Trim(TrimEnd(Trim(AtxRest(gap, text, blanks, closing)), Is('#'))) == text
  {
    hide Leading, Kept, Trim;
    BareTrim(text);
    if closing == 0 {
      Unpadded(gap, text, blanks);
    } else {
      ClosingCut(gap, text, blanks, closing);
      if text == "" {
        Blank();
      } else {
        PaddedEnd(text, blanks);
      }
    }
  }

  lemma Unpadded(gap: char, text: string, blanks: string)
    requires Bare(text) && IsWhite(gap) && Blanks(blanks)
    ensures Trim(AtxRest(gap, text, blanks, 0)) == text
  {
    hide Leading, Kept;
    var s := AtxRest(gap, text, blanks, 0);
    if text == "" {
      LeadingIs(s, IsWhite, |s|);
      KeptIs("", IsWhite, 0);
    } else {
      LeadingIs(s, IsWhite, 1);
      assert s[1..] == text + blanks;
      KeptIs(text + blanks, IsWhite, |text|);
      assert (text + blanks)[..|text|] == text;
    }
  }

  /** Blanks in front of visible text are trimmed off. */
  lemma TrimmedTo(blanks: string, core: string)
    requires Blanks(blanks) && core != "" && !IsWhite(core[0]) && !IsWhite(core[|core| - 1])
    ensures Trim(blanks + core) == core
  {
    hide Leading, Kept;
    LeadingIs(blanks + core, IsWhite, |blanks|);
    assert (blanks + core)[|blanks|..] == core;
    KeptIs(core, IsWhite, |core|);
  }

  lemma HashesCut(left: string, closing: nat)
    requires left != "" ==> left[|left| - 1] != '#'
    ensures TrimEnd(left + Repeat('#', closing), Is('#')) == left
  {
    hide Leading, Kept;
    KeptIs(left + Repeat('#', closing), Is('#'), |left|);
  }

  lemma ClosingCut(gap: char, text: string, blanks: string, closing: nat)
    requires Bare(text) && IsWhite(gap) && Blanks(blanks) && closing > 0
    ensures TrimEnd(Trim(AtxRest(gap, text, blanks, closing)), Is('#')) == if text == "" then "" else text + blanks
  {
    hide Leading, Kept, Trim, TrimEnd;
    var s, hashes := AtxRest(gap, text, blanks, closing), Repeat('#', closing);
    if text == "" {
      assert s == ([gap] + blanks) + hashes;
      TrimmedTo([gap] + blanks, hashes);
      HashesCut("", closing);
      assert "" + hashes == hashes;
    } else {
      Associative(text, blanks, hashes);
      TrimmedTo([gap], text + blanks + hashes);
      LastIsNoHash(text, blanks);
      HashesCut(text + blanks, closing);
    }
  }

  lemma LastIsNoHash(text: string, blanks: string)
    requires Bare(text) && Blanks(blanks) && text != ""
    ensures (text + blanks)[|text + blanks| - 1] != '#'
  {
  }

  lemma PaddedEnd(text: string, blanks: string)
    requires Bare(text) && text != "" && Blanks(blanks)
    ensures Trim(text + blanks) == text
  {
    hide Leading, Kept;
    LeadingIs(text + blanks, IsWhite, 0);
    KeptIs(text + blanks, IsWhite, |text|);
    assert (text + blanks)[..|text|] == text;
  }

  lemma Blank()
    ensures Trim("") == ""
  {
  }

  function AtxBody(n: nat, rest: string): string {
    Repeat('#', n) + rest
  }

  /** Blanks after a text are trimmed off whatever the text. */
  lemma TrimTail(s: string, blanks: string)
    requires Blanks(blanks)
    ensures Trim(s + blanks) == Trim(s)
  {
    hide Leading, Kept;
    var n := Leading(s, IsWhite);
    if n == |s| {
      LeadingIs(s + blanks, IsWhite, |s + blanks|);
    } else {
      LeadingIs(s + blanks, IsWhite, n);
      var rest := s[n..];
      assert (s + blanks)[n..] == rest + blanks;
      KeptIs(rest + blanks, IsWhite, Kept(rest, IsWhite));
      assert (rest + blanks)[..Kept(rest, IsWhite)] == rest[..Kept(rest, IsWhite)];
    }
  }

  /** And so are blanks in front of it. */
  lemma TrimHead(blanks: string, s: string)
    requires Blanks(blanks)
    ensures Trim(blanks + s) == Trim(s)
  {
    hide Leading, Kept;
    var n := Leading(s, IsWhite);
    LeadingIs(blanks + s, IsWhite, |blanks| + n);
    assert (blanks + s)[|blanks| + n..] == s[n..];
  }

  /** Any way of going on after the hashes: one character, blanks, a text, blanks, a
      closing run of hashes, and blanks. */
  function AtxSpaced(gap: char, lead: string, text: string, blanks: string, closing: nat, trail: string): string {
    [gap] + (lead + (text + (blanks + Repeat('#', closing)))) + trail
  }

  lemma SpacedTrims(gap: char, lead: string, text: string, blanks: string, closing: nat, trail: string)
    requires IsWhite(gap) && Blanks(lead) && Blanks(trail)
    ensures Trim(AtxSpaced(gap, lead, text, blanks, closing, trail)) == Trim(AtxRest(gap, text, blanks, closing))
  {
    hide Trim;
    var tail := text + (blanks + Repeat('#', closing));
    TrimTail([gap] + (lead + tail), trail);
    TrimHead([gap], lead + tail);
    TrimHead(lead, tail);
    TrimHead([gap], tail);
  }

  /** A line that starts with `n` hashes and goes on is a heading exactly when it is
      indented by at most three, a space or a tab follows the hashes, and `n` modulo
      256 is a level. The level is that remainder. Blanks around the text are no
      part of it. Closing hashes are cut off with the blanks around them, and so are
      hashes that touch the text. */
  lemma AtxHeading(indent: nat, n: nat, gap: char, lead: string, text: string, blanks: string, closing: nat,
                   trail: string, ending: string, offset: nat, previous: Option<Candidate>)
    requires n >= 1 && Bare(text) && Ending(ending) && gap != '#'
    requires Blanks(lead) && Blanks(blanks) && Blanks(trail)
    requires var rest := AtxSpaced(gap, lead, text, blanks, closing, trail); !IsLineEnd(rest[|rest| - 1])
    ensures var line := Line(indent, AtxBody(n, AtxSpaced(gap, lead, text, blanks, closing, trail)), ending);
            && Opens(line).None?
            && Find(line, offset, previous) ==
               if indent <= 3 && (gap == ' ' || gap == '\t') && 1 <= n % 256 <= 6 then Some(Found(n % 256, text, offset))
               else None
  {
    hide Leading, Kept, ByteLen, Trim, Content, Indent, Setext, AtxSpaced, Blanks;
    SpacedStarts(gap, lead, text, blanks, closing, trail);
    AtxFind(indent, n, AtxSpaced(gap, lead, text, blanks, closing, trail), ending, offset, previous);
    if IsWhite(gap) {
      SpacedTrims(gap, lead, text, blanks, closing, trail);
      AtxText(gap, text, blanks, closing);
    }
  }

  lemma SpacedStarts(gap: char, lead: string, text: string, blanks: string, closing: nat, trail: string)
    ensures var rest := AtxSpaced(gap, lead, text, blanks, closing, trail); rest != "" && rest[0] == gap
  {
  }

  /** A bare run of hashes is a heading without a text. */
  lemma BareHeading(indent: nat, n: nat, ending: string, offset: nat, previous: Option<Candidate>)
    requires n >= 1 && Ending(ending)
    ensures var line := Line(indent, Repeat('#', n), ending);
            && Opens(line).None?
            && Find(line, offset, previous) ==
               if indent <= 3 && 1 <= n % 256 <= 6 then Some(Found(n % 256, "", offset)) else None
  {
    hide Leading, Kept, ByteLen, Trim, Content, Indent, Setext;
    AtxFind(indent, n, "", ending, offset, previous);
    assert AtxBody(n, "") == Repeat('#', n);
    Blank();
    BareTrim("");
  }

  /** What the scanner finds in a line that starts with hashes. */
  lemma AtxFind(indent: nat, n: nat, rest: string, ending: string, offset: nat, previous: Option<Candidate>)
    requires n >= 1 && Ending(ending) && (rest != "" ==> rest[0] != '#' && !IsLineEnd(rest[|rest| - 1]))
    ensures var line := Line(indent, AtxBody(n, rest), ending);
            && Opens(line).None?
            && Find(line, offset, previous) ==
               if indent <= 3 && (rest == "" || rest[0] == ' ' || rest[0] == '\t') && 1 <= n % 256 <= 6
               then Some(Found(n % 256, Trim(TrimEnd(Trim(rest), Is('#'))), offset))
               else None
  {
    hide Leading, Kept, ByteLen, Trim, TrimEnd, Content, Indent, Setext;
    var body := AtxBody(n, rest);
    assert body[0] == '#' && body[|body| - 1] == if rest == "" then '#' else rest[|rest| - 1];
    LineParts(indent, body, ending);
    LeadingIs(body, Is('#'), n);
    assert body[n..] == rest;
  }

  function AtxLine(n: nat, text: string): string {
    Line(0, AtxBody(n, " " + text), "\n")
  }

  /** A plain heading line. */
  lemma AtxLineFinds(n: nat, text: string, offset: nat, previous: Option<Candidate>)
    requires n >= 1 && Bare(text)
    ensures Opens(AtxLine(n, text)).None?
    ensures Find(AtxLine(n, text), offset, previous) ==
            if 1 <= n % 256 <= 6 then Some(Found(n % 256, text, offset)) else None
  {
    hide Find, Opens, AtxBody, Line;
    RestEnds(text);
    AtxHeading(0, n, ' ', "", text, "", 0, "", "\n", offset, previous);
  }

  lemma RestEnds(text: string)
    requires Bare(text)
    ensures var rest := AtxSpaced(' ', "", text, "", 0, "");
            rest == " " + text && !IsLineEnd(rest[|rest| - 1]) && Blanks("")
  {
    var rest := " " + text;
    assert rest[|rest| - 1] == if text == "" then ' ' else text[|text| - 1];
  }

  /** Seven hashes are no heading, but 257, 513, ... are a heading of level one. */
  lemma LongHashRun(k: nat, text: string, offset: nat)
    requires Bare(text)
    ensures Find(AtxLine(7, text), offset, None).None?
    ensures Find(AtxLine(256 * k + 1, text), offset, None) == Some(Found(1, text, offset))
  {
    hide Find, Opens, AtxLine, Bare;
    var n := 256 * k + 1;
    assert n % 256 == 1;
    AtxLineFinds(7, text, offset, None);
    AtxLineFinds(n, text, offset, None);
  }

  /** What a run of one marker, with something else after it, looks like. */
  lemma RuleParts(indent: nat, marker: char, n: nat, info: string, ending: string)
    requires n >= 1 && !IsWhite(marker) && Ending(ending)
    requires info != "" ==> info[0] != marker && !IsLineEnd(info[|info| - 1])
    ensures var line := Line(indent, Repeat(marker, n) + info, ending);
            && Content(line) == Repeat(marker, n) + info && Indent(line) == indent
            && Leading(Content(line), Is(marker)) == n
            && (All(TrimEnd(Content(line), IsWhite), marker) <==> Blanks(info))
  {
    hide Leading, Kept, Content, Indent;
    var body := Repeat(marker, n) + info;
    assert body[|body| - 1] == if info == "" then marker else info[|info| - 1];
    LineParts(indent, body, ending);
    LeadingIs(body, Is(marker), n);
    if Blanks(info) {
      KeptIs(body, IsWhite, n);
    } else {
      var i :| 0 <= i < |info| && !IsWhite(info[i]);
      assert body[n + i] == info[i];
      assert Kept(body, IsWhite) > n + i;
      assert body[n] == info[0];
    }
  }

  /** A run of backquotes or tildes opens a fence from three on, whatever follows,
      and closes a fence of the same character that is no longer when only blanks
      follow. Neither happens beyond an indentation of three. */
  lemma FenceRule(indent: nat, marker: char, n: nat, info: string, ending: string, fence: Fence)
    requires n >= 1 && (marker == '`' || marker == '~') && fence.length >= 1 && Ending(ending)
    requires info != "" ==> info[0] != marker && !IsLineEnd(info[|info| - 1])
    ensures var line := Line(indent, Repeat(marker, n) + info, ending);
            && Opens(line) == (if indent <= 3 && n >= 3 then Some(Fence(marker, n)) else None)
            && (Closes(fence, line) <==>
                  indent <= 3 && fence.marker == marker && n >= fence.length && Blanks(info))
  {
    hide Leading, Kept, Content, Indent, Blanks;
    RuleParts(indent, marker, n, info, ending);
    var body := Repeat(marker, n) + info;
    assert body[0] == marker;
    if fence.marker != marker {
      LeadingIs(body, Is(fence.marker), 0);
    }
  }

  /** A run of equals signs or hyphens turns the line above it into a heading that
      spans both lines exactly when only blanks follow it, it is indented by at most
      three, and the line above is a paragraph line. It never opens a fence. */
  lemma Underline(cls: Classes, s: State, indent: nat, marker: char, n: nat, info: string, ending: string)
    requires s.fence.None? && n >= 1 && (marker == '=' || marker == '-') && Ending(ending)
    requires info != "" ==> info[0] != marker && !IsLineEnd(info[|info| - 1])
    ensures var line := Line(indent, Repeat(marker, n) + info, ending);
            var level := if marker == '=' then 1 else 2;
            && Step(cls, s, line).fence.None?
            && Step(cls, s, line).headings ==
               if s.previous.None? || indent > 3 || !Blanks(info) then s.headings
               else
                 var p := s.previous.value;
                 s.headings + [Heading(level, p.text, SlugFor(cls, p.text, SlugsOf(s.headings)),
                                       p.start, s.offset + |line|)]
  {
    hide Leading, Kept, Content, Indent, SlugFor, SlugsOf, Line, Trim, TrimEnd, Blanks;
    RuleParts(indent, marker, n, info, ending);
    var body := Repeat(marker, n) + info;
    assert body[0] == marker;
  }

  /** So a block between an opening line and its closing line is inert: whatever is put
      in its place leaves every heading, as long as none of its lines is a run of the
      marker, blanks around it, that is at least as long as the opening one. */
  lemma FencedBlock(cls: Classes, pre: string, indent: nat, marker: char, n: nat, info: string, a: string, b: string,
                    post: string)
    requires Whole(pre) && Run(cls, INITIAL, SplitInclusive(pre)).fence.None?
    requires indent <= 3 && (marker == '`' || marker == '~') && n >= 3 && '\n' !in info
    requires info != "" ==> info[0] != marker && !IsLineEnd(info[|info| - 1])
    requires ((Whole(a) && Whole(b)) || post == "") && |a| == |b| > 0
    requires forall line :: line in SplitInclusive(a) || line in SplitInclusive(b) ==> !ClosingLine(Fence(marker, n), line)
    ensures var opening := Line(indent, Repeat(marker, n) + info, "\n");
            && Scan(cls, pre + opening + a + post) == Scan(cls, pre + opening + b + post)
            && forall h :: h in Scan(cls, pre + opening + a + post) ==>
                             h.end <= |pre + opening| || |pre + opening| + |a| <= h.start
  {
    hide Line, Step, Run, Scan, SplitInclusive, Whole, ClosingLine, Fenced;
    var opening := Line(indent, Repeat(marker, n) + info, "\n");
    OpeningOpens(cls, pre, indent, marker, n, info);
    FencedBy(cls, pre + opening, a, Fence(marker, n));
    FencedBy(cls, pre + opening, b, Fence(marker, n));
    FencedTextIsInert(cls, pre + opening, a, b, post);
  }

  lemma FencedBy(cls: Classes, pre: string, block: string, fence: Fence)
    requires Run(cls, INITIAL, SplitInclusive(pre)).fence == Some(fence)
    requires forall line :: line in SplitInclusive(block) ==> !ClosingLine(fence, line)
    ensures Fenced(cls, pre, block)
  {
    hide Run, SplitInclusive, ClosingLine;
  }

  lemma OpeningOpens(cls: Classes, pre: string, indent: nat, marker: char, n: nat, info: string)
    requires Whole(pre) && Run(cls, INITIAL, SplitInclusive(pre)).fence.None?
    requires indent <= 3 && (marker == '`' || marker == '~') && n >= 3 && '\n' !in info
    requires info != "" ==> info[0] != marker && !IsLineEnd(info[|info| - 1])
    ensures var opening := Line(indent, Repeat(marker, n) + info, "\n");
            Whole(pre + opening) && Run(cls, INITIAL, SplitInclusive(pre + opening)).fence == Some(Fence(marker, n))
  {
    hide Step, Run, SplitInclusive, Opens, Closes;
    var opening := Line(indent, Repeat(marker, n) + info, "\n");
    var s := Run(cls, INITIAL, SplitInclusive(pre));
    FenceRule(indent, marker, n, info, "\n", Fence(marker, n));
    OneLine(Repeat(' ', indent) + (Repeat(marker, n) + info));
    WholeAppend(pre, opening);
    SplitAppend(pre, opening);
    RunAppend(cls, INITIAL, SplitInclusive(pre), [opening]);
    RunOne(cls, s, opening);
    StepCases(cls, s, opening);
  }

  lemma OneLine(text: string)
    requires '\n' !in text
    ensures Whole(text + "\n") && SplitInclusive(text + "\n") == [text + "\n"]
  {
    hide Leading;
    var line := text + "\n";
    LeadingIs(line, NotNewline, |text|);
    assert line[..|text| + 1] == line && line[|text| + 1..] == "";
    SplitHead(line, |text|);
    NothingSplit();
  }

  /** A line that is neither fence nor heading becomes the candidate, a list item
      just as a paragraph; a blank line leaves none. */
  lemma Paragraph(cls: Classes, s: State, indent: nat, body: string, ending: string)
    requires s.fence.None? && Body(body) && Ending(ending)
    requires var line := Line(indent, body, ending); Opens(line).None? && Find(line, s.offset, s.previous).None?
    ensures var line := Line(indent, body, ending);
            Step(cls, s, line) ==
            State(s.headings, None, s.offset + |line|, Some(Candidate(s.offset, s.offset + |line|, Trim(body))))
  {
    hide Leading, Kept, Content, Indent, Line, Trim, TrimEnd, Find, Opens;
    LineParts(indent, body, ending);
  }

  /** Most first characters rule both out. */
  lemma PlainStart(indent: nat, body: string, ending: string, offset: nat, previous: Option<Candidate>)
    requires Body(body) && Ending(ending) && body[0] !in "#=-`~"
    ensures var line := Line(indent, body, ending); Opens(line).None? && Find(line, offset, previous).None?
  {
    hide Leading, Kept, Content, Indent, Line, Trim, TrimEnd;
    LineParts(indent, body, ending);
  }

  lemma BlankLine(cls: Classes, s: State, blanks: string, ending: string)
    requires s.fence.None? && Blanks(blanks) && Ending(ending)
    ensures Step(cls, s, blanks + ending) == State(s.headings, None, s.offset + |blanks + ending|, None)
  {
    hide Leading, Kept;
    var line := blanks + ending;
    var trimmed := Trimmed(line);
    forall i | 0 <= i < |trimmed| ensures IsWhite(trimmed[i]) {
      assert trimmed[i] == line[i];
    }
    LeadingIs(trimmed, IsWhite, |trimmed|);
  }

  /** Such a line and an underline right below it are one heading, which spans both
      and carries the trimmed text; a blank line between them prevents it. */
  lemma SetextHeading(cls: Classes, s: State, indent: nat, body: string, marker: char, n: nat, blanks: string)
    requires s.fence.None? && Body(body)
    requires var first := Line(indent, body, "\n"); Opens(first).None? && Find(first, s.offset, s.previous).None?
    requires n >= 1 && (marker == '=' || marker == '-') && Blanks(blanks)
    ensures var first, under := Line(indent, body, "\n"), Line(0, Repeat(marker, n), "\n");
            && Run(cls, s, [first, under]).headings ==
               s.headings + [Heading(if marker == '=' then 1 else 2, Trim(body),
                                     SlugFor(cls, Trim(body), SlugsOf(s.headings)),
                                     s.offset, s.offset + |first| + |under|)]
            && Run(cls, s, [first, blanks + "\n", under]).headings == s.headings
  {
    hide Line, Step, SlugFor, SlugsOf, Trim, Blanks, Find, Opens;
    var first, under := Line(indent, body, "\n"), Line(0, Repeat(marker, n), "\n");
    var middle := blanks + "\n";
    var two, three := [first, under], [first, middle, under];
    var s1 := Step(cls, s, first);
    Paragraph(cls, s, indent, body, "\n");
    NoBlanks();
    assert Repeat(marker, n) + "" == Repeat(marker, n);
    Underline(cls, s1, 0, marker, n, "", "\n");
    RunOne(cls, s, first);
    RunSnoc(cls, s, two, 1);
    assert two[..1] == [first] && two[..2] == two;
    BlankLine(cls, s1, blanks, "\n");
    Underline(cls, Step(cls, s1, middle), 0, marker, n, "", "\n");
    RunSnoc(cls, s, three, 1);
    RunSnoc(cls, s, three, 2);
    assert three[..1] == [first] && three[..3] == three;
  }

  lemma NoBlanks()
    ensures Blanks("")
  {
  }

  /** A document made of ATX headings only. */
  function Render(items: seq<(nat, string)>): string {
    if items == [] then ""
    else Render(items[..|items| - 1]) + AtxLine(items[|items| - 1].0, items[|items| - 1].1)
  }

  ghost predicate Renderable(items: seq<(nat, string)>) {
    forall i :: 0 <= i < |items| ==>
                  1 <= items[i].0 <= 6 && Bare(items[i].1) && '\n' !in items[i].1
  }

  lemma AtxLineAlone(n: nat, text: string)
    requires '\n' !in text
    ensures Whole(AtxLine(n, text)) && SplitInclusive(AtxLine(n, text)) == [AtxLine(n, text)]
  {
    OneLine(Repeat(' ', 0) + AtxBody(n, " " + text));
  }

  ghost predicate Shows(s: State, items: seq<(nat, string)>) {
    && s.fence.None? && |s.headings| == |items|
    && forall i :: 0 <= i < |items| ==>
                     s.headings[i].level == items[i].0 && s.headings[i].text == items[i].1
  }

  lemma ShowsStep(cls: Classes, s: State, items: seq<(nat, string)>)
    requires items != [] && Renderable(items) && Shows(s, items[..|items| - 1])
    ensures var (level, text) := items[|items| - 1];
            Shows(Step(cls, s, AtxLine(level, text)), items)
  {
    hide AtxLine, Opens, Find, SlugFor, Content, Trim, SlugsOf;
    var (level, text) := items[|items| - 1];
    AtxLineFinds(level, text, s.offset, s.previous);
  }

  /** Rendering a list of headings and scanning the text gives the list back. */
  lemma {:induction false} RenderedScan(cls: Classes, items: seq<(nat, string)>)
    requires Renderable(items)
    ensures Whole(Render(items))
    ensures Shows(Run(cls, INITIAL, SplitInclusive(Render(items))), items)
    decreases |items|
  {
    hide SplitInclusive, AtxLine, Step, Shows, Run, Whole;
    if items == [] {
      EmptyScan(cls);
    } else {
      var front := items[..|items| - 1];
      var (level, text) := items[|items| - 1];
      RenderedScan(cls, front);
      AtxLineAlone(level, text);
      WholeAppend(Render(front), AtxLine(level, text));
      SplitAppend(Render(front), AtxLine(level, text));
      RunAppend(cls, INITIAL, SplitInclusive(Render(front)), [AtxLine(level, text)]);
      var s := Run(cls, INITIAL, SplitInclusive(Render(front)));
      RunOne(cls, s, AtxLine(level, text));
      ShowsStep(cls, s, items);
    }
  }

  lemma RunOne(cls: Classes, s: State, line: string)
    ensures Run(cls, s, [line]) == Step(cls, s, line)
  {
    hide Step;
    assert [line][..0] == [];
    assert Run(cls, s, []) == s;
  }

  lemma EmptyScan(cls: Classes)
    ensures Whole("") && Shows(Run(cls, INITIAL, SplitInclusive("")), [])
  {
  }
}
