/** A parsed document: a preamble and a section tree whose spans tile the source,
    addressable by slug. */
module Documents {
  import opened Text
  import opened Slugs
  import opened Headings
  import opened Sections
  import opened Outline

  datatype Document = Document(source: string, preambleEnd: nat, sections: seq<Section>) {
    function Preamble(): string
      requires preambleEnd <= |source|
    {
      source[..preambleEnd]
    }
  }

  function Parsed(cls: Classes, source: string): Document {
    var hs := Scan(cls, source);
    Document(source, if hs == [] then |source| else hs[0].start, Forest(hs, 0, |hs|, |source|))
  }

  method Parse(cls: Classes, source: string) returns (doc: Document)
    requires cls.Valid()
    ensures doc == Parsed(cls, source)
  {
    var headings := ScanHeadings(cls, source);
    var preambleEnd := if headings == [] then |source| else headings[0].start;
    var sections := BuildTree(headings, |source|);
    doc := Document(source, preambleEnd, sections);
  }

  /** Heading lines, then body, then children, with nothing between them. */
  ghost predicate TilesSection(s: Section) {
    && s.start < s.bodyStart <= s.bodyEnd <= s.end
    && Tiles(s.children, s.bodyEnd, s.end)
  }

  ghost predicate Tiles(forest: seq<Section>, from: nat, to: nat) {
    if forest == [] then from == to
    else
      && forest[0].start == from <= forest[0].end <= to
      && TilesSection(forest[0])
      && Tiles(forest[1..], forest[0].end, to)
  }

  lemma {:induction false} ForestTiles(hs: seq<Heading>, lo: nat, hi: nat, end: nat, limit: nat)
    requires lo < hi <= |hs| && Ordered(hs, limit) && hs[hi - 1].end <= end
    ensures Tiles(Forest(hs, lo, hi, end), hs[lo].start, end)
    decreases hi - lo
  {
    hide Upto;
    var m := Upto(hs, hs[lo].level, lo + 1, hi);
    var stop := StartOf(hs, m, hi, end);
    var section, rest := Tree(hs, lo, m, stop), Forest(hs, m, hi, end);
    ForestHead(hs, lo, hi, end);
    assert hs[lo].end <= hs[m - 1].end <= stop;
    if lo + 1 < m {
      ForestTiles(hs, lo + 1, m, stop, limit);
    }
    if m < hi {
      ForestTiles(hs, m, hi, end, limit);
    }
    TilesHead(section, rest, end);
  }

  lemma TilesHead(section: Section, rest: seq<Section>, end: nat)
    requires TilesSection(section) && section.end <= end && Tiles(rest, section.end, end)
    ensures Tiles([section] + rest, section.start, end)
  {
    assert ([section] + rest)[1..] == rest;
  }

  /** The text a section writes out: heading lines, body, subsections in order. */
  function Written(source: string, s: Section): string
    requires TilesSection(s) && s.end <= |source|
  {
    source[s.start..s.bodyStart] + source[s.bodyStart..s.bodyEnd] + WrittenAll(source, s.children, s.bodyEnd, s.end)
  }

  function WrittenAll(source: string, forest: seq<Section>, from: nat, to: nat): string
    requires Tiles(forest, from, to) && to <= |source|
  {
    if forest == [] then ""
    else Written(source, forest[0]) + WrittenAll(source, forest[1..], forest[0].end, to)
  }

  lemma {:induction false} WrittenIsContent(source: string, s: Section)
    requires TilesSection(s) && s.end <= |source|
    ensures Written(source, s) == source[s.start..s.end]
    decreases s, 1
  {
    WrittenAllIsContent(source, s.children, s.bodyEnd, s.end);
  }

  lemma {:induction false} WrittenAllIsContent(source: string, forest: seq<Section>, from: nat, to: nat)
    requires Tiles(forest, from, to) && to <= |source|
    ensures from <= to && WrittenAll(source, forest, from, to) == source[from..to]
    decreases forest, 0
  {
    if forest != [] {
      WrittenIsContent(source, forest[0]);
      WrittenAllIsContent(source, forest[1..], forest[0].end, to);
    }
  }

  lemma SpansTile(cls: Classes, source: string)
    ensures var doc := Parsed(cls, source);
            doc.preambleEnd <= |source| && Tiles(doc.sections, doc.preambleEnd, |source|)
  {
    hide Scan, Forest, Tiles;
    var hs := Scan(cls, source);
    ScanIsSound(cls, source);
    if hs != [] {
      ForestTiles(hs, 0, |hs|, |source|, |source|);
    } else {
      TilesNone(hs, |source|);
    }
  }

  lemma TilesNone(hs: seq<Heading>, end: nat)
    requires hs == []
    ensures Tiles(Forest(hs, 0, 0, end), end, end)
  {
  }

  lemma TiledText(doc: Document)
    requires doc.preambleEnd <= |doc.source| && Tiles(doc.sections, doc.preambleEnd, |doc.source|)
    ensures doc.Preamble() + WrittenAll(doc.source, doc.sections, doc.preambleEnd, |doc.source|) == doc.source
  {
    hide Tiles, WrittenAll;
    WrittenAllIsContent(doc.source, doc.sections, doc.preambleEnd, |doc.source|);
  }

  /** The preamble and the root sections' contents are the source, and within every
      section heading lines, body and subsections follow each other without a gap. */
  lemma {:induction false} DocumentTiles(cls: Classes, source: string)
    ensures var doc := Parsed(cls, source);
            && doc.preambleEnd <= |source|
            && Tiles(doc.sections, doc.preambleEnd, |source|)
            && doc.Preamble() + WrittenAll(source, doc.sections, doc.preambleEnd, |source|) == source
  {
    hide Scan, Forest, Tiles, WrittenAll, Document.Preamble;
    SpansTile(cls, source);
    TiledText(Parsed(cls, source));
  }

  /** The outline lists the scanned headings in document order. */
  lemma DocumentLists(cls: Classes, source: string)
    ensures var hs := Scan(cls, source);
            var sections := Parsed(cls, source).sections;
            && Lists(hs, 0, |hs|, Preorder(sections, 0), Parents(sections, 0, -1))
            && Falling(sections)
  {
    hide Scan, Lists, Falling;
    var hs := Scan(cls, source);
    WalkListsHeadings(hs, |source|);
    ForestFalls(hs, 0, |hs|, |source|);
  }

  /** The first section of a walk with the slug. */
  function FirstWithSlug(walk: seq<(nat, Section)>, slug: string): Option<Section> {
    if walk == [] then None
    else if walk[0].1.slug == slug then Some(walk[0].1)
    else FirstWithSlug(walk[1..], slug)
  }

  method Find(doc: Document, slug: string) returns (found: Option<Section>)
    ensures found == FirstWithSlug(Preorder(doc.sections, 0), slug)
  {
    hide Preorder, Pending;
    var walk := new Walk(doc.sections);
    var item := walk.Next();
    ghost var pending := Preorder(doc.sections, 0);
    while item.Some? && item.value.1.slug != slug
      invariant pending == [] ==> item.None?
      invariant pending != [] ==>
                  && item == Some(pending[0]) && Pending(walk.stack) == pending[1..]
      invariant FirstWithSlug(pending, slug) == FirstWithSlug(Preorder(doc.sections, 0), slug)
      decreases |pending|
    {
      pending := pending[1..];
      item := walk.Next();
    }
    found := if item.Some? then Some(item.value.1) else None;
  }

  lemma {:induction false} FirstIs(walk: seq<(nat, Section)>, i: nat)
    requires i < |walk|
    requires forall j, k :: 0 <= j < k < |walk| ==> walk[j].1.slug != walk[k].1.slug
    ensures FirstWithSlug(walk, walk[i].1.slug) == Some(walk[i].1)
    decreases i
  {
    if i > 0 {
      FirstIs(walk[1..], i - 1);
    }
  }

  /** The search finds a section exactly when one has the slug, and then one that has. */
  lemma {:induction false} FoundExactly(walk: seq<(nat, Section)>, slug: string)
    ensures FirstWithSlug(walk, slug).Some? <==> exists i :: 0 <= i < |walk| && walk[i].1.slug == slug
    ensures FirstWithSlug(walk, slug).Some? ==>
              && FirstWithSlug(walk, slug).value.slug == slug
              && exists i :: 0 <= i < |walk| && walk[i].1 == FirstWithSlug(walk, slug).value
    decreases |walk|
  {
    if walk != [] {
      FoundExactly(walk[1..], slug);
      assert forall i :: 0 < i < |walk| ==> walk[i] == walk[1..][i - 1];
    }
  }

  /** Slugs are unique in a document, so finding a section's slug finds that section. */
  lemma FindFindsIt(cls: Classes, source: string, i: nat)
    requires i < |Preorder(Parsed(cls, source).sections, 0)|
    ensures var walk := Preorder(Parsed(cls, source).sections, 0);
            FirstWithSlug(walk, walk[i].1.slug) == Some(walk[i].1)
  {
    hide Scan, Preorder, Parents, Parsed;
    var hs := Scan(cls, source);
    var walk := Preorder(Parsed(cls, source).sections, 0);
    DocumentLists(cls, source);
    ScanIsSound(cls, source);
    forall j, k | 0 <= j < k < |walk| ensures walk[j].1.slug != walk[k].1.slug {
      assert Shows(walk[j].1, hs[0 + j]) && Shows(walk[k].1, hs[0 + k]);
    }
    FirstIs(walk, i);
  }
}
