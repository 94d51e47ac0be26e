/** The section tree: a stack of open sections turns the flat list of headings
    into nested sections with their spans. */
module Sections {
  import opened Text
  import opened Headings

  /** `start..end` runs from the heading line through all nested content;
      `bodyStart..bodyEnd` is the prose before the first subsection. */
  datatype Section = Section(
    level: nat,
    heading: string,
    slug: string,
    start: nat,
    end: nat,
    bodyStart: nat,
    bodyEnd: nat,
    children: seq<Section>
  )

  datatype Open = Open(
    level: nat,
    heading: string,
    slug: string,
    start: nat,
    bodyStart: nat,
    children: seq<Section>
  )

  function Opened(h: Heading): Open {
    Open(h.level, h.text, h.slug, h.start, h.end, [])
  }

  function Close(open: Open, end: nat): Section {
    var bodyEnd := if open.children == [] then end else open.children[0].start;
    Section(open.level, open.heading, open.slug, open.start, end, open.bodyStart, bodyEnd, open.children)
  }

  /** The first of `i..hi` whose heading is no deeper than `level`, or `hi`. */
  function Upto(hs: seq<Heading>, level: nat, i: nat, hi: nat): (m: nat)
    requires i <= hi <= |hs|
    ensures i <= m <= hi
    ensures forall j :: i <= j < m ==> hs[j].level > level
    ensures m < hi ==> hs[m].level <= level
    decreases hi - i
  {
    if i == hi || hs[i].level <= level then i else Upto(hs, level, i + 1, hi)
  }

  /** Where heading `m` starts, or `end` when the headings stop at `m`. */
  function StartOf(hs: seq<Heading>, m: nat, hi: nat, end: nat): nat
    requires m <= hi <= |hs|
  {
    if m < hi then hs[m].start else end
  }

  /** The sections of the headings `lo..hi` in text that stops at `end`: each
      heading owns the run of deeper headings that follows it. */
  function Forest(hs: seq<Heading>, lo: nat, hi: nat, end: nat): (forest: seq<Section>)
    requires lo <= hi <= |hs|
    ensures forest == [] <==> lo == hi
    ensures lo < hi ==> forest[0].start == hs[lo].start
    decreases hi - lo
  {
    if lo == hi then []
    else
      var m := Upto(hs, hs[lo].level, lo + 1, hi);
      [Tree(hs, lo, m, StartOf(hs, m, hi, end))] + Forest(hs, m, hi, end)
  }

  /** The section of heading `lo`, whose subsections are the headings up to `hi`. */
  function Tree(hs: seq<Heading>, lo: nat, hi: nat, end: nat): (section: Section)
    requires lo < hi <= |hs|
    ensures section.start == hs[lo].start
    decreases hi - lo, 0
  {
    Close(Opened(hs[lo]).(children := Forest(hs, lo + 1, hi, end)), end)
  }

  /** The roots and the stack after a section joins its parent. */
  function Attached(roots: seq<Section>, stack: seq<Open>, section: Section): (r: (seq<Section>, seq<Open>))
    ensures |r.1| == |stack|
  {
    if stack == [] then (roots + [section], [])
    else
      var top := stack[|stack| - 1];
      (roots, stack[..|stack| - 1] + [top.(children := top.children + [section])])
  }

  /** The forest a stack stands for when the headings `i..` are still to come:
      the top section takes the deeper headings that follow, then closes. */
  function Assembled(hs: seq<Heading>, roots: seq<Section>, stack: seq<Open>, i: nat, end: nat): seq<Section>
    requires i <= |hs|
    decreases |stack|
  {
    if stack == [] then roots + Forest(hs, i, |hs|, end)
    else
      var top := stack[|stack| - 1];
      var m := Upto(hs, top.level, i, |hs|);
      var stop := StartOf(hs, m, |hs|, end);
      var section := Close(top.(children := top.children + Forest(hs, i, m, stop)), stop);
      var (roots', stack') := Attached(roots, stack[..|stack| - 1], section);
      Assembled(hs, roots', stack', m, end)
  }

  lemma UptoIs(hs: seq<Heading>, level: nat, i: nat, hi: nat, m: nat)
    requires i <= m <= hi <= |hs|
    requires forall j :: i <= j < m ==> hs[j].level > level
    requires m < hi ==> hs[m].level <= level
    ensures Upto(hs, level, i, hi) == m
  {
    var n := Upto(hs, level, i, hi);
  }

  /** Closing the top section when the next heading is no deeper, or when none
      is left, changes nothing. */
  lemma PopKeeps(hs: seq<Heading>, roots: seq<Section>, stack: seq<Open>, i: nat, end: nat)
    requires i <= |hs| && stack != []
    requires i < |hs| ==> stack[|stack| - 1].level >= hs[i].level
    ensures var top := stack[|stack| - 1];
            var (roots', stack') :=
              Attached(roots, stack[..|stack| - 1], Close(top, StartOf(hs, i, |hs|, end)));
            Assembled(hs, roots', stack', i, end) == Assembled(hs, roots, stack, i, end)
  {
    hide Attached, Close;
    var top := stack[|stack| - 1];
    UptoIs(hs, top.level, i, |hs|, i);
    assert top.children + Forest(hs, i, i, StartOf(hs, i, |hs|, end)) == top.children;
  }

  /** Splitting off the first section of a forest whose headings run to `hi`. */
  lemma ForestHead(hs: seq<Heading>, lo: nat, hi: nat, end: nat)
    requires lo < hi <= |hs|
    ensures var m := Upto(hs, hs[lo].level, lo + 1, hi);
            Forest(hs, lo, hi, end) ==
            [Tree(hs, lo, m, StartOf(hs, m, hi, end))] + Forest(hs, m, hi, end)
  {
  }

  /** Opening a section for the next heading changes nothing. */
  lemma PushKeeps(hs: seq<Heading>, roots: seq<Section>, stack: seq<Open>, i: nat, end: nat)
    requires i < |hs|
    requires stack != [] ==> stack[|stack| - 1].level < hs[i].level
    ensures Assembled(hs, roots, stack + [Opened(hs[i])], i + 1, end) ==
            Assembled(hs, roots, stack, i, end)
  {
    hide Forest, Close;
    var n := |hs|;
    var pushed := stack + [Opened(hs[i])];
    assert pushed[..|stack|] == stack;
    var m := Upto(hs, hs[i].level, i + 1, n);
    var section := Tree(hs, i, m, StartOf(hs, m, n, end));
    assert [] + Forest(hs, i + 1, m, StartOf(hs, m, n, end)) == Forest(hs, i + 1, m, StartOf(hs, m, n, end));
    var (roots', stack') := Attached(roots, stack, section);
    assert Assembled(hs, roots, pushed, i + 1, end) == Assembled(hs, roots', stack', m, end);
    if stack == [] {
      ForestHead(hs, i, n, end);
      Associative(roots, [section], Forest(hs, m, n, end));
    } else {
      PushBelow(hs, roots, stack, i, end);
    }
  }

  /** The case of a section below an open one. */
  lemma PushBelow(hs: seq<Heading>, roots: seq<Section>, stack: seq<Open>, i: nat, end: nat)
    requires i < |hs|
    requires stack != [] && stack[|stack| - 1].level < hs[i].level
    ensures var m := Upto(hs, hs[i].level, i + 1, |hs|);
            var section := Tree(hs, i, m, StartOf(hs, m, |hs|, end));
            var (roots', stack') := Attached(roots, stack, section);
            Assembled(hs, roots', stack', m, end) == Assembled(hs, roots, stack, i, end)
  {
    hide Forest, Close, Tree;
    var n := |hs|;
    var m := Upto(hs, hs[i].level, i + 1, n);
    var top := stack[|stack| - 1];
    var k := Upto(hs, top.level, i, n);
    assert m <= k by {
      assert k < n ==> hs[k].level < hs[i].level;
    }
    UptoIs(hs, top.level, m, n, k);
    UptoIs(hs, hs[i].level, i + 1, k, m);
    var stop := StartOf(hs, k, n, end);
    ForestHead(hs, i, k, stop);
    assert StartOf(hs, m, k, stop) == StartOf(hs, m, n, end);
    var section := Tree(hs, i, m, StartOf(hs, m, n, end));
    Associative(top.children, [section], Forest(hs, m, k, stop));
    var (roots', stack') := Attached(roots, stack, section);
    assert stack'[..|stack'| - 1] == stack[..|stack| - 1];
  }

  method BuildTree(hs: seq<Heading>, length: nat) returns (roots: seq<Section>)
    ensures roots == Forest(hs, 0, |hs|, length)
  {
    hide Forest, Assembled, Close, Opened;
    roots := [];
    var stack: seq<Open> := [];
    AssembledNone(hs, roots, 0, length);
    for i := 0 to |hs|
      invariant Assembled(hs, roots, stack, i, length) == Forest(hs, 0, |hs|, length)
    {
      while stack != [] && stack[|stack| - 1].level >= hs[i].level
        invariant Assembled(hs, roots, stack, i, length) == Forest(hs, 0, |hs|, length)
        decreases |stack|
      {
        PopKeeps(hs, roots, stack, i, length);
        var open := stack[|stack| - 1];
        stack := stack[..|stack| - 1];
        var section := Close(open, hs[i].start);
        if stack != [] {
          var parent := stack[|stack| - 1];
          stack := stack[..|stack| - 1] + [parent.(children := parent.children + [section])];
        } else {
          roots := roots + [section];
        }
      }
      PushKeeps(hs, roots, stack, i, length);
      stack := stack + [Opened(hs[i])];
    }
    while stack != []
      invariant Assembled(hs, roots, stack, |hs|, length) == Forest(hs, 0, |hs|, length)
      decreases |stack|
    {
      PopKeeps(hs, roots, stack, |hs|, length);
      var open := stack[|stack| - 1];
      stack := stack[..|stack| - 1];
      var section := Close(open, length);
      if stack != [] {
        var parent := stack[|stack| - 1];
        stack := stack[..|stack| - 1] + [parent.(children := parent.children + [section])];
      } else {
        roots := roots + [section];
      }
    }
    AssembledNone(hs, roots, |hs|, length);
  }

  lemma AssembledNone(hs: seq<Heading>, roots: seq<Section>, i: nat, end: nat)
    requires i <= |hs|
    ensures Assembled(hs, roots, [], i, end) == roots + Forest(hs, i, |hs|, end)
    ensures roots == [] ==> Assembled(hs, roots, [], i, end) == Forest(hs, i, |hs|, end)
    ensures i == |hs| ==> Assembled(hs, roots, [], i, end) == roots
  {
  }
}
