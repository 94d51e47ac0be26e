/** The depth-first walk over a section forest, and what the walk shows of the
    headings the forest was built from. */
module Outline {
  import opened Text
  import opened Headings
  import opened Sections

  /** The sections of a forest in document order, each with how deep it lies. */
  function Preorder(forest: seq<Section>, depth: nat): seq<(nat, Section)> {
    if forest == [] then []
    else [(depth, forest[0])] + Preorder(forest[0].children, depth + 1) + Preorder(forest[1..], depth)
  }

  /** For each section of the walk, the position in the walk of its parent;
      `parent` for the roots, which start at position `at`. */
  function Parents(forest: seq<Section>, at: nat, parent: int): seq<int> {
    if forest == [] then []
    else
      var below := Parents(forest[0].children, at + 1, at);
      [parent] + below + Parents(forest[1..], at + 1 + |below|, parent)
  }

  /** The walk a stack of pending sections has yet to make, top first. */
  function Pending(stack: seq<(nat, Section)>): seq<(nat, Section)> {
    if stack == [] then []
    else
      var (depth, section) := stack[|stack| - 1];
      [(depth, section)] + Preorder(section.children, depth + 1) + Pending(stack[..|stack| - 1])
  }

  /** The stack that holds a forest with its first section on top. */
  function Stacked(forest: seq<Section>, depth: nat): seq<(nat, Section)> {
    if forest == [] then [] else Stacked(forest[1..], depth) + [(depth, forest[0])]
  }

  lemma PreorderHead(first: Section, rest: seq<Section>, depth: nat)
    ensures Preorder([first] + rest, depth) ==
            ([(depth, first)] + Preorder(first.children, depth + 1)) + Preorder(rest, depth)
  {
    assert ([first] + rest)[1..] == rest;
  }

  lemma ParentsHead(first: Section, rest: seq<Section>, at: nat, parent: int)
    ensures var below := Parents(first.children, at + 1, at);
            Parents([first] + rest, at, parent) ==
            ([parent] + below) + Parents(rest, at + 1 + |below|, parent)
  {
    assert ([first] + rest)[1..] == rest;
  }

  lemma PendingTop(stack: seq<(nat, Section)>, depth: nat, section: Section)
    ensures Pending(stack + [(depth, section)]) ==
            ([(depth, section)] + Preorder(section.children, depth + 1)) + Pending(stack)
  {
    hide Preorder;
    assert (stack + [(depth, section)])[..|stack|] == stack;
  }

  lemma StackedHead(first: Section, rest: seq<Section>, depth: nat)
    ensures Stacked([first] + rest, depth) == Stacked(rest, depth) + [(depth, first)]
  {
    assert ([first] + rest)[1..] == rest;
  }

  lemma {:induction false} PendingStacked(stack: seq<(nat, Section)>, forest: seq<Section>, depth: nat)
    ensures Pending(stack + Stacked(forest, depth)) == Preorder(forest, depth) + Pending(stack)
    decreases |forest|
  {
    if forest == [] {
      assert stack + Stacked(forest, depth) == stack;
    } else {
      hide Preorder, Pending, Stacked;
      var first, rest := forest[0], forest[1..];
      assert [first] + rest == forest;
      PendingStacked(stack, rest, depth);
      StackedHead(first, rest, depth);
      Associative(stack, Stacked(rest, depth), [(depth, first)]);
      PendingTop(stack + Stacked(rest, depth), depth, first);
      PreorderHead(first, rest, depth);
      Associative([(depth, first)] + Preorder(first.children, depth + 1), Preorder(rest, depth), Pending(stack));
    }
  }

  lemma NothingStacked(below: seq<(nat, Section)>, children: seq<Section>, depth: nat)
    ensures below + Stacked(children[|children|..], depth) == below
  {
  }

  class Walk {
    var stack: seq<(nat, Section)>

    constructor (sections: seq<Section>)
      ensures Pending(stack) == Preorder(sections, 0)
    {
      stack := Stacked(sections, 0);
      new;
      PendingStacked([], sections, 0);
      assert [] + Stacked(sections, 0) == Stacked(sections, 0);
    }

    method Next() returns (item: Option<(nat, Section)>)
      modifies this
      ensures old(Pending(stack)) == [] ==> item == None && stack == old(stack)
      ensures old(Pending(stack)) != [] ==>
                item == Some(old(Pending(stack))[0]) && Pending(stack) == old(Pending(stack))[1..]
    {
      hide Preorder, Stacked;
      if stack == [] {
        return None;
      }
      hide Pending;
      var (depth, section) := stack[|stack| - 1];
      ghost var below := stack[..|stack| - 1];
      assert stack == below + [(depth, section)];
      PendingTop(below, depth, section);
      PendingStacked(below, section.children, depth + 1);
      NothingStacked(below, section.children, depth + 1);
      stack := stack[..|stack| - 1];
      var i := |section.children|;
      while i > 0
        invariant 0 <= i <= |section.children|
        invariant stack == below + Stacked(section.children[i..], depth + 1)
      {
        i := i - 1;
        StackedOne(section.children, i, depth + 1);
        Associative(below, Stacked(section.children[i + 1..], depth + 1), [(depth + 1, section.children[i])]);
        stack := stack + [(depth + 1, section.children[i])];
      }
      assert section.children[0..] == section.children;
      Associative([(depth, section)], Preorder(section.children, depth + 1), Pending(below));
      item := Some((depth, section));
    }
  }

  lemma StackedOne(forest: seq<Section>, i: nat, depth: nat)
    requires i < |forest|
    ensures Stacked(forest[i..], depth) == Stacked(forest[i + 1..], depth) + [(depth, forest[i])]
  {
    assert forest[i..][1..] == forest[i + 1..];
  }

  /** The nearest of the first `j` headings that is shallower than `level`, or -1. */
  function Nearest(hs: seq<Heading>, level: nat, j: nat): (p: int)
    requires j <= |hs|
    ensures -1 <= p < j
    ensures p >= 0 ==> hs[p].level < level
    ensures forall k :: p < k < j ==> hs[k].level >= level
  {
    if j == 0 then -1
    else if hs[j - 1].level < level then j - 1
    else Nearest(hs, level, j - 1)
  }

  /** The nearest earlier heading of strictly smaller level. */
  function ParentOf(hs: seq<Heading>, i: nat): int
    requires i < |hs|
  {
    Nearest(hs, hs[i].level, i)
  }

  /** How many ancestors a heading has. */
  function Depth(hs: seq<Heading>, i: int): (d: nat)
    requires -1 <= i < |hs|
    decreases i
  {
    if i < 0 || ParentOf(hs, i) < 0 then 0 else 1 + Depth(hs, ParentOf(hs, i))
  }

  /** The depth at which the subsections of heading `p` are shown. */
  function DepthBelow(hs: seq<Heading>, p: int): nat
    requires -1 <= p < |hs|
  {
    if p < 0 then 0 else Depth(hs, p) + 1
  }

  /** The headings `lo..hi` all lie below `p`, with only their elder siblings
      and those siblings' descendants in between. */
  ghost predicate Below(hs: seq<Heading>, lo: nat, hi: nat, p: int) {
    && -1 <= p < lo <= hi <= |hs|
    && (p >= 0 ==> forall j :: lo <= j < hi ==> hs[j].level > hs[p].level)
    && (lo < hi ==> forall j :: p < j < lo ==> hs[j].level >= hs[lo].level)
  }

  lemma NearestIs(hs: seq<Heading>, level: nat, j: nat, p: int)
    requires -1 <= p < j <= |hs|
    requires p >= 0 ==> hs[p].level < level
    requires forall k :: p < k < j ==> hs[k].level >= level
    ensures Nearest(hs, level, j) == p
  {
    var q := Nearest(hs, level, j);
  }

  ghost predicate Shows(section: Section, h: Heading) {
    && section.level == h.level && section.heading == h.text && section.slug == h.slug
    && section.start == h.start && section.bodyStart == h.end
  }

  /** The walk `walk`, with parents `parents`, shows exactly the headings `lo..hi`. */
  ghost predicate Lists(hs: seq<Heading>, lo: nat, hi: nat, walk: seq<(nat, Section)>, parents: seq<int>)
    requires lo <= hi <= |hs|
  {
    && |walk| == |parents| == hi - lo
    && forall k :: 0 <= k < hi - lo ==>
                     && Shows(walk[k].1, hs[lo + k])
                     && walk[k].0 == Depth(hs, lo + k)
                     && parents[k] == ParentOf(hs, lo + k)
  }

  lemma ListsJoin(hs: seq<Heading>, lo: nat, m: nat, hi: nat,
                  a: seq<(nat, Section)>, b: seq<(nat, Section)>, p: seq<int>, q: seq<int>)
    requires lo <= m <= hi <= |hs|
    requires Lists(hs, lo, m, a, p) && Lists(hs, m, hi, b, q)
    ensures Lists(hs, lo, hi, a + b, p + q)
  {
    hide Shows, Depth, ParentOf;
    forall k | 0 <= k < hi - lo
      ensures Shows((a + b)[k].1, hs[lo + k]) && (a + b)[k].0 == Depth(hs, lo + k)
              && (p + q)[k] == ParentOf(hs, lo + k)
    {
      if k >= m - lo {
        assert (a + b)[k] == b[k - (m - lo)] && (p + q)[k] == q[k - (m - lo)];
        assert hs[m + (k - (m - lo))] == hs[lo + k];
      }
    }
  }

  /** Going below heading `lo`, and past it and its descendants. */
  lemma BelowSplit(hs: seq<Heading>, lo: nat, hi: nat, p: int)
    requires lo < hi && Below(hs, lo, hi, p)
    ensures ParentOf(hs, lo) == p && Depth(hs, lo) == DepthBelow(hs, p)
    ensures var m := Upto(hs, hs[lo].level, lo + 1, hi);
            Below(hs, lo + 1, m, lo) && Below(hs, m, hi, p)
  {
    NearestIs(hs, hs[lo].level, lo, p);
  }

  /** What the walk of a forest lists, with the parents it gives. */
  ghost predicate ForestListed(hs: seq<Heading>, lo: nat, hi: nat, forest: seq<Section>, p: int)
    requires -1 <= p < lo <= hi <= |hs|
  {
    Lists(hs, lo, hi, Preorder(forest, DepthBelow(hs, p)), Parents(forest, lo, p))
  }

  lemma ListedStep(hs: seq<Heading>, lo: nat, m: nat, hi: nat, first: Section, rest: seq<Section>, p: int)
    requires -1 <= p < lo < m <= hi <= |hs|
    requires Shows(first, hs[lo]) && ParentOf(hs, lo) == p && Depth(hs, lo) == DepthBelow(hs, p)
    requires ForestListed(hs, lo + 1, m, first.children, lo)
    requires ForestListed(hs, m, hi, rest, p)
    ensures ForestListed(hs, lo, hi, [first] + rest, p)
  {
    hide Lists, Shows, Depth, ParentOf, Preorder, Parents;
    var depth := DepthBelow(hs, p);
    var walk, parents := Preorder(first.children, depth + 1), Parents(first.children, lo + 1, lo);
    ListsOne(hs, lo, first, depth, p);
    ListsSize(hs, lo + 1, m, walk, parents);
    ListsJoin(hs, lo, lo + 1, m, [(depth, first)], walk, [p], parents);
    ListsJoin(hs, lo, m, hi, [(depth, first)] + walk, Preorder(rest, depth), [p] + parents, Parents(rest, m, p));
    PreorderHead(first, rest, depth);
    ParentsHead(first, rest, lo, p);
  }

  lemma {:induction false} ForestLists(hs: seq<Heading>, lo: nat, hi: nat, end: nat, p: int)
    requires Below(hs, lo, hi, p)
    ensures ForestListed(hs, lo, hi, Forest(hs, lo, hi, end), p)
    decreases hi - lo
  {
    if lo < hi {
      hide ForestListed, Below, Depth, ParentOf, Forest;
      BelowSplit(hs, lo, hi, p);
      var m := Upto(hs, hs[lo].level, lo + 1, hi);
      var stop := StartOf(hs, m, hi, end);
      ForestLists(hs, lo + 1, m, stop, lo);
      ForestLists(hs, m, hi, end, p);
      ForestHead(hs, lo, hi, end);
      ListedStep(hs, lo, m, hi, Tree(hs, lo, m, stop), Forest(hs, m, hi, end), p);
    }
  }

  lemma ListsOne(hs: seq<Heading>, lo: nat, section: Section, depth: nat, p: int)
    requires lo < |hs| && Shows(section, hs[lo]) && depth == Depth(hs, lo) && p == ParentOf(hs, lo)
    ensures Lists(hs, lo, lo + 1, [(depth, section)], [p])
  {
  }

  lemma ListsSize(hs: seq<Heading>, lo: nat, hi: nat, walk: seq<(nat, Section)>, parents: seq<int>)
    requires lo <= hi <= |hs| && Lists(hs, lo, hi, walk, parents)
    ensures |parents| == hi - lo
  {
  }

  /** The walk of a document lists its headings in order; each one's parent is the
      nearest earlier heading of strictly smaller level, and its depth is the
      number of its ancestors. */
  lemma WalkListsHeadings(hs: seq<Heading>, end: nat)
    ensures var forest := Forest(hs, 0, |hs|, end);
            Lists(hs, 0, |hs|, Preorder(forest, 0), Parents(forest, 0, -1))
  {
    ForestLists(hs, 0, |hs|, end, -1);
  }

  /** Sibling levels never increase, and subsections are deeper than their section. */
  ghost predicate Falling(forest: seq<Section>) {
    forest != [] ==>
      && Falling(forest[0].children) && Falling(forest[1..])
      && (forest[0].children != [] ==> forest[0].level < forest[0].children[0].level)
      && (|forest| > 1 ==> forest[0].level >= forest[1].level)
  }

  lemma {:induction false} ForestFalls(hs: seq<Heading>, lo: nat, hi: nat, end: nat)
    requires lo <= hi <= |hs|
    ensures Falling(Forest(hs, lo, hi, end))
    ensures lo < hi ==> Forest(hs, lo, hi, end)[0].level == hs[lo].level
    decreases hi - lo
  {
    if lo < hi {
      var m := Upto(hs, hs[lo].level, lo + 1, hi);
      var stop := StartOf(hs, m, hi, end);
      ForestHead(hs, lo, hi, end);
      ForestFalls(hs, lo + 1, m, stop);
      ForestFalls(hs, m, hi, end);
      var forest := Forest(hs, lo, hi, end);
      assert forest[0].children == Forest(hs, lo + 1, m, stop) && forest[1..] == Forest(hs, m, hi, end);
    }
  }
}
