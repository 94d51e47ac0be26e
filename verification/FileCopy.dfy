/** Copying a tree onto another with an explicit worklist. */
module FileCopy {
  import opened Text
  import opened FileTree

  /** The places a copy may write: the destination, the way down to it, and below it
      what the source has. */
  ghost function Places(nodes: Nodes, from: Path, to: Path): iset<Path> {
    iset p: Path | p <= to || (to <= p && Moved(to, from, p) in nodes)
  }

  /** None of the places is a link. */
  ghost predicate NoLinks(nodes: Nodes, places: iset<Path>) {
    forall p :: p in nodes && p in places ==> !nodes[p].Link?
  }

  ghost predicate Disjoint(from: Path, to: Path) {
    !(from <= to) && !(to <= from)
  }

  /** A link at or below `from` leads to a file that is none of the places, or to
      nothing. */
  ghost predicate Steady(nodes: Nodes, from: Path, places: iset<Path>) {
    forall p :: p in nodes && from <= p && nodes[p].Link? ==>
      var end := End(nodes, p);
      end.Some? ==> end.value !in places && Metadata(nodes, p) != Some(Directory)
  }

  /** The tree with the links at or below `from` followed, as the copy reads it. A
      link that leads to nothing stays one. */
  function Followed(nodes: Nodes, from: Path): Nodes {
    map p | p in nodes ::
      if from <= p && nodes[p].Link? && Metadata(nodes, p).Some? then Metadata(nodes, p).value else nodes[p]
  }

  /** A path below `to` that has been copied, when `left` is still to be. */
  ghost predicate Given(start: Nodes, from: Path, to: Path, left: set<Path>, p: Path) {
    to <= p && Moved(to, from, p) in start && Moved(to, from, p) !in left
  }

  /** `now` is the old tree overlaid with the part of the source that is not `left`;
      `made` says whether the directories down to `to` were created. */
  ghost predicate Overlaid(start: Nodes, now: Nodes, from: Path, to: Path, left: set<Path>, made: bool) {
    && (forall p :: p in now <==> p in start || (made && p <= to) || Given(start, from, to, left, p))
    && (forall p :: p in now ==>
          now[p] == if Given(start, from, to, left, p) then start[Moved(to, from, p)]
                    else if p in start then start[p]
                    else Directory)
  }

  /** Nothing but directories on the way down to `path`. */
  ghost predicate OnlyDirectories(nodes: Nodes, path: Path) {
    forall p :: p in nodes && p <= path ==> nodes[p] == Directory
  }

  /** A directory holds the place. */
  predicate Housed(nodes: Nodes, path: Path) {
    path != [] && Parent(path) in nodes && nodes[Parent(path)] == Directory
  }

  /** A file can be put at the place. */
  predicate Writable(nodes: Nodes, path: Path) {
    Housed(nodes, path) && !(path in nodes && nodes[path] == Directory)
  }

  /** When a copy goes through: the source is there, no link of it leads to nothing,
      every directory of it meets a directory or nothing, every file of it a file or
      nothing, and the place for it is there or can be made. */
  ghost predicate Fits(nodes: Nodes, from: Path, to: Path) {
    && from in nodes
    && (forall p :: p in nodes && from <= p ==> !nodes[p].Link?)
    && (forall p :: p in nodes && from <= p && Moved(from, to, p) in nodes ==>
          (nodes[p] == Directory <==> nodes[Moved(from, to, p)] == Directory))
    && (if nodes[from] == Directory
        then OnlyDirectories(nodes, to)
        else Housed(nodes, to))
  }

  /** The source entries a frontier still covers. */
  ghost function Left(nodes: Nodes, frontier: seq<(Path, Path)>): set<Path> {
    set p | p in nodes && exists i :: 0 <= i < |frontier| && frontier[i].0 <= p
  }

  /** A frontier of source entries, none below another, paired with their places. */
  ghost predicate Frontier(nodes: Nodes, from: Path, to: Path, frontier: seq<(Path, Path)>) {
    && (forall i :: 0 <= i < |frontier| ==>
          frontier[i].0 in nodes && from <= frontier[i].0 && frontier[i].1 == Moved(from, to, frontier[i].0))
    && (forall i, j :: 0 <= i < |frontier| && 0 <= j < |frontier| && i != j ==>
          !(frontier[i].0 <= frontier[j].0))
  }

  /** The entries of one directory as worklist items. */
  function Items(entries: seq<Path>, to: Path): seq<(Path, Path)>
    requires forall i :: 0 <= i < |entries| ==> entries[i] != []
  {
    seq(|entries|, i requires 0 <= i < |entries| =>
      (entries[i], to + [entries[i][|entries[i]| - 1]]))
  }

  /** Below a file there is nothing. */
  lemma NothingBelow(nodes: Nodes, f: Path, p: Path)
    requires WellFormed(nodes) && f in nodes && nodes[f] != Directory && p in nodes && f <= p
    ensures p == f
  {
    PrefixesAreDirectories(nodes, p, |f|);
    assert p[..|f|] == f;
  }

  /** Everything above the entry is a directory. */
  ghost predicate Rooted(nodes: Nodes, f: Path) {
    forall k :: 0 <= k < |f| ==> f[..k] in nodes && nodes[f[..k]] == Directory
  }

  /** Nothing lies below the entry. */
  ghost predicate Leaf(nodes: Nodes, f: Path) {
    forall p :: p in nodes && f <= p ==> p == f
  }

  lemma EntryShape(nodes: Nodes, f: Path)
    requires WellFormed(nodes) && f in nodes
    ensures Rooted(nodes, f)
    ensures nodes[f] != Directory ==> Leaf(nodes, f)
  {
    forall k | 0 <= k < |f| ensures f[..k] in nodes && nodes[f[..k]] == Directory {
      PrefixesAreDirectories(nodes, f, k);
    }
    if nodes[f] != Directory {
      forall p | p in nodes && f <= p ensures p == f {
        NothingBelow(nodes, f, p);
      }
    }
  }

  lemma LeftPop(nodes: Nodes, from: Path, to: Path, frontier: seq<(Path, Path)>)
    requires frontier != [] && Frontier(nodes, from, to, frontier) && Leaf(nodes, frontier[|frontier| - 1].0)
    ensures var rest := frontier[..|frontier| - 1];
            && Frontier(nodes, from, to, rest)
            && Left(nodes, rest) == Left(nodes, frontier) - {frontier[|frontier| - 1].0}
            && frontier[|frontier| - 1].0 in Left(nodes, frontier)
  {
    TopLeft(nodes, from, to, frontier);
    PopFrontier(nodes, from, to, frontier);
    forall p ensures p in Left(nodes, frontier[..|frontier| - 1]) <==>
                     p in Left(nodes, frontier) && p != frontier[|frontier| - 1].0 {
      LeftPoint(nodes, from, to, frontier, p);
    }
  }

  lemma PopFrontier(nodes: Nodes, from: Path, to: Path, frontier: seq<(Path, Path)>)
    requires frontier != [] && Frontier(nodes, from, to, frontier)
    ensures Frontier(nodes, from, to, frontier[..|frontier| - 1])
  {
  }

  lemma LeftPoint(nodes: Nodes, from: Path, to: Path, frontier: seq<(Path, Path)>, p: Path)
    requires frontier != [] && Frontier(nodes, from, to, frontier) && Leaf(nodes, frontier[|frontier| - 1].0)
    ensures p in Left(nodes, frontier[..|frontier| - 1]) <==>
            p in Left(nodes, frontier) && p != frontier[|frontier| - 1].0
  {
    var n := |frontier| - 1;
    var rest, f := frontier[..n], frontier[n].0;
    if p in Left(nodes, rest) {
      var i :| 0 <= i < n && rest[i].0 <= p;
      assert frontier[i].0 <= p && !(frontier[i].0 <= f);
    }
    if p in Left(nodes, frontier) && p != f {
      var i :| 0 <= i <= n && frontier[i].0 <= p;
      assert i == n ==> f <= p;
      assert i < n ==> rest[i] == frontier[i];
    }
  }

  lemma LeftOpen(nodes: Nodes, from: Path, to: Path, frontier: seq<(Path, Path)>, entries: seq<Path>)
    requires WellFormed(nodes) && frontier != [] && Frontier(nodes, from, to, frontier)
    requires Distinct(entries) && Members(entries) == Children(nodes, frontier[|frontier| - 1].0)
    ensures forall i :: 0 <= i < |entries| ==> entries[i] != []
    ensures var f := frontier[|frontier| - 1];
            var next := frontier[..|frontier| - 1] + Items(entries, f.1);
            && Frontier(nodes, from, to, next)
            && Left(nodes, next) == Left(nodes, frontier) - {f.0}
            && f.0 in Left(nodes, frontier)
  {
    EntriesAre(nodes, from, to, frontier, entries);
    NextFrontier(nodes, from, to, frontier, entries);
    var f := frontier[|frontier| - 1];
    var next := frontier[..|frontier| - 1] + Items(entries, f.1);
    hide Left, Frontier, Items, WellFormed, Members, Children, Distinct, Parent;
    TopLeft(nodes, from, to, frontier);
    forall p ensures p in Left(nodes, next) <==> p in Left(nodes, frontier) && p != f.0 {
      if p in Left(nodes, next) {
        NextCovered(nodes, from, to, frontier, entries, p);
      } else if p in Left(nodes, frontier) && p != f.0 {
        NextCovers(nodes, from, to, frontier, entries, p);
      }
    }
  }

  lemma TopLeft(nodes: Nodes, from: Path, to: Path, frontier: seq<(Path, Path)>)
    requires frontier != [] && Frontier(nodes, from, to, frontier)
    ensures frontier[|frontier| - 1].0 in Left(nodes, frontier)
  {
  }

  lemma EntriesAre(nodes: Nodes, from: Path, to: Path, frontier: seq<(Path, Path)>, entries: seq<Path>)
    requires frontier != [] && Frontier(nodes, from, to, frontier)
    requires Members(entries) == Children(nodes, frontier[|frontier| - 1].0)
    ensures forall i :: 0 <= i < |entries| ==>
              && entries[i] in nodes && entries[i] != [] && Parent(entries[i]) == frontier[|frontier| - 1].0
              && from <= entries[i]
              && frontier[|frontier| - 1].1 + [entries[i][|entries[i]| - 1]] == Moved(from, to, entries[i])
  {
    var f := frontier[|frontier| - 1];
    forall i | 0 <= i < |entries|
      ensures entries[i] != [] && entries[i] in nodes && Parent(entries[i]) == f.0 && from <= entries[i]
      ensures f.1 + [entries[i][|entries[i]| - 1]] == Moved(from, to, entries[i])
    {
      assert entries[i] in Members(entries);
      assert entries[i] == f.0 + [entries[i][|entries[i]| - 1]];
    }
  }

  lemma NextFrontier(nodes: Nodes, from: Path, to: Path, frontier: seq<(Path, Path)>, entries: seq<Path>)
    requires frontier != [] && Frontier(nodes, from, to, frontier) && Distinct(entries)
    requires forall i :: 0 <= i < |entries| ==>
               && entries[i] in nodes && entries[i] != [] && Parent(entries[i]) == frontier[|frontier| - 1].0
               && from <= entries[i]
               && frontier[|frontier| - 1].1 + [entries[i][|entries[i]| - 1]] == Moved(from, to, entries[i])
    ensures Frontier(nodes, from, to, frontier[..|frontier| - 1] + Items(entries, frontier[|frontier| - 1].1))
  {
    hide Moved;
    var next := frontier[..|frontier| - 1] + Items(entries, frontier[|frontier| - 1].1);
    forall i, j | 0 <= i < |next| && 0 <= j < |next| && i != j ensures !(next[i].0 <= next[j].0) {
      NextApart(nodes, from, to, frontier, entries, i, j);
    }
  }

  lemma NextApart(nodes: Nodes, from: Path, to: Path, frontier: seq<(Path, Path)>, entries: seq<Path>, i: nat, j: nat)
    requires frontier != [] && Frontier(nodes, from, to, frontier) && Distinct(entries)
    requires forall k :: 0 <= k < |entries| ==>
               entries[k] != [] && Parent(entries[k]) == frontier[|frontier| - 1].0
    requires var next := frontier[..|frontier| - 1] + Items(entries, frontier[|frontier| - 1].1);
             i < |next| && j < |next| && i != j
    ensures var next := frontier[..|frontier| - 1] + Items(entries, frontier[|frontier| - 1].1);
            !(next[i].0 <= next[j].0)
  {
    var n := |frontier| - 1;
    var f := frontier[n].0;
    if i >= n && j >= n {
      assert entries[i - n] != entries[j - n];
      assert entries[i - n] == f + [entries[i - n][|f|]] && entries[j - n] == f + [entries[j - n][|f|]];
    } else if i >= n {
      assert !(f <= frontier[j].0);
      assert f <= entries[i - n];
    } else if j >= n {
      assert !(frontier[i].0 <= f) && !(f <= frontier[i].0);
      assert entries[j - n] == f + [entries[j - n][|f|]];
    } else {
      assert !(frontier[i].0 <= frontier[j].0);
    }
  }

  /** Opening a directory: what the new frontier covers was covered, apart from
      the directory itself. */
  lemma NextCovered(nodes: Nodes, from: Path, to: Path, frontier: seq<(Path, Path)>, entries: seq<Path>, p: Path)
    requires frontier != [] && Frontier(nodes, from, to, frontier)
    requires forall k :: 0 <= k < |entries| ==>
               entries[k] != [] && Parent(entries[k]) == frontier[|frontier| - 1].0
    requires p in Left(nodes, frontier[..|frontier| - 1] + Items(entries, frontier[|frontier| - 1].1))
    ensures p in Left(nodes, frontier) && p != frontier[|frontier| - 1].0
  {
    hide Parent;
    var n := |frontier| - 1;
    var f := frontier[n].0;
    var next := frontier[..n] + Items(entries, frontier[n].1);
    var i :| 0 <= i < |next| && next[i].0 <= p;
    if i < n {
      assert frontier[i].0 <= p && !(frontier[i].0 <= f);
    } else {
      ParentIs(entries[i - n]);
      assert next[i].0 == entries[i - n];
      assert frontier[n].0 <= p && |p| > |f|;
    }
  }

  lemma ParentIs(p: Path)
    ensures p != [] ==> Parent(p) <= p && |Parent(p)| == |p| - 1 && p == Parent(p) + [p[|p| - 1]]
  {
  }

  lemma NextCovers(nodes: Nodes, from: Path, to: Path, frontier: seq<(Path, Path)>, entries: seq<Path>, p: Path)
    requires WellFormed(nodes) && frontier != [] && Frontier(nodes, from, to, frontier)
    requires Members(entries) == Children(nodes, frontier[|frontier| - 1].0)
    requires forall k :: 0 <= k < |entries| ==> entries[k] != []
    requires p in Left(nodes, frontier) && p != frontier[|frontier| - 1].0
    ensures p in Left(nodes, frontier[..|frontier| - 1] + Items(entries, frontier[|frontier| - 1].1))
  {
    hide WellFormed, Members, Children;
    var n := |frontier| - 1;
    var next := frontier[..n] + Items(entries, frontier[n].1);
    var i :| 0 <= i <= n && frontier[i].0 <= p;
    if i < n {
      assert next[i] == frontier[i];
    } else {
      var k := EntryAbove(nodes, frontier[n].0, entries, p);
      assert next[n + k].0 == entries[k];
    }
  }

  /** What lies below a directory lies at or below one of its entries. */
  lemma EntryAbove(nodes: Nodes, f: Path, entries: seq<Path>, p: Path) returns (k: nat)
    requires WellFormed(nodes) && Members(entries) == Children(nodes, f) && p in nodes && f < p
    ensures k < |entries| && entries[k] <= p
  {
    var c := p[..|f| + 1];
    PrefixesAreDirectories(nodes, p, |f| + 1);
    assert Parent(c) == f && c in Members(entries);
    k :| 0 <= k < |entries| && entries[k] == c;
  }

  /** The entries dealt with so far met nothing of another kind at their place. */
  ghost predicate Met(start: Nodes, from: Path, to: Path, left: set<Path>) {
    forall p :: p in start && from <= p && p !in left ==>
      && !start[p].Link?
      && (Moved(from, to, p) in start ==> (start[p] == Directory <==> start[Moved(from, to, p)] == Directory))
  }

  /** An entry still to be copied all of whose ancestors in the source have been. */
  ghost predicate Ready(start: Nodes, from: Path, left: set<Path>, f: Path) {
    && f in start && from <= f && f in left
    && forall q :: from <= q < f ==> q !in left
  }

  lemma StartFrontier(start: Nodes, from: Path, to: Path)
    requires from in start
    ensures Frontier(start, from, to, [(from, to)])
    ensures Overlaid(start, start, from, to, Left(start, [(from, to)]), false)
    ensures Met(start, from, to, Left(start, [(from, to)]))
    ensures forall p :: p in start && from <= p ==> p in Left(start, [(from, to)])
  {
    forall p ensures p in Left(start, [(from, to)]) <==> p in start && from <= p {
      if p in start && from <= p {
        assert [(from, to)][0].0 <= p;
      }
    }
  }

  lemma NothingLeft(start: Nodes)
    ensures Left(start, []) == {}
  {
  }

  /** Source and destination share nothing. */
  lemma Apart(from: Path, to: Path, p: Path)
    requires Disjoint(from, to) && from <= p
    ensures !(to <= p) && !(p <= to)
  {
    Comparable(from, to, p);
    Chained(from, p, to);
  }

  lemma Comparable(a: Path, b: Path, p: Path)
    ensures a <= p && b <= p ==> a <= b || b <= a
  {
    if a <= p && b <= p {
      assert a == p[..|a|] && b == p[..|b|];
      assert if |a| <= |b| then a == b[..|a|] else b == a[..|b|];
    }
  }

  lemma Chained(a: Path, b: Path, c: Path)
    ensures a <= b && b <= c ==> a <= c
    ensures a <= b && b < c ==> a < c
  {
  }

  lemma AboveTop(start: Nodes, from: Path, to: Path, frontier: seq<(Path, Path)>, q: Path)
    requires frontier != [] && Frontier(start, from, to, frontier) && q < frontier[|frontier| - 1].0
    ensures q !in Left(start, frontier)
  {
    var n := |frontier| - 1;
    forall i | 0 <= i <= n ensures !(frontier[i].0 <= q) {
      assert i < n ==> !(frontier[i].0 <= frontier[n].0);
      Chained(frontier[i].0, q, frontier[n].0);
    }
  }

  lemma TopOf(start: Nodes, now: Nodes, from: Path, to: Path, frontier: seq<(Path, Path)>, made: bool)
    requires frontier != [] && Frontier(start, from, to, frontier) && Disjoint(from, to)
    requires Overlaid(start, now, from, to, Left(start, frontier), made)
    ensures var (f, t) := frontier[|frontier| - 1];
            && Ready(start, from, Left(start, frontier), f) && t == Moved(from, to, f)
            && f in now && now[f] == start[f]
            && (frontier == [(from, to)] ==> f == from && forall p :: p in start && from <= p ==> p in Left(start, frontier))
  {
    var n := |frontier| - 1;
    var f := frontier[n].0;
    Apart(from, to, f);
    forall q | from <= q < f ensures q !in Left(start, frontier) {
      AboveTop(start, from, to, frontier, q);
    }
    if frontier == [(from, to)] {
      StartFrontier(start, from, to);
    }
  }

  /** The directories of the source above a ready entry are in place. */
  lemma AboveIsOpen(start: Nodes, now: Nodes, from: Path, to: Path, left: set<Path>, f: Path, q: Path)
    requires Rooted(start, f) && Ready(start, from, left, f) && Overlaid(start, now, from, to, left, true)
    requires from != f && OnlyDirectories(start, to)
    requires q < Moved(from, to, f)
    ensures q in now && now[q] == Directory
  {
    if to <= q {
      var o := Moved(to, from, q);
      assert f[..|o|] == o;
      assert Given(start, from, to, left, q);
    } else {
      assert q <= to;
    }
  }

  /** The state of the loop at a ready entry: either the source's root is made and
      everything down to it is a directory, or the root is next. */
  ghost predicate Placed(start: Nodes, from: Path, to: Path, left: set<Path>, made: bool, f: Path) {
    && Ready(start, from, left, f)
    && if made then from != f && OnlyDirectories(start, to)
       else from == f && forall p :: p in start && from <= p ==> p in left
  }

  lemma GivenStep(start: Nodes, from: Path, to: Path, left: set<Path>, f: Path, p: Path)
    requires f in start && from <= f
    ensures Given(start, from, to, left - {f}, p) <==> p == Moved(from, to, f) || Given(start, from, to, left, p)
  {
    MovedBack(from, to, f);
    MovedBack(from, to, p);
  }

  /** The place of a ready entry is as it was at the start. */
  lemma PlaceIsOld(start: Nodes, before: Nodes, from: Path, to: Path, left: set<Path>, made: bool, f: Path)
    requires Placed(start, from, to, left, made, f) && Overlaid(start, before, from, to, left, made)
    ensures var t := Moved(from, to, f);
            && (t in before <==> t in start)
            && (t in before ==> before[t] == start[t])
  {
    MovedBack(from, to, f);
  }

  lemma OverlaidStep(start: Nodes, before: Nodes, now: Nodes, from: Path, to: Path, left: set<Path>,
                     made: bool, makes: bool, f: Path)
    requires f in start && from <= f && Overlaid(start, before, from, to, left, made) && (made ==> makes)
    requires forall p :: p in now <==> p in before || p == Moved(from, to, f) || (makes && p <= to)
    requires forall p :: p in now ==>
               now[p] == if p == Moved(from, to, f) then start[f] else if p in before then before[p] else Directory
    ensures Overlaid(start, now, from, to, left - {f}, makes)
  {
    hide Given, Moved;
    forall p ensures Given(start, from, to, left - {f}, p) <==> p == Moved(from, to, f) || Given(start, from, to, left, p) {
      GivenStep(start, from, to, left, f, p);
    }
    forall p ensures Given(start, from, to, left - {f}, p) ==>
                       to <= p && Moved(to, from, p) in start && (p == Moved(from, to, f) ==> Moved(to, from, p) == f) {
      IsGiven(start, from, to, left - {f}, p);
      MovedBack(from, to, f);
    }
  }

  lemma IsGiven(start: Nodes, from: Path, to: Path, left: set<Path>, p: Path)
    ensures Given(start, from, to, left, p) ==> to <= p && Moved(to, from, p) in start
  {
  }

  lemma MetStep(start: Nodes, from: Path, to: Path, left: set<Path>, f: Path)
    requires f in start && !start[f].Link? && from <= f && Met(start, from, to, left)
    requires var t := Moved(from, to, f); t in start ==> (start[f] == Directory <==> start[t] == Directory)
    ensures Met(start, from, to, left - {f})
  {
  }

  lemma Misfit(start: Nodes, from: Path, to: Path, f: Path)
    requires f in start && from <= f && Moved(from, to, f) in start
    requires !(start[f] == Directory <==> start[Moved(from, to, f)] == Directory)
    ensures !Fits(start, from, to)
  {
  }

  lemma Blocked(start: Nodes, from: Path, to: Path, p: Path)
    requires from in start
    requires if start[from] == Directory then p in start && p <= to && start[p] != Directory
             else !Housed(start, to)
    ensures !Fits(start, from, to)
  {
  }

  lemma FileFits(start: Nodes, from: Path, to: Path)
    requires from in start && start[from].File? && Leaf(start, from)
    requires Writable(start, to)
    ensures Fits(start, from, to)
  {
    assert Moved(from, to, from) == to;
  }

  lemma StillOld(start: Nodes, before: Nodes, from: Path, to: Path, left: set<Path>, f: Path)
    requires Placed(start, from, to, left, false, f) && Overlaid(start, before, from, to, left, false)
    ensures before == start && Moved(from, to, f) == to
  {
  }

  /** What copying one file does: it fails only where the whole copy does not fit. */
  lemma FileStep(start: Nodes, before: Nodes, from: Path, to: Path, left: set<Path>, made: bool, f: Path, ok: bool)
    requires Rooted(start, f) && Leaf(start, f) && Placed(start, from, to, left, made, f) && start[f].File?
    requires Overlaid(start, before, from, to, left, made) && Met(start, from, to, left)
    requires ok <==> Writable(before, Moved(from, to, f))
    ensures ok ==> && Overlaid(start, before[Moved(from, to, f) := start[f]], from, to, left - {f}, made)
                   && Met(start, from, to, left - {f})
    ensures ok && !made ==> Fits(start, from, to)
    ensures !ok ==> !Fits(start, from, to)
  {
    hide Overlaid, Met, Fits, Rooted, Leaf;
    var t := Moved(from, to, f);
    PlaceIsOld(start, before, from, to, left, made, f);
    if made {
      AboveIsOpen(start, before, from, to, left, f, Parent(t));
    } else {
      StillOld(start, before, from, to, left, f);
    }
    if ok {
      FilePut(start, before, from, to, left, made, f);
      MetStep(start, from, to, left, f);
      if !made {
        FileFits(start, from, to);
      }
    } else if t in start && start[t] == Directory {
      Misfit(start, from, to, f);
    } else {
      Blocked(start, from, to, []);
    }
  }

  lemma FilePut(start: Nodes, before: Nodes, from: Path, to: Path, left: set<Path>, made: bool, f: Path)
    requires f in start && from <= f && Overlaid(start, before, from, to, left, made)
    ensures Overlaid(start, before[Moved(from, to, f) := start[f]], from, to, left - {f}, made)
  {
    OverlaidStep(start, before, before[Moved(from, to, f) := start[f]], from, to, left, made, made, f);
  }

  /** What making one directory does. */
  lemma DirectoryStep(start: Nodes, before: Nodes, now: Nodes, from: Path, to: Path, left: set<Path>, made: bool,
                      f: Path, ok: bool)
    requires Rooted(start, f) && Placed(start, from, to, left, made, f) && start[f] == Directory
    requires Overlaid(start, before, from, to, left, made) && Met(start, from, to, left)
    requires Made(before, now, Moved(from, to, f), ok)
    ensures ok ==> && Overlaid(start, now, from, to, left - {f}, true) && Met(start, from, to, left - {f})
                   && OnlyDirectories(start, to)
    ensures !ok ==> !Fits(start, from, to)
  {
    hide Overlaid, Met, Fits, Rooted, Leaf;
    var t := Moved(from, to, f);
    PlaceIsOld(start, before, from, to, left, made, f);
    if made {
      forall q | q < t ensures q in before && before[q] == Directory {
        AboveIsOpen(start, before, from, to, left, f, q);
      }
    } else {
      StillOld(start, before, from, to, left, f);
    }
    if ok {
      DirectoryPut(start, before, now, from, to, left, made, f);
      MetStep(start, from, to, left, f);
    } else {
      var p :| p in before && p <= t && before[p] != Directory;
      if made {
        assert p < t || p == t;
        Misfit(start, from, to, f);
      } else {
        Blocked(start, from, to, p);
      }
    }
  }

  lemma DirectoryPut(start: Nodes, before: Nodes, now: Nodes, from: Path, to: Path, left: set<Path>, made: bool, f: Path)
    requires Placed(start, from, to, left, made, f) && start[f] == Directory
    requires Overlaid(start, before, from, to, left, made) && Made(before, now, Moved(from, to, f), true)
    requires if made then forall q :: q < Moved(from, to, f) ==> q in before else Moved(from, to, f) == to
    ensures Overlaid(start, now, from, to, left - {f}, true)
  {
    hide Overlaid;
    OverlaidStep(start, before, now, from, to, left, made, true, f);
  }

  /** What `Disk.CreateDirAll` does to the tree. */
  ghost predicate Made(before: Nodes, now: Nodes, path: Path, ok: bool) {
    && (ok <==> OnlyDirectories(before, path))
    && (forall p :: p in before ==> p in now && now[p] == before[p])
    && (forall p :: p in now && p !in before ==> p <= path && now[p] == Directory)
    && (ok ==> forall p :: p <= path ==> p in now)
  }

  /** Nothing changes except at the places. */
  ghost predicate Framed(before: Nodes, now: Nodes, places: iset<Path>) {
    forall p :: p !in places ==> (p in now <==> p in before) && (p in now ==> now[p] == before[p])
  }

  lemma MadeFramed(before: Nodes, now: Nodes, places: iset<Path>, path: Path, ok: bool)
    requires Made(before, now, path, ok) && forall p :: p in now && p <= path ==> p in places
    ensures Framed(before, now, places)
  {
  }

  /** The way down to the place of a source entry is among the places. */
  lemma WayIsPlaces(nodes: Nodes, from: Path, to: Path, f: Path, p: Path)
    requires f in nodes && from <= f && Rooted(nodes, f) && p <= Moved(from, to, f)
    ensures p in Places(nodes, from, to)
  {
    var t := Moved(from, to, f);
    assert to <= t by {
      MovedBack(from, to, f);
    }
    Comparable(p, to, t);
    if to <= p {
      var o := Moved(to, from, p);
      assert o == f[..|o|];
      assert |o| == |f| ==> o == f;
    }
  }

  /** No place lies in the source. */
  lemma PlacesClear(nodes: Nodes, from: Path, to: Path, p: Path)
    requires Disjoint(from, to) && from <= p
    ensures p !in Places(nodes, from, to)
  {
    Apart(from, to, p);
  }

  lemma Below(from: Path, to: Path, f: Path)
    requires from <= f
    ensures to <= Moved(from, to, f)
  {
  }

  /** A source directory lists as it did at the start. */
  lemma SourceListing(start: Nodes, now: Nodes, from: Path, to: Path, left: set<Path>, made: bool, f: Path)
    requires Overlaid(start, now, from, to, left, made) && Disjoint(from, to) && from <= f
    ensures Children(now, f) == Children(start, f)
    ensures f in now <==> f in start
    ensures f in now ==> now[f] == start[f]
  {
    Apart(from, to, f);
    forall p | p != [] && Parent(p) == f ensures p in now <==> p in start {
      Apart(from, to, p);
    }
  }

  lemma Dangling(start: Nodes, from: Path, to: Path, f: Path)
    requires f in start && from <= f && start[f].Link?
    ensures !Fits(start, from, to)
  {
  }

  /** The tree as the copy reads it has the same paths, and the same nodes outside
      the source. In the source it has what a link stands for in its place. */
  lemma SeenAs(nodes: Nodes, from: Path, p: Path)
    ensures p in Followed(nodes, from) <==> p in nodes
    ensures p in nodes && !(from <= p && nodes[p].Link?) ==> Followed(nodes, from)[p] == nodes[p]
    ensures p in nodes && from <= p && nodes[p].Link? ==>
              Followed(nodes, from)[p] == if Metadata(nodes, p).Some? then Metadata(nodes, p).value else nodes[p]
  {
  }

  /** An entry without links above it is read as what its path stands for, which is no
      link; if it stands for nothing it is read as a link. */
  lemma SeenStands(nodes: Nodes, from: Path, p: Path)
    requires p in nodes && from <= p && (p != [] ==> Plain(nodes, Parent(p))) && ([] in nodes ==> !nodes[[]].Link?)
    ensures Followed(nodes, from)[p].Link? <==> Metadata(nodes, p).None?
    ensures Metadata(nodes, p).Some? ==> Metadata(nodes, p).value == Followed(nodes, from)[p]
  {
    hide Follow;
    SeenAs(nodes, from, p);
    if nodes[p].Link? {
      NoneAbove(nodes);
      FollowPlain(nodes, [], p, MAX_LINKS);
      var end := End(nodes, p);
      assert end.Some? ==> end.value[..|end.value|] == end.value;
    } else {
      if p != [] {
        assert Parent(p) + [p[|p| - 1]] == p;
        PlainSnoc(nodes, Parent(p), p[|p| - 1]);
      }
      assert [] + p == p;
      PlainLeads(nodes, [], p, MAX_LINKS);
    }
  }

  /** Nothing the copy writes is a link or on the way of one. */
  ghost predicate Calm(nodes: Nodes, from: Path, places: iset<Path>) {
    NoLinks(nodes, places) && Steady(nodes, from, places)
  }

  ghost predicate Clear(from: Path, places: iset<Path>) {
    forall p :: p in places ==> !(from <= p)
  }

  /** Where links lead depends on the links alone. */
  lemma {:induction false} EndSame(a: Nodes, b: Nodes, places: iset<Path>, at: Path, rest: Path, links: nat)
    requires Framed(a, b, places) && NoLinks(a, places) && NoLinks(b, places)
    ensures Follow(a, at, rest, links) == Follow(b, at, rest, links)
    decreases links, |rest|
  {
    if rest != [] {
      var next := at + [rest[0]];
      if next !in a || !a[next].Link? {
        EndSame(a, b, places, next, rest[1..], links);
      } else if links > 0 {
        EndSame(a, b, places, [], a[next].target + rest[1..], links - 1);
      }
    }
  }

  lemma MetadataSame(a: Nodes, b: Nodes, from: Path, places: iset<Path>, p: Path)
    requires Clear(from, places) && Calm(a, from, places) && Framed(a, b, places) && NoLinks(b, places) && from <= p
    ensures p in a <==> p in b
    ensures p in a ==> a[p] == b[p]
    ensures p in a && a[p].Link? ==> Metadata(a, p) == Metadata(b, p) && End(a, p) == End(b, p)
  {
    hide Follow;
    EndSame(a, b, places, [], p, MAX_LINKS);
  }

  lemma CalmStays(a: Nodes, b: Nodes, from: Path, places: iset<Path>)
    requires Clear(from, places) && Calm(a, from, places) && Framed(a, b, places) && NoLinks(b, places)
    ensures Calm(b, from, places)
    ensures forall p :: p in a && from <= p ==> p in b && Followed(a, from)[p] == Followed(b, from)[p]
  {
    hide End, Metadata;
    forall p | from <= p
      ensures p in a <==> p in b
      ensures p in a ==> a[p] == b[p]
      ensures p in a && a[p].Link? ==> Metadata(a, p) == Metadata(b, p) && End(a, p) == End(b, p)
    {
      MetadataSame(a, b, from, places, p);
    }
  }

  /** Writing a file to a place is the same write to the tree as read. */
  lemma SeenPut(a: Nodes, from: Path, places: iset<Path>, t: Path, node: Node)
    requires Clear(from, places) && Calm(a, from, places) && t in places && !node.Link?
    ensures var b := a[t := node];
            && Framed(a, b, places) && Calm(b, from, places)
            && Followed(b, from) == Followed(a, from)[t := node]
  {
    hide Metadata;
    var b := a[t := node];
    CalmStays(a, b, from, places);
    forall p | p in b ensures Followed(b, from)[p] == Followed(a, from)[t := node][p] {
      SeenAs(a, from, p);
      SeenAs(b, from, p);
    }
  }

  lemma NotBoth(from: Path, to: Path, t: Path)
    requires Disjoint(from, to) && (to <= t || t <= to)
    ensures !(from <= t)
  {
    Comparable(from, to, t);
    Chained(from, t, to);
  }

  lemma SeenMade(a: Nodes, b: Nodes, from: Path, places: iset<Path>, path: Path, ok: bool)
    requires Clear(from, places) && Calm(a, from, places) && Made(a, b, path, ok)
    requires forall p :: p in b && p <= path ==> p in places
    ensures Framed(a, b, places) && Calm(b, from, places)
    ensures Made(Followed(a, from), Followed(b, from), path, ok)
  {
    hide Metadata;
    MadeFramed(a, b, places, path, ok);
    MadeLinks(a, b, places, path, ok);
    CalmStays(a, b, from, places);
    forall p ensures (p in a <==> p in Followed(a, from)) && (p in b <==> p in Followed(b, from)) {
      SeenAs(a, from, p);
      SeenAs(b, from, p);
    }
    forall p | p in b && !(from <= p) ensures Followed(b, from)[p] == b[p] && (p in a ==> Followed(a, from)[p] == a[p]) {
      SeenAs(a, from, p);
      SeenAs(b, from, p);
    }
  }

  lemma MadeLinks(a: Nodes, b: Nodes, places: iset<Path>, path: Path, ok: bool)
    requires NoLinks(a, places) && Made(a, b, path, ok)
    ensures NoLinks(b, places)
  {
  }

  /** Once nothing is left, what was met decides that the copy fits. */
  lemma AllMet(start: Nodes, from: Path, to: Path)
    requires from in start && start[from] == Directory && Met(start, from, to, {})
    requires OnlyDirectories(start, to)
    ensures Fits(start, from, to)
  {
  }

  lemma SeenTree(start: Nodes, now: Nodes, from: Path, to: Path)
    requires WellFormed(start) && Disjoint(from, to) && Fits(start, from, to)
    requires Overlaid(start, now, from, to, {}, start[from] == Directory)
    ensures forall p :: p in start && from <= p ==> Moved(from, to, p) in now && now[Moved(from, to, p)] == start[p]
    ensures forall p :: p in start && to <= p && Moved(to, from, p) !in start ==> p in now && now[p] == start[p]
    ensures WellFormed(now)
  {
    forall p | p in start && from <= p ensures Moved(from, to, p) in now && now[Moved(from, to, p)] == start[p] {
      MovedBack(from, to, p);
    }
    Apart(from, to, from);
    assert [] in now && now[[]] == Directory;
    forall p | p in now && p != [] ensures Parent(p) in now && now[Parent(p)] == Directory {
      ParentStays(start, now, from, to, p);
    }
  }

  /** What a finished copy comes to: the source is as it was; the destination has
      what every path of it stands for, a linked file as a file; the destination
      keeps what the source does not have; and the tree is still a tree. */
  lemma CopiedTree(start: Nodes, now: Nodes, from: Path, to: Path)
    requires WellFormed(start) && Disjoint(from, to) && Framed(start, now, Places(start, from, to))
    requires Fits(Followed(start, from), from, to)
    requires Overlaid(Followed(start, from), Followed(now, from), from, to, {}, Followed(start, from)[from] == Directory)
    ensures forall p :: from <= p ==> (p in now <==> p in start) && (p in now ==> now[p] == start[p])
    ensures forall p :: p in start && from <= p ==>
              Moved(from, to, p) in now && Some(now[Moved(from, to, p)]) == Metadata(start, p)
    ensures forall p :: p in start && to <= p && Moved(to, from, p) !in start ==> p in now && now[p] == start[p]
    ensures WellFormed(now)
  {
    hide Metadata, Overlaid, Followed;
    var seen, after := Followed(start, from), Followed(now, from);
    SeenWell(start, from);
    SeenTree(seen, after, from, to);
    forall p | from <= p ensures (p in now <==> p in start) && (p in now ==> now[p] == start[p]) {
      PlacesClear(start, from, to, p);
    }
    forall p | p in start && from <= p
      ensures Moved(from, to, p) in now && Some(now[Moved(from, to, p)]) == Metadata(start, p)
    {
      SeenAs(start, from, p);
      StartStands(start, from, to, p);
      MovedBack(from, to, p);
      NotBoth(from, to, Moved(from, to, p));
      SeenAs(now, from, Moved(from, to, p));
    }
    forall p | p in start && to <= p && Moved(to, from, p) !in start ensures p in now && now[p] == start[p] {
      SeenAs(start, from, Moved(to, from, p));
      NotBoth(from, to, p);
      SeenAs(start, from, p);
      SeenAs(now, from, p);
    }
    RootStays(start, now, from, to);
    forall p | p in now && p != [] ensures Parent(p) in now && now[Parent(p)] == Directory {
      SeenAs(now, from, p);
      SeenAs(now, from, Parent(p));
      if from <= Parent(p) {
        PlacesClear(start, from, to, p);
        PlacesClear(start, from, to, Parent(p));
      }
    }
  }

  /** A link of the source to a file elsewhere is read, and so copied, as that file. */
  lemma LinkRead(nodes: Nodes, from: Path, p: Path, target: Path)
    requires WellFormed(nodes) && from <= p && p in nodes && nodes[p] == Link(target)
    requires target in nodes && !nodes[target].Link?
    ensures Followed(nodes, from)[p] == nodes[target]
  {
    hide Metadata;
    LinkLeads(nodes, p, target);
    SeenAs(nodes, from, p);
  }

  lemma StartStands(start: Nodes, from: Path, to: Path, p: Path)
    requires WellFormed(start) && p in start && from <= p && Fits(Followed(start, from), from, to)
    ensures Metadata(start, p) == Some(Followed(start, from)[p])
  {
    hide Metadata, Followed, Plain;
    SeenAs(start, from, p);
    EntryPlain(start, p);
    SeenStands(start, from, p);
  }

  /** So after a copy the file is in the place of the link. */
  lemma CopiedLink(start: Nodes, now: Nodes, from: Path, to: Path, p: Path, target: Path)
    requires WellFormed(start) && Disjoint(from, to) && Framed(start, now, Places(start, from, to))
    requires Fits(Followed(start, from), from, to)
    requires Overlaid(Followed(start, from), Followed(now, from), from, to, {}, Followed(start, from)[from] == Directory)
    requires from <= p && p in start && start[p] == Link(target) && target in start && !start[target].Link?
    ensures Moved(from, to, p) in now && now[Moved(from, to, p)] == start[target]
  {
    hide Fits, Overlaid, Followed, Metadata, Framed, Places, WellFormed;
    LinkLeads(start, p, target);
    CopiedTree(start, now, from, to);
  }

  lemma RootStays(start: Nodes, now: Nodes, from: Path, to: Path)
    requires WellFormed(start) && Disjoint(from, to) && WellFormed(Followed(now, from))
    ensures [] in now && now[[]] == Directory
  {
    SeenAs(now, from, []);
    assert [] <= to && from != [];
  }

  lemma SeenWell(nodes: Nodes, from: Path)
    requires WellFormed(nodes)
    ensures WellFormed(Followed(nodes, from))
  {
    hide Metadata, Followed;
    SeenAs(nodes, from, []);
    forall p | p in Followed(nodes, from) && p != []
      ensures Parent(p) in Followed(nodes, from) && Followed(nodes, from)[Parent(p)] == Directory
    {
      SeenAs(nodes, from, p);
      SeenAs(nodes, from, Parent(p));
    }
  }

  lemma ParentStays(start: Nodes, now: Nodes, from: Path, to: Path, p: Path)
    requires WellFormed(start) && Fits(start, from, to) && p in now && p != []
    requires Overlaid(start, now, from, to, {}, start[from] == Directory)
    ensures Parent(p) in now && now[Parent(p)] == Directory
  {
    if to < p {
      ParentBelow(start, now, from, to, p);
    } else {
      NotBelow(to, p);
      if p in start {
        assert Parent(p) in start && start[Parent(p)] == Directory;
      } else if p == to {
        ParentOfPlace(start, now, from, to);
      } else {
        assert p <= to;
      }
    }
  }

  lemma NotBelow(to: Path, p: Path)
    requires p != [] && !(to < p)
    ensures !(to <= Parent(p)) && (p <= to ==> Parent(p) <= to)
  {
  }

  lemma ParentOfPlace(start: Nodes, now: Nodes, from: Path, to: Path)
    requires WellFormed(start) && Fits(start, from, to) && to != []
    requires Overlaid(start, now, from, to, {}, start[from] == Directory)
    ensures Parent(to) in now && now[Parent(to)] == Directory
  {
    hide WellFormed;
    assert !(to <= Parent(to)) && Parent(to) <= to;
  }

  lemma ParentBelow(start: Nodes, now: Nodes, from: Path, to: Path, p: Path)
    requires WellFormed(start) && Fits(start, from, to) && p in now && to < p
    requires Overlaid(start, now, from, to, {}, start[from] == Directory)
    ensures Parent(p) in now && now[Parent(p)] == Directory
  {
    var q := Parent(p);
    var o := Moved(to, from, q);
    assert to <= q && Parent(Moved(to, from, p)) == o;
    MovedBack(from, to, q);
    MovedBack(from, to, p);
  }

  class Disk {
    var nodes: Nodes

    constructor (nodes: Nodes)
      ensures this.nodes == nodes
    {
      this.nodes := nodes;
    }

    /** Copies the content of what `from` stands for, a file; the place must not be a
        directory and must be in one. */
    method CopyFile(from: Path, to: Path) returns (ok: bool)
      requires Metadata(nodes, from).Some? && Metadata(nodes, from).value.File?
      requires to in nodes ==> !nodes[to].Link?
      modifies this
      ensures ok <==> Writable(old(nodes), to)
      ensures nodes == if ok then old(nodes)[to := old(Metadata(nodes, from).value)] else old(nodes)
    {
      ok := Writable(nodes, to);
      if ok {
        nodes := nodes[to := Metadata(nodes, from).value];
      }
    }

    /** Makes the missing directories down to `path`; it fails where something else
        is in the way. */
    method CreateDirAll(path: Path) returns (ok: bool)
      modifies this
      ensures Made(old(nodes), nodes, path, ok)
    {
      var before := nodes;
      for n := 0 to |path| + 1
        invariant forall p :: p in before ==> p in nodes && nodes[p] == before[p]
        invariant forall p :: p in nodes && p !in before ==> p <= path && nodes[p] == Directory
        invariant forall k :: 0 <= k < n ==> path[..k] in nodes && nodes[path[..k]] == Directory
      {
        if path[..n] !in nodes {
          nodes := nodes[path[..n] := Directory];
        } else if nodes[path[..n]] != Directory {
          assert path[..n] in before;
          return false;
        }
      }
      forall p | p <= path ensures p in nodes && nodes[p] == Directory {
        assert p == path[..|p|];
      }
      ok := true;
    }

    /** Copies the tree at `from` onto `to`. It goes through exactly when the source,
        with its links followed, fits, and then the tree is the old one overlaid with
        it. Except at the places a copy may write nothing ever changes. */
    method CopyOnto(from: Path, to: Path) returns (ok: bool)
      requires WellFormed(nodes) && Disjoint(from, to)
      requires NoLinks(nodes, Places(nodes, from, to)) && Steady(nodes, from, Places(nodes, from, to))
      modifies this
      ensures ok <==> Fits(Followed(old(nodes), from), from, to)
      ensures ok ==> Overlaid(Followed(old(nodes), from), Followed(nodes, from), from, to, {},
                              Followed(old(nodes), from)[from] == Directory)
      ensures Framed(old(nodes), nodes, Places(old(nodes), from, to))
    {
      hide Overlaid, Frontier, Left, Items, WellFormed, Met, Made, Framed, Fits, Moved, OnlyDirectories, Writable;
      hide Rooted, Leaf, Followed, Metadata, Plain, NoLinks, Steady, Places, Clear;
      ghost var origin, start, places := nodes, Followed(nodes, from), Places(nodes, from, to);
      CopyStarts(origin, from, to);
      SeenAs(origin, from, from);
      if from !in nodes {
        return false;
      }
      var frontier := [(from, to)];
      StartFrontier(start, from, to);
      ghost var made := false;
      while frontier != []
        invariant Framed(origin, nodes, places) && Calm(nodes, from, places)
        invariant Frontier(start, from, to, frontier)
        invariant Overlaid(start, Followed(nodes, from), from, to, Left(start, frontier), made)
        invariant Met(start, from, to, Left(start, frontier))
        invariant !made && frontier != [] ==> frontier == [(from, to)]
        invariant !made && frontier == [] ==> start[from] != Directory && Fits(start, from, to)
        invariant made ==> start[from] == Directory && from !in Left(start, frontier)
        invariant made ==> OnlyDirectories(start, to)
        decreases |Left(start, frontier)|
      {
        ghost var left := Left(start, frontier);
        ghost var whole, before := frontier, nodes;
        TopOf(start, Followed(nodes, from), from, to, frontier, made);
        var (f, t) := frontier[|frontier| - 1];
        frontier := frontier[..|frontier| - 1];
        Below(from, to, f);
        SeenAs(nodes, from, f);
        EntryShape(start, f);
        WayIsOpen(origin, from, to, f);
        WayUp(origin, nodes, from, places, f);
        SeenStands(nodes, from, f);
        var metadata := Metadata(nodes, f);
        if metadata.None? {
          Dangling(start, from, to, f);
          return false;
        }
        if metadata.value != Directory {
          PlaceNoLink(nodes, from, places, t);
          SeenPut(nodes, from, places, t, metadata.value);
          SeenWritable(nodes, from, to, t);
          ok := CopyFile(f, t);
          FileStep(start, Followed(before, from), from, to, left, made, f, ok);
          if !ok {
            return;
          }
          FramedTwice(origin, before, nodes, places);
          LeftPop(start, from, to, whole);
          continue;
        }
        ok := CreateDirAll(t);
        SeenMade(before, nodes, from, places, t, ok);
        FramedTwice(origin, before, nodes, places);
        DirectoryStep(start, Followed(before, from), Followed(nodes, from), from, to, left, made, f, ok);
        if !ok {
          return;
        }
        SourceListing(start, Followed(nodes, from), from, to, left - {f}, true, f);
        SeenAs(nodes, from, f);
        SeenListing(nodes, from, places, f);
        var entries := ReadDir(nodes, f);
        LeftOpen(start, from, to, whole, entries.value);
        frontier := frontier + Items(entries.value, t);
        made := true;
      }
      NothingLeft(start);
      if made {
        AllMet(start, from, to);
      }
      ok := true;
    }
  }

  lemma CopyStarts(nodes: Nodes, from: Path, to: Path)
    requires WellFormed(nodes) && Disjoint(from, to)
    requires NoLinks(nodes, Places(nodes, from, to)) && Steady(nodes, from, Places(nodes, from, to))
    ensures WellFormed(Followed(nodes, from)) && Calm(nodes, from, Places(nodes, from, to))
    ensures Framed(nodes, nodes, Places(nodes, from, to)) && Clear(from, Places(nodes, from, to))
    ensures from !in nodes ==> !Fits(Followed(nodes, from), from, to)
  {
    hide Places, Followed, Metadata;
    SeenWell(nodes, from);
    SeenAs(nodes, from, from);
    forall p | p in Places(nodes, from, to) ensures !(from <= p) {
      if from <= p {
        PlacesClear(nodes, from, to, p);
      }
    }
  }

  /** The way down to the place of a source entry, in the tree the copy began with. */
  lemma WayIsOpen(origin: Nodes, from: Path, to: Path, f: Path)
    requires WellFormed(origin) && f in Followed(origin, from) && from <= f
    ensures forall p :: p <= Moved(from, to, f) ==> p in Places(origin, from, to)
  {
    hide Places, Rooted, Moved;
    SeenAs(origin, from, f);
    EntryShape(origin, f);
    forall p: Path ensures p <= Moved(from, to, f) ==> p in Places(origin, from, to) {
      if p <= Moved(from, to, f) {
        WayIsPlaces(origin, from, to, f, p);
      }
    }
  }

  /** The copy never puts a link above an entry of the source. */
  lemma WayUp(origin: Nodes, nodes: Nodes, from: Path, places: iset<Path>, f: Path)
    requires WellFormed(origin) && Framed(origin, nodes, places) && NoLinks(nodes, places) && f in Followed(origin, from)
    ensures f != [] ==> Plain(nodes, Parent(f))
    ensures [] in nodes ==> !nodes[[]].Link?
  {
    hide Metadata;
    SeenAs(origin, from, f);
    EntryPlain(origin, f);
  }

  lemma FramedTwice(a: Nodes, b: Nodes, c: Nodes, places: iset<Path>)
    requires Framed(a, b, places) && Framed(b, c, places)
    ensures Framed(a, c, places)
  {
  }

  lemma PlaceNoLink(nodes: Nodes, from: Path, places: iset<Path>, t: Path)
    requires Calm(nodes, from, places) && t in places
    ensures t in nodes ==> !nodes[t].Link?
  {
  }

  /** Whether a file can be put at a place is the same in the tree as read. */
  lemma SeenWritable(nodes: Nodes, from: Path, to: Path, t: Path)
    requires Disjoint(from, to) && to <= t
    ensures Writable(nodes, t) <==> Writable(Followed(nodes, from), t)
  {
    hide Metadata;
    NotBoth(from, to, t);
    SeenAs(nodes, from, t);
    if t != [] {
      assert !(from <= Parent(t)) by {
        Chained(from, Parent(t), t);
      }
      SeenAs(nodes, from, Parent(t));
    }
  }

  /** A directory of the source is one on the disk, with the same entries. */
  lemma SeenListing(nodes: Nodes, from: Path, places: iset<Path>, f: Path)
    requires Calm(nodes, from, places) && from <= f && f in nodes && Followed(nodes, from)[f] == Directory
    ensures nodes[f] == Directory && Children(nodes, f) == Children(Followed(nodes, from), f)
  {
    hide Follow;
  }
}
