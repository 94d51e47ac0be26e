/** The breadth-first listing of what lies below a directory, and the filter that
    globbing applies to it. */
module FileWalk {
  import opened Text
  import opened FileTree

  /** The entries at depth `k` below `root`. */
  ghost function Layer(nodes: Nodes, root: Path, k: nat): set<Path> {
    set p | p in nodes && root <= p && |p| == |root| + k
  }

  /** The entries at depths `1..k` below `root`. */
  ghost function Within(nodes: Nodes, root: Path, k: nat): set<Path> {
    set p | p in nodes && root <= p && |root| < |p| <= |root| + k
  }

  /** Everything below `root`. */
  ghost function Below(nodes: Nodes, root: Path): set<Path> {
    set p | p in nodes && root < p
  }

  ghost function Directories(nodes: Nodes, paths: set<Path>): set<Path> {
    set p | p in paths && p in nodes && nodes[p] == Directory
  }

  /** The entries of the first `n` directories of a frontier. */
  ghost function Listed(nodes: Nodes, frontier: seq<Path>, n: nat): set<Path>
    requires n <= |frontier|
  {
    set p | p in nodes && p != [] && Parent(p) in frontier[..n]
  }

  /** Listing a whole layer's directories gives the next layer. */
  lemma ListedLayer(nodes: Nodes, root: Path, k: nat, frontier: seq<Path>)
    requires Closed(nodes, root) && Members(frontier) == Directories(nodes, Layer(nodes, root, k))
    ensures Listed(nodes, frontier, |frontier|) == Layer(nodes, root, k + 1)
  {
    assert frontier[..|frontier|] == frontier;
    forall p ensures p in Listed(nodes, frontier, |frontier|) <==> p in Layer(nodes, root, k + 1) {
      if p in nodes && p != [] {
        assert Parent(p) in frontier <==> Parent(p) in Members(frontier);
        if Parent(p) in frontier {
          assert root <= Parent(p) <= p;
        }
        if p in Layer(nodes, root, k + 1) {
          assert root <= Parent(p);
        }
      }
    }
  }

  lemma ListedNext(nodes: Nodes, frontier: seq<Path>, n: nat)
    requires n < |frontier| && Distinct(frontier)
    ensures Listed(nodes, frontier, n + 1) == Listed(nodes, frontier, n) + Children(nodes, frontier[n])
    ensures Listed(nodes, frontier, n) !! Children(nodes, frontier[n])
  {
    assert frontier[..n + 1] == frontier[..n] + [frontier[n]];
    assert frontier[n] !in frontier[..n];
  }

  /** Lists one directory onto the entries found and the directories to visit next. */
  method Visit(nodes: Nodes, directory: Path, found: seq<Path>, next: seq<Path>)
    returns (r: Option<(seq<Path>, seq<Path>)>)
    requires Distinct(found) && Distinct(next)
    requires Members(found) !! Children(nodes, directory) && Members(next) !! Children(nodes, directory)
    ensures r.Some? <==> directory in nodes && nodes[directory] == Directory
    ensures r.Some? ==>
              && Distinct(r.value.0) && Members(r.value.0) == Members(found) + Children(nodes, directory)
              && Distinct(r.value.1)
              && Members(r.value.1) == Members(next) + Directories(nodes, Children(nodes, directory))
  {
    var entries := ReadDir(nodes, directory);
    if entries.None? {
      return None;
    }
    var found', next' := found, next;
    for i := 0 to |entries.value|
      invariant Distinct(found') && Distinct(next')
      invariant Members(found') == Members(found) + Members(entries.value[..i])
      invariant Members(next') == Members(next) + Directories(nodes, Members(entries.value[..i]))
    {
      var path := entries.value[i];
      assert path in Members(entries.value) && path !in entries.value[..i];
      assert entries.value[..i + 1] == entries.value[..i] + [path];
      assert path !in Members(found') && path !in Members(next');
      if nodes[path] == Directory {
        DistinctSnoc(next', path);
        next' := next' + [path];
      }
      DistinctSnoc(found', path);
      found' := found' + [path];
    }
    assert entries.value[..|entries.value|] == entries.value;
    r := Some((found', next'));
  }

  ghost predicate Exactly(found: seq<Path>, paths: set<Path>) {
    Distinct(found) && Members(found) == paths
  }

  /** A path to a directory, or to a link that leads to one. */
  predicate LeadsToDirectory(nodes: Nodes, path: Path) {
    Metadata(nodes, path) == Some(Directory)
  }

  /** What paths through `root` see of the tree: the directory `root` leads to and
      what is below it. */
  function Through(nodes: Nodes, root: Path): Nodes {
    if LeadsToDirectory(nodes, root) then
      var led := End(nodes, root).value;
      MovedApart(led, root);
      map p | p in nodes && led <= p :: Moved(led, root, p) := nodes[p]
    else map[]
  }

  lemma MovedApart(from: Path, to: Path)
    ensures forall p, q :: from <= p && from <= q && Moved(from, to, p) == Moved(from, to, q) ==> p == q
  {
    forall p, q | from <= p && from <= q && Moved(from, to, p) == Moved(from, to, q) ensures p == q {
      MovedBack(from, to, p);
      MovedBack(from, to, q);
    }
  }

  lemma ThroughMoved(nodes: Nodes, root: Path, p: Path)
    requires LeadsToDirectory(nodes, root)
    ensures var led := End(nodes, root).value;
            && (p in Through(nodes, root) <==> root <= p && Moved(root, led, p) in nodes)
            && (p in Through(nodes, root) ==> Through(nodes, root)[p] == nodes[Moved(root, led, p)])
  {
    hide End, Moved;
    var led := End(nodes, root).value;
    MovedApart(led, root);
    MovedBack(root, led, p);
    forall q | q in nodes && led <= q ensures root <= Moved(led, root, q) && Moved(root, led, Moved(led, root, q)) == q {
      MovedBack(led, root, q);
    }
  }

  lemma ThroughRoot(nodes: Nodes, root: Path)
    ensures root in Through(nodes, root) && Through(nodes, root)[root] == Directory <==> LeadsToDirectory(nodes, root)
  {
    if LeadsToDirectory(nodes, root) {
      ThroughMoved(nodes, root, root);
      assert Moved(root, End(nodes, root).value, root) == End(nodes, root).value;
    }
  }

  lemma ThroughClosed(nodes: Nodes, root: Path)
    requires WellFormed(nodes)
    ensures Closed(Through(nodes, root), root)
  {
    hide End, Through;
    if LeadsToDirectory(nodes, root) {
      var led := End(nodes, root).value;
      forall p | p in Through(nodes, root) && root < p
        ensures Parent(p) in Through(nodes, root) && Through(nodes, root)[Parent(p)] == Directory
      {
        ThroughMoved(nodes, root, p);
        ThroughMoved(nodes, root, Parent(p));
        var q := Moved(root, led, p);
        assert q != [] && Parent(q) == Moved(root, led, Parent(p));
      }
    } else {
      NotThrough(nodes, root);
    }
  }

  lemma NotThrough(nodes: Nodes, root: Path)
    requires !LeadsToDirectory(nodes, root)
    ensures Through(nodes, root) == map[]
  {
  }

  /** A directory below `root` shows what the system finds at the paths in it, however
      many links are on the way to `root`. */
  lemma ThroughShows(nodes: Nodes, root: Path, directory: Path, name: string)
    requires WellFormed(nodes) && LeadsToDirectory(nodes, root)
    requires directory in Through(nodes, root) && Through(nodes, root)[directory] == Directory
    ensures var p, seen := directory + [name], Through(nodes, root);
            && (p in seen <==> Lookup(nodes, p).Some?)
            && (p in seen ==> Lookup(nodes, p) == Some(seen[p]))
  {
    hide Through, Plain, Follow;
    var led, p := End(nodes, root).value, directory + [name];
    ThroughMoved(nodes, root, directory);
    ThroughMoved(nodes, root, p);
    var q := Moved(root, led, directory);
    EntryPlain(nodes, q);
    assert directory == root + directory[|root|..];
    FollowOn(nodes, [], root, directory[|root|..], MAX_LINKS);
    assert Parent(p) == directory && Moved(root, led, p) == q + [name];
  }

  /** Below a root that is a link to a directory there is exactly what is below that
      directory, moved under the root. */
  lemma LinkedRoot(nodes: Nodes, root: Path, target: Path)
    requires WellFormed(nodes) && root in nodes && nodes[root] == Link(target)
    requires target in nodes && nodes[target] == Directory
    ensures LeadsToDirectory(nodes, root)
    ensures Below(Through(nodes, root), root) == set p | p in nodes && target < p :: root + p[|target|..]
    ensures forall k: nat :: Within(Through(nodes, root), root, k) ==
              set p | p in nodes && target < p && |p| <= |target| + k :: root + p[|target|..]
  {
    hide Follow, Through;
    LinkLeads(nodes, root, target);
    forall p: Path ensures root < p ==> (p in Through(nodes, root) <==> Moved(root, target, p) in nodes) {
      ThroughMoved(nodes, root, p);
    }
    forall p: Path ensures root < p ==> target < Moved(root, target, p) && root + Moved(root, target, p)[|target|..] == p {
    }
    forall p: Path ensures target < p ==> root < root + p[|target|..] && Moved(root, target, root + p[|target|..]) == p {
    }
  }

  /** Returns each entry at depth `1..limit` below `root` exactly once, in some
      order; no limit means everything below. Links at the root or on the way to it
      are looked through; links below it are listed and not followed. */
  method Walk(disk: Nodes, root: Path, limit: Option<nat>) returns (r: Option<seq<Path>>)
    requires WellFormed(disk)
    ensures r.None? <==> limit != Some(0) && !LeadsToDirectory(disk, root)
    ensures r.Some? && limit.Some? ==> Exactly(r.value, Within(Through(disk, root), root, limit.value))
    ensures r.Some? && limit.None? ==> Exactly(r.value, Below(Through(disk, root), root))
  {
    hide Distinct, Members, Listed, Children, WellFormed, Closed, Through, LeadsToDirectory;
    ThroughClosed(disk, root);
    ThroughRoot(disk, root);
    var nodes := Through(disk, root);
    var found: seq<Path> := [];
    var frontier := [root];
    var level := 0;
    ghost var bound := Bounded(nodes.Keys);
    StartLayer(nodes, root);
    while true
      invariant Exactly(found, Within(nodes, root, level))
      invariant Distinct(frontier)
      invariant level > 0 || (root in nodes && nodes[root] == Directory) ==>
                  Members(frontier) == Directories(nodes, Layer(nodes, root, level))
      invariant level == 0 ==> frontier == [root]
      invariant level > 0 ==> root in nodes && nodes[root] == Directory && frontier != [] && |root| + level <= bound
      invariant limit.Some? ==> level <= limit.value
      decreases if level == 0 then bound + 1 else bound - level
    {
      if limit.Some? && level >= limit.value {
        break;
      }
      var next: seq<Path> := [];
      NoneListed(nodes, frontier);
      for i := 0 to |frontier|
        invariant Distinct(found) && Members(found) == Within(nodes, root, level) + Listed(nodes, frontier, i)
        invariant Distinct(next) && Members(next) == Directories(nodes, Listed(nodes, frontier, i))
        invariant i > 0 ==> root in nodes && nodes[root] == Directory
      {
        ListedNext(nodes, frontier, i);
        ChildrenAreNew(nodes, root, level, frontier, i);
        MemberIs(frontier, frontier[i]);
        var visited := Visit(nodes, frontier[i], found, next);
        if visited.None? {
          return None;
        }
        found, next := visited.value.0, visited.value.1;
      }
      ListedLayer(nodes, root, level, frontier);
      if next == [] {
        LastLayer(nodes, root, level);
        return Some(found);
      }
      MemberIs(next, next[0]);
      assert |next[0]| == |root| + level + 1;
      frontier := next;
      level := level + 1;
    }
    r := Some(found);
  }

  lemma StartLayer(nodes: Nodes, root: Path)
    ensures Distinct([root]) && Exactly([], Within(nodes, root, 0))
    ensures root in nodes && nodes[root] == Directory ==>
              Members([root]) == Directories(nodes, Layer(nodes, root, 0))
  {
    forall p ensures p in Layer(nodes, root, 0) <==> p == root && root in nodes {
      if p in Layer(nodes, root, 0) {
        assert p == root;
      }
    }
  }

  lemma NoneListed(nodes: Nodes, frontier: seq<Path>)
    ensures Distinct([]) && Members([]) == {} && Listed(nodes, frontier, 0) == {}
  {
  }

  lemma ChildrenAreNew(nodes: Nodes, root: Path, level: nat, frontier: seq<Path>, i: nat)
    requires i < |frontier|
    requires (frontier == [root] && level == 0)
          || Members(frontier) == Directories(nodes, Layer(nodes, root, level))
    ensures Within(nodes, root, level) !! Children(nodes, frontier[i])
  {
    assert frontier[i] in Members(frontier);
    forall p | p in Children(nodes, frontier[i]) ensures p !in Within(nodes, root, level) {
      assert |p| == |root| + level + 1;
    }
  }

  /** Without directories in the next layer nothing lies deeper. */
  lemma LastLayer(nodes: Nodes, root: Path, level: nat)
    requires Closed(nodes, root) && Directories(nodes, Layer(nodes, root, level + 1)) == {}
    ensures Within(nodes, root, level) + Layer(nodes, root, level + 1) == Below(nodes, root)
    ensures forall limit :: limit > level ==> Within(nodes, root, limit) == Below(nodes, root)
  {
    forall p | p in nodes && root < p ensures |p| <= |root| + level + 1 {
      if |p| > |root| + level + 1 {
        DeeperDirectory(nodes, root, level, p);
      }
    }
  }

  lemma DeeperDirectory(nodes: Nodes, root: Path, level: nat, p: Path)
    requires Closed(nodes, root) && p in nodes && root < p && |p| > |root| + level + 1
    ensures Directories(nodes, Layer(nodes, root, level + 1)) != {}
  {
    var q := p[..|root| + level + 1];
    WayDown(nodes, root, p, |q|);
    assert q in Directories(nodes, Layer(nodes, root, level + 1));
  }

  /** A pattern that matches a path or one of its nonempty ancestors excludes it. */
  predicate Excluded(relative: Path, excludes: seq<Path -> bool>) {
    exists k, e :: 0 < k <= |relative| && 0 <= e < |excludes| && excludes[e](relative[..k])
  }

  /** What lies below an excluded path is excluded. */
  lemma ExcludedBelow(relative: Path, deeper: Path, excludes: seq<Path -> bool>)
    requires Excluded(relative, excludes) && relative <= deeper
    ensures Excluded(deeper, excludes)
  {
    var k, e :| 0 < k <= |relative| && 0 <= e < |excludes| && excludes[e](relative[..k]);
    assert deeper[..k] == relative[..k];
  }

  /** An entry whose own path matches is excluded; any other exactly when it is below
      one that is. */
  lemma ExcludedFrom(relative: Path, excludes: seq<Path -> bool>)
    requires relative != []
    ensures Excluded(relative, excludes) <==>
              || (exists e :: 0 <= e < |excludes| && excludes[e](relative))
              || Excluded(Parent(relative), excludes)
    ensures !Excluded([], excludes)
  {
    var above := Parent(relative);
    assert relative[..|relative|] == relative;
    if Excluded(relative, excludes) {
      var k, e :| 0 < k <= |relative| && 0 <= e < |excludes| && excludes[e](relative[..k]);
      assert k < |relative| ==> above[..k] == relative[..k];
    }
    if Excluded(above, excludes) {
      ExcludedBelow(above, relative, excludes);
    }
    if e :| 0 <= e < |excludes| && excludes[e](relative) {
      assert excludes[e](relative[..|relative|]);
    }
  }

  /** Returns, each once, the entries below `root` that match and are not excluded. */
  method Glob(disk: Nodes, root: Path, pattern: Path -> bool, excludes: seq<Path -> bool>)
    returns (matched: Option<seq<Path>>)
    requires WellFormed(disk)
    ensures matched.None? <==> !LeadsToDirectory(disk, root)
    ensures matched.Some? ==>
              Exactly(matched.value,
                      set p | p in Below(Through(disk, root), root) && pattern(p[|root|..]) && !Excluded(p[|root|..], excludes))
  {
    hide Excluded, Through, LeadsToDirectory;
    var paths := Walk(disk, root, None);
    if paths.None? {
      return None;
    }
    var kept: seq<Path> := [];
    for i := 0 to |paths.value|
      invariant Distinct(kept)
      invariant forall p :: p in kept <==>
                  p in paths.value[..i] && root <= p && pattern(p[|root|..]) && !Excluded(p[|root|..], excludes)
    {
      var path := paths.value[i];
      assert path in Members(paths.value) && path !in paths.value[..i];
      assert paths.value[..i + 1] == paths.value[..i] + [path];
      var relative := path[|root|..];
      if pattern(relative) && !Excluded(relative, excludes) {
        DistinctSnoc(kept, path);
        kept := kept + [path];
      }
    }
    assert paths.value[..|paths.value|] == paths.value;
    forall p ensures p in paths.value <==> p in Below(Through(disk, root), root) {
      assert p in paths.value <==> p in Members(paths.value);
    }
    matched := Some(kept);
  }
}
