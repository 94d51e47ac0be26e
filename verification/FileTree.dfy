/** File trees as finite maps from paths to nodes, listed in any order. */
module FileTree {
  import opened Text

  /** A path is its components, from the file system root. */
  type Path = seq<string>

  datatype Node = File(content: string) | Directory | Link(target: Path)

  type Nodes = map<Path, Node>

  function Parent(p: Path): Path
    requires p != []
  {
    p[..|p| - 1]
  }

  /** The root is a directory, and so is the parent of everything else. */
  ghost predicate WellFormed(nodes: Nodes) {
    && [] in nodes && nodes[[]] == Directory
    && forall p {:trigger Parent(p)} :: p in nodes && p != [] ==> Parent(p) in nodes && nodes[Parent(p)] == Directory
  }

  /** The parent of everything below `root` is a directory. */
  ghost predicate Closed(nodes: Nodes, root: Path) {
    forall p {:trigger Parent(p)} :: p in nodes && root < p ==> Parent(p) in nodes && nodes[Parent(p)] == Directory
  }

  /** The entries of a directory. */
  ghost function Children(nodes: Nodes, directory: Path): set<Path> {
    set p | p in nodes && p != [] && Parent(p) == directory
  }

  ghost predicate Distinct(paths: seq<Path>) {
    forall i, j :: 0 <= i < j < |paths| ==> paths[i] != paths[j]
  }

  ghost function Members(paths: seq<Path>): set<Path> {
    set p | p in paths
  }

  lemma DistinctSnoc(paths: seq<Path>, p: Path)
    requires Distinct(paths) && p !in paths
    ensures Distinct(paths + [p]) && Members(paths + [p]) == Members(paths) + {p}
  {
  }

  lemma NoMembers()
    ensures Distinct([]) && Members([]) == {}
  {
  }

  lemma MemberIs(paths: seq<Path>, p: Path)
    ensures p in Members(paths) <==> p in paths
  {
  }

  /** The paths listed so far and those left to list. */
  ghost predicate Listing(listed: seq<Path>, left: set<Path>, all: set<Path>) {
    Distinct(listed) && Members(listed) !! left && Members(listed) + left == all
  }

  lemma ListOne(listed: seq<Path>, left: set<Path>, all: set<Path>, p: Path)
    requires Listing(listed, left, all) && p in left
    ensures Listing(listed + [p], left - {p}, all)
  {
    hide Distinct, Members;
    MemberIs(listed, p);
    DistinctSnoc(listed, p);
  }

  lemma ListingEnds(listed: seq<Path>, all: set<Path>)
    ensures Listing([], all, all)
    ensures Listing(listed, {}, all) ==> Distinct(listed) && Members(listed) == all
  {
    hide Distinct, Members;
    NoMembers();
  }

  /** Lists a directory in some order; only a directory can be listed. */
  method ReadDir(nodes: Nodes, directory: Path) returns (entries: Option<seq<Path>>)
    ensures entries.Some? <==> directory in nodes && nodes[directory] == Directory
    ensures entries.Some? ==> Distinct(entries.value) && Members(entries.value) == Children(nodes, directory)
  {
    hide Listing, Distinct, Members;
    if directory !in nodes || nodes[directory] != Directory {
      return None;
    }
    var left := set p | p in nodes && p != [] && Parent(p) == directory;
    ghost var all := left;
    var listed: seq<Path> := [];
    ListingEnds(listed, all);
    while left != {}
      invariant Listing(listed, left, all)
      decreases left
    {
      var p :| p in left;
      ListOne(listed, left, all, p);
      listed, left := listed + [p], left - {p};
    }
    ListingEnds(listed, all);
    entries := Some(listed);
  }

  /** Every prefix of an entry's path is an entry, and every proper one a directory. */
  lemma PrefixesAreDirectories(nodes: Nodes, p: Path, n: nat)
    requires WellFormed(nodes) && p in nodes && n <= |p|
    ensures p[..n] in nodes && (n < |p| ==> nodes[p[..n]] == Directory)
  {
    WayDown(nodes, [], p, n);
  }

  lemma {:induction false} WayDown(nodes: Nodes, root: Path, p: Path, n: nat)
    requires Closed(nodes, root) && p in nodes && root <= p && |root| <= n <= |p|
    ensures p[..n] in nodes && (n < |p| ==> nodes[p[..n]] == Directory)
    decreases |p| - n
  {
    if n == |p| {
      assert p[..n] == p;
    } else {
      WayDown(nodes, root, p, n + 1);
      assert Parent(p[..n + 1]) == p[..n] && root < p[..n + 1];
    }
  }

  /** How many links the system follows on the way of one path, as on Linux. */
  const MAX_LINKS: nat := 40

  /** Where `rest` leads from `at`, component by component: a link on the way is
      replaced by its target, and at most `links` are. */
  function Follow(nodes: Nodes, at: Path, rest: Path, links: nat): Option<Path>
    decreases links, |rest|
  {
    if rest == [] then Some(at)
    else
      var next := at + [rest[0]];
      if next !in nodes || !nodes[next].Link? then Follow(nodes, next, rest[1..], links)
      else if links == 0 then None
      else Follow(nodes, [], nodes[next].target + rest[1..], links - 1)
  }

  /** Where a path leads once its links are followed, which need not be an entry; too
      many links lead nowhere. */
  function End(nodes: Nodes, p: Path): Option<Path> {
    Follow(nodes, [], p, MAX_LINKS)
  }

  /** What a path stands for once its links are followed. */
  function Metadata(nodes: Nodes, p: Path): Option<Node> {
    var end := End(nodes, p);
    if end.None? || end.value !in nodes then None else Some(nodes[end.value])
  }

  /** No link on the way down to the path, nor at it. */
  ghost predicate Plain(nodes: Nodes, p: Path) {
    forall k :: 0 < k <= |p| && p[..k] in nodes ==> !nodes[p[..k]].Link?
  }

  lemma PlainSnoc(nodes: Nodes, at: Path, name: string)
    requires Plain(nodes, at) && (at + [name] in nodes ==> !nodes[at + [name]].Link?)
    ensures Plain(nodes, at + [name])
  {
    var next := at + [name];
    forall k | 0 < k <= |next| && next[..k] in nodes ensures !nodes[next[..k]].Link? {
      if k <= |at| {
        assert next[..k] == at[..k];
      } else {
        assert next[..k] == next;
      }
    }
  }

  /** Links lead to where no links are on the way. */
  lemma {:induction false} FollowPlain(nodes: Nodes, at: Path, rest: Path, links: nat)
    requires Plain(nodes, at)
    ensures var end := Follow(nodes, at, rest, links); end.Some? ==> Plain(nodes, end.value)
    decreases links, |rest|
  {
    hide Plain;
    if rest != [] {
      var next := at + [rest[0]];
      if next !in nodes || !nodes[next].Link? {
        PlainSnoc(nodes, at, rest[0]);
        FollowPlain(nodes, next, rest[1..], links);
      } else if links > 0 {
        NoneAbove(nodes);
        FollowPlain(nodes, [], nodes[next].target + rest[1..], links - 1);
      }
    }
  }

  lemma NoneAbove(nodes: Nodes)
    ensures Plain(nodes, [])
  {
  }

  /** Where nothing on the way is a link, a path leads to itself. */
  lemma {:induction false} PlainLeads(nodes: Nodes, at: Path, rest: Path, links: nat)
    requires Plain(nodes, at + rest)
    ensures Follow(nodes, at, rest, links) == Some(at + rest)
    decreases |rest|
  {
    if rest == [] {
      assert at + rest == at;
    } else {
      var next := at + [rest[0]];
      assert (at + rest)[..|at| + 1] == next;
      assert next + rest[1..] == at + rest;
      PlainLeads(nodes, next, rest[1..], links);
    }
  }

  /** A way that goes on without links from where its first part leads. */
  lemma {:induction false} FollowOn(nodes: Nodes, at: Path, a: Path, b: Path, links: nat)
    requires var end := Follow(nodes, at, a, links); end.Some? && Plain(nodes, end.value + b)
    ensures Follow(nodes, at, a + b, links) == Some(Follow(nodes, at, a, links).value + b)
    decreases links, |a|
  {
    hide Plain;
    if a == [] {
      assert a + b == b;
      PlainLeads(nodes, at, b, links);
    } else {
      var next := at + [a[0]];
      assert (a + b)[1..] == a[1..] + b;
      if next !in nodes || !nodes[next].Link? {
        FollowOn(nodes, next, a[1..], b, links);
      } else {
        Associative(nodes[next].target, a[1..], b);
        FollowOn(nodes, [], nodes[next].target + a[1..], b, links - 1);
      }
    }
  }

  /** A link met on the way is replaced by its target, which is read from the file
      system root, as long as links may be followed. */
  lemma {:induction false} LinkReplaced(nodes: Nodes, at: Path, p: Path, rest: Path, links: nat)
    requires p != [] && at + p in nodes && nodes[at + p].Link? && Plain(nodes, Parent(at + p))
    ensures Follow(nodes, at, p + rest, links) ==
            if links == 0 then None else Follow(nodes, [], nodes[at + p].target + rest, links - 1)
    decreases |p|
  {
    var next := at + [p[0]];
    assert (p + rest)[1..] == p[1..] + rest;
    if |p| == 1 {
      assert next == at + p && p[1..] + rest == rest;
    } else {
      assert next + p[1..] == at + p;
      assert Parent(at + p)[..|next|] == next;
      LinkReplaced(nodes, next, p[1..], rest, links);
    }
  }

  /** So a link leads to where its target is, and stands for what is there. */
  lemma LinkLeads(nodes: Nodes, p: Path, target: Path)
    requires WellFormed(nodes) && p in nodes && nodes[p] == Link(target)
    requires target in nodes && !nodes[target].Link?
    ensures End(nodes, p) == Some(target) && Metadata(nodes, p) == Some(nodes[target])
  {
    hide Follow, Plain;
    assert p != [];
    EntryPlain(nodes, p);
    EntryPlain(nodes, target);
    assert [] + p == p && p + [] == p && target + [] == target && [] + target == target;
    LinkReplaced(nodes, [], p, [], MAX_LINKS);
    PlainLeads(nodes, [], target, MAX_LINKS - 1);
  }

  /** What is found at a path when links on the way to it are followed, but not one
      at it. */
  function Lookup(nodes: Nodes, p: Path): Option<Node> {
    if p == [] then Metadata(nodes, p)
    else
      var parent := End(nodes, Parent(p));
      if parent.None? || parent.value + [p[|p| - 1]] !in nodes then None
      else Some(nodes[parent.value + [p[|p| - 1]]])
  }

  lemma EntryPlain(nodes: Nodes, p: Path)
    requires WellFormed(nodes) && p in nodes
    ensures p != [] ==> Plain(nodes, Parent(p))
    ensures !nodes[p].Link? ==> Plain(nodes, p)
  {
    forall k | 0 < k < |p| ensures p[..k] in nodes && nodes[p[..k]] == Directory {
      PrefixesAreDirectories(nodes, p, k);
    }
    assert p[..|p|] == p;
    if p != [] {
      forall k | 0 < k <= |Parent(p)| ensures Parent(p)[..k] == p[..k] {
      }
    }
  }

  /** Where an entry at or below `from` goes when `from` is moved. */
  function Moved(from: Path, to: Path, p: Path): Path
    requires from <= p
  {
    to + p[|from|..]
  }

  lemma MovedBack(from: Path, to: Path, p: Path)
    ensures from <= p ==> to <= Moved(from, to, p) && Moved(to, from, Moved(from, to, p)) == p
    ensures to <= p ==> from <= Moved(to, from, p) && Moved(from, to, Moved(to, from, p)) == p
  {
  }

  /** Paths have bounded length. */
  lemma {:induction false} Bounded(paths: set<Path>) returns (bound: nat)
    ensures forall p :: p in paths ==> |p| <= bound
    decreases |paths|
  {
    if paths == {} {
      bound := 0;
    } else {
      var p :| p in paths;
      bound := Bounded(paths - {p});
      if |p| > bound {
        bound := |p|;
      }
    }
  }
}
