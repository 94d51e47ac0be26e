/** Listings in path order: whatever order a directory is read in, the answer is the
    same. */
module FileOrder {
  import opened Text
  import opened FileTree
  import opened FileWalk

  /** Lexicographic order. */
  predicate Lex<T(==)>(less: (T, T) -> bool, a: seq<T>, b: seq<T>) {
    if b == [] then false
    else if a == [] then true
    else less(a[0], b[0]) || (a[0] == b[0] && Lex(less, a[1..], b[1..]))
  }

  /** Any two different values are ordered one way only, and the order is transitive. */
  ghost predicate StrictOrder<T(!new)>(less: (T, T) -> bool) {
    && (forall x, y :: less(x, y) ==> x != y && !less(y, x))
    && (forall x, y :: x != y ==> less(x, y) || less(y, x))
    && (forall x, y, z :: less(x, y) && less(y, z) ==> less(x, z))
  }

  lemma {:induction false} LexOneWay<T(!new)>(less: (T, T) -> bool, a: seq<T>, b: seq<T>)
    requires StrictOrder(less)
    ensures Lex(less, a, b) ==> a != b && !Lex(less, b, a)
    ensures a != b ==> Lex(less, a, b) || Lex(less, b, a)
    decreases |a|
  {
    if a != [] && b != [] {
      LexOneWay(less, a[1..], b[1..]);
      assert a == [a[0]] + a[1..] && b == [b[0]] + b[1..];
    }
  }

  lemma {:induction false} LexTransitive<T(!new)>(less: (T, T) -> bool, a: seq<T>, b: seq<T>, c: seq<T>)
    requires StrictOrder(less) && Lex(less, a, b) && Lex(less, b, c)
    ensures Lex(less, a, c)
    decreases |a|
  {
    if a != [] && a[0] == b[0] && b[0] == c[0] {
      LexTransitive(less, a[1..], b[1..], c[1..]);
    }
  }

  /** The first difference is at `k`, and there `a` is less. */
  predicate DiffersAt<T(==)>(less: (T, T) -> bool, a: seq<T>, b: seq<T>, k: nat) {
    k < |a| && k < |b| && a[..k] == b[..k] && less(a[k], b[k])
  }

  lemma DiffersLater<T>(less: (T, T) -> bool, a: seq<T>, b: seq<T>, k: nat)
    requires a != [] && b != []
    ensures DiffersAt(less, a, b, 0) <==> less(a[0], b[0])
    ensures DiffersAt(less, a, b, k + 1) <==> a[0] == b[0] && DiffersAt(less, a[1..], b[1..], k)
  {
    if k < |a| - 1 && k < |b| - 1 {
      assert a[..k + 1] == [a[0]] + a[1..][..k] && b[..k + 1] == [b[0]] + b[1..][..k];
    }
  }

  /** What lexicographic order says: the first difference decides, and a beginning
      comes before what it begins. */
  lemma {:induction false} LexDecides<T>(less: (T, T) -> bool, a: seq<T>, b: seq<T>)
    ensures Lex(less, a, b) <==> a < b || exists k: nat :: DiffersAt(less, a, b, k)
    decreases |a|
  {
    if a != [] && b != [] {
      hide DiffersAt;
      LexDecides(less, a[1..], b[1..]);
      assert a == [a[0]] + a[1..] && b == [b[0]] + b[1..];
      DiffersLater(less, a, b, 0);
      forall k: nat ensures DiffersAt(less, a, b, k + 1) <==> a[0] == b[0] && DiffersAt(less, a[1..], b[1..], k) {
        DiffersLater(less, a, b, k);
      }
      if k: nat :| DiffersAt(less, a, b, k) {
        if k > 0 {
          DiffersLater(less, a, b, k - 1);
        }
      }
      if k: nat :| a[0] == b[0] && DiffersAt(less, a[1..], b[1..], k) {
        assert DiffersAt(less, a, b, k + 1);
      }
    }
  }

  function CharLess(): (char, char) -> bool {
    (x, y) => x < y
  }

  function NameLess(): (string, string) -> bool {
    (x, y) => Lex(CharLess(), x, y)
  }

  /** Paths compare component by component, and components character by character. */
  predicate Before(p: Path, q: Path) {
    Lex(NameLess(), p, q)
  }

  lemma NamesOrdered()
    ensures StrictOrder(NameLess())
  {
    assert StrictOrder(CharLess());
    forall x, y ensures NameLess()(x, y) ==> x != y && !NameLess()(y, x)
      ensures x != y ==> NameLess()(x, y) || NameLess()(y, x)
    {
      LexOneWay(CharLess(), x, y);
    }
    forall x, y, z | NameLess()(x, y) && NameLess()(y, z) ensures NameLess()(x, z) {
      LexTransitive(CharLess(), x, y, z);
    }
  }

  /** Of two paths the one whose first different component has the smaller first
      different character comes first; a directory comes before what is in it, and
      a name before those it begins. */
  lemma PathOrder(p: Path, q: Path)
    ensures Before(p, q) <==>
              || p < q
              || exists k :: 0 <= k < |p| && k < |q| && p[..k] == q[..k] && NameBefore(p[k], q[k])
  {
    hide Lex;
    LexDecides(NameLess(), p, q);
    forall k: nat | k < |p| && k < |q| ensures NameLess()(p[k], q[k]) <==> NameBefore(p[k], q[k]) {
      NameOrder(p[k], q[k]);
    }
    if k :| 0 <= k < |p| && k < |q| && p[..k] == q[..k] && NameBefore(p[k], q[k]) {
      assert DiffersAt(NameLess(), p, q, k);
    }
  }

  ghost predicate NameBefore(a: string, b: string) {
    a < b || exists i :: 0 <= i < |a| && i < |b| && a[..i] == b[..i] && a[i] < b[i]
  }

  lemma NameOrder(a: string, b: string)
    ensures NameLess()(a, b) <==> NameBefore(a, b)
  {
    hide Lex;
    LexDecides(CharLess(), a, b);
    if i :| 0 <= i < |a| && i < |b| && a[..i] == b[..i] && a[i] < b[i] {
      assert DiffersAt(CharLess(), a, b, i);
    }
  }

  /** Path order is total and strict. */
  lemma PathsOrdered(p: Path, q: Path, r: Path)
    ensures Before(p, q) ==> p != q && !Before(q, p)
    ensures p != q ==> Before(p, q) || Before(q, p)
    ensures Before(p, q) && Before(q, r) ==> Before(p, r)
  {
    hide Lex, NameLess, StrictOrder;
    NamesOrdered();
    LexOneWay(NameLess(), p, q);
    if Before(p, q) && Before(q, r) {
      LexTransitive(NameLess(), p, q, r);
    }
  }

  ghost predicate Ascending(paths: seq<Path>) {
    forall i, j :: 0 <= i < j < |paths| ==> Before(paths[i], paths[j])
  }

  /** An ascending list is determined by its members. */
  lemma {:induction false} AscendingUnique(a: seq<Path>, b: seq<Path>)
    requires Ascending(a) && Ascending(b) && forall p :: p in a <==> p in b
    ensures a == b
    decreases |a|
  {
    hide Before;
    assert b != [] ==> b[0] in a;
    if a != [] {
      assert a[0] in b;
      FirstLeast(a, b);
      forall p ensures p in a[1..] <==> p in b[1..] {
        TailMembers(a, p);
        TailMembers(b, p);
      }
      AscendingUnique(a[1..], b[1..]);
      assert a == [a[0]] + a[1..] && b == [b[0]] + b[1..];
    }
  }

  lemma FirstLeast(a: seq<Path>, b: seq<Path>)
    requires a != [] && b != [] && Ascending(a) && Ascending(b) && a[0] in b && b[0] in a
    ensures a[0] == b[0]
  {
    hide Before;
    PathsOrdered(a[0], b[0], b[0]);
  }

  lemma TailMembers(a: seq<Path>, p: Path)
    requires a != [] && Ascending(a)
    ensures p in a[1..] <==> p in a && p != a[0]
  {
    hide Before;
    if p in a[1..] {
      PathsOrdered(a[0], p, p);
    }
    assert a == [a[0]] + a[1..];
  }

  /** Puts a path into its place. */
  method Insert(sorted: seq<Path>, p: Path) returns (r: seq<Path>)
    requires Ascending(sorted) && p !in sorted
    ensures Ascending(r) && forall q :: q in r <==> q in sorted || q == p
  {
    hide Before;
    var i := 0;
    while i < |sorted| && Before(sorted[i], p)
      invariant 0 <= i <= |sorted|
      invariant forall k :: 0 <= k < i ==> Before(sorted[k], p)
    {
      i := i + 1;
    }
    r := sorted[..i] + [p] + sorted[i..];
    assert sorted == sorted[..i] + sorted[i..];
    forall k | i <= k < |sorted| ensures Before(p, sorted[k]) {
      PathsOrdered(p, sorted[i], sorted[k]);
    }
  }

  method Sort(paths: seq<Path>) returns (sorted: seq<Path>)
    requires Distinct(paths)
    ensures Ascending(sorted) && forall p :: p in sorted <==> p in paths
  {
    hide Before;
    sorted := [];
    for i := 0 to |paths|
      invariant Ascending(sorted) && forall p :: p in sorted <==> p in paths[..i]
    {
      assert paths[..i + 1] == paths[..i] + [paths[i]];
      sorted := Insert(sorted, paths[i]);
    }
    assert paths[..|paths|] == paths;
  }

  /** The entries at depth `1..limit` below `root`, in path order. */
  method ListEntries(nodes: Nodes, root: Path, limit: Option<nat>) returns (r: Option<seq<Path>>)
    requires WellFormed(nodes)
    ensures r.None? <==> limit != Some(0) && !LeadsToDirectory(nodes, root)
    ensures r.Some? ==>
              && Ascending(r.value)
              && Members(r.value) == if limit.Some? then Within(Through(nodes, root), root, limit.value)
                                  else Below(Through(nodes, root), root)
  {
    hide Before, Ascending, Within, Below, Through, LeadsToDirectory;
    var found := Walk(nodes, root, limit);
    if found.None? {
      return None;
    }
    var sorted := Sort(found.value);
    assert Members(sorted) == Members(found.value);
    r := Some(sorted);
  }

  /** The entries below `root` that match and are not excluded, in path order. */
  method GlobEntries(nodes: Nodes, root: Path, pattern: Path -> bool, excludes: seq<Path -> bool>)
    returns (r: Option<seq<Path>>)
    requires WellFormed(nodes)
    ensures r.None? <==> !LeadsToDirectory(nodes, root)
    ensures r.Some? ==>
              && Ascending(r.value)
              && forall p :: p in r.value <==>
                   p in Below(Through(nodes, root), root) && pattern(p[|root|..]) && !Excluded(p[|root|..], excludes)
  {
    hide Before, Ascending, Below, Excluded, Through, LeadsToDirectory;
    var matched := Glob(nodes, root, pattern, excludes);
    if matched.None? {
      return None;
    }
    var sorted := Sort(matched.value);
    forall p ensures p in sorted <==> p in Members(matched.value) {
      MemberIs(matched.value, p);
    }
    r := Some(sorted);
  }
}
