/** Characters and strings as the Markdown parser sees them: the White_Space
    characters, UTF-8 widths, trimming, and splitting into lines. */
module Text {
  datatype Option<+T> = None | Some(value: T)

  /** The characters with the Unicode property White_Space. */
  predicate IsWhite(c: char) {
    var n := c as int;
    || 0x09 <= n <= 0x0D || n == 0x20 || n == 0x85 || n == 0xA0 || n == 0x1680
    || 0x2000 <= n <= 0x200A || n == 0x2028 || n == 0x2029 || n == 0x202F
    || n == 0x205F || n == 0x3000
  }

  predicate Blanks(s: string) {
    forall i :: 0 <= i < |s| ==> IsWhite(s[i])
  }

  predicate NotNewline(c: char) {
    c != '\n'
  }

  predicate IsLineEnd(c: char) {
    c == '\n' || c == '\r'
  }

  /** The number of bytes UTF-8 spends on a character. */
  function Width(c: char): nat {
    var n := c as int;
    if n < 0x80 then 1 else if n < 0x800 then 2 else if n < 0x10000 then 3 else 4
  }

  function ByteLen(s: string): nat {
    if s == "" then 0 else Width(s[0]) + ByteLen(s[1..])
  }

  /** The length of the longest prefix whose characters all satisfy `p`. */
  function Leading(s: string, p: char -> bool): (n: nat)
    ensures n <= |s|
    ensures forall i :: 0 <= i < n ==> p(s[i])
    ensures n < |s| ==> !p(s[n])
  {
    if s == "" || !p(s[0]) then 0 else 1 + Leading(s[1..], p)
  }

  /** What is left of the string without its longest suffix of `p` characters. */
  function Kept(s: string, p: char -> bool): (n: nat)
    ensures n <= |s|
    ensures forall i :: n <= i < |s| ==> p(s[i])
    ensures n > 0 ==> !p(s[n - 1])
  {
    if s == "" || !p(s[|s| - 1]) then |s| else Kept(s[..|s| - 1], p)
  }

  function TrimStart(s: string): string {
    s[Leading(s, IsWhite)..]
  }

  function TrimEnd(s: string, p: char -> bool): string {
    s[..Kept(s, p)]
  }

  function Trim(s: string): string {
    TrimEnd(TrimStart(s), IsWhite)
  }

  predicate All(s: string, c: char) {
    forall i :: 0 <= i < |s| ==> s[i] == c
  }

  function Repeat(c: char, n: nat): (s: string)
    ensures |s| == n && All(s, c)
  {
    seq(n, i => c)
  }

  function Flatten<T>(parts: seq<seq<T>>): seq<T> {
    if parts == [] then [] else parts[0] + Flatten(parts[1..])
  }

  lemma Associative<T>(a: seq<T>, b: seq<T>, c: seq<T>)
    ensures (a + b) + c == a + (b + c)
  {
  }

  lemma {:induction false} FlattenAppend<T>(a: seq<seq<T>>, b: seq<seq<T>>)
    ensures Flatten(a + b) == Flatten(a) + Flatten(b)
  {
    if a == [] {
      assert a + b == b;
    } else {
      FlattenAppend(a[1..], b);
      assert (a + b)[1..] == a[1..] + b;
      Associative(a[0], Flatten(a[1..]), Flatten(b));
    }
  }

  lemma FlattenSnoc<T>(a: seq<seq<T>>, x: seq<T>)
    ensures Flatten(a + [x]) == Flatten(a) + x
  {
    FlattenAppend(a, [x]);
    assert Flatten([x]) == x + Flatten<T>([]);
  }

  lemma FlattenLast<T>(parts: seq<seq<T>>)
    requires parts != []
    ensures Flatten(parts) == Flatten(parts[..|parts| - 1]) + parts[|parts| - 1]
  {
    FlattenSnoc(parts[..|parts| - 1], parts[|parts| - 1]);
    assert parts[..|parts| - 1] + [parts[|parts| - 1]] == parts;
  }

  /** The lines of a text, each with the newline that ends it. */
  function SplitInclusive(s: string): seq<string>
    decreases |s|
  {
    if s == "" then []
    else
      var n := Leading(s, NotNewline);
      var cut := if n < |s| then n + 1 else n;
      [s[..cut]] + SplitInclusive(s[cut..])
  }

  /** Splitting loses nothing, and no line is empty. */
  lemma {:induction false} SplitFlatten(s: string)
    ensures Flatten(SplitInclusive(s)) == s
    ensures forall i :: 0 <= i < |SplitInclusive(s)| ==> SplitInclusive(s)[i] != ""
    decreases |s|
  {
    if s != "" {
      var n := Leading(s, NotNewline);
      var cut := if n < |s| then n + 1 else n;
      SplitFlatten(s[cut..]);
      assert s[..cut] + s[cut..] == s;
    }
  }

  /** Whether a text stops at a line boundary. */
  predicate Whole(s: string) {
    s == "" || s[|s| - 1] == '\n'
  }

  lemma {:induction false} SplitFirst(a: string, b: string, n: nat)
    requires n == Leading(a, NotNewline) < |a|
    ensures SplitInclusive(a + b) == [a[..n + 1]] + SplitInclusive(a[n + 1..] + b)
  {
    hide Leading;
    LeadingIs(a + b, NotNewline, n);
    assert (a + b)[..n + 1] == a[..n + 1];
    assert (a + b)[n + 1..] == a[n + 1..] + b;
  }

  lemma {:induction false} SplitHead(a: string, n: nat)
    requires n == Leading(a, NotNewline) < |a|
    ensures SplitInclusive(a) == [a[..n + 1]] + SplitInclusive(a[n + 1..])
  {
    hide Leading;
  }

  /** A text that stops at a line boundary has a newline, and so does what is left
      after its first line. */
  lemma WholeRest(a: string, n: nat)
    requires a != "" && Whole(a) && n == Leading(a, NotNewline)
    ensures n < |a| && Whole(a[n + 1..])
  {
    hide Leading;
    assert !NotNewline(a[|a| - 1]);
  }

  lemma NothingSplit()
    ensures SplitInclusive("") == []
  {
  }

  /** Splitting at a line boundary splits the lines. */
  lemma {:induction false} SplitAppend(a: string, b: string)
    requires Whole(a)
    ensures SplitInclusive(a + b) == SplitInclusive(a) + SplitInclusive(b)
    decreases |a|
  {
    hide SplitInclusive, Leading, Whole;
    if a == "" {
      NothingSplit();
      assert a + b == b;
    } else {
      var n := Leading(a, NotNewline);
      WholeRest(a, n);
      var line, rest := a[..n + 1], a[n + 1..];
      SplitAppend(rest, b);
      SplitFirst(a, b, n);
      SplitHead(a, n);
      Associative([line], SplitInclusive(rest), SplitInclusive(b));
    }
  }

  /** The run is the only length with its properties. */
  lemma LeadingIs(s: string, p: char -> bool, n: nat)
    requires n <= |s| && (forall i :: 0 <= i < n ==> p(s[i]))
    requires n < |s| ==> !p(s[n])
    ensures Leading(s, p) == n
  {
    var m := Leading(s, p);
  }

  lemma KeptIs(s: string, p: char -> bool, n: nat)
    requires n <= |s| && (forall i :: n <= i < |s| ==> p(s[i]))
    requires n > 0 ==> !p(s[n - 1])
    ensures Kept(s, p) == n
  {
    var m := Kept(s, p);
  }

  lemma LeadingAppend(a: string, b: string, p: char -> bool)
    requires Leading(a, p) < |a|
    ensures Leading(a + b, p) == Leading(a, p)
  {
    LeadingIs(a + b, p, Leading(a, p));
  }
}
