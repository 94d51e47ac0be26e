/** Slug allocation: the anchor a heading text becomes, numbered on collision. */
module Slugs {
  import opened Text

  /** The Unicode tables the program takes from its standard library. Lowering a
      character always gives at least one character. */
  datatype Classes = Classes(isAlphanumeric: char -> bool, lower: char -> string) {
    ghost predicate Valid() {
      forall c {:trigger lower(c)} :: lower(c) != ""
    }
  }

  const DIGITS := "0123456789"

  function Decimal(n: nat): (s: string)
    ensures s != ""
    decreases n
  {
    (if n < 10 then "" else Decimal(n / 10)) + [DIGITS[n % 10]]
  }

  lemma DecimalLast(n: nat)
    ensures var s := Decimal(n);
            && s[|s| - 1] == DIGITS[n % 10]
            && s[..|s| - 1] == if n < 10 then "" else Decimal(n / 10)
  {
    var front := if n < 10 then "" else Decimal(n / 10);
    assert (front + [DIGITS[n % 10]])[..|front|] == front;
  }

  lemma DigitsDiffer(m: nat, n: nat)
    requires m < 10 && n < 10 && DIGITS[m] == DIGITS[n]
    ensures m == n
  {
  }

  lemma {:induction false} DecimalInjective(m: nat, n: nat)
    requires Decimal(m) == Decimal(n)
    ensures m == n
    decreases m
  {
    hide Decimal, DIGITS;
    DecimalLast(m);
    DecimalLast(n);
    DigitsDiffer(m % 10, n % 10);
    if m >= 10 && n >= 10 {
      DecimalInjective(m / 10, n / 10);
    }
  }

  /** The words of a text: its maximal runs of alphanumeric characters. */
  function Words(cls: Classes, text: string): (words: seq<string>)
    decreases |text|
  {
    if text == "" then []
    else if !cls.isAlphanumeric(text[0]) then Words(cls, text[1..])
    else
      var n := Leading(text, cls.isAlphanumeric);
      [text[..n]] + Words(cls, text[n..])
  }

  function Lowered(cls: Classes, word: string): string {
    if word == "" then "" else Lowered(cls, word[..|word| - 1]) + cls.lower(word[|word| - 1])
  }

  /** Lower-cased words joined by single hyphens. */
  function Joined(cls: Classes, words: seq<string>): string {
    if words == [] then ""
    else Linked(Joined(cls, words[..|words| - 1]), |words| > 1) + Lowered(cls, words[|words| - 1])
  }

  function Linked(front: string, more: bool): string {
    if more then front + "-" else front
  }

  /** The slug of a text before collisions are resolved. */
  function Base(cls: Classes, text: string): string {
    var joined := Joined(cls, Words(cls, text));
    if joined == "" then "section" else joined
  }

  predicate EndsInWord(cls: Classes, text: string) {
    text != "" && cls.isAlphanumeric(text[|text| - 1])
  }

  lemma {:induction false} WordsSkip(cls: Classes, text: string)
    requires text != "" && !cls.isAlphanumeric(text[0])
    ensures Words(cls, text) == Words(cls, text[1..])
  {
    hide Leading;
  }

  lemma {:induction false} WordsTake(cls: Classes, text: string, n: nat)
    requires 0 < n == Leading(text, cls.isAlphanumeric)
    ensures Words(cls, text) == [text[..n]] + Words(cls, text[n..])
  {
    hide Leading;
  }

  /** A text that is one word. */
  lemma OneWord(cls: Classes, text: string)
    requires text != "" && forall i :: 0 <= i < |text| ==> cls.isAlphanumeric(text[i])
    ensures Words(cls, text) == [text]
  {
    hide Words, Leading;
    LeadingIs(text, cls.isAlphanumeric, |text|);
    WordsTake(cls, text, |text|);
    NoneLeft(cls);
    assert text[..|text|] == text && text[|text|..] == "";
  }

  lemma NoneLeft(cls: Classes)
    ensures Words(cls, "") == []
  {
  }

  /** What one more character does to the words of a text. */
  ghost predicate Grown(cls: Classes, text: string, c: char, before: seq<string>, after: seq<string>) {
    && (!cls.isAlphanumeric(c) ==> after == before)
    && (cls.isAlphanumeric(c) && !EndsInWord(cls, text) ==> after == before + [[c]])
    && (EndsInWord(cls, text) ==> before != [])
    && (cls.isAlphanumeric(c) && EndsInWord(cls, text) ==>
          before != [] && after == before[..|before| - 1] + [before[|before| - 1] + [c]])
  }

  /** Words in front do not matter as long as the rest is not empty. */
  lemma GrownBehind(cls: Classes, front: seq<string>, text: string, rest: string, c: char,
                    before: seq<string>, after: seq<string>)
    requires Grown(cls, rest, c, before, after) && EndsInWord(cls, text) == EndsInWord(cls, rest)
    ensures Grown(cls, text, c, front + before, front + after)
  {
    Associative(front, before, [[c]]);
    if before != [] {
      var all := front + before;
      assert all[..|all| - 1] == front + before[..|before| - 1] && all[|all| - 1] == before[|before| - 1];
      Associative(front, before[..|before| - 1], [before[|before| - 1] + [c]]);
    }
  }

  lemma {:induction false} WordsSnoc(cls: Classes, text: string, c: char)
    ensures Grown(cls, text, c, Words(cls, text), Words(cls, text + [c]))
    decreases |text|
  {
    hide Words, Leading, Grown;
    var whole := text + [c];
    NoneLeft(cls);
    if text == "" {
      assert whole == [c] && whole[1..] == "";
      WordsAlone(cls, c);
    } else if !cls.isAlphanumeric(text[0]) {
      WordsSnoc(cls, text[1..], c);
      assert whole[1..] == text[1..] + [c];
      WordsSkip(cls, text);
      WordsSkip(cls, whole);
      GrownBehind(cls, [], text, text[1..], c, Words(cls, text[1..]), Words(cls, whole[1..]));
      assert [] + Words(cls, text) == Words(cls, text) && [] + Words(cls, whole) == Words(cls, whole);
    } else {
      var n := Leading(text, cls.isAlphanumeric);
      if n < |text| {
        LeadingAppend(text, [c], cls.isAlphanumeric);
        WordsSnoc(cls, text[n..], c);
        assert whole[..n] == text[..n] && whole[n..] == text[n..] + [c];
        WordsTake(cls, text, n);
        WordsTake(cls, whole, n);
        GrownBehind(cls, [text[..n]], text, text[n..], c, Words(cls, text[n..]), Words(cls, whole[n..]));
      } else {
        WordGrows(cls, text, c);
      }
    }
  }

  lemma WordsAlone(cls: Classes, c: char)
    ensures Grown(cls, "", c, [], Words(cls, [c]))
  {
    hide Words, Leading;
    NoneLeft(cls);
    if cls.isAlphanumeric(c) {
      OneWord(cls, [c]);
    } else {
      WordsSkip(cls, [c]);
      assert [c][1..] == "";
    }
  }

  lemma WordGrows(cls: Classes, word: string, c: char)
    requires word != "" && forall i :: 0 <= i < |word| ==> cls.isAlphanumeric(word[i])
    ensures Grown(cls, word, c, Words(cls, word), Words(cls, word + [c]))
  {
    hide Words, Leading;
    OneWord(cls, word);
    if cls.isAlphanumeric(c) {
      OneWord(cls, word + [c]);
      assert [word][..0] + [word + [c]] == [word + [c]];
    } else {
      var whole := word + [c];
      LeadingIs(whole, cls.isAlphanumeric, |word|);
      WordsTake(cls, whole, |word|);
      assert whole[..|word|] == word && whole[|word|..] == [c] && [c][1..] == "";
      WordsSkip(cls, [c]);
      NoneLeft(cls);
    }
  }

  /** A joined text is empty exactly when there are no words. */
  lemma {:induction false} JoinedEmpty(cls: Classes, words: seq<string>)
    requires cls.Valid() && forall i :: 0 <= i < |words| ==> words[i] != ""
    ensures Joined(cls, words) == "" <==> words == []
  {
    if |words| == 1 {
      var w := words[0];
      assert cls.lower(w[|w| - 1]) != "";
    }
  }

  function Numbered(base: string, n: nat): string {
    base + "-" + Decimal(n)
  }

  /** The first of `from`, `from + 1`, ... whose numbered slug is free. */
  ghost predicate FirstFree(base: string, taken: seq<string>, n: nat) {
    && n >= 1 && Numbered(base, n) !in taken
    && forall m :: 1 <= m < n ==> Numbered(base, m) in taken
  }

  /** A set holds no more elements than a sequence that lists them. */
  lemma {:induction false} ListedSet<T>(elements: set<T>, list: seq<T>)
    requires forall x :: x in elements ==> x in list
    ensures |elements| <= |list|
    decreases list
  {
    if list == [] {
      assert elements == {};
    } else {
      var rest := elements - {list[0]};
      forall x | x in rest ensures x in list[1..] {
        var i :| 0 <= i < |list| && list[i] == x;
        assert list[1..][i - 1] == x;
      }
      ListedSet(rest, list[1..]);
      if list[0] in elements {
        assert elements == rest + {list[0]};
      } else {
        assert elements == rest;
      }
    }
  }

  ghost function Candidates(base: string, k: nat): set<string> {
    set n | 1 <= n <= k :: Numbered(base, n)
  }

  lemma NumberedInjective(base: string, m: nat, n: nat)
    requires Numbered(base, m) == Numbered(base, n)
    ensures m == n
  {
    assert Numbered(base, m)[|base| + 1..] == Decimal(m);
    assert Numbered(base, n)[|base| + 1..] == Decimal(n);
    DecimalInjective(m, n);
  }

  lemma NumberedIsLonger(base: string, n: nat)
    ensures Numbered(base, n) != base
  {
    assert |Numbered(base, n)| > |base|;
  }

  lemma {:induction false} CandidatesDistinct(base: string, k: nat)
    ensures |Candidates(base, k)| == k && base !in Candidates(base, k)
  {
    hide Numbered;
    if k == 0 {
      assert Candidates(base, 0) == {};
    } else {
      CandidatesDistinct(base, k - 1);
      assert Candidates(base, k) == Candidates(base, k - 1) + {Numbered(base, k)};
      NumberedIsLonger(base, k);
      forall n | 1 <= n < k ensures Numbered(base, n) != Numbered(base, k) {
        if Numbered(base, n) == Numbered(base, k) {
          NumberedInjective(base, n, k);
        }
      }
    }
  }

  /** When a base is taken, some suffix no larger than the number of slugs
      already taken is free. */
  lemma SuffixBound(base: string, taken: seq<string>, k: nat)
    requires base in taken
    requires forall n :: 1 <= n <= k ==> Numbered(base, n) in taken
    ensures k < |taken|
  {
    CandidatesDistinct(base, k);
    var used := Candidates(base, k) + {base};
    ListedSet(used, taken);
  }

  /** The first free suffix, searching upwards from `n`. */
  function Search(base: string, taken: seq<string>, n: nat): (found: nat)
    requires n >= 1 && base in taken
    requires forall m :: 1 <= m < n ==> Numbered(base, m) in taken
    ensures FirstFree(base, taken, found) && found <= |taken|
    decreases |taken| + 1 - n
  {
    SuffixBound(base, taken, n - 1);
    if Numbered(base, n) !in taken then n else Search(base, taken, n + 1)
  }

  /** The slug a heading text gets when the slugs in `taken` are spoken for. */
  function SlugFor(cls: Classes, text: string, taken: seq<string>): string {
    var base := Base(cls, text);
    if base !in taken then base else Numbered(base, Search(base, taken, 1))
  }

  method Slugify(cls: Classes, text: string, taken: seq<string>) returns (slug: string)
    requires cls.Valid()
    ensures slug == SlugFor(cls, text, taken)
  {
    hide Words, Joined, EndsInWord, Decimal, Numbered;
    NoWords(cls, text);
    var base := "";
    var pending := false;
    for i := 0 to |text|
      invariant base == Joined(cls, Words(cls, text[..i]))
      invariant pending == (i > 0 && !EndsInWord(cls, text[..i]))
    {
      JoinedPrefix(cls, text, i);
      if cls.isAlphanumeric(text[i]) {
        if pending && base != "" {
          base := base + "-";
        }
        pending := false;
        base := base + cls.lower(text[i]);
      } else {
        pending := true;
      }
    }
    assert text[..|text|] == text;
    if base == "" {
      base := "section";
    }
    if base !in taken {
      return base;
    }
    var n := 1;
    while Numbered(base, n) in taken
      invariant n >= 1 && forall m :: 1 <= m < n ==> Numbered(base, m) in taken
      invariant Search(base, taken, n) == Search(base, taken, 1)
      decreases |taken| + 1 - n
    {
      SuffixBound(base, taken, n);
      n := n + 1;
    }
    slug := Numbered(base, n);
  }

  lemma {:induction false} WordsNonBlank(cls: Classes, text: string)
    ensures forall i :: 0 <= i < |Words(cls, text)| ==> Words(cls, text)[i] != ""
    decreases |text|
  {
    if text != "" {
      if cls.isAlphanumeric(text[0]) {
        WordsNonBlank(cls, text[Leading(text, cls.isAlphanumeric)..]);
      } else {
        WordsNonBlank(cls, text[1..]);
      }
    }
  }

  lemma JoinedLast(cls: Classes, front: seq<string>, word: string)
    ensures Joined(cls, front + [word]) == Linked(Joined(cls, front), front != []) + Lowered(cls, word)
  {
    assert (front + [word])[..|front|] == front;
  }

  lemma LoweredLast(cls: Classes, word: string, c: char)
    ensures Lowered(cls, word + [c]) == Lowered(cls, word) + cls.lower(c)
  {
    assert (word + [c])[..|word|] == word;
  }

  /** A longer last word lengthens the joined slug by the same lowered character. */
  lemma JoinedGrow(cls: Classes, front: seq<string>, word: string, c: char)
    ensures Joined(cls, front + [word + [c]]) == Joined(cls, front + [word]) + cls.lower(c)
  {
    hide Joined, Lowered, Linked;
    JoinedLast(cls, front, word);
    JoinedLast(cls, front, word + [c]);
    LoweredLast(cls, word, c);
  }

  lemma LoweredOne(cls: Classes, c: char)
    ensures Lowered(cls, [c]) == cls.lower(c)
  {
    var word := [c];
    assert word[..0] == "";
    calc {
      Lowered(cls, word);
      Lowered(cls, "") + cls.lower(c);
      cls.lower(c);
    }
  }

  lemma JoinedNew(cls: Classes, words: seq<string>, c: char)
    ensures Joined(cls, words + [[c]]) == Linked(Joined(cls, words), words != []) + cls.lower(c)
  {
    LoweredOne(cls, c);
    JoinedLast(cls, words, [c]);
  }

  /** One more character extends the joined slug the way the loop does. */
  lemma JoinedSnoc(cls: Classes, text: string, c: char)
    requires cls.Valid()
    ensures !cls.isAlphanumeric(c) ==>
              Joined(cls, Words(cls, text + [c])) == Joined(cls, Words(cls, text))
    ensures cls.isAlphanumeric(c) ==>
              var base := Joined(cls, Words(cls, text));
              Joined(cls, Words(cls, text + [c])) ==
              Linked(base, !EndsInWord(cls, text) && base != "") + cls.lower(c)
  {
    var words := Words(cls, text);
    WordsSnoc(cls, text, c);
    if cls.isAlphanumeric(c) {
      WordsNonBlank(cls, text);
      JoinedEmpty(cls, words);
      if EndsInWord(cls, text) {
        var front, last := words[..|words| - 1], words[|words| - 1];
        assert words == front + [last];
        JoinedGrow(cls, front, last, c);
      } else {
        JoinedNew(cls, words, c);
      }
    }
  }

  lemma NoWords(cls: Classes, text: string)
    ensures Joined(cls, Words(cls, text[..0])) == "" == Joined(cls, [])
  {
  }

  lemma JoinedPrefix(cls: Classes, text: string, i: nat)
    requires cls.Valid() && i < |text|
    ensures var base := Joined(cls, Words(cls, text[..i]));
            Joined(cls, Words(cls, text[..i + 1])) ==
            if !cls.isAlphanumeric(text[i]) then base
            else Linked(base, !EndsInWord(cls, text[..i]) && base != "") + cls.lower(text[i])
    ensures EndsInWord(cls, text[..i + 1]) == cls.isAlphanumeric(text[i])
  {
    hide Words, Joined, Linked;
    assert text[..i + 1] == text[..i] + [text[i]];
    JoinedSnoc(cls, text[..i], text[i]);
  }

  /** A slug is always free. It is the base as long as that is free, and otherwise the
      base with the smallest free suffix, which never exceeds the number of slugs
      taken. */
  lemma SlugIsFree(cls: Classes, text: string, taken: seq<string>)
    ensures var base, slug := Base(cls, text), SlugFor(cls, text, taken);
            && slug !in taken
            && (base !in taken ==> slug == base)
            && (base in taken ==>
                  exists n: nat :: FirstFree(base, taken, n) && n <= |taken| && slug == Numbered(base, n))
  {
    var base := Base(cls, text);
    if base in taken {
      assert FirstFree(base, taken, Search(base, taken, 1));
    }
  }

  /** A text without an alphanumeric character has the slug `section`, and a second
      heading of the same text has the first one's slug with `-1` behind. */
  lemma SlugExamples(cls: Classes, text: string)
    ensures (forall c :: c in text ==> !cls.isAlphanumeric(c)) ==> SlugFor(cls, text, []) == "section"
    ensures SlugFor(cls, text, [SlugFor(cls, text, [])]) == SlugFor(cls, text, []) + "-1"
  {
    hide Words, Joined, Decimal;
    var base := Base(cls, text);
    OneDecimal();
    if forall c :: c in text ==> !cls.isAlphanumeric(c) {
      BlankWords(cls, text);
      NoWords(cls, "");
    }
    NumberedIsLonger(base, 1);
    assert Search(base, [base], 1) == 1;
    assert base + "-" + "1" == base + "-1";
  }

  lemma OneDecimal()
    ensures Decimal(1) == "1"
  {
  }

  lemma {:induction false} BlankWords(cls: Classes, text: string)
    requires forall c :: c in text ==> !cls.isAlphanumeric(c)
    ensures Words(cls, text) == []
    decreases |text|
  {
    if text != "" {
      BlankWords(cls, text[1..]);
    }
  }
}
