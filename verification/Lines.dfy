/** The client's incremental line splitter. */
module Lines {
  import opened Text

  /** The length of the separator at `i`: two for `\r\n`, one for a lone `\n` or `\r`. */
  function SeparatorAt(text: string, i: nat): (n: nat)
    requires i < |text|
    ensures 1 <= n <= 2 && i + n <= |text|
  {
    if text[i] == '\r' && i + 1 < |text| && text[i + 1] == '\n' then 2 else 1
  }

  predicate NotSeparator(c: char) {
    c != '\n' && c != '\r'
  }

  /** A whole text split at `\n`, `\r\n` and lone `\r`; a final separator adds no line. */
  function Split(text: string): seq<string>
    decreases |text|
  {
    if text == "" then []
    else
      var i := Leading(text, NotSeparator);
      if i == |text| then [text]
      else [text[..i]] + Split(text[i + SeparatorAt(text, i)..])
  }

  /** The lines a text terminates and the tail to keep; a final `\r` is held back. */
  function Taken(text: string): (string, seq<string>)
    decreases |text|
  {
    var i := Leading(text, NotSeparator);
    if i == |text| || (text[i] == '\r' && i + 1 == |text|) then (text, [])
    else
      var (rest, lines) := Taken(text[i + SeparatorAt(text, i)..]);
      (rest, [text[..i]] + lines)
  }

  method TakeLines(buffer: string, chunk: string) returns (tail: string, lines: seq<string>)
    ensures (tail, lines) == Taken(buffer + chunk)
  {
    hide Taken, Leading;
    var text := buffer + chunk;
    lines := [];
    var start := 0;
    var index := 0;
    assert text[0..] == text && [] + Taken(text).1 == Taken(text).1;
    while index < |text|
      invariant 0 <= start <= index <= |text|
      invariant forall i :: start <= i < index ==> NotSeparator(text[i])
      invariant Taken(text).0 == Taken(text[start..]).0
      invariant Taken(text).1 == lines + Taken(text[start..]).1
      decreases |text| - index
    {
      var c := text[index];
      if NotSeparator(c) {
        index := index + 1;
        continue;
      }
      TakenAt(text, start, index);
      if c == '\r' && index + 1 == |text| {
        break;
      }
      Associative(lines, [text[start..index]], Taken(text[index + SeparatorAt(text, index)..]).1);
      lines := lines + [text[start..index]];
      index := index + if c == '\r' && text[index + 1] == '\n' then 1 else 0;
      start := index + 1;
      index := index + 1;
    }
    TakenAt(text, start, index);
    assert lines + [] == lines;
    tail := text[start..];
  }

  /** What is taken from `start` when the first separator after it is at `i`. */
  lemma TakenAt(text: string, start: nat, i: nat)
    requires start <= i <= |text|
    requires forall j :: start <= j < i ==> NotSeparator(text[j])
    requires i < |text| ==> !NotSeparator(text[i])
    ensures i == |text| || (text[i] == '\r' && i + 1 == |text|) ==>
              Taken(text[start..]) == (text[start..], [])
    ensures i < |text| && !(text[i] == '\r' && i + 1 == |text|) ==>
              var (rest, lines) := Taken(text[i + SeparatorAt(text, i)..]);
              Taken(text[start..]) == (rest, [text[start..i]] + lines)
  {
    hide Leading;
    var suffix := text[start..];
    LeadingIs(suffix, NotSeparator, i - start);
    if i < |text| {
      var n := SeparatorAt(text, i);
      assert SeparatorAt(suffix, i - start) == n;
      assert suffix[..i - start] == text[start..i];
      assert suffix[i - start + n..] == text[i + n..];
    }
  }

  function EndLines(buffer: string): seq<string> {
    if buffer == "" then []
    else [if buffer[|buffer| - 1] == '\r' then buffer[..|buffer| - 1] else buffer]
  }

  /** Feeding chunks in turn: the lines they terminate, then those the end completes. */
  function Streamed(buffer: string, chunks: seq<string>): seq<string>
    decreases |chunks|
  {
    if chunks == [] then EndLines(buffer)
    else
      var (tail, lines) := Taken(buffer + chunks[0]);
      lines + Streamed(tail, chunks[1..])
  }

  /** A carried buffer holds no `\n`, and `\r` only as its last character. */
  ghost predicate Carried(buffer: string) {
    forall i :: 0 <= i < |buffer| ==>
                  buffer[i] != '\n' && (buffer[i] == '\r' ==> i == |buffer| - 1)
  }

  lemma {:induction false} TakenCarries(text: string)
    ensures Carried(Taken(text).0)
    decreases |text|
  {
    var i := Leading(text, NotSeparator);
    if !(i == |text| || (text[i] == '\r' && i + 1 == |text|)) {
      TakenCarries(text[i + SeparatorAt(text, i)..]);
    }
  }

  lemma {:induction false} SplitAt(text: string, i: nat)
    requires i < |text| && i == Leading(text, NotSeparator)
    ensures Split(text) == [text[..i]] + Split(text[i + SeparatorAt(text, i)..])
  {
    hide Leading, SeparatorAt;
  }

  lemma SlicesExtend(text: string, more: string, i: nat, j: nat)
    requires i <= j <= |text|
    ensures (text + more)[..i] == text[..i] && (text + more)[j..] == text[j..] + more
  {
  }

  /** Taking lines early does not change the lines of the text, whatever follows. */
  lemma {:induction false} TakenSplits(text: string, more: string)
    ensures Split(text + more) == Taken(text).1 + Split(Taken(text).0 + more)
    decreases |text|
  {
    hide Split, Leading;
    var i := Leading(text, NotSeparator);
    if i == |text| || (text[i] == '\r' && i + 1 == |text|) {
      assert [] + Split(text + more) == Split(text + more);
    } else {
      var n := SeparatorAt(text, i);
      var rest := text[i + n..];
      LeadingAppend(text, more, NotSeparator);
      assert SeparatorAt(text + more, i) == n;
      SlicesExtend(text, more, i, i + n);
      SplitAt(text + more, i);
      TakenSplits(rest, more);
      Associative([text[..i]], Taken(rest).1, Split(Taken(rest).0 + more));
    }
  }

  lemma SplitNone()
    ensures Split("") == []
  {
  }

  lemma EndSplits(buffer: string)
    requires Carried(buffer)
    ensures EndLines(buffer) == Split(buffer)
  {
    hide Leading;
    if buffer != "" {
      var last := |buffer| - 1;
      if buffer[last] == '\r' {
        LeadingIs(buffer, NotSeparator, last);
        SplitAt(buffer, last);
        assert buffer[last + SeparatorAt(buffer, last)..] == "";
        assert Split("") == [];
      } else {
        LeadingIs(buffer, NotSeparator, |buffer|);
      }
    }
  }

  /** Feeding a text in any chunks and ending gives the lines of the whole text. */
  lemma {:induction false} StreamedIsSplit(buffer: string, chunks: seq<string>)
    requires Carried(buffer)
    ensures Streamed(buffer, chunks) == Split(buffer + Flatten(chunks))
    decreases |chunks|
  {
    hide Split, Taken, EndLines, Carried;
    if chunks == [] {
      EndSplits(buffer);
      assert buffer + Flatten(chunks) == buffer;
    } else {
      var text, more := buffer + chunks[0], Flatten(chunks[1..]);
      Associative(buffer, chunks[0], more);
      TakenCarries(text);
      TakenSplits(text, more);
      StreamedIsSplit(Taken(text).0, chunks[1..]);
    }
  }

  function Terminated(lines: seq<string>, separator: string): string {
    if lines == [] then "" else lines[0] + separator + Terminated(lines[1..], separator)
  }

  /** Lines free of separators come back from a text that ends each with any one
      of the three separators. */
  lemma {:induction false} SplitTerminated(lines: seq<string>, separator: string)
    requires separator == "\n" || separator == "\r\n" || separator == "\r"
    requires forall i :: 0 <= i < |lines| ==> forall c :: c in lines[i] ==> NotSeparator(c)
    ensures Split(Terminated(lines, separator)) == lines
    ensures lines != [] ==> Terminated(lines, separator)[0] != '\n' || separator == "\n"
    decreases |lines|
  {
    hide Split, Leading;
    SplitNone();
    if lines != [] {
      var line, rest := lines[0], Terminated(lines[1..], separator);
      var text := line + separator + rest;
      SplitTerminated(lines[1..], separator);
      LeadingIs(text, NotSeparator, |line|);
      assert SeparatorAt(text, |line|) == |separator|;
      assert text[..|line|] == line && text[|line| + |separator|..] == rest;
      SplitAt(text, |line|);
      assert [line] + lines[1..] == lines;
    }
  }

  /** And so does a last line that nothing ends. */
  lemma {:induction false} SplitUnterminated(lines: seq<string>, separator: string, last: string)
    requires separator == "\n" || separator == "\r\n" || separator == "\r"
    requires forall i :: 0 <= i < |lines| ==> forall c :: c in lines[i] ==> NotSeparator(c)
    requires last != "" && forall c :: c in last ==> NotSeparator(c)
    ensures Split(Terminated(lines, separator) + last) == lines + [last]
    ensures (Terminated(lines, separator) + last)[0] != '\n' || separator == "\n"
    decreases |lines|
  {
    hide Split, Leading;
    if lines == [] {
      assert Terminated(lines, separator) + last == last;
      LeadingIs(last, NotSeparator, |last|);
      SplitWhole(last);
    } else {
      var line, rest := lines[0], Terminated(lines[1..], separator) + last;
      var text := line + separator + rest;
      SplitUnterminated(lines[1..], separator, last);
      LeadingIs(text, NotSeparator, |line|);
      assert SeparatorAt(text, |line|) == |separator|;
      assert text[..|line|] == line && text[|line| + |separator|..] == rest;
      assert Terminated(lines, separator) + last == text;
      SplitAt(text, |line|);
      assert lines + [last] == [line] + (lines[1..] + [last]);
    }
  }

  lemma SplitWhole(text: string)
    requires text != "" && Leading(text, NotSeparator) == |text|
    ensures Split(text) == [text]
  {
    hide Leading;
  }

  /** A text without its line ends. */
  function Kernel(text: string): string {
    if text == "" then "" else Visible(text[0]) + Kernel(text[1..])
  }

  function Visible(c: char): string {
    if c == '\n' || c == '\r' then "" else [c]
  }

  lemma {:induction false} KernelStep(text: string)
    requires text != ""
    ensures Kernel(text) == Visible(text[0]) + Kernel(text[1..])
  {
    hide Visible;
  }

  lemma {:induction false} KernelAppend(a: string, b: string)
    ensures Kernel(a + b) == Kernel(a) + Kernel(b)
    decreases |a|
  {
    hide Kernel, Visible;
    NothingKept();
    if a == "" {
      assert a + b == b;
    } else {
      KernelAppend(a[1..], b);
      KernelStep(a);
      KernelStep(a + b);
      assert (a + b)[1..] == a[1..] + b;
      Associative(Visible(a[0]), Kernel(a[1..]), Kernel(b));
    }
  }

  lemma {:induction false} KernelSame(text: string)
    requires forall i :: 0 <= i < |text| ==> NotSeparator(text[i])
    ensures Kernel(text) == text
    decreases |text|
  {
    if text != "" {
      KernelSame(text[1..]);
    }
  }

  /** The lines hold no line end, and together they are the text without its line ends. */
  lemma {:induction false} SplitKeeps(text: string)
    ensures Flatten(Split(text)) == Kernel(text)
    ensures forall line :: line in Split(text) ==> '\n' !in line && '\r' !in line
    decreases |text|
  {
    hide Leading, Split, Kernel, SeparatorAt, Flatten;
    var i := Leading(text, NotSeparator);
    if text == "" {
      NothingKept();
    } else if i == |text| {
      SplitWhole(text);
      KernelSame(text);
      FlattenAlone(text);
    } else {
      var n := SeparatorAt(text, i);
      var line, rest := text[..i], text[i + n..];
      SplitKeeps(rest);
      SplitAt(text, i);
      KernelSame(line);
      SeparatorKernel(text, i);
      assert text == line + (text[i..i + n] + rest);
      KernelAppend(text[i..i + n], rest);
      KernelAppend(line, text[i..i + n] + rest);
      FlattenAppend([line], Split(rest));
      FlattenAlone(line);
    }
  }

  lemma NothingKept()
    ensures Split("") == [] && Kernel("") == "" && Flatten<char>([]) == ""
  {
  }

  lemma FlattenAlone(line: string)
    ensures Flatten([line]) == line
  {
    assert [line][1..] == [];
  }

  lemma SeparatorKernel(text: string, i: nat)
    requires i < |text| && !NotSeparator(text[i])
    ensures Kernel(text[i..i + SeparatorAt(text, i)]) == ""
  {
    var n := SeparatorAt(text, i);
    var ends := text[i..i + n];
    assert ends[0] == text[i] && Kernel("") == "";
    if n == 2 {
      assert ends[1..][0] == '\n' && ends[1..][1..] == "";
      assert Kernel(ends[1..]) == "" + Kernel(ends[1..][1..]);
    } else {
      assert ends[1..] == "";
    }
  }
}
