/** Configured strings with path placeholders, parsed once into segments. */
module Templates {
  import opened Text

  datatype Placeholder = PluginRoot | PluginData

  datatype Segment = Literal(text: string) | Anchor(placeholder: Placeholder)

  datatype Anchors = Anchors(pluginRoot: string, pluginData: string) {
    function PathOf(p: Placeholder): string {
      match p
      case PluginRoot => pluginRoot
      case PluginData => pluginData
    }
  }

  function Spelling(p: Placeholder): string {
    match p
    case PluginRoot => "${PLUGIN_ROOT}"
    case PluginData => "${PLUGIN_DATA}"
  }

  /** A spelling opens with `${`, holds no other `$`, and tells the two apart. */
  lemma SpellingShape(p: Placeholder)
    ensures |Spelling(p)| == 14 && Spelling(p)[0] == '$' && Spelling(p)[1] == '{'
    ensures forall i :: 1 <= i < 14 ==> Spelling(p)[i] != '$'
    ensures Spelling(PluginRoot)[9] != Spelling(PluginData)[9]
  {
  }

  /** The placeholder a text starts with. */
  function At(s: string): (p: Option<Placeholder>) {
    if Spelling(PluginRoot) <= s then Some(PluginRoot)
    else if Spelling(PluginData) <= s then Some(PluginData)
    else None
  }

  lemma AtShape(s: string)
    ensures At(s).Some? ==>
              && |s| >= 14 && s[0] == '$' && s[1] == '{' && Spelling(At(s).value) <= s
              && forall i :: 1 <= i < 14 ==> s[i] != '$'
  {
    if At(s).Some? {
      SpellingShape(At(s).value);
    }
  }

  function Pending(literal: string): seq<Segment> {
    if literal == "" then [] else [Literal(literal)]
  }

  /** The segments of `literal + rest`, where `literal` is already known to be text. */
  function Segments(literal: string, rest: string): seq<Segment>
    decreases |rest|
  {
    if rest == "" then Pending(literal)
    else
      match At(rest)
      case Some(p) =>
        SpellingShape(p);
        Pending(literal) + [Anchor(p)] + Segments("", rest[14..])
      case None => Segments(literal + [rest[0]], rest[1..])
  }

  /** The segments of a configured string; an empty one is an empty literal. */
  function Parsed(raw: string): seq<Segment> {
    var segments := Segments("", raw);
    if segments == [] then [Literal("")] else segments
  }

  function Spelled(segments: seq<Segment>): string {
    if segments == [] then ""
    else
      (match segments[0]
       case Literal(text) => text
       case Anchor(p) => Spelling(p))
      + Spelled(segments[1..])
  }

  /** No placeholder starts at any of the first `n` positions. */
  ghost predicate Plain(s: string, n: nat) {
    n <= |s| && forall i :: 0 <= i < n ==> At(s[i..]).None?
  }

  /** Literals are nonempty, contain no placeholder and never touch. */
  ghost predicate Separated(segments: seq<Segment>) {
    && (forall i :: 0 <= i < |segments| && segments[i].Literal? ==>
          segments[i].text != "" && Plain(segments[i].text, |segments[i].text|))
    && (forall i :: 0 <= i < |segments| - 1 ==> segments[i].Anchor? || segments[i + 1].Anchor?)
  }

  ghost predicate Canonical(segments: seq<Segment>) {
    segments == [Literal("")] || (segments != [] && Separated(segments))
  }

  lemma SegmentsAt(literal: string, rest: string, p: Placeholder)
    requires At(rest) == Some(p)
    ensures |rest| >= 14
    ensures Segments(literal, rest) == (Pending(literal) + [Anchor(p)]) + Segments("", rest[14..])
  {
    AtShape(rest);
  }

  lemma SegmentsSkip(literal: string, rest: string)
    requires rest != "" && At(rest).None?
    ensures Segments(literal, rest) == Segments(literal + [rest[0]], rest[1..])
  {
    hide At;
  }

  lemma PlainStep(rest: string, n: nat)
    requires n > 0 && Plain(rest, n)
    ensures n <= |rest| && At(rest).None? && Plain(rest[1..], n - 1)
  {
    hide At;
    assert rest[0..] == rest;
    forall i | 0 <= i < n - 1 ensures At(rest[1..][i..]).None? {
      assert rest[1..][i..] == rest[i + 1..];
    }
  }

  /** Where no placeholder starts, characters only join the literal. */
  lemma {:induction false} SegmentsPlain(literal: string, rest: string, n: nat)
    requires n <= |rest| && Plain(rest, n)
    ensures Segments(literal, rest) == Segments(literal + rest[..n], rest[n..])
    decreases n
  {
    hide At, Segments, Plain;
    if n == 0 {
      assert literal + rest[..0] == literal;
    } else {
      PlainStep(rest, n);
      SegmentsSkip(literal, rest);
      SegmentsPlain(literal + [rest[0]], rest[1..], n - 1);
      PlainSlices(literal, rest, n);
    }
  }

  lemma PlainSlices(literal: string, rest: string, n: nat)
    requires 0 < n <= |rest|
    ensures (literal + [rest[0]]) + rest[1..][..n - 1] == literal + rest[..n]
    ensures rest[1..][n - 1..] == rest[n..]
  {
  }

  /** The first `${` at or after the start. */
  function FindDollar(s: string): (at: Option<nat>)
    ensures at.Some? ==> at.value + 2 <= |s| && s[at.value] == '$' && s[at.value + 1] == '{'
    ensures at.Some? ==> forall i :: 0 <= i < at.value ==> !(s[i] == '$' && s[i + 1] == '{')
    ensures at.None? ==> forall i :: 0 <= i < |s| - 1 ==> !(s[i] == '$' && s[i + 1] == '{')
  {
    if |s| < 2 then None
    else if s[0] == '$' && s[1] == '{' then Some(0)
    else
      match FindDollar(s[1..])
      case None => None
      case Some(i) => Some(i + 1)
  }

  lemma NoDollarIsPlain(s: string, n: nat)
    requires n <= |s|
    requires forall i :: 0 <= i < n && i + 1 < |s| ==> !(s[i] == '$' && s[i + 1] == '{')
    ensures Plain(s, n)
  {
    hide At;
    forall i | 0 <= i < n ensures At(s[i..]).None? {
      AtShape(s[i..]);
    }
  }

  method Parse(raw: string) returns (segments: seq<Segment>)
    ensures segments == Parsed(raw)
  {
    hide At, Segments, FindDollar, Plain;
    segments := [];
    var literal := "";
    var rest := raw;
    var dollar := FindDollar(rest);
    while dollar.Some?
      invariant dollar == FindDollar(rest)
      invariant segments + Segments(literal, rest) == Segments("", raw)
      decreases |rest|
    {
      var before, from := rest[..dollar.value], rest[dollar.value..];
      NoDollarIsPlain(rest, dollar.value);
      SegmentsPlain(literal, rest, dollar.value);
      literal := literal + before;
      match At(from) {
        case Some(p) =>
          SegmentsAt(literal, from, p);
          SpellingShape(p);
          Associative(segments, Pending(literal) + [Anchor(p)], Segments("", from[14..]));
          Associative(segments, Pending(literal), [Anchor(p)]);
          if literal != "" {
            segments := segments + [Literal(literal)];
            literal := "";
          } else {
            assert segments + [] == segments;
          }
          segments := segments + [Anchor(p)];
          rest := from[|Spelling(p)|..];
        case None =>
          BraceIsPlain(from);
          SegmentsPlain(literal, from, 2);
          assert from[..2] == "${";
          literal := literal + "${";
          rest := from[2..];
      }
      dollar := FindDollar(rest);
    }
    NoDollarIsPlain(rest, |rest|);
    SegmentsPlain(literal, rest, |rest|);
    assert rest[..|rest|] == rest && rest[|rest|..] == "";
    literal := literal + rest;
    SegmentsEnd(literal);
    assert segments + [] == segments;
    if literal != "" || segments == [] {
      segments := segments + [Literal(literal)];
    }
  }

  lemma SegmentsEnd(literal: string)
    ensures Segments(literal, "") == Pending(literal)
  {
  }

  lemma BraceIsPlain(from: string)
    requires |from| >= 2 && from[1] != '$' && At(from).None?
    ensures Plain(from, 2)
  {
    hide At;
    assert from[0..] == from;
    AtShape(from[1..]);
  }

  lemma {:induction false} SegmentsSpell(literal: string, rest: string)
    ensures Spelled(Segments(literal, rest)) == literal + rest
    decreases |rest|
  {
    hide At, Segments, Spelled;
    SpelledCases(literal);
    SegmentsEnd(literal);
    if rest == "" {
      assert literal + rest == literal;
    } else {
      match At(rest)
      case Some(p) =>
        SegmentsAt(literal, rest, p);
        AtShape(rest);
        SegmentsSpell("", rest[14..]);
        SpelledAnchor(literal, p, Segments("", rest[14..]));
        SpellingShape(p);
        assert "" + rest[14..] == rest[14..];
        assert Spelling(p) + rest[14..] == rest;
      case None =>
        SegmentsSkip(literal, rest);
        SegmentsSpell(literal + [rest[0]], rest[1..]);
        assert (literal + [rest[0]]) + rest[1..] == literal + rest;
    }
  }

  lemma SpelledCases(literal: string)
    ensures Spelled(Pending(literal)) == literal
    ensures Spelled([Literal("")]) == ""
  {
    if literal != "" {
      assert [Literal(literal)][1..] == [];
    }
    assert [Literal("")][1..] == [];
  }

  lemma SpelledAnchor(literal: string, p: Placeholder, more: seq<Segment>)
    ensures Spelled((Pending(literal) + [Anchor(p)]) + more) == literal + (Spelling(p) + Spelled(more))
  {
    hide Spelling;
    var tail := [Anchor(p)] + more;
    assert tail[1..] == more;
    Associative(Pending(literal), [Anchor(p)], more);
    if literal == "" {
      assert [] + tail == tail;
      assert "" + (Spelling(p) + Spelled(more)) == Spelling(p) + Spelled(more);
    } else {
      assert ([Literal(literal)] + tail)[1..] == tail;
    }
  }

  /** Spelling the segments back gives the configured string. */
  lemma ParsedSpells(raw: string)
    ensures Spelled(Parsed(raw)) == raw
  {
    hide Segments, Spelled;
    SegmentsSpell("", raw);
    SpelledCases("");
    assert "" + raw == raw;
    if Segments("", raw) == [] {
      assert Spelled([]) == "" by { SpelledNone(); }
    }
  }

  lemma SpelledNone()
    ensures Spelled([]) == ""
  {
  }

  /** A literal in which nothing started a placeholder, even with what followed,
      contains none. */
  lemma PlainAlone(literal: string, rest: string)
    requires Plain(literal + rest, |literal|)
    ensures Plain(literal, |literal|)
  {
    hide At;
    forall i | 0 <= i < |literal| ensures At(literal[i..]).None? {
      assert (literal + rest)[i..] == literal[i..] + rest;
      AtPrefix(literal[i..], rest);
    }
  }

  lemma AtPrefix(a: string, b: string)
    requires At(a + b).None?
    ensures At(a).None?
  {
  }

  lemma {:induction false} SegmentsSeparate(literal: string, rest: string)
    requires Plain(literal + rest, |literal|)
    ensures Separated(Segments(literal, rest))
    decreases |rest|
  {
    hide At, Segments, Plain;
    PlainAlone(literal, rest);
    SegmentsEnd(literal);
    if rest != "" {
      match At(rest)
      case Some(p) =>
        SegmentsAt(literal, rest, p);
        PlainNone("" + rest[14..]);
        SegmentsSeparate("", rest[14..]);
      case None =>
        SegmentsSkip(literal, rest);
        PlainLonger(literal, rest);
        SegmentsSeparate(literal + [rest[0]], rest[1..]);
    }
  }

  lemma PlainNone(s: string)
    ensures Plain(s, 0)
  {
  }

  lemma PlainLonger(literal: string, rest: string)
    requires rest != "" && Plain(literal + rest, |literal|) && At(rest).None?
    ensures (literal + [rest[0]]) + rest[1..] == literal + rest
    ensures Plain(literal + rest, |literal| + 1)
  {
    hide At;
    assert (literal + rest)[|literal|..] == rest;
  }

  /** Parsing gives canonical segments. */
  lemma ParsedCanonical(raw: string)
    ensures Canonical(Parsed(raw))
  {
    hide Segments, Separated, Plain;
    PlainNone("" + raw);
    SegmentsSeparate("", raw);
  }

  /** A placeholder that starts in a literal cannot run into the next anchor. */
  lemma LiteralThenAnchor(text: string, more: string)
    requires Plain(text, |text|) && (more == "" || more[0] == '$')
    ensures Plain(text + more, |text|)
  {
    hide At;
    forall i | 0 <= i < |text| ensures At((text + more)[i..]).None? {
      var s := (text + more)[i..];
      AtShape(s);
      if more == "" {
        assert s == text[i..];
      } else {
        assert s[|text| - i] == '$';
        if |text| - i >= 14 {
          assert s[..14] == text[i..][..14];
          AtFirst(s, text[i..]);
        }
      }
    }
  }

  /** Only the first fourteen characters decide. */
  lemma AtFirst(s: string, t: string)
    requires |s| >= 14 && |t| >= 14 && s[..14] == t[..14]
    ensures At(s) == At(t)
  {
    SpellingShape(PluginRoot);
    SpellingShape(PluginData);
    forall p: Placeholder ensures Spelling(p) <= s <==> Spelling(p) <= t {
      assert Spelling(p) <= s <==> s[..14] == Spelling(p);
      assert Spelling(p) <= t <==> t[..14] == Spelling(p);
    }
  }

  lemma AtSpelling(p: Placeholder, more: string)
    ensures At(Spelling(p) + more) == Some(p) && (Spelling(p) + more)[14..] == more
  {
    SpellingShape(p);
    if p.PluginData? {
      assert (Spelling(p) + more)[9] == Spelling(p)[9];
    }
  }

  lemma SpelledHead(first: Segment, more: seq<Segment>)
    ensures Spelled([first] + more) == (if first.Literal? then first.text else Spelling(first.placeholder)) + Spelled(more)
  {
    assert ([first] + more)[1..] == more;
  }

  lemma {:induction false} SeparatedRoundTrip(segments: seq<Segment>)
    requires Separated(segments)
    ensures Segments("", Spelled(segments)) == segments
    ensures segments != [] && segments[0].Anchor? ==> Spelled(segments) != "" && Spelled(segments)[0] == '$'
    decreases |segments|
  {
    hide At, Segments, Spelled, Plain;
    SpelledNone();
    SegmentsEnd("");
    if segments != [] {
      var first, more := segments[0], segments[1..];
      assert segments == [first] + more;
      SpelledHead(first, more);
      SeparatedRoundTrip(more);
      match first
      case Anchor(p) =>
        AtSpelling(p, Spelled(more));
        SpellingShape(p);
        SegmentsAt("", Spelled(segments), p);
      case Literal(text) =>
        assert more != [] ==> segments[1].Anchor?;
        LiteralThenAnchor(text, Spelled(more));
        SegmentsPlain("", Spelled(segments), |text|);
        assert "" + text == text;
        LiteralFirst(text, more);
    }
  }

  /** A pending literal is the first segment when an anchor, or nothing, follows. */
  lemma LiteralFirst(text: string, more: seq<Segment>)
    requires text != "" && Segments("", Spelled(more)) == more
    requires more == [] ==> Spelled(more) == ""
    requires more != [] ==> more[0].Anchor?
    ensures Segments(text, Spelled(more)) == [Literal(text)] + more
  {
    hide At, Segments, Spelled;
    SegmentsEnd(text);
    if more != [] {
      var p := more[0].placeholder;
      assert more == [more[0]] + more[1..];
      SpelledHead(more[0], more[1..]);
      AtSpelling(p, Spelled(more[1..]));
      SegmentsAt("", Spelled(more), p);
      SegmentsAt(text, Spelled(more), p);
      Associative([Literal(text)], [Anchor(p)], Segments("", Spelled(more)[14..]));
      assert [] + [Anchor(p)] == [Anchor(p)];
    }
  }

  /** Parsing the spelling of canonical segments gives the segments back. */
  lemma CanonicalRoundTrip(segments: seq<Segment>)
    requires Canonical(segments)
    ensures Parsed(Spelled(segments)) == segments
  {
    hide Segments, Spelled, Separated;
    if segments == [Literal("")] {
      SpelledCases("");
      SegmentsEnd("");
    } else {
      SeparatedRoundTrip(segments);
    }
  }

  function Expanded(segments: seq<Segment>, anchors: Anchors): string {
    if segments == [] then ""
    else
      var last := segments[|segments| - 1];
      Expanded(segments[..|segments| - 1], anchors)
      + if last.Literal? then last.text else anchors.PathOf(last.placeholder)
  }

  method Expand(segments: seq<Segment>, anchors: Anchors) returns (out: string)
    ensures out == Expanded(segments, anchors)
  {
    out := "";
    for i := 0 to |segments|
      invariant out == Expanded(segments[..i], anchors)
    {
      assert segments[..i + 1][..i] == segments[..i];
      match segments[i]
      case Literal(text) => out := out + text;
      case Anchor(p) => out := out + anchors.PathOf(p);
    }
    assert segments[..|segments|] == segments;
  }

  /** One left-to-right substitution of every placeholder in a text. */
  function Substituted(raw: string, anchors: Anchors): string
    decreases |raw|
  {
    if raw == "" then ""
    else
      match At(raw)
      case Some(p) =>
        SpellingShape(p);
        anchors.PathOf(p) + Substituted(raw[14..], anchors)
      case None => [raw[0]] + Substituted(raw[1..], anchors)
  }

  lemma {:induction false} ExpandedAppend(a: seq<Segment>, b: seq<Segment>, anchors: Anchors)
    ensures Expanded(a + b, anchors) == Expanded(a, anchors) + Expanded(b, anchors)
    decreases |b|
  {
    if b == [] {
      assert a + b == a;
    } else {
      var last := b[|b| - 1];
      assert (a + b)[..|a + b| - 1] == a + b[..|b| - 1];
      ExpandedAppend(a, b[..|b| - 1], anchors);
      Associative(Expanded(a, anchors), Expanded(b[..|b| - 1], anchors),
                  if last.Literal? then last.text else anchors.PathOf(last.placeholder));
    }
  }

  lemma ExpandedPending(literal: string, p: Placeholder, anchors: Anchors)
    ensures Expanded(Pending(literal), anchors) == literal
    ensures Expanded([Anchor(p)], anchors) == anchors.PathOf(p)
    ensures Expanded([Literal("")], anchors) == ""
  {
    assert [Anchor(p)][..0] == [] && [Literal("")][..0] == [] && [Literal(literal)][..0] == [];
  }

  lemma SubstitutedAt(raw: string, p: Placeholder, anchors: Anchors)
    requires At(raw) == Some(p)
    ensures |raw| >= 14 && Substituted(raw, anchors) == anchors.PathOf(p) + Substituted(raw[14..], anchors)
  {
    AtShape(raw);
  }

  lemma SubstitutedSkip(raw: string, anchors: Anchors)
    requires raw != "" && At(raw).None?
    ensures Substituted(raw, anchors) == [raw[0]] + Substituted(raw[1..], anchors)
  {
    hide At;
  }

  lemma SubstitutedNone(anchors: Anchors)
    ensures Substituted("", anchors) == ""
  {
  }

  lemma {:induction false} SegmentsExpand(literal: string, rest: string, anchors: Anchors)
    ensures Expanded(Segments(literal, rest), anchors) == literal + Substituted(rest, anchors)
    decreases |rest|
  {
    hide At, Segments, Expanded, Substituted, Anchors.PathOf;
    ExpandedPending(literal, PluginRoot, anchors);
    SegmentsEnd(literal);
    SubstitutedNone(anchors);
    if rest == "" {
      assert literal + "" == literal;
    } else {
      match At(rest)
      case Some(p) =>
        SegmentsAt(literal, rest, p);
        var more := Segments("", rest[14..]);
        SubstitutedAt(rest, p, anchors);
        SegmentsExpand("", rest[14..], anchors);
        ExpandedPending(literal, p, anchors);
        ExpandedAppend(Pending(literal), [Anchor(p)], anchors);
        ExpandedAppend(Pending(literal) + [Anchor(p)], more, anchors);
        Associative(literal, anchors.PathOf(p), Substituted(rest[14..], anchors));
        assert "" + Substituted(rest[14..], anchors) == Substituted(rest[14..], anchors);
      case None =>
        SegmentsSkip(literal, rest);
        SubstitutedSkip(rest, anchors);
        SegmentsExpand(literal + [rest[0]], rest[1..], anchors);
        Associative(literal, [rest[0]], Substituted(rest[1..], anchors));
    }
  }

  /** Expanding a parsed string is one simultaneous substitution: inserted paths
      are never looked at again. */
  lemma ExpansionSubstitutes(raw: string, anchors: Anchors)
    ensures Expanded(Parsed(raw), anchors) == Substituted(raw, anchors)
  {
    hide Segments, Expanded, Substituted;
    SegmentsExpand("", raw, anchors);
    ExpandedPending("", PluginRoot, anchors);
    assert "" + Substituted(raw, anchors) == Substituted(raw, anchors);
    if Segments("", raw) == [] {
      ExpandedNone(anchors);
    }
  }

  lemma ExpandedNone(anchors: Anchors)
    ensures Expanded([], anchors) == ""
  {
  }

  /** What expansion does to a text: a placeholder at the front becomes its path, and
      text in front of it, as all text in which none starts, stays as it is. */
  lemma ExpansionOf(before: string, after: string, anchors: Anchors)
    requires forall i :: 0 <= i < |before| ==> before[i] != '$'
    ensures Expanded(Parsed(before), anchors) == before
    ensures Expanded(Parsed(before + ("${PLUGIN_ROOT}" + after)), anchors) ==
            before + (anchors.pluginRoot + Expanded(Parsed(after), anchors))
    ensures Expanded(Parsed(before + ("${PLUGIN_DATA}" + after)), anchors) ==
            before + (anchors.pluginData + Expanded(Parsed(after), anchors))
  {
    hide At, Substituted, Parsed, Expanded, Spelling;
    var root, data := "${PLUGIN_ROOT}" + after, "${PLUGIN_DATA}" + after;
    ExpansionSubstitutes(before, anchors);
    ExpansionSubstitutes(after, anchors);
    ExpansionSubstitutes(before + root, anchors);
    ExpansionSubstitutes(before + data, anchors);
    SpellingsAre();
    AtSpelling(PluginRoot, after);
    AtSpelling(PluginData, after);
    SubstitutedAt(root, PluginRoot, anchors);
    SubstitutedAt(data, PluginData, anchors);
    SubstitutedPlain(before, root, anchors);
    SubstitutedPlain(before, data, anchors);
    SubstitutedPlain(before, "", anchors);
    SubstitutedNone(anchors);
    assert before + "" == before;
  }

  lemma SpellingsAre()
    ensures Spelling(PluginRoot) == "${PLUGIN_ROOT}" && Spelling(PluginData) == "${PLUGIN_DATA}"
  {
  }

  lemma {:induction false} SubstitutedPlain(before: string, rest: string, anchors: Anchors)
    requires forall i :: 0 <= i < |before| ==> before[i] != '$'
    ensures Substituted(before + rest, anchors) == before + Substituted(rest, anchors)
    decreases |before|
  {
    hide At, Substituted;
    if before == "" {
      assert before + rest == rest;
    } else {
      AtShape(before + rest);
      SubstitutedSkip(before + rest, anchors);
      assert (before + rest)[1..] == before[1..] + rest;
      SubstitutedPlain(before[1..], rest, anchors);
    }
  }

  /** A text in which neither spelling occurs expands to itself, whatever dollar signs
      and braces it has. */
  lemma PlainExpands(raw: string, anchors: Anchors)
    requires forall i :: 0 <= i < |raw| ==> !("${PLUGIN_ROOT}" <= raw[i..]) && !("${PLUGIN_DATA}" <= raw[i..])
    ensures Expanded(Parsed(raw), anchors) == raw
  {
    hide At, Substituted, Parsed, Expanded, Spelling;
    SpellingsAre();
    forall i | 0 <= i < |raw| ensures At(raw[i..]).None? {
      NothingAt(raw[i..]);
    }
    ExpansionSubstitutes(raw, anchors);
    NothingSubstituted(raw, anchors);
  }

  lemma NothingAt(s: string)
    requires !(Spelling(PluginRoot) <= s) && !(Spelling(PluginData) <= s)
    ensures At(s).None?
  {
    hide Spelling;
  }

  lemma {:induction false} NothingSubstituted(raw: string, anchors: Anchors)
    requires Plain(raw, |raw|)
    ensures Substituted(raw, anchors) == raw
    decreases |raw|
  {
    hide At, Substituted, Plain;
    SubstitutedNone(anchors);
    if raw != "" {
      PlainStep(raw, |raw|);
      SubstitutedSkip(raw, anchors);
      NothingSubstituted(raw[1..], anchors);
    }
  }
}
