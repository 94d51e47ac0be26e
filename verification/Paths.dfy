/** Package-relative paths: the depth counter that accepts them, the walk that
    resolves them, and the command and working-directory forms built on them. */
module Paths {
  import opened Text
  import opened Templates

  predicate NotSlash(c: char) {
    c != '/'
  }

  /** A path split at every `/`. */
  function Parts(path: string): (parts: seq<string>)
    ensures parts != []
    decreases |path|
  {
    var i := Leading(path, NotSlash);
    if i == |path| then [path] else [path[..i]] + Parts(path[i + 1..])
  }

  /** A part that names something. */
  predicate Normal(part: string) {
    part != "" && part != "." && part != ".."
  }

  /** Names minus parent steps. */
  function Balance(parts: seq<string>): int {
    if parts == [] then 0
    else
      var last := parts[|parts| - 1];
      Balance(parts[..|parts| - 1]) + if Normal(last) then 1 else if last == ".." then -1 else 0
  }

  /** No prefix of the path climbs above where it started. */
  predicate Contained(parts: seq<string>) {
    forall k :: 0 <= k <= |parts| ==> Balance(parts[..k]) >= 0
  }

  lemma BalanceStep(parts: seq<string>, k: nat)
    requires k < |parts|
    ensures Balance(parts[..k + 1]) ==
            Balance(parts[..k]) + if Normal(parts[k]) then 1 else if parts[k] == ".." then -1 else 0
  {
    assert parts[..k + 1][..k] == parts[..k];
  }

  method LexicallyContained(path: string) returns (contained: bool)
    ensures contained <==> Contained(Parts(path))
  {
    hide Parts, Balance;
    var parts := Parts(path);
    var depth := 0;
    BalanceNone(parts);
    for i := 0 to |parts|
      invariant depth == Balance(parts[..i])
      invariant forall k :: 0 <= k <= i ==> Balance(parts[..k]) >= 0
    {
      BalanceStep(parts, i);
      if parts[i] == "" || parts[i] == "." {
      } else if parts[i] == ".." {
        depth := depth - 1;
        if depth < 0 {
          return false;
        }
      } else {
        depth := depth + 1;
      }
    }
    contained := true;
  }

  lemma BalanceNone(parts: seq<string>)
    ensures Balance(parts[..0]) == 0
  {
  }

  /** The components a push/pop walk over the parts ends with; popping the file
      system root does nothing. */
  function Walked(root: seq<string>, parts: seq<string>): seq<string> {
    if parts == [] then root
    else
      var out := Walked(root, parts[..|parts| - 1]);
      var last := parts[|parts| - 1];
      if last == "" || last == "." then out
      else if last != ".." then out + [last]
      else if out == [] then out
      else out[..|out| - 1]
  }

  lemma WalkedStep(root: seq<string>, parts: seq<string>, k: nat)
    requires k < |parts|
    ensures var out := Walked(root, parts[..k]);
            Walked(root, parts[..k + 1]) ==
            if parts[k] == "" || parts[k] == "." then out
            else if parts[k] != ".." then out + [parts[k]]
            else if out == [] then out
            else out[..|out| - 1]
  {
    assert parts[..k + 1][..k] == parts[..k];
  }

  lemma {:induction false} WalkedAppend(root: seq<string>, a: seq<string>, b: seq<string>)
    ensures Walked(root, a + b) == Walked(Walked(root, a), b)
    decreases |b|
  {
    if b == [] {
      assert a + b == a;
    } else {
      WalkedAppend(root, a, b[..|b| - 1]);
      assert (a + b)[..|a + b| - 1] == a + b[..|b| - 1];
    }
  }

  /** Names are walked down in order; an empty part and a dot can be left out, and so
      can a name with the parent step after it. */
  lemma WalkLaws(root: seq<string>, a: seq<string>, b: seq<string>, part: string)
    ensures part == "" || part == "." ==> Walked(root, a + [part] + b) == Walked(root, a + b)
    ensures part != "" && part != "." && part != ".." ==> Walked(root, a + [part, ".."] + b) == Walked(root, a + b)
    ensures (forall i :: 0 <= i < |b| ==> b[i] != "" && b[i] != "." && b[i] != "..") ==>
              Walked(root, a + b) == Walked(root, a) + b
  {
    hide Walked;
    WalkedAppend(root, a, b);
    WalkedAppend(root, a + [part], b);
    WalkedAppend(root, a, [part]);
    WalkedAppend(root, a + [part, ".."], b);
    WalkedAppend(root, a, [part, ".."]);
    WalkedTwo(Walked(root, a), part);
    if forall i :: 0 <= i < |b| ==> b[i] != "" && b[i] != "." && b[i] != ".." {
      WalkedNames(Walked(root, a), b);
    }
  }

  lemma WalkedTwo(out: seq<string>, part: string)
    ensures part == "" || part == "." ==> Walked(out, [part]) == out
    ensures part != "" && part != "." && part != ".." ==> Walked(out, [part, ".."]) == out
  {
    WalkedNone(out, [part]);
    WalkedStep(out, [part], 0);
    WalkedNone(out, [part, ".."]);
    WalkedStep(out, [part, ".."], 0);
    WalkedStep(out, [part, ".."], 1);
    assert [part][..1] == [part] && [part, ".."][..2] == [part, ".."];
  }

  lemma {:induction false} WalkedNames(root: seq<string>, names: seq<string>)
    requires forall i :: 0 <= i < |names| ==> names[i] != "" && names[i] != "." && names[i] != ".."
    ensures Walked(root, names) == root + names
    decreases |names|
  {
    if names == [] {
      assert root + names == root;
    } else {
      WalkedNames(root, names[..|names| - 1]);
      assert root + names == (root + names[..|names| - 1]) + [names[|names| - 1]];
    }
  }

  method Resolve(raw: string, root: seq<string>) returns (out: seq<string>)
    requires |raw| >= 2
    ensures out == Walked(root, Parts(raw[2..]))
  {
    hide Parts, Walked;
    out := root;
    var parts := Parts(raw[2..]);
    WalkedNone(root, parts);
    for i := 0 to |parts|
      invariant out == Walked(root, parts[..i])
    {
      WalkedStep(root, parts, i);
      var segment := parts[i];
      if segment != "" && segment != "." {
        if segment == ".." {
          if out != [] {
            out := out[..|out| - 1];
          }
        } else {
          out := out + [segment];
        }
      }
    }
    assert parts[..|parts|] == parts;
  }

  lemma WalkedNone(root: seq<string>, parts: seq<string>)
    ensures Walked(root, parts[..0]) == root
  {
  }

  /** The walk never pops a component of the root. */
  predicate StaysBelow(root: seq<string>, parts: seq<string>) {
    forall k :: 0 <= k < |parts| && parts[k] == ".." ==> |Walked(root, parts[..k])| > |root|
  }

  /** A stack of names on top of the root, as high as the balance. */
  ghost predicate OnTop(root: seq<string>, out: seq<string>, height: int) {
    && root <= out && |out| == |root| + height
    && forall i :: |root| <= i < |out| ==> Normal(out[i])
  }

  /** As long as no prefix climbs too far, the walk is the root with names on top. */
  lemma {:induction false} WalkedOnTop(root: seq<string>, parts: seq<string>, n: nat)
    requires n <= |parts| && forall k :: 0 <= k <= n ==> Balance(parts[..k]) >= 0
    ensures OnTop(root, Walked(root, parts[..n]), Balance(parts[..n]))
    decreases n
  {
    hide Walked, Balance;
    WalkedNone(root, parts);
    BalanceNone(parts);
    if n > 0 {
      WalkedOnTop(root, parts, n - 1);
      WalkedStep(root, parts, n - 1);
      BalanceStep(parts, n - 1);
    }
  }

  /** The first prefix that climbs too far, if there is one. */
  lemma {:induction false} FirstEscape(parts: seq<string>, n: nat) returns (k: nat)
    requires n <= |parts| && Balance(parts[..n]) < 0
    ensures k < n && Balance(parts[..k + 1]) < 0 && forall j :: 0 <= j <= k ==> Balance(parts[..j]) >= 0
    decreases n
  {
    hide Balance;
    BalanceNone(parts);
    if m :| 0 <= m < n && Balance(parts[..m]) < 0 {
      k := FirstEscape(parts, m);
    } else {
      k := n - 1;
    }
  }

  /** The depth counter accepts exactly the paths whose walk never pops the root,
      whatever the root is. */
  lemma ContainedIffStaysBelow(root: seq<string>, parts: seq<string>)
    ensures Contained(parts) <==> StaysBelow(root, parts)
  {
    hide Walked, Balance;
    if Contained(parts) {
      forall k | 0 <= k < |parts| && parts[k] == ".." ensures |Walked(root, parts[..k])| > |root| {
        WalkedOnTop(root, parts, k);
        BalanceStep(parts, k);
      }
    } else {
      var n :| 0 <= n <= |parts| && Balance(parts[..n]) < 0;
      var k := FirstEscape(parts, n);
      BalanceStep(parts, k);
      WalkedOnTop(root, parts, k);
      assert parts[k] == ".." && |Walked(root, parts[..k])| == |root|;
    }
  }

  /** A contained path resolves to the root followed by names only. */
  lemma ContainedResolves(root: seq<string>, parts: seq<string>)
    requires Contained(parts)
    ensures OnTop(root, Walked(root, parts), Balance(parts))
  {
    hide Walked, Balance;
    assert parts[..|parts|] == parts;
    WalkedOnTop(root, parts, |parts|);
  }

  function JoinedBySlash(parts: seq<string>): string {
    if parts == [] then ""
    else if |parts| == 1 then parts[0]
    else parts[0] + ("/" + JoinedBySlash(parts[1..]))
  }

  /** The parts of a path hold no slash, and joined by slashes they are the path. */
  lemma {:induction false} PartsJoin(path: string)
    ensures JoinedBySlash(Parts(path)) == path
    ensures forall part :: part in Parts(path) ==> '/' !in part
    decreases |path|
  {
    hide Leading;
    var i := Leading(path, NotSlash);
    if i < |path| {
      PartsJoin(path[i + 1..]);
      assert path == path[..i] + ("/" + path[i + 1..]);
      assert Parts(path)[1..] == Parts(path[i + 1..]);
    }
  }

  datatype RelativeError = MissingDotSlash | EscapesRoot

  datatype Result<T, E> = Ok(value: T) | Err(error: E)

  /** The accepted text itself is the path. */
  function ParseRelative(raw: string): Result<string, RelativeError> {
    if !("./" <= raw) then Err(MissingDotSlash)
    else if !Contained(Parts(raw[2..])) then Err(EscapesRoot)
    else Ok(raw)
  }

  datatype Command = Bundled(path: string) | Bare(name: string)

  datatype Cwd = PackageRoot | Relative(path: string) | RootAnchored(subpath: string) | DataAnchored(subpath: string)

  datatype Invalid = CommandEscapes | NotAToken(command: string) | BadCwd(cwd: string)

  function ParseCommand(raw: string): Result<Command, Invalid> {
    if "./" <= raw then
      if ParseRelative(raw).Ok? then Ok(Bundled(raw)) else Err(CommandEscapes)
    else if raw == "" || '/' in raw || '\\' in raw then Err(NotAToken(raw))
    else Ok(Bare(raw))
  }

  /** What becomes of a command: one that starts with `./` is a path of the package
      exactly when its walk stays below the root; any other is a bare name exactly when
      it is not empty and holds neither kind of slash. */
  lemma CommandForms(raw: string, root: seq<string>)
    ensures var bundled := |raw| >= 2 && raw[0] == '.' && raw[1] == '/';
            ParseCommand(raw) ==
            if bundled then if StaysBelow(root, Parts(raw[2..])) then Ok(Bundled(raw)) else Err(CommandEscapes)
            else if raw != "" && forall c :: c in raw ==> c != '/' && c != '\\' then Ok(Bare(raw))
            else Err(NotAToken(raw))
    ensures var bundled := |raw| >= 2 && raw[0] == '.' && raw[1] == '/';
            ParseRelative(raw) ==
            if !bundled then Err(MissingDotSlash)
            else if StaysBelow(root, Parts(raw[2..])) then Ok(raw)
            else Err(EscapesRoot)
  {
    hide Parts, Contained, StaysBelow;
    if |raw| >= 2 {
      ContainedIffStaysBelow(root, Parts(raw[2..]));
    }
  }

  function ParseCwd(raw: string): Result<Cwd, Invalid> {
    var segments := Parsed(raw);
    if |segments| == 1 && segments[0].Literal? then
      if ParseRelative(raw).Ok? then Ok(Relative(raw)) else Err(BadCwd(raw))
    else if segments == [Anchor(PluginRoot)] then Ok(PackageRoot)
    else if segments == [Anchor(PluginData)] then Ok(DataAnchored(""))
    else if |segments| == 2 && segments[0].Anchor? && segments[1].Literal? then
      var rest := segments[1].text;
      if !("/" <= rest) || !Contained(Parts(rest[1..])) then Err(BadCwd(raw))
      else Ok(if segments[0].placeholder.PluginRoot? then RootAnchored(rest[1..]) else DataAnchored(rest[1..]))
    else Err(BadCwd(raw))
  }

  /** A subpath below an anchor: contained, and free of placeholders. */
  ghost predicate Subpath(subpath: string) {
    Plain("/" + subpath, |subpath| + 1) && Contained(Parts(subpath))
  }

  /** The three permitted forms of a working directory. */
  ghost predicate Permitted(raw: string, cwd: Cwd) {
    match cwd
    case PackageRoot => raw == Spelling(PluginRoot)
    case Relative(path) => raw == path && "./" <= raw && Plain(raw, |raw|) && Contained(Parts(raw[2..]))
    case RootAnchored(sub) => raw == Spelling(PluginRoot) + ("/" + sub) && Subpath(sub)
    case DataAnchored(sub) =>
      (raw == Spelling(PluginData) && sub == "") || (raw == Spelling(PluginData) + ("/" + sub) && Subpath(sub))
  }

  /** The segments of an anchor followed by nothing or by a literal. */
  lemma AnchorSegments(p: Placeholder, text: string)
    ensures Spelled([Anchor(p)]) == Spelling(p) && Canonical([Anchor(p)])
    ensures Spelled([Anchor(p), Literal(text)]) == Spelling(p) + text
    ensures text != "" && Plain(text, |text|) ==> Canonical([Anchor(p), Literal(text)])
    ensures Spelled([Literal(text)]) == text
    ensures text != "" && Plain(text, |text|) ==> Canonical([Literal(text)])
  {
    hide At, Spelling, Plain;
    var pair, one, tail := [Anchor(p), Literal(text)], [Anchor(p)], [Literal(text)];
    assert one[1..] == [] && tail[1..] == [] && pair[1..] == tail;
    assert Spelled(one) == Spelling(p) + Spelled([]) && Spelled(tail) == text + Spelled([]);
  }

  /** Every permitted form is accepted as what it is. */
  lemma PermittedAccepted(raw: string, cwd: Cwd)
    requires Permitted(raw, cwd)
    ensures ParseCwd(raw) == Ok(cwd)
  {
    hide At, Parsed, Spelled, Canonical, Spelling, Parts, Contained, Plain;
    match cwd
    case PackageRoot =>
      AnchorSegments(PluginRoot, "");
      CanonicalRoundTrip([Anchor(PluginRoot)]);
    case Relative(_) =>
      AnchorSegments(PluginRoot, raw);
      CanonicalRoundTrip([Literal(raw)]);
    case RootAnchored(sub) =>
      AnchoredAccepted(PluginRoot, sub);
    case DataAnchored(sub) =>
      if raw == Spelling(PluginData) && sub == "" {
        AnchorSegments(PluginData, "");
        CanonicalRoundTrip([Anchor(PluginData)]);
      } else {
        AnchoredAccepted(PluginData, sub);
      }
  }

  lemma AnchoredAccepted(p: Placeholder, sub: string)
    requires Subpath(sub)
    ensures ParseCwd(Spelling(p) + ("/" + sub)) == Ok(if p.PluginRoot? then RootAnchored(sub) else DataAnchored(sub))
  {
    hide At, Parsed, Spelled, Canonical, Spelling, Parts, Contained, Plain;
    AnchorSegments(p, "/" + sub);
    CanonicalRoundTrip([Anchor(p), Literal("/" + sub)]);
    assert ("/" + sub)[1..] == sub;
  }

  /** Nothing else is accepted. */
  lemma AcceptedPermitted(raw: string)
    requires ParseCwd(raw).Ok?
    ensures Permitted(raw, ParseCwd(raw).value)
  {
    hide At, Parsed, Spelled, Spelling, Parts, Contained, Plain;
    var segments := Parsed(raw);
    ParsedSpells(raw);
    ParsedCanonical(raw);
    if |segments| == 1 && segments[0].Literal? {
      AnchorSegments(PluginRoot, segments[0].text);
      assert segments == [Literal(segments[0].text)];
    } else if |segments| == 1 {
      AnchorSegments(segments[0].placeholder, "");
      assert segments == [Anchor(segments[0].placeholder)];
    } else {
      var rest := segments[1].text;
      AnchorSegments(segments[0].placeholder, rest);
      assert segments == [Anchor(segments[0].placeholder), Literal(rest)];
      assert rest == "/" + rest[1..];
    }
  }

  /** A working directory is accepted exactly when it has one of the three forms, and
      otherwise refused by its text. */
  lemma CwdForms(raw: string, cwd: Cwd)
    ensures ParseCwd(raw) == Ok(cwd) <==> Permitted(raw, cwd)
    ensures ParseCwd(raw).Err? ==> ParseCwd(raw) == Err(BadCwd(raw))
  {
    RefusedCwd(raw);
    hide ParseCwd, Permitted;
    if ParseCwd(raw).Ok? {
      AcceptedPermitted(raw);
    }
    if Permitted(raw, cwd) {
      PermittedAccepted(raw, cwd);
    }
  }

  lemma RefusedCwd(raw: string)
    ensures ParseCwd(raw).Err? ==> ParseCwd(raw) == Err(BadCwd(raw))
  {
    hide Parsed, Parts, Contained, ParseRelative;
  }

  /** The part of a working directory below its anchor. */
  function BelowAnchor(cwd: Cwd): string {
    match cwd
    case PackageRoot => ""
    case Relative(path) => if |path| < 2 then "" else path[2..]
    case RootAnchored(subpath) => subpath
    case DataAnchored(subpath) => subpath
  }

  /** Every accepted path, bundled command and working directory resolves to its
      anchor followed by names only. */
  lemma AcceptedResolve(raw: string, root: seq<string>)
    ensures ParseRelative(raw).Ok? ==>
              OnTop(root, Walked(root, Parts(raw[2..])), Balance(Parts(raw[2..])))
    ensures ParseCommand(raw).Ok? && ParseCommand(raw).value.Bundled? ==>
              OnTop(root, Walked(root, Parts(raw[2..])), Balance(Parts(raw[2..])))
    ensures ParseCwd(raw).Ok? ==>
              var parts := Parts(BelowAnchor(ParseCwd(raw).value));
              OnTop(root, Walked(root, parts), Balance(parts))
  {
    hide Walked, Balance, Parts, Parsed, OnTop, Contained;
    if ParseRelative(raw).Ok? {
      ContainedResolves(root, Parts(raw[2..]));
    }
    if ParseCwd(raw).Ok? {
      EmptyContained();
      ContainedResolves(root, Parts(BelowAnchor(ParseCwd(raw).value)));
    }
  }

  lemma EmptyContained()
    ensures Contained(Parts(""))
  {
    var parts := Parts("");
    assert parts == [""];
    assert parts[..0] == [] && parts[..1] == [""] && [""][..0] == [];
  }
}
