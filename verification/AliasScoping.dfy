/** When alias evaluation, which keeps the bindings at every reference, agrees with
    lexical scoping: the exact condition for one type, a rule of hygiene under which
    it always does, and two programs where it does not. */
module AliasScoping {
  import opened Text
  import opened TypeAliases

  /** The types a matcher is shown, as a tree. */
  datatype Shown = Shown(current: Type, parts: seq<Shown>)

  function Record(): (Type, seq<Shown>) -> Shown {
    (t, parts) => Shown(t, parts)
  }

  function Show(p: Program, scoping: Scoping, c: Call): Shown
    requires p.Valid()
  {
    Evaluate(p, scoping, Record(), c)
  }

  /** Running a matcher over what it would be shown. */
  function Fold<R>(matcher: (Type, seq<R>) -> R, s: Shown): R
    decreases s, |s.parts| + 1
  {
    matcher(s.current, FoldParts(matcher, s, |s.parts|))
  }

  function FoldParts<R>(matcher: (Type, seq<R>) -> R, s: Shown, n: nat): seq<R>
    requires n <= |s.parts|
    decreases s, n
  {
    if n == 0 then [] else FoldParts(matcher, s, n - 1) + [Fold(matcher, s.parts[n - 1])]
  }

  /** What is shown decides every matcher's result. */
  lemma {:induction false} EvaluateFolds<R>(p: Program, scoping: Scoping, matcher: (Type, seq<R>) -> R, c: Call)
    requires p.Valid()
    ensures Evaluate(p, scoping, matcher, c) == Fold(matcher, Show(p, scoping, c))
    decreases p.aliases.Keys - c.resolving, c.substitutions, c.current, |Parts(c.current)| + 1
  {
    match Acts(p, scoping, c)
    case Substitute(call) => EvaluateFolds(p, scoping, matcher, call);
    case Unfold(_, call) => EvaluateFolds(p, scoping, matcher, call);
    case Match =>
      ShowsParts(p, scoping, c, |Parts(c.current)|);
      AnswersFold(p, scoping, matcher, c, |Parts(c.current)|);
  }

  lemma {:induction false} AnswersFold<R>(p: Program, scoping: Scoping, matcher: (Type, seq<R>) -> R, c: Call, n: nat)
    requires p.Valid() && n <= |Parts(c.current)|
    requires Acts(p, scoping, c).Match? && |Show(p, scoping, c).parts| == |Parts(c.current)|
    requires forall i :: 0 <= i < |Parts(c.current)| ==>
               Show(p, scoping, c).parts[i] == Show(p, scoping, c.(current := Parts(c.current)[i]))
    ensures Answers(p, scoping, matcher, c, n) == FoldParts(matcher, Show(p, scoping, c), n)
    decreases p.aliases.Keys - c.resolving, c.substitutions, c.current, n
  {
    hide Acts, Evaluate, Show, Fold;
    if n > 0 {
      AnswersFold(p, scoping, matcher, c, n - 1);
      EvaluateFolds(p, scoping, matcher, c.(current := Parts(c.current)[n - 1]));
    }
  }

  lemma {:induction false} ShowsParts(p: Program, scoping: Scoping, c: Call, n: nat)
    requires p.Valid() && n <= |Parts(c.current)|
    ensures |Answers(p, scoping, Record(), c, n)| == n
    ensures forall i :: 0 <= i < n ==>
              Answers(p, scoping, Record(), c, n)[i] == Show(p, scoping, c.(current := Parts(c.current)[i]))
  {
    hide Acts, Evaluate;
    if n > 0 {
      ShowsParts(p, scoping, c, n - 1);
    }
  }

  /** Bindings in hand beside the lexical ones at the same place: whatever is bound
      lexically is bound to the same. */
  ghost predicate Corresponds(e: Substitutions, l: Substitutions)
    decreases l
  {
    && l.closures.Keys <= e.closures.Keys
    && forall x :: x in l.closures ==>
         && e.closures[x].written == l.closures[x].written
         && Corresponds(e.closures[x].substitutions, l.closures[x].substitutions)
  }

  /** A reference that the program substitutes although lexically it is not one to a
      parameter in scope. */
  predicate Strays(p: Program, t: Type, e: Substitutions, l: Substitutions) {
    && t.Reference? && t.name.Some? && t.arguments == []
    && t.name.value in e.closures
    && (t.name.value !in l.closures || t.name.value in p.rebound(t.use))
  }

  /** Wherever a binding strays, it shows what the reference shows lexically. Only
      the places the evaluation comes by count, and no matcher is needed to tell. */
  ghost predicate Harmless(p: Program, c: Call, l: Substitutions)
    requires p.Valid()
    decreases p.aliases.Keys - c.resolving, c.substitutions, c.current, |Parts(c.current)| + 1
  {
    var x, y := Acts(p, Inherited, c), Acts(p, Lexical, c.(substitutions := l));
    if Strays(p, c.current, c.substitutions, l) then
      Show(p, Inherited, x.call) == Show(p, Lexical, c.(substitutions := l))
    else if x.Match? then HarmlessParts(p, c, l, |Parts(c.current)|)
    else Harmless(p, x.call, if y.Match? then l else y.call.substitutions)
  }

  ghost predicate HarmlessParts(p: Program, c: Call, l: Substitutions, n: nat)
    requires p.Valid() && n <= |Parts(c.current)|
    decreases p.aliases.Keys - c.resolving, c.substitutions, c.current, n
  {
    n > 0 ==> HarmlessParts(p, c, l, n - 1) && Harmless(p, c.(current := Parts(c.current)[n - 1]), l)
  }

  lemma BindCorresponds(e: Substitutions, l: Substitutions, x: string, c: Closure, d: Closure)
    requires Corresponds(e, l) && c.written == d.written && Corresponds(c.substitutions, d.substitutions)
    ensures Corresponds(Substitutions(e.closures[x := c]), Substitutions(l.closures[x := d]))
  {
  }

  lemma {:induction false} BoundCorresponds(parameters: seq<Parameter>, arguments: seq<Type>, e: Substitutions,
                                            l: Substitutions, n: nat)
    requires n <= |parameters| && Corresponds(e, l)
    ensures var x, y := Bound(parameters, arguments, e, e, n), Bound(parameters, arguments, l, Substitutions(map[]), n);
            (x.Some? <==> y.Some?) && (x.Some? ==> Corresponds(x.value, y.value))
  {
    if n > 0 {
      hide Corresponds;
      BoundCorresponds(parameters, arguments, e, l, n - 1);
      var x, y := Bound(parameters, arguments, e, e, n - 1), Bound(parameters, arguments, l, Substitutions(map[]), n - 1);
      if x.Some? {
        var parameter := parameters[n - 1];
        if n <= |arguments| {
          BindCorresponds(x.value, y.value, parameter.name, Closure(arguments[n - 1], e), Closure(arguments[n - 1], l));
        } else if parameter.default.Some? {
          BindCorresponds(x.value, y.value, parameter.name,
                          Closure(parameter.default.value, x.value), Closure(parameter.default.value, y.value));
        }
      }
    }
  }

  /** A call that does not stray does the same both ways. */
  lemma ActsAlike(p: Program, c: Call, l: Substitutions)
    requires p.Valid() && Corresponds(c.substitutions, l) && !Strays(p, c.current, c.substitutions, l)
    ensures var x, y := Acts(p, Inherited, c), Acts(p, Lexical, c.(substitutions := l));
            && (x.Match? <==> y.Match?)
            && (!x.Match? ==>
                  && x.call.current == y.call.current && x.call.resolving == y.call.resolving
                  && Corresponds(x.call.substitutions, y.call.substitutions))
  {
    hide Bound;
    if c.current.Reference? && c.current.name.Some? {
      var alias := Visible(p, c.current.name.value, c.current.use);
      if alias.Some? {
        var parameters := p.aliases[alias.value].parameters;
        BoundCorresponds(parameters, c.current.arguments, c.substitutions, l, |parameters|);
      }
    }
  }

  /** The two evaluations show the same exactly when no stray binding does harm. */
  lemma {:induction false} ShownAlike(p: Program, c: Call, l: Substitutions)
    requires p.Valid() && Corresponds(c.substitutions, l)
    ensures Show(p, Inherited, c) == Show(p, Lexical, c.(substitutions := l)) <==> Harmless(p, c, l)
    decreases p.aliases.Keys - c.resolving, c.substitutions, c.current, |Parts(c.current)| + 1
  {
    hide Corresponds;
    if !Strays(p, c.current, c.substitutions, l) {
      ActsAlike(p, c, l);
      var x, y := Acts(p, Inherited, c), Acts(p, Lexical, c.(substitutions := l));
      if x.Match? {
        PartsAlike(p, c, l, |Parts(c.current)|);
      } else {
        ShownAlike(p, x.call, y.call.substitutions);
      }
    } else {
      StrayActs(p, c, l);
    }
  }

  lemma StrayActs(p: Program, c: Call, l: Substitutions)
    requires p.Valid() && Strays(p, c.current, c.substitutions, l)
    ensures Acts(p, Inherited, c).Substitute?
  {
  }

  lemma {:induction false} PartsAlike(p: Program, c: Call, l: Substitutions, n: nat)
    requires p.Valid() && Corresponds(c.substitutions, l) && n <= |Parts(c.current)|
    ensures Answers(p, Inherited, Record(), c, n) == Answers(p, Lexical, Record(), c.(substitutions := l), n) <==>
            HarmlessParts(p, c, l, n)
    ensures |Answers(p, Inherited, Record(), c, n)| == |Answers(p, Lexical, Record(), c.(substitutions := l), n)| == n
    decreases p.aliases.Keys - c.resolving, c.substitutions, c.current, n
  {
    hide Acts, Corresponds, Evaluate, Harmless;
    if n > 0 {
      PartsAlike(p, c, l, n - 1);
      ShownAlike(p, c.(current := Parts(c.current)[n - 1]), l);
      LastAlike(Answers(p, Inherited, Record(), c, n - 1), Answers(p, Lexical, Record(), c.(substitutions := l), n - 1),
                Show(p, Inherited, c.(current := Parts(c.current)[n - 1])),
                Show(p, Lexical, c.(substitutions := l).(current := Parts(c.current)[n - 1])));
    }
  }

  lemma LastAlike(a: seq<Shown>, b: seq<Shown>, x: Shown, y: Shown)
    requires |a| == |b|
    ensures a + [x] == b + [y] <==> a == b && x == y
  {
    assert (a + [x])[..|a|] == a && (b + [y])[..|b|] == b;
    assert (a + [x])[|a|] == x && (b + [y])[|b|] == y;
  }

  function Start(t: Type): Call {
    Call(t, Substitutions(map[]), {})
  }

  /** For any type in any program: every matcher has the result of lexical scoping
      exactly when no binding that strays on the way does harm. */
  lemma LexicalExactly(p: Program, t: Type)
    requires p.Valid()
    ensures Harmless(p, Start(t), Substitutions(map[])) <==>
              forall matcher: (Type, seq<Shown>) -> Shown ::
                ResolvedTypeMatches(p, Inherited, matcher, t) == ResolvedTypeMatches(p, Lexical, matcher, t)
  {
    hide Evaluate, Harmless;
    ShownAlike(p, Start(t), Substitutions(map[]));
    forall matcher: (Type, seq<Shown>) -> Shown
      ensures Harmless(p, Start(t), Substitutions(map[])) ==>
                ResolvedTypeMatches(p, Inherited, matcher, t) == ResolvedTypeMatches(p, Lexical, matcher, t)
    {
      EvaluateFolds(p, Inherited, matcher, Start(t));
      EvaluateFolds(p, Lexical, matcher, Start(t));
    }
    assert ResolvedTypeMatches(p, Inherited, Record(), t) == Show(p, Inherited, Start(t));
    assert ResolvedTypeMatches(p, Lexical, Record(), t) == Show(p, Lexical, Start(t));
  }

  /** On no branch is a type shown twice, nor one of `above`. */
  ghost predicate Unrepeated(s: Shown, above: set<Type>) {
    s.current !in above && forall i :: 0 <= i < |s.parts| ==> Unrepeated(s.parts[i], above + {s.current})
  }

  /** Every part of a type is shown. */
  ghost predicate Whole(s: Shown) {
    |s.parts| == |Parts(s.current)| && forall i :: 0 <= i < |s.parts| ==> Whole(s.parts[i])
  }

  lemma {:induction false} ShowsWhole(p: Program, scoping: Scoping, c: Call)
    requires p.Valid()
    ensures Whole(Show(p, scoping, c))
    decreases p.aliases.Keys - c.resolving, c.substitutions, c.current
  {
    match Acts(p, scoping, c)
    case Substitute(call) => ShowsWhole(p, scoping, call);
    case Unfold(_, call) => ShowsWhole(p, scoping, call);
    case Match =>
      ShowsParts(p, scoping, c, |Parts(c.current)|);
      forall i | 0 <= i < |Parts(c.current)| ensures Whole(Show(p, scoping, c.(current := Parts(c.current)[i]))) {
        ShowsWhole(p, scoping, c.(current := Parts(c.current)[i]));
      }
  }

  /** Asks about one part of one type, and otherwise as before. */
  function Asking(matcher: (Type, seq<bool>) -> bool, about: Type, part: nat): (Type, seq<bool>) -> bool {
    (t, answers) => if t == about then part < |answers| && answers[part] else matcher(t, answers)
  }

  lemma {:induction false} AskingElsewhere(matcher: (Type, seq<bool>) -> bool, about: Type, part: nat, s: Shown,
                                           above: set<Type>)
    requires Unrepeated(s, above) && about in above
    ensures Fold(Asking(matcher, about, part), s) == Fold(matcher, s)
    decreases s, |s.parts| + 1
  {
    AskingParts(matcher, about, part, s, above, |s.parts|);
  }

  lemma {:induction false} AskingParts(matcher: (Type, seq<bool>) -> bool, about: Type, part: nat, s: Shown,
                                       above: set<Type>, n: nat)
    requires Unrepeated(s, above) && about in above && n <= |s.parts|
    ensures FoldParts(Asking(matcher, about, part), s, n) == FoldParts(matcher, s, n)
    decreases s, n
  {
    hide Fold, Asking;
    if n > 0 {
      AskingParts(matcher, about, part, s, above, n - 1);
      AskingElsewhere(matcher, about, part, s.parts[n - 1], above + {s.current});
    }
  }

  lemma {:induction false} FoldedParts<R>(matcher: (Type, seq<R>) -> R, s: Shown, n: nat)
    requires n <= |s.parts|
    ensures |FoldParts(matcher, s, n)| == n
    ensures forall i :: 0 <= i < n ==> FoldParts(matcher, s, n)[i] == Fold(matcher, s.parts[i])
  {
    hide Fold;
    if n > 0 {
      FoldedParts(matcher, s, n - 1);
    }
  }

  lemma AskingFolds(matcher: (Type, seq<bool>) -> bool, s: Shown, part: nat, above: set<Type>)
    requires Unrepeated(s, above) && part < |s.parts|
    ensures Fold(Asking(matcher, s.current, part), s) == Fold(matcher, s.parts[part])
  {
    var asking := Asking(matcher, s.current, part);
    FoldedParts(asking, s, |s.parts|);
    AskingElsewhere(matcher, s.current, part, s.parts[part], above + {s.current});
  }

  /** A rule that answers true or false can tell two different trees apart. */
  lemma {:induction false} Telling(a: Shown, b: Shown, above: set<Type>) returns (matcher: (Type, seq<bool>) -> bool)
    requires a != b && Whole(a) && Whole(b) && Unrepeated(a, above) && Unrepeated(b, above)
    ensures Fold(matcher, a) != Fold(matcher, b)
  {
    if a.current != b.current {
      var current := a.current;
      matcher := (t, answers) => t == current;
    } else {
      hide Fold, Asking;
      var i :| 0 <= i < |a.parts| && a.parts[i] != b.parts[i];
      matcher := Telling(a.parts[i], b.parts[i], above + {a.current});
      AskingFolds(matcher, a, i, above);
      AskingFolds(matcher, b, i, above);
      matcher := Asking(matcher, a.current, i);
    }
  }

  /** So for the rules too: every rule has the result of lexical scoping exactly when
      no binding that strays on the way does harm. */
  lemma RulesLexicalExactly(p: Program, t: Type)
    requires p.Valid()
    requires Unrepeated(Show(p, Inherited, Start(t)), {}) && Unrepeated(Show(p, Lexical, Start(t)), {})
    ensures Harmless(p, Start(t), Substitutions(map[])) <==>
              forall matcher: (Type, seq<bool>) -> bool ::
                ResolvedTypeMatches(p, Inherited, matcher, t) == ResolvedTypeMatches(p, Lexical, matcher, t)
  {
    hide Evaluate, Harmless, Show, Whole, Unrepeated, Fold;
    var a, b := Show(p, Inherited, Start(t)), Show(p, Lexical, Start(t));
    ShownAlike(p, Start(t), Substitutions(map[]));
    if a == b {
      forall matcher: (Type, seq<bool>) -> bool
        ensures ResolvedTypeMatches(p, Inherited, matcher, t) == ResolvedTypeMatches(p, Lexical, matcher, t)
      {
        EvaluateFolds(p, Inherited, matcher, Start(t));
        EvaluateFolds(p, Lexical, matcher, Start(t));
      }
    } else {
      ShowsWhole(p, Inherited, Start(t));
      ShowsWhole(p, Lexical, Start(t));
      var matcher := Telling(a, b, {});
      EvaluateFolds(p, Inherited, matcher, Start(t));
      EvaluateFolds(p, Lexical, matcher, Start(t));
      assert ResolvedTypeMatches(p, Inherited, matcher, t) != ResolvedTypeMatches(p, Lexical, matcher, t);
    }
  }

  /** A rule may start from an alias's own text, and then the text is shown again where
      the alias is unfolded: `type A = (A)` from its right-hand side. */
  function Recurring(): Program {
    Program(
      map[0 := Alias([], Compound("parenthesized", [Reference(1, Some("A"), [])]))],
      map["A" := [Binding(Some(0), 0)]],
      (scope, use) => Some(0),
      use => {},
      use => {})
  }

  lemma TextShownTwice()
    ensures Recurring().Valid()
    ensures !Unrepeated(Show(Recurring(), Inherited, Start(Recurring().aliases[0].annotation)), {})
  {
    hide Visible;
    var p, empty := Recurring(), Substitutions(map[]);
    var text, own := Compound("parenthesized", [Reference(1, Some("A"), [])]), Reference(1, Some("A"), []);
    VisibleAlone(p, "A", 1, Binding(Some(0), 0));
    var inner := Call(own, empty, {});
    assert Bound([], [], empty, empty, 0) == Some(empty);
    assert Acts(p, Inherited, inner) == Unfold(0, Call(text, empty, {0}));
    ShowsParts(p, Inherited, Start(text), 1);
    ShowsParts(p, Inherited, Call(text, empty, {0}), 1);
    assert Show(p, Inherited, Start(text)).parts[0] == Show(p, Inherited, inner);
    assert Show(p, Inherited, inner) == Show(p, Inherited, Call(text, empty, {0}));
    assert Show(p, Inherited, inner).current == text;
  }

  /** A reference that a type parameter in scope shadows, and no binding replaces, is
      itself what every matcher is shown, with its arguments evaluated where it is. */
  lemma ShadowedIsShown(p: Program, scoping: Scoping, c: Call)
    requires p.Valid() && c.current.Reference? && c.current.name.Some?
    requires c.current.name.value in p.shadowed(c.current.use) && c.current.name.value !in c.substitutions.closures
    ensures Show(p, scoping, c).current == c.current
    ensures |Show(p, scoping, c).parts| == |c.current.arguments|
    ensures forall i :: 0 <= i < |c.current.arguments| ==>
              Show(p, scoping, c).parts[i] == Show(p, scoping, c.(current := c.current.arguments[i]))
  {
    assert Acts(p, scoping, c).Match?;
    ShowsParts(p, scoping, c, |Parts(c.current)|);
  }

  /** A type as it is written. */
  function Plainly(t: Type): Shown {
    Shown(t, PlainlyAll(Parts(t), |Parts(t)|))
  }

  function PlainlyAll(parts: seq<Type>, n: nat): seq<Shown>
    requires n <= |parts|
    decreases parts, n
  {
    if n == 0 then [] else PlainlyAll(parts, n - 1) + [Plainly(parts[n - 1])]
  }

  /** None of the names in a type is bound, and none is that of an alias in view. */
  ghost predicate Opaque(p: Program, t: Type, bound: set<string>) {
    && (t.Reference? && t.name.Some? ==>
          && t.name.value !in bound
          && (t.name.value in p.shadowed(t.use) || t.name.value !in p.bindings))
    && forall i :: 0 <= i < |Parts(t)| ==> Opaque(p, Parts(t)[i], bound)
  }

  /** Such a type is shown as it is written. */
  lemma {:induction false} OpaqueIsShown(p: Program, scoping: Scoping, c: Call)
    requires p.Valid() && Opaque(p, c.current, c.substitutions.closures.Keys)
    ensures Show(p, scoping, c) == Plainly(c.current)
    decreases c.current, |Parts(c.current)| + 1
  {
    assert Acts(p, scoping, c).Match?;
    OpaquePartsShown(p, scoping, c, |Parts(c.current)|);
  }

  lemma {:induction false} OpaquePartsShown(p: Program, scoping: Scoping, c: Call, n: nat)
    requires p.Valid() && Opaque(p, c.current, c.substitutions.closures.Keys) && n <= |Parts(c.current)|
    ensures Answers(p, scoping, Record(), c, n) == PlainlyAll(Parts(c.current), n)
    decreases c.current, n
  {
    hide Acts, Evaluate;
    if n > 0 {
      OpaquePartsShown(p, scoping, c, n - 1);
      OpaqueIsShown(p, scoping, c.(current := Parts(c.current)[n - 1]));
    }
  }

  /** Where the stray name is bound by the text itself, or means nothing, no harm is
      done only by a binding that leads back to that very reference. */
  lemma StrayGuard(p: Program, c: Call, l: Substitutions)
    requires p.Valid() && Strays(p, c.current, c.substitutions, l)
    requires c.current.name.value in p.rebound(c.current.use) || Visible(p, c.current.name.value, c.current.use).None?
    ensures Harmless(p, c, l) <==> Show(p, Inherited, Acts(p, Inherited, c).call).current == c.current
  {
    hide Visible;
    var call, lexical := Acts(p, Inherited, c).call, c.(substitutions := l);
    assert Acts(p, Lexical, lexical).Match?;
    ShowsParts(p, Lexical, lexical, 0);
    assert Show(p, Lexical, lexical) == Record()(c.current, []);
    ShowsWhole(p, Inherited, call);
  }

  /** The names a type mentions without arguments, and where. */
  function Mentioned(t: Type): set<(nat, string)> {
    (if t.Reference? && t.name.Some? && t.arguments == [] then {(t.use, t.name.value)} else {})
    + MentionedIn(Parts(t))
  }

  function MentionedIn(parts: seq<Type>): set<(nat, string)> {
    if parts == [] then {} else Mentioned(parts[0]) + MentionedIn(parts[1..])
  }

  lemma {:induction false} PartMentions(parts: seq<Type>, i: nat)
    requires i < |parts|
    ensures Mentioned(parts[i]) <= MentionedIn(parts)
  {
    if i > 0 {
      PartMentions(parts[1..], i - 1);
    }
  }

  /** A name that is a parameter of some alias. */
  ghost predicate IsParameter(p: Program, name: string) {
    exists a :: a in p.aliases && name in Names(p.aliases[a].parameters, |p.aliases[a].parameters|)
  }

  /** Where a text mentions a parameter of any alias, it is one of `own` and the text
      does not bind it anew. */
  ghost predicate MentionsOnly(p: Program, t: Type, own: set<string>) {
    forall m :: m in Mentioned(t) && IsParameter(p, m.1) ==> m.1 in own && m.1 !in p.rebound(m.0)
  }

  /** No alias mentions a parameter of another, or in a default one that comes later,
      or under the name of one a type parameter of its own text. */
  ghost predicate Hygienic(p: Program) {
    forall a :: a in p.aliases ==>
      var parameters := p.aliases[a].parameters;
      && MentionsOnly(p, p.aliases[a].annotation, Names(parameters, |parameters|))
      && forall k :: 0 <= k < |parameters| && parameters[k].default.Some? ==>
           MentionsOnly(p, parameters[k].default.value, Names(parameters, k))
  }

  /** Nothing a type mentions strays, here or in the closures it leads to. */
  ghost predicate Settled(p: Program, t: Type, e: Substitutions, l: Substitutions)
    decreases e
  {
    forall m :: m in Mentioned(t) && m.1 in e.closures ==>
      && m.1 in l.closures && m.1 !in p.rebound(m.0)
      && SettledClosure(p, e.closures[m.1], l.closures[m.1])
  }

  ghost predicate SettledClosure(p: Program, c: Closure, d: Closure)
    decreases c
  {
    Settled(p, c.written, c.substitutions, d.substitutions)
  }

  /** Only parameters of aliases are bound. */
  ghost predicate BindsParameters(p: Program, e: Substitutions) {
    forall x :: x in e.closures ==> IsParameter(p, x) && BindsParameters(p, e.closures[x].substitutions)
  }

  lemma SettledParts(p: Program, t: Type, e: Substitutions, l: Substitutions, i: nat)
    requires Settled(p, t, e, l) && i < |Parts(t)|
    ensures Settled(p, Parts(t)[i], e, l)
  {
    PartMentions(Parts(t), i);
  }

  /** After some parameters are bound: the lexical bindings are theirs, and every
      one of them is settled. */
  ghost predicate SettledNames(p: Program, names: set<string>, e: Substitutions, l: Substitutions) {
    && BindsParameters(p, e) && l.closures.Keys == names && names <= e.closures.Keys
    && forall x :: x in names ==> SettledClosure(p, e.closures[x], l.closures[x])
  }

  lemma SettleNext(p: Program, names: set<string>, e: Substitutions, l: Substitutions, x: string, c: Closure, d: Closure)
    requires SettledNames(p, names, e, l) && SettledClosure(p, c, d)
    requires BindsParameters(p, c.substitutions) && IsParameter(p, x)
    ensures SettledNames(p, names + {x}, Substitutions(e.closures[x := c]), Substitutions(l.closures[x := d]))
  {
    hide SettledClosure, IsParameter;
  }

  lemma MentionsSettled(p: Program, names: set<string>, e: Substitutions, l: Substitutions, t: Type)
    requires SettledNames(p, names, e, l) && MentionsOnly(p, t, names)
    ensures Settled(p, t, e, l)
  {
    hide SettledClosure, IsParameter, Mentioned;
  }

  lemma {:induction false} BoundSettled(p: Program, a: nat, arguments: seq<Type>, e: Substitutions, l: Substitutions, n: nat)
    requires Hygienic(p) && a in p.aliases && n <= |p.aliases[a].parameters|
    requires BindsParameters(p, e) && forall i :: 0 <= i < |arguments| ==> Settled(p, arguments[i], e, l)
    ensures var parameters := p.aliases[a].parameters;
            var x, y := Bound(parameters, arguments, e, e, n), Bound(parameters, arguments, l, Substitutions(map[]), n);
            x.Some? && y.Some? ==> SettledNames(p, Names(parameters, n), x.value, y.value)
  {
    hide Settled, IsParameter, BindsParameters, SettledNames, Mentioned, MentionsOnly, Names;
    var parameters := p.aliases[a].parameters;
    if n == 0 {
      NothingSettled(p, e);
      NoNames(parameters);
    } else {
      BoundSettled(p, a, arguments, e, l, n - 1);
      var x, y := Bound(parameters, arguments, e, e, n - 1), Bound(parameters, arguments, l, Substitutions(map[]), n - 1);
      if x.Some? && y.Some? {
        OwnParameter(p, a, n - 1);
        NamesNext(parameters, n - 1);
        if n <= |arguments| {
          SettleNext(p, Names(parameters, n - 1), x.value, y.value, parameters[n - 1].name,
                     Closure(arguments[n - 1], e), Closure(arguments[n - 1], l));
        } else if parameters[n - 1].default.Some? {
          var t := parameters[n - 1].default.value;
          MentionsSettled(p, Names(parameters, n - 1), x.value, y.value, t);
          NamesBind(p, Names(parameters, n - 1), x.value, y.value);
          SettleNext(p, Names(parameters, n - 1), x.value, y.value, parameters[n - 1].name,
                     Closure(t, x.value), Closure(t, y.value));
        }
      }
    }
  }

  lemma NothingSettled(p: Program, e: Substitutions)
    requires BindsParameters(p, e)
    ensures SettledNames(p, {}, e, Substitutions(map[]))
  {
  }

  lemma NamesBind(p: Program, names: set<string>, e: Substitutions, l: Substitutions)
    requires SettledNames(p, names, e, l)
    ensures BindsParameters(p, e)
  {
  }

  lemma OwnParameter(p: Program, a: nat, k: nat)
    requires a in p.aliases && k < |p.aliases[a].parameters|
    ensures IsParameter(p, p.aliases[a].parameters[k].name)
  {
    assert p.aliases[a].parameters[k].name in Names(p.aliases[a].parameters, |p.aliases[a].parameters|);
  }

  /** A call in a settled place does not stray and leads to settled places. */
  lemma ActsSettled(p: Program, c: Call, l: Substitutions)
    requires p.Valid() && Hygienic(p) && BindsParameters(p, c.substitutions) && Corresponds(c.substitutions, l)
    requires Settled(p, c.current, c.substitutions, l)
    ensures !Strays(p, c.current, c.substitutions, l)
    ensures var x, y := Acts(p, Inherited, c), Acts(p, Lexical, c.(substitutions := l));
            !x.Match? && !y.Match? ==>
              && BindsParameters(p, x.call.substitutions)
              && Settled(p, x.call.current, x.call.substitutions, y.call.substitutions)
  {
    hide Visible, Hygienic, Bound, SettledNames, MentionsOnly;
    if c.current.Reference? && c.current.name.Some? {
      var name := c.current.name.value;
      if c.current.arguments == [] {
        assert (c.current.use, name) in Mentioned(c.current);
      }
      var alias := Visible(p, name, c.current.use);
      if alias.Some? {
        InstancesSettled(p, alias.value, c, l);
      }
    }
  }

  lemma InstancesSettled(p: Program, a: nat, c: Call, l: Substitutions)
    requires Hygienic(p) && a in p.aliases && c.current.Reference?
    requires BindsParameters(p, c.substitutions) && Settled(p, c.current, c.substitutions, l)
    ensures var alias := p.aliases[a];
            var x, y := Instantiated(alias, Inherited, c), Instantiated(alias, Lexical, c.(substitutions := l));
            x.Some? && y.Some? ==> BindsParameters(p, x.value) && Settled(p, alias.annotation, x.value, y.value)
  {
    hide Settled, IsParameter, BindsParameters, SettledNames, Mentioned, MentionsOnly, Bound;
    var alias := p.aliases[a];
    forall i | 0 <= i < |c.current.arguments| ensures Settled(p, c.current.arguments[i], c.substitutions, l) {
      SettledParts(p, c.current, c.substitutions, l, i);
    }
    BoundSettled(p, a, c.current.arguments, c.substitutions, l, |alias.parameters|);
    var x, y := Instantiated(alias, Inherited, c), Instantiated(alias, Lexical, c.(substitutions := l));
    if x.Some? && y.Some? {
      MentionsSettled(p, Names(alias.parameters, |alias.parameters|), x.value, y.value, alias.annotation);
      NamesBind(p, Names(alias.parameters, |alias.parameters|), x.value, y.value);
    }
  }

  /** In a hygienic program nothing strays from a settled place on. */
  lemma {:induction false} SettledHarmless(p: Program, c: Call, l: Substitutions)
    requires p.Valid() && Hygienic(p) && BindsParameters(p, c.substitutions) && Corresponds(c.substitutions, l)
    requires Settled(p, c.current, c.substitutions, l)
    ensures Harmless(p, c, l)
    decreases p.aliases.Keys - c.resolving, c.substitutions, c.current, |Parts(c.current)| + 1
  {
    hide Hygienic, BindsParameters, Settled, Corresponds;
    ActsSettled(p, c, l);
    ActsAlike(p, c, l);
    var x, y := Acts(p, Inherited, c), Acts(p, Lexical, c.(substitutions := l));
    if x.Match? {
      SettledPartsHarmless(p, c, l, |Parts(c.current)|);
    } else {
      SettledHarmless(p, x.call, y.call.substitutions);
    }
  }

  lemma {:induction false} SettledPartsHarmless(p: Program, c: Call, l: Substitutions, n: nat)
    requires p.Valid() && Hygienic(p) && BindsParameters(p, c.substitutions) && Corresponds(c.substitutions, l)
    requires Settled(p, c.current, c.substitutions, l) && n <= |Parts(c.current)|
    ensures HarmlessParts(p, c, l, n)
    decreases p.aliases.Keys - c.resolving, c.substitutions, c.current, n
  {
    hide Hygienic, BindsParameters, Settled, Corresponds, Harmless;
    if n > 0 {
      SettledPartsHarmless(p, c, l, n - 1);
      SettledParts(p, c.current, c.substitutions, l, n - 1);
      SettledHarmless(p, c.(current := Parts(c.current)[n - 1]), l);
    }
  }

  /** In a hygienic program every matcher has the result of lexical scoping on every
      type. */
  lemma MatchesLexically<R>(p: Program, matcher: (Type, seq<R>) -> R, t: Type)
    requires p.Valid() && Hygienic(p)
    ensures ResolvedTypeMatches(p, Inherited, matcher, t) == ResolvedTypeMatches(p, Lexical, matcher, t)
  {
    hide Hygienic, Evaluate, Harmless;
    SettledHarmless(p, Start(t), Substitutions(map[]));
    ShownAlike(p, Start(t), Substitutions(map[]));
    EvaluateFolds(p, Inherited, matcher, Start(t));
    EvaluateFolds(p, Lexical, matcher, Start(t));
  }

  /** Without hygiene the two can differ. `type Outer<T> = Inner; type Inner = T` has
      the caller's `T` reach into `Inner`. */
  function Leaky(): Program {
    Program(
      map[0 := Alias([Parameter("T", None)], Reference(1, Some("Inner"), [])),
          1 := Alias([], Reference(2, Some("T"), []))],
      map["Outer" := [Binding(Some(0), 0)], "Inner" := [Binding(Some(1), 0)]],
      (scope, use) => Some(0),
      use => {},
      use => {})
  }

  lemma VisibleAlone(p: Program, name: string, use: nat, binding: Binding)
    requires p.Valid() && Candidates(p, name) == [binding]
    requires name !in p.shadowed(use) && p.distance(binding.scope, use).Some?
    ensures Visible(p, name, use) == binding.alias
  {
    var candidates := [binding];
    assert candidates[..0] == [];
    assert Least(p, candidates, use) == p.distance(binding.scope, use);
    assert At(p, candidates, use, Least(p, candidates, use).value) == [] + [binding];
  }

  lemma LeakyNames()
    ensures var p := Leaky();
            && p.Valid()
            && Visible(p, "Outer", 0) == Some(0) && Visible(p, "Inner", 1) == Some(1) && Visible(p, "T", 2) == None
  {
    var p := Leaky();
    VisibleAlone(p, "Outer", 0, Binding(Some(0), 0));
    VisibleAlone(p, "Inner", 1, Binding(Some(1), 0));
  }

  lemma LeakyUnhygienic()
    ensures !Hygienic(Leaky())
  {
    var p := Leaky();
    OwnParameter(p, 0, 0);
    assert (2, "T") in Mentioned(p.aliases[1].annotation);
    assert "T" !in Names(p.aliases[1].parameters, 0);
  }

  lemma LeakyDiffers()
    ensures Leaky().Valid() && !Hygienic(Leaky())
    ensures var unknown := Compound("unknown", []);
            var matcher := (t: Type, answers: seq<bool>) => t == unknown;
            var t := Reference(0, Some("Outer"), [unknown]);
            ResolvedTypeMatches(Leaky(), Inherited, matcher, t) && !ResolvedTypeMatches(Leaky(), Lexical, matcher, t)
  {
    hide Visible, Hygienic, Evaluate;
    LeakyNames();
    LeakyUnhygienic();
    var p := Leaky();
    var unknown := Compound("unknown", []);
    var matcher := (t: Type, answers: seq<bool>) => t == unknown;
    var empty := Substitutions(map[]);
    var given := Substitutions(map["T" := Closure(unknown, empty)]);
    var outer, inner, leaf := Reference(0, Some("Outer"), [unknown]), Reference(1, Some("Inner"), []), Reference(2, Some("T"), []);
    var first, second := Call(inner, given, {0}), Call(leaf, given, {0, 1});
    var parameters := p.aliases[0].parameters;
    assert Bound(parameters, [unknown], empty, empty, 0) == Some(empty);
    assert Bound(parameters, [unknown], empty, empty, 1) == Some(given);
    assert Acts(p, Inherited, Call(outer, empty, {})) == Unfold(0, first);
    assert Acts(p, Lexical, Call(outer, empty, {})) == Unfold(0, first);
    assert Acts(p, Inherited, first) == Unfold(1, second);
    assert Acts(p, Lexical, first) == Unfold(1, second.(substitutions := empty));
    assert Acts(p, Inherited, second) == Substitute(Call(unknown, empty, {0, 1}));
    Follows(p, Inherited, matcher, Call(outer, empty, {}));
    Follows(p, Inherited, matcher, first);
    Follows(p, Inherited, matcher, second);
    Follows(p, Inherited, matcher, Call(unknown, empty, {0, 1}));
    Follows(p, Lexical, matcher, Call(outer, empty, {}));
    Follows(p, Lexical, matcher, first);
    Follows(p, Lexical, matcher, second.(substitutions := empty));
  }

  lemma Follows(p: Program, scoping: Scoping, matcher: (Type, seq<bool>) -> bool, c: Call)
    requires p.Valid()
    ensures var action := Acts(p, scoping, c);
            Evaluate(p, scoping, matcher, c) ==
            if action.Match? then matcher(c.current, Answers(p, scoping, matcher, c, |Parts(c.current)|))
            else Evaluate(p, scoping, matcher, action.call)
  {
  }

  /** And `type Make<T> = <T>() => T` has the argument replace the function type's
      own `T`. */
  function Rebinding(): Program {
    Program(
      map[0 := Alias([Parameter("T", None)], Compound("function", [Reference(1, Some("T"), [])]))],
      map["Make" := [Binding(Some(0), 0)]],
      (scope, use) => Some(0),
      use => if use == 1 then {"T"} else {},
      use => if use == 1 then {"T"} else {})
  }

  lemma RebindingNames()
    ensures var p := Rebinding();
            p.Valid() && Visible(p, "Make", 0) == Some(0) && Visible(p, "T", 1) == None && !Hygienic(p)
  {
    var p := Rebinding();
    VisibleAlone(p, "Make", 0, Binding(Some(0), 0));
    OwnParameter(p, 0, 0);
    var parts := Parts(p.aliases[0].annotation);
    PartMentions(parts, 0);
    assert (1, "T") in Mentioned(parts[0]);
  }

  /** Whether a type is `unknown` or its one part is. */
  function ReturnsUnknown(): (Type, seq<bool>) -> bool {
    (t, answers) => t == Compound("unknown", []) || answers == [true]
  }

  lemma RebindingDiffers()
    ensures Rebinding().Valid() && !Hygienic(Rebinding())
    ensures var t := Reference(0, Some("Make"), [Compound("unknown", [])]);
            && ResolvedTypeMatches(Rebinding(), Inherited, ReturnsUnknown(), t)
            && !ResolvedTypeMatches(Rebinding(), Lexical, ReturnsUnknown(), t)
  {
    hide Visible, Hygienic, Evaluate;
    RebindingNames();
    RebindingAsks(Inherited);
    RebindingAsks(Lexical);
    var p, matcher := Rebinding(), ReturnsUnknown();
    var unknown, own := Compound("unknown", []), Reference(1, Some("T"), []);
    var empty := Substitutions(map[]);
    var inner := Call(own, Substitutions(map["T" := Closure(unknown, empty)]), {0});
    assert Acts(p, Inherited, inner) == Substitute(Call(unknown, empty, {0}));
    Follows(p, Inherited, matcher, inner);
    Follows(p, Inherited, matcher, Call(unknown, empty, {0}));
    Follows(p, Lexical, matcher, inner);
    NoAnswers(p, Lexical, matcher, inner);
  }

  /** Either way the question is passed on to the function's result. */
  lemma RebindingAsks(scoping: Scoping)
    ensures Rebinding().Valid()
    ensures var unknown := Compound("unknown", []);
            var given := Substitutions(map["T" := Closure(unknown, Substitutions(map[]))]);
            ResolvedTypeMatches(Rebinding(), scoping, ReturnsUnknown(), Reference(0, Some("Make"), [unknown])) ==
            Evaluate(Rebinding(), scoping, ReturnsUnknown(), Call(Reference(1, Some("T"), []), given, {0}))
  {
    hide Visible, Hygienic, Evaluate;
    RebindingNames();
    var p, matcher := Rebinding(), ReturnsUnknown();
    var unknown, own := Compound("unknown", []), Reference(1, Some("T"), []);
    var empty := Substitutions(map[]);
    var given := Substitutions(map["T" := Closure(unknown, empty)]);
    var make, body := Reference(0, Some("Make"), [unknown]), Call(Compound("function", [own]), given, {0});
    assert Bound(p.aliases[0].parameters, [unknown], empty, empty, 0) == Some(empty);
    assert Bound(p.aliases[0].parameters, [unknown], empty, empty, 1) == Some(given);
    assert Acts(p, scoping, Call(make, empty, {})) == Unfold(0, body);
    Follows(p, scoping, matcher, Call(make, empty, {}));
    Follows(p, scoping, matcher, body);
    OneAnswer(p, scoping, matcher, body);
  }

  lemma OneAnswer(p: Program, scoping: Scoping, matcher: (Type, seq<bool>) -> bool, c: Call)
    requires p.Valid() && |Parts(c.current)| == 1
    ensures Answers(p, scoping, matcher, c, 1) == [Evaluate(p, scoping, matcher, c.(current := Parts(c.current)[0]))]
  {
    hide Evaluate;
    assert Answers(p, scoping, matcher, c, 0) == [];
  }

  lemma NoAnswers(p: Program, scoping: Scoping, matcher: (Type, seq<bool>) -> bool, c: Call)
    requires p.Valid()
    ensures Answers(p, scoping, matcher, c, 0) == []
  {
  }
}
