/** Resolving type aliases: a matcher is run on a type with visible aliases unfolded
    and their parameters substituted, over closures and without following cycles. */
module TypeAliases {
  import opened Text

  /** A type as written. A reference knows where it is used; only a plain identifier
      gives it a name. */
  datatype Type =
    | Reference(use: nat, name: Option<string>, arguments: seq<Type>)
    | Compound(kind: string, parts: seq<Type>)

  datatype Parameter = Parameter(name: string, default: Option<Type>)

  datatype Alias = Alias(parameters: seq<Parameter>, annotation: Type)

  /** A declared type name: the alias it declares, if it is one, and its scope. */
  datatype Binding = Binding(alias: Option<nat>, scope: nat)

  /** A program's aliases and competing names. `distance` counts the steps from a use
      out to an enclosing scope. `shadowed` are the type parameters in scope at a use,
      and `rebound` those of them that the alias's own text binds: by a generic
      function type, a mapped type or an `infer` around the use. */
  datatype Program = Program(
    aliases: map<nat, Alias>,
    bindings: map<string, seq<Binding>>,
    distance: (nat, nat) -> Option<nat>,
    shadowed: nat -> set<string>,
    rebound: nat -> set<string>
  ) {
    ghost predicate Valid() {
      && (forall use :: rebound(use) <= shadowed(use))
      && forall name, i :: name in bindings && 0 <= i < |bindings[name]| && bindings[name][i].alias.Some? ==>
           bindings[name][i].alias.value in aliases
    }
  }

  /** A type together with the substitutions it was written under. */
  datatype Closure = Closure(written: Type, substitutions: Substitutions)

  datatype Substitutions = Substitutions(closures: map<string, Closure>)

  function Parts(t: Type): seq<Type> {
    if t.Reference? then t.arguments else t.parts
  }

  /** The least distance from a use to the scope of one of its candidates. */
  function Least(p: Program, candidates: seq<Binding>, use: nat): Option<nat> {
    if candidates == [] then None
    else
      var n := |candidates| - 1;
      var least, last := Least(p, candidates[..n], use), p.distance(candidates[n].scope, use);
      if last.None? || (least.Some? && least.value < last.value) then least else last
  }

  /** The candidates at a distance, in order. */
  function At(p: Program, candidates: seq<Binding>, use: nat, distance: nat): seq<Binding> {
    if candidates == [] then []
    else
      var n := |candidates| - 1;
      At(p, candidates[..n], use, distance)
      + if p.distance(candidates[n].scope, use) == Some(distance) then [candidates[n]] else []
  }

  function Nearest(p: Program, candidates: seq<Binding>, use: nat): seq<Binding> {
    var least := Least(p, candidates, use);
    if least.None? then [] else At(p, candidates, use, least.value)
  }

  lemma {:induction false} LeastIsLeast(p: Program, candidates: seq<Binding>, use: nat)
    ensures var least := Least(p, candidates, use);
            && (forall c :: c in candidates && p.distance(c.scope, use).Some? ==>
                  least.Some? && least.value <= p.distance(c.scope, use).value)
            && (least.Some? ==> exists c :: c in candidates && p.distance(c.scope, use) == least)
  {
    if candidates != [] {
      var n := |candidates| - 1;
      LeastIsLeast(p, candidates[..n], use);
      assert candidates == candidates[..n] + [candidates[n]];
    }
  }

  lemma {:induction false} AtKeepsAll(p: Program, candidates: seq<Binding>, use: nat, distance: nat)
    ensures forall c :: c in At(p, candidates, use, distance) <==>
              c in candidates && p.distance(c.scope, use) == Some(distance)
  {
    if candidates != [] {
      var n := |candidates| - 1;
      AtKeepsAll(p, candidates[..n], use, distance);
      assert candidates == candidates[..n] + [candidates[n]];
    }
  }

  /** Nothing lies where no candidate does. */
  lemma {:induction false} NoneThere(p: Program, candidates: seq<Binding>, use: nat, distance: nat)
    requires forall c :: c in candidates ==> p.distance(c.scope, use) != Some(distance)
    ensures At(p, candidates, use, distance) == []
  {
    if candidates != [] {
      assert candidates[|candidates| - 1] in candidates;
      NoneThere(p, candidates[..|candidates| - 1], use, distance);
    }
  }

  method NearestTypeBindings(p: Program, name: string, use: nat) returns (nearest: seq<Binding>)
    ensures nearest == Nearest(p, Candidates(p, name), use)
  {
    var candidates := Candidates(p, name);
    var nearestDistance: Option<nat> := None;
    nearest := [];
    for i := 0 to |candidates|
      invariant nearestDistance == Least(p, candidates[..i], use)
      invariant nearest == Nearest(p, candidates[..i], use)
    {
      var candidate := candidates[i];
      assert candidates[..i + 1][..i] == candidates[..i];
      var distance := p.distance(candidate.scope, use);
      if distance.None? || (nearestDistance.Some? && distance.value > nearestDistance.value) {
      } else if distance == nearestDistance {
        nearest := nearest + [candidate];
      } else {
        LeastIsLeast(p, candidates[..i], use);
        NoneThere(p, candidates[..i], use, distance.value);
        nearestDistance, nearest := distance, [candidate];
      }
    }
    assert candidates[..|candidates|] == candidates;
  }

  function Candidates(p: Program, name: string): seq<Binding> {
    if name in p.bindings then p.bindings[name] else []
  }

  /** The one alias visible under a name, unless a type parameter shadows it. */
  function Visible(p: Program, name: string, use: nat): (alias: Option<nat>)
    requires p.Valid()
    ensures alias.Some? ==> alias.value in p.aliases
  {
    if name in p.shadowed(use) then None
    else
      var nearest := Nearest(p, Candidates(p, name), use);
      if |nearest| != 1 then None
      else
        assert nearest[0] in Candidates(p, name) by {
          LeastIsLeast(p, Candidates(p, name), use);
          AtKeepsAll(p, Candidates(p, name), use, Least(p, Candidates(p, name), use).value);
        }
        nearest[0].alias
  }

  /** Candidate `i` declares the name at a distance that no other undercuts or equals. */
  ghost predicate OnlyNearest(p: Program, candidates: seq<Binding>, use: nat, i: nat) {
    && i < |candidates| && p.distance(candidates[i].scope, use).Some?
    && forall j :: 0 <= j < |candidates| && j != i && p.distance(candidates[j].scope, use).Some? ==>
                     p.distance(candidates[i].scope, use).value < p.distance(candidates[j].scope, use).value
  }

  /** One candidate is nearest exactly when it is the only one at its distance. */
  lemma {:induction false} AtOne(p: Program, candidates: seq<Binding>, use: nat, distance: nat, i: nat)
    requires i < |candidates| && p.distance(candidates[i].scope, use) == Some(distance)
    ensures |At(p, candidates, use, distance)| >= 1
    ensures (forall j :: 0 <= j < |candidates| && j != i ==> p.distance(candidates[j].scope, use) != Some(distance)) <==>
              At(p, candidates, use, distance) == [candidates[i]] && |At(p, candidates, use, distance)| == 1
    decreases |candidates|
  {
    var n := |candidates| - 1;
    var front := candidates[..n];
    if i == n {
      if forall j :: 0 <= j < n ==> p.distance(candidates[j].scope, use) != Some(distance) {
        NoneThere(p, front, use, distance);
      } else {
        var j :| 0 <= j < n && p.distance(candidates[j].scope, use) == Some(distance);
        AtOne(p, front, use, distance, j);
      }
    } else {
      AtOne(p, front, use, distance, i);
    }
  }

  /** An alias is visible under a name exactly when no type parameter in scope has the
      name and the one nearest declaration of it declares that alias. */
  lemma VisibleExactly(p: Program, name: string, use: nat, a: nat)
    requires p.Valid()
    ensures Visible(p, name, use) == Some(a) <==>
              && name !in p.shadowed(use)
              && exists i: nat :: OnlyNearest(p, Candidates(p, name), use, i) && Candidates(p, name)[i].alias == Some(a)
  {
    hide Nearest;
    var candidates := Candidates(p, name);
    forall i: nat | i < |candidates| && OnlyNearest(p, candidates, use, i) ensures Nearest(p, candidates, use) == [candidates[i]] {
      NearestOne(p, candidates, use, i);
    }
    if |Nearest(p, candidates, use)| == 1 {
      var i := OneNearest(p, candidates, use);
    }
  }

  lemma NearestOne(p: Program, candidates: seq<Binding>, use: nat, i: nat)
    requires OnlyNearest(p, candidates, use, i)
    ensures Nearest(p, candidates, use) == [candidates[i]]
  {
    hide At, Least;
    LeastIsLeast(p, candidates, use);
    var distance := p.distance(candidates[i].scope, use);
    assert candidates[i] in candidates;
    assert Least(p, candidates, use) == distance;
    AtOne(p, candidates, use, distance.value, i);
  }

  lemma OneNearest(p: Program, candidates: seq<Binding>, use: nat) returns (i: nat)
    requires |Nearest(p, candidates, use)| == 1
    ensures OnlyNearest(p, candidates, use, i) && Nearest(p, candidates, use) == [candidates[i]]
  {
    hide At, Least;
    LeastIsLeast(p, candidates, use);
    var least := Least(p, candidates, use).value;
    AtKeepsAll(p, candidates, use, least);
    var one := At(p, candidates, use, least)[0];
    assert one in candidates;
    i :| i < |candidates| && candidates[i] == one;
    AtOne(p, candidates, use, least, i);
  }

  /** What the first `n` parameters are bound to, on top of `start`. An argument is
      read under the bindings at the reference, a default under those made so far. */
  function Bound(parameters: seq<Parameter>, arguments: seq<Type>, base: Substitutions, start: Substitutions, n: nat)
    : Option<Substitutions>
    requires n <= |parameters|
  {
    if n == 0 then Some(start)
    else
      var next := Bound(parameters, arguments, base, start, n - 1);
      if next.None? then None
      else
        var parameter := parameters[n - 1];
        if n <= |arguments| then
          Some(Substitutions(next.value.closures[parameter.name := Closure(arguments[n - 1], base)]))
        else if parameter.default.Some? then
          Some(Substitutions(next.value.closures[parameter.name := Closure(parameter.default.value, next.value)]))
        else None
  }

  /** The bindings of an alias start from the ones at the reference. */
  method AliasSubstitutions(alias: Alias, arguments: seq<Type>, base: Substitutions)
    returns (r: Option<Substitutions>)
    ensures r == Bound(alias.parameters, arguments, base, base, |alias.parameters|)
  {
    var next := base.closures;
    for i := 0 to |alias.parameters|
      invariant Bound(alias.parameters, arguments, base, base, i) == Some(Substitutions(next))
    {
      var parameter := alias.parameters[i];
      var explicit := if i < |arguments| then Some(arguments[i]) else None;
      var argument := if explicit.Some? then explicit else parameter.default;
      if argument.None? {
        BoundFails(alias.parameters, arguments, base, base, i + 1, |alias.parameters|);
        return None;
      }
      var argumentSubstitutions := if explicit.None? then next else base.closures;
      next := next[parameter.name := Closure(argument.value, Substitutions(argumentSubstitutions))];
    }
    r := Some(Substitutions(next));
  }

  lemma {:induction false} BoundFails(parameters: seq<Parameter>, arguments: seq<Type>, base: Substitutions,
                                      start: Substitutions, n: nat, m: nat)
    requires n <= m <= |parameters| && Bound(parameters, arguments, base, start, n).None?
    ensures Bound(parameters, arguments, base, start, m).None?
  {
    if n < m {
      BoundFails(parameters, arguments, base, start, n, m - 1);
    }
  }

  lemma {:induction false} BoundSome(parameters: seq<Parameter>, arguments: seq<Type>, base: Substitutions,
                                     start: Substitutions, n: nat)
    requires n <= |parameters|
    ensures Bound(parameters, arguments, base, start, n).Some? <==>
              forall k :: 0 <= k < n ==> k < |arguments| || parameters[k].default.Some?
  {
    if n > 0 {
      BoundSome(parameters, arguments, base, start, n - 1);
    }
  }

  lemma {:induction false} BoundRest(parameters: seq<Parameter>, arguments: seq<Type>, base: Substitutions,
                                     start: Substitutions, n: nat)
    requires n <= |parameters| && Bound(parameters, arguments, base, start, n).Some?
    ensures var bound := Bound(parameters, arguments, base, start, n).value.closures;
            && bound.Keys == start.closures.Keys + Names(parameters, n)
            && forall x :: x in start.closures && x !in Names(parameters, n) ==> bound[x] == start.closures[x]
  {
    hide Names;
    if n > 0 {
      BoundRest(parameters, arguments, base, start, n - 1);
      NamesNext(parameters, n - 1);
    } else {
      NoNames(parameters);
    }
  }

  /** The closure of one parameter: its argument, or the default under what is bound
      before it. */
  lemma {:induction false} BoundAt(parameters: seq<Parameter>, arguments: seq<Type>, base: Substitutions,
                                   start: Substitutions, k: nat, n: nat)
    requires k < n <= |parameters| && Bound(parameters, arguments, base, start, n).Some? && LastOf(parameters, k, n)
    ensures var bound, before := Bound(parameters, arguments, base, start, n).value.closures, Bound(parameters, arguments, base, start, k);
            && before.Some? && parameters[k].name in bound
            && (k < |arguments| ==> bound[parameters[k].name] == Closure(arguments[k], base))
            && (k >= |arguments| ==>
                  && parameters[k].default.Some?
                  && bound[parameters[k].name] == Closure(parameters[k].default.value, before.value))
  {
    if k < n - 1 {
      BoundAt(parameters, arguments, base, start, k, n - 1);
      assert parameters[n - 1].name != parameters[k].name;
    }
  }

  /** What an alias's parameters are bound to. It fails exactly when one of them has
      neither an argument nor a default; the bindings at the reference stay where no
      parameter has the name; and a parameter has its argument, read at the
      reference, or else its default, read where the parameters before it are bound.
      Of two parameters with one name the last counts. */
  lemma AliasBindings(alias: Alias, arguments: seq<Type>, base: Substitutions)
    ensures var parameters := alias.parameters;
            var bound := Bound(parameters, arguments, base, base, |parameters|);
            && (bound.Some? <==> forall k :: |arguments| <= k < |parameters| ==> parameters[k].default.Some?)
            && (bound.Some? ==>
                  && bound.value.closures.Keys == base.closures.Keys + Names(parameters, |parameters|)
                  && (forall x :: x in base.closures && x !in Names(parameters, |parameters|) ==>
                        bound.value.closures[x] == base.closures[x])
                  && forall k :: 0 <= k < |parameters| && LastOf(parameters, k, |parameters|) ==>
                       && parameters[k].name in bound.value.closures
                       && Bound(parameters, arguments, base, base, k).Some?
                       && bound.value.closures[parameters[k].name] ==
                          if k < |arguments| then Closure(arguments[k], base)
                          else Closure(parameters[k].default.value, Bound(parameters, arguments, base, base, k).value))
  {
    hide Bound, Names, LastOf;
    var parameters := alias.parameters;
    BoundSome(parameters, arguments, base, base, |parameters|);
    if Bound(parameters, arguments, base, base, |parameters|).Some? {
      BoundRest(parameters, arguments, base, base, |parameters|);
      forall k | 0 <= k < |parameters| && LastOf(parameters, k, |parameters|)
        ensures var bound := Bound(parameters, arguments, base, base, |parameters|).value.closures;
                && parameters[k].name in bound && Bound(parameters, arguments, base, base, k).Some?
                && bound[parameters[k].name] ==
                   if k < |arguments| then Closure(arguments[k], base)
                   else Closure(parameters[k].default.value, Bound(parameters, arguments, base, base, k).value)
      {
        BoundAt(parameters, arguments, base, base, k, |parameters|);
      }
    }
  }

  lemma NoNames(parameters: seq<Parameter>)
    ensures Names(parameters, 0) == {}
  {
  }

  function Names(parameters: seq<Parameter>, n: nat): set<string>
    requires n <= |parameters|
  {
    set i | 0 <= i < n :: parameters[i].name
  }

  lemma NamesNext(parameters: seq<Parameter>, n: nat)
    requires n < |parameters|
    ensures Names(parameters, n + 1) == Names(parameters, n) + {parameters[n].name}
  {
  }

  /** No later one of the first `n` parameters has the same name. */
  predicate LastOf(parameters: seq<Parameter>, k: nat, n: nat)
    requires k < n <= |parameters|
  {
    forall j :: k < j < n ==> parameters[j].name != parameters[k].name
  }

  /** How a name that a parameter binds is read. The program reads it under every
      binding in hand, those at the reference to the alias included. Lexically only
      the alias's own parameters count, and not where its text binds the name anew. */
  datatype Scoping = Inherited | Lexical

  /** One call of the evaluation. */
  datatype Call = Call(current: Type, substitutions: Substitutions, resolving: set<nat>)

  datatype Action = Substitute(call: Call) | Unfold(alias: nat, call: Call) | Match

  /** What a call does: follow a substitution, unfold an alias that is not being
      resolved yet, or hand the type to the matcher. */
  function Acts(p: Program, scoping: Scoping, c: Call): Action
    requires p.Valid()
  {
    if !c.current.Reference? || c.current.name.None? then Match
    else
      var name, closures := c.current.name.value, c.substitutions.closures;
      if scoping.Lexical? && name in p.rebound(c.current.use) then Match
      else if name in closures && c.current.arguments == [] then
        Substitute(Call(closures[name].written, closures[name].substitutions, c.resolving))
      else
        var alias := Visible(p, name, c.current.use);
        if alias.None? || alias.value in c.resolving then Match
        else
          var next := Instantiated(p.aliases[alias.value], scoping, c);
          if next.None? then Match
          else Unfold(alias.value, Call(p.aliases[alias.value].annotation, next.value, c.resolving + {alias.value}))
  }

  /** Whether a call follows a binding: its type is a bare name that is bound. */
  predicate Follows(c: Call) {
    && c.current.Reference? && c.current.name.Some?
    && c.current.name.value in c.substitutions.closures && c.current.arguments == []
  }

  /** Exactly when a call unfolds an alias: its type names it, no binding comes first,
      no type parameter shadows it, its declaration is the one nearest, it is not being
      resolved, and every parameter has an argument or a default. */
  lemma UnfoldsExactly(p: Program, c: Call, a: nat)
    requires p.Valid()
    ensures (Acts(p, Inherited, c).Unfold? && Acts(p, Inherited, c).alias == a) <==>
              && c.current.Reference? && c.current.name.Some? && !Follows(c)
              && c.current.name.value !in p.shadowed(c.current.use) && a !in c.resolving
              && (exists i: nat :: OnlyNearest(p, Candidates(p, c.current.name.value), c.current.use, i)
                                   && Candidates(p, c.current.name.value)[i].alias == Some(a))
              && a in p.aliases
              && forall k :: |c.current.arguments| <= k < |p.aliases[a].parameters| ==> p.aliases[a].parameters[k].default.Some?
    ensures Acts(p, Inherited, c).Unfold? ==>
              var Unfold(unfolded, call) := Acts(p, Inherited, c);
              && call.current == p.aliases[unfolded].annotation && call.resolving == c.resolving + {unfolded}
              && Bound(p.aliases[unfolded].parameters, c.current.arguments, c.substitutions, c.substitutions,
                       |p.aliases[unfolded].parameters|) == Some(call.substitutions)
    ensures Acts(p, Inherited, c).Substitute? <==> Follows(c)
    ensures Follows(c) ==>
              var closure := c.substitutions.closures[c.current.name.value];
              Acts(p, Inherited, c).call == Call(closure.written, closure.substitutions, c.resolving)
  {
    hide Visible, Bound, OnlyNearest;
    if c.current.Reference? && c.current.name.Some? {
      VisibleExactly(p, c.current.name.value, c.current.use, a);
      if a in p.aliases {
        AliasBindings(p.aliases[a], c.current.arguments, c.substitutions);
      }
    }
  }

  function Instantiated(alias: Alias, scoping: Scoping, c: Call): Option<Substitutions>
    requires c.current.Reference?
  {
    var start := if scoping.Inherited? then c.substitutions else Substitutions(map[]);
    Bound(alias.parameters, c.current.arguments, c.substitutions, start, |alias.parameters|)
  }

  /** Runs a matcher, which sees a type and the answers for its parts; a rule's
      answers are true or false. The recursion is well founded for cyclic aliases
      too: the aliases not yet being resolved, the closures in hand and the type
      decrease in this order. */
  function Evaluate<R>(p: Program, scoping: Scoping, matcher: (Type, seq<R>) -> R, c: Call): R
    requires p.Valid()
    decreases p.aliases.Keys - c.resolving, c.substitutions, c.current, |Parts(c.current)| + 1
  {
    match Acts(p, scoping, c)
    case Substitute(call) => Evaluate(p, scoping, matcher, call)
    case Unfold(_, call) => Evaluate(p, scoping, matcher, call)
    case Match =>
      matcher(c.current, Answers(p, scoping, matcher, c, |Parts(c.current)|))
  }

  /** The answers for the first `n` parts of a type. */
  function Answers<R>(p: Program, scoping: Scoping, matcher: (Type, seq<R>) -> R, c: Call, n: nat): seq<R>
    requires p.Valid() && n <= |Parts(c.current)|
    decreases p.aliases.Keys - c.resolving, c.substitutions, c.current, n
  {
    if n == 0 then []
    else
      Answers(p, scoping, matcher, c, n - 1)
      + [Evaluate(p, scoping, matcher, c.(current := Parts(c.current)[n - 1]))]
  }

  /** The evaluation as the rules start it. */
  function ResolvedTypeMatches<R>(p: Program, scoping: Scoping, matcher: (Type, seq<R>) -> R, t: Type): R
    requires p.Valid()
  {
    Evaluate(p, scoping, matcher, Call(t, Substitutions(map[]), {}))
  }

  /** A call makes another: the one it stands for, or one for a part it matches. */
  predicate Calls(p: Program, c: Call, d: Call)
    requires p.Valid()
  {
    var action := Acts(p, Inherited, c);
    if action.Match? then d.current in Parts(c.current) && d == c.(current := d.current) else d == action.call
  }

  /** No chain of calls goes on for ever, whatever the aliases, the bindings in hand
      and the matcher's choice of parts. */
  lemma {:induction false} ChainsStop(p: Program, chain: nat -> Call, n: nat) returns (m: nat)
    requires p.Valid()
    ensures m >= n && !Calls(p, chain(m), chain(m + 1))
    decreases p.aliases.Keys - chain(n).resolving, chain(n).substitutions, chain(n).current
  {
    if Calls(p, chain(n), chain(n + 1)) {
      m := ChainsStop(p, chain, n + 1);
    } else {
      m := n;
    }
  }

  /** How many calls of a chain unfold an alias. */
  function Unfoldings(p: Program, calls: seq<Call>): nat
    requires p.Valid()
  {
    if calls == [] then 0
    else Unfoldings(p, calls[..|calls| - 1]) + if Acts(p, Inherited, calls[|calls| - 1]).Unfold? then 1 else 0
  }

  ghost predicate Chain(p: Program, calls: seq<Call>)
    requires p.Valid()
  {
    forall i :: 0 < i < |calls| ==> Calls(p, calls[i - 1], calls[i])
  }

  /** A chain that starts with nothing being resolved unfolds each alias at most once. */
  lemma {:induction false} UnfoldingsBounded(p: Program, calls: seq<Call>)
    requires p.Valid() && Chain(p, calls) && calls != [] && calls[0].resolving == {}
    ensures calls[|calls| - 1].resolving <= p.aliases.Keys
    ensures |calls[|calls| - 1].resolving| == Unfoldings(p, calls[..|calls| - 1])
    ensures Unfoldings(p, calls) <= |p.aliases|
  {
    var n := |calls| - 1;
    if n > 0 {
      UnfoldingsBounded(p, calls[..n]);
      assert Calls(p, calls[n - 1], calls[n]);
      Resolves(p, calls[n - 1], calls[n]);
    }
    NextResolves(p, calls[n]);
  }

  /** A call resolves what the one before did, and the alias that unfolded. */
  lemma Resolves(p: Program, c: Call, d: Call)
    requires p.Valid() && Calls(p, c, d) && c.resolving <= p.aliases.Keys
    ensures d.resolving <= p.aliases.Keys
    ensures |d.resolving| == |c.resolving| + if Acts(p, Inherited, c).Unfold? then 1 else 0
  {
  }

  lemma NextResolves(p: Program, c: Call)
    requires p.Valid() && c.resolving <= p.aliases.Keys
    ensures |c.resolving| + (if Acts(p, Inherited, c).Unfold? then 1 else 0) <= |p.aliases|
  {
    var action := Acts(p, Inherited, c);
    Subset(if action.Unfold? then action.call.resolving else c.resolving, p.aliases.Keys);
    assert |p.aliases.Keys| == |p.aliases|;
  }

  lemma {:induction false} Subset(a: set<nat>, b: set<nat>)
    requires a <= b
    ensures |a| <= |b|
  {
    if a != {} {
      var x :| x in a;
      Subset(a - {x}, b - {x});
    }
  }
}
