/** The variable check of subscription templates (internal/subscription/render.go): a machine with a stack
    of scopes, proved against well-scoped trees of nested loops. */
module TemplateScopes {

  /** A template token, with the root names of its expression (rootIdentifiers). */
  datatype Token =
    | Expression(roots: seq<string>)                // {{ ... }}
    | Condition(roots: seq<string>)                 // {% if ... %}, {% elif ... %}
    | For(variable: string, roots: seq<string>)     // {% for variable in ... %}
    | MalformedFor                                  // any other {% for ... %}
    | EndFor                                        // {% endfor %}
    | Other                                         // {% else %}, {% endif %}, {% set ... %}, ...

  datatype Verdict = Accepted | Undefined(name: string) | UnsupportedFor | UnexpectedEndFor | UnclosedFor

  /** templateVariableAvailable: the names bound by the scopes together. */
  function Bound(scopes: seq<set<string>>): set<string> {
    if scopes == [] then {} else Bound(scopes[..|scopes| - 1]) + scopes[|scopes| - 1]
  }

  /** validateTemplateExpression: Accepted, or the first root that no scope binds. */
  function CheckRoots(roots: seq<string>, bound: set<string>): (v: Verdict)
    ensures v == Accepted <==> forall r :: r in roots ==> r in bound
  {
    if roots == [] then Accepted
    else if roots[0] !in bound then Undefined(roots[0])
    else CheckRoots(roots[1..], bound)
  }

  /** What the machine does from the given stack on. */
  function Run(tokens: seq<Token>, scopes: seq<set<string>>): Verdict
    requires scopes != []
  {
    if tokens == [] then
      if |scopes| == 1 then Accepted else UnclosedFor
    else
      var rest := tokens[1..];
      match tokens[0]
      case Other => Run(rest, scopes)
      case MalformedFor => UnsupportedFor
      case EndFor => if |scopes| == 1 then UnexpectedEndFor else Run(rest, scopes[..|scopes| - 1])
      case Expression(roots) =>
        var v := CheckRoots(roots, Bound(scopes));
        if v.Accepted? then Run(rest, scopes) else v
      case Condition(roots) =>
        var v := CheckRoots(roots, Bound(scopes));
        if v.Accepted? then Run(rest, scopes) else v
      case For(variable, roots) =>
        var v := CheckRoots(roots, Bound(scopes));
        if v.Accepted? then Run(rest, scopes + [{variable}]) else v
  }

  method TemplateVariableAvailable(name: string, scopes: seq<set<string>>) returns (available: bool)
    ensures available <==> name in Bound(scopes)
  {
    var index := |scopes|;
    assert scopes[..index] == scopes;
    while index > 0
      invariant 0 <= index <= |scopes|
      invariant name in Bound(scopes) <==> name in Bound(scopes[..index])
    {
      index := index - 1;
      assert scopes[..index + 1][..index] == scopes[..index];
      if name in scopes[index] {
        return true;
      }
    }
    return false;
  }

  method ValidateTemplateExpression(roots: seq<string>, scopes: seq<set<string>>) returns (v: Verdict)
    ensures v == CheckRoots(roots, Bound(scopes))
  {
    for i := 0 to |roots|
      invariant CheckRoots(roots, Bound(scopes)) == CheckRoots(roots[i..], Bound(scopes))
    {
      var available := TemplateVariableAvailable(roots[i], scopes);
      if !available {
        return Undefined(roots[i]);
      }
    }
    return Accepted;
  }

  /** validateTemplateVariables */
  method ValidateTemplateVariables(tokens: seq<Token>, context: set<string>) returns (v: Verdict)
    ensures v == Run(tokens, [context])
    ensures v == Accepted <==> exists f :: Flatten(f) == tokens && WellScoped(f, context)
    ensures IsVerdict(tokens, context, v)
  {
    AcceptedIffWellScoped(tokens, context);
    VerdictIs(tokens, context);
    hide IsVerdict;
    var scopes := [context];
    for i := 0 to |tokens|
      invariant scopes != [] && Run(tokens, [context]) == Run(tokens[i..], scopes)
    {
      match tokens[i] {
        case Other =>
        case MalformedFor =>
          return UnsupportedFor;
        case EndFor =>
          if |scopes| == 1 {
            return UnexpectedEndFor;
          }
          scopes := scopes[..|scopes| - 1];
        case Expression(roots) =>
          v := ValidateTemplateExpression(roots, scopes);
          if !v.Accepted? {
            return;
          }
        case Condition(roots) =>
          v := ValidateTemplateExpression(roots, scopes);
          if !v.Accepted? {
            return;
          }
        case For(variable, roots) =>
          v := ValidateTemplateExpression(roots, scopes);
          if !v.Accepted? {
            return;
          }
          scopes := scopes + [{variable}];
      }
    }
    return if |scopes| == 1 then Accepted else UnclosedFor;
  }

  // ---------------------------------------------------------------- the trees

  /** A template as properly nested loops: a sequence of loops and other tokens. */
  datatype Forest =
    | Empty
    | Leaf(token: Token, rest: Forest)
    | Loop(variable: string, roots: seq<string>, body: Forest, rest: Forest)

  function Flatten(f: Forest): seq<Token> {
    match f
    case Empty => []
    case Leaf(token, rest) => [token] + Flatten(rest)
    case Loop(variable, roots, body, rest) => [For(variable, roots)] + Flatten(body) + [EndFor] + Flatten(rest)
  }

  /** Every root is bound by the context or an enclosing loop; what a loop iterates over is checked outside it. */
  predicate WellScoped(f: Forest, bound: set<string>) {
    match f
    case Empty => true
    case Leaf(token, rest) =>
      && !token.For? && !token.EndFor? && !token.MalformedFor?
      && (token.Expression? || token.Condition? ==> forall r :: r in token.roots ==> r in bound)
      && WellScoped(rest, bound)
    case Loop(variable, roots, body, rest) =>
      (forall r :: r in roots ==> r in bound) && WellScoped(body, bound + {variable}) && WellScoped(rest, bound)
  }

  /** A well-scoped forest takes the machine back to the stack it started with. */
  lemma {:induction false} ForestRuns(f: Forest, scopes: seq<set<string>>, tail: seq<Token>)
    requires scopes != [] && WellScoped(f, Bound(scopes))
    ensures Run(Flatten(f) + tail, scopes) == Run(tail, scopes)
  {
    match f
    case Empty =>
      assert Flatten(f) + tail == tail;
    case Leaf(token, rest) =>
      ForestRuns(rest, scopes, tail);
      assert (Flatten(f) + tail)[1..] == Flatten(rest) + tail;
    case Loop(variable, roots, body, rest) =>
      var after := [EndFor] + (Flatten(rest) + tail);
      ForestRuns(body, scopes + [{variable}], after);
      ForestRuns(rest, scopes, tail);
      LoopFlattens(f, tail);
      EndForPops(scopes, {variable}, Flatten(rest) + tail);
  }

  lemma LoopFlattens(f: Forest, tail: seq<Token>)
    requires f.Loop?
    ensures Flatten(f) + tail == [For(f.variable, f.roots)] + (Flatten(f.body) + ([EndFor] + (Flatten(f.rest) + tail)))
  {}

  lemma EndForPops(scopes: seq<set<string>>, top: set<string>, tail: seq<Token>)
    requires scopes != []
    ensures Run([EndFor] + tail, scopes + [top]) == Run(tail, scopes)
  {
    assert ([EndFor] + tail)[1..] == tail;
    assert (scopes + [top])[..|scopes|] == scopes;
  }

  /** The tokens are those of `f`, followed, inside a loop, by the EndFor that closes it and by `tail`. */
  predicate Spells(tokens: seq<Token>, f: Forest, inLoop: bool, tail: seq<Token>) {
    tokens == if inLoop then Flatten(f) + [EndFor] + tail else Flatten(f)
  }

  lemma LeafFirst(tokens: seq<Token>, rest: Forest, inLoop: bool, tail: seq<Token>)
    requires tokens != [] && Spells(tokens[1..], rest, inLoop, tail)
    ensures Spells(tokens, Leaf(tokens[0], rest), inLoop, tail)
  {
    assert tokens == [tokens[0]] + tokens[1..];
  }

  lemma LoopFirst(tokens: seq<Token>, body: Forest, after: seq<Token>, rest: Forest, inLoop: bool, tail: seq<Token>)
    requires tokens != [] && tokens[0].For?
    requires Spells(tokens[1..], body, true, after) && Spells(after, rest, inLoop, tail)
    ensures Spells(tokens, Loop(tokens[0].variable, tokens[0].roots, body, rest), inLoop, tail)
  {
    assert tokens == [tokens[0]] + (Flatten(body) + [EndFor] + after);
  }

  /** From an accepting run: the forest up to the EndFor that closes the innermost open loop, and what follows it. */
  lemma {:induction false} RunHasForest(tokens: seq<Token>, scopes: seq<set<string>>) returns (f: Forest, tail: seq<Token>)
    requires scopes != [] && Run(tokens, scopes) == Accepted
    ensures WellScoped(f, Bound(scopes)) && Spells(tokens, f, |scopes| > 1, tail)
    ensures |scopes| > 1 ==> Run(tail, scopes[..|scopes| - 1]) == Accepted && |tail| < |tokens|
    decreases |tokens|
  {
    hide Spells;
    if tokens == [] {
      SpellsNothing();
      return Empty, [];
    }
    if tokens[0].EndFor? {
      f, tail := Empty, tokens[1..];
      SpellsEnd(tokens);
    } else if tokens[0].For? {
      var inner := scopes + [{tokens[0].variable}];
      assert inner[..|scopes|] == scopes;
      var body, after := RunHasForest(tokens[1..], inner);
      var rest, end := RunHasForest(after, scopes);
      f, tail := Loop(tokens[0].variable, tokens[0].roots, body, rest), end;
      LoopFirst(tokens, body, after, rest, |scopes| > 1, tail);
    } else {
      var rest, end := RunHasForest(tokens[1..], scopes);
      f, tail := Leaf(tokens[0], rest), end;
      LeafFirst(tokens, rest, |scopes| > 1, tail);
    }
  }

  lemma SpellsNothing()
    ensures Spells([], Empty, false, [])
  {}

  lemma SpellsEnd(tokens: seq<Token>)
    requires tokens != [] && tokens[0].EndFor?
    ensures Spells(tokens, Empty, true, tokens[1..])
  {
    assert tokens == [EndFor] + tokens[1..];
  }

  // ---------------------------------------------------------------- which error is reported

  /** The variables of the loops that are open after the tokens, the innermost last. */
  function OpenLoops(tokens: seq<Token>): seq<string> {
    if tokens == [] then []
    else
      var open := OpenLoops(tokens[..|tokens| - 1]);
      match tokens[|tokens| - 1]
      case For(variable, _) => open + [variable]
      case EndFor => if open == [] then [] else open[..|open| - 1]
      case _ => open
  }

  function Roots(token: Token): seq<string> {
    match token
    case Expression(roots) => roots
    case Condition(roots) => roots
    case For(_, roots) => roots
    case _ => []
  }

  /** `name` is the first root of the token that neither the context nor an open loop binds. */
  predicate FirstUnbound(token: Token, context: set<string>, open: seq<string>, name: string) {
    exists i :: 0 <= i < |Roots(token)| && Roots(token)[i] == name && name !in context && name !in open
                && forall j :: 0 <= j < i ==> Roots(token)[j] in context || Roots(token)[j] in open
  }

  /** Nothing is wrong with the token where these loops are open. */
  predicate Fits(token: Token, context: set<string>, open: seq<string>) {
    !token.MalformedFor? && (token.EndFor? ==> open != []) && forall r :: r in Roots(token) ==> r in context || r in open
  }

  /** What is wrong with the token. */
  ghost predicate Offends(token: Token, context: set<string>, open: seq<string>, v: Verdict) {
    match v
    case Accepted => false
    case Undefined(name) => FirstUnbound(token, context, open, name)
    case UnsupportedFor => token.MalformedFor?
    case UnexpectedEndFor => token.EndFor? && open == []
    case UnclosedFor => false
  }

  /** The verdict is that of the first token that does not fit; if all do, it is whether every loop was closed. */
  ghost predicate IsVerdict(tokens: seq<Token>, context: set<string>, v: Verdict) {
    exists k :: 0 <= k <= |tokens|
                && (forall j :: 0 <= j < k ==> Fits(tokens[j], context, OpenLoops(tokens[..j])))
                && if k < |tokens| then Offends(tokens[k], context, OpenLoops(tokens[..k]), v)
                   else v == if OpenLoops(tokens) == [] then Accepted else UnclosedFor
  }

  /** The stack of the machine: the context and one scope for each open loop. */
  function Stack(context: set<string>, open: seq<string>): (scopes: seq<set<string>>)
    ensures |scopes| == |open| + 1
  {
    if open == [] then [context] else Stack(context, open[..|open| - 1]) + [{open[|open| - 1]}]
  }

  lemma {:induction false} BoundByStack(context: set<string>, open: seq<string>)
    ensures forall r :: r in Bound(Stack(context, open)) <==> r in context || r in open
  {
    if open == [] {
      assert Bound([context]) == context;
    } else {
      var n := |open| - 1;
      BoundByStack(context, open[..n]);
      var scopes := Stack(context, open);
      assert scopes[..|scopes| - 1] == Stack(context, open[..n]);
      assert open == open[..n] + [open[n]];
    }
  }

  lemma {:induction false} FirstRejected(roots: seq<string>, bound: set<string>)
    ensures CheckRoots(roots, bound) != Accepted ==>
              exists i :: 0 <= i < |roots| && CheckRoots(roots, bound) == Undefined(roots[i]) && roots[i] !in bound
                          && forall j :: 0 <= j < i ==> roots[j] in bound
  {
    if roots == [] {
    } else if roots[0] in bound {
      FirstRejected(roots[1..], bound);
      if CheckRoots(roots, bound) != Accepted {
        var i :| 0 <= i < |roots[1..]| && CheckRoots(roots[1..], bound) == Undefined(roots[1..][i]) && roots[1..][i] !in bound
                 && forall j :: 0 <= j < i ==> roots[1..][j] in bound;
        assert roots[i + 1] == roots[1..][i] && forall j :: 0 < j < i + 1 ==> roots[j] == roots[1..][j - 1];
      }
    }
  }

  /** One token: either it fits and the machine goes on with the stack of the loops then open, or it is the one that offends. */
  lemma OneToken(tokens: seq<Token>, context: set<string>, k: nat)
    requires k < |tokens|
    ensures var open, after := OpenLoops(tokens[..k]), OpenLoops(tokens[..k + 1]);
            var v := Run(tokens[k..], Stack(context, open));
            if Fits(tokens[k], context, open) then v == Run(tokens[k + 1..], Stack(context, after))
            else Offends(tokens[k], context, open, v)
  {
    var open := OpenLoops(tokens[..k]);
    var scopes := Stack(context, open);
    assert tokens[..k + 1][..k] == tokens[..k] && tokens[k..][1..] == tokens[k + 1..] && tokens[k..][0] == tokens[k];
    BoundByStack(context, open);
    FirstRejected(Roots(tokens[k]), Bound(scopes));
    hide Bound, CheckRoots;
    match tokens[k] {
      case For(variable, _) =>
        assert (open + [variable])[..|open|] == open;
      case EndFor =>
        assert open != [] ==> scopes[..|scopes| - 1] == Stack(context, open[..|open| - 1]);
      case _ =>
    }
  }

  lemma {:induction false} VerdictFrom(tokens: seq<Token>, context: set<string>, k: nat)
    requires k <= |tokens| && forall j :: 0 <= j < k ==> Fits(tokens[j], context, OpenLoops(tokens[..j]))
    ensures IsVerdict(tokens, context, Run(tokens[k..], Stack(context, OpenLoops(tokens[..k]))))
    decreases |tokens| - k
  {
    if k == |tokens| {
      assert tokens[..k] == tokens && tokens[k..] == [];
    } else {
      OneToken(tokens, context, k);
      hide Fits, Offends, OpenLoops, Run, Stack;
      if Fits(tokens[k], context, OpenLoops(tokens[..k])) {
        VerdictFrom(tokens, context, k + 1);
      }
    }
  }

  /** The error that is reported is that of the first token that does not fit where it is, or a loop left open. */
  lemma VerdictIs(tokens: seq<Token>, context: set<string>)
    ensures IsVerdict(tokens, context, Run(tokens, [context]))
  {
    VerdictFrom(tokens, context, 0);
    assert tokens[0..] == tokens && Stack(context, []) == [context];
  }

  // ---------------------------------------------------------------- what is accepted

  /** The check accepts exactly the token streams of well-scoped, properly nested templates. */
  lemma AcceptedIffWellScoped(tokens: seq<Token>, context: set<string>)
    ensures Run(tokens, [context]) == Accepted <==> exists f :: Flatten(f) == tokens && WellScoped(f, context)
  {
    assert Bound([context]) == context;
    if Run(tokens, [context]) == Accepted {
      var f, _ := RunHasForest(tokens, [context]);
    }
    if f :| Flatten(f) == tokens && WellScoped(f, context) {
      ForestRuns(f, [context], []);
      assert Flatten(f) + [] == tokens;
    }
  }
}
