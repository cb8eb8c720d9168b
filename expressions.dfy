/**
 * The expression tree: one constructor per node class (LiteralExpression, VariableExpression,
 * AdditiveExpression, MultiplicativeExpression, ExponentialExpression, LogarithmicExpression,
 * ParentheticalExpression). The Java nodes assign their fields only in constructors, so a tree
 * is an immutable value and a datatype models it, aliasing included.
 */
module Expressions {
  import opened FloatLiterals

  datatype Expr =
    | Literal(text: string)
    | Variable(name: string)
    | Additive(left: Expr, right: Expr, isSubtraction: bool)
    | Multiplicative(left: Expr, right: Expr, isDivision: bool)
    | Exponential(base: Expr, power: Expr)
    | Logarithmic(argument: Expr)
    | Parenthetical(inner: Expr)

  /** Number of nodes. */
  function Size(e: Expr): (n: nat)
    ensures n >= 1
  {
    match e
    case Literal(_) => 1
    case Variable(_) => 1
    case Additive(l, r, _) => 1 + Size(l) + Size(r)
    case Multiplicative(l, r, _) => 1 + Size(l) + Size(r)
    case Exponential(b, p) => 1 + Size(b) + Size(p)
    case Logarithmic(a) => 1 + Size(a)
    case Parenthetical(inner) => 1 + Size(inner)
  }

  /** Every Variable node stores the name "x" (the only one the parser creates). */
  predicate VariablesNamedX(e: Expr) {
    match e
    case Literal(_) => true
    case Variable(n) => n == "x"
    case Additive(l, r, _) => VariablesNamedX(l) && VariablesNamedX(r)
    case Multiplicative(l, r, _) => VariablesNamedX(l) && VariablesNamedX(r)
    case Exponential(b, p) => VariablesNamedX(b) && VariablesNamedX(p)
    case Logarithmic(a) => VariablesNamedX(a)
    case Parenthetical(inner) => VariablesNamedX(inner)
  }

  /** The trees the parser and the differentiator build: variables named "x", literals matching the pattern. */
  predicate WellFormed(e: Expr) {
    match e
    case Literal(t) => IsFloatLiteral(t)
    case Variable(n) => n == "x"
    case Additive(l, r, _) => WellFormed(l) && WellFormed(r)
    case Multiplicative(l, r, _) => WellFormed(l) && WellFormed(r)
    case Exponential(b, p) => WellFormed(b) && WellFormed(p)
    case Logarithmic(a) => WellFormed(a)
    case Parenthetical(inner) => WellFormed(inner)
  }

  /** Does the tree mention the variable at all? */
  predicate MentionsVariable(e: Expr) {
    match e
    case Literal(_) => false
    case Variable(_) => true
    case Additive(l, r, _) => MentionsVariable(l) || MentionsVariable(r)
    case Multiplicative(l, r, _) => MentionsVariable(l) || MentionsVariable(r)
    case Exponential(b, p) => MentionsVariable(b) || MentionsVariable(p)
    case Logarithmic(a) => MentionsVariable(a)
    case Parenthetical(inner) => MentionsVariable(inner)
  }

  /**
   * `deepCopy` of every node class. A Variable copy is always named "x", whatever the original
   * stored; every other node is rebuilt from copies of its children with the same flags and text.
   */
  function DeepCopy(e: Expr): (c: Expr)
    ensures Size(c) == Size(e)
    ensures VariablesNamedX(c)
    ensures MentionsVariable(c) == MentionsVariable(e)
  {
    match e
    case Literal(t) => Literal(t)
    case Variable(_) => Variable("x")
    case Additive(l, r, sub) => Additive(DeepCopy(l), DeepCopy(r), sub)
    case Multiplicative(l, r, div) => Multiplicative(DeepCopy(l), DeepCopy(r), div)
    case Exponential(b, p) => Exponential(DeepCopy(b), DeepCopy(p))
    case Logarithmic(a) => Logarithmic(DeepCopy(a))
    case Parenthetical(inner) => Parenthetical(DeepCopy(inner))
  }

  /** On a tree whose variables are all named "x" (every tree the parser builds) a copy equals the original. */
  lemma {:induction false} DeepCopyIsIdentity(e: Expr)
    requires VariablesNamedX(e)
    ensures DeepCopy(e) == e
  {
    match e
    case Literal(_) =>
    case Variable(_) =>
    case Additive(l, r, _) =>
      DeepCopyIsIdentity(l);
      DeepCopyIsIdentity(r);
    case Multiplicative(l, r, _) =>
      DeepCopyIsIdentity(l);
      DeepCopyIsIdentity(r);
    case Exponential(b, p) =>
      DeepCopyIsIdentity(b);
      DeepCopyIsIdentity(p);
    case Logarithmic(a) =>
      DeepCopyIsIdentity(a);
    case Parenthetical(inner) =>
      DeepCopyIsIdentity(inner);
  }

  /** A copy of a well-formed tree is well formed. */
  lemma {:induction false} CopyKeepsWellFormed(e: Expr)
    requires WellFormed(e)
    ensures WellFormed(DeepCopy(e))
  {
    match e
    case Literal(_) =>
    case Variable(_) =>
    case Additive(l, r, _) =>
      CopyKeepsWellFormed(l);
      CopyKeepsWellFormed(r);
    case Multiplicative(l, r, _) =>
      CopyKeepsWellFormed(l);
      CopyKeepsWellFormed(r);
    case Exponential(b, p) =>
      CopyKeepsWellFormed(b);
      CopyKeepsWellFormed(p);
    case Logarithmic(a) =>
      CopyKeepsWellFormed(a);
    case Parenthetical(inner) =>
      CopyKeepsWellFormed(inner);
  }

  /** Copying a copy changes nothing. */
  lemma DeepCopyIdempotent(e: Expr)
    ensures DeepCopy(DeepCopy(e)) == DeepCopy(e)
  {
    DeepCopyIsIdentity(DeepCopy(e));
  }

  /** `e` inside `n` Parenthetical wrappers. */
  function Wrap(e: Expr, n: nat): (w: Expr)
    ensures Size(w) == Size(e) + n
  {
    if n == 0 then e else Parenthetical(Wrap(e, n - 1))
  }
}
