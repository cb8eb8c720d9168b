/**
 * `evaluate(x)` of every node class, a fold over the tree. The arithmetic is Java's `double`
 * arithmetic, `Math.pow`, `Math.log`, `Math.E` and `Double.valueOf`; none of it is modelled here.
 * Each operation is a parameter instead, so what is proved holds for any arithmetic.
 */
module Evaluator {
  import opened Expressions

  /** The numeric primitives evaluation uses. */
  datatype Arithmetic = Arithmetic(
    valueOf: string -> real,          // Double.valueOf
    add: (real, real) -> real,
    sub: (real, real) -> real,
    mul: (real, real) -> real,
    div: (real, real) -> real,
    pow: (real, real) -> real,        // Math.pow
    ln: real -> real,                 // Math.log
    euler: real)                      // Math.E, the logarithm's BASE

  /** What `evaluate(x)` returns. */
  function Evaluate(e: Expr, x: real, ops: Arithmetic): real {
    match e
    case Literal(t) => ops.valueOf(t)
    case Variable(_) => x
    case Additive(l, r, sub) =>
      if sub then ops.sub(Evaluate(l, x, ops), Evaluate(r, x, ops))
      else ops.add(Evaluate(l, x, ops), Evaluate(r, x, ops))
    case Multiplicative(l, r, div) =>
      if div then ops.div(Evaluate(l, x, ops), Evaluate(r, x, ops))
      else ops.mul(Evaluate(l, x, ops), Evaluate(r, x, ops))
    case Exponential(b, p) => ops.pow(Evaluate(b, x, ops), Evaluate(p, x, ops))
    case Logarithmic(a) => ops.div(ops.ln(Evaluate(a, x, ops)), ops.ln(ops.euler))
    case Parenthetical(inner) => Evaluate(inner, x, ops)
  }

  /** A deep copy evaluates like the original at every point (a Variable's stored name is not read). */
  lemma {:induction false} CopyEvaluatesAlike(e: Expr, x: real, ops: Arithmetic)
    ensures Evaluate(DeepCopy(e), x, ops) == Evaluate(e, x, ops)
  {
    match e
    case Literal(_) =>
    case Variable(_) =>
    case Additive(l, r, _) =>
      CopyEvaluatesAlike(l, x, ops);
      CopyEvaluatesAlike(r, x, ops);
    case Multiplicative(l, r, _) =>
      CopyEvaluatesAlike(l, x, ops);
      CopyEvaluatesAlike(r, x, ops);
    case Exponential(b, p) =>
      CopyEvaluatesAlike(b, x, ops);
      CopyEvaluatesAlike(p, x, ops);
    case Logarithmic(a) =>
      CopyEvaluatesAlike(a, x, ops);
    case Parenthetical(inner) =>
      CopyEvaluatesAlike(inner, x, ops);
  }

  /** A tree that does not mention the variable has the same value at every point. */
  lemma {:induction false} ConstantIgnoresX(e: Expr, x: real, y: real, ops: Arithmetic)
    requires !MentionsVariable(e)
    ensures Evaluate(e, x, ops) == Evaluate(e, y, ops)
  {
    match e
    case Literal(_) =>
    case Additive(l, r, _) =>
      ConstantIgnoresX(l, x, y, ops);
      ConstantIgnoresX(r, x, y, ops);
    case Multiplicative(l, r, _) =>
      ConstantIgnoresX(l, x, y, ops);
      ConstantIgnoresX(r, x, y, ops);
    case Exponential(b, p) =>
      ConstantIgnoresX(b, x, y, ops);
      ConstantIgnoresX(p, x, y, ops);
    case Logarithmic(a) =>
      ConstantIgnoresX(a, x, y, ops);
    case Parenthetical(inner) =>
      ConstantIgnoresX(inner, x, y, ops);
  }

  /** Any stack of Parenthetical wrappers evaluates like the expression inside it. */
  lemma {:induction false} WrappersEvaluateAlike(e: Expr, n: nat, x: real, ops: Arithmetic)
    ensures Evaluate(Wrap(e, n), x, ops) == Evaluate(e, x, ops)
  {
    if n > 0 {
      WrappersEvaluateAlike(e, n - 1, x, ops);
    }
  }
}
