/**
 * `differentiate()` of every node class (the versions under Expressions/): a symbolic rewrite that
 * builds a new tree, or throws `UnsupportedOperationException` for a power whose base and exponent
 * are both non-literal.
 */
module Differentiator {
  import opened Outcomes
  import opened FloatLiterals
  import opened Expressions
  import opened Evaluator

  datatype UnsupportedOperationException = UnsupportedOperationException

  /**
   * The tree `MultiplicativeExpression.differentiate` builds from its children `l`, `r` and the
   * derivatives `dl`, `dr` of their copies: `l' * r + l * r'`, or `(l' * r - l * r') / r ^ 2`.
   */
  function ProductDerivative(l: Expr, r: Expr, dl: Expr, dr: Expr, div: bool): Expr {
    var left := Multiplicative(dl, r, false);
    var right := Multiplicative(l, dr, false);
    if div then Multiplicative(Additive(left, right, true), Exponential(r, Literal("2")), true)
    else Additive(left, right, false)
  }

  /** The power rule for a literal power `p`: `b ^ (p - 1) * b' * p`. */
  function PowerDerivative(b: Expr, p: Expr, db: Expr): Expr {
    Multiplicative(Multiplicative(Exponential(b, Additive(p, Literal("1"), true)), db, false), p, false)
  }

  /** The rule for a literal base `b` of the power `e`: `e * p' * log(b)`. */
  function ExponentDerivative(e: Expr, b: Expr, dp: Expr): Expr {
    Multiplicative(Multiplicative(e, dp, false), Logarithmic(b), false)
  }

  /**
   * The derivative tree. Where the Java code differentiates `child.deepCopy()`, so does this
   * function; where it reuses a child (or the receiver itself) unchanged, so does this function.
   * The two-argument Java constructors set `isSubtraction` / `isDivision` to false.
   */
  function Differentiate(e: Expr): Result<Expr, UnsupportedOperationException>
    decreases Size(e)
  {
    match e
    case Literal(_) => Ok(Literal("0"))
    case Variable(_) => Ok(Literal("1"))
    case Additive(l, r, sub) =>
      var dl :- Differentiate(l);
      var dr :- Differentiate(r);
      Ok(Additive(dl, dr, sub))
    case Multiplicative(l, r, div) =>
      var dl :- Differentiate(DeepCopy(l));
      var dr :- Differentiate(DeepCopy(r));
      Ok(ProductDerivative(l, r, dl, dr, div))
    case Exponential(b, p) =>
      if !p.Literal? then
        if !b.Literal? then Err(UnsupportedOperationException)
        else
          var dp :- Differentiate(DeepCopy(p));
          Ok(ExponentDerivative(e, b, dp))
      else
        var db :- Differentiate(DeepCopy(b));
        Ok(PowerDerivative(b, p, db))
    case Logarithmic(a) =>
      // log_e(a)' = a' / a
      var da :- Differentiate(DeepCopy(a));
      Ok(Multiplicative(da, a, true))
    case Parenthetical(inner) =>
      Differentiate(inner)
  }

  /** Some Exponential node of `e` has both a non-literal base and a non-literal power. */
  predicate HasUnsupportedPower(e: Expr) {
    match e
    case Literal(_) => false
    case Variable(_) => false
    case Additive(l, r, _) => HasUnsupportedPower(l) || HasUnsupportedPower(r)
    case Multiplicative(l, r, _) => HasUnsupportedPower(l) || HasUnsupportedPower(r)
    case Exponential(b, p) => (!b.Literal? && !p.Literal?) || HasUnsupportedPower(b) || HasUnsupportedPower(p)
    case Logarithmic(a) => HasUnsupportedPower(a)
    case Parenthetical(inner) => HasUnsupportedPower(inner)
  }

  lemma {:induction false} CopyKeepsUnsupported(e: Expr)
    ensures HasUnsupportedPower(DeepCopy(e)) == HasUnsupportedPower(e)
  {
    match e
    case Literal(_) =>
    case Variable(_) =>
    case Additive(l, r, _) => CopyKeepsUnsupported(l); CopyKeepsUnsupported(r);
    case Multiplicative(l, r, _) => CopyKeepsUnsupported(l); CopyKeepsUnsupported(r);
    case Exponential(b, p) => CopyKeepsUnsupported(b); CopyKeepsUnsupported(p);
    case Logarithmic(a) => CopyKeepsUnsupported(a);
    case Parenthetical(inner) => CopyKeepsUnsupported(inner);
  }

  /**
   * Differentiation fails exactly when some Exponential node has a non-literal base and a
   * non-literal power: the power rule never differentiates the (literal) power and the
   * constant-base rule never differentiates the (literal) base, and every other node is reached.
   */
  lemma {:induction false} FailsExactlyOnUnsupportedPower(e: Expr)
    ensures Differentiate(e).Err? <==> HasUnsupportedPower(e)
    decreases Size(e)
  {
    match e
    case Literal(_) =>
    case Variable(_) =>
    case Additive(l, r, _) =>
      FailsExactlyOnUnsupportedPower(l);
      FailsExactlyOnUnsupportedPower(r);
    case Multiplicative(l, r, _) =>
      FailsExactlyOnUnsupportedPower(DeepCopy(l));
      FailsExactlyOnUnsupportedPower(DeepCopy(r));
      CopyKeepsUnsupported(l);
      CopyKeepsUnsupported(r);
    case Exponential(b, p) =>
      FailsExactlyOnUnsupportedPower(DeepCopy(b));
      FailsExactlyOnUnsupportedPower(DeepCopy(p));
      CopyKeepsUnsupported(b);
      CopyKeepsUnsupported(p);
    case Logarithmic(a) =>
      FailsExactlyOnUnsupportedPower(DeepCopy(a));
      CopyKeepsUnsupported(a);
    case Parenthetical(inner) =>
      FailsExactlyOnUnsupportedPower(inner);
  }

  /** The literals the derivative rules introduce are well formed. */
  lemma NewLiteralsWellFormed()
    ensures WellFormed(Literal("0")) && WellFormed(Literal("1")) && WellFormed(Literal("2"))
  {
    DigitIsLiteral('0');
    DigitIsLiteral('1');
    DigitIsLiteral('2');
  }

  lemma ProductDerivativeWellFormed(l: Expr, r: Expr, dl: Expr, dr: Expr, div: bool)
    requires WellFormed(l) && WellFormed(r) && WellFormed(dl) && WellFormed(dr)
    ensures WellFormed(ProductDerivative(l, r, dl, dr, div))
  {
    var left := Multiplicative(dl, r, false);
    var right := Multiplicative(l, dr, false);
    assert WellFormed(left) && WellFormed(right);
    if div {
      NewLiteralsWellFormed();
      var square := Exponential(r, Literal("2"));
      assert WellFormed(square);
      assert WellFormed(Additive(left, right, true));
      assert ProductDerivative(l, r, dl, dr, div) == Multiplicative(Additive(left, right, true), square, true);
    } else {
      assert ProductDerivative(l, r, dl, dr, div) == Additive(left, right, false);
    }
  }

  lemma PowerDerivativeWellFormed(b: Expr, p: Expr, db: Expr)
    requires WellFormed(b) && WellFormed(p) && WellFormed(db)
    ensures WellFormed(PowerDerivative(b, p, db))
  {
    NewLiteralsWellFormed();
    var lowered := Additive(p, Literal("1"), true);
    assert WellFormed(lowered);
    assert WellFormed(Multiplicative(Exponential(b, lowered), db, false));
  }

  /** A derivative of a well-formed tree is well formed (its new literals are "0", "1" and "2"). */
  lemma {:induction false} DerivativeWellFormed(e: Expr)
    requires WellFormed(e)
    requires Differentiate(e).Ok?
    ensures WellFormed(Differentiate(e).value)
    decreases Size(e)
  {
    match e
    case Literal(_) =>
      NewLiteralsWellFormed();
    case Variable(_) =>
      NewLiteralsWellFormed();
    case Additive(l, r, _) =>
      DerivativeWellFormed(l);
      DerivativeWellFormed(r);
    case Multiplicative(l, r, div) =>
      CopyKeepsWellFormed(l);
      CopyKeepsWellFormed(r);
      DerivativeWellFormed(DeepCopy(l));
      DerivativeWellFormed(DeepCopy(r));
      ProductDerivativeWellFormed(l, r, Differentiate(DeepCopy(l)).value, Differentiate(DeepCopy(r)).value, div);
    case Exponential(b, p) =>
      if !p.Literal? {
        CopyKeepsWellFormed(p);
        DerivativeWellFormed(DeepCopy(p));
      } else {
        CopyKeepsWellFormed(b);
        DerivativeWellFormed(DeepCopy(b));
        PowerDerivativeWellFormed(b, p, Differentiate(DeepCopy(b)).value);
      }
    case Logarithmic(a) =>
      CopyKeepsWellFormed(a);
      DerivativeWellFormed(DeepCopy(a));
    case Parenthetical(inner) =>
      DerivativeWellFormed(inner);
  }

  /** The grouping is dropped: any stack of wrappers differentiates like the expression inside. */
  lemma {:induction false} WrappersDifferentiateAlike(e: Expr, n: nat)
    ensures Differentiate(Wrap(e, n)) == Differentiate(e)
  {
    if n > 0 {
      WrappersDifferentiateAlike(e, n - 1);
    }
  }

  /** The leaf rules, applied once and twice. */
  lemma LeafDerivatives(t: string, name: string)
    ensures Differentiate(Literal(t)) == Ok(Literal("0"))
    ensures Differentiate(Variable(name)) == Ok(Literal("1"))
    ensures Differentiate(Differentiate(Literal(t)).value) == Ok(Literal("0"))
    ensures Differentiate(Differentiate(Variable(name)).value) == Ok(Literal("0"))
  {
  }

  // ---------------------------------------------------------------------------------------------
  // Reference derivative: forward-mode differentiation with dual numbers.

  /** A value together with its derivative with respect to x. */
  datatype Dual = Dual(value: real, slope: real)

  /** (u + v)' = u' + v' and (u - v)' = u' - v'. */
  function SumRule(u: Dual, v: Dual, sub: bool, ops: Arithmetic): Dual {
    if sub then Dual(ops.sub(u.value, v.value), u.slope - v.slope)
    else Dual(ops.add(u.value, v.value), u.slope + v.slope)
  }

  /** u' v - u v', the numerator of the quotient rule. */
  function QuotientNumerator(u: Dual, v: Dual): real {
    u.slope * v.value - u.value * v.slope
  }

  function Square(a: real): real {
    a * a
  }

  /** (u v)' = u' v + u v' and (u / v)' = (u' v - u v') / v^2. */
  function ProductRule(u: Dual, v: Dual, div: bool, ops: Arithmetic): Dual {
    if div then Dual(ops.div(u.value, v.value), ops.div(QuotientNumerator(u, v), Square(v.value)))
    else Dual(ops.mul(u.value, v.value), u.slope * v.value + u.value * v.slope)
  }

  /**
   * (u^c)' = c u^(c-1) u' for a constant exponent, (c^v)' = c^v ln(c) v' for a constant base,
   * and (u^v)' = u^v (v' ln(u) + v u' / u) otherwise.
   */
  function PowerRule(u: Dual, v: Dual, constantPower: bool, constantBase: bool, ops: Arithmetic): Dual {
    var value := ops.pow(u.value, v.value);
    if constantPower then Dual(value, v.value * ops.pow(u.value, v.value - 1.0) * u.slope)
    else if constantBase then Dual(value, value * ops.ln(u.value) * v.slope)
    else Dual(value, value * (v.slope * ops.ln(u.value) + ops.div(v.value * u.slope, u.value)))
  }

  /** (log_b u)' = (u' / u) / ln b, where b is `euler`. */
  function LogRule(u: Dual, ops: Arithmetic): Dual {
    Dual(ops.div(ops.ln(u.value), ops.ln(ops.euler)), ops.div(ops.div(u.slope, u.value), ops.ln(ops.euler)))
  }

  /**
   * The value of `e` at x and its derivative, computed node by node by the rules of calculus.
   * A power counts as having a constant exponent (base) when that child is a literal node.
   */
  function Tangent(e: Expr, x: real, ops: Arithmetic): Dual {
    match e
    case Literal(t) => Dual(ops.valueOf(t), 0.0)
    case Variable(_) => Dual(x, 1.0)
    case Additive(l, r, sub) => SumRule(Tangent(l, x, ops), Tangent(r, x, ops), sub, ops)
    case Multiplicative(l, r, div) => ProductRule(Tangent(l, x, ops), Tangent(r, x, ops), div, ops)
    case Exponential(b, p) => PowerRule(Tangent(b, x, ops), Tangent(p, x, ops), p.Literal?, b.Literal?, ops)
    case Logarithmic(a) => LogRule(Tangent(a, x, ops), ops)
    case Parenthetical(inner) => Tangent(inner, x, ops)
  }

  /**
   * Exact real arithmetic for the operations the derivative trees rely on: +, -, * exact,
   * division by one exact, squaring by `pow`, the literals "0", "1", "2" and the natural
   * logarithm of the base being 1. Nothing else is assumed of division, `pow` or `ln`.
   */
  ghost predicate ExactArithmetic(ops: Arithmetic) {
    && (forall a, b :: ops.add(a, b) == a + b)
    && (forall a, b :: ops.sub(a, b) == a - b)
    && (forall a, b :: ops.mul(a, b) == a * b)
    && (forall a :: ops.div(a, 1.0) == a)
    && (forall a :: ops.pow(a, 2.0) == a * a)
    && ops.valueOf("0") == 0.0 && ops.valueOf("1") == 1.0 && ops.valueOf("2") == 2.0
    && ops.ln(ops.euler) == 1.0
  }

  /** The value half of the reference is the evaluator. */
  lemma {:induction false} TangentValue(e: Expr, x: real, ops: Arithmetic)
    ensures Tangent(e, x, ops).value == Evaluate(e, x, ops)
  {
    match e
    case Literal(_) =>
    case Variable(_) =>
    case Additive(l, r, _) => TangentValue(l, x, ops); TangentValue(r, x, ops);
    case Multiplicative(l, r, _) => TangentValue(l, x, ops); TangentValue(r, x, ops);
    case Exponential(b, p) => TangentValue(b, x, ops); TangentValue(p, x, ops);
    case Logarithmic(a) => TangentValue(a, x, ops);
    case Parenthetical(inner) => TangentValue(inner, x, ops);
  }

  lemma {:induction false} TangentOfCopy(e: Expr, x: real, ops: Arithmetic)
    ensures Tangent(DeepCopy(e), x, ops) == Tangent(e, x, ops)
  {
    match e
    case Literal(_) =>
    case Variable(_) =>
    case Additive(l, r, _) => TangentOfCopy(l, x, ops); TangentOfCopy(r, x, ops);
    case Multiplicative(l, r, _) => TangentOfCopy(l, x, ops); TangentOfCopy(r, x, ops);
    case Exponential(b, p) => TangentOfCopy(b, x, ops); TangentOfCopy(p, x, ops);
    case Logarithmic(a) => TangentOfCopy(a, x, ops);
    case Parenthetical(inner) => TangentOfCopy(inner, x, ops);
  }

  // One lemma per rewrite: given the value and slope `u` (`v`) of each child, and derivative
  // trees that evaluate to the children's slopes, the rewrite evaluates to the rule's slope.

  // The slopes the rules compute, spelled out, one rule per lemma (kept apart so that the case
  // lemmas need not unfold the rules among the children's recursive definitions).

  lemma ProductRuleSlope(u: Dual, v: Dual, ops: Arithmetic)
    ensures ProductRule(u, v, false, ops).slope == u.slope * v.value + u.value * v.slope
  {
  }

  lemma QuotientRuleSlope(u: Dual, v: Dual, ops: Arithmetic)
    ensures ProductRule(u, v, true, ops).slope == ops.div(QuotientNumerator(u, v), Square(v.value))
  {
  }

  lemma PowerRuleSlope(u: Dual, v: Dual, constantBase: bool, ops: Arithmetic)
    ensures PowerRule(u, v, true, constantBase, ops).slope == v.value * ops.pow(u.value, v.value - 1.0) * u.slope
  {
  }

  lemma ExponentRuleSlope(u: Dual, v: Dual, ops: Arithmetic)
    ensures PowerRule(u, v, false, true, ops).slope == ops.pow(u.value, v.value) * ops.ln(u.value) * v.slope
  {
  }

  lemma LogRuleSlope(u: Dual, ops: Arithmetic)
    ensures LogRule(u, ops).slope == ops.div(ops.div(u.slope, u.value), ops.ln(ops.euler))
  {
  }

  /** Under exact arithmetic a difference or product node evaluates to the exact result. */
  lemma ExactNodes(a: Expr, b: Expr, x: real, ops: Arithmetic, p: real, q: real)
    requires ExactArithmetic(ops)
    requires Evaluate(a, x, ops) == p && Evaluate(b, x, ops) == q
    ensures Evaluate(Additive(a, b, false), x, ops) == p + q
    ensures Evaluate(Additive(a, b, true), x, ops) == p - q
    ensures Evaluate(Multiplicative(a, b, false), x, ops) == p * q
  {
  }

  lemma ProductDerivativeSlope(l: Expr, r: Expr, dl: Expr, dr: Expr, x: real, ops: Arithmetic, u: Dual, v: Dual)
    requires ExactArithmetic(ops)
    requires Evaluate(l, x, ops) == u.value && Evaluate(dl, x, ops) == u.slope
    requires Evaluate(r, x, ops) == v.value && Evaluate(dr, x, ops) == v.slope
    ensures Evaluate(ProductDerivative(l, r, dl, dr, false), x, ops) == u.slope * v.value + u.value * v.slope
  {
    var left := Multiplicative(dl, r, false);
    var right := Multiplicative(l, dr, false);
    ExactNodes(dl, r, x, ops, u.slope, v.value);
    ExactNodes(l, dr, x, ops, u.value, v.slope);
    ExactNodes(left, right, x, ops, u.slope * v.value, u.value * v.slope);
  }

  lemma QuotientDerivativeSlope(l: Expr, r: Expr, dl: Expr, dr: Expr, x: real, ops: Arithmetic, u: Dual, v: Dual)
    requires ExactArithmetic(ops)
    requires Evaluate(l, x, ops) == u.value && Evaluate(dl, x, ops) == u.slope
    requires Evaluate(r, x, ops) == v.value && Evaluate(dr, x, ops) == v.slope
    ensures Evaluate(ProductDerivative(l, r, dl, dr, true), x, ops)
         == ops.div(QuotientNumerator(u, v), Square(v.value))
  {
    var left := Multiplicative(dl, r, false);
    var right := Multiplicative(l, dr, false);
    ExactNodes(dl, r, x, ops, u.slope, v.value);
    ExactNodes(l, dr, x, ops, u.value, v.slope);
    ExactNodes(left, right, x, ops, u.slope * v.value, u.value * v.slope);
    assert Evaluate(Additive(left, right, true), x, ops) == QuotientNumerator(u, v);
    SquareNode(r, x, ops);
    QuotientNode(Additive(left, right, true), Exponential(r, Literal("2")), x, ops,
                 QuotientNumerator(u, v), Square(v.value));
  }

  /** A division node divides its children's values. */
  lemma QuotientNode(a: Expr, b: Expr, x: real, ops: Arithmetic, p: real, q: real)
    requires Evaluate(a, x, ops) == p && Evaluate(b, x, ops) == q
    ensures Evaluate(Multiplicative(a, b, true), x, ops) == ops.div(p, q)
  {
  }

  /** Under exact arithmetic `r ^ 2` evaluates to the square of `r`. */
  lemma SquareNode(r: Expr, x: real, ops: Arithmetic)
    requires ExactArithmetic(ops)
    ensures Evaluate(Exponential(r, Literal("2")), x, ops) == Square(Evaluate(r, x, ops))
  {
  }

  lemma PowerDerivativeSlope(b: Expr, p: Expr, db: Expr, x: real, ops: Arithmetic, u: Dual, c: real)
    requires ExactArithmetic(ops)
    requires Evaluate(b, x, ops) == u.value && Evaluate(db, x, ops) == u.slope
    requires Evaluate(p, x, ops) == c
    ensures Evaluate(PowerDerivative(b, p, db), x, ops) == c * ops.pow(u.value, c - 1.0) * u.slope
  {
    var lowered := Exponential(b, Additive(p, Literal("1"), true));
    var k := ops.pow(u.value, c - 1.0);
    LoweredPower(b, p, x, ops);
    ExactNodes(lowered, db, x, ops, k, u.slope);
    ExactNodes(Multiplicative(lowered, db, false), p, x, ops, k * u.slope, c);
  }

  /** Under exact arithmetic `b ^ (p - 1)` evaluates to the power with the exponent lowered by one. */
  lemma LoweredPower(b: Expr, p: Expr, x: real, ops: Arithmetic)
    requires ExactArithmetic(ops)
    ensures Evaluate(Exponential(b, Additive(p, Literal("1"), true)), x, ops)
         == ops.pow(Evaluate(b, x, ops), Evaluate(p, x, ops) - 1.0)
  {
    ExactNodes(p, Literal("1"), x, ops, Evaluate(p, x, ops), 1.0);
  }

  lemma ExponentDerivativeSlope(b: Expr, p: Expr, dp: Expr, x: real, ops: Arithmetic, k: real, v: Dual)
    requires ExactArithmetic(ops)
    requires Evaluate(b, x, ops) == k
    requires Evaluate(p, x, ops) == v.value && Evaluate(dp, x, ops) == v.slope
    ensures Evaluate(ExponentDerivative(Exponential(b, p), b, dp), x, ops)
         == ops.pow(k, v.value) * ops.ln(k) * v.slope
  {
    var value := ops.pow(k, v.value);
    assert Evaluate(Multiplicative(Exponential(b, p), dp, false), x, ops) == value * v.slope;
    assert Evaluate(Logarithmic(b), x, ops) == ops.ln(k);
  }

  lemma LogDerivativeSlope(a: Expr, da: Expr, x: real, ops: Arithmetic, u: Dual)
    requires ExactArithmetic(ops)
    requires Evaluate(a, x, ops) == u.value && Evaluate(da, x, ops) == u.slope
    ensures Evaluate(Multiplicative(da, a, true), x, ops) == ops.div(ops.div(u.slope, u.value), ops.ln(ops.euler))
  {
  }

  /**
   * Under exact arithmetic, the derivative tree evaluates at every x to the derivative given by
   * the rules of calculus: each rewrite (its operand order, its reuse of the undifferentiated
   * children, the `r ^ 2` denominator, the `p - 1` exponent, the dropped grouping) is correct.
   */
  lemma {:induction false} DerivativeIsSlope(e: Expr, x: real, ops: Arithmetic)
    requires ExactArithmetic(ops)
    requires Differentiate(e).Ok?
    ensures Evaluate(Differentiate(e).value, x, ops) == Tangent(e, x, ops).slope
    decreases Size(e), 2
  {
    match e
    case Literal(_) =>
    case Variable(_) =>
    case Additive(l, r, _) =>
      DerivativeIsSlope(l, x, ops);
      DerivativeIsSlope(r, x, ops);
    case Multiplicative(_, _, _) =>
      ProductCaseIsSlope(e, x, ops);
    case Exponential(_, _) =>
      PowerCaseIsSlope(e, x, ops);
    case Logarithmic(a) =>
      DerivativeIsSlope(DeepCopy(a), x, ops);
      TangentOfCopy(a, x, ops);
      TangentValue(a, x, ops);
      LogDerivativeSlope(a, Differentiate(DeepCopy(a)).value, x, ops, Tangent(a, x, ops));
      LogRuleSlope(Tangent(a, x, ops), ops);
    case Parenthetical(inner) =>
      DerivativeIsSlope(inner, x, ops);
  }

  /** The slope of a copy's derivative is the slope of the original: the children's half of each case. */
  lemma {:induction false} CopySlope(c: Expr, x: real, ops: Arithmetic)
    requires ExactArithmetic(ops)
    requires Differentiate(DeepCopy(c)).Ok?
    ensures Evaluate(Differentiate(DeepCopy(c)).value, x, ops) == Tangent(c, x, ops).slope
    ensures Evaluate(c, x, ops) == Tangent(c, x, ops).value
    decreases Size(c), 3
  {
    DerivativeIsSlope(DeepCopy(c), x, ops);
    TangentOfCopy(c, x, ops);
    TangentValue(c, x, ops);
  }

  lemma {:induction false} ProductCaseIsSlope(e: Expr, x: real, ops: Arithmetic)
    requires ExactArithmetic(ops)
    requires e.Multiplicative? && Differentiate(e).Ok?
    ensures Evaluate(Differentiate(e).value, x, ops) == Tangent(e, x, ops).slope
    decreases Size(e), 0
  {
    var l, r := e.left, e.right;
    var dl, dr := Differentiate(DeepCopy(l)), Differentiate(DeepCopy(r));
    assert dl.Ok? && dr.Ok?;
    assert Differentiate(e).value == ProductDerivative(l, r, dl.value, dr.value, e.isDivision);
    CopySlope(l, x, ops);
    CopySlope(r, x, ops);
    var u, v := Tangent(l, x, ops), Tangent(r, x, ops);
    assert Tangent(e, x, ops) == ProductRule(u, v, e.isDivision, ops);
    if e.isDivision {
      QuotientDerivativeSlope(l, r, dl.value, dr.value, x, ops, u, v);
      QuotientRuleSlope(u, v, ops);
    } else {
      ProductDerivativeSlope(l, r, dl.value, dr.value, x, ops, u, v);
      ProductRuleSlope(u, v, ops);
    }
  }

  lemma {:induction false} PowerCaseIsSlope(e: Expr, x: real, ops: Arithmetic)
    requires ExactArithmetic(ops)
    requires e.Exponential? && Differentiate(e).Ok?
    ensures Evaluate(Differentiate(e).value, x, ops) == Tangent(e, x, ops).slope
    decreases Size(e), 1
  {
    if e.power.Literal? {
      ConstantPowerCaseIsSlope(e, x, ops);
    } else {
      ConstantBaseCaseIsSlope(e, x, ops);
    }
  }

  lemma {:induction false} ConstantPowerCaseIsSlope(e: Expr, x: real, ops: Arithmetic)
    requires ExactArithmetic(ops)
    requires e.Exponential? && e.power.Literal? && Differentiate(e).Ok?
    ensures Evaluate(Differentiate(e).value, x, ops) == Tangent(e, x, ops).slope
    decreases Size(e), 0
  {
    var b, p := e.base, e.power;
    var u, v := Tangent(b, x, ops), Tangent(p, x, ops);
    assert Tangent(e, x, ops) == PowerRule(u, v, true, b.Literal?, ops);
    var db := Differentiate(DeepCopy(b));
    assert db.Ok?;
    assert Differentiate(e).value == PowerDerivative(b, p, db.value);
    CopySlope(b, x, ops);
    TangentValue(p, x, ops);
    PowerDerivativeSlope(b, p, db.value, x, ops, u, v.value);
    PowerRuleSlope(u, v, b.Literal?, ops);
  }

  lemma {:induction false} ConstantBaseCaseIsSlope(e: Expr, x: real, ops: Arithmetic)
    requires ExactArithmetic(ops)
    requires e.Exponential? && !e.power.Literal? && Differentiate(e).Ok?
    ensures Evaluate(Differentiate(e).value, x, ops) == Tangent(e, x, ops).slope
    decreases Size(e), 0
  {
    var b, p := e.base, e.power;
    var u, v := Tangent(b, x, ops), Tangent(p, x, ops);
    assert Tangent(e, x, ops) == PowerRule(u, v, false, true, ops);
    var dp := Differentiate(DeepCopy(p));
    assert b.Literal? && dp.Ok?;
    assert Differentiate(e).value == ExponentDerivative(e, b, dp.value);
    TangentValue(b, x, ops);
    CopySlope(p, x, ops);
    ExponentDerivativeSlope(b, p, dp.value, x, ops, u.value, v);
    ExponentRuleSlope(u, v, ops);
  }
}
