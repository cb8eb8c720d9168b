/**
 * Worked inputs for the parser and the differentiator, each proved from the definitions.
 */
module Scenarios {
  import opened Outcomes
  import opened FloatLiterals
  import opened Expressions
  import opened Parser
  import opened Evaluator
  import opened Differentiator

  /** A string without '*' or '/' gets exactly the exponential level's answer. */
  lemma NoMultiplicativeOperator(s: string)
    requires forall j :: 0 <= j < |s| ==> s[j] !in MultiplicativeOperators
    ensures MultiplicativeLevel(s) == ExponentialLevel(s)
  {
  }

  /** A non-empty string without '^' gets exactly the log-or-group answer. */
  lemma NoPowerOperator(s: string)
    requires s != []
    requires forall j :: 0 <= j < |s| ==> s[j] != '^'
    ensures ExponentialLevel(s) == LogOrGroup(s)
  {
  }

  lemma OneDigit(c: char)
    requires InClass(c, Digit)
    ensures AdditiveLevel([c]) == Some(Literal([c]))
  {
    DigitIsLiteral(c);
    LiteralParsesToItself([c]);
  }

  /** "x" is the variable, at the exponential level and at the top. */
  lemma JustX()
    ensures ExponentialLevel("x") == Some(Variable("x"))
    ensures AdditiveLevel("x") == Some(Variable("x"))
  {
    XIsLeaf();
    NoMultiplicativeOperator("x");
    NoAdditiveOperator("x");
  }

  lemma XIsLeaf()
    ensures LogOrGroup("x") == Some(Variable("x"))
  {
    NotLiteralStart("x");
    assert !IsLogCall("x");
    assert ParentheticalLevel("x") == Some(Variable("x"));
  }

  /** A digit followed by a sign is not a literal (the sign may only follow an exponent marker). */
  lemma DigitThenSign(s: string)
    requires |s| >= 2 && InClass(s[0], Digit) && s[1] in AdditiveOperators
    ensures !IsFloatLiteral(s)
  {
    UnsignedStart(s);
    DecimalOfDigitThenSign(s);
    NeitherNaNNorInfinity(s);
    NotHexadecimal(s);
    SignIsNoSuffix(s[1..]);
  }

  lemma NeitherNaNNorInfinity(s: string)
    requires s != [] && InClass(s[0], Digit)
    ensures !(|s| >= 3 && s[..3] == "NaN")
    ensures !(|s| >= 8 && s[..8] == "Infinity")
  {
    assert |s| >= 3 ==> s[..3][0] == s[0];
    assert |s| >= 8 ==> s[..8][0] == s[0];
  }

  lemma NotHexadecimal(s: string)
    requires |s| >= 2 && s[1] in AdditiveOperators
    ensures HexLength(s).None?
  {
  }

  lemma SignIsNoSuffix(rest: string)
    requires rest != [] && rest[0] in AdditiveOperators
    ensures !SuffixThenBlank(rest)
  {
    assert Span(rest, Blank) == 0;
  }

  /** With no leading blank and no sign, a string is a literal exactly when it is an unsigned number. */
  lemma UnsignedStart(s: string)
    requires s != [] && !InClass(s[0], Blank) && s[0] !in AdditiveOperators
    ensures IsFloatLiteral(s) == IsUnsignedNumber(s)
  {
    assert Span(s, Blank) == 0;
    assert s[0..] == s;
    assert SignLength(s) == 0;
  }

  /** The decimal form at the head of "digit, sign, ..." is the single digit. */
  lemma DecimalOfDigitThenSign(s: string)
    requires |s| >= 2 && InClass(s[0], Digit) && s[1] in AdditiveOperators
    ensures DecimalLength(s) == Some(1)
  {
    assert Span(s, Digit) == 1;
    assert Span(s[1..], Digit) == 0;
    assert ExponentLength(s[1..], {'e', 'E'}) == 0;
  }

  /**
   * Right association: in a chain of digits and signs, the additive level takes the first digit
   * as its left operand and parses the whole rest of the chain as its right operand.
   */
  lemma SignChain(s: string)
    requires |s| >= 3 && InClass(s[0], Digit) && s[1] in AdditiveOperators
    requires forall j :: 0 <= j < |s| ==> s[j] !in MultiplicativeOperators && s[j] != '^'
    ensures AdditiveLevel(s) == match AdditiveLevel(s[2..])
                                case Some(r) => Some(Additive(Literal(s[..1]), r, s[1] == '-'))
                                case None => None
  {
    ChainIsNoProduct(s);
    FirstIndexAt(s, AdditiveOperators, 1);
    assert s[..1] == [s[0]];
    OneDigit(s[0]);
  }

  /** A chain of digits and signs is not a product, power, group, literal or variable. */
  lemma ChainIsNoProduct(s: string)
    requires |s| >= 2 && InClass(s[0], Digit) && s[1] in AdditiveOperators
    requires forall j :: 0 <= j < |s| ==> s[j] !in MultiplicativeOperators && s[j] != '^'
    ensures MultiplicativeLevel(s) == None
  {
    DownToLogOrGroup(s);
    assert |s| >= 4 ==> s[..4][0] == s[0];
    assert !IsLogCall(s);
    DigitThenSign(s);
    assert ParentheticalLevel(s) == None;
  }

  /** `a-b-c` (and every other mix of signs between three digits) associates to the right: a-(b-c). */
  lemma RightAssociative(a: char, op1: char, b: char, op2: char, c: char)
    requires InClass(a, Digit) && InClass(b, Digit) && InClass(c, Digit)
    requires op1 in AdditiveOperators && op2 in AdditiveOperators
    ensures AdditiveLevel([a, op1, b, op2, c])
         == Some(Additive(Literal([a]), Additive(Literal([b]), Literal([c]), op2 == '-'), op1 == '-'))
  {
    var s := [a, op1, b, op2, c];
    var rest := [b, op2, c];
    OneDigit(c);
    assert rest[2..] == [c] && rest[..1] == [b];
    SignChain(rest);
    assert AdditiveLevel(rest) == Some(Additive(Literal([b]), Literal([c]), op2 == '-'));
    assert s[2..] == rest && s[..1] == [a];
    SignChain(s);
  }

  /** So `1-2-3` evaluates as 1 - (2 - 3), whatever the arithmetic. */
  lemma RightAssociativeValue(a: char, b: char, c: char, x: real, ops: Arithmetic)
    requires InClass(a, Digit) && InClass(b, Digit) && InClass(c, Digit)
    ensures AdditiveLevel([a, '-', b, '-', c]).Some?
    ensures Evaluate(AdditiveLevel([a, '-', b, '-', c]).value, x, ops)
         == ops.sub(ops.valueOf([a]), ops.sub(ops.valueOf([b]), ops.valueOf([c])))
  {
    RightAssociative(a, '-', b, '-', c);
    var inner := Additive(Literal([b]), Literal([c]), true);
    assert Evaluate(inner, x, ops) == ops.sub(ops.valueOf([b]), ops.valueOf([c]));
  }

  /** Without '*', '/' or '^', the multiplicative level answers what the log-or-group level answers. */
  lemma DownToLogOrGroup(s: string)
    requires s != []
    requires forall j :: 0 <= j < |s| ==> s[j] !in MultiplicativeOperators && s[j] != '^'
    ensures MultiplicativeLevel(s) == LogOrGroup(s)
  {
    NoMultiplicativeOperator(s);
    NoPowerOperator(s);
  }

  /** When the left operand of the leftmost sign parses at no level, neither does the whole string. */
  lemma AdditiveLeftFails(s: string, i: nat)
    requires 0 < i < |s| && s[i] in AdditiveOperators
    requires forall j :: 0 <= j < i ==> s[j] !in AdditiveOperators
    requires MultiplicativeLevel(s).None? && AdditiveLevel(s[..i]).None?
    ensures AdditiveLevel(s) == None
  {
    AdditiveCommits(s, i);
  }

  /** When the base of the leftmost '^' parses at no level, the exponential level fails. */
  lemma ExponentialLeftFails(s: string, i: nat)
    requires 0 < i < |s| && s[i] == '^'
    requires forall j :: 0 <= j < i ==> s[j] != '^'
    requires LogOrGroup(s).None? && ExponentialLevel(s[..i]).None?
    ensures ExponentialLevel(s) == None
  {
    ExponentialCommits(s, i);
  }

  /** A string starting with '(', 'l' or 'x' that is neither `log(...)`, `(...)` nor "x" parses to nothing. */
  lemma NoLeaf(s: string)
    requires s != [] && s[0] in {'(', 'l', 'x'} && s != "x"
    requires !IsLogCall(s)
    requires !(s[0] == '(' && s[|s| - 1] == ')')
    ensures LogOrGroup(s) == None
  {
    NotLiteralStart(s);
  }

  /** A string that opens with '(' but does not close with ')' is no group, literal or variable. */
  lemma UnclosedGroup(s: string)
    requires s != [] && s[0] == '(' && s[|s| - 1] != ')'
    ensures LogOrGroup(s) == None
  {
    assert |s| >= 4 ==> s[..4][0] == '(';
    NoLeaf(s);
  }

  /** A string with no operator that is no group, literal or variable parses at no level. */
  lemma NotAnOperand(s: string)
    requires s != [] && LogOrGroup(s) == None
    requires forall j :: 0 <= j < |s| ==> s[j] !in AdditiveOperators && s[j] !in MultiplicativeOperators && s[j] != '^'
    ensures ExponentialLevel(s) == None && AdditiveLevel(s) == None
  {
    NoPowerOperator(s);
    NoMultiplicativeOperator(s);
    NoAdditiveOperator(s);
  }

  /** An unclosed group without operators parses at no level. */
  lemma UnclosedOperand(s: string)
    requires s != [] && s[0] == '(' && s[|s| - 1] != ')'
    requires forall j :: 0 <= j < |s| ==> s[j] !in AdditiveOperators && s[j] !in MultiplicativeOperators && s[j] != '^'
    ensures ExponentialLevel(s) == None && AdditiveLevel(s) == None
  {
    UnclosedGroup(s);
    NotAnOperand(s);
  }

  /**
   * `(1+2)+3` is rejected: the additive level commits to the leftmost sign, which lies inside the
   * parentheses, and `(1` parses at no level.
   */
  lemma GroupedLeftSumRejected(a: char, op1: char, b: char, op2: char, c: char)
    requires InClass(a, Digit) && InClass(b, Digit) && InClass(c, Digit)
    requires op1 in AdditiveOperators && op2 in AdditiveOperators
    ensures AdditiveLevel(['(', a, op1, b, ')', op2, c]) == None
  {
    var s := ['(', a, op1, b, ')', op2, c];
    GroupedLeftSumIsNoProduct(a, op1, b, op2, c);
    assert s[..2] == ['(', a];
    OpenGroup(a);
    AdditiveLeftFails(s, 2);
  }

  lemma GroupedLeftSumIsNoProduct(a: char, op1: char, b: char, op2: char, c: char)
    requires InClass(a, Digit) && InClass(b, Digit) && InClass(c, Digit)
    requires op1 in AdditiveOperators && op2 in AdditiveOperators
    ensures MultiplicativeLevel(['(', a, op1, b, ')', op2, c]) == None
  {
    var s := ['(', a, op1, b, ')', op2, c];
    DownToLogOrGroup(s);
    UnclosedGroup(s);
  }

  /** `(` followed by a digit or `x` parses at no level. */
  lemma OpenGroup(a: char)
    requires InClass(a, Digit) || a == 'x'
    ensures ExponentialLevel(['(', a]) == None && AdditiveLevel(['(', a]) == None
  {
    UnclosedOperand(['(', a]);
  }

  /**
   * `(x^2)^3` is rejected: the exponential level commits to the leftmost '^', inside the
   * parentheses, and `(x` parses at no level.
   */
  lemma GroupedLeftPowerRejected(a: char, b: char)
    requires InClass(a, Digit) && InClass(b, Digit)
    ensures AdditiveLevel(['(', 'x', '^', a, ')', '^', b]) == None
  {
    var s := ['(', 'x', '^', a, ')', '^', b];
    GroupedLeftPowerIsNoPower(a, b);
    NoMultiplicativeOperator(s);
    NoAdditiveOperator(s);
  }

  lemma GroupedLeftPowerIsNoPower(a: char, b: char)
    requires InClass(a, Digit) && InClass(b, Digit)
    ensures ExponentialLevel(['(', 'x', '^', a, ')', '^', b]) == None
  {
    var s := ['(', 'x', '^', a, ')', '^', b];
    UnclosedGroup(s);
    assert s[..2] == ['(', 'x'];
    OpenGroup('x');
    ExponentialLeftFails(s, 2);
  }

  /** `x+1` (or `1+1`) is a sum, which the exponential level rejects. */
  lemma SumIsNoPower(v: char, op: char, a: char)
    requires v == 'x' || InClass(v, Digit)
    requires op in AdditiveOperators && InClass(a, Digit)
    ensures ExponentialLevel([v, op, a]) == None
  {
    var body := [v, op, a];
    if v == 'x' {
      NoPowerOperator(body);
      NoLeaf(body);
    } else {
      NoMultiplicativeOperator(body);
      ChainIsNoProduct(body);
    }
  }

  /** So `log(x+1)`, whose body is parsed at the exponential level, is not a product either. */
  lemma LogOfSumIsNoProduct(v: char, op: char, a: char)
    requires v == 'x' || InClass(v, Digit)
    requires op in AdditiveOperators && InClass(a, Digit)
    ensures MultiplicativeLevel(['l', 'o', 'g', '(', v, op, a, ')']) == None
  {
    var s := ['l', 'o', 'g', '(', v, op, a, ')'];
    SumIsNoPower(v, op, a);
    assert s[4..|s| - 1] == [v, op, a];
    assert s[..4] == "log(";
    assert LogOrGroup(s) == None;
    DownToLogOrGroup(s);
  }

  /**
   * `log(x+1)` (and `log(1+1)`) is rejected: the body of `log(...)` is parsed at the exponential
   * level, and the additive level, committed to the sign inside it, finds that `log(x` parses at
   * no level.
   */
  lemma LogOfSumRejected(v: char, op: char, a: char)
    requires v == 'x' || InClass(v, Digit)
    requires op in AdditiveOperators && InClass(a, Digit)
    ensures AdditiveLevel(['l', 'o', 'g', '(', v, op, a, ')']) == None
  {
    var s := ['l', 'o', 'g', '(', v, op, a, ')'];
    LogOfSumSplit(v, op, a);
    AdditiveLeftFails(s, 5);
  }

  /** The facts that make the additive level reject `log(x+1)`: its sign is the leftmost, and `log(x` fails. */
  lemma LogOfSumSplit(v: char, op: char, a: char)
    requires v == 'x' || InClass(v, Digit)
    requires op in AdditiveOperators && InClass(a, Digit)
    ensures var s := ['l', 'o', 'g', '(', v, op, a, ')'];
      && s[5] in AdditiveOperators
      && (forall j :: 0 <= j < 5 ==> s[j] !in AdditiveOperators)
      && MultiplicativeLevel(s).None? && AdditiveLevel(s[..5]).None?
  {
    LogOfSumIsNoProduct(v, op, a);
    LeftOfLogSum(v, op, a);
  }

  lemma LeftOfLogSum(v: char, op: char, a: char)
    requires v == 'x' || InClass(v, Digit)
    ensures AdditiveLevel(['l', 'o', 'g', '(', v, op, a, ')'][..5]) == None
  {
    var s := ['l', 'o', 'g', '(', v, op, a, ')'];
    assert s[..5] == ['l', 'o', 'g', '(', v];
    UnclosedLog(v);
  }

  /** `log(x` parses at no level. */
  lemma UnclosedLog(v: char)
    requires v == 'x' || InClass(v, Digit)
    ensures AdditiveLevel(['l', 'o', 'g', '(', v]) == None
  {
    var left := ['l', 'o', 'g', '(', v];
    NoLeaf(left);
    NotAnOperand(left);
  }

  /** `x+1` parses to the sum of the variable and the literal. */
  lemma VariablePlusDigit(op: char, a: char)
    requires op in AdditiveOperators && InClass(a, Digit)
    ensures AdditiveLevel(['x', op, a]) == Some(Additive(Variable("x"), Literal([a]), op == '-'))
  {
    var sum := ['x', op, a];
    SumIsNoProduct(op, a);
    assert sum[..1] == "x" && sum[2..] == [a];
    JustX();
    OneDigit(a);
    AdditiveCommits(sum, 1);
  }

  lemma SumIsNoProduct(op: char, a: char)
    requires op in AdditiveOperators && InClass(a, Digit)
    ensures MultiplicativeLevel(['x', op, a]) == None
  {
    var sum := ['x', op, a];
    DownToLogOrGroup(sum);
    NoLeaf(sum);
  }

  /** `(x+1)` parses, at the exponential level, to the group of that sum. */
  lemma GroupedSum(op: char, a: char)
    requires op in AdditiveOperators && InClass(a, Digit)
    ensures ExponentialLevel(['(', 'x', op, a, ')'])
         == Some(Parenthetical(Additive(Variable("x"), Literal([a]), op == '-')))
  {
    var group := ['(', 'x', op, a, ')'];
    VariablePlusDigit(op, a);
    assert group[1..|group| - 1] == ['x', op, a];
    NoPowerOperator(group);
    assert group[..4][0] == '(';
  }

  /** `log((x+1))` is accepted: a parenthesised body is parsed at the additive level. */
  lemma LogOfGroupedSumAccepted(op: char, a: char)
    requires op in AdditiveOperators && InClass(a, Digit)
    ensures AdditiveLevel(['l', 'o', 'g', '(', '(', 'x', op, a, ')', ')'])
         == Some(Logarithmic(Parenthetical(Additive(Variable("x"), Literal([a]), op == '-'))))
  {
    var s := ['l', 'o', 'g', '(', '(', 'x', op, a, ')', ')'];
    GroupedSum(op, a);
    assert s[..4] == "log(";
    assert s[4..|s| - 1] == ['(', 'x', op, a, ')'];
    assert LogOrGroup(s) == Some(Logarithmic(Parenthetical(Additive(Variable("x"), Literal([a]), op == '-'))));
    DownToLogOrGroup(s);
    assert MultiplicativeLevel(s) == LogOrGroup(s) && s[0] !in AdditiveOperators;
  }

  /** `x^(2)` parses, with the power inside a group, so it is not a Literal node... */
  lemma PowerOfGroupedLiteralParses(a: char)
    requires InClass(a, Digit)
    ensures AdditiveLevel(['x', '^', '(', a, ')']) == Some(Exponential(Variable("x"), Parenthetical(Literal([a]))))
  {
    var s := ['x', '^', '(', a, ')'];
    XToGroupedDigit(a);
    NoAdditiveOperator(s);
    NoMultiplicativeOperator(s);
    assert MultiplicativeLevel(s) == ExponentialLevel(s) && s[0] !in AdditiveOperators;
  }

  lemma XToGroupedDigit(a: char)
    requires InClass(a, Digit)
    ensures ExponentialLevel(['x', '^', '(', a, ')']) == Some(Exponential(Variable("x"), Parenthetical(Literal([a]))))
  {
    var s := ['x', '^', '(', a, ')'];
    NoLeaf(s);
    FirstIndexAt(s, {'^'}, 1);
    assert s[..1] == "x";
    JustX();
    assert s[2..] == ['(', a, ')'];
    GroupedDigit(a);
  }

  lemma GroupedDigit(a: char)
    requires InClass(a, Digit)
    ensures ExponentialLevel(['(', a, ')']) == Some(Parenthetical(Literal([a])))
  {
    var group := ['(', a, ')'];
    assert group[1..|group| - 1] == [a];
    OneDigit(a);
    NoPowerOperator(group);
    assert LogOrGroup(group) == Some(Parenthetical(Literal([a])));
  }

  /** ... and differentiating it throws, as it does for `x^x`. */
  lemma NonLiteralPowersThrow(t: string, n: string, m: string)
    ensures Differentiate(Exponential(Variable(n), Parenthetical(Literal(t)))) == Err(UnsupportedOperationException)
    ensures Differentiate(Exponential(Variable(n), Variable(m))) == Err(UnsupportedOperationException)
  {
  }

  /** `x^2` differentiates by the power rule to `x ^ (2 - 1) * 1 * 2`. */
  lemma PowerRuleShape(t: string)
    ensures Differentiate(Exponential(Variable("x"), Literal(t)))
         == Ok(Multiplicative(Multiplicative(Exponential(Variable("x"), Additive(Literal(t), Literal("1"), true)),
                                             Literal("1"), false), Literal(t), false))
  {
  }
}
