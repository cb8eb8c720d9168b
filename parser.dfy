/**
 * SimpleExpressionParser: recursive descent over substrings with four levels (additive,
 * multiplicative, exponential, parenthetical/leaf). Each level either yields a tree or `None`
 * (Java's `null`).
 *
 * Each level is stated twice: as a closed-form function (`AdditiveLevel`, ...) saying what the
 * level answers, and as a method with the source's index-scanning loop, proved to return the same
 * answer. Termination of both: every call is on a strictly shorter substring, or on the same
 * string at a lower level, so `decreases |s|, level` suffices.
 */
module Parser {
  import opened Outcomes
  import opened FloatLiterals
  import opened Expressions

  // Level ranks used in the termination measure `|s|, rank`.
  const AdditiveRank := 4
  const MultiplicativeRank := 3
  const ExponentialRank := 2
  const LogOrGroupRank := 1
  const ParentheticalRank := 0

  const AdditiveOperators: set<char> := {'+', '-'}
  const MultiplicativeOperators: set<char> := {'*', '/'}

  /** Index of the leftmost character of `s` in `ops`, or `|s|` when there is none. */
  function FirstIndex(s: string, ops: set<char>): (k: nat)
    ensures k <= |s|
    ensures forall j :: 0 <= j < k ==> s[j] !in ops
    ensures k < |s| ==> s[k] in ops
  {
    if s == [] then 0
    else if s[0] in ops then 0
    else 1 + FirstIndex(s[1..], ops)
  }

  /** The leftmost position holding an operator is the one `FirstIndex` finds. */
  lemma FirstIndexAt(s: string, ops: set<char>, k: nat)
    requires k < |s| && s[k] in ops
    requires forall j :: 0 <= j < k ==> s[j] !in ops
    ensures FirstIndex(s, ops) == k
  {
  }

  /** `parseVariableExpression`: a Variable exactly for the string "x". */
  function ParseVariableExpression(s: string): (r: Option<Expr>)
    ensures r.Some? <==> s == "x"
    ensures r.Some? ==> r.value == Variable("x")
  {
    if s == "x" then Some(Variable(s)) else None
  }

  /** `parseLiteralExpression`: a Literal holding `s` exactly when `s` matches the float pattern. */
  function ParseLiteralExpression(s: string): (r: Option<Expr>)
    ensures r.Some? <==> IsFloatLiteral(s)
    ensures r.Some? ==> r.value == Literal(s) && WellFormed(r.value)
  {
    if IsFloatLiteral(s) then Some(Literal(s)) else None
  }

  /** Does `s` have the shape `log(...)`? (`str.contains("log(")` is implied by the prefix test.) */
  predicate IsLogCall(s: string) {
    |s| >= 4 && s[..4] == "log(" && s[|s| - 1] == ')'
  }

  // ---------------------------------------------------------------------------------------------
  // The levels, in closed form.

  /**
   * A -> A+M | A-M | M. Unless `s` starts with '+' or '-', the whole string is first tried at the
   * multiplicative level. Otherwise the level commits to the leftmost '+' or '-': both sides are
   * parsed at this level, and if either fails the answer is `None` (no later operator is tried).
   */
  function AdditiveLevel(s: string): Option<Expr>
    decreases |s|, AdditiveRank
  {
    if s == [] then None
    else if s[0] !in AdditiveOperators && MultiplicativeLevel(s).Some? then MultiplicativeLevel(s)
    else
      var i := FirstIndex(s, AdditiveOperators);
      if i == |s| then None
      else
        match (AdditiveLevel(s[..i]), AdditiveLevel(s[i + 1..]))
        case (Some(left), Some(right)) => Some(Additive(left, right, s[i] == '-'))
        case _ => None
  }

  /** M -> M*E | M/E | E, with the same leftmost-operator commitment as the additive level. */
  function MultiplicativeLevel(s: string): Option<Expr>
    decreases |s|, MultiplicativeRank
  {
    if s == [] then None
    else if s[0] !in MultiplicativeOperators && ExponentialLevel(s).Some? then ExponentialLevel(s)
    else
      var i := FirstIndex(s, MultiplicativeOperators);
      if i == |s| then None
      else
        match (MultiplicativeLevel(s[..i]), MultiplicativeLevel(s[i + 1..]))
        case (Some(left), Some(right)) => Some(Multiplicative(left, right, s[i] == '/'))
        case _ => None
  }

  /**
   * The non-'^' branch of the exponential scan: `log(...)` with its body parsed at the
   * exponential level, otherwise the parenthetical level.
   */
  function LogOrGroup(s: string): Option<Expr>
    requires s != []
    decreases |s|, LogOrGroupRank
  {
    if IsLogCall(s) then
      match ExponentialLevel(s[4..|s| - 1])
      case Some(argument) => Some(Logarithmic(argument))
      case None => None
    else ParentheticalLevel(s)
  }

  /** E -> P^E | log(E) | P, committing to the leftmost '^'. */
  function ExponentialLevel(s: string): Option<Expr>
    decreases |s|, ExponentialRank
  {
    if s == [] then None
    else if s[0] != '^' && LogOrGroup(s).Some? then LogOrGroup(s)
    else
      var i := FirstIndex(s, {'^'});
      if i == |s| then None
      else
        match (ExponentialLevel(s[..i]), ExponentialLevel(s[i + 1..]))
        case (Some(base), Some(power)) => Some(Exponential(base, power))
        case _ => None
  }

  /** P -> (A) | L | V. Only reached with a non-empty string. */
  function ParentheticalLevel(s: string): Option<Expr>
    requires s != []
    decreases |s|, ParentheticalRank
  {
    if s[0] == '(' && s[|s| - 1] == ')' then
      match AdditiveLevel(s[1..|s| - 1])
      case Some(inner) => Some(Parenthetical(inner))
      case None => None
    else if ParseLiteralExpression(s).Some? then ParseLiteralExpression(s)
    else ParseVariableExpression(s)
  }

  /**
   * The additive level commits to its leftmost sign: once the whole string has failed at the
   * multiplicative level (or starts with a sign), the answer is built from the two sides of that
   * sign, and is `None` when either side fails; no later sign is tried.
   */
  lemma AdditiveCommits(s: string, i: nat)
    requires i < |s| && s[i] in AdditiveOperators
    requires forall j :: 0 <= j < i ==> s[j] !in AdditiveOperators
    requires i > 0 ==> MultiplicativeLevel(s).None?
    ensures AdditiveLevel(s).Some? <==> AdditiveLevel(s[..i]).Some? && AdditiveLevel(s[i + 1..]).Some?
    ensures AdditiveLevel(s).Some? ==>
      AdditiveLevel(s).value == Additive(AdditiveLevel(s[..i]).value, AdditiveLevel(s[i + 1..]).value, s[i] == '-')
  {
    FirstIndexAt(s, AdditiveOperators, i);
  }

  /** The multiplicative level commits to its leftmost '*' or '/' in the same way. */
  lemma MultiplicativeCommits(s: string, i: nat)
    requires i < |s| && s[i] in MultiplicativeOperators
    requires forall j :: 0 <= j < i ==> s[j] !in MultiplicativeOperators
    requires i > 0 ==> ExponentialLevel(s).None?
    ensures MultiplicativeLevel(s).Some? <==> MultiplicativeLevel(s[..i]).Some? && MultiplicativeLevel(s[i + 1..]).Some?
    ensures MultiplicativeLevel(s).Some? ==>
      MultiplicativeLevel(s).value
      == Multiplicative(MultiplicativeLevel(s[..i]).value, MultiplicativeLevel(s[i + 1..]).value, s[i] == '/')
  {
    FirstIndexAt(s, MultiplicativeOperators, i);
  }

  /** The exponential level commits to its leftmost '^' in the same way. */
  lemma ExponentialCommits(s: string, i: nat)
    requires i < |s| && s[i] == '^'
    requires forall j :: 0 <= j < i ==> s[j] != '^'
    requires i > 0 ==> LogOrGroup(s).None?
    ensures ExponentialLevel(s).Some? <==> ExponentialLevel(s[..i]).Some? && ExponentialLevel(s[i + 1..]).Some?
    ensures ExponentialLevel(s).Some? ==>
      ExponentialLevel(s).value == Exponential(ExponentialLevel(s[..i]).value, ExponentialLevel(s[i + 1..]).value)
  {
    FirstIndexAt(s, {'^'}, i);
  }

  // ---------------------------------------------------------------------------------------------
  // The levels as the source runs them: a scan over `i` with early returns.

  method ParseAdditiveExpression(s: string) returns (r: Option<Expr>)
    ensures r == AdditiveLevel(s)
    decreases |s|, AdditiveRank
  {
    var i := 0;
    while i < |s|
      invariant i <= |s|
      invariant forall j :: 0 <= j < i ==> s[j] !in AdditiveOperators
      invariant i > 0 ==> MultiplicativeLevel(s).None?
    {
      if s[i] == '+' || s[i] == '-' {
        AdditiveCommits(s, i);
        var left := ParseAdditiveExpression(s[..i]);
        var right := ParseAdditiveExpression(s[i + 1..]);
        if left.None? || right.None? {
          return None;
        } else if s[i] == '+' {
          return Some(Additive(left.value, right.value, false));
        } else {
          return Some(Additive(left.value, right.value, true));
        }
      } else {
        var expression := ParseMultiplicativeExpression(s);
        if expression.Some? {
          return expression;
        }
      }
      i := i + 1;
    }
    return None;
  }

  method ParseMultiplicativeExpression(s: string) returns (r: Option<Expr>)
    ensures r == MultiplicativeLevel(s)
    decreases |s|, MultiplicativeRank
  {
    var i := 0;
    while i < |s|
      invariant i <= |s|
      invariant forall j :: 0 <= j < i ==> s[j] !in MultiplicativeOperators
      invariant i > 0 ==> ExponentialLevel(s).None?
    {
      if s[i] == '*' || s[i] == '/' {
        MultiplicativeCommits(s, i);
        var left := ParseMultiplicativeExpression(s[..i]);
        var right := ParseMultiplicativeExpression(s[i + 1..]);
        if left.None? || right.None? {
          return None;
        } else if s[i] == '*' {
          return Some(Multiplicative(left.value, right.value, false));
        } else {
          return Some(Multiplicative(left.value, right.value, true));
        }
      } else {
        var expression := ParseExponentialExpression(s);
        if expression.Some? {
          return expression;
        }
      }
      i := i + 1;
    }
    return None;
  }

  method ParseExponentialExpression(s: string) returns (r: Option<Expr>)
    ensures r == ExponentialLevel(s)
    decreases |s|, ExponentialRank
  {
    var i := 0;
    while i < |s|
      invariant i <= |s|
      invariant forall j :: 0 <= j < i ==> s[j] != '^'
      invariant i > 0 ==> LogOrGroup(s).None?
    {
      if s[i] == '^' {
        ExponentialCommits(s, i);
        var base := ParseExponentialExpression(s[..i]);
        var power := ParseExponentialExpression(s[i + 1..]);
        if base.None? || power.None? {
          return None;
        }
        return Some(Exponential(base.value, power.value));
      } else if |s| >= 4 && s[..4] == "log(" && s[|s| - 1] == ')' {
        var expression := ParseExponentialExpression(s[4..|s| - 1]);
        if expression.Some? {
          return Some(Logarithmic(expression.value));
        }
      } else {
        var expression := ParseParentheticalExpression(s);
        if expression.Some? {
          return expression;
        }
      }
      i := i + 1;
    }
    return None;
  }

  method ParseParentheticalExpression(s: string) returns (r: Option<Expr>)
    requires s != []
    ensures r == ParentheticalLevel(s)
    decreases |s|, ParentheticalRank
  {
    if s[0] == '(' && s[|s| - 1] == ')' {
      var expression := ParseAdditiveExpression(s[1..|s| - 1]);
      if expression.Some? {
        return Some(Parenthetical(expression.value));
      }
    } else {
      var expression := ParseLiteralExpression(s);
      if expression.Some? {
        return expression;
      }
      expression := ParseVariableExpression(s);
      if expression.Some? {
        return expression;
      }
    }
    return None;
  }

  // ---------------------------------------------------------------------------------------------
  // Entry point.

  datatype ExpressionParseException = ExpressionParseException(message: string)

  /** `str.replaceAll(" ", "")`: every space character removed, everything else kept in order. */
  function RemoveSpaces(str: string): (r: string)
    ensures ' ' !in r
    ensures |r| <= |str|
    ensures ' ' !in str ==> r == str
    ensures multiset(r) == multiset(str)[' ' := 0]
  {
    if str == [] then ""
    else
      assert str == [str[0]] + str[1..];
      if str[0] == ' ' then RemoveSpaces(str[1..])
      else [str[0]] + RemoveSpaces(str[1..])
  }

  /** One character: a space is dropped, any other character is kept. */
  lemma RemoveSpacesOne(c: char)
    ensures RemoveSpaces([c]) == if c == ' ' then [] else [c]
  {
    assert [c][1..] == [];
  }

  /**
   * `parse`: strip the spaces, parse at the additive level, and throw exactly when that level
   * answers `null`, with the message naming the stripped text.
   */
  method Parse(str: string) returns (r: Result<Expr, ExpressionParseException>)
    ensures r.Err? <==> AdditiveLevel(RemoveSpaces(str)).None?
    ensures r.Ok? ==> Some(r.value) == AdditiveLevel(RemoveSpaces(str))
    ensures r.Err? ==> r.error.message == "Cannot parse expression: " + RemoveSpaces(str)
  {
    var stripped := RemoveSpaces(str);
    var expression := ParseAdditiveExpression(stripped);
    if expression.None? {
      return Err(ExpressionParseException("Cannot parse expression: " + stripped));
    }
    return Ok(expression.value);
  }

  // ---------------------------------------------------------------------------------------------
  // Properties of the parser.

  lemma {:induction false} RemoveSpacesAppend(a: string, b: string)
    ensures RemoveSpaces(a + b) == RemoveSpaces(a) + RemoveSpaces(b)
  {
    if a == [] {
      assert a + b == b;
    } else {
      assert (a + b)[1..] == a[1..] + b;
      RemoveSpacesAppend(a[1..], b);
    }
  }

  /**
   * Inserting a space anywhere does not change what `parse` sees, so it does not change what
   * `parse` returns or throws.
   */
  lemma SpaceInsensitive(a: string, b: string)
    ensures RemoveSpaces(a + " " + b) == RemoveSpaces(a + b)
  {
    RemoveSpacesAppend(a + " ", b);
    RemoveSpacesAppend(a, " ");
    RemoveSpacesAppend(a, b);
  }

  /** A string without '+' or '-' gets exactly the multiplicative level's answer. */
  lemma NoAdditiveOperator(s: string)
    requires forall j :: 0 <= j < |s| ==> s[j] !in AdditiveOperators
    ensures AdditiveLevel(s) == MultiplicativeLevel(s)
  {
  }

  /** A leading '+' or '-' makes the additive level fail: its left operand is empty. */
  lemma LeadingSignRejected(s: string)
    requires s != [] && s[0] in AdditiveOperators
    ensures AdditiveLevel(s) == None
  {
  }

  /**
   * Every tree the parser returns is well formed (variables named "x", literals matching the
   * pattern) and has no more nodes than the text has characters.
   */
  lemma {:induction false} AdditiveSound(s: string)
    ensures AdditiveLevel(s).Some? ==> WellFormed(AdditiveLevel(s).value) && Size(AdditiveLevel(s).value) <= |s|
    decreases |s|, AdditiveRank
  {
    if s != [] {
      if s[0] !in AdditiveOperators && MultiplicativeLevel(s).Some? {
        MultiplicativeSound(s);
      } else {
        var i := FirstIndex(s, AdditiveOperators);
        if i < |s| {
          AdditiveSound(s[..i]);
          AdditiveSound(s[i + 1..]);
        }
      }
    }
  }

  lemma {:induction false} MultiplicativeSound(s: string)
    ensures MultiplicativeLevel(s).Some? ==> WellFormed(MultiplicativeLevel(s).value) && Size(MultiplicativeLevel(s).value) <= |s|
    decreases |s|, MultiplicativeRank
  {
    if s != [] {
      if s[0] !in MultiplicativeOperators && ExponentialLevel(s).Some? {
        ExponentialSound(s);
      } else {
        var i := FirstIndex(s, MultiplicativeOperators);
        if i < |s| {
          MultiplicativeSound(s[..i]);
          MultiplicativeSound(s[i + 1..]);
        }
      }
    }
  }

  lemma {:induction false} ExponentialSound(s: string)
    ensures ExponentialLevel(s).Some? ==> WellFormed(ExponentialLevel(s).value) && Size(ExponentialLevel(s).value) <= |s|
    decreases |s|, ExponentialRank
  {
    if s != [] {
      if s[0] != '^' && LogOrGroup(s).Some? {
        LogOrGroupSound(s);
      } else {
        var i := FirstIndex(s, {'^'});
        if i < |s| {
          ExponentialSound(s[..i]);
          ExponentialSound(s[i + 1..]);
        }
      }
    }
  }

  lemma {:induction false} LogOrGroupSound(s: string)
    requires s != []
    ensures LogOrGroup(s).Some? ==> WellFormed(LogOrGroup(s).value) && Size(LogOrGroup(s).value) <= |s|
    decreases |s|, LogOrGroupRank
  {
    if IsLogCall(s) {
      assert s[3] == s[..4][3] == '(';
      ExponentialSound(s[4..|s| - 1]);
    } else {
      ParentheticalSound(s);
    }
  }

  lemma {:induction false} ParentheticalSound(s: string)
    requires s != []
    ensures ParentheticalLevel(s).Some? ==> WellFormed(ParentheticalLevel(s).value) && Size(ParentheticalLevel(s).value) <= |s|
    decreases |s|, ParentheticalRank
  {
    if s[0] == '(' && s[|s| - 1] == ')' {
      AdditiveSound(s[1..|s| - 1]);
    }
  }

  /** A tree returned by the parser is its own deep copy. */
  lemma ParsedTreeCopiesToItself(s: string)
    requires AdditiveLevel(s).Some?
    ensures DeepCopy(AdditiveLevel(s).value) == AdditiveLevel(s).value
  {
    AdditiveSound(s);
    WellFormedNamesX(AdditiveLevel(s).value);
    DeepCopyIsIdentity(AdditiveLevel(s).value);
  }

  lemma {:induction false} WellFormedNamesX(e: Expr)
    requires WellFormed(e)
    ensures VariablesNamedX(e)
  {
    match e
    case Literal(_) =>
    case Variable(_) =>
    case Additive(l, r, _) => WellFormedNamesX(l); WellFormedNamesX(r);
    case Multiplicative(l, r, _) => WellFormedNamesX(l); WellFormedNamesX(r);
    case Exponential(b, p) => WellFormedNamesX(b); WellFormedNamesX(p);
    case Logarithmic(a) => WellFormedNamesX(a);
    case Parenthetical(inner) => WellFormedNamesX(inner);
  }

  /**
   * A float literal that does not start with a sign parses, at the top level, to a Literal
   * holding exactly its text (the lower level is tried on the whole string first).
   */
  lemma LiteralParsesToItself(s: string)
    requires IsFloatLiteral(s)
    requires s[0] !in AdditiveOperators
    ensures AdditiveLevel(s) == Some(Literal(s))
  {
    LiteralStart(s);
    var c := s[0];
    assert c != '(' && c != 'l' && c != '^' && c !in MultiplicativeOperators;
    assert |s| >= 4 ==> s[..4][0] == c;
    assert !IsLogCall(s);
    var literal := ParseLiteralExpression(s);
    assert literal == Some(Literal(s));
    assert ParentheticalLevel(s) == literal;
    assert LogOrGroup(s) == literal;
    assert ExponentialLevel(s) == literal;
    assert MultiplicativeLevel(s) == Some(Literal(s));
  }
}
