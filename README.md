# Symbolic-math engine: parser and expression trees

This project models the core of a small Java symbolic-math engine:

- `SimpleExpressionParser` turns a string into an expression tree. It is a recursive descent over
  substrings, with an additive, a multiplicative, an exponential and a parenthetical/leaf level.
- The tree node classes (literal, variable, sum/difference, product/quotient, power, logarithm,
  parenthesised group) each provide `deepCopy`, `convertToString`, `evaluate` and `differentiate`.

Modules, one per file:

- `Outcomes` (`outcomes.dfy`): `Option` and `Result`. Java's `null` answers and thrown exceptions
  become these.
- `FloatLiterals` (`float_literal.dfy`): a recogniser for the floating-point pattern that
  `parseLiteralExpression` matches with `String.matches`. It covers blanks, the sign, `NaN`,
  `Infinity`, decimal and hexadecimal forms, and the `fFdD` suffix.
- `Expressions` (`expressions.dfy`): the tree as one datatype, and `deepCopy`. The Java nodes
  assign their fields only in constructors, so a tree is an immutable value. Shared subtrees in a
  derivative are therefore harmless.
- `Parser` (`parser.dfy`): each level twice:
  - a closed-form function (`AdditiveLevel`, ...);
  - a method with the source's index-scanning loop and early returns, proved to answer the same.

  Also `parse`, and the parser's properties.
- `Printer` (`printer.dfy`): `convertToString`, with its indentation loop as a method. Also proves
  the text is one line per node in preorder, indented by start level plus depth.
- `Evaluator` (`evaluator.dfy`): `evaluate`, over an `Arithmetic` record of numeric primitives.
- `Differentiator` (`differentiator.dfy`): `differentiate` as a `Result`-valued function. Also:
  - exactly when it throws;
  - that it keeps trees well formed;
  - that the tree it builds evaluates to the slope of a reference derivative. The reference,
    `Tangent`, is a dual-number evaluation by the rules of calculus, with `div`, `pow` and `ln`
    left abstract. The agreement is proved under exact arithmetic for `+`, `-` and `*` only.
- `Scenarios` (`scenarios.dfy`): worked inputs, proved from the definitions. They include
  `1-2-3` associating to the right, `(1+2)+3`, `(x^2)^3` and `log(x+1)` being rejected,
  `log((x+1))` being accepted, and `x^(2)` parsing but failing to differentiate.

Two behaviours of the parser follow from the code and are worth knowing:

- Each level commits to its leftmost operator and answers `null` if either side then fails; no
  later operator is tried (SimpleExpressionParser.java:36-50, `AdditiveCommits` and its siblings).
  So `1-2-3` associates to the right and `(1+2)+3` is rejected.
- The body of `log(...)` is parsed at the exponential level (SimpleExpressionParser.java:105),
  although the grammar comment at SimpleExpressionParser.java:7 writes `log(P)`. So `log(x+1)`
  is rejected and `log((x+1))` is accepted.

## Model

| member | source | states |
|---|---|---|
| Parser.ParseVariableExpression | SimpleExpressionParser.java:144-149 | a tree exactly when the text is "x", and then the Variable "x" |
| Parser.ParseLiteralExpression | SimpleExpressionParser.java:152-198 | a tree exactly when the text matches the float pattern, and then a Literal holding that very text, which is well formed |
| Parser.ParseAdditiveExpression | SimpleExpressionParser.java:32-60 | the loop, with its early returns, answers what the additive level answers (`AdditiveLevel`) |
| Parser.ParseMultiplicativeExpression | SimpleExpressionParser.java:62-88 | the loop answers what the multiplicative level answers (`MultiplicativeLevel`) |
| Parser.ParseExponentialExpression | SimpleExpressionParser.java:90-118 | the loop, with the `log(` branch, answers what the exponential level answers (`ExponentialLevel`) |
| Parser.ParseParentheticalExpression | SimpleExpressionParser.java:120-141 | on a non-empty string: a group wraps the additive parse of its interior, otherwise literal, then variable (`ParentheticalLevel`) |
| Parser.AdditiveLevel | SimpleExpressionParser.java:32-60 | the additive level in closed form: the whole string at the lower level unless it starts with a sign, else the leftmost sign's two sides (its properties are `AdditiveCommits`, `NoAdditiveOperator`, `LeadingSignRejected`, `AdditiveSound`) |
| Parser.MultiplicativeLevel | SimpleExpressionParser.java:62-88 | the multiplicative level in closed form (`MultiplicativeCommits`, `MultiplicativeSound`) |
| Parser.ExponentialLevel | SimpleExpressionParser.java:90-118 | the exponential level in closed form (`ExponentialCommits`, `ExponentialSound`) |
| Parser.LogOrGroup | SimpleExpressionParser.java:104-115 | `log(...)` with its body at the exponential level, else the parenthetical level (`LogOrGroupSound`) |
| Parser.ParentheticalLevel | SimpleExpressionParser.java:120-141 | a group over the additive parse of its interior, else a literal, else the variable (`ParentheticalSound`) |
| Parser.AdditiveCommits | SimpleExpressionParser.java:36-50 | once the whole string has failed at the lower level, the leftmost sign decides: a tree exactly when both sides parse, and then the sum or difference of the two side trees |
| Parser.MultiplicativeCommits | SimpleExpressionParser.java:66-79 | the same commitment to the leftmost '*' or '/', building a product or quotient |
| Parser.ExponentialCommits | SimpleExpressionParser.java:94-102 | the same commitment to the leftmost '^', building a power |
| Parser.FirstIndexAt | SimpleExpressionParser.java:36-37 | the scan's first operator position is the leftmost position holding an operator |
| Parser.RemoveSpaces | SimpleExpressionParser.java:23 | the stripped text has no space, is no longer, is unchanged when there was no space, and holds every other character as often as the input does |
| Parser.RemoveSpacesOne | SimpleExpressionParser.java:23 | a single space is dropped and any other single character kept; with `RemoveSpacesAppend` this fixes the result, order included |
| Parser.Parse | SimpleExpressionParser.java:22-30 | throws exactly when the additive level answers null on the stripped text, with the message naming that text; otherwise returns that level's tree |
| Parser.RemoveSpacesAppend | SimpleExpressionParser.java:23 | stripping spaces distributes over concatenation |
| Parser.SpaceInsensitive | SimpleExpressionParser.java:23 | inserting a space anywhere leaves the text that `parse` sees unchanged |
| Parser.NoAdditiveOperator | SimpleExpressionParser.java:51-56 | a string without '+' or '-' gets exactly the multiplicative level's answer |
| Parser.LeadingSignRejected | SimpleExpressionParser.java:36-43 | a string starting with '+' or '-' is rejected: its left operand is empty |
| Parser.AdditiveSound | SimpleExpressionParser.java:32-60 | every tree the additive level returns is well formed (variables named "x", literals matching the pattern) and has at most as many nodes as the text has characters |
| Parser.MultiplicativeSound | SimpleExpressionParser.java:62-88 | the same for the multiplicative level |
| Parser.ExponentialSound | SimpleExpressionParser.java:90-118 | the same for the exponential level |
| Parser.LogOrGroupSound | SimpleExpressionParser.java:104-108 | the same for `log(...)` and the parenthetical fallback |
| Parser.ParentheticalSound | SimpleExpressionParser.java:120-141 | the same for groups, literals and the variable |
| Parser.WellFormedNamesX | SimpleExpressionParser.java:145-146 | a well-formed tree names every variable "x" |
| Parser.ParsedTreeCopiesToItself | VariableExpression.java:10-12 | a tree returned by the parser equals its own deep copy, even though a Variable copy is always renamed "x" |
| Parser.LiteralParsesToItself | SimpleExpressionParser.java:194-195 | a float literal that does not start with a sign parses, at the top level, to a Literal holding exactly its text |
| FloatLiterals.LiteralStart | SimpleExpressionParser.java:160-192 | a string matching the pattern is non-empty and starts with a blank, a sign, a digit, '.', 'N' or 'I' |
| FloatLiterals.NotLiteralStart | SimpleExpressionParser.java:160-192 | a string starting with '(', 'l' or 'x' never matches the pattern |
| FloatLiterals.DigitIsLiteral | SimpleExpressionParser.java:177 | every one-digit string matches the pattern |
| Expressions.DeepCopy | VariableExpression.java:10-12 | a copy has as many nodes as the original, names every variable "x", and mentions the variable exactly when the original does |
| Expressions.DeepCopyIsIdentity | Expressions/MultiplicativeExpression.java:19-21 | on a tree whose variables are all named "x", the copy equals the original: same shape, flags and texts |
| Expressions.CopyKeepsWellFormed | LiteralExpression.java:10-12 | a copy of a well-formed tree is well formed |
| Expressions.DeepCopyIdempotent | Expressions/ParentheticalExpression.java:9-11 | copying a copy changes nothing |
| Printer.Tag | Expressions/MultiplicativeExpression.java:30 | the text a node prints on its own line: sign, "^", "log", "()", the formatted number or the stored name |
| Printer.Render | Expressions/AdditiveExpression.java:24-31 | what `convertToString(k)` returns for every node class (its shape is `RenderIsOutline`, its line count `OneLinePerNode`) |
| Printer.Indentation | Expressions/AdditiveExpression.java:25-28 | the loop builds exactly `indentLevel` tab characters |
| Printer.ConvertToString | Expressions/MultiplicativeExpression.java:24-31 | the output is the node's own line followed by the children's output at the next level (`Render`) |
| Printer.RenderIsOutline | Expressions/ExponentialExpression.java:16-23 | the output is one line per node in preorder, each line being start level plus depth tabs, the node's tag and a newline |
| Printer.OneLinePerNode | LiteralExpression.java:15-21 | when no printed number contains a newline and variables are named "x", the output has exactly as many newlines as the tree has nodes |
| Printer.HeadIsOneLine | VariableExpression.java:15-21 | a leaf prints exactly one line |
| Printer.CopyPrintsAlike | Expressions/LogarithmicExpression.java:10-21 | a copy of a parsed tree prints exactly as the original |
| Evaluator.Evaluate | Expressions/MultiplicativeExpression.java:33-40 | `evaluate(x)` of every node class over the given arithmetic: subtract or add, divide or multiply, `pow`, natural log over log of `Math.E`, the literal's value, x, and the inner value of a group (its properties are `CopyEvaluatesAlike`, `ConstantIgnoresX`, `WrappersEvaluateAlike`, `TangentValue`) |
| Evaluator.CopyEvaluatesAlike | Expressions/MultiplicativeExpression.java:33-40 | a copy evaluates like the original at every point, whatever the arithmetic |
| Evaluator.ConstantIgnoresX | LiteralExpression.java:23-26 | a tree that does not mention the variable has the same value at every point |
| Evaluator.WrappersEvaluateAlike | Expressions/ParentheticalExpression.java:25-28 | any stack of groups evaluates like the expression inside |
| Differentiator.Differentiate | Expressions/MultiplicativeExpression.java:42-53 | `differentiate()` of every node class, differentiating a deep copy exactly where the source does and failing on a power with non-literal base and exponent (its properties are `FailsExactlyOnUnsupportedPower`, `DerivativeWellFormed`, `DerivativeIsSlope`, `WrappersDifferentiateAlike`, `LeafDerivatives`) |
| Differentiator.FailsExactlyOnUnsupportedPower | Expressions/ExponentialExpression.java:31-42 | differentiation throws exactly when some power node has both a non-literal base and a non-literal exponent |
| Differentiator.DerivativeWellFormed | Expressions/MultiplicativeExpression.java:42-53 | the derivative of a well-formed tree is well formed (its new literals "0", "1" and "2" match the pattern) |
| Differentiator.WrappersDifferentiateAlike | Expressions/ParentheticalExpression.java:30-33 | any stack of groups differentiates like the expression inside (the grouping is dropped) |
| Differentiator.LeafDerivatives | LiteralExpression.java:28-31 | a literal differentiates to "0" and the variable to "1", and differentiating either twice gives "0" |
| Differentiator.TangentValue | Expressions/AdditiveExpression.java:33-39 | for every node class, the value half of the reference derivative is the evaluator's value |
| Differentiator.DerivativeIsSlope | Expressions/AdditiveExpression.java:41-44 | for every node class (the per-class cases are the rows below), under exact arithmetic, whenever differentiation succeeds, the derivative tree evaluates at every x to the slope of the `Tangent` reference |
| Differentiator.ProductCaseIsSlope | Expressions/MultiplicativeExpression.java:42-53 | the product and quotient rewrites evaluate to the product and quotient rules' slopes |
| Differentiator.ProductDerivativeSlope | Expressions/MultiplicativeExpression.java:44-52 | `l' * r + l * r'` evaluates to u'v + uv' |
| Differentiator.QuotientDerivativeSlope | Expressions/MultiplicativeExpression.java:47-50 | `(l' * r - l * r') / r ^ 2` evaluates to (u'v - uv') / v^2 |
| Differentiator.ConstantPowerCaseIsSlope | Expressions/ExponentialExpression.java:39-41 | the power-rule rewrite evaluates to the power rule's slope |
| Differentiator.PowerDerivativeSlope | Expressions/ExponentialExpression.java:39-41 | `b ^ (c - 1) * b' * c` evaluates to c u^(c-1) u' |
| Differentiator.ConstantBaseCaseIsSlope | Expressions/ExponentialExpression.java:33-36 | the constant-base rewrite evaluates to the constant-base rule's slope |
| Differentiator.ExponentDerivativeSlope | Expressions/ExponentialExpression.java:35-36 | `b ^ p * p' * log(b)` evaluates to b^v ln(b) v' |
| Differentiator.LogDerivativeSlope | Expressions/LogarithmicExpression.java:28-31 | `a' / a` evaluates to the derivative of the logarithm whose base is `Math.E` |
| Scenarios.RightAssociative | SimpleExpressionParser.java:36-49 | three digits joined by signs parse as a-(b-c): the first digit is the left operand and the rest of the chain the right one |
| Scenarios.SignChain | SimpleExpressionParser.java:36-49 | a digit followed by a sign takes the digit as left operand and the parse of everything after the sign as right operand |
| Scenarios.RightAssociativeValue | SimpleExpressionParser.java:36-49 | so `1-2-3` evaluates as 1 - (2 - 3) |
| Scenarios.VariablePlusDigit | SimpleExpressionParser.java:36-49 | `x+1` parses to the sum of the variable and the literal |
| Scenarios.GroupedLeftSumRejected | SimpleExpressionParser.java:36-43 | `(1+2)+3` is rejected: the level commits to the sign inside the group, and `(1` does not parse |
| Scenarios.GroupedLeftPowerRejected | SimpleExpressionParser.java:94-101 | `(x^2)^3` is rejected in the same way |
| Scenarios.LogOfSumRejected | SimpleExpressionParser.java:104-108 | `log(x+1)` and `log(1+1)` are rejected: the body of `log(...)` is parsed at the exponential level |
| Scenarios.LogOfGroupedSumAccepted | SimpleExpressionParser.java:104-108 | `log((x+1))` parses to the logarithm of the grouped sum |
| Scenarios.PowerOfGroupedLiteralParses | SimpleExpressionParser.java:94-102 | `x^(2)` parses, with a grouped literal as its exponent |
| Scenarios.NonLiteralPowersThrow | Expressions/ExponentialExpression.java:33-34 | a power of the variable to a grouped literal, or to the variable, throws on differentiation |
| Scenarios.PowerRuleShape | Expressions/ExponentialExpression.java:39-41 | `x^c` differentiates to `x ^ (c - 1) * 1 * c`, with the two-argument constructors' false flags |

## Left out

- Java `double` arithmetic is not modelled. `Math.pow`, `Math.log`, `Math.E`, `Double.valueOf` and
  the operators are fields of the `Arithmetic` parameter of `Evaluate`. What is proved about
  evaluation therefore holds for any arithmetic, and nothing about rounding, overflow, NaN or
  division by zero is claimed.
- Differentiator.DerivativeIsSlope: proved only under `ExactArithmetic`. That hypothesis asks for
  exact `+`, `-` and `*`, division by one, `pow(a, 2) = a * a`, the values of "0", "1" and "2",
  and a logarithm of 1 at the base. It says nothing about IEEE doubles. The rules themselves
  (the `Tangent` reference) are stated over reals, with `div`, `pow` and `ln` left abstract.
- The double-to-text conversion in the literal's `convertToString` is the parameter `show`.
- Printer.OneLinePerNode: assumes `show` never yields a newline, which Java's double formatting
  guarantees. It also needs variables named "x", since a Variable prints its stored string.
- The regular-expression engine is not modelled. `IsFloatLiteral` is a greedy recogniser of the
  same pattern; its equivalence to the pattern is argued in its doc comment, not proved.
- Java `char` is a UTF-16 code unit, Dafny `char` a Unicode scalar value. The blank class
  `\x00`-`\x20` is `c <= ' '` in both.
- `main` (console output), GraphingCalculator.java (JavaFX plotting) and TriFunction.java are not
  part of this model.
- The root-directory ExponentialExpression.java and MultiplicityExpression.java are not part of
  this model:
  - their `differentiate` is a stub returning null;
  - the parser builds `MultiplicityExpression`, whose other methods have the same bodies as
    Expressions/MultiplicativeExpression.java, so one `Multiplicative` constructor covers both.
- The interfaces `Expression`, `ExpressionParser` and `ExpressionParseException` are not part of
  this model. Their signatures are taken from their uses, and the exception is a datatype carrying
  the message.
