/**
 * The floating-point literal pattern that `parseLiteralExpression` matches with `String.matches`:
 *
 *   Blank* [+-]? ( NaN | Infinity | ( Decimal | Hex ) [fFdD]? ) Blank*
 *
 * where Blank is any character from U+0000 to U+0020,
 *   Decimal = Digits '.'? Digits? Exp? | '.' Digits Exp?,   Exp = [eE] [+-]? Digits,
 *   Hex     = 0[xX] HexDigits '.'? | 0[xX] HexDigits? '.' HexDigits, followed by [pP] [+-]? Digits.
 *
 * The recogniser below reads each piece greedily. Greedy reading accepts exactly what the pattern
 * accepts, because every piece ends where the next one must begin with a character the piece
 * cannot contain (a digit run is followed by '.', an exponent marker, a suffix or a blank).
 */
module FloatLiterals {
  import opened Outcomes

  datatype CharClass = Blank | Digit | HexDigit

  predicate InClass(c: char, k: CharClass) {
    match k
    case Blank => c <= ' '
    case Digit => '0' <= c <= '9'
    case HexDigit => '0' <= c <= '9' || 'a' <= c <= 'f' || 'A' <= c <= 'F'
  }

  /** Length of the longest prefix of `s` made of characters of class `k`. */
  function Span(s: string, k: CharClass): (n: nat)
    ensures n <= |s|
    ensures forall j :: 0 <= j < n ==> InClass(s[j], k)
    ensures n < |s| ==> !InClass(s[n], k)
  {
    if s != [] && InClass(s[0], k) then 1 + Span(s[1..], k) else 0
  }

  /** 1 when `s` starts with an optional sign character, else 0. */
  function SignLength(s: string): (n: nat)
    ensures n <= |s| && n <= 1
    ensures n == 1 <==> s != [] && (s[0] == '+' || s[0] == '-')
  {
    if s != [] && (s[0] == '+' || s[0] == '-') then 1 else 0
  }

  /** Length of `marker [+-]? Digits` at the start of `s`, or 0 when it is not there. */
  function ExponentLength(s: string, marker: set<char>): (n: nat)
    ensures n <= |s|
    ensures n > 0 ==> s[0] in marker && InClass(s[n - 1], Digit)
  {
    if s != [] && s[0] in marker then
      var sign := SignLength(s[1..]);
      var digits := Span(s[1 + sign..], Digit);
      if digits > 0 then 1 + sign + digits else 0
    else 0
  }

  /** Length of the decimal form `Digits '.'? Digits? Exp? | '.' Digits Exp?` at the start of `s`. */
  function DecimalLength(s: string): (r: Option<nat>)
    ensures r.Some? ==> 0 < r.value <= |s| && (InClass(s[0], Digit) || s[0] == '.')
  {
    var whole := Span(s, Digit);
    var dot := if whole < |s| && s[whole] == '.' then 1 else 0;
    var fraction := Span(s[whole + dot..], Digit);
    if whole == 0 && (dot == 0 || fraction == 0) then None
    else
      var mantissa := whole + dot + fraction;
      Some(mantissa + ExponentLength(s[mantissa..], {'e', 'E'}))
  }

  /** Length of the hexadecimal form, binary exponent included, at the start of `s`. */
  function HexLength(s: string): (r: Option<nat>)
    ensures r.Some? ==> 2 < r.value <= |s| && s[0] == '0'
  {
    if |s| >= 2 && s[0] == '0' && (s[1] == 'x' || s[1] == 'X') then
      var whole := Span(s[2..], HexDigit);
      var dot := if 2 + whole < |s| && s[2 + whole] == '.' then 1 else 0;
      var fraction := Span(s[2 + whole + dot..], HexDigit);
      if (whole > 0 && fraction == 0) || (dot == 1 && fraction > 0) then
        var mantissa := 2 + whole + dot + fraction;
        var exponent := ExponentLength(s[mantissa..], {'p', 'P'});
        if exponent > 0 then Some(mantissa + exponent) else None
      else None
    else None
  }

  predicate AllBlank(s: string) {
    Span(s, Blank) == |s|
  }

  /** What may follow a decimal or hexadecimal number: an optional type suffix, then blanks. */
  predicate SuffixThenBlank(s: string) {
    AllBlank(s) || (s[0] in {'f', 'F', 'd', 'D'} && AllBlank(s[1..]))
  }

  /** The number itself, after the leading blanks and the sign. */
  predicate IsUnsignedNumber(body: string) {
    || (|body| >= 3 && body[..3] == "NaN" && AllBlank(body[3..]))
    || (|body| >= 8 && body[..8] == "Infinity" && AllBlank(body[8..]))
    || (DecimalLength(body).Some? && SuffixThenBlank(body[DecimalLength(body).value..]))
    || (HexLength(body).Some? && SuffixThenBlank(body[HexLength(body).value..]))
  }

  /** Does the whole of `s` match the floating-point literal pattern? */
  predicate IsFloatLiteral(s: string) {
    var lead := Span(s, Blank);
    var signed := s[lead..];
    IsUnsignedNumber(signed[SignLength(signed)..])
  }

  /**
   * A literal starts with a blank, a sign, a digit, '.', 'N' or 'I'; so never with a
   * parenthesis, an operator of the grammar other than a sign, or the 'l' of `log(`.
   */
  lemma {:induction false} LiteralStart(s: string)
    requires IsFloatLiteral(s)
    ensures s != []
    ensures InClass(s[0], Blank) || s[0] in {'+', '-', '.', 'N', 'I'} || InClass(s[0], Digit)
  {
    var lead := Span(s, Blank);
    var signed := s[lead..];
    var body := signed[SignLength(signed)..];
    if body == [] {
      assert false;
    }
    if lead == 0 && SignLength(signed) == 0 {
      assert s[0] == body[0];
      if |body| >= 3 && body[..3] == "NaN" {
        assert body[0] == body[..3][0] == 'N';
      } else if |body| >= 8 && body[..8] == "Infinity" {
        assert body[0] == body[..8][0] == 'I';
      }
    }
  }

  /** So a string starting with '(', 'l' or 'x' is never a literal. */
  lemma NotLiteralStart(s: string)
    requires s != [] && s[0] in {'(', 'l', 'x'}
    ensures !IsFloatLiteral(s)
  {
    if IsFloatLiteral(s) {
      LiteralStart(s);
    }
  }

  /** Every one-digit string matches the pattern. */
  lemma DigitIsLiteral(c: char)
    requires InClass(c, Digit)
    ensures IsFloatLiteral([c])
  {
    var s := [c];
    assert Span(s, Blank) == 0;
    assert SignLength(s) == 0;
    assert s[0..][0..] == s;
    assert Span(s, Digit) == 1 by {
      assert Span(s[1..], Digit) == 0;
    }
    assert DecimalLength(s) == Some(1);
    assert AllBlank(s[1..]);
  }
}
