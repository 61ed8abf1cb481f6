/**
 * Character classes and the three token classifiers of the expression
 * simplifier: numbers, variables and operators. Characters are ASCII; the
 * C library's locale-dependent classes are read in the "C" locale.
 */
module Tokens {

  predicate IsDigit(c: char) {
    '0' <= c <= '9'
  }

  predicate IsAlpha(c: char) {
    ('a' <= c <= 'z') || ('A' <= c <= 'Z')
  }

  predicate IsAlnum(c: char) {
    IsAlpha(c) || IsDigit(c)
  }

  /** The characters `isspace` accepts in the "C" locale. */
  predicate IsSpace(c: char) {
    c == ' ' || c == '\t' || c == '\n' || c == '\r' || c == '\U{000C}' || c == '\U{000B}'
  }

  predicate IsOperatorChar(c: char) {
    c == '+' || c == '-' || c == '*'
  }

  /** Scans `token` from index `i` on, stopping at the first non-digit. */
  function DigitsFrom(token: string, i: nat): (b: bool)
    requires i <= |token|
    ensures b <==> forall j :: i <= j < |token| ==> IsDigit(token[j])
    decreases |token| - i
  {
    if i == |token| then true
    else if !IsDigit(token[i]) then false
    else DigitsFrom(token, i + 1)
  }

  /** Scans `token` from index `i` on, stopping at the first non-alphanumeric. */
  function AlnumsFrom(token: string, i: nat): (b: bool)
    requires i <= |token|
    ensures b <==> forall j :: i <= j < |token| ==> IsAlnum(token[j])
    decreases |token| - i
  {
    if i == |token| then true
    else if !IsAlnum(token[i]) then false
    else AlnumsFrom(token, i + 1)
  }

  /** A number is a non-empty run of decimal digits. */
  function IsNumber(token: string): (b: bool)
    ensures b <==> |token| > 0 && forall j :: 0 <= j < |token| ==> IsDigit(token[j])
  {
    |token| != 0 && DigitsFrom(token, 0)
  }

  /** A variable starts with a letter and continues with letters or digits. */
  function IsVariable(token: string): (b: bool)
    ensures b <==> |token| > 0 && IsAlpha(token[0])
                   && forall j :: 0 <= j < |token| ==> IsAlnum(token[j])
  {
    if |token| == 0 || !IsAlpha(token[0]) then false
    else AlnumsFrom(token, 0)
  }

  /** An operator is exactly one of the three characters `+`, `-`, `*`. */
  function IsOperator(token: string): (b: bool)
    ensures b <==> token == "+" || token == "-" || token == "*"
  {
    |token| == 1 && IsOperatorChar(token[0])
  }

  /** No token is in two classes at once. */
  lemma ClassesDisjoint(token: string)
    ensures !(IsNumber(token) && IsVariable(token))
    ensures !(IsNumber(token) && IsOperator(token))
    ensures !(IsVariable(token) && IsOperator(token))
  {
    if IsOperator(token) {
      assert !IsDigit(token[0]) && !IsAlpha(token[0]);
    }
    if IsNumber(token) {
      assert !IsAlpha(token[0]);
    }
  }

  /** A token the parser accepts. */
  predicate IsValidToken(token: string) {
    IsNumber(token) || IsVariable(token) || IsOperator(token)
  }
}
