/** Classification of characters and tokens (`ExpressionTree.isOperator`, `precedence`, and the
    letter-or-digit test of `infixToPostfix`). */
module Operators {

  /** One of the six binary operator symbols. */
  predicate IsOperator(s: string)
  {
    s == "+" || s == "-" || s == "*" || s == "/" || s == "^" || s == "="
  }

  /** Precedence of a stack entry: higher binds tighter; anything that is not an operator,
      the opening parenthesis included, ranks below every operator. */
  function Precedence(op: string): (r: int)
    ensures -1 <= r <= 3
    ensures r >= 0 <==> IsOperator(op)
  {
    if op == "=" then 0
    else if op == "+" || op == "-" then 1
    else if op == "*" || op == "/" then 2
    else if op == "^" then 3
    else -1
  }

  lemma PrecedenceLevels()
    ensures Precedence("=") < Precedence("+") == Precedence("-")
    ensures Precedence("-") < Precedence("*") == Precedence("/")
    ensures Precedence("/") < Precedence("^")
    ensures Precedence("(") == -1
  {
  }

  /** A character that extends an operand: an ASCII letter or digit. */
  predicate IsOperandChar(c: char)
  {
    'a' <= c <= 'z' || 'A' <= c <= 'Z' || '0' <= c <= '9'
  }

  /** A token made of operand characters only. */
  predicate IsOperandToken(t: string)
  {
    |t| > 0 && forall k :: 0 <= k < |t| ==> IsOperandChar(t[k])
  }

  /** Operands, operators and the opening parenthesis are three disjoint kinds of token. */
  lemma KindsDisjoint(t: string)
    ensures IsOperator(t) ==> !IsOperandToken(t)
    ensures IsOperator(t) || IsOperandToken(t) ==> t != "("
  {
    if IsOperandToken(t) {
      assert IsOperandChar(t[0]);
    }
  }
}
