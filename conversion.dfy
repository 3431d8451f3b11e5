/** `ExpressionTree.infixToPostfix`: the shunting-yard conversion of an infix expression into
    space-separated postfix. The conversion is specified as a fold of `Step` over the input
    characters; the method `InfixToPostfix` is the source's loop over a stack and a StringBuilder,
    proved to compute that fold. */
module Conversion {
  import opened Outcomes
  import opened Seqs
  import opened Text
  import opened Operators

  /** The converter's state after a prefix of the input: the tokens appended to the result so
      far, the stack of operators and opening parentheses (top at the end) and the operand
      being accumulated. */
  datatype Scan = Scan(out: seq<string>, stack: seq<string>, operand: string)

  /** The tokens once a pending operand, if there is one, has been appended. */
  function Flush(out: seq<string>, operand: string): seq<string>
  {
    if |operand| > 0 then out + [operand] else out
  }

  /** Pops the stack while its top has precedence at least `p`; yields the entries popped, in
      the order they were popped, and the stack that is left. */
  function PopWhileAtLeast(stack: seq<string>, p: int): (seq<string>, seq<string>)
  {
    if stack == [] || Precedence(stack[|stack| - 1]) < p then ([], stack)
    else
      var (popped, rest) := PopWhileAtLeast(stack[..|stack| - 1], p);
      ([stack[|stack| - 1]] + popped, rest)
  }

  /** An incoming operator of precedence `p` pops exactly the entries at the top of the stack whose
      precedence is `p` or more (equal precedence included, so operators associate to the left),
      most recent first, and stops below the first entry of lower precedence. */
  lemma {:induction false} PopWhileAtLeastPops(stack: seq<string>, p: int)
    ensures var (popped, rest) := PopWhileAtLeast(stack, p);
      && rest + Reverse(popped) == stack
      && (forall k :: 0 <= k < |popped| ==> Precedence(popped[k]) >= p)
      && (rest == [] || Precedence(rest[|rest| - 1]) < p)
  {
    if stack != [] && Precedence(stack[|stack| - 1]) >= p {
      var top, init := stack[|stack| - 1], stack[..|stack| - 1];
      PopWhileAtLeastPops(init, p);
      var (popped, rest) := PopWhileAtLeast(init, p);
      assert ([top] + popped)[1..] == popped;
      assert Reverse([top] + popped) == Reverse(popped) + [top];
      assert init + [top] == stack;
    }
  }

  /** An operator's pops never reach an opening parenthesis, whose precedence is below every
      operator's. */
  lemma OperatorStopsAtOpen(stack: seq<string>, op: string)
    requires IsOperator(op)
    ensures forall k :: 0 <= k < |PopWhileAtLeast(stack, Precedence(op)).0| ==>
      PopWhileAtLeast(stack, Precedence(op)).0[k] != "("
  {
    PopWhileAtLeastPops(stack, Precedence(op));
  }

  /** Pops the stack until its top is an opening parenthesis (or it is empty); yields the entries
      popped, in the order they were popped, and the stack that is left. */
  function PopUntilOpen(stack: seq<string>): (seq<string>, seq<string>)
  {
    if stack == [] || stack[|stack| - 1] == "(" then ([], stack)
    else
      var (popped, rest) := PopUntilOpen(stack[..|stack| - 1]);
      ([stack[|stack| - 1]] + popped, rest)
  }

  /** A closing parenthesis pops every entry above the topmost `(`, most recent first, and leaves
      that `(` on top, or leaves nothing when the stack holds no `(`. */
  lemma {:induction false} PopUntilOpenPops(stack: seq<string>)
    ensures var (popped, rest) := PopUntilOpen(stack);
      && rest + Reverse(popped) == stack
      && (forall k :: 0 <= k < |popped| ==> popped[k] != "(")
      && (rest == [] || rest[|rest| - 1] == "(")
  {
    if stack != [] && stack[|stack| - 1] != "(" {
      var top, init := stack[|stack| - 1], stack[..|stack| - 1];
      PopUntilOpenPops(init);
      var (popped, rest) := PopUntilOpen(init);
      assert ([top] + popped)[1..] == popped;
      assert Reverse([top] + popped) == Reverse(popped) + [top];
      assert init + [top] == stack;
    }
  }

  /** One character of the scan. An operand character extends the operand; any other character
      first flushes the operand, then `(` is pushed, `)` pops up to the matching `(` and discards
      it (failing when there is none), an operator pops every entry of equal or higher precedence
      and is pushed, and any other character does nothing more. */
  function Step(st: Scan, c: char): Result<Scan>
  {
    if IsOperandChar(c) then Ok(Scan(st.out, st.stack, st.operand + [c]))
    else
      var out := Flush(st.out, st.operand);
      if c == '(' then Ok(Scan(out, st.stack + ["("], ""))
      else if c == ')' then
        var (popped, rest) := PopUntilOpen(st.stack);
        if rest == [] then Failure else Ok(Scan(out + popped, rest[..|rest| - 1], ""))
      else if IsOperator([c]) then
        var (popped, rest) := PopWhileAtLeast(st.stack, Precedence([c]));
        Ok(Scan(out + popped, rest + [[c]], ""))
      else Ok(Scan(out, st.stack, ""))
  }

  /** The scan of the characters of `s`, left to right, from the empty state. */
  function Steps(s: string): Result<Scan>
  {
    if s == [] then Ok(Scan([], [], ""))
    else
      match Steps(s[..|s| - 1])
      case Failure => Failure
      case Ok(st) => Step(st, s[|s| - 1])
  }

  /** The postfix tokens of `expression`: the scanned tokens, the last operand, then every entry
      left on the stack from the top down. */
  function PostfixTokens(expression: string): Result<seq<string>>
  {
    match Steps(expression)
    case Failure => Failure
    case Ok(st) => Ok(Flush(st.out, st.operand) + Reverse(st.stack))
  }

  /** The string `infixToPostfix` returns: every token followed by a space, then trimmed. */
  function Postfix(expression: string): Result<string>
  {
    match PostfixTokens(expression)
    case Failure => Failure
    case Ok(toks) => Ok(Trim(Emit(toks)))
  }

  lemma {:induction false} FailureSticks(s: string, i: nat)
    requires i <= |s| && Steps(s[..i]) == Failure
    ensures Steps(s) == Failure
  {
    if i < |s| {
      var init := s[..|s| - 1];
      assert init[..i] == s[..i];
      FailureSticks(init, i);
    } else {
      assert s[..i] == s;
    }
  }

  /** Lines 153-155: appends the entries above the topmost `(` to the result, popping them. */
  method AppendUntilOpen(result: string, stack: seq<string>, ghost out: seq<string>)
    returns (result': string, stack': seq<string>)
    requires result == Emit(out)
    ensures result' == Emit(out + PopUntilOpen(stack).0)
    ensures stack' == PopUntilOpen(stack).1
  {
    result', stack' := result, stack;
    ghost var popped: seq<string> := [];
    assert out + popped == out;
    assert popped + PopUntilOpen(stack).0 == PopUntilOpen(stack).0;
    while stack' != [] && stack'[|stack'| - 1] != "("
      invariant result' == Emit(out + popped)
      invariant PopUntilOpen(stack) == (popped + PopUntilOpen(stack').0, PopUntilOpen(stack').1)
      decreases |stack'|
    {
      var top, init := stack'[|stack'| - 1], stack'[..|stack'| - 1];
      assert (popped + [top]) + PopUntilOpen(init).0 == popped + ([top] + PopUntilOpen(init).0);
      EmitSnoc(out + popped, top);
      assert out + popped + [top] == out + (popped + [top]);
      result' := result' + top + " ";
      popped := popped + [top];
      stack' := init;
    }
    assert popped + PopUntilOpen(stack').0 == popped;
  }

  /** Lines 160-162: appends to the result, popping them, the stacked entries whose precedence is
      at least `p`. */
  method AppendWhileAtLeast(result: string, stack: seq<string>, p: int, ghost out: seq<string>)
    returns (result': string, stack': seq<string>)
    requires result == Emit(out)
    ensures result' == Emit(out + PopWhileAtLeast(stack, p).0)
    ensures stack' == PopWhileAtLeast(stack, p).1
  {
    result', stack' := result, stack;
    ghost var popped: seq<string> := [];
    assert out + popped == out;
    assert popped + PopWhileAtLeast(stack, p).0 == PopWhileAtLeast(stack, p).0;
    while stack' != [] && p <= Precedence(stack'[|stack'| - 1])
      invariant result' == Emit(out + popped)
      invariant PopWhileAtLeast(stack, p) == (popped + PopWhileAtLeast(stack', p).0, PopWhileAtLeast(stack', p).1)
      decreases |stack'|
    {
      var top, init := stack'[|stack'| - 1], stack'[..|stack'| - 1];
      assert (popped + [top]) + PopWhileAtLeast(init, p).0 == popped + ([top] + PopWhileAtLeast(init, p).0);
      EmitSnoc(out + popped, top);
      assert out + popped + [top] == out + (popped + [top]);
      result' := result' + top + " ";
      popped := popped + [top];
      stack' := init;
    }
    assert popped + PopWhileAtLeast(stack', p).0 == popped;
  }

  /** Lines 174-176: appends every entry left on the stack to the result, top first. */
  method AppendRemaining(result: string, stack: seq<string>, ghost out: seq<string>)
    returns (result': string)
    requires result == Emit(out)
    ensures result' == Emit(out + Reverse(stack))
  {
    result' := result;
    var rest := stack;
    ghost var done := out;
    while rest != []
      invariant done + Reverse(rest) == out + Reverse(stack) && result' == Emit(done)
      decreases |rest|
    {
      var top := rest[|rest| - 1];
      ReverseSnoc(rest[..|rest| - 1], top);
      assert rest == rest[..|rest| - 1] + [top];
      EmitSnoc(done, top);
      result' := result' + top + " ";
      done := done + [top];
      rest := rest[..|rest| - 1];
    }
    assert done + Reverse(rest) == done;
  }

  /** The source's loop over the characters: `result` is the StringBuilder, `stack` the
      `Stack<String>` with its top at the end, `operand` the operand accumulator. */
  method InfixToPostfix(expression: string) returns (r: Result<string>)
    ensures r == Postfix(expression)
  {
    var result := "";
    var stack: seq<string> := [];
    var operand := "";
    ghost var out: seq<string> := [];
    for i := 0 to |expression|
      invariant Steps(expression[..i]) == Ok(Scan(out, stack, operand))
      invariant result == Emit(out)
    {
      var token := expression[i];
      assert expression[..i + 1][..i] == expression[..i];
      if IsOperandChar(token) {
        operand := operand + [token];
      } else {
        if |operand| > 0 {
          EmitSnoc(out, operand);
          result := result + operand + " ";
          out := out + [operand];
          operand := "";
        }
        if token == '(' {
          stack := stack + ["("];
        } else if token == ')' {
          ghost var popped := PopUntilOpen(stack).0;
          result, stack := AppendUntilOpen(result, stack, out);
          out := out + popped;
          if stack == [] {
            FailureSticks(expression, i + 1);
            return Failure;
          }
          stack := stack[..|stack| - 1];
        } else if IsOperator([token]) {
          ghost var popped := PopWhileAtLeast(stack, Precedence([token])).0;
          result, stack := AppendWhileAtLeast(result, stack, Precedence([token]), out);
          out := out + popped;
          stack := stack + [[token]];
        }
      }
    }
    assert expression[..|expression|] == expression;
    if |operand| > 0 {
      EmitSnoc(out, operand);
      result := result + operand + " ";
      out := out + [operand];
    }
    result := AppendRemaining(result, stack, out);
    r := Ok(Trim(result));
  }
}
