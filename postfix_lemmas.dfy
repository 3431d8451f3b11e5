/** What the conversion of `ExpressionTree.infixToPostfix` guarantees. Each property is stated
    against a definition over the input characters alone (its operand runs, its operator symbols,
    its parenthesis depth) and proved through an invariant of the scan. */
module PostfixLemmas {
  import opened Outcomes
  import opened Seqs
  import opened Text
  import opened Operators
  import opened Conversion

  /** The longest suffix of `s` made of operand characters. */
  function OperandSuffix(s: string): (r: string)
    ensures |r| <= |s| && r == s[|s| - |r|..]
    ensures forall k :: 0 <= k < |r| ==> IsOperandChar(r[k])
    ensures |r| < |s| ==> !IsOperandChar(s[|s| - |r| - 1])
  {
    if s != [] && IsOperandChar(s[|s| - 1]) then OperandSuffix(s[..|s| - 1]) + [s[|s| - 1]] else []
  }

  /** The maximal runs of operand characters in `s`, left to right: an operand character extends
      the last run when the character before it is one too, and starts a new run otherwise. */
  function OperandRuns(s: string): (r: seq<string>)
    ensures forall k :: 0 <= k < |r| ==> IsOperandToken(r[k])
    ensures s != [] && IsOperandChar(s[|s| - 1]) ==> |r| > 0
  {
    if s == [] then []
    else
      var init, c := s[..|s| - 1], s[|s| - 1];
      var runs := OperandRuns(init);
      if !IsOperandChar(c) then runs
      else if init != [] && IsOperandChar(init[|init| - 1]) then
        runs[..|runs| - 1] + [runs[|runs| - 1] + [c]]
      else runs + [[c]]
  }

  /** The operator symbols of `s`, each as a one-character string. */
  function OperatorSymbols(s: string): multiset<string>
  {
    if s == [] then multiset{}
    else OperatorSymbols(s[..|s| - 1]) + (if IsOperator([s[|s| - 1]]) then multiset{[s[|s| - 1]]} else multiset{})
  }

  /** Opening minus closing parentheses in `s`. */
  function Depth(s: string): int
  {
    if s == [] then 0
    else Depth(s[..|s| - 1]) + (if s[|s| - 1] == '(' then 1 else if s[|s| - 1] == ')' then -1 else 0)
  }

  /** No prefix of `s` closes more parentheses than it opens. */
  predicate ClosesMatched(s: string)
  {
    s == [] || (ClosesMatched(s[..|s| - 1]) && Depth(s) >= 0)
  }

  /** `ClosesMatched` in closed form: every prefix has at least as many `(` as `)`. */
  lemma {:induction false} ClosesMatchedPrefixes(s: string)
    ensures ClosesMatched(s) <==> forall k :: 0 <= k <= |s| ==> Depth(s[..k]) >= 0
  {
    if s != [] {
      var init := s[..|s| - 1];
      ClosesMatchedPrefixes(init);
      assert forall k :: 0 <= k <= |init| ==> init[..k] == s[..k];
      assert s[..|s|] == s;
    } else {
      assert s[..0] == s;
    }
  }

  /** Between two parentheses, the stacked operators rise strictly in precedence from the bottom
      up: no operator ever sits directly on one of equal or higher precedence. */
  predicate Increasing(stack: seq<string>)
  {
    forall k :: 0 < k < |stack| && stack[k] != "(" ==> Precedence(stack[k - 1]) < Precedence(stack[k])
  }

  predicate IsStackEntry(t: string)
  {
    t == "(" || IsOperator(t)
  }

  predicate IsScanned(t: string)
  {
    IsOperandToken(t) || IsOperator(t)
  }

  lemma SnocDepth(p: string, c: char)
    ensures Depth(p + [c]) == Depth(p) + (if c == '(' then 1 else if c == ')' then -1 else 0)
    ensures ClosesMatched(p + [c]) == (ClosesMatched(p) && Depth(p + [c]) >= 0)
  {
    assert (p + [c])[..|p|] == p;
  }

  lemma SnocOperand(p: string, c: char)
    ensures OperandSuffix(p + [c]) == if IsOperandChar(c) then OperandSuffix(p) + [c] else []
    ensures !IsOperandChar(c) ==> OperandRuns(p + [c]) == OperandRuns(p)
  {
    assert (p + [c])[..|p|] == p;
  }

  lemma SnocOperators(p: string, c: char)
    ensures OperatorSymbols(p + [c]) == OperatorSymbols(p) + (if IsOperator([c]) then multiset{[c]} else multiset{})
  {
    assert (p + [c])[..|p|] == p;
  }

  lemma MatchedDepth(p: string)
    requires ClosesMatched(p)
    ensures Depth(p) >= 0
  {
  }

  lemma OperatorChar(c: char)
    requires IsOperator([c])
    ensures !IsOperandChar(c) && c != '(' && c != ')'
  {
  }

  lemma {:induction false} StepsSnoc(p: string, c: char)
    ensures Steps(p + [c]) == match Steps(p) case Failure => Failure case Ok(st) => Step(st, c)
  {
    assert (p + [c])[..|p|] == p;
  }

  // ---------------------------------------------------------------------------------------------
  // Parentheses: the scan fails exactly on a closing parenthesis with no `(` on the stack.

  /** The opening parentheses on the stack are those the scanned prefix left open. */
  ghost predicate DepthInvariant(p: string, st: Scan)
  {
    multiset(st.stack)["("] == Depth(p)
  }

  lemma DepthClose(stack: seq<string>, popped: seq<string>, rest: seq<string>)
    requires rest + Reverse(popped) == stack
    requires forall k :: 0 <= k < |popped| ==> popped[k] != "("
    requires rest == [] || rest[|rest| - 1] == "("
    ensures rest == [] <==> multiset(stack)["("] == 0
    ensures rest != [] ==> multiset(rest[..|rest| - 1])["("] == multiset(stack)["("] - 1
  {
    MultisetReverse(popped);
    assert multiset(stack) == multiset(rest) + multiset(popped);
    assert "(" !in popped;
    assert multiset(popped)["("] == 0;
    if rest != [] {
      var below := rest[..|rest| - 1];
      assert rest == below + [rest[|rest| - 1]];
      assert multiset(rest) == multiset(below) + multiset{rest[|rest| - 1]};
    }
  }

  lemma DepthOperator(stack: seq<string>, popped: seq<string>, rest: seq<string>, op: string)
    requires rest + Reverse(popped) == stack
    requires forall k :: 0 <= k < |popped| ==> popped[k] != "("
    requires op != "("
    ensures multiset(rest + [op])["("] == multiset(stack)["("]
  {
    MultisetReverse(popped);
    assert multiset(stack) == multiset(rest) + multiset(popped);
    assert "(" !in popped;
    assert multiset(popped)["("] == 0;
  }

  lemma DepthCloseStep(p: string, st: Scan)
    requires DepthInvariant(p, st) && ClosesMatched(p)
    ensures Step(st, ')').Ok? <==> ClosesMatched(p + [')'])
    ensures Step(st, ')').Ok? ==> DepthInvariant(p + [')'], Step(st, ')').value)
  {
    SnocDepth(p, ')');
    MatchedDepth(p);
    var (popped, rest) := PopUntilOpen(st.stack);
    PopUntilOpenPops(st.stack);
    DepthClose(st.stack, popped, rest);
    StepCloseIs(st, popped, rest);
  }

  lemma DepthOperatorStep(p: string, st: Scan, c: char)
    requires DepthInvariant(p, st) && ClosesMatched(p) && IsOperator([c])
    ensures Step(st, c).Ok? && ClosesMatched(p + [c]) && DepthInvariant(p + [c], Step(st, c).value)
  {
    OperatorChar(c);
    SnocDepth(p, c);
    var (popped, rest) := PopWhileAtLeast(st.stack, Precedence([c]));
    OperatorStopsAtOpen(st.stack, [c]);
    PopWhileAtLeastPops(st.stack, Precedence([c]));
    DepthOperator(st.stack, popped, rest, [c]);
    StepOperatorIs(st, c, popped, rest);
  }

  lemma DepthStep(p: string, st: Scan, c: char)
    requires DepthInvariant(p, st) && ClosesMatched(p)
    ensures Step(st, c).Ok? <==> ClosesMatched(p + [c])
    ensures Step(st, c).Ok? ==> DepthInvariant(p + [c], Step(st, c).value)
  {
    if c == ')' {
      DepthCloseStep(p, st);
    } else if IsOperator([c]) {
      DepthOperatorStep(p, st, c);
    } else {
      SnocDepth(p, c);
      MatchedDepth(p);
      if c == '(' {
        assert multiset(st.stack + ["("]) == multiset(st.stack) + multiset{"("};
      }
    }
  }

  /** The scan fails exactly when some prefix of the input closes a parenthesis it never opened;
      otherwise the stack holds one `(` for every parenthesis left open. */
  lemma {:induction false} StepsDepth(s: string)
    ensures Steps(s).Ok? <==> ClosesMatched(s)
    ensures Steps(s).Ok? ==> DepthInvariant(s, Steps(s).value)
  {
    if s != [] {
      var p, c := s[..|s| - 1], s[|s| - 1];
      assert s == p + [c];
      StepsDepth(p);
      StepsSnoc(p, c);
      SnocDepth(p, c);
      if Steps(p).Ok? {
        DepthStep(p, Steps(p).value, c);
      }
    }
  }

  // ---------------------------------------------------------------------------------------------
  // Shape: what kinds of token the result and the stack hold.

  lemma StepCloseIs(st: Scan, popped: seq<string>, rest: seq<string>)
    requires (popped, rest) == PopUntilOpen(st.stack)
    ensures Step(st, ')') == if rest == [] then Failure else Ok(Scan(Flush(st.out, st.operand) + popped, rest[..|rest| - 1], ""))
  {
  }

  lemma StepOperatorIs(st: Scan, c: char, popped: seq<string>, rest: seq<string>)
    requires IsOperator([c]) && (popped, rest) == PopWhileAtLeast(st.stack, Precedence([c]))
    ensures Step(st, c) == Ok(Scan(Flush(st.out, st.operand) + popped, rest + [[c]], ""))
  {
    OperatorChar(c);
  }

  ghost predicate ShapeInvariant(st: Scan)
  {
    && (forall k :: 0 <= k < |st.out| ==> IsScanned(st.out[k]))
    && (forall k :: 0 <= k < |st.stack| ==> IsStackEntry(st.stack[k]))
    && (forall k :: 0 <= k < |st.operand| ==> IsOperandChar(st.operand[k]))
    && Increasing(st.stack)
  }

  lemma FlushShape(st: Scan)
    requires ShapeInvariant(st)
    ensures forall k :: 0 <= k < |Flush(st.out, st.operand)| ==> IsScanned(Flush(st.out, st.operand)[k])
  {
  }

  /** What is popped off a stack of operators and parentheses, short of a `(`, is operators, and
      what is left is a prefix of the stack. */
  lemma PoppedOperators(stack: seq<string>, rest: seq<string>, popped: seq<string>)
    requires stack == rest + Reverse(popped)
    requires forall k :: 0 <= k < |stack| ==> IsStackEntry(stack[k])
    requires forall k :: 0 <= k < |popped| ==> popped[k] != "("
    ensures forall k :: 0 <= k < |popped| ==> IsOperator(popped[k])
    ensures rest == stack[..|rest|]
  {
    PoppedFromTop(stack, rest, popped);
    forall k | 0 <= k < |rest| ensures rest[k] == stack[k] {
      assert stack[k] == (rest + Reverse(popped))[k];
    }
  }

  lemma OutShape(out: seq<string>, popped: seq<string>)
    requires forall k :: 0 <= k < |out| ==> IsScanned(out[k])
    requires forall k :: 0 <= k < |popped| ==> IsOperator(popped[k])
    ensures forall k :: 0 <= k < |out + popped| ==> IsScanned((out + popped)[k])
  {
  }

  lemma PrefixShape(stack: seq<string>, n: nat)
    requires n <= |stack|
    requires forall k :: 0 <= k < |stack| ==> IsStackEntry(stack[k])
    requires Increasing(stack)
    ensures forall k :: 0 <= k < n ==> IsStackEntry(stack[..n][k])
    ensures Increasing(stack[..n])
  {
  }

  lemma PushOperatorShape(rest: seq<string>, op: string)
    requires forall k :: 0 <= k < |rest| ==> IsStackEntry(rest[k])
    requires Increasing(rest) && IsOperator(op)
    requires rest == [] || Precedence(rest[|rest| - 1]) < Precedence(op)
    ensures forall k :: 0 <= k < |rest + [op]| ==> IsStackEntry((rest + [op])[k])
    ensures Increasing(rest + [op])
  {
  }

  lemma ShapeOf(out: seq<string>, stack: seq<string>)
    requires forall k :: 0 <= k < |out| ==> IsScanned(out[k])
    requires forall k :: 0 <= k < |stack| ==> IsStackEntry(stack[k])
    requires Increasing(stack)
    ensures ShapeInvariant(Scan(out, stack, ""))
  {
  }

  lemma ShapeClose(st: Scan, popped: seq<string>, rest: seq<string>)
    requires ShapeInvariant(st)
    requires rest + Reverse(popped) == st.stack
    requires forall k :: 0 <= k < |popped| ==> popped[k] != "("
    requires rest != []
    ensures ShapeInvariant(Scan(Flush(st.out, st.operand) + popped, rest[..|rest| - 1], ""))
  {
    var out := Flush(st.out, st.operand);
    FlushShape(st);
    PoppedOperators(st.stack, rest, popped);
    OutShape(out, popped);
    var n := |rest| - 1;
    PrefixShape(st.stack, n);
    PrefixOfPrefix(st.stack, |rest|, n);
    ShapeOf(out + popped, rest[..n]);
  }

  lemma ShapeOperator(st: Scan, op: string, popped: seq<string>, rest: seq<string>)
    requires ShapeInvariant(st) && IsOperator(op)
    requires rest + Reverse(popped) == st.stack
    requires forall k :: 0 <= k < |popped| ==> popped[k] != "("
    requires rest == [] || Precedence(rest[|rest| - 1]) < Precedence(op)
    ensures ShapeInvariant(Scan(Flush(st.out, st.operand) + popped, rest + [op], ""))
  {
    FlushShape(st);
    PoppedOperators(st.stack, rest, popped);
    OutShape(Flush(st.out, st.operand), popped);
    PrefixShape(st.stack, |rest|);
    PushOperatorShape(rest, [op][0]);
  }

  lemma ShapeStep(st: Scan, c: char)
    requires ShapeInvariant(st)
    ensures Step(st, c).Ok? ==> ShapeInvariant(Step(st, c).value)
  {
    if c == ')' {
      var (popped, rest) := PopUntilOpen(st.stack);
      PopUntilOpenPops(st.stack);
      StepCloseIs(st, popped, rest);
      if rest != [] {
        ShapeClose(st, popped, rest);
      }
    } else if !IsOperandChar(c) && c != '(' && IsOperator([c]) {
      var (popped, rest) := PopWhileAtLeast(st.stack, Precedence([c]));
      PopWhileAtLeastPops(st.stack, Precedence([c]));
      OperatorStopsAtOpen(st.stack, [c]);
      StepOperatorIs(st, c, popped, rest);
      ShapeOperator(st, [c], popped, rest);
    } else {
      FlushShape(st);
    }
  }

  lemma {:induction false} StepsShape(s: string)
    ensures Steps(s).Ok? ==> ShapeInvariant(Steps(s).value)
  {
    if s != [] {
      var p, c := s[..|s| - 1], s[|s| - 1];
      assert s == p + [c];
      StepsShape(p);
      StepsSnoc(p, c);
      if Steps(p).Ok? {
        ShapeStep(Steps(p).value, c);
      }
    }
  }

  // ---------------------------------------------------------------------------------------------
  // Operands: the operand tokens are the input's maximal runs of letters and digits, in order.

  ghost predicate RunsInvariant(p: string, st: Scan)
  {
    && st.operand == OperandSuffix(p)
    && Filter(IsOperandToken, Flush(st.out, st.operand)) == OperandRuns(p)
  }

  lemma RunsFlush(p: string, st: Scan, popped: seq<string>)
    requires RunsInvariant(p, st)
    requires forall k :: 0 <= k < |popped| ==> IsOperator(popped[k])
    ensures RunsInvariant(p + [')'], Scan(Flush(st.out, st.operand) + popped, [], ""))
  {
    SnocOperand(p, ')');
    var f := Filter(IsOperandToken, popped);
    if f != [] {
      assert f[0] in popped;
      KindsDisjoint(f[0]);
    }
    FilterAppend(IsOperandToken, Flush(st.out, st.operand), popped);
  }

  /** The invariant does not depend on the stack, nor on which non-operand character ended the
      prefix. */
  lemma RunsAnyStack(p: string, c: char, c': char, out: seq<string>, stack: seq<string>)
    requires !IsOperandChar(c) && !IsOperandChar(c')
    requires RunsInvariant(p + [c], Scan(out, [], ""))
    ensures RunsInvariant(p + [c'], Scan(out, stack, ""))
  {
    SnocOperand(p, c);
    SnocOperand(p, c');
  }

  lemma RunsSnoc(p: string, c: char)
    requires IsOperandChar(c)
    ensures var runs := OperandRuns(p);
      OperandRuns(p + [c]) == if p != [] && IsOperandChar(p[|p| - 1])
        then runs[..|runs| - 1] + [runs[|runs| - 1] + [c]] else runs + [[c]]
  {
    assert (p + [c])[..|p|] == p;
  }

  /** An operand character after another extends the last run. */
  lemma RunsExtend(p: string, st: Scan, c: char)
    requires RunsInvariant(p, st) && IsOperandChar(c) && |st.operand| > 0
    ensures RunsInvariant(p + [c], Scan(st.out, st.stack, st.operand + [c]))
  {
    SnocOperand(p, c);
    RunsSnoc(p, c);
    var f, runs, op := Filter(IsOperandToken, st.out), OperandRuns(p), st.operand + [c];
    assert IsOperandToken(st.operand) && IsOperandToken(op);
    FilterSnoc(IsOperandToken, st.out, st.operand);
    FilterSnoc(IsOperandToken, st.out, op);
    assert runs == f + [st.operand];
    assert p[|p| - 1] == st.operand[|st.operand| - 1];
    assert runs[..|runs| - 1] == f && runs[|runs| - 1] == st.operand;
  }

  /** An operand character after anything else starts a new run. */
  lemma RunsStart(p: string, st: Scan, c: char)
    requires RunsInvariant(p, st) && IsOperandChar(c) && st.operand == ""
    ensures RunsInvariant(p + [c], Scan(st.out, st.stack, st.operand + [c]))
  {
    SnocOperand(p, c);
    RunsSnoc(p, c);
    var op := st.operand + [c];
    assert op == [c] && IsOperandToken(op);
    FilterSnoc(IsOperandToken, st.out, op);
    assert p != [] ==> !IsOperandChar(p[|p| - 1]);
  }

  lemma RunsOperandChar(p: string, st: Scan, c: char)
    requires RunsInvariant(p, st) && IsOperandChar(c)
    ensures RunsInvariant(p + [c], Scan(st.out, st.stack, st.operand + [c]))
  {
    if |st.operand| > 0 {
      RunsExtend(p, st, c);
    } else {
      RunsStart(p, st, c);
    }
  }

  lemma RunsStep(p: string, st: Scan, c: char)
    requires RunsInvariant(p, st) && ShapeInvariant(st)
    ensures Step(st, c).Ok? ==> RunsInvariant(p + [c], Step(st, c).value)
  {
    var out := Flush(st.out, st.operand);
    if IsOperandChar(c) {
      RunsOperandChar(p, st, c);
    } else if c == ')' {
      var (popped, rest) := PopUntilOpen(st.stack);
      PopUntilOpenPops(st.stack);
      StepCloseIs(st, popped, rest);
      if rest != [] {
        PoppedOperators(st.stack, rest, popped);
        RunsFlush(p, st, popped);
        RunsAnyStack(p, ')', ')', out + popped, rest[..|rest| - 1]);
      }
    } else if IsOperator([c]) {
      var (popped, rest) := PopWhileAtLeast(st.stack, Precedence([c]));
      PopWhileAtLeastPops(st.stack, Precedence([c]));
      OperatorStopsAtOpen(st.stack, [c]);
      StepOperatorIs(st, c, popped, rest);
      PoppedOperators(st.stack, rest, popped);
      RunsFlush(p, st, popped);
      RunsAnyStack(p, ')', c, out + popped, rest + [[c]]);
    } else {
      RunsFlush(p, st, []);
      assert out + [] == out;
      RunsAnyStack(p, ')', c, out, Step(st, c).value.stack);
    }
  }

  lemma {:induction false} StepsRuns(s: string)
    ensures Steps(s).Ok? ==> RunsInvariant(s, Steps(s).value)
  {
    if s != [] {
      var p, c := s[..|s| - 1], s[|s| - 1];
      assert s == p + [c];
      StepsRuns(p);
      StepsShape(p);
      StepsSnoc(p, c);
      if Steps(p).Ok? {
        RunsStep(p, Steps(p).value, c);
      }
    } else {
      assert Filter(IsOperandToken, []) == [];
    }
  }

  // ---------------------------------------------------------------------------------------------
  // Operators: every operator symbol of the input is in the result or on the stack, once.

  ghost predicate OperatorsInvariant(p: string, st: Scan)
  {
    multiset(Filter(IsOperator, st.out)) + multiset(Filter(IsOperator, st.stack)) == OperatorSymbols(p)
  }

  lemma OperatorsFlush(st: Scan)
    requires forall k :: 0 <= k < |st.operand| ==> IsOperandChar(st.operand[k])
    ensures Filter(IsOperator, Flush(st.out, st.operand)) == Filter(IsOperator, st.out)
  {
    if |st.operand| > 0 {
      KindsDisjoint(st.operand);
      FilterSnoc(IsOperator, st.out, st.operand);
    }
  }

  /** Moving entries from the stack to the result keeps the operators they hold. */
  lemma OperatorsMoved(out: seq<string>, stack: seq<string>, rest: seq<string>, popped: seq<string>)
    requires stack == rest + Reverse(popped)
    ensures multiset(Filter(IsOperator, out + popped)) + multiset(Filter(IsOperator, rest))
         == multiset(Filter(IsOperator, out)) + multiset(Filter(IsOperator, stack))
  {
    FilterAppend(IsOperator, rest, Reverse(popped));
    FilterReverse(IsOperator, popped);
    FilterAppend(IsOperator, out, popped);
  }

  lemma OpenDropped(init: seq<string>, rest: seq<string>)
    requires rest == init + ["("]
    ensures Filter(IsOperator, init) == Filter(IsOperator, rest)
  {
    assert !IsOperator("(");
    FilterSnoc(IsOperator, init, "(");
  }

  lemma DropOpen(rest: seq<string>)
    requires rest != [] && rest[|rest| - 1] == "("
    ensures Filter(IsOperator, rest[..|rest| - 1]) == Filter(IsOperator, rest)
  {
    SnocLast(rest);
    OpenDropped(rest[..|rest| - 1], rest);
  }

  lemma OperatorsClose(p: string, st: Scan, popped: seq<string>, rest: seq<string>)
    requires OperatorsInvariant(p, st)
    requires forall k :: 0 <= k < |st.operand| ==> IsOperandChar(st.operand[k])
    requires rest + Reverse(popped) == st.stack
    requires rest != [] && rest[|rest| - 1] == "("
    ensures OperatorsInvariant(p + [')'], Scan(Flush(st.out, st.operand) + popped, rest[..|rest| - 1], ""))
  {
    var out := Flush(st.out, st.operand);
    SnocOperators(p, ')');
    OperatorsFlush(st);
    OperatorsMoved(out, st.stack, rest, popped);
    DropOpen(rest);
    OperatorsOf(p + [')'], out + popped, rest[..|rest| - 1],
      multiset(Filter(IsOperator, out + popped)) + multiset(Filter(IsOperator, rest)));
  }

  lemma OperatorsOf(p: string, out: seq<string>, stack: seq<string>, m: multiset<string>)
    requires m == multiset(Filter(IsOperator, out)) + multiset(Filter(IsOperator, stack))
    requires m == OperatorSymbols(p)
    ensures OperatorsInvariant(p, Scan(out, stack, ""))
  {
  }

  lemma OperatorsOperator(p: string, st: Scan, c: char, popped: seq<string>, rest: seq<string>)
    requires OperatorsInvariant(p, st) && ShapeInvariant(st) && IsOperator([c])
    requires rest + Reverse(popped) == st.stack
    ensures OperatorsInvariant(p + [c], Scan(Flush(st.out, st.operand) + popped, rest + [[c]], ""))
  {
    SnocOperators(p, c);
    OperatorsFlush(st);
    OperatorsMoved(Flush(st.out, st.operand), st.stack, rest, popped);
    FilterSnoc(IsOperator, rest, [c]);
  }

  lemma OperatorsOther(p: string, st: Scan, c: char)
    requires OperatorsInvariant(p, st) && ShapeInvariant(st)
    requires !IsOperandChar(c) && c != ')' && !IsOperator([c])
    ensures OperatorsInvariant(p + [c], Scan(Flush(st.out, st.operand), if c == '(' then st.stack + ["("] else st.stack, ""))
  {
    SnocOperators(p, c);
    OperatorsFlush(st);
    FilterSnoc(IsOperator, st.stack, "(");
  }

  lemma OperatorsStep(p: string, st: Scan, c: char)
    requires OperatorsInvariant(p, st) && ShapeInvariant(st)
    ensures Step(st, c).Ok? ==> OperatorsInvariant(p + [c], Step(st, c).value)
  {
    if IsOperandChar(c) {
      SnocOperators(p, c);
      assert !IsOperator([c]);
    } else if c == ')' {
      var (popped, rest) := PopUntilOpen(st.stack);
      PopUntilOpenPops(st.stack);
      StepCloseIs(st, popped, rest);
      if rest != [] {
        OperatorsClose(p, st, popped, rest);
      }
    } else if IsOperator([c]) {
      var (popped, rest) := PopWhileAtLeast(st.stack, Precedence([c]));
      PopWhileAtLeastPops(st.stack, Precedence([c]));
      StepOperatorIs(st, c, popped, rest);
      OperatorsOperator(p, st, c, popped, rest);
    } else {
      OperatorsOther(p, st, c);
    }
  }

  lemma {:induction false} StepsOperators(s: string)
    ensures Steps(s).Ok? ==> OperatorsInvariant(s, Steps(s).value)
  {
    if s != [] {
      var p, c := s[..|s| - 1], s[|s| - 1];
      assert s == p + [c];
      StepsOperators(p);
      StepsShape(p);
      StepsSnoc(p, c);
      if Steps(p).Ok? {
        OperatorsStep(p, Steps(p).value, c);
      }
    } else {
      assert Filter(IsOperator, []) == [];
    }
  }

  // ---------------------------------------------------------------------------------------------
  // The conversion as a whole.

  /** The postfix tokens of a scan whose state has the expected shape are operand runs, operators
      and left-over opening parentheses. */
  lemma FinalShape(st: Scan)
    requires ShapeInvariant(st)
    ensures var toks := Flush(st.out, st.operand) + Reverse(st.stack);
      forall k :: 0 <= k < |toks| ==> IsOperandToken(toks[k]) || IsOperator(toks[k]) || toks[k] == "("
  {
    FlushShape(st);
  }

  /** The conversion fails exactly when the input closes a parenthesis it never opened. */
  lemma PostfixFails(e: string)
    ensures PostfixTokens(e).Failure? <==> !ClosesMatched(e)
    ensures Postfix(e).Failure? <==> !ClosesMatched(e)
    ensures Postfix(e).Failure? <==> exists k :: 0 <= k <= |e| && Depth(e[..k]) < 0
  {
    StepsDepth(e);
    ClosesMatchedPrefixes(e);
  }

  /** Every postfix token is an operand (a run of letters and digits), an operator, or an opening
      parenthesis that was never closed. */
  lemma PostfixTokenKinds(e: string)
    ensures PostfixTokens(e).Ok? ==> var toks := PostfixTokens(e).value;
      forall k :: 0 <= k < |toks| ==> IsOperandToken(toks[k]) || IsOperator(toks[k]) || toks[k] == "("
  {
    StepsShape(e);
    if Steps(e).Ok? {
      FinalShape(Steps(e).value);
    }
  }

  /** The operand tokens of the postfix are the maximal letter-and-digit runs of the input, in the
      order the input has them. */
  lemma PostfixOperands(e: string)
    ensures PostfixTokens(e).Ok? ==> Filter(IsOperandToken, PostfixTokens(e).value) == OperandRuns(e)
  {
    StepsRuns(e);
    StepsShape(e);
    if Steps(e).Ok? {
      var st := Steps(e).value;
      forall k | 0 <= k < |Reverse(st.stack)| ensures !IsOperandToken(Reverse(st.stack)[k]) {
        KindsDisjoint(Reverse(st.stack)[k]);
      }
      FilterNone(IsOperandToken, Reverse(st.stack));
      FilterAppend(IsOperandToken, Flush(st.out, st.operand), Reverse(st.stack));
    }
  }

  /** The operators of the postfix are the operator symbols of the input, each once. */
  lemma PostfixOperators(e: string)
    ensures PostfixTokens(e).Ok? ==> multiset(Filter(IsOperator, PostfixTokens(e).value)) == OperatorSymbols(e)
  {
    StepsOperators(e);
    StepsShape(e);
    if Steps(e).Ok? {
      var st := Steps(e).value;
      OperatorsFlush(st);
      FilterAppend(IsOperator, Flush(st.out, st.operand), Reverse(st.stack));
      FilterReverse(IsOperator, st.stack);
    }
  }

  /** Every parenthesis the input leaves open reaches the postfix as a `(` token; nothing else
      does. */
  lemma PostfixOpens(e: string)
    ensures PostfixTokens(e).Ok? ==> multiset(PostfixTokens(e).value)["("] == Depth(e)
  {
    StepsDepth(e);
    StepsShape(e);
    if Steps(e).Ok? {
      var st := Steps(e).value;
      var out := Flush(st.out, st.operand);
      FlushShape(st);
      forall k | 0 <= k < |out| ensures out[k] != "(" {
        KindsDisjoint(out[k]);
      }
      assert "(" !in out;
      MultisetReverse(st.stack);
      assert multiset(out + Reverse(st.stack)) == multiset(out) + multiset(st.stack);
    }
  }

  lemma SolidTokens(toks: seq<string>)
    requires forall k :: 0 <= k < |toks| ==> IsOperandToken(toks[k]) || IsOperator(toks[k]) || toks[k] == "("
    ensures forall k :: 0 <= k < |toks| ==> IsSolid(toks[k])
  {
  }

  /** The postfix string is its tokens separated by single spaces, with no space before the first
      or after the last; `trim` removes exactly the trailing space the loop leaves. */
  lemma PostfixIsJoin(e: string)
    ensures PostfixTokens(e).Ok? ==> Postfix(e) == Ok(Join(PostfixTokens(e).value))
  {
    PostfixTokenKinds(e);
    if PostfixTokens(e).Ok? {
      var toks := PostfixTokens(e).value;
      SolidTokens(toks);
      TrimEmit(toks);
    }
  }

  /** Splitting the postfix on spaces gives back exactly its tokens, except when there are none:
      then the postfix is empty and splits into one empty token. */
  lemma PostfixSplits(e: string)
    ensures PostfixTokens(e).Ok? ==> var toks := PostfixTokens(e).value;
      Split(Postfix(e).value) == if toks == [] then [""] else toks
  {
    PostfixIsJoin(e);
    PostfixTokenKinds(e);
    if PostfixTokens(e).Ok? {
      var toks := PostfixTokens(e).value;
      SolidTokens(toks);
      if toks != [] {
        SplitJoin(toks);
      }
    }
  }

  // ---------------------------------------------------------------------------------------------
  // Precedence and associativity on small expressions.

  /** A run of operand characters only extends the pending operand. */
  lemma {:induction false} StepsOperandRun(p: string, x: string)
    requires Steps(p).Ok?
    requires forall k :: 0 <= k < |x| ==> IsOperandChar(x[k])
    ensures Steps(p + x) == Ok(Scan(Steps(p).value.out, Steps(p).value.stack, Steps(p).value.operand + x))
  {
    if x == [] {
      assert p + x == p;
      assert Steps(p).value.operand + x == Steps(p).value.operand;
    } else {
      var init, c := x[..|x| - 1], x[|x| - 1];
      assert p + x == (p + init) + [c];
      StepsOperandRun(p, init);
      StepsSnoc(p + init, c);
      assert Steps(p).value.operand + init + [c] == Steps(p).value.operand + x;
    }
  }

  /** An operator read with no operand pending and nothing on the stack that it pops. */
  lemma StepsOperatorOnto(p: string, c: char, out: seq<string>, stack: seq<string>, operand: string)
    requires Steps(p) == Ok(Scan(out, stack, operand)) && IsOperator([c]) && |operand| > 0
    requires stack == [] || Precedence(stack[|stack| - 1]) < Precedence([c])
    ensures Steps(p + [c]) == Ok(Scan(out + [operand], stack + [[c]], ""))
  {
    StepsSnoc(p, c);
    assert PopWhileAtLeast(stack, Precedence([c])) == ([], stack);
    StepOperatorIs(Scan(out, stack, operand), c, [], stack);
    assert Flush(out, operand) + [] == out + [operand];
  }

  lemma PopSingle(t: string, p: int)
    ensures PopWhileAtLeast([t], p) == if Precedence(t) >= p then ([t], []) else ([], [t])
  {
    var stack := [t];
    assert stack[|stack| - 1] == t && stack[..|stack| - 1] == [];
    assert PopWhileAtLeast([], p) == ([], []);
    assert [t] + [] == [t];
  }

  /** `x a y`: the first operand is out, the operator stacked, the second operand pending. */
  lemma OneOperator(x: string, a: char, y: string)
    requires IsOperandToken(x) && IsOperandToken(y) && IsOperator([a])
    ensures Steps(x + [a] + y) == Ok(Scan([x], [[a]], y))
  {
    FirstOperand(x);
    StepsOperatorOnto(x, a, [], [], x);
    assert [] + [x] == [x] && [] + [[a]] == [[a]];
    OperandAfter(x + [a], [x], [[a]], y);
  }

  lemma FirstOperand(x: string)
    requires IsOperandToken(x)
    ensures Steps(x) == Ok(Scan([], [], x))
  {
    assert Steps([]) == Ok(Scan([], [], ""));
    StepsOperandRun([], x);
    assert [] + x == x && "" + x == x;
  }

  lemma OperandAfter(p: string, out: seq<string>, stack: seq<string>, y: string)
    requires Steps(p) == Ok(Scan(out, stack, "")) && IsOperandToken(y)
    ensures Steps(p + y) == Ok(Scan(out, stack, y))
  {
    StepsOperandRun(p, y);
    assert "" + y == y;
  }

  /** The second operator and operand of `x a y b z`, read in the state `x a y` leaves. */
  lemma SecondOperator(p: string, x: string, a: char, y: string, b: char, z: string)
    requires IsOperandToken(x) && IsOperandToken(y) && IsOperandToken(z)
    requires IsOperator([a]) && IsOperator([b])
    requires Steps(p) == Ok(Scan([x], [[a]], y))
    ensures Steps(p + [b] + z)
         == Ok(if Precedence([a]) >= Precedence([b]) then Scan([x, y, [a]], [[b]], z) else Scan([x, y], [[a], [b]], z))
  {
    var st := Scan([x], [[a]], y);
    var q := p + [b];
    StepsSnoc(p, b);
    assert Flush([x], y) == [x, y];
    PopSingle([a], Precedence([b]));
    assert Steps(q) == Step(st, b);
    if Precedence([a]) >= Precedence([b]) {
      assert PopWhileAtLeast(st.stack, Precedence([b])) == ([[a]], []);
      StepOperatorIs(st, b, [[a]], []);
      assert Step(st, b) == Ok(Scan(Flush(st.out, st.operand) + [[a]], [] + [[b]], ""));
      assert Flush(st.out, st.operand) + [[a]] == [x, y, [a]];
      assert [] + [[b]] == [[b]];
    } else {
      assert PopWhileAtLeast(st.stack, Precedence([b])) == ([], [[a]]);
      StepOperatorIs(st, b, [], [[a]]);
      assert Step(st, b) == Ok(Scan(Flush(st.out, st.operand) + [], [[a]] + [[b]], ""));
      assert Flush(st.out, st.operand) + [] == [x, y];
      assert [[a]] + [[b]] == [[a], [b]];
    }
    OperandAfter(q, Steps(q).value.out, Steps(q).value.stack, z);
  }

  lemma TokensAt(e: string, out: seq<string>, stack: seq<string>, operand: string)
    requires Steps(e) == Ok(Scan(out, stack, operand)) && |operand| > 0
    ensures PostfixTokens(e) == Ok(out + [operand] + Reverse(stack))
  {
  }

  /** `x a y b z`, with `x`, `y`, `z` runs of letters and digits and `a`, `b` operators: when `a`
      binds at least as tightly as `b` it is applied first, `x y a z b`, which for two operators of
      the same precedence is left to right; otherwise `b` is, `x y z b a`. */
  lemma TwoOperators(x: string, a: char, y: string, b: char, z: string)
    requires IsOperandToken(x) && IsOperandToken(y) && IsOperandToken(z)
    requires IsOperator([a]) && IsOperator([b])
    ensures PostfixTokens(x + [a] + y + [b] + z)
         == Ok(if Precedence([a]) >= Precedence([b]) then [x, y, [a], z, [b]] else [x, y, z, [b], [a]])
  {
    var p := x + [a] + y;
    OneOperator(x, a, y);
    SecondOperator(p, x, a, y, b, z);
    if Precedence([a]) >= Precedence([b]) {
      TokensFirst(p + [b] + z, x, y, [a], z, [b]);
    } else {
      TokensSecond(p + [b] + z, x, y, [a], z, [b]);
    }
  }

  lemma TokensFirst(e: string, x: string, y: string, u: string, z: string, v: string)
    requires Steps(e) == Ok(Scan([x, y, u], [v], z)) && |z| > 0
    ensures PostfixTokens(e) == Ok([x, y, u, z, v])
  {
    TokensAt(e, [x, y, u], [v], z);
    ReverseOne(v);
    assert [x, y, u] + [z] + [v] == [x, y, u, z, v];
  }

  lemma TokensSecond(e: string, x: string, y: string, u: string, z: string, v: string)
    requires Steps(e) == Ok(Scan([x, y], [u, v], z)) && |z| > 0
    ensures PostfixTokens(e) == Ok([x, y, z, v, u])
  {
    TokensAt(e, [x, y], [u, v], z);
    ReverseTwo(u, v);
    assert [x, y] + [z] + [v, u] == [x, y, z, v, u];
  }

  /** `(x a y`: the first operand is out, the operator stacked above the `(`, the second operand
      pending. */
  lemma OpenOperator(x: string, a: char, y: string)
    requires IsOperandToken(x) && IsOperandToken(y) && IsOperator([a])
    ensures Steps("(" + x + [a] + y) == Ok(Scan([x], ["(", [a]], y))
  {
    StepsSnoc([], '(');
    assert [] + ['('] == "(";
    assert !IsOperandChar('(') && Flush([], "") == [] && [] + ["("] == ["("];
    assert Steps("(") == Ok(Scan([], ["("], ""));
    OperandAfter("(", [], ["("], x);
    StepsOperatorOnto("(" + x, a, [], ["("], x);
    assert [] + [x] == [x] && ["("] + [[a]] == ["(", [a]];
    OperandAfter("(" + x + [a], [x], ["(", [a]], y);
  }

  /** `)` then `b z` in the state `(x a y` leaves: the parenthesis sends `a` out before `b` is
      read. */
  lemma CloseOperator(p: string, x: string, a: char, y: string, b: char, z: string)
    requires IsOperandToken(y) && IsOperandToken(z) && IsOperator([a]) && IsOperator([b])
    requires Steps(p) == Ok(Scan([x], ["(", [a]], y))
    ensures Steps(p + [')'] + [b] + z) == Ok(Scan([x, y, [a]], [[b]], z))
  {
    var st := Scan([x], ["(", [a]], y);
    var stack := ["(", [a]];
    OperatorChar(a);
    assert [a][0] == a;
    assert stack[..1] == ["("] && stack[1] == [a] != "(" && ["("][..0] == [];
    assert PopUntilOpen(["("]) == ([], ["("]);
    assert stack[..|stack| - 1] == ["("] && stack[|stack| - 1] == [a];
    assert [[a]] + [] == [[a]];
    assert PopUntilOpen(stack) == ([[a]], ["("]);
    StepsSnoc(p, ')');
    StepCloseIs(st, [[a]], ["("]);
    assert Flush([x], y) + [[a]] == [x, y, [a]];
    var q := p + [')'];
    assert Steps(q) == Ok(Scan([x, y, [a]], [], ""));
    StepsSnoc(q, b);
    assert PopWhileAtLeast([], Precedence([b])) == ([], []);
    StepOperatorIs(Scan([x, y, [a]], [], ""), b, [], []);
    assert Flush([x, y, [a]], "") + [] == [x, y, [a]] && [] + [[b]] == [[b]];
    OperandAfter(q + [b], [x, y, [a]], [[b]], z);
  }

  /** `(x a y) b z`: the parenthesised operator is applied first, whatever the two precedences. */
  lemma ParenthesesFirst(x: string, a: char, y: string, b: char, z: string)
    requires IsOperandToken(x) && IsOperandToken(y) && IsOperandToken(z)
    requires IsOperator([a]) && IsOperator([b])
    ensures PostfixTokens("(" + x + [a] + y + ")" + [b] + z) == Ok([x, y, [a], z, [b]])
  {
    var p := "(" + x + [a] + y;
    OpenOperator(x, a, y);
    CloseOperator(p, x, a, y, b, z);
    assert p + [')'] + [b] + z == "(" + x + [a] + y + ")" + [b] + z;
    TokensAt(p + [')'] + [b] + z, [x, y, [a]], [[b]], z);
    ReverseOne([b]);
    assert [x, y, [a]] + [z] + [[b]] == [x, y, [a], z, [b]];
  }
}
