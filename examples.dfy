/** Worked expressions: each is an instance of the general lemmas, taken through the conversion,
    the building and the traversals. Each expression is a parameter fixed by a `requires`. */
module Examples {
  import opened Outcomes
  import opened Seqs
  import opened Text
  import opened Operators
  import opened Conversion
  import opened PostfixLemmas
  import opened Trees
  import opened Builder
  import opened Pipeline

  function Leaf(v: string): Tree
  {
    Node(v, Nil, Nil)
  }

  /** Carries an expression's tokens through both stages. */
  lemma Through(e: string, toks: seq<string>, postfix: string, t: Tree)
    requires PostfixTokens(e) == Ok(toks) && toks != []
    requires Join(toks) == postfix && Build(toks) == Ok(t)
    ensures Postfix(e) == Ok(postfix) && Generate(e) == Ok(t)
  {
    PostfixIsJoin(e);
    GenerateTokens(e);
  }

  /** The same, for tokens that are the postorder of a tree building can make. */
  lemma ThroughPostOrder(e: string, toks: seq<string>, postfix: string, t: Tree)
    requires PostfixTokens(e) == Ok(toks) && toks != []
    requires Join(toks) == postfix && WellFormed(t) && PostSeq(t) == toks
    ensures Postfix(e) == Ok(postfix) && Generate(e) == Ok(t)
  {
    BuildPostSeq(t);
    Through(e, toks, postfix, t);
  }

  /** Two operands build two leaves, the second on top. */
  lemma TwoLeaves(toks: seq<string>, u: string, v: string)
    requires toks == [u, v] && !IsOperator(u) && !IsOperator(v)
    ensures Run([], toks) == Ok([Leaf(u), Leaf(v)]) && Build(toks) == Ok(Leaf(v))
  {
    assert [u] == [] + [u] && toks == [u] + [v];
    RunSnoc([], [], u);
    assert [] + [Node(u, Nil, Nil)] == [Leaf(u)];
    assert Run([], [u]) == Ok([Leaf(u)]);
    RunSnoc([], [u], v);
    assert [Leaf(u)] + [Node(v, Nil, Nil)] == [Leaf(u), Leaf(v)];
  }

  /** The state after reading `(` alone. */
  lemma OpenFirst(p: string)
    requires p == "("
    ensures Steps(p) == Ok(Scan([], ["("], ""))
  {
    StepsSnoc([], '(');
    assert [] + ['('] == p;
    assert !IsOperandChar('(') && Flush([], "") == [] && [] + ["("] == ["("];
  }

  // ---------------------------------------------------------------------------------------------
  // `3+4*2`: `*` binds tighter than `+`.

  lemma TimesFirstTokens(e: string)
    requires e == "3+4*2"
    ensures PostfixTokens(e) == Ok(["3", "4", "2", "*", "+"])
  {
    assert "3" + ['+'] + "4" + ['*'] + "2" == e;
    assert IsOperandToken("3") && IsOperandToken("4") && IsOperandToken("2");
    TwoOperators("3", '+', "4", '*', "2");
  }

  lemma TimesFirstJoin()
    ensures Join(["3", "4", "2", "*", "+"]) == "3 4 2 * +"
  {
  }

  lemma TimesFirstTree(t: Tree)
    requires t == Node("+", Leaf("3"), Node("*", Leaf("4"), Leaf("2")))
    ensures WellFormed(t) && PostSeq(t) == ["3", "4", "2", "*", "+"]
  {
  }

  lemma TimesFirstStages(e: string, t: Tree)
    requires PostfixTokens(e) == Ok(["3", "4", "2", "*", "+"]) && t == Node("+", Leaf("3"), Node("*", Leaf("4"), Leaf("2")))
    ensures Postfix(e) == Ok("3 4 2 * +") && Generate(e) == Ok(t)
  {
    TimesFirstJoin();
    TimesFirstTree(t);
    ThroughPostOrder(e, ["3", "4", "2", "*", "+"], "3 4 2 * +", t);
  }

  lemma TimesFirst(e: string, t: Tree)
    requires e == "3+4*2" && t == Node("+", Leaf("3"), Node("*", Leaf("4"), Leaf("2")))
    ensures Postfix(e) == Ok("3 4 2 * +") && Generate(e) == Ok(t)
  {
    TimesFirstTokens(e);
    TimesFirstStages(e, t);
  }

  /** The three traversals of the tree for `3+4*2`. */
  lemma TimesFirstTraversals(t: Tree)
    requires t == Node("+", Leaf("3"), Node("*", Leaf("4"), Leaf("2")))
    ensures PreOrder(t) == "+ 3 * 4 2 " && InOrder(t) == "3 + 4 * 2 " && PostOrder(t) == "3 4 2 * + "
  {
    TimesFirstPreOrder(t);
    TimesFirstInOrder(t);
    TimesFirstPostOrder(t);
  }

  lemma TimesFirstPreOrder(t: Tree)
    requires t == Node("+", Leaf("3"), Node("*", Leaf("4"), Leaf("2")))
    ensures PreOrder(t) == "+ 3 * 4 2 "
  {
    TraverseLeaf("3");
    TraverseLeaf("4");
    TraverseLeaf("2");
    assert PreOrder(t.right) == "* 4 2 ";
  }

  lemma TimesFirstInOrder(t: Tree)
    requires t == Node("+", Leaf("3"), Node("*", Leaf("4"), Leaf("2")))
    ensures InOrder(t) == "3 + 4 * 2 "
  {
    TraverseLeaf("3");
    TraverseLeaf("4");
    TraverseLeaf("2");
    assert InOrder(t.right) == "4 * 2 ";
  }

  lemma TimesFirstPostOrder(t: Tree)
    requires t == Node("+", Leaf("3"), Node("*", Leaf("4"), Leaf("2")))
    ensures PostOrder(t) == "3 4 2 * + "
  {
    TraverseLeaf("3");
    TraverseLeaf("4");
    TraverseLeaf("2");
    assert PostOrder(t.right) == "4 2 * ";
  }

  lemma TraverseLeaf(v: string)
    ensures PreOrder(Leaf(v)) == InOrder(Leaf(v)) == PostOrder(Leaf(v)) == v + " "
  {
  }

  lemma DrawLeaf(v: string, prefix: string, isLeft: bool)
    ensures PrintTree(Leaf(v), prefix, isLeft) == prefix + Branch(isLeft) + v + "\n"
  {
  }

  /** The drawing of the tree for `3+4*2`, as the window asks for it. */
  lemma TimesFirstDrawing(t: Tree)
    requires t == Node("+", Leaf("3"), Node("*", Leaf("4"), Leaf("2")))
    ensures PrintTree(t, "", true)
         == "\U{251C}\U{2500}\U{2500} +\n"
          + "\U{2502}   \U{251C}\U{2500}\U{2500} 3\n"
          + "\U{2502}   \U{2514}\U{2500}\U{2500} *\n"
          + "\U{2502}       \U{251C}\U{2500}\U{2500} 4\n"
          + "\U{2502}       \U{2514}\U{2500}\U{2500} 2\n"
  {
    var bar, deep := "\U{2502}   ", "\U{2502}       ";
    assert "" + Pipe(true) == bar && bar + Pipe(false) == deep;
    DrawLeaf("4", deep, true);
    DrawLeaf("2", deep, false);
    DrawLeaf("3", bar, true);
  }

  // ---------------------------------------------------------------------------------------------
  // `2^3^2`: equal precedence associates to the left, `^` included.

  lemma PowerLeftTokens(e: string)
    requires e == "2^3^2"
    ensures PostfixTokens(e) == Ok(["2", "3", "^", "2", "^"])
  {
    assert "2" + ['^'] + "3" + ['^'] + "2" == e;
    assert IsOperandToken("2") && IsOperandToken("3");
    TwoOperators("2", '^', "3", '^', "2");
  }

  lemma PowerLeftJoin()
    ensures Join(["2", "3", "^", "2", "^"]) == "2 3 ^ 2 ^"
  {
  }

  lemma PowerLeftTree(t: Tree)
    requires t == Node("^", Node("^", Leaf("2"), Leaf("3")), Leaf("2"))
    ensures WellFormed(t) && PostSeq(t) == ["2", "3", "^", "2", "^"]
  {
  }

  lemma PowerLeftStages(e: string, t: Tree)
    requires PostfixTokens(e) == Ok(["2", "3", "^", "2", "^"]) && t == Node("^", Node("^", Leaf("2"), Leaf("3")), Leaf("2"))
    ensures Postfix(e) == Ok("2 3 ^ 2 ^") && Generate(e) == Ok(t)
  {
    PowerLeftJoin();
    PowerLeftTree(t);
    ThroughPostOrder(e, ["2", "3", "^", "2", "^"], "2 3 ^ 2 ^", t);
  }

  lemma PowerLeft(e: string, t: Tree)
    requires e == "2^3^2" && t == Node("^", Node("^", Leaf("2"), Leaf("3")), Leaf("2"))
    ensures Postfix(e) == Ok("2 3 ^ 2 ^") && Generate(e) == Ok(t)
  {
    PowerLeftTokens(e);
    PowerLeftStages(e, t);
  }

  // ---------------------------------------------------------------------------------------------
  // `(1+2)*3`: parentheses override precedence.

  lemma GroupedTokens(e: string)
    requires e == "(1+2)*3"
    ensures PostfixTokens(e) == Ok(["1", "2", "+", "3", "*"])
  {
    assert "(" + "1" + ['+'] + "2" + ")" + ['*'] + "3" == e;
    assert IsOperandToken("1") && IsOperandToken("2") && IsOperandToken("3");
    ParenthesesFirst("1", '+', "2", '*', "3");
  }

  lemma GroupedJoin()
    ensures Join(["1", "2", "+", "3", "*"]) == "1 2 + 3 *"
  {
  }

  lemma GroupedTree(t: Tree)
    requires t == Node("*", Node("+", Leaf("1"), Leaf("2")), Leaf("3"))
    ensures WellFormed(t) && PostSeq(t) == ["1", "2", "+", "3", "*"]
  {
  }

  lemma GroupedStages(e: string, t: Tree)
    requires PostfixTokens(e) == Ok(["1", "2", "+", "3", "*"]) && t == Node("*", Node("+", Leaf("1"), Leaf("2")), Leaf("3"))
    ensures Postfix(e) == Ok("1 2 + 3 *") && Generate(e) == Ok(t)
  {
    GroupedJoin();
    GroupedTree(t);
    ThroughPostOrder(e, ["1", "2", "+", "3", "*"], "1 2 + 3 *", t);
  }

  lemma Grouped(e: string, t: Tree)
    requires e == "(1+2)*3" && t == Node("*", Node("+", Leaf("1"), Leaf("2")), Leaf("3"))
    ensures Postfix(e) == Ok("1 2 + 3 *") && Generate(e) == Ok(t)
  {
    GroupedTokens(e);
    GroupedStages(e, t);
  }

  // ---------------------------------------------------------------------------------------------
  // `12+ab`: runs of digits and letters are single operands.

  lemma LongOperandsTokens(e: string)
    requires e == "12+ab"
    ensures PostfixTokens(e) == Ok(["12", "ab", "+"])
  {
    assert "12" + ['+'] + "ab" == e;
    assert IsOperandToken("12") && IsOperandToken("ab");
    OneOperator("12", '+', "ab");
    TokensAt(e, ["12"], ["+"], "ab");
    ReverseOne("+");
    assert ["12"] + ["ab"] + ["+"] == ["12", "ab", "+"];
  }

  lemma LongOperandsJoin()
    ensures Join(["12", "ab", "+"]) == "12 ab +"
  {
  }

  lemma LongOperandsTree(t: Tree)
    requires t == Node("+", Leaf("12"), Leaf("ab"))
    ensures WellFormed(t) && PostSeq(t) == ["12", "ab", "+"]
  {
  }

  lemma LongOperandsStages(e: string, t: Tree)
    requires PostfixTokens(e) == Ok(["12", "ab", "+"]) && t == Node("+", Leaf("12"), Leaf("ab"))
    ensures Postfix(e) == Ok("12 ab +") && Generate(e) == Ok(t)
  {
    LongOperandsJoin();
    LongOperandsTree(t);
    ThroughPostOrder(e, ["12", "ab", "+"], "12 ab +", t);
  }

  lemma LongOperands(e: string, t: Tree)
    requires e == "12+ab" && t == Node("+", Leaf("12"), Leaf("ab"))
    ensures Postfix(e) == Ok("12 ab +") && Generate(e) == Ok(t)
  {
    LongOperandsTokens(e);
    LongOperandsStages(e, t);
  }

  // ---------------------------------------------------------------------------------------------
  // `a b`: a space ends an operand, and two nodes left over are no error: the top one is the tree.

  /** An operand followed by a character that is no operand character, parenthesis or operator. */
  lemma OperandThenOther(x: string, c: char)
    requires IsOperandToken(x) && !IsOperandChar(c) && c != '(' && c != ')' && !IsOperator([c])
    ensures Steps(x + [c]) == Ok(Scan([x], [], ""))
  {
    FirstOperand(x);
    StepsSnoc(x, c);
    assert Flush([], x) == [x];
  }

  lemma TokensNoStack(e: string, out: seq<string>, z: string)
    requires Steps(e) == Ok(Scan(out, [], z)) && |z| > 0
    ensures PostfixTokens(e) == Ok(out + [z])
  {
    TokensAt(e, out, [], z);
    assert Reverse<string>([]) == [];
    assert out + [z] + [] == out + [z];
  }

  lemma SpacedTokens(e: string)
    requires e == "a b"
    ensures PostfixTokens(e) == Ok(["a", "b"])
  {
    assert IsOperandToken("a") && IsOperandToken("b") && !IsOperandChar(' ') && !IsOperator([' ']);
    OperandThenOther("a", ' ');
    OperandAfter("a" + [' '], ["a"], [], "b");
    assert "a" + [' '] + "b" == e;
    TokensNoStack(e, ["a"], "b");
    assert ["a"] + ["b"] == ["a", "b"];
  }

  lemma SpacedJoin()
    ensures Join(["a", "b"]) == "a b"
  {
  }

  lemma SpacedStages(e: string)
    requires PostfixTokens(e) == Ok(["a", "b"])
    ensures Postfix(e) == Ok("a b") && Generate(e) == Ok(Leaf("b"))
  {
    SpacedJoin();
    assert !IsOperator("a") && !IsOperator("b");
    TwoLeaves(["a", "b"], "a", "b");
    Through(e, ["a", "b"], "a b", Leaf("b"));
  }

  lemma Spaced(e: string)
    requires e == "a b"
    ensures Postfix(e) == Ok("a b") && Generate(e) == Ok(Leaf("b"))
  {
    SpacedTokens(e);
    SpacedStages(e);
  }

  // ---------------------------------------------------------------------------------------------
  // Failures, the empty postfix and a parenthesis left open.

  lemma MissingOperandTokens(e: string)
    requires e == "+3"
    ensures PostfixTokens(e) == Ok(["3", "+"])
  {
    var st, p := Scan([], [], ""), "+";
    StepsSnoc([], '+');
    assert [] + ['+'] == p;
    assert IsOperator(['+']) && PopWhileAtLeast([], Precedence(p)) == ([], []);
    StepOperatorIs(st, '+', [], []);
    assert Flush([], "") + [] == [] && [] + [['+']] == [p];
    assert Steps(p) == Ok(Scan([], [p], ""));
    assert IsOperandToken("3");
    OperandAfter(p, [], [p], "3");
    assert p + "3" == e;
    TokensAt(e, [], [p], "3");
    ReverseOne(p);
    assert [] + ["3"] + [p] == ["3", "+"];
  }

  /** An operator right after the first operand finds one node only. */
  lemma OperatorAfterOne(u: string, v: string)
    requires !IsOperator(u) && IsOperator(v)
    ensures !Fits([u, v])
  {
    assert [u, v][..1] == [u];
    assert [u][..0] == [];
    assert Net([u]) == 1;
  }

  lemma MissingOperandJoin()
    ensures Join(["3", "+"]) == "3 +"
  {
  }

  lemma MissingOperandStages(e: string)
    requires PostfixTokens(e) == Ok(["3", "+"])
    ensures Postfix(e) == Ok("3 +") && Generate(e) == Failure
  {
    assert !IsOperator("3") && IsOperator("+");
    OperatorAfterOne("3", "+");
    GenerateArity(e);
    MissingOperandJoin();
    PostfixIsJoin(e);
  }

  /** `+3` converts to `3 +`, where `+` finds one operand only. */
  lemma MissingOperand(e: string)
    requires e == "+3"
    ensures Postfix(e) == Ok("3 +") && Generate(e) == Failure
  {
    MissingOperandTokens(e);
    MissingOperandStages(e);
  }

  /** `)` closes a parenthesis it never opened. */
  lemma UnopenedClose(e: string)
    requires e == ")"
    ensures Postfix(e) == Failure && Generate(e) == Failure
  {
    assert e[..0] == [];
    assert Depth(e) == -1;
    GenerateTokens(e);
    PostfixFails(e);
  }

  /** A `)` right after a `(` with no operand pending only discards the `(`. */
  lemma CloseOpenTop(p: string, out: seq<string>, stack: seq<string>)
    requires Steps(p) == Ok(Scan(out, stack + ["("], ""))
    ensures Steps(p + [')']) == Ok(Scan(out, stack, ""))
  {
    var s := stack + ["("];
    StepsSnoc(p, ')');
    assert s[|s| - 1] == "(";
    assert PopUntilOpen(s) == ([], s);
    StepCloseIs(Scan(out, s, ""), [], s);
    assert s[..|s| - 1] == stack;
    assert Flush(out, "") + [] == out;
  }

  lemma EmptyParenthesesTokens(e: string)
    requires e == "()"
    ensures PostfixTokens(e) == Ok([])
  {
    var p := "(";
    OpenFirst(p);
    assert [] + ["("] == ["("];
    CloseOpenTop(p, [], []);
    assert p + [')'] == e;
    assert Reverse<string>([]) == [] && Flush([], "") == [];
  }

  /** `()` has no tokens: the postfix is empty and the tree a single empty leaf. */
  lemma EmptyParentheses(e: string)
    requires e == "()"
    ensures Postfix(e) == Ok("") && Generate(e) == Ok(Leaf(""))
  {
    EmptyParenthesesTokens(e);
    PostfixIsJoin(e);
    GenerateEmpty(e);
  }

  lemma UnclosedOpenTokens(e: string)
    requires e == "(a"
    ensures PostfixTokens(e) == Ok(["a", "("])
  {
    var p := "(";
    OpenFirst(p);
    assert IsOperandToken("a");
    OperandAfter(p, [], [p], "a");
    assert p + "a" == e;
    TokensAt(e, [], [p], "a");
    ReverseOne(p);
    assert [] + ["a"] + [p] == ["a", "("];
  }

  lemma UnclosedOpenJoin()
    ensures Join(["a", "("]) == "a ("
  {
  }

  lemma UnclosedOpenStages(e: string)
    requires PostfixTokens(e) == Ok(["a", "("])
    ensures Postfix(e) == Ok("a (") && Generate(e) == Ok(Leaf("("))
  {
    UnclosedOpenJoin();
    assert !IsOperator("a") && !IsOperator("(");
    TwoLeaves(["a", "("], "a", "(");
    Through(e, ["a", "("], "a (", Leaf("("));
  }

  /** `(a` leaves its `(` open: it reaches the postfix, and the tree is the leaf built from it. */
  lemma UnclosedOpen(e: string)
    requires e == "(a"
    ensures Postfix(e) == Ok("a (") && Generate(e) == Ok(Leaf("("))
  {
    UnclosedOpenTokens(e);
    UnclosedOpenStages(e);
  }
}
