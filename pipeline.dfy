/** The two stages as the window chains them: `infixToPostfix` on the expression, then
    `constructTree` on the postfix string it returns. */
module Pipeline {
  import opened Outcomes
  import opened Text
  import opened Conversion
  import opened PostfixLemmas
  import opened Trees
  import opened Builder

  /** The tree for `expression`, or `Failure` where either stage throws. */
  function Generate(expression: string): Result<Tree>
  {
    match Postfix(expression)
    case Failure => Failure
    case Ok(postfix) => Build(Split(postfix))
  }

  /** Building reads back exactly the tokens the conversion emitted, except that an empty postfix
      is read as one empty token. */
  lemma GenerateTokens(e: string)
    ensures PostfixTokens(e).Failure? <==> !ClosesMatched(e)
    ensures PostfixTokens(e).Failure? ==> Generate(e) == Failure
    ensures PostfixTokens(e).Ok? ==> var toks := PostfixTokens(e).value;
      Generate(e) == Build(if toks == [] then [""] else toks)
  {
    PostfixFails(e);
    PostfixSplits(e);
  }

  /** An expression that reduces to a single tree gives a well-formed tree whose postorder
      traversal is the postfix string followed by one space. */
  lemma GeneratePostOrder(e: string)
    requires PostfixTokens(e).Ok?
    requires Fits(PostfixTokens(e).value) && Net(PostfixTokens(e).value) == 1
    ensures Generate(e).Ok? && WellFormed(Generate(e).value)
    ensures PostOrder(Generate(e).value) == Postfix(e).value + " "
  {
    var toks := PostfixTokens(e).value;
    assert toks != [];
    GenerateTokens(e);
    BuildPostOrder(toks);
    PostfixIsJoin(e);
    EmitIsJoin(toks);
  }

  /** With tokens, the tree exists exactly when every operator finds two operands and at least one
      node is left; the nodes below the top are dropped without an error. */
  lemma GenerateArity(e: string)
    requires PostfixTokens(e).Ok? && PostfixTokens(e).value != []
    ensures Generate(e).Ok? <==> Fits(PostfixTokens(e).value) && Net(PostfixTokens(e).value) > 0
  {
    GenerateTokens(e);
    BuildFits(PostfixTokens(e).value);
  }

  /** An expression with no tokens, such as `()`, converts to the empty string, which splits into
      one empty token: the tree is a single leaf holding the empty string. */
  lemma GenerateEmpty(e: string)
    requires PostfixTokens(e) == Ok([])
    ensures Generate(e) == Ok(Node("", Nil, Nil))
  {
    GenerateTokens(e);
    assert [""] == [] + [""];
    RunSnoc([], [], "");
  }
}
