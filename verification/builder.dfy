/**
 * Building an expression tree from postfix text with an explicit stack
 * (`ExpressionTree::BuildExpressionTree`). The stack is a sequence whose
 * last element is the top.
 */
module Builder {
  import opened Wrappers
  import opened Tokens
  import opened Lexer
  import opened Tree

  /** Why a postfix string does not describe a tree. */
  datatype BuildError =
    | InsufficientOperands   // an operator arrived with fewer than two items stacked
    | InvalidToken           // a token that is not a number, variable or operator
    | MalformedExpression    // the input ended with zero or several items stacked

  predicate AllWellFormed(stack: seq<Node>) {
    forall i :: 0 <= i < |stack| ==> WellFormed(stack[i])
  }

  /** One iteration of the token loop: push a leaf, or pop two items and push
      the operator node owning them, or fail. */
  function Step(stack: seq<Node>, tok: string): (r: Result<seq<Node>, BuildError>)
    ensures IsNumber(tok) ==> r == Success(stack + [Num(tok)])
    ensures IsVariable(tok) ==> r == Success(stack + [Var(tok)])
    ensures IsOperator(tok) && |stack| < 2 ==> r == Failure(InsufficientOperands)
    ensures IsOperator(tok) && |stack| >= 2 ==>
              r == Success(stack[..|stack| - 2] + [Op(tok[0], stack[|stack| - 2], stack[|stack| - 1])])
    ensures !IsValidToken(tok) ==> r == Failure(InvalidToken)
    ensures AllWellFormed(stack) && r.Success? ==> AllWellFormed(r.value)
  {
    ClassesDisjoint(tok);
    if IsNumber(tok) then
      Success(stack + [Num(tok)])
    else if IsVariable(tok) then
      Success(stack + [Var(tok)])
    else if IsOperator(tok) then
      if |stack| < 2 then
        Failure(InsufficientOperands)
      else
        // the first pop is the right operand, the second the left one
        var right := stack[|stack| - 1];
        var below := stack[..|stack| - 1];
        var left := below[|below| - 1];
        assert below[..|below| - 1] == stack[..|stack| - 2];
        Success(below[..|below| - 1] + [Op(tok[0], left, right)])
    else
      Failure(InvalidToken)
  }

  /** The token loop from a given stack, then the final one-item check. */
  function Run(stack: seq<Node>, toks: seq<string>): (r: Result<Node, BuildError>)
    requires AllWellFormed(stack)
    ensures r.Success? ==> WellFormed(r.value)
    ensures r == Failure(InvalidToken) ==>
              exists i :: 0 <= i < |toks| && !IsValidToken(toks[i])
    ensures r == Failure(InsufficientOperands) ==>
              exists i :: 0 <= i < |toks| && IsOperator(toks[i])
    ensures r == Failure(MalformedExpression) ==>
              forall i :: 0 <= i < |toks| ==> IsValidToken(toks[i])
    decreases |toks|
  {
    if |toks| == 0 then
      if |stack| != 1 then Failure(MalformedExpression) else Success(stack[0])
    else
      var next :- Step(stack, toks[0]);
      Run(next, toks[1..])
  }

  /** Parse a token sequence, starting from an empty stack. */
  function Build(toks: seq<string>): (r: Result<Node, BuildError>)
    ensures r.Success? ==> WellFormed(r.value)
  {
    Run([], toks)
  }

  /** Parse postfix text: tokenize on whitespace, then build. */
  function BuildExpressionTree(postfix: string): (r: Result<Node, BuildError>)
    ensures r.Success? ==> WellFormed(r.value)
  {
    Build(Tokenize(postfix))
  }

  /** The postfix tokens of all stacked trees, bottom first. */
  function Flat(stack: seq<Node>): seq<string>
  {
    if |stack| == 0 then [] else Flat(stack[..|stack| - 1]) + Postfix(stack[|stack| - 1])
  }

  /** Reading a well-formed tree's postfix tokens pushes exactly that tree. */
  lemma {:induction false} RunPostfix(stack: seq<Node>, t: Node, rest: seq<string>)
    requires AllWellFormed(stack)
    requires WellFormed(t)
    ensures Run(stack, Postfix(t) + rest) == Run(stack + [t], rest)
    decreases t
  {
    match t
    case Num(s) =>
      assert ([s] + rest)[1..] == rest;
    case Var(s) =>
      ClassesDisjoint(s);
      assert ([s] + rest)[1..] == rest;
    case Op(c, l, r) =>
      assert Postfix(t) + rest == Postfix(l) + (Postfix(r) + ([[c]] + rest));
      RunPostfix(stack, l, Postfix(r) + ([[c]] + rest));
      RunPostfix(stack + [l], r, [[c]] + rest);
      var st := stack + [l] + [r];
      assert IsOperator([c]);
      assert st[..|st| - 2] == stack;
      assert ([[c]] + rest)[1..] == rest;
    }

  /** A tree's own postfix form builds that tree. */
  lemma BuildPostfix(t: Node)
    requires WellFormed(t)
    ensures Build(Postfix(t)) == Success(t)
  {
    RunPostfix([], t, []);
    assert Postfix(t) + [] == Postfix(t);
  }

  lemma FlatPush(stack: seq<Node>, t: Node)
    ensures Flat(stack + [t]) == Flat(stack) + Postfix(t)
  {
    assert (stack + [t])[..|stack|] == stack;
  }

  /** A successful step appends its token to the stack's postfix spelling. */
  lemma FlatStep(stack: seq<Node>, tok: string)
    requires Step(stack, tok).Success?
    ensures Flat(Step(stack, tok).value) == Flat(stack) + [tok]
  {
    ClassesDisjoint(tok);
    if IsNumber(tok) {
      FlatPush(stack, Num(tok));
    } else if IsVariable(tok) {
      FlatPush(stack, Var(tok));
    } else {
      var n := |stack|;
      var base := stack[..n - 2];
      var node := Op(tok[0], stack[n - 2], stack[n - 1]);
      FlatPush(base, node);
      assert stack == base + [stack[n - 2]] + [stack[n - 1]];
      FlatPush(base, stack[n - 2]);
      FlatPush(base + [stack[n - 2]], stack[n - 1]);
      assert [tok] == [[tok[0]]];
    }
  }

  /** Whatever a run builds, the stacked trees and the remaining tokens spell
      its postfix form. */
  lemma {:induction false} RunBuildsPostfix(stack: seq<Node>, toks: seq<string>, t: Node)
    requires AllWellFormed(stack)
    requires Run(stack, toks) == Success(t)
    ensures Flat(stack) + toks == Postfix(t)
    decreases |toks|
  {
    if |toks| == 0 {
      assert stack == [] + [stack[0]];
      FlatPush([], stack[0]);
    } else {
      var step := Step(stack, toks[0]);
      assert step.Success?;
      var next := step.value;
      assert Run(next, toks[1..]) == Success(t);
      RunBuildsPostfix(next, toks[1..], t);
      FlatStep(stack, toks[0]);
      assert toks == [toks[0]] + toks[1..];
    }
  }

  /** Building succeeds with `t` exactly when the tokens are `t`'s postfix
      form and `t` has the shape the parser builds. */
  lemma BuildCharacterization(toks: seq<string>, t: Node)
    ensures Build(toks) == Success(t) <==> WellFormed(t) && toks == Postfix(t)
  {
    if Build(toks) == Success(t) {
      RunBuildsPostfix([], toks, t);
      assert [] + toks == toks;
    }
    if WellFormed(t) && toks == Postfix(t) {
      BuildPostfix(t);
    }
  }

  /** A token that is not a number, variable or operator makes building fail. */
  lemma BuildRejectsInvalidToken(toks: seq<string>, i: nat)
    requires i < |toks| && !IsValidToken(toks[i])
    ensures Build(toks).Failure?
  {
    if Build(toks).Success? {
      var t := Build(toks).value;
      BuildCharacterization(toks, t);
      PostfixTokensValid(t);
    }
  }

  /** Operands only push: a run of numbers and variables grows the stack by one
      item per token. */
  lemma {:induction false} RunOperands(stack: seq<Node>, toks: seq<string>)
    requires AllWellFormed(stack)
    requires forall i :: 0 <= i < |toks| ==> IsNumber(toks[i]) || IsVariable(toks[i])
    ensures exists st: seq<Node> :: |st| == |stack| + |toks| && AllWellFormed(st)
                                    && Run(stack, toks) == Run(st, [])
    decreases |toks|
  {
    if |toks| > 0 {
      var next := Step(stack, toks[0]).value;
      assert |next| == |stack| + 1;
      RunOperands(next, toks[1..]);
    } else {
      assert |stack| == |stack| + |toks|;
    }
  }

  /** Operands with no operator to join them, such as `3 4`, leave several
      items on the stack. */
  lemma LeftoverOperandsFail(toks: seq<string>)
    requires |toks| != 1
    requires forall i :: 0 <= i < |toks| ==> IsNumber(toks[i]) || IsVariable(toks[i])
    ensures Build(toks) == Failure(MalformedExpression)
  {
    RunOperands([], toks);
  }

  /** An operator as the first token finds an empty stack. */
  lemma LeadingOperatorFails(toks: seq<string>)
    requires |toks| > 0 && IsOperator(toks[0])
    ensures Build(toks) == Failure(InsufficientOperands)
  {
  }

  /** Blank input has no tokens, hence no tree. */
  lemma BlankInputFails(postfix: string)
    requires forall j :: 0 <= j < |postfix| ==> IsSpace(postfix[j])
    ensures BuildExpressionTree(postfix) == Failure(MalformedExpression)
  {
    BlankHasNoTokens(postfix);
  }

  /** Postfix text written with single spaces parses back to its tree. */
  lemma BuildExpressionTreeRoundTrip(t: Node)
    requires WellFormed(t)
    ensures BuildExpressionTree(Unwords(Postfix(t))) == Success(t)
  {
    var p := Postfix(t);
    PostfixTokensValid(t);
    forall i | 0 <= i < |p|
      ensures IsWord(p[i])
    {
      assert IsValidToken(p[i]);
      var w := p[i];
      forall j | 0 <= j < |w|
        ensures !IsSpace(w[j])
      {
        if IsOperator(w) {
          assert w[j] == w[0];
        }
      }
    }
    TokenizeUnwords(p);
    BuildPostfix(t);
  }
}
