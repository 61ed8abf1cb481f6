/**
 * Concrete behaviours of the parser, the renderer and the simplifier, and
 * the rewrite rules on arbitrary variable names.
 */
module Scenarios {
  import opened Wrappers
  import opened Tokens
  import opened Decimal
  import opened Tree
  import opened Lexer
  import opened Builder
  import opened Render
  import opened Simplifier

  /** The three ways building fails, and one success. */
  lemma BuildOutcomes()
    ensures Build(["3", "4", "+"]) == Success(Op('+', Num("3"), Num("4")))
    ensures Build(["3", "+"]) == Failure(InsufficientOperands)
    ensures Build(["3", "4", "?"]) == Failure(InvalidToken)
    ensures Build(["3", "4"]) == Failure(MalformedExpression)
    ensures Build([]) == Failure(MalformedExpression)
  {
    assert IsNumber("3") && IsNumber("4") && IsOperator("+");
    assert !IsValidToken("?");
  }

  function AddOfProductTree(): Node {
    Op('+', Num("5"), Op('*', Num("2"), Num("3")))
  }

  /** `5 2 3 * +`: the multiplication is the right operand of the addition. */
  lemma AddOfProductBuilds()
    ensures Build(["5", "2", "3", "*", "+"]) == Success(AddOfProductTree())
  {
    var t := AddOfProductTree();
    BuildPostfix(t);
    assert Postfix(t) == ["5", "2", "3", "*", "+"];
  }

  lemma AddOfProductText()
    ensures Unwords(["5", "2", "3", "*", "+"]) == "5 2 3 * +"
  {
    var p := ["5", "2", "3", "*", "+"];
    assert Unwords(p[4..]) == "+";
    assert Unwords(p[3..]) == "* +" by { assert p[3..][1..] == p[4..]; }
    assert Unwords(p[2..]) == "3 * +" by { assert p[2..][1..] == p[3..]; }
    assert Unwords(p[1..]) == "2 3 * +" by { assert p[1..][1..] == p[2..]; }
  }

  /** The same tree from postfix text. */
  lemma AddOfProductFromText()
    ensures BuildExpressionTree("5 2 3 * +") == Success(AddOfProductTree())
  {
    var t := AddOfProductTree();
    BuildExpressionTreeRoundTrip(t);
    assert Postfix(t) == ["5", "2", "3", "*", "+"];
    AddOfProductText();
  }

  /** It renders as `5+(2*3)`, the inner operator parenthesised. */
  lemma AddOfProductRenders()
    ensures ToString(AddOfProductTree(), false) == "5+(2*3)"
    ensures ToString(AddOfProductTree(), true) == "(5+(2*3))"
  {
  }

  /** It folds to `11`. */
  lemma AddOfProductFolds()
    ensures Simplify(AddOfProductTree()) == Some(Num("11"))
  {
    var t := AddOfProductTree();
    assert Stoi("5") == 5 && Stoi("2") == 2 && Stoi("3") == 3;
    ConstantFolding(t);
    assert Value(t) == 11;
    assert NatToString(11) == "11";
  }

  /** Subtraction keeps its operand order: the first token is the left operand. */
  lemma SubtractionOrder()
    ensures Build(["7", "x", "-"]) == Success(Op('-', Num("7"), Var("x")))
    ensures Simplify(Op('-', Num("7"), Var("x"))) == Some(Var("(7-x)"))
  {
    assert IsNumber("7") && IsVariable("x") && IsOperator("-");
    assert !IsNumber("x");
    assert "7" != "0" && "x" != "0" && "7" != "x" by {
      assert "7"[0] != "0"[0] && "x"[0] != "0"[0] && "7"[0] != "x"[0];
    }
    assert Rewrite('-', "7", "x") == "(7-x)";
  }

  /** The identity rules, for any variable names `x` and `y`. */
  lemma IdentityRules(x: string, y: string)
    requires IsVariable(x) && IsVariable(y) && x != y
    ensures Simplify(Op('+', Var(x), Num("0"))) == Some(Var(x))
    ensures Simplify(Op('+', Num("0"), Var(x))) == Some(Var(x))
    ensures Simplify(Op('*', Num("0"), Var(x))) == Some(Var("0"))
    ensures Simplify(Op('*', Var(x), Num("1"))) == Some(Var(x))
    ensures Simplify(Op('*', Num("1"), Var(x))) == Some(Var(x))
    ensures Simplify(Op('-', Var(x), Var(x))) == Some(Var("0"))
    ensures Simplify(Op('-', Num("0"), Var(x))) == Some(Var("(-" + x + ")"))
    ensures Simplify(Op('-', Var(x), Num("0"))) == Some(Var(x))
    ensures Simplify(Op('*', Var(x), Num("0"))) == Some(Var("0"))
    ensures Simplify(Op('*', Var(x), Var(y))) == Some(Var("(" + x + "*" + y + ")"))
    ensures Simplify(Op('-', Var(x), Var(y))) == Some(Var("(" + x + "-" + y + ")"))
    ensures Simplify(Op('+', Var(x), Var(y))) == Some(Var("(" + x + "+" + y + ")"))
  {
    assert !IsNumber(x) && !IsNumber(y);
  }

  /** Rules are chosen by text, not by tag: `x x -` yields a variable-tagged
      `0`, which is then folded with a number as if it were one. */
  lemma FoldingReadsText(x: string)
    requires IsVariable(x)
    ensures Simplify(Op('-', Var(x), Var(x))) == Some(Var("0"))
    ensures Simplify(Op('+', Op('-', Var(x), Var(x)), Num("3"))) == Some(Num("3"))
  {
    assert !IsNumber(x);
    assert Stoi("0") == 0 && Stoi("3") == 3;
    assert NatToString(3) == "3";
  }

  /** A negative intermediate value combined with a number has no defined
      result; combined with a variable it is carried along as text. */
  lemma NegativeIntermediate()
    ensures Simplify(Op('-', Num("1"), Num("2"))) == Some(Num("-1"))
    ensures Simplify(Op('+', Op('-', Num("1"), Num("2")), Num("3"))) == None
    ensures Simplify(Op('+', Op('-', Num("1"), Num("2")), Var("x"))) == Some(Var("(-1+x)"))
  {
    assert Stoi("1") == 1 && Stoi("2") == 2;
    assert IntToString(-1) == "-1";
    assert !IsNumber("-1") && !IsNumber("x");
    assert "-1" != "0" && "x" != "0" by {
      assert |"-1"| != |"0"| && "x"[0] != "0"[0];
    }
    assert Rewrite('+', "-1", "x") == "(-1+x)";
  }

  /** `x 1 2 + +`: the numeric right operand folds to `3`, which is then
      combined symbolically with `x`. */
  lemma VariablePlusFoldedSum()
    ensures Simplify(Op('+', Var("x"), Op('+', Num("1"), Num("2")))) == Some(Var("(x+3)"))
  {
    assert Stoi("1") == 1 && Stoi("2") == 2;
    assert NatToString(3) == "3";
    assert !IsNumber("x");
    assert "x" != "0" && "3" != "0" by {
      assert "x"[0] != "0"[0] && "3"[0] != "0"[0];
    }
    assert Rewrite('+', "x", "3") == "(x+3)";
  }

  /** A leaf has nothing to simplify: there is no defined result for it. */
  lemma LeafRoot(s: string)
    ensures Simplify(Num(s)) == None && Simplify(Var(s)) == None
  {
  }
}
