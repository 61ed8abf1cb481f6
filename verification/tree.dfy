/**
 * The expression tree: operand leaves (number or variable) and operator
 * nodes that own exactly two children. Every node carries its payload text;
 * for an operator node that text is its one operator character.
 */
module Tree {
  import opened Tokens
  import opened Decimal

  datatype Node =
    | Num(s: string)                    // NumberOperand
    | Var(s: string)                    // VariableOperand
    | Op(op: char, l: Node, r: Node)    // Operator

  /** The node's payload text, `TreeNode::Data()`. */
  function Data(n: Node): string
  {
    match n
    case Num(s) => s
    case Var(s) => s
    case Op(c, _, _) => [c]
  }

  predicate IsLeaf(n: Node) {
    !n.Op?
  }

  /** The shape the parser builds: number leaves hold digit runs, variable
      leaves hold identifiers, operator nodes hold `+`, `-` or `*`. */
  predicate WellFormed(n: Node) {
    match n
    case Num(s) => IsNumber(s)
    case Var(s) => IsVariable(s)
    case Op(c, l, r) => IsOperatorChar(c) && WellFormed(l) && WellFormed(r)
  }

  /** The postfix token sequence of a tree: left operand, right operand, operator. */
  function Postfix(n: Node): seq<string>
  {
    match n
    case Num(s) => [s]
    case Var(s) => [s]
    case Op(c, l, r) => Postfix(l) + Postfix(r) + [[c]]
  }

  /** The integer operation an operator character stands for; the C++
      leaves `val` at 0 for any other character. */
  function Apply(c: char, a: int, b: int): int
  {
    if c == '+' then a + b
    else if c == '*' then a * b
    else if c == '-' then a - b
    else 0
  }

  /** The assignment that gives every variable the value 0. */
  function AllZero(v: string): int { 0 }

  /** The value of a well-formed tree, variables read from `env`. */
  function Eval(n: Node, env: string -> int): int
    requires WellFormed(n)
  {
    match n
    case Num(s) => Stoi(s)
    case Var(s) => env(s)
    case Op(c, l, r) => Apply(c, Eval(l, env), Eval(r, env))
  }

  /** Every token of a well-formed tree's postfix form is one the parser accepts. */
  lemma {:induction false} PostfixTokensValid(n: Node)
    requires WellFormed(n)
    ensures forall i :: 0 <= i < |Postfix(n)| ==> IsValidToken(Postfix(n)[i])
  {
    match n
    case Num(_) =>
    case Var(_) =>
    case Op(c, l, r) =>
      PostfixTokensValid(l);
      PostfixTokensValid(r);
      var p := Postfix(n);
      forall i | 0 <= i < |p|
        ensures IsValidToken(p[i])
      {
        if i < |Postfix(l)| {
          assert p[i] == Postfix(l)[i];
        } else if i < |Postfix(l)| + |Postfix(r)| {
          assert p[i] == Postfix(r)[i - |Postfix(l)|];
        } else {
          assert p[i] == [c];
        }
      }
  }
}
