/**
 * The meaning of the text the simplifier and the renderer write. Such text
 * is an atom (a digit run, an identifier, or a minus sign before digits as
 * `to_string` writes negative values), a negation `(-e)`, or a parenthesised
 * binary expression `(e op e)`. `Show` writes a term as that text; it is
 * injective, so every such text has exactly one reading.
 */
module Terms {
  import opened Tokens
  import opened Decimal
  import opened Tree

  datatype Term =
    | Atom(s: string)
    | Neg(a: Term)
    | Bin(op: char, a: Term, b: Term)

  function Show(t: Term): string
  {
    match t
    case Atom(s) => s
    case Neg(a) => "(-" + Show(a) + ")"
    case Bin(c, a, b) => "(" + Show(a) + [c] + Show(b) + ")"
  }

  /** Atom text: non-empty, alphanumeric after an optional leading minus sign. */
  predicate ValidAtom(s: string) {
    && |s| >= 1
    && (IsAlnum(s[0]) || (s[0] == '-' && |s| >= 2))
    && forall k :: 1 <= k < |s| ==> IsAlnum(s[k])
  }

  predicate ValidTerm(t: Term) {
    match t
    case Atom(s) => ValidAtom(s)
    case Neg(a) => ValidTerm(a)
    case Bin(c, a, b) => IsOperatorChar(c) && ValidTerm(a) && ValidTerm(b)
  }

  /** A numeric atom stands for its value; any other atom names a variable. */
  function AtomValue(s: string, env: string -> int): int
  {
    if IsSignedNumber(s) then SignedValue(s) else env(s)
  }

  function TermEval(t: Term, env: string -> int): int
  {
    match t
    case Atom(s) => AtomValue(s, env)
    case Neg(a) => -TermEval(a, env)
    case Bin(c, a, b) => Apply(c, TermEval(a, env), TermEval(b, env))
  }

  /** What may follow a complete term in the text: nothing, or a character
      that cannot continue an atom. */
  predicate Stops(x: string) {
    |x| == 0 || !IsAlnum(x[0])
  }

  lemma ShowStart(t: Term)
    requires ValidTerm(t)
    ensures |Show(t)| > 0
    ensures t.Atom? <==> Show(t)[0] != '('
  {
  }

  /** The first index at or after `i` that does not continue an atom. */
  function AtomEnd(w: string, i: nat): (j: nat)
    requires i <= |w|
    ensures i <= j <= |w|
    decreases |w| - i
  {
    if i == |w| || !IsAlnum(w[i]) then i else AtomEnd(w, i + 1)
  }

  lemma {:induction false} AtomEndOf(s: string, x: string, i: nat)
    requires ValidAtom(s) && Stops(x)
    requires 1 <= i <= |s|
    ensures AtomEnd(s + x, i) == |s|
    decreases |s| - i
  {
    var w := s + x;
    if i < |s| {
      assert w[i] == s[i];
      AtomEndOf(s, x, i + 1);
    } else if i < |w| {
      assert w[i] == x[0];
    }
  }

  /** Two atoms each followed by a stop character cannot overlap differently. */
  lemma AtomsAgree(s1: string, s2: string, x: string, y: string)
    requires ValidAtom(s1) && ValidAtom(s2)
    requires Stops(x) && Stops(y)
    requires s1 + x == s2 + y
    ensures s1 == s2 && x == y
  {
    AtomEndOf(s1, x, 1);
    AtomEndOf(s2, y, 1);
    var k := |s1|;
    assert s1 == (s1 + x)[..k] == (s2 + y)[..k] == s2;
    assert x == (s1 + x)[k..] == (s2 + y)[k..] == y;
  }

  lemma SameHead(u: string, v: string, w: string, z: string)
    requires |u| > 0 && |w| > 0 && u + v == w + z
    ensures u[0] == w[0]
  {
    assert (u + v)[0] == u[0];
    assert (w + z)[0] == w[0];
  }

  lemma NegText(a: Term, x: string)
    ensures Show(Neg(a)) + x == "(" + ("-" + (Show(a) + (")" + x)))
  {
  }

  /** A negation `(-e)` and a binary expression never share a reading. */
  lemma NegIsNotBin(a1: Term, c: char, b1: Term, b2: Term, x: string, y: string)
    requires ValidTerm(a1) && ValidTerm(Bin(c, b1, b2))
    ensures Show(Neg(a1)) + x != Show(Bin(c, b1, b2)) + y
  {
    if Show(Neg(a1)) + x == Show(Bin(c, b1, b2)) + y {
      var M := [c] + (Show(b2) + (")" + y));
      NegText(a1, x);
      BinText(c, b1, b2, y);
      ConsEqual('(', '(', "-" + (Show(a1) + (")" + x)), Show(b1) + M);
      ShowStart(b1);
      SameHead("-", Show(a1) + (")" + x), Show(b1), M);
      var d := b1.s[1..];
      assert ValidAtom(d);
      assert Show(b1) + M == "-" + (d + M);
      ConsEqual('-', '-', Show(a1) + (")" + x), d + M);
      ShowStart(a1);
      SameHead(Show(a1), ")" + x, d, M);
      AtomsAgree(a1.s, d, ")" + x, M);
      assert false;
    }
  }

  /** Unique readability: a term's text followed by a stop determines the
      term and the rest. */
  lemma {:induction false} ShowUnique(a: Term, b: Term, x: string, y: string)
    requires ValidTerm(a) && ValidTerm(b)
    requires Stops(x) && Stops(y)
    requires Show(a) + x == Show(b) + y
    ensures a == b && x == y
    decreases a, 1
  {
    ShowStart(a);
    ShowStart(b);
    assert (Show(a) + x)[0] == Show(a)[0];
    assert (Show(b) + y)[0] == Show(b)[0];
    match a
    case Atom(s) =>
      AtomsAgree(s, b.s, x, y);
    case Neg(a1) =>
      if b.Bin? {
        NegIsNotBin(a1, b.op, b.a, b.b, x, y);
      } else {
        NegUnique(a1, b.a, x, y);
      }
    case Bin(c, a1, a2) =>
      if b.Neg? {
        NegIsNotBin(b.a, c, a1, a2, y, x);
      } else {
        BinUnique(c, a1, a2, b.op, b.a, b.b, x, y);
      }
  }

  lemma {:induction false} NegUnique(a1: Term, b1: Term, x: string, y: string)
    requires ValidTerm(a1) && ValidTerm(b1)
    requires Stops(x) && Stops(y)
    requires Show(Neg(a1)) + x == Show(Neg(b1)) + y
    ensures a1 == b1 && x == y
    decreases Neg(a1), 0
  {
    var L := Show(Neg(a1)) + x;
    assert L[2..] == Show(a1) + (")" + x);
    assert L[2..] == Show(b1) + (")" + y);
    ShowUnique(a1, b1, ")" + x, ")" + y);
    assert x == (")" + x)[1..];
  }

  lemma BinText(c: char, a1: Term, a2: Term, x: string)
    ensures Show(Bin(c, a1, a2)) + x == "(" + (Show(a1) + ([c] + (Show(a2) + (")" + x))))
  {
  }

  lemma ConsEqual(c: char, d: char, u: string, v: string)
    requires [c] + u == [d] + v
    ensures c == d && u == v
  {
    assert u == ([c] + u)[1..];
    assert v == ([d] + v)[1..];
  }

  lemma {:induction false} BinUnique(c: char, a1: Term, a2: Term, d: char, b1: Term, b2: Term,
                                     x: string, y: string)
    requires ValidTerm(Bin(c, a1, a2)) && ValidTerm(Bin(d, b1, b2))
    requires Stops(x) && Stops(y)
    requires Show(Bin(c, a1, a2)) + x == Show(Bin(d, b1, b2)) + y
    ensures c == d && a1 == b1 && a2 == b2 && x == y
    decreases Bin(c, a1, a2), 0
  {
    var M := [c] + (Show(a2) + (")" + x));
    var N := [d] + (Show(b2) + (")" + y));
    BinText(c, a1, a2, x);
    BinText(d, b1, b2, y);
    ConsEqual('(', '(', Show(a1) + M, Show(b1) + N);
    ShowUnique(a1, b1, M, N);
    ConsEqual(c, d, Show(a2) + (")" + x), Show(b2) + (")" + y));
    ShowUnique(a2, b2, ")" + x, ")" + y);
    ConsEqual(')', ')', x, y);
  }

  /** Different valid terms are written differently. */
  lemma ShowInjective(a: Term, b: Term)
    requires ValidTerm(a) && ValidTerm(b)
    requires Show(a) == Show(b)
    ensures a == b
  {
    assert Show(a) + [] == Show(b) + [];
    ShowUnique(a, b, [], []);
  }
}
