/**
 * Splitting a postfix string into whitespace-separated tokens, the way the
 * parser's `ss >> token` loop reads a string stream.
 */
module Lexer {
  import opened Tokens

  /** A token as extraction produces it: non-empty, with no whitespace inside. */
  predicate IsWord(w: string) {
    |w| > 0 && forall j :: 0 <= j < |w| ==> !IsSpace(w[j])
  }

  /** Length of the leading run of non-whitespace characters. */
  function WordLength(s: string): (n: nat)
    ensures n <= |s|
    ensures forall j :: 0 <= j < n ==> !IsSpace(s[j])
    ensures n == |s| || IsSpace(s[n])
  {
    if |s| == 0 || IsSpace(s[0]) then 0
    else 1 + WordLength(s[1..])
  }

  /** The tokens of `s`, in order: leading whitespace is skipped, then the
      longest run of non-whitespace characters is one token. */
  function Tokenize(s: string): (toks: seq<string>)
    ensures forall i :: 0 <= i < |toks| ==> IsWord(toks[i])
    decreases |s|
  {
    if |s| == 0 then []
    else if IsSpace(s[0]) then Tokenize(s[1..])
    else
      var n := WordLength(s);
      [s[..n]] + Tokenize(s[n..])
  }

  /** The tokens joined with single spaces. */
  function Unwords(toks: seq<string>): string
  {
    if |toks| == 0 then []
    else if |toks| == 1 then toks[0]
    else toks[0] + " " + Unwords(toks[1..])
  }

  /** Every character of `s` that is not whitespace, in order. */
  function Visible(s: string): string
  {
    if |s| == 0 then []
    else if IsSpace(s[0]) then Visible(s[1..])
    else [s[0]] + Visible(s[1..])
  }

  function Concat(toks: seq<string>): string
  {
    if |toks| == 0 then [] else toks[0] + Concat(toks[1..])
  }

  lemma {:induction false} WordLengthOfWord(w: string, rest: string)
    requires IsWord(w)
    requires |rest| == 0 || IsSpace(rest[0])
    ensures WordLength(w + rest) == |w|
    decreases |w|
  {
    if |w| > 1 {
      assert (w + rest)[1..] == w[1..] + rest;
      WordLengthOfWord(w[1..], rest);
    } else {
      assert (w + rest)[1..] == rest;
    }
  }

  /** Joining well-formed tokens with spaces and splitting again gives them back. */
  lemma {:induction false} TokenizeUnwords(toks: seq<string>)
    requires forall i :: 0 <= i < |toks| ==> IsWord(toks[i])
    ensures Tokenize(Unwords(toks)) == toks
    decreases |toks|
  {
    if |toks| == 0 {
    } else if |toks| == 1 {
      var w := toks[0];
      WordLengthOfWord(w, []);
      assert w + [] == w;
      assert w[|w|..] == [];
      assert w[..|w|] == w;
    } else {
      var w := toks[0];
      var tail := " " + Unwords(toks[1..]);
      var s := w + tail;
      assert Unwords(toks) == s;
      WordLengthOfWord(w, tail);
      assert s[..|w|] == w;
      assert s[|w|..] == tail;
      assert tail[1..] == Unwords(toks[1..]);
      TokenizeUnwords(toks[1..]);
      assert Tokenize(tail) == Tokenize(Unwords(toks[1..]));
      assert toks == [w] + toks[1..];
    }
  }

  lemma {:induction false} VisibleOfWord(w: string)
    requires forall j :: 0 <= j < |w| ==> !IsSpace(w[j])
    ensures Visible(w) == w
    decreases |w|
  {
    if |w| > 0 {
      VisibleOfWord(w[1..]);
      assert w == [w[0]] + w[1..];
    }
  }

  lemma {:induction false} VisibleAppend(a: string, b: string)
    ensures Visible(a + b) == Visible(a) + Visible(b)
    decreases |a|
  {
    if |a| == 0 {
      assert a + b == b;
    } else {
      assert (a + b)[1..] == a[1..] + b;
      VisibleAppend(a[1..], b);
    }
  }

  /** Tokenizing loses exactly the whitespace: the tokens, glued together,
      are the non-whitespace characters of the input. */
  lemma {:induction false} TokenizeKeepsVisible(s: string)
    ensures Concat(Tokenize(s)) == Visible(s)
    decreases |s|
  {
    if |s| == 0 {
    } else if IsSpace(s[0]) {
      TokenizeKeepsVisible(s[1..]);
    } else {
      var n := WordLength(s);
      assert s == s[..n] + s[n..];
      TokenizeKeepsVisible(s[n..]);
      VisibleOfWord(s[..n]);
      VisibleAppend(s[..n], s[n..]);
      var toks := Tokenize(s);
      assert toks[1..] == Tokenize(s[n..]);
    }
  }

  /** A word is one token. */
  lemma TokenizeWord(w: string)
    requires IsWord(w)
    ensures Tokenize(w) == [w]
  {
    TokenizeUnwords([w]);
  }

  /** Appending text after a word that already stops at whitespace leaves
      its length alone. */
  lemma {:induction false} WordLengthAppend(s: string, t: string)
    requires WordLength(s) < |s| || (|t| > 0 && IsSpace(t[0]))
    ensures WordLength(s + t) == WordLength(s)
    decreases |s|
  {
    if |s| == 0 {
      assert s + t == t;
    } else if !IsSpace(s[0]) {
      assert (s + t)[1..] == s[1..] + t;
      WordLengthAppend(s[1..], t);
    }
  }

  /** A whitespace character separates tokens: the tokens of the text on its
      left, then those of the text on its right. No token spans it and it
      splits nothing else. */
  lemma {:induction false} TokenizeSplitsAtSpace(a: string, c: char, b: string)
    requires IsSpace(c)
    ensures Tokenize(a + [c] + b) == Tokenize(a) + Tokenize(b)
    decreases |a|
  {
    var s := a + [c] + b;
    if |a| == 0 {
      assert s == [c] + b;
      assert s[1..] == b;
    } else if IsSpace(a[0]) {
      assert s[1..] == a[1..] + [c] + b;
      TokenizeSplitsAtSpace(a[1..], c, b);
    } else {
      var m := WordLength(a);
      WordLengthAppend(a, [c] + b);
      assert s == a + ([c] + b);
      assert s[..m] == a[..m];
      if m < |a| {
        assert s[m..] == a[m..] + [c] + b;
        TokenizeSplitsAtSpace(a[m..], c, b);
      } else {
        assert s[m..] == [c] + b;
        assert ([c] + b)[1..] == b;
        assert a[m..] == [];
        assert a[..m] == a;
      }
    }
  }

  /** Input made of whitespace only (or nothing) has no tokens. */
  lemma {:induction false} BlankHasNoTokens(s: string)
    requires forall j :: 0 <= j < |s| ==> IsSpace(s[j])
    ensures Tokenize(s) == []
    decreases |s|
  {
    if |s| > 0 {
      BlankHasNoTokens(s[1..]);
    }
  }
}
