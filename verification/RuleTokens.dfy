// Rules as text: cutting them into tokens, and the round trip from printed text.

module RuleTokens {
  import opened Wrappers
  import opened Rules
  import opened RuleGrammar
  import opened Seqs

  predicate IsLetter(c: char) { 'a' <= c <= 'z' || c == '_' }

  predicate IsParen(c: char) { c == '(' || c == ')' }

  /** The length of the word at the front. */
  function WordLength(s: string): (n: nat)
    ensures n <= |s|
    ensures s != "" && IsLetter(s[0]) ==> n > 0
  {
    if s != "" && IsLetter(s[0]) then 1 + WordLength(s[1..]) else 0
  }

  /** Parentheses and words; every other character only separates. */
  function Tokenize(s: string): Tokens
    decreases |s|
  {
    if s == "" then []
    else if IsParen(s[0]) then [s[..1]] + Tokenize(s[1..])
    else if IsLetter(s[0]) then [s[..WordLength(s)]] + Tokenize(s[WordLength(s)..])
    else Tokenize(s[1..])
  }

  /** The end of the word that starts at `i`. */
  method WordEnd(s: string, i: nat) returns (e: nat)
    requires i <= |s|
    ensures e == i + WordLength(s[i..])
  {
    e := i;
    while e < |s| && IsLetter(s[e])
      invariant i <= e <= |s| && WordLength(s[i..]) == (e - i) + WordLength(s[e..])
    {
      assert s[e..][1..] == s[e + 1..];
      e := e + 1;
    }
  }

  /** One step of the cut, by position. */
  lemma TokenizeStep(s: string, i: nat)
    requires i < |s|
    ensures var e := i + WordLength(s[i..]);
            Tokenize(s[i..])
            == if IsParen(s[i]) then [[s[i]]] + Tokenize(s[i + 1..])
               else if IsLetter(s[i]) then [s[i..e]] + Tokenize(s[e..])
               else Tokenize(s[i + 1..])
  {
    var rest, n := s[i..], WordLength(s[i..]);
    assert rest[1..] == s[i + 1..] && rest[..1] == [s[i]];
    assert rest[..n] == s[i..i + n] && rest[n..] == s[i + n..];
  }

  /** The token at `i`, if one starts there, and where the search goes on. */
  method NextToken(s: string, i: nat) returns (token: Tokens, next: nat)
    requires i < |s|
    ensures i < next <= |s| && Tokenize(s[i..]) == token + Tokenize(s[next..])
  {
    hide Tokenize, IsParen, IsLetter;
    TokenizeStep(s, i);
    if IsParen(s[i]) {
      return [[s[i]]], i + 1;
    }
    if IsLetter(s[i]) {
      next := WordEnd(s, i);
      WordIsLonger(s[i..]);
      return [s[i..next]], next;
    }
    assert [] + Tokenize(s[i + 1..]) == Tokenize(s[i + 1..]);
    return [], i + 1;
  }

  lemma WordIsLonger(s: string)
    requires s != "" && IsLetter(s[0])
    ensures WordLength(s) > 0
  {}

  method FindAll(s: string) returns (tokens: Tokens)
    ensures tokens == Tokenize(s)
  {
    hide Tokenize;
    tokens := [];
    var i := 0;
    assert s[0..] == s;
    while i < |s|
      invariant i <= |s| && tokens + Tokenize(s[i..]) == Tokenize(s)
      decreases |s| - i
    {
      var token, next := NextToken(s, i);
      Regroup(tokens, token, Tokenize(s[next..]));
      tokens, i := tokens + token, next;
    }
    NoTokenAtEnd(s);
  }

  lemma NoTokenAtEnd(s: string)
    ensures Tokenize(s[|s|..]) == []
  {}

  // ---------------------------------------------------------------- from tokens to text and back

  predicate IsWord(t: string) { t != "" && forall k :: 0 <= k < |t| ==> IsLetter(t[k]) }

  predicate IsToken(t: string) { IsWord(t) || t == "(" || t == ")" }

  function Render(tokens: Tokens): string {
    if tokens == [] then "" else tokens[0] + " " + Render(tokens[1..])
  }

  lemma {:induction false} WordThenSpace(w: string, rest: string)
    requires forall k :: 0 <= k < |w| ==> IsLetter(w[k])
    ensures WordLength(w + " " + rest) == |w|
    decreases |w|
  {
    if w == "" {
      assert ("" + " " + rest)[0] == ' ';
    } else {
      WordThenSpace(w[1..], rest);
      assert (w + " " + rest)[1..] == w[1..] + " " + rest;
    }
  }

  lemma TokenFirst(t: string, rest: string)
    requires IsToken(t)
    ensures Tokenize(t + " " + rest) == [t] + Tokenize(rest)
  {
    var s := t + " " + rest;
    var spaced := " " + rest;
    assert spaced[1..] == rest && Tokenize(spaced) == Tokenize(rest);
    if IsWord(t) {
      WordThenSpace(t, rest);
      assert s[0] == t[0] && s[..|t|] == t && s[|t|..] == spaced;
    } else {
      assert s[..1] == t && s[1..] == spaced;
    }
  }

  /** Any spaced-out token list is cut back into its tokens. */
  lemma {:induction false} TokensRoundTrip(tokens: Tokens)
    requires forall k :: 0 <= k < |tokens| ==> IsToken(tokens[k])
    ensures Tokenize(Render(tokens)) == tokens
    decreases |tokens|
  {
    if tokens != [] {
      TokensRoundTrip(tokens[1..]);
      TokenFirst(tokens[0], Render(tokens[1..]));
      assert tokens == [tokens[0]] + tokens[1..];
    }
  }

  predicate Spelled(e: Expr) {
    match e
    case Name(name) => IsWord(name)
    case Not(arg) => Spelled(arg)
    case And(left, right) => Spelled(left) && Spelled(right)
    case Or(left, right) => Spelled(left) && Spelled(right)
  }

  predicate AllTokens(ts: Tokens) { forall k :: 0 <= k < |ts| ==> IsToken(ts[k]) }

  lemma JoinedTokens(a: Tokens, t: string, b: Tokens)
    requires AllTokens(a) && IsToken(t) && AllTokens(b)
    ensures AllTokens(a + [t] + b) && AllTokens(["("] + (a + [t] + b) + [")"])
  {}

  lemma {:induction false} PrintsTokens(e: Expr)
    requires Spelled(e)
    ensures AllTokens(PrintOr(e)) && AllTokens(PrintAnd(e)) && AllTokens(PrintNot(e))
    decreases e
  {
    assert !e.Not? ==> PrintNot(e) == PrintAtom(e);
    assert !e.And? ==> PrintAnd(e) == PrintNot(e);
    assert !e.Or? ==> PrintOr(e) == PrintAnd(e);
    match e
    case Name(name) =>
      assert AllTokens([name]);
    case Not(arg) =>
      PrintsTokens(arg);
      assert IsWord("not");
      assert AllTokens(["not"] + PrintNot(arg));
    case And(left, right) =>
      PrintsTokens(left);
      PrintsTokens(right);
      assert IsWord("and");
      JoinedTokens(PrintAnd(left), "and", PrintNot(right));
    case Or(left, right) =>
      PrintsTokens(left);
      PrintsTokens(right);
      assert IsWord("or");
      JoinedTokens(PrintOr(left), "or", PrintAnd(right));
  }

  /** evaluate_rule: from the text of a rule to its value or error. */
  method EvaluateText(expression: string, facts: map<string, bool>) returns (r: Result<bool, Error>)
    ensures r == Meaning(Parse(Tokenize(expression), facts.Keys), facts)
  {
    var tokens := FindAll(expression);
    r := EvaluateRule(tokens, facts);
  }

  /** The text of an expression means the expression. */
  lemma TextRoundTrip(e: Expr, facts: map<string, bool>)
    requires Sensible(facts.Keys) && Known(e, facts.Keys) && Spelled(e)
    ensures Meaning(Parse(Tokenize(Render(PrintOr(e))), facts.Keys), facts) == Ok(Value(e, facts))
  {
    PrintsTokens(e);
    TokensRoundTrip(PrintOr(e));
    PrintRoundTrip(e, facts);
  }

  // ---------------------------------------------------------------- the cut, told by equations

  const WORD_CHARACTERS := "abcdefghijklmnopqrstuvwxyz_"

  lemma LetterExactly(c: char)
    ensures IsLetter(c) <==> c in WORD_CHARACTERS
  {
    if 'a' <= c <= 'z' {
      assert WORD_CHARACTERS[c as int - 'a' as int] == c;
    }
  }

  lemma {:induction false} WordThen(w: string, rest: string)
    requires (forall k :: 0 <= k < |w| ==> IsLetter(w[k])) && (rest == "" || !IsLetter(rest[0]))
    ensures WordLength(w + rest) == |w|
    decreases |w|
  {
    if w == "" {
      assert w + rest == rest;
    } else {
      WordThen(w[1..], rest);
      assert (w + rest)[1..] == w[1..] + rest;
    }
  }

  /**
   * A run of small letters and underscores is one token up to the first other
   * character; a parenthesis is one by itself, and anything else is none.
   */
  lemma CutExactly(w: string, c: char, rest: string)
    requires w != "" && (forall x <- w :: x in WORD_CHARACTERS) && c !in WORD_CHARACTERS
    ensures Tokenize(w) == [w]
    ensures Tokenize(w + [c] + rest) == [w] + Tokenize([c] + rest)
    ensures Tokenize([c] + rest) == (if c == '(' || c == ')' then [[c]] else []) + Tokenize(rest)
    ensures Tokenize("") == []
  {
    forall k | 0 <= k < |w| ensures IsLetter(w[k]) {
      LetterExactly(w[k]);
      assert w[k] in w;
    }
    LetterExactly(c);
    WordThen(w, "");
    WordFirst(w, "");
    assert w + "" == w;
    WordThen(w, [c] + rest);
    WordFirst(w, [c] + rest);
    assert w + [c] + rest == w + ([c] + rest);
    assert ([c] + rest)[1..] == rest && ([c] + rest)[..1] == [c];
    assert [] + Tokenize(rest) == Tokenize(rest);
  }

  lemma WordFirst(w: string, rest: string)
    requires w != "" && IsLetter(w[0]) && WordLength(w + rest) == |w|
    ensures Tokenize(w + rest) == [w] + Tokenize(rest)
  {
    hide WordLength;
    assert (w + rest)[..|w|] == w && (w + rest)[|w|..] == rest;
  }

  lemma NamePrints(name: string)
    ensures PrintOr(Name(name)) == PrintAnd(Name(name)) == PrintNot(Name(name)) == [name]
  {
    assert PrintNot(Name(name)) == PrintAtom(Name(name)) == [name];
    assert PrintAnd(Name(name)) == PrintNot(Name(name));
  }

  /** `not` binds before `and`, `and` before `or`, and parentheses before all. */
  lemma RuleMeans(a: string, b: string, c: string, d: string, facts: map<string, bool>)
    requires a in facts && b in facts && c in facts && d in facts && Sensible(facts.Keys)
    ensures Meaning(Parse([a, "or", b, "and", "not", "(", c, "or", d, ")"], facts.Keys), facts)
         == Ok(facts[a] || (facts[b] && !(facts[c] || facts[d])))
  {
    var inner := Or(Name(c), Name(d));
    var right := And(Name(b), Not(inner));
    var e := Or(Name(a), right);
    NamePrints(a);
    NamePrints(b);
    NamePrints(c);
    NamePrints(d);
    assert PrintNot(inner) == PrintAtom(inner) == ["(", c, "or", d, ")"];
    assert PrintNot(Not(inner)) == ["not", "(", c, "or", d, ")"];
    assert PrintAnd(right) == [b, "and", "not", "(", c, "or", d, ")"];
    assert PrintOr(e) == [a, "or", b, "and", "not", "(", c, "or", d, ")"];
    forall x | x in [a, b, c, d] ensures Known(Name(x), facts.Keys) && Value(Name(x), facts) == facts[x] {}
    assert a in [a, b, c, d] && b in [a, b, c, d] && c in [a, b, c, d] && d in [a, b, c, d];
    assert Known(inner, facts.Keys) && Value(inner, facts) == (facts[c] || facts[d]);
    assert Known(Not(inner), facts.Keys) && Value(Not(inner), facts) == !(facts[c] || facts[d]);
    assert Known(right, facts.Keys) && Value(right, facts) == (facts[b] && !(facts[c] || facts[d]));
    PrintRoundTrip(e, facts);
  }
}
