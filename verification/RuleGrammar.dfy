// The grammar of routing rules: the parser accepts exactly its sentences, and printing is undone.

module RuleGrammar {
  import opened Wrappers
  import opened Rules

  // ---------------------------------------------------------------- sentences

  /** A sentence of `or` level: left-nested, operators between shorter sentences. */
  ghost predicate IsOr(ts: Tokens, e: Expr, names: set<string>)
    ensures IsOr(ts, e, names) ==> Known(e, names) && ts != []
    decreases |ts|, 3
  {
    || IsAnd(ts, e, names)
    || (e.Or? && exists k :: 0 <= k < |ts| && OrAt(ts, k, e, names))
  }

  ghost predicate OrAt(ts: Tokens, k: nat, e: Expr, names: set<string>)
    requires k < |ts| && e.Or?
    ensures OrAt(ts, k, e, names) ==> Known(e, names)
    decreases |ts|, 1
  {
    ts[k] == "or" && IsOr(ts[..k], e.left, names) && IsAnd(ts[k + 1..], e.right, names)
  }

  ghost predicate IsAnd(ts: Tokens, e: Expr, names: set<string>)
    ensures IsAnd(ts, e, names) ==> Known(e, names) && ts != []
    decreases |ts|, 2
  {
    || IsNot(ts, e, names)
    || (e.And? && exists k :: 0 <= k < |ts| && AndAt(ts, k, e, names))
  }

  ghost predicate AndAt(ts: Tokens, k: nat, e: Expr, names: set<string>)
    requires k < |ts| && e.And?
    ensures AndAt(ts, k, e, names) ==> Known(e, names)
    decreases |ts|, 1
  {
    ts[k] == "and" && IsAnd(ts[..k], e.left, names) && IsNot(ts[k + 1..], e.right, names)
  }

  ghost predicate IsNot(ts: Tokens, e: Expr, names: set<string>)
    ensures IsNot(ts, e, names) ==> Known(e, names) && ts != []
    decreases |ts|, 1
  {
    || IsAtom(ts, e, names)
    || (e.Not? && ts != [] && ts[0] == "not" && IsNot(ts[1..], e.arg, names))
  }

  ghost predicate IsAtom(ts: Tokens, e: Expr, names: set<string>)
    ensures IsAtom(ts, e, names) ==> Known(e, names) && ts != []
    decreases |ts|, 0
  {
    || (|ts| == 1 && ts[0] in names && e == Name(ts[0]))
    || (|ts| > 2 && ts[0] == "(" && ts[|ts| - 1] == ")" && IsOr(ts[1..|ts| - 1], e, names))
  }

  // ---------------------------------------------------------------- what is parsed is a sentence

  lemma {:induction false} OrSound(ts: Tokens, names: set<string>, pos: nat)
    requires pos <= |ts| && ParseOr(ts, names, pos).Ok?
    ensures var (e, p) := ParseOr(ts, names, pos).value; IsOr(ts[pos..p], e, names)
    decreases |ts| - pos, 4
  {
    AndSound(ts, names, pos);
    var first := ParseAnd(ts, names, pos).value;
    OrLoopSound(ts, names, pos, first.0, first.1);
  }

  lemma {:induction false} OrLoopSound(ts: Tokens, names: set<string>, start: nat, left: Expr, pos: nat)
    requires start <= pos <= |ts| && IsOr(ts[start..pos], left, names) && OrLoop(ts, names, left, pos).Ok?
    ensures var (e, p) := OrLoop(ts, names, left, pos).value; IsOr(ts[start..p], e, names)
    decreases |ts| - pos, 3
  {
    if Next(ts, pos, "or") {
      AndSound(ts, names, pos + 1);
      var right := ParseAnd(ts, names, pos + 1).value;
      var part := ts[start..right.1];
      var k := pos - start;
      assert part[..k] == ts[start..pos] && part[k + 1..] == ts[pos + 1..right.1];
      assert OrAt(part, k, Or(left, right.0), names);
      OrLoopSound(ts, names, start, Or(left, right.0), right.1);
    }
  }

  lemma {:induction false} AndSound(ts: Tokens, names: set<string>, pos: nat)
    requires pos <= |ts| && ParseAnd(ts, names, pos).Ok?
    ensures var (e, p) := ParseAnd(ts, names, pos).value; IsAnd(ts[pos..p], e, names)
    decreases |ts| - pos, 2
  {
    NotSound(ts, names, pos);
    var first := ParseNot(ts, names, pos).value;
    AndLoopSound(ts, names, pos, first.0, first.1);
  }

  lemma {:induction false} AndLoopSound(ts: Tokens, names: set<string>, start: nat, left: Expr, pos: nat)
    requires start <= pos <= |ts| && IsAnd(ts[start..pos], left, names) && AndLoop(ts, names, left, pos).Ok?
    ensures var (e, p) := AndLoop(ts, names, left, pos).value; IsAnd(ts[start..p], e, names)
    decreases |ts| - pos, 1
  {
    if Next(ts, pos, "and") {
      NotSound(ts, names, pos + 1);
      var right := ParseNot(ts, names, pos + 1).value;
      var part := ts[start..right.1];
      var k := pos - start;
      assert part[..k] == ts[start..pos] && part[k + 1..] == ts[pos + 1..right.1];
      assert AndAt(part, k, And(left, right.0), names);
      AndLoopSound(ts, names, start, And(left, right.0), right.1);
    }
  }

  lemma {:induction false} NotSound(ts: Tokens, names: set<string>, pos: nat)
    requires pos <= |ts| && ParseNot(ts, names, pos).Ok?
    ensures var (e, p) := ParseNot(ts, names, pos).value; IsNot(ts[pos..p], e, names)
    decreases |ts| - pos, 1
  {
    if Next(ts, pos, "not") {
      NotSound(ts, names, pos + 1);
      var arg := ParseNot(ts, names, pos + 1).value;
      assert ts[pos..arg.1][1..] == ts[pos + 1..arg.1];
    } else if ts[pos] == "(" {
      OrSound(ts, names, pos + 1);
      var inner := ParseOr(ts, names, pos + 1).value;
      var part := ts[pos..inner.1 + 1];
      assert part[1..|part| - 1] == ts[pos + 1..inner.1];
    }
  }

  // ---------------------------------------------------------------- what is a sentence is parsed

  /** No intent is called `not` or `(`. */
  predicate Sensible(names: set<string>) { "not" !in names && "(" !in names }

  lemma Within(ts: Tokens, pos: nat, part: Tokens, lo: nat, hi: nat)
    requires pos + |part| <= |ts| && ts[pos..pos + |part|] == part && lo <= hi <= |part|
    ensures ts[pos + lo..pos + hi] == part[lo..hi]
    ensures lo < hi ==> ts[pos + lo] == part[lo]
  {
    forall i | lo <= i < hi ensures ts[pos + i] == part[i] {
      assert ts[pos..pos + |part|][i] == part[i];
    }
  }

  /** The three parts of a sentence around its operator. */
  lemma Around(ts: Tokens, pos: nat, part: Tokens, k: nat)
    requires pos + |part| <= |ts| && ts[pos..pos + |part|] == part && k < |part|
    ensures ts[pos..pos + |part[..k]|] == part[..k] && ts[pos + k] == part[k]
    ensures var rest := part[k + 1..];
            pos + k + 1 + |rest| == pos + |part| && ts[pos + k + 1..pos + k + 1 + |rest|] == rest
  {
    Within(ts, pos, part, 0, k);
    Within(ts, pos, part, k, |part|);
    Within(ts, pos, part, k + 1, |part|);
  }

  lemma OrStep(ts: Tokens, names: set<string>, left: Expr, pos: nat, right: Expr, p: nat)
    requires Next(ts, pos, "or") && Known(left, names) && Known(right, names) && p <= |ts| && !Next(ts, p, "and")
    requires ParseAnd(ts, names, pos + 1) == AndLoop(ts, names, right, p)
    ensures OrLoop(ts, names, left, pos) == OrLoop(ts, names, Or(left, right), p)
  {}

  lemma {:induction false} OrCompletes(ts: Tokens, names: set<string>, pos: nat, part: Tokens, e: Expr)
    requires Sensible(names) && pos + |part| <= |ts| && ts[pos..pos + |part|] == part && IsOr(part, e, names)
    requires !Next(ts, pos + |part|, "and")
    ensures ParseOr(ts, names, pos) == OrLoop(ts, names, e, pos + |part|)
    decreases |part|, 3
  {
    hide IsOr, IsAnd;
    if IsAnd(part, e, names) {
      AndCompletes(ts, names, pos, part, e);
    } else {
      hide OrLoop, AndLoop, ParseOr, ParseAnd;
      var k := OrSplits(part, e, names);
      Around(ts, pos, part, k);
      OrCompletes(ts, names, pos, part[..k], e.left);
      AndCompletes(ts, names, pos + k + 1, part[k + 1..], e.right);
      OrStep(ts, names, e.left, pos + k, e.right, pos + |part|);
    }
  }

  lemma OrSplits(part: Tokens, e: Expr, names: set<string>) returns (k: nat)
    requires IsOr(part, e, names) && !IsAnd(part, e, names)
    ensures k < |part| && e.Or? && OrAt(part, k, e, names)
  {
    k :| 0 <= k < |part| && OrAt(part, k, e, names);
  }

  lemma {:induction false} AndCompletes(ts: Tokens, names: set<string>, pos: nat, part: Tokens, e: Expr)
    requires Sensible(names) && pos + |part| <= |ts| && ts[pos..pos + |part|] == part && IsAnd(part, e, names)
    ensures ParseAnd(ts, names, pos) == AndLoop(ts, names, e, pos + |part|)
    decreases |part|, 2
  {
    if IsNot(part, e, names) {
      NotCompletes(ts, names, pos, part, e);
    } else {
      var k :| 0 <= k < |part| && AndAt(part, k, e, names);
      Around(ts, pos, part, k);
      AndCompletes(ts, names, pos, part[..k], e.left);
      NotCompletes(ts, names, pos + k + 1, part[k + 1..], e.right);
      hide ParseAnd, ParseNot, IsAnd, IsNot;
    }
  }

  lemma {:induction false} NotCompletes(ts: Tokens, names: set<string>, pos: nat, part: Tokens, e: Expr)
    requires Sensible(names) && pos + |part| <= |ts| && ts[pos..pos + |part|] == part && IsNot(part, e, names)
    ensures ParseNot(ts, names, pos) == Ok((e, pos + |part|))
    decreases |part|, 1
  {
    assert ts[pos] == part[0];
    if IsAtom(part, e, names) {
      AtomCompletes(ts, names, pos, part, e);
    } else {
      Within(ts, pos, part, 1, |part|);
      NotCompletes(ts, names, pos + 1, part[1..], e.arg);
    }
  }

  lemma {:induction false} AtomCompletes(ts: Tokens, names: set<string>, pos: nat, part: Tokens, e: Expr)
    requires Sensible(names) && pos + |part| <= |ts| && ts[pos..pos + |part|] == part && IsAtom(part, e, names)
    ensures ParseAtom(ts, names, pos) == Ok((e, pos + |part|)) && ts[pos] != "not"
    decreases |part|, 0
  {
    assert ts[pos] == part[0];
    if |part| > 1 {
      var inner := part[1..|part| - 1];
      Within(ts, pos, part, 1, |part| - 1);
      Within(ts, pos, part, |part| - 1, |part|);
      OrCompletes(ts, names, pos + 1, inner, e);
    }
  }

  /** The parser accepts a token list with a result exactly if the list is a sentence meaning that result. */
  lemma ParsesSentences(ts: Tokens, names: set<string>, e: Expr)
    requires Sensible(names)
    ensures Parse(ts, names) == Ok(e) <==> IsOr(ts, e, names)
  {
    assert ts[0..|ts|] == ts;
    if Parse(ts, names) == Ok(e) {
      OrSound(ts, names, 0);
    }
    if IsOr(ts, e, names) {
      OrCompletes(ts, names, 0, ts, e);
    }
  }

  /** Whatever the names, an accepted list is a sentence. */
  lemma AcceptedIsSentence(ts: Tokens, names: set<string>)
    requires Parse(ts, names).Ok?
    ensures IsOr(ts, Parse(ts, names).value, names)
  {
    assert ts[0..|ts|] == ts;
    OrSound(ts, names, 0);
  }

  /** Every sentence is accepted exactly if no intent is called `not` or `(`. */
  lemma SensibleIsNeeded(names: set<string>)
    ensures Sensible(names) <==> forall ts, e :: IsOr(ts, e, names) ==> Parse(ts, names) == Ok(e)
  {
    if Sensible(names) {
      forall ts, e | IsOr(ts, e, names) ensures Parse(ts, names) == Ok(e) {
        ParsesSentences(ts, names, e);
      }
    } else if "not" in names {
      assert IsOr(["not"], Name("not"), names);
      assert ParseNot(["not"], names, 1) == Err(EndOfTokens);
    } else {
      assert IsOr(["("], Name("("), names);
      assert ParseNot(["("], names, 1) == Err(EndOfTokens);
      assert ParseAnd(["("], names, 1) == Err(EndOfTokens);
      assert ParseOr(["("], names, 1) == Err(EndOfTokens);
    }
  }

  // ---------------------------------------------------------------- printing

  function PrintOr(e: Expr): Tokens
    decreases e, 3
  {
    if e.Or? then PrintOr(e.left) + ["or"] + PrintAnd(e.right) else PrintAnd(e)
  }

  function PrintAnd(e: Expr): Tokens
    decreases e, 2
  {
    if e.And? then PrintAnd(e.left) + ["and"] + PrintNot(e.right) else PrintNot(e)
  }

  function PrintNot(e: Expr): Tokens
    decreases e, 1
  {
    if e.Not? then ["not"] + PrintNot(e.arg) else PrintAtom(e)
  }

  /** Parentheses go where the level demands, and nowhere else. */
  function PrintAtom(e: Expr): Tokens
    decreases e, 0
  {
    match e
    case Name(name) => [name]
    case Not(arg) => ["(", "not"] + PrintNot(arg) + [")"]
    case And(left, right) => ["("] + (PrintAnd(left) + ["and"] + PrintNot(right)) + [")"]
    case Or(left, right) => ["("] + (PrintOr(left) + ["or"] + PrintAnd(right)) + [")"]
  }

  lemma {:induction false} PrintsSentence(e: Expr, names: set<string>)
    requires Known(e, names)
    ensures IsOr(PrintOr(e), e, names) && IsAnd(PrintAnd(e), e, names) && IsNot(PrintNot(e), e, names)
    decreases e
  {
    hide IsOr, IsAnd, IsNot, IsAtom, OrAt, AndAt;
    assert !e.Not? ==> PrintNot(e) == PrintAtom(e);
    assert !e.And? ==> PrintAnd(e) == PrintNot(e);
    assert !e.Or? ==> PrintOr(e) == PrintAnd(e);
    match e
    case Name(name) =>
      NamePrinted(name, names);
    case Not(arg) =>
      PrintsSentence(arg, names);
      NotPrinted(PrintNot(arg), arg, names);
    case And(left, right) =>
      PrintsSentence(left, names);
      PrintsSentence(right, names);
      AndPrinted(PrintAnd(left), PrintNot(right), left, right, names);
    case Or(left, right) =>
      PrintsSentence(left, names);
      PrintsSentence(right, names);
      OrPrinted(PrintOr(left), PrintAnd(right), left, right, names);
  }

  lemma NamePrinted(name: string, names: set<string>)
    requires name in names
    ensures IsNot([name], Name(name), names) && IsAnd([name], Name(name), names) && IsOr([name], Name(name), names)
  {
    assert IsAtom([name], Name(name), names);
  }

  lemma NotPrinted(ts: Tokens, arg: Expr, names: set<string>)
    requires IsNot(ts, arg, names)
    ensures var all := ["not"] + ts; IsNot(all, Not(arg), names) && IsAnd(all, Not(arg), names) && IsOr(all, Not(arg), names)
  {
    assert (["not"] + ts)[1..] == ts;
  }

  lemma AndPrinted(a: Tokens, b: Tokens, left: Expr, right: Expr, names: set<string>)
    requires IsAnd(a, left, names) && IsNot(b, right, names)
    ensures IsAnd(a + ["and"] + b, And(left, right), names) && IsOr(a + ["and"] + b, And(left, right), names)
    ensures IsNot(["("] + (a + ["and"] + b) + [")"], And(left, right), names)
  {
    var ts := a + ["and"] + b;
    assert ts[..|a|] == a && ts[|a| + 1..] == b;
    assert AndAt(ts, |a|, And(left, right), names);
    Parenthesized(ts, And(left, right), names);
  }

  lemma OrPrinted(a: Tokens, b: Tokens, left: Expr, right: Expr, names: set<string>)
    requires IsOr(a, left, names) && IsAnd(b, right, names)
    ensures IsOr(a + ["or"] + b, Or(left, right), names)
    ensures IsNot(["("] + (a + ["or"] + b) + [")"], Or(left, right), names)
    ensures IsAnd(["("] + (a + ["or"] + b) + [")"], Or(left, right), names)
  {
    var ts := a + ["or"] + b;
    assert ts[..|a|] == a && ts[|a| + 1..] == b;
    assert OrAt(ts, |a|, Or(left, right), names);
    Parenthesized(ts, Or(left, right), names);
  }

  lemma Parenthesized(ts: Tokens, e: Expr, names: set<string>)
    requires IsOr(ts, e, names)
    ensures IsAtom(["("] + ts + [")"], e, names)
  {
    var all := ["("] + ts + [")"];
    assert all[1..|all| - 1] == ts;
  }

  /** Printing an expression and evaluating the tokens gives the expression's value. */
  lemma PrintRoundTrip(e: Expr, facts: map<string, bool>)
    requires Sensible(facts.Keys) && Known(e, facts.Keys)
    ensures Parse(PrintOr(e), facts.Keys) == Ok(e)
  {
    PrintsSentence(e, facts.Keys);
    ParsesSentences(PrintOr(e), facts.Keys, e);
  }

  method EvaluatePrinted(e: Expr, facts: map<string, bool>) returns (r: Result<bool, Error>)
    requires Sensible(facts.Keys) && Known(e, facts.Keys)
    ensures r == Ok(Value(e, facts))
  {
    PrintRoundTrip(e, facts);
    r := EvaluateRule(PrintOr(e), facts);
  }
}
