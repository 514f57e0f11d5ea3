// The routing rule language: evaluation while parsing, against parsing and then evaluating.

module Rules {
  import opened Wrappers

  datatype Error = EndOfTokens | Unbalanced | UnknownIntent(token: string) | Trailing

  datatype Expr = Name(name: string) | Not(arg: Expr) | And(left: Expr, right: Expr) | Or(left: Expr, right: Expr)

  type Tokens = seq<string>

  /** The truth value; only expressions over the known names are ever evaluated. */
  function Value(e: Expr, facts: map<string, bool>): bool {
    match e
    case Name(name) => name in facts && facts[name]
    case Not(arg) => !Value(arg, facts)
    case And(left, right) => Value(left, facts) && Value(right, facts)
    case Or(left, right) => Value(left, facts) || Value(right, facts)
  }

  predicate Known(e: Expr, names: set<string>) {
    match e
    case Name(name) => name in names
    case Not(arg) => Known(arg, names)
    case And(left, right) => Known(left, names) && Known(right, names)
    case Or(left, right) => Known(left, names) && Known(right, names)
  }

  predicate Next(ts: Tokens, pos: nat, token: string) { pos < |ts| && ts[pos] == token }

  // ---------------------------------------------------------------- the parser, without truth values

  type Parsed = Result<(Expr, nat), Error>

  function ParseOr(ts: Tokens, names: set<string>, pos: nat): (r: Parsed)
    requires pos <= |ts|
    ensures r.Ok? ==> pos < r.value.1 <= |ts| && Known(r.value.0, names)
    decreases |ts| - pos, 4
  {
    match ParseAnd(ts, names, pos)
    case Err(error) => Err(error)
    case Ok(first) => OrLoop(ts, names, first.0, first.1)
  }

  function OrLoop(ts: Tokens, names: set<string>, left: Expr, pos: nat): (r: Parsed)
    requires pos <= |ts| && Known(left, names)
    ensures r.Ok? ==> pos <= r.value.1 <= |ts| && Known(r.value.0, names)
    decreases |ts| - pos, 3
  {
    if Next(ts, pos, "or") then
      match ParseAnd(ts, names, pos + 1)
      case Err(error) => Err(error)
      case Ok(right) => OrLoop(ts, names, Or(left, right.0), right.1)
    else Ok((left, pos))
  }

  function ParseAnd(ts: Tokens, names: set<string>, pos: nat): (r: Parsed)
    requires pos <= |ts|
    ensures r.Ok? ==> pos < r.value.1 <= |ts| && Known(r.value.0, names)
    decreases |ts| - pos, 2
  {
    match ParseNot(ts, names, pos)
    case Err(error) => Err(error)
    case Ok(first) => AndLoop(ts, names, first.0, first.1)
  }

  function AndLoop(ts: Tokens, names: set<string>, left: Expr, pos: nat): (r: Parsed)
    requires pos <= |ts| && Known(left, names)
    ensures r.Ok? ==> pos <= r.value.1 <= |ts| && Known(r.value.0, names)
    decreases |ts| - pos, 1
  {
    if Next(ts, pos, "and") then
      match ParseNot(ts, names, pos + 1)
      case Err(error) => Err(error)
      case Ok(right) => AndLoop(ts, names, And(left, right.0), right.1)
    else Ok((left, pos))
  }

  function ParseNot(ts: Tokens, names: set<string>, pos: nat): (r: Parsed)
    requires pos <= |ts|
    ensures r.Ok? ==> pos < r.value.1 <= |ts| && Known(r.value.0, names)
    decreases |ts| - pos, 1
  {
    if Next(ts, pos, "not") then
      match ParseNot(ts, names, pos + 1)
      case Err(error) => Err(error)
      case Ok(arg) => Ok((Not(arg.0), arg.1))
    else ParseAtom(ts, names, pos)
  }

  function ParseAtom(ts: Tokens, names: set<string>, pos: nat): (r: Parsed)
    requires pos <= |ts|
    ensures r.Ok? ==> pos < r.value.1 <= |ts| && Known(r.value.0, names)
    decreases |ts| - pos, 0
  {
    if pos == |ts| then Err(EndOfTokens)
    else if ts[pos] == "(" then
      match ParseOr(ts, names, pos + 1)
      case Err(error) => Err(error)
      case Ok(inner) =>
        if inner.1 == |ts| then Err(EndOfTokens)
        else if ts[inner.1] != ")" then Err(Unbalanced)
        else Ok((inner.0, inner.1 + 1))
    else if ts[pos] !in names then Err(UnknownIntent(ts[pos]))
    else Ok((Name(ts[pos]), pos + 1))
  }

  function Parse(ts: Tokens, names: set<string>): (r: Result<Expr, Error>)
    ensures r.Ok? ==> Known(r.value, names)
  {
    match ParseOr(ts, names, 0)
    case Err(error) => Err(error)
    case Ok(whole) => if whole.1 != |ts| then Err(Trailing) else Ok(whole.0)
  }

  // ---------------------------------------------------------------- the evaluator

  /** What the evaluation of a parsed part gives. */
  function Valued(r: Parsed, facts: map<string, bool>): Result<bool, Error> {
    match r
    case Err(error) => Err(error)
    case Ok(part) => Ok(Value(part.0, facts))
  }

  /** What a parsed rule says about the facts. */
  function Meaning(r: Result<Expr, Error>, facts: map<string, bool>): Result<bool, Error> {
    match r
    case Err(error) => Err(error)
    case Ok(e) => Ok(Value(e, facts))
  }

  class Evaluator {
    const tokens: Tokens
    const facts: map<string, bool>
    var position: nat

    constructor (tokens: Tokens, facts: map<string, bool>)
      ensures this.tokens == tokens && this.facts == facts && position == 0
    {
      this.tokens, this.facts, position := tokens, facts, 0;
    }

    method EvalOr() returns (r: Result<bool, Error>)
      requires position <= |tokens|
      modifies this
      ensures r == Valued(ParseOr(tokens, facts.Keys, old(position)), facts)
      ensures r.Ok? ==> position == ParseOr(tokens, facts.Keys, old(position)).value.1
      decreases |tokens| - position, 4
    {
      r := EvalAnd();
      if r.Err? {
        return;
      }
      ghost var left := ParseAnd(tokens, facts.Keys, old(position)).value.0;
      while position < |tokens| && tokens[position] == "or"
        invariant old(position) < position <= |tokens| && r.Ok?
        invariant Known(left, facts.Keys) && r.value == Value(left, facts)
        invariant ParseOr(tokens, facts.Keys, old(position)) == OrLoop(tokens, facts.Keys, left, position)
        decreases |tokens| - position
      {
        position := position + 1;
        ghost var from := position;
        var right := EvalAnd();
        if right.Err? {
          return right;
        }
        r := Ok(right.value || r.value);
        left := Or(left, ParseAnd(tokens, facts.Keys, from).value.0);
      }
    }

    method EvalAnd() returns (r: Result<bool, Error>)
      requires position <= |tokens|
      modifies this
      ensures r == Valued(ParseAnd(tokens, facts.Keys, old(position)), facts)
      ensures r.Ok? ==> position == ParseAnd(tokens, facts.Keys, old(position)).value.1
      decreases |tokens| - position, 2
    {
      r := EvalNot();
      if r.Err? {
        return;
      }
      ghost var left := ParseNot(tokens, facts.Keys, old(position)).value.0;
      while position < |tokens| && tokens[position] == "and"
        invariant old(position) < position <= |tokens| && r.Ok?
        invariant Known(left, facts.Keys) && r.value == Value(left, facts)
        invariant ParseAnd(tokens, facts.Keys, old(position)) == AndLoop(tokens, facts.Keys, left, position)
        decreases |tokens| - position
      {
        position := position + 1;
        ghost var from := position;
        var right := EvalNot();
        if right.Err? {
          return right;
        }
        r := Ok(right.value && r.value);
        left := And(left, ParseNot(tokens, facts.Keys, from).value.0);
      }
    }

    method EvalNot() returns (r: Result<bool, Error>)
      requires position <= |tokens|
      modifies this
      ensures r == Valued(ParseNot(tokens, facts.Keys, old(position)), facts)
      ensures r.Ok? ==> position == ParseNot(tokens, facts.Keys, old(position)).value.1
      decreases |tokens| - position, 1
    {
      if position < |tokens| && tokens[position] == "not" {
        position := position + 1;
        r := EvalNot();
        if r.Ok? {
          r := Ok(!r.value);
        }
        return;
      }
      r := EvalAtom();
    }

    method EvalAtom() returns (r: Result<bool, Error>)
      requires position <= |tokens|
      modifies this
      ensures r == Valued(ParseAtom(tokens, facts.Keys, old(position)), facts)
      ensures r.Ok? ==> position == ParseAtom(tokens, facts.Keys, old(position)).value.1
      decreases |tokens| - position, 0
    {
      if position == |tokens| {
        return Err(EndOfTokens);
      }
      var token := tokens[position];
      position := position + 1;
      if token == "(" {
        r := EvalOr();
        if r.Err? {
          return;
        }
        if position == |tokens| {
          return Err(EndOfTokens);
        }
        var close := tokens[position];
        position := position + 1;
        if close != ")" {
          return Err(Unbalanced);
        }
        return;
      }
      if token !in facts {
        return Err(UnknownIntent(token));
      }
      r := Ok(facts[token]);
    }
  }

  /** A rule's value is that of its parse; whether it has one, and which error, no truth value decides. */
  method EvaluateRule(tokens: Tokens, facts: map<string, bool>) returns (r: Result<bool, Error>)
    ensures r == Meaning(Parse(tokens, facts.Keys), facts)
  {
    var evaluator := new Evaluator(tokens, facts);
    r := evaluator.EvalOr();
    if r.Ok? && evaluator.position != |tokens| {
      r := Err(Trailing);
    }
  }
}
