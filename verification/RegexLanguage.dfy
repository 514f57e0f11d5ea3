// The matcher against the language of a regular expression, where priorities play no part.

module RegexLanguage {
  import opened Wrappers
  import opened Chars
  import opened JsRegex

  /** `r` can take the text from `i` to `j`. */
  ghost predicate Spans(r: Regex, s: Text, i: nat, j: nat)
    decreases r, if i <= j then j - i else 0, 1
  {
    i <= j <= |s| &&
    match r
    case Atom(c) => Width(c, s, i) > 0 && j == i + Width(c, s, i)
    case Boundary => i == j && BoundaryAt(s, i)
    case Begin => i == j && i == 0
    case End => i == j && i == |s|
    case LineBegin => i == j && LineStartsAt(s, i)
    case LineFinish => i == j && LineFinishesAt(s, i)
    case Empty => i == j
    case Cat(a, b) => exists m: nat :: i <= m <= j && CatAt(a, b, s, i, m, j)
    case Alt(a, b) => Spans(a, s, i, j) || Spans(b, s, i, j)
    case Star(a, _) => i == j || exists m: nat :: i < m <= j && TurnAt(r, s, i, m, j)
    case Cap(_, a) => Spans(a, s, i, j)
  }

  ghost predicate CatAt(a: Regex, b: Regex, s: Text, i: nat, m: nat, j: nat)
    requires i <= m <= j
    decreases Cat(a, b), j - i, 0
  {
    Spans(a, s, i, m) && Spans(b, s, m, j)
  }

  /** A non-empty turn of the star from `i` to `m`, and more turns from there. */
  ghost predicate TurnAt(star: Regex, s: Text, i: nat, m: nat, j: nat)
    requires star.Star? && i < m <= j
    decreases star, j - i, 0
  {
    Spans(star.body, s, i, m) && Spans(star, s, m, j)
  }

  /** Everything `k` asks for can take the text from `i` to `e`. */
  ghost predicate Leads(k: Cont, s: Text, i: nat, e: nat)
    decreases k
  {
    match k
    case Done => i == e
    case Do(r, k') => exists j: nat :: j <= |s| && Spans(r, s, i, j) && Leads(k', s, j, e)
    case Close(_, _, k') => Leads(k', s, i, e)
    case Loop(a, greedy, from, k') =>
      i > from && exists j: nat :: j <= |s| && Spans(Star(a, greedy), s, i, j) && Leads(k', s, j, e)
  }

  // ---------------------------------------------------------------- the language, one construct at a time

  lemma CatSplits(a: Regex, b: Regex, s: Text, i: nat, j: nat) returns (m: nat)
    requires Spans(Cat(a, b), s, i, j)
    ensures i <= m <= j && CatAt(a, b, s, i, m, j)
  {
    var r := Cat(a, b);
    assert r.Cat?;
    m :| i <= m <= j && CatAt(a, b, s, i, m, j);
  }

  lemma StarTurns(a: Regex, greedy: bool, s: Text, i: nat, j: nat) returns (m: nat)
    requires Spans(Star(a, greedy), s, i, j) && i != j
    ensures i < m <= j && TurnAt(Star(a, greedy), s, i, m, j)
  {
    m :| i < m <= j && TurnAt(Star(a, greedy), s, i, m, j);
  }

  lemma LeadsCat(a: Regex, b: Regex, k: Cont, s: Text, i: nat, e: nat)
    ensures Leads(Do(Cat(a, b), k), s, i, e) <==> Leads(Do(a, Do(b, k)), s, i, e)
  {
    if Leads(Do(Cat(a, b), k), s, i, e) {
      var j: nat :| j <= |s| && Spans(Cat(a, b), s, i, j) && Leads(k, s, j, e);
      var m := CatSplits(a, b, s, i, j);
      assert Leads(Do(b, k), s, m, e);
    }
    if Leads(Do(a, Do(b, k)), s, i, e) {
      var m: nat :| m <= |s| && Spans(a, s, i, m) && Leads(Do(b, k), s, m, e);
      var j: nat :| j <= |s| && Spans(b, s, m, j) && Leads(k, s, j, e);
      assert CatAt(a, b, s, i, m, j);
    }
  }

  lemma LeadsAlt(a: Regex, b: Regex, k: Cont, s: Text, i: nat, e: nat)
    ensures Leads(Do(Alt(a, b), k), s, i, e) <==> Leads(Do(a, k), s, i, e) || Leads(Do(b, k), s, i, e)
  {
    if Leads(Do(a, k), s, i, e) {
      var j: nat :| j <= |s| && Spans(a, s, i, j) && Leads(k, s, j, e);
      assert Spans(Alt(a, b), s, i, j);
    }
    if Leads(Do(b, k), s, i, e) {
      var j: nat :| j <= |s| && Spans(b, s, i, j) && Leads(k, s, j, e);
      assert Spans(Alt(a, b), s, i, j);
    }
  }

  lemma LeadsCap(n: nat, a: Regex, k: Cont, s: Text, i: nat, e: nat)
    ensures Leads(Do(Cap(n, a), k), s, i, e) <==> Leads(Do(a, Close(n, i, k)), s, i, e)
  {
    if Leads(Do(Cap(n, a), k), s, i, e) {
      var j: nat :| j <= |s| && Spans(Cap(n, a), s, i, j) && Leads(k, s, j, e);
      assert Leads(Close(n, i, k), s, j, e);
    }
    if Leads(Do(a, Close(n, i, k)), s, i, e) {
      var j: nat :| j <= |s| && Spans(a, s, i, j) && Leads(Close(n, i, k), s, j, e);
      assert Spans(Cap(n, a), s, i, j);
    }
  }

  /** A star either stops, or takes one non-empty turn and goes on. */
  lemma LeadsStar(a: Regex, greedy: bool, k: Cont, s: Text, i: nat, e: nat)
    requires i <= |s|
    ensures Leads(Do(Star(a, greedy), k), s, i, e)
       <==> Leads(k, s, i, e) || Leads(Do(a, Loop(a, greedy, i, k)), s, i, e)
  {
    var star := Star(a, greedy);
    if Leads(Do(star, k), s, i, e) {
      var j: nat :| j <= |s| && Spans(star, s, i, j) && Leads(k, s, j, e);
      if i != j {
        var m := StarTurns(a, greedy, s, i, j);
        assert Leads(Loop(a, greedy, i, k), s, m, e);
      }
    }
    if Leads(k, s, i, e) {
      assert Spans(star, s, i, i);
    }
    if Leads(Do(a, Loop(a, greedy, i, k)), s, i, e) {
      var m: nat :| m <= |s| && Spans(a, s, i, m) && Leads(Loop(a, greedy, i, k), s, m, e);
      var j: nat :| j <= |s| && Spans(star, s, m, j) && Leads(k, s, j, e);
      assert TurnAt(star, s, i, m, j);
    }
  }

  lemma LeadsAtom(c: Class, k: Cont, s: Text, i: nat, e: nat)
    requires i <= |s|
    ensures Leads(Do(Atom(c), k), s, i, e) <==> Width(c, s, i) > 0 && Leads(k, s, i + Width(c, s, i), e)
  {
    if Width(c, s, i) > 0 && Leads(k, s, i + Width(c, s, i), e) {
      assert Spans(Atom(c), s, i, i + Width(c, s, i));
    }
  }

  /** The constructs that take no text. */
  predicate InPlace(r: Regex) { r.Boundary? || r.Begin? || r.End? || r.LineBegin? || r.LineFinish? || r.Empty? }

  lemma LeadsInPlace(r: Regex, k: Cont, s: Text, i: nat, e: nat)
    requires i <= |s| && InPlace(r)
    ensures Leads(Do(r, k), s, i, e) <==> Spans(r, s, i, i) && Leads(k, s, i, e)
  {}

  lemma LeadsLoop(a: Regex, greedy: bool, from: nat, k: Cont, s: Text, i: nat, e: nat)
    ensures Leads(Loop(a, greedy, from, k), s, i, e) <==> i > from && Leads(Do(Star(a, greedy), k), s, i, e)
  {}

  // ---------------------------------------------------------------- the matcher decides the language

  /** A match ends where the language allows, and there is one whenever the language allows any. */
  lemma {:induction false} MatchDecides(k: Cont, s: Text, i: nat, caps: Captures, e: nat)
    requires i <= |s|
    ensures Match(k, s, i, caps).Some? ==> Leads(k, s, i, Match(k, s, i, caps).value.end)
    ensures Leads(k, s, i, e) ==> Match(k, s, i, caps).Some?
    decreases |s| - i, ContSize(k, i), 1
  {
    hide Match, MatchRegex, Spans;
    match k
    case Done =>
      MatchDone(s, i, caps);
    case Do(r, k') =>
      DoDecides(r, k', s, i, caps, e);
    case Close(n, from, k') =>
      MatchClose(n, from, k', s, i, caps);
      MatchDecides(k', s, i, caps[n := (from, i)], e);
    case Loop(a, greedy, from, k') =>
      MatchLoop(a, greedy, from, k', s, i, caps);
      if i > from {
        DoDecides(Star(a, greedy), k', s, i, caps, e);
        LeadsLoop(a, greedy, from, k', s, i, e);
        var m := Match(k, s, i, caps);
        if m.Some? {
          LeadsLoop(a, greedy, from, k', s, i, m.value.end);
        }
      }
  }

  lemma {:induction false} DoDecides(r: Regex, k: Cont, s: Text, i: nat, caps: Captures, e: nat)
    requires i <= |s|
    ensures var m := Match(Do(r, k), s, i, caps); m.Some? ==> Leads(Do(r, k), s, i, m.value.end)
    ensures Leads(Do(r, k), s, i, e) ==> Match(Do(r, k), s, i, caps).Some?
    decreases |s| - i, RegexSize(r) + ContSize(k, i), 0
  {
    hide Match, MatchRegex, Leads, Width, BoundaryAt;
    var m := Match(Do(r, k), s, i, caps);
    var end := if m.Some? then m.value.end else 0;
    match r
    case Atom(c) =>
      MatchAtom(c, k, s, i, caps);
      LeadsAtom(c, k, s, i, e);
      LeadsAtom(c, k, s, i, end);
      if Width(c, s, i) > 0 {
        MatchDecides(k, s, i + Width(c, s, i), caps, e);
      }
    case Cat(a, b) =>
      MatchCat(a, b, k, s, i, caps);
      LeadsCat(a, b, k, s, i, e);
      LeadsCat(a, b, k, s, i, end);
      assert ContSize(Do(b, k), i) == RegexSize(b) + ContSize(k, i);
      DoDecides(a, Do(b, k), s, i, caps, e);
    case Alt(a, b) =>
      MatchAlt(a, b, k, s, i, caps);
      LeadsAlt(a, b, k, s, i, e);
      LeadsAlt(a, b, k, s, i, end);
      DoDecides(a, k, s, i, caps, e);
      DoDecides(b, k, s, i, caps, e);
    case Star(a, greedy) =>
      MatchStar(a, greedy, k, s, i, caps);
      LeadsStar(a, greedy, k, s, i, e);
      LeadsStar(a, greedy, k, s, i, end);
      assert ContSize(Loop(a, greedy, i, k), i) == 1 + ContSize(k, i);
      DoDecides(a, Loop(a, greedy, i, k), s, i, caps, e);
      MatchDecides(k, s, i, caps, e);
    case Cap(n, a) =>
      MatchCap(n, a, k, s, i, caps);
      LeadsCap(n, a, k, s, i, e);
      LeadsCap(n, a, k, s, i, end);
      assert ContSize(Close(n, i, k), i) == 1 + ContSize(k, i);
      DoDecides(a, Close(n, i, k), s, i, caps, e);
    case _ =>
      MatchInPlace(r, k, s, i, caps);
      LeadsInPlace(r, k, s, i, e);
      LeadsInPlace(r, k, s, i, end);
      MatchDecides(k, s, i, caps, e);
  }

  lemma MatchInPlace(r: Regex, k: Cont, s: Text, i: nat, caps: Captures)
    requires i <= |s| && InPlace(r)
    ensures Match(Do(r, k), s, i, caps) == if Spans(r, s, i, i) then Match(k, s, i, caps) else None
  {
    hide Match, OrElse, Width, BoundaryAt, RegexSize, ContSize, LineStartsAt, LineFinishesAt;
    MatchDo(r, k, s, i, caps);
  }

  /** A whole expression: it matches from `i` exactly if it spans some text from there, and then spans the match. */
  lemma MatchesItsLanguage(r: Regex, s: Text, i: nat, e: nat)
    requires i <= |s|
    ensures var m := Match(Do(r, Done), s, i, map[]); m.Some? ==> Spans(r, s, i, m.value.end)
    ensures Spans(r, s, i, e) ==> Match(Do(r, Done), s, i, map[]).Some?
  {
    hide Match, Spans;
    MatchDecides(Do(r, Done), s, i, map[], e);
    var m := Match(Do(r, Done), s, i, map[]);
    if m.Some? {
      assert Leads(Do(r, Done), s, i, m.value.end);
    }
    assert Spans(r, s, i, e) ==> Leads(Done, s, e, e);
    SpansInText(r, s, i, e);
  }

  lemma SpansInText(r: Regex, s: Text, i: nat, j: nat)
    ensures Spans(r, s, i, j) ==> i <= j <= |s|
  {}
}
