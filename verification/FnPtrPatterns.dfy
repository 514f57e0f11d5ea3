// The regular expressions of the C function-pointer sweep, as continuations
// read left to right, and the commit lemmas for their repeated groups.

module FnPtrPatterns {
  import opened Wrappers
  import opened Chars
  import opened JsRegex

  // ---------------------------------------------------------------- pattern pieces

  /** One byte. */
  function Chr(b: Byte, k: Cont): Cont { Do(Atom(OneOf({b})), k) }

  /** `\s*` */
  function Ws(k: Cont): Cont { Do(Star(Atom(Space), true), k) }

  /** `\s+` */
  function Ws1(k: Cont): Cont { Do(Plus(Atom(Space)), k) }

  /** `(\w+)` */
  function WordCap(n: nat, k: Cont): Cont { Do(Cap(n, Plus(Atom(Word))), k) }

  /** Nothing of class `d` can begin a piece that starts with class `c`. */
  lemma StartsApart(c: Class, d: Class, n: nat, k: Cont)
    requires Apart(c, d)
    ensures Rejects(Do(Atom(c), k), d)
    ensures Rejects(Do(Plus(Atom(c)), k), d)
    ensures Rejects(Do(Cap(n, Plus(Atom(c))), k), d)
    ensures Rejects(k, d) ==> Rejects(Do(Star(Atom(c), true), k), d)
  {
    assert Avoids(Atom(c), d) && Consumes(Atom(c));
    assert Avoids(Plus(Atom(c)), d) && Consumes(Plus(Atom(c)));
    assert Avoids(Star(Atom(c), true), d);
  }

  function SkipWs(s: Text, i: nat): (e: nat)
    requires i <= |s|
    ensures i <= e <= |s|
    ensures e > i <==> JswsLen(s, i) > 0
    ensures JswsLen(s, e) == 0
  {
    assert Width(Space, s, i) == JswsLen(s, i);
    assert Width(Space, s, RunEnd(Space, s, i)) == JswsLen(s, RunEnd(Space, s, i));
    RunEnd(Space, s, i)
  }

  function WordEnd(s: Text, i: nat): (e: nat)
    requires i <= |s|
    ensures i <= e <= |s|
    ensures e > i <==> IsWordAt(s, i)
    ensures !IsWordAt(s, e)
  {
    assert Width(Word, s, i) > 0 <==> IsWordAt(s, i);
    assert Width(Word, s, RunEnd(Word, s, i)) == 0;
    RunEnd(Word, s, i)
  }

  lemma SkipWsIsRun(s: Text, i: nat)
    requires i <= |s|
    ensures SkipWs(s, i) == RunEnd(Space, s, i)
  {}

  lemma CloseRejects(n: nat, from: nat, k: Cont, c: Class)
    requires Rejects(k, c)
    ensures Rejects(Close(n, from, k), c)
  {}

  lemma ChrMatches(b: Byte, k: Cont, s: Text, i: nat, caps: Captures)
    requires i <= |s|
    ensures Match(Chr(b, k), s, i, caps) == if At(s, i, b) then Match(k, s, i + 1, caps) else None
  {
    hide Match, MatchRegex, RegexSize, ContSize;
    MatchAtom(OneOf({b}), k, s, i, caps);
  }

  /** `\s*` before a byte that no space starts with: skip, then look. */
  lemma WsChrMatches(b: Byte, k: Cont, s: Text, i: nat, caps: Captures)
    requires i <= |s| && NotSpaceLead(b)
    ensures Match(Ws(Chr(b, k)), s, i, caps)
         == var j := SkipWs(s, i); if At(s, j, b) then Match(k, s, j + 1, caps) else None
  {
    hide Match, MatchRegex, RegexSize, ContSize;
    StartsApart(OneOf({b}), Space, 0, k);
    StarTakesAll(Space, Chr(b, k), s, i, caps);
    ChrMatches(b, k, s, SkipWs(s, i), caps);
  }

  /** `(\w+)` takes the whole word. */
  lemma WordMatches(n: nat, k: Cont, s: Text, i: nat, caps: Captures)
    requires i <= |s| && Rejects(k, Word)
    ensures Match(WordCap(n, k), s, i, caps)
         == if IsWordAt(s, i) then Match(k, s, WordEnd(s, i), caps[n := (i, WordEnd(s, i))]) else None
  {
    hide Match, MatchRegex, RegexSize, ContSize;
    assert Width(Word, s, i) > 0 <==> IsWordAt(s, i);
    CaptureTakesAll(n, Word, k, s, i, caps);
  }

  /** `\s*(\w+)` */
  lemma WsWordMatches(n: nat, k: Cont, s: Text, i: nat, caps: Captures)
    requires i <= |s| && Rejects(k, Word)
    ensures Match(Ws(WordCap(n, k)), s, i, caps)
         == var j := SkipWs(s, i);
            if IsWordAt(s, j) then Match(k, s, WordEnd(s, j), caps[n := (j, WordEnd(s, j))]) else None
  {
    hide Match, MatchRegex, RegexSize, ContSize;
    StartsApart(Word, Space, n, k);
    StarTakesAll(Space, WordCap(n, k), s, i, caps);
    WordMatches(n, k, s, SkipWs(s, i), caps);
  }

  /** `\s+` takes all spaces, and needs at least one. */
  lemma Ws1Matches(k: Cont, s: Text, i: nat, caps: Captures)
    requires i <= |s| && Rejects(k, Space)
    ensures Match(Ws1(k), s, i, caps)
         == var j := SkipWs(s, i); if j > i then Match(k, s, j, caps) else None
  {
    hide Match, MatchRegex, RegexSize, ContSize;
    assert Width(Space, s, i) == JswsLen(s, i);
    PlusTakesAll(Space, k, s, i, caps);
  }

  /** `\s*` in front of a byte keeps words out. */
  lemma WsChrRejectsWord(b: Byte, k: Cont)
    requires !IsWord(b)
    ensures Rejects(Ws(Chr(b, k)), Word)
    ensures Rejects(Chr(b, k), Word)
  {
    StartsApart(OneOf({b}), Word, 0, k);
    StartsApart(Space, Word, 0, Chr(b, k));
  }

  // ---------------------------------------------------------------- (?:\w+\s+)*

  const WORD_SPACE: Regex := Cat(Plus(Atom(Word)), Plus(Atom(Space)))

  /** Where the greedy `(?:\w+\s+)*` loop stops. */
  function WordsEnd(s: Text, i: nat): (e: nat)
    requires i <= |s|
    ensures i <= e <= |s|
    decreases |s| - i
  {
    if !IsWordAt(s, i) then i
    else
      var we := WordEnd(s, i);
      var wse := SkipWs(s, we);
      if wse == we then i else WordsEnd(s, wse)
  }

  /** Giving back an iteration puts the continuation on a word character, so the loop commits. */
  lemma {:induction false} WordsCommit(k: Cont, s: Text, i: nat, caps: Captures)
    requires i <= |s|
    requires Rejects(k, Word) && Rejects(k, Space)
    ensures Match(Do(Star(WORD_SPACE, true), k), s, i, caps) == Match(k, s, WordsEnd(s, i), caps)
    decreases |s| - i
  {
    hide Match, MatchRegex, RegexSize, ContSize;
    var again := Loop(WORD_SPACE, true, i, k);
    var spaces := Do(Plus(Atom(Space)), again);
    MatchStar(WORD_SPACE, true, k, s, i, caps);
    MatchCat(Plus(Atom(Word)), Plus(Atom(Space)), again, s, i, caps);
    StartsApart(Space, Word, 0, again);
    PlusTakesAll(Word, spaces, s, i, caps);
    if IsWordAt(s, i) {
      var we := WordEnd(s, i);
      assert Width(Word, s, i) > 0;
      RejectedFails(k, Word, s, i, caps);
      assert Avoids(Plus(Atom(Word)), Space) && Consumes(Plus(Atom(Word)));
      assert Rejects(again, Space);
      PlusTakesAll(Space, again, s, we, caps);
      var wse := SkipWs(s, we);
      if wse > we {
        MatchLoop(WORD_SPACE, true, i, k, s, wse, caps);
        WordsCommit(k, s, wse, caps);
      }
    }
  }

  // ---------------------------------------------------------------- optional pieces between spaces

  /**
   * `\s*` before an optional piece: handing a space to the `\s*` that follows
   * the piece leads to the same place, so the first `\s*` may take them all.
   */
  lemma SpacesBeforeOptional(p: Regex, b: Byte, k: Cont, s: Text, i: nat, caps: Captures)
    requires i <= |s| && NotSpaceLead(b)
    requires Consumes(p) && Avoids(p, Space) && Avoids(p, OneOf({b}))
    ensures Match(Ws(Do(Opt(p), Ws(Chr(b, k)))), s, i, caps)
         == Match(Do(Opt(p), Ws(Chr(b, k))), s, SkipWs(s, i), caps)
  {
    hide Match, MatchRegex, RegexSize, ContSize, Avoids;
    var tail := Ws(Chr(b, k));
    var opt := Do(Opt(p), tail);
    forall j: nat | i <= j <= |s| && Width(Space, s, j) > 0
      ensures Match(opt, s, j, caps).None? || Match(opt, s, j, caps) == Match(opt, s, RunEnd(Space, s, j), caps)
    {
      var e := SkipWs(s, j);
      AvoidedFails(p, tail, Space, s, j, caps);
      MatchAlt(p, Empty, tail, s, j, caps);
      MatchPlain(tail, s, j, caps);
      WsChrMatches(b, k, s, j, caps);
      if At(s, e, b) {
        assert Width(OneOf({b}), s, e) == 1;
        AvoidedFails(p, tail, OneOf({b}), s, e, caps);
        MatchAlt(p, Empty, tail, s, e, caps);
        MatchPlain(tail, s, e, caps);
        WsChrMatches(b, k, s, e, caps);
      }
    }
    StarCommits(Space, opt, s, i, caps);
  }

  // ---------------------------------------------------------------- bracketed spans

  /** `\[[c]*\]` */
  function Bracketed(c: Class): Regex {
    Cat(Atom(OneOf({OPEN_BRACKET})), Cat(Star(Atom(c), true), Atom(OneOf({CLOSE_BRACKET}))))
  }

  function BracketEnd(c: Class, s: Text, i: nat): (r: Option<nat>)
    ensures r.Some? ==> i < r.value <= |s|
  {
    if !At(s, i, OPEN_BRACKET) then None
    else
      var j := RunEnd(c, s, i + 1);
      if At(s, j, CLOSE_BRACKET) then Some(j + 1) else None
  }

  lemma BracketMatches(c: Class, k: Cont, s: Text, i: nat, caps: Captures)
    requires i <= |s| && Apart(OneOf({CLOSE_BRACKET}), c)
    ensures Match(Do(Bracketed(c), k), s, i, caps)
         == var e := BracketEnd(c, s, i); if e.Some? then Match(k, s, e.value, caps) else None
  {
    hide Match, MatchRegex, RegexSize, ContSize;
    var closing := Chr(CLOSE_BRACKET, k);
    var inside := Cat(Star(Atom(c), true), Atom(OneOf({CLOSE_BRACKET})));
    MatchCat(Atom(OneOf({OPEN_BRACKET})), inside, k, s, i, caps);
    ChrMatches(OPEN_BRACKET, Do(inside, k), s, i, caps);
    if At(s, i, OPEN_BRACKET) {
      MatchCat(Star(Atom(c), true), Atom(OneOf({CLOSE_BRACKET})), k, s, i + 1, caps);
      StartsApart(OneOf({CLOSE_BRACKET}), c, 0, k);
      StarTakesAll(c, closing, s, i + 1, caps);
      ChrMatches(CLOSE_BRACKET, k, s, RunEnd(c, s, i + 1), caps);
    }
  }

  /** A bracketed span starts with `[` and nothing else. */
  lemma BracketAvoids(c: Class, d: Class, n: nat)
    requires Apart(OneOf({OPEN_BRACKET}), d)
    ensures Avoids(Bracketed(c), d) && Consumes(Bracketed(c))
    ensures Avoids(Cap(n, Bracketed(c)), d) && Consumes(Cap(n, Bracketed(c)))
  {
    assert Avoids(Atom(OneOf({OPEN_BRACKET})), d) && Consumes(Atom(OneOf({OPEN_BRACKET})));
  }
}
