// The anchored initializer scans: `Type name[...] = {` and `Type *name[...] = {`.

module FnPtrSkeletons {
  import opened Wrappers
  import opened Chars
  import opened JsRegex
  import opened FnPtrPatterns
  import opened FnPtrSearch

  // ---------------------------------------------------------------- alternatives of literal words

  /** `w1|w2|...` */
  function AltOf(words: seq<Text>): Regex
    requires words != []
  {
    if |words| == 1 then Atom(Lit(words[0])) else Alt(Atom(Lit(words[0])), AltOf(words[1..]))
  }

  /** No two words begin with the same byte, so at most one can match at a place. */
  predicate DistinctStarts(words: seq<Text>) {
    && (forall a :: 0 <= a < |words| ==> words[a] != [] && IsWord(words[a][0]))
    && (forall a, b :: 0 <= a < b < |words| ==> words[a][0] != words[b][0])
  }

  /** The length of the first word that occurs at `i`, 0 when none does. */
  function FirstWord(words: seq<Text>, s: Text, i: nat): (w: nat)
    requires DistinctStarts(words)
    ensures w > 0 ==> i + w <= |s|
  {
    if words == [] then 0
    else if Occurs(s, words[0], i) then |words[0]|
    else FirstWord(words[1..], s, i)
  }

  lemma {:induction false} NoSecondWord(words: seq<Text>, s: Text, i: nat)
    requires DistinctStarts(words)
    requires i < |s| && forall a :: 0 <= a < |words| ==> words[a][0] != s[i]
    ensures FirstWord(words, s, i) == 0
    decreases |words|
  {
    if words != [] {
      if i + |words[0]| <= |s| {
        assert s[i] == s[i..i + |words[0]|][0];
      }
      NoSecondWord(words[1..], s, i);
    }
  }

  lemma {:induction false} AltOfMatches(words: seq<Text>, k: Cont, s: Text, i: nat, caps: Captures)
    requires i <= |s| && words != [] && DistinctStarts(words)
    ensures Match(Do(AltOf(words), k), s, i, caps)
         == var w := FirstWord(words, s, i); if w > 0 then Match(k, s, i + w, caps) else None
    decreases |words|
  {
    hide Match, MatchRegex, RegexSize, ContSize;
    MatchAtom(Lit(words[0]), k, s, i, caps);
    if |words| == 1 {
      assert FirstWord(words[1..], s, i) == 0;
    } else {
      MatchAlt(Atom(Lit(words[0])), AltOf(words[1..]), k, s, i, caps);
      AltOfMatches(words[1..], k, s, i, caps);
      if Occurs(s, words[0], i) {
        assert s[i] == s[i..i + |words[0]|][0];
        NoSecondWord(words[1..], s, i);
      }
    }
  }

  /** No word begins where a separator can. */
  predicate ApartFrom(words: seq<Text>, sep: Class) {
    forall a :: 0 <= a < |words| ==> Apart(Lit(words[a]), sep)
  }

  lemma {:induction false} AltOfAvoids(words: seq<Text>, sep: Class)
    requires words != [] && ApartFrom(words, sep)
    ensures Avoids(AltOf(words), sep) && Consumes(AltOf(words))
    decreases |words|
  {
    assert Apart(Lit(words[0]), sep);
    if |words| > 1 {
      AltOfAvoids(words[1..], sep);
    }
  }

  // ---------------------------------------------------------------- (?:(?:w1|w2|...)[sep]+)*

  /** One `(?:w1|w2|...)[sep]+` iteration. */
  function WordThen(words: seq<Text>, sep: Class): Regex
    requires words != []
  {
    Cat(AltOf(words), Plus(Atom(sep)))
  }

  /** Where one iteration from `i` ends, or None. */
  function NextWord(words: seq<Text>, sep: Class, s: Text, i: nat): (r: Option<nat>)
    requires i <= |s| && DistinctStarts(words)
    ensures r.Some? ==> i < r.value <= |s|
  {
    var w := FirstWord(words, s, i);
    if w == 0 then None
    else
      var e := RunEnd(sep, s, i + w);
      if e > i + w then Some(e) else None
  }

  /** The positions after 0, 1, 2, ... greedy iterations. */
  function Positions(words: seq<Text>, sep: Class, s: Text, i: nat): (ps: seq<nat>)
    requires i <= |s| && DistinctStarts(words)
    ensures ps != [] && ps[0] == i && forall j :: 0 <= j < |ps| ==> i <= ps[j] <= |s|
    decreases |s| - i
  {
    var n := NextWord(words, sep, s, i);
    [i] + (if n.Some? then Positions(words, sep, s, n.value) else [])
  }

  /** The last position at which the continuation succeeds: iterations are given back one by one. */
  ghost function LastSuccess(k: Cont, s: Text, ps: seq<nat>, caps: Captures): Option<Hit>
    requires forall j :: 0 <= j < |ps| ==> ps[j] <= |s|
  {
    if ps == [] then None
    else OrElse(LastSuccess(k, s, ps[1..], caps), Match(k, s, ps[0], caps))
  }

  /** One iteration is all or nothing when what follows cannot start on a separator. */
  lemma IterationMatches(words: seq<Text>, sep: Class, k: Cont, s: Text, i: nat, caps: Captures)
    requires i <= |s| && words != [] && DistinctStarts(words) && Rejects(k, sep)
    ensures Match(Do(WordThen(words, sep), k), s, i, caps)
         == var n := NextWord(words, sep, s, i); if n.Some? then Match(k, s, n.value, caps) else None
  {
    hide Match, MatchRegex, RegexSize, ContSize;
    MatchCat(AltOf(words), Plus(Atom(sep)), k, s, i, caps);
    AltOfMatches(words, Do(Plus(Atom(sep)), k), s, i, caps);
    var w := FirstWord(words, s, i);
    if w > 0 {
      PlusTakesAll(sep, k, s, i + w, caps);
    }
  }

  /** The greedy word loop backtracks exactly over its iteration count. */
  lemma {:induction false} IterationsBacktrack(
    words: seq<Text>, sep: Class, k: Cont, s: Text, i: nat, caps: Captures)
    requires i <= |s| && words != [] && DistinctStarts(words) && ApartFrom(words, sep) && Rejects(k, sep)
    ensures Match(Do(Star(WordThen(words, sep), true), k), s, i, caps)
         == LastSuccess(k, s, Positions(words, sep, s, i), caps)
    decreases |s| - i
  {
    hide Match, MatchRegex, RegexSize, ContSize;
    var body := WordThen(words, sep);
    var again := Loop(body, true, i, k);
    MatchStar(body, true, k, s, i, caps);
    AltOfAvoids(words, sep);
    assert Avoids(body, sep);
    assert Rejects(again, sep);
    IterationMatches(words, sep, again, s, i, caps);
    var n := NextWord(words, sep, s, i);
    var ps := Positions(words, sep, s, i);
    if n.Some? {
      MatchLoop(body, true, i, k, s, n.value, caps);
      IterationsBacktrack(words, sep, k, s, n.value, caps);
      assert ps[1..] == Positions(words, sep, s, n.value);
    } else {
      assert ps[1..] == [];
    }
  }

  /** A success found while giving iterations back is the match. */
  lemma {:induction false} SuffixDecides(k: Cont, s: Text, ps: seq<nat>, j: nat, caps: Captures)
    requires forall a :: 0 <= a < |ps| ==> ps[a] <= |s|
    requires j <= |ps| && LastSuccess(k, s, ps[j..], caps).Some?
    ensures LastSuccess(k, s, ps, caps) == LastSuccess(k, s, ps[j..], caps)
    decreases j
  {
    hide Match, MatchRegex, RegexSize, ContSize;
    if j == 0 {
      assert ps[0..] == ps;
    } else {
      assert ps[1..][j - 1..] == ps[j..];
      SuffixDecides(k, s, ps[1..], j - 1, caps);
    }
  }

  method SkipRun(c: Class, s: Text, from: nat) returns (i: nat)
    requires from <= |s|
    ensures i == RunEnd(c, s, from)
  {
    i := from;
    while Width(c, s, i) > 0
      invariant from <= i <= |s|
      invariant RunEnd(c, s, i) == RunEnd(c, s, from)
      decreases |s| - i
    {
      i := i + Width(c, s, i);
    }
  }

  /** One greedy iteration: the first word that occurs decides, with or without its separators. */
  method Advance(words: seq<Text>, sep: Class, s: Text, cur: nat) returns (advanced: Option<nat>)
    requires cur <= |s| && DistinctStarts(words)
    ensures advanced == NextWord(words, sep, s, cur)
  {
    advanced := None;
    var m := 0;
    while m < |words|
      invariant m <= |words| && advanced.None?
      invariant FirstWord(words, s, cur) == FirstWord(words[m..], s, cur)
    {
      assert words[m..][0] == words[m] && words[m..][1..] == words[m + 1..];
      if Occurs(s, words[m], cur) {
        var e := cur + |words[m]|;
        var w := SkipRun(sep, s, e);
        if w > e {
          advanced := Some(w);
        }
        return;
      }
      m := m + 1;
    }
  }

  lemma PositionsStep(words: seq<Text>, sep: Class, s: Text, i: nat)
    requires i <= |s| && DistinctStarts(words)
    ensures var n := NextWord(words, sep, s, i);
            Positions(words, sep, s, i)[1..] == if n.Some? then Positions(words, sep, s, n.value) else []
    ensures Positions(words, sep, s, i) == [i] + Positions(words, sep, s, i)[1..]
  {}

  method WordPositions(words: seq<Text>, sep: Class, s: Text, start: nat) returns (stack: seq<nat>)
    requires start <= |s| && DistinctStarts(words)
    ensures stack == Positions(words, sep, s, start)
  {
    hide NextWord, Positions, DistinctStarts;
    stack := [start];
    PositionsStep(words, sep, s, start);
    while true
      invariant stack != [] && start <= stack[|stack| - 1] <= |s|
      invariant Positions(words, sep, s, start) == stack + Positions(words, sep, s, stack[|stack| - 1])[1..]
      decreases |s| - stack[|stack| - 1]
    {
      var cur := stack[|stack| - 1];
      var advanced := Advance(words, sep, s, cur);
      PositionsStep(words, sep, s, cur);
      match advanced
      case Some(w) =>
        PositionsStep(words, sep, s, w);
        ghost var rest := Positions(words, sep, s, w)[1..];
        assert stack + ([w] + rest) == (stack + [w]) + rest;
        stack := stack + [w];
      case None => return;
    }
  }

  // ---------------------------------------------------------------- the tag keywords

  const TAGS: seq<Text> := [Ascii("struct"), Ascii("union")]

  lemma TagList()
    ensures |TAGS| == 2 && DistinctStarts(TAGS) && ApartFrom(TAGS, Space)
    ensures |TAGS[0]| == 6 && |TAGS[1]| == 5
    ensures forall a :: 0 <= a < 2 ==> IsWord(TAGS[a][0]) && IsWord(TAGS[a][|TAGS[a]| - 1])
  {}

  /** At most one of the two keywords occurs at a place. */
  lemma OneTag(s: Text, i: nat)
    ensures DistinctStarts(TAGS) && |TAGS| == 2
    ensures FirstWord(TAGS, s, i)
         == if Occurs(s, TAGS[0], i) then |TAGS[0]| else if Occurs(s, TAGS[1], i) then |TAGS[1]| else 0
    ensures !(Occurs(s, TAGS[0], i) && Occurs(s, TAGS[1], i))
  {
    TagList();
    if Occurs(s, TAGS[0], i) {
      assert s[i] == s[i..i + |TAGS[0]|][0];
    }
    if Occurs(s, TAGS[1], i) {
      assert s[i] == s[i..i + |TAGS[1]|][0];
    }
    assert TAGS[1..][0] == TAGS[1] && TAGS[1..][1..] == [];
    assert FirstWord(TAGS[1..][1..], s, i) == 0;
    assert FirstWord(TAGS[1..], s, i) == if Occurs(s, TAGS[1], i) then |TAGS[1]| else 0;
    assert TAGS[0][0] != TAGS[1][0];
  }
}
