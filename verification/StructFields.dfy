// Structural parsing of a C struct body: brace matching, top-level splitting and field declarations.

module StructFields {
  import opened Wrappers
  import opened Chars
  import opened JsRegex
  import opened FnPtrPatterns
  import opened FnPtrSearch
  import opened FnPtrTypedefs

  // ---------------------------------------------------------------- brace matching

  function BraceStep(b: Byte): int {
    if b == OPEN_BRACE then 1 else if b == CLOSE_BRACE then -1 else 0
  }

  /** Opening minus closing braces in `s[lo..hi]`. */
  function Balance(s: Text, lo: nat, hi: nat): int
    requires lo <= hi <= |s|
    decreases hi
  {
    if lo == hi then 0 else Balance(s, lo, hi - 1) + BraceStep(s[hi - 1])
  }

  /** The closing brace at which the balance from `open` returns to zero, and no earlier one. */
  ghost predicate Closes(s: Text, open: nat, close: nat)
    requires open < |s|
  {
    && open < close < |s| && s[close] == CLOSE_BRACE
    && Balance(s, open, close + 1) == 0
    && forall j :: open < j <= close ==> Balance(s, open, j) > 0
  }

  method MatchBrace(s: Text, open: nat) returns (r: Option<nat>)
    requires open < |s| && s[open] == OPEN_BRACE
    ensures r.Some? ==> Closes(s, open, r.value)
    ensures r.None? ==> forall j :: open < j <= |s| ==> Balance(s, open, j) > 0
  {
    var depth := 0;
    var i := open;
    while i < |s|
      invariant open <= i <= |s|
      invariant depth == Balance(s, open, i)
      invariant forall j :: open < j <= i ==> Balance(s, open, j) > 0
    {
      if s[i] == OPEN_BRACE {
        depth := depth + 1;
      } else if s[i] == CLOSE_BRACE {
        depth := depth - 1;
        if depth == 0 {
          return Some(i);
        }
      }
      i := i + 1;
    }
    return None;
  }

  /** The matching brace is unique, and it is the least index at which the balance is back to zero. */
  lemma MatchingBraceIsLeast(s: Text, open: nat, close: nat, j: nat)
    requires open < |s| && Closes(s, open, close)
    requires open < j <= |s| && Balance(s, open, j) == 0
    ensures close + 1 <= j
  {}

  // ---------------------------------------------------------------- top-level splitting

  function Nesting(b: Byte): int {
    if b in {OPEN_BRACE, OPEN_PAREN, OPEN_BRACKET} then 1
    else if b in {CLOSE_BRACE, CLOSE_PAREN, CLOSE_BRACKET} then -1
    else 0
  }

  /** Bracket depth after the first `i` bytes. */
  function Depth(body: Text, i: nat): int
    requires i <= |body|
  {
    if i == 0 then 0 else Depth(body, i - 1) + Nesting(body[i - 1])
  }

  predicate IsCut(body: Text, sep: Byte, i: nat)
    requires i < |body|
  {
    Nesting(body[i]) == 0 && body[i] == sep && Depth(body, i) == 0
  }

  /** The pieces of `body[start..]` when everything before `i` is already known to hold no cut. */
  function Pieces(body: Text, sep: Byte, start: nat, i: nat): (ps: seq<Range>)
    requires start <= i <= |body|
    ensures ps != []
    ensures forall p :: p in ps ==> p.0 <= p.1 <= |body|
    decreases |body| - i
  {
    if i == |body| then [(start, i)]
    else if IsCut(body, sep, i) then [(start, i)] + Pieces(body, sep, i + 1, i + 1)
    else Pieces(body, sep, start, i + 1)
  }

  function Split(body: Text, sep: Byte): (ps: seq<Range>)
    ensures ps != [] && forall p :: p in ps ==> p.0 <= p.1 <= |body|
  {
    Pieces(body, sep, 0, 0)
  }

  method SplitTopLevel(body: Text, sep: Byte) returns (out: seq<Range>)
    ensures out == Split(body, sep)
  {
    out := [];
    var depth := 0;
    var start := 0;
    for i := 0 to |body|
      invariant start <= i
      invariant depth == Depth(body, i)
      invariant Split(body, sep) == out + Pieces(body, sep, start, i)
    {
      var c := body[i];
      if c in {OPEN_BRACE, OPEN_PAREN, OPEN_BRACKET} {
        depth := depth + 1;
      } else if c in {CLOSE_BRACE, CLOSE_PAREN, CLOSE_BRACKET} {
        depth := depth - 1;
      } else if c == sep && depth == 0 {
        out := out + [(start, i)];
        start := i + 1;
      }
    }
    out := out + [(start, |body|)];
  }

  /** The pieces put back together with the separator between them. */
  function Join(body: Text, sep: Byte, ps: seq<Range>): Text
    requires forall p :: p in ps ==> p.0 <= p.1 <= |body|
  {
    if ps == [] then []
    else if |ps| == 1 then body[ps[0].0..ps[0].1]
    else body[ps[0].0..ps[0].1] + [sep] + Join(body, sep, ps[1..])
  }

  ghost predicate PieceIsWhole(body: Text, sep: Byte, p: Range) {
    && p.0 <= p.1 <= |body|
    && (forall i :: p.0 <= i < p.1 ==> !IsCut(body, sep, i))
    && (p.0 > 0 ==> IsCut(body, sep, p.0 - 1))
    && (p.1 < |body| ==> IsCut(body, sep, p.1))
  }

  lemma {:induction false} PiecesAreWhole(body: Text, sep: Byte, start: nat, i: nat)
    requires start <= i <= |body|
    requires forall j :: start <= j < i ==> !IsCut(body, sep, j)
    requires start > 0 ==> IsCut(body, sep, start - 1)
    ensures forall p :: p in Pieces(body, sep, start, i) ==> PieceIsWhole(body, sep, p)
    decreases |body| - i
  {
    hide IsCut;
    if i < |body| {
      if IsCut(body, sep, i) {
        PiecesAreWhole(body, sep, i + 1, i + 1);
      } else {
        PiecesAreWhole(body, sep, start, i + 1);
      }
    }
  }

  lemma {:induction false} PiecesRejoin(body: Text, sep: Byte, start: nat, i: nat)
    requires start <= i <= |body|
    ensures Join(body, sep, Pieces(body, sep, start, i)) == body[start..]
    decreases |body| - i
  {
    hide Depth, Nesting;
    if i < |body| {
      if IsCut(body, sep, i) {
        var rest := Pieces(body, sep, i + 1, i + 1);
        PiecesRejoin(body, sep, i + 1, i + 1);
        assert Pieces(body, sep, start, i)[1..] == rest;
        assert body[start..] == body[start..i] + [sep] + body[i + 1..];
      } else {
        PiecesRejoin(body, sep, start, i + 1);
      }
    }
  }

  /**
   * Splitting loses nothing: rejoining gives the body back, every piece lies
   * between two consecutive depth-0 separators, and contains none.
   */
  lemma SplitRejoins(body: Text, sep: Byte)
    ensures forall p :: p in Split(body, sep) ==> PieceIsWhole(body, sep, p)
    ensures Join(body, sep, Split(body, sep)) == body
  {
    PiecesAreWhole(body, sep, 0, 0);
    PiecesRejoin(body, sep, 0, 0);
    assert body[0..] == body;
  }

  // ---------------------------------------------------------------- trimming

  /** Past the leading spaces of `s[a..b]`. */
  function TrimStart(s: Text, a: nat, b: nat): (r: nat)
    requires a <= b <= |s|
    ensures a <= r <= b
    decreases b - a
  {
    var l := JswsLen(s, a);
    if l == 0 || a + l > b then a else TrimStart(s, a + l, b)
  }

  /** The end of the last non-space in `s[i..b]`, or `last` when there is none. */
  function TrimEnd(s: Text, i: nat, b: nat, last: nat): (r: nat)
    requires last <= i && last <= b <= |s|
    ensures last <= r <= b
    decreases b - i
  {
    if i >= b then last
    else
      var l := JswsLen(s, i);
      if l == 0 then TrimEnd(s, i + 1, b, i + 1) else TrimEnd(s, i + l, b, last)
  }

  function Trimmed(s: Text, r: Range): (t: Range)
    requires r.0 <= r.1 <= |s|
    ensures r.0 <= t.0 <= t.1 <= r.1
  {
    var a := TrimStart(s, r.0, r.1);
    (a, TrimEnd(s, a, r.1, a))
  }

  /** White-space characters fill exactly `[i, j)`. */
  predicate WhiteSpan(s: Text, i: nat, j: nat)
    decreases j - i
  {
    i == j || (i < j && JswsLen(s, i) > 0 && WhiteSpan(s, i + JswsLen(s, i), j))
  }

  /** No white-space character of `[a, e)` reaches past `e`. */
  predicate Cut(s: Text, a: nat, e: nat) { forall k: nat :: a <= k < e ==> k + JswsLen(s, k) <= e }

  /** No white-space character of `[a, e)` ends at `e`. */
  predicate EndsBare(s: Text, a: nat, e: nat) {
    forall k: nat :: a <= k < e && JswsLen(s, k) > 0 ==> k + JswsLen(s, k) != e
  }

  /** No white-space character begins inside another. */
  lemma NoneInside(s: Text, i: nat, k: nat)
    requires i < k < i + JswsLen(s, i)
    ensures JswsLen(s, k) == 0
  {}

  lemma {:induction false} SpanMore(s: Text, i: nat, j: nat)
    requires WhiteSpan(s, i, j) && JswsLen(s, j) > 0
    ensures WhiteSpan(s, i, j + JswsLen(s, j))
    decreases j - i
  {
    if i < j {
      SpanMore(s, i + JswsLen(s, i), j);
    }
  }

  lemma {:induction false} StartIsWhite(s: Text, a: nat, b: nat)
    requires a <= b <= |s|
    ensures WhiteSpan(s, a, TrimStart(s, a, b))
    ensures var t := TrimStart(s, a, b); JswsLen(s, t) == 0 || t + JswsLen(s, t) > b
    decreases b - a
  {
    var l := JswsLen(s, a);
    if l != 0 && a + l <= b {
      StartIsWhite(s, a + l, b);
    }
  }

  /** Scanning on from `i`, with only white space since `last`. */
  lemma {:induction false} EndIsWhite(s: Text, a: nat, i: nat, b: nat, last: nat)
    requires a <= last <= i && last <= b <= |s| && WhiteSpan(s, last, i) && Cut(s, a, i) && EndsBare(s, a, last)
    ensures var t := TrimEnd(s, i, b, last);
            EndsBare(s, a, t) && exists e :: e >= b && WhiteSpan(s, t, e)
    decreases b - i
  {
    hide JswsLen;
    if i < b {
      var l := JswsLen(s, i);
      if l == 0 {
        EndIsWhite(s, a, i + 1, b, i + 1);
      } else {
        SpanMore(s, last, i);
        forall k: nat | a <= k < i + l ensures k + JswsLen(s, k) <= i + l {
          if i < k {
            NoneInside(s, i, k);
          }
        }
        EndIsWhite(s, a, i + l, b, last);
      }
    }
  }

  /** What is left neither begins nor ends with white space, and everything cut off is white space. */
  lemma TrimmedExact(s: Text, r: Range)
    requires r.0 <= r.1 <= |s|
    ensures var t := Trimmed(s, r);
            && WhiteSpan(s, r.0, t.0) && (exists e :: e >= r.1 && WhiteSpan(s, t.1, e))
            && (t.0 < t.1 ==> JswsLen(s, t.0) == 0) && EndsBare(s, t.0, t.1)
  {
    var a := TrimStart(s, r.0, r.1);
    StartIsWhite(s, r.0, r.1);
    EndIsWhite(s, a, a, r.1, a);
    if JswsLen(s, a) > 0 && a < r.1 {
      assert TrimEnd(s, a, r.1, a) == a;
    }
  }

  method JswsTrim(s: Text, a0: nat, b0: nat) returns (r: Range)
    requires a0 <= b0 <= |s|
    ensures r == Trimmed(s, (a0, b0))
  {
    var a := a0;
    while true
      invariant a0 <= a <= b0
      invariant TrimStart(s, a0, b0) == TrimStart(s, a, b0)
      decreases b0 - a
    {
      var l := JswsLen(s, a);
      if l == 0 || a + l > b0 {
        break;
      }
      a := a + l;
    }
    var i := a;
    var lastEnd := a;
    while i < b0
      invariant a <= lastEnd <= i && lastEnd <= b0
      invariant TrimEnd(s, a, b0, a) == TrimEnd(s, i, b0, lastEnd)
    {
      var l := JswsLen(s, i);
      if l == 0 {
        i := i + 1;
        lastEnd := i;
      } else {
        i := i + l;
      }
    }
    return (a, lastEnd);
  }

  // ---------------------------------------------------------------- (\w+)\s+\**\s*(\w+)\s*$

  const STARS: Class := OneOf({STAR})

  const PART_END: Cont := Ws(Do(End, Done))
  const TYPED_NAME: Cont := Ws(WordCap(2, PART_END))
  const POINTERS: Cont := Do(Star(Atom(STARS), true), TYPED_NAME)
  const TYPED: Cont := WordCap(1, Ws1(POINTERS))

  lemma PartEndMatches(s: Text, i: nat, caps: Captures)
    requires i <= |s|
    ensures Match(PART_END, s, i, caps) == if SkipWs(s, i) == |s| then Some(Hit(|s|, caps)) else None
  {
    hide Match, MatchRegex, RegexSize, ContSize;
    var k := Do(End, Done);
    forall j: nat | i <= j <= |s| && Width(Space, s, j) > 0 ensures Match(k, s, j, caps).None? {
      MatchPlain(Done, s, j, caps);
    }
    StarCommits(Space, k, s, i, caps);
    SkipWsIsRun(s, i);
    MatchPlain(Done, s, SkipWs(s, i), caps);
    MatchDone(s, SkipWs(s, i), caps);
  }

  /** The name that must reach the end of the part. */
  lemma LastNameMatches(s: Text, i: nat, caps: Captures)
    requires i <= |s|
    ensures Match(WordCap(2, PART_END), s, i, caps)
         == if IsWordAt(s, i) && SkipWs(s, WordEnd(s, i)) == |s|
            then Some(Hit(|s|, caps[2 := (i, WordEnd(s, i))]))
            else None
  {
    hide Match, MatchRegex, RegexSize, ContSize;
    var close := Close(2, i, PART_END);
    MatchCap(2, Plus(Atom(Word)), PART_END, s, i, caps);
    forall j: nat | i <= j <= |s| && Width(Word, s, j) > 0 ensures Match(close, s, j, caps).None? {
      MatchClose(2, i, PART_END, s, j, caps);
      PartEndMatches(s, j, caps[2 := (i, j)]);
      assert SkipWs(s, j) == j;
    }
    PlusCommits(Word, close, s, i, caps);
    assert Width(Word, s, i) > 0 <==> IsWordAt(s, i);
    var e := WordEnd(s, i);
    MatchClose(2, i, PART_END, s, e, caps);
    PartEndMatches(s, e, caps[2 := (i, e)]);
  }

  lemma TypedNameMatches(s: Text, i: nat, caps: Captures)
    requires i <= |s|
    ensures Match(TYPED_NAME, s, i, caps) == Match(WordCap(2, PART_END), s, SkipWs(s, i), caps)
    ensures Rejects(TYPED_NAME, STARS)
  {
    hide Match, MatchRegex, RegexSize, ContSize;
    StartsApart(Word, Space, 2, PART_END);
    SkipWsIsRun(s, i);
    StarTakesAll(Space, WordCap(2, PART_END), s, i, caps);
    StartsApart(Word, STARS, 2, PART_END);
    StartsApart(Space, STARS, 0, WordCap(2, PART_END));
  }

  /** Spaces may be left to the second `\s*` only when there is no star, and then it makes no difference. */
  lemma PointersAbsorbSpaces(s: Text, i: nat, caps: Captures)
    requires i <= |s|
    ensures Absorbs(POINTERS, Space, s, i, caps)
    ensures Match(POINTERS, s, i, caps) == Match(TYPED_NAME, s, RunEnd(STARS, s, i), caps)
  {
    hide Match, MatchRegex, RegexSize, ContSize, Rejects;
    TypedNameMatches(s, i, caps);
    StarTakesAll(STARS, TYPED_NAME, s, i, caps);
    forall j: nat | i <= j <= |s| && Width(Space, s, j) > 0
      ensures Match(POINTERS, s, j, caps).None?
           || Match(POINTERS, s, j, caps) == Match(POINTERS, s, RunEnd(Space, s, j), caps)
    {
      var e := SkipWs(s, j);
      SkipWsIsRun(s, j);
      TypedNameMatches(s, j, caps);
      TypedNameMatches(s, e, caps);
      StarTakesAll(STARS, TYPED_NAME, s, j, caps);
      StarTakesAll(STARS, TYPED_NAME, s, e, caps);
      ApartNeverMeet(Space, STARS, s, j);
      assert RunEnd(STARS, s, j) == j;
      LastNameMatches(s, e, caps);
      if IsWordAt(s, e) {
        assert Width(STARS, s, e) == 0;
        assert RunEnd(STARS, s, e) == e;
        assert SkipWs(s, e) == e;
      }
    }
  }

  /** The typed declarator that starts at `p`: its type word and its name, the name reaching the end. */
  function TypedAt(s: Text, p: nat): Option<(Range, Range)>
    requires p <= |s|
  {
    if !IsWordAt(s, p) then None
    else
      var te := WordEnd(s, p);
      var w := SkipWs(s, te);
      var q := SkipWs(s, RunEnd(STARS, s, w));
      if w > te && IsWordAt(s, q) && SkipWs(s, WordEnd(s, q)) == |s|
      then Some(((p, te), (q, WordEnd(s, q))))
      else None
  }

  /** Greedy words, spaces and stars never backtrack usefully: one candidate per start. */
  lemma TypedMatches(s: Text, p: nat)
    requires p <= |s|
    ensures var t := TypedAt(s, p);
            Match(TYPED, s, p, map[])
              == if t.Some? then Some(Hit(|s|, map[1 := t.value.0, 2 := t.value.1])) else None
  {
    hide Match, MatchRegex, RegexSize, ContSize, Rejects;
    StartsApart(Space, Word, 0, POINTERS);
    WordMatches(1, Ws1(POINTERS), s, p, map[]);
    if IsWordAt(s, p) {
      var te := WordEnd(s, p);
      var caps: Captures := map[1 := (p, te)];
      PointersAbsorbSpaces(s, te, caps);
      PlusCommits(Space, POINTERS, s, te, caps);
      var w := SkipWs(s, te);
      SkipWsIsRun(s, te);
      PointersAbsorbSpaces(s, w, caps);
      TypedNameMatches(s, RunEnd(STARS, s, w), caps);
      LastNameMatches(s, SkipWs(s, RunEnd(STARS, s, w)), caps);
    }
  }

  method FirstTyped(part: Text) returns (r: Option<(Range, Range)>)
    ensures var f := Find(TYPED, part, 0);
            && (f.Some? <==> r.Some?)
            && (r.Some? ==> f.value.hit.caps == map[1 := r.value.0, 2 := r.value.1])
    ensures r.Some? ==> r.value.0.0 <= r.value.0.1 <= |part| && r.value.1.0 <= r.value.1.1 <= |part|
  {
    hide Match, MatchRegex, RegexSize, ContSize, SkipWs, WordEnd;
    var n := |part|;
    var p := 0;
    while p < n
      invariant p <= n
      invariant Find(TYPED, part, 0) == Find(TYPED, part, p)
    {
      TypedMatches(part, p);
      if IsWord(part[p]) {
        var te := WordEndFrom(part, p);
        var w := SkipJsws(part, te);
        if w > te {
          var q := w;
          while q < n && part[q] == STAR
            invariant w <= q <= n
            invariant RunEnd(STARS, part, w) == RunEnd(STARS, part, q)
          {
            q := q + 1;
          }
          q := SkipJsws(part, q);
          if IsWordAt(part, q) {
            var ne := WordEndFrom(part, q);
            var t := SkipJsws(part, ne);
            if t == n {
              return Some(((p, te), (q, ne)));
            }
          }
        }
      }
      FindSkipsMisses(TYPED, part, p, p + 1);
      p := p + 1;
    }
    TypedMatches(part, p);
    return None;
  }

  // ---------------------------------------------------------------- declarators

  /** `\(\s*(?:\w+\s+)*\*\s*(\w+)\s*\)\s*\(`, first match. */
  method FnptrDecl(part: Text) returns (r: Option<Range>)
    ensures var f := Find(PAREN_TAIL, part, 0);
            && (f.Some? <==> r.Some?)
            && (r.Some? ==> f.value.hit.caps == map[1 := r.value])
    ensures r.Some? ==> r.value.0 <= r.value.1 <= |part|
  {
    hide Match, MatchRegex, RegexSize, ContSize;
    ghost var rest := Ws(Do(Star(WORD_SPACE, true), STARRED_NAME));
    var i := 0;
    while i < |part|
      invariant i <= |part|
      invariant Find(PAREN_TAIL, part, 0) == Find(PAREN_TAIL, part, i)
    {
      ChrMatches(OPEN_PAREN, rest, part, i, map[]);
      if part[i] == OPEN_PAREN {
        var t := FnptrParenTail(part, i);
        if t.Some? {
          return Some(t.value.0);
        }
      }
      FindSkipsMisses(PAREN_TAIL, part, i, i + 1);
      i := i + 1;
    }
    ChrMatches(OPEN_PAREN, rest, part, i, map[]);
    return None;
  }

  const NAME_ONLY: Cont := Ws(WordCap(1, Done))

  /** `^\**\s*(\w+)` */
  const LATER_NAME: Cont := Do(Begin, Do(Star(Atom(STARS), true), NAME_ONLY))

  /** A final `(\w+)` with nothing after it takes its whole word. */
  lemma FinalWordMatches(s: Text, i: nat)
    requires i <= |s|
    ensures Match(WordCap(1, Done), s, i, map[])
         == if IsWordAt(s, i) then Some(Hit(WordEnd(s, i), map[1 := (i, WordEnd(s, i))])) else None
  {
    hide Match, MatchRegex, RegexSize, ContSize;
    var close := Close(1, i, Done);
    MatchCap(1, Plus(Atom(Word)), Done, s, i, map[]);
    MatchCat(Atom(Word), Star(Atom(Word), true), close, s, i, map[]);
    MatchAtom(Word, Do(Star(Atom(Word), true), close), s, i, map[]);
    if IsWordAt(s, i) {
      var e := RunEnd(Word, s, i + 1);
      MatchClose(1, i, Done, s, e, map[]);
      MatchDone(s, e, map[1 := (i, e)]);
      StarReachesEnd(Word, close, s, i + 1, map[]);
    }
  }

  lemma LaterNameMatches(s: Text)
    ensures var q := SkipWs(s, RunEnd(STARS, s, 0));
            Match(LATER_NAME, s, 0, map[])
              == if IsWordAt(s, q) then Some(Hit(WordEnd(s, q), map[1 := (q, WordEnd(s, q))])) else None
  {
    hide Match, MatchRegex, RegexSize, ContSize;
    MatchPlain(Do(Star(Atom(STARS), true), NAME_ONLY), s, 0, map[]);
    StartsApart(Word, STARS, 1, Done);
    StartsApart(Space, STARS, 0, WordCap(1, Done));
    StarTakesAll(STARS, NAME_ONLY, s, 0, map[]);
    var q0 := RunEnd(STARS, s, 0);
    StartsApart(Word, Space, 1, Done);
    SkipWsIsRun(s, q0);
    StarTakesAll(Space, WordCap(1, Done), s, q0, map[]);
    FinalWordMatches(s, SkipWs(s, q0));
  }

  method LaterName(p: Text) returns (r: Option<Range>)
    ensures var m := Match(LATER_NAME, p, 0, map[]);
            && (m.Some? <==> r.Some?)
            && (r.Some? ==> m.value.caps == map[1 := r.value])
    ensures r.Some? ==> r.value.0 <= r.value.1 <= |p|
  {
    hide Match, MatchRegex, RegexSize, ContSize, SkipWs, WordEnd;
    LaterNameMatches(p);
    var q := 0;
    while q < |p| && p[q] == STAR
      invariant q <= |p|
      invariant RunEnd(STARS, p, 0) == RunEnd(STARS, p, q)
    {
      q := q + 1;
    }
    q := SkipJsws(p, q);
    if !IsWordAt(p, q) {
      return None;
    }
    var e := WordEndFrom(p, q);
    return Some((q, e));
  }

  // ---------------------------------------------------------------- field declarations

  datatype RawField = RawField(name: Text, index: nat, ptr: bool, ty: Text)

  /** The name and type groups of the first typed declarator of a part, or nothing. */
  ghost function TypedOf(part: Text): Option<(Text, Text)> {
    var f := Find(TYPED, part, 0);
    if f.None? then None else Some((Group(part, f.value.hit, 1), Group(part, f.value.hit, 2)))
  }

  function Slice(s: Text, r: Range): Text
    requires r.0 <= r.1 <= |s|
  {
    s[r.0..r.1]
  }

  /**
   * The field of one comma part: a function pointer by its inner name; else
   * the first part by its typed declarator, a later part by its leading name
   * with the type of the first.
   */
  ghost function PartField(decl: Text, parts: seq<Range>, k: nat, index: nat): RawField
    requires k < |parts| && forall p :: p in parts ==> p.0 <= p.1 <= |decl|
  {
    var text := Slice(decl, Trimmed(decl, parts[k]));
    var pointer := Find(PAREN_TAIL, text, 0);
    var typed := TypedOf(Slice(decl, parts[0]));
    var later := Match(LATER_NAME, text, 0, map[]);
    if pointer.Some? then RawField(Group(text, pointer.value.hit, 1), index, true, [])
    else if k == 0 then
      if typed.Some? then RawField(typed.value.1, index, false, typed.value.0) else RawField([], index, false, [])
    else if later.Some? then
      RawField(Group(text, later.value, 1), index, false, if typed.Some? then typed.value.0 else [])
    else RawField([], index, false, [])
  }

  ghost function PartFields(decl: Text, parts: seq<Range>, k: nat, index: nat): (fs: seq<RawField>)
    requires k <= |parts| && forall p :: p in parts ==> p.0 <= p.1 <= |decl|
    ensures |fs| == |parts| - k
    decreases |parts| - k
  {
    if k == |parts| then []
    else [PartField(decl, parts, k, index)] + PartFields(decl, parts, k + 1, index + 1)
  }

  /** The fields of the declarations `pieces`, numbered from `index`. Blank declarations contribute none. */
  ghost function DeclFields(inner: Text, pieces: seq<Range>, index: nat): seq<RawField>
    requires forall p :: p in pieces ==> p.0 <= p.1 <= |inner|
  {
    if pieces == [] then []
    else
      var decl := Slice(inner, Trimmed(inner, pieces[0]));
      if decl == [] then DeclFields(inner, pieces[1..], index)
      else
        var parts := Split(decl, COMMA);
        PartFields(decl, parts, 0, index) + DeclFields(inner, pieces[1..], index + |parts|)
  }

  ghost function Fields(inner: Text): seq<RawField> {
    DeclFields(inner, Split(inner, SEMICOLON), 0)
  }

  /** Comma parts over all non-blank declarations. */
  function PartCount(inner: Text, pieces: seq<Range>): nat
    requires forall p :: p in pieces ==> p.0 <= p.1 <= |inner|
  {
    if pieces == [] then 0
    else
      var decl := Slice(inner, Trimmed(inner, pieces[0]));
      (if decl == [] then 0 else |Split(decl, COMMA)|) + PartCount(inner, pieces[1..])
  }

  lemma {:induction false} PartsNumbered(decl: Text, parts: seq<Range>, k: nat, index: nat)
    requires k <= |parts| && forall p :: p in parts ==> p.0 <= p.1 <= |decl|
    ensures forall j :: 0 <= j < |parts| - k ==> PartFields(decl, parts, k, index)[j].index == index + j
    decreases |parts| - k
  {
    hide Find, Match, Split;
    if k < |parts| {
      PartsNumbered(decl, parts, k + 1, index + 1);
    }
  }

  lemma {:induction false} DeclsNumbered(inner: Text, pieces: seq<Range>, index: nat)
    requires forall p :: p in pieces ==> p.0 <= p.1 <= |inner|
    ensures var fs := DeclFields(inner, pieces, index);
            && |fs| == PartCount(inner, pieces)
            && forall j :: 0 <= j < |fs| ==> fs[j].index == index + j
    decreases |pieces|
  {
    hide PartFields, Split;
    if pieces != [] {
      var decl := Slice(inner, Trimmed(inner, pieces[0]));
      if decl == [] {
        DeclsNumbered(inner, pieces[1..], index);
      } else {
        var parts := Split(decl, COMMA);
        PartsNumbered(decl, parts, 0, index);
        DeclsNumbered(inner, pieces[1..], index + |parts|);
      }
    }
  }

  /** Fields carry the indices 0, 1, 2, ... in order, one for each comma part of a non-blank declaration. */
  lemma FieldsNumbered(inner: Text)
    ensures |Fields(inner)| == PartCount(inner, Split(inner, SEMICOLON))
    ensures forall j :: 0 <= j < |Fields(inner)| ==> Fields(inner)[j].index == j
  {
    DeclsNumbered(inner, Split(inner, SEMICOLON), 0);
  }

  method ParsePart(decl: Text, parts: seq<Range>, k: nat, index: nat, typed: Option<(Range, Range)>)
    returns (field: RawField)
    requires k < |parts| && forall p :: p in parts ==> p.0 <= p.1 <= |decl|
    requires typed.Some? ==> typed.value.0.0 <= typed.value.0.1 <= parts[0].1 - parts[0].0
    requires typed.Some? ==> typed.value.1.0 <= typed.value.1.1 <= parts[0].1 - parts[0].0
    requires var f := Find(TYPED, Slice(decl, parts[0]), 0);
             && (f.Some? <==> typed.Some?)
             && (typed.Some? ==> f.value.hit.caps == map[1 := typed.value.0, 2 := typed.value.1])
    ensures field == PartField(decl, parts, k, index)
  {
    hide Find, Match, MatchRegex, RegexSize, ContSize;
    var part0 := Slice(decl, parts[0]);
    var shared := if typed.Some? then Slice(part0, typed.value.0) else [];
    var range := JswsTrim(decl, parts[k].0, parts[k].1);
    var p := Slice(decl, range);
    var pointer := FnptrDecl(p);
    if pointer.Some? {
      return RawField(Slice(p, pointer.value), index, true, []);
    }
    if k == 0 {
      return if typed.Some? then RawField(Slice(part0, typed.value.1), index, false, shared)
                            else RawField([], index, false, []);
    }
    var later := LaterName(p);
    return if later.Some? then RawField(Slice(p, later.value), index, false, shared)
                          else RawField([], index, false, []);
  }

  method ParseDeclaration(decl: Text, first: nat) returns (fields: seq<RawField>)
    ensures fields == PartFields(decl, Split(decl, COMMA), 0, first)
  {
    hide Find, Match, PartField, Split;
    var parts := SplitTopLevel(decl, COMMA);
    var typed := FirstTyped(Slice(decl, parts[0]));
    fields := [];
    for k := 0 to |parts|
      invariant PartFields(decl, parts, 0, first) == fields + PartFields(decl, parts, k, first + k)
    {
      var field := ParsePart(decl, parts, k, first + k, typed);
      fields := fields + [field];
    }
  }

  method ParseStructFieldsRaw(inner: Text) returns (fields: seq<RawField>)
    ensures fields == Fields(inner)
  {
    hide PartFields, Split, Trimmed;
    fields := [];
    var idx: nat := 0;
    var pieces := SplitTopLevel(inner, SEMICOLON);
    for i := 0 to |pieces|
      invariant Fields(inner) == fields + DeclFields(inner, pieces[i..], idx)
    {
      assert pieces[i..][0] == pieces[i] && pieces[i..][1..] == pieces[i + 1..];
      var range := JswsTrim(inner, pieces[i].0, pieces[i].1);
      if range.0 >= range.1 {
        continue;
      }
      var more := ParseDeclaration(Slice(inner, range), idx);
      fields := fields + more;
      idx := idx + |more|;
    }
    assert pieces[|pieces|..] == [];
  }
}
