// The initializer and array-table scans, anchored at the start or after `;`, `{`, `}`.

module FnPtrInitializers {
  import opened Wrappers
  import opened Chars
  import opened JsRegex
  import opened FnPtrPatterns
  import opened FnPtrSearch
  import opened FnPtrSkeletons

  const MODIFIERS: seq<Text> :=
    [Ascii("static"), Ascii("const"), Ascii("extern"), Ascii("register"), Ascii("volatile")]

  lemma ModifierList()
    ensures |MODIFIERS| == 5 && DistinctStarts(MODIFIERS) && ApartFrom(MODIFIERS, Space)
  {}

  /** What a body matcher reports: the token its captures render to, and the end of the match. */
  ghost predicate Reports(m: Option<Hit>, r: Option<(Text, nat)>, s: Text, render: (Text, Hit) -> seq<Text>) {
    && (m.Some? <==> r.Some?)
    && (r.Some? ==> m.value.end == r.value.1 && render(s, m.value) == [r.value.0])
  }

  // ---------------------------------------------------------------- \s*=\s*\{

  const BRACE_OPEN: Cont := Chr(OPEN_BRACE, Done)
  const ASSIGN: Cont := Ws(Chr(EQUALS, Ws(BRACE_OPEN)))

  function AssignEnd(s: Text, i: nat): (r: Option<nat>)
    requires i <= |s|
    ensures r.Some? ==> i < r.value <= |s|
  {
    var eq := SkipWs(s, i);
    if !At(s, eq, EQUALS) then None
    else
      var br := SkipWs(s, eq + 1);
      if At(s, br, OPEN_BRACE) then Some(br + 1) else None
  }

  lemma AssignMatches(s: Text, i: nat, caps: Captures)
    requires i <= |s|
    ensures Match(ASSIGN, s, i, caps)
         == var e := AssignEnd(s, i); if e.Some? then Some(Hit(e.value, caps)) else None
  {
    hide Match, MatchRegex, RegexSize, ContSize, SkipWs;
    WsChrMatches(EQUALS, Ws(BRACE_OPEN), s, i, caps);
    var eq := SkipWs(s, i);
    if At(s, eq, EQUALS) {
      WsChrMatches(OPEN_BRACE, Done, s, eq + 1, caps);
      if AssignEnd(s, i).Some? {
        MatchDone(s, AssignEnd(s, i).value, caps);
      }
    }
  }

  method AssignTail(s: Text, i: nat) returns (r: Option<nat>)
    requires i <= |s|
    ensures r == AssignEnd(s, i)
  {
    var eq := SkipJsws(s, i);
    if !At(s, eq, EQUALS) {
      return None;
    }
    var br := SkipJsws(s, eq + 1);
    if !At(s, br, OPEN_BRACE) {
      return None;
    }
    return Some(br + 1);
  }

  // ---------------------------------------------------------------- (\w+)\s+(\w+)\s*(\[[^\]]*\])?\s*=\s*\{

  const BRACKETS: Regex := Cap(3, Bracketed(NOT_CLOSE))
  const AFTER_NAME: Cont := Ws(Do(Opt(BRACKETS), ASSIGN))
  const INIT_NAME: Cont := WordCap(2, AFTER_NAME)
  const INIT_DECL: Cont := WordCap(1, Ws1(INIT_NAME))

  lemma InitPieces()
    ensures Consumes(BRACKETS) && Avoids(BRACKETS, Space) && Avoids(BRACKETS, OneOf({EQUALS}))
    ensures Rejects(AFTER_NAME, Word) && Rejects(INIT_NAME, Space)
    ensures Rejects(Ws1(INIT_NAME), Word) && Rejects(INIT_DECL, Space)
  {
    BracketAvoids(NOT_CLOSE, Space, 3);
    BracketAvoids(NOT_CLOSE, Word, 3);
    BracketAvoids(NOT_CLOSE, OneOf({EQUALS}), 3);
    WsChrRejectsWord(EQUALS, Ws(BRACE_OPEN));
    assert Avoids(Opt(BRACKETS), Word);
    assert Rejects(Do(Opt(BRACKETS), ASSIGN), Word);
    StartsApart(Space, Word, 0, Do(Opt(BRACKETS), ASSIGN));
    StartsApart(Word, Space, 2, AFTER_NAME);
    StartsApart(Space, Word, 0, INIT_NAME);
    StartsApart(Word, Space, 1, Ws1(INIT_NAME));
  }

  /** After the declared name: the brackets are tried first, then given back. */
  lemma AfterNameMatches(s: Text, ne: nat, caps: Captures)
    requires ne <= |s|
    ensures var r := SkipWs(s, ne);
            var b := BracketEnd(NOT_CLOSE, s, r);
            var inside := if b.Some? then AssignEnd(s, b.value) else None;
            var m := Match(AFTER_NAME, s, ne, caps);
            if inside.Some? then m == Some(Hit(inside.value, caps[3 := (r, b.value)]))
            else if AssignEnd(s, r).Some? then m == Some(Hit(AssignEnd(s, r).value, caps))
            else m.None?
  {
    hide Match, MatchRegex, RegexSize, ContSize, SkipWs, AssignEnd, BracketEnd, Avoids, Consumes;
    InitPieces();
    SpacesBeforeOptional(BRACKETS, EQUALS, Ws(BRACE_OPEN), s, ne, caps);
    var r := SkipWs(s, ne);
    MatchAlt(BRACKETS, Empty, ASSIGN, s, r, caps);
    MatchPlain(ASSIGN, s, r, caps);
    AssignMatches(s, r, caps);
    var close := Close(3, r, ASSIGN);
    MatchCap(3, Bracketed(NOT_CLOSE), ASSIGN, s, r, caps);
    BracketMatches(NOT_CLOSE, close, s, r, caps);
    var b := BracketEnd(NOT_CLOSE, s, r);
    if b.Some? {
      MatchClose(3, r, ASSIGN, s, b.value, caps);
      AssignMatches(s, b.value, caps[3 := (r, b.value)]);
    }
  }

  /** One attempt at the declaration; only the bracket group is a choice. */
  method InitDeclaration(s: Text, q: nat) returns (r: Option<(Text, nat)>)
    requires q <= |s|
    ensures r.Some? ==> q < r.value.1 <= |s|
    ensures Reports(Match(INIT_DECL, s, q, map[]), r, s, FirstGroup)
  {
    hide Match, MatchRegex, RegexSize, ContSize, Rejects, SkipWs, WordEnd, BracketEnd, AssignEnd;
    InitPieces();
    WordMatches(1, Ws1(INIT_NAME), s, q, map[]);
    if !IsWordAt(s, q) {
      return None;
    }
    var te := WordEndFrom(s, q);
    var token := s[q..te];
    ghost var caps: Captures := map[1 := (q, te)];
    Ws1Matches(INIT_NAME, s, te, caps);
    var w := SkipJsws(s, te);
    if w == te {
      return None;
    }
    WordMatches(2, AFTER_NAME, s, w, caps);
    if !IsWordAt(s, w) {
      return None;
    }
    var ne := WordEndFrom(s, w);
    AfterNameMatches(s, ne, caps[2 := (w, ne)]);
    var at := SkipJsws(s, ne);
    var bracket := BracketSpan(s, at);
    if bracket.Some? {
      var end := AssignTail(s, bracket.value);
      if end.Some? {
        return Some((token, end.value));
      }
    }
    var end := AssignTail(s, at);
    if end.Some? {
      return Some((token, end.value));
    }
    return None;
  }

  // ---------------------------------------------------------------- \s*(?:MOD\s+)*(?:(?:struct|union)\s+)? ...

  const TAG: Regex := WordThen(TAGS, Space)
  const TAGGED_DECL: Cont := Do(Opt(TAG), INIT_DECL)
  const INIT_BODY: Cont := Ws(Do(Star(WordThen(MODIFIERS, Space), true), TAGGED_DECL))

  /** The declaration after the tag keyword `word` at `pos`, when the keyword and its space are there. */
  ghost function AfterTag(word: Text, s: Text, pos: nat): Option<Hit>
    requires pos <= |s|
  {
    if Occurs(s, word, pos) && SkipWs(s, pos + |word|) > pos + |word|
    then Match(INIT_DECL, s, SkipWs(s, pos + |word|), map[])
    else None
  }

  /** `struct`, then `union`, then no keyword at all. */
  lemma TagBacktracks(s: Text, pos: nat)
    requires pos <= |s|
    ensures |TAGS| == 2
    ensures Match(TAGGED_DECL, s, pos, map[])
         == OrElse(AfterTag(TAGS[0], s, pos),
                   OrElse(AfterTag(TAGS[1], s, pos), Match(INIT_DECL, s, pos, map[])))
  {
    hide Match, MatchRegex, RegexSize, ContSize, Rejects, FirstWord, Occurs;
    OneTag(s, pos);
    InitPieces();
    MatchAlt(TAG, Empty, INIT_DECL, s, pos, map[]);
    MatchPlain(INIT_DECL, s, pos, map[]);
    IterationMatches(TAGS, Space, INIT_DECL, s, pos, map[]);
  }

  method TaggedDeclaration(s: Text, pos: nat) returns (r: Option<(Text, nat)>)
    requires pos <= |s|
    ensures r.Some? ==> pos < r.value.1 <= |s|
    ensures Reports(Match(TAGGED_DECL, s, pos, map[]), r, s, FirstGroup)
  {
    hide Match, MatchRegex, RegexSize, ContSize, SkipWs, TAGGED_DECL, INIT_DECL;
    TagBacktracks(s, pos);
    TagList();
    var keyword := 0;
    while keyword < 2
      invariant keyword <= 2
      invariant forall a :: 0 <= a < keyword ==> AfterTag(TAGS[a], s, pos).None?
    {
      if Occurs(s, TAGS[keyword], pos) {
        var e := pos + |TAGS[keyword]|;
        var w := SkipJsws(s, e);
        if w > e {
          r := InitDeclaration(s, w);
          if r.Some? {
            return;
          }
        }
      }
      keyword := keyword + 1;
    }
    r := InitDeclaration(s, pos);
  }

  lemma ModifiersReject(k: Cont)
    requires Rejects(k, Space)
    ensures DistinctStarts(MODIFIERS)
    ensures Rejects(Do(Star(WordThen(MODIFIERS, Space), true), k), Space)
  {
    ModifierList();
    AltOfAvoids(MODIFIERS, Space);
    assert Avoids(WordThen(MODIFIERS, Space), Space);
    assert Avoids(Star(WordThen(MODIFIERS, Space), true), Space);
  }

  lemma TaggedRejects()
    ensures Rejects(TAGGED_DECL, Space)
  {
    TagList();
    InitPieces();
    AltOfAvoids(TAGS, Space);
    assert Avoids(TAG, Space);
    assert Avoids(Opt(TAG), Space);
  }

  lemma InitBodyMatches(s: Text, p: nat)
    requires p <= |s|
    ensures DistinctStarts(MODIFIERS)
    ensures Match(INIT_BODY, s, p, map[])
         == LastSuccess(TAGGED_DECL, s, Positions(MODIFIERS, Space, s, SkipWs(s, p)), map[])
  {
    hide Match, MatchRegex, RegexSize, ContSize, Rejects, Positions, LastSuccess;
    ModifierList();
    TaggedRejects();
    ModifiersReject(TAGGED_DECL);
    StarTakesAll(Space, Do(Star(WordThen(MODIFIERS, Space), true), TAGGED_DECL), s, p, map[]);
    IterationsBacktrack(MODIFIERS, Space, TAGGED_DECL, s, SkipWs(s, p), map[]);
  }

  /** The initializer body: modifiers are given back last to first, each with its tag choices. */
  method InitBody(s: Text, p: nat) returns (r: Option<(Text, nat)>)
    requires p <= |s|
    ensures r.Some? ==> p < r.value.1 <= |s|
    ensures Reports(Match(INIT_BODY, s, p, map[]), r, s, FirstGroup)
  {
    hide Match, MatchRegex, RegexSize, ContSize, INIT_BODY, TAGGED_DECL, Positions;
    InitBodyMatches(s, p);
    var i := SkipJsws(s, p);
    var mods := WordPositions(MODIFIERS, Space, s, i);
    var k: nat := |mods|;
    while k > 0
      invariant 0 <= k <= |mods|
      invariant LastSuccess(TAGGED_DECL, s, mods[k..], map[]).None?
    {
      k := k - 1;
      assert mods[k..][0] == mods[k] && mods[k..][1..] == mods[k + 1..];
      r := TaggedDeclaration(s, mods[k]);
      if r.Some? {
        SuffixDecides(TAGGED_DECL, s, mods, k, map[]);
        return;
      }
    }
    assert mods[0..] == mods;
    return None;
  }

  // ---------------------------------------------------------------- (\w+)\s+(\*\s*)?(\w+)\s*\[[^\]]*\]\s*=\s*\{

  const STARRED: Regex := Cap(2, Cat(Atom(OneOf({STAR})), Star(Atom(Space), true)))
  const TABLE_BRACKETS: Cont := Do(Bracketed(NOT_CLOSE), ASSIGN)
  const TABLE_NAME: Cont := WordCap(3, Ws(TABLE_BRACKETS))
  const TABLE_ELEMENT: Cont := Do(Opt(STARRED), TABLE_NAME)
  const TABLE_DECL: Cont := WordCap(1, Ws1(TABLE_ELEMENT))
  const TABLE_BODY: Cont := Ws(Do(Star(WordThen(MODIFIERS, Space), true), TABLE_DECL))

  /** The element type, prefixed with `*` when the declarator carried the star. */
  ghost function TableToken(s: Text, h: Hit): seq<Text> {
    [(if 2 in h.caps then [STAR] else []) + Group(s, h, 1)]
  }

  lemma TablePieces()
    ensures Rejects(TABLE_BRACKETS, Space) && Rejects(Ws(TABLE_BRACKETS), Word)
    ensures Rejects(TABLE_NAME, Space) && Rejects(TABLE_ELEMENT, Space)
    ensures Rejects(Ws1(TABLE_ELEMENT), Word) && Rejects(TABLE_DECL, Space)
  {
    BracketAvoids(NOT_CLOSE, Space, 0);
    BracketAvoids(NOT_CLOSE, Word, 0);
    StartsApart(Space, Word, 0, TABLE_BRACKETS);
    StartsApart(Word, Space, 3, Ws(TABLE_BRACKETS));
    assert Avoids(Atom(OneOf({STAR})), Space) && Consumes(Atom(OneOf({STAR})));
    assert Avoids(STARRED, Space);
    assert Avoids(Opt(STARRED), Space);
    StartsApart(Space, Word, 0, TABLE_ELEMENT);
    StartsApart(Word, Space, 1, Ws1(TABLE_ELEMENT));
  }

  /** Where the table's name, brackets and `= {` end, from the name on. */
  function TableNameEnd(s: Text, q: nat): (r: Option<(Range, nat)>)
    requires q <= |s|
    ensures r.Some? ==> q < r.value.1 <= |s|
  {
    if !IsWordAt(s, q) then None
    else
      var b := BracketEnd(NOT_CLOSE, s, SkipWs(s, WordEnd(s, q)));
      var e := if b.Some? then AssignEnd(s, b.value) else None;
      if e.Some? then Some(((q, WordEnd(s, q)), e.value)) else None
  }

  lemma TableNameMatches(s: Text, q: nat, caps: Captures)
    requires q <= |s|
    ensures Match(TABLE_NAME, s, q, caps)
         == var e := TableNameEnd(s, q);
            if e.Some? then Some(Hit(e.value.1, caps[3 := e.value.0])) else None
  {
    hide Match, MatchRegex, RegexSize, ContSize, Rejects, SkipWs, WordEnd, BracketEnd, AssignEnd;
    TablePieces();
    WordMatches(3, Ws(TABLE_BRACKETS), s, q, caps);
    if IsWordAt(s, q) {
      var ne := WordEnd(s, q);
      var named := caps[3 := (q, ne)];
      StarTakesAll(Space, TABLE_BRACKETS, s, ne, named);
      assert RunEnd(Space, s, ne) == SkipWs(s, ne) by { SkipWsIsRun(s, ne); }
      BracketMatches(NOT_CLOSE, ASSIGN, s, SkipWs(s, ne), named);
      var b := BracketEnd(NOT_CLOSE, s, SkipWs(s, ne));
      if b.Some? {
        AssignMatches(s, b.value, named);
      }
    }
  }

  method TableName(s: Text, q: nat) returns (r: Option<nat>)
    requires q <= |s|
    ensures r.Some? <==> TableNameEnd(s, q).Some?
    ensures r.Some? ==> r.value == TableNameEnd(s, q).value.1
  {
    if !IsWordAt(s, q) {
      return None;
    }
    var ne := WordEndFrom(s, q);
    var at := SkipJsws(s, ne);
    var bracket := BracketSpan(s, at);
    if bracket.None? {
      return None;
    }
    r := AssignTail(s, bracket.value);
  }

  /** The pointer star is tried first; without it the name cannot start on the star. */
  lemma TableElementMatches(s: Text, w: nat, caps: Captures)
    requires w <= |s|
    ensures var q := if At(s, w, STAR) then SkipWs(s, w + 1) else w;
            var starred := if At(s, w, STAR) then caps[2 := (w, q)] else caps;
            Match(TABLE_ELEMENT, s, w, caps) == Match(TABLE_NAME, s, q, starred)
  {
    hide Match, MatchRegex, RegexSize, ContSize, Rejects, SkipWs;
    TablePieces();
    var close := Close(2, w, TABLE_NAME);
    MatchAlt(STARRED, Empty, TABLE_NAME, s, w, caps);
    MatchPlain(TABLE_NAME, s, w, caps);
    MatchCap(2, Cat(Atom(OneOf({STAR})), Star(Atom(Space), true)), TABLE_NAME, s, w, caps);
    MatchCat(Atom(OneOf({STAR})), Star(Atom(Space), true), close, s, w, caps);
    ChrMatches(STAR, Do(Star(Atom(Space), true), close), s, w, caps);
    if At(s, w, STAR) {
      assert Rejects(close, Space) by { CloseRejects(2, w, TABLE_NAME, Space); }
      StarTakesAll(Space, close, s, w + 1, caps);
      SkipWsIsRun(s, w + 1);
      MatchClose(2, w, TABLE_NAME, s, SkipWs(s, w + 1), caps);
      TableNameMatches(s, w, caps);
    }
  }

  method TableDeclaration(s: Text, pos: nat) returns (r: Option<(Text, nat)>)
    requires pos <= |s|
    ensures r.Some? ==> pos < r.value.1 <= |s|
    ensures Reports(Match(TABLE_DECL, s, pos, map[]), r, s, TableToken)
  {
    hide Match, MatchRegex, RegexSize, ContSize, Rejects, SkipWs, WordEnd, TableNameEnd;
    TablePieces();
    WordMatches(1, Ws1(TABLE_ELEMENT), s, pos, map[]);
    if !IsWordAt(s, pos) {
      return None;
    }
    var te := WordEndFrom(s, pos);
    ghost var caps: Captures := map[1 := (pos, te)];
    Ws1Matches(TABLE_ELEMENT, s, te, caps);
    var w := SkipJsws(s, te);
    if w == te {
      return None;
    }
    TableElementMatches(s, w, caps);
    if At(s, w, STAR) {
      var q := SkipJsws(s, w + 1);
      TableNameMatches(s, q, caps[2 := (w, q)]);
      var end := TableName(s, q);
      if end.Some? {
        return Some(([STAR] + s[pos..te], end.value));
      }
    } else {
      TableNameMatches(s, w, caps);
      var end := TableName(s, w);
      if end.Some? {
        assert [] + s[pos..te] == s[pos..te];
        return Some((s[pos..te], end.value));
      }
    }
    return None;
  }

  lemma TableBodyMatches(s: Text, p: nat)
    requires p <= |s|
    ensures DistinctStarts(MODIFIERS)
    ensures Match(TABLE_BODY, s, p, map[])
         == LastSuccess(TABLE_DECL, s, Positions(MODIFIERS, Space, s, SkipWs(s, p)), map[])
  {
    hide Match, MatchRegex, RegexSize, ContSize, Rejects, Positions, LastSuccess;
    ModifierList();
    TablePieces();
    ModifiersReject(TABLE_DECL);
    StarTakesAll(Space, Do(Star(WordThen(MODIFIERS, Space), true), TABLE_DECL), s, p, map[]);
    IterationsBacktrack(MODIFIERS, Space, TABLE_DECL, s, SkipWs(s, p), map[]);
  }

  /** The array-table body: modifiers are given back last to first. */
  method TableBody(s: Text, p: nat) returns (r: Option<(Text, nat)>)
    requires p <= |s|
    ensures r.Some? ==> p < r.value.1 <= |s|
    ensures Reports(Match(TABLE_BODY, s, p, map[]), r, s, TableToken)
  {
    hide Match, MatchRegex, RegexSize, ContSize, TABLE_BODY, TABLE_DECL, Positions;
    TableBodyMatches(s, p);
    var i := SkipJsws(s, p);
    var mods := WordPositions(MODIFIERS, Space, s, i);
    var k: nat := |mods|;
    while k > 0
      invariant 0 <= k <= |mods|
      invariant LastSuccess(TABLE_DECL, s, mods[k..], map[]).None?
    {
      k := k - 1;
      assert mods[k..][0] == mods[k] && mods[k..][1..] == mods[k + 1..];
      r := TableDeclaration(s, mods[k]);
      if r.Some? {
        SuffixDecides(TABLE_DECL, s, mods, k, map[]);
        return;
      }
    }
    assert mods[0..] == mods;
    return None;
  }

  // ---------------------------------------------------------------- (?:^|[;{}]) body

  datatype Skeleton = Initializer | ArrayTable {
    function Body(): Cont {
      match this
      case Initializer => INIT_BODY
      case ArrayTable => TABLE_BODY
    }

    ghost function Render(): (Text, Hit) -> seq<Text> {
      match this
      case Initializer => FirstGroup
      case ArrayTable => TableToken
    }

    method BodyAt(s: Text, p: nat) returns (r: Option<(Text, nat)>)
      requires p <= |s|
      ensures r.Some? ==> p < r.value.1 <= |s|
      ensures Reports(Match(Body(), s, p, map[]), r, s, Render())
    {
      hide Match, MatchRegex, RegexSize, ContSize;
      match this
      case Initializer => r := InitBody(s, p);
      case ArrayTable => r := TableBody(s, p);
    }
  }

  const ANCHOR: Class := OneOf({SEMICOLON, OPEN_BRACE, CLOSE_BRACE})

  function Anchored(k: Cont): Cont { Do(Alt(Begin, Atom(ANCHOR)), k) }

  predicate IsAnchor(b: Byte) { b == SEMICOLON || b == OPEN_BRACE || b == CLOSE_BRACE }

  lemma AnchoredMatches(k: Cont, s: Text, i: nat)
    requires i <= |s|
    ensures Match(Anchored(k), s, i, map[])
         == OrElse(if i == 0 then Match(k, s, 0, map[]) else None,
                   if i < |s| && IsAnchor(s[i]) then Match(k, s, i + 1, map[]) else None)
  {
    hide Match, MatchRegex, RegexSize, ContSize;
    MatchAlt(Begin, Atom(ANCHOR), k, s, i, map[]);
    MatchPlain(k, s, i, map[]);
    MatchAtom(ANCHOR, k, s, i, map[]);
  }

  method ScanAnchored(skeleton: Skeleton, s: Text) returns (out: seq<Text>)
    ensures out == Tokens(AllMatches(Anchored(skeleton.Body()), s, 0), s, skeleton.Render())
  {
    hide Match, MatchRegex, RegexSize, ContSize, AllMatches, Anchored, Group, TableToken, FirstGroup;
    ghost var k, pattern, render := skeleton.Body(), Anchored(skeleton.Body()), skeleton.Render();
    out := [];
    var p := 0;
    var first := skeleton.BodyAt(s, 0);
    AnchoredMatches(k, s, 0);
    if first.Some? {
      TakeMatch(pattern, s, 0, render);
      out := [first.value.0];
      p := first.value.1;
    }
    while p < |s|
      invariant p <= |s|
      invariant p == 0 ==> Match(k, s, 0, map[]).None?
      invariant Tokens(AllMatches(pattern, s, 0), s, render)
             == out + Tokens(AllMatches(pattern, s, p), s, render)
    {
      AnchoredMatches(k, s, p);
      if IsAnchor(s[p]) {
        var r := skeleton.BodyAt(s, p + 1);
        if r.Some? {
          TakeMatch(pattern, s, p, render);
          out := out + [r.value.0];
          p := r.value.1;
          continue;
        }
      }
      MissOne(pattern, s, p);
      p := p + 1;
    }
    AnchoredMatches(k, s, p);
    MissOne(pattern, s, p);
  }
}
