// Typedef scans: `typedef ... (*name)(` and `typedef ... name(...);`.

module FnPtrTypedefs {
  import opened Wrappers
  import opened Chars
  import opened Seqs
  import opened JsRegex
  import opened FnPtrPatterns
  import opened FnPtrSearch

  const TYPEDEF: Text := Ascii("typedef")

  lemma TypedefIsWord()
    ensures |TYPEDEF| == 7 && IsWord(TYPEDEF[0]) && IsWord(TYPEDEF[|TYPEDEF| - 1])
  {}

  // ---------------------------------------------------------------- \(\s*(?:\w+\s+)*\*\s*(\w+)\s*\)\s*\(

  const CALL_OPEN: Cont := Chr(OPEN_PAREN, Done)
  const NAME_CLOSE: Cont := Chr(CLOSE_PAREN, Ws(CALL_OPEN))
  const NAME_TAIL: Cont := Ws(NAME_CLOSE)
  const STARRED_NAME: Cont := Chr(STAR, Ws(WordCap(1, NAME_TAIL)))
  const PAREN_TAIL: Cont := Chr(OPEN_PAREN, Ws(Do(Star(WORD_SPACE, true), STARRED_NAME)))

  /** The result a scan position stands for, in the pattern's terms. */
  function NameHit(r: Option<(Range, nat)>): Option<Hit> {
    if r.None? then None else Some(Hit(r.value.1, map[1 := r.value.0]))
  }

  lemma TailPieces()
    ensures Rejects(STARRED_NAME, Word) && Rejects(STARRED_NAME, Space)
    ensures Rejects(Do(Star(WORD_SPACE, true), STARRED_NAME), Space)
    ensures Rejects(NAME_TAIL, Word)
  {
    StartsApart(OneOf({STAR}), Space, 0, Ws(WordCap(1, NAME_TAIL)));
    StartsApart(OneOf({STAR}), Word, 0, Ws(WordCap(1, NAME_TAIL)));
    assert Avoids(Plus(Atom(Word)), Space) && Consumes(Plus(Atom(Word)));
    assert Avoids(Star(WORD_SPACE, true), Space);
    WsChrRejectsWord(CLOSE_PAREN, Ws(CALL_OPEN));
  }

  /** The tail up to and including the word loop. */
  lemma TailWords(s: Text, open: nat)
    requires open < |s| && s[open] == OPEN_PAREN
    ensures Match(PAREN_TAIL, s, open, map[])
         == Match(STARRED_NAME, s, WordsEnd(s, SkipWs(s, open + 1)), map[])
  {
    hide Match, MatchRegex, RegexSize, ContSize, Rejects;
    TailPieces();
    var words := Do(Star(WORD_SPACE, true), STARRED_NAME);
    ChrMatches(OPEN_PAREN, Ws(words), s, open, map[]);
    StarTakesAll(Space, words, s, open + 1, map[]);
    WordsCommit(STARRED_NAME, s, SkipWs(s, open + 1), map[]);
  }

  /** The paren tail: the greedy word loop commits, so a single pass decides the match. */
  method FnptrParenTail(s: Text, open: nat) returns (r: Option<(Range, nat)>)
    requires open < |s| && s[open] == OPEN_PAREN
    ensures r.Some? ==> open + 1 < r.value.1 <= |s| && r.value.0.0 < r.value.0.1 <= |s|
    ensures Match(PAREN_TAIL, s, open, map[]) == NameHit(r)
  {
    hide Match, MatchRegex, RegexSize, ContSize, Rejects, SkipWs, WordEnd, RunEnd, JswsLen, IsWord;
    TailPieces();
    var i := SkipJsws(s, open + 1);
    TailWords(s, open);
    while true
      invariant open + 1 <= i <= |s|
      invariant Match(PAREN_TAIL, s, open, map[]) == Match(STARRED_NAME, s, WordsEnd(s, i), map[])
      decreases |s| - i
    {
      if !IsWordAt(s, i) {
        break;
      }
      var we := WordEndFrom(s, i);
      var wse := SkipJsws(s, we);
      if wse == we {
        break;
      }
      i := wse;
    }
    ChrMatches(STAR, Ws(WordCap(1, NAME_TAIL)), s, i, map[]);
    if !At(s, i, STAR) {
      return None;
    }
    WsWordMatches(1, NAME_TAIL, s, i + 1, map[]);
    i := SkipJsws(s, i + 1);
    if !IsWordAt(s, i) {
      return None;
    }
    var ne := WordEndFrom(s, i);
    var name := (i, ne);
    WsChrMatches(CLOSE_PAREN, Ws(CALL_OPEN), s, ne, map[1 := name]);
    i := SkipJsws(s, ne);
    if !At(s, i, CLOSE_PAREN) {
      return None;
    }
    WsChrMatches(OPEN_PAREN, Done, s, i + 1, map[1 := name]);
    i := SkipJsws(s, i + 1);
    if !At(s, i, OPEN_PAREN) {
      return None;
    }
    MatchDone(s, i + 1, map[1 := name]);
    return Some((name, i + 1));
  }

  // ---------------------------------------------------------------- function-pointer typedefs

  const STATEMENT: Class := NoneOf({SEMICOLON, OPEN_BRACE, CLOSE_BRACE})

  /** `[^;{}]*?` up to a paren tail */
  const LAZY_TAIL: Cont := Do(Star(Atom(STATEMENT), false), PAREN_TAIL)

  /** `\btypedef\b[^;{}]*?\(\s*(?:\w+\s+)*\*\s*(\w+)\s*\)\s*\(` */
  const FNPTR_TYPEDEF: Cont := Keyword(TYPEDEF, LAZY_TAIL)

  /** The lazy prefix stops at the first tail that matches, or fails at `;`, `{`, `}` or the end. */
  method LazyTail(s: Text, from: nat) returns (matched: Option<(Range, nat)>)
    requires from <= |s|
    ensures matched.Some? ==> from < matched.value.1 <= |s| && matched.value.0.0 < matched.value.0.1 <= |s|
    ensures Match(LAZY_TAIL, s, from, map[]) == NameHit(matched)
  {
    hide Match, MatchRegex, RegexSize, ContSize;
    var j := from;
    matched := None;
    while j < |s|
      invariant from <= j <= |s| && matched.None?
      invariant Match(LAZY_TAIL, s, from, map[]) == Match(LAZY_TAIL, s, j, map[])
    {
      var ch := s[j];
      StarTurn(STATEMENT, false, PAREN_TAIL, s, j, map[]);
      ChrMatches(OPEN_PAREN, Ws(Do(Star(WORD_SPACE, true), STARRED_NAME)), s, j, map[]);
      if ch == SEMICOLON || ch == OPEN_BRACE || ch == CLOSE_BRACE {
        return;
      }
      if ch == OPEN_PAREN {
        matched := FnptrParenTail(s, j);
        if matched.Some? {
          return;
        }
      }
      j := j + 1;
    }
    StarTurn(STATEMENT, false, PAREN_TAIL, s, j, map[]);
    ChrMatches(OPEN_PAREN, Ws(Do(Star(WORD_SPACE, true), STARRED_NAME)), s, j, map[]);
  }

  method ScanFnptrTypedefs(s: Text) returns (out: seq<Text>)
    ensures out == Tokens(AllMatches(FNPTR_TYPEDEF, s, 0), s, FirstGroup)
  {
    hide Match, MatchRegex, RegexSize, ContSize, AllMatches, Find, Occurs, OccursWord, Ascii;
    TypedefIsWord();
    out := [];
    var last := 0;
    while true
      invariant last <= |s|
      invariant Tokens(AllMatches(FNPTR_TYPEDEF, s, 0), s, FirstGroup)
             == out + Tokens(AllMatches(FNPTR_TYPEDEF, s, last), s, FirstGroup)
      decreases |s| - last
    {
      var found := FindWord(s, TYPEDEF, last);
      if found.None? {
        KeywordNever(TYPEDEF, LAZY_TAIL, s, last);
        return;
      }
      var t := found.value;
      KeywordSkips(TYPEDEF, LAZY_TAIL, s, last, t);
      KeywordMatches(TYPEDEF, LAZY_TAIL, s, t, map[]);
      var matched := LazyTail(s, t + 7);
      match matched
      case Some((name, end)) =>
        TakeMatch(FNPTR_TYPEDEF, s, t, FirstGroup);
        out := out + [s[name.0..name.1]];
        last := end;
      case None =>
        MissOne(FNPTR_TYPEDEF, s, t);
        last := t + 1;
    }
  }

  // ---------------------------------------------------------------- function-type typedefs

  const STATEMENT_END: Cont := Chr(SEMICOLON, Done)

  /** `\btypedef\b([^;{}]*);` */
  const FNTYPE_TYPEDEF: Cont := Keyword(TYPEDEF, Do(Cap(1, Star(Atom(STATEMENT), true)), STATEMENT_END))

  /** `\b(\w+)\s*\(` */
  const CALLED_NAME: Cont := Do(Boundary, WordCap(1, Ws(CALL_OPEN)))

  const C_TYPE_KEYWORDS: seq<Text> := [
    Ascii("void"), Ascii("int"), Ascii("char"), Ascii("short"), Ascii("long"), Ascii("unsigned"),
    Ascii("signed"), Ascii("float"), Ascii("double"), Ascii("const"), Ascii("struct"), Ascii("union"),
    Ascii("enum"), Ascii("static"), Ascii("volatile"), Ascii("register"), Ascii("inline")
  ]

  const PAREN_STAR: Text := Ascii("(*")
  const PAREN_SPACE_STAR: Text := Ascii("( *")

  ghost predicate Contains(s: Text, needle: Text) {
    exists i: nat :: Occurs(s, needle, i)
  }

  /** The name a statement's text contributes: its first called name, unless a pointer form or a C type. */
  ghost function TypeNames(guts: Text): seq<Text> {
    var f := Find(CALLED_NAME, guts, 0);
    if Contains(guts, PAREN_STAR) || Contains(guts, PAREN_SPACE_STAR) || f.None? then []
    else
      var name := Group(guts, f.value.hit, 1);
      if name in C_TYPE_KEYWORDS then [] else [name]
  }

  ghost function StatementNames(s: Text, h: Hit): seq<Text> {
    TypeNames(Group(s, h, 1))
  }

  lemma StatementMatches(s: Text, i: nat)
    requires i <= |s|
    ensures Match(Do(Cap(1, Star(Atom(STATEMENT), true)), STATEMENT_END), s, i, map[])
         == var e := RunEnd(STATEMENT, s, i);
            if At(s, e, SEMICOLON) then Some(Hit(e + 1, map[1 := (i, e)])) else None
  {
    hide Match, MatchRegex, RegexSize, ContSize;
    var close := Close(1, i, STATEMENT_END);
    MatchCap(1, Star(Atom(STATEMENT), true), STATEMENT_END, s, i, map[]);
    StartsApart(OneOf({SEMICOLON}), STATEMENT, 0, Done);
    assert Rejects(close, STATEMENT);
    StarTakesAll(STATEMENT, close, s, i, map[]);
    var e := RunEnd(STATEMENT, s, i);
    MatchClose(1, i, STATEMENT_END, s, e, map[]);
    ChrMatches(SEMICOLON, Done, s, e, map[1 := (i, e)]);
    if e < |s| {
      MatchDone(s, e + 1, map[1 := (i, e)]);
    }
  }

  /** A called name starts at a word boundary and is followed by `(`. */
  lemma CalledNameMatches(s: Text, p: nat)
    requires p <= |s|
    ensures Match(CALLED_NAME, s, p, map[])
         == if IsWordAt(s, p) && BoundaryBefore(s, p) && At(s, SkipWs(s, WordEnd(s, p)), OPEN_PAREN)
            then Some(Hit(SkipWs(s, WordEnd(s, p)) + 1, map[1 := (p, WordEnd(s, p))]))
            else None
  {
    hide Match, MatchRegex, RegexSize, ContSize;
    MatchPlain(WordCap(1, Ws(CALL_OPEN)), s, p, map[]);
    WsChrRejectsWord(OPEN_PAREN, Done);
    WordMatches(1, Ws(CALL_OPEN), s, p, map[]);
    if IsWordAt(s, p) {
      var e := WordEnd(s, p);
      WsChrMatches(OPEN_PAREN, Done, s, e, map[1 := (p, e)]);
      if At(s, SkipWs(s, e), OPEN_PAREN) {
        MatchDone(s, SkipWs(s, e) + 1, map[1 := (p, e)]);
      }
    }
  }

  /** Inside a word there is no boundary, so no called name starts there. */
  lemma {:induction false} WordInterior(s: Text, p: nat, j: nat)
    requires p <= |s| && p < j < WordEnd(s, p)
    ensures !BoundaryBefore(s, j) && IsWordAt(s, j)
    decreases j - p
  {
    assert WordEnd(s, p + 1) == WordEnd(s, p);
    if p + 1 < j {
      WordInterior(s, p + 1, j);
    }
  }

  method FirstCalledName(guts: Text) returns (r: Option<Range>)
    ensures r.None? <==> Find(CALLED_NAME, guts, 0).None?
    ensures r.Some? ==> r.value.0 <= r.value.1 <= |guts|
    ensures r.Some? ==> Find(CALLED_NAME, guts, 0).value.hit.caps == map[1 := r.value]
  {
    hide Match, MatchRegex, RegexSize, ContSize;
    var p := 0;
    while p < |guts|
      invariant p <= |guts|
      invariant Find(CALLED_NAME, guts, 0) == Find(CALLED_NAME, guts, p)
    {
      CalledNameMatches(guts, p);
      if IsWord(guts[p]) && BoundaryBefore(guts, p) {
        var we := WordEndFrom(guts, p);
        var k := SkipJsws(guts, we);
        if At(guts, k, OPEN_PAREN) {
          return Some((p, we));
        }
        forall j: nat | p <= j < we ensures Match(CALLED_NAME, guts, j, map[]).None? {
          CalledNameMatches(guts, j);
          if p < j {
            WordInterior(guts, p, j);
          }
        }
        FindSkipsMisses(CALLED_NAME, guts, p, we);
        p := we;
      } else {
        FindSkipsMisses(CALLED_NAME, guts, p, p + 1);
        p := p + 1;
      }
    }
    CalledNameMatches(guts, p);
    return None;
  }

  method StatementName(guts: Text) returns (out: seq<Text>)
    ensures out == TypeNames(guts)
  {
    hide Match, MatchRegex, RegexSize, ContSize, Find;
    out := [];
    var pointer := FindBytes(guts, PAREN_STAR, 0);
    var spaced := FindBytes(guts, PAREN_SPACE_STAR, 0);
    if pointer.None? && spaced.None? {
      var r := FirstCalledName(guts);
      if r.Some? {
        var w := guts[r.value.0..r.value.1];
        if w !in C_TYPE_KEYWORDS {
          out := [w];
        }
      }
    }
  }

  /** The `[^;{}]*` run of a statement. */
  method StatementEnd(s: Text, from: nat) returns (j: nat)
    requires from <= |s|
    ensures j == RunEnd(STATEMENT, s, from)
  {
    j := from;
    while j < |s| && s[j] != SEMICOLON && s[j] != OPEN_BRACE && s[j] != CLOSE_BRACE
      invariant from <= j <= |s|
      invariant RunEnd(STATEMENT, s, from) == RunEnd(STATEMENT, s, j)
    {
      j := j + 1;
    }
  }

  /** The names of the next typedef from `last` on, and where the search goes on, if it does. */
  method NextFntype(s: Text, last: nat) returns (names: seq<Text>, next: Option<nat>)
    requires last <= |s|
    ensures next.Some? ==> last < next.value <= |s|
    ensures Tokens(AllMatches(FNTYPE_TYPEDEF, s, last), s, StatementNames)
         == names + if next.Some? then Tokens(AllMatches(FNTYPE_TYPEDEF, s, next.value), s, StatementNames) else []
  {
    hide Match, MatchRegex, RegexSize, ContSize, AllMatches, Find, TypeNames, Occurs, OccursWord, Ascii, RunEnd;
    ghost var rest := Do(Cap(1, Star(Atom(STATEMENT), true)), STATEMENT_END);
    TypedefIsWord();
    var found := FindWord(s, TYPEDEF, last);
    if found.None? {
      KeywordNever(TYPEDEF, rest, s, last);
      return [], None;
    }
    var t := found.value;
    KeywordSkips(TYPEDEF, rest, s, last, t);
    KeywordMatches(TYPEDEF, rest, s, t, map[]);
    StatementMatches(s, t + 7);
    var j := StatementEnd(s, t + 7);
    if j >= |s| || s[j] != SEMICOLON {
      MissOne(FNTYPE_TYPEDEF, s, t);
      return [], Some(t + 1);
    }
    TakeMatch(FNTYPE_TYPEDEF, s, t, StatementNames);
    names := StatementName(s[t + 7..j]);
    next := Some(j + 1);
  }

  method ScanFntypeTypedefs(s: Text) returns (out: seq<Text>)
    ensures out == Tokens(AllMatches(FNTYPE_TYPEDEF, s, 0), s, StatementNames)
  {
    hide AllMatches, Tokens;
    out := [];
    var last := 0;
    while true
      invariant last <= |s|
      invariant Tokens(AllMatches(FNTYPE_TYPEDEF, s, 0), s, StatementNames)
             == out + Tokens(AllMatches(FNTYPE_TYPEDEF, s, last), s, StatementNames)
      decreases |s| - last
    {
      var names, next := NextFntype(s, last);
      out := out + names;
      if next.None? {
        assert names + [] == names;
        return;
      }
      last := next.value;
      Regroup(out[..|out| - |names|], names, Tokens(AllMatches(FNTYPE_TYPEDEF, s, last), s, StatementNames));
    }
  }
}
