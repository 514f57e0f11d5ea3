// Alias-shaped object macros (per continuation-joined line) and raw `#include "..."` captures.

module FnPtrMacros {
  import opened Wrappers
  import opened Chars
  import opened Seqs
  import opened JsRegex
  import opened FnPtrPatterns
  import opened FnPtrSearch
  import opened FnPtrSkeletons

  /** `[ \t]` */
  const BLANK: Class := OneOf({SPACE, TAB})

  function Blanks(k: Cont): Cont { Do(Star(Atom(BLANK), true), k) }

  function Blanks1(k: Cont): Cont { Do(Plus(Atom(BLANK)), k) }

  /** Where `[ \t]*` ends. */
  function BlankEnd(s: Text, i: nat): (e: nat)
    requires i <= |s|
    ensures i <= e <= |s|
  {
    RunEnd(BLANK, s, i)
  }

  method SkipSpTab(s: Text, from: nat) returns (i: nat)
    requires from <= |s|
    ensures i == BlankEnd(s, from)
  {
    i := from;
    while i < |s| && (s[i] == SPACE || s[i] == TAB)
      invariant from <= i <= |s|
      invariant BlankEnd(s, i) == BlankEnd(s, from)
    {
      i := i + 1;
    }
  }

  lemma BlanksMatch(k: Cont, s: Text, i: nat, caps: Captures)
    requires i <= |s| && Rejects(k, BLANK)
    ensures Match(Blanks(k), s, i, caps) == Match(k, s, BlankEnd(s, i), caps)
    ensures Match(Blanks1(k), s, i, caps)
         == if BlankEnd(s, i) > i then Match(k, s, BlankEnd(s, i), caps) else None
  {
    hide Match, MatchRegex, RegexSize, ContSize;
    StarTakesAll(BLANK, k, s, i, caps);
    PlusTakesAll(BLANK, k, s, i, caps);
  }

  lemma LitMatches(w: Text, k: Cont, s: Text, i: nat, caps: Captures)
    requires i <= |s| && w != []
    ensures Match(Do(Atom(Lit(w)), k), s, i, caps)
         == if Occurs(s, w, i) then Match(k, s, i + |w|, caps) else None
  {
    hide Match, MatchRegex, RegexSize, ContSize;
    MatchAtom(Lit(w), k, s, i, caps);
  }

  // ---------------------------------------------------------------- object aliases

  const DEFINE: Text := Ascii("define")

  const LETTERS: set<Byte> := set b: Byte | 0 <= b < 256 && IsLetter(b)

  predicate IsLetter(b: Byte) { 0x41 <= b <= 0x5A || 0x61 <= b <= 0x7A || b == 0x5F }

  const TRAILER: Class := OneOf({SPACE, TAB, RETURN})

  const LINE_END: Cont := Do(Star(Atom(TRAILER), true), Do(End, Done))
  const VALUE_REST: Cont := Do(Star(Atom(Word), true), LINE_END)
  const ALIAS_VALUE: Cont := Do(Atom(OneOf(LETTERS)), VALUE_REST)
  const TAGGED_VALUE: Cont := Do(Star(WordThen(TAGS, BLANK), true), ALIAS_VALUE)
  const ALIAS_NAME: Cont := WordCap(1, Blanks1(TAGGED_VALUE))
  const AFTER_HASH: Cont := Blanks(Do(Atom(Lit(DEFINE)), Blanks1(ALIAS_NAME)))

  /** `^[ \t]*#[ \t]*define[ \t]+(\w+)[ \t]+(?:(?:struct|union)[ \t]+)*[A-Za-z_]\w*[ \t\r]*$` on one line */
  const ALIAS_LINE: Cont := Do(Begin, Blanks(Chr(HASH, AFTER_HASH)))

  lemma LineEndMatches(s: Text, i: nat, caps: Captures)
    requires i <= |s|
    ensures Match(LINE_END, s, i, caps)
         == if RunEnd(TRAILER, s, i) == |s| then Some(Hit(|s|, caps)) else None
  {
    hide Match, MatchRegex, RegexSize, ContSize;
    var k := Do(End, Done);
    forall j: nat | i <= j <= |s| && Width(TRAILER, s, j) > 0 ensures Match(k, s, j, caps).None? {
      MatchPlain(Done, s, j, caps);
    }
    StarCommits(TRAILER, k, s, i, caps);
    var e := RunEnd(TRAILER, s, i);
    MatchPlain(Done, s, e, caps);
    MatchDone(s, e, caps);
  }

  /** The alias value: one identifier that reaches the end of the line. */
  predicate ValueAt(s: Text, i: nat) {
    i < |s| && IsLetter(s[i]) && RunEnd(TRAILER, s, WordEnd(s, i)) == |s|
  }

  lemma ValueMatches(s: Text, i: nat, caps: Captures)
    requires i <= |s|
    ensures Match(ALIAS_VALUE, s, i, caps) == if ValueAt(s, i) then Some(Hit(|s|, caps)) else None
  {
    hide Match, MatchRegex, RegexSize, ContSize;
    MatchAtom(OneOf(LETTERS), VALUE_REST, s, i, caps);
    if i < |s| && IsLetter(s[i]) {
      forall j: nat | i + 1 <= j <= |s| && Width(Word, s, j) > 0 ensures Match(LINE_END, s, j, caps).None? {
        LineEndMatches(s, j, caps);
        assert Width(TRAILER, s, j) == 0;
      }
      StarCommits(Word, LINE_END, s, i + 1, caps);
      assert IsWordAt(s, i) && Width(Word, s, i) == 1;
      assert WordEnd(s, i) == RunEnd(Word, s, i + 1);
      LineEndMatches(s, WordEnd(s, i), caps);
    }
  }

  lemma AliasPieces()
    ensures ApartFrom(TAGS, BLANK) && DistinctStarts(TAGS)
    ensures Rejects(ALIAS_VALUE, BLANK) && Rejects(TAGGED_VALUE, BLANK)
  {
    TagList();
    StartsApart(OneOf(LETTERS), BLANK, 0, VALUE_REST);
    AltOfAvoids(TAGS, BLANK);
    assert Avoids(WordThen(TAGS, BLANK), BLANK);
    assert Avoids(Star(WordThen(TAGS, BLANK), true), BLANK);
  }

  lemma AliasHeadPieces()
    ensures Rejects(Blanks1(TAGGED_VALUE), Word) && Rejects(ALIAS_NAME, BLANK)
    ensures DEFINE != [] && Rejects(Do(Atom(Lit(DEFINE)), Blanks1(ALIAS_NAME)), BLANK)
    ensures Rejects(Chr(HASH, AFTER_HASH), BLANK)
  {
    assert IsWord(DEFINE[0]);
    StartsApart(BLANK, Word, 0, TAGGED_VALUE);
    StartsApart(Word, BLANK, 1, Blanks1(TAGGED_VALUE));
    StartsApart(Lit(DEFINE), BLANK, 0, Blanks1(ALIAS_NAME));
    StartsApart(OneOf({HASH}), BLANK, 0, AFTER_HASH);
  }

  /** The keyword loop is given back from the last iteration until the value fits. */
  method AliasValue(s: Text, v0: nat, ghost caps: Captures) returns (found: bool)
    requires v0 <= |s|
    ensures Match(TAGGED_VALUE, s, v0, caps) == if found then Some(Hit(|s|, caps)) else None
  {
    hide Match, MatchRegex, RegexSize, ContSize, Rejects, ValueAt, Positions, TAGGED_VALUE, ALIAS_VALUE;
    AliasPieces();
    TaggedValueMatches(s, v0, caps);
    var stack := WordPositions(TAGS, BLANK, s, v0);
    var k: nat := |stack|;
    while k > 0
      invariant 0 <= k <= |stack|
      invariant LastSuccess(ALIAS_VALUE, s, stack[k..], caps).None?
    {
      k := k - 1;
      assert stack[k..][0] == stack[k] && stack[k..][1..] == stack[k + 1..];
      ValueMatches(s, stack[k], caps);
      var ok := IsValue(s, stack[k]);
      if ok {
        SuffixDecides(ALIAS_VALUE, s, stack, k, caps);
        return true;
      }
    }
    assert stack[0..] == stack;
    return false;
  }

  lemma TaggedValueMatches(s: Text, v0: nat, caps: Captures)
    requires v0 <= |s|
    ensures DistinctStarts(TAGS)
    ensures Match(TAGGED_VALUE, s, v0, caps) == LastSuccess(ALIAS_VALUE, s, Positions(TAGS, BLANK, s, v0), caps)
  {
    AliasPieces();
    hide Match, MatchRegex, RegexSize, ContSize, Rejects, Positions, LastSuccess;
    IterationsBacktrack(TAGS, BLANK, ALIAS_VALUE, s, v0, caps);
  }

  method IsValue(s: Text, vp: nat) returns (ok: bool)
    requires vp <= |s|
    ensures ok == ValueAt(s, vp)
  {
    if vp == |s| || !IsLetter(s[vp]) {
      return false;
    }
    var ve := WordEndFrom(s, vp);
    var t := ve;
    while t < |s| && (s[t] == SPACE || s[t] == TAB || s[t] == RETURN)
      invariant ve <= t <= |s|
      invariant RunEnd(TRAILER, s, ve) == RunEnd(TRAILER, s, t)
    {
      t := t + 1;
    }
    return t == |s|;
  }

  method AliasLine(line: Text) returns (r: Option<Text>)
    ensures var m := Match(ALIAS_LINE, line, 0, map[]);
            && (m.Some? <==> r.Some?)
            && (r.Some? ==> FirstGroup(line, m.value) == [r.value])
  {
    hide Match, MatchRegex, RegexSize, ContSize, Rejects, BlankEnd, WordEnd;
    AliasPieces();
    AliasHeadPieces();
    MatchPlain(Blanks(Chr(HASH, AFTER_HASH)), line, 0, map[]);
    BlanksMatch(Chr(HASH, AFTER_HASH), line, 0, map[]);
    var i := SkipSpTab(line, 0);
    ChrMatches(HASH, AFTER_HASH, line, i, map[]);
    if !At(line, i, HASH) {
      return None;
    }
    BlanksMatch(Do(Atom(Lit(DEFINE)), Blanks1(ALIAS_NAME)), line, i + 1, map[]);
    i := SkipSpTab(line, i + 1);
    LitMatches(DEFINE, Blanks1(ALIAS_NAME), line, i, map[]);
    if !Occurs(line, DEFINE, i) {
      return None;
    }
    i := i + |DEFINE|;
    BlanksMatch(ALIAS_NAME, line, i, map[]);
    var w := SkipSpTab(line, i);
    WordMatches(1, Blanks1(TAGGED_VALUE), line, w, map[]);
    if w == i || !IsWordAt(line, w) {
      return None;
    }
    var nameEnd := WordEndFrom(line, w);
    ghost var caps: Captures := map[1 := (w, nameEnd)];
    BlanksMatch(TAGGED_VALUE, line, nameEnd, caps);
    var v0 := SkipSpTab(line, nameEnd);
    if v0 == nameEnd {
      return None;
    }
    var found := AliasValue(line, v0, caps);
    return if found then Some(line[w..nameEnd]) else None;
  }

  // ---------------------------------------------------------------- alias lines of a file

  /** `\\\r?\n` */
  const CONTINUATION: Cont := Chr(BACKSLASH, Do(Opt(Atom(OneOf({RETURN}))), Chr(NEWLINE, Done)))

  /** Replacing every match of `k`, from `i` on, by `instead`. */
  ghost function Substituted(k: Cont, instead: Text, s: Text, i: nat): Text
    requires i <= |s|
    decreases |s| - i
  {
    if i == |s| then []
    else
      var m := Match(k, s, i, map[]);
      if m.Some? && m.value.end > i then instead + Substituted(k, instead, s, m.value.end) else [s[i]] + Substituted(k, instead, s, i + 1)
  }

  /** A line continuation at `i`: the position after it. */
  function ContinuationEnd(s: Text, i: nat): (r: Option<nat>)
    ensures r.Some? ==> i < r.value <= |s|
  {
    if !At(s, i, BACKSLASH) then None
    else if At(s, i + 1, NEWLINE) then Some(i + 2)
    else if At(s, i + 1, RETURN) && At(s, i + 2, NEWLINE) then Some(i + 3)
    else None
  }

  lemma ContinuationMatches(s: Text, i: nat)
    requires i <= |s|
    ensures var m := Match(CONTINUATION, s, i, map[]);
            m == if ContinuationEnd(s, i).Some? then Some(Hit(ContinuationEnd(s, i).value, map[])) else None
  {
    hide Match, MatchRegex, RegexSize, ContSize;
    var line := Chr(NEWLINE, Done);
    ChrMatches(BACKSLASH, Do(Opt(Atom(OneOf({RETURN}))), line), s, i, map[]);
    if At(s, i, BACKSLASH) {
      MatchAlt(Atom(OneOf({RETURN})), Empty, line, s, i + 1, map[]);
      MatchAtom(OneOf({RETURN}), line, s, i + 1, map[]);
      MatchPlain(line, s, i + 1, map[]);
      ChrMatches(NEWLINE, Done, s, i + 1, map[]);
      if At(s, i + 1, NEWLINE) {
        MatchDone(s, i + 2, map[]);
      }
      if At(s, i + 1, RETURN) {
        ChrMatches(NEWLINE, Done, s, i + 2, map[]);
        if At(s, i + 2, NEWLINE) {
          MatchDone(s, i + 3, map[]);
        }
      }
    }
  }

  lemma SubstitutedStep(s: Text, i: nat)
    requires i < |s|
    ensures Substituted(CONTINUATION, [SPACE], s, i)
         == if ContinuationEnd(s, i).Some? then [SPACE] + Substituted(CONTINUATION, [SPACE], s, ContinuationEnd(s, i).value)
            else [s[i]] + Substituted(CONTINUATION, [SPACE], s, i + 1)
  {
    hide Match, CONTINUATION;
    ContinuationMatches(s, i);
  }

  /** Continued lines joined by a space. */
  method JoinLines(stripped: Text) returns (joined: Text)
    ensures joined == Substituted(CONTINUATION, [SPACE], stripped, 0)
  {
    joined := [];
    var i: nat := 0;
    while i < |stripped|
      invariant i <= |stripped|
      invariant Substituted(CONTINUATION, [SPACE], stripped, 0) == joined + Substituted(CONTINUATION, [SPACE], stripped, i)
    {
      hide Substituted;
      SubstitutedStep(stripped, i);
      if stripped[i] == BACKSLASH && At(stripped, i + 1, NEWLINE) {
        Regroup(joined, [SPACE], Substituted(CONTINUATION, [SPACE], stripped, i + 2));
        joined := joined + [SPACE];
        i := i + 2;
      } else if stripped[i] == BACKSLASH && At(stripped, i + 1, RETURN) && At(stripped, i + 2, NEWLINE) {
        Regroup(joined, [SPACE], Substituted(CONTINUATION, [SPACE], stripped, i + 3));
        joined := joined + [SPACE];
        i := i + 3;
      } else {
        Regroup(joined, [stripped[i]], Substituted(CONTINUATION, [SPACE], stripped, i + 1));
        joined := joined + [stripped[i]];
        i := i + 1;
      }
    }
  }

  /** The alias a line declares, if its pattern matches the line. */
  ghost function AliasOf(line: Text): seq<Text> {
    var m := Match(ALIAS_LINE, line, 0, map[]);
    if m.Some? then FirstGroup(line, m.value) else []
  }

  /** The aliases of the lines from position `i` on. */
  ghost function AliasesFrom(s: Text, i: nat): seq<Text>
    requires i <= |s|
    decreases |s| - i
  {
    var e := LineEnd(s, i);
    AliasOf(s[i..e]) + if e < |s| then AliasesFrom(s, e + 1) else []
  }

  method LineEndFrom(s: Text, i: nat) returns (e: nat)
    requires i <= |s|
    ensures e == LineEnd(s, i)
  {
    e := i;
    while e < |s| && s[e] != NEWLINE
      invariant i <= e <= |s| && LineEnd(s, i) == LineEnd(s, e)
    {
      e := e + 1;
    }
  }

  method PushAlias(out: seq<Text>, line: Text) returns (more: seq<Text>)
    ensures more == out + AliasOf(line)
  {
    hide Match, MatchRegex, ALIAS_LINE;
    var name := AliasLine(line);
    more := if name.Some? then out + [name.value] else out;
  }

  lemma AliasesStep(s: Text, i: nat, out: seq<Text>)
    requires i <= |s|
    ensures var e := LineEnd(s, i);
            var rest := if e < |s| then AliasesFrom(s, e + 1) else [];
            out + AliasesFrom(s, i) == (out + AliasOf(s[i..e])) + rest
  {
    hide AliasOf, LineEnd;
  }

  /** The aliases of a file: continuations joined, then one line at a time. */
  method ScanAliasNames(stripped: Text) returns (out: seq<Text>)
    ensures out == AliasesFrom(Substituted(CONTINUATION, [SPACE], stripped, 0), 0)
  {
    hide Match, AliasOf, LineEnd, Substituted, AliasesFrom;
    var joined := JoinLines(stripped);
    out := [];
    var start: nat := 0;
    var more := true;
    while more
      invariant start <= |joined|
      invariant AliasesFrom(joined, 0) == out + if more then AliasesFrom(joined, start) else []
      decreases more, |joined| - start
    {
      AliasesStep(joined, start, out);
      var e := LineEndFrom(joined, start);
      out := PushAlias(out, joined[start..e]);
      more := e < |joined|;
      start := if more then e + 1 else e;
    }
  }

  // ---------------------------------------------------------------- includes

  const INCLUDE: Text := Ascii("include")

  /** `[^"\n]` */
  const QUOTED: Class := NoneOf({QUOTE, NEWLINE})

  const PATH_END: Cont := Chr(QUOTE, Done)
  const PATH: Cont := Chr(QUOTE, Do(Cap(1, Plus(Atom(QUOTED))), PATH_END))
  const DIRECTIVE: Cont := Blanks(Do(Atom(Lit(INCLUDE)), Blanks1(PATH)))

  /** `#[ \t]*include[ \t]+"([^"\n]+)"` */
  const INCLUDE_DIRECTIVE: Cont := Chr(HASH, DIRECTIVE)

  lemma IncludePieces()
    ensures INCLUDE != [] && Rejects(Do(Atom(Lit(INCLUDE)), Blanks1(PATH)), BLANK)
    ensures Rejects(PATH, BLANK) && Rejects(PATH_END, QUOTED)
  {
    assert IsWord(INCLUDE[0]);
    StartsApart(Lit(INCLUDE), BLANK, 0, Blanks1(PATH));
    StartsApart(OneOf({QUOTE}), BLANK, 0, Do(Cap(1, Plus(Atom(QUOTED))), PATH_END));
    StartsApart(OneOf({QUOTE}), QUOTED, 0, Done);
  }

  /** The quoted path after `"`: everything up to the closing quote, on one line, not empty. */
  method QuotedPath(s: Text, q: nat) returns (r: Option<nat>)
    requires q < |s| && s[q] == QUOTE
    ensures r.Some? ==> q + 1 < r.value < |s|
    ensures Match(PATH, s, q, map[])
         == if r.Some? then Some(Hit(r.value + 1, map[1 := (q + 1, r.value)])) else None
  {
    hide Match, MatchRegex, RegexSize, ContSize, Rejects;
    IncludePieces();
    ChrMatches(QUOTE, Do(Cap(1, Plus(Atom(QUOTED))), PATH_END), s, q, map[]);
    CaptureTakesAll(1, QUOTED, PATH_END, s, q + 1, map[]);
    var j := q + 1;
    while j < |s| && s[j] != QUOTE && s[j] != NEWLINE
      invariant q + 1 <= j <= |s|
      invariant RunEnd(QUOTED, s, q + 1) == RunEnd(QUOTED, s, j)
    {
      j := j + 1;
    }
    ChrMatches(QUOTE, Done, s, j, map[1 := (q + 1, j)]);
    if j > q + 1 && j < |s| && s[j] == QUOTE {
      MatchDone(s, j + 1, map[1 := (q + 1, j)]);
      return Some(j);
    }
    return None;
  }

  method DirectiveAt(s: Text, h: nat) returns (r: Option<Range>)
    requires h < |s| && s[h] == HASH
    ensures r.Some? ==> h < r.value.0 <= r.value.1 < |s|
    ensures Match(INCLUDE_DIRECTIVE, s, h, map[])
         == if r.Some? then Some(Hit(r.value.1 + 1, map[1 := r.value])) else None
  {
    hide Match, MatchRegex, RegexSize, ContSize, Rejects, BlankEnd, PATH;
    IncludePieces();
    ChrMatches(HASH, DIRECTIVE, s, h, map[]);
    BlanksMatch(Do(Atom(Lit(INCLUDE)), Blanks1(PATH)), s, h + 1, map[]);
    var i := SkipSpTab(s, h + 1);
    LitMatches(INCLUDE, Blanks1(PATH), s, i, map[]);
    if !Occurs(s, INCLUDE, i) {
      return None;
    }
    i := i + |INCLUDE|;
    BlanksMatch(PATH, s, i, map[]);
    var q := SkipSpTab(s, i);
    if q == i || !At(s, q, QUOTE) {
      if q > i {
        PathNeedsQuote(s, q);
      }
      return None;
    }
    var j := QuotedPath(s, q);
    return if j.Some? then Some((q + 1, j.value)) else None;
  }

  lemma PathNeedsQuote(s: Text, q: nat)
    requires q <= |s| && !At(s, q, QUOTE)
    ensures Match(PATH, s, q, map[]).None?
  {
    hide Match, MatchRegex, RegexSize, ContSize;
    ChrMatches(QUOTE, Do(Cap(1, Plus(Atom(QUOTED))), PATH_END), s, q, map[]);
  }

  /** Hash-free stretches hold no directive. */
  lemma NoHashNoMatch(s: Text, i: nat, t: nat)
    requires i <= t <= |s|
    requires forall j: nat :: i <= j < t ==> s[j] != HASH
    ensures AllMatches(INCLUDE_DIRECTIVE, s, i) == AllMatches(INCLUDE_DIRECTIVE, s, t)
    ensures t == |s| ==> AllMatches(INCLUDE_DIRECTIVE, s, t) == []
  {
    hide Match, MatchRegex, RegexSize, ContSize, AllMatches;
    forall j: nat | i <= j < t ensures Match(INCLUDE_DIRECTIVE, s, j, map[]).None? {
      ChrMatches(HASH, DIRECTIVE, s, j, map[]);
    }
    SkipMisses(INCLUDE_DIRECTIVE, s, i, t);
    if t == |s| {
      ChrMatches(HASH, DIRECTIVE, s, t, map[]);
      MissOne(INCLUDE_DIRECTIVE, s, t);
    }
  }

  method NextHash(s: Text, from: nat) returns (r: Option<nat>)
    requires from <= |s|
    ensures r.Some? ==> from <= r.value < |s| && s[r.value] == HASH
    ensures forall j: nat :: from <= j < (if r.Some? then r.value else |s|) ==> s[j] != HASH
  {
    r := FindBytes(s, [HASH], from);
    forall j: nat | from <= j < |s| ensures Occurs(s, [HASH], j) <==> s[j] == HASH {
      assert s[j..j + 1] == [s[j]];
    }
  }

  /** The next directive from `pos` on, and where the scan resumes. */
  method NextInclude(raw: Text, pos: nat) returns (path: seq<Text>, next: nat)
    requires pos <= |raw|
    ensures pos < next <= |raw| || (path == [] && next == |raw|)
    ensures Tokens(AllMatches(INCLUDE_DIRECTIVE, raw, pos), raw, FirstGroup)
         == path + Tokens(AllMatches(INCLUDE_DIRECTIVE, raw, next), raw, FirstGroup)
  {
    hide Match, MatchRegex, RegexSize, ContSize, AllMatches, INCLUDE_DIRECTIVE;
    var hash := NextHash(raw, pos);
    if hash.None? {
      NoHashNoMatch(raw, pos, |raw|);
      return [], |raw|;
    }
    var h := hash.value;
    NoHashNoMatch(raw, pos, h);
    var range := DirectiveAt(raw, h);
    if range.Some? {
      TakeMatch(INCLUDE_DIRECTIVE, raw, h, FirstGroup);
      return [raw[range.value.0..range.value.1]], range.value.1 + 1;
    }
    MissOne(INCLUDE_DIRECTIVE, raw, h);
    return [], h + 1;
  }

  method ScanIncludes(raw: Text) returns (out: seq<Text>)
    ensures out == Tokens(AllMatches(INCLUDE_DIRECTIVE, raw, 0), raw, FirstGroup)
  {
    hide Match, MatchRegex, RegexSize, ContSize, AllMatches, INCLUDE_DIRECTIVE, Tokens;
    out := [];
    var pos := 0;
    while pos < |raw|
      invariant pos <= |raw|
      invariant Tokens(AllMatches(INCLUDE_DIRECTIVE, raw, 0), raw, FirstGroup)
             == out + Tokens(AllMatches(INCLUDE_DIRECTIVE, raw, pos), raw, FirstGroup)
      decreases |raw| - pos
    {
      var path, next := NextInclude(raw, pos);
      Regroup(out, path, Tokens(AllMatches(INCLUDE_DIRECTIVE, raw, next), raw, FirstGroup));
      out, pos := out + path, next;
    }
    NoIncludeAtEnd(raw);
  }

  lemma NoIncludeAtEnd(raw: Text)
    ensures Tokens(AllMatches(INCLUDE_DIRECTIVE, raw, |raw|), raw, FirstGroup) == []
  {
    NoHashNoMatch(raw, |raw|, |raw|);
  }
}
