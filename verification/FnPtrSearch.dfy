// The low-level cursor loops of the sweep: skipping, word ends and substring search.

module FnPtrSearch {
  import opened Wrappers
  import opened Chars
  import opened JsRegex
  import opened FnPtrPatterns

  method SkipJsws(s: Text, from: nat) returns (i: nat)
    requires from <= |s|
    ensures i == SkipWs(s, from)
  {
    i := from;
    while true
      invariant from <= i <= |s|
      invariant SkipWs(s, i) == SkipWs(s, from)
      decreases |s| - i
    {
      var l := JswsLen(s, i);
      if l == 0 {
        return;
      }
      i := i + l;
    }
  }

  method WordEndFrom(s: Text, from: nat) returns (i: nat)
    requires from <= |s|
    ensures i == WordEnd(s, from)
  {
    i := from;
    while i < |s| && IsWord(s[i])
      invariant from <= i <= |s|
      invariant WordEnd(s, i) == WordEnd(s, from)
    {
      i := i + 1;
    }
  }

  predicate Occurs(s: Text, needle: Text, i: nat) {
    i + |needle| <= |s| && s[i..i + |needle|] == needle
  }

  /** The first occurrence of a non-empty needle at or after `from`, or none at all. */
  method FindBytes(s: Text, needle: Text, from: nat) returns (r: Option<nat>)
    ensures r.Some? ==> from <= r.value && needle != [] && Occurs(s, needle, r.value)
    ensures r.Some? ==> forall j: nat :: from <= j < r.value ==> !Occurs(s, needle, j)
    ensures r.None? && needle != [] ==> forall j: nat :: from <= j ==> !Occurs(s, needle, j)
  {
    if needle == [] || |s| < |needle| {
      return None;
    }
    var i := from;
    while i + |needle| <= |s|
      invariant from <= i
      invariant forall j: nat :: from <= j < i ==> !Occurs(s, needle, j)
    {
      var off := i;
      while off + |needle| <= |s| && s[off] != needle[0]
        invariant i <= off
        invariant forall j: nat :: from <= j < off ==> !Occurs(s, needle, j)
      {
        assert s[off] == s[off..off + |needle|][0];
        off := off + 1;
      }
      if off + |needle| > |s| {
        return None;
      }
      i := off;
      if s[i..i + |needle|] == needle {
        return Some(i);
      }
      i := i + 1;
    }
    return None;
  }

  predicate BoundaryBefore(s: Text, i: nat)
    requires i <= |s|
  {
    i == 0 || !IsWord(s[i - 1])
  }

  /** `\bword\b` at `i`. */
  predicate OccursWord(s: Text, word: Text, i: nat) {
    Occurs(s, word, i) && BoundaryBefore(s, i) && !IsWordAt(s, i + |word|)
  }

  method FindWord(s: Text, word: Text, start: nat) returns (r: Option<nat>)
    requires word != []
    ensures r.Some? ==> start <= r.value && r.value + |word| <= |s| && OccursWord(s, word, r.value)
    ensures r.Some? ==> forall j: nat :: start <= j < r.value ==> !OccursWord(s, word, j)
    ensures r.None? ==> forall j: nat :: start <= j ==> !OccursWord(s, word, j)
  {
    var from := start;
    while true
      invariant start <= from
      invariant forall j: nat :: start <= j < from ==> !OccursWord(s, word, j)
      decreases |s| - from
    {
      var f := FindBytes(s, word, from);
      if f.None? {
        return None;
      }
      var t := f.value;
      if BoundaryBefore(s, t) && !IsWordAt(s, t + |word|) {
        return Some(t);
      }
      from := t + 1;
    }
  }

  /** `\bword\b` followed by `k`. */
  function Keyword(word: Text, k: Cont): Cont {
    Do(Boundary, Do(Atom(Lit(word)), Do(Boundary, k)))
  }

  lemma KeywordMatches(word: Text, k: Cont, s: Text, i: nat, caps: Captures)
    requires i <= |s|
    requires word != [] && IsWord(word[0]) && IsWord(word[|word| - 1])
    ensures Match(Keyword(word, k), s, i, caps)
         == if OccursWord(s, word, i) then Match(k, s, i + |word|, caps) else None
  {
    hide Match, MatchRegex, RegexSize, ContSize;
    var afterWord := Do(Boundary, k);
    MatchPlain(Do(Atom(Lit(word)), afterWord), s, i, caps);
    MatchAtom(Lit(word), afterWord, s, i, caps);
    if Occurs(s, word, i) {
      assert s[i] == s[i..i + |word|][0] && s[i + |word| - 1] == s[i..i + |word|][|word| - 1];
      MatchPlain(k, s, i + |word|, caps);
    }
  }

  /** Where the keyword does not occur, a pattern that starts with it finds nothing. */
  lemma KeywordSkips(word: Text, k: Cont, s: Text, last: nat, t: nat)
    requires last <= t <= |s|
    requires word != [] && IsWord(word[0]) && IsWord(word[|word| - 1])
    requires forall j: nat :: last <= j < t ==> !OccursWord(s, word, j)
    ensures AllMatches(Keyword(word, k), s, last) == AllMatches(Keyword(word, k), s, t)
  {
    hide Match, MatchRegex, RegexSize, ContSize, AllMatches, OccursWord;
    forall j: nat | last <= j < t ensures Match(Keyword(word, k), s, j, map[]).None? {
      KeywordMatches(word, k, s, j, map[]);
    }
    SkipMisses(Keyword(word, k), s, last, t);
  }

  lemma KeywordNever(word: Text, k: Cont, s: Text, last: nat)
    requires last <= |s|
    requires word != [] && IsWord(word[0]) && IsWord(word[|word| - 1])
    requires forall j: nat :: last <= j ==> !OccursWord(s, word, j)
    ensures AllMatches(Keyword(word, k), s, last) == []
  {
    hide Match, MatchRegex, RegexSize, ContSize, AllMatches, OccursWord;
    forall j: nat | last <= j <= |s| ensures Match(Keyword(word, k), s, j, map[]).None? {
      KeywordMatches(word, k, s, j, map[]);
    }
    NoMoreMatches(Keyword(word, k), s, last);
  }

  // ---------------------------------------------------------------- bracket spans

  /** `[^\]]` */
  const NOT_CLOSE: Class := NoneOf({CLOSE_BRACKET})

  /** `[^\][]` */
  const NOT_BRACKET: Class := NoneOf({CLOSE_BRACKET, OPEN_BRACKET})

  /** `\[[^\]]*\]`: up to the first `]`. */
  method BracketSpan(s: Text, i: nat) returns (r: Option<nat>)
    ensures r == BracketEnd(NOT_CLOSE, s, i)
  {
    if !At(s, i, OPEN_BRACKET) {
      return None;
    }
    var j := i + 1;
    while j < |s| && s[j] != CLOSE_BRACKET
      invariant i + 1 <= j <= |s|
      invariant RunEnd(NOT_CLOSE, s, i + 1) == RunEnd(NOT_CLOSE, s, j)
    {
      j := j + 1;
    }
    return if j < |s| then Some(j + 1) else None;
  }

  /** `\[[^\][]*\]`: no nested bracket allowed. */
  method SubscriptSpan(s: Text, i: nat) returns (r: Option<nat>)
    ensures r == BracketEnd(NOT_BRACKET, s, i)
  {
    if !At(s, i, OPEN_BRACKET) {
      return None;
    }
    var j := i + 1;
    while j < |s| && s[j] != CLOSE_BRACKET && s[j] != OPEN_BRACKET
      invariant i + 1 <= j <= |s|
      invariant RunEnd(NOT_BRACKET, s, i + 1) == RunEnd(NOT_BRACKET, s, j)
    {
      j := j + 1;
    }
    return if j < |s| && s[j] == CLOSE_BRACKET then Some(j + 1) else None;
  }
}
