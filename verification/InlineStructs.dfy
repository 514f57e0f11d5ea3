// Inline struct and union definitions that declare a variable: their tags and a summary of their fields.

module InlineStructs {
  import opened Wrappers
  import opened Chars
  import opened JsRegex
  import opened FnPtrPatterns
  import opened FnPtrSearch
  import opened FnPtrSkeletons
  import opened StructFields

  const BODY_OPEN: Cont := Chr(OPEN_BRACE, Done)
  const TAG_NAME: Cont := WordCap(1, Ws(BODY_OPEN))
  const AFTER_TAG: Cont := Ws1(TAG_NAME)

  /** `\b(?:struct|union)\s+(\w+)\s*\{` */
  const INLINE_HEAD: Cont := Do(Boundary, Do(AltOf(TAGS), AFTER_TAG))

  /** What follows a keyword that ends at `e`: spaces, the tag, and the opening brace. */
  function TagAfter(s: Text, e: nat): (r: Option<(Range, nat)>)
    requires e <= |s|
    ensures r.Some? ==> e < r.value.0.0 < r.value.0.1 <= r.value.1 < |s| && s[r.value.1] == OPEN_BRACE
  {
    var ws := SkipWs(s, e);
    if ws == e || !IsWordAt(s, ws) then None
    else
      var te := WordEnd(s, ws);
      var open := SkipWs(s, te);
      if At(s, open, OPEN_BRACE) then Some(((ws, te), open)) else None
  }

  lemma AfterTagMatches(s: Text, e: nat)
    requires e <= |s|
    ensures Match(AFTER_TAG, s, e, map[])
         == var t := TagAfter(s, e);
            if t.Some? then Some(Hit(t.value.1 + 1, map[1 := t.value.0])) else None
  {
    hide Match, MatchRegex, RegexSize, ContSize, SkipWs, WordEnd;
    StartsApart(Word, Space, 1, Ws(BODY_OPEN));
    Ws1Matches(TAG_NAME, s, e, map[]);
    var ws := SkipWs(s, e);
    if ws > e {
      WsChrRejectsWord(OPEN_BRACE, Done);
      WordMatches(1, Ws(BODY_OPEN), s, ws, map[]);
      if IsWordAt(s, ws) {
        var te := WordEnd(s, ws);
        WsChrMatches(OPEN_BRACE, Done, s, te, map[1 := (ws, te)]);
        if At(s, SkipWs(s, te), OPEN_BRACE) {
          MatchDone(s, SkipWs(s, te) + 1, map[1 := (ws, te)]);
        }
      }
    }
  }

  /** The head pattern succeeds exactly where one of the two keywords occurs as a word. */
  lemma HeadMatches(s: Text, i: nat)
    requires i <= |s|
    ensures |TAGS| == 2
    ensures Match(INLINE_HEAD, s, i, map[])
         == if OccursWord(s, TAGS[0], i) then Match(AFTER_TAG, s, i + |TAGS[0]|, map[])
            else if OccursWord(s, TAGS[1], i) then Match(AFTER_TAG, s, i + |TAGS[1]|, map[])
            else None
  {
    hide Match, MatchRegex, RegexSize, ContSize, FirstWord;
    TagList();
    OneTag(s, i);
    MatchPlain(Do(AltOf(TAGS), AFTER_TAG), s, i, map[]);
    AltOfMatches(TAGS, AFTER_TAG, s, i, map[]);
    var w := FirstWord(TAGS, s, i);
    if w > 0 {
      var tag := if Occurs(s, TAGS[0], i) then TAGS[0] else TAGS[1];
      assert s[i] == s[i..i + |tag|][0] == tag[0];
      AfterTagMatches(s, i + w);
    }
  }

  // ---------------------------------------------------------------- what a head contributes

  /** The brace that closes the one at `open`, when there is one. */
  ghost function BraceMatch(s: Text, open: nat): (r: Option<nat>)
    requires open < |s|
    ensures r.Some? ==> Closes(s, open, r.value)
    ensures r.None? ==> forall close :: !Closes(s, open, close)
  {
    if exists close :: Closes(s, open, close) then
      var close :| Closes(s, open, close);
      Some(close)
    else None
  }

  lemma BraceMatchIs(s: Text, open: nat, r: Option<nat>)
    requires open < |s|
    requires r.Some? ==> Closes(s, open, r.value)
    requires r.None? ==> forall j :: open < j <= |s| ==> Balance(s, open, j) > 0
    ensures BraceMatch(s, open) == r
  {
    hide Balance;
    var b := BraceMatch(s, open);
    if r.Some? && b.Some? {
      MatchingBraceIsLeast(s, open, r.value, b.value + 1);
      MatchingBraceIsLeast(s, open, b.value, r.value + 1);
    }
  }

  /** The struct body, when the braces balance and a variable name follows them. */
  ghost function BodyOf(s: Text, h: Hit): Option<Text> {
    var open := h.end - 1;
    if !(0 <= open < |s|) then None
    else
      var close := BraceMatch(s, open);
      if close.Some? && IsWordAt(s, SkipWs(s, close.value + 1)) then Some(s[open + 1..close.value]) else None
  }

  ghost function HeadTags(s: Text, h: Hit): seq<Text> {
    if BodyOf(s, h).Some? then [Group(s, h, 1)] else []
  }

  /** Type words of the named non-pointer fields. */
  function FieldTypes(fields: seq<RawField>): seq<Text> {
    if fields == [] then []
    else
      var f := fields[0];
      (if f.name != [] && !f.ptr && f.ty != [] then [f.ty] else []) + FieldTypes(fields[1..])
  }

  ghost function HeadTypes(s: Text, h: Hit): seq<Text> {
    var body := BodyOf(s, h);
    if body.Some? then FieldTypes(Fields(body.value)) else []
  }

  ghost predicate HasPointer(fields: seq<RawField>) {
    exists f :: f in fields && f.name != [] && f.ptr
  }

  ghost predicate HeadPointer(s: Text, h: Hit) {
    var body := BodyOf(s, h);
    body.Some? && HasPointer(Fields(body.value))
  }

  ghost predicate AnyPointer(found: seq<Found>, s: Text) {
    exists f :: f in found && HeadPointer(s, f.hit)
  }

  /** Every named field gives its type word, unless it is a function pointer or has none; in order. */
  lemma TypesStep(f: RawField, rest: seq<RawField>)
    ensures FieldTypes([]) == []
    ensures FieldTypes([f] + rest) == (if f.name == [] || f.ptr || f.ty == [] then [] else [f.ty]) + FieldTypes(rest)
    ensures HasPointer([f] + rest) <==> (f.ptr && f.name != []) || HasPointer(rest)
  {
    var all := [f] + rest;
    assert all[0] == f && all[1..] == rest;
    assert forall g :: g in all <==> g == f || g in rest;
  }

  // ---------------------------------------------------------------- the scan

  /** The next keyword: whichever of the two words comes first. */
  method NextTag(s: Text, last: nat) returns (r: Option<(nat, nat)>)
    requires last <= |s|
    ensures |TAGS| == 2
    ensures r.Some? ==>
      var (t, len) := r.value;
      && last <= t && t + len <= |s| && len > 0
      && Match(INLINE_HEAD, s, t, map[]) == Match(AFTER_TAG, s, t + len, map[])
      && AllMatches(INLINE_HEAD, s, last) == AllMatches(INLINE_HEAD, s, t)
    ensures r.None? ==> AllMatches(INLINE_HEAD, s, last) == []
  {
    hide Match, MatchRegex, RegexSize, ContSize, AllMatches, OccursWord, INLINE_HEAD, AFTER_TAG;
    TagList();
    var nextStruct := FindWord(s, TAGS[0], last);
    var nextUnion := FindWord(s, TAGS[1], last);
    ghost var t := |s|;
    if nextStruct.Some? && (nextUnion.None? || nextStruct.value < nextUnion.value) {
      r := Some((nextStruct.value, 6));
      t := nextStruct.value;
    } else if nextUnion.Some? {
      r := Some((nextUnion.value, 5));
      t := nextUnion.value;
    } else {
      r := None;
    }
    forall j: nat | last <= j < t ensures Match(INLINE_HEAD, s, j, map[]).None? {
      HeadMatches(s, j);
    }
    SkipMisses(INLINE_HEAD, s, last, t);
    HeadMatches(s, t);
    if r.None? {
      MissOne(INLINE_HEAD, s, |s|);
    } else if r.value.1 == 5 {
      NotBothTags(s, t);
    }
  }

  lemma NotBothTags(s: Text, t: nat)
    requires t <= |s|
    ensures |TAGS| == 2 && !(OccursWord(s, TAGS[0], t) && OccursWord(s, TAGS[1], t))
  {
    TagList();
    OneTag(s, t);
  }

  method TagAt(s: Text, e: nat) returns (r: Option<(Range, nat)>)
    requires e <= |s|
    ensures r == TagAfter(s, e)
  {
    var ws := SkipJsws(s, e);
    if ws == e || !IsWordAt(s, ws) {
      return None;
    }
    var te := WordEndFrom(s, ws);
    var open := SkipJsws(s, te);
    if !At(s, open, OPEN_BRACE) {
      return None;
    }
    return Some(((ws, te), open));
  }

  /** The accepted body of the head whose brace is at `open`. */
  method BodyAt(s: Text, open: nat, ghost h: Hit) returns (r: Option<Text>)
    requires open < |s| && s[open] == OPEN_BRACE && h.end == open + 1
    ensures r == BodyOf(s, h)
  {
    hide Balance, SkipWs;
    var close := MatchBrace(s, open);
    BraceMatchIs(s, open, close);
    if close.None? {
      return None;
    }
    var v := SkipJsws(s, close.value + 1);
    return if IsWordAt(s, v) then Some(s[open + 1..close.value]) else None;
  }

  method Summarise(fields: seq<RawField>) returns (ptr: bool, types: seq<Text>)
    ensures types == FieldTypes(fields)
    ensures ptr <==> HasPointer(fields)
  {
    hide HasPointer, FieldTypes;
    ptr, types := false, [];
    Edges(fields);
    for i := 0 to |fields|
      invariant FieldTypes(fields) == types + FieldTypes(fields[i..])
      invariant ptr <==> HasPointer(fields[..i])
    {
      var f := fields[i];
      OneField(fields, i);
      if f.name != [] {
        if f.ptr {
          ptr := true;
        } else if f.ty != [] {
          types := types + [f.ty];
        }
      }
    }
  }

  lemma OneField(fields: seq<RawField>, i: nat)
    requires i < |fields|
    ensures HasPointer(fields[..i + 1]) <==> HasPointer(fields[..i]) || (fields[i].name != [] && fields[i].ptr)
    ensures var f := fields[i];
            FieldTypes(fields[i..])
              == (if f.name != [] && !f.ptr && f.ty != [] then [f.ty] else []) + FieldTypes(fields[i + 1..])
  {
    assert fields[..i + 1] == fields[..i] + [fields[i]];
    assert fields[i..][0] == fields[i] && fields[i..][1..] == fields[i + 1..];
  }

  lemma Edges(fields: seq<RawField>)
    ensures fields[..0] == [] && fields[..|fields|] == fields && fields[0..] == fields && fields[|fields|..] == []
    ensures !HasPointer([]) && FieldTypes([]) == []
  {}

  /** What one accepted head adds to the three collections. */
  method HeadFacts(s: Text, name: Range, open: nat, ghost h: Hit)
    returns (ptr: bool, types: seq<Text>, tags: seq<Text>)
    requires name.0 <= name.1 <= |s| && open < |s| && s[open] == OPEN_BRACE
    requires h == Hit(open + 1, map[1 := name])
    ensures tags == HeadTags(s, h) && types == HeadTypes(s, h)
    ensures ptr <==> HeadPointer(s, h)
  {
    hide BodyOf, Fields, HasPointer, FieldTypes;
    ptr, types, tags := false, [], [];
    var body := BodyAt(s, open, h);
    if body.Some? {
      tags := [s[name.0..name.1]];
      var fields := ParseStructFieldsRaw(body.value);
      ptr, types := Summarise(fields);
    }
  }

  /** The collections so far, plus what the matches from `last` on would add, are the whole result. */
  ghost predicate Collected(s: Text, last: nat, ptr: bool, types: seq<Text>, tags: seq<Text>)
    requires last <= |s|
  {
    var all, rest := AllMatches(INLINE_HEAD, s, 0), AllMatches(INLINE_HEAD, s, last);
    && Tokens(all, s, HeadTags) == tags + Tokens(rest, s, HeadTags)
    && Tokens(all, s, HeadTypes) == types + Tokens(rest, s, HeadTypes)
    && (AnyPointer(all, s) <==> (ptr || AnyPointer(rest, s)))
  }

  lemma TakeHead(s: Text, t: nat, ptr: bool, types: seq<Text>, tags: seq<Text>)
    requires t <= |s| && Match(INLINE_HEAD, s, t, map[]).Some? && Match(INLINE_HEAD, s, t, map[]).value.end > t
    requires Collected(s, t, ptr, types, tags)
    ensures var h := Match(INLINE_HEAD, s, t, map[]).value;
            Collected(s, h.end, ptr || HeadPointer(s, h), types + HeadTypes(s, h), tags + HeadTags(s, h))
  {
    hide Match, MatchRegex, RegexSize, ContSize, HeadPointer, HeadTags, HeadTypes, INLINE_HEAD, Tokens;
    var h := Match(INLINE_HEAD, s, t, map[]).value;
    TakeMatch(INLINE_HEAD, s, t, HeadTags);
    TakeMatch(INLINE_HEAD, s, t, HeadTypes);
    var all, rest := AllMatches(INLINE_HEAD, s, t), AllMatches(INLINE_HEAD, s, h.end);
    assert all == [Found(t, h)] + rest;
    assert Found(t, h) in all && forall f :: f in rest ==> f in all;
  }

  lemma SameMatches(s: Text, last: nat, t: nat, ptr: bool, types: seq<Text>, tags: seq<Text>)
    requires last <= |s| && t <= |s| && Collected(s, last, ptr, types, tags)
    requires AllMatches(INLINE_HEAD, s, last) == AllMatches(INLINE_HEAD, s, t)
    ensures Collected(s, t, ptr, types, tags)
  {
    hide Match, MatchRegex, AllMatches, AnyPointer, Tokens;
  }

  lemma StartCollecting(s: Text)
    ensures Collected(s, 0, false, [], [])
  {
    hide Match, MatchRegex, AllMatches, AnyPointer, Tokens;
  }

  lemma AllCollected(s: Text, last: nat, ptr: bool, types: seq<Text>, tags: seq<Text>)
    requires last <= |s| && Collected(s, last, ptr, types, tags)
    requires AllMatches(INLINE_HEAD, s, last) == []
    ensures tags == Tokens(AllMatches(INLINE_HEAD, s, 0), s, HeadTags)
    ensures types == Tokens(AllMatches(INLINE_HEAD, s, 0), s, HeadTypes)
    ensures ptr <==> AnyPointer(AllMatches(INLINE_HEAD, s, 0), s)
  {
    hide Match, MatchRegex, AllMatches;
  }

  method ScanInlineStructs(s: Text) returns (ptr: bool, types: seq<Text>, tags: seq<Text>)
    ensures tags == Tokens(AllMatches(INLINE_HEAD, s, 0), s, HeadTags)
    ensures types == Tokens(AllMatches(INLINE_HEAD, s, 0), s, HeadTypes)
    ensures ptr <==> AnyPointer(AllMatches(INLINE_HEAD, s, 0), s)
  {
    hide Match, MatchRegex, RegexSize, ContSize, AllMatches, INLINE_HEAD, AFTER_TAG, Tokens;
    hide HeadPointer, HeadTags, HeadTypes, AnyPointer, Collected;
    ptr, types, tags := false, [], [];
    var last := 0;
    StartCollecting(s);
    while true
      invariant last <= |s| && Collected(s, last, ptr, types, tags)
      decreases |s| - last
    {
      var next := NextTag(s, last);
      if next.None? {
        AllCollected(s, last, ptr, types, tags);
        return;
      }
      var t := next.value.0;
      SameMatches(s, last, t, ptr, types, tags);
      AfterTagMatches(s, t + next.value.1);
      var tag := TagAt(s, t + next.value.1);
      if tag.None? {
        MissOne(INLINE_HEAD, s, t);
        last := t + 1;
        SameMatches(s, t, last, ptr, types, tags);
        continue;
      }
      var (name, open) := tag.value;
      ghost var h := Hit(open + 1, map[1 := name]);
      TakeHead(s, t, ptr, types, tags);
      var p, ts, tg := HeadFacts(s, name, open, h);
      ptr, types, tags := ptr || p, types + ts, tags + tg;
      last := open + 1;
    }
  }
}
