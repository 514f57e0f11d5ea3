// Field propagation and dispatch scans: `a->f = b->g`, `x->ops[i].call(`, `table[i](`.

module FnPtrDispatch {
  import opened Wrappers
  import opened Chars
  import opened JsRegex
  import opened FnPtrPatterns
  import opened FnPtrSearch

  // ---------------------------------------------------------------- (?:->|\.)

  const ARROW: Regex := Alt(Atom(Lit([DASH, GREATER])), Atom(OneOf({DOT})))

  function ArrowEnd(s: Text, i: nat): (r: Option<nat>)
    ensures r.Some? ==> i < r.value <= |s|
  {
    if At(s, i, DASH) && At(s, i + 1, GREATER) then Some(i + 2)
    else if At(s, i, DOT) then Some(i + 1)
    else None
  }

  lemma ArrowAvoids()
    ensures Consumes(ARROW) && Avoids(ARROW, Space) && Avoids(ARROW, Word)
  {
    assert Apart(Lit([DASH, GREATER]), Space) && Apart(Lit([DASH, GREATER]), Word);
  }

  lemma ArrowMatches(k: Cont, s: Text, i: nat, caps: Captures)
    requires i <= |s|
    ensures Match(Do(ARROW, k), s, i, caps)
         == var a := ArrowEnd(s, i); if a.Some? then Match(k, s, a.value, caps) else None
  {
    hide Match, MatchRegex, RegexSize, ContSize;
    MatchAlt(Atom(Lit([DASH, GREATER])), Atom(OneOf({DOT})), k, s, i, caps);
    MatchAtom(Lit([DASH, GREATER]), k, s, i, caps);
    MatchAtom(OneOf({DOT}), k, s, i, caps);
    if i + 2 <= |s| {
      assert s[i..i + 2] == [s[i], s[i + 1]];
    }
  }

  /** `\s*(?:->|\.)` */
  lemma WsArrowMatches(k: Cont, s: Text, i: nat, caps: Captures)
    requires i <= |s|
    ensures Match(Ws(Do(ARROW, k)), s, i, caps)
         == var a := ArrowEnd(s, SkipWs(s, i)); if a.Some? then Match(k, s, a.value, caps) else None
    ensures Rejects(Ws(Do(ARROW, k)), Word)
  {
    hide Match, MatchRegex, RegexSize, ContSize;
    ArrowAvoids();
    SkipWsIsRun(s, i);
    StarTakesAll(Space, Do(ARROW, k), s, i, caps);
    ArrowMatches(k, s, SkipWs(s, i), caps);
    StartsApart(Space, Word, 0, Do(ARROW, k));
  }

  // ---------------------------------------------------------------- field assignments

  const LAST_FIELD: Cont := WordCap(4, Done)
  const RIGHT_ARROW: Cont := Ws(Do(ARROW, Ws(LAST_FIELD)))
  const RIGHT_SIDE: Cont := Ws(WordCap(3, RIGHT_ARROW))
  const FIELD_EQUALS: Cont := Ws(Chr(EQUALS, RIGHT_SIDE))
  const LEFT_ARROW: Cont := Ws(Do(ARROW, Ws(WordCap(2, FIELD_EQUALS))))

  /** `(\w+)\s*(?:->|\.)\s*(\w+)\s*=\s*(\w+)\s*(?:->|\.)\s*(\w+)` */
  const FIELD_ASSIGN: Cont := WordCap(1, LEFT_ARROW)

  /** The pair of field names, joined by NUL. */
  ghost function FieldPair(s: Text, h: Hit): seq<Text> {
    [Group(s, h, 2) + [0] + Group(s, h, 4)]
  }

  /** The last `(\w+)` is followed by nothing, so it takes its whole word too. */
  lemma LastFieldMatches(s: Text, i: nat, caps: Captures)
    requires i <= |s|
    ensures Match(LAST_FIELD, s, i, caps)
         == if IsWordAt(s, i) then Some(Hit(WordEnd(s, i), caps[4 := (i, WordEnd(s, i))])) else None
  {
    hide Match, MatchRegex, RegexSize, ContSize;
    var close := Close(4, i, Done);
    var more := Do(Star(Atom(Word), true), close);
    MatchCap(4, Plus(Atom(Word)), Done, s, i, caps);
    MatchCat(Atom(Word), Star(Atom(Word), true), close, s, i, caps);
    MatchAtom(Word, more, s, i, caps);
    if IsWordAt(s, i) {
      var e := RunEnd(Word, s, i + 1);
      MatchClose(4, i, Done, s, e, caps);
      MatchDone(s, e, caps[4 := (i, e)]);
      StarReachesEnd(Word, close, s, i + 1, caps);
    }
  }

  /** `\s*(\w+)` at the very end of the pattern. */
  lemma WsLastFieldMatches(s: Text, i: nat, caps: Captures)
    requires i <= |s|
    ensures Match(Ws(LAST_FIELD), s, i, caps)
         == var j := SkipWs(s, i);
            if IsWordAt(s, j) then Some(Hit(WordEnd(s, j), caps[4 := (j, WordEnd(s, j))])) else None
  {
    hide Match, MatchRegex, RegexSize, ContSize;
    StartsApart(Word, Space, 4, Done);
    SkipWsIsRun(s, i);
    StarTakesAll(Space, LAST_FIELD, s, i, caps);
    LastFieldMatches(s, SkipWs(s, i), caps);
  }

  method ArrowAt(s: Text, i: nat) returns (r: Option<nat>)
    ensures r == ArrowEnd(s, i)
  {
    if At(s, i, DASH) && At(s, i + 1, GREATER) {
      return Some(i + 2);
    } else if At(s, i, DOT) {
      return Some(i + 1);
    }
    return None;
  }

  /** Nothing in the pattern is worth giving back: one deterministic pass decides it. */
  method FieldAssignAt(s: Text, p: nat) returns (r: Option<(Range, Range)>)
    requires p < |s| && IsWord(s[p])
    ensures r.Some? ==> p < r.value.0.0 <= r.value.0.1 <= r.value.1.0 < r.value.1.1 <= |s|
    ensures var m := Match(FIELD_ASSIGN, s, p, map[]);
            && (m.Some? <==> r.Some?)
            && (r.Some? ==> m.value.end == r.value.1.1 && 2 in m.value.caps && 4 in m.value.caps
                            && m.value.caps[2] == r.value.0 && m.value.caps[4] == r.value.1)
  {
    hide Match, MatchRegex, RegexSize, ContSize, Rejects, SkipWs, WordEnd, ArrowEnd;
    var w1 := WordEndFrom(s, p);
    ghost var caps: Captures := map[1 := (p, w1)];
    WsArrowMatches(Ws(WordCap(2, FIELD_EQUALS)), s, w1, caps);
    WordMatches(1, LEFT_ARROW, s, p, map[]);
    var at := SkipJsws(s, w1);
    var a1 := ArrowAt(s, at);
    if a1.None? {
      return None;
    }
    WsChrRejectsWord(EQUALS, RIGHT_SIDE);
    WsWordMatches(2, FIELD_EQUALS, s, a1.value, caps);
    var f1s := SkipJsws(s, a1.value);
    if !IsWordAt(s, f1s) {
      return None;
    }
    var f1e := WordEndFrom(s, f1s);
    caps := caps[2 := (f1s, f1e)];
    WsChrMatches(EQUALS, RIGHT_SIDE, s, f1e, caps);
    var eq := SkipJsws(s, f1e);
    if !At(s, eq, EQUALS) {
      return None;
    }
    WsArrowMatches(Ws(LAST_FIELD), s, eq, caps);
    WsWordMatches(3, RIGHT_ARROW, s, eq + 1, caps);
    var r1s := SkipJsws(s, eq + 1);
    if !IsWordAt(s, r1s) {
      return None;
    }
    var r1e := WordEndFrom(s, r1s);
    caps := caps[3 := (r1s, r1e)];
    WsArrowMatches(Ws(LAST_FIELD), s, r1e, caps);
    at := SkipJsws(s, r1e);
    var a2 := ArrowAt(s, at);
    if a2.None? {
      return None;
    }
    WsLastFieldMatches(s, a2.value, caps);
    var f2s := SkipJsws(s, a2.value);
    if !IsWordAt(s, f2s) {
      return None;
    }
    var f2e := WordEndFrom(s, f2s);
    return Some(((f1s, f1e), (f2s, f2e)));
  }

  /** Every pattern below that begins with `(\w+)` fails off a word. */
  lemma NoWordNoMatch(n: nat, k: Cont, s: Text, i: nat, caps: Captures)
    requires i <= |s| && !IsWordAt(s, i) && Rejects(k, Word)
    ensures Match(WordCap(n, k), s, i, caps).None?
  {
    hide Match, MatchRegex, RegexSize, ContSize;
    WordMatches(n, k, s, i, caps);
  }

  method ScanFieldAssign(s: Text) returns (out: seq<Text>)
    ensures out == Tokens(AllMatches(FIELD_ASSIGN, s, 0), s, FieldPair)
  {
    hide Match, MatchRegex, RegexSize, ContSize, AllMatches, Rejects, FIELD_ASSIGN;
    out := [];
    var pos := 0;
    while pos < |s|
      invariant pos <= |s|
      invariant Tokens(AllMatches(FIELD_ASSIGN, s, 0), s, FieldPair)
             == out + Tokens(AllMatches(FIELD_ASSIGN, s, pos), s, FieldPair)
    {
      var r: Option<(Range, Range)> := None;
      if IsWord(s[pos]) {
        r := FieldAssignAt(s, pos);
      } else {
        FieldAssignNeedsWord(s, pos);
      }
      match r
      case Some((lf, rf)) =>
        TakeMatch(FIELD_ASSIGN, s, pos, FieldPair);
        out := out + [s[lf.0..lf.1] + [0] + s[rf.0..rf.1]];
        pos := rf.1;
      case None =>
        MissOne(FIELD_ASSIGN, s, pos);
        pos := pos + 1;
    }
    FieldAssignNeedsWord(s, pos);
    MissOne(FIELD_ASSIGN, s, pos);
  }

  lemma FieldAssignNeedsWord(s: Text, i: nat)
    requires i <= |s| && !IsWordAt(s, i)
    ensures Match(FIELD_ASSIGN, s, i, map[]).None?
  {
    WsArrowMatches(Ws(WordCap(2, FIELD_EQUALS)), s, i, map[]);
    NoWordNoMatch(1, LEFT_ARROW, s, i, map[]);
  }

  // ---------------------------------------------------------------- \s*\)?\s*\(

  const CLOSER: Regex := Atom(OneOf({CLOSE_PAREN}))
  const CALL: Cont := Ws(Chr(OPEN_PAREN, Done))
  const CLOSE_CALL: Cont := Ws(Do(Opt(CLOSER), CALL))

  function CallEnd(s: Text, i: nat): (r: Option<nat>)
    requires i <= |s|
    ensures r.Some? ==> i < r.value <= |s|
  {
    var j := SkipWs(s, i);
    var open := if At(s, j, CLOSE_PAREN) then SkipWs(s, j + 1) else j;
    if At(s, open, OPEN_PAREN) then Some(open + 1) else None
  }

  lemma CallMatches(s: Text, i: nat, caps: Captures)
    requires i <= |s|
    ensures Match(CALL, s, i, caps)
         == var j := SkipWs(s, i); if At(s, j, OPEN_PAREN) then Some(Hit(j + 1, caps)) else None
  {
    hide Match, MatchRegex, RegexSize, ContSize;
    WsChrMatches(OPEN_PAREN, Done, s, i, caps);
    if At(s, SkipWs(s, i), OPEN_PAREN) {
      MatchDone(s, SkipWs(s, i) + 1, caps);
    }
  }

  /** The optional `)` is never worth giving back: `\(` cannot match on it. */
  lemma CloseCallMatches(s: Text, i: nat, caps: Captures)
    requires i <= |s|
    ensures Match(CLOSE_CALL, s, i, caps)
         == var e := CallEnd(s, i); if e.Some? then Some(Hit(e.value, caps)) else None
    ensures Rejects(CLOSE_CALL, Word)
  {
    hide Match, MatchRegex, RegexSize, ContSize, SkipWs;
    var j := SkipWs(s, i);
    SpacesBeforeOptional(CLOSER, OPEN_PAREN, Done, s, i, caps);
    MatchAlt(CLOSER, Empty, CALL, s, j, caps);
    MatchPlain(CALL, s, j, caps);
    ChrMatches(CLOSE_PAREN, CALL, s, j, caps);
    CallMatches(s, j, caps);
    if At(s, j, CLOSE_PAREN) {
      CallMatches(s, j + 1, caps);
    }
    WsChrRejectsWord(OPEN_PAREN, Done);
    assert Avoids(Opt(CLOSER), Word);
    StartsApart(Space, Word, 0, Do(Opt(CLOSER), CALL));
  }

  method CloseCallTail(s: Text, i: nat) returns (r: Option<nat>)
    requires i <= |s|
    ensures r == CallEnd(s, i)
  {
    var j := SkipJsws(s, i);
    if At(s, j, CLOSE_PAREN) {
      j := SkipJsws(s, j + 1);
    }
    if At(s, j, OPEN_PAREN) {
      return Some(j + 1);
    }
    return None;
  }

  // ---------------------------------------------------------------- \w+(?:\s*\[[^\][]*\])?\s*(?:->|\.)\s*

  const SUBSCRIPT: Regex := Cat(Star(Atom(Space), true), Bracketed(NOT_BRACKET))
  const ARROW_SPACE: Regex := Cat(ARROW, Star(Atom(Space), true))
  const ARROW_TAIL: Regex := Cat(Star(Atom(Space), true), ARROW_SPACE)
  const SEGMENT_TAIL: Regex := Cat(Opt(SUBSCRIPT), ARROW_TAIL)
  const SEGMENT: Regex := Cat(Plus(Atom(Word)), SEGMENT_TAIL)

  function ArrowTailEnd(s: Text, i: nat): (r: Option<nat>)
    requires i <= |s|
    ensures r.Some? ==> i < r.value <= |s|
  {
    var a := ArrowEnd(s, SkipWs(s, i));
    if a.Some? then Some(SkipWs(s, a.value)) else None
  }

  lemma ArrowTailMatches(k: Cont, s: Text, i: nat, caps: Captures)
    requires i <= |s| && Rejects(k, Space)
    ensures Match(Do(ARROW_TAIL, k), s, i, caps)
         == var e := ArrowTailEnd(s, i); if e.Some? then Match(k, s, e.value, caps) else None
  {
    hide Match, MatchRegex, RegexSize, ContSize, SkipWs;
    var j := SkipWs(s, i);
    MatchCat(Star(Atom(Space), true), ARROW_SPACE, k, s, i, caps);
    ArrowAvoids();
    assert Avoids(ARROW_SPACE, Space);
    assert Rejects(Do(ARROW_SPACE, k), Space);
    SkipWsIsRun(s, i);
    StarTakesAll(Space, Do(ARROW_SPACE, k), s, i, caps);
    MatchCat(ARROW, Star(Atom(Space), true), k, s, j, caps);
    ArrowMatches(Do(Star(Atom(Space), true), k), s, j, caps);
    var a := ArrowEnd(s, j);
    if a.Some? {
      SkipWsIsRun(s, a.value);
      StarTakesAll(Space, k, s, a.value, caps);
    }
  }

  /** The subscript of a segment whose name ends at `we`. */
  function SubscriptEnd(s: Text, we: nat): (r: Option<nat>)
    requires we <= |s|
    ensures r.Some? ==> we < r.value <= |s|
  {
    BracketEnd(NOT_BRACKET, s, SkipWs(s, we))
  }

  /** Where the segment whose name ends at `we` ends: with its subscript, or else without. */
  function SegmentEnd(s: Text, we: nat): (r: Option<nat>)
    requires we <= |s|
    ensures r.Some? ==> we < r.value <= |s|
  {
    var sub := SubscriptEnd(s, we);
    var with := if sub.Some? then ArrowTailEnd(s, sub.value) else None;
    if with.Some? then with else ArrowTailEnd(s, we)
  }

  lemma SubscriptMatches(k: Cont, s: Text, we: nat, caps: Captures)
    requires we <= |s|
    ensures Match(Do(SUBSCRIPT, k), s, we, caps)
         == var e := SubscriptEnd(s, we); if e.Some? then Match(k, s, e.value, caps) else None
  {
    hide Match, MatchRegex, RegexSize, ContSize, SkipWs;
    MatchCat(Star(Atom(Space), true), Bracketed(NOT_BRACKET), k, s, we, caps);
    BracketAvoids(NOT_BRACKET, Space, 0);
    SkipWsIsRun(s, we);
    StarTakesAll(Space, Do(Bracketed(NOT_BRACKET), k), s, we, caps);
    BracketMatches(NOT_BRACKET, k, s, SkipWs(s, we), caps);
  }

  /** With and without the subscript lead to different bytes, so at most one completes the segment. */
  lemma SegmentTailMatches(k: Cont, s: Text, we: nat, caps: Captures)
    requires we <= |s| && Rejects(k, Space)
    ensures Match(Do(SEGMENT_TAIL, k), s, we, caps)
         == var e := SegmentEnd(s, we); if e.Some? then Match(k, s, e.value, caps) else None
  {
    hide Match, MatchRegex, RegexSize, ContSize, SkipWs, Rejects;
    var arrow := Do(ARROW_TAIL, k);
    MatchCat(Opt(SUBSCRIPT), ARROW_TAIL, k, s, we, caps);
    MatchAlt(SUBSCRIPT, Empty, arrow, s, we, caps);
    MatchPlain(arrow, s, we, caps);
    SubscriptMatches(arrow, s, we, caps);
    ArrowTailMatches(k, s, we, caps);
    var sub := SubscriptEnd(s, we);
    if sub.Some? {
      ArrowTailMatches(k, s, sub.value, caps);
    }
  }

  lemma SegmentMatches(k: Cont, s: Text, i: nat, caps: Captures)
    requires i <= |s| && Rejects(k, Space)
    ensures Match(Do(SEGMENT, k), s, i, caps)
         == if IsWordAt(s, i) && SegmentEnd(s, WordEnd(s, i)).Some?
            then Match(k, s, SegmentEnd(s, WordEnd(s, i)).value, caps)
            else None
  {
    hide Match, MatchRegex, RegexSize, ContSize, SegmentEnd;
    var tail := Do(SEGMENT_TAIL, k);
    MatchCat(Plus(Atom(Word)), SEGMENT_TAIL, k, s, i, caps);
    assert Rejects(tail, Word) by {
      BracketAvoids(NOT_BRACKET, Word, 0);
      ArrowAvoids();
      assert Avoids(SUBSCRIPT, Word);
      assert Avoids(Opt(SUBSCRIPT), Word);
      assert Avoids(ARROW_SPACE, Word) && Consumes(ARROW_SPACE);
      assert Avoids(ARROW_TAIL, Word) && Consumes(ARROW_TAIL);
    }
    PlusTakesAll(Word, tail, s, i, caps);
    assert Width(Word, s, i) > 0 <==> IsWordAt(s, i);
    if IsWordAt(s, i) {
      SegmentTailMatches(k, s, WordEnd(s, i), caps);
    }
  }

  // ---------------------------------------------------------------- dispatch

  const FIELD: Cont := WordCap(2, CLOSE_CALL)

  /** `((?:\w+(?:\s*\[[^\][]*\])?\s*(?:->|\.)\s*)+)(\w+)\s*\)?\s*\(` */
  const DISPATCH: Cont := Do(Cap(1, Plus(SEGMENT)), FIELD)

  ghost function SecondGroup(s: Text, h: Hit): seq<Text> { [Group(s, h, 2)] }

  /** Where the greedy segment loop stops. */
  function SegmentsEnd(s: Text, i: nat): (e: nat)
    requires i <= |s|
    ensures i <= e <= |s|
    decreases |s| - i
  {
    if IsWordAt(s, i) && SegmentEnd(s, WordEnd(s, i)).Some?
    then SegmentsEnd(s, SegmentEnd(s, WordEnd(s, i)).value)
    else i
  }

  lemma FieldMatches(s: Text, i: nat, caps: Captures)
    requires i <= |s|
    ensures Match(FIELD, s, i, caps)
         == if IsWordAt(s, i) && CallEnd(s, WordEnd(s, i)).Some?
            then Some(Hit(CallEnd(s, WordEnd(s, i)).value, caps[2 := (i, WordEnd(s, i))]))
            else None
  {
    hide Match, MatchRegex, RegexSize, ContSize, CallEnd;
    CloseCallMatches(s, i, caps);
    WordMatches(2, CLOSE_CALL, s, i, caps);
    if IsWordAt(s, i) {
      CloseCallMatches(s, WordEnd(s, i), caps[2 := (i, WordEnd(s, i))]);
    }
  }

  /** After a name that starts a segment there is `[`, `->` or `.`, so no call can follow it. */
  lemma SegmentBlocksCall(s: Text, we: nat)
    requires we <= |s| && SegmentEnd(s, we).Some?
    ensures CallEnd(s, we).None?
  {
    hide SkipWs;
  }

  /** Giving back a segment never helps: only the last greedy segment can precede the field. */
  lemma {:induction false} SegmentsCommit(from: nat, s: Text, i: nat, caps: Captures)
    requires i <= |s|
    ensures Match(Do(Star(SEGMENT, true), Close(1, from, FIELD)), s, i, caps)
         == Match(Close(1, from, FIELD), s, SegmentsEnd(s, i), caps)
    decreases |s| - i
  {
    hide Match, MatchRegex, RegexSize, ContSize, SegmentEnd, CallEnd;
    var k := Close(1, from, FIELD);
    var again := Loop(SEGMENT, true, i, k);
    MatchStar(SEGMENT, true, k, s, i, caps);
    assert Rejects(again, Space) by {
      StartsApart(Word, Space, 2, CLOSE_CALL);
      assert Avoids(Plus(Atom(Word)), Space) && Consumes(Plus(Atom(Word)));
    }
    SegmentMatches(again, s, i, caps);
    if IsWordAt(s, i) && SegmentEnd(s, WordEnd(s, i)).Some? {
      var e := SegmentEnd(s, WordEnd(s, i)).value;
      MatchLoop(SEGMENT, true, i, k, s, e, caps);
      SegmentsCommit(from, s, e, caps);
      MatchClose(1, from, FIELD, s, i, caps);
      FieldMatches(s, i, caps[1 := (from, i)]);
      SegmentBlocksCall(s, WordEnd(s, i));
    }
  }

  /** The whole pattern from a start position: at least one segment, then the field and its call. */
  lemma DispatchMatches(s: Text, i: nat)
    requires i <= |s|
    ensures var last := SegmentsEnd(s, i);
            Match(DISPATCH, s, i, map[])
              == if last > i then Match(FIELD, s, last, map[1 := (i, last)]) else None
  {
    hide Match, MatchRegex, RegexSize, ContSize, SegmentEnd;
    var k := Close(1, i, FIELD);
    var more := Do(Star(SEGMENT, true), k);
    MatchCap(1, Plus(SEGMENT), FIELD, s, i, map[]);
    MatchCat(SEGMENT, Star(SEGMENT, true), k, s, i, map[]);
    assert Rejects(more, Space) by {
      StartsApart(Word, Space, 2, CLOSE_CALL);
      assert Avoids(Plus(Atom(Word)), Space) && Consumes(Plus(Atom(Word)));
      assert Avoids(SEGMENT, Space);
      CloseRejects(1, i, FIELD, Space);
    }
    SegmentMatches(more, s, i, map[]);
    if IsWordAt(s, i) && SegmentEnd(s, WordEnd(s, i)).Some? {
      var e := SegmentEnd(s, WordEnd(s, i)).value;
      SegmentsCommit(i, s, e, map[]);
      MatchClose(1, i, FIELD, s, SegmentsEnd(s, e), map[]);
    }
  }

  method ArrowTail(s: Text, i: nat) returns (r: Option<nat>)
    requires i <= |s|
    ensures r == ArrowTailEnd(s, i)
  {
    var at := SkipJsws(s, i);
    var a := ArrowAt(s, at);
    if a.None? {
      return None;
    }
    var e := SkipJsws(s, a.value);
    return Some(e);
  }

  /** The position after each greedy segment; every one but the last is the start of another. */
  method SegmentEnds(s: Text, pos: nat) returns (ends: seq<nat>)
    requires pos <= |s|
    ensures forall k :: 0 <= k < |ends| ==> pos < ends[k] <= |s|
    ensures forall k :: 0 <= k < |ends| - 1 ==> IsWordAt(s, ends[k]) && SegmentEnd(s, WordEnd(s, ends[k])).Some?
    ensures SegmentsEnd(s, pos) == if ends == [] then pos else ends[|ends| - 1]
  {
    hide SegmentEnd, WordEnd;
    ends := [];
    var cur := pos;
    while IsWordAt(s, cur)
      invariant pos <= cur <= |s|
      invariant cur == if ends == [] then pos else ends[|ends| - 1]
      invariant forall k :: 0 <= k < |ends| ==> pos < ends[k] <= |s|
      invariant forall k :: 0 <= k < |ends| - 1 ==> IsWordAt(s, ends[k]) && SegmentEnd(s, WordEnd(s, ends[k])).Some?
      invariant SegmentsEnd(s, pos) == SegmentsEnd(s, cur)
      decreases |s| - cur
    {
      var we := WordEndFrom(s, cur);
      var segment := SegmentAt(s, we);
      match segment
      case Some(e) =>
        ends := ends + [e];
        cur := e;
      case None =>
        break;
    }
  }

  method SegmentAt(s: Text, we: nat) returns (r: Option<nat>)
    requires we <= |s|
    ensures r == SegmentEnd(s, we)
  {
    var at := SkipJsws(s, we);
    var sub := SubscriptSpan(s, at);
    r := None;
    if sub.Some? {
      r := ArrowTail(s, sub.value);
    }
    if r.None? {
      r := ArrowTail(s, we);
    }
  }

  /** Tries the field after each segment count, greatest first. */
  method DispatchAt(s: Text, pos: nat) returns (r: Option<(Range, nat)>)
    requires pos < |s| && IsWord(s[pos])
    ensures r.Some? ==> pos < r.value.1 <= |s| && r.value.0.0 <= r.value.0.1 <= |s|
    ensures Match(DISPATCH, s, pos, map[])
         == if r.Some? then Some(Hit(r.value.1, map[1 := (pos, r.value.0.0), 2 := r.value.0])) else None
  {
    hide Match, MatchRegex, RegexSize, ContSize, SegmentEnd, WordEnd, CallEnd;
    var ends := SegmentEnds(s, pos);
    DispatchMatches(s, pos);
    var k: nat := |ends|;
    if k > 0 {
      FieldMatches(s, ends[k - 1], map[1 := (pos, ends[k - 1])]);
    }
    while k >= 1
      invariant 0 <= k <= |ends|
      invariant k < |ends| ==> Match(DISPATCH, s, pos, map[]).None?
    {
      var fpos := ends[k - 1];
      if IsWordAt(s, fpos) {
        var fe := WordEndFrom(s, fpos);
        var end := CloseCallTail(s, fe);
        if end.Some? {
          if k < |ends| {
            SegmentBlocksCall(s, fe);
          }
          return Some(((fpos, fe), end.value));
        }
      }
      k := k - 1;
    }
    return None;
  }

  lemma DispatchNeedsWord(s: Text, i: nat)
    requires i <= |s| && !IsWordAt(s, i)
    ensures Match(DISPATCH, s, i, map[]).None?
  {
    hide Match, MatchRegex, RegexSize, ContSize;
    DispatchMatches(s, i);
  }

  method ScanDispatch(s: Text) returns (out: seq<Text>)
    ensures out == Tokens(AllMatches(DISPATCH, s, 0), s, SecondGroup)
  {
    hide Match, MatchRegex, RegexSize, ContSize, AllMatches, DISPATCH;
    out := [];
    var pos := 0;
    while pos < |s|
      invariant pos <= |s|
      invariant Tokens(AllMatches(DISPATCH, s, 0), s, SecondGroup)
             == out + Tokens(AllMatches(DISPATCH, s, pos), s, SecondGroup)
    {
      var r: Option<(Range, nat)> := None;
      if IsWord(s[pos]) {
        r := DispatchAt(s, pos);
      } else {
        DispatchNeedsWord(s, pos);
      }
      match r
      case Some((field, end)) =>
        TakeMatch(DISPATCH, s, pos, SecondGroup);
        out := out + [s[field.0..field.1]];
        pos := end;
      case None =>
        MissOne(DISPATCH, s, pos);
        pos := pos + 1;
    }
    DispatchNeedsWord(s, pos);
    MissOne(DISPATCH, s, pos);
  }

  // ---------------------------------------------------------------- array dispatch

  const STAR_SPACE: Regex := Cat(Atom(OneOf({STAR})), Star(Atom(Space), true))
  const SPACE_STAR: Regex := Cat(Star(Atom(Space), true), STAR_SPACE)
  const DEREF: Regex := Cat(Atom(OneOf({OPEN_PAREN})), SPACE_STAR)
  const INDEXED: Cont := Do(Bracketed(NOT_BRACKET), CLOSE_CALL)
  const ARRAY_NAME: Cont := WordCap(1, Ws(INDEXED))
  const BOUND_NAME: Cont := Do(Boundary, ARRAY_NAME)

  /** `(?:\(\s*\*\s*)?\b(\w+)\s*\[[^\][]*\]\s*\)?\s*\(` */
  const ARRAY_DISPATCH: Cont := Do(Opt(DEREF), BOUND_NAME)

  /** Where the subscripted call of a name that ends at `ne` ends. */
  function IndexedEnd(s: Text, ne: nat): (r: Option<nat>)
    requires ne <= |s|
    ensures r.Some? ==> ne < r.value <= |s|
  {
    var sub := SubscriptEnd(s, ne);
    if sub.Some? then CallEnd(s, sub.value) else None
  }

  lemma ArrayNameMatches(s: Text, i: nat)
    requires i <= |s|
    ensures Match(ARRAY_NAME, s, i, map[])
         == if IsWordAt(s, i) && IndexedEnd(s, WordEnd(s, i)).Some?
            then Some(Hit(IndexedEnd(s, WordEnd(s, i)).value, map[1 := (i, WordEnd(s, i))]))
            else None
  {
    hide Match, MatchRegex, RegexSize, ContSize, SkipWs, CallEnd;
    BracketAvoids(NOT_BRACKET, Word, 0);
    BracketAvoids(NOT_BRACKET, Space, 0);
    StartsApart(Space, Word, 0, INDEXED);
    WordMatches(1, Ws(INDEXED), s, i, map[]);
    if IsWordAt(s, i) {
      var ne := WordEnd(s, i);
      var caps: Captures := map[1 := (i, ne)];
      SkipWsIsRun(s, ne);
      StarTakesAll(Space, INDEXED, s, ne, caps);
      BracketMatches(NOT_BRACKET, CLOSE_CALL, s, SkipWs(s, ne), caps);
      var sub := SubscriptEnd(s, ne);
      if sub.Some? {
        CloseCallMatches(s, sub.value, caps);
      }
    }
  }

  /** A skipped space run ends after a non-word byte. */
  lemma {:induction false} BoundaryAfterSpaces(s: Text, i: nat)
    requires i <= |s| && SkipWs(s, i) > i
    ensures BoundaryBefore(s, SkipWs(s, i))
    decreases |s| - i
  {
    var w := JswsLen(s, i);
    assert Width(Space, s, i) == w;
    assert !IsWord(s[i + w - 1]);
    assert SkipWs(s, i + w) == SkipWs(s, i);
    if SkipWs(s, i + w) > i + w {
      BoundaryAfterSpaces(s, i + w);
    }
  }

  /** Where the name starts: after `( *`, or here at a word boundary. */
  function NameStart(s: Text, pos: nat): (r: Option<nat>)
    requires pos <= |s|
    ensures r.Some? ==> pos <= r.value < |s| && IsWord(s[r.value])
  {
    if At(s, pos, OPEN_PAREN) then
      var star := SkipWs(s, pos + 1);
      if !At(s, star, STAR) then None
      else
        var j := SkipWs(s, star + 1);
        if IsWordAt(s, j) then Some(j) else None
    else if IsWordAt(s, pos) && BoundaryBefore(s, pos) then Some(pos)
    else None
  }

  lemma SpaceStarMatches(s: Text, i: nat)
    requires i <= |s|
    ensures var star := SkipWs(s, i);
            Match(Do(SPACE_STAR, BOUND_NAME), s, i, map[])
              == if At(s, star, STAR) then Match(BOUND_NAME, s, SkipWs(s, star + 1), map[]) else None
  {
    hide Match, MatchRegex, RegexSize, ContSize, SkipWs, IndexedEnd, RunEnd, Rejects;
    var spaced := Do(STAR_SPACE, BOUND_NAME);
    var j := SkipWs(s, i);
    MatchCat(Star(Atom(Space), true), STAR_SPACE, BOUND_NAME, s, i, map[]);
    BoundNameRejects();
    SkipWsIsRun(s, i);
    StarTakesAll(Space, spaced, s, i, map[]);
    MatchCat(Atom(OneOf({STAR})), Star(Atom(Space), true), BOUND_NAME, s, j, map[]);
    ChrMatches(STAR, Do(Star(Atom(Space), true), BOUND_NAME), s, j, map[]);
    if At(s, j, STAR) {
      SkipWsIsRun(s, j + 1);
      StarTakesAll(Space, BOUND_NAME, s, j + 1, map[]);
    }
  }

  lemma BoundNameRejects()
    ensures Rejects(BOUND_NAME, Space) && Rejects(Do(STAR_SPACE, BOUND_NAME), Space)
  {
    StartsApart(Word, Space, 1, Ws(INDEXED));
    assert Avoids(Atom(OneOf({STAR})), Space) && Consumes(Atom(OneOf({STAR})));
    assert Avoids(STAR_SPACE, Space) && Consumes(STAR_SPACE);
  }

  lemma DerefMatches(s: Text, pos: nat)
    requires pos <= |s|
    ensures Match(Do(DEREF, BOUND_NAME), s, pos, map[])
         == if !At(s, pos, OPEN_PAREN) then None
            else
              var star := SkipWs(s, pos + 1);
              if At(s, star, STAR) then Match(BOUND_NAME, s, SkipWs(s, star + 1), map[]) else None
  {
    hide Match, MatchRegex, RegexSize, ContSize, SkipWs, IndexedEnd, RunEnd, Rejects;
    MatchCat(Atom(OneOf({OPEN_PAREN})), SPACE_STAR, BOUND_NAME, s, pos, map[]);
    ChrMatches(OPEN_PAREN, Do(SPACE_STAR, BOUND_NAME), s, pos, map[]);
    if At(s, pos, OPEN_PAREN) {
      SpaceStarMatches(s, pos + 1);
    }
  }

  lemma ArrayDispatchMatches(s: Text, pos: nat)
    requires pos <= |s|
    ensures var ns := NameStart(s, pos);
            Match(ARRAY_DISPATCH, s, pos, map[])
              == if ns.Some? then Match(ARRAY_NAME, s, ns.value, map[]) else None
  {
    hide Match, MatchRegex, RegexSize, ContSize, SkipWs, IndexedEnd;
    MatchAlt(DEREF, Empty, BOUND_NAME, s, pos, map[]);
    MatchPlain(BOUND_NAME, s, pos, map[]);
    MatchPlain(ARRAY_NAME, s, pos, map[]);
    ArrayNameMatches(s, pos);
    DerefMatches(s, pos);
    if At(s, pos, OPEN_PAREN) {
      var star := SkipWs(s, pos + 1);
      if At(s, star, STAR) {
        var j := SkipWs(s, star + 1);
        if j > star + 1 {
          BoundaryAfterSpaces(s, star + 1);
        }
        MatchPlain(ARRAY_NAME, s, j, map[]);
        ArrayNameMatches(s, j);
      }
    }
  }

  method ArrayDispatchAt(s: Text, pos: nat) returns (r: Option<(Range, nat)>)
    requires pos < |s|
    ensures r.Some? ==> pos < r.value.1 <= |s| && r.value.0.0 <= r.value.0.1 <= |s|
    ensures Match(ARRAY_DISPATCH, s, pos, map[])
         == if r.Some? then Some(Hit(r.value.1, map[1 := r.value.0])) else None
  {
    hide Match, MatchRegex, RegexSize, ContSize, SkipWs, WordEnd, CallEnd;
    ArrayDispatchMatches(s, pos);
    var b := s[pos];
    if b != OPEN_PAREN && !(IsWord(b) && BoundaryBefore(s, pos)) {
      return None;
    }
    var ns := pos;
    if b == OPEN_PAREN {
      var i := SkipJsws(s, pos + 1);
      if !At(s, i, STAR) {
        return None;
      }
      ns := SkipJsws(s, i + 1);
      if !IsWordAt(s, ns) {
        return None;
      }
    }
    ArrayNameMatches(s, ns);
    var ne := WordEndFrom(s, ns);
    var at := SkipJsws(s, ne);
    var sub := SubscriptSpan(s, at);
    if sub.None? {
      return None;
    }
    var end := CloseCallTail(s, sub.value);
    if end.None? {
      return None;
    }
    return Some(((ns, ne), end.value));
  }

  method ScanArrayDispatch(s: Text) returns (out: seq<Text>)
    ensures out == Tokens(AllMatches(ARRAY_DISPATCH, s, 0), s, FirstGroup)
  {
    hide Match, MatchRegex, RegexSize, ContSize, AllMatches, ARRAY_DISPATCH;
    out := [];
    var pos := 0;
    while pos < |s|
      invariant pos <= |s|
      invariant Tokens(AllMatches(ARRAY_DISPATCH, s, 0), s, FirstGroup)
             == out + Tokens(AllMatches(ARRAY_DISPATCH, s, pos), s, FirstGroup)
    {
      var r := ArrayDispatchAt(s, pos);
      match r
      case Some((name, end)) =>
        TakeMatch(ARRAY_DISPATCH, s, pos, FirstGroup);
        out := out + [s[name.0..name.1]];
        pos := end;
      case None =>
        MissOne(ARRAY_DISPATCH, s, pos);
        pos := pos + 1;
    }
    ArrayDispatchMatches(s, pos);
    MissOne(ARRAY_DISPATCH, s, pos);
  }
}
