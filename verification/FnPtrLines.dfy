// The alias pattern as JavaScript runs it, over the whole text with the m and g flags, against the scan by lines.

module FnPtrLines {
  import opened Wrappers
  import opened Chars
  import opened JsRegex
  import opened FnPtrPatterns
  import opened FnPtrSkeletons
  import opened FnPtrMacros
  import opened Seqs

  // ---------------------------------------------------------------- the m flag

  /** The same expression with the m flag. */
  function MultiRegex(r: Regex): Regex {
    match r
    case Begin => LineBegin
    case End => LineFinish
    case Cat(a, b) => Cat(MultiRegex(a), MultiRegex(b))
    case Alt(a, b) => Alt(MultiRegex(a), MultiRegex(b))
    case Star(a, greedy) => Star(MultiRegex(a), greedy)
    case Cap(n, a) => Cap(n, MultiRegex(a))
    case _ => r
  }

  function Multi(k: Cont): Cont {
    match k
    case Done => Done
    case Do(r, k') => Do(MultiRegex(r), Multi(k'))
    case Close(n, from, k') => Close(n, from, Multi(k'))
    case Loop(a, greedy, from, k') => Loop(MultiRegex(a), greedy, from, Multi(k'))
  }

  /** `/^[ \t]*#[ \t]*define[ \t]+(\w+)[ \t]+(?:(?:struct|union)[ \t]+)*[A-Za-z_]\w*[ \t\r]*$/m` */
  const ALIAS: Cont := Multi(ALIAS_LINE)

  predicate AnchorFree(r: Regex) {
    match r
    case Begin => false
    case End => false
    case Cat(a, b) => AnchorFree(a) && AnchorFree(b)
    case Alt(a, b) => AnchorFree(a) && AnchorFree(b)
    case Star(a, _) => AnchorFree(a)
    case Cap(_, a) => AnchorFree(a)
    case _ => true
  }

  lemma {:induction false} FreeIsSame(r: Regex)
    requires AnchorFree(r)
    ensures MultiRegex(r) == r
    decreases r
  {
    match r
    case Cat(a, b) => FreeIsSame(a); FreeIsSame(b);
    case Alt(a, b) => FreeIsSame(a); FreeIsSame(b);
    case Star(a, _) => FreeIsSame(a);
    case Cap(_, a) => FreeIsSame(a);
    case _ =>
  }

  // ---------------------------------------------------------------- matching inside one line of a text

  /** Accepts single bytes or a word, and never a newline. */
  predicate InLine(c: Class) {
    match c
    case Word => true
    case Space => false
    case OneOf(bytes) => NEWLINE !in bytes
    case NoneOf(bytes) => NEWLINE in bytes
    case Lit(text) => text != [] && NEWLINE !in text
  }

  predicate Local(r: Regex) {
    match r
    case Atom(c) => InLine(c)
    case Boundary => false
    case Begin => false
    case End => false
    case Cat(a, b) => Local(a) && Local(b)
    case Alt(a, b) => Local(a) && Local(b)
    case Star(a, _) => Local(a)
    case Cap(_, a) => Local(a)
    case _ => true
  }

  predicate LocalCont(k: Cont) {
    match k
    case Done => true
    case Do(r, k') => Local(r) && LocalCont(k')
    case Close(_, _, k') => LocalCont(k')
    case Loop(a, _, _, k') => Local(a) && LocalCont(k')
  }

  /** `[a, b)` is the rest of a line of `s`, from its start or from a carriage return on. */
  predicate IsLine(s: Text, a: nat, b: nat) {
    && a <= b <= |s|
    && (a == 0 || s[a - 1] == NEWLINE || s[a - 1] == RETURN) && (b == |s| || s[b] == NEWLINE)
    && (forall j :: a <= j < b ==> s[j] != NEWLINE)
  }

  function Moved(k: Cont, d: nat): Cont {
    match k
    case Done => Done
    case Do(r, k') => Do(r, Moved(k', d))
    case Close(n, from, k') => Close(n, from + d, Moved(k', d))
    case Loop(a, greedy, from, k') => Loop(a, greedy, from + d, Moved(k', d))
  }

  function MovedCaps(caps: Captures, d: nat): Captures { map n | n in caps :: (caps[n].0 + d, caps[n].1 + d) }

  function MovedHit(m: Option<Hit>, d: nat): Option<Hit> {
    if m.Some? then Some(Hit(m.value.end + d, MovedCaps(m.value.caps, d))) else None
  }

  lemma MovedClose(caps: Captures, n: nat, from: nat, i: nat, d: nat)
    ensures MovedCaps(caps[n := (from, i)], d) == MovedCaps(caps, d)[n := (from + d, i + d)]
  {}

  lemma MovedElse(a: Option<Hit>, b: Option<Hit>, d: nat)
    ensures MovedHit(OrElse(a, b), d) == OrElse(MovedHit(a, d), MovedHit(b, d))
  {}

  lemma SliceOfSlice(s: Text, a: nat, b: nat, i: nat, n: nat)
    requires a + i + n <= b <= |s|
    ensures s[a + i..a + i + n] == s[a..b][i..i + n]
  {
    var x, y := s[a + i..a + i + n], s[a..b][i..i + n];
    assert forall k :: 0 <= k < n ==> x[k] == s[a + i + k] && y[k] == s[a..b][i + k] && s[a..b][i + k] == s[a + (i + k)];
  }

  lemma WidthInLine(c: Class, s: Text, a: nat, b: nat, i: nat)
    requires IsLine(s, a, b) && InLine(c) && a + i <= b
    ensures Width(c, s, a + i) == Width(c, s[a..b], i)
  {
    if c.Lit? {
      var t := c.text;
      if a + i + |t| <= b {
        SliceOfSlice(s, a, b, i, |t|);
      } else if a + i + |t| <= |s| {
        assert s[a + i..a + i + |t|][b - (a + i)] == s[b] == NEWLINE;
      }
    }
  }

  lemma AnchorsInLine(s: Text, a: nat, b: nat, i: nat)
    requires IsLine(s, a, b) && a + i <= b
    ensures LineStartsAt(s, a + i) == LineStartsAt(s[a..b], i)
    ensures LineFinishesAt(s, a + i) == LineFinishesAt(s[a..b], i)
  {}

  /** The matcher sees no further than the line it starts in. */
  lemma {:induction false} MatchInLine(k: Cont, s: Text, a: nat, b: nat, i: nat, caps: Captures)
    requires a <= b <= |s| && IsLine(s, a, b) && LocalCont(k) && a + i <= b
    ensures Match(Moved(k, a), s, a + i, MovedCaps(caps, a)) == MovedHit(Match(k, s[a..b], i, caps), a)
    decreases b - a - i, ContSize(k, i), 1
  {
    hide Match, MatchRegex, IsLine, Local;
    var line := s[a..b];
    match k
    case Done =>
      MatchDone(s, a + i, MovedCaps(caps, a));
      MatchDone(line, i, caps);
    case Do(r, k') =>
      DoInLine(r, k', s, a, b, i, caps);
    case Close(n, from, k') =>
      MatchClose(n, from + a, Moved(k', a), s, a + i, MovedCaps(caps, a));
      MatchClose(n, from, k', line, i, caps);
      MovedClose(caps, n, from, i, a);
      MatchInLine(k', s, a, b, i, caps[n := (from, i)]);
    case Loop(body, greedy, from, k') =>
      MatchLoop(body, greedy, from + a, Moved(k', a), s, a + i, MovedCaps(caps, a));
      MatchLoop(body, greedy, from, k', line, i, caps);
      if i > from {
        LocalStar(body, greedy);
        DoInLine(Star(body, greedy), k', s, a, b, i, caps);
      }
  }

  lemma LocalStar(a: Regex, greedy: bool)
    requires Local(a)
    ensures Local(Star(a, greedy))
  {}

  lemma {:induction false} DoInLine(r: Regex, k: Cont, s: Text, a: nat, b: nat, i: nat, caps: Captures)
    requires a <= b <= |s| && IsLine(s, a, b) && Local(r) && LocalCont(k) && a + i <= b
    ensures Match(Do(r, Moved(k, a)), s, a + i, MovedCaps(caps, a)) == MovedHit(Match(Do(r, k), s[a..b], i, caps), a)
    decreases b - a - i, RegexSize(r) + ContSize(k, i), 0
  {
    hide Match, MatchRegex, IsLine, MovedCaps, Width, OrElse, MovedHit, LineStartsAt, LineFinishesAt;
    var line, moved, kk := s[a..b], MovedCaps(caps, a), Moved(k, a);
    match r
    case Atom(c) =>
      MatchAtom(c, kk, s, a + i, moved);
      MatchAtom(c, k, line, i, caps);
      WidthInLine(c, s, a, b, i);
      NoHit(a);
      if Width(c, line, i) > 0 {
        MatchInLine(k, s, a, b, i + Width(c, line, i), caps);
      }
    case Cat(x, y) =>
      MatchCat(x, y, kk, s, a + i, moved);
      MatchCat(x, y, k, line, i, caps);
      assert ContSize(Do(y, k), i) == RegexSize(y) + ContSize(k, i);
      DoInLine(x, Do(y, k), s, a, b, i, caps);
    case Alt(x, y) =>
      MatchAlt(x, y, kk, s, a + i, moved);
      MatchAlt(x, y, k, line, i, caps);
      DoInLine(x, k, s, a, b, i, caps);
      DoInLine(y, k, s, a, b, i, caps);
      MovedElse(Match(Do(x, k), line, i, caps), Match(Do(y, k), line, i, caps), a);
    case Star(x, greedy) =>
      MatchStar(x, greedy, kk, s, a + i, moved);
      MatchStar(x, greedy, k, line, i, caps);
      assert ContSize(Loop(x, greedy, i, k), i) == 1 + ContSize(k, i);
      DoInLine(x, Loop(x, greedy, i, k), s, a, b, i, caps);
      MatchInLine(k, s, a, b, i, caps);
      var more, stop := Match(Do(x, Loop(x, greedy, i, k)), line, i, caps), Match(k, line, i, caps);
      MovedElse(more, stop, a);
      MovedElse(stop, more, a);
    case Cap(n, x) =>
      MatchCap(n, x, kk, s, a + i, moved);
      MatchCap(n, x, k, line, i, caps);
      assert ContSize(Close(n, i, k), i) == 1 + ContSize(k, i);
      DoInLine(x, Close(n, i, k), s, a, b, i, caps);
    case LineBegin => AnchorInLine(k, s, a, b, i, caps);
    case LineFinish => AnchorInLine(k, s, a, b, i, caps);
    case Empty => AnchorInLine(k, s, a, b, i, caps);
    case Boundary =>
    case Begin =>
    case End =>
  }

  lemma {:induction false} AnchorInLine(k: Cont, s: Text, a: nat, b: nat, i: nat, caps: Captures)
    requires a <= b <= |s| && IsLine(s, a, b) && LocalCont(k) && a + i <= b
    ensures forall r: Regex :: r.LineBegin? || r.LineFinish? || r.Empty? ==>
              Match(Do(r, Moved(k, a)), s, a + i, MovedCaps(caps, a)) == MovedHit(Match(Do(r, k), s[a..b], i, caps), a)
    decreases b - a - i, 1 + ContSize(k, i), 0, 0
  {
    hide Match, MatchRegex, IsLine, MovedCaps, MovedHit, LineStartsAt, LineFinishesAt;
    MatchPlain(Moved(k, a), s, a + i, MovedCaps(caps, a));
    MatchPlain(k, s[a..b], i, caps);
    AnchorsInLine(s, a, b, i);
    NoHit(a);
    MatchInLine(k, s, a, b, i, caps);
  }

  lemma NoHit(d: nat)
    ensures MovedHit(None, d) == None
  {}

  // ---------------------------------------------------------------- both flags on one tidy line

  /** A carriage return stands only before the end of the line, and no other line terminator in it. */
  ghost predicate Tidy(line: Text) {
    && NEWLINE !in line
    && (forall j: nat :: j < |line| ==> BreakLen(line, j) <= 1)
    && (forall j: nat :: j < |line| && line[j] == RETURN ==> RunEnd(TRAILER, line, j) == |line|)
  }

  /** From `i` on the two continuations do the same. */
  ghost predicate SameFrom(k: Cont, k': Cont, s: Text, i: nat) {
    forall j: nat, caps :: i <= j <= |s| ==> Match(k, s, j, caps) == Match(k', s, j, caps)
  }

  lemma SameLater(k: Cont, k': Cont, s: Text, i: nat, j: nat)
    requires SameFrom(k, k', s, i) && i <= j
    ensures SameFrom(k, k', s, j)
  {}

  lemma SameNow(k: Cont, k': Cont, s: Text, i: nat, caps: Captures)
    requires i <= |s| && SameFrom(k, k', s, i)
    ensures Match(k, s, i, caps) == Match(k', s, i, caps)
  {}

  /** What comes before does not tell them apart. */
  lemma {:induction false} SameAfter(r: Regex, k: Cont, k': Cont, s: Text, i: nat, caps: Captures)
    requires i <= |s| && SameFrom(k, k', s, i)
    ensures Match(Do(r, k), s, i, caps) == Match(Do(r, k'), s, i, caps)
    decreases |s| - i, RegexSize(r), 1
  {
    hide Match, MatchRegex, SameFrom, OrElse, Width;
    match r
    case Atom(c) =>
      MatchAtom(c, k, s, i, caps);
      MatchAtom(c, k', s, i, caps);
      if Width(c, s, i) > 0 {
        SameLater(k, k', s, i, i + Width(c, s, i));
        SameNow(k, k', s, i + Width(c, s, i), caps);
      }
    case Cat(a, b) =>
      MatchCat(a, b, k, s, i, caps);
      MatchCat(a, b, k', s, i, caps);
      AllSameAfter(b, k, k', s, i, RegexSize(r));
      SameAfter(a, Do(b, k), Do(b, k'), s, i, caps);
    case Alt(a, b) =>
      MatchAlt(a, b, k, s, i, caps);
      MatchAlt(a, b, k', s, i, caps);
      SameAfter(a, k, k', s, i, caps);
      SameAfter(b, k, k', s, i, caps);
    case Star(a, greedy) =>
      MatchStar(a, greedy, k, s, i, caps);
      MatchStar(a, greedy, k', s, i, caps);
      SameNow(k, k', s, i, caps);
      LoopsSame(a, greedy, k, k', s, i);
      SameAfter(a, Loop(a, greedy, i, k), Loop(a, greedy, i, k'), s, i, caps);
    case Cap(n, a) =>
      MatchCap(n, a, k, s, i, caps);
      MatchCap(n, a, k', s, i, caps);
      ClosesSame(n, k, k', s, i);
      SameAfter(a, Close(n, i, k), Close(n, i, k'), s, i, caps);
    case _ =>
      MatchPlain(k, s, i, caps);
      MatchPlain(k', s, i, caps);
      SameNow(k, k', s, i, caps);
  }

  lemma {:induction false} AllSameAfter(r: Regex, k: Cont, k': Cont, s: Text, i: nat, size: nat)
    requires i <= |s| && SameFrom(k, k', s, i) && RegexSize(r) < size
    ensures SameFrom(Do(r, k), Do(r, k'), s, i)
    decreases |s| - i, size, 0
  {
    forall j: nat, caps | i <= j <= |s| ensures Match(Do(r, k), s, j, caps) == Match(Do(r, k'), s, j, caps) {
      SameLater(k, k', s, i, j);
      SameAfter(r, k, k', s, j, caps);
    }
  }

  lemma {:induction false} LoopsSame(a: Regex, greedy: bool, k: Cont, k': Cont, s: Text, i: nat)
    requires i <= |s| && SameFrom(k, k', s, i)
    ensures SameFrom(Loop(a, greedy, i, k), Loop(a, greedy, i, k'), s, i)
    decreases |s| - i, 0, 0
  {
    hide Match, MatchRegex;
    forall j: nat, caps | i <= j <= |s|
      ensures Match(Loop(a, greedy, i, k), s, j, caps) == Match(Loop(a, greedy, i, k'), s, j, caps)
    {
      MatchLoop(a, greedy, i, k, s, j, caps);
      MatchLoop(a, greedy, i, k', s, j, caps);
      if j > i {
        SameLater(k, k', s, i, j);
        SameAfter(Star(a, greedy), k, k', s, j, caps);
      }
    }
  }

  lemma ClosesSame(n: nat, k: Cont, k': Cont, s: Text, i: nat)
    requires i <= |s| && SameFrom(k, k', s, i)
    ensures SameFrom(Close(n, i, k), Close(n, i, k'), s, i)
  {
    hide Match, MatchRegex;
    forall j: nat, caps | i <= j <= |s| ensures Match(Close(n, i, k), s, j, caps) == Match(Close(n, i, k'), s, j, caps) {
      MatchClose(n, i, k, s, j, caps);
      MatchClose(n, i, k', s, j, caps);
      SameNow2(k, k', s, i, j, caps[n := (i, j)]);
    }
  }

  lemma SameNow2(k: Cont, k': Cont, s: Text, i: nat, j: nat, caps: Captures)
    requires i <= j <= |s| && SameFrom(k, k', s, i)
    ensures Match(k, s, j, caps) == Match(k', s, j, caps)
  {}

  /** A run none of whose ends will do. */
  lemma {:induction false} RunFails(c: Class, k: Cont, s: Text, i: nat, caps: Captures)
    requires i <= |s| && forall j: nat :: i <= j <= RunEnd(c, s, i) ==> Match(k, s, j, caps).None?
    ensures Match(Do(Star(Atom(c), true), k), s, i, caps).None?
    decreases |s| - i
  {
    hide Match, MatchRegex, RegexSize, ContSize, Width;
    StarTurn(c, true, k, s, i, caps);
    if Width(c, s, i) > 0 {
      RunFails(c, k, s, i + Width(c, s, i), caps);
    }
  }

  lemma {:induction false} RunOn(s: Text, i: nat, j: nat)
    requires i <= |s| && i <= j < RunEnd(TRAILER, s, i)
    ensures RunEnd(TRAILER, s, j) == RunEnd(TRAILER, s, i)
    decreases j - i
  {
    if i < j {
      RunOn(s, i + 1, j);
    }
  }

  /** The end of a tidy line is the same with either flag. */
  lemma LineEndSame(s: Text, i: nat, caps: Captures)
    requires Tidy(s) && i <= |s|
    ensures Match(Multi(LINE_END), s, i, caps) == Match(LINE_END, s, i, caps)
  {
    hide Match, MatchRegex, RegexSize, ContSize, RunEnd;
    var finish := Do(LineFinish, Done);
    assert Multi(Do(End, Done)) == finish;
    assert MultiRegex(Star(Atom(TRAILER), true)) == Star(Atom(TRAILER), true);
    assert Multi(LINE_END) == Do(Star(Atom(TRAILER), true), finish);
    LineEndMatches(s, i, caps);
    var e := RunEnd(TRAILER, s, i);
    MatchPlain(Done, s, e, caps);
    MatchDone(s, e, caps);
    if e == |s| {
      StarReachesEnd(TRAILER, finish, s, i, caps);
    } else {
      forall j: nat | i <= j <= e ensures Match(finish, s, j, caps).None? {
        NoFinishInside(s, i, j);
        MatchPlain(Done, s, j, caps);
      }
      RunFails(TRAILER, finish, s, i, caps);
    }
  }

  lemma NoFinishInside(s: Text, i: nat, j: nat)
    requires Tidy(s) && i <= |s| && i <= j <= RunEnd(TRAILER, s, i) < |s|
    ensures !LineFinishesAt(s, j)
  {
    assert s[j] != NEWLINE;
    if j < RunEnd(TRAILER, s, i) {
      RunOn(s, i, j);
    }
  }

  /** The expression is a chain of anchor-free parts that stay in their line, and ends in the line end. */
  predicate ToLineEnd(k: Cont) { k == LINE_END || (k.Do? && AnchorFree(k.r) && Local(k.r) && ToLineEnd(k.k)) }

  lemma {:induction false} SameOnTidy(k: Cont, s: Text)
    requires Tidy(s) && ToLineEnd(k)
    ensures SameFrom(Multi(k), k, s, 0)
    decreases k
  {
    hide Match, MatchRegex, Tidy, LINE_END;
    if k == LINE_END {
      forall j: nat, caps | j <= |s| ensures Match(Multi(k), s, j, caps) == Match(k, s, j, caps) {
        LineEndSame(s, j, caps);
      }
    } else {
      SameOnTidy(k.k, s);
      FreeIsSame(k.r);
      AllSameAfter(k.r, Multi(k.k), k.k, s, 0, RegexSize(k.r) + 1);
    }
  }

  lemma {:induction false} AltOfInLine(words: seq<Text>)
    requires words != [] && forall w <- words :: InLine(Lit(w))
    ensures AnchorFree(AltOf(words)) && Local(AltOf(words))
    decreases |words|
  {
    if |words| > 1 {
      AltOfInLine(words[1..]);
    }
  }

  lemma TagsInLine()
    ensures AnchorFree(WordThen(TAGS, BLANK)) && Local(WordThen(TAGS, BLANK))
  {
    TagList();
    forall w <- TAGS ensures InLine(Lit(w)) {
      TagBytes();
    }
    AltOfInLine(TAGS);
    assert Local(Atom(BLANK)) && Local(Star(Atom(BLANK), true));
    assert AnchorFree(Plus(Atom(BLANK))) && Local(Plus(Atom(BLANK)));
  }

  lemma TagBytes()
    ensures forall w <- TAGS :: w != [] && NEWLINE !in w
  {}

  lemma AliasChain()
    ensures ToLineEnd(Blanks(Chr(HASH, AFTER_HASH)))
  {
    assert ToLineEnd(VALUE_REST);
    assert ToLineEnd(ALIAS_VALUE);
    TagsInLine();
    assert ToLineEnd(TAGGED_VALUE);
    assert ToLineEnd(Blanks1(TAGGED_VALUE));
    assert ToLineEnd(ALIAS_NAME);
    assert ToLineEnd(Blanks1(ALIAS_NAME));
    assert ToLineEnd(Do(Atom(Lit(DEFINE)), Blanks1(ALIAS_NAME)));
    assert ToLineEnd(AFTER_HASH);
    assert ToLineEnd(Chr(HASH, AFTER_HASH));
  }

  lemma {:induction false} ChainInLine(k: Cont, d: nat)
    requires ToLineEnd(k)
    ensures LocalCont(Multi(k)) && Moved(Multi(k), d) == Multi(k)
    decreases k
  {
    if k == LINE_END {
      assert Multi(Do(End, Done)) == Do(LineFinish, Done);
      assert MultiRegex(Star(Atom(TRAILER), true)) == Star(Atom(TRAILER), true);
      assert Multi(LINE_END) == Do(Star(Atom(TRAILER), true), Do(LineFinish, Done));
      assert Local(Star(Atom(TRAILER), true));
      assert LocalCont(Do(LineFinish, Done)) && Moved(Do(LineFinish, Done), d) == Do(LineFinish, Done);
    } else {
      hide LINE_END;
      FreeIsSame(k.r);
      ChainInLine(k.k, d);
    }
  }

  const AFTER_BEGIN: Cont := Blanks(Chr(HASH, AFTER_HASH))

  lemma AliasInLine(d: nat)
    ensures ALIAS == Do(LineBegin, Multi(AFTER_BEGIN)) && ALIAS_LINE == Do(Begin, AFTER_BEGIN)
    ensures LocalCont(ALIAS) && Moved(ALIAS, d) == ALIAS && ToLineEnd(AFTER_BEGIN)
  {
    hide AFTER_HASH, ToLineEnd;
    AliasChain();
    ChainInLine(AFTER_BEGIN, d);
    assert Multi(ALIAS_LINE) == Do(LineBegin, Multi(AFTER_BEGIN));
  }

  // ---------------------------------------------------------------- one line

  lemma InRun(s: Text, i: nat, p: nat)
    requires i <= |s| && i <= p < RunEnd(TRAILER, s, i)
    ensures s[p] == SPACE || s[p] == TAB || s[p] == RETURN
  {
    RunOn(s, i, p);
    assert Width(TRAILER, s, p) > 0;
  }

  /** On a tidy line the pattern matches at the start or nowhere. */
  lemma AliasOnTidy(line: Text, j: nat)
    requires Tidy(line) && j <= |line|
    ensures Match(ALIAS, line, j, map[]) == if j == 0 then Match(ALIAS_LINE, line, 0, map[]) else None
  {
    hide Match, MatchRegex, RegexSize, ContSize, SameFrom, ALIAS, ALIAS_LINE, AFTER_BEGIN, Multi, RunEnd;
    AliasInLine(0);
    MatchPlain(Multi(AFTER_BEGIN), line, j, map[]);
    if j == 0 {
      MatchPlain(AFTER_BEGIN, line, 0, map[]);
      SameOnTidy(AFTER_BEGIN, line);
      SameNow(Multi(AFTER_BEGIN), AFTER_BEGIN, line, 0, map[]);
    } else if LineStartsAt(line, j) {
      assert line[j - 1] == RETURN;
      NoHashAfter(line, j);
    }
  }

  lemma NoHash(s: Text, j: nat)
    requires j <= |s| && !At(s, BlankEnd(s, j), HASH)
    ensures Match(Multi(AFTER_BEGIN), s, j, map[]).None? && Match(AFTER_BEGIN, s, j, map[]).None?
  {
    hide Match, MatchRegex, RegexSize, ContSize, RunEnd, AFTER_HASH;
    var k := Multi(AFTER_HASH);
    assert Multi(Chr(HASH, AFTER_HASH)) == Chr(HASH, k);
    assert MultiRegex(Star(Atom(BLANK), true)) == Star(Atom(BLANK), true);
    assert Multi(AFTER_BEGIN) == Blanks(Chr(HASH, k));
    StartsApart(OneOf({HASH}), BLANK, 0, k);
    BlanksMatch(Chr(HASH, k), s, j, map[]);
    ChrMatches(HASH, k, s, BlankEnd(s, j), map[]);
    StartsApart(OneOf({HASH}), BLANK, 0, AFTER_HASH);
    BlanksMatch(Chr(HASH, AFTER_HASH), s, j, map[]);
    ChrMatches(HASH, AFTER_HASH, s, BlankEnd(s, j), map[]);
  }

  lemma NoHashAfter(line: Text, j: nat)
    requires Tidy(line) && 0 < j <= |line| && line[j - 1] == RETURN
    ensures Match(Multi(AFTER_BEGIN), line, j, map[]).None?
  {
    hide Match, RunEnd, AFTER_BEGIN, Multi;
    var p := BlankEnd(line, j);
    if p < |line| {
      InRun(line, j - 1, p);
    }
    NoHash(line, j);
  }

  lemma {:induction false} ValuesHit(s: Text, stack: seq<nat>, caps: Captures)
    requires forall j :: 0 <= j < |stack| ==> stack[j] <= |s|
    ensures var m := LastSuccess(ALIAS_VALUE, s, stack, caps); m.None? || m == Some(Hit(|s|, caps))
    decreases |stack|
  {
    hide Match, MatchRegex, RegexSize, ContSize, ValueAt;
    if stack != [] {
      ValueMatches(s, stack[0], caps);
      ValuesHit(s, stack[1..], caps);
    }
  }

  /** A match on a line takes all of it and captures a name inside it. */
  lemma AliasHit(line: Text)
    requires Match(ALIAS_LINE, line, 0, map[]).Some?
    ensures var h := Match(ALIAS_LINE, line, 0, map[]).value;
            h.end == |line| > 0 && 1 in h.caps && h.caps[1].0 <= h.caps[1].1 <= |line|
  {
    hide Match, MatchRegex, RegexSize, ContSize, Rejects, BlankEnd, WordEnd, Positions, LastSuccess;
    AliasPieces();
    AliasHeadPieces();
    MatchPlain(Blanks(Chr(HASH, AFTER_HASH)), line, 0, map[]);
    BlanksMatch(Chr(HASH, AFTER_HASH), line, 0, map[]);
    var i := BlankEnd(line, 0);
    ChrMatches(HASH, AFTER_HASH, line, i, map[]);
    BlanksMatch(Do(Atom(Lit(DEFINE)), Blanks1(ALIAS_NAME)), line, i + 1, map[]);
    var j := BlankEnd(line, i + 1);
    LitMatches(DEFINE, Blanks1(ALIAS_NAME), line, j, map[]);
    BlanksMatch(ALIAS_NAME, line, j + |DEFINE|, map[]);
    var w := BlankEnd(line, j + |DEFINE|);
    WordMatches(1, Blanks1(TAGGED_VALUE), line, w, map[]);
    var e := WordEnd(line, w);
    var caps: Captures := map[1 := (w, e)];
    BlanksMatch(TAGGED_VALUE, line, e, caps);
    var v := BlankEnd(line, e);
    TaggedValueMatches(line, v, caps);
    ValuesHit(line, Positions(TAGS, BLANK, line, v), caps);
  }

  // ---------------------------------------------------------------- the whole text

  /** The pattern at any place of a tidy line of a text. */
  lemma AliasAt(s: Text, a: nat, b: nat, j: nat)
    requires a <= b <= |s| && IsLine(s, a, b) && Tidy(s[a..b]) && a + j <= b
    ensures Match(ALIAS, s, a + j, map[])
         == if j == 0 then MovedHit(Match(ALIAS_LINE, s[a..b], 0, map[]), a) else None
  {
    hide Match, MatchRegex, RegexSize, ContSize, ALIAS, ALIAS_LINE, IsLine, Tidy;
    AliasInLine(a);
    MatchInLine(ALIAS, s, a, b, j, map[]);
    assert MovedCaps(map[], a) == map[];
    AliasOnTidy(s[a..b], j);
  }

  lemma LineEndIsLine(s: Text, a: nat)
    requires a <= |s| && (a == 0 || s[a - 1] == NEWLINE)
    ensures IsLine(s, a, LineEnd(s, a))
  {
    NoNewlineBefore(s, a);
  }

  lemma {:induction false} NoNewlineBefore(s: Text, i: nat)
    requires i <= |s|
    ensures var e := LineEnd(s, i);
            (forall j :: i <= j < e ==> s[j] != NEWLINE) && (e == |s| || s[e] == NEWLINE)
    decreases |s| - i
  {
    if i < |s| && s[i] != NEWLINE {
      NoNewlineBefore(s, i + 1);
    }
  }

  lemma SameName(s: Text, a: nat, b: nat, h: Hit)
    requires a <= b <= |s| && 1 in h.caps && h.caps[1].0 <= h.caps[1].1 <= b - a
    ensures FirstGroup(s, MovedHit(Some(h), a).value) == FirstGroup(s[a..b], h)
  {
    var x, y := h.caps[1].0, h.caps[1].1;
    SliceOfSlice(s, a, b, x, y - x);
  }

  /** What the `/gm` scan collects from one line on is the line's alias and what it collects from the next. */
  lemma OneLine(s: Text, a: nat, b: nat)
    requires a <= b <= |s| && IsLine(s, a, b) && Tidy(s[a..b])
    ensures Tokens(AllMatches(ALIAS, s, a), s, FirstGroup)
         == AliasOf(s[a..b]) + if b < |s| then Tokens(AllMatches(ALIAS, s, b + 1), s, FirstGroup) else []
  {
    hide Match, MatchRegex, RegexSize, ContSize, AllMatches, ALIAS, ALIAS_LINE, IsLine, Tidy;
    var line := s[a..b];
    var m := Match(ALIAS_LINE, line, 0, map[]);
    forall j: nat | a < j <= b ensures Match(ALIAS, s, j, map[]).None? {
      AliasAt(s, a, b, j - a);
    }
    AliasAt(s, a, b, 0);
    if m.Some? {
      AliasHit(line);
      SameName(s, a, b, m.value);
      TakeMatch(ALIAS, s, a, FirstGroup);
    } else {
      SkipMisses(ALIAS, s, a, b);
    }
    MissOne(ALIAS, s, b);
  }

  // ---------------------------------------------------------------- an untidy line

  const DEFINITION: Text := Ascii("#define A B")

  lemma Spelled()
    ensures |DEFINITION| == 11 && DEFINITION[0] == HASH && DEFINITION[1..7] == DEFINE && |DEFINE| == 6
    ensures DEFINITION[7] == SPACE && DEFINITION[8] == 0x41 && DEFINITION[9] == SPACE && DEFINITION[10] == 0x42
  {}

  lemma DefinitionTidy()
    ensures Tidy(DEFINITION)
  {
    forall j | 0 <= j < |DEFINITION| ensures DEFINITION[j] < 0x80 && DEFINITION[j] != NEWLINE && DEFINITION[j] != RETURN {
    }
  }

  lemma OneBlank(s: Text, i: nat)
    requires i < |s| && s[i] == SPACE && !At(s, i + 1, SPACE) && !At(s, i + 1, TAB)
    ensures BlankEnd(s, i) == i + 1
  {
    assert Width(BLANK, s, i) == 1 && Width(BLANK, s, i + 1) == 0;
    assert RunEnd(BLANK, s, i + 1) == i + 1;
  }

  lemma OneLetter(s: Text, i: nat)
    requires IsWordAt(s, i) && !IsWordAt(s, i + 1)
    ensures WordEnd(s, i) == i + 1
  {
    assert Width(Word, s, i) == 1 && Width(Word, s, i + 1) == 0;
    assert RunEnd(Word, s, i + 1) == i + 1;
  }

  lemma DefinitionMatches()
    ensures Match(ALIAS_LINE, DEFINITION, 0, map[]).Some?
  {
    hide Match, MatchRegex, RegexSize, ContSize, Rejects, BlankEnd, WordEnd, Positions, LastSuccess, DEFINITION;
    var t := DEFINITION;
    Spelled();
    AliasPieces();
    AliasHeadPieces();
    MatchPlain(Blanks(Chr(HASH, AFTER_HASH)), t, 0, map[]);
    BlanksMatch(Chr(HASH, AFTER_HASH), t, 0, map[]);
    NoBlank(t, 0);
    ChrMatches(HASH, AFTER_HASH, t, 0, map[]);
    BlanksMatch(Do(Atom(Lit(DEFINE)), Blanks1(ALIAS_NAME)), t, 1, map[]);
    assert t[1] == t[1..7][0];
    NoBlank(t, 1);
    LitMatches(DEFINE, Blanks1(ALIAS_NAME), t, 1, map[]);
    BlanksMatch(ALIAS_NAME, t, 7, map[]);
    OneBlank(t, 7);
    WordMatches(1, Blanks1(TAGGED_VALUE), t, 8, map[]);
    OneLetter(t, 8);
    var caps: Captures := map[1 := (8, 9)];
    BlanksMatch(TAGGED_VALUE, t, 9, caps);
    OneBlank(t, 9);
    TaggedValueMatches(t, 10, caps);
    ValueStands(t, caps);
  }

  lemma NoBlank(s: Text, i: nat)
    requires i < |s| && s[i] != SPACE && s[i] != TAB
    ensures BlankEnd(s, i) == i
  {}

  lemma ValueStands(t: Text, caps: Captures)
    requires |t| == 11 && t[10] == 0x42
    ensures DistinctStarts(TAGS) && LastSuccess(ALIAS_VALUE, t, Positions(TAGS, BLANK, t, 10), caps).Some?
  {
    hide Match, MatchRegex, RegexSize, ContSize;
    TagList();
    NoSecondWord(TAGS, t, 10);
    assert Positions(TAGS, BLANK, t, 10) == [10];
    OneLetter(t, 10);
    ValueMatches(t, 10, caps);
    assert Width(TRAILER, t, 11) == 0;
    assert [10][1..] == [];
  }

  /** A stray carriage return begins a line for JavaScript but not for the scan: here it hides an alias. */
  lemma StrayReturn()
    ensures var s := [RETURN] + DEFINITION;
            AliasesFrom(s, 0) == [] && Tokens(AllMatches(ALIAS, s, 0), s, FirstGroup) != []
  {
    hide Match, MatchRegex, RegexSize, ContSize, ALIAS, AFTER_BEGIN, ALIAS_LINE, AllMatches, Multi, DEFINITION, Tidy;
    var s := [RETURN] + DEFINITION;
    Spelled();
    DefinitionTidy();
    DefinitionMatches();
    AliasInLine(0);
    AliasHit(DEFINITION);
    NoBlank(s, 0);
    NoHash(s, 0);
    MatchPlain(Multi(AFTER_BEGIN), s, 0, map[]);
    MatchPlain(AFTER_BEGIN, s, 0, map[]);
    assert s[1..|s|] == DEFINITION && s[0..|s|] == s;
    NoNewlines(s);
    AliasAt(s, 1, |s|, 0);
    MissOne(ALIAS, s, 0);
    TakeMatch(ALIAS, s, 1, FirstGroup);
  }

  lemma NoNewlines(s: Text)
    requires s == [RETURN] + DEFINITION
    ensures LineEnd(s, 0) == |s| && IsLine(s, 1, |s|)
  {
    forall j | 0 <= j < |s| ensures s[j] != NEWLINE {
    }
    NoNewlineBefore(s, 0);
  }
}
