// Exactly when the alias scan by lines agrees with JavaScript's pattern over the whole text.

module FnPtrHidden {
  import opened Wrappers
  import opened Chars
  import opened JsRegex
  import opened RegexLanguage
  import opened FnPtrPatterns
  import opened FnPtrSkeletons
  import opened FnPtrMacros
  import opened FnPtrLines

  // ---------------------------------------------------------------- a line the pattern matches is tidy

  predicate PlainByte(b: Byte) { b < 0x80 && b != RETURN && b != NEWLINE }

  predicate PlainClass(c: Class) {
    match c
    case Word => true
    case OneOf(bytes) => forall b <- bytes :: PlainByte(b)
    case Lit(text) => forall b <- text :: PlainByte(b)
    case _ => false
  }

  /** Everything the expression takes is ASCII, and no line terminator. */
  predicate PlainRegex(r: Regex) {
    match r
    case Atom(c) => PlainClass(c)
    case Cat(a, b) => PlainRegex(a) && PlainRegex(b)
    case Alt(a, b) => PlainRegex(a) && PlainRegex(b)
    case Star(a, _) => PlainRegex(a)
    case Cap(_, a) => PlainRegex(a)
    case _ => true
  }

  predicate AllPlain(s: Text, i: nat, j: nat) { j <= |s| && forall k :: i <= k < j ==> PlainByte(s[k]) }

  lemma WidthPlain(c: Class, s: Text, i: nat)
    requires PlainClass(c) && Width(c, s, i) > 0
    ensures AllPlain(s, i, i + Width(c, s, i))
  {
    if c.Lit? {
      forall k | i <= k < i + |c.text| ensures PlainByte(s[k]) {
        assert s[k] == s[i..i + |c.text|][k - i];
      }
    }
  }

  lemma {:induction false} SpansPlain(r: Regex, s: Text, i: nat, j: nat)
    requires PlainRegex(r) && Spans(r, s, i, j)
    ensures i <= j && AllPlain(s, i, j)
    decreases r, j - i
  {
    match r
    case Atom(c) => WidthPlain(c, s, i);
    case Cat(a, b) =>
      var m := CatSplits(a, b, s, i, j);
      SpansPlain(a, s, i, m);
      SpansPlain(b, s, m, j);
    case Alt(a, b) =>
      if Spans(a, s, i, j) {
        SpansPlain(a, s, i, j);
      } else {
        SpansPlain(b, s, i, j);
      }
    case Star(a, greedy) =>
      if i != j {
        var m := StarTurns(a, greedy, s, i, j);
        SpansPlain(a, s, i, m);
        SpansPlain(r, s, m, j);
      }
    case Cap(_, a) => SpansPlain(a, s, i, j);
    case _ =>
  }

  /** A chain of such parts up to the line end. */
  predicate PlainChain(k: Cont) { k == LINE_END || (k.Do? && PlainRegex(k.r) && PlainChain(k.k)) }

  /** Where the chain leads anywhere, plain bytes come first and then the trailer up to the end. */
  lemma {:induction false} ChainReaches(k: Cont, s: Text, i: nat, e: nat) returns (t: nat)
    requires PlainChain(k) && i <= |s| && Leads(k, s, i, e)
    ensures i <= t <= |s| && AllPlain(s, i, t) && RunEnd(TRAILER, s, t) == |s|
    decreases k
  {
    hide LINE_END;
    if k == LINE_END {
      t := i;
      MatchDecides(k, s, i, map[], e);
      LineEndMatches(s, i, map[]);
    } else {
      var j: nat :| j <= |s| && Spans(k.r, s, i, j) && Leads(k.k, s, j, e);
      SpansPlain(k.r, s, i, j);
      t := ChainReaches(k.k, s, j, e);
    }
  }

  lemma {:induction false} AltOfPlain(words: seq<Text>)
    requires words != [] && forall w <- words :: PlainClass(Lit(w))
    ensures PlainRegex(AltOf(words))
    decreases |words|
  {
    if |words| > 1 {
      AltOfPlain(words[1..]);
    }
  }

  lemma TagsPlain()
    ensures PlainRegex(WordThen(TAGS, BLANK))
  {
    AltOfPlain(TAGS);
    assert PlainRegex(Atom(BLANK));
    assert PlainRegex(Star(Atom(BLANK), true));
    assert PlainRegex(Plus(Atom(BLANK)));
  }

  lemma AliasPlain()
    ensures PlainChain(ALIAS_LINE)
  {
    assert PlainChain(VALUE_REST);
    assert PlainChain(ALIAS_VALUE);
    TagsPlain();
    assert PlainChain(TAGGED_VALUE);
    assert PlainChain(Blanks1(TAGGED_VALUE));
    assert PlainChain(ALIAS_NAME);
    assert PlainChain(Blanks1(ALIAS_NAME));
    assert PlainChain(Do(Atom(Lit(DEFINE)), Blanks1(ALIAS_NAME)));
    assert PlainChain(AFTER_HASH);
    assert PlainChain(Chr(HASH, AFTER_HASH));
    assert PlainChain(Blanks(Chr(HASH, AFTER_HASH)));
  }

  /** No alias is declared on an untidy line, as the scan sees it. */
  lemma MatchedIsTidy(line: Text)
    requires NEWLINE !in line && Match(ALIAS_LINE, line, 0, map[]).Some?
    ensures Tidy(line)
  {
    hide Match, PlainChain, ALIAS_LINE, RunEnd;
    AliasPlain();
    var e := Match(ALIAS_LINE, line, 0, map[]).value.end;
    MatchDecides(ALIAS_LINE, line, 0, map[], e);
    var t := ChainReaches(ALIAS_LINE, line, 0, e);
    forall j: nat | j < |line| ensures line[j] < 0x80 && (line[j] == RETURN ==> RunEnd(TRAILER, line, j) == |line|) {
      if j >= t {
        InRun(line, t, j);
        RunOn(line, t, j);
      }
    }
  }

  // ---------------------------------------------------------------- where the pattern matches on a line

  /** A match that starts on a line takes something and ends on it. */
  lemma MatchInside(s: Text, a: nat, b: nat, j: nat)
    requires a <= j <= b <= |s| && IsLine(s, a, b) && Match(ALIAS, s, j, map[]).Some?
    ensures j < Match(ALIAS, s, j, map[]).value.end <= b
  {
    hide Match, MatchRegex, RegexSize, ContSize, ALIAS, AFTER_BEGIN, IsLine, Multi, ALIAS_LINE;
    AliasInLine(a);
    MatchInLine(ALIAS, s, a, b, j - a, map[]);
    assert MovedCaps(map[], a) == map[];
    MatchPlain(Multi(AFTER_BEGIN), s, j, map[]);
    AfterHash(s, j);
  }

  lemma AfterHash(s: Text, j: nat)
    requires j <= |s| && Match(Multi(AFTER_BEGIN), s, j, map[]).Some?
    ensures Match(Multi(AFTER_BEGIN), s, j, map[]).value.end > j
  {
    hide Match, MatchRegex, RegexSize, ContSize, RunEnd, AFTER_HASH;
    var k := Multi(AFTER_HASH);
    assert Multi(Chr(HASH, AFTER_HASH)) == Chr(HASH, k);
    assert MultiRegex(Star(Atom(BLANK), true)) == Star(Atom(BLANK), true);
    assert Multi(AFTER_BEGIN) == Blanks(Chr(HASH, k));
    StartsApart(OneOf({HASH}), BLANK, 0, k);
    BlanksMatch(Chr(HASH, k), s, j, map[]);
    ChrMatches(HASH, k, s, BlankEnd(s, j), map[]);
  }

  /** What the `/gm` scan collects from `i` on. */
  ghost function Collected(s: Text, i: nat): seq<Text>
    requires i <= |s|
  {
    Tokens(AllMatches(ALIAS, s, i), s, FirstGroup)
  }

  ghost function AfterLine(s: Text, b: nat): seq<Text>
    requires b <= |s|
  {
    if b < |s| then Collected(s, b + 1) else []
  }

  ghost predicate MatchedIn(s: Text, i: nat, b: nat)
    requires b <= |s|
  {
    exists j: nat :: i <= j <= b && Match(ALIAS, s, j, map[]).Some?
  }

  lemma TakenOrMissed(s: Text, i: nat)
    requires i <= |s|
    ensures var m := Match(ALIAS, s, i, map[]);
            && (m.None? ==> Collected(s, i) == AfterLine(s, i))
            && (m.Some? && m.value.end > i ==> |Collected(s, i)| == 1 + |Collected(s, m.value.end)|)
  {
    hide Match, AllMatches, ALIAS;
    var m := Match(ALIAS, s, i, map[]);
    if m.None? {
      MissOne(ALIAS, s, i);
    } else if m.value.end > i {
      TakeMatch(ALIAS, s, i, FirstGroup);
    }
  }

  /** From any place of a line the `/gm` scan collects what comes after the line, and more where something on it matches. */
  lemma {:induction false} LineAdds(s: Text, a: nat, b: nat, i: nat)
    requires a <= i <= b <= |s| && IsLine(s, a, b)
    ensures if MatchedIn(s, i, b) then |Collected(s, i)| > |AfterLine(s, b)| else Collected(s, i) == AfterLine(s, b)
    decreases b - i
  {
    hide Match, AllMatches, ALIAS, IsLine, Collected;
    TakenOrMissed(s, i);
    if Match(ALIAS, s, i, map[]).Some? {
      MatchInside(s, a, b, i);
      LineAdds(s, a, b, Match(ALIAS, s, i, map[]).value.end);
    } else if i < b {
      LineAdds(s, a, b, i + 1);
      MatchedLater(s, i, b);
    }
  }

  lemma MatchedLater(s: Text, i: nat, b: nat)
    requires i < b <= |s| && Match(ALIAS, s, i, map[]).None?
    ensures MatchedIn(s, i, b) <==> MatchedIn(s, i + 1, b)
  {
    hide Match, ALIAS;
  }

  // ---------------------------------------------------------------- the exact condition

  /** The line from `a` on is untidy, and the pattern matches somewhere on it. */
  ghost predicate Hidden(s: Text, a: nat)
    requires a <= |s|
  {
    var b := LineEnd(s, a);
    !Tidy(s[a..b]) && MatchedIn(s, a, b)
  }

  /** No line from `a` on hides an alias. */
  ghost predicate NoneHidden(s: Text, a: nat)
    requires a <= |s|
    decreases |s| - a
  {
    var b := LineEnd(s, a);
    !Hidden(s, a) && (b < |s| ==> NoneHidden(s, b + 1))
  }

  lemma UntidyDeclaresNothing(s: Text, a: nat, b: nat)
    requires a <= b <= |s| && IsLine(s, a, b) && !Tidy(s[a..b])
    ensures AliasOf(s[a..b]) == []
  {
    hide Match, ALIAS_LINE, Tidy;
    if Match(ALIAS_LINE, s[a..b], 0, map[]).Some? {
      MatchedIsTidy(s[a..b]);
    }
  }

  /** The scan by lines never collects more, and the same exactly if no line hides an alias. */
  lemma {:induction false} HiddenCounts(s: Text, a: nat)
    requires a <= |s| && (a == 0 || s[a - 1] == NEWLINE)
    ensures if NoneHidden(s, a) then AliasesFrom(s, a) == Collected(s, a) else |AliasesFrom(s, a)| < |Collected(s, a)|
    decreases |s| - a
  {
    hide AliasOf, Collected, IsLine, Tidy, MatchedIn;
    var b := LineEnd(s, a);
    LineEndIsLine(s, a);
    if Tidy(s[a..b]) {
      TidyLine(s, a, b);
    } else {
      UntidyDeclaresNothing(s, a, b);
      LineAdds(s, a, b, a);
    }
    if b < |s| {
      NoNewlineBefore(s, a);
      HiddenCounts(s, b + 1);
    }
  }

  lemma TidyLine(s: Text, a: nat, b: nat)
    requires a <= b <= |s| && IsLine(s, a, b) && Tidy(s[a..b])
    ensures Collected(s, a) == AliasOf(s[a..b]) + AfterLine(s, b)
  {
    hide AllMatches, ALIAS, AliasOf, IsLine, Tidy, Tokens;
    OneLine(s, a, b);
  }

  /**
   * The scan by lines collects exactly what JavaScript does with the m and g
   * flags if and only if no untidy line holds a match.
   */
  lemma AgreeExactly(s: Text)
    ensures AliasesFrom(s, 0) == Tokens(AllMatches(ALIAS, s, 0), s, FirstGroup) <==> NoneHidden(s, 0)
  {
    hide AliasesFrom, NoneHidden, AllMatches, ALIAS, Tokens;
    HiddenCounts(s, 0);
  }

  /** Every line is tidy. */
  ghost predicate TidyText(s: Text) {
    forall a: nat, b: nat :: IsLine(s, a, b) && (a == 0 || s[a - 1] == NEWLINE) ==> Tidy(s[a..b])
  }

  lemma {:induction false} TidyHidesNone(s: Text, a: nat)
    requires a <= |s| && (a == 0 || s[a - 1] == NEWLINE) && TidyText(s)
    ensures NoneHidden(s, a)
    decreases |s| - a
  {
    hide IsLine, Tidy, MatchedIn;
    var b := LineEnd(s, a);
    LineEndIsLine(s, a);
    if b < |s| {
      NoNewlineBefore(s, a);
      TidyHidesNone(s, b + 1);
    }
  }

  /** So on every text of tidy lines they agree, carriage returns before newlines included. */
  lemma LinesAreMatches(s: Text)
    requires TidyText(s)
    ensures AliasesFrom(s, 0) == Tokens(AllMatches(ALIAS, s, 0), s, FirstGroup)
  {
    hide AliasesFrom, NoneHidden, AllMatches, ALIAS, Tokens, TidyText;
    TidyHidesNone(s, 0);
    AgreeExactly(s);
  }
}
