// A prioritised-backtracking semantics for the regular expressions that the
// JavaScript sweep runs: the reference the hand-rolled scanners are held to.

module JsRegex {
  import opened Wrappers
  import opened Chars

  /** What one unquantified atom accepts. */
  datatype Class =
    | Word                      // \w
    | Space                     // \s, one character of one to three bytes
    | OneOf(bytes: set<Byte>)   // [...]
    | NoneOf(bytes: set<Byte>)  // [^...]
    | Lit(text: Text)           // a literal word

  /** Bytes consumed by `c` at `i`; 0 when it does not match there. */
  function Width(c: Class, s: Text, i: nat): (w: nat)
    ensures w > 0 ==> i + w <= |s|
  {
    match c
    case Word => if IsWordAt(s, i) then 1 else 0
    case Space => JswsLen(s, i)
    case OneOf(bytes) => if i < |s| && s[i] in bytes then 1 else 0
    case NoneOf(bytes) => if i < |s| && s[i] !in bytes then 1 else 0
    case Lit(text) => if i + |text| <= |s| && s[i..i + |text|] == text then |text| else 0
  }

  datatype Regex =
    | Atom(c: Class)
    | Boundary                          // \b
    | Begin                             // ^ without the m flag
    | End                               // $ without the m flag
    | LineBegin                         // ^ with it
    | LineFinish                        // $ with it
    | Empty
    | Cat(first: Regex, second: Regex)
    | Alt(left: Regex, right: Regex)
    | Star(body: Regex, greedy: bool)   // * and *?
    | Cap(index: nat, body: Regex)

  function Plus(a: Regex): Regex { Cat(a, Star(a, true)) }

  function Opt(a: Regex): Regex { Alt(a, Empty) }

  /** What remains to be matched: the continuation of ECMAScript's backtracking matcher. */
  datatype Cont =
    | Done
    | Do(r: Regex, k: Cont)
    | Close(index: nat, from: nat, k: Cont)               // end of a capture group
    | Loop(body: Regex, greedy: bool, from: nat, k: Cont) // end of a `*` iteration

  type Captures = map<nat, Range>

  datatype Hit = Hit(end: nat, caps: Captures)

  function RegexSize(r: Regex): nat {
    match r
    case Cat(a, b) => 1 + RegexSize(a) + RegexSize(b)
    case Alt(a, b) => 1 + RegexSize(a) + RegexSize(b)
    case Star(a, _) => 3 + RegexSize(a)
    case Cap(_, a) => 2 + RegexSize(a)
    case _ => 1
  }

  function ContSize(k: Cont, i: nat): nat {
    match k
    case Done => 0
    case Do(r, k') => RegexSize(r) + ContSize(k', i)
    case Close(_, _, k') => 1 + ContSize(k', i)
    case Loop(a, _, from, k') => (if i > from then 4 + RegexSize(a) else 1) + ContSize(k', i)
  }

  predicate BoundaryAt(s: Text, i: nat) {
    (0 < i <= |s| && IsWord(s[i - 1])) != IsWordAt(s, i)
  }

  /** Byte length of the JavaScript line terminator that starts at `i`: newline, carriage return, U+2028 or U+2029. */
  function BreakLen(s: Text, i: nat): nat {
    if At(s, i, NEWLINE) || At(s, i, RETURN) then 1
    else if At(s, i, 0xE2) && At(s, i + 1, 0x80) && (At(s, i + 2, 0xA8) || At(s, i + 2, 0xA9)) then 3
    else 0
  }

  predicate LineStartsAt(s: Text, i: nat) {
    i == 0 || BreakLen(s, i - 1) == 1 || (i >= 3 && BreakLen(s, i - 3) == 3)
  }

  predicate LineFinishesAt(s: Text, i: nat) { i >= |s| || BreakLen(s, i) > 0 }

  /**
   * The first match, in JavaScript's priority order, of everything `k` still
   * asks for, starting at `i`.
   */
  function Match(k: Cont, s: Text, i: nat, caps: Captures): (m: Option<Hit>)
    requires i <= |s|
    ensures m.Some? ==> i <= m.value.end <= |s|
    decreases |s| - i, ContSize(k, i), 1
  {
    match k
    case Done => Some(Hit(i, caps))
    case Do(r, k') => MatchRegex(r, k', s, i, caps)
    case Close(n, from, k') => Match(k', s, i, caps[n := (from, i)])
    case Loop(a, greedy, from, k') =>
      // an iteration that consumed nothing fails
      if i > from then Match(Do(Star(a, greedy), k'), s, i, caps) else None
  }

  /** The first match of `r` followed by `k`. */
  function MatchRegex(r: Regex, k: Cont, s: Text, i: nat, caps: Captures): (m: Option<Hit>)
    requires i <= |s|
    ensures m.Some? ==> i <= m.value.end <= |s|
    decreases |s| - i, RegexSize(r) + ContSize(k, i), 0
  {
    match r
    case Atom(c) =>
      var w := Width(c, s, i);
      if w > 0 then Match(k, s, i + w, caps) else None
    case Boundary => if BoundaryAt(s, i) then Match(k, s, i, caps) else None
    case Begin => if i == 0 then Match(k, s, i, caps) else None
    case End => if i == |s| then Match(k, s, i, caps) else None
    case LineBegin => if LineStartsAt(s, i) then Match(k, s, i, caps) else None
    case LineFinish => if LineFinishesAt(s, i) then Match(k, s, i, caps) else None
    case Empty => Match(k, s, i, caps)
    case Cat(a, b) =>
      assert ContSize(Do(b, k), i) == RegexSize(b) + ContSize(k, i);
      Match(Do(a, Do(b, k)), s, i, caps)
    case Alt(a, b) =>
      var left := Match(Do(a, k), s, i, caps);
      var right := Match(Do(b, k), s, i, caps);
      OrElse(left, right)
    case Star(a, greedy) =>
      assert ContSize(Loop(a, greedy, i, k), i) == 1 + ContSize(k, i);
      var more := Match(Do(a, Loop(a, greedy, i, k)), s, i, caps);
      var stop := Match(k, s, i, caps);
      if greedy then OrElse(more, stop) else OrElse(stop, more)
    case Cap(n, a) =>
      assert ContSize(Close(n, i, k), i) == 1 + ContSize(k, i);
      Match(Do(a, Close(n, i, k)), s, i, caps)
  }

  function OrElse(a: Option<Hit>, b: Option<Hit>): Option<Hit> {
    if a.Some? then a else b
  }

  // One unfolding of the matcher per construct; the proofs below use these and hide its body.

  lemma MatchDo(r: Regex, k: Cont, s: Text, i: nat, caps: Captures)
    requires i <= |s|
    ensures Match(Do(r, k), s, i, caps) == MatchRegex(r, k, s, i, caps)
  {
    hide MatchRegex, Width, BoundaryAt, RegexSize, ContSize;
  }

  lemma MatchAtom(c: Class, k: Cont, s: Text, i: nat, caps: Captures)
    requires i <= |s|
    ensures Match(Do(Atom(c), k), s, i, caps)
         == var w := Width(c, s, i); if w > 0 then Match(k, s, i + w, caps) else None
  {
    hide Match, OrElse, Width, BoundaryAt, RegexSize, ContSize;
    MatchDo(Atom(c), k, s, i, caps);
  }

  lemma MatchCat(a: Regex, b: Regex, k: Cont, s: Text, i: nat, caps: Captures)
    requires i <= |s|
    ensures Match(Do(Cat(a, b), k), s, i, caps) == Match(Do(a, Do(b, k)), s, i, caps)
  {
    hide Match, OrElse, Width, BoundaryAt, RegexSize, ContSize;
    MatchDo(Cat(a, b), k, s, i, caps);
  }

  lemma MatchAlt(a: Regex, b: Regex, k: Cont, s: Text, i: nat, caps: Captures)
    requires i <= |s|
    ensures Match(Do(Alt(a, b), k), s, i, caps)
         == OrElse(Match(Do(a, k), s, i, caps), Match(Do(b, k), s, i, caps))
  {
    hide Match, OrElse, Width, BoundaryAt, RegexSize, ContSize;
    MatchDo(Alt(a, b), k, s, i, caps);
  }

  lemma MatchStar(a: Regex, greedy: bool, k: Cont, s: Text, i: nat, caps: Captures)
    requires i <= |s|
    ensures Match(Do(Star(a, greedy), k), s, i, caps)
         == var more := Match(Do(a, Loop(a, greedy, i, k)), s, i, caps);
            var stop := Match(k, s, i, caps);
            if greedy then OrElse(more, stop) else OrElse(stop, more)
  {
    hide Match, OrElse, Width, BoundaryAt, RegexSize, ContSize;
    MatchDo(Star(a, greedy), k, s, i, caps);
  }

  lemma MatchLoop(a: Regex, greedy: bool, from: nat, k: Cont, s: Text, i: nat, caps: Captures)
    requires i <= |s|
    ensures Match(Loop(a, greedy, from, k), s, i, caps)
         == if i > from then Match(Do(Star(a, greedy), k), s, i, caps) else None
  {
    hide MatchRegex, Width, BoundaryAt, RegexSize, ContSize;
  }

  lemma MatchCap(n: nat, a: Regex, k: Cont, s: Text, i: nat, caps: Captures)
    requires i <= |s|
    ensures Match(Do(Cap(n, a), k), s, i, caps) == Match(Do(a, Close(n, i, k)), s, i, caps)
  {
    hide Match, OrElse, Width, BoundaryAt, RegexSize, ContSize;
    MatchDo(Cap(n, a), k, s, i, caps);
  }

  lemma MatchClose(n: nat, from: nat, k: Cont, s: Text, i: nat, caps: Captures)
    requires i <= |s|
    ensures Match(Close(n, from, k), s, i, caps) == Match(k, s, i, caps[n := (from, i)])
  {
    hide MatchRegex, Width, BoundaryAt, RegexSize, ContSize;
  }

  lemma MatchDone(s: Text, i: nat, caps: Captures)
    requires i <= |s|
    ensures Match(Done, s, i, caps) == Some(Hit(i, caps))
  {
    hide MatchRegex, Width, BoundaryAt, RegexSize, ContSize;
  }

  lemma MatchPlain(k: Cont, s: Text, i: nat, caps: Captures)
    requires i <= |s|
    ensures Match(Do(Empty, k), s, i, caps) == Match(k, s, i, caps)
    ensures Match(Do(Boundary, k), s, i, caps) == if BoundaryAt(s, i) then Match(k, s, i, caps) else None
    ensures Match(Do(Begin, k), s, i, caps) == if i == 0 then Match(k, s, i, caps) else None
    ensures Match(Do(End, k), s, i, caps) == if i == |s| then Match(k, s, i, caps) else None
    ensures Match(Do(LineBegin, k), s, i, caps) == if LineStartsAt(s, i) then Match(k, s, i, caps) else None
    ensures Match(Do(LineFinish, k), s, i, caps) == if LineFinishesAt(s, i) then Match(k, s, i, caps) else None
  {
    hide Match, OrElse, Width, BoundaryAt, RegexSize, ContSize, LineStartsAt, LineFinishesAt;
    MatchDo(LineBegin, k, s, i, caps);
    MatchDo(LineFinish, k, s, i, caps);
    MatchDo(Empty, k, s, i, caps);
    MatchDo(Boundary, k, s, i, caps);
    MatchDo(Begin, k, s, i, caps);
    MatchDo(End, k, s, i, caps);
  }

  // ---------------------------------------------------------------- the /g driver

  datatype Found = Found(start: nat, hit: Hit)

  /** Leftmost match starting at or after `i`. */
  function Find(k: Cont, s: Text, i: nat): (f: Option<Found>)
    requires i <= |s|
    ensures f.Some? ==> i <= f.value.start <= f.value.hit.end <= |s|
    decreases |s| - i
  {
    var m := Match(k, s, i, map[]);
    if m.Some? then Some(Found(i, m.value))
    else if i < |s| then Find(k, s, i + 1)
    else None
  }

  /** Every match of a `/g` iteration resumed at `last`; an empty match advances by one. */
  function AllMatches(k: Cont, s: Text, last: nat): seq<Found>
    requires last <= |s|
    decreases |s| - last
  {
    var f := Find(k, s, last);
    if f.None? then []
    else
      var end := f.value.hit.end;
      var next := if end == f.value.start then end + 1 else end;
      if next <= |s| then [f.value] + AllMatches(k, s, next) else [f.value]
  }

  /** The text of capture group `n`; empty when the group took no part in the match. */
  function Group(s: Text, h: Hit, n: nat): Text {
    if n in h.caps && h.caps[n].0 <= h.caps[n].1 <= |s| then s[h.caps[n].0..h.caps[n].1] else []
  }

  ghost function FirstGroup(s: Text, h: Hit): seq<Text> { [Group(s, h, 1)] }

  /** What a scan collects: the tokens of each match, in order. */
  ghost function Tokens(found: seq<Found>, s: Text, render: (Text, Hit) -> seq<Text>): seq<Text> {
    if found == [] then [] else render(s, found[0].hit) + Tokens(found[1..], s, render)
  }

  /** One start that does not match. */
  lemma MissOne(k: Cont, s: Text, i: nat)
    requires i <= |s| && Match(k, s, i, map[]).None?
    ensures AllMatches(k, s, i) == if i < |s| then AllMatches(k, s, i + 1) else []
  {
    hide Match, MatchRegex, RegexSize, ContSize;
  }

  /** Starts that do not match are passed over without effect. */
  lemma {:induction false} SkipMisses(k: Cont, s: Text, i: nat, t: nat)
    requires i <= t <= |s|
    requires forall j: nat :: i <= j < t ==> Match(k, s, j, map[]).None?
    ensures AllMatches(k, s, i) == AllMatches(k, s, t)
    decreases t - i
  {
    hide Match, MatchRegex, RegexSize, ContSize, AllMatches;
    if i < t {
      MissOne(k, s, i);
      SkipMisses(k, s, i + 1, t);
    }
  }

  lemma {:induction false} FindSkipsMisses(k: Cont, s: Text, i: nat, t: nat)
    requires i <= t <= |s|
    requires forall j: nat :: i <= j < t ==> Match(k, s, j, map[]).None?
    ensures Find(k, s, i) == Find(k, s, t)
    decreases t - i
  {
    hide Match, MatchRegex, RegexSize, ContSize;
    if i < t {
      FindSkipsMisses(k, s, i + 1, t);
    }
  }

  /** A non-empty match at the current position is taken and the scan resumes at its end. */
  lemma TakeMatch(k: Cont, s: Text, i: nat, render: (Text, Hit) -> seq<Text>)
    requires i <= |s|
    requires Match(k, s, i, map[]).Some? && Match(k, s, i, map[]).value.end > i
    ensures var h := Match(k, s, i, map[]).value;
            Tokens(AllMatches(k, s, i), s, render) == render(s, h) + Tokens(AllMatches(k, s, h.end), s, render)
  {
    hide Match, MatchRegex, RegexSize, ContSize;
    var h := Match(k, s, i, map[]).value;
    var rest := AllMatches(k, s, h.end);
    assert AllMatches(k, s, i) == [Found(i, h)] + rest;
    assert AllMatches(k, s, i)[1..] == rest;
  }

  /** Nothing is left to find once no remaining start matches. */
  lemma {:induction false} NoMoreMatches(k: Cont, s: Text, i: nat)
    requires i <= |s|
    requires forall j: nat :: i <= j <= |s| ==> Match(k, s, j, map[]).None?
    ensures AllMatches(k, s, i) == []
  {
    SkipMisses(k, s, i, |s|);
  }

  // ---------------------------------------------------------------- greedy runs

  /** Where a run of `c` characters starting at `i` ends. */
  function RunEnd(c: Class, s: Text, i: nat): (e: nat)
    requires i <= |s|
    ensures i <= e <= |s|
    ensures Width(c, s, e) == 0
    ensures e > i <==> Width(c, s, i) > 0
    decreases |s| - i
  {
    var w := Width(c, s, i);
    if w > 0 then RunEnd(c, s, i + w) else i
  }

  // ---------------------------------------------------------------- what cannot start here

  /** No lead byte of a `\s` character. */
  predicate NotSpaceLead(b: Byte) {
    !(0x09 <= b <= 0x0D) && b !in {0x20, 0xC2, 0xE1, 0xE2, 0xE3, 0xEF}
  }

  /** A sufficient condition for two classes never to match at the same place. */
  predicate Apart(c: Class, d: Class) {
    match (c, d)
    case (Word, Space) => true
    case (Space, Word) => true
    case (Word, OneOf(bs)) => forall b :: b in bs ==> !IsWord(b)
    case (OneOf(bs), Word) => forall b :: b in bs ==> !IsWord(b)
    case (Space, OneOf(bs)) => forall b :: b in bs ==> NotSpaceLead(b)
    case (OneOf(bs), Space) => forall b :: b in bs ==> NotSpaceLead(b)
    case (OneOf(bs), OneOf(cs)) => bs !! cs
    case (NoneOf(bs), OneOf(cs)) => cs <= bs
    case (OneOf(bs), NoneOf(cs)) => bs <= cs
    case (Lit(t), Space) => t != [] && NotSpaceLead(t[0])
    case (Lit(t), Word) => t != [] && !IsWord(t[0])
    case (Lit(t), OneOf(bs)) => t != [] && t[0] !in bs
    case (Lit(t), Lit(u)) => t != [] && u != [] && t[0] != u[0]
    case _ => false
  }

  lemma ApartNeverMeet(c: Class, d: Class, s: Text, i: nat)
    requires Apart(c, d)
    ensures !(Width(c, s, i) > 0 && Width(d, s, i) > 0)
  {
    if c.Lit? && Width(c, s, i) > 0 {
      assert s[i] == s[i..i + |c.text|][0] == c.text[0];
    }
    if d.Lit? && Width(d, s, i) > 0 {
      assert s[i] == s[i..i + |d.text|][0] == d.text[0];
    }
  }

  /** `r` can consume nothing at a place where a `c` character starts. */
  predicate Avoids(r: Regex, c: Class) {
    match r
    case Atom(d) => Apart(d, c)
    case Cat(a, b) => Avoids(a, c) && (Consumes(a) || Avoids(b, c))
    case Alt(a, b) => Avoids(a, c) && Avoids(b, c)
    case Star(a, _) => Avoids(a, c)
    case Cap(_, a) => Avoids(a, c)
    case _ => true
  }

  /** `r` cannot match the empty text. */
  predicate Consumes(r: Regex) {
    match r
    case Atom(_) => true
    case Cat(a, b) => Consumes(a) || Consumes(b)
    case Alt(a, b) => Consumes(a) && Consumes(b)
    case Cap(_, a) => Consumes(a)
    case _ => false
  }

  /** `k` must consume something first, and never a `c` character. */
  predicate Rejects(k: Cont, c: Class) {
    match k
    case Done => false
    case Do(r, k') => Avoids(r, c) && (Consumes(r) || Rejects(k', c))
    case Close(_, _, k') => Rejects(k', c)
    case Loop(a, _, _, k') => Avoids(a, c) && Rejects(k', c)
  }

  lemma {:induction false} AvoidedFails(r: Regex, k: Cont, c: Class, s: Text, i: nat, caps: Captures)
    requires i <= |s| && Width(c, s, i) > 0 && Avoids(r, c)
    requires Consumes(r) || forall caps' :: Match(k, s, i, caps').None?
    ensures Match(Do(r, k), s, i, caps).None?
    decreases r
  {
    hide Match, MatchRegex, RegexSize, ContSize;
    match r
    case Atom(d) =>
      MatchAtom(d, k, s, i, caps);
      ApartNeverMeet(d, c, s, i);
    case Cat(a, b) =>
      MatchCat(a, b, k, s, i, caps);
      if !Consumes(a) {
        forall caps' ensures Match(Do(b, k), s, i, caps').None? {
          AvoidedFails(b, k, c, s, i, caps');
        }
      }
      AvoidedFails(a, Do(b, k), c, s, i, caps);
    case Alt(a, b) =>
      MatchAlt(a, b, k, s, i, caps);
      AvoidedFails(a, k, c, s, i, caps);
      AvoidedFails(b, k, c, s, i, caps);
    case Star(a, greedy) =>
      MatchStar(a, greedy, k, s, i, caps);
      var again := Loop(a, greedy, i, k);
      forall caps' ensures Match(again, s, i, caps').None? {
        MatchLoop(a, greedy, i, k, s, i, caps');
      }
      AvoidedFails(a, again, c, s, i, caps);
    case Cap(n, a) =>
      MatchCap(n, a, k, s, i, caps);
      if !Consumes(a) {
        forall caps' ensures Match(Close(n, i, k), s, i, caps').None? {
          MatchClose(n, i, k, s, i, caps');
        }
      }
      AvoidedFails(a, Close(n, i, k), c, s, i, caps);
    case _ =>
      MatchPlain(k, s, i, caps);
      assert Match(k, s, i, caps).None?;
  }

  lemma {:induction false} RejectedFails(k: Cont, c: Class, s: Text, i: nat, caps: Captures)
    requires i <= |s| && Width(c, s, i) > 0 && Rejects(k, c)
    ensures Match(k, s, i, caps).None?
    decreases k
  {
    hide Match, MatchRegex, RegexSize, ContSize;
    match k
    case Do(r, k') =>
      if !Consumes(r) {
        forall caps' ensures Match(k', s, i, caps').None? {
          RejectedFails(k', c, s, i, caps');
        }
      }
      AvoidedFails(r, k', c, s, i, caps);
    case Close(n, from, k') =>
      MatchClose(n, from, k', s, i, caps);
      RejectedFails(k', c, s, i, caps[n := (from, i)]);
    case Loop(a, greedy, from, k') =>
      MatchLoop(a, greedy, from, k', s, i, caps);
      forall caps' ensures Match(k', s, i, caps').None? {
        RejectedFails(k', c, s, i, caps');
      }
      AvoidedFails(Star(a, greedy), k', c, s, i, caps);
  }

  // ---------------------------------------------------------------- greedy commits

  /** Inside the run, `k` does nothing that it would not do at the run's end. */
  ghost predicate Absorbs(k: Cont, c: Class, s: Text, i: nat, caps: Captures)
    requires i <= |s|
  {
    forall j: nat :: i <= j <= |s| && Width(c, s, j) > 0 ==>
      Match(k, s, j, caps).None? || Match(k, s, j, caps) == Match(k, s, RunEnd(c, s, j), caps)
  }

  /** One turn of a `*` over a single character class. */
  lemma StarTurn(c: Class, greedy: bool, k: Cont, s: Text, i: nat, caps: Captures)
    requires i <= |s|
    ensures var w := Width(c, s, i);
            var more := if w > 0 then Match(Do(Star(Atom(c), greedy), k), s, i + w, caps) else None;
            var stop := Match(k, s, i, caps);
            Match(Do(Star(Atom(c), greedy), k), s, i, caps)
              == if greedy then OrElse(more, stop) else OrElse(stop, more)
  {
    hide Match, MatchRegex, RegexSize, ContSize;
    var again := Loop(Atom(c), greedy, i, k);
    MatchStar(Atom(c), greedy, k, s, i, caps);
    MatchAtom(c, again, s, i, caps);
    if Width(c, s, i) > 0 {
      MatchLoop(Atom(c), greedy, i, k, s, i + Width(c, s, i), caps);
    }
  }

  /** A greedy run never has to give a character back to a continuation that absorbs it. */
  lemma {:induction false} StarCommits(c: Class, k: Cont, s: Text, i: nat, caps: Captures)
    requires i <= |s|
    requires Absorbs(k, c, s, i, caps)
    ensures Match(Do(Star(Atom(c), true), k), s, i, caps) == Match(k, s, RunEnd(c, s, i), caps)
    decreases |s| - i
  {
    hide Match, MatchRegex, RegexSize, ContSize, Width;
    StarTurn(c, true, k, s, i, caps);
    var w := Width(c, s, i);
    if w > 0 {
      StarCommits(c, k, s, i + w, caps);
      assert Match(k, s, i, caps).None? || Match(k, s, i, caps) == Match(k, s, RunEnd(c, s, i), caps);
    }
  }

  /** The usual case: `k` cannot even start on a `c` character. */
  lemma StarTakesAll(c: Class, k: Cont, s: Text, i: nat, caps: Captures)
    requires i <= |s|
    requires Rejects(k, c)
    ensures Match(Do(Star(Atom(c), true), k), s, i, caps) == Match(k, s, RunEnd(c, s, i), caps)
  {
    hide Match, MatchRegex, RegexSize, ContSize;
    forall j: nat | i <= j <= |s| && Width(c, s, j) > 0 ensures Match(k, s, j, caps).None? {
      RejectedFails(k, c, s, j, caps);
    }
    StarCommits(c, k, s, i, caps);
  }

  /** If the continuation succeeds at the end of the run, the whole run is taken. */
  lemma {:induction false} StarReachesEnd(c: Class, k: Cont, s: Text, i: nat, caps: Captures)
    requires i <= |s|
    requires Match(k, s, RunEnd(c, s, i), caps).Some?
    ensures Match(Do(Star(Atom(c), true), k), s, i, caps) == Match(k, s, RunEnd(c, s, i), caps)
    decreases |s| - i
  {
    hide Match, MatchRegex, RegexSize, ContSize;
    StarTurn(c, true, k, s, i, caps);
    if Width(c, s, i) > 0 {
      StarReachesEnd(c, k, s, i + Width(c, s, i), caps);
    }
  }

  lemma PlusCommits(c: Class, k: Cont, s: Text, i: nat, caps: Captures)
    requires i <= |s|
    requires Absorbs(k, c, s, i, caps)
    ensures Match(Do(Plus(Atom(c)), k), s, i, caps)
         == if Width(c, s, i) > 0 then Match(k, s, RunEnd(c, s, i), caps) else None
  {
    hide Match, MatchRegex, RegexSize, ContSize;
    MatchCat(Atom(c), Star(Atom(c), true), k, s, i, caps);
    MatchAtom(c, Do(Star(Atom(c), true), k), s, i, caps);
    var w := Width(c, s, i);
    if w > 0 {
      StarCommits(c, k, s, i + w, caps);
    }
  }

  lemma PlusTakesAll(c: Class, k: Cont, s: Text, i: nat, caps: Captures)
    requires i <= |s|
    requires Rejects(k, c)
    ensures Match(Do(Plus(Atom(c)), k), s, i, caps)
         == if Width(c, s, i) > 0 then Match(k, s, RunEnd(c, s, i), caps) else None
  {
    hide Match, MatchRegex, RegexSize, ContSize;
    forall j: nat | i <= j <= |s| && Width(c, s, j) > 0 ensures Match(k, s, j, caps).None? {
      RejectedFails(k, c, s, j, caps);
    }
    PlusCommits(c, k, s, i, caps);
  }

  /** A captured `c+` takes the whole run. */
  lemma CaptureTakesAll(n: nat, c: Class, k: Cont, s: Text, i: nat, caps: Captures)
    requires i <= |s|
    requires Rejects(k, c)
    ensures Match(Do(Cap(n, Plus(Atom(c))), k), s, i, caps)
         == if Width(c, s, i) > 0
            then Match(k, s, RunEnd(c, s, i), caps[n := (i, RunEnd(c, s, i))])
            else None
  {
    hide Match, MatchRegex, RegexSize, ContSize;
    MatchCap(n, Plus(Atom(c)), k, s, i, caps);
    PlusTakesAll(c, Close(n, i, k), s, i, caps);
    MatchClose(n, i, k, s, RunEnd(c, s, i), caps);
  }
}
