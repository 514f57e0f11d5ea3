// Declarations of the plainest shapes, byte for byte, and the fields they are parsed to.

module StructShapes {
  import opened Wrappers
  import opened Chars
  import opened JsRegex
  import opened FnPtrPatterns
  import opened FnPtrTypedefs
  import opened StructFields

  /** Digits, letters and underscores, at least one. */
  predicate AllWord(w: Text) {
    w != [] && forall b <- w :: 0x30 <= b <= 0x39 || 0x41 <= b <= 0x5A || 0x61 <= b <= 0x7A || b == 0x5F
  }

  lemma {:induction false} WordRun(s: Text, i: nat, e: nat)
    requires i <= e <= |s| && (forall k :: i <= k < e ==> IsWord(s[k])) && !IsWordAt(s, e)
    ensures WordEnd(s, i) == e
    decreases e - i
  {
    if i < e {
      WordRun(s, i + 1, e);
    }
  }

  /** The word `w` stands at `i`, and something else follows. */
  predicate StandsAt(s: Text, i: nat, w: Text) {
    i + |w| <= |s| && s[i..i + |w|] == w && AllWord(w) && !IsWordAt(s, i + |w|)
  }

  lemma WordStands(s: Text, i: nat, w: Text)
    requires StandsAt(s, i, w)
    ensures IsWordAt(s, i) && WordEnd(s, i) == i + |w| && JswsLen(s, i) == 0
  {
    forall k | i <= k < i + |w| ensures IsWord(s[k]) {
      assert s[k] == s[i..i + |w|][k - i] && s[k] in w;
    }
    WordRun(s, i, i + |w|);
  }

  lemma Bare(s: Text, i: nat)
    requires i <= |s| && JswsLen(s, i) == 0
    ensures SkipWs(s, i) == i
  {}

  lemma Spaced(s: Text, i: nat)
    requires i < |s| && s[i] == 0x20 && JswsLen(s, i + 1) == 0
    ensures SkipWs(s, i) == i + 1
  {
    Bare(s, i + 1);
  }

  // ---------------------------------------------------------------- one part

  /** `type name`, whole. */
  lemma TypedPart(t: Text, n: Text)
    requires AllWord(t) && AllWord(n)
    ensures TypedOf(t + [0x20] + n) == Some((t, n))
  {
    hide Match, MatchRegex, RegexSize, ContSize, WordEnd, SkipWs, JswsLen;
    var s := t + [0x20] + n;
    var w := |t| + 1;
    assert s[..|t|] == t && s[w..] == n && s[|t|] == 0x20;
    assert s[0..0 + |t|] == t && s[w..w + |n|] == n;
    WordStands(s, 0, t);
    WordStands(s, w, n);
    Spaced(s, |t|);
    NoStar(s, w);
    Bare(s, w);
    Past(s);
    TypedMatches(s, 0);
    assert TypedAt(s, 0) == Some(((0, |t|), (w, |s|)));
  }

  lemma NoStar(s: Text, i: nat)
    requires i < |s| && s[i] != STAR
    ensures RunEnd(STARS, s, i) == i
  {}

  lemma Past(s: Text)
    ensures SkipWs(s, |s|) == |s|
  {}

  lemma {:induction false} NoPointer(s: Text, i: nat)
    requires i <= |s| && forall k :: i <= k < |s| ==> s[k] != OPEN_PAREN
    ensures Find(PAREN_TAIL, s, i).None?
    decreases |s| - i
  {
    hide Match, MatchRegex, RegexSize, ContSize;
    ChrMatches(OPEN_PAREN, Ws(Do(Star(WORD_SPACE, true), STARRED_NAME)), s, i, map[]);
    if i < |s| {
      NoPointer(s, i + 1);
    }
  }

  /** `*name` or `name`, as a later part. */
  lemma LaterPart(stars: Text, n: Text)
    requires (forall b <- stars :: b == 0x2A) && AllWord(n)
    ensures var m := Match(LATER_NAME, stars + n, 0, map[]); m.Some? && Group(stars + n, m.value, 1) == n
  {
    hide Match, MatchRegex, RegexSize, ContSize, WordEnd, SkipWs, JswsLen;
    var s := stars + n;
    assert s[|stars|..|stars| + |n|] == n;
    WordStands(s, |stars|, n);
    assert forall k :: 0 <= k < |stars| ==> s[k] == stars[k] && stars[k] in stars;
    assert s[|stars|] == n[0];
    StarRun(s, 0, |stars|);
    Bare(s, |stars|);
    LaterNameMatches(s);
  }

  lemma {:induction false} StarRun(s: Text, i: nat, e: nat)
    requires i <= e <= |s| && (forall k :: i <= k < e ==> s[k] == 0x2A) && (e < |s| ==> s[e] != 0x2A)
    ensures RunEnd(STARS, s, i) == e
    decreases e - i
  {
    if i < e {
      StarRun(s, i + 1, e);
    }
  }

  // ---------------------------------------------------------------- trimming and splitting plain text

  /** Every byte is ASCII, and the only white space is the space. */
  predicate Printable(s: Text) { forall b <- s :: 0x20 <= b < 0x7F }

  lemma {:induction false} TrimEndBare(s: Text, i: nat, b: nat, last: nat)
    requires Printable(s) && last <= i <= b <= |s| && (if i < b then s[b - 1] != 0x20 else last == b)
    ensures TrimEnd(s, i, b, last) == b
    decreases b - i
  {
    if i < b {
      assert s[i] in s && s[b - 1] in s;
      TrimEndBare(s, i + 1, b, if s[i] == 0x20 then last else i + 1);
    }
  }

  lemma TrimmedBare(s: Text, a: nat, b: nat)
    requires Printable(s) && a <= b <= |s| && (a < b ==> s[a] != 0x20 && s[b - 1] != 0x20)
    ensures Trimmed(s, (a, b)) == (a, b)
  {
    if a < b {
      assert s[a] in s;
    } else {
      EmptyTrim(s, a);
    }
    TrimEndBare(s, a, b, a);
  }

  lemma EmptyTrim(s: Text, a: nat)
    requires a <= |s|
    ensures TrimStart(s, a, a) == a
  {}

  /** Which bytes nest, and which brace a body. */
  lemma BracketBytes(b: Byte)
    ensures Nesting(b) == if b == 0x28 || b == 0x5B || b == 0x7B then 1 else if b == 0x29 || b == 0x5D || b == 0x7D then -1 else 0
    ensures BraceStep(b) == if b == 0x7B then 1 else if b == 0x7D then -1 else 0
  {}

  /** Brackets stay as deep as they are over bytes that are none. */
  lemma {:induction false} SameDepth(s: Text, i: nat, e: nat)
    requires i <= e <= |s| && forall k :: i <= k < e ==> s[k] !in {0x28, 0x29, 0x5B, 0x5D, 0x7B, 0x7D}
    ensures Depth(s, e) == Depth(s, i)
    decreases e
  {
    if i < e {
      SameDepth(s, i, e - 1);
    }
  }

  /** Without a separator before `e`, the piece goes on to `e`. */
  lemma {:induction false} PieceTo(s: Text, sep: Byte, start: nat, i: nat, e: nat)
    requires start <= i <= e <= |s| && (forall k :: i <= k < e ==> s[k] != sep)
    ensures Pieces(s, sep, start, i) == Pieces(s, sep, start, e)
    decreases e - i
  {
    hide Depth;
    if i < e {
      PieceTo(s, sep, start, i + 1, e);
    }
  }

  /** Two pieces around the only separator. */
  lemma TwoPieces(s: Text, sep: Byte, e: nat)
    requires e < |s| && s[e] == sep && (sep == 0x2C || sep == 0x3B) && Depth(s, e) == 0
    requires forall k :: 0 <= k < |s| && k != e ==> s[k] != sep
    ensures Split(s, sep) == [(0, e), (e + 1, |s|)]
  {
    hide Depth;
    PieceTo(s, sep, 0, 0, e);
    PieceTo(s, sep, e + 1, e + 1, |s|);
    assert IsCut(s, sep, e);
  }

  lemma OnePiece(s: Text, sep: Byte)
    requires forall k :: 0 <= k < |s| ==> s[k] != sep
    ensures Split(s, sep) == [(0, |s|)]
  {
    PieceTo(s, sep, 0, 0, |s|);
  }

  // ---------------------------------------------------------------- whole declarations

  /** One declaration and its semicolon: its parts are the fields. */
  lemma OneDeclaration(decl: Text)
    requires Printable(decl) && decl != [] && decl[0] != 0x20 && decl[|decl| - 1] != 0x20
    requires (forall b <- decl :: b != 0x3B) && Depth(decl, |decl|) == 0
    ensures Fields(decl + [0x3B]) == PartFields(decl, Split(decl, COMMA), 0, 0)
  {
    hide PartFields, Depth, Trimmed;
    var inner, e := decl + [0x3B], |decl|;
    assert inner[..e] == decl && inner[e] == 0x3B;
    forall k | 0 <= k < |inner| && k != e ensures inner[k] != 0x3B {
      assert inner[k] == decl[k] && decl[k] in decl;
    }
    DepthInside(decl, [0x3B], e);
    TwoPieces(inner, 0x3B, e);
    forall b | b in inner ensures 0x20 <= b < 0x7F {
      assert b in decl || b == 0x3B;
    }
    assert inner[0] == decl[0] && inner[e - 1] == decl[e - 1];
    TrimmedBare(inner, 0, e);
    TrimmedBare(inner, e + 1, e + 1);
    var pieces := [(0, e), (e + 1, e + 1)];
    assert Split(inner, SEMICOLON) == pieces && pieces[1..] == [(e + 1, e + 1)] && pieces[1..][1..] == [];
    assert Slice(inner, (0, e)) == decl && Slice(inner, (e + 1, e + 1)) == [];
    var more := |Split(decl, COMMA)|;
    assert DeclFields(inner, pieces[1..], more) == [];
  }

  lemma {:induction false} DepthInside(a: Text, b: Text, i: nat)
    requires i <= |a|
    ensures Depth(a + b, i) == Depth(a, i)
    decreases i
  {
    if i > 0 {
      DepthInside(a, b, i - 1);
    }
  }

  /**
   * `type first, *later;` declares the first name with the type before it and
   * the later one with the same type, whatever stars stand before it.
   */
  lemma TypeIsShared(t: Text, first: Text, stars: Text, later: Text)
    requires AllWord(t) && AllWord(first) && AllWord(later) && forall b <- stars :: b == 0x2A
    ensures Fields(t + [0x20] + first + [0x2C] + (stars + later) + [0x3B])
         == [RawField(first, 0, false, t), RawField(later, 1, false, t)]
  {
    hide PartField, Fields, Split, Depth;
    var head, tail := t + [0x20] + first, stars + later;
    var decl := head + [0x2C] + tail;
    PlainBytes(t, first, stars, later);
    SameDepth(decl, 0, |decl|);
    DepthStart(decl);
    OneDeclaration(decl);
    SameDepth(decl, 0, |head|);
    TwoPieces(decl, 0x2C, |head|);
    var parts := [(0, |head|), (|head| + 1, |decl|)];
    FirstPart(decl, parts, t, first, head, tail);
    SecondPart(decl, parts, t, first, stars, later, head);
    TwoParts(decl, parts);
  }

  lemma DepthStart(s: Text)
    ensures Depth(s, 0) == 0
  {}

  lemma TwoParts(decl: Text, parts: seq<Range>)
    requires |parts| == 2 && forall p :: p in parts ==> p.0 <= p.1 <= |decl|
    ensures PartFields(decl, parts, 0, 0) == [PartField(decl, parts, 0, 0), PartField(decl, parts, 1, 1)]
  {
    hide PartField;
  }

  /** What the pieces of the declaration are made of. */
  lemma PlainBytes(t: Text, first: Text, stars: Text, later: Text)
    requires AllWord(t) && AllWord(first) && AllWord(later) && forall b <- stars :: b == 0x2A
    ensures var head, tail := t + [0x20] + first, stars + later;
            var decl := head + [0x2C] + tail;
            && Printable(decl) && decl[0] != 0x20 && decl[|decl| - 1] != 0x20 && decl[|head|] == 0x2C
            && (forall b <- decl :: b != 0x3B)
            && (forall k :: 0 <= k < |decl| ==> decl[k] !in {0x28, 0x29, 0x5B, 0x5D, 0x7B, 0x7D})
            && (forall k :: 0 <= k < |decl| && k != |head| ==> decl[k] != 0x2C)
            && head[0] != 0x20 && head[|head| - 1] != 0x20 && tail[0] != 0x20 && tail[|tail| - 1] != 0x20
  {
    var head, tail := t + [0x20] + first, stars + later;
    var decl := head + [0x2C] + tail;
    forall k | 0 <= k < |decl|
      ensures 0x20 <= decl[k] < 0x7F && decl[k] != 0x3B && decl[k] !in {0x28, 0x29, 0x5B, 0x5D, 0x7B, 0x7D}
      ensures k != |head| ==> decl[k] != 0x2C
    {
      ByteOf(t, first, stars, later, k);
    }
    assert head[0] == t[0] && t[0] in t && head[|head| - 1] == first[|first| - 1] && first[|first| - 1] in first;
    assert tail[|tail| - 1] == later[|later| - 1] && later[|later| - 1] in later;
    assert tail[0] == if stars == [] then later[0] else stars[0];
    assert stars != [] ==> stars[0] in stars;
    assert later[0] in later;
  }

  lemma ByteOf(t: Text, first: Text, stars: Text, later: Text, k: nat)
    requires AllWord(t) && AllWord(first) && AllWord(later) && forall b <- stars :: b == 0x2A
    requires k < |t| + 1 + |first| + 1 + |stars| + |later|
    ensures var b := (t + [0x20] + first + [0x2C] + (stars + later))[k];
            IsWord(b) || b == 0x2A || (b == 0x20 && k == |t|) || (b == 0x2C && k == |t| + 1 + |first|)
  {
    var b := (t + [0x20] + first + [0x2C] + (stars + later))[k];
    assert b in t || b in first || b in stars || b in later || k == |t| || k == |t| + 1 + |first|;
  }

  lemma FirstPart(decl: Text, parts: seq<Range>, t: Text, first: Text, head: Text, tail: Text)
    requires AllWord(t) && AllWord(first) && head == t + [0x20] + first && decl == head + [0x2C] + tail
    requires Printable(decl) && (forall k :: 0 <= k < |decl| ==> decl[k] !in {0x28, 0x29, 0x5B, 0x5D, 0x7B, 0x7D})
    requires head[0] != 0x20 && head[|head| - 1] != 0x20
    requires parts == [(0, |head|), (|head| + 1, |decl|)]
    ensures PartField(decl, parts, 0, 0) == RawField(first, 0, false, t)
    ensures Slice(decl, parts[0]) == head
  {
    hide Find, Match, Trimmed;
    assert decl[0..|head|] == head && decl[0] == head[0] && decl[|head| - 1] == head[|head| - 1];
    TrimmedBare(decl, 0, |head|);
    forall k | 0 <= k < |head| ensures head[k] != OPEN_PAREN {
      assert head[k] == decl[k];
    }
    NoPointer(head, 0);
    TypedPart(t, first);
  }

  lemma SecondPart(decl: Text, parts: seq<Range>, t: Text, first: Text, stars: Text, later: Text, head: Text)
    requires AllWord(t) && AllWord(first) && AllWord(later) && forall b <- stars :: b == 0x2A
    requires head == t + [0x20] + first && decl == head + [0x2C] + (stars + later)
    requires Printable(decl) && (forall k :: 0 <= k < |decl| ==> decl[k] !in {0x28, 0x29, 0x5B, 0x5D, 0x7B, 0x7D})
    requires (stars + later)[0] != 0x20 && (stars + later)[|stars + later| - 1] != 0x20
    requires parts == [(0, |head|), (|head| + 1, |decl|)]
    ensures PartField(decl, parts, 1, 1) == RawField(later, 1, false, t)
  {
    hide Find, Match, Trimmed;
    var tail, a := stars + later, |head| + 1;
    assert decl[a..|decl|] == tail && decl[0..|head|] == head;
    assert decl[a] == tail[0] && decl[|decl| - 1] == tail[|tail| - 1];
    TrimmedBare(decl, a, |decl|);
    forall k | 0 <= k < |tail| ensures tail[k] != OPEN_PAREN {
      assert tail[k] == decl[a + k];
    }
    NoPointer(tail, 0);
    TypedPart(t, first);
    LaterPart(stars, later);
  }

  /** `type (*name)();` declares a function pointer, which has no type word. */
  lemma PointerDeclares(t: Text, name: Text)
    requires AllWord(t) && AllWord(name)
    ensures Fields(t + [0x20, 0x28, 0x2A] + name + [0x29, 0x28, 0x29] + [0x3B]) == [RawField(name, 0, true, [])]
  {
    hide PartField, Fields, Split, Depth, Find, Match;
    var decl := t + [0x20, 0x28, 0x2A] + name + [0x29, 0x28, 0x29];
    PointerBytes(t, name);
    PointerDepth(t, name);
    OneDeclaration(decl);
    OnePiece(decl, 0x2C);
    var parts := [(0, |decl|)];
    TrimmedBare(decl, 0, |decl|);
    PointerPart(t, name, parts);
    OnePart(decl, parts);
  }

  lemma OnePart(decl: Text, parts: seq<Range>)
    requires |parts| == 1 && forall p :: p in parts ==> p.0 <= p.1 <= |decl|
    ensures PartFields(decl, parts, 0, 0) == [PartField(decl, parts, 0, 0)]
  {
    hide PartField;
  }

  lemma PointerBytes(t: Text, name: Text)
    requires AllWord(t) && AllWord(name)
    ensures var decl := t + [0x20, 0x28, 0x2A] + name + [0x29, 0x28, 0x29];
            && Printable(decl) && decl[0] != 0x20 && decl[|decl| - 1] != 0x20
            && (forall b <- decl :: b != 0x3B) && (forall k :: 0 <= k < |decl| ==> decl[k] != 0x2C)
            && (forall k :: 0 <= k < |t| + 1 ==> decl[k] !in {0x28, 0x29, 0x5B, 0x5D, 0x7B, 0x7D})
            && (forall k :: |t| + 2 <= k < |t| + 3 + |name| ==> decl[k] !in {0x28, 0x29, 0x5B, 0x5D, 0x7B, 0x7D})
            && decl[|t| + 1] == 0x28 && decl[|t| + 2] == 0x2A && decl[|decl| - 3] == 0x29 && decl[|decl| - 2] == 0x28
            && decl[|decl| - 1] == 0x29
  {
    var decl := t + [0x20, 0x28, 0x2A] + name + [0x29, 0x28, 0x29];
    forall b | b in decl ensures 0x20 <= b < 0x7F && b != 0x3B && b != 0x2C {
      assert b in t || b in name || b in [0x20, 0x28, 0x2A] || b in [0x29, 0x28, 0x29];
    }
    forall k | 0 <= k < |t| + 1 ensures decl[k] !in {0x28, 0x29, 0x5B, 0x5D, 0x7B, 0x7D} {
      assert k < |t| ==> decl[k] == t[k] && t[k] in t;
    }
    forall k | |t| + 2 <= k < |t| + 3 + |name| ensures decl[k] !in {0x28, 0x29, 0x5B, 0x5D, 0x7B, 0x7D} {
      assert k > |t| + 2 ==> decl[k] == name[k - |t| - 3] && name[k - |t| - 3] in name;
    }
    assert decl[0] == t[0] && t[0] in t;
    forall k | 0 <= k < |decl| ensures decl[k] != 0x2C {
      assert decl[k] in decl;
    }
  }

  lemma PointerDepth(t: Text, name: Text)
    requires AllWord(t) && AllWord(name)
    ensures var decl := t + [0x20, 0x28, 0x2A] + name + [0x29, 0x28, 0x29]; Depth(decl, |decl|) == 0
  {
    var decl, a := t + [0x20, 0x28, 0x2A] + name + [0x29, 0x28, 0x29], |t| + 1;
    var b := a + 2 + |name|;
    PointerBytes(t, name);
    hide Depth;
    DepthStart(decl);
    SameDepth(decl, 0, a);
    DepthNext(decl, a);
    SameDepth(decl, a + 1, b);
    DepthNext(decl, b);
    DepthNext(decl, b + 1);
    DepthNext(decl, b + 2);
  }

  lemma DepthNext(s: Text, i: nat)
    requires i < |s|
    ensures Depth(s, i + 1) == Depth(s, i) + if s[i] == 0x28 then 1 else if s[i] == 0x29 then -1 else Nesting(s[i])
  {}

  lemma PointerPart(t: Text, name: Text, parts: seq<Range>)
    requires AllWord(t) && AllWord(name)
    requires var decl := t + [0x20, 0x28, 0x2A] + name + [0x29, 0x28, 0x29];
             parts == [(0, |decl|)] && Trimmed(decl, parts[0]) == parts[0]
    ensures var decl := t + [0x20, 0x28, 0x2A] + name + [0x29, 0x28, 0x29];
            PartField(decl, parts, 0, 0) == RawField(name, 0, true, [])
  {
    hide Find, Match, Trimmed;
    var decl, a := t + [0x20, 0x28, 0x2A] + name + [0x29, 0x28, 0x29], |t| + 1;
    assert Slice(decl, (0, |decl|)) == decl;
    PointerBytes(t, name);
    MissesBefore(decl, a);
    FindSkipsMisses(PAREN_TAIL, decl, 0, a);
    PointerTail(t, name);
    FindHere(decl, a);
    assert decl[a + 2..a + 2 + |name|] == name;
  }

  lemma MissesBefore(s: Text, a: nat)
    requires a <= |s| && forall k :: 0 <= k < a ==> s[k] !in {0x28, 0x29, 0x5B, 0x5D, 0x7B, 0x7D}
    ensures forall k: nat :: k < a ==> Match(PAREN_TAIL, s, k, map[]).None?
  {
    hide Match, MatchRegex, RegexSize, ContSize;
    forall k: nat | k < a ensures Match(PAREN_TAIL, s, k, map[]).None? {
      ChrMatches(OPEN_PAREN, Ws(Do(Star(WORD_SPACE, true), STARRED_NAME)), s, k, map[]);
    }
  }

  lemma FindHere(s: Text, a: nat)
    requires a <= |s| && Match(PAREN_TAIL, s, a, map[]).Some?
    ensures Find(PAREN_TAIL, s, a) == Some(Found(a, Match(PAREN_TAIL, s, a, map[]).value))
  {
    hide Match, MatchRegex, RegexSize, ContSize;
  }

  lemma PointerTail(t: Text, name: Text)
    requires AllWord(t) && AllWord(name)
    ensures var decl, a := t + [0x20, 0x28, 0x2A] + name + [0x29, 0x28, 0x29], |t| + 1;
            Match(PAREN_TAIL, decl, a, map[]) == Some(Hit(|decl| - 1, map[1 := (a + 2, a + 2 + |name|)]))
  {
    hide Match, MatchRegex, RegexSize, ContSize, Rejects, WordEnd, SkipWs, JswsLen;
    var s, a := t + [0x20, 0x28, 0x2A] + name + [0x29, 0x28, 0x29], |t| + 1;
    var b := a + 2 + |name|;
    PointerBytes(t, name);
    assert s[a + 2..b] == name && s[b] == 0x29 && s[b + 1] == 0x28;
    WordStands(s, a + 2, name);
    NoSpaceAt(s, a + 1);
    NoSpaceAt(s, b);
    NoSpaceAt(s, b + 1);
    Bare(s, a + 1);
    Bare(s, a + 2);
    Bare(s, b);
    Bare(s, b + 1);
    TailPieces();
    TailWords(s, a);
    ChrMatches(STAR, Ws(WordCap(1, NAME_TAIL)), s, a + 1, map[]);
    WsWordMatches(1, NAME_TAIL, s, a + 2, map[]);
    var caps: Captures := map[1 := (a + 2, b)];
    WsChrMatches(CLOSE_PAREN, Ws(CALL_OPEN), s, b, caps);
    WsChrMatches(OPEN_PAREN, Done, s, b + 1, caps);
    MatchDone(s, b + 2, caps);
  }

  lemma NoSpaceAt(s: Text, i: nat)
    requires i < |s| && 0x21 <= s[i] < 0x7F
    ensures JswsLen(s, i) == 0
  {}
}
