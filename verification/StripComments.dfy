// The C comment stripper: comments become spaces, one per UTF-16 code unit, newlines and strings survive.

module StripComments {
  import opened Wrappers
  import opened Chars
  import opened Seqs

  // ---------------------------------------------------------------- what the stripper recognises

  // Just past the closing star-slash found at or after `i`, or the end of the text.
  function BlockEnd(s: Text, i: nat): (e: nat)
    requires i <= |s|
    ensures i <= e <= |s|
    decreases |s| - i
  {
    if i == |s| then i
    else if s[i] == STAR && At(s, i + 1, SLASH) then i + 2
    else BlockEnd(s, i + 1)
  }

  /** Past the closing quote; a newline ends a `"` string, and a backslash hides one byte. */
  function StringEnd(s: Text, quote: Byte, i: nat): (e: nat)
    requires i <= |s|
    ensures i <= e <= |s|
    decreases |s| - i
  {
    if i == |s| then i
    else if s[i] == quote then i + 1
    else if s[i] == BACKSLASH && i + 1 < |s| then StringEnd(s, quote, i + 2)
    else if quote != BACKTICK && s[i] == NEWLINE then i
    else StringEnd(s, quote, i + 1)
  }

  predicate BlockStarts(s: Text, i: nat) { At(s, i, SLASH) && At(s, i + 1, STAR) }

  predicate LineStarts(s: Text, i: nat) { At(s, i, SLASH) && At(s, i + 1, SLASH) }

  predicate IsQuote(b: Byte) { b == QUOTE || b == BACKTICK }

  /** Bytes of the character that `b` leads; a stray continuation byte counts singly. */
  function CharLen(b: Byte): (n: nat)
    ensures 1 <= n <= 4
  {
    if b < 0xC0 then 1 else if b < 0xE0 then 2 else if b < 0xF0 then 3 else 4
  }

  /** One space per UTF-16 unit of `region[i..]`, newlines kept. */
  function Blank(region: Text, i: nat): Text
    requires i <= |region|
    decreases |region| - i
  {
    if i == |region| then []
    else
      var b := region[i];
      if b == NEWLINE then [NEWLINE] + Blank(region, i + 1)
      else
        var len := CharLen(b);
        var next := if i + len <= |region| then i + len else |region|;
        (if len == 4 then [SPACE, SPACE] else [SPACE]) + Blank(region, next)
  }

  /** A comment starts at `i`. */
  predicate IsComment(s: Text, i: nat) { BlockStarts(s, i) || LineStarts(s, i) }

  /** Past the comment, the string, or the single byte at `i`. */
  function TokenEnd(s: Text, i: nat): (e: nat)
    requires i < |s|
    ensures i < e <= |s|
  {
    if BlockStarts(s, i) then BlockEnd(s, i + 2)
    else if LineStarts(s, i) then assert LineEnd(s, i) > i; LineEnd(s, i)
    else if IsQuote(s[i]) then StringEnd(s, s[i], i + 1)
    else i + 1
  }

  /** What is emitted for `s[i..e]`. */
  function Emitted(s: Text, i: nat, e: nat): Text
    requires i <= e <= |s|
  {
    if IsComment(s, i) then Blank(s[i..e], 0) else s[i..e]
  }

  /** The stripped text of `s[i..]`, read from outside any comment or string. */
  function Strip(s: Text, i: nat): Text
    requires i <= |s|
    decreases |s| - i
  {
    if i == |s| then []
    else
      var e := TokenEnd(s, i);
      Emitted(s, i, e) + Strip(s, e)
  }

  // ---------------------------------------------------------------- the machine itself

  method EmitBlank(out: Text, region: Text) returns (r: Text)
    ensures r == out + Blank(region, 0)
  {
    r := out;
    var i := 0;
    while i < |region|
      invariant i <= |region|
      invariant out + Blank(region, 0) == r + Blank(region, i)
    {
      var b := region[i];
      if b == NEWLINE {
        r := r + [NEWLINE];
        i := i + 1;
        continue;
      }
      var len := CharLen(b);
      r := r + [SPACE];
      if len == 4 {
        r := r + [SPACE];
      }
      i := i + if len < |region| - i then len else |region| - i;
    }
  }

  /** Copies `src[copied..start]`, blanks `src[start..end]`. */
  method BlankTo(src: Text, out: Text, copied: nat, start: nat, end: nat) returns (r: Text)
    requires copied <= start <= end <= |src|
    ensures r == out + src[copied..start] + Blank(src[start..end], 0)
  {
    r := EmitBlank(out + src[copied..start], src[start..end]);
  }

  method SkipString(src: Text, quote: Byte, from: nat) returns (i: nat)
    requires from <= |src|
    ensures i == StringEnd(src, quote, from)
  {
    i := from;
    while i < |src| && src[i] != quote
      invariant from <= i <= |src|
      invariant StringEnd(src, quote, from) == StringEnd(src, quote, i)
    {
      if src[i] == BACKSLASH && i + 1 < |src| {
        i := i + 2;
        continue;
      }
      if quote != BACKTICK && src[i] == NEWLINE {
        break;
      }
      i := i + 1;
    }
    if i < |src| && src[i] == quote {
      i := i + 1;
    }
  }

  method SkipBlock(src: Text, from: nat) returns (i: nat)
    requires from <= |src|
    ensures i == BlockEnd(src, from)
  {
    i := from;
    while i < |src| && !(src[i] == STAR && i + 1 < |src| && src[i + 1] == SLASH)
      invariant from <= i <= |src|
      invariant BlockEnd(src, from) == BlockEnd(src, i)
    {
      i := i + 1;
    }
    if i < |src| {
      i := i + 2;
    }
  }

  method SkipLine(src: Text, from: nat) returns (i: nat)
    requires from <= |src|
    ensures i == LineEnd(src, from)
  {
    i := from;
    while i < |src| && src[i] != NEWLINE
      invariant from <= i <= |src|
      invariant LineEnd(src, from) == LineEnd(src, i)
    {
      i := i + 1;
    }
  }

  /** What has been emitted, the pending verbatim stretch, and the rest make up the result. */
  ghost predicate Progress(src: Text, out: Text, copied: nat, i: nat) {
    copied <= i <= |src| && Strip(src, 0) == out + src[copied..i] + Strip(src, i)
  }

  lemma StripStep(src: Text, i: nat)
    requires i < |src|
    ensures var e := TokenEnd(src, i); Strip(src, i) == Emitted(src, i, e) + Strip(src, e)
  {}

  lemma Verbatim(src: Text, out: Text, copied: nat, i: nat)
    requires Progress(src, out, copied, i) && i < |src| && !IsComment(src, i)
    ensures Progress(src, out, copied, TokenEnd(src, i))
  {
    hide TokenEnd, IsComment, Strip;
    var e := TokenEnd(src, i);
    StripStep(src, i);
    assert src[copied..e] == src[copied..i] + src[i..e];
    RegroupFour(out, src[copied..i], src[i..e], Strip(src, e));
  }

  lemma Blanked(src: Text, out: Text, copied: nat, i: nat)
    requires Progress(src, out, copied, i) && i < |src| && IsComment(src, i)
    ensures var e := TokenEnd(src, i);
            Progress(src, out + src[copied..i] + Blank(src[i..e], 0), e, e)
  {
    hide TokenEnd, IsComment, Blank, Strip;
    var e := TokenEnd(src, i);
    StripStep(src, i);
    assert src[e..e] == [];
    RegroupFour(out, src[copied..i], Blank(src[i..e], 0), Strip(src, e));
  }

  method StripC(src: Text) returns (out: Text)
    ensures out == Strip(src, 0)
  {
    hide Progress, Blank, Strip;
    out := [];
    var copied: nat := 0;
    var i: nat := 0;
    ProgressAtStart(src);
    while i < |src|
      invariant copied <= i <= |src|
      invariant Progress(src, out, copied, i)
    {
      var c := src[i];
      var c2: Byte := if i + 1 < |src| then src[i + 1] else 0;
      if c == SLASH && c2 == STAR {
        Blanked(src, out, copied, i);
        var e := SkipBlock(src, i + 2);
        out := BlankTo(src, out, copied, i, e);
        i, copied := e, e;
        continue;
      }
      if c == SLASH && c2 == SLASH {
        Blanked(src, out, copied, i);
        var e := SkipLine(src, i);
        out := BlankTo(src, out, copied, i, e);
        i, copied := e, e;
        continue;
      }
      Verbatim(src, out, copied, i);
      if IsQuote(c) {
        i := SkipString(src, c, i + 1);
        continue;
      }
      i := i + 1;
    }
    Finished(src, out, copied);
    out := out + src[copied..];
  }

  lemma ProgressAtStart(src: Text)
    ensures Progress(src, [], 0, 0)
  {}

  lemma Finished(src: Text, out: Text, copied: nat)
    requires Progress(src, out, copied, |src|)
    ensures Strip(src, 0) == out + src[copied..]
  {
    assert src[copied..|src|] == src[copied..];
  }

  // ---------------------------------------------------------------- idempotence

  lemma TokenSuffix(p: Text, u: Text, i: nat)
    requires i < |u|
    ensures TokenEnd(p + u, |p| + i) == |p| + TokenEnd(u, i)
    ensures IsComment(p + u, |p| + i) == IsComment(u, i)
    ensures Emitted(p + u, |p| + i, |p| + TokenEnd(u, i)) == Emitted(u, i, TokenEnd(u, i))
  {
    hide BlockEnd, LineEnd, StringEnd, Blank;
    var s, k := p + u, |p| + i;
    assert s[k] == u[i];
    assert i + 1 < |u| ==> s[k + 1] == u[i + 1];
    if BlockStarts(u, i) {
      BlockEndSuffix(p, u, i + 2);
    } else if LineStarts(u, i) {
      LineEndSuffix(p, u, i);
    } else if IsQuote(u[i]) {
      StringEndSuffix(p, u, u[i], i + 1);
    }
    assert s[k..|p| + TokenEnd(u, i)] == u[i..TokenEnd(u, i)];
  }

  /** Text read from a suffix is read the same way from the whole. */
  lemma {:induction false} StripSuffix(p: Text, u: Text, i: nat)
    requires i <= |u|
    ensures Strip(p + u, |p| + i) == Strip(u, i)
    decreases |u| - i
  {
    hide TokenEnd, IsComment, Emitted;
    if i < |u| {
      TokenSuffix(p, u, i);
      StripSuffix(p, u, TokenEnd(u, i));
    }
  }

  lemma {:induction false} BlockEndSuffix(p: Text, u: Text, i: nat)
    requires i <= |u|
    ensures BlockEnd(p + u, |p| + i) == |p| + BlockEnd(u, i)
    decreases |u| - i
  {
    if i < |u| && !(u[i] == STAR && At(u, i + 1, SLASH)) {
      BlockEndSuffix(p, u, i + 1);
    }
  }

  lemma {:induction false} LineEndSuffix(p: Text, u: Text, i: nat)
    requires i <= |u|
    ensures LineEnd(p + u, |p| + i) == |p| + LineEnd(u, i)
    decreases |u| - i
  {
    if i < |u| && u[i] != NEWLINE {
      LineEndSuffix(p, u, i + 1);
    }
  }

  lemma {:induction false} StringEndSuffix(p: Text, u: Text, quote: Byte, i: nat)
    requires i <= |u|
    ensures StringEnd(p + u, quote, |p| + i) == |p| + StringEnd(u, quote, i)
    decreases |u| - i
  {
    if i < |u| && u[i] != quote {
      if u[i] == BACKSLASH && i + 1 < |u| {
        StringEndSuffix(p, u, quote, i + 2);
      } else {
        StringEndSuffix(p, u, quote, i + 1);
      }
    }
  }

  lemma CopiedByte(b: Byte, u: Text)
    requires b == SPACE || b == NEWLINE
    ensures Strip([b] + u, 0) == [b] + Strip(u, 0)
  {
    var s := [b] + u;
    StripSuffix([b], u, 0);
    assert TokenEnd(s, 0) == 1 && !IsComment(s, 0);
    assert s[0..1] == [b];
  }

  /** Spaces and newlines are copied one by one. */
  lemma {:induction false} StripBlanks(b: Text, u: Text)
    requires forall k :: 0 <= k < |b| ==> b[k] == SPACE || b[k] == NEWLINE
    ensures Strip(b + u, 0) == b + Strip(u, 0)
    decreases |b|
  {
    hide Strip;
    if b == [] {
      assert b + u == u;
    } else {
      var rest := b[1..] + u;
      assert b + u == [b[0]] + rest;
      StripBlanks(b[1..], u);
      CopiedByte(b[0], rest);
      assert [b[0]] + (b[1..] + Strip(u, 0)) == b + Strip(u, 0);
    }
  }

  lemma {:induction false} BlankIsBlank(region: Text, i: nat)
    requires i <= |region|
    ensures forall k :: 0 <= k < |Blank(region, i)| ==> Blank(region, i)[k] == SPACE || Blank(region, i)[k] == NEWLINE
    ensures i < |region| && region[i] != NEWLINE ==> Blank(region, i) != [] && Blank(region, i)[0] == SPACE
    decreases |region| - i
  {
    if i < |region| {
      var len := CharLen(region[i]);
      BlankIsBlank(region, if region[i] == NEWLINE then i + 1 else if i + len <= |region| then i + len else |region|);
    }
  }

  /** The first stripped byte is the first byte, or a space where a comment began. */
  lemma FirstByte(s: Text, i: nat)
    requires i < |s|
    ensures Strip(s, i) != []
    ensures Strip(s, i)[0] == if IsComment(s, i) then SPACE else s[i]
  {
    hide TokenEnd, Blank;
    var e := TokenEnd(s, i);
    BlankIsBlank(s[i..e], 0);
    assert s[i..e][0] == s[i];
  }

  /** A string ends at the same place whatever follows it, as long as a closing newline stays. */
  lemma {:induction false} StringEndKept(s: Text, quote: Byte, i: nat, j: nat, u: Text)
    requires i <= j <= |s|
    requires var e := StringEnd(s, quote, j);
             (e == |s| ==> u == []) && (e < |s| && s[e] == NEWLINE ==> u != [] && u[0] == NEWLINE)
    ensures var e := StringEnd(s, quote, j);
            StringEnd(s[i..e] + u, quote, j - i) == e - i
    decreases |s| - j
  {
    var e := StringEnd(s, quote, j);
    var t := s[i..e] + u;
    if j < e {
      assert t[j - i] == s[j];
      if s[j] == quote {
      } else if s[j] == BACKSLASH && j + 1 < |s| {
        StringEndKept(s, quote, i, j + 2, u);
      } else {
        StringEndKept(s, quote, i, j + 1, u);
      }
    }
  }

  /** Kept text is kept again: no comment can appear where there was none. */
  lemma TokenKept(s: Text, i: nat)
    requires i < |s| && !IsComment(s, i)
    ensures var e := TokenEnd(s, i);
            var t := s[i..e] + Strip(s, e);
            && |t| > 0 && !IsComment(t, 0) && TokenEnd(t, 0) == e - i && t[0..e - i] == s[i..e]
  {
    hide Strip, StringEnd;
    var e := TokenEnd(s, i);
    var t := s[i..e] + Strip(s, e);
    assert t[0] == s[i] && t[0..e - i] == s[i..e];
    if e < |s| {
      FirstByte(s, e);
    } else {
      StripAtEnd(s);
    }
    if IsQuote(s[i]) {
      StringEndKept(s, s[i], i, i + 1, Strip(s, e));
    }
  }

  lemma StripAtEnd(s: Text)
    ensures Strip(s, |s|) == []
  {}

  /** Stripping twice is stripping once, on every byte sequence. */
  lemma {:induction false} StripIdempotent(s: Text, i: nat)
    requires i <= |s|
    ensures Strip(Strip(s, i), 0) == Strip(s, i)
    decreases |s| - i
  {
    hide TokenEnd, IsComment, Blank;
    if i < |s| {
      var e := TokenEnd(s, i);
      var rest := Strip(s, e);
      StripIdempotent(s, e);
      if IsComment(s, i) {
        BlankIsBlank(s[i..e], 0);
        StripBlanks(Blank(s[i..e], 0), rest);
      } else {
        TokenKept(s, i);
        StripSuffix(s[i..e], rest, 0);
      }
    }
  }

  // ---------------------------------------------------------------- the byte-at-a-time reading

  /** What a byte-at-a-time reader knows before it reads a byte. */
  datatype Mode =
    | Code
    | InLine
    | BlockOpening
    | InBlock
    | BlockClosing
    | InString(quote: Byte)
    | Escaped(quote: Byte)

  /** The reader's next mode, from the byte at `i` and a look at the one after it. */
  function Next(m: Mode, s: Text, i: nat): Mode
    requires i < |s|
  {
    var b := s[i];
    match m
    case Code =>
      if BlockStarts(s, i) then BlockOpening
      else if LineStarts(s, i) then InLine
      else if IsQuote(b) then InString(b)
      else Code
    case InLine => if b == NEWLINE then Code else InLine
    case BlockOpening => InBlock
    case InBlock => if b == STAR && At(s, i + 1, SLASH) then BlockClosing else InBlock
    case BlockClosing => Code
    case InString(q) =>
      if b == q then Code
      else if b == BACKSLASH && i + 1 < |s| then Escaped(q)
      else if q != BACKTICK && b == NEWLINE then Code
      else InString(q)
    case Escaped(q) => InString(q)
  }

  /** Whether the byte at `i`, read in mode `m`, belongs to a comment. */
  predicate InComment(m: Mode, s: Text, i: nat)
    requires i < |s|
  {
    match m
    case Code => BlockStarts(s, i) || LineStarts(s, i)
    case InLine => s[i] != NEWLINE
    case InString(_) => false
    case Escaped(_) => false
    case _ => true
  }

  predicate IsContinuation(b: Byte) { 0x80 <= b < 0xC0 }

  /** A comment byte alone: the lead byte stands for the whole character. */
  function BlankByte(b: Byte): Text {
    if b == NEWLINE then [NEWLINE]
    else if IsContinuation(b) then []
    else if b >= 0xF0 then [SPACE, SPACE]
    else [SPACE]
  }

  /** The reference stripper: every byte on its own, comment bytes blanked, all others kept. */
  function PerByte(m: Mode, s: Text, i: nat): Text
    requires i <= |s|
    decreases |s| - i
  {
    if i == |s| then []
    else (if InComment(m, s, i) then BlankByte(s[i]) else [s[i]]) + PerByte(Next(m, s, i), s, i + 1)
  }

  function BlankBytes(s: Text, i: nat, e: nat): Text
    requires i <= e <= |s|
    decreases e - i
  {
    if i == e then [] else BlankByte(s[i]) + BlankBytes(s, i + 1, e)
  }

  // ---------------------------------------------------------------- UTF-8

  /** `s[i..]` is whole characters, after `pending` continuation bytes still owed to the one before. */
  predicate Utf8(s: Text, i: nat, pending: nat)
    decreases |s| - i
  {
    if i >= |s| then i == |s| && pending == 0
    else if pending > 0 then IsContinuation(s[i]) && Utf8(s, i + 1, pending - 1)
    else !IsContinuation(s[i]) && Utf8(s, i + 1, CharLen(s[i]) - 1)
  }

  /** The character at `i` is complete, and another follows it. */
  lemma {:induction false} WholeChar(s: Text, i: nat, pending: nat)
    requires Utf8(s, i, pending)
    ensures i + pending <= |s| && Utf8(s, i + pending, 0)
    ensures forall j :: i <= j < i + pending ==> IsContinuation(s[j])
    decreases pending
  {
    if pending > 0 {
      WholeChar(s, i + 1, pending - 1);
    }
  }

  /** Inside valid text, every place that is not a continuation byte starts a character. */
  lemma {:induction false} BoundaryIsUtf8(s: Text, i: nat, pending: nat, p: nat)
    requires Utf8(s, i, pending) && i <= p <= |s|
    requires p == |s| || !IsContinuation(s[p])
    ensures Utf8(s, p, 0)
    decreases p - i
  {
    if i < p {
      BoundaryIsUtf8(s, i + 1, if pending > 0 then pending - 1 else CharLen(s[i]) - 1, p);
    }
  }

  /** A comment ends where a character does. */
  lemma CommentEndUtf8(s: Text, i: nat)
    requires Utf8(s, 0, 0) && i < |s| && IsComment(s, i)
    ensures Utf8(s, i, 0) && Utf8(s, TokenEnd(s, i), 0)
  {
    BoundaryIsUtf8(s, 0, 0, i);
    if BlockStarts(s, i) {
      BlockEndUtf8(s, i + 2);
    } else {
      LineEndUtf8(s, i);
    }
  }

  lemma {:induction false} BlockEndUtf8(s: Text, j: nat)
    requires Utf8(s, 0, 0) && j <= |s|
    ensures Utf8(s, BlockEnd(s, j), 0)
    decreases |s| - j
  {
    if j == |s| {
      BoundaryIsUtf8(s, 0, 0, j);
    } else if s[j] == STAR && At(s, j + 1, SLASH) {
      BoundaryIsUtf8(s, 0, 0, j + 1);
    } else {
      BlockEndUtf8(s, j + 1);
    }
  }

  lemma {:induction false} LineEndUtf8(s: Text, j: nat)
    requires Utf8(s, 0, 0) && j <= |s|
    ensures Utf8(s, LineEnd(s, j), 0)
    decreases |s| - j
  {
    if j == |s| || s[j] == NEWLINE {
      BoundaryIsUtf8(s, 0, 0, j);
    } else {
      LineEndUtf8(s, j + 1);
    }
  }

  // ---------------------------------------------------------------- the two readings agree

  /** A region of whole characters blanks byte by byte. */
  lemma {:induction false} BlankIsPerByte(s: Text, i: nat, k: nat, e: nat)
    requires i <= k <= e <= |s| && Utf8(s, k, 0) && Utf8(s, e, 0)
    ensures Blank(s[i..e], k - i) == BlankBytes(s, k, e)
    decreases e - k
  {
    hide Blank, Utf8, CharLen, IsContinuation, BlankByte, BlankBytes;
    var region := s[i..e];
    BlankBytesStep(s, k, e);
    if k < e {
      var n := CharLen(s[k]);
      CharInside(s, k, e);
      BlankIsPerByte(s, i, k + n, e);
      ContinuationsVanish(s, k + 1, k + n, e);
      assert region[k - i] == s[k];
      BlankStep(region, k - i);
    } else {
      BlankStops(region);
    }
  }

  lemma BlankBytesStep(s: Text, k: nat, e: nat)
    requires k <= e <= |s|
    ensures BlankBytes(s, k, e) == if k == e then [] else BlankByte(s[k]) + BlankBytes(s, k + 1, e)
  {}

  lemma BlankStops(region: Text)
    ensures Blank(region, |region|) == []
  {}

  lemma BlankStep(region: Text, i: nat)
    requires i < |region| && i + CharLen(region[i]) <= |region| && !IsContinuation(region[i])
    ensures Blank(region, i) == BlankByte(region[i]) + Blank(region, i + CharLen(region[i]))
  {}

  /** A character that starts before a boundary ends before it. */
  lemma CharInside(s: Text, k: nat, e: nat)
    requires k < e <= |s| && Utf8(s, k, 0) && Utf8(s, e, 0)
    ensures !IsContinuation(s[k]) && k + CharLen(s[k]) <= e && Utf8(s, k + CharLen(s[k]), 0)
    ensures forall j :: k < j < k + CharLen(s[k]) ==> IsContinuation(s[j])
  {
    WholeChar(s, k + 1, CharLen(s[k]) - 1);
  }

  lemma {:induction false} ContinuationsVanish(s: Text, k: nat, p: nat, e: nat)
    requires k <= p <= e <= |s| && forall j :: k <= j < p ==> IsContinuation(s[j])
    ensures BlankBytes(s, k, e) == BlankBytes(s, p, e)
    decreases p - k
  {
    if k < p {
      ContinuationsVanish(s, k + 1, p, e);
    }
  }

  lemma {:induction false} BlockPerByte(s: Text, j: nat)
    requires j <= |s|
    ensures PerByte(InBlock, s, j) == BlankBytes(s, j, BlockEnd(s, j)) + PerByte(Code, s, BlockEnd(s, j))
    decreases |s| - j
  {
    if j < |s| {
      if s[j] == STAR && At(s, j + 1, SLASH) {
        var e := j + 2;
        assert BlankBytes(s, e, e) == [];
        assert BlankBytes(s, j + 1, e) == BlankByte(s[j + 1]);
        assert PerByte(BlockClosing, s, j + 1) == BlankByte(s[j + 1]) + PerByte(Code, s, e);
      } else {
        BlockPerByte(s, j + 1);
      }
    }
  }

  lemma {:induction false} LinePerByte(s: Text, j: nat)
    requires j <= |s|
    ensures PerByte(InLine, s, j) == BlankBytes(s, j, LineEnd(s, j)) + PerByte(Code, s, LineEnd(s, j))
    decreases |s| - j
  {
    if j < |s| {
      if s[j] == NEWLINE {
        assert !BlockStarts(s, j) && !LineStarts(s, j);
      } else {
        LinePerByte(s, j + 1);
      }
    }
  }

  lemma KeptStep(m: Mode, s: Text, j: nat, e: nat, rest: Text)
    requires j < e <= |s| && !InComment(m, s, j)
    requires PerByte(Next(m, s, j), s, j + 1) == s[j + 1..e] + rest
    ensures PerByte(m, s, j) == s[j..e] + rest
  {
    hide Next, InComment;
    assert s[j..e] == [s[j]] + s[j + 1..e];
    assert [s[j]] + (s[j + 1..e] + rest) == s[j..e] + rest;
  }

  lemma {:induction false} StringPerByte(s: Text, quote: Byte, j: nat)
    requires j <= |s| && IsQuote(quote)
    ensures PerByte(InString(quote), s, j) == s[j..StringEnd(s, quote, j)] + PerByte(Code, s, StringEnd(s, quote, j))
    decreases |s| - j
  {
    if j < |s| && !(s[j] == NEWLINE && quote != BACKTICK) {
      hide PerByte, BlockStarts, LineStarts;
      var e := StringEnd(s, quote, j);
      var rest := PerByte(Code, s, e);
      if s[j] == quote {
        assert s[e..e] + rest == rest;
      } else if s[j] == BACKSLASH && j + 1 < |s| {
        StringPerByte(s, quote, j + 2);
        KeptStep(Escaped(quote), s, j + 1, e, rest);
      } else {
        StringPerByte(s, quote, j + 1);
      }
      KeptStep(InString(quote), s, j, e, rest);
    }
  }

  lemma BlockToken(s: Text, i: nat)
    requires BlockStarts(s, i)
    ensures var e := BlockEnd(s, i + 2);
            PerByte(Code, s, i) == BlankBytes(s, i, e) + PerByte(Code, s, e)
  {
    hide BlockEnd;
    var e := BlockEnd(s, i + 2);
    BlockPerByte(s, i + 2);
    var inner := BlankBytes(s, i + 2, e);
    assert PerByte(BlockOpening, s, i + 1) == BlankByte(STAR) + (inner + PerByte(Code, s, e));
    assert BlankBytes(s, i, e) == BlankByte(SLASH) + (BlankByte(STAR) + inner) by {
      assert BlankBytes(s, i + 1, e) == BlankByte(STAR) + inner;
    }
  }

  lemma LineToken(s: Text, i: nat)
    requires LineStarts(s, i)
    ensures var e := LineEnd(s, i);
            i <= e && PerByte(Code, s, i) == BlankBytes(s, i, e) + PerByte(Code, s, e)
  {
    hide LineEnd;
    LineEndStep(s, i);
    LinePerByte(s, i + 1);
    assert BlankBytes(s, i, LineEnd(s, i)) == BlankByte(SLASH) + BlankBytes(s, i + 1, LineEnd(s, i));
  }

  /** One token read byte by byte from code mode. */
  lemma TokenPerByte(s: Text, i: nat)
    requires i < |s|
    ensures var e := TokenEnd(s, i);
            PerByte(Code, s, i) == (if IsComment(s, i) then BlankBytes(s, i, e) else s[i..e]) + PerByte(Code, s, e)
  {
    hide BlockEnd, LineEnd, StringEnd, BlankBytes;
    var e := TokenEnd(s, i);
    if BlockStarts(s, i) {
      BlockToken(s, i);
    } else if LineStarts(s, i) {
      LineToken(s, i);
    } else if IsQuote(s[i]) {
      StringPerByte(s, s[i], i + 1);
      assert s[i..e] == [s[i]] + s[i + 1..e];
    }
  }

  lemma LineEndStep(s: Text, i: nat)
    requires i < |s| && s[i] != NEWLINE
    ensures LineEnd(s, i) == LineEnd(s, i + 1)
  {}

  /**
   * The jumping stripper equals the byte-at-a-time reference on valid text:
   * exactly the comment bytes are blanked, everything else is copied.
   */
  lemma {:induction false} StripIsPerByte(s: Text, i: nat)
    requires i <= |s| && Utf8(s, 0, 0)
    ensures Strip(s, i) == PerByte(Code, s, i)
    decreases |s| - i
  {
    hide TokenEnd, IsComment, Blank, BlankBytes, Utf8;
    if i < |s| {
      var e := TokenEnd(s, i);
      StripIsPerByte(s, e);
      TokenPerByte(s, i);
      if IsComment(s, i) {
        CommentEndUtf8(s, i);
        BlankIsPerByte(s, i, i, e);
      }
    }
  }

  // ---------------------------------------------------------------- UTF-16 shape

  /** One entry per UTF-16 code unit of valid text: whether it is a newline. */
  function Utf16Shape(s: Text, i: nat): seq<bool>
    requires i <= |s| && Utf8(s, i, 0)
    decreases |s| - i
  {
    if i == |s| then []
    else
      var n := CharLen(s[i]);
      WholeChar(s, i + 1, n - 1);
      UnitsOf(s[i]) + Utf16Shape(s, i + n)
  }

  /** The code units of the character that `b` leads; a continuation byte adds none. */
  function UnitsOf(b: Byte): seq<bool> {
    if b == NEWLINE then [true] else if IsContinuation(b) then [] else if b >= 0xF0 then [false, false] else [false]
  }

  /** The same, byte by byte. */
  function ByteShape(s: Text, i: nat): seq<bool>
    requires i <= |s|
    decreases |s| - i
  {
    if i == |s| then [] else UnitsOf(s[i]) + ByteShape(s, i + 1)
  }

  lemma {:induction false} ShapeIsByteShape(s: Text, i: nat)
    requires i <= |s| && Utf8(s, i, 0)
    ensures Utf16Shape(s, i) == ByteShape(s, i)
    decreases |s| - i
  {
    if i < |s| {
      var n := CharLen(s[i]);
      WholeChar(s, i + 1, n - 1);
      ShapeIsByteShape(s, i + n);
      ContinuationShape(s, i + 1, i + n);
    }
  }

  lemma {:induction false} ContinuationShape(s: Text, j: nat, e: nat)
    requires j <= e <= |s| && forall k :: j <= k < e ==> IsContinuation(s[k])
    ensures ByteShape(s, j) == ByteShape(s, e)
    decreases e - j
  {
    if j < e {
      ContinuationShape(s, j + 1, e);
      assert UnitsOf(s[j]) == [];
      NothingAdded(ByteShape(s, j + 1));
    }
  }

  lemma NothingAdded(shape: seq<bool>)
    ensures [] + shape == shape
  {}

  lemma {:induction false} ByteShapeAppend(a: Text, b: Text)
    ensures ByteShape(a + b, 0) == ByteShape(a, 0) + ByteShape(b, 0)
    decreases |a|
  {
    if a == [] {
      assert a + b == b;
    } else {
      hide UnitsOf, ByteShape;
      ByteShapeHead(a);
      ByteShapeAppend(a[1..], b);
      ByteShapeHead(a + b);
      assert (a + b)[1..] == a[1..] + b && (a + b)[0] == a[0];
      Regroup(UnitsOf(a[0]), ByteShape(a[1..], 0), ByteShape(b, 0));
    }
  }

  lemma ByteShapeHead(a: Text)
    requires a != []
    ensures ByteShape(a, 0) == UnitsOf(a[0]) + ByteShape(a[1..], 0)
  {
    ByteShapeShift(a, 1);
  }

  lemma {:induction false} ByteShapeShift(a: Text, j: nat)
    requires 1 <= j <= |a|
    ensures ByteShape(a, j) == ByteShape(a[1..], j - 1)
    decreases |a| - j
  {
    if j < |a| {
      ByteShapeShift(a, j + 1);
      assert a[1..][j - 1] == a[j];
    }
  }

  lemma BlankByteShape(b: Byte)
    ensures ByteShape(BlankByte(b), 0) == UnitsOf(b)
    ensures ByteShape([b], 0) == UnitsOf(b)
  {
    assert ByteShape([b], 1) == [];
    assert ByteShape([SPACE], 1) == [] && ByteShape([SPACE], 0) == [false];
    assert ByteShape([SPACE, SPACE], 2) == [] && ByteShape([SPACE, SPACE], 1) == [false];
  }

  lemma {:induction false} PerByteShape(m: Mode, s: Text, i: nat)
    requires i <= |s|
    ensures ByteShape(PerByte(m, s, i), 0) == ByteShape(s, i)
    decreases |s| - i
  {
    hide InComment, Next, BlankByte, UnitsOf;
    if i < |s| {
      BlankByteShape(s[i]);
      PerByteShape(Next(m, s, i), s, i + 1);
      ByteShapeAppend(if InComment(m, s, i) then BlankByte(s[i]) else [s[i]], PerByte(Next(m, s, i), s, i + 1));
    }
  }

  // ---------------------------------------------------------------- the result is valid text

  predicate CommentMode(m: Mode) { m.InLine? || m.BlockOpening? || m.InBlock? || m.BlockClosing? }

  /** The opening and closing modes are entered with their second byte already seen ahead. */
  predicate Ahead(m: Mode, s: Text, i: nat) {
    && (m.BlockOpening? ==> At(s, i, STAR))
    && (m.BlockClosing? ==> At(s, i, SLASH))
  }

  lemma {:induction false} Utf8Head(a: Text, b: Text, pending: nat, after: nat)
    requires Utf8(b, 0, after)
    requires a == [] ==> pending == after
    requires |a| == 1 ==> if pending > 0 then IsContinuation(a[0]) && after == pending - 1
                          else !IsContinuation(a[0]) && after == CharLen(a[0]) - 1
    requires |a| <= 1
    ensures Utf8(a + b, 0, pending)
  {
    if a == [] {
      assert a + b == b;
    } else {
      Utf8Shift(a + b, 1, after);
      assert (a + b)[1..] == b;
    }
  }

  lemma {:induction false} Utf8Shift(t: Text, j: nat, pending: nat)
    requires 1 <= j <= |t|
    ensures Utf8(t, j, pending) == Utf8(t[1..], j - 1, pending)
    decreases |t| - j
  {
    if j < |t| {
      assert t[1..][j - 1] == t[j];
      if pending > 0 {
        Utf8Shift(t, j + 1, pending - 1);
      } else {
        Utf8Shift(t, j + 1, CharLen(t[j]) - 1);
      }
    }
  }

  /** A character is all comment or all kept, so what comes out is whole characters again. */
  lemma {:induction false} PerByteUtf8(m: Mode, s: Text, i: nat, pending: nat)
    requires i <= |s| && Utf8(s, i, pending) && Ahead(m, s, i)
    ensures Utf8(PerByte(m, s, i), 0, if CommentMode(m) then 0 else pending)
    decreases |s| - i
  {
    if i < |s| {
      var b, next := s[i], Next(m, s, i);
      var after := if pending > 0 then pending - 1 else CharLen(b) - 1;
      var rest := PerByte(next, s, i + 1);
      PerByteUtf8(next, s, i + 1, after);
      if InComment(m, s, i) {
        if BlankByte(b) == [SPACE, SPACE] {
          Utf8Head([SPACE], rest, 0, 0);
          Utf8Head([SPACE], [SPACE] + rest, 0, 0);
          assert [SPACE, SPACE] + rest == [SPACE] + ([SPACE] + rest);
        } else {
          Utf8Head(BlankByte(b), rest, 0, 0);
        }
      } else {
        Utf8Head([b], rest, if CommentMode(m) then 0 else pending, if CommentMode(next) then 0 else after);
      }
    }
  }

  /**
   * Stripping keeps the UTF-16 length and the exact UTF-16 position of every
   * newline, so line extents taken from the raw file stay valid.
   */
  lemma StripKeepsShape(s: Text)
    requires Utf8(s, 0, 0)
    ensures Utf8(Strip(s, 0), 0, 0)
    ensures Utf16Shape(Strip(s, 0), 0) == Utf16Shape(s, 0)
  {
    hide Strip, Utf8, PerByte;
    StripIsPerByte(s, 0);
    PerByteUtf8(Code, s, 0, 0);
    ShapeIsByteShape(s, 0);
    ShapeIsByteShape(Strip(s, 0), 0);
    PerByteShape(Code, s, 0);
  }
}
