// The stripper told by equations over bytes: comments go, strings stay, and nothing else opens either.

module StripEquations {
  import opened Chars
  import opened Seqs
  import opened StripComments

  // ---------------------------------------------------------------- text that ends in code

  /** A reader of C that sees one byte at a time and never looks ahead. */
  datatype Reading = InCode | AfterSlash | InLineComment | InBlockComment | AfterStar | InQuotes(quote: Byte) | AfterBackslash(quote: Byte)

  function Reads(m: Reading, b: Byte): Reading {
    match m
    case InCode => if b == 0x2F then AfterSlash else if b == 0x22 || b == 0x60 then InQuotes(b) else InCode
    case AfterSlash =>
      if b == 0x2F then InLineComment
      else if b == 0x2A then InBlockComment
      else if b == 0x22 || b == 0x60 then InQuotes(b)
      else InCode
    case InLineComment => if b == 0x0A then InCode else InLineComment
    case InBlockComment => if b == 0x2A then AfterStar else InBlockComment
    case AfterStar => if b == 0x2F then InCode else if b == 0x2A then AfterStar else InBlockComment
    case InQuotes(q) =>
      if b == q then InCode
      else if b == 0x5C then AfterBackslash(q)
      else if q == 0x22 && b == 0x0A then InCode
      else InQuotes(q)
    case AfterBackslash(q) => InQuotes(q)
  }

  function ReadsAll(m: Reading, s: Text, i: nat): Reading
    requires i <= |s|
    decreases |s| - i
  {
    if i == |s| then m else ReadsAll(Reads(m, s[i]), s, i + 1)
  }

  /** Every comment and string is closed, and no slash is left over. */
  predicate EndsInCode(a: Text) { ReadsAll(InCode, a, 0) == InCode }

  /** A comment that is closed within `a` ends at the same place whatever follows. */
  lemma {:induction false} BlockCloses(a: Text, u: Text, j: nat, m: Reading)
    requires j <= |a| && (m == InBlockComment || (m == AfterStar && 0 < j && a[j - 1] == 0x2A))
    requires ReadsAll(m, a, j) == InCode
    ensures var from := if m == AfterStar then j - 1 else j;
            var e := BlockEnd(a, from);
            BlockEnd(a + u, from) == e && ReadsAll(InCode, a, e) == InCode
    decreases |a| - j
  {
    assert (a + u)[j] == a[j] && (j > 0 ==> (a + u)[j - 1] == a[j - 1]);
    var next := Reads(m, a[j]);
    if next != InCode {
      assert (a + u)[j + 1] == a[j + 1];
      BlockCloses(a, u, j + 1, next);
    }
  }

  lemma {:induction false} LineCloses(a: Text, u: Text, j: nat)
    requires j <= |a| && ReadsAll(InLineComment, a, j) == InCode
    ensures LineEnd(a + u, j) == LineEnd(a, j) && ReadsAll(InCode, a, LineEnd(a, j)) == InCode
    decreases |a| - j
  {
    assert (a + u)[j] == a[j];
    if a[j] != 0x0A {
      LineCloses(a, u, j + 1);
    }
  }

  lemma {:induction false} StringCloses(a: Text, u: Text, quote: Byte, j: nat)
    requires j <= |a| && (quote == 0x22 || quote == 0x60) && ReadsAll(InQuotes(quote), a, j) == InCode
    ensures StringEnd(a + u, quote, j) == StringEnd(a, quote, j) && ReadsAll(InCode, a, StringEnd(a, quote, j)) == InCode
    decreases |a| - j
  {
    assert (a + u)[j] == a[j];
    if a[j] == quote || (quote == 0x22 && a[j] == 0x0A) {
    } else if a[j] == 0x5C {
      assert j + 1 < |a| && (a + u)[j + 1] == a[j + 1];
      StringCloses(a, u, quote, j + 2);
    } else {
      StringCloses(a, u, quote, j + 1);
    }
  }

  /** One token of text that ends in code is the same token whatever follows. */
  lemma TokenCloses(a: Text, u: Text, i: nat)
    requires i < |a| && ReadsAll(InCode, a, i) == InCode
    ensures var e := TokenEnd(a, i);
            && TokenEnd(a + u, i) == e && ReadsAll(InCode, a, e) == InCode
            && Emitted(a + u, i, e) == Emitted(a, i, e)
  {
    hide BlockEnd, LineEnd, StringEnd, Blank;
    var s := a + u;
    assert s[i] == a[i] && (i + 1 < |a| ==> s[i + 1] == a[i + 1]);
    if a[i] == 0x2F {
      assert i + 1 < |a|;
      if a[i + 1] == 0x2A {
        BlockCloses(a, u, i + 2, InBlockComment);
      } else if a[i + 1] == 0x2F {
        LineCloses(a, u, i + 2);
        LineEndsLater(a, i);
        LineEndsLater(s, i);
      }
    } else if a[i] == 0x22 || a[i] == 0x60 {
      StringCloses(a, u, a[i], i + 1);
    }
    var e := TokenEnd(a, i);
    assert s[i..e] == a[i..e];
  }

  lemma LineEndsLater(s: Text, i: nat)
    requires i + 1 < |s| && s[i] == 0x2F && s[i + 1] == 0x2F
    ensures LineEnd(s, i) == LineEnd(s, i + 2)
  {}

  lemma {:induction false} SplitsFrom(a: Text, u: Text, i: nat)
    requires i <= |a| && ReadsAll(InCode, a, i) == InCode
    ensures Strip(a + u, i) == Strip(a, i) + Strip(u, 0)
    decreases |a| - i
  {
    hide TokenEnd, Emitted;
    if i == |a| {
      StripSuffix(a, u, 0);
    } else {
      var e := TokenEnd(a, i);
      TokenCloses(a, u, i);
      SplitsFrom(a, u, e);
      Regroup(Emitted(a, i, e), Strip(a, e), Strip(u, 0));
    }
  }

  /** Where one text ends in code, it and what follows are stripped apart. */
  lemma StripSplits(a: Text, u: Text)
    requires EndsInCode(a)
    ensures Strip(a + u, 0) == Strip(a, 0) + Strip(u, 0)
  {
    SplitsFrom(a, u, 0);
  }

  // ---------------------------------------------------------------- strings

  /** The inside of a string: a backslash takes the next byte along, a `"` string holds no newline. */
  predicate StringBody(b: Text, quote: Byte) {
    b == []
    || (b[0] == 0x5C && |b| >= 2 && StringBody(b[2..], quote))
    || (b[0] != 0x5C && b[0] != quote && (quote == 0x22 ==> b[0] != 0x0A) && StringBody(b[1..], quote))
  }

  lemma {:induction false} StringEndAt(p: Text, b: Text, quote: Byte, c: Text)
    requires (quote == 0x22 || quote == 0x60) && StringBody(b, quote)
    requires c == [] || c[0] == quote || (quote == 0x22 && c[0] == 0x0A)
    ensures StringEnd(p + b + c, quote, |p|) == |p| + |b| + if c != [] && c[0] == quote then 1 else 0
    decreases |b|
  {
    var s := p + b + c;
    if b == [] {
      assert c != [] ==> s[|p|] == c[0];
    } else {
      assert s[|p|] == b[0];
      var n := if b[0] == 0x5C then 2 else 1;
      var q := p + b[..n];
      assert q + b[n..] + c == s;
      StringEndAt(q, b[n..], quote, c);
    }
  }

  /**
   * A closed string is copied, whatever stands in it, and what follows is read
   * from outside it; one that the end of the line or of the text breaks off too.
   */
  lemma StringsStay(quote: Byte, b: Text, c: Text)
    requires (quote == 0x22 || quote == 0x60) && StringBody(b, quote)
    ensures Strip([quote] + b + [quote] + c, 0) == [quote] + b + [quote] + Strip(c, 0)
    ensures quote == 0x22 ==> Strip([quote] + b + [0x0A] + c, 0) == [quote] + b + [0x0A] + Strip(c, 0)
    ensures Strip([quote] + b, 0) == [quote] + b
  {
    hide Strip, StringEnd;
    StringStays(quote, b, [quote] + c, [quote], c);
    if quote == 0x22 {
      StringStays(quote, b, [0x0A] + c, [], [0x0A] + c);
      PlainByteStays(0x0A, c);
      Regroup([quote] + b, [0x0A], c);
      assert [quote] + b + [] + ([0x0A] + Strip(c, 0)) == [quote] + b + [0x0A] + Strip(c, 0);
    }
    StringStays(quote, b, [], [], []);
    NothingLeft();
    assert [quote] + b + [] == [quote] + b;
  }

  lemma NothingLeft()
    ensures Strip([], 0) == []
  {}

  lemma StringStays(quote: Byte, b: Text, rest: Text, close: Text, c: Text)
    requires (quote == 0x22 || quote == 0x60) && StringBody(b, quote) && rest == close + c
    requires rest == [] || rest[0] == quote || (quote == 0x22 && rest[0] == 0x0A)
    requires close == if rest != [] && rest[0] == quote then [quote] else []
    ensures Strip([quote] + b + rest, 0) == [quote] + b + close + Strip(c, 0)
    ensures [quote] + b + close + c == [quote] + b + rest
  {
    hide StringEnd, Strip;
    var s, token := [quote] + b + rest, [quote] + b + close;
    StringEndAt([quote], b, quote, rest);
    Regroup([quote] + b, close, c);
    assert s == token + c && s[0] == quote;
    TokenStays(s, token, c);
  }

  lemma TokenStays(s: Text, token: Text, c: Text)
    requires s == token + c && token != [] && !IsComment(s, 0) && TokenEnd(s, 0) == |token|
    ensures Strip(s, 0) == token + Strip(c, 0)
  {
    hide TokenEnd, IsComment;
    assert s[0..|token|] == token;
    StripSuffix(token, c, 0);
  }

  /** The same between other text, where the text before ends in code. */
  lemma StringsStayAnywhere(a: Text, quote: Byte, b: Text, c: Text)
    requires EndsInCode(a) && (quote == 0x22 || quote == 0x60) && StringBody(b, quote)
    ensures Strip(a + ([quote] + b + [quote] + c), 0) == Strip(a, 0) + ([quote] + b + [quote] + Strip(c, 0))
  {
    hide Strip, StringBody, EndsInCode;
    StripSplits(a, [quote] + b + [quote] + c);
    StringsStay(quote, b, c);
  }

  // ---------------------------------------------------------------- everything else

  /** Any other byte is copied, an apostrophe too; a slash unless it opens a comment. */
  lemma PlainByteStays(b: Byte, c: Text)
    requires b != 0x22 && b != 0x60
    requires b == 0x2F ==> c == [] || (c[0] != 0x2F && c[0] != 0x2A)
    ensures Strip([b] + c, 0) == [b] + Strip(c, 0)
  {
    var s := [b] + c;
    assert s[0] == b && (c != [] ==> s[1] == c[0]) && s[0..1] == [b];
    StripSuffix([b], c, 0);
  }

  /** An apostrophe opens nothing. */
  lemma ApostropheOpensNothing(c: Text)
    ensures Strip([0x27] + c, 0) == [0x27] + Strip(c, 0)
  {
    PlainByteStays(0x27, c);
  }

  // ---------------------------------------------------------------- comments

  lemma {:induction false} LineEndAt(s: Text, i: nat, e: nat)
    requires i <= e <= |s| && (forall k :: i <= k < e ==> s[k] != 0x0A) && (e == |s| || s[e] == 0x0A)
    ensures LineEnd(s, i) == e
    decreases e - i
  {
    if i < e {
      LineEndAt(s, i + 1, e);
    }
  }

  lemma {:induction false} BlockEndAt(s: Text, i: nat, e: nat)
    requires i <= e && e + 1 < |s| && s[e] == 0x2A && s[e + 1] == 0x2F
    requires forall k :: i <= k < e ==> !(s[k] == 0x2A && s[k + 1] == 0x2F)
    ensures BlockEnd(s, i) == e + 2
    decreases e - i
  {
    if i < e {
      BlockEndAt(s, i + 1, e);
    }
  }

  lemma {:induction false} BlockNeverEnds(s: Text, i: nat)
    requires i <= |s| && forall k :: i <= k && k + 1 < |s| ==> !(s[k] == 0x2A && s[k + 1] == 0x2F)
    ensures BlockEnd(s, i) == |s|
    decreases |s| - i
  {
    if i < |s| {
      BlockNeverEnds(s, i + 1);
    }
  }

  lemma CommentGoes(s: Text, e: nat)
    requires 2 <= e <= |s| && IsComment(s, 0) && TokenEnd(s, 0) == e
    ensures Strip(s, 0) == Blank(s[..e], 0) + Strip(s[e..], 0)
  {
    hide TokenEnd, IsComment;
    assert s == s[..e] + s[e..] && s[0..e] == s[..e];
    StripSuffix(s[..e], s[e..], 0);
  }

  /** A line comment is blanked up to its newline, or to the end of the text. */
  lemma LineCommentGoes(b: Text, c: Text)
    requires (forall x <- b :: x != 0x0A) && (c == [] || c[0] == 0x0A)
    ensures Strip([0x2F, 0x2F] + b + c, 0) == Blank([0x2F, 0x2F] + b, 0) + Strip(c, 0)
  {
    hide Strip, Blank;
    var comment := [0x2F, 0x2F] + b;
    var s, e := comment + c, |comment|;
    assert s[..e] == comment && s[e..] == c && s[0] == 0x2F && s[1] == 0x2F;
    forall k | 0 <= k < e ensures s[k] != 0x0A {
      assert s[k] == comment[k] && (k >= 2 ==> s[k] == b[k - 2] && b[k - 2] in b);
    }
    assert e < |s| ==> s[e] == c[0];
    LineEndAt(s, 0, e);
    CommentGoes(s, e);
  }

  /** No star and slash stand side by side. */
  predicate NoClose(b: Text) { forall k :: 0 <= k < |b| - 1 ==> !(b[k] == 0x2A && b[k + 1] == 0x2F) }

  /** A block comment is blanked with its delimiters, up to the first star and slash behind the opening ones. */
  lemma BlockCommentGoes(b: Text, c: Text)
    requires NoClose(b + [0x2A])
    ensures Strip([0x2F, 0x2A] + b + [0x2A, 0x2F] + c, 0) == Blank([0x2F, 0x2A] + b + [0x2A, 0x2F], 0) + Strip(c, 0)
  {
    hide Strip, Blank;
    var comment := [0x2F, 0x2A] + b + [0x2A, 0x2F];
    var s, e := comment + c, |comment|;
    assert s[..e] == comment && s[e..] == c && s[0] == 0x2F && s[1] == 0x2A;
    assert s[e - 2] == 0x2A && s[e - 1] == 0x2F;
    forall k | 2 <= k < e - 2 ensures !(s[k] == 0x2A && s[k + 1] == 0x2F) {
      var t := b + [0x2A];
      assert s[k] == t[k - 2] && s[k + 1] == t[k - 1];
    }
    BlockEndAt(s, 2, e - 2);
    CommentGoes(s, e);
  }

  /** One that is never closed is blanked to the end of the text. */
  lemma OpenCommentGoes(b: Text)
    requires NoClose(b)
    ensures Strip([0x2F, 0x2A] + b, 0) == Blank([0x2F, 0x2A] + b, 0)
  {
    hide Strip, Blank;
    var s := [0x2F, 0x2A] + b;
    forall k | 2 <= k && k + 1 < |s| ensures !(s[k] == 0x2A && s[k + 1] == 0x2F) {
      assert s[k] == b[k - 2] && s[k + 1] == b[k - 1];
    }
    BlockNeverEnds(s, 2);
    CommentGoes(s, |s|);
    NothingLeft();
    assert s[..|s|] == s && s[|s|..] == [] && Blank(s, 0) + [] == Blank(s, 0);
  }

  // ---------------------------------------------------------------- blanks

  lemma {:induction false} BlankSuffix(p: Text, u: Text, i: nat)
    requires i <= |u|
    ensures Blank(p + u, |p| + i) == Blank(u, i)
    decreases |u| - i
  {
    hide Blank, CharLen;
    BlankHead(u, i);
    BlankHead(p + u, |p| + i);
    if i < |u| {
      assert (p + u)[|p| + i] == u[i];
      BlankSuffix(p, u, AfterCharacter(u, i));
    }
  }

  function AfterCharacter(u: Text, i: nat): (n: nat)
    requires i < |u|
    ensures i < n <= |u|
  {
    if u[i] == 0x0A then i + 1 else if i + CharLen(u[i]) <= |u| then i + CharLen(u[i]) else |u|
  }

  lemma BlankHead(u: Text, i: nat)
    requires i <= |u|
    ensures Blank(u, i) == if i == |u| then [] else BlankOf(u[i]) + Blank(u, AfterCharacter(u, i))
  {}

  function BlankOf(lead: Byte): Text { if lead == 0x0A then [0x0A] else if CharLen(lead) == 4 then [0x20, 0x20] else [0x20] }

  /** In a comment a newline stays, a character becomes a space, and one of four bytes two. */
  lemma CharacterBlanks(lead: Byte, tail: Text, rest: Text)
    requires |tail| == if lead < 0xC0 then 0 else if lead < 0xE0 then 1 else if lead < 0xF0 then 2 else 3
    ensures Blank([lead] + tail + rest, 0)
         == (if lead == 0x0A then [0x0A] else if lead < 0xF0 then [0x20] else [0x20, 0x20]) + Blank(rest, 0)
    ensures Blank([], 0) == []
  {
    BlankSuffix([lead] + tail, rest, 0);
    assert ([lead] + tail + rest)[0] == lead;
  }
}
