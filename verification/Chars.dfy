// Byte-level character classes shared by the C function-pointer sweep.

module Wrappers {
  datatype Option<+T> = None | Some(value: T)

  datatype Result<+T, +E> = Ok(value: T) | Err(error: E)
}

module Seqs {
  /** Concatenation is associative. */
  lemma Regroup<T>(a: seq<T>, b: seq<T>, c: seq<T>)
    ensures (a + b) + c == a + (b + c)
  {}

  lemma RegroupFour<T>(a: seq<T>, b: seq<T>, c: seq<T>, d: seq<T>)
    ensures a + b + (c + d) == a + (b + c) + d
    ensures a + b + (c + d) == (a + b + c) + [] + d
  {}
}

module Strings {
  /** `part` stands in `text` at position `i`. */
  predicate StandsAt(text: string, i: nat, part: string) {
    i + |part| <= |text| && text[i..i + |part|] == part
  }

  predicate Contains(text: string, part: string) {
    exists i :: 0 <= i <= |text| && StandsAt(text, i, part)
  }
}

module Chars {
  type Byte = b: int | 0 <= b < 256

  type Text = seq<Byte>

  /** A half-open byte range, the shape in which the sweep keeps its captures. */
  type Range = (nat, nat)

  const NEWLINE: Byte := 0x0A
  const QUOTE: Byte := 0x22
  const HASH: Byte := 0x23
  const OPEN_PAREN: Byte := 0x28
  const CLOSE_PAREN: Byte := 0x29
  const STAR: Byte := 0x2A
  const COMMA: Byte := 0x2C
  const DASH: Byte := 0x2D
  const DOT: Byte := 0x2E
  const SLASH: Byte := 0x2F
  const SEMICOLON: Byte := 0x3B
  const EQUALS: Byte := 0x3D
  const GREATER: Byte := 0x3E
  const OPEN_BRACKET: Byte := 0x5B
  const BACKSLASH: Byte := 0x5C
  const CLOSE_BRACKET: Byte := 0x5D
  const BACKTICK: Byte := 0x60
  const OPEN_BRACE: Byte := 0x7B
  const CLOSE_BRACE: Byte := 0x7D
  const SPACE: Byte := 0x20
  const TAB: Byte := 0x09
  const RETURN: Byte := 0x0D

  function Code(c: char): Byte
    requires c < 128 as char
  {
    c as int
  }

  /** The bytes of an ASCII literal. */
  function Ascii(w: string): (t: Text)
    requires forall k :: 0 <= k < |w| ==> w[k] < 128 as char
    ensures |t| == |w|
    ensures forall k :: 0 <= k < |w| ==> t[k] == w[k] as int
  {
    seq(|w|, k requires 0 <= k < |w| => Code(w[k]))
  }

  predicate IsWord(b: Byte) {
    || 0x30 <= b <= 0x39
    || 0x41 <= b <= 0x5A
    || 0x61 <= b <= 0x7A
    || b == 0x5F
  }

  predicate IsWordAt(s: Text, i: nat) {
    i < |s| && IsWord(s[i])
  }

  predicate At(s: Text, i: nat, b: Byte) {
    i < |s| && s[i] == b
  }

  /** The newline that ends the line of `i`, or the end of the text. */
  function LineEnd(s: Text, i: nat): (e: nat)
    requires i <= |s|
    ensures i <= e <= |s|
    decreases |s| - i
  {
    if i == |s| || s[i] == NEWLINE then i else LineEnd(s, i + 1)
  }

  /** Byte length of the JavaScript `\s` character that starts at `i`, 0 when none does. */
  function JswsLen(s: Text, i: nat): (w: nat)
    ensures w > 0 ==> i + w <= |s| && !IsWord(s[i])
  {
    if i >= |s| then 0
    else
      var b0 := s[i];
      if 0x09 <= b0 <= 0x0D || b0 == 0x20 then 1
      else if b0 == 0xC2 && At(s, i + 1, 0xA0) then 2
      else if b0 == 0xE1 && At(s, i + 1, 0x9A) && At(s, i + 2, 0x80) then 3
      else if b0 == 0xE2 && i + 2 < |s| then
        if s[i + 1] == 0x80 && (0x80 <= s[i + 2] <= 0x8A || s[i + 2] in {0xA8, 0xA9, 0xAF}) then 3
        else if s[i + 1] == 0x81 && s[i + 2] == 0x9F then 3
        else 0
      else if b0 == 0xE3 && At(s, i + 1, 0x80) && At(s, i + 2, 0x80) then 3
      else if b0 == 0xEF && At(s, i + 1, 0xBB) && At(s, i + 2, 0xBF) then 3
      else 0
  }
}
