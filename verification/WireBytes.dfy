// Little-endian words, and tables of fixed-width rows.

module WireBytes {
  import opened Chars

  type U16 = x: int | 0 <= x < 0x1_0000
  type U32 = x: int | 0 <= x < 0x1_0000_0000

  function LE16(x: U16): Text { [x % 256, x / 256] }

  function LE32(x: U32): Text { [x % 256, x / 256 % 256, x / 65536 % 256, x / 16777216] }

  function Get16(b: Text, at: nat): U16
    requires at + 2 <= |b|
  {
    (b[at] as int) + 256 * (b[at + 1] as int)
  }

  function Get32(b: Text, at: nat): U32
    requires at + 4 <= |b|
  {
    (b[at] as int) + 256 * (b[at + 1] as int) + 65536 * (b[at + 2] as int) + 16777216 * (b[at + 3] as int)
  }

  lemma Get32LE(b: Text, at: nat, x: U32)
    requires at + 4 <= |b| && b[at..at + 4] == LE32(x)
    ensures Get32(b, at) == x
  {
    var c := b[at..at + 4];
    assert b[at] == c[0] && b[at + 1] == c[1] && b[at + 2] == c[2] && b[at + 3] == c[3];
    Recompose(x);
  }

  lemma Recompose(x: U32)
    ensures x % 256 + 256 * (x / 256 % 256) + 65536 * (x / 65536 % 256) + 16777216 * (x / 16777216) == x
  {
    assert x / 65536 == x / 256 / 256 && x / 16777216 == x / 65536 / 256;
  }

  /** One byte, one byte, one half-word: the first word of a row. */
  function Packed(a: Byte, b: Byte, c: U16): U32 { a + 256 * b + 65536 * c }

  lemma PackedBytes(a: Byte, b: Byte, c: U16)
    ensures LE32(Packed(a, b, c)) == [a, b] + LE16(c)
  {
    var x := Packed(a, b, c);
    assert x / 256 == b + 256 * c;
    assert x / 65536 == c;
    assert x / 16777216 == c / 256;
  }

  // ---------------------------------------------------------------- words

  function Words(ws: seq<U32>): (b: Text)
    ensures |b| == 4 * |ws|
  {
    if ws == [] then [] else Words(ws[..|ws| - 1]) + LE32(ws[|ws| - 1])
  }

  lemma WordsPush(head: Text, ws: seq<U32>, x: U32)
    ensures head + Words(ws) + LE32(x) == head + Words(ws + [x])
  {
    assert (ws + [x])[..|ws|] == ws;
    assert Words(ws + [x]) == Words(ws) + LE32(x);
    assert head + Words(ws) + LE32(x) == head + (Words(ws) + LE32(x));
  }

  lemma {:induction false} WordBytes(ws: seq<U32>, k: nat)
    requires k < |ws|
    ensures Words(ws)[4 * k..4 * k + 4] == LE32(ws[k])
    decreases |ws|
  {
    var n := |ws| - 1;
    if k < n {
      WordBytes(ws[..n], k);
      assert Words(ws)[4 * k..4 * k + 4] == Words(ws[..n])[4 * k..4 * k + 4];
    }
  }

  /** Reading word `k` of a row reads back what was written there. */
  lemma WordAt(ws: seq<U32>, k: nat)
    requires k < |ws|
    ensures Get32(Words(ws), 4 * k) == ws[k]
  {
    WordBytes(ws, k);
    Get32LE(Words(ws), 4 * k, ws[k]);
  }

  /** Reading the parts of a packed word. */
  lemma PackedAt(ws: seq<U32>, k: nat, a: Byte, b: Byte, c: U16)
    requires k < |ws| && ws[k] == Packed(a, b, c)
    ensures Words(ws)[4 * k] == a && Words(ws)[4 * k + 1] == b && Get16(Words(ws), 4 * k + 2) == c
  {
    WordBytes(ws, k);
    PackedBytes(a, b, c);
    var s := Words(ws)[4 * k..4 * k + 4];
    assert s[0] == Words(ws)[4 * k] && s[1] == Words(ws)[4 * k + 1];
    assert s[2] == Words(ws)[4 * k + 2] && s[3] == Words(ws)[4 * k + 3];
  }

  // ---------------------------------------------------------------- tables of rows

  function Concat(rows: seq<Text>): Text {
    if rows == [] then [] else Concat(rows[..|rows| - 1]) + rows[|rows| - 1]
  }

  lemma ConcatPush(rows: seq<Text>, row: Text)
    ensures Concat(rows + [row]) == Concat(rows) + row
  {
    assert (rows + [row])[..|rows|] == rows;
  }

  /** With rows of one width, row `i` is bytes `[i * width, (i + 1) * width)`. */
  lemma {:induction false} RowBytes(rows: seq<Text>, width: nat, i: nat)
    requires i < |rows| && forall k :: 0 <= k < |rows| ==> |rows[k]| == width
    ensures |Concat(rows)| == width * |rows| && (i + 1) * width <= |Concat(rows)|
    ensures Concat(rows)[i * width..(i + 1) * width] == rows[i]
    decreases |rows|
  {
    var n := |rows| - 1;
    var init := rows[..n];
    ConcatLength(rows, width);
    ConcatLength(init, width);
    assert (i + 1) * width <= |rows| * width;
    assert (n + 1) * width == n * width + width;
    if i < n {
      RowBytes(init, width, i);
      assert Concat(rows)[i * width..(i + 1) * width] == Concat(init)[i * width..(i + 1) * width];
    }
  }

  lemma {:induction false} ConcatLength(rows: seq<Text>, width: nat)
    requires forall k :: 0 <= k < |rows| ==> |rows[k]| == width
    ensures |Concat(rows)| == width * |rows|
  {
    if rows != [] {
      ConcatLength(rows[..|rows| - 1], width);
      assert width * (|rows| - 1) + width == width * |rows|;
    }
  }
}
