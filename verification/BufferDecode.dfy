// The reader of the flat buffers, and the round trip through the writer.

module BufferDecode {
  import opened Wrappers
  import opened Chars
  import opened WireBytes
  import opened Buffers

  // ---------------------------------------------------------------- single fields

  /** A slice that stops at the end of the buffer, as Buffer.toString does. */
  function Slice(buf: Text, from: nat, upTo: nat): Text {
    var hi := if upTo < |buf| then upTo else |buf|;
    if from < hi then buf[from..hi] else []
  }

  function Fetch(arena: Text, r: StrRef): Option<Text> {
    if r.0 == NONE then None else Some(Slice(arena, r.0, r.0 + r.1))
  }

  function GetStr(row: Text, at: nat): StrRef
    requires at + 8 <= |row|
  {
    (Get32(row, at), Get32(row, at + 4))
  }

  /** String.split on NUL: always at least one piece. */
  function SplitNul(s: Text): (pieces: seq<Text>)
    ensures pieces != []
  {
    if s == [] then [[]]
    else
      var rest := SplitNul(s[1..]);
      if s[0] == 0 then [[]] + rest else [[s[0]] + rest[0]] + rest[1..]
  }

  function FetchList(arena: Text, r: StrRef): Option<seq<Text>> {
    match Fetch(arena, r)
    case None => None
    case Some(joined) => Some(SplitNul(joined))
  }

  function GetFlag(f: Flags, pair: nat): Option<bool>
    requires pair < 4
  {
    if HasBit(f, PresentBit(pair)) then Some(HasBit(f, ValueBit(pair))) else None
  }

  predicate HasBit(f: Flags, bit: Flags) { f & bit != 0 }

  // ---------------------------------------------------------------- rows at their documented offsets

  function ReadNode(row: Text): NodeRow
    requires |row| == NODE_SIZE
  {
    NodeRow(row[0], row[1], Get16(row, 2) as bv16, Get32(row, 4), Get32(row, 8), Get32(row, 12), Get32(row, 16),
            GetStr(row, 20), GetStr(row, 28), GetStr(row, 36), GetStr(row, 44), GetStr(row, 52),
            GetStr(row, 60), GetStr(row, 68), GetStr(row, 76), GetStr(row, 84))
  }

  function ReadEdge(row: Text): EdgeRow
    requires |row| == EDGE_SIZE
  {
    EdgeRow(Get32(row, 0), Get32(row, 4), row[8], row[9], Get32(row, 12), Get32(row, 16),
            GetStr(row, 20), GetStr(row, 28), GetStr(row, 36))
  }

  function ReadRef(row: Text): RefRow
    requires |row| == REF_SIZE
  {
    RefRow(Get32(row, 0), row[4], row[5], Get32(row, 8), Get32(row, 12), GetStr(row, 16), GetStr(row, 24), GetStr(row, 32))
  }

  function ReadMeta(m: Text): Option<Meta> {
    if |m| < META_SIZE || m[0] != ABI_VERSION then None
    else Some(Meta(Get32(m, 4), Get32(m, 8), Get32(m, 12), Get32(m, 16), GetStr(m, 20), (Get32(m, 28), Get32(m, 32))))
  }

  // ---------------------------------------------------------------- reading inverts writing

  lemma FlagBytes(f: Flags)
    ensures (f as int) as bv16 == f
  {}

  lemma StrAt(ws: seq<U32>, k: nat)
    requires k + 1 < |ws|
    ensures GetStr(Words(ws), 4 * k) == (ws[k], ws[k + 1])
  {
    hide Words, Get32;
    WordAt(ws, k);
    WordAt(ws, k + 1);
  }

  lemma NodeNumbersRead(r: NodeRow)
    ensures var b, n := NodeBytes(r), ReadNode(NodeBytes(r));
            && n.kind == r.kind && n.visibility == r.visibility && n.flags == r.flags
            && n.startLine == r.startLine && n.endLine == r.endLine
            && n.startColumn == r.startColumn && n.endColumn == r.endColumn
  {
    hide Words, Get32, Get16, GetStr, NodeStringWords;
    var ws := NodeWords(r);
    PackedAt(ws, 0, r.kind, r.visibility, r.flags as int);
    FlagBytes(r.flags);
    WordAt(ws, 1);
    WordAt(ws, 2);
    WordAt(ws, 3);
    WordAt(ws, 4);
  }

  lemma NodeStringsRead(r: NodeRow)
    ensures var n := ReadNode(NodeBytes(r));
            && n.name == r.name && n.qualifiedName == r.qualifiedName && n.id == r.id
            && n.docstring == r.docstring && n.signature == r.signature && n.decorators == r.decorators
            && n.typeParameters == r.typeParameters && n.returnType == r.returnType && n.extraJson == r.extraJson
  {
    hide Words, Get32, Get16, GetStr;
    var ws := NodeWords(r);
    var strings := NodeStringWords(r);
    assert forall k :: 0 <= k < 18 ==> ws[k + 5] == strings[k];
    StrAt(ws, 5);
    StrAt(ws, 7);
    StrAt(ws, 9);
    StrAt(ws, 11);
    StrAt(ws, 13);
    StrAt(ws, 15);
    StrAt(ws, 17);
    StrAt(ws, 19);
    StrAt(ws, 21);
  }

  lemma NodeRoundTrip(r: NodeRow)
    ensures ReadNode(NodeBytes(r)) == r
  {
    hide NodeBytes, ReadNode;
    NodeNumbersRead(r);
    NodeStringsRead(r);
  }

  lemma EdgeRoundTrip(r: EdgeRow)
    ensures ReadEdge(EdgeBytes(r)) == r
  {
    hide Words, Get32, Get16;
    var ws := EdgeWords(r);
    PackedAt(ws, 2, r.kind, r.provenance, 0);
    forall k | 0 <= k < 11 ensures Get32(Words(ws), 4 * k) == ws[k] {
      WordAt(ws, k);
    }
    var b := EdgeBytes(r);
    assert Get32(b, 4 * 0) == r.source && Get32(b, 4 * 1) == r.target;
    assert Get32(b, 4 * 3) == r.line && Get32(b, 4 * 4) == r.column;
    assert (Get32(b, 4 * 5), Get32(b, 4 * 6)) == r.metadata;
    assert (Get32(b, 4 * 7), Get32(b, 4 * 8)) == r.sourceId;
    assert (Get32(b, 4 * 9), Get32(b, 4 * 10)) == r.targetId;
  }

  lemma RefRoundTrip(r: RefRow)
    ensures ReadRef(RefBytes(r)) == r
  {
    hide Words, Get32, Get16;
    var ws := RefWords(r);
    PackedAt(ws, 1, r.kind, r.flags, 0);
    forall k | 0 <= k < 10 ensures Get32(Words(ws), 4 * k) == ws[k] {
      WordAt(ws, k);
    }
    var b := RefBytes(r);
    assert Get32(b, 4 * 0) == r.from && Get32(b, 4 * 2) == r.line && Get32(b, 4 * 3) == r.column;
    assert (Get32(b, 4 * 4), Get32(b, 4 * 5)) == r.name;
    assert (Get32(b, 4 * 6), Get32(b, 4 * 7)) == r.candidates;
    assert (Get32(b, 4 * 8), Get32(b, 4 * 9)) == r.fromId;
  }

  lemma MetaRoundTrip(m: Meta)
    ensures ReadMeta(Words(MetaWords(m))) == Some(m)
  {
    hide Words, Get32, Get16;
    var ws := MetaWords(m);
    PackedAt(ws, 0, ABI_VERSION, 0, 0);
    forall k | 0 <= k < 9 ensures Get32(Words(ws), 4 * k) == ws[k] {
      WordAt(ws, k);
    }
    var b := Words(ws);
    assert Get32(b, 4 * 1) == m.nodeCount && Get32(b, 4 * 2) == m.edgeCount;
    assert Get32(b, 4 * 3) == m.refCount && Get32(b, 4 * 4) == m.arenaLen;
    assert (Get32(b, 4 * 5), Get32(b, 4 * 6)) == m.errors;
    assert (Get32(b, 4 * 7), Get32(b, 4 * 8)) == m.duration;
  }

  // ---------------------------------------------------------------- flags

  /** A pair reads back present, true if it was ever set true; the other pairs are untouched. */
  lemma FlagRoundTrip(f: Flags, pair: nat, value: bool, other: nat)
    requires pair < 4 && other < 4
    ensures GetFlag(SetFlag(f, pair, value), pair) == Some(value || HasBit(f, ValueBit(pair)))
    ensures other != pair ==> GetFlag(SetFlag(f, pair, value), other) == GetFlag(f, other)
  {
    hide SetFlag, PresentBit, ValueBit, HasBit;
    FlagPair(f, pair, value, pair);
    FlagPair(f, pair, value, other);
  }

  lemma FlagPair(f: Flags, pair: nat, value: bool, other: nat)
    requires pair < 4 && other < 4
    ensures HasBit(SetFlag(f, pair, value), PresentBit(other)) <==> pair == other || HasBit(f, PresentBit(other))
    ensures HasBit(SetFlag(f, pair, value), ValueBit(other)) <==> (pair == other && value) || HasBit(f, ValueBit(other))
  {
    hide SetFlag, PresentBit, ValueBit, HasBit;
    PresentBits(pair, other);
    ValueBits(pair, other);
    SetBits(f, pair, value, PresentBit(other));
    SetBits(f, pair, value, ValueBit(other));
  }

  lemma SetBits(f: Flags, pair: nat, value: bool, mask: Flags)
    requires pair < 4
    ensures HasBit(SetFlag(f, pair, value), mask) <==>
              HasBit(f, mask) || HasBit(PresentBit(pair), mask) || (value && HasBit(ValueBit(pair), mask))
  {
    hide PresentBit, ValueBit, HasBit;
    if value {
      MaskedBit(f, PresentBit(pair), ValueBit(pair), mask);
    } else {
      MaskedBit(f, PresentBit(pair), 0, mask);
      NoBits(mask);
    }
  }

  lemma NoBits(mask: Flags)
    ensures !HasBit(0, mask)
  {}

  lemma PresentBits(pair: nat, other: nat)
    requires pair < 4 && other < 4
    ensures HasBit(PresentBit(pair), PresentBit(other)) <==> pair == other
    ensures !HasBit(ValueBit(pair), PresentBit(other))
  {}

  lemma ValueBits(pair: nat, other: nat)
    requires pair < 4 && other < 4
    ensures HasBit(ValueBit(pair), ValueBit(other)) <==> pair == other
    ensures !HasBit(PresentBit(pair), ValueBit(other))
  {}

  lemma MaskedBit(f: Flags, a: Flags, b: Flags, mask: Flags)
    ensures HasBit(f | a | b, mask) <==> HasBit(f, mask) || HasBit(a, mask) || HasBit(b, mask)
  {
    MaskOr(f, a, b, mask);
  }

  lemma MaskOr(f: Flags, a: Flags, b: Flags, mask: Flags)
    ensures (f | a | b) & mask == (f & mask) | (a & mask) | (b & mask)
  {}

  // ---------------------------------------------------------------- strings

  lemma {:induction false} SplitPrefix(a: Text, rest: Text)
    requires 0 !in a
    ensures SplitNul(a) == [a]
    ensures SplitNul(a + [0] + rest) == [a] + SplitNul(rest)
    decreases |a|
  {
    if a == [] {
      assert [] + [0] + rest == [0] + rest;
      assert ([0] + rest)[1..] == rest;
    } else {
      SplitPrefix(a[1..], rest);
      assert (a + [0] + rest)[1..] == a[1..] + [0] + rest;
      assert (a + [0] + rest)[0] == a[0];
      assert [a[0]] + a[1..] == a;
    }
  }

  lemma {:induction false} PiecesHaveNoNul(s: Text)
    ensures forall k :: 0 <= k < |SplitNul(s)| ==> 0 !in SplitNul(s)[k]
  {
    if s != [] {
      PiecesHaveNoNul(s[1..]);
    }
  }

  /** A list comes back exactly if none of its items holds a NUL. */
  lemma {:induction false} ListRoundTrip(items: seq<Text>)
    requires items != []
    ensures SplitNul(JoinNul(items)) == items <==> forall k :: 0 <= k < |items| ==> 0 !in items[k]
    decreases |items|
  {
    if forall k :: 0 <= k < |items| ==> 0 !in items[k] {
      if |items| == 1 {
        SplitPrefix(items[0], []);
        assert items == [items[0]];
      } else {
        SplitPrefix(items[0], JoinNul(items[1..]));
        ListRoundTrip(items[1..]);
        assert [items[0]] + items[1..] == items;
      }
    } else {
      PiecesHaveNoNul(JoinNul(items));
    }
  }

  /** The buffers stay below this size: no offset is then taken for the absent mark. */
  predicate Fits(arena: Text) { |arena| < NONE }

  /** A reference handed out once still yields its string after anything else is appended. */
  lemma StringRoundTrip(before: Text, s: Text, after: Text)
    requires Fits(before + s)
    ensures Fetch(before + s + after, RefTo(before, s)) == Some(s)
  {
    var arena := before + s + after;
    assert arena[|before|..|before| + |s|] == s;
  }

  /** An absent field stays absent, and is never mistaken for an empty string. */
  lemma AbsentIsNotEmpty(before: Text, arena: Text)
    requires Fits(before)
    ensures Fetch(arena, NO_STRING) == None
    ensures Fetch(arena, RefTo(before, [])) == Some([])
  {}

  /** At the limit the guarantee ends: a string put at that very offset reads as absent. */
  lemma LostAtTheLimit(before: Text, s: Text, arena: Text)
    ensures Fetch(arena, RefTo(before, s)) == None <==> |before| % 0x1_0000_0000 == NONE
  {}
}
