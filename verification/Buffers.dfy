// The kernel's flat buffers: what the writer lays down.

module Buffers {
  import opened Wrappers
  import opened Chars
  import opened WireBytes

  const ABI_VERSION: Byte := 2
  const NONE: U32 := 0xFFFF_FFFF
  const META_SIZE := 36
  const NODE_SIZE := 96
  const EDGE_SIZE := 44
  const REF_SIZE := 40

  // ---------------------------------------------------------------- the string arena

  type StrRef = (U32, U32)

  const NO_STRING: StrRef := (NONE, 0)

  function Wrap(n: nat): U32 { n % 0x1_0000_0000 }

  /** The reference handed out for `s`, appended to `buf`; both parts are cut to 32 bits. */
  function RefTo(buf: Text, s: Text): StrRef { (Wrap(|buf|), Wrap(|s|)) }

  function JoinNul(items: seq<Text>): Text
    requires items != []
  {
    if |items| == 1 then items[0] else items[0] + [0] + JoinNul(items[1..])
  }

  class Arena {
    var buf: Text

    constructor ()
      ensures buf == []
    {
      buf := [];
    }

    method Put(s: Text) returns (r: StrRef)
      modifies this
      ensures buf == old(buf) + s && r == RefTo(old(buf), s)
    {
      r := (Wrap(|buf|), Wrap(|s|));
      buf := buf + s;
    }

    method PutOpt(s: Option<Text>) returns (r: StrRef)
      modifies this
      ensures buf == old(buf) + if s.Some? then s.value else []
      ensures r == if s.Some? then RefTo(old(buf), s.value) else NO_STRING
    {
      if s.None? {
        r := NO_STRING;
      } else {
        r := Put(s.value);
      }
    }

    method PutList(items: seq<Text>) returns (r: StrRef)
      modifies this
      ensures buf == old(buf) + if items == [] then [] else JoinNul(items)
      ensures r == if items == [] then NO_STRING else RefTo(old(buf), JoinNul(items))
    {
      if items == [] {
        r := NO_STRING;
      } else {
        r := Put(JoinNul(items));
      }
    }
  }

  // ---------------------------------------------------------------- tri-state flags

  type Flags = bv16

  /** The present bit of a pair. */
  function PresentBit(pair: nat): Flags
    requires pair < 4
  {
    match pair case 0 => 0x01 case 1 => 0x04 case 2 => 0x10 case _ => 0x40
  }

  function ValueBit(pair: nat): Flags
    requires pair < 4
  {
    match pair case 0 => 0x02 case 1 => 0x08 case 2 => 0x20 case _ => 0x80
  }

  /** Bits are only ever added: setting a pair again cannot take a true value back. */
  function SetFlag(f: Flags, pair: nat, value: bool): Flags
    requires pair < 4
  {
    f | PresentBit(pair) | if value then ValueBit(pair) else 0
  }

  // ---------------------------------------------------------------- rows

  datatype NodeRow = NodeRow(
    kind: Byte, visibility: Byte, flags: Flags, startLine: U32, endLine: U32, startColumn: U32, endColumn: U32,
    name: StrRef, qualifiedName: StrRef, id: StrRef, docstring: StrRef, signature: StrRef,
    decorators: StrRef, typeParameters: StrRef, returnType: StrRef, extraJson: StrRef)

  datatype EdgeRow = EdgeRow(
    source: U32, target: U32, kind: Byte, provenance: Byte, line: U32, column: U32,
    metadata: StrRef, sourceId: StrRef, targetId: StrRef)

  datatype RefRow = RefRow(
    from: U32, kind: Byte, flags: Byte, line: U32, column: U32,
    name: StrRef, candidates: StrRef, fromId: StrRef)

  function NodeWords(r: NodeRow): seq<U32> {
    [Packed(r.kind, r.visibility, r.flags as int), r.startLine, r.endLine, r.startColumn, r.endColumn]
    + NodeStringWords(r) + [0]
  }

  function EdgeWords(r: EdgeRow): seq<U32> {
    [r.source, r.target, Packed(r.kind, r.provenance, 0), r.line, r.column,
     r.metadata.0, r.metadata.1, r.sourceId.0, r.sourceId.1, r.targetId.0, r.targetId.1]
  }

  function RefWords(r: RefRow): seq<U32> {
    [r.from, Packed(r.kind, r.flags, 0), r.line, r.column,
     r.name.0, r.name.1, r.candidates.0, r.candidates.1, r.fromId.0, r.fromId.1]
  }

  function NodeBytes(r: NodeRow): (b: Text)
    ensures |b| == NODE_SIZE
  {
    Words(NodeWords(r))
  }

  function EdgeBytes(r: EdgeRow): (b: Text)
    ensures |b| == EDGE_SIZE
  {
    Words(EdgeWords(r))
  }

  function RefBytes(r: RefRow): (b: Text)
    ensures |b| == REF_SIZE
  {
    Words(RefWords(r))
  }

  // ---------------------------------------------------------------- the tables

  function NodeTable(rows: seq<NodeRow>): seq<Text> { seq(|rows|, k requires 0 <= k < |rows| => NodeBytes(rows[k])) }

  function EdgeTable(rows: seq<EdgeRow>): seq<Text> { seq(|rows|, k requires 0 <= k < |rows| => EdgeBytes(rows[k])) }

  function RefTable(rows: seq<RefRow>): seq<Text> { seq(|rows|, k requires 0 <= k < |rows| => RefBytes(rows[k])) }

  /** One word more on a growing row. */
  method Put32(buf: Text, x: U32, ghost head: Text, ghost ws: seq<U32>) returns (out: Text, ghost more: seq<U32>)
    requires buf == head + Words(ws)
    ensures out == buf + LE32(x)
    ensures out == head + Words(more) && more == ws + [x]
  {
    out := buf + LE32(x);
    more := ws + [x];
    WordsPush(head, ws, x);
  }

  method PutStr(buf: Text, r: StrRef, ghost head: Text, ghost ws: seq<U32>) returns (out: Text, ghost more: seq<U32>)
    requires buf == head + Words(ws)
    ensures out == head + Words(more) && more == ws + [r.0, r.1]
  {
    out, more := Put32(buf, r.0, head, ws);
    out, more := Put32(out, r.1, head, more);
  }

  /** Two bytes and a half-word. */
  method PutPacked(buf: Text, a: Byte, b: Byte, c: U16, ghost head: Text, ghost ws: seq<U32>)
    returns (out: Text, ghost more: seq<U32>)
    requires buf == head + Words(ws)
    ensures out == head + Words(more) && more == ws + [Packed(a, b, c)]
  {
    out := buf + [a];
    out := out + [b];
    out := out + LE16(c);
    PackedBytes(a, b, c);
    assert out == buf + LE32(Packed(a, b, c));
    more := ws + [Packed(a, b, c)];
    WordsPush(head, ws, Packed(a, b, c));
  }

  function NodeStringWords(r: NodeRow): seq<U32> {
    [r.name.0, r.name.1, r.qualifiedName.0, r.qualifiedName.1, r.id.0, r.id.1, r.docstring.0, r.docstring.1,
     r.signature.0, r.signature.1, r.decorators.0, r.decorators.1, r.typeParameters.0, r.typeParameters.1,
     r.returnType.0, r.returnType.1, r.extraJson.0, r.extraJson.1]
  }

  method PutNodeStrings(buf: Text, r: NodeRow, ghost head: Text, ghost ws: seq<U32>) returns (out: Text, ghost more: seq<U32>)
    requires buf == head + Words(ws)
    ensures out == head + Words(more) && more == ws + NodeStringWords(r)
  {
    hide Words;
    out, more := PutStr(buf, r.name, head, ws);
    out, more := PutStr(out, r.qualifiedName, head, more);
    out, more := PutStr(out, r.id, head, more);
    out, more := PutStr(out, r.docstring, head, more);
    out, more := PutStr(out, r.signature, head, more);
    out, more := PutStr(out, r.decorators, head, more);
    out, more := PutStr(out, r.typeParameters, head, more);
    out, more := PutStr(out, r.returnType, head, more);
    out, more := PutStr(out, r.extraJson, head, more);
  }

  class Tables {
    var nodes: Text
    var edges: Text
    var refs: Text
    var nodeCount: nat
    var edgeCount: nat
    var refCount: nat
    ghost var nodeRows: seq<NodeRow>
    ghost var edgeRows: seq<EdgeRow>
    ghost var refRows: seq<RefRow>

    constructor ()
      ensures Valid() && nodeRows == [] && edgeRows == [] && refRows == []
    {
      nodes, edges, refs := [], [], [];
      nodeCount, edgeCount, refCount := 0, 0, 0;
      nodeRows, edgeRows, refRows := [], [], [];
    }

    /** The byte tables are exactly the rows pushed so far, in order. */
    ghost predicate Valid()
      reads this
    {
      && nodes == Concat(NodeTable(nodeRows)) && nodeCount == |nodeRows|
      && edges == Concat(EdgeTable(edgeRows)) && edgeCount == |edgeRows|
      && refs == Concat(RefTable(refRows)) && refCount == |refRows|
    }

    method PushNode(r: NodeRow) returns (idx: nat)
      requires Valid()
      modifies this`nodes, this`nodeCount, this`nodeRows
      ensures Valid() && nodeRows == old(nodeRows) + [r] && idx == |old(nodeRows)|
    {
      hide Words, Concat;
      ghost var head := nodes;
      var buf := nodes;
      ghost var ws: seq<U32> := [];
      NoWords(head);
      buf, ws := PutPacked(buf, r.kind, r.visibility, r.flags as int, head, ws);
      buf, ws := Put32(buf, r.startLine, head, ws);
      buf, ws := Put32(buf, r.endLine, head, ws);
      buf, ws := Put32(buf, r.startColumn, head, ws);
      buf, ws := Put32(buf, r.endColumn, head, ws);
      buf, ws := PutNodeStrings(buf, r, head, ws);
      buf, ws := Put32(buf, 0, head, ws);
      assert ws == NodeWords(r);
      NodeTablePush(nodeRows, r);
      nodes := buf;
      idx := nodeCount;
      nodeCount := nodeCount + 1;
      nodeRows := nodeRows + [r];
    }

    method PushEdge(r: EdgeRow)
      requires Valid()
      modifies this`edges, this`edgeCount, this`edgeRows
      ensures Valid() && edgeRows == old(edgeRows) + [r]
    {
      hide Words, Concat;
      ghost var head := edges;
      var buf := edges;
      ghost var ws: seq<U32> := [];
      NoWords(head);
      buf, ws := Put32(buf, r.source, head, ws);
      buf, ws := Put32(buf, r.target, head, ws);
      buf, ws := PutPacked(buf, r.kind, r.provenance, 0, head, ws);
      buf, ws := Put32(buf, r.line, head, ws);
      buf, ws := Put32(buf, r.column, head, ws);
      buf, ws := PutStr(buf, r.metadata, head, ws);
      buf, ws := PutStr(buf, r.sourceId, head, ws);
      buf, ws := PutStr(buf, r.targetId, head, ws);
      assert ws == EdgeWords(r);
      EdgeTablePush(edgeRows, r);
      edges := buf;
      edgeCount := edgeCount + 1;
      edgeRows := edgeRows + [r];
    }

    method PushRefFlagged(r: RefRow)
      requires Valid()
      modifies this`refs, this`refCount, this`refRows
      ensures Valid() && refRows == old(refRows) + [r]
    {
      hide Words, Concat;
      ghost var head := refs;
      var buf := refs;
      ghost var ws: seq<U32> := [];
      NoWords(head);
      buf, ws := Put32(buf, r.from, head, ws);
      buf, ws := PutPacked(buf, r.kind, r.flags, 0, head, ws);
      buf, ws := Put32(buf, r.line, head, ws);
      buf, ws := Put32(buf, r.column, head, ws);
      buf, ws := PutStr(buf, r.name, head, ws);
      buf, ws := PutStr(buf, r.candidates, head, ws);
      buf, ws := PutStr(buf, r.fromId, head, ws);
      assert ws == RefWords(r);
      RefTablePush(refRows, r);
      refs := buf;
      refCount := refCount + 1;
      refRows := refRows + [r];
    }

    method PushRef(r: RefRow)
      requires Valid()
      modifies this`refs, this`refCount, this`refRows
      ensures Valid() && refRows == old(refRows) + [r.(flags := 0)]
    {
      PushRefFlagged(r.(flags := 0));
    }
  }

  lemma NoWords(head: Text)
    ensures head == head + Words([])
  {}

  lemma NodeTablePush(rows: seq<NodeRow>, r: NodeRow)
    ensures Concat(NodeTable(rows + [r])) == Concat(NodeTable(rows)) + NodeBytes(r)
  {
    assert NodeTable(rows + [r]) == NodeTable(rows) + [NodeBytes(r)];
    ConcatPush(NodeTable(rows), NodeBytes(r));
  }

  lemma EdgeTablePush(rows: seq<EdgeRow>, r: EdgeRow)
    ensures Concat(EdgeTable(rows + [r])) == Concat(EdgeTable(rows)) + EdgeBytes(r)
  {
    assert EdgeTable(rows + [r]) == EdgeTable(rows) + [EdgeBytes(r)];
    ConcatPush(EdgeTable(rows), EdgeBytes(r));
  }

  lemma RefTablePush(rows: seq<RefRow>, r: RefRow)
    ensures Concat(RefTable(rows + [r])) == Concat(RefTable(rows)) + RefBytes(r)
  {
    assert RefTable(rows + [r]) == RefTable(rows) + [RefBytes(r)];
    ConcatPush(RefTable(rows), RefBytes(r));
  }

  // ---------------------------------------------------------------- the meta block

  datatype Meta = Meta(nodeCount: U32, edgeCount: U32, refCount: U32, arenaLen: U32, errors: StrRef, duration: (U32, U32))

  /** The duration is eight bytes of floating point, carried as two words. */
  function MetaWords(m: Meta): seq<U32> {
    [Packed(ABI_VERSION, 0, 0), m.nodeCount, m.edgeCount, m.refCount, m.arenaLen,
     m.errors.0, m.errors.1, m.duration.0, m.duration.1]
  }

  method BuildMeta(t: Tables, arenaLen: U32, errors: StrRef, duration: (U32, U32)) returns (m: Text)
    ensures m == Words(MetaWords(Meta(Wrap(t.nodeCount), Wrap(t.edgeCount), Wrap(t.refCount), arenaLen, errors, duration)))
    ensures |m| == META_SIZE
  {
    ghost var ws: seq<U32> := [];
    m := [];
    NoWords([]);
    m, ws := PutPacked(m, ABI_VERSION, 0, 0, [], ws);
    m, ws := Put32(m, Wrap(t.nodeCount), [], ws);
    m, ws := Put32(m, Wrap(t.edgeCount), [], ws);
    m, ws := Put32(m, Wrap(t.refCount), [], ws);
    m, ws := Put32(m, arenaLen, [], ws);
    m, ws := PutStr(m, errors, [], ws);
    m, ws := PutStr(m, duration, [], ws);
    assert ws == MetaWords(Meta(Wrap(t.nodeCount), Wrap(t.edgeCount), Wrap(t.refCount), arenaLen, errors, duration));
  }
}
