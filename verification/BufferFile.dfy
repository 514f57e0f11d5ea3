// Whole files through the buffers: what create_node writes is what the reader returns.

module BufferFile {
  import opened Wrappers
  import opened Chars
  import opened WireBytes
  import opened Buffers
  import opened BufferDecode

  // ---------------------------------------------------------------- nodes, edges and references as values

  datatype NodeValue = NodeValue(
    kind: Byte, visibility: Byte,
    isExported: Option<bool>, isAsync: Option<bool>, isStatic: Option<bool>, isAbstract: Option<bool>,
    startLine: U32, endLine: U32, startColumn: U32, endColumn: U32,
    name: Option<Text>, qualifiedName: Option<Text>, id: Option<Text>,
    docstring: Option<Text>, signature: Option<Text>,
    decorators: Option<seq<Text>>, typeParameters: Option<seq<Text>>,
    returnType: Option<Text>, extraJson: Option<Text>)

  datatype EdgeValue = EdgeValue(source: Option<Text>, target: Option<Text>, kind: Byte, provenance: Byte,
                                 line: Option<U32>, column: Option<U32>, metadata: Option<Text>)

  function DecodeNode(r: NodeRow, arena: Text): NodeValue {
    NodeValue(r.kind, r.visibility, GetFlag(r.flags, 0), GetFlag(r.flags, 1), GetFlag(r.flags, 2), GetFlag(r.flags, 3),
              r.startLine, r.endLine, r.startColumn, r.endColumn,
              Fetch(arena, r.name), Fetch(arena, r.qualifiedName), Fetch(arena, r.id),
              Fetch(arena, r.docstring), Fetch(arena, r.signature),
              FetchList(arena, r.decorators), FetchList(arena, r.typeParameters),
              Fetch(arena, r.returnType), Fetch(arena, r.extraJson))
  }

  function Given(x: U32): Option<U32> { if x == NONE then None else Some(x) }

  /** An endpoint is the id of the row it points at, or spelled out where there is no row. */
  function Endpoint(idx: U32, spelled: Option<Text>, idByRow: seq<Option<Text>>): Option<Text> {
    if idx == NONE then spelled else if idx < |idByRow| then idByRow[idx] else None
  }

  function DecodeEdge(r: EdgeRow, arena: Text, idByRow: seq<Option<Text>>): EdgeValue {
    EdgeValue(Endpoint(r.source, Fetch(arena, r.sourceId), idByRow), Endpoint(r.target, Fetch(arena, r.targetId), idByRow),
              r.kind, r.provenance, Given(r.line), Given(r.column), Fetch(arena, r.metadata))
  }

  // ---------------------------------------------------------------- flags of a node

  function SetOpt(f: Flags, pair: nat, value: Option<bool>): Flags
    requires pair < 4
  {
    if value.None? then f else SetFlag(f, pair, value.value)
  }

  function FlagsOf(v: NodeValue): Flags {
    SetOpt(SetOpt(SetOpt(SetOpt(0, 0, v.isExported), 1, v.isAsync), 2, v.isStatic), 3, v.isAbstract)
  }

  predicate Clear(f: Flags, pair: nat)
    requires pair < 4
  {
    !HasBit(f, PresentBit(pair)) && !HasBit(f, ValueBit(pair))
  }

  lemma SetOptReads(f: Flags, pair: nat, value: Option<bool>, other: nat)
    requires pair < 4 && other < 4 && Clear(f, pair)
    ensures GetFlag(SetOpt(f, pair, value), pair) == value
    ensures other != pair ==> GetFlag(SetOpt(f, pair, value), other) == GetFlag(f, other)
    ensures other != pair && Clear(f, other) ==> Clear(SetOpt(f, pair, value), other)
  {
    hide SetFlag, PresentBit, ValueBit, HasBit;
    if value.Some? {
      FlagPair(f, pair, value.value, pair);
      FlagPair(f, pair, value.value, other);
    }
  }

  lemma FlagsRead(v: NodeValue)
    ensures GetFlag(FlagsOf(v), 0) == v.isExported && GetFlag(FlagsOf(v), 1) == v.isAsync
    ensures GetFlag(FlagsOf(v), 2) == v.isStatic && GetFlag(FlagsOf(v), 3) == v.isAbstract
  {
    assert Clear(0, 0) && Clear(0, 1) && Clear(0, 2) && Clear(0, 3);
    hide SetOpt, GetFlag, Clear;
    var f1 := SetOpt(0, 0, v.isExported);
    SetOptReads(0, 0, v.isExported, 1);
    SetOptReads(0, 0, v.isExported, 2);
    SetOptReads(0, 0, v.isExported, 3);
    var f2 := SetOpt(f1, 1, v.isAsync);
    SetOptReads(f1, 1, v.isAsync, 0);
    SetOptReads(f1, 1, v.isAsync, 2);
    SetOptReads(f1, 1, v.isAsync, 3);
    var f3 := SetOpt(f2, 2, v.isStatic);
    SetOptReads(f2, 2, v.isStatic, 0);
    SetOptReads(f2, 2, v.isStatic, 1);
    SetOptReads(f2, 2, v.isStatic, 3);
    SetOptReads(f3, 3, v.isAbstract, 0);
    SetOptReads(f3, 3, v.isAbstract, 1);
    SetOptReads(f3, 3, v.isAbstract, 2);
  }

  // ---------------------------------------------------------------- references that stay good

  predicate Within(arena: Text, r: StrRef) { r.0 == NONE || r.0 + r.1 <= |arena| }

  predicate NodeWithin(arena: Text, r: NodeRow) {
    && Within(arena, r.name) && Within(arena, r.qualifiedName) && Within(arena, r.id) && Within(arena, r.docstring)
    && Within(arena, r.signature) && Within(arena, r.decorators) && Within(arena, r.typeParameters)
    && Within(arena, r.returnType) && Within(arena, r.extraJson)
  }

  lemma FetchStable(arena: Text, more: Text, r: StrRef)
    requires Within(arena, r)
    ensures Within(arena + more, r) && Fetch(arena + more, r) == Fetch(arena, r)
  {
    if r.0 != NONE {
      assert (arena + more)[r.0..r.0 + r.1] == arena[r.0..r.0 + r.1];
    }
  }

  /** A node row decodes to the same value after anything else has been put into the arena. */
  lemma NodeStable(arena: Text, more: Text, r: NodeRow)
    requires NodeWithin(arena, r)
    ensures NodeWithin(arena + more, r) && DecodeNode(r, arena + more) == DecodeNode(r, arena)
  {
    hide Fetch, Within;
    FetchStable(arena, more, r.name);
    FetchStable(arena, more, r.qualifiedName);
    FetchStable(arena, more, r.id);
    FetchStable(arena, more, r.docstring);
    FetchStable(arena, more, r.signature);
    FetchStable(arena, more, r.decorators);
    FetchStable(arena, more, r.typeParameters);
    FetchStable(arena, more, r.returnType);
    FetchStable(arena, more, r.extraJson);
  }

  // ---------------------------------------------------------------- writing one node

  predicate NulFree(items: Option<seq<Text>>) {
    items.Some? ==> items.value != [] && forall k :: 0 <= k < |items.value| ==> 0 !in items.value[k]
  }

  /** What the walkers write: named nodes, lists absent rather than empty, no NUL inside a list. */
  predicate Writable(v: NodeValue) {
    v.name.Some? && v.qualifiedName.Some? && v.id.Some? && NulFree(v.decorators) && NulFree(v.typeParameters)
  }

  function Bytes(s: Option<Text>): Text { if s.Some? then s.value else [] }

  function ListBytes(items: Option<seq<Text>>): Text
    requires NulFree(items)
  {
    if items.Some? then JoinNul(items.value) else []
  }

  function OptRef(arena: Text, s: Option<Text>): StrRef { if s.Some? then RefTo(arena, s.value) else NO_STRING }

  lemma OptReads(arena: Text, s: Option<Text>)
    requires Fits(arena + Bytes(s))
    ensures Fetch(arena + Bytes(s), OptRef(arena, s)) == s && Within(arena + Bytes(s), OptRef(arena, s))
  {
    if s.Some? {
      StringRoundTrip(arena, s.value, []);
      assert arena + s.value + [] == arena + s.value;
    }
  }

  lemma ListReads(arena: Text, items: Option<seq<Text>>)
    requires NulFree(items) && Fits(arena + ListBytes(items))
    ensures var r := if items.Some? then RefTo(arena, JoinNul(items.value)) else NO_STRING;
            FetchList(arena + ListBytes(items), r) == items && Within(arena + ListBytes(items), r)
  {
    if items.Some? {
      OptReads(arena, Some(JoinNul(items.value)));
      ListRoundTrip(items.value);
    }
  }

  /** Whatever could be read before can still be read, to the same effect. */
  ghost predicate StillReads(was: Text, now: Text) {
    && was <= now
    && forall r: StrRef :: Within(was, r) ==> Within(now, r) && Fetch(now, r) == Fetch(was, r)
  }

  lemma AppendReads(arena: Text, more: Text)
    ensures StillReads(arena, arena + more)
  {
    forall r: StrRef | Within(arena, r)
      ensures Within(arena + more, r) && Fetch(arena + more, r) == Fetch(arena, r)
    {
      FetchStable(arena, more, r);
    }
  }

  lemma StillReadsTwice(a: Text, b: Text, c: Text)
    requires StillReads(a, b) && StillReads(b, c)
    ensures StillReads(a, c)
  {
    hide Within, Fetch;
  }

  /** The reference reads as the string, as long as the arena fits. */
  predicate Reads(arena: Text, r: StrRef, s: Option<Text>) {
    Fits(arena) ==> Within(arena, r) && Fetch(arena, r) == s
  }

  predicate ReadsList(arena: Text, r: StrRef, items: Option<seq<Text>>) {
    Fits(arena) ==> Within(arena, r) && FetchList(arena, r) == items
  }

  method PutOptional(a: Arena, s: Option<Text>) returns (r: StrRef)
    modifies a
    ensures StillReads(old(a.buf), a.buf) && Reads(a.buf, r, s)
  {
    AppendReads(a.buf, Bytes(s));
    if Fits(a.buf + Bytes(s)) {
      OptReads(a.buf, s);
    }
    r := a.PutOpt(s);
  }

  method PutNames(a: Arena, items: Option<seq<Text>>) returns (r: StrRef)
    requires NulFree(items)
    modifies a
    ensures StillReads(old(a.buf), a.buf) && ReadsList(a.buf, r, items)
  {
    AppendReads(a.buf, ListBytes(items));
    if Fits(a.buf + ListBytes(items)) {
      ListReads(a.buf, items);
    }
    r := a.PutList(if items.Some? then items.value else []);
  }

  lemma ReadsOn(was: Text, now: Text, r: StrRef, s: Option<Text>)
    requires StillReads(was, now) && Reads(was, r, s)
    ensures Reads(now, r, s)
  {
    hide Within, Fetch;
  }

  lemma ReadsListOn(was: Text, now: Text, r: StrRef, items: Option<seq<Text>>)
    requires StillReads(was, now) && ReadsList(was, r, items)
    ensures ReadsList(now, r, items)
  {
    hide Within, Fetch;
  }

  /** The strings of a node, in the order the walkers put them, then its row. */
  method PackNode(a: Arena, t: Tables, v: NodeValue) returns (idx: nat)
    requires t.Valid() && Writable(v)
    modifies a, t
    ensures t.Valid() && t.edgeRows == old(t.edgeRows) && t.refRows == old(t.refRows)
    ensures idx == |old(t.nodeRows)| && |t.nodeRows| == idx + 1 && t.nodeRows[..idx] == old(t.nodeRows)
    ensures StillReads(old(a.buf), a.buf)
    ensures Fits(a.buf) ==> NodeWithin(a.buf, t.nodeRows[idx]) && DecodeNode(t.nodeRows[idx], a.buf) == v
  {
    hide Within, Fetch, FetchList, GetFlag, SetOpt;
    var name := PutOptional(a, v.name);
    ghost var b1 := a.buf;
    var qualified := PutOptional(a, v.qualifiedName);
    ghost var b2 := a.buf;
    var id := PutOptional(a, v.id);
    ghost var b3 := a.buf;
    var doc := PutOptional(a, v.docstring);
    ghost var b4 := a.buf;
    var signature := PutOptional(a, v.signature);
    ghost var b5 := a.buf;
    var returned := PutOptional(a, v.returnType);
    ghost var b6 := a.buf;
    var decorators := PutNames(a, v.decorators);
    ghost var b7 := a.buf;
    var parameters := PutNames(a, v.typeParameters);
    ghost var b8 := a.buf;
    var extra := PutOptional(a, v.extraJson);
    var row := NodeRow(v.kind, v.visibility, FlagsOf(v), v.startLine, v.endLine, v.startColumn, v.endColumn,
                       name, qualified, id, doc, signature, decorators, parameters, returned, extra);
    idx := t.PushNode(row);
    StillReadsTwice(b7, b8, a.buf);
    StillReadsTwice(b6, b7, a.buf);
    StillReadsTwice(b5, b6, a.buf);
    StillReadsTwice(b4, b5, a.buf);
    StillReadsTwice(b3, b4, a.buf);
    StillReadsTwice(b2, b3, a.buf);
    StillReadsTwice(b1, b2, a.buf);
    StillReadsTwice(old(a.buf), b1, a.buf);
    ReadsOn(b1, a.buf, name, v.name);
    ReadsOn(b2, a.buf, qualified, v.qualifiedName);
    ReadsOn(b3, a.buf, id, v.id);
    ReadsOn(b4, a.buf, doc, v.docstring);
    ReadsOn(b5, a.buf, signature, v.signature);
    ReadsOn(b6, a.buf, returned, v.returnType);
    ReadsListOn(b7, a.buf, decorators, v.decorators);
    ReadsListOn(b8, a.buf, parameters, v.typeParameters);
    FlagsRead(v);
  }

  // ---------------------------------------------------------------- whole tables

  /** The node rows written so far read back as `values`. */
  ghost predicate Holds(arena: Text, rows: seq<NodeRow>, values: seq<NodeValue>) {
    && |rows| == |values|
    && forall k :: 0 <= k < |rows| ==> NodeWithin(arena, rows[k]) && DecodeNode(rows[k], arena) == values[k]
  }

  method PackNodes(a: Arena, t: Tables, values: seq<NodeValue>)
    requires t.Valid() && t.nodeRows == [] && forall k :: 0 <= k < |values| ==> Writable(values[k])
    modifies a, t
    ensures t.Valid() && t.edgeRows == old(t.edgeRows) && t.refRows == old(t.refRows)
    ensures Fits(a.buf) ==> Holds(a.buf, t.nodeRows, values)
    ensures |t.nodeRows| == |values|
  {
    var i := 0;
    while i < |values|
      invariant i <= |values| && t.Valid() && |t.nodeRows| == i
      invariant t.edgeRows == old(t.edgeRows) && t.refRows == old(t.refRows)
      invariant Fits(a.buf) ==> Holds(a.buf, t.nodeRows, values[..i])
    {
      ghost var was, rows := a.buf, t.nodeRows;
      var idx := PackNode(a, t, values[i]);
      if Fits(a.buf) {
        HoldsMore(was, a.buf, rows, t.nodeRows, values, i);
      }
      i := i + 1;
    }
    assert values[..i] == values;
  }

  lemma HoldsMore(was: Text, now: Text, rows: seq<NodeRow>, grown: seq<NodeRow>, values: seq<NodeValue>, i: nat)
    requires i < |values| && Holds(was, rows, values[..i]) && was <= now
    requires |grown| == i + 1 && grown[..i] == rows
    requires NodeWithin(now, grown[i]) && DecodeNode(grown[i], now) == values[i]
    ensures Holds(now, grown, values[..i + 1])
  {
    hide NodeWithin, DecodeNode;
    var more := now[|was|..];
    assert was + more == now;
    forall k | 0 <= k < i ensures NodeWithin(now, grown[k]) && DecodeNode(grown[k], now) == values[k] {
      assert grown[k] == grown[..i][k] && values[k] == values[..i][k];
      NodeStable(was, more, rows[k]);
    }
  }

  /** The node row at position `k` of the byte table. */
  function NodeAt(nodes: Text, k: nat): NodeRow
    requires k * NODE_SIZE + NODE_SIZE <= |nodes|
  {
    ReadNode(nodes[k * NODE_SIZE..k * NODE_SIZE + NODE_SIZE])
  }

  /** What the reader's loop builds from the first `count` rows. */
  function DecodeTable(nodes: Text, count: nat, arena: Text): (out: seq<NodeValue>)
    requires count * NODE_SIZE <= |nodes|
    ensures |out| == count
  {
    if count == 0 then []
    else DecodeTable(nodes, count - 1, arena) + [DecodeNode(NodeAt(nodes, count - 1), arena)]
  }

  /** The reader's loop over the node table. */
  method DecodeNodes(nodes: Text, count: nat, arena: Text) returns (out: seq<NodeValue>)
    requires count * NODE_SIZE <= |nodes|
    ensures out == DecodeTable(nodes, count, arena)
  {
    hide ReadNode, DecodeNode;
    out := [];
    var i := 0;
    while i < count
      invariant i <= count && out == DecodeTable(nodes, i, arena)
    {
      out := out + [DecodeNode(NodeAt(nodes, i), arena)];
      i := i + 1;
    }
  }

  /** Row `i` is bytes `[i * 96, (i + 1) * 96)` and reads back as written. */
  lemma NodeSlice(rows: seq<NodeRow>, i: nat)
    requires i < |rows|
    ensures var b := Concat(NodeTable(rows));
            |b| == NODE_SIZE * |rows| && i * NODE_SIZE + NODE_SIZE <= |b| && NodeAt(b, i) == rows[i]
  {
    hide ReadNode, NodeBytes;
    RowBytes(NodeTable(rows), NODE_SIZE, i);
    NodeRoundTrip(rows[i]);
  }

  lemma {:induction false} TableRoundTrip(arena: Text, rows: seq<NodeRow>, values: seq<NodeValue>, count: nat)
    requires Holds(arena, rows, values) && count <= |rows|
    ensures count * NODE_SIZE <= |Concat(NodeTable(rows))|
    ensures DecodeTable(Concat(NodeTable(rows)), count, arena) == values[..count]
    decreases count
  {
    hide NodeAt, DecodeNode, NodeWithin, Concat, NodeTable;
    if count > 0 {
      TableRoundTrip(arena, rows, values, count - 1);
      NodeSlice(rows, count - 1);
    }
  }

  lemma EdgeSlice(rows: seq<EdgeRow>, i: nat)
    requires i < |rows|
    ensures var b := Concat(EdgeTable(rows));
            && |b| == EDGE_SIZE * |rows| && i * EDGE_SIZE + EDGE_SIZE <= |b|
            && ReadEdge(b[i * EDGE_SIZE..i * EDGE_SIZE + EDGE_SIZE]) == rows[i]
  {
    hide ReadEdge, EdgeBytes;
    RowBytes(EdgeTable(rows), EDGE_SIZE, i);
    EdgeRoundTrip(rows[i]);
  }

  lemma RefSlice(rows: seq<RefRow>, i: nat)
    requires i < |rows|
    ensures var b := Concat(RefTable(rows));
            && |b| == REF_SIZE * |rows| && i * REF_SIZE + REF_SIZE <= |b|
            && ReadRef(b[i * REF_SIZE..i * REF_SIZE + REF_SIZE]) == rows[i]
  {
    hide ReadRef, RefBytes;
    RowBytes(RefTable(rows), REF_SIZE, i);
    RefRoundTrip(rows[i]);
  }

  /** Packing any nodes and decoding the bytes gives the nodes back, in order. */
  method NodesThroughBuffers(values: seq<NodeValue>) returns (arena: Text, nodes: Text, decoded: seq<NodeValue>)
    requires forall k :: 0 <= k < |values| ==> Writable(values[k])
    ensures Fits(arena) ==> decoded == values
    ensures |nodes| == NODE_SIZE * |values|
  {
    var a := new Arena();
    var t := new Tables();
    PackNodes(a, t, values);
    arena, nodes := a.buf, t.nodes;
    ConcatLength(NodeTable(t.nodeRows), NODE_SIZE);
    decoded := DecodeNodes(nodes, |values|, arena);
    if Fits(arena) {
      TableRoundTrip(arena, t.nodeRows, values, |values|);
    }
  }

  /** An edge between two rows of the table decodes to an edge between their ids. */
  lemma EdgeEndpoints(r: EdgeRow, arena: Text, values: seq<NodeValue>)
    requires r.source < |values| && r.target < |values| && |values| < NONE
    ensures var ids := seq(|values|, k requires 0 <= k < |values| => values[k].id);
            var e := DecodeEdge(r, arena, ids);
            && e.source == values[r.source].id && e.target == values[r.target].id
            && (e.line == None <==> r.line == NONE) && (e.metadata == None <==> r.metadata.0 == NONE)
  {}
}
