// Edges and references through the buffers, and a whole file: every table comes back in order.

module BufferTables {
  import opened Wrappers
  import opened Chars
  import opened WireBytes
  import opened Buffers
  import opened BufferDecode
  import opened BufferFile

  /** An endpoint as the writer knows it: a row of this file's node table, or a spelled-out id. */
  datatype End = AtRow(row: U32) | Spelled(id: Text)

  datatype NewEdge = NewEdge(
    source: End, target: End, kind: Byte, provenance: Byte, line: Option<U32>, column: Option<U32>, metadata: Option<Text>)

  datatype NewRef = NewRef(
    from: End, kind: Byte, withFilePath: bool, line: U32, column: U32, name: Text, candidates: Option<seq<Text>>)

  datatype RefValue = RefValue(
    from: Option<Text>, kind: Byte, withFilePath: bool, line: U32, column: U32, name: Option<Text>,
    candidates: Option<seq<Text>>)

  const FLAG_FILE_PATH: Byte := 1

  type Ids = seq<Option<Text>>

  function DecodeRef(r: RefRow, arena: Text, ids: Ids): RefValue {
    RefValue(Endpoint(r.from, Fetch(arena, r.fromId), ids), r.kind, r.flags % 2 == 1, r.line, r.column,
             Fetch(arena, r.name), FetchList(arena, r.candidates))
  }

  // ---------------------------------------------------------------- what the reader should return

  /** The id of the row, where there is one, or the spelled id itself. */
  function IdOf(e: End, ids: Ids): Option<Text> {
    match e
    case AtRow(row) => if row < |ids| then ids[row] else None
    case Spelled(id) => Some(id)
  }

  function EdgeMeant(e: NewEdge, ids: Ids): EdgeValue {
    EdgeValue(IdOf(e.source, ids), IdOf(e.target, ids), e.kind, e.provenance, e.line, e.column, e.metadata)
  }

  function RefMeant(r: NewRef, ids: Ids): RefValue {
    RefValue(IdOf(r.from, ids), r.kind, r.withFilePath, r.line, r.column, Some(r.name), r.candidates)
  }

  /** No number collides with the mark of an absent one. */
  predicate Marked(e: End) { e.AtRow? ==> e.row != NONE }

  predicate WritableEdge(e: NewEdge) {
    Marked(e.source) && Marked(e.target) && e.line != Some(NONE) && e.column != Some(NONE)
  }

  predicate WritableRef(r: NewRef) { Marked(r.from) && NulFree(r.candidates) }

  // ---------------------------------------------------------------- writing one edge, one reference

  function OrNone(x: Option<U32>): U32 { if x.Some? then x.value else NONE }

  function IndexOf(e: End): U32 { if e.AtRow? then e.row else NONE }

  function SpelledOf(e: End): Option<Text> { if e.AtRow? then None else Some(e.id) }

  lemma EndReads(e: End, spelled: Option<Text>, ids: Ids)
    requires Marked(e) && spelled == SpelledOf(e)
    ensures Endpoint(IndexOf(e), spelled, ids) == IdOf(e, ids)
  {}

  predicate EdgeWithin(arena: Text, r: EdgeRow) {
    Within(arena, r.metadata) && Within(arena, r.sourceId) && Within(arena, r.targetId)
  }

  predicate RefWithin(arena: Text, r: RefRow) {
    Within(arena, r.name) && Within(arena, r.candidates) && Within(arena, r.fromId)
  }

  method PackEdge(a: Arena, t: Tables, e: NewEdge, ghost ids: Ids)
    requires t.Valid() && WritableEdge(e)
    modifies a, t
    ensures t.Valid() && t.nodeRows == old(t.nodeRows) && t.refRows == old(t.refRows)
    ensures |t.edgeRows| == |old(t.edgeRows)| + 1 && t.edgeRows[..|old(t.edgeRows)|] == old(t.edgeRows)
    ensures StillReads(old(a.buf), a.buf)
    ensures var r := t.edgeRows[|old(t.edgeRows)|];
            Fits(a.buf) ==> EdgeWithin(a.buf, r) && DecodeEdge(r, a.buf, ids) == EdgeMeant(e, ids)
  {
    hide Within, Fetch, StillReads;
    var metadata := PutOptional(a, e.metadata);
    ghost var b1 := a.buf;
    var source := PutOptional(a, SpelledOf(e.source));
    ghost var b2 := a.buf;
    var target := PutOptional(a, SpelledOf(e.target));
    t.PushEdge(EdgeRow(IndexOf(e.source), IndexOf(e.target), e.kind, e.provenance, OrNone(e.line), OrNone(e.column),
                       metadata, source, target));
    StillReadsTwice(b1, b2, a.buf);
    StillReadsTwice(old(a.buf), b1, a.buf);
    ReadsOn(b1, a.buf, metadata, e.metadata);
    ReadsOn(b2, a.buf, source, SpelledOf(e.source));
    EndReads(e.source, SpelledOf(e.source), ids);
    EndReads(e.target, SpelledOf(e.target), ids);
  }

  method PackRef(a: Arena, t: Tables, r: NewRef, ghost ids: Ids)
    requires t.Valid() && WritableRef(r)
    modifies a, t
    ensures t.Valid() && t.nodeRows == old(t.nodeRows) && t.edgeRows == old(t.edgeRows)
    ensures |t.refRows| == |old(t.refRows)| + 1 && t.refRows[..|old(t.refRows)|] == old(t.refRows)
    ensures StillReads(old(a.buf), a.buf)
    ensures var row := t.refRows[|old(t.refRows)|];
            Fits(a.buf) ==> RefWithin(a.buf, row) && DecodeRef(row, a.buf, ids) == RefMeant(r, ids)
  {
    hide Within, Fetch, FetchList, StillReads;
    var name := PutOptional(a, Some(r.name));
    ghost var b1 := a.buf;
    var candidates := PutNames(a, r.candidates);
    ghost var b2 := a.buf;
    var from := PutOptional(a, SpelledOf(r.from));
    t.PushRefFlagged(RefRow(IndexOf(r.from), r.kind, if r.withFilePath then FLAG_FILE_PATH else 0, r.line, r.column,
                            name, candidates, from));
    StillReadsTwice(b1, b2, a.buf);
    StillReadsTwice(old(a.buf), b1, a.buf);
    ReadsOn(b1, a.buf, name, Some(r.name));
    ReadsListOn(b2, a.buf, candidates, r.candidates);
    EndReads(r.from, SpelledOf(r.from), ids);
  }

  // ---------------------------------------------------------------- whole tables

  /** The edge rows read back as the edges meant. */
  ghost predicate EdgesHold(arena: Text, rows: seq<EdgeRow>, edges: seq<NewEdge>, ids: Ids) {
    && |rows| == |edges|
    && forall k :: 0 <= k < |rows| ==> EdgeWithin(arena, rows[k]) && DecodeEdge(rows[k], arena, ids) == EdgeMeant(edges[k], ids)
  }

  ghost predicate RefsHold(arena: Text, rows: seq<RefRow>, refs: seq<NewRef>, ids: Ids) {
    && |rows| == |refs|
    && forall k :: 0 <= k < |rows| ==> RefWithin(arena, rows[k]) && DecodeRef(rows[k], arena, ids) == RefMeant(refs[k], ids)
  }

  lemma NodesHoldOn(was: Text, now: Text, rows: seq<NodeRow>, values: seq<NodeValue>)
    requires StillReads(was, now) && Holds(was, rows, values)
    ensures Holds(now, rows, values)
  {
    hide NodeWithin, DecodeNode;
    var more := now[|was|..];
    assert was + more == now;
    forall k | 0 <= k < |rows| ensures NodeWithin(now, rows[k]) && DecodeNode(rows[k], now) == values[k] {
      NodeStable(was, more, rows[k]);
    }
  }

  lemma EdgesHoldOn(was: Text, now: Text, rows: seq<EdgeRow>, edges: seq<NewEdge>, ids: Ids)
    requires StillReads(was, now) && EdgesHold(was, rows, edges, ids)
    ensures EdgesHold(now, rows, edges, ids)
  {
    hide Within, Fetch;
  }

  lemma RefsHoldOn(was: Text, now: Text, rows: seq<RefRow>, refs: seq<NewRef>, ids: Ids)
    requires StillReads(was, now) && RefsHold(was, rows, refs, ids)
    ensures RefsHold(now, rows, refs, ids)
  {
    hide Within, Fetch;
  }

  lemma FitsBefore(was: Text, now: Text)
    requires StillReads(was, now) && Fits(now)
    ensures Fits(was)
  {}

  method PackEdges(a: Arena, t: Tables, edges: seq<NewEdge>, ghost ids: Ids)
    requires t.Valid() && t.edgeRows == [] && forall e <- edges :: WritableEdge(e)
    modifies a, t
    ensures t.Valid() && t.nodeRows == old(t.nodeRows) && t.refRows == old(t.refRows)
    ensures StillReads(old(a.buf), a.buf)
    ensures |t.edgeRows| == |edges| && (Fits(a.buf) ==> EdgesHold(a.buf, t.edgeRows, edges, ids))
  {
    hide WritableEdge, Within, Fetch, StillReads, EdgesHold;
    AppendReads(a.buf, []);
    assert a.buf + [] == a.buf;
    NoneHold(a.buf, ids);
    var i := 0;
    while i < |edges|
      invariant i <= |edges| && t.Valid() && |t.edgeRows| == i
      invariant t.nodeRows == old(t.nodeRows) && t.refRows == old(t.refRows)
      invariant StillReads(old(a.buf), a.buf)
      invariant Fits(a.buf) ==> EdgesHold(a.buf, t.edgeRows, edges[..i], ids)
    {
      ghost var was, rows := a.buf, t.edgeRows;
      PackEdge(a, t, edges[i], ids);
      StillReadsTwice(old(a.buf), was, a.buf);
      if Fits(a.buf) {
        FitsBefore(was, a.buf);
        EdgesHoldOn(was, a.buf, rows, edges[..i], ids);
        OneEdgeMore(a.buf, rows, t.edgeRows, edges, i, ids);
      }
      i := i + 1;
    }
    assert edges[..i] == edges;
  }

  lemma NoneHold(arena: Text, ids: Ids)
    ensures EdgesHold(arena, [], [], ids) && RefsHold(arena, [], [], ids)
  {}

  lemma OneEdgeMore(arena: Text, rows: seq<EdgeRow>, grown: seq<EdgeRow>, edges: seq<NewEdge>, i: nat, ids: Ids)
    requires i < |edges| && EdgesHold(arena, rows, edges[..i], ids) && |grown| == i + 1 && grown[..i] == rows
    requires EdgeWithin(arena, grown[i]) && DecodeEdge(grown[i], arena, ids) == EdgeMeant(edges[i], ids)
    ensures EdgesHold(arena, grown, edges[..i + 1], ids)
  {
    hide EdgeWithin, DecodeEdge, EdgeMeant;
    forall k | 0 <= k < i
      ensures EdgeWithin(arena, grown[k]) && DecodeEdge(grown[k], arena, ids) == EdgeMeant(edges[k], ids)
    {
      assert grown[k] == rows[k] && edges[..i][k] == edges[k];
    }
  }

  method PackRefs(a: Arena, t: Tables, refs: seq<NewRef>, ghost ids: Ids)
    requires t.Valid() && t.refRows == [] && forall r <- refs :: WritableRef(r)
    modifies a, t
    ensures t.Valid() && t.nodeRows == old(t.nodeRows) && t.edgeRows == old(t.edgeRows)
    ensures StillReads(old(a.buf), a.buf)
    ensures |t.refRows| == |refs| && (Fits(a.buf) ==> RefsHold(a.buf, t.refRows, refs, ids))
  {
    hide WritableRef, Within, Fetch, StillReads, RefsHold;
    AppendReads(a.buf, []);
    assert a.buf + [] == a.buf;
    NoneHold(a.buf, ids);
    var i := 0;
    while i < |refs|
      invariant i <= |refs| && t.Valid() && |t.refRows| == i
      invariant t.nodeRows == old(t.nodeRows) && t.edgeRows == old(t.edgeRows)
      invariant StillReads(old(a.buf), a.buf)
      invariant Fits(a.buf) ==> RefsHold(a.buf, t.refRows, refs[..i], ids)
    {
      ghost var was, rows := a.buf, t.refRows;
      PackRef(a, t, refs[i], ids);
      StillReadsTwice(old(a.buf), was, a.buf);
      if Fits(a.buf) {
        FitsBefore(was, a.buf);
        RefsHoldOn(was, a.buf, rows, refs[..i], ids);
        OneRefMore(a.buf, rows, t.refRows, refs, i, ids);
      }
      i := i + 1;
    }
    assert refs[..i] == refs;
  }

  lemma OneRefMore(arena: Text, rows: seq<RefRow>, grown: seq<RefRow>, refs: seq<NewRef>, i: nat, ids: Ids)
    requires i < |refs| && RefsHold(arena, rows, refs[..i], ids) && |grown| == i + 1 && grown[..i] == rows
    requires RefWithin(arena, grown[i]) && DecodeRef(grown[i], arena, ids) == RefMeant(refs[i], ids)
    ensures RefsHold(arena, grown, refs[..i + 1], ids)
  {
    hide RefWithin, DecodeRef, RefMeant;
    forall k | 0 <= k < i
      ensures RefWithin(arena, grown[k]) && DecodeRef(grown[k], arena, ids) == RefMeant(refs[k], ids)
    {
      assert grown[k] == rows[k] && refs[..i][k] == refs[k];
    }
  }

  // ---------------------------------------------------------------- the reader's loops

  method DecodeEdges(bytes: Text, count: nat, arena: Text, ids: Ids, ghost rows: seq<EdgeRow>) returns (out: seq<EdgeValue>)
    requires bytes == Concat(EdgeTable(rows)) && count <= |rows|
    ensures |out| == count && forall k :: 0 <= k < count ==> out[k] == DecodeEdge(rows[k], arena, ids)
  {
    hide ReadEdge, DecodeEdge, Concat, EdgeTable;
    out := [];
    var i := 0;
    while i < count
      invariant i == |out| <= count && forall k :: 0 <= k < i ==> out[k] == DecodeEdge(rows[k], arena, ids)
    {
      EdgeSlice(rows, i);
      out := out + [DecodeEdge(ReadEdge(bytes[i * EDGE_SIZE..i * EDGE_SIZE + EDGE_SIZE]), arena, ids)];
      i := i + 1;
    }
  }

  method DecodeRefs(bytes: Text, count: nat, arena: Text, ids: Ids, ghost rows: seq<RefRow>) returns (out: seq<RefValue>)
    requires bytes == Concat(RefTable(rows)) && count <= |rows|
    ensures |out| == count && forall k :: 0 <= k < count ==> out[k] == DecodeRef(rows[k], arena, ids)
  {
    hide ReadRef, DecodeRef, Concat, RefTable;
    out := [];
    var i := 0;
    while i < count
      invariant i == |out| <= count && forall k :: 0 <= k < i ==> out[k] == DecodeRef(rows[k], arena, ids)
    {
      RefSlice(rows, i);
      out := out + [DecodeRef(ReadRef(bytes[i * REF_SIZE..i * REF_SIZE + REF_SIZE]), arena, ids)];
      i := i + 1;
    }
  }

  // ---------------------------------------------------------------- a whole file

  function IdsOf(nodes: seq<NodeValue>): Ids { seq(|nodes|, k requires 0 <= k < |nodes| => nodes[k].id) }

  function EdgesMeant(edges: seq<NewEdge>, ids: Ids): seq<EdgeValue> {
    seq(|edges|, k requires 0 <= k < |edges| => EdgeMeant(edges[k], ids))
  }

  function RefsMeant(refs: seq<NewRef>, ids: Ids): seq<RefValue> {
    seq(|refs|, k requires 0 <= k < |refs| => RefMeant(refs[k], ids))
  }

  /** What the writer hands over. */
  datatype EmitOut = EmitOut(meta: Text, nodes: Text, edges: Text, refs: Text, arena: Text)

  datatype Decoded = Decoded(nodes: seq<NodeValue>, edges: seq<EdgeValue>, refs: seq<RefValue>)

  ghost predicate TablesOf(b: EmitOut, nodeRows: seq<NodeRow>, edgeRows: seq<EdgeRow>, refRows: seq<RefRow>) {
    b.nodes == Concat(NodeTable(nodeRows)) && b.edges == Concat(EdgeTable(edgeRows)) && b.refs == Concat(RefTable(refRows))
  }

  /** The counts of the meta block do not run past the tables. */
  ghost predicate CountsFit(m: Meta, nodeRows: seq<NodeRow>, edgeRows: seq<EdgeRow>, refRows: seq<RefRow>) {
    m.nodeCount <= |nodeRows| && m.edgeCount <= |edgeRows| && m.refCount <= |refRows|
  }

  /** decodeExtractBuffers: the version is checked, and the rows are as many as the meta block says; None is its error. */
  method DecodeBuffers(b: EmitOut, ghost nodeRows: seq<NodeRow>, ghost edgeRows: seq<EdgeRow>, ghost refRows: seq<RefRow>)
    returns (d: Option<Decoded>)
    requires TablesOf(b, nodeRows, edgeRows, refRows)
    requires ReadMeta(b.meta).Some? ==> CountsFit(ReadMeta(b.meta).value, nodeRows, edgeRows, refRows)
    ensures d.None? <==> ReadMeta(b.meta).None?
    ensures d.Some? ==>
      var m := ReadMeta(b.meta).value;
      && m.nodeCount * NODE_SIZE <= |b.nodes| && d.value.nodes == DecodeTable(b.nodes, m.nodeCount, b.arena)
      && |d.value.edges| == m.edgeCount && |d.value.refs| == m.refCount
      && (forall k :: 0 <= k < m.edgeCount ==> d.value.edges[k] == DecodeEdge(edgeRows[k], b.arena, IdsOf(d.value.nodes)))
      && (forall k :: 0 <= k < m.refCount ==> d.value.refs[k] == DecodeRef(refRows[k], b.arena, IdsOf(d.value.nodes)))
  {
    hide ReadMeta, Concat, DecodeTable, DecodeEdge, DecodeRef, NodeTable, EdgeTable, RefTable;
    var read := ReadMeta(b.meta);
    if read.None? {
      return None;
    }
    var m := read.value;
    RowsFit(nodeRows, m.nodeCount);
    var nodes := DecodeNodes(b.nodes, m.nodeCount, b.arena);
    var idByRow := IdsOf(nodes);
    var edges := DecodeEdges(b.edges, m.edgeCount, b.arena, idByRow, edgeRows);
    var refs := DecodeRefs(b.refs, m.refCount, b.arena, idByRow, refRows);
    d := Some(Decoded(nodes, edges, refs));
  }

  lemma RowsFit(rows: seq<NodeRow>, count: nat)
    requires count <= |rows|
    ensures count * NODE_SIZE <= |Concat(NodeTable(rows))|
  {
    ConcatLength(NodeTable(rows), NODE_SIZE);
  }

  /** Any nodes, edges and references, put into the arena and the tables, and the counts into the meta block. */
  method PackFile(nodes: seq<NodeValue>, edges: seq<NewEdge>, refs: seq<NewRef>, duration: (U32, U32))
    returns (b: EmitOut, ghost nodeRows: seq<NodeRow>, ghost edgeRows: seq<EdgeRow>, ghost refRows: seq<RefRow>)
    requires (forall v <- nodes :: Writable(v)) && (forall e <- edges :: WritableEdge(e)) && (forall r <- refs :: WritableRef(r))
    ensures TablesOf(b, nodeRows, edgeRows, refRows)
    ensures |nodeRows| == |nodes| && |edgeRows| == |edges| && |refRows| == |refs|
    ensures ReadMeta(b.meta)
         == Some(Meta(Wrap(|nodes|), Wrap(|edges|), Wrap(|refs|), Wrap(|b.arena|), NO_STRING, duration))
    ensures Fits(b.arena) ==>
      && Holds(b.arena, nodeRows, nodes)
      && EdgesHold(b.arena, edgeRows, edges, IdsOf(nodes))
      && RefsHold(b.arena, refRows, refs, IdsOf(nodes))
  {
    hide Writable, WritableEdge, WritableRef, StillReads, Holds, EdgesHold, RefsHold, ReadMeta, Words;
    var a := new Arena();
    var t := new Tables();
    ghost var ids := IdsOf(nodes);
    PackNodes(a, t, nodes);
    ghost var b1 := a.buf;
    nodeRows := t.nodeRows;
    PackEdges(a, t, edges, ids);
    ghost var b2 := a.buf;
    edgeRows := t.edgeRows;
    PackRefs(a, t, refs, ids);
    refRows := t.refRows;
    var meta := BuildMeta(t, Wrap(|a.buf|), NO_STRING, duration);
    MetaRoundTrip(Meta(Wrap(t.nodeCount), Wrap(t.edgeCount), Wrap(t.refCount), Wrap(|a.buf|), NO_STRING, duration));
    b := EmitOut(meta, t.nodes, t.edges, t.refs, a.buf);
    if Fits(a.buf) {
      FitsBefore(b2, a.buf);
      FitsBefore(b1, b2);
      StillReadsTwice(b1, b2, a.buf);
      NodesHoldOn(b1, a.buf, nodeRows, nodes);
      EdgesHoldOn(b2, a.buf, edgeRows, edges, ids);
    }
  }

  predicate Countable(n: nat) { n < 0x1_0000_0000 }

  /**
   * Any nodes, edges and references, packed and decoded by the counts of the
   * meta block, come back in order, endpoints as the ids of their rows.
   */
  method FileThroughBuffers(nodes: seq<NodeValue>, edges: seq<NewEdge>, refs: seq<NewRef>, duration: (U32, U32))
    returns (b: EmitOut, d: Option<Decoded>)
    requires (forall v <- nodes :: Writable(v)) && (forall e <- edges :: WritableEdge(e)) && (forall r <- refs :: WritableRef(r))
    ensures d.Some?
    ensures Fits(b.arena) && Countable(|nodes|) && Countable(|edges|) && Countable(|refs|) ==>
              d == Some(Decoded(nodes, EdgesMeant(edges, IdsOf(nodes)), RefsMeant(refs, IdsOf(nodes))))
  {
    hide Writable, WritableEdge, WritableRef, Holds, EdgesHold, RefsHold, DecodeTable, ReadMeta, DecodeEdge, DecodeRef, Concat;
    ghost var nodeRows, edgeRows, refRows;
    b, nodeRows, edgeRows, refRows := PackFile(nodes, edges, refs, duration);
    d := DecodeBuffers(b, nodeRows, edgeRows, refRows);
    if Fits(b.arena) && Countable(|nodes|) && Countable(|edges|) && Countable(|refs|) {
      NodesBack(b, nodeRows, nodes, d.value.nodes);
      EdgesBack(b.arena, edgeRows, edges, IdsOf(nodes), d.value.edges);
      RefsBack(b.arena, refRows, refs, IdsOf(nodes), d.value.refs);
    }
  }

  lemma EdgesBack(arena: Text, rows: seq<EdgeRow>, edges: seq<NewEdge>, ids: Ids, decoded: seq<EdgeValue>)
    requires EdgesHold(arena, rows, edges, ids) && |decoded| == |rows|
    requires forall k :: 0 <= k < |rows| ==> decoded[k] == DecodeEdge(rows[k], arena, ids)
    ensures decoded == EdgesMeant(edges, ids)
  {
    hide EdgeWithin, DecodeEdge, EdgeMeant;
  }

  lemma RefsBack(arena: Text, rows: seq<RefRow>, refs: seq<NewRef>, ids: Ids, decoded: seq<RefValue>)
    requires RefsHold(arena, rows, refs, ids) && |decoded| == |rows|
    requires forall k :: 0 <= k < |rows| ==> decoded[k] == DecodeRef(rows[k], arena, ids)
    ensures decoded == RefsMeant(refs, ids)
  {
    hide RefWithin, DecodeRef, RefMeant;
  }

  lemma NodesBack(b: EmitOut, nodeRows: seq<NodeRow>, nodes: seq<NodeValue>, decoded: seq<NodeValue>)
    requires b.nodes == Concat(NodeTable(nodeRows)) && |nodeRows| * NODE_SIZE <= |b.nodes| && Holds(b.arena, nodeRows, nodes)
    requires decoded == DecodeTable(b.nodes, |nodeRows|, b.arena)
    ensures decoded == nodes
  {
    hide DecodeTable, NodeWithin, DecodeNode, Concat, NodeTable;
    TableRoundTrip(b.arena, nodeRows, nodes, |nodeRows|);
    assert nodes[..|nodeRows|] == nodes;
  }
}
