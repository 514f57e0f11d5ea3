// Where each field stands in the buffers, byte by byte, little end first.

module BufferLayout {
  import opened Wrappers
  import opened Chars
  import opened WireBytes
  import opened Buffers
  import opened BufferDecode
  import opened BufferFile
  import opened BufferTables

  /** The four bytes from `at` on spell `x`. */
  predicate Word32(b: Text, at: nat, x: int) {
    at + 4 <= |b| && (b[at] as int) + 256 * (b[at + 1] as int) + 65536 * (b[at + 2] as int) + 16777216 * (b[at + 3] as int) == x
  }

  predicate Word16(b: Text, at: nat, x: int) { at + 2 <= |b| && (b[at] as int) + 256 * (b[at + 1] as int) == x }

  /** An offset and a length. */
  predicate String(b: Text, at: nat, r: StrRef) { Word32(b, at, r.0) && Word32(b, at + 4, r.1) }

  lemma StringGot(b: Text, at: nat)
    requires at + 8 <= |b|
    ensures String(b, at, GetStr(b, at))
  {}

  lemma NodeLayout(r: NodeRow)
    ensures var b := NodeBytes(r);
            && |b| == 96 && b[0] == r.kind && b[1] == r.visibility && Word16(b, 2, r.flags as int)
            && Word32(b, 4, r.startLine) && Word32(b, 8, r.endLine) && Word32(b, 12, r.startColumn) && Word32(b, 16, r.endColumn)
            && Word32(b, 92, 0)
    ensures var b := NodeBytes(r);
            && String(b, 20, r.name) && String(b, 28, r.qualifiedName) && String(b, 36, r.id)
            && String(b, 44, r.docstring) && String(b, 52, r.signature) && String(b, 60, r.decorators)
            && String(b, 68, r.typeParameters) && String(b, 76, r.returnType) && String(b, 84, r.extraJson)
  {
    hide NodeBytes, GetStr, Words;
    NodeNumbers(r);
    NodeRoundTrip(r);
    var b := NodeBytes(r);
    StringGot(b, 20);
    StringGot(b, 28);
    StringGot(b, 36);
    StringGot(b, 44);
    StringGot(b, 52);
    StringGot(b, 60);
    StringGot(b, 68);
    StringGot(b, 76);
    StringGot(b, 84);
  }

  lemma NodeNumbers(r: NodeRow)
    ensures var b := NodeBytes(r);
            && |b| == 96 && b[0] == r.kind && b[1] == r.visibility && Word16(b, 2, r.flags as int)
            && Word32(b, 4, r.startLine) && Word32(b, 8, r.endLine) && Word32(b, 12, r.startColumn) && Word32(b, 16, r.endColumn)
            && Word32(b, 92, 0)
  {
    hide Words;
    var ws := NodeWords(r);
    PackedAt(ws, 0, r.kind, r.visibility, r.flags as int);
    WordAt(ws, 1);
    WordAt(ws, 2);
    WordAt(ws, 3);
    WordAt(ws, 4);
    WordAt(ws, 23);
  }

  lemma EdgeLayout(r: EdgeRow)
    ensures var b := EdgeBytes(r);
            && |b| == 44 && Word32(b, 0, r.source) && Word32(b, 4, r.target) && b[8] == r.kind && b[9] == r.provenance
            && Word32(b, 12, r.line) && Word32(b, 16, r.column)
            && String(b, 20, r.metadata) && String(b, 28, r.sourceId) && String(b, 36, r.targetId)
  {
    hide EdgeBytes, Words;
    EdgeRoundTrip(r);
  }

  lemma RefLayout(r: RefRow)
    ensures var b := RefBytes(r);
            && |b| == 40 && Word32(b, 0, r.from) && b[4] == r.kind && b[5] == r.flags
            && Word32(b, 8, r.line) && Word32(b, 12, r.column)
            && String(b, 16, r.name) && String(b, 24, r.candidates) && String(b, 32, r.fromId)
  {
    hide RefBytes, Words;
    RefRoundTrip(r);
  }

  lemma MetaLayout(m: Meta)
    ensures var b := Words(MetaWords(m));
            && |b| == 36 && b[0] == 2 && Word32(b, 4, m.nodeCount) && Word32(b, 8, m.edgeCount) && Word32(b, 12, m.refCount)
            && Word32(b, 16, m.arenaLen) && String(b, 20, m.errors)
  {
    hide Words;
    MetaRoundTrip(m);
  }

  /** The pairs of exported, async, static and abstract: given in the even bits, true in the odd ones. */
  lemma FlagLayout(v: NodeValue)
    ensures FlagsOf(v) as int
         == Pair(v.isExported) + 4 * Pair(v.isAsync) + 16 * Pair(v.isStatic) + 64 * Pair(v.isAbstract)
  {}

  function Pair(x: Option<bool>): int { if x.None? then 0 else if x.value then 3 else 1 }

  /** What is absent: an offset, an index, a line or a column of all ones, and a string of no length. */
  lemma AbsentLayout(e: NewEdge, v: RefRow)
    ensures NO_STRING == (4294967295, 0)
    ensures e.line.None? ==> OrNone(e.line) == 4294967295
    ensures e.source.Spelled? ==> IndexOf(e.source) == 4294967295
    ensures DecodeRef(v, [], []).withFilePath <==> v.flags % 2 == 1
    ensures FLAG_FILE_PATH == 1
  {}
}
