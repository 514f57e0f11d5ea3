// Invariants of every walk: the containment forest, the qualified names, ranges and balance.

module ScopeForest {
  import opened Wrappers
  import opened ScopeWalk

  // ---------------------------------------------------------------- the forest in the edge table

  /** The sources of the containment edges into row `r`, in table order. */
  function Sources(edges: seq<Edge>, r: nat): seq<nat> {
    if edges == [] then []
    else
      var last := edges[|edges| - 1];
      Sources(edges[..|edges| - 1], r) + if last.target == r then [last.source] else []
  }

  lemma SourcesPush(edges: seq<Edge>, e: Edge, r: nat)
    ensures Sources(edges + [e], r) == Sources(edges, r) + if e.target == r then [e.source] else []
  {
    assert (edges + [e])[..|edges|] == edges;
  }

  lemma {:induction false} SourcesStable(edges: seq<Edge>, grown: seq<Edge>, r: nat)
    requires edges <= grown && forall k :: |edges| <= k < |grown| ==> grown[k].target != r
    ensures Sources(grown, r) == Sources(edges, r)
    decreases |grown|
  {
    if |grown| > |edges| {
      SourcesStable(edges, grown[..|grown| - 1], r);
    } else {
      assert grown == edges;
    }
  }

  lemma {:induction false} NoSources(edges: seq<Edge>, r: nat)
    requires forall k :: 0 <= k < |edges| ==> edges[k].target != r
    ensures Sources(edges, r) == []
  {
    if edges != [] {
      NoSources(edges[..|edges| - 1], r);
    }
  }

  /** The names from the file's child down to row `r`, along first containment edges. */
  function NamePath(rows: seq<Row>, edges: seq<Edge>, r: nat): string
    decreases r
  {
    if r >= |rows| then ""
    else
      var up := Sources(edges, r);
      if up == [] || up[0] == 0 || up[0] >= r then rows[r].name
      else NamePath(rows, edges, up[0]) + "::" + rows[r].name
  }

  lemma {:induction false} NamePathStable(w: Out, g: Out, r: nat)
    requires Grown(w, g) && r < |w.rows|
    ensures NamePath(g.rows, g.edges, r) == NamePath(w.rows, w.edges, r)
    decreases r
  {
    SourcesStable(w.edges, g.edges, r);
    var up := Sources(w.edges, r);
    if up != [] && 0 < up[0] < r {
      NamePathStable(w, g, up[0]);
    }
  }

  // ---------------------------------------------------------------- the invariant

  /** `w` grown to `g`: nothing old changed, and everything new hangs below the current scope. */
  ghost predicate Grown(w: Out, g: Out) {
    && w.rows <= g.rows && w.edges <= g.edges && w.refs <= g.refs
    && (forall k :: |w.edges| <= k < |g.edges| ==> g.edges[k].target >= |w.rows|)
  }

  /** Every new row is first contained in the current scope or another new row; so is every new reference. */
  ghost predicate Enclosed(w: Out, g: Out) {
    && (forall r :: |w.rows| <= r < |g.rows| ==> Below(w, FirstSource(g, r)))
    && (forall k :: |w.refs| <= k < |g.refs| ==> Below(w, g.refs[k].from))
  }

  predicate Below(w: Out, row: nat) { row == TopRow(w.stack) || row >= |w.rows| }

  function FirstSource(g: Out, r: nat): nat {
    var up := Sources(g.edges, r);
    if up == [] then 0 else up[0]
  }

  /** One containment edge from an earlier row, and for a receiver's method at most one more, from its owner. */
  ghost predicate Contained(rows: seq<Row>, edges: seq<Edge>, r: nat, strict: bool)
    requires r < |rows|
  {
    var up := Sources(edges, r);
    && 1 <= |up| <= (if strict then 1 else 2)
    && (forall k :: 0 <= k < |up| ==> up[k] < r)
    && (|up| == 2 ==> rows[r].kind.Method? && CanOwn(rows[up[1]], rows[up[1]].name)
                      && rows[r].qualified == rows[up[1]].name + "::" + rows[r].name)
  }

  ghost predicate RowOk(w: Out, r: nat, strict: bool)
    requires r < |w.rows|
  {
    && w.rows[r].kind != File && w.rows[r].name != ""
    && Contained(w.rows, w.edges, r, strict)
    && (strict ==> w.rows[r].qualified == NamePath(w.rows, w.edges, r))
  }

  /** A row without a receiver is contained once and named by the path above it; another is named by the receiver. */
  ghost predicate Named(g: Out, r: nat, receiver: Option<string>)
    requires r < |g.rows|
  {
    match receiver
    case None => |Sources(g.edges, r)| == 1 && g.rows[r].qualified == NamePath(g.rows, g.edges, r)
    case Some(type_) => g.rows[r].kind.Method? && g.rows[r].qualified == type_ + "::" + g.rows[r].name
  }

  /** The stack is a chain of first containment edges down from the file row. */
  ghost predicate Scoped(w: Out) {
    && w.stack != [] && w.stack[0].row == 0 && w.stack[0].kind.File?
    && forall k :: 0 < k < |w.stack| ==> ScopeOk(w, k)
  }

  ghost predicate ScopeOk(w: Out, k: nat)
    requires 0 < k < |w.stack|
  {
    var s := w.stack[k];
    && s.kind != File && 0 < s.row < |w.rows| && w.rows[s.row].name == s.name && s.name != ""
    && Sources(w.edges, s.row) != [] && Sources(w.edges, s.row)[0] == w.stack[k - 1].row < s.row
  }

  ghost predicate Tabled(w: Out) {
    && |w.rows| > 0 && w.rows[0].kind.File?
    && |w.ids| == |w.rows|
    && (forall r :: 0 <= r < |w.rows| ==> w.ids[r] == Id(w.rows[r].kind, w.rows[r].name, w.rows[r].line))
    && (forall k :: 0 <= k < |w.edges| ==> w.edges[k].source < w.edges[k].target < |w.rows|)
    && (forall k :: 0 <= k < |w.refs| ==> w.refs[k].from < |w.rows|)
  }

  /** With `strict`, no declaration carries a receiver. */
  ghost predicate Sound(w: Out, strict: bool) {
    && Tabled(w)
    && (forall r :: 0 < r < |w.rows| ==> RowOk(w, r, strict))
    && Scoped(w)
  }

  predicate Plain(items: seq<Item>)
    decreases items
  {
    items == [] || (PlainItem(items[0]) && Plain(items[1..]))
  }

  predicate PlainItem(it: Item)
    decreases it
  {
    it.Decl? ==> it.receiver.None? && Plain(it.inner)
  }

  // ---------------------------------------------------------------- paths

  lemma {:induction false} NamePathNonEmpty(w: Out, r: nat)
    requires r < |w.rows| && w.rows[r].name != ""
    ensures NamePath(w.rows, w.edges, r) != ""
  {}

  /** The scope path is the name path of the row on top. */
  lemma {:induction false} PathIsNamePath(w: Out, n: nat)
    requires Scoped(w) && 0 < n <= |w.stack|
    ensures Path(w.stack[..n]) == if n == 1 then "" else NamePath(w.rows, w.edges, w.stack[n - 1].row)
    decreases n
  {
    var s := w.stack[..n];
    assert s[..n - 1] == w.stack[..n - 1];
    if n == 1 {
      assert Path(s[..0]) == "";
    } else {
      PathIsNamePath(w, n - 1);
      assert ScopeOk(w, n - 1);
      if n > 2 {
        assert ScopeOk(w, n - 2);
        NamePathNonEmpty(w, w.stack[n - 2].row);
      }
    }
  }

  // ---------------------------------------------------------------- growth keeps what was there

  lemma RowOkStable(w: Out, g: Out, r: nat, strict: bool)
    requires Grown(w, g) && 0 < r < |w.rows| && RowOk(w, r, strict)
    ensures RowOk(g, r, strict)
  {
    SourcesStable(w.edges, g.edges, r);
    NamePathStable(w, g, r);
  }

  lemma NamedStable(w: Out, g: Out, r: nat, receiver: Option<string>)
    requires Grown(w, g) && r < |w.rows| && Named(w, r, receiver)
    ensures Named(g, r, receiver)
  {
    SourcesStable(w.edges, g.edges, r);
    NamePathStable(w, g, r);
  }

  /** Whatever was pushed and popped in between, the old stack fits the grown tables. */
  lemma ScopedStable(w: Out, g: Out)
    requires Grown(w, g) && Scoped(w) && g.stack == w.stack
    ensures Scoped(g)
  {
    forall k | 0 < k < |w.stack| ensures ScopeOk(g, k) {
      assert ScopeOk(w, k);
      SourcesStable(w.edges, g.edges, w.stack[k].row);
    }
  }

  lemma GrownTwice(w: Out, g: Out, h: Out)
    requires Grown(w, g) && Grown(g, h)
    ensures Grown(w, h)
  {
    forall k | |w.edges| <= k < |h.edges| ensures h.edges[k].target >= |w.rows| {
      if k < |g.edges| {
        assert h.edges[k] == g.edges[k];
      }
    }
  }

  /** Enclosure composes when the second walk starts in the scope of the first, or in a new row. */
  lemma EnclosedTwice(w: Out, g: Out, h: Out)
    requires Grown(w, g) && Grown(g, h) && Enclosed(w, g) && Enclosed(g, h) && Below(w, TopRow(g.stack))
    ensures Enclosed(w, h)
  {
    forall r | |w.rows| <= r < |h.rows| ensures Below(w, FirstSource(h, r)) {
      if r < |g.rows| {
        SourcesStable(g.edges, h.edges, r);
        assert Below(w, FirstSource(g, r));
      } else {
        assert Below(g, FirstSource(h, r));
      }
    }
    forall k | |w.refs| <= k < |h.refs| ensures Below(w, h.refs[k].from) {
      if k < |g.refs| {
        assert h.refs[k] == g.refs[k];
      } else {
        assert Below(g, h.refs[k].from);
      }
    }
  }

  // ---------------------------------------------------------------- single steps

  /** Two edges into a row that has none. */
  lemma SourcesOfNew(edges: seq<Edge>, r: nat, top: nat, owner: seq<nat>)
    requires forall k :: 0 <= k < |edges| ==> edges[k].target < r
    requires |owner| <= 1
    ensures Sources(edges + [Edge(top, r)] + OwnerEdge(owner, r), r) == [top] + owner
  {
    hide Sources;
    var one := edges + [Edge(top, r)];
    NoSources(edges, r);
    SourcesPush(edges, Edge(top, r), r);
    assert Sources(one, r) == [top];
    if owner == [] {
      assert one + [] == one && [top] + [] == [top];
    } else {
      SourcesPush(one, Edge(owner[0], r), r);
      assert [owner[0]] == owner;
    }
  }

  function OwnerEdge(owner: seq<nat>, r: nat): seq<Edge> {
    if owner == [] then [] else [Edge(owner[0], r)]
  }

  /** The sources of a new row, whatever its receiver. */
  lemma CreatedSources(w: Out, kind: Kind, name: string, line: nat, receiver: Option<string>)
    requires Tabled(w)
    ensures var g := Created(w, kind, name, line, receiver);
            Sources(g.edges, |w.rows|) == [TopRow(w.stack)] + OwnerRow(w, kind, name, line, receiver)
    ensures var g := Created(w, kind, name, line, receiver);
            Grown(w, g) && g.stack == w.stack && g.refs == w.refs
  {
    hide Path, Joined, FirstOwner, Sources;
    var row := |w.rows|;
    var made := CreateNode(w, kind, name, line, receiver);
    var owner := OwnerRow(w, kind, name, line, receiver);
    SourcesOfNew(w.edges, row, TopRow(w.stack), owner);
    assert Created(w, kind, name, line, receiver).edges == w.edges + [Edge(TopRow(w.stack), row)] + OwnerEdge(owner, row);
  }

  /** The owner's row: the first that can own a method of this receiver, unless the method stands in a type. */
  function OwnerRow(w: Out, kind: Kind, name: string, line: nat, receiver: Option<string>): seq<nat> {
    if receiver.None? || InsideClassLike(w.stack) then []
    else match FirstOwner(CreateNode(w, kind, name, line, receiver).rows, receiver.value, 0)
      case None => []
      case Some(o) => [o]
  }

  lemma TopInRange(w: Out)
    requires Tabled(w) && Scoped(w)
    ensures TopRow(w.stack) < |w.rows|
  {
    if |w.stack| > 1 {
      assert ScopeOk(w, |w.stack| - 1);
    }
  }

  /** A new row is well contained and named by its path, or by its receiver. */
  lemma CreatedRowOk(w: Out, kind: Kind, name: string, line: nat, receiver: Option<string>, strict: bool)
    requires Tabled(w) && Scoped(w) && name != "" && kind != File
    requires receiver.Some? ==> kind.Method? && !strict
    ensures var g := Created(w, kind, name, line, receiver);
            RowOk(g, |w.rows|, strict) && Named(g, |w.rows|, receiver)
  {
    hide Path, NamePath, FirstOwner, Sources;
    var row := |w.rows|;
    var g := Created(w, kind, name, line, receiver);
    CreatedSources(w, kind, name, line, receiver);
    TopInRange(w);
    var owner := OwnerRow(w, kind, name, line, receiver);
    if owner != [] {
      assert CanOwn(g.rows[owner[0]], receiver.value) && g.rows[row].kind.Method?;
    }
    if receiver.None? {
      PathIsNamePath(w, |w.stack|);
      assert w.stack[..|w.stack|] == w.stack;
      CreatedNamePath(w, g);
    }
  }

  lemma CreatedNamePath(w: Out, g: Out)
    requires Tabled(w) && Scoped(w) && Grown(w, g) && |g.rows| == |w.rows| + 1
    requires Sources(g.edges, |w.rows|) != [] && Sources(g.edges, |w.rows|)[0] == TopRow(w.stack)
    ensures NamePath(g.rows, g.edges, |w.rows|)
         == Joined(if |w.stack| == 1 then "" else NamePath(w.rows, w.edges, TopRow(w.stack)), g.rows[|w.rows|].name)
  {
    if |w.stack| > 1 {
      assert ScopeOk(w, |w.stack| - 1);
      NamePathStable(w, g, TopRow(w.stack));
      NamePathNonEmpty(w, TopRow(w.stack));
    }
  }

  lemma CreatedSound(w: Out, kind: Kind, name: string, line: nat, receiver: Option<string>, strict: bool)
    requires Sound(w, strict) && name != "" && kind != File
    requires receiver.Some? ==> kind.Method? && !strict
    ensures var g := Created(w, kind, name, line, receiver);
            Sound(g, strict) && Grown(w, g) && Enclosed(w, g)
  {
    hide Path, NamePath, FirstOwner, RowOk, Sources;
    var g := Created(w, kind, name, line, receiver);
    CreatedSources(w, kind, name, line, receiver);
    CreatedRowOk(w, kind, name, line, receiver, strict);
    TopInRange(w);
    forall r | 0 < r < |g.rows| ensures RowOk(g, r, strict) {
      if r < |w.rows| {
        RowOkStable(w, g, r, strict);
      }
    }
    ScopedStable(w, g);
  }
}
