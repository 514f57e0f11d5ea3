// What a walk adds to the tables: rows, containment edges and references, numbered from the rows before.

module ScopeFacts {
  import opened Wrappers
  import opened ScopeWalk
  import opened ScopeEmitter
  import opened ScopeTheorems
  import opened Seqs

  datatype Found = Found(rows: seq<Row>, edges: seq<Edge>, refs: seq<Ref>)

  const NOTHING := Found([], [], [])

  function Both(a: Found, b: Found): Found { Found(a.rows + b.rows, a.edges + b.edges, a.refs + b.refs) }

  /** The tables with the findings added, an id for every row. */
  function After(w: Out, f: Found): Out {
    w.(rows := w.rows + f.rows, ids := w.ids + IdsOf(f.rows), edges := w.edges + f.edges, refs := w.refs + f.refs)
  }

  lemma AfterBoth(w: Out, a: Found, b: Found)
    ensures After(w, Both(a, b)) == After(After(w, a), b)
  {
    IdsStep(a.rows, b.rows);
    Regroup(w.rows, a.rows, b.rows);
    Regroup(w.ids, IdsOf(a.rows), IdsOf(b.rows));
    Regroup(w.edges, a.edges, b.edges);
    Regroup(w.refs, a.refs, b.refs);
  }

  lemma AfterNothing(w: Out, f: Found)
    ensures After(w, NOTHING) == w
    ensures Both(NOTHING, f) == f && Both(f, NOTHING) == f
  {
    IdsStep([], []);
  }

  /** References out of row `from`; what has no name is not referred to. */
  function Refers(from: nat, says: seq<(RefKind, string)>): Found {
    if says == [] then NOTHING
    else if says[0].1 == "" then Refers(from, says[1..])
    else Both(Found([], [], [Ref(from, says[0].0, says[0].1)]), Refers(from, says[1..]))
  }

  /** One row below row `parent`, and what it refers to itself. */
  function Declares(kind: Kind, name: string, line: nat, qualified: string, parent: nat, row: nat, uses: seq<(RefKind, string)>): Found {
    Found([Row(kind, name, line, qualified)], [Edge(parent, row)],
          seq(|uses|, k requires 0 <= k < |uses| => Ref(row, uses[k].0, uses[k].1)))
  }

  lemma DeclaresRow(kind: Kind, name: string, line: nat, qualified: string, parent: nat, row: nat, uses: seq<(RefKind, string)>)
    ensures Declares(kind, name, line, qualified, parent, row, uses).rows == [Row(kind, name, line, qualified)]
  {}

  // ---------------------------------------------------------------- items that say the same

  function Sayings(says: seq<(RefKind, string)>): seq<Item> {
    if says == [] then [] else Mentioned(says[0].0, says[0].1) + Sayings(says[1..])
  }

  lemma {:induction false} SayingsExact(w: Out, says: seq<(RefKind, string)>)
    ensures EmitAll(w, Sayings(says)) == After(w, Refers(TopRow(w.stack), says))
    decreases |says|
  {
    hide EmitItem, TopRow;
    if says == [] {
      AfterNothing(w, NOTHING);
    } else {
      var first := Mentioned(says[0].0, says[0].1);
      EmitAppend(w, first, Sayings(says[1..]));
      SayingsExact(EmitAll(w, first), says[1..]);
      if says[0].1 == "" {
        assert first == [];
      } else {
        OneMention(w, says[0].0, says[0].1);
        AfterBoth(w, Found([], [], [Ref(TopRow(w.stack), says[0].0, says[0].1)]), Refers(TopRow(w.stack), says[1..]));
      }
    }
  }

  lemma OneMention(w: Out, kind: RefKind, name: string)
    ensures EmitAll(w, [Mention(kind, name)]) == After(w, Found([], [], [Ref(TopRow(w.stack), kind, name)]))
  {
    EmitOne(w, Mention(kind, name));
    IdsStep([], []);
  }

  lemma {:induction false} SaidAddsNoRows(from: nat, says: seq<(RefKind, string)>)
    ensures Refers(from, says).rows == [] && Refers(from, says).edges == []
    decreases |says|
  {
    if says != [] {
      SaidAddsNoRows(from, says[1..]);
    }
  }

  lemma LeafExact(w: Out, kind: DeclKind, name: string, line: nat)
    requires name != ""
    ensures EmitAll(w, [Leaf(kind, name, line)])
         == After(w, Declares(kind, name, line, Joined(Path(w.stack), name), TopRow(w.stack), |w.rows|, []))
  {
    hide Path, Joined, TopRow;
    LeafEmits(w, kind, name, line);
    assert IdsOf([Row(kind, name, line, Joined(Path(w.stack), name))]) == [Id(kind, name, line)];
  }

  /** The first type of this name among `rows[i..]`. */
  function FirstType(rows: seq<Row>, name: string, i: nat): Option<nat>
    decreases |rows| - i
  {
    if i >= |rows| then None
    else if rows[i].name == name && rows[i].kind in {Struct, Class, Enum, Trait} then Some(i)
    else FirstType(rows, name, i + 1)
  }

  /** A declaration with its receiver: named after it, and outside a type contained also in the first type of that name. */
  function Received(kind: Kind, name: string, line: nat, receiver: string, inClass: bool, parent: nat, rows: seq<Row>, uses: seq<(RefKind, string)>): Found {
    var made := Declares(kind, name, line, receiver + "::" + name, parent, |rows|, uses);
    var owner := FirstType(rows, receiver, 0);
    if inClass || owner.None? then made else made.(edges := made.edges + [Edge(owner.value, |rows|)])
  }

  /** The row, the edges and the references of a declaration met below row `parent` in the scope `path`. */
  function HeadFound(it: Item, inClass: bool, parent: nat, path: string, rows: seq<Row>): Found
    requires it.Decl?
  {
    if ReceiverOf(it).None? then Declares(it.declares, it.name, it.line, Joined(path, it.name), parent, |rows|, it.uses)
    else Received(it.declares, it.name, it.line, it.receiver.value, inClass, parent, rows, it.uses)
  }

  lemma {:induction false} FirstTypeOwns(rows: seq<Row>, name: string, i: nat)
    ensures FirstType(rows, name, i) == FirstOwner(rows, name, i)
    decreases |rows| - i
  {
    if i < |rows| {
      FirstTypeOwns(rows, name, i + 1);
    }
  }

  /** Opening a declaration: its findings are added, and its scope is on top. */
  lemma OpenedExact(w: Out, it: Item)
    requires it.Decl?
    ensures var made := HeadFound(it, InsideClassLike(w.stack), TopRow(w.stack), Path(w.stack), w.rows);
            && Opened(w, it) == Push(After(w, made), Scope(|w.rows|, it.scope, it.name))
            && |made.rows| == 1
            && Opened(w, it).rows == w.rows + made.rows
            && TopRow(Opened(w, it).stack) == |w.rows| && Path(Opened(w, it).stack) == Joined(Path(w.stack), it.name)
  {
    hide Path, Joined, FirstOwner, FirstType;
    CreatedNamed(w, it);
    PathPush(w.stack, Scope(|w.rows|, it.scope, it.name));
    assert IdsOf([RowBy(it, Path(w.stack))]) == [Id(it.declares, it.name, it.line)];
    var receiver := ReceiverOf(it);
    if receiver.Some? {
      MethodOwnsNothing(w.rows, RowBy(it, Path(w.stack)), receiver.value, 0);
      FirstTypeOwns(w.rows, receiver.value, 0);
      if FirstOwner(w.rows, receiver.value, 0).Some? && !InsideClassLike(w.stack) {
        Regroup(w.edges, [Edge(TopRow(w.stack), |w.rows|)], [Edge(FirstOwner(w.rows, receiver.value, 0).value, |w.rows|)]);
      }
    }
  }

  lemma PushedAfter(w: Out, s: Scope, f: Found)
    ensures Restore(After(Push(w, s), f), w.stack) == After(w, f)
    ensures After(Push(w, s), f).stack == w.stack + [s]
  {}

  /** A whole declaration: its head, what is found inside it, and the members made at its end. */
  lemma DeclExact(w: Out, it: Item, inner: Found, made: Found)
    requires it.Decl? && it.name != ""
    requires EmitAll(Opened(w, it), it.inner) == After(Opened(w, it), inner)
    requires Synthesize(After(Opened(w, it), inner), it.synth, |w.rows|) == After(After(Opened(w, it), inner), made)
    ensures EmitAll(w, [it]) == After(w, Both(HeadFound(it, InsideClassLike(w.stack), TopRow(w.stack), Path(w.stack), w.rows),
                                              Both(inner, made)))
  {
    hide Path, Joined, EmitAll, EmitItem, Synthesize, Opened, After, HeadFound, Both, ReceiverOf;
    OpenedExact(w, it);
    EmitOne(w, it);
    Closed(w, it, After(After(Opened(w, it), inner), made));
    var head := HeadFound(it, InsideClassLike(w.stack), TopRow(w.stack), Path(w.stack), w.rows);
    AllAfter(w, Scope(|w.rows|, it.scope, it.name), head, inner, made);
  }

  /** Findings below a pushed scope are findings after the one it was pushed for. */
  lemma AllAfter(w: Out, s: Scope, head: Found, inner: Found, made: Found)
    ensures Restore(After(After(Push(After(w, head), s), inner), made), w.stack) == After(w, Both(head, Both(inner, made)))
  {
    hide After, Both;
    AfterBoth(Push(After(w, head), s), inner, made);
    AfterBoth(w, head, Both(inner, made));
    PushedAfter(After(w, head), s, Both(inner, made));
    StackAfter(w, head);
  }

  lemma StackAfter(w: Out, f: Found)
    ensures After(w, f).stack == w.stack && After(w, f).rows == w.rows + f.rows
  {}

  // ---------------------------------------------------------------- members made at the end of a class

  function MemberEdges(parent: nat, row: nat, count: nat): seq<Edge> { seq(count, k requires 0 <= k < count => Edge(parent, row + k)) }

  /** The names of the methods that `rows` gives the class named `path`. */
  function MethodNames(rows: seq<Row>, path: string): set<string> {
    set r <- rows | r.kind in {Method, Function} && r.qualified == path + "::" + r.name :: r.name
  }

  predicate HasLog(rows: seq<Row>, path: string) {
    exists r <- rows :: r.kind in {Field, Variable, Constant} && r.name == "log" && r.qualified == path + "::log"
  }

  lemma SameMembers(rows: seq<Row>, path: string)
    ensures MethodNames(rows, path) == DeclaredMethods(rows, path)
    ensures HasLog(rows, path) <==> HasField(rows, path, "log")
  {
    forall name ensures name in MethodNames(rows, path) <==> name in DeclaredMethods(rows, path) {
      if name in MethodNames(rows, path) {
        var r :| r in rows && r.kind in {Method, Function} && r.qualified == path + "::" + r.name && r.name == name;
        var k :| 0 <= k < |rows| && rows[k] == r;
        assert IsMember(rows[k], path, rows[k].name);
      }
    }
    assert path + "::log" == path + "::" + "log";
    if HasLog(rows, path) {
      var r :| r in rows && r.kind in {Field, Variable, Constant} && r.name == "log" && r.qualified == path + "::log";
      var k :| 0 <= k < |rows| && rows[k] == r;
      assert IsMember(rows[k], path, "log");
    }
  }

  /** The wanted methods that `rows` does not already give the class named `path`, and its `log` field. */
  function Members(synth: Synth, path: string, parent: nat, rows: seq<Row>): Found {
    if synth.NoSynth? then NOTHING
    else
      var methods := MethodRows(Fresh(synth.methods, MethodNames(rows, path)), path);
      var log := if synth.log.Some? && !HasLog(rows, path)
                 then [Row(Field, "log", synth.log.value, Joined(path, "log"))] else [];
      Found(methods + log, MemberEdges(parent, |rows|, |methods + log|), [])
  }

  lemma {:induction false} AddMethodsExact(w: Out, wanted: seq<Wanted>, declared: set<string>)
    ensures var rows := MethodRows(Fresh(wanted, declared), Path(w.stack));
            AddMethods(w, wanted, declared) == After(w, Found(rows, MemberEdges(TopRow(w.stack), |w.rows|, |rows|), []))
    decreases |wanted|
  {
    hide Path, MethodRows, Joined, After, CreateNode;
    if wanted == [] {
      MethodRowsStep(Wanted("", 0), [], Path(w.stack));
      assert MemberEdges(TopRow(w.stack), |w.rows|, 0) == [];
      AfterNothing(w, NOTHING);
    } else {
      var m := wanted[0];
      if m.name == "" || m.name in declared {
        AddMethodsExact(w, wanted[1..], declared);
        assert Fresh(wanted, declared) == Fresh(wanted[1..], declared);
      } else {
        var made := CreateNode(w, Method, m.name, m.line, None);
        var rest := Fresh(wanted[1..], declared + {m.name});
        AddMethodsExact(made, wanted[1..], declared + {m.name});
        MethodRowsStep(m, rest, Path(w.stack));
        OneMember(w, m);
        var a, b := MethodRows([m], Path(w.stack)), MethodRows(rest, Path(w.stack));
        MemberEdgesStep(TopRow(w.stack), |w.rows|, |b|);
        AfterBoth(w, Found(a, MemberEdges(TopRow(w.stack), |w.rows|, 1), []), Found(b, MemberEdges(TopRow(w.stack), |w.rows| + 1, |b|), []));
        NoneMore();
      }
    }
  }

  lemma NoneMore()
    ensures NOTHING.refs + NOTHING.refs == []
  {}

  lemma OneMember(w: Out, m: Wanted)
    ensures var made := CreateNode(w, Method, m.name, m.line, None);
            && made == After(w, Found(MethodRows([m], Path(w.stack)), MemberEdges(TopRow(w.stack), |w.rows|, 1), []))
            && made.stack == w.stack && |made.rows| == |w.rows| + 1
  {
    hide Path, Joined;
    MethodRowsStep(m, [], Path(w.stack));
    assert MemberEdges(TopRow(w.stack), |w.rows|, 1) == [Edge(TopRow(w.stack), |w.rows|)];
    assert IdsOf(MethodRows([m], Path(w.stack))) == [Id(Method, m.name, m.line)];
  }

  lemma MemberEdgesStep(parent: nat, row: nat, count: nat)
    ensures MemberEdges(parent, row, 1 + count) == MemberEdges(parent, row, 1) + MemberEdges(parent, row + 1, count)
    ensures MemberEdges(parent, row, count + 1) == MemberEdges(parent, row, count) + [Edge(parent, row + count)]
  {}

  /** Member synthesis makes exactly these, when the class on top of the stack is named by the scope path. */
  lemma MembersExact(w: Out, synth: Synth, row: nat)
    requires row < |w.rows| && row == TopRow(w.stack) && w.rows[row].qualified == Path(w.stack)
    ensures Synthesize(w, synth, row) == After(w, Members(synth, Path(w.stack), row, w.rows))
  {
    hide Path, MethodRows, Joined, After, HasField, DeclaredMethods, HasLog, MethodNames;
    SameMembers(w.rows, Path(w.stack));
    if synth.NoSynth? {
      AfterNothing(w, NOTHING);
    } else {
      var path := Path(w.stack);
      var declared := DeclaredMethods(w.rows, path);
      var methods := MethodRows(Fresh(synth.methods, declared), path);
      AddMethodsExact(w, synth.methods, declared);
      var made := AddMethods(w, synth.methods, declared);
      AddMethodsKeepsStack(w, synth.methods, declared);
      var f := Found(methods, MemberEdges(row, |w.rows|, |methods|), []);
      StackAfter(w, f);
      if synth.log.Some? && !HasField(w.rows, path, "log") {
        var log := Row(Field, "log", synth.log.value, Joined(path, "log"));
        OneField(made, log);
        MemberEdgesStep(row, |w.rows|, |methods|);
        AfterBoth(w, f, Found([log], [Edge(row, |made.rows|)], []));
        NoneMore();
      } else {
        assert methods + [] == methods;
        assert Members(synth, path, row, w.rows) == Found(methods + [], MemberEdges(row, |w.rows|, |methods + []|), []);
      }
    }
  }

  lemma OneField(w: Out, log: Row)
    requires log == Row(Field, "log", log.line, Joined(Path(w.stack), "log"))
    ensures CreateNode(w, Field, "log", log.line, None) == After(w, Found([log], [Edge(TopRow(w.stack), |w.rows|)], []))
  {
    hide Path, Joined;
    assert IdsOf([log]) == [Id(Field, "log", log.line)];
  }
}
