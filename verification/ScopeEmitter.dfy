// The mutable tables of a walker and the operations every language shares.

module ScopeEmitter {
  import opened Wrappers
  import opened ScopeWalk
  import opened ScopeSteps

  class Emitter {
    var rows: seq<Row>
    var ids: seq<Id>
    var edges: seq<Edge>
    var refs: seq<Ref>
    var stack: seq<Scope>

    constructor (file: string)
      ensures State() == Out([Row(File, file, 1, file)], [Id(File, file, 1)], [], [], [Scope(0, File, file)])
    {
      rows, ids := [Row(File, file, 1, file)], [Id(File, file, 1)];
      edges, refs := [], [];
      stack := [Scope(0, File, file)];
    }

    ghost function State(): Out
      reads this
    {
      Out(rows, ids, edges, refs, stack)
    }

    /** The joined names of the scopes that are not files. */
    method ScopePath() returns (path: string)
      ensures path == Path(stack)
    {
      path := "";
      var k := 0;
      while k < |stack|
        invariant k <= |stack|
        invariant path == Path(stack[..k])
      {
        assert stack[..k + 1][..k] == stack[..k];
        if stack[k].kind != File {
          path := if path == "" then stack[k].name else path + "::" + stack[k].name;
        }
        k := k + 1;
      }
      assert stack[..k] == stack;
    }

    /** createNode: nothing for an empty name, else one row, its id and its containment edge. */
    method MakeNode(kind: Kind, name: string, line: nat, receiver: Option<string>) returns (row: Option<nat>)
      modifies this
      ensures name == "" ==> row == None && State() == old(State())
      ensures name != "" ==> row == Some(|old(rows)|) && State() == CreateNode(old(State()), kind, name, line, receiver)
    {
      if name == "" {
        return None;
      }
      var qualified: string;
      if receiver.Some? {
        qualified := receiver.value + "::" + name;
      } else {
        qualified := ScopePath();
        qualified := (if qualified == "" then "" else qualified + "::") + name;
        assert "" + name == name;
      }
      var parent := if stack == [] then 0 else stack[|stack| - 1].row;
      row := Some(|rows|);
      edges := edges + [Edge(parent, |rows|)];
      rows := rows + [Row(kind, name, line, qualified)];
      ids := ids + [Id(kind, name, line)];
    }

    /** The containment edge from the first row that can own the method. */
    method MakeOwnerEdge(receiver: string, row: nat)
      modifies this
      ensures State() == OwnMethod(old(State()), Some(receiver), row)
    {
      if InsideClassLike(stack) {
        return;
      }
      var k := 0;
      while k < |rows| && !CanOwn(rows[k], receiver)
        invariant k <= |rows|
        invariant FirstOwner(rows, receiver, 0) == FirstOwner(rows, receiver, k)
      {
        k := k + 1;
      }
      if k < |rows| {
        edges := edges + [Edge(k, row)];
      }
    }

    method PushRef(kind: RefKind, name: string)
      modifies this
      ensures State() == EmitItem(old(State()), Mention(kind, name))
    {
      refs := refs + [Ref(TopRow(stack), kind, name)];
    }

    /** The references a declaration makes itself: supertypes, annotations, types of its signature. */
    method PushUses(row: nat, uses: seq<(RefKind, string)>)
      modifies this
      ensures State() == UseAll(old(State()), row, uses)
    {
      var k := 0;
      while k < |uses|
        invariant k <= |uses|
        invariant State() == UseAll(old(State()), row, uses[..k])
      {
        refs := refs + [Ref(row, uses[k].0, uses[k].1)];
        k := k + 1;
      }
      assert uses[..k] == uses;
    }

    /** The rows a declaration opens: its own, its references, its scope. */
    method Open(it: Item) returns (entered: bool)
      requires it.Decl?
      modifies this
      ensures entered == (it.name != "")
      ensures State() == if entered then Opened(old(State()), it) else old(State())
    {
      var row := MakeNode(it.declares, it.name, it.line, ReceiverOf(it));
      entered := row.Some?;
      if entered {
        if ReceiverOf(it).Some? {
          MakeOwnerEdge(it.receiver.value, row.value);
        }
        PushUses(row.value, it.uses);
        stack := stack + [Scope(row.value, it.scope, it.name)];
      }
    }

    method Leave()
      requires stack != []
      modifies this`stack
      ensures State() == Restore(old(State()), old(stack)[..|old(stack)| - 1])
    {
      stack := stack[..|stack| - 1];
    }

    /** What the source already declares in `owner`, out of every row made so far. */
    method Taken(owner: string) returns (methods: set<string>, log: bool)
      ensures methods == DeclaredMethods(rows, owner) && log == HasField(rows, owner, "log")
    {
      methods, log := {}, false;
      var k := 0;
      while k < |rows|
        invariant k <= |rows|
        invariant methods == DeclaredMethods(rows[..k], owner)
        invariant log == HasField(rows[..k], owner, "log")
      {
        var m := rows[k];
        assert rows[..k + 1] == rows[..k] + [m];
        if m.qualified == owner + "::" + m.name {
          if m.kind.Method? || m.kind.Function? {
            methods := methods + {m.name};
          } else if (m.kind.Field? || m.kind.Variable? || m.kind.Constant?) && m.name == "log" {
            log := true;
          }
        }
        TakenStep(rows[..k], m, owner);
        k := k + 1;
      }
      assert rows[..k] == rows;
    }

    /** The members the annotations of the class on top of the stack ask for. */
    method MakeMembers(synth: Synth, row: nat)
      requires row < |rows|
      modifies this
      ensures State() == Synthesize(old(State()), synth, row)
    {
      if synth.NoSynth? {
        return;
      }
      var owner := rows[row].qualified;
      var taken, log := Taken(owner);
      ghost var w := State();
      ghost var declared := taken;
      var k := 0;
      while k < |synth.methods|
        invariant k <= |synth.methods|
        invariant AddMethods(w, synth.methods, declared) == AddMethods(State(), synth.methods[k..], taken)
      {
        assert synth.methods[k..][1..] == synth.methods[k + 1..];
        var m := synth.methods[k];
        if m.name != "" && m.name !in taken {
          taken := taken + {m.name};
          var _ := MakeNode(Method, m.name, m.line, None);
        }
        k := k + 1;
      }
      if synth.log.Some? && !log {
        var _ := MakeNode(Field, "log", synth.log.value, None);
      }
    }
  }

  function Opened(w: Out, it: Item): Out
    requires it.Decl?
  {
    Push(UseAll(Created(w, it.declares, it.name, it.line, ReceiverOf(it)), |w.rows|, it.uses),
         Scope(|w.rows|, it.scope, it.name))
  }

  lemma TakenStep(rows: seq<Row>, m: Row, owner: string)
    ensures DeclaredMethods(rows + [m], owner)
         == DeclaredMethods(rows, owner)
            + if (m.kind.Method? || m.kind.Function?) && m.qualified == owner + "::" + m.name then {m.name} else {}
    ensures HasField(rows + [m], owner, "log")
        <==> HasField(rows, owner, "log")
             || ((m.kind.Field? || m.kind.Variable? || m.kind.Constant?) && IsMember(m, owner, "log"))
  {
    var grown := rows + [m];
    assert grown[|rows|] == m;
    forall n | n in DeclaredMethods(rows, owner) ensures n in DeclaredMethods(grown, owner) {
      var k :| 0 <= k < |rows| && (rows[k].kind.Method? || rows[k].kind.Function?) && IsMember(rows[k], owner, rows[k].name) && rows[k].name == n;
      assert grown[k] == rows[k];
    }
    if HasField(rows, owner, "log") {
      var k :| 0 <= k < |rows| && (rows[k].kind.Field? || rows[k].kind.Variable? || rows[k].kind.Constant?) && IsMember(rows[k], owner, "log");
      assert grown[k] == rows[k];
    }
  }

  /** Walking the inside of an entered declaration and leaving it emits the declaration. */
  lemma Closed(w: Out, it: Item, full: Out)
    requires it.Decl? && it.name != ""
    requires full == Synthesize(EmitAll(Opened(w, it), it.inner), it.synth, |w.rows|)
    ensures full.stack == Opened(w, it).stack != [] && full.stack[..|full.stack| - 1] == w.stack
    ensures EmitItem(w, it) == Restore(full, w.stack)
  {
    var entered := Opened(w, it);
    var inside := EmitAll(entered, it.inner);
    StackBalanced(entered, it.inner);
    SynthKeepsStack(inside, it.synth, |w.rows|);
    CreatedKeepsStack(w, it.declares, it.name, it.line, ReceiverOf(it));
    assert entered.stack == w.stack + [Scope(|w.rows|, it.scope, it.name)];
  }

  lemma SynthKeepsStack(w: Out, synth: Synth, row: nat)
    ensures Synthesize(w, synth, row).stack == w.stack
  {
    if synth.Synth? && row < |w.rows| {
      AddMethodsKeepsStack(w, synth.methods, DeclaredMethods(w.rows, w.rows[row].qualified));
    }
  }

  // ---------------------------------------------------------------- building items

  function Leaf(kind: DeclKind, name: string, line: nat): Item {
    Decl(kind, name, line, kind, [], None, [], NoSynth)
  }

  /** One declaration, walked in a scope of its own kind. */
  function InScope(kind: DeclKind, name: string, line: nat, uses: seq<(RefKind, string)>, inner: seq<Item>): Item {
    Decl(kind, name, line, kind, uses, None, inner, NoSynth)
  }

  function Mentioned(kind: RefKind, name: string): seq<Item> {
    if name == "" then [] else [Mention(kind, name)]
  }

  // ---------------------------------------------------------------- walking items

  /** The unfinished part of a walk: `rest` is left to emit. */
  ghost predicate Left(whole: Out, now: Out, rest: seq<Item>) {
    whole == EmitAll(now, rest) && now.stack == whole.stack
  }

  lemma Step(whole: Out, was: Out, now: Out, first: seq<Item>, rest: seq<Item>)
    requires Left(whole, was, first + rest) && now == EmitAll(was, first)
    ensures Left(whole, now, rest)
  {
    EmitAppend(was, first, rest);
    StackBalanced(was, first);
  }

  lemma Sequenced(w: Out, mid: Out, a: seq<Item>, b: seq<Item>)
    requires mid == EmitAll(w, a)
    ensures EmitAll(w, a + b) == EmitAll(mid, b) && mid.stack == w.stack
  {
    EmitAppend(w, a, b);
    StackBalanced(w, a);
  }

  lemma LeafEmits(w: Out, kind: DeclKind, name: string, line: nat)
    ensures EmitAll(w, [Leaf(kind, name, line)]) == if name == "" then w else CreateNode(w, kind, name, line, None)
  {
    EmitOne(w, Leaf(kind, name, line));
    assert CreateNode(w, kind, name, line, None).refs + [] == w.refs;
  }

  lemma NamelessEmits(w: Out, it: Item)
    requires it.Decl? && it.name == ""
    ensures EmitAll(w, [it]) == w
  {
    EmitOne(w, it);
  }

  /** A declaration's inside has been walked: it only remains to leave its scope. */
  lemma ScopedEmits(w: Out, it: Item, full: Out)
    requires it.Decl? && it.name != "" && it.synth.NoSynth? && full == EmitAll(Opened(w, it), it.inner)
    ensures full.stack != [] && EmitAll(w, [it]) == Restore(full, full.stack[..|full.stack| - 1])
  {
    EmitOne(w, it);
    Closed(w, it, full);
  }

  method EmitMention(w: Emitter, kind: RefKind, name: string)
    modifies w
    ensures w.State() == EmitAll(old(w.State()), Mentioned(kind, name))
  {
    if name != "" {
      EmitOne(w.State(), Mention(kind, name));
      w.PushRef(kind, name);
    }
  }

  method EmitLeaf(w: Emitter, kind: DeclKind, name: string, line: nat)
    modifies w
    ensures w.State() == EmitAll(old(w.State()), [Leaf(kind, name, line)])
  {
    LeafEmits(w.State(), kind, name, line);
    var _ := w.MakeNode(kind, name, line, None);
  }

  /** An import's row and its reference; nothing for an empty path. */
  method EmitImport(w: Emitter, path: string, line: nat)
    modifies w
    ensures w.State() == EmitAll(old(w.State()), if path == "" then [] else [Leaf(Import, path, line), Mention(Imports, path)])
  {
    if path == "" {
      return;
    }
    ghost var was := w.State();
    EmitLeaf(w, Import, path, line);
    Sequenced(was, w.State(), [Leaf(Import, path, line)], [Mention(Imports, path)]);
    EmitOne(w.State(), Mention(Imports, path));
    w.PushRef(Imports, path);
  }
}
