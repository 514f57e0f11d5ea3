// What a whole walk emits: the file's declarations in order, receivers' edges, synthesized members.

module ScopeTheorems {
  import opened Wrappers
  import opened ScopeWalk
  import opened ScopeForest
  import opened ScopeSteps
  import opened Seqs

  // ---------------------------------------------------------------- the whole file

  function Start(file: string): Out {
    Out([Row(File, file, 1, file)], [Id(File, file, 1)], [], [], [Scope(0, File, file)])
  }

  /** From the file row alone, any walk ends sound, back at the file scope, every row below row 0. */
  lemma WholeFile(file: string, items: seq<Item>, strict: bool)
    requires strict ==> Plain(items)
    ensures var g := EmitAll(Start(file), items);
            Sound(g, strict) && g.stack == Start(file).stack
  {
    hide RowOk;
    assert Sound(Start(file), strict);
    EmitAllSound(Start(file), items, strict);
  }

  // ---------------------------------------------------------------- every declaration, once, in order

  predicate Literal(items: seq<Item>)
    decreases items
  {
    items == [] || (LiteralItem(items[0]) && Literal(items[1..]))
  }

  /** Nothing is synthesized. */
  predicate LiteralItem(it: Item)
    decreases it
  {
    it.Decl? ==> it.synth.NoSynth? && Literal(it.inner)
  }

  /** The rows of the declarations in the order they are met, below `path`; a nameless one hides what it encloses. */
  function DeclaredRows(items: seq<Item>, path: string): seq<Row>
    decreases items
  {
    if items == [] then [] else RowsBy(items[0], path) + DeclaredRows(items[1..], path)
  }

  function RowsBy(it: Item, path: string): seq<Row>
    decreases it
  {
    if it.Mention? || it.name == "" then []
    else [RowBy(it, path)] + DeclaredRows(it.inner, Joined(path, it.name))
  }

  /** A method with a receiver is named after it, any other declaration after what encloses it. */
  function RowBy(it: Item, path: string): Row
    requires it.Decl?
  {
    var receiver := ReceiverOf(it);
    Row(it.declares, it.name, it.line, if receiver.Some? then receiver.value + "::" + it.name else Joined(path, it.name))
  }

  /** The receivers of the same declarations. */
  function Receivers(items: seq<Item>): seq<Option<string>>
    decreases items
  {
    if items == [] then [] else ReceiversBy(items[0]) + Receivers(items[1..])
  }

  function ReceiversBy(it: Item): seq<Option<string>>
    decreases it
  {
    if it.Mention? || it.name == "" then [] else [ReceiverOf(it)] + Receivers(it.inner)
  }

  function IdsOf(rows: seq<Row>): seq<Id> {
    seq(|rows|, k requires 0 <= k < |rows| => Id(rows[k].kind, rows[k].name, rows[k].line))
  }

  lemma IdsStep(a: seq<Row>, b: seq<Row>)
    ensures IdsOf(a + b) == IdsOf(a) + IdsOf(b) && IdsOf([]) == []
  {}

  lemma {:induction false} OneReceiverEach(items: seq<Item>, path: string)
    ensures |Receivers(items)| == |DeclaredRows(items, path)|
    decreases items
  {
    if items != [] {
      OneReceiverEach(items[1..], path);
      if items[0].Decl? {
        OneReceiverEach(items[0].inner, Joined(path, items[0].name));
      }
    }
  }

  /** The walk emits one row and one id per declaration, named by its receiver or its path, and no other. */
  lemma {:induction false} EmitsDeclared(w: Out, items: seq<Item>)
    requires Literal(items)
    ensures var rows := DeclaredRows(items, Path(w.stack));
            EmitAll(w, items).rows == w.rows + rows && EmitAll(w, items).ids == w.ids + IdsOf(rows)
    decreases items
  {
    hide EmitItem, RowsBy, Path;
    if items == [] {
      IdsStep([], []);
    } else {
      var next := EmitItem(w, items[0]);
      EmitsDeclaredItem(w, items[0]);
      EmitsDeclared(next, items[1..]);
      var a, b := RowsBy(items[0], Path(w.stack)), DeclaredRows(items[1..], Path(w.stack));
      ItemBalanced(w, items[0]);
      IdsStep(a, b);
      Regroup(w.rows, a, b);
      Regroup(w.ids, IdsOf(a), IdsOf(b));
    }
  }

  lemma ItemBalanced(w: Out, it: Item)
    ensures EmitItem(w, it).stack == w.stack
  {
    StackBalanced(w, [it]);
    EmitOne(w, it);
  }

  lemma {:induction false} EmitsDeclaredItem(w: Out, it: Item)
    requires LiteralItem(it)
    ensures var rows := RowsBy(it, Path(w.stack));
            EmitItem(w, it).rows == w.rows + rows && EmitItem(w, it).ids == w.ids + IdsOf(rows)
    decreases it
  {
    hide Created, Path, Joined;
    if it.Mention? || it.name == "" {
      IdsStep([], []);
    } else {
      var path, row := Path(w.stack), |w.rows|;
      var pushed := Push(UseAll(Created(w, it.declares, it.name, it.line, ReceiverOf(it)), row, it.uses), Scope(row, it.scope, it.name));
      CreatedNamed(w, it);
      PathPush(w.stack, Scope(row, it.scope, it.name));
      EmitsDeclared(pushed, it.inner);
      var a, b := [RowBy(it, path)], DeclaredRows(it.inner, Joined(path, it.name));
      IdsStep(a, b);
      assert IdsOf(a) == [Id(it.declares, it.name, it.line)];
      Regroup(w.rows, a, b);
      Regroup(w.ids, IdsOf(a), IdsOf(b));
    }
  }

  lemma CreatedNamed(w: Out, it: Item)
    requires it.Decl?
    ensures var g := Created(w, it.declares, it.name, it.line, ReceiverOf(it));
            && g.rows == w.rows + [RowBy(it, Path(w.stack))]
            && g.ids == w.ids + [Id(it.declares, it.name, it.line)]
            && g.stack == w.stack
  {
    hide Path, Joined, FirstOwner;
  }

  lemma PathPush(stack: seq<Scope>, s: Scope)
    requires !s.kind.File?
    ensures Path(stack + [s]) == Joined(Path(stack), s.name)
  {
    assert (stack + [s])[..|stack|] == stack;
  }

  // ---------------------------------------------------------------- the names in the forest

  /** From row `first` on, the rows are named as these receivers say. */
  ghost predicate AllNamed(g: Out, first: nat, receivers: seq<Option<string>>) {
    && first + |receivers| <= |g.rows|
    && forall k :: 0 <= k < |receivers| ==> Named(g, first + k, receivers[k])
  }

  lemma AllNamedStable(w: Out, g: Out, first: nat, receivers: seq<Option<string>>)
    requires AllNamed(w, first, receivers) && Grown(w, g)
    ensures AllNamed(g, first, receivers)
  {
    hide Named;
    forall k | 0 <= k < |receivers| ensures Named(g, first + k, receivers[k]) {
      NamedStable(w, g, first + k, receivers[k]);
    }
  }

  lemma AllNamedJoin(g: Out, first: nat, a: seq<Option<string>>, b: seq<Option<string>>)
    requires AllNamed(g, first, a) && AllNamed(g, first + |a|, b)
    ensures AllNamed(g, first, a + b)
  {
    hide Named;
    forall k | 0 <= k < |a + b| ensures Named(g, first + k, (a + b)[k]) {
      if k >= |a| {
        assert Named(g, first + |a| + (k - |a|), b[k - |a|]);
      }
    }
  }

  /** Every row a walk adds is named by the path of names above it, unless its declaration has a receiver. */
  lemma {:induction false} NamedByPath(w: Out, items: seq<Item>)
    requires Sound(w, false) && Literal(items)
    ensures AllNamed(EmitAll(w, items), |w.rows|, Receivers(items))
    decreases items
  {
    hide EmitItem, ReceiversBy, Sound, AllNamed, Path, DeclaredRows, RowsBy;
    if items == [] {
      NothingNamed(w);
    } else {
      var next, path := EmitItem(w, items[0]), Path(w.stack);
      NamedByPathItem(w, items[0]);
      EmitSound(w, items[0], false);
      EmitsDeclaredItem(w, items[0]);
      OneReceiverEachItem(items[0], path);
      NamedByPath(next, items[1..]);
      EmitAllSound(next, items[1..], false);
      var g := EmitAll(w, items);
      AllNamedStable(next, g, |w.rows|, ReceiversBy(items[0]));
      AllNamedJoin(g, |w.rows|, ReceiversBy(items[0]), Receivers(items[1..]));
    }
  }

  lemma NothingNamed(w: Out)
    ensures AllNamed(w, |w.rows|, [])
  {}

  lemma OneReceiverEachItem(it: Item, path: string)
    ensures |ReceiversBy(it)| == |RowsBy(it, path)|
  {
    if it.Decl? {
      OneReceiverEach(it.inner, Joined(path, it.name));
    }
  }

  lemma {:induction false} NamedByPathItem(w: Out, it: Item)
    requires Sound(w, false) && LiteralItem(it)
    ensures AllNamed(EmitItem(w, it), |w.rows|, ReceiversBy(it))
    decreases it
  {
    hide Created, Path, Sound, AllNamed, Named, Grown;
    if it.Mention? || it.name == "" {
      NothingNamed(EmitItem(w, it));
    } else {
      var row, receiver := |w.rows|, ReceiverOf(it);
      var made := Created(w, it.declares, it.name, it.line, receiver);
      var pushed := Push(UseAll(made, row, it.uses), Scope(row, it.scope, it.name));
      PushSound(w, it.declares, it.name, it.line, receiver, it.uses, it.scope, false);
      CreatedNamed(w, it);
      FirstNamed(w, it, pushed);
      NamedByPath(pushed, it.inner);
      EmitAllSound(pushed, it.inner, false);
      var full := EmitAll(pushed, it.inner);
      AllNamedStable(pushed, full, row, [receiver]);
      AllNamedJoin(full, row, [receiver], Receivers(it.inner));
      SameTables(full, EmitItem(w, it), row, ReceiversBy(it));
    }
  }

  lemma FirstNamed(w: Out, it: Item, pushed: Out)
    requires Sound(w, false) && it.Decl? && it.name != ""
    requires var made := Created(w, it.declares, it.name, it.line, ReceiverOf(it));
             pushed.rows == made.rows && pushed.edges == made.edges
    ensures AllNamed(pushed, |w.rows|, [ReceiverOf(it)])
  {
    hide Path, Created, Sources, NamePath;
    CreatedRowOk(w, it.declares, it.name, it.line, ReceiverOf(it), false);
    CreatedNamed(w, it);
  }

  lemma SameTables(w: Out, g: Out, first: nat, receivers: seq<Option<string>>)
    requires AllNamed(w, first, receivers) && g.rows == w.rows && g.edges == w.edges
    ensures AllNamed(g, first, receivers)
  {
    hide Sources, NamePath;
    forall k | 0 <= k < |receivers| ensures Named(g, first + k, receivers[k]) {
      assert Named(w, first + k, receivers[k]);
    }
  }

  // ---------------------------------------------------------------- a method and its receiver

  lemma {:induction false} MethodOwnsNothing(rows: seq<Row>, m: Row, name: string, i: nat)
    requires !CanOwn(m, name)
    ensures FirstOwner(rows + [m], name, i) == FirstOwner(rows, name, i)
    decreases |rows| - i
  {
    if i < |rows| {
      MethodOwnsNothing(rows, m, name, i + 1);
    }
  }

  /**
   * A method with a receiver, outside a type, is contained a second time by
   * the first earlier type of the receiver's name, and is named after it; it
   * has one containment edge exactly if no such type came before.
   */
  lemma ReceiverEdge(w: Out, it: Item)
    requires Sound(w, false) && it.Decl? && it.declares.Method? && it.receiver.Some? && it.name != ""
    ensures var g := EmitItem(w, it);
            var owner := FirstOwner(w.rows, it.receiver.value, 0);
            && |g.rows| > |w.rows| && g.rows[|w.rows|].qualified == it.receiver.value + "::" + it.name
            && Sources(g.edges, |w.rows|)
               == [TopRow(w.stack)] + if InsideClassLike(w.stack) || owner.None? then [] else [owner.value]
  {
    hide Sources, Path, Synthesize, RowOk, ScopeOk, FirstOwner;
    var row := |w.rows|;
    var made := Created(w, Method, it.name, it.line, it.receiver);
    CreatedSources(w, Method, it.name, it.line, it.receiver);
    CreatedKeepsStack(w, Method, it.name, it.line, it.receiver);
    MethodOwnsNothing(w.rows, made.rows[row], it.receiver.value, 0);
    PushSound(w, Method, it.name, it.line, it.receiver, it.uses, it.scope, false);
    var pushed := Push(UseAll(made, row, it.uses), Scope(row, it.scope, it.name));
    EmitAllSound(pushed, it.inner, false);
    var full := EmitAll(pushed, it.inner);
    SynthesizeSound(full, it.synth, row, false);
    var g := Synthesize(full, it.synth, row);
    GrownTwice(pushed, full, g);
    SourcesStable(pushed.edges, g.edges, row);
  }

  // ---------------------------------------------------------------- synthesized members

  /** Some wanted member has this name. */
  predicate IsWanted(wanted: seq<Wanted>, name: string) { exists k :: 0 <= k < |wanted| && wanted[k].name == name }

  /** The wanted members that are new, once each, in order. */
  function Fresh(wanted: seq<Wanted>, declared: set<string>): seq<Wanted>
    decreases |wanted|
  {
    if wanted == [] then []
    else
      var m := wanted[0];
      if m.name == "" || m.name in declared then Fresh(wanted[1..], declared)
      else [m] + Fresh(wanted[1..], declared + {m.name})
  }

  lemma WantedMore(m: Wanted, rest: seq<Wanted>, name: string)
    ensures IsWanted([m] + rest, name) <==> m.name == name || IsWanted(rest, name)
  {
    var all := [m] + rest;
    assert all[0] == m;
    if IsWanted(rest, name) {
      var k :| 0 <= k < |rest| && rest[k].name == name;
      assert all[k + 1] == rest[k];
    }
    if k :| 0 < k < |all| && all[k].name == name {
      assert rest[k - 1] == all[k];
    }
  }

  /** A name is made exactly if it is wanted, not empty and not declared. */
  lemma {:induction false} FreshNames(wanted: seq<Wanted>, declared: set<string>, name: string)
    ensures IsWanted(Fresh(wanted, declared), name) <==> name != "" && name !in declared && IsWanted(wanted, name)
    decreases |wanted|
  {
    hide IsWanted;
    if wanted == [] {
      NoneWanted(name);
    } else {
      var m := wanted[0];
      assert [m] + wanted[1..] == wanted;
      WantedMore(m, wanted[1..], name);
      if m.name == "" || m.name in declared {
        FreshNames(wanted[1..], declared, name);
      } else {
        FreshNames(wanted[1..], declared + {m.name}, name);
        WantedMore(m, Fresh(wanted[1..], declared + {m.name}), name);
      }
    }
  }

  lemma NoneWanted(name: string)
    ensures !IsWanted([], name)
  {}

  predicate OnceEach(made: seq<Wanted>) { forall j, k :: 0 <= j < k < |made| ==> made[j].name != made[k].name }

  /** Nothing is made twice. */
  lemma {:induction false} FreshOnce(wanted: seq<Wanted>, declared: set<string>)
    ensures OnceEach(Fresh(wanted, declared))
    decreases |wanted|
  {
    if wanted != [] {
      var m := wanted[0];
      if m.name == "" || m.name in declared {
        FreshOnce(wanted[1..], declared);
        assert Fresh(wanted, declared) == Fresh(wanted[1..], declared);
      } else {
        var rest := Fresh(wanted[1..], declared + {m.name});
        FreshOnce(wanted[1..], declared + {m.name});
        FreshNames(wanted[1..], declared + {m.name}, m.name);
        forall k | 0 <= k < |rest| ensures rest[k].name != m.name {
          assert rest[k].name == m.name ==> IsWanted(rest, m.name);
        }
        var f := Fresh(wanted, declared);
        assert f == [m] + rest;
        forall j, k | 0 <= j < k < |f| ensures f[j].name != f[k].name {
          assert f[k] == rest[k - 1] && (j > 0 ==> f[j] == rest[j - 1]);
        }
      }
    }
  }

  function MethodRows(made: seq<Wanted>, path: string): seq<Row> {
    seq(|made|, k requires 0 <= k < |made| => Row(Method, made[k].name, made[k].line, Joined(path, made[k].name)))
  }

  lemma MethodRowsStep(m: Wanted, rest: seq<Wanted>, path: string)
    ensures MethodRows([], path) == []
    ensures MethodRows([m], path) == [Row(Method, m.name, m.line, Joined(path, m.name))]
    ensures MethodRows([m] + rest, path) == MethodRows([m], path) + MethodRows(rest, path)
  {
    hide Joined;
  }

  lemma {:induction false} AddMethodsRows(w: Out, wanted: seq<Wanted>, declared: set<string>)
    ensures AddMethods(w, wanted, declared).rows == w.rows + MethodRows(Fresh(wanted, declared), Path(w.stack))
    decreases |wanted|
  {
    hide Path, MethodRows, Joined;
    if wanted == [] {
      MethodRowsStep(Wanted("", 0), [], Path(w.stack));
    } else {
      var m := wanted[0];
      if m.name == "" || m.name in declared {
        AddMethodsRows(w, wanted[1..], declared);
      } else {
        var made := CreateNode(w, Method, m.name, m.line, None);
        AddMethodsRows(made, wanted[1..], declared + {m.name});
        var rest := Fresh(wanted[1..], declared + {m.name});
        MethodRowsStep(m, rest, Path(w.stack));
        Regroup(w.rows, MethodRows([m], Path(w.stack)), MethodRows(rest, Path(w.stack)));
      }
    }
  }

  /** Inside the class `row`: its qualified name is the scope path. */
  lemma ClassPath(w: Out, row: nat)
    requires Sound(w, true) && row == TopRow(w.stack) && 0 < row
    ensures row < |w.rows| && w.rows[row].qualified == Path(w.stack) != ""
  {
    TopInRange(w);
    assert RowOk(w, row, true);
    PathIsNamePath(w, |w.stack|);
    assert w.stack[..|w.stack|] == w.stack;
    NamePathNonEmpty(w, row);
  }

  /**
   * Member synthesis makes a row for exactly the wanted methods the class did
   * not declare, once each; afterwards the class has every wanted method.
   */
  lemma SynthesisExact(w: Out, synth: Synth, row: nat)
    requires Sound(w, true) && synth.Synth? && row == TopRow(w.stack) && 0 < row
    ensures row < |w.rows|
    ensures var g := Synthesize(w, synth, row);
            var owner := w.rows[row].qualified;
            var made := Fresh(synth.methods, DeclaredMethods(w.rows, owner));
            && |w.rows| + |made| <= |g.rows| && g.rows[..|w.rows| + |made|] == w.rows + MethodRows(made, owner)
            && OnceEach(made)
            && (forall n :: IsWanted(made, n) <==> n != "" && IsWanted(synth.methods, n) && !HasMethod(w.rows, owner, n))
            && (forall n :: n != "" && IsWanted(synth.methods, n) ==> HasMethod(g.rows, owner, n))
            && (synth.log.Some? ==> HasField(g.rows, owner, "log"))
            && |g.rows| == |w.rows| + |made| + if synth.log.Some? && !HasField(w.rows, owner, "log") then 1 else 0
  {
    hide Sound, Path, Fresh, IsWanted, OnceEach, HasMethod, MethodRows;
    ClassPath(w, row);
    var owner := w.rows[row].qualified;
    var declared := DeclaredMethods(w.rows, owner);
    var made := Fresh(synth.methods, declared);
    AddMethodsRows(w, synth.methods, declared);
    AddMethodsKeepsStack(w, synth.methods, declared);
    MethodRowsSize(made, owner);
    FreshOnce(synth.methods, declared);
    var g := Synthesize(w, synth, row);
    forall n ensures n in declared <==> HasMethod(w.rows, owner, n) {
      DeclaredIsHas(w.rows, owner, n);
    }
    forall n ensures IsWanted(made, n) <==> n != "" && n !in declared && IsWanted(synth.methods, n) {
      FreshNames(synth.methods, declared, n);
    }
    forall n | n != "" && IsWanted(synth.methods, n) ensures HasMethod(g.rows, owner, n) {
      if n in declared {
        MethodStays(w.rows, g.rows, owner, n);
      } else {
        MadeIsThere(w.rows, made, g.rows, owner, n);
      }
    }
    LogIsThere(w, AddMethods(w, synth.methods, declared), synth, owner);
  }

  lemma MethodRowsSize(made: seq<Wanted>, path: string)
    ensures |MethodRows(made, path)| == |made|
  {}

  lemma MadeIsThere(rows: seq<Row>, made: seq<Wanted>, grown: seq<Row>, owner: string, name: string)
    requires owner != "" && rows + MethodRows(made, owner) <= grown && IsWanted(made, name)
    ensures HasMethod(grown, owner, name)
  {
    var k :| 0 <= k < |made| && made[k].name == name;
    var all := rows + MethodRows(made, owner);
    assert all[|rows| + k] == Row(Method, name, made[k].line, owner + "::" + name);
    assert grown[|rows| + k] == all[|rows| + k];
    assert IsMember(grown[|rows| + k], owner, name);
  }

  lemma LogIsThere(w: Out, made: Out, synth: Synth, owner: string)
    requires synth.Synth? && w.rows <= made.rows && Path(made.stack) == owner != ""
    ensures var g := if synth.log.Some? && !HasField(w.rows, owner, "log")
                     then CreateNode(made, Field, "log", synth.log.value, None) else made;
            synth.log.Some? ==> HasField(g.rows, owner, "log")
  {
    hide Path;
    if synth.log.Some? && HasField(w.rows, owner, "log") {
      FieldStays(w.rows, made.rows, owner, "log");
    } else if synth.log.Some? {
      var g := CreateNode(made, Field, "log", synth.log.value, None);
      assert g.rows[|made.rows|] == Row(Field, "log", synth.log.value, owner + "::" + "log");
      assert IsMember(g.rows[|made.rows|], owner, "log");
    }
  }

  lemma DeclaredIsHas(rows: seq<Row>, owner: string, name: string)
    ensures name in DeclaredMethods(rows, owner) <==> HasMethod(rows, owner, name)
  {}

  lemma MethodStays(rows: seq<Row>, grown: seq<Row>, owner: string, name: string)
    requires rows <= grown && HasMethod(rows, owner, name)
    ensures HasMethod(grown, owner, name)
  {
    var k :| 0 <= k < |rows| && (rows[k].kind.Method? || rows[k].kind.Function?) && IsMember(rows[k], owner, name);
    assert grown[k] == rows[k];
  }

  lemma FieldStays(rows: seq<Row>, grown: seq<Row>, owner: string, name: string)
    requires rows <= grown && HasField(rows, owner, name)
    ensures HasField(grown, owner, name)
  {
    var k :| 0 <= k < |rows| && (rows[k].kind.Field? || rows[k].kind.Variable? || rows[k].kind.Constant?)
      && IsMember(rows[k], owner, name);
    assert grown[k] == rows[k];
  }
}
