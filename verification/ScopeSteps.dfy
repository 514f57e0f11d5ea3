// Every step of every walk keeps the invariants, and a walk emits exactly the file's declarations.

module ScopeSteps {
  import opened Wrappers
  import opened ScopeWalk
  import opened ScopeForest

  // ---------------------------------------------------------------- references

  lemma RefsSound(w: Out, g: Out, strict: bool)
    requires Sound(w, strict) && w.refs <= g.refs && g == w.(refs := g.refs)
    requires forall k :: |w.refs| <= k < |g.refs| ==> g.refs[k].from < |w.rows|
    ensures Sound(g, strict)
  {
    hide RowOk, Sources, Path, ScopeOk;
    forall r | 0 < r < |g.rows| ensures RowOk(g, r, strict) {
      RowOkStable(w, g, r, strict);
    }
    ScopedStable(w, g);
  }

  // ---------------------------------------------------------------- synthesized members

  lemma {:induction false} AddMethodsSound(w: Out, wanted: seq<Wanted>, declared: set<string>, strict: bool)
    requires Sound(w, strict)
    ensures var g := AddMethods(w, wanted, declared);
            Sound(g, strict) && Grown(w, g) && Enclosed(w, g) && g.stack == w.stack
    decreases |wanted|
  {
    hide Sound, Sources, Path, CreateNode;
    if wanted != [] {
      var m := wanted[0];
      if m.name == "" || m.name in declared {
        AddMethodsSound(w, wanted[1..], declared, strict);
      } else {
        var made := Created(w, Method, m.name, m.line, None);
        CreatedSound(w, Method, m.name, m.line, None, strict);
        CreatedKeepsStack(w, Method, m.name, m.line, None);
        AddMethodsSound(made, wanted[1..], declared + {m.name}, strict);
        var g := AddMethods(made, wanted[1..], declared + {m.name});
        GrownTwice(w, made, g);
        EnclosedTwice(w, made, g);
      }
    }
  }

  lemma CreatedKeepsStack(w: Out, kind: Kind, name: string, line: nat, receiver: Option<string>)
    ensures Created(w, kind, name, line, receiver).stack == w.stack
    ensures Created(w, kind, name, line, None) == CreateNode(w, kind, name, line, None)
  {
    hide Path, FirstOwner;
  }

  lemma SynthesizeSound(w: Out, synth: Synth, row: nat, strict: bool)
    requires Sound(w, strict)
    ensures var g := Synthesize(w, synth, row);
            Sound(g, strict) && Grown(w, g) && Enclosed(w, g) && g.stack == w.stack
  {
    hide Sound, Sources, Path, CreateNode, AddMethods, HasField, DeclaredMethods;
    if synth.Synth? && row < |w.rows| {
      var owner := w.rows[row].qualified;
      var declared := DeclaredMethods(w.rows, owner);
      AddMethodsSound(w, synth.methods, declared, strict);
      var made := AddMethods(w, synth.methods, declared);
      if synth.log.Some? && !HasField(w.rows, owner, "log") {
        CreatedSound(made, Field, "log", synth.log.value, None, strict);
        CreatedKeepsStack(made, Field, "log", synth.log.value, None);
        var g := Created(made, Field, "log", synth.log.value, None);
        GrownTwice(w, made, g);
        EnclosedTwice(w, made, g);
      }
    }
  }

  // ---------------------------------------------------------------- declarations

  /** Entering a scope right below the current one. */
  lemma ScopeSound(w: Out, s: Scope, strict: bool)
    requires Sound(w, strict) && s.kind != File && 0 < s.row < |w.rows| && s.name == w.rows[s.row].name != ""
    requires Sources(w.edges, s.row) != [] && Sources(w.edges, s.row)[0] == TopRow(w.stack) < s.row
    ensures Sound(Push(w, s), strict)
  {
    hide RowOk, Sources;
    var g := Push(w, s);
    forall k | 0 < k < |g.stack| ensures ScopeOk(g, k) {
      if k < |w.stack| {
        assert ScopeOk(w, k);
      }
    }
    forall r | 0 < r < |g.rows| ensures RowOk(g, r, strict) {
      RowOkStable(w, g, r, strict);
    }
  }

  /** A new row, its references, and its scope. */
  lemma PushSound(w: Out, kind: Kind, name: string, line: nat, receiver: Option<string>,
                  uses: seq<(RefKind, string)>, scope: DeclKind, strict: bool)
    requires Sound(w, strict) && name != "" && kind != File
    requires receiver.Some? ==> kind.Method? && !strict
    ensures var g := Push(UseAll(Created(w, kind, name, line, receiver), |w.rows|, uses), Scope(|w.rows|, scope, name));
            && Sound(g, strict) && Grown(w, g) && Enclosed(w, g) && TopRow(g.stack) == |w.rows|
            && g.stack == w.stack + [Scope(|w.rows|, scope, name)]
  {
    hide RowOk, Path, Sources, Scoped;
    var row := |w.rows|;
    var made := Created(w, kind, name, line, receiver);
    CreatedSound(w, kind, name, line, receiver, strict);
    CreatedKeepsStack(w, kind, name, line, receiver);
    CreatedSources(w, kind, name, line, receiver);
    CreatedRow(w, kind, name, line, receiver);
    TopInRange(w);
    hide Created, OwnerRow;
    var used := UseAll(made, row, uses);
    RefsSound(made, used, strict);
    ScopeSound(used, Scope(row, scope, name), strict);
  }

  lemma CreatedRow(w: Out, kind: Kind, name: string, line: nat, receiver: Option<string>)
    ensures var g := Created(w, kind, name, line, receiver);
            |g.rows| == |w.rows| + 1 && g.rows[|w.rows|].name == name
            && |g.ids| == |w.ids| + 1 && g.ids == w.ids + [Id(kind, name, line)] && g.refs == w.refs
  {
    hide Path, FirstOwner;
  }

  /** Leaving it: the old stack fits the grown tables. */
  lemma RestoreSound(w: Out, g: Out, strict: bool)
    requires Sound(w, strict) && Sound(g, strict) && Grown(w, g)
    ensures Sound(Restore(g, w.stack), strict)
  {
    hide RowOk, Path, Sources;
    var h := Restore(g, w.stack);
    ScopedStable(w, h);
    forall r | 0 < r < |h.rows| ensures RowOk(h, r, strict) {
      RowOkStable(g, h, r, strict);
    }
  }

  /** Every walk, of any file and from any sound state, keeps every invariant. */
  lemma {:induction false} EmitSound(w: Out, it: Item, strict: bool)
    requires Sound(w, strict) && (strict ==> PlainItem(it))
    ensures var g := EmitItem(w, it);
            Sound(g, strict) && Grown(w, g) && Enclosed(w, g) && g.stack == w.stack
    decreases it
  {
    hide RowOk, ScopeOk, Path, Sources, Created, CreateNode, Synthesize;
    match it
    case Mention(kind, name) =>
      TopInRange(w);
      RefsSound(w, EmitItem(w, it), strict);
    case Decl(kind, name, line, scope, uses, _, inner, synth) =>
      if name != "" {
        var row := |w.rows|;
        var receiver := ReceiverOf(it);
        PushSound(w, kind, name, line, receiver, uses, scope, strict);
        var pushed := Push(UseAll(Created(w, kind, name, line, receiver), row, uses), Scope(row, scope, name));
        EmitAllSound(pushed, inner, strict);
        var full := EmitAll(pushed, inner);
        SynthesizeSound(full, synth, row, strict);
        var g := Synthesize(full, synth, row);
        hide Sound, Grown, Enclosed;
        TripleGrowth(w, pushed, full, g);
        RestoreSound(w, g, strict);
        RestoreGrown(w, g);
      }
  }

  lemma RestoreGrown(w: Out, g: Out)
    requires Grown(w, g) && Enclosed(w, g)
    ensures Grown(w, Restore(g, w.stack)) && Enclosed(w, Restore(g, w.stack))
  {
    var h := Restore(g, w.stack);
    forall r | |w.rows| <= r < |h.rows| ensures Below(w, FirstSource(h, r)) {
      assert Below(w, FirstSource(g, r));
    }
  }

  lemma TripleGrowth(w: Out, a: Out, b: Out, c: Out)
    requires Grown(w, a) && Grown(a, b) && Grown(b, c) && Enclosed(w, a) && Enclosed(a, b) && Enclosed(b, c)
    requires TopRow(a.stack) >= |w.rows| && b.stack == a.stack
    ensures Grown(w, c) && Enclosed(w, c)
  {
    hide Sources;
    GrownTwice(w, a, b);
    EnclosedTwice(w, a, b);
    GrownTwice(w, b, c);
    EnclosedTwice(w, b, c);
  }

  lemma {:induction false} EmitAllSound(w: Out, items: seq<Item>, strict: bool)
    requires Sound(w, strict) && (strict ==> Plain(items))
    ensures var g := EmitAll(w, items);
            Sound(g, strict) && Grown(w, g) && Enclosed(w, g) && g.stack == w.stack
    decreases items
  {
    hide Sound, RowOk, ScopeOk, Path, Sources, EmitItem;
    if items != [] {
      EmitSound(w, items[0], strict);
      var made := EmitItem(w, items[0]);
      EmitAllSound(made, items[1..], strict);
      var g := EmitAll(made, items[1..]);
      GrownTwice(w, made, g);
      EnclosedTwice(w, made, g);
    }
  }
}
