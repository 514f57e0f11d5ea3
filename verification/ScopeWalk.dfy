// The row tables every walker fills: rows, ids, containment edges, references and the scope stack.

module ScopeWalk {
  import opened Wrappers

  datatype Kind =
    | File | Namespace | Class | Struct | Interface | Trait | Enum | Module | EnumMember
    | Method | Function | Field | Constant | Variable | Import | TypeAlias

  type DeclKind = k: Kind | k != File witness Class

  datatype RefKind = Calls | Instantiates | References | Extends | Implements | Decorates | Imports

  // ---------------------------------------------------------------- what a walk builds

  datatype Id = Id(kind: Kind, name: string, line: nat)

  datatype Row = Row(kind: Kind, name: string, line: nat, qualified: string)

  datatype Edge = Edge(source: nat, target: nat)

  datatype Ref = Ref(from: nat, kind: RefKind, name: string)

  datatype Scope = Scope(row: nat, kind: Kind, name: string)

  datatype Out = Out(rows: seq<Row>, ids: seq<Id>, edges: seq<Edge>, refs: seq<Ref>, stack: seq<Scope>)

  function TopRow(stack: seq<Scope>): nat {
    if stack == [] then 0 else stack[|stack| - 1].row
  }

  predicate ClassLike(k: Kind) {
    k.Class? || k.Struct? || k.Interface? || k.Trait? || k.Enum? || k.Module?
  }

  predicate InsideClassLike(stack: seq<Scope>) {
    stack != [] && ClassLike(stack[|stack| - 1].kind)
  }

  /** The names of the scopes that are not files, joined. */
  function Path(stack: seq<Scope>): string {
    if stack == [] then ""
    else
      var s := stack[|stack| - 1];
      var outer := Path(stack[..|stack| - 1]);
      if s.kind.File? then outer else Joined(outer, s.name)
  }

  function Joined(outer: string, name: string): string {
    if outer == "" then name else outer + "::" + name
  }

  // ---------------------------------------------------------------- what a walk is given

  /** A member to synthesize, and the line of the node it is anchored at. */
  datatype Wanted = Wanted(name: string, line: nat)

  datatype Synth = NoSynth | Synth(methods: seq<Wanted>, log: Option<nat>)

  /** A file, stripped to its declarations and the references inside them. */
  datatype Item =
    | Mention(kind: RefKind, name: string)
    | Decl(declares: DeclKind, name: string, line: nat, scope: DeclKind, uses: seq<(RefKind, string)>,
           receiver: Option<string>, inner: seq<Item>, synth: Synth)

  // ---------------------------------------------------------------- the reference meaning of a walk

  function CreateNode(w: Out, kind: Kind, name: string, line: nat, receiver: Option<string>): Out {
    var qualified := if receiver.Some? then receiver.value + "::" + name else Joined(Path(w.stack), name);
    w.(rows := w.rows + [Row(kind, name, line, qualified)],
       ids := w.ids + [Id(kind, name, line)],
       edges := w.edges + [Edge(TopRow(w.stack), |w.rows|)])
  }

  predicate CanOwn(r: Row, name: string) {
    r.name == name && (r.kind.Struct? || r.kind.Class? || r.kind.Enum? || r.kind.Trait?)
  }

  /** The first of `rows[i..]` that can own a method of receiver `name`. */
  function FirstOwner(rows: seq<Row>, name: string, i: nat): (o: Option<nat>)
    ensures o.None? ==> forall j :: i <= j < |rows| ==> !CanOwn(rows[j], name)
    ensures o.Some? ==> i <= o.value < |rows| && CanOwn(rows[o.value], name)
                        && forall j :: i <= j < o.value ==> !CanOwn(rows[j], name)
    decreases |rows| - i
  {
    if i >= |rows| then None
    else if CanOwn(rows[i], name) then Some(i)
    else FirstOwner(rows, name, i + 1)
  }

  /** The second containment edge of a method declared outside its receiver. */
  function OwnMethod(w: Out, receiver: Option<string>, row: nat): Out {
    if receiver.None? || InsideClassLike(w.stack) then w
    else match FirstOwner(w.rows, receiver.value, 0)
      case None => w
      case Some(o) => w.(edges := w.edges + [Edge(o, row)])
  }

  /** createNode, with the edge from the receiver. */
  function Created(w: Out, kind: Kind, name: string, line: nat, receiver: Option<string>): Out {
    OwnMethod(CreateNode(w, kind, name, line, receiver), receiver, |w.rows|)
  }

  /** Only methods have receivers. */
  function ReceiverOf(it: Item): Option<string>
    requires it.Decl?
  {
    if it.declares.Method? then it.receiver else None
  }

  function UseAll(w: Out, row: nat, uses: seq<(RefKind, string)>): Out {
    w.(refs := w.refs + seq(|uses|, k requires 0 <= k < |uses| => Ref(row, uses[k].0, uses[k].1)))
  }

  function Push(w: Out, s: Scope): Out { w.(stack := w.stack + [s]) }

  function Restore(w: Out, stack: seq<Scope>): Out { w.(stack := stack) }

  predicate IsMember(r: Row, owner: string, name: string) {
    r.name == name && r.qualified == owner + "::" + name
  }

  /** The class already has a method of this name, whichever row declares it. */
  predicate HasMethod(rows: seq<Row>, owner: string, name: string) {
    exists k :: 0 <= k < |rows| && (rows[k].kind.Method? || rows[k].kind.Function?) && IsMember(rows[k], owner, name)
  }

  predicate HasField(rows: seq<Row>, owner: string, name: string) {
    exists k :: 0 <= k < |rows| && (rows[k].kind.Field? || rows[k].kind.Variable? || rows[k].kind.Constant?)
      && IsMember(rows[k], owner, name)
  }

  /** The wanted methods the class does not declare, each made once. */
  function AddMethods(w: Out, wanted: seq<Wanted>, declared: set<string>): Out
    decreases |wanted|
  {
    if wanted == [] then w
    else
      var m := wanted[0];
      if m.name == "" || m.name in declared then AddMethods(w, wanted[1..], declared)
      else AddMethods(CreateNode(w, Method, m.name, m.line, None), wanted[1..], declared + {m.name})
  }

  function DeclaredMethods(rows: seq<Row>, owner: string): set<string> {
    set k | 0 <= k < |rows| && (rows[k].kind.Method? || rows[k].kind.Function?) && IsMember(rows[k], owner, rows[k].name)
      :: rows[k].name
  }

  /** Member synthesis for the class `row`, whose scope is on top of the stack. */
  function Synthesize(w: Out, synth: Synth, row: nat): Out {
    if synth.NoSynth? || row >= |w.rows| then w
    else
      var owner := w.rows[row].qualified;
      var made := AddMethods(w, synth.methods, DeclaredMethods(w.rows, owner));
      if synth.log.Some? && !HasField(w.rows, owner, "log") then CreateNode(made, Field, "log", synth.log.value, None) else made
  }

  function EmitItem(w: Out, it: Item): Out
    decreases it
  {
    match it
    case Mention(kind, name) => w.(refs := w.refs + [Ref(TopRow(w.stack), kind, name)])
    case Decl(kind, name, line, scope, uses, _, inner, synth) =>
      if name == "" then w
      else
        var row := |w.rows|;
        var made := UseAll(Created(w, kind, name, line, ReceiverOf(it)), row, uses);
        var full := EmitAll(Push(made, Scope(row, scope, name)), inner);
        Restore(Synthesize(full, synth, row), w.stack)
  }

  function EmitAll(w: Out, items: seq<Item>): Out
    decreases items
  {
    if items == [] then w else EmitAll(EmitItem(w, items[0]), items[1..])
  }

  lemma {:induction false} EmitAppend(w: Out, a: seq<Item>, b: seq<Item>)
    ensures EmitAll(w, a + b) == EmitAll(EmitAll(w, a), b)
    decreases |a|
  {
    if a == [] {
      assert a + b == b;
    } else {
      assert (a + b)[1..] == a[1..] + b && (a + b)[0] == a[0];
      EmitAppend(EmitItem(w, a[0]), a[1..], b);
    }
  }

  lemma EmitOne(w: Out, it: Item)
    ensures EmitAll(w, [it]) == EmitItem(w, it)
  {
    assert [it][1..] == [];
  }

  // ---------------------------------------------------------------- the scope stack is balanced

  /** Every visit leaves the scope stack as it found it. */
  lemma {:induction false} StackBalanced(w: Out, items: seq<Item>)
    ensures EmitAll(w, items).stack == w.stack
    decreases |items|
  {
    if items != [] {
      StackBalanced(EmitItem(w, items[0]), items[1..]);
    }
  }

  lemma {:induction false} AddMethodsKeepsStack(w: Out, wanted: seq<Wanted>, declared: set<string>)
    ensures AddMethods(w, wanted, declared).stack == w.stack
    decreases |wanted|
  {
    if wanted != [] {
      var m := wanted[0];
      if m.name == "" || m.name in declared {
        AddMethodsKeepsStack(w, wanted[1..], declared);
      } else {
        AddMethodsKeepsStack(CreateNode(w, Method, m.name, m.line, None), wanted[1..], declared + {m.name});
      }
    }
  }
}
