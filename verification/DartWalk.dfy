// The Dart double walk: a body is the next sibling of its signature and is walked
// once for the signature and once more by the enclosing walk.

module DartWalk {
  import opened ScopeWalk

  // ---------------------------------------------------------------- the syntax tree

  datatype SyntaxKind =
    | FunctionSignature(name: string, line: nat, unnamedCtor: bool)
    | MethodSignature(name: string, line: nat, unnamedCtor: bool)
    | FunctionBody
    | ClassDefinition(name: string, line: nat)                 // mixins and extensions too; children: those of the resolved body
    | EnumDeclaration(name: string, line: nat, hasBody: bool)  // children: those of the resolved body
    | EnumConstant(name: string, line: nat)                    // empty where the tree has no name
    | StaticFinal(name: string, line: nat)                     // static_final_declaration
    | AliasDeclaration(name: string, line: nat)                // type_alias
    | ImportOrExport(target: string, line: nat)                // the unquoted uri, empty where there is none
    | Call(callee: string)                                     // a node whose bare callee name resolves
    | New(className: string)
    | StaticMember(receiver: string, at: nat)                  // a selector without arguments after the capitalised name at `at`
    | Plain

  datatype Node = Node(kind: SyntaxKind, pos: nat, children: seq<Node>)

  function NodeSize(n: Node): nat
    decreases n, 0
  {
    1 + ListSize(n.children, 0)
  }

  /** Nodes in `ns[i..]` and below. */
  function ListSize(ns: seq<Node>, i: nat): nat
    decreases ns, |ns| - i
  {
    if i >= |ns| then 0 else NodeSize(ns[i]) + ListSize(ns, i + 1)
  }

  lemma {:induction false} SuffixSmaller(ns: seq<Node>, i: nat, j: nat)
    requires i <= j
    ensures ListSize(ns, j) <= ListSize(ns, i)
    decreases j - i
  {
    if i < j {
      SuffixSmaller(ns, i + 1, j);
    }
  }

  /** The children of a node, from any point on, are smaller than the list from that node on. */
  lemma SizeBelow(ns: seq<Node>, i: nat, j: nat)
    requires i < |ns|
    ensures ListSize(ns[i].children, j) < ListSize(ns, i)
  {
    SuffixSmaller(ns[i].children, 0, j);
  }

  lemma SizeShrinks(ns: seq<Node>, i: nat)
    requires i < |ns|
    ensures ListSize(ns, i + 1) < ListSize(ns, i)
  {}

  // ---------------------------------------------------------------- what a walk builds

  /** Rows and references, each with the position of the node it was made for. */
  datatype NodeRow = NodeRow(id: Id, qualified: string, pos: nat)

  datatype RefRow = RefRow(from: nat, kind: RefKind, name: string, pos: nat)

  datatype Tables = Tables(rows: seq<NodeRow>, edges: seq<Edge>, refs: seq<RefRow>, stack: seq<Scope>)

  /** createNode: one row and its containment edge, or nothing for an empty name. */
  function AddRow(w: Tables, kind: DeclKind, name: string, line: nat, pos: nat): Tables {
    if name == "" then w
    else
      w.(rows := w.rows + [NodeRow(Id(kind, name, line), Joined(Path(w.stack), name), pos)],
         edges := w.edges + [Edge(TopRow(w.stack), |w.rows|)])
  }

  function AddRef(w: Tables, kind: RefKind, name: string, pos: nat): Tables {
    w.(refs := w.refs + [RefRow(TopRow(w.stack), kind, name, pos)])
  }

  function Enter(w: Tables, kind: DeclKind, name: string, row: nat): Tables {
    w.(stack := w.stack + [Scope(row, kind, name)])
  }

  function Back(w: Tables, stack: seq<Scope>): Tables { w.(stack := stack) }

  /** An import: its row, and a reference to the module from the enclosing scope. */
  function AddImport(w: Tables, target: string, line: nat, pos: nat): Tables {
    if target == "" then w
    else
      var made := AddRow(w, Import, target, line, pos);
      if w.stack == [] then made else AddRef(made, Imports, target, pos)
  }

  function AddAlias(w: Tables, name: string, line: nat, pos: nat): Tables {
    if name == "<anonymous>" then w else AddRow(w, TypeAlias, name, line, pos)
  }

  /** resolveBody: the sibling right after a signature, if it is a function body. */
  predicate HasBody(ns: seq<Node>, i: nat) {
    i + 1 < |ns| && ns[i + 1].kind.FunctionBody?
  }

  predicate IsSignature(k: SyntaxKind) { k.FunctionSignature? || k.MethodSignature? }

  // ---------------------------------------------------------------- the walk as a function of the state

  /** visitFunctionBody on the node `ns[i]`. */
  function VisitBody(w: Tables, ns: seq<Node>, i: nat): Tables
    requires i < |ns|
    decreases ListSize(ns, i), 3
  {
    SizeBelow(ns, i, 0);
    var n := ns[i];
    match n.kind
    case New(c) => BodyAll(if w.stack == [] || c == "" then w else AddRef(w, Instantiates, c, n.pos), n.children, 0)
    case Call(c) => BodyAll(if w.stack == [] then w else AddRef(w, Calls, c, n.pos), n.children, 0)
    case StaticMember(c, at) => BodyAll(if w.stack == [] then w else AddRef(w, References, c, at), n.children, 0)
    case FunctionSignature(_, _, _) => ExtractFunction(w, ns, i)
    case _ => BodyAll(w, n.children, 0)
  }

  function BodyAll(w: Tables, ns: seq<Node>, i: nat): Tables
    decreases ListSize(ns, i), 4
  {
    if i >= |ns| then w else SizeShrinks(ns, i); BodyAll(VisitBody(w, ns, i), ns, i + 1)
  }

  /** The body of the signature `ns[i]`, walked from inside the current scope. */
  function WalkBody(w: Tables, ns: seq<Node>, i: nat): Tables
    requires i < |ns|
    decreases ListSize(ns, i), 0
  {
    SizeShrinks(ns, i);
    if HasBody(ns, i) then VisitBody(w, ns, i + 1) else w
  }

  function Declare(w: Tables, ns: seq<Node>, i: nat, kind: DeclKind): Tables
    requires i < |ns| && IsSignature(ns[i].kind)
    decreases ListSize(ns, i), 1
  {
    var k := ns[i].kind;
    if k.name == "" then w
    else
      var row := |w.rows|;
      var made := AddRow(w, kind, k.name, k.line, ns[i].pos);
      Back(WalkBody(Enter(made, kind, k.name, row), ns, i), w.stack)
  }

  function ExtractFunction(w: Tables, ns: seq<Node>, i: nat): Tables
    requires i < |ns| && IsSignature(ns[i].kind)
    decreases ListSize(ns, i), 2
  {
    var k := ns[i].kind;
    if k.name == "<anonymous>" || k.unnamedCtor then WalkBody(w, ns, i)
    else Declare(w, ns, i, Function)
  }

  function ExtractMethod(w: Tables, ns: seq<Node>, i: nat): Tables
    requires i < |ns| && IsSignature(ns[i].kind)
    decreases ListSize(ns, i), 3
  {
    if !InsideClassLike(w.stack) then ExtractFunction(w, ns, i)
    else if ns[i].kind.unnamedCtor then WalkBody(w, ns, i)
    else Declare(w, ns, i, Method)
  }

  /** visitNode on the node `ns[i]`. */
  function Visit(w: Tables, ns: seq<Node>, i: nat): Tables
    requires i < |ns|
    decreases ListSize(ns, i), 5, 0
  {
    SizeBelow(ns, i, 0);
    var n := ns[i];
    match n.kind
    case StaticFinal(name, line) => AddRow(w, Constant, name, line, n.pos)
    case FunctionSignature(_, _, _) => ExtractFunction(w, ns, i)
    case MethodSignature(_, _, _) => ExtractMethod(w, ns, i)
    case ClassDefinition(name, line) =>
      if name == "" then w
      else
        var made := Enter(AddRow(w, Class, name, line, n.pos), Class, name, |w.rows|);
        Back(VisitAll(made, n.children, 0), w.stack)
    case EnumDeclaration(name, line, hasBody) =>
      if !hasBody || name == "" then w
      else
        var made := Enter(AddRow(w, Enum, name, line, n.pos), Enum, name, |w.rows|);
        Back(EnumAll(made, n.children, 0), w.stack)
    case AliasDeclaration(name, line) => VisitAll(AddAlias(w, name, line, n.pos), n.children, 0)
    case ImportOrExport(target, line) => AddImport(w, target, line, n.pos)
    case New(c) => VisitAll(if w.stack == [] || c == "" then w else AddRef(w, Instantiates, c, n.pos), n.children, 0)
    case _ => VisitAll(w, n.children, 0)
  }

  /** The children of an enum body: a constant is a member, its arguments are not walked. */
  function EnumAll(w: Tables, ns: seq<Node>, i: nat): Tables
    decreases ListSize(ns, i), 6
  {
    if i >= |ns| then w
    else SizeShrinks(ns, i); EnumAll(VisitMember(w, ns, i), ns, i + 1)
  }

  function VisitMember(w: Tables, ns: seq<Node>, i: nat): Tables
    requires i < |ns|
    decreases ListSize(ns, i), 5, 1
  {
    var n := ns[i];
    if n.kind.EnumConstant? then AddRow(w, EnumMember, n.kind.name, n.kind.line, n.pos) else Visit(w, ns, i)
  }

  function VisitAll(w: Tables, ns: seq<Node>, i: nat): Tables
    decreases ListSize(ns, i), 6
  {
    if i >= |ns| then w else SizeShrinks(ns, i); VisitAll(Visit(w, ns, i), ns, i + 1)
  }

  // ---------------------------------------------------------------- the walker

  /** The tables of a file before its walk. */
  function Start(file: string): Tables {
    Tables([NodeRow(Id(File, file, 1), file, 0)], [], [], [Scope(0, File, file)])
  }

  class Walker {
    var rows: seq<NodeRow>
    var edges: seq<Edge>
    var refs: seq<RefRow>
    var stack: seq<Scope>

    constructor (file: string)
      ensures State() == Start(file)
    {
      rows, edges, refs := [NodeRow(Id(File, file, 1), file, 0)], [], [];
      stack := [Scope(0, File, file)];
    }

    ghost function State(): Tables
      reads this
    {
      Tables(rows, edges, refs, stack)
    }

    method MakeNode(kind: DeclKind, name: string, line: nat, pos: nat) returns (row: nat)
      modifies this
      ensures State() == AddRow(old(State()), kind, name, line, pos)
      ensures row == |old(rows)|
    {
      row := |rows|;
      if name == "" {
        return;
      }
      rows := rows + [NodeRow(Id(kind, name, line), Joined(Path(stack), name), pos)];
      edges := edges + [Edge(TopRow(stack), row)];
    }

    method EmitRef(kind: RefKind, name: string, pos: nat)
      modifies this
      ensures State() == AddRef(old(State()), kind, name, pos)
    {
      refs := refs + [RefRow(TopRow(stack), kind, name, pos)];
    }

    method WalkFunctionBody(ns: seq<Node>, i: nat)
      requires i < |ns|
      modifies this
      ensures State() == VisitBody(old(State()), ns, i)
      decreases ListSize(ns, i), 3
    {
      var n := ns[i];
      if n.kind.New? {
        if stack != [] && n.kind.className != "" {
          EmitRef(Instantiates, n.kind.className, n.pos);
        }
      } else if n.kind.Call? {
        if stack != [] {
          EmitRef(Calls, n.kind.callee, n.pos);
        }
      }
      if n.kind.StaticMember? && stack != [] {
        EmitRef(References, n.kind.receiver, n.kind.at);
      }
      if n.kind.FunctionSignature? {
        DeclareFunction(ns, i);
        return;
      }
      ghost var w := State();
      var j := 0;
      while j < |n.children|
        invariant j <= |n.children|
        invariant BodyAll(w, n.children, 0) == BodyAll(State(), n.children, j)
      {
        SizeBelow(ns, i, j);
        WalkFunctionBody(n.children, j);
        j := j + 1;
      }
    }

    method WalkSibling(ns: seq<Node>, i: nat)
      requires i < |ns|
      modifies this
      ensures State() == WalkBody(old(State()), ns, i)
      decreases ListSize(ns, i), 0
    {
      SizeShrinks(ns, i);
      if i + 1 < |ns| && ns[i + 1].kind.FunctionBody? {
        WalkFunctionBody(ns, i + 1);
      }
    }

    /** The signature's row, its scope, and its body inside that scope. */
    method DeclareAs(kind: DeclKind, ns: seq<Node>, i: nat)
      requires i < |ns| && IsSignature(ns[i].kind)
      modifies this
      ensures State() == Declare(old(State()), ns, i, kind)
      decreases ListSize(ns, i), 1
    {
      var k := ns[i].kind;
      if k.name == "" {
        return;
      }
      var outer := stack;
      var row := MakeNode(kind, k.name, k.line, ns[i].pos);
      stack := stack + [Scope(row, kind, k.name)];
      WalkSibling(ns, i);
      StackKept(Enter(AddRow(old(State()), kind, k.name, k.line, ns[i].pos), kind, k.name, row), ns, i);
      stack := stack[..|stack| - 1];
      assert stack == outer;
    }

    method DeclareFunction(ns: seq<Node>, i: nat)
      requires i < |ns| && IsSignature(ns[i].kind)
      modifies this
      ensures State() == ExtractFunction(old(State()), ns, i)
      decreases ListSize(ns, i), 2
    {
      var k := ns[i].kind;
      if k.name == "<anonymous>" || k.unnamedCtor {
        WalkSibling(ns, i);
        return;
      }
      DeclareAs(Function, ns, i);
    }

    method DeclareMethod(ns: seq<Node>, i: nat)
      requires i < |ns| && IsSignature(ns[i].kind)
      modifies this
      ensures State() == ExtractMethod(old(State()), ns, i)
      decreases ListSize(ns, i), 3
    {
      if !InsideClassLike(stack) {
        DeclareFunction(ns, i);
        return;
      }
      if ns[i].kind.unnamedCtor {
        WalkSibling(ns, i);
        return;
      }
      DeclareAs(Method, ns, i);
    }

    method WalkNode(ns: seq<Node>, i: nat)
      requires i < |ns|
      modifies this
      ensures State() == Visit(old(State()), ns, i)
      decreases ListSize(ns, i), 5, 0
    {
      var n := ns[i];
      match n.kind
      case StaticFinal(name, line) =>
        var _ := MakeNode(Constant, name, line, n.pos);
      case FunctionSignature(_, _, _) =>
        DeclareFunction(ns, i);
      case MethodSignature(_, _, _) =>
        DeclareMethod(ns, i);
      case ClassDefinition(_, _) =>
        DeclareClass(ns, i);
      case EnumDeclaration(_, _, _) =>
        DeclareEnum(ns, i);
      case AliasDeclaration(name, line) =>
        if name != "<anonymous>" {
          var _ := MakeNode(TypeAlias, name, line, n.pos);
        }
        WalkChildren(ns, i);
      case ImportOrExport(target, line) =>
        DeclareImport(target, line, n.pos);
      case New(c) =>
        if stack != [] && c != "" {
          EmitRef(Instantiates, c, n.pos);
        }
        WalkChildren(ns, i);
      case _ =>
        WalkChildren(ns, i);
    }

    method DeclareClass(ns: seq<Node>, i: nat)
      requires i < |ns| && ns[i].kind.ClassDefinition?
      modifies this
      ensures State() == Visit(old(State()), ns, i)
      decreases ListSize(ns, i), 4, 1
    {
      var n := ns[i];
      if n.kind.name == "" {
        return;
      }
      var row := MakeNode(Class, n.kind.name, n.kind.line, n.pos);
      var outer := stack;
      stack := stack + [Scope(row, Class, n.kind.name)];
      ghost var w := State();
      WalkChildren(ns, i);
      AllKeepStack(w, n.children, 0);
      stack := stack[..|stack| - 1];
      assert stack == outer;
    }

    /** An enum without a body leaves no trace. */
    method DeclareEnum(ns: seq<Node>, i: nat)
      requires i < |ns| && ns[i].kind.EnumDeclaration?
      modifies this
      ensures State() == Visit(old(State()), ns, i)
      decreases ListSize(ns, i), 4, 1
    {
      var n := ns[i];
      if !n.kind.hasBody || n.kind.name == "" {
        return;
      }
      var row := MakeNode(Enum, n.kind.name, n.kind.line, n.pos);
      var outer := stack;
      stack := stack + [Scope(row, Enum, n.kind.name)];
      ghost var w := State();
      WalkMembers(ns, i);
      MembersKeepStack(w, n.children, 0);
      stack := stack[..|stack| - 1];
      assert stack == outer;
    }

    method WalkMembers(ns: seq<Node>, i: nat)
      requires i < |ns|
      modifies this
      ensures State() == EnumAll(old(State()), ns[i].children, 0)
      decreases ListSize(ns, i), 4, 0
    {
      var children := ns[i].children;
      ghost var w := State();
      var j := 0;
      while j < |children|
        invariant j <= |children|
        invariant EnumAll(w, children, 0) == EnumAll(State(), children, j)
      {
        SizeBelow(ns, i, j);
        var c := children[j];
        if c.kind.EnumConstant? {
          var _ := MakeNode(EnumMember, c.kind.name, c.kind.line, c.pos);
        } else {
          WalkNode(children, j);
        }
        j := j + 1;
      }
    }

    method DeclareImport(target: string, line: nat, pos: nat)
      modifies this
      ensures State() == AddImport(old(State()), target, line, pos)
    {
      if target == "" {
        return;
      }
      var _ := MakeNode(Import, target, line, pos);
      if stack != [] {
        EmitRef(Imports, target, pos);
      }
    }

    method WalkChildren(ns: seq<Node>, i: nat)
      requires i < |ns|
      modifies this
      ensures State() == VisitAll(old(State()), ns[i].children, 0)
      decreases ListSize(ns, i), 4, 0
    {
      var children := ns[i].children;
      ghost var w := State();
      var j := 0;
      while j < |children|
        invariant j <= |children|
        invariant VisitAll(w, children, 0) == VisitAll(State(), children, j)
      {
        SizeBelow(ns, i, j);
        WalkNode(children, j);
        j := j + 1;
      }
    }
  }

  // ---------------------------------------------------------------- the scope stack is balanced

  lemma {:induction false} BodyKeepsStack(w: Tables, ns: seq<Node>, i: nat)
    requires i < |ns|
    ensures VisitBody(w, ns, i).stack == w.stack
    decreases ListSize(ns, i), 3
  {
    var n := ns[i];
    SizeBelow(ns, i, 0);
    match n.kind
    case FunctionSignature(_, _, _) => FunctionKeepsStack(w, ns, i);
    case New(c) => BodyAllKeepsStack(if w.stack == [] || c == "" then w else AddRef(w, Instantiates, c, n.pos), n.children, 0);
    case Call(c) => BodyAllKeepsStack(if w.stack == [] then w else AddRef(w, Calls, c, n.pos), n.children, 0);
    case StaticMember(c, at) => BodyAllKeepsStack(if w.stack == [] then w else AddRef(w, References, c, at), n.children, 0);
    case _ => BodyAllKeepsStack(w, n.children, 0);
  }

  lemma {:induction false} FunctionKeepsStack(w: Tables, ns: seq<Node>, i: nat)
    requires i < |ns| && IsSignature(ns[i].kind)
    ensures ExtractFunction(w, ns, i).stack == w.stack
    decreases ListSize(ns, i), 2
  {
    var k := ns[i].kind;
    if k.name == "<anonymous>" || k.unnamedCtor {
      StackKept(w, ns, i);
    }
  }

  lemma {:induction false} BodyAllKeepsStack(w: Tables, ns: seq<Node>, i: nat)
    ensures BodyAll(w, ns, i).stack == w.stack
    decreases ListSize(ns, i), 4
  {
    if i < |ns| {
      SizeShrinks(ns, i);
      BodyKeepsStack(w, ns, i);
      BodyAllKeepsStack(VisitBody(w, ns, i), ns, i + 1);
    }
  }

  lemma {:induction false} StackKept(w: Tables, ns: seq<Node>, i: nat)
    requires i < |ns|
    ensures WalkBody(w, ns, i).stack == w.stack
    decreases ListSize(ns, i), 0
  {
    if HasBody(ns, i) {
      SizeShrinks(ns, i);
      BodyKeepsStack(w, ns, i + 1);
    }
  }

  lemma {:induction false} NodeKeepsStack(w: Tables, ns: seq<Node>, i: nat)
    requires i < |ns|
    ensures Visit(w, ns, i).stack == w.stack
    decreases ListSize(ns, i), 5
  {
    var n := ns[i];
    SizeBelow(ns, i, 0);
    match n.kind
    case FunctionSignature(_, _, _) => FunctionKeepsStack(w, ns, i);
    case MethodSignature(_, _, _) =>
      FunctionKeepsStack(w, ns, i);
      StackKept(w, ns, i);
    case AliasDeclaration(name, line) => AllKeepStack(AddAlias(w, name, line, n.pos), n.children, 0);
    case New(c) => AllKeepStack(if w.stack == [] || c == "" then w else AddRef(w, Instantiates, c, n.pos), n.children, 0);
    case StaticFinal(_, _) =>
    case ClassDefinition(_, _) =>
    case EnumDeclaration(_, _, _) =>
    case ImportOrExport(_, _) =>
    case _ => AllKeepStack(w, n.children, 0);
  }

  /** Every visit leaves the scope stack as it found it. */
  lemma {:induction false} AllKeepStack(w: Tables, ns: seq<Node>, i: nat)
    ensures VisitAll(w, ns, i).stack == w.stack
    decreases ListSize(ns, i), 6
  {
    if i < |ns| {
      SizeShrinks(ns, i);
      NodeKeepsStack(w, ns, i);
      AllKeepStack(Visit(w, ns, i), ns, i + 1);
    }
  }

  lemma MemberKeepsStack(w: Tables, ns: seq<Node>, i: nat)
    requires i < |ns|
    ensures VisitMember(w, ns, i).stack == w.stack
  {
    if !ns[i].kind.EnumConstant? {
      NodeKeepsStack(w, ns, i);
    }
  }

  lemma {:induction false} MembersKeepStack(w: Tables, ns: seq<Node>, i: nat)
    ensures EnumAll(w, ns, i).stack == w.stack
    decreases |ns| - i
  {
    if i < |ns| {
      MemberKeepsStack(w, ns, i);
      MembersKeepStack(VisitMember(w, ns, i), ns, i + 1);
    }
  }
}
