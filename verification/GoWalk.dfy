// The Go walker: methods stand outside their types and find them by receiver.

module GoWalk {
  import opened Wrappers
  import opened ScopeWalk
  import opened ScopeEmitter
  import opened ScopeForest
  import opened ScopeSteps
  import opened ScopeTheorems

  // ---------------------------------------------------------------- the syntax tree

  type Uses = seq<(RefKind, string)>

  datatype TypeKind = StructType | InterfaceType | OtherType

  /** Names are empty where the tree has none; `children` are the nodes the walker goes on to. */
  datatype SyntaxKind =
    | FunctionDeclaration(name: string, uses: Uses)                              // children: the body, if any
    | MethodDeclaration(name: string, receiver: Option<string>, uses: Uses)      // children: the body, if any
    | TypeSpec(name: string, what: TypeKind, uses: Uses)
    | InterfaceMethod(name: string)
    | VarDeclaration(isConst: bool, shortNames: seq<string>)
    | VarSpec(name: string)                                                      // children: the value, if any
    | ImportDeclaration(paths: seq<(string, nat)>)                               // each with its line
    | CallExpression(callee: string)
    | CompositeLiteral(typeName: string)
    | Other

  datatype Syntax = Syntax(kind: SyntaxKind, line: nat, children: seq<Syntax>)

  // ---------------------------------------------------------------- what it declares

  function MethodItem(name: string, line: nat, receiver: Option<string>, uses: Uses, inner: seq<Item>): Item {
    Decl(Method, name, line, Method, uses, receiver, inner, NoSynth)
  }

  /** A variable or constant; either way its value is walked in a `variable` scope. */
  function VarItem(isConst: bool, name: string, line: nat, inner: seq<Item>): Item {
    Decl(if isConst then Constant else Variable, name, line, Variable, [], None, inner, NoSynth)
  }

  /** A node met outside any function body. */
  function Items(n: Syntax, inClass: bool): seq<Item>
    decreases n, 2
  {
    match n.kind
    case FunctionDeclaration(name, uses) =>
      if name == "<anonymous>" then BodyAll(n.children, 0)
      else [InScope(Function, name, n.line, uses, BodyAll(n.children, 0))]
    case MethodDeclaration(name, receiver, uses) =>
      [MethodItem(name, n.line, receiver, uses, BodyAll(n.children, 0))]
    case TypeSpec(name, what, uses) =>
      if name == "<anonymous>" then ItemsAll(n.children, 0, inClass)
      else (match what
            case StructType => [InScope(Struct, name, n.line, uses, ItemsAll(n.children, 0, true))]
            case InterfaceType => [InScope(Interface, name, n.line, uses, InterfaceMethods(n.children, 0))]
            case OtherType => [Leaf(TypeAlias, name, n.line)] + ItemsAll(n.children, 0, inClass))
    case VarDeclaration(isConst, shortNames) =>
      if inClass then ItemsAll(n.children, 0, inClass)
      else Specs(n.children, 0, isConst) + ShortNames(shortNames, 0, n.line)
    case ImportDeclaration(paths) => Imported(paths, 0) + ItemsAll(n.children, 0, inClass)
    case CallExpression(callee) => Mentioned(Calls, callee) + ItemsAll(n.children, 0, inClass)
    case CompositeLiteral(typeName) => Mentioned(Instantiates, typeName) + ItemsAll(n.children, 0, inClass)
    case _ => ItemsAll(n.children, 0, inClass)
  }

  function ItemsAll(ns: seq<Syntax>, i: nat, inClass: bool): seq<Item>
    decreases ns, |ns| - i
  {
    if i >= |ns| then [] else Items(ns[i], inClass) + ItemsAll(ns, i + 1, inClass)
  }

  /** A node met inside a function body or a value. */
  function BodyItems(n: Syntax): seq<Item>
    decreases n, 3
  {
    match n.kind
    case CallExpression(callee) => Mentioned(Calls, callee) + BodyAll(n.children, 0)
    case CompositeLiteral(typeName) => Mentioned(Instantiates, typeName) + BodyAll(n.children, 0)
    case FunctionDeclaration(_, _) => Items(n, false)
    case _ => BodyAll(n.children, 0)
  }

  function BodyAll(ns: seq<Syntax>, i: nat): seq<Item>
    decreases ns, |ns| - i
  {
    if i >= |ns| then [] else BodyItems(ns[i]) + BodyAll(ns, i + 1)
  }

  function InterfaceMethods(ns: seq<Syntax>, i: nat): seq<Item>
    decreases |ns| - i
  {
    if i >= |ns| then []
    else (if ns[i].kind.InterfaceMethod? then [Leaf(Method, ns[i].kind.name, ns[i].line)] else [])
         + InterfaceMethods(ns, i + 1)
  }

  /** A spec without a name still has its value walked, in the outer scope. */
  function Specs(ns: seq<Syntax>, i: nat, isConst: bool): seq<Item>
    decreases ns, |ns| - i
  {
    if i >= |ns| then []
    else
      var inner := BodyAll(ns[i].children, 0);
      (if !ns[i].kind.VarSpec? then []
       else if ns[i].kind.name == "" then inner
       else [VarItem(isConst, ns[i].kind.name, ns[i].line, inner)])
      + Specs(ns, i + 1, isConst)
  }

  function ShortNames(names: seq<string>, i: nat, line: nat): seq<Item>
    decreases |names| - i
  {
    if i >= |names| then [] else [Leaf(Variable, names[i], line)] + ShortNames(names, i + 1, line)
  }

  function Imported(paths: seq<(string, nat)>, i: nat): seq<Item>
    decreases |paths| - i
  {
    if i >= |paths| then [] else OneImport(paths[i].0, paths[i].1) + Imported(paths, i + 1)
  }

  function OneImport(path: string, line: nat): seq<Item> {
    if path == "" then [] else [Leaf(Import, path, line), Mention(Imports, path)]
  }

  // ---------------------------------------------------------------- the walk

  /** visit_node: outside function bodies. */
  method VisitNode(w: Emitter, n: Syntax)
    modifies w
    ensures w.State() == EmitAll(old(w.State()), Items(n, InsideClassLike(old(w.stack))))
    decreases n, 4
  {
    hide EmitItem, Path;
    var inClass := InsideClassLike(w.stack);
    ghost var was := w.State();
    match n.kind {
      case FunctionDeclaration(_, _) => ExtractFunction(w, n);
      case MethodDeclaration(name, receiver, uses) =>
        EmitScopedBody(w, MethodItem(name, n.line, receiver, uses, []), n);
      case TypeSpec(name, what, _) => ExtractType(w, n);
      case VarDeclaration(_, _) =>
        if inClass {
          VisitChildren(w, n);
        } else {
          ExtractVariable(w, n);
        }
      case ImportDeclaration(paths) =>
        ExtractImport(w, paths);
        Sequenced(was, w.State(), Imported(paths, 0), ItemsAll(n.children, 0, inClass));
        VisitChildren(w, n);
      case CallExpression(callee) =>
        EmitMention(w, Calls, callee);
        Sequenced(was, w.State(), Mentioned(Calls, callee), ItemsAll(n.children, 0, inClass));
        VisitChildren(w, n);
      case CompositeLiteral(typeName) =>
        EmitMention(w, Instantiates, typeName);
        Sequenced(was, w.State(), Mentioned(Instantiates, typeName), ItemsAll(n.children, 0, inClass));
        VisitChildren(w, n);
      case _ => VisitChildren(w, n);
    }
  }

  method VisitChildren(w: Emitter, n: Syntax)
    modifies w
    ensures w.State() == EmitAll(old(w.State()), ItemsAll(n.children, 0, InsideClassLike(old(w.stack))))
    decreases n, 1
  {
    hide EmitItem, Path;
    var inClass := InsideClassLike(w.stack);
    ghost var whole := EmitAll(w.State(), ItemsAll(n.children, 0, inClass));
    StackBalanced(w.State(), ItemsAll(n.children, 0, inClass));
    var j := 0;
    while j < |n.children|
      invariant j <= |n.children| && inClass == InsideClassLike(w.stack)
      invariant Left(whole, w.State(), ItemsAll(n.children, j, inClass))
    {
      ghost var was := w.State();
      VisitNode(w, n.children[j]);
      Step(whole, was, w.State(), Items(n.children[j], inClass), ItemsAll(n.children, j + 1, inClass));
      j := j + 1;
    }
  }

  /** visit_for_calls_and_structure: inside function bodies and values. */
  method VisitBody(w: Emitter, n: Syntax)
    modifies w
    ensures w.State() == EmitAll(old(w.State()), BodyItems(n))
    decreases n, 4
  {
    hide EmitItem, Path;
    ghost var was := w.State();
    match n.kind {
      case CallExpression(callee) =>
        EmitMention(w, Calls, callee);
        Sequenced(was, w.State(), Mentioned(Calls, callee), BodyAll(n.children, 0));
        VisitBodyChildren(w, n);
      case CompositeLiteral(typeName) =>
        EmitMention(w, Instantiates, typeName);
        Sequenced(was, w.State(), Mentioned(Instantiates, typeName), BodyAll(n.children, 0));
        VisitBodyChildren(w, n);
      case FunctionDeclaration(name, _) =>
        if name == "<anonymous>" {
          VisitBodyChildren(w, n);
        } else {
          ExtractFunction(w, n);
        }
      case _ => VisitBodyChildren(w, n);
    }
  }

  method VisitBodyChildren(w: Emitter, n: Syntax)
    modifies w
    ensures w.State() == EmitAll(old(w.State()), BodyAll(n.children, 0))
    decreases n, 1
  {
    ghost var whole := EmitAll(w.State(), BodyAll(n.children, 0));
    StackBalanced(w.State(), BodyAll(n.children, 0));
    var j := 0;
    while j < |n.children|
      invariant j <= |n.children|
      invariant Left(whole, w.State(), BodyAll(n.children, j))
    {
      ghost var was := w.State();
      VisitBody(w, n.children[j]);
      Step(whole, was, w.State(), BodyItems(n.children[j]), BodyAll(n.children, j + 1));
      j := j + 1;
    }
  }

  // ---------------------------------------------------------------- the extractors

  /** The row and scope of `head`, then the body below `n` inside them. */
  method EmitScopedBody(w: Emitter, head: Item, n: Syntax)
    requires head.Decl? && head.inner == [] && head.synth.NoSynth?
    modifies w
    ensures w.State() == EmitAll(old(w.State()), [head.(inner := BodyAll(n.children, 0))])
    decreases n, 2
  {
    ghost var was := w.State();
    ghost var it := head.(inner := BodyAll(n.children, 0));
    EmitOne(was, it);
    var made := w.Open(head);
    if !made {
      return;
    }
    VisitBodyChildren(w, n);
    ScopedEmits(was, it, w.State());
    w.Leave();
  }

  method ExtractFunction(w: Emitter, n: Syntax)
    requires n.kind.FunctionDeclaration?
    modifies w
    ensures w.State() == EmitAll(old(w.State()), Items(n, false))
    decreases n, 3
  {
    if n.kind.name == "<anonymous>" {
      VisitBodyChildren(w, n);
      return;
    }
    EmitScopedBody(w, InScope(Function, n.kind.name, n.line, n.kind.uses, []), n);
  }

  method ExtractType(w: Emitter, n: Syntax)
    requires n.kind.TypeSpec?
    modifies w
    ensures w.State() == EmitAll(old(w.State()), Items(n, InsideClassLike(old(w.stack))))
    decreases n, 3
  {
    hide EmitItem, Path;
    ghost var was := w.State();
    var name := n.kind.name;
    if name == "<anonymous>" {
      VisitChildren(w, n);
      return;
    }
    match n.kind.what {
      case StructType => ExtractStruct(w, n);
      case InterfaceType => ExtractInterface(w, n);
      case OtherType =>
        EmitLeaf(w, TypeAlias, name, n.line);
        Sequenced(was, w.State(), [Leaf(TypeAlias, name, n.line)], ItemsAll(n.children, 0, InsideClassLike(w.stack)));
        VisitChildren(w, n);
    }
  }

  method ExtractStruct(w: Emitter, n: Syntax)
    requires n.kind.TypeSpec?
    modifies w
    ensures w.State() == EmitAll(old(w.State()), [InScope(Struct, n.kind.name, n.line, n.kind.uses, ItemsAll(n.children, 0, true))])
    decreases n, 2
  {
    ghost var was := w.State();
    ghost var it := InScope(Struct, n.kind.name, n.line, n.kind.uses, ItemsAll(n.children, 0, true));
    EmitOne(was, it);
    var made := w.Open(InScope(Struct, n.kind.name, n.line, n.kind.uses, []));
    if !made {
      return;
    }
    VisitChildren(w, n);
    ScopedEmits(was, it, w.State());
    w.Leave();
  }

  method ExtractInterface(w: Emitter, n: Syntax)
    requires n.kind.TypeSpec?
    modifies w
    ensures w.State() == EmitAll(old(w.State()), [InScope(Interface, n.kind.name, n.line, n.kind.uses, InterfaceMethods(n.children, 0))])
    decreases n, 2
  {
    hide EmitItem, Path;
    ghost var was := w.State();
    ghost var it := InScope(Interface, n.kind.name, n.line, n.kind.uses, InterfaceMethods(n.children, 0));
    var made := w.Open(InScope(Interface, n.kind.name, n.line, n.kind.uses, []));
    if !made {
      NamelessEmits(was, it);
      return;
    }
    ghost var whole := EmitAll(w.State(), InterfaceMethods(n.children, 0));
    StackBalanced(w.State(), InterfaceMethods(n.children, 0));
    var j := 0;
    while j < |n.children|
      invariant j <= |n.children|
      invariant Left(whole, w.State(), InterfaceMethods(n.children, j))
    {
      ghost var before := w.State();
      var k := n.children[j].kind;
      if k.InterfaceMethod? {
        EmitLeaf(w, Method, k.name, n.children[j].line);
      }
      Step(whole, before, w.State(), if k.InterfaceMethod? then [Leaf(Method, k.name, n.children[j].line)] else [],
           InterfaceMethods(n.children, j + 1));
      j := j + 1;
    }
    ScopedEmits(was, it, w.State());
    w.Leave();
  }

  method ExtractVariable(w: Emitter, n: Syntax)
    requires n.kind.VarDeclaration?
    modifies w
    ensures w.State() == EmitAll(old(w.State()), Items(n, false))
    decreases n, 3
  {
    hide EmitItem, Path;
    ghost var was := w.State();
    EmitSpecs(w, n);
    Sequenced(was, w.State(), Specs(n.children, 0, n.kind.isConst), ShortNames(n.kind.shortNames, 0, n.line));
    EmitShortNames(w, n.kind.shortNames, n.line);
  }

  method EmitSpecs(w: Emitter, n: Syntax)
    requires n.kind.VarDeclaration?
    modifies w
    ensures w.State() == EmitAll(old(w.State()), Specs(n.children, 0, n.kind.isConst))
    decreases n, 2
  {
    hide EmitItem, Path;
    var isConst := n.kind.isConst;
    ghost var whole := EmitAll(w.State(), Specs(n.children, 0, isConst));
    StackBalanced(w.State(), Specs(n.children, 0, isConst));
    var j := 0;
    while j < |n.children|
      invariant j <= |n.children|
      invariant Left(whole, w.State(), Specs(n.children, j, isConst))
    {
      ghost var before := w.State();
      var c := n.children[j];
      if !c.kind.VarSpec? {
        Step(whole, before, w.State(), [], Specs(n.children, j + 1, isConst));
      } else if c.kind.name == "" {
        VisitBodyChildren(w, c);
        Step(whole, before, w.State(), BodyAll(c.children, 0), Specs(n.children, j + 1, isConst));
      } else {
        EmitScopedBody(w, VarItem(isConst, c.kind.name, c.line, []), c);
        Step(whole, before, w.State(), [VarItem(isConst, c.kind.name, c.line, BodyAll(c.children, 0))],
             Specs(n.children, j + 1, isConst));
      }
      j := j + 1;
    }
  }

  method EmitShortNames(w: Emitter, names: seq<string>, line: nat)
    modifies w
    ensures w.State() == EmitAll(old(w.State()), ShortNames(names, 0, line))
  {
    hide EmitItem, Path;
    ghost var whole := EmitAll(w.State(), ShortNames(names, 0, line));
    StackBalanced(w.State(), ShortNames(names, 0, line));
    var j := 0;
    while j < |names|
      invariant j <= |names|
      invariant Left(whole, w.State(), ShortNames(names, j, line))
    {
      ghost var before := w.State();
      EmitLeaf(w, Variable, names[j], line);
      Step(whole, before, w.State(), [Leaf(Variable, names[j], line)], ShortNames(names, j + 1, line));
      j := j + 1;
    }
  }

  method ExtractImport(w: Emitter, paths: seq<(string, nat)>)
    modifies w
    ensures w.State() == EmitAll(old(w.State()), Imported(paths, 0))
  {
    hide EmitItem, Path;
    ghost var whole := EmitAll(w.State(), Imported(paths, 0));
    StackBalanced(w.State(), Imported(paths, 0));
    var j := 0;
    while j < |paths|
      invariant j <= |paths|
      invariant Left(whole, w.State(), Imported(paths, j))
    {
      ghost var before := w.State();
      EmitImport(w, paths[j].0, paths[j].1);
      Step(whole, before, w.State(), OneImport(paths[j].0, paths[j].1), Imported(paths, j + 1));
      j := j + 1;
    }
  }

  method ExtractFile(file: string, root: Syntax) returns (w: Emitter)
    ensures fresh(w) && w.State() == EmitAll(Start(file), Items(root, false))
  {
    w := new Emitter(file);
    VisitNode(w, root);
  }

  // ---------------------------------------------------------------- Go synthesizes nothing

  lemma {:induction false} LiteralAppend(a: seq<Item>, b: seq<Item>)
    ensures Literal(a + b) <==> Literal(a) && Literal(b)
    decreases |a|
  {
    if a == [] {
      assert a + b == b;
    } else {
      assert (a + b)[1..] == a[1..] + b;
      LiteralAppend(a[1..], b);
    }
  }

  lemma LiteralOne(it: Item)
    ensures Literal([it]) <==> LiteralItem(it)
  {
    assert [it][1..] == [];
  }

  lemma LeafLiteral(kind: DeclKind, name: string, line: nat)
    ensures Literal([Leaf(kind, name, line)])
  {
    LiteralOne(Leaf(kind, name, line));
  }

  lemma MentionLiteral(kind: RefKind, name: string)
    ensures Literal(Mentioned(kind, name))
  {
    LiteralOne(Mention(kind, name));
  }

  lemma {:induction false} ItemsLiteral(n: Syntax, inClass: bool)
    ensures Literal(Items(n, inClass))
    decreases n, 2
  {
    hide LiteralItem, Literal, ItemsAll, BodyAll, InterfaceMethods, Specs, ShortNames, Imported;
    var children := n.children;
    AllLiteral(children, 0, inClass);
    BodyAllLiteral(children, 0);
    match n.kind
    case FunctionDeclaration(name, uses) =>
      ScopeLiteral(InScope(Function, name, n.line, uses, BodyAll(children, 0)));
    case MethodDeclaration(name, receiver, uses) =>
      ScopeLiteral(MethodItem(name, n.line, receiver, uses, BodyAll(children, 0)));
    case TypeSpec(name, what, uses) =>
      AllLiteral(children, 0, true);
      InterfaceLiteral(children, 0);
      ScopeLiteral(InScope(Struct, name, n.line, uses, ItemsAll(children, 0, true)));
      ScopeLiteral(InScope(Interface, name, n.line, uses, InterfaceMethods(children, 0)));
      LeafLiteral(TypeAlias, name, n.line);
      LiteralAppend([Leaf(TypeAlias, name, n.line)], ItemsAll(children, 0, inClass));
    case VarDeclaration(isConst, shortNames) =>
      SpecsLiteral(children, 0, isConst);
      ShortLiteral(shortNames, 0, n.line);
      LiteralAppend(Specs(children, 0, isConst), ShortNames(shortNames, 0, n.line));
    case ImportDeclaration(paths) =>
      ImportedLiteral(paths, 0);
      LiteralAppend(Imported(paths, 0), ItemsAll(children, 0, inClass));
    case CallExpression(callee) =>
      MentionLiteral(Calls, callee);
      LiteralAppend(Mentioned(Calls, callee), ItemsAll(children, 0, inClass));
    case CompositeLiteral(typeName) =>
      MentionLiteral(Instantiates, typeName);
      LiteralAppend(Mentioned(Instantiates, typeName), ItemsAll(children, 0, inClass));
    case _ =>
  }

  lemma ScopeLiteral(it: Item)
    requires it.Decl? && it.synth.NoSynth?
    ensures Literal(it.inner) ==> Literal([it])
  {
    LiteralOne(it);
  }

  lemma {:induction false} AllLiteral(ns: seq<Syntax>, i: nat, inClass: bool)
    ensures Literal(ItemsAll(ns, i, inClass))
    decreases ns, |ns| - i
  {
    if i < |ns| {
      ItemsLiteral(ns[i], inClass);
      AllLiteral(ns, i + 1, inClass);
      LiteralAppend(Items(ns[i], inClass), ItemsAll(ns, i + 1, inClass));
    }
  }

  lemma {:induction false} BodyLiteral(n: Syntax)
    ensures Literal(BodyItems(n))
    decreases n, 3
  {
    hide Literal, Items;
    BodyAllLiteral(n.children, 0);
    match n.kind
    case CallExpression(callee) =>
      MentionLiteral(Calls, callee);
      LiteralAppend(Mentioned(Calls, callee), BodyAll(n.children, 0));
    case CompositeLiteral(typeName) =>
      MentionLiteral(Instantiates, typeName);
      LiteralAppend(Mentioned(Instantiates, typeName), BodyAll(n.children, 0));
    case _ => ItemsLiteral(n, false);
  }

  lemma {:induction false} BodyAllLiteral(ns: seq<Syntax>, i: nat)
    ensures Literal(BodyAll(ns, i))
    decreases ns, |ns| - i
  {
    if i < |ns| {
      BodyLiteral(ns[i]);
      BodyAllLiteral(ns, i + 1);
      LiteralAppend(BodyItems(ns[i]), BodyAll(ns, i + 1));
    }
  }

  lemma {:induction false} InterfaceLiteral(ns: seq<Syntax>, i: nat)
    ensures Literal(InterfaceMethods(ns, i))
    decreases |ns| - i
  {
    if i < |ns| {
      InterfaceLiteral(ns, i + 1);
      var k := ns[i].kind;
      if k.InterfaceMethod? {
        LeafLiteral(Method, k.name, ns[i].line);
        LiteralAppend([Leaf(Method, k.name, ns[i].line)], InterfaceMethods(ns, i + 1));
      } else {
        assert InterfaceMethods(ns, i) == InterfaceMethods(ns, i + 1);
      }
    }
  }

  lemma {:induction false} SpecsLiteral(ns: seq<Syntax>, i: nat, isConst: bool)
    ensures Literal(Specs(ns, i, isConst))
    decreases ns, |ns| - i
  {
    hide BodyAll;
    if i < |ns| {
      SpecsLiteral(ns, i + 1, isConst);
      BodyAllLiteral(ns[i].children, 0);
      var inner, rest, k := BodyAll(ns[i].children, 0), Specs(ns, i + 1, isConst), ns[i].kind;
      if !k.VarSpec? {
        assert Specs(ns, i, isConst) == rest;
      } else if k.name == "" {
        LiteralAppend(inner, rest);
      } else {
        var it := VarItem(isConst, k.name, ns[i].line, inner);
        ScopeLiteral(it);
        LiteralAppend([it], rest);
      }
    }
  }

  lemma {:induction false} ShortLiteral(names: seq<string>, i: nat, line: nat)
    ensures Literal(ShortNames(names, i, line))
    decreases |names| - i
  {
    if i < |names| {
      ShortLiteral(names, i + 1, line);
      LeafLiteral(Variable, names[i], line);
      LiteralAppend([Leaf(Variable, names[i], line)], ShortNames(names, i + 1, line));
    }
  }

  lemma {:induction false} ImportedLiteral(paths: seq<(string, nat)>, i: nat)
    ensures Literal(Imported(paths, i))
    decreases |paths| - i
  {
    if i < |paths| {
      var path, line := paths[i].0, paths[i].1;
      ImportedLiteral(paths, i + 1);
      LeafLiteral(Import, path, line);
      LiteralOne(Mention(Imports, path));
      LiteralAppend([Leaf(Import, path, line)], [Mention(Imports, path)]);
      assert [Leaf(Import, path, line)] + [Mention(Imports, path)] == [Leaf(Import, path, line), Mention(Imports, path)];
      LiteralAppend(OneImport(path, line), Imported(paths, i + 1));
    }
  }

  // ---------------------------------------------------------------- the invariants, for every Go file

  /**
   * Contained from an earlier row: once and named by the path above it without
   * a receiver; with one named after it, and contained a second time only by an
   * earlier type of that name.
   */
  ghost predicate InForest(g: Out, r: nat, receiver: Option<string>)
    requires r < |g.rows|
  {
    var up := Sources(g.edges, r);
    && (|up| == 1 || (|up| == 2 && receiver.Some? && up[1] < r && CanOwn(g.rows[up[1]], receiver.value)))
    && up[0] < r
    && Named(g, r, receiver)
  }

  /**
   * For every Go file: ids, ranges, balance, one row per declaration in order
   * with its exact name, and the forest with its receivers' edges.
   */
  lemma GoForestHolds(file: string, root: Syntax)
    ensures var items := Items(root, false);
            var g := EmitAll(Start(file), items);
            && g.stack == [Scope(0, File, file)]
            && |g.ids| == |g.rows|
            && (forall k :: 0 <= k < |g.edges| ==> g.edges[k].source < g.edges[k].target < |g.rows|)
            && (forall k :: 0 <= k < |g.refs| ==> g.refs[k].from < |g.rows|)
            && g.rows == [Row(File, file, 1, file)] + DeclaredRows(items, "")
            && |Receivers(items)| == |g.rows| - 1
            && (forall k :: 0 <= k < |Receivers(items)| ==> InForest(g, k + 1, Receivers(items)[k]))
  {
    hide Items, NamePath, Sources, DeclaredRows, Receivers;
    var items := Items(root, false);
    WholeFile(file, items, false);
    ItemsLiteral(root, false);
    EmitsDeclared(Start(file), items);
    assert Path([]) == "" && Path(Start(file).stack) == "";
    OneReceiverEach(items, "");
    assert Sound(Start(file), false);
    NamedByPath(Start(file), items);
    var g := EmitAll(Start(file), items);
    forall k | 0 <= k < |Receivers(items)| ensures InForest(g, k + 1, Receivers(items)[k]) {
      assert Named(g, 1 + k, Receivers(items)[k]);
      OneRow(g, k + 1, Receivers(items)[k]);
    }
  }

  lemma OneRow(g: Out, r: nat, receiver: Option<string>)
    requires Sound(g, false) && 0 < r < |g.rows| && Named(g, r, receiver)
    ensures InForest(g, r, receiver)
  {
    hide NamePath, Sources;
    assert RowOk(g, r, false);
    var up := Sources(g.edges, r);
    if |up| == 2 {
      SamePrefix(receiver.value + "::", g.rows[up[1]].name + "::", g.rows[r].name);
      SamePrefix(receiver.value, g.rows[up[1]].name, "::");
    }
  }

  lemma SamePrefix(a: string, b: string, suffix: string)
    requires a + suffix == b + suffix
    ensures a == b
  {
    assert |a| == |b| && a == (a + suffix)[..|a|] && b == (b + suffix)[..|b|];
  }
}
