// The Java walker: which declarations a syntax tree holds, and the recursion that emits them.

module JavaWalk {
  import opened Wrappers
  import opened ScopeWalk
  import opened ScopeEmitter
  import opened ScopeTheorems

  // ---------------------------------------------------------------- the syntax tree

  type Uses = seq<(RefKind, string)>

  /** Names are empty where the tree has none; `children` are the nodes the walker goes on to. */
  datatype SyntaxKind =
    | ClassDeclaration(name: string, uses: Uses, synth: Synth)
    | MethodDeclaration(name: string, uses: Uses)        // children: the body, if any
    | InterfaceDeclaration(name: string, uses: Uses)
    | EnumDeclaration(name: string, uses: Uses, hasBody: bool)
    | EnumConstant(name: string)
    | FieldDeclaration(isConst: bool, bare: string, uses: Uses)
    | LocalDeclaration(isConst: bool)
    | Declarator(name: string)                           // children: the initializer, if any
    | Identifier(text: string)
    | ImportDeclaration(target: string)
    | Invocation(callee: string)
    | Creation(created: string, anonymous: bool)         // children: of the anonymous body, if there is one
    | FieldAccess(read: string)
    | Other

  datatype Syntax = Syntax(kind: SyntaxKind, line: nat, children: seq<Syntax>)

  function Decimal(n: nat): string {
    if n < 10 then ["0123456789"[n]] else Decimal(n / 10) + ["0123456789"[n % 10]]
  }

  // ---------------------------------------------------------------- what it declares

  function FieldKind(isConst: bool): DeclKind { if isConst then Constant else Field }

  function LocalKind(isConst: bool): DeclKind { if isConst then Constant else Variable }

  function Anonymous(created: string, line: nat, inner: seq<Item>): Item {
    var t := if created == "" then "Object" else created;
    InScope(Class, "<" + t + "$anon@" + Decimal(line) + ">", line, [(Extends, t)], inner)
  }

  predicate HasDeclarator(ns: seq<Syntax>) {
    exists k :: 0 <= k < |ns| && ns[k].kind.Declarator?
  }

  /** A node met outside any method body. */
  function Items(n: Syntax, inClass: bool): seq<Item>
    decreases n, 2
  {
    match n.kind
    case ClassDeclaration(name, uses, synth) =>
      [Decl(Class, name, n.line, Class, uses, None, ItemsAll(n.children, 0, true), synth)]
    case MethodDeclaration(name, uses) =>
      if inClass then [InScope(Method, name, n.line, uses, BodyAll(n.children, 0))]
      else if name == "<anonymous>" then BodyAll(n.children, 0)
      else [InScope(Function, name, n.line, uses, BodyAll(n.children, 0))]
    case InterfaceDeclaration(name, uses) =>
      [InScope(Interface, name, n.line, uses, ItemsAll(n.children, 0, true))]
    case EnumDeclaration(name, uses, hasBody) =>
      if hasBody then [InScope(Enum, name, n.line, uses, EnumMembers(n.children, 0))] else []
    case FieldDeclaration(isConst, bare, uses) =>
      if !inClass then ItemsAll(n.children, 0, inClass)
      else if HasDeclarator(n.children) then Fields(n.children, 0, isConst, uses)
      else [Leaf(FieldKind(isConst), bare, n.line)]
    case LocalDeclaration(isConst) =>
      if inClass then ItemsAll(n.children, 0, inClass) else Locals(n.children, 0, isConst)
    case ImportDeclaration(target) =>
      (if target == "" then [] else [Leaf(Import, target, n.line), Mention(Imports, target)])
      + ItemsAll(n.children, 0, inClass)
    case Invocation(callee) => Mentioned(Calls, callee) + ItemsAll(n.children, 0, inClass)
    case Creation(created, anonymous) =>
      Mentioned(Instantiates, created)
      + if anonymous then [Anonymous(created, n.line, ItemsAll(n.children, 0, true))] else ItemsAll(n.children, 0, inClass)
    case _ => ItemsAll(n.children, 0, inClass)
  }

  function ItemsAll(ns: seq<Syntax>, i: nat, inClass: bool): seq<Item>
    decreases ns, |ns| - i
  {
    if i >= |ns| then [] else Items(ns[i], inClass) + ItemsAll(ns, i + 1, inClass)
  }

  /** A node met inside a method body or an initializer. */
  function BodyItems(n: Syntax): seq<Item>
    decreases n, 3
  {
    match n.kind
    case Invocation(callee) => Mentioned(Calls, callee) + BodyAll(n.children, 0)
    case Creation(created, anonymous) =>
      Mentioned(Instantiates, created)
      + if anonymous then [Anonymous(created, n.line, ItemsAll(n.children, 0, true))] else BodyAll(n.children, 0)
    case FieldAccess(read) => Mentioned(References, read) + BodyAll(n.children, 0)
    case ClassDeclaration(_, _, _) => Items(n, false)
    case EnumDeclaration(_, _, _) => Items(n, false)
    case InterfaceDeclaration(_, _) => Items(n, false)
    case _ => BodyAll(n.children, 0)
  }

  function BodyAll(ns: seq<Syntax>, i: nat): seq<Item>
    decreases ns, |ns| - i
  {
    if i >= |ns| then [] else BodyItems(ns[i]) + BodyAll(ns, i + 1)
  }

  function EnumMembers(ns: seq<Syntax>, i: nat): seq<Item>
    decreases ns, |ns| - i
  {
    if i >= |ns| then [] else OneEnumMember(ns[i]) + EnumMembers(ns, i + 1)
  }

  function OneEnumMember(n: Syntax): seq<Item>
    decreases n, 3
  {
    if n.kind.EnumConstant? then [Leaf(EnumMember, n.kind.name, n.line)] else Items(n, true)
  }

  /** Each declarator is a field of its own, its initializer walked inside it. */
  function Fields(ns: seq<Syntax>, i: nat, isConst: bool, uses: Uses): seq<Item>
    decreases ns, |ns| - i
  {
    if i >= |ns| then []
    else (if ns[i].kind.Declarator?
          then [InScope(FieldKind(isConst), ns[i].kind.name, ns[i].line, uses, BodyAll(ns[i].children, 0))]
          else [])
         + Fields(ns, i + 1, isConst, uses)
  }

  function Locals(ns: seq<Syntax>, i: nat, isConst: bool): seq<Item>
    decreases |ns| - i
  {
    if i >= |ns| then [] else Local(ns[i], isConst) + Locals(ns, i + 1, isConst)
  }

  function Local(n: Syntax, isConst: bool): seq<Item> {
    var name := LocalName(n);
    if name == "" || name == "<anonymous>" then [] else [Leaf(LocalKind(isConst), name, n.line)]
  }

  function LocalName(n: Syntax): string {
    match n.kind
    case Identifier(text) => text
    case Declarator(name) => name
    case _ => ""
  }

  /** The whole file, inside the namespace of its package if it names one. */
  function FileItems(package: string, line: nat, root: Syntax): seq<Item> {
    if package == "" then Items(root, false)
    else [InScope(Namespace, package, line, [], Items(root, false))]
  }

  // ---------------------------------------------------------------- the walk

  /** visit_node: outside method bodies. */
  method VisitNode(w: Emitter, n: Syntax)
    modifies w
    ensures w.State() == EmitAll(old(w.State()), Items(n, InsideClassLike(old(w.stack))))
    decreases n, 5
  {
    hide EmitItem, Path;
    var inClass := InsideClassLike(w.stack);
    ghost var was := w.State();
    match n.kind {
      case ClassDeclaration(_, _, _) => ExtractClass(w, n);
      case MethodDeclaration(_, _) => ExtractMethod(w, n);
      case InterfaceDeclaration(_, _) => ExtractInterface(w, n);
      case EnumDeclaration(_, _, _) => ExtractEnum(w, n);
      case FieldDeclaration(_, _, _) =>
        if inClass {
          ExtractField(w, n);
        } else {
          VisitChildren(w, n);
        }
      case LocalDeclaration(_) =>
        if inClass {
          VisitChildren(w, n);
        } else {
          ExtractVariable(w, n);
        }
      case ImportDeclaration(target) =>
        EmitImport(w, target, n.line);
        Sequenced(was, w.State(), if target == "" then [] else [Leaf(Import, target, n.line), Mention(Imports, target)],
                  ItemsAll(n.children, 0, inClass));
        VisitChildren(w, n);
      case Invocation(callee) =>
        EmitMention(w, Calls, callee);
        Sequenced(was, w.State(), Mentioned(Calls, callee), ItemsAll(n.children, 0, inClass));
        VisitChildren(w, n);
      case Creation(_, _) => VisitCreation(w, n);
      case _ => VisitChildren(w, n);
    }
  }

  /** An instantiation outside a body; an anonymous class is walked as one. */
  method VisitCreation(w: Emitter, n: Syntax)
    requires n.kind.Creation?
    modifies w
    ensures w.State() == EmitAll(old(w.State()), Items(n, InsideClassLike(old(w.stack))))
    decreases n, 4
  {
    hide EmitItem, Path;
    var inClass := InsideClassLike(w.stack);
    var created := n.kind.created;
    ghost var was := w.State();
    EmitMention(w, Instantiates, created);
    if n.kind.anonymous {
      Sequenced(was, w.State(), Mentioned(Instantiates, created), [Anonymous(created, n.line, ItemsAll(n.children, 0, true))]);
      ExtractAnonymous(w, n);
    } else {
      Sequenced(was, w.State(), Mentioned(Instantiates, created), ItemsAll(n.children, 0, inClass));
      VisitChildren(w, n);
    }
  }

  method VisitChildren(w: Emitter, n: Syntax)
    modifies w
    ensures w.State() == EmitAll(old(w.State()), ItemsAll(n.children, 0, InsideClassLike(old(w.stack))))
    decreases n, 1
  {
    hide EmitItem, Path;
    var inClass := InsideClassLike(w.stack);
    ghost var whole := EmitAll(w.State(), ItemsAll(n.children, 0, inClass));
    StackBalanced(w.State(), ItemsAll(n.children, 0, inClass));
    var j := 0;
    while j < |n.children|
      invariant j <= |n.children| && inClass == InsideClassLike(w.stack)
      invariant Left(whole, w.State(), ItemsAll(n.children, j, inClass))
    {
      ghost var was := w.State();
      VisitNode(w, n.children[j]);
      Step(whole, was, w.State(), Items(n.children[j], inClass), ItemsAll(n.children, j + 1, inClass));
      j := j + 1;
    }
  }

  /** visit_for_calls_and_structure: inside method bodies and initializers. */
  method VisitBody(w: Emitter, n: Syntax)
    modifies w
    ensures w.State() == EmitAll(old(w.State()), BodyItems(n))
    decreases n, 4
  {
    hide EmitItem, Path;
    ghost var was := w.State();
    match n.kind {
      case Invocation(callee) =>
        EmitMention(w, Calls, callee);
        Sequenced(was, w.State(), Mentioned(Calls, callee), BodyAll(n.children, 0));
        VisitBodyChildren(w, n);
      case Creation(created, anonymous) =>
        EmitMention(w, Instantiates, created);
        if anonymous {
          Sequenced(was, w.State(), Mentioned(Instantiates, created), [Anonymous(created, n.line, ItemsAll(n.children, 0, true))]);
          ExtractAnonymous(w, n);
        } else {
          Sequenced(was, w.State(), Mentioned(Instantiates, created), BodyAll(n.children, 0));
          VisitBodyChildren(w, n);
        }
      case FieldAccess(read) =>
        EmitMention(w, References, read);
        Sequenced(was, w.State(), Mentioned(References, read), BodyAll(n.children, 0));
        VisitBodyChildren(w, n);
      case ClassDeclaration(_, _, _) => ExtractClass(w, n);
      case EnumDeclaration(_, _, _) => ExtractEnum(w, n);
      case InterfaceDeclaration(_, _) => ExtractInterface(w, n);
      case _ => VisitBodyChildren(w, n);
    }
  }

  method VisitBodyChildren(w: Emitter, n: Syntax)
    modifies w
    ensures w.State() == EmitAll(old(w.State()), BodyAll(n.children, 0))
    decreases n, 1
  {
    ghost var whole := EmitAll(w.State(), BodyAll(n.children, 0));
    StackBalanced(w.State(), BodyAll(n.children, 0));
    var j := 0;
    while j < |n.children|
      invariant j <= |n.children|
      invariant Left(whole, w.State(), BodyAll(n.children, j))
    {
      ghost var was := w.State();
      VisitBody(w, n.children[j]);
      Step(whole, was, w.State(), BodyItems(n.children[j]), BodyAll(n.children, j + 1));
      j := j + 1;
    }
  }

  // ---------------------------------------------------------------- the extractors

  method ExtractClass(w: Emitter, n: Syntax)
    requires n.kind.ClassDeclaration?
    modifies w
    ensures w.State() == EmitAll(old(w.State()), Items(n, false))
    decreases n, 3
  {
    ghost var was := w.State();
    ghost var it := Items(n, false)[0];
    EmitOne(was, it);
    var row := |w.rows|;
    var made := w.Open(InScope(Class, n.kind.name, n.line, n.kind.uses, []));
    if !made {
      return;
    }
    ghost var inside := w.State();
    VisitChildren(w, n);
    RowsGrow(inside, it.inner);
    w.MakeMembers(n.kind.synth, row);
    Closed(was, it, w.State());
    w.Leave();
  }

  method ExtractMethod(w: Emitter, n: Syntax)
    requires n.kind.MethodDeclaration?
    modifies w
    ensures w.State() == EmitAll(old(w.State()), Items(n, InsideClassLike(old(w.stack))))
    decreases n, 3
  {
    if !InsideClassLike(w.stack) {
      ExtractFunction(w, n);
      return;
    }
    EmitScopedBody(w, InScope(Method, n.kind.name, n.line, n.kind.uses, []), n);
  }

  /** A method outside any class. */
  method ExtractFunction(w: Emitter, n: Syntax)
    requires n.kind.MethodDeclaration?
    modifies w
    ensures w.State() == EmitAll(old(w.State()), Items(n, false))
    decreases n, 2, 1
  {
    if n.kind.name == "<anonymous>" {
      VisitBodyChildren(w, n);
      return;
    }
    EmitScopedBody(w, InScope(Function, n.kind.name, n.line, n.kind.uses, []), n);
  }

  /** The row and scope of `head`, then the body below `n` inside them. */
  method EmitScopedBody(w: Emitter, head: Item, n: Syntax)
    requires head.Decl? && head.inner == [] && head.synth.NoSynth?
    modifies w
    ensures w.State() == EmitAll(old(w.State()), [head.(inner := BodyAll(n.children, 0))])
    decreases n, 2, 0
  {
    ghost var was := w.State();
    ghost var it := head.(inner := BodyAll(n.children, 0));
    EmitOne(was, it);
    var made := w.Open(head);
    if !made {
      return;
    }
    VisitBodyChildren(w, n);
    ScopedEmits(was, it, w.State());
    w.Leave();
  }

  /** The row and class-like scope of `head`, then the members below `n` inside them. */
  method EmitScopedMembers(w: Emitter, head: Item, n: Syntax)
    requires head.Decl? && head.inner == [] && head.synth.NoSynth? && ClassLike(head.scope)
    modifies w
    ensures w.State() == EmitAll(old(w.State()), [head.(inner := ItemsAll(n.children, 0, true))])
    decreases n, 2, 0
  {
    ghost var was := w.State();
    ghost var it := head.(inner := ItemsAll(n.children, 0, true));
    EmitOne(was, it);
    var made := w.Open(head);
    if !made {
      return;
    }
    VisitChildren(w, n);
    ScopedEmits(was, it, w.State());
    w.Leave();
  }

  method ExtractInterface(w: Emitter, n: Syntax)
    requires n.kind.InterfaceDeclaration?
    modifies w
    ensures w.State() == EmitAll(old(w.State()), Items(n, false))
    decreases n, 3
  {
    EmitScopedMembers(w, InScope(Interface, n.kind.name, n.line, n.kind.uses, []), n);
  }

  method ExtractAnonymous(w: Emitter, n: Syntax)
    requires n.kind.Creation?
    modifies w
    ensures w.State() == EmitAll(old(w.State()), [Anonymous(n.kind.created, n.line, ItemsAll(n.children, 0, true))])
    decreases n, 3
  {
    EmitScopedMembers(w, Anonymous(n.kind.created, n.line, []), n);
  }

  method EmitEnumMembers(w: Emitter, n: Syntax)
    requires InsideClassLike(w.stack)
    modifies w
    ensures w.State() == EmitAll(old(w.State()), EnumMembers(n.children, 0))
    decreases n, 2
  {
    hide EmitItem, Path, Items, OneEnumMember;
    ghost var whole := EmitAll(w.State(), EnumMembers(n.children, 0));
    StackBalanced(w.State(), EnumMembers(n.children, 0));
    var j := 0;
    while j < |n.children|
      invariant j <= |n.children| && InsideClassLike(w.stack)
      invariant Left(whole, w.State(), EnumMembers(n.children, j))
    {
      ghost var before := w.State();
      EmitEnumMember(w, n.children[j]);
      Step(whole, before, w.State(), OneEnumMember(n.children[j]), EnumMembers(n.children, j + 1));
      j := j + 1;
    }
  }

  method EmitEnumMember(w: Emitter, n: Syntax)
    requires InsideClassLike(w.stack)
    modifies w
    ensures w.State() == EmitAll(old(w.State()), OneEnumMember(n)) && w.stack == old(w.stack)
    decreases n, 6
  {
    hide EmitItem, Path, Items;
    StackBalanced(w.State(), OneEnumMember(n));
    if n.kind.EnumConstant? {
      EmitLeaf(w, EnumMember, n.kind.name, n.line);
    } else {
      VisitNode(w, n);
    }
  }

  method ExtractEnum(w: Emitter, n: Syntax)
    requires n.kind.EnumDeclaration?
    modifies w
    ensures w.State() == EmitAll(old(w.State()), Items(n, false))
    decreases n, 3
  {
    hide EmitItem, Path;
    if !n.kind.hasBody {
      return;
    }
    ghost var was := w.State();
    ghost var it := Items(n, false)[0];
    EmitOne(was, it);
    var made := w.Open(InScope(Enum, n.kind.name, n.line, n.kind.uses, []));
    if !made {
      NamelessEmits(was, it);
      return;
    }
    EmitEnumMembers(w, n);
    ScopedEmits(was, it, w.State());
    w.Leave();
  }

  method ExtractField(w: Emitter, n: Syntax)
    requires n.kind.FieldDeclaration?
    modifies w
    ensures w.State() == EmitAll(old(w.State()), Items(n, true))
    decreases n, 3
  {
    hide EmitItem, Path;
    var kind := FieldKind(n.kind.isConst);
    var uses := n.kind.uses;
    if forall k :: 0 <= k < |n.children| ==> !n.children[k].kind.Declarator? {
      EmitLeaf(w, kind, n.kind.bare, n.line);
      return;
    }
    ghost var whole := EmitAll(w.State(), Fields(n.children, 0, n.kind.isConst, uses));
    StackBalanced(w.State(), Fields(n.children, 0, n.kind.isConst, uses));
    var j := 0;
    while j < |n.children|
      invariant j <= |n.children|
      invariant Left(whole, w.State(), Fields(n.children, j, n.kind.isConst, uses))
    {
      ghost var before := w.State();
      var c := n.children[j];
      if c.kind.Declarator? {
        EmitScopedBody(w, InScope(kind, c.kind.name, c.line, uses, []), c);
        Step(whole, before, w.State(), [InScope(kind, c.kind.name, c.line, uses, BodyAll(c.children, 0))],
             Fields(n.children, j + 1, n.kind.isConst, uses));
      } else {
        Step(whole, before, w.State(), [], Fields(n.children, j + 1, n.kind.isConst, uses));
      }
      j := j + 1;
    }
  }

  method EmitLocal(w: Emitter, c: Syntax, isConst: bool)
    modifies w
    ensures w.State() == EmitAll(old(w.State()), Local(c, isConst))
  {
    var name := LocalName(c);
    if name != "" && name != "<anonymous>" {
      EmitLeaf(w, LocalKind(isConst), name, c.line);
    }
  }

  method ExtractVariable(w: Emitter, n: Syntax)
    requires n.kind.LocalDeclaration?
    modifies w
    ensures w.State() == EmitAll(old(w.State()), Items(n, false))
    decreases n, 3
  {
    hide EmitItem, Path, Local;
    ghost var whole := EmitAll(w.State(), Locals(n.children, 0, n.kind.isConst));
    StackBalanced(w.State(), Locals(n.children, 0, n.kind.isConst));
    var j := 0;
    while j < |n.children|
      invariant j <= |n.children|
      invariant Left(whole, w.State(), Locals(n.children, j, n.kind.isConst))
    {
      ghost var before := w.State();
      EmitLocal(w, n.children[j], n.kind.isConst);
      Step(whole, before, w.State(), Local(n.children[j], n.kind.isConst), Locals(n.children, j + 1, n.kind.isConst));
      j := j + 1;
    }
  }

  /** The file: its row, the package's namespace around everything, and back to the file scope. */
  method ExtractFile(file: string, package: string, line: nat, root: Syntax) returns (w: Emitter)
    ensures fresh(w) && w.State() == EmitAll(Start(file), FileItems(package, line, root))
  {
    w := new Emitter(file);
    if package == "" {
      VisitNode(w, root);
      return;
    }
    ghost var was := w.State();
    ghost var it := InScope(Namespace, package, line, [], Items(root, false));
    EmitOne(was, it);
    var _ := w.Open(InScope(Namespace, package, line, [], []));
    VisitNode(w, root);
    ScopedEmits(was, it, w.State());
    w.Leave();
  }

  // ---------------------------------------------------------------- rows only accumulate

  lemma {:induction false} RowsGrow(w: Out, items: seq<Item>)
    ensures |EmitAll(w, items).rows| >= |w.rows|
    decreases items
  {
    if items != [] {
      RowsGrowItem(w, items[0]);
      RowsGrow(EmitItem(w, items[0]), items[1..]);
    }
  }

  lemma {:induction false} RowsGrowItem(w: Out, it: Item)
    ensures |EmitItem(w, it).rows| >= |w.rows|
    decreases it
  {
    if it.Decl? && it.name != "" {
      var pushed := Opened(w, it);
      RowsGrow(pushed, it.inner);
      var full := EmitAll(pushed, it.inner);
      if it.synth.Synth? && |w.rows| < |full.rows| {
        AddMethodsRows(full, it.synth.methods, DeclaredMethods(full.rows, full.rows[|w.rows|].qualified));
      }
    }
  }
}
