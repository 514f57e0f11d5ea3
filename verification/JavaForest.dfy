// The invariants of the walk, for every Java file.

module JavaForest {
  import opened Wrappers
  import opened ScopeWalk
  import opened ScopeForest
  import opened ScopeSteps
  import opened ScopeTheorems
  import JavaWalk
  import opened ScopeEmitter

  lemma {:induction false} PlainAppend(a: seq<Item>, b: seq<Item>)
    ensures Plain(a + b) <==> Plain(a) && Plain(b)
    decreases |a|
  {
    if a == [] {
      assert a + b == b;
    } else {
      assert (a + b)[1..] == a[1..] + b;
      PlainAppend(a[1..], b);
    }
  }

  lemma PlainOne(it: Item)
    ensures Plain([it]) <==> PlainItem(it)
  {
    assert [it][1..] == [];
  }

  lemma DeclPlain(it: Item)
    requires it.Decl? && it.receiver.None? && Plain(it.inner)
    ensures Plain([it])
  {
    PlainOne(it);
  }

  lemma MentionsPlain(kind: RefKind, name: string)
    ensures Plain(Mentioned(kind, name))
  {
    PlainOne(Mention(kind, name));
  }

  /** Java has no receivers. */
  lemma {:induction false} ItemsPlain(n: JavaWalk.Syntax, inClass: bool)
    ensures Plain(JavaWalk.Items(n, inClass))
    decreases n, 2
  {
    hide Plain, PlainItem, JavaWalk.ItemsAll, JavaWalk.BodyAll, JavaWalk.EnumMembers, JavaWalk.Fields, JavaWalk.Locals;
    hide JavaWalk.Decimal, JavaWalk.Local;
    var children := n.children;
    AllPlain(children, 0, inClass);
    AllPlain(children, 0, true);
    BodyAllPlain(children, 0);
    match n.kind
    case ClassDeclaration(_, _, _) => DeclPlain(JavaWalk.Items(n, inClass)[0]);
    case MethodDeclaration(name, _) =>
      if inClass || name != "<anonymous>" {
        DeclPlain(JavaWalk.Items(n, inClass)[0]);
      }
    case InterfaceDeclaration(_, _) => DeclPlain(JavaWalk.Items(n, inClass)[0]);
    case EnumDeclaration(_, _, hasBody) =>
      EnumPlain(children, 0);
      EmptyPlain();
      if hasBody {
        DeclPlain(JavaWalk.Items(n, inClass)[0]);
      }
    case FieldDeclaration(isConst, bare, uses) =>
      FieldsPlain(children, 0, isConst, uses);
      LeafPlain(JavaWalk.FieldKind(isConst), bare, n.line);
    case LocalDeclaration(isConst) => LocalsPlain(children, 0, isConst);
    case ImportDeclaration(target) =>
      ImportPlain(target, n.line);
      PlainAppend(ImportItems(target, n.line), JavaWalk.ItemsAll(children, 0, inClass));
    case Invocation(callee) =>
      MentionsPlain(Calls, callee);
      PlainAppend(Mentioned(Calls, callee), JavaWalk.ItemsAll(children, 0, inClass));
    case Creation(created, anonymous) =>
      CreationPlain(created, n.line, JavaWalk.ItemsAll(children, 0, true));
      PlainAppend(Mentioned(Instantiates, created), JavaWalk.ItemsAll(children, 0, inClass));
    case _ =>
  }

  function ImportItems(target: string, line: nat): seq<Item> {
    if target == "" then [] else [Leaf(Import, target, line), Mention(Imports, target)]
  }

  lemma ImportPlain(target: string, line: nat)
    ensures Plain(ImportItems(target, line))
  {
    LeafPlain(Import, target, line);
    PlainOne(Mention(Imports, target));
    PlainAppend([Leaf(Import, target, line)], [Mention(Imports, target)]);
    assert [Leaf(Import, target, line)] + [Mention(Imports, target)]
        == [Leaf(Import, target, line), Mention(Imports, target)];
  }

  lemma EmptyPlain()
    ensures Plain([])
  {}

  lemma LeafPlain(kind: DeclKind, name: string, line: nat)
    ensures Plain([Leaf(kind, name, line)])
  {
    PlainOne(Leaf(kind, name, line));
  }

  lemma CreationPlain(created: string, line: nat, inner: seq<Item>)
    requires Plain(inner)
    ensures Plain(Mentioned(Instantiates, created))
    ensures Plain(Mentioned(Instantiates, created) + [JavaWalk.Anonymous(created, line, inner)])
  {
    MentionsPlain(Instantiates, created);
    PlainOne(JavaWalk.Anonymous(created, line, inner));
    PlainAppend(Mentioned(Instantiates, created), [JavaWalk.Anonymous(created, line, inner)]);
  }

  lemma {:induction false} AllPlain(ns: seq<JavaWalk.Syntax>, i: nat, inClass: bool)
    ensures Plain(JavaWalk.ItemsAll(ns, i, inClass))
    decreases ns, |ns| - i
  {
    if i < |ns| {
      ItemsPlain(ns[i], inClass);
      AllPlain(ns, i + 1, inClass);
      PlainAppend(JavaWalk.Items(ns[i], inClass), JavaWalk.ItemsAll(ns, i + 1, inClass));
    }
  }

  lemma {:induction false} BodyPlain(n: JavaWalk.Syntax)
    ensures Plain(JavaWalk.BodyItems(n))
    decreases n, 3
  {
    hide Plain;
    var children := n.children;
    BodyAllPlain(children, 0);
    match n.kind
    case Invocation(callee) =>
      MentionsPlain(Calls, callee);
      PlainAppend(Mentioned(Calls, callee), JavaWalk.BodyAll(children, 0));
    case Creation(created, _) =>
      AllPlain(children, 0, true);
      CreationPlain(created, n.line, JavaWalk.ItemsAll(children, 0, true));
      PlainAppend(Mentioned(Instantiates, created), JavaWalk.BodyAll(children, 0));
    case FieldAccess(read) =>
      MentionsPlain(References, read);
      PlainAppend(Mentioned(References, read), JavaWalk.BodyAll(children, 0));
    case _ => ItemsPlain(n, false);
  }

  lemma {:induction false} BodyAllPlain(ns: seq<JavaWalk.Syntax>, i: nat)
    ensures Plain(JavaWalk.BodyAll(ns, i))
    decreases ns, |ns| - i
  {
    if i < |ns| {
      BodyPlain(ns[i]);
      BodyAllPlain(ns, i + 1);
      PlainAppend(JavaWalk.BodyItems(ns[i]), JavaWalk.BodyAll(ns, i + 1));
    }
  }

  lemma {:induction false} EnumPlain(ns: seq<JavaWalk.Syntax>, i: nat)
    ensures Plain(JavaWalk.EnumMembers(ns, i))
    decreases ns, |ns| - i
  {
    if i < |ns| {
      ItemsPlain(ns[i], true);
      EnumPlain(ns, i + 1);
      if ns[i].kind.EnumConstant? {
        LeafPlain(EnumMember, ns[i].kind.name, ns[i].line);
      }
      PlainAppend(JavaWalk.OneEnumMember(ns[i]), JavaWalk.EnumMembers(ns, i + 1));
    }
  }

  lemma {:induction false} FieldsPlain(ns: seq<JavaWalk.Syntax>, i: nat, isConst: bool, uses: JavaWalk.Uses)
    ensures Plain(JavaWalk.Fields(ns, i, isConst, uses))
    decreases ns, |ns| - i
  {
    if i < |ns| {
      FieldsPlain(ns, i + 1, isConst, uses);
      if ns[i].kind.Declarator? {
        BodyAllPlain(ns[i].children, 0);
        var it := InScope(JavaWalk.FieldKind(isConst), ns[i].kind.name, ns[i].line, uses, JavaWalk.BodyAll(ns[i].children, 0));
        PlainOne(it);
        PlainAppend([it], JavaWalk.Fields(ns, i + 1, isConst, uses));
      } else {
        assert [] + JavaWalk.Fields(ns, i + 1, isConst, uses) == JavaWalk.Fields(ns, i + 1, isConst, uses);
      }
    }
  }

  lemma {:induction false} LocalsPlain(ns: seq<JavaWalk.Syntax>, i: nat, isConst: bool)
    ensures Plain(JavaWalk.Locals(ns, i, isConst))
    decreases |ns| - i
  {
    if i < |ns| {
      LocalsPlain(ns, i + 1, isConst);
      LeafPlain(JavaWalk.LocalKind(isConst), JavaWalk.LocalName(ns[i]), ns[i].line);
      PlainAppend(JavaWalk.Local(ns[i], isConst), JavaWalk.Locals(ns, i + 1, isConst));
    }
  }

  /**
   * For every Java file: one id per row, every index in range, each row but
   * the file's in exactly one containment edge, from a smaller row, and named
   * by the path of names above it; the walk ends in the scope it began in.
   */
  lemma JavaForestHolds(file: string, package: string, line: nat, root: JavaWalk.Syntax)
    ensures var g := EmitAll(Start(file), JavaWalk.FileItems(package, line, root));
            && g.stack == [Scope(0, File, file)]
            && |g.ids| == |g.rows|
            && (forall k :: 0 <= k < |g.edges| ==> g.edges[k].source < g.edges[k].target < |g.rows|)
            && (forall k :: 0 <= k < |g.refs| ==> g.refs[k].from < |g.rows|)
            && (forall r :: 0 < r < |g.rows| ==>
                  && |Sources(g.edges, r)| == 1 && Sources(g.edges, r)[0] < r
                  && g.rows[r].qualified == NamePath(g.rows, g.edges, r))
  {
    hide Plain;
    ItemsPlain(root, false);
    if package != "" {
      PlainOne(JavaWalk.FileItems(package, line, root)[0]);
    }
    WholeFile(file, JavaWalk.FileItems(package, line, root), true);
    var g := EmitAll(Start(file), JavaWalk.FileItems(package, line, root));
    forall r | 0 < r < |g.rows|
      ensures |Sources(g.edges, r)| == 1 && Sources(g.edges, r)[0] < r
      ensures g.rows[r].qualified == NamePath(g.rows, g.edges, r)
    {
      assert RowOk(g, r, true);
    }
  }
}
