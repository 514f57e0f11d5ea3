// Exactly what a Go file leaves in the tables, read off the tree node by node.

module GoFacts {
  import opened Wrappers
  import opened ScopeWalk
  import opened ScopeEmitter
  import opened ScopeTheorems
  import opened ScopeFacts
  import opened GoWalk

  // ---------------------------------------------------------------- one node at a time

  /** What surrounds a node: everything below a function's or a value's body is in it. */
  datatype Place = Outside | InStruct | InInterface | InSpecs(isConst: bool) | InBody | Unseen

  predicate AmongDeclarations(at: Place) { at.Outside? || at.InStruct? }

  /** What is found at the node before anything below it: what it refers to, its imports, its alias. */
  function Leading(n: Syntax, at: Place, owner: nat, path: string, rows: seq<Row>): Found {
    match n.kind
    case CallExpression(callee) => if AmongDeclarations(at) || at.InBody? then Refers(owner, [(Calls, callee)]) else NOTHING
    case CompositeLiteral(name) => if AmongDeclarations(at) || at.InBody? then Refers(owner, [(Instantiates, name)]) else NOTHING
    case ImportDeclaration(paths) => if AmongDeclarations(at) then ImportRows(paths, 0, owner, path, rows) else NOTHING
    case TypeSpec(name, what, _) =>
      if AmongDeclarations(at) && what.OtherType? && name != "<anonymous>" then Bare(TypeAlias, name, n.line, owner, path, rows)
      else NOTHING
    case _ => NOTHING
  }

  /** What is found after everything below it: the names of a short declaration. */
  function Trailing(n: Syntax, at: Place, owner: nat, path: string, rows: seq<Row>): Found {
    if at.Outside? && n.kind.VarDeclaration? then Shorts(n.kind.shortNames, 0, n.line, owner, path, rows) else NOTHING
  }

  /** A declaration with nothing below it. */
  function Bare(kind: Kind, name: string, line: nat, owner: nat, path: string, rows: seq<Row>): Found {
    if name == "" then NOTHING else Declares(kind, name, line, Joined(path, name), owner, |rows|, [])
  }

  /** Each import with a path: its row, and a reference to it. */
  function ImportRows(paths: seq<(string, nat)>, i: nat, owner: nat, path: string, rows: seq<Row>): Found
    decreases |paths| - i
  {
    if i >= |paths| then NOTHING
    else
      var one := Both(Bare(Import, paths[i].0, paths[i].1, owner, path, rows), Refers(owner, [(Imports, paths[i].0)]));
      Both(one, ImportRows(paths, i + 1, owner, path, rows + one.rows))
  }

  function Shorts(names: seq<string>, i: nat, line: nat, owner: nat, path: string, rows: seq<Row>): Found
    decreases |names| - i
  {
    if i >= |names| then NOTHING
    else
      var one := Bare(Variable, names[i], line, owner, path, rows);
      Both(one, Shorts(names, i + 1, line, owner, path, rows + one.rows))
  }

  datatype Head = Head(kind: DeclKind, scope: DeclKind, name: string, receiver: Option<string>, uses: Uses)

  /** The declaration the node makes around what is below it. */
  function Makes(n: Syntax, at: Place): Option<Head> {
    match n.kind
    case FunctionDeclaration(name, uses) =>
      if (AmongDeclarations(at) || at.InBody?) && name != "<anonymous>" then Some(Head(Function, Function, name, None, uses)) else None
    case MethodDeclaration(name, receiver, uses) =>
      if AmongDeclarations(at) then Some(Head(Method, Method, name, receiver, uses)) else None
    case TypeSpec(name, what, uses) =>
      if !AmongDeclarations(at) || name == "<anonymous>" || what.OtherType? then None
      else if what.StructType? then Some(Head(Struct, Struct, name, None, uses))
      else Some(Head(Interface, Interface, name, None, uses))
    case InterfaceMethod(name) => if at.InInterface? then Some(Head(Method, Method, name, None, [])) else None
    case VarSpec(name) =>
      if at.InSpecs? && name != "" then Some(Head(if at.isConst then Constant else Variable, Variable, name, None, [])) else None
    case _ => None
  }

  /** Where the node's children stand. */
  function Within(n: Syntax, at: Place): Place {
    if at.InBody? || (at.InSpecs? && n.kind.VarSpec?) then InBody
    else if !AmongDeclarations(at) then Unseen
    else
      match n.kind
      case FunctionDeclaration(_, _) => InBody
      case MethodDeclaration(_, _, _) => InBody
      case TypeSpec(name, what, _) =>
        if name == "<anonymous>" || what.OtherType? then at else if what.StructType? then InStruct else InInterface
      case VarDeclaration(isConst, _) => if at.Outside? then InSpecs(isConst) else at
      case _ => at
  }

  // ---------------------------------------------------------------- the whole tree

  /**
   * Everything found at and below the node. `owner` is the row it stands in,
   * `path` names the surroundings, and `rows` are the rows so far; below a
   * declaration the owner is the declaration's row.
   */
  function Seen(n: Syntax, at: Place, owner: nat, path: string, rows: seq<Row>): Found
    decreases n, 1
  {
    var lead := Leading(n, at, owner, path, rows);
    var below := Middle(n, at, owner, path, rows + lead.rows);
    Both(lead, Both(below, Trailing(n, at, owner, path, rows + lead.rows + below.rows)))
  }

  function Middle(n: Syntax, at: Place, owner: nat, path: string, rows: seq<Row>): Found
    decreases n, 0
  {
    var head := Makes(n, at);
    if head.None? then SeenAll(n.children, 0, Within(n, at), owner, path, rows)
    else if head.value.name == "" then NOTHING
    else
      var h, name := head.value, Joined(path, head.value.name);
      var made := if h.receiver.None? then Declares(h.kind, h.name, n.line, name, owner, |rows|, h.uses)
                  else Received(h.kind, h.name, n.line, h.receiver.value, at.InStruct?, owner, rows, h.uses);
      Both(made, SeenAll(n.children, 0, Within(n, at), |rows|, name, rows + made.rows))
  }

  function SeenAll(ns: seq<Syntax>, i: nat, at: Place, owner: nat, path: string, rows: seq<Row>): Found
    decreases ns, 0, |ns| - i
  {
    if i >= |ns| then NOTHING
    else
      var first := Seen(ns[i], at, owner, path, rows);
      Both(first, SeenAll(ns, i + 1, at, owner, path, rows + first.rows))
  }

  // ---------------------------------------------------------------- the items of a node in its place

  function ItemsAt(n: Syntax, at: Place): seq<Item> {
    match at
    case Outside => Items(n, false)
    case InStruct => Items(n, true)
    case InInterface => if n.kind.InterfaceMethod? then [Leaf(Method, n.kind.name, n.line)] else []
    case InSpecs(isConst) =>
      if !n.kind.VarSpec? then []
      else if n.kind.name == "" then BodyAll(n.children, 0)
      else [VarItem(isConst, n.kind.name, n.line, BodyAll(n.children, 0))]
    case InBody => BodyItems(n)
    case Unseen => []
  }

  function AllAt(ns: seq<Syntax>, i: nat, at: Place): seq<Item> {
    match at
    case Outside => ItemsAll(ns, i, false)
    case InStruct => ItemsAll(ns, i, true)
    case InInterface => InterfaceMethods(ns, i)
    case InSpecs(isConst) => Specs(ns, i, isConst)
    case InBody => BodyAll(ns, i)
    case Unseen => []
  }

  lemma AllAtStep(ns: seq<Syntax>, i: nat, at: Place)
    ensures AllAt(ns, i, at) == if i >= |ns| then [] else ItemsAt(ns[i], at) + AllAt(ns, i + 1, at)
  {
    hide Items, BodyItems;
  }

  function LeadItems(n: Syntax, at: Place): seq<Item> {
    match n.kind
    case CallExpression(callee) => if AmongDeclarations(at) || at.InBody? then Mentioned(Calls, callee) else []
    case CompositeLiteral(name) => if AmongDeclarations(at) || at.InBody? then Mentioned(Instantiates, name) else []
    case ImportDeclaration(paths) => if AmongDeclarations(at) then Imported(paths, 0) else []
    case TypeSpec(name, what, _) =>
      if AmongDeclarations(at) && what.OtherType? && name != "<anonymous>" then [Leaf(TypeAlias, name, n.line)] else []
    case _ => []
  }

  function TrailItems(n: Syntax, at: Place): seq<Item> {
    if at.Outside? && n.kind.VarDeclaration? then ShortNames(n.kind.shortNames, 0, n.line) else []
  }

  function MiddleItems(n: Syntax, at: Place): seq<Item> {
    var head, below := Makes(n, at), AllAt(n.children, 0, Within(n, at));
    if head.None? then below else [Headed(n, head.value, below)]
  }

  function Headed(n: Syntax, h: Head, below: seq<Item>): Item {
    Decl(h.kind, h.name, n.line, h.scope, h.uses, h.receiver, below, NoSynth)
  }

  lemma HasShape(n: Syntax, at: Place)
    ensures ItemsAt(n, at) == LeadItems(n, at) + (MiddleItems(n, at) + TrailItems(n, at))
  {
    hide ItemsAll, BodyAll, InterfaceMethods, Specs, ShortNames, Imported, Mentioned;
    forall items: seq<Item> ensures [] + items == items && items + [] == items {
      NothingAround(items);
    }
    match n.kind
    case FunctionDeclaration(_, _) => FunctionShape(n, at);
    case TypeSpec(_, _, _) => TypeShape(n, at);
    case VarDeclaration(_, _) =>
    case _ =>
  }

  lemma FunctionShape(n: Syntax, at: Place)
    requires n.kind.FunctionDeclaration?
    ensures ItemsAt(n, at) == LeadItems(n, at) + (MiddleItems(n, at) + TrailItems(n, at))
  {
    hide ItemsAll, BodyAll, InterfaceMethods, Specs, ShortNames, Imported, Mentioned;
    if at.InBody? {
      assert BodyItems(n) == Items(n, false);
    }
  }

  lemma TypeShape(n: Syntax, at: Place)
    requires n.kind.TypeSpec?
    ensures ItemsAt(n, at) == LeadItems(n, at) + (MiddleItems(n, at) + TrailItems(n, at))
  {
    hide ItemsAll, BodyAll, InterfaceMethods, Specs, ShortNames, Imported, Mentioned;
  }

  lemma NothingAround(items: seq<Item>)
    ensures [] + items == items && items + [] == items
  {}

  // ---------------------------------------------------------------- the walk finds exactly that

  /** The top of the scope stack is a type exactly where the place says so. */
  predicate Stands(w: Out, at: Place) {
    (at.InStruct? ==> InsideClassLike(w.stack)) && (at.Outside? ==> !InsideClassLike(w.stack))
  }

  lemma BareExact(w: Out, kind: DeclKind, name: string, line: nat)
    ensures EmitAll(w, [Leaf(kind, name, line)]) == After(w, Bare(kind, name, line, TopRow(w.stack), Path(w.stack), w.rows))
  {
    hide Path, Joined, TopRow, After, EmitAll;
    if name == "" {
      NamelessEmits(w, Leaf(kind, name, line));
      AfterNothing(w, NOTHING);
    } else {
      LeafExact(w, kind, name, line);
    }
  }

  lemma MentionedExact(w: Out, kind: RefKind, name: string)
    ensures EmitAll(w, Mentioned(kind, name)) == After(w, Refers(TopRow(w.stack), [(kind, name)]))
  {
    hide EmitAll, After, TopRow;
    SayingsExact(w, [(kind, name)]);
    assert [(kind, name)][1..] == [];
    assert Mentioned(kind, name) + [] == Mentioned(kind, name);
  }

  lemma OneImportExact(w: Out, name: string, line: nat)
    ensures EmitAll(w, OneImport(name, line))
         == After(w, Both(Bare(Import, name, line, TopRow(w.stack), Path(w.stack), w.rows), Refers(TopRow(w.stack), [(Imports, name)])))
  {
    hide EmitItem, EmitAll, After, TopRow, Path, Bare, Refers;
    var leaf := Bare(Import, name, line, TopRow(w.stack), Path(w.stack), w.rows);
    BareExact(w, Import, name, line);
    StackAfter(w, leaf);
    MentionedExact(After(w, leaf), Imports, name);
    AfterBoth(w, leaf, Refers(TopRow(w.stack), [(Imports, name)]));
    EmitAppend(w, [Leaf(Import, name, line)], Mentioned(Imports, name));
    if name == "" {
      NamelessEmits(w, Leaf(Import, name, line));
      NothingEmits(w);
    } else {
      assert [Leaf(Import, name, line)] + [Mention(Imports, name)] == OneImport(name, line);
    }
  }

  lemma NothingEmits(w: Out)
    ensures EmitAll(w, []) == w
  {}

  lemma {:induction false} ImportsExact(w: Out, paths: seq<(string, nat)>, i: nat)
    ensures EmitAll(w, Imported(paths, i)) == After(w, ImportRows(paths, i, TopRow(w.stack), Path(w.stack), w.rows))
    decreases |paths| - i
  {
    hide EmitItem, EmitAll, After, TopRow, Path, OneImport, Bare, Refers;
    if i >= |paths| {
      NothingEmits(w);
      AfterNothing(w, NOTHING);
    } else {
      var name, line := paths[i].0, paths[i].1;
      var one := Both(Bare(Import, name, line, TopRow(w.stack), Path(w.stack), w.rows), Refers(TopRow(w.stack), [(Imports, name)]));
      OneImportExact(w, name, line);
      StackAfter(w, one);
      ImportsExact(After(w, one), paths, i + 1);
      EmitAppend(w, OneImport(name, line), Imported(paths, i + 1));
      AfterBoth(w, one, ImportRows(paths, i + 1, TopRow(w.stack), Path(w.stack), w.rows + one.rows));
    }
  }

  lemma {:induction false} ShortsExact(w: Out, names: seq<string>, i: nat, line: nat)
    ensures EmitAll(w, ShortNames(names, i, line)) == After(w, Shorts(names, i, line, TopRow(w.stack), Path(w.stack), w.rows))
    decreases |names| - i
  {
    hide EmitItem, EmitAll, After, TopRow, Path, Bare;
    if i >= |names| {
      NothingEmits(w);
      AfterNothing(w, NOTHING);
    } else {
      var one := Bare(Variable, names[i], line, TopRow(w.stack), Path(w.stack), w.rows);
      BareExact(w, Variable, names[i], line);
      StackAfter(w, one);
      ShortsExact(After(w, one), names, i + 1, line);
      EmitAppend(w, [Leaf(Variable, names[i], line)], ShortNames(names, i + 1, line));
      AfterBoth(w, one, Shorts(names, i + 1, line, TopRow(w.stack), Path(w.stack), w.rows + one.rows));
    }
  }

  lemma LeadingExact(w: Out, n: Syntax, at: Place)
    ensures EmitAll(w, LeadItems(n, at)) == After(w, Leading(n, at, TopRow(w.stack), Path(w.stack), w.rows))
  {
    hide EmitItem, EmitAll, After, TopRow, Path, Imported, ImportRows, Bare, Refers;
    NothingEmits(w);
    AfterNothing(w, NOTHING);
    match n.kind
    case CallExpression(callee) => MentionedExact(w, Calls, callee);
    case CompositeLiteral(name) => MentionedExact(w, Instantiates, name);
    case ImportDeclaration(paths) => ImportsExact(w, paths, 0);
    case TypeSpec(name, _, _) => BareExact(w, TypeAlias, name, n.line);
    case _ =>
  }

  lemma TrailingExact(w: Out, n: Syntax, at: Place)
    ensures EmitAll(w, TrailItems(n, at)) == After(w, Trailing(n, at, TopRow(w.stack), Path(w.stack), w.rows))
  {
    hide EmitItem, EmitAll, After, TopRow, Path, Shorts, ShortNames;
    NothingEmits(w);
    AfterNothing(w, NOTHING);
    if n.kind.VarDeclaration? {
      ShortsExact(w, n.kind.shortNames, 0, n.line);
    }
  }

  /** A node's items, walked from where the node stands, add exactly what is seen at and below it. */
  lemma {:induction false} SeenExact(w: Out, n: Syntax, at: Place)
    requires Stands(w, at)
    ensures EmitAll(w, ItemsAt(n, at)) == After(w, Seen(n, at, TopRow(w.stack), Path(w.stack), w.rows))
    decreases n, 1
  {
    hide EmitItem, EmitAll, Path, TopRow, After, Leading, Middle, Trailing, LeadItems, MiddleItems, TrailItems, ItemsAt;
    var owner, path := TopRow(w.stack), Path(w.stack);
    HasShape(n, at);
    var lead := Leading(n, at, owner, path, w.rows);
    LeadingExact(w, n, at);
    StackAfter(w, lead);
    var w1 := After(w, lead);
    var below := Middle(n, at, owner, path, w1.rows);
    MiddleExact(w1, n, at);
    StackAfter(w1, below);
    var w2 := After(w1, below);
    TrailingExact(w2, n, at);
    EmitAppend(w1, MiddleItems(n, at), TrailItems(n, at));
    EmitAppend(w, LeadItems(n, at), MiddleItems(n, at) + TrailItems(n, at));
    var trail := Trailing(n, at, owner, path, w2.rows);
    AfterBoth(w1, below, trail);
    AfterBoth(w, lead, Both(below, trail));
  }

  lemma {:induction false} MiddleExact(w: Out, n: Syntax, at: Place)
    requires Stands(w, at)
    ensures EmitAll(w, MiddleItems(n, at)) == After(w, Middle(n, at, TopRow(w.stack), Path(w.stack), w.rows))
    decreases n, 0
  {
    hide EmitItem, EmitAll, Path, TopRow, After, Declares, Received, Opened, Joined, Both, InsideClassLike, AllAt;
    var head, place := Makes(n, at), Within(n, at);
    if head.None? {
      AllSeenExact(w, n.children, 0, place);
    } else {
      var it := Headed(n, head.value, AllAt(n.children, 0, place));
      if it.name == "" {
        NamelessEmits(w, it);
        AfterNothing(w, NOTHING);
      } else {
        OpenedExact(w, it);
        var entered := Opened(w, it);
        EnteredStands(w, n, at, it.inner);
        AllSeenExact(entered, n.children, 0, place);
        var inner := SeenAll(n.children, 0, place, |w.rows|, Joined(Path(w.stack), it.name), entered.rows);
        AfterNothing(After(entered, inner), inner);
        DeclExact(w, it, inner, NOTHING);
        if head.value.receiver.Some? {
          assert InsideClassLike(w.stack) == at.InStruct?;
        }
      }
    }
  }

  lemma EnteredStands(w: Out, n: Syntax, at: Place, below: seq<Item>)
    requires Makes(n, at).Some?
    ensures Stands(Opened(w, Headed(n, Makes(n, at).value, below)), Within(n, at))
  {
    hide Path, Joined, TopRow, FirstOwner;
    OpenedExact(w, Headed(n, Makes(n, at).value, below));
  }

  lemma {:induction false} AllSeenExact(w: Out, ns: seq<Syntax>, i: nat, at: Place)
    requires Stands(w, at)
    ensures EmitAll(w, AllAt(ns, i, at)) == After(w, SeenAll(ns, i, at, TopRow(w.stack), Path(w.stack), w.rows))
    decreases ns, 0, |ns| - i
  {
    hide EmitItem, Path, TopRow, After, ItemsAt, AllAt, Seen;
    AllAtStep(ns, i, at);
    if i < |ns| {
      var first := Seen(ns[i], at, TopRow(w.stack), Path(w.stack), w.rows);
      EmitAppend(w, ItemsAt(ns[i], at), AllAt(ns, i + 1, at));
      SeenExact(w, ns[i], at);
      StackAfter(w, first);
      AllSeenExact(After(w, first), ns, i + 1, at);
      AfterBoth(w, first, SeenAll(ns, i + 1, at, TopRow(w.stack), Path(w.stack), w.rows + first.rows));
    } else {
      AfterNothing(w, NOTHING);
    }
  }

  /**
   * The tables of every Go file, exactly: a row for each declaration reached,
   * with its kind, name, line and qualified name, contained in what encloses it
   * and, for a receiver's method, in the first type of that name before it; and
   * the references each reached node makes, from the row of its innermost
   * declaration.
   */
  lemma GoFileExact(file: string, root: Syntax)
    ensures EmitAll(Start(file), Items(root, false))
         == After(Start(file), Seen(root, Outside, 0, "", [Row(File, file, 1, file)]))
  {
    hide EmitItem, EmitAll, After, Seen, Items;
    assert Path([]) == "" && Path(Start(file).stack) == "";
    SeenExact(Start(file), root, Outside);
  }
}
