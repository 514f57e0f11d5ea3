// Exactly what a Java file leaves in the tables, read off the tree node by node.

module JavaFacts {
  import opened Wrappers
  import opened ScopeWalk
  import opened ScopeEmitter
  import opened ScopeTheorems
  import opened ScopeFacts
  import opened JavaWalk

  // ---------------------------------------------------------------- one node at a time

  /** What surrounds a node: everything below a method's or an initializer's body is in it, but for the types there. */
  datatype Place = Outside | InClass | InEnum | InField(isConst: bool, uses: Uses) | InLocals(isConst: bool) | InBody | Unseen

  predicate AmongMembers(at: Place) { at.Outside? || at.InClass? || at.InEnum? }

  /** What the node itself refers to. */
  function Says(n: Syntax, at: Place): Uses {
    match n.kind
    case Invocation(callee) => if AmongMembers(at) || at.InBody? then [(Calls, callee)] else []
    case Creation(created, _) => if AmongMembers(at) || at.InBody? then [(Instantiates, created)] else []
    case FieldAccess(read) => if at.InBody? then [(References, read)] else []
    case ImportDeclaration(target) => if AmongMembers(at) then [(Imports, target)] else []
    case _ => []
  }

  datatype Head = Head(kind: DeclKind, name: string, uses: Uses)

  /** The declaration the node makes. */
  function Makes(n: Syntax, at: Place): Option<Head> {
    match n.kind
    case ClassDeclaration(name, uses, _) =>
      if AmongMembers(at) || at.InBody? then Some(Head(Class, name, uses)) else None
    case InterfaceDeclaration(name, uses) =>
      if AmongMembers(at) || at.InBody? then Some(Head(Interface, name, uses)) else None
    case EnumDeclaration(name, uses, hasBody) =>
      if (AmongMembers(at) || at.InBody?) && hasBody then Some(Head(Enum, name, uses)) else None
    case MethodDeclaration(name, uses) =>
      if at.InClass? || at.InEnum? then Some(Head(Method, name, uses))
      else if at.Outside? && name != "<anonymous>" then Some(Head(Function, name, uses))
      else None
    case EnumConstant(name) => if at.InEnum? then Some(Head(EnumMember, name, [])) else None
    case FieldDeclaration(isConst, bare, _) =>
      if (at.InClass? || at.InEnum?) && (forall c <- n.children :: !c.kind.Declarator?)
      then Some(Head(if isConst then Constant else Field, bare, []))
      else None
    case Declarator(name) =>
      if at.InField? then Some(Head(if at.isConst then Constant else Field, name, at.uses))
      else if at.InLocals? && name != "" && name != "<anonymous>" then Some(Head(if at.isConst then Constant else Variable, name, []))
      else None
    case Identifier(text) =>
      if at.InLocals? && text != "" && text != "<anonymous>" then Some(Head(if at.isConst then Constant else Variable, text, [])) else None
    case ImportDeclaration(target) => if AmongMembers(at) && target != "" then Some(Head(Import, target, [])) else None
    case Creation(created, anonymous) =>
      if (AmongMembers(at) || at.InBody?) && anonymous then
        var t := if created == "" then "Object" else created;
        Some(Head(Class, "<" + t + "$anon@" + Decimal(n.line) + ">", [(Extends, t)]))
      else None
    case _ => None
  }

  /** Where the node's children stand. */
  function Within(n: Syntax, at: Place): Place {
    if !AmongMembers(at) && !at.InBody? then (if at.InField? && n.kind.Declarator? then InBody else Unseen)
    else
      match n.kind
      case ClassDeclaration(_, _, _) => InClass
      case InterfaceDeclaration(_, _) => InClass
      case EnumDeclaration(_, _, hasBody) => if hasBody then InEnum else Unseen
      case Creation(_, anonymous) => if anonymous then InClass else Onward(at)
      case MethodDeclaration(_, _) => InBody
      case EnumConstant(_) => if at.InEnum? then Unseen else at
      case FieldDeclaration(isConst, _, uses) =>
        if at.Outside? || at.InBody? then at
        else if exists c <- n.children :: c.kind.Declarator? then InField(isConst, uses)
        else Unseen
      case LocalDeclaration(isConst) => if at.Outside? then InLocals(isConst) else Onward(at)
      case _ => Onward(at)
  }

  /** Enum constants are children of the enum's body alone. */
  function Onward(at: Place): Place { if at.InEnum? then InClass else at }

  /** The members a class asks for. */
  function Asks(n: Syntax): Synth { if n.kind.ClassDeclaration? then n.kind.synth else NoSynth }

  /** The number a row of digits spells. */
  function Spelled(digits: string): int
  {
    if digits == "" then 0 else 10 * Spelled(digits[..|digits| - 1]) + (digits[|digits| - 1] as int - '0' as int)
  }

  /** An anonymous class is named with its line in decimal digits. */
  lemma {:induction false} DecimalSpells(n: nat)
    ensures Spelled(Decimal(n)) == n && forall c <- Decimal(n) :: '0' <= c <= '9'
    decreases n
  {
    assert forall k :: 0 <= k < 10 ==> "0123456789"[k] as int == '0' as int + k;
    var d := "0123456789"[n % 10];
    if n < 10 {
      assert Decimal(n) == [d] && [d][..0] == "";
      assert Spelled("") == 0;
    } else {
      DecimalSpells(n / 10);
      assert Decimal(n)[..|Decimal(n)| - 1] == Decimal(n / 10);
    }
  }

  // ---------------------------------------------------------------- the whole tree

  /**
   * Everything found at and below the node: what it refers to, from row `owner`
   * around it, and its own row, contained in `owner`; below a declaration other
   * than an import the owner is the declaration's row. `path` names the
   * surroundings, and `rows` are the rows so far.
   */
  function Seen(n: Syntax, at: Place, owner: nat, path: string, rows: seq<Row>): Found
    decreases n, 1
  {
    var said := Refers(owner, Says(n, at));
    var head := Makes(n, at);
    if head.None? then Both(said, SeenAll(n.children, 0, Within(n, at), owner, path, rows))
    else if n.kind.ImportDeclaration? then
      var made := Declares(Import, n.kind.target, n.line, Joined(path, n.kind.target), owner, |rows|, []);
      Both(made, Both(said, SeenAll(n.children, 0, Within(n, at), owner, path, rows + made.rows)))
    else Both(said, SeenOf(n, at, head.value, owner, path, rows))
  }

  /** A declaration: its row, everything below it, and the members it asks for; a nameless one hides what is below. */
  function SeenOf(n: Syntax, at: Place, head: Head, owner: nat, path: string, rows: seq<Row>): Found
    decreases n, 0
  {
    if head.name == "" then NOTHING
    else
      var row, name := |rows|, Joined(path, head.name);
      var made := Declares(head.kind, head.name, n.line, name, owner, row, head.uses);
      var inner := SeenAll(n.children, 0, Within(n, at), row, name, rows + made.rows);
      Both(made, Both(inner, Members(Asks(n), name, row, rows + made.rows + inner.rows)))
  }

  function SeenAll(ns: seq<Syntax>, i: nat, at: Place, owner: nat, path: string, rows: seq<Row>): Found
    decreases ns, 0, |ns| - i
  {
    if i >= |ns| then NOTHING
    else
      var first := Seen(ns[i], at, owner, path, rows);
      Both(first, SeenAll(ns, i + 1, at, owner, path, rows + first.rows))
  }

  // ---------------------------------------------------------------- the items of a node in its place

  function ItemsAt(n: Syntax, at: Place): seq<Item> {
    match at
    case Outside => Items(n, false)
    case InClass => Items(n, true)
    case InEnum => OneEnumMember(n)
    case InField(isConst, uses) =>
      if n.kind.Declarator? then [InScope(FieldKind(isConst), n.kind.name, n.line, uses, BodyAll(n.children, 0))] else []
    case InLocals(isConst) => Local(n, isConst)
    case InBody => BodyItems(n)
    case Unseen => []
  }

  function AllAt(ns: seq<Syntax>, i: nat, at: Place): seq<Item> {
    match at
    case Outside => ItemsAll(ns, i, false)
    case InClass => ItemsAll(ns, i, true)
    case InEnum => EnumMembers(ns, i)
    case InField(isConst, uses) => Fields(ns, i, isConst, uses)
    case InLocals(isConst) => Locals(ns, i, isConst)
    case InBody => BodyAll(ns, i)
    case Unseen => []
  }

  lemma AllAtStep(ns: seq<Syntax>, i: nat, at: Place)
    ensures AllAt(ns, i, at) == if i >= |ns| then [] else ItemsAt(ns[i], at) + AllAt(ns, i + 1, at)
  {
    hide Items, BodyItems, OneEnumMember, Local;
  }

  /** The item of a declaration, around what is below it. */
  function Headed(n: Syntax, at: Place, h: Head): Item {
    Decl(h.kind, h.name, n.line, h.kind, h.uses, None, AllAt(n.children, 0, Within(n, at)), Asks(n))
  }

  /** The items of a node: its references, its declaration, and the items of its children. */
  function Shape(n: Syntax, at: Place): seq<Item> {
    var says, head := Sayings(Says(n, at)), Makes(n, at);
    if head.None? then says + AllAt(n.children, 0, Within(n, at))
    else if n.kind.ImportDeclaration? then [Leaf(Import, n.kind.target, n.line)] + (says + AllAt(n.children, 0, Within(n, at)))
    else says + [Headed(n, at, head.value)]
  }

  lemma OneSaying(kind: RefKind, name: string)
    ensures Sayings([(kind, name)]) == Mentioned(kind, name)
  {
    assert [(kind, name)][1..] == [];
    assert Mentioned(kind, name) + [] == Mentioned(kind, name);
  }

  lemma NothingAround(items: seq<Item>)
    ensures [] + items == items && items + [] == items
  {}

  lemma HasShape(n: Syntax, at: Place)
    ensures ItemsAt(n, at) == Shape(n, at)
  {
    hide Shape, ItemsAt;
    match n.kind
    case Invocation(_) => MentionShape(n, at);
    case Creation(_, _) => MentionShape(n, at);
    case FieldAccess(_) => MentionShape(n, at);
    case ImportDeclaration(_) => ImportShape(n, at);
    case FieldDeclaration(_, _, _) => FieldShape(n, at);
    case ClassDeclaration(_, _, _) => TypeShape(n, at);
    case InterfaceDeclaration(_, _) => TypeShape(n, at);
    case EnumDeclaration(_, _, _) => TypeShape(n, at);
    case _ => OtherShape(n, at);
  }

  lemma MentionShape(n: Syntax, at: Place)
    requires n.kind.Invocation? || n.kind.Creation? || n.kind.FieldAccess?
    ensures ItemsAt(n, at) == Shape(n, at)
  {
    hide Sayings, ItemsAll, BodyAll, EnumMembers, Fields, Locals, Decimal, Mentioned;
    PlainShapes(n, at);
    match n.kind
    case Invocation(callee) => OneSaying(Calls, callee);
    case Creation(created, _) => OneSaying(Instantiates, created);
    case FieldAccess(read) => OneSaying(References, read);
  }

  /** What every shape needs: nothing said is no item, and only constants are special to an enum. */
  lemma PlainShapes(n: Syntax, at: Place)
    ensures Sayings([]) == []
    ensures forall items: seq<Item> :: [] + items == items && items + [] == items
    ensures at.InEnum? && !n.kind.EnumConstant? ==> OneEnumMember(n) == Items(n, true)
  {
    NoSayings();
    forall items ensures [] + items == items && items + [] == items {
      NothingAround(items);
    }
  }

  lemma ImportShape(n: Syntax, at: Place)
    requires n.kind.ImportDeclaration?
    ensures ItemsAt(n, at) == Shape(n, at)
  {
    hide Sayings, ItemsAll, BodyAll, EnumMembers, Fields, Locals;
    var target := n.kind.target;
    PlainShapes(n, at);
    OneSaying(Imports, target);
    ImportGroups([Leaf(Import, target, n.line)], Mention(Imports, target), AllAt(n.children, 0, Within(n, at)));
  }

  lemma OtherShape(n: Syntax, at: Place)
    requires !n.kind.Invocation? && !n.kind.Creation? && !n.kind.FieldAccess? && !n.kind.ImportDeclaration?
    requires !n.kind.FieldDeclaration? && !n.kind.ClassDeclaration? && !n.kind.InterfaceDeclaration? && !n.kind.EnumDeclaration?
    ensures ItemsAt(n, at) == Shape(n, at)
  {
    hide Sayings, ItemsAll, BodyAll, EnumMembers, Fields, Locals;
    PlainShapes(n, at);
  }

  lemma FieldShape(n: Syntax, at: Place)
    requires n.kind.FieldDeclaration?
    ensures ItemsAt(n, at) == Shape(n, at)
  {
    hide ItemsAll, BodyAll, EnumMembers, Fields, Locals;
    PlainShapes(n, at);
    assert HasDeclarator(n.children) <==> exists c <- n.children :: c.kind.Declarator? by {
      if c :| c in n.children && c.kind.Declarator? {
        var k :| 0 <= k < |n.children| && n.children[k] == c;
        assert n.children[k].kind.Declarator?;
      }
    }
  }

  lemma TypeShape(n: Syntax, at: Place)
    requires n.kind.ClassDeclaration? || n.kind.InterfaceDeclaration? || n.kind.EnumDeclaration?
    ensures ItemsAt(n, at) == Shape(n, at)
  {
    hide ItemsAll, BodyAll, EnumMembers, Fields, Locals;
    PlainShapes(n, at);
    if at.InBody? {
      assert BodyItems(n) == Items(n, false);
    }
  }

  lemma ImportGroups(leaf: seq<Item>, mention: Item, rest: seq<Item>)
    requires |leaf| == 1
    ensures [leaf[0], mention] + rest == leaf + ([mention] + rest)
  {}

  lemma NoSayings()
    ensures Sayings([]) == []
  {}

  // ---------------------------------------------------------------- the walk finds exactly that

  /** A node's items, walked from anywhere, add exactly what is seen at and below it. */
  lemma {:induction false} SeenExact(w: Out, n: Syntax, at: Place)
    ensures EmitAll(w, ItemsAt(n, at)) == After(w, Seen(n, at, TopRow(w.stack), Path(w.stack), w.rows))
    decreases n, 1
  {
    hide EmitItem, EmitAll, Path, TopRow, After, Refers, Declares, Says, Makes, Within, Members, Sayings, ItemsAt;
    var owner, path := TopRow(w.stack), Path(w.stack);
    var says, head := Says(n, at), Makes(n, at);
    var said := Refers(owner, says);
    HasShape(n, at);
    SayingsExact(w, says);
    StackAfter(w, said);
    SaidAddsNoRows(owner, says);
    if head.None? {
      var below := AllAt(n.children, 0, Within(n, at));
      EmitAppend(w, Sayings(says), below);
      AllSeenExact(After(w, said), n.children, 0, Within(n, at));
      AfterBoth(w, said, SeenAll(n.children, 0, Within(n, at), owner, path, w.rows));
    } else if n.kind.ImportDeclaration? {
      ImportSeen(w, n, at);
    } else {
      EmitAppend(w, Sayings(says), [Headed(n, at, head.value)]);
      DeclSeen(After(w, said), n, at, head.value);
      assert w.rows + said.rows == w.rows;
      AfterBoth(w, said, SeenOf(n, at, head.value, owner, path, w.rows));
    }
  }

  lemma {:induction false} ImportSeen(w: Out, n: Syntax, at: Place)
    requires n.kind.ImportDeclaration? && Makes(n, at).Some?
    ensures EmitAll(w, Shape(n, at)) == After(w, Seen(n, at, TopRow(w.stack), Path(w.stack), w.rows))
    decreases n, 0
  {
    hide EmitItem, EmitAll, Path, TopRow, After, Refers, Declares, Says, Sayings;
    var owner, path := TopRow(w.stack), Path(w.stack);
    var leaf, says := [Leaf(Import, n.kind.target, n.line)], Says(n, at);
    var made := Declares(Import, n.kind.target, n.line, Joined(path, n.kind.target), owner, |w.rows|, []);
    var said := Refers(owner, says);
    LeafExact(w, Import, n.kind.target, n.line);
    StackAfter(w, made);
    var w1 := After(w, made);
    SayingsExact(w1, says);
    SaidAddsNoRows(owner, says);
    StackAfter(w1, said);
    var w2 := After(w1, said);
    AllSeenExact(w2, n.children, 0, Within(n, at));
    var below := SeenAll(n.children, 0, Within(n, at), owner, path, w.rows + made.rows);
    EmitAppend(w1, Sayings(says), AllAt(n.children, 0, Within(n, at)));
    EmitAppend(w, leaf, Sayings(says) + AllAt(n.children, 0, Within(n, at)));
    AfterBoth(w1, said, below);
    AfterBoth(w, made, Both(said, below));
    assert w1.rows + said.rows == w1.rows;
  }

  lemma {:induction false} DeclSeen(w: Out, n: Syntax, at: Place, head: Head)
    ensures EmitAll(w, [Headed(n, at, head)]) == After(w, SeenOf(n, at, head, TopRow(w.stack), Path(w.stack), w.rows))
    decreases n, 0
  {
    hide EmitItem, EmitAll, Path, TopRow, After, Declares, Members, Within, Synthesize, Opened, Joined, Both;
    var it := Headed(n, at, head);
    if head.name == "" {
      NamelessEmits(w, it);
      AfterNothing(w, NOTHING);
    } else {
      var row, name := |w.rows|, Joined(Path(w.stack), head.name);
      var made := Declares(head.kind, head.name, n.line, name, TopRow(w.stack), row, head.uses);
      var rows := w.rows + made.rows;
      var inner := SeenAll(n.children, 0, Within(n, at), row, name, rows);
      OpenedExact(w, it);
      var entered := Opened(w, it);
      DeclaresRow(head.kind, head.name, n.line, name, TopRow(w.stack), row, head.uses);
      AllSeenExact(entered, n.children, 0, Within(n, at));
      StackAfter(entered, inner);
      MembersExact(After(entered, inner), Asks(n), row);
      DeclExact(w, it, inner, Members(Asks(n), name, row, rows + inner.rows));
    }
  }

  lemma {:induction false} AllSeenExact(w: Out, ns: seq<Syntax>, i: nat, at: Place)
    ensures EmitAll(w, AllAt(ns, i, at)) == After(w, SeenAll(ns, i, at, TopRow(w.stack), Path(w.stack), w.rows))
    decreases ns, 0, |ns| - i
  {
    hide EmitItem, Path, TopRow, After, ItemsAt, AllAt, Seen;
    AllAtStep(ns, i, at);
    if i < |ns| {
      var first := Seen(ns[i], at, TopRow(w.stack), Path(w.stack), w.rows);
      EmitAppend(w, ItemsAt(ns[i], at), AllAt(ns, i + 1, at));
      SeenExact(w, ns[i], at);
      StackAfter(w, first);
      AllSeenExact(After(w, first), ns, i + 1, at);
      AfterBoth(w, first, SeenAll(ns, i + 1, at, TopRow(w.stack), Path(w.stack), w.rows + first.rows));
    } else {
      AfterNothing(w, NOTHING);
    }
  }

  /** A file: everything, from its row on, and inside the namespace of its package if it names one. */
  function FileSeen(file: string, package: string, line: nat, root: Syntax): Found {
    var rows := [Row(File, file, 1, file)];
    if package == "" then Seen(root, Outside, 0, "", rows)
    else
      var made := Declares(Namespace, package, line, package, 0, 1, []);
      Both(made, Seen(root, Outside, 1, package, rows + made.rows))
  }

  /**
   * The tables of every Java file, exactly: a row for each declaration reached,
   * with its kind, name, line and qualified name, contained in what encloses it
   * and in nothing else, and the references each reached node makes, from the
   * row of its innermost declaration.
   */
  lemma JavaFileExact(file: string, package: string, line: nat, root: Syntax)
    ensures EmitAll(Start(file), FileItems(package, line, root)) == After(Start(file), FileSeen(file, package, line, root))
  {
    hide EmitItem, EmitAll, After, Items, Seen, Declares;
    var start := Start(file);
    StartPath(file);
    if package == "" {
      SeenExact(start, root, Outside);
    } else {
      var it := InScope(Namespace, package, line, [], Items(root, false));
      OpenedExact(start, it);
      var entered := Opened(start, it);
      SeenExact(entered, root, Outside);
      var inner := Seen(root, Outside, 1, package, entered.rows);
      AfterNothing(After(entered, inner), inner);
      DeclExact(start, it, inner, NOTHING);
    }
  }

  lemma StartPath(file: string)
    ensures Path(Start(file).stack) == "" && TopRow(Start(file).stack) == 0
  {
    assert Path([]) == "";
  }
}
