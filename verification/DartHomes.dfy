// From which declarations the double walk records each site: any selection of the bodies around it.

module DartHomes {
  import opened ScopeWalk
  import opened DartWalk
  import opened DartCounts

  // ---------------------------------------------------------------- what the tables say

  /** A declaration to stand in: its row, and the path of names that those inside begin with. */
  datatype Place = Place(row: NodeRow, path: string)

  /** A reference with the row it comes from, or a row with the row that contains it. */
  datatype Fact = Said(kind: RefKind, name: string, pos: nat, home: NodeRow) | Made(row: NodeRow, home: NodeRow)

  /** Row k is the target of containment edge k - 1 and of no other, and all indices are in range. */
  ghost predicate Tabled(w: Tables) {
    && |w.rows| == |w.edges| + 1
    && (forall k :: 0 <= k < |w.edges| ==> w.edges[k].target == k + 1 && w.edges[k].source < |w.rows|)
    && (forall k :: 0 <= k < |w.refs| ==> w.refs[k].from < |w.rows|)
  }

  function SaidBy(w: Tables): seq<Fact>
    requires Tabled(w)
  {
    seq(|w.refs|, k requires 0 <= k < |w.refs| => Said(w.refs[k].kind, w.refs[k].name, w.refs[k].pos, w.rows[w.refs[k].from]))
  }

  function MadeBy(w: Tables): seq<Fact>
    requires Tabled(w)
  {
    seq(|w.edges|, k requires 0 <= k < |w.edges| => Made(w.rows[k + 1], w.rows[w.edges[k].source]))
  }

  function Facts(w: Tables): multiset<Fact>
    requires Tabled(w)
  {
    multiset(SaidBy(w)) + multiset(MadeBy(w))
  }

  // ---------------------------------------------------------------- what the tree says

  /** The id of what a node declares. */
  function Declared(n: Node): (id: Id)
  {
    match n.kind
    case FunctionSignature(name, line, _) => Id(Function, name, line)
    case MethodSignature(name, line, _) => Id(Method, name, line)
    case ClassDefinition(name, line) => Id(Class, name, line)
    case EnumDeclaration(name, line, _) => Id(Enum, name, line)
    case EnumConstant(name, line) => Id(EnumMember, name, line)
    case StaticFinal(name, line) => Id(Constant, name, line)
    case AliasDeclaration(name, line) => Id(TypeAlias, name, line)
    case ImportOrExport(target, line) => Id(Import, target, line)
    case _ => Id(File, "", 0)
  }

  /** Whether the node makes a row: nothing nameless, no unnamed constructor, no enum without a body. */
  predicate MakesRow(n: Node) {
    match n.kind
    case FunctionSignature(name, _, unnamed) => name != "<anonymous>" && !unnamed
    case MethodSignature(_, _, unnamed) => !unnamed
    case ClassDefinition(_, _) => true
    case EnumDeclaration(_, _, hasBody) => hasBody
    case EnumConstant(name, _) => name != ""
    case StaticFinal(_, _) => true
    case AliasDeclaration(name, _) => name != "<anonymous>"
    case ImportOrExport(target, _) => target != ""
    case _ => false
  }

  /** The row of a declaration that stands in a place: named by the path to it. */
  function RowIn(p: Place, n: Node): NodeRow {
    var id := Declared(n);
    NodeRow(id, if p.path == "" then id.name else p.path + "::" + id.name, n.pos)
  }

  /** The place inside a declaration; a signature without a row leaves the place as it is. */
  function Enter(p: Place, n: Node): Place {
    if MakesRow(n) then Place(RowIn(p, n), RowIn(p, n).qualified) else p
  }

  /** The nodes that only a body's own walk records. */
  predicate InBodiesOnly(n: Node) { n.kind.Call? || n.kind.StaticMember? }

  /** What a node itself says from a place. */
  function Own(n: Node, p: Place): multiset<Fact> {
    match n.kind
    case Call(callee) => multiset{Said(Calls, callee, n.pos, p.row)}
    case StaticMember(receiver, at) => multiset{Said(References, receiver, at, p.row)}
    case New(className) => if className == "" then multiset{} else multiset{Said(Instantiates, className, n.pos, p.row)}
    case ImportOrExport(target, _) =>
      if target == "" then multiset{} else multiset{Made(RowIn(p, n), p.row), Said(Imports, target, n.pos, p.row)}
    case _ => if MakesRow(n) then multiset{Made(RowIn(p, n), p.row)} else multiset{}
  }

  /** A declaration around a site: a type always counts, a body may be entered through its signature or passed over. */
  datatype Frame = OfType(node: Node) | OfBody(node: Node)

  /** A node, and the frames around it from the outside in. */
  datatype Site = Site(node: Node, frames: seq<Frame>)

  function Under(f: Frame, sites: seq<Site>): seq<Site> {
    seq(|sites|, k requires 0 <= k < |sites| => Site(sites[k].node, [f] + sites[k].frames))
  }

  /** Every node of `ns[i..]` and below that the walk looks at. */
  function Sites(ns: seq<Node>, i: nat): seq<Site>
    decreases ListSize(ns, i)
  {
    if i >= |ns| then []
    else
      SizeBelow(ns, i, 0); SizeShrinks(ns, i);
      var below := if Entered(ns[i].kind) then Sites(ns[i].children, 0) else [];
      [Site(ns[i], [])]
      + (if ns[i].kind.ClassDefinition? || ns[i].kind.EnumDeclaration? then Under(OfType(ns[i]), below)
         else if Paired(ns, i) then Under(OfBody(ns[i - 1]), below)
         else below)
      + Sites(ns, i + 1)
  }

  /** The places a site is recorded from: every body around it entered or passed over, and one entered where one must be. */
  function Homes(p: Place, frames: seq<Frame>, inBody: bool): seq<Place>
    decreases |frames|
  {
    if frames == [] then (if inBody then [] else [p])
    else match frames[0]
      case OfType(n) => Homes(Enter(p, n), frames[1..], inBody)
      case OfBody(sig) => Homes(Enter(p, sig), frames[1..], false) + Homes(p, frames[1..], inBody)
  }

  function OwnFrom(n: Node, homes: seq<Place>): multiset<Fact> {
    if homes == [] then multiset{} else Own(n, homes[0]) + OwnFrom(n, homes[1..])
  }

  /** Everything the sites say, walked from a place, outside a body or within one. */
  function SitesSay(sites: seq<Site>, p: Place, within: bool): multiset<Fact> {
    if sites == [] then multiset{}
    else OwnFrom(sites[0].node, Homes(p, sites[0].frames, !within && InBodiesOnly(sites[0].node))) + SitesSay(sites[1..], p, within)
  }

  // ---------------------------------------------------------------- the same, in the order of the walk

  /** What the walk of `ns[i..]` says from a place: at a signature it goes on to the body, from inside. */
  function Told(ns: seq<Node>, i: nat, p: Place, within: bool): multiset<Fact>
    decreases ListSize(ns, i)
  {
    if i >= |ns| then multiset{}
    else
      SizeBelow(ns, i, 0); SizeShrinks(ns, i);
      ToldAt(ns, i, p, within) + Told(ns, i + 1, p, within)
  }

  function ToldAt(ns: seq<Node>, i: nat, p: Place, within: bool): multiset<Fact>
    requires i < |ns|
    decreases ListSize(ns, i), 1
  {
    SizeBelow(ns, i, 0);
    var n := ns[i];
    if IsSignature(n.kind) then Own(n, p) + Inside(ns, i, p)
    else
      (if InBodiesOnly(n) && !within then multiset{} else Own(n, p))
      + if !Entered(n.kind) then multiset{}
        else Told(n.children, 0, if n.kind.ClassDefinition? || n.kind.EnumDeclaration? then Enter(p, n) else p, within)
  }

  /** The body of the signature `ns[i]`, told from inside. */
  function Inside(ns: seq<Node>, i: nat, p: Place): multiset<Fact>
    requires i < |ns|
    decreases ListSize(ns, i), 0
  {
    if Paired(ns, i + 1) then
      SizeShrinks(ns, i); SizeBelow(ns, i + 1, 0);
      Told(ns[i + 1].children, 0, Enter(p, ns[i]), true)
    else multiset{}
  }

  // ---------------------------------------------------------------- single steps of the tables

  /** The scope on top is the place. */
  ghost predicate Stands(w: Tables, p: Place) {
    && Tabled(w) && w.stack != [] && TopRow(w.stack) < |w.rows|
    && w.rows[TopRow(w.stack)] == p.row && Path(w.stack) == p.path
  }

  /** `w` grown to `g` by these facts, back in the same scope. */
  ghost predicate Grew(w: Tables, g: Tables, f: multiset<Fact>) {
    Tabled(w) && Tabled(g) && w.rows <= g.rows && g.stack == w.stack && Facts(g) == Facts(w) + f
  }

  lemma StillStands(w: Tables, g: Tables, p: Place, f: multiset<Fact>)
    requires Stands(w, p) && Grew(w, g, f)
    ensures Stands(g, p)
  {
    hide Facts;
  }

  lemma GrewTwice(w: Tables, g: Tables, h: Tables, a: multiset<Fact>, b: multiset<Fact>)
    requires Grew(w, g, a) && Grew(g, h, b)
    ensures Grew(w, h, a + b)
  {
    hide Facts, Tabled;
  }

  lemma GrewNot(w: Tables)
    requires Tabled(w)
    ensures Grew(w, w, multiset{})
  {
    hide Facts;
  }

  lemma RefSays(w: Tables, p: Place, kind: RefKind, name: string, pos: nat)
    requires Stands(w, p)
    ensures Grew(w, AddRef(w, kind, name, pos), multiset{Said(kind, name, pos, p.row)})
  {
    var g := AddRef(w, kind, name, pos);
    assert SaidBy(g) == SaidBy(w) + [Said(kind, name, pos, p.row)];
    assert MadeBy(g) == MadeBy(w);
  }

  lemma RowMade(w: Tables, p: Place, n: Node, kind: DeclKind, name: string, line: nat)
    requires Stands(w, p) && name != "" && Declared(n) == Id(kind, name, line)
    ensures Grew(w, AddRow(w, kind, name, line, n.pos), multiset{Made(RowIn(p, n), p.row)})
    ensures AddRow(w, kind, name, line, n.pos).rows == w.rows + [RowIn(p, n)]
  {
    hide Path;
    var g := AddRow(w, kind, name, line, n.pos);
    assert SaidBy(g) == SaidBy(w);
    assert MadeBy(g) == MadeBy(w) + [Made(RowIn(p, n), p.row)];
  }

  lemma PathGrows(stack: seq<Scope>, s: Scope)
    requires !s.kind.File?
    ensures Path(stack + [s]) == Joined(Path(stack), s.name) && TopRow(stack + [s]) == s.row
  {
    assert (stack + [s])[..|stack|] == stack;
  }

  /** Inside a new row's scope the place is the one entered. */
  lemma EnterStands(w: Tables, p: Place, n: Node, kind: DeclKind, name: string, line: nat)
    requires Stands(w, p) && name != "" && Declared(n) == Id(kind, name, line) && MakesRow(n)
    ensures Stands(DartWalk.Enter(AddRow(w, kind, name, line, n.pos), kind, name, |w.rows|), Enter(p, n))
  {
    hide Facts, Path;
    RowMade(w, p, n, kind, name, line);
    PathGrows(w.stack, Scope(|w.rows|, kind, name));
  }

  /** What is told inside a pushed scope is told also when it is left. */
  lemma LeftAgain(w: Tables, made: Tables, entered: Tables, g: Tables, a: multiset<Fact>, b: multiset<Fact>)
    requires Grew(w, made, a) && entered == made.(stack := entered.stack) && Grew(entered, g, b)
    ensures Grew(w, Back(g, w.stack), a + b)
  {
    hide Facts;
    SameTables(made, entered);
    SameTables(g, Back(g, w.stack));
    GrewTwice(w, made, Back(g, w.stack), a, b);
  }

  lemma SameTables(w: Tables, g: Tables)
    requires Tabled(w) && g == w.(stack := g.stack)
    ensures Tabled(g) && Facts(g) == Facts(w)
  {
    assert SaidBy(g) == SaidBy(w) && MadeBy(g) == MadeBy(w);
  }

  // ---------------------------------------------------------------- the body walk

  lemma {:induction false} BodyAllTold(w: Tables, ns: seq<Node>, i: nat, p: Place)
    requires Placed(ns, i, InBody) && Stands(w, p)
    ensures Grew(w, BodyAll(w, ns, i), Told(ns, i, p, true))
    decreases ListSize(ns, i), 4
  {
    hide Stands, Grew, ToldAt, VisitBody, ListSize, NodeSize;
    if i < |ns| {
      SizeShrinks(ns, i);
      SizeBelow(ns, i, 0);
      var next := VisitBody(w, ns, i);
      BodyTold(w, ns, i, p);
      StillStands(w, next, p, ToldAt(ns, i, p, true));
      BodyAllTold(next, ns, i + 1, p);
      GrewTwice(w, next, BodyAll(next, ns, i + 1), ToldAt(ns, i, p, true), Told(ns, i + 1, p, true));
    } else {
      StandsTabled(w, p);
      GrewNot(w);
    }
  }

  lemma StandsTabled(w: Tables, p: Place)
    requires Stands(w, p)
    ensures Tabled(w) && w.stack != []
  {}

  lemma {:induction false} BodyTold(w: Tables, ns: seq<Node>, i: nat, p: Place)
    requires i < |ns| && Placed(ns, i, InBody) && Stands(w, p)
    ensures Grew(w, VisitBody(w, ns, i), ToldAt(ns, i, p, true))
    decreases ListSize(ns, i), 3
  {
    hide Stands, Grew, ListSize, NodeSize, Inside, AddRef, Told;
    SizeShrinks(ns, i);
    SizeBelow(ns, i, 0);
    var n := ns[i];
    StandsTabled(w, p);
    match n.kind
    case FunctionSignature(_, _, _) =>
      FunctionTold(w, ns, i, p, InBody);
    case New(c) =>
      if c == "" {
        BodyAllTold(w, n.children, 0, p);
        NothingOwn(Told(n.children, 0, p, true));
      } else {
        SaidThenBelow(w, n, p, Instantiates, c, n.pos);
      }
    case Call(c) => SaidThenBelow(w, n, p, Calls, c, n.pos);
    case StaticMember(c, at) => SaidThenBelow(w, n, p, References, c, at);
    case FunctionBody => BelowTold(w, ns, i, p);
    case Plain => BelowTold(w, ns, i, p);
    case _ =>
  }

  lemma {:induction false} BelowTold(w: Tables, ns: seq<Node>, i: nat, p: Place)
    requires i < |ns| && Placed(ns, i, InBody) && Stands(w, p) && (ns[i].kind.FunctionBody? || ns[i].kind.Plain?)
    ensures Grew(w, VisitBody(w, ns, i), ToldAt(ns, i, p, true))
    decreases ListSize(ns, i), 2
  {
    hide Stands, Grew, ListSize, NodeSize, Told, BodyAll;
    SizeBelow(ns, i, 0);
    BodyAllTold(w, ns[i].children, 0, p);
    NothingOwn(Told(ns[i].children, 0, p, true));
  }

  lemma {:induction false} SaidThenBelow(w: Tables, n: Node, p: Place, kind: RefKind, name: string, pos: nat)
    requires Placed(n.children, 0, InBody) && Stands(w, p)
    ensures Grew(w, BodyAll(AddRef(w, kind, name, pos), n.children, 0),
                 multiset{Said(kind, name, pos, p.row)} + Told(n.children, 0, p, true))
    decreases ListSize(n.children, 0), 5
  {
    hide Stands, Grew, ListSize, NodeSize, AddRef, Told;
    var g, f := AddRef(w, kind, name, pos), multiset{Said(kind, name, pos, p.row)};
    RefSays(w, p, kind, name, pos);
    StillStands(w, g, p, f);
    BodyAllTold(g, n.children, 0, p);
    GrewTwice(w, g, BodyAll(g, n.children, 0), f, Told(n.children, 0, p, true));
  }

  /** A body, walked for its signature. */
  lemma {:induction false} WalkBodyTold(w: Tables, ns: seq<Node>, i: nat, p: Place, at: Where)
    requires i < |ns| && IsSignature(ns[i].kind) && Placed(ns, i, at) && Stands(w, Enter(p, ns[i]))
    ensures Grew(w, WalkBody(w, ns, i), Inside(ns, i, p))
    decreases ListSize(ns, i), 0
  {
    hide Stands, Grew, ListSize, NodeSize, Told, Enter;
    StandsTabled(w, Enter(p, ns[i]));
    SizeShrinks(ns, i);
    if HasBody(ns, i) {
      SizeBelow(ns, i + 1, 0);
      BodyAllTold(w, ns[i + 1].children, 0, Enter(p, ns[i]));
    } else {
      GrewNot(w);
    }
  }

  lemma {:induction false} DeclareTold(w: Tables, ns: seq<Node>, i: nat, kind: DeclKind, p: Place, at: Where)
    requires i < |ns| && IsSignature(ns[i].kind) && Placed(ns, i, at) && Stands(w, p)
    requires MakesRow(ns[i]) && Declared(ns[i]) == Id(kind, ns[i].kind.name, ns[i].kind.line)
    ensures Grew(w, Declare(w, ns, i, kind), Own(ns[i], p) + Inside(ns, i, p))
    decreases ListSize(ns, i), 1
  {
    hide Stands, Grew, Inside, Enter, RowIn;
    var k := ns[i].kind;
    var made := AddRow(w, kind, k.name, k.line, ns[i].pos);
    var entered := DartWalk.Enter(made, kind, k.name, |w.rows|);
    RowMade(w, p, ns[i], kind, k.name, k.line);
    EnterStands(w, p, ns[i], kind, k.name, k.line);
    WalkBodyTold(entered, ns, i, p, at);
    LeftAgain(w, made, entered, WalkBody(entered, ns, i), Own(ns[i], p), Inside(ns, i, p));
  }

  lemma {:induction false} FunctionTold(w: Tables, ns: seq<Node>, i: nat, p: Place, at: Where)
    requires i < |ns| && ns[i].kind.FunctionSignature? && Placed(ns, i, at) && Stands(w, p)
    ensures Grew(w, ExtractFunction(w, ns, i), Own(ns[i], p) + Inside(ns, i, p))
    decreases ListSize(ns, i), 2
  {
    hide Stands, Grew, Inside, RowIn;
    if MakesRow(ns[i]) {
      DeclareTold(w, ns, i, Function, p, at);
    } else {
      WalkBodyTold(w, ns, i, p, at);
      NothingOwn(Inside(ns, i, p));
    }
  }

  lemma NothingOwn(f: multiset<Fact>)
    ensures multiset{} + f == f && f + multiset{} == f
  {}

  // ---------------------------------------------------------------- the enclosing walk

  lemma {:induction false} MethodTold(w: Tables, ns: seq<Node>, i: nat, p: Place, at: Where)
    requires i < |ns| && ns[i].kind.MethodSignature? && Placed(ns, i, at) && Stands(w, p) && InsideClassLike(w.stack)
    ensures Grew(w, ExtractMethod(w, ns, i), Own(ns[i], p) + Inside(ns, i, p))
  {
    hide Stands, Grew, Inside, RowIn;
    if MakesRow(ns[i]) {
      DeclareTold(w, ns, i, Method, p, at);
    } else {
      WalkBodyTold(w, ns, i, p, at);
      NothingOwn(Inside(ns, i, p));
    }
  }

  lemma {:induction false} VisitAllTold(w: Tables, ns: seq<Node>, i: nat, p: Place, at: Where)
    requires Placed(ns, i, at) && Fits(at, w.stack) && at != InEnum && Stands(w, p)
    ensures Grew(w, VisitAll(w, ns, i), Told(ns, i, p, false))
    decreases ListSize(ns, i), 6
  {
    hide Stands, Grew, ToldAt, Visit, ListSize, NodeSize;
    StandsTabled(w, p);
    if i < |ns| {
      SizeShrinks(ns, i);
      var next := Visit(w, ns, i);
      VisitTold(w, ns, i, p, at);
      NodeKeepsStack(w, ns, i);
      StillStands(w, next, p, ToldAt(ns, i, p, false));
      VisitAllTold(next, ns, i + 1, p, at);
      GrewTwice(w, next, VisitAll(next, ns, i + 1), ToldAt(ns, i, p, false), Told(ns, i + 1, p, false));
    } else {
      GrewNot(w);
    }
  }

  lemma {:induction false} EnumAllTold(w: Tables, ns: seq<Node>, i: nat, p: Place)
    requires Placed(ns, i, InEnum) && Fits(InEnum, w.stack) && Stands(w, p)
    ensures Grew(w, EnumAll(w, ns, i), Told(ns, i, p, false))
    decreases ListSize(ns, i), 6
  {
    hide Stands, Grew, ToldAt, VisitMember, ListSize, NodeSize;
    StandsTabled(w, p);
    if i < |ns| {
      SizeShrinks(ns, i);
      var next := VisitMember(w, ns, i);
      MemberTold(w, ns, i, p);
      MemberKeepsStack(w, ns, i);
      StillStands(w, next, p, ToldAt(ns, i, p, false));
      EnumAllTold(next, ns, i + 1, p);
      GrewTwice(w, next, EnumAll(next, ns, i + 1), ToldAt(ns, i, p, false), Told(ns, i + 1, p, false));
    } else {
      GrewNot(w);
    }
  }

  lemma {:induction false} MemberTold(w: Tables, ns: seq<Node>, i: nat, p: Place)
    requires i < |ns| && Placed(ns, i, InEnum) && Fits(InEnum, w.stack) && Stands(w, p)
    ensures Grew(w, VisitMember(w, ns, i), ToldAt(ns, i, p, false))
    decreases ListSize(ns, i), 5, 3
  {
    hide Stands, Grew, Inside, RowIn, ListSize, NodeSize, Told;
    StandsTabled(w, p);
    var k := ns[i].kind;
    if k.EnumConstant? {
      NothingOwn(Own(ns[i], p));
      if k.name == "" {
        GrewNot(w);
      } else {
        RowMade(w, p, ns[i], EnumMember, k.name, k.line);
      }
    } else {
      VisitTold(w, ns, i, p, InEnum);
    }
  }

  lemma {:induction false} VisitTold(w: Tables, ns: seq<Node>, i: nat, p: Place, at: Where)
    requires i < |ns| && Placed(ns, i, at) && Fits(at, w.stack) && !ns[i].kind.EnumConstant? && Stands(w, p)
    ensures Grew(w, Visit(w, ns, i), ToldAt(ns, i, p, false))
    decreases ListSize(ns, i), 5, 2
  {
    hide Stands, Grew, Inside, RowIn, ListSize, NodeSize, Told, VisitAll, EnumAll, Enter, ExtractMethod, ExtractFunction;
    var n := ns[i];
    StandsTabled(w, p);
    NothingOwn(Own(n, p));
    match n.kind
    case FunctionSignature(_, _, _) => FunctionTold(w, ns, i, p, at);
    case MethodSignature(_, _, _) => MethodTold(w, ns, i, p, at);
    case StaticFinal(name, line) => RowMade(w, p, n, Constant, name, line);
    case ImportOrExport(target, line) => ImportTold(w, n, p);
    case ClassDefinition(_, _) => TypeTold(w, ns, i, p, at);
    case EnumDeclaration(_, _, _) => TypeTold(w, ns, i, p, at);
    case EnumConstant(_, _) =>
    case _ => ThroughTold(w, ns, i, p, at);
  }

  lemma ImportTold(w: Tables, n: Node, p: Place)
    requires n.kind.ImportOrExport? && Stands(w, p)
    ensures Grew(w, AddImport(w, n.kind.target, n.kind.line, n.pos), Own(n, p))
  {
    hide Stands, Grew, RowIn, AddRow, AddRef;
    StandsTabled(w, p);
    var target, line := n.kind.target, n.kind.line;
    if target == "" {
      GrewNot(w);
    } else {
      var made := AddRow(w, Import, target, line, n.pos);
      var a, b := multiset{Made(RowIn(p, n), p.row)}, multiset{Said(Imports, target, n.pos, p.row)};
      RowMade(w, p, n, Import, target, line);
      StillStands(w, made, p, a);
      RefSays(made, p, Imports, target, n.pos);
      GrewTwice(w, made, AddRef(made, Imports, target, n.pos), a, b);
      assert a + b == Own(n, p);
    }
  }

  /** What the walk does at a node before it goes on to the children in the same scope. */
  function First(w: Tables, n: Node): Tables {
    match n.kind
    case AliasDeclaration(name, line) => AddAlias(w, name, line, n.pos)
    case New(c) => if c == "" then w else AddRef(w, Instantiates, c, n.pos)
    case _ => w
  }

  lemma FirstTold(w: Tables, n: Node, p: Place, at: Where)
    requires WalkedThrough(n.kind) && Stands(w, p) && (n.kind.AliasDeclaration? ==> n.kind.name != "")
    ensures Grew(w, First(w, n), if InBodiesOnly(n) then multiset{} else Own(n, p))
  {
    hide Stands, Grew, RowIn, AddRow, AddRef;
    StandsTabled(w, p);
    GrewNot(w);
    match n.kind
    case AliasDeclaration(name, line) =>
      if name != "<anonymous>" {
        RowMade(w, p, n, TypeAlias, name, line);
      }
    case New(c) => RefSays(w, p, Instantiates, c, n.pos);
    case _ =>
  }

  lemma VisitedThrough(w: Tables, ns: seq<Node>, i: nat)
    requires i < |ns| && WalkedThrough(ns[i].kind) && w.stack != []
    ensures Visit(w, ns, i) == VisitAll(First(w, ns[i]), ns[i].children, 0)
  {
    hide VisitAll;
  }

  lemma {:induction false} ThroughTold(w: Tables, ns: seq<Node>, i: nat, p: Place, at: Where)
    requires i < |ns| && Placed(ns, i, at) && Fits(at, w.stack) && WalkedThrough(ns[i].kind) && Stands(w, p)
    ensures Grew(w, Visit(w, ns, i), ToldAt(ns, i, p, false))
    decreases ListSize(ns, i), 5, 1
  {
    hide Stands, Grew, RowIn, ListSize, NodeSize, Told, VisitAll, Visit, First, Enter, Own;
    SizeBelow(ns, i, 0);
    var n := ns[i];
    var own, below := if InBodiesOnly(n) then multiset{} else Own(n, p), Told(n.children, 0, p, false);
    StandsTabled(w, p);
    FirstTold(w, n, p, at);
    VisitedThrough(w, ns, i);
    StillStands(w, First(w, n), p, own);
    GrewStack(w, First(w, n), own);
    var place := if n.kind.FunctionBody? then InBody else if n.kind.AliasDeclaration? then at else Below(at);
    VisitAllTold(First(w, n), n.children, 0, p, place);
    GrewTwice(w, First(w, n), VisitAll(First(w, n), n.children, 0), own, below);
  }

  lemma GrewStack(w: Tables, g: Tables, f: multiset<Fact>)
    requires Grew(w, g, f)
    ensures g.stack == w.stack
  {}

  /** A class or an enum: its row, and what is inside its scope. */
  lemma {:induction false} TypeTold(w: Tables, ns: seq<Node>, i: nat, p: Place, at: Where)
    requires i < |ns| && Placed(ns, i, at) && Fits(at, w.stack) && Stands(w, p)
    requires ns[i].kind.ClassDefinition? || ns[i].kind.EnumDeclaration?
    ensures Grew(w, Visit(w, ns, i), ToldAt(ns, i, p, false))
    decreases ListSize(ns, i), 5, 1
  {
    hide Stands, Grew, RowIn, ListSize, NodeSize, Told, VisitAll, EnumAll, AddRow, Enter;
    SizeBelow(ns, i, 0);
    var n := ns[i];
    StandsTabled(w, p);
    if n.kind.EnumDeclaration? && !n.kind.hasBody {
      GrewNot(w);
      NothingOwn(multiset{});
    } else {
      var kind: DeclKind := if n.kind.ClassDefinition? then Class else Enum;
      var made := AddRow(w, kind, n.kind.name, n.kind.line, n.pos);
      var entered := DartWalk.Enter(made, kind, n.kind.name, |w.rows|);
      var inner := Told(n.children, 0, Enter(p, n), false);
      RowMade(w, p, n, kind, n.kind.name, n.kind.line);
      EnterStands(w, p, n, kind, n.kind.name, n.kind.line);
      EnteredFits(made, kind, n.kind.name, |w.rows|);
      if n.kind.ClassDefinition? {
        VisitAllTold(entered, n.children, 0, Enter(p, n), InClass);
        LeftAgain(w, made, entered, VisitAll(entered, n.children, 0), Own(n, p), inner);
      } else {
        EnumAllTold(entered, n.children, 0, Enter(p, n));
        LeftAgain(w, made, entered, EnumAll(entered, n.children, 0), Own(n, p), inner);
      }
    }
  }

  lemma EnteredFits(w: Tables, kind: DeclKind, name: string, row: nat)
    requires kind == Class || kind == Enum
    ensures var g := DartWalk.Enter(w, kind, name, row);
            Fits(InClass, g.stack) && Fits(InEnum, g.stack) && g == w.(stack := g.stack)
  {}

  // ---------------------------------------------------------------- site by site

  lemma {:induction false} SayAppend(a: seq<Site>, b: seq<Site>, p: Place, within: bool)
    ensures SitesSay(a + b, p, within) == SitesSay(a, p, within) + SitesSay(b, p, within)
    decreases |a|
  {
    if a == [] {
      assert a + b == b;
    } else {
      assert (a + b)[1..] == a[1..] + b;
      SayAppend(a[1..], b, p, within);
    }
  }

  lemma {:induction false} OwnAppend(n: Node, a: seq<Place>, b: seq<Place>)
    ensures OwnFrom(n, a + b) == OwnFrom(n, a) + OwnFrom(n, b)
    decreases |a|
  {
    if a == [] {
      assert a + b == b;
    } else {
      assert (a + b)[1..] == a[1..] + b;
      OwnAppend(n, a[1..], b);
    }
  }

  lemma UnderStep(f: Frame, sites: seq<Site>)
    requires sites != []
    ensures Under(f, sites) == [Site(sites[0].node, [f] + sites[0].frames)] + Under(f, sites[1..])
  {}

  /** Around a type, sites are recorded from inside it; around a body, from inside it and from where it stands. */
  lemma {:induction false} UnderSays(f: Frame, sites: seq<Site>, p: Place, within: bool)
    ensures SitesSay(Under(f, sites), p, within)
         == if f.OfType? then SitesSay(sites, Enter(p, f.node), within)
            else SitesSay(sites, Enter(p, f.node), true) + SitesSay(sites, p, within)
    decreases |sites|
  {
    hide Enter, Own, OwnFrom;
    if sites == [] {
      assert Under(f, sites) == [];
    } else {
      var n, frames := sites[0].node, sites[0].frames;
      UnderStep(f, sites);
      UnderSays(f, sites[1..], p, within);
      var need := !within && InBodiesOnly(n);
      assert ([f] + frames)[1..] == frames;
      OwnAppend(n, Homes(Enter(p, f.node), frames, false), Homes(p, frames, need));
    }
  }

  lemma OneSite(n: Node, p: Place, within: bool)
    ensures SitesSay([Site(n, [])], p, within) == if !within && InBodiesOnly(n) then multiset{} else Own(n, p)
  {
    assert [Site(n, [])][1..] == [];
    assert OwnFrom(n, []) == multiset{};
    assert [p][1..] == [];
  }

  /** The sites below a node, in their frame. */
  function Around(ns: seq<Node>, i: nat): seq<Site>
    requires i < |ns|
    decreases ListSize(ns, i), 0
  {
    SizeBelow(ns, i, 0);
    var below := if Entered(ns[i].kind) then Sites(ns[i].children, 0) else [];
    if ns[i].kind.ClassDefinition? || ns[i].kind.EnumDeclaration? then Under(OfType(ns[i]), below)
    else if Paired(ns, i) then Under(OfBody(ns[i - 1]), below)
    else below
  }

  lemma SitesStep(ns: seq<Node>, i: nat)
    requires i < |ns|
    ensures Sites(ns, i) == [Site(ns[i], [])] + Around(ns, i) + Sites(ns, i + 1)
  {}

  /** What is told in the order of the walk is what the sites say; a body's inside was told at its signature. */
  lemma {:induction false} ToldIsSaid(ns: seq<Node>, i: nat, p: Place, within: bool)
    ensures Told(ns, i, p, within) + (if Paired(ns, i) then Inside(ns, i - 1, p) else multiset{})
         == SitesSay(Sites(ns, i), p, within)
    decreases ListSize(ns, i)
  {
    if i < |ns| {
      hide Own, Enter, ListSize, NodeSize, SitesSay, Sites, Told;
      SizeBelow(ns, i, 0);
      SizeShrinks(ns, i);
      var own, rest := [Site(ns[i], [])], Sites(ns, i + 1);
      SitesStep(ns, i);
      SayAppend(own + Around(ns, i), rest, p, within);
      SayAppend(own, Around(ns, i), p, within);
      OneSite(ns[i], p, within);
      AroundSays(ns, i, p, within);
      ToldIsSaid(ns, i + 1, p, within);
      ToldStep(ns, i, p, within);
    }
  }

  lemma ToldStep(ns: seq<Node>, i: nat, p: Place, within: bool)
    requires i < |ns|
    ensures Told(ns, i, p, within) == ToldAt(ns, i, p, within) + Told(ns, i + 1, p, within)
  {}

  /** What the walk says below a node that is no signature. */
  function ToldBelow(ns: seq<Node>, i: nat, p: Place, within: bool): multiset<Fact>
    requires i < |ns|
  {
    var n := ns[i];
    if !Entered(n.kind) then multiset{}
    else Told(n.children, 0, if n.kind.ClassDefinition? || n.kind.EnumDeclaration? then Enter(p, n) else p, within)
  }

  lemma {:induction false} AroundSays(ns: seq<Node>, i: nat, p: Place, within: bool)
    requires i < |ns|
    ensures SitesSay(Around(ns, i), p, within)
         == ToldBelow(ns, i, p, within) + if Paired(ns, i) then Inside(ns, i - 1, p) else multiset{}
    decreases ListSize(ns, i), 0
  {
    hide Own, Enter, ListSize, NodeSize, Told, Sites;
    SizeBelow(ns, i, 0);
    var n := ns[i];
    if Entered(n.kind) {
      var below := Sites(n.children, 0);
      hide SitesSay;
      if n.kind.ClassDefinition? || n.kind.EnumDeclaration? {
        UnderSays(OfType(n), below, p, within);
        ToldIsSaid(n.children, 0, Enter(p, n), within);
      } else if Paired(ns, i) {
        UnderSays(OfBody(ns[i - 1]), below, p, within);
        ToldIsSaid(n.children, 0, Enter(p, ns[i - 1]), true);
        ToldIsSaid(n.children, 0, p, within);
      } else {
        ToldIsSaid(n.children, 0, p, within);
      }
    } else {
      assert SitesSay([], p, within) == multiset{};
    }
  }

  // ---------------------------------------------------------------- the theorem

  function FilePlace(file: string): Place { Place(NodeRow(Id(File, file, 1), file, 0), "") }

  /**
   * The tables of every Dart file, exactly: each site that the walk looks at is
   * recorded once from each of its homes, under its own name and position; what
   * only bodies record, not from outside all of them.
   */
  lemma DartFactsExact(root: seq<Node>, file: string)
    requires Placed(root, 0, Top)
    ensures var g := VisitAll(Start(file), root, 0);
            Tabled(g) && Facts(g) == SitesSay(Sites(root, 0), FilePlace(file), false)
  {
    hide Sites, SitesSay, Told, VisitAll, Facts;
    var start := Start(file);
    FileStands(file);
    VisitAllTold(start, root, 0, FilePlace(file), Top);
    ToldIsSaid(root, 0, FilePlace(file), false);
  }

  lemma FileStands(file: string)
    ensures Stands(Start(file), FilePlace(file)) && Facts(Start(file)) == multiset{}
  {
    assert Path([]) == "";
    assert SaidBy(Start(file)) == [] && MadeBy(Start(file)) == [];
  }

  // ---------------------------------------------------------------- which declarations the homes are

  /** A home is the row of a declaration around the site, or the file's; those inside it are named after it. */
  predicate Encloses(h: Place, p: Place, frames: seq<Frame>) {
    h == p || (h.path == h.row.qualified
               && exists f <- frames :: MakesRow(f.node) && h.row.id == Declared(f.node) && h.row.pos == f.node.pos)
  }

  lemma EnclosesMore(h: Place, q: Place, p: Place, f: Frame, frames: seq<Frame>)
    requires Encloses(h, q, frames) && (q == p || q == Enter(p, f.node))
    ensures Encloses(h, p, [f] + frames)
  {
    var all := [f] + frames;
    assert f in all && forall g <- frames :: g in all;
  }

  lemma {:induction false} HomesEnclose(p: Place, frames: seq<Frame>, inBody: bool, h: Place)
    requires h in Homes(p, frames, inBody)
    ensures Encloses(h, p, frames)
    decreases |frames|
  {
    hide Enter, Encloses;
    if frames == [] {
      HomeItself(p);
    } else {
      assert [frames[0]] + frames[1..] == frames;
      var q := Enter(p, frames[0].node);
      if h in Homes(q, frames[1..], if frames[0].OfType? then inBody else false) {
        HomesEnclose(q, frames[1..], if frames[0].OfType? then inBody else false, h);
        EnclosesMore(h, q, p, frames[0], frames[1..]);
      } else {
        HomesEnclose(p, frames[1..], inBody, h);
        EnclosesMore(h, p, p, frames[0], frames[1..]);
      }
    }
  }

  lemma HomeItself(p: Place)
    ensures Encloses(p, p, [])
  {}

  /** Some site said it, from one of its homes. */
  lemma {:induction false} SaidBySite(sites: seq<Site>, p: Place, within: bool, f: Fact) returns (s: Site, h: Place)
    requires f in SitesSay(sites, p, within)
    ensures s in sites && h in Homes(p, s.frames, !within && InBodiesOnly(s.node)) && f in Own(s.node, h)
    decreases |sites|
  {
    hide Own, Enter;
    s := sites[0];
    var homes := Homes(p, s.frames, !within && InBodiesOnly(s.node));
    if f in OwnFrom(s.node, homes) {
      h := SaidFromHome(s.node, homes, f);
    } else {
      s, h := SaidBySite(sites[1..], p, within, f);
    }
  }

  lemma {:induction false} SaidFromHome(n: Node, homes: seq<Place>, f: Fact) returns (h: Place)
    requires f in OwnFrom(n, homes)
    ensures h in homes && f in Own(n, h)
    decreases |homes|
  {
    hide Own;
    if f in Own(n, homes[0]) {
      h := homes[0];
    } else {
      h := SaidFromHome(n, homes[1..], f);
    }
  }

  /** Every reference carries the name and position of its site, and comes from a row of a declaration around it. */
  lemma ReferenceHome(root: seq<Node>, file: string, k: nat) returns (s: Site, h: Place)
    requires Placed(root, 0, Top) && k < |VisitAll(Start(file), root, 0).refs|
    ensures var g := VisitAll(Start(file), root, 0);
            var r := g.refs[k];
            && r.from < |g.rows| && g.rows[r.from] == h.row
            && s in Sites(root, 0) && Said(r.kind, r.name, r.pos, h.row) in Own(s.node, h)
            && Encloses(h, FilePlace(file), s.frames)
  {
    hide Sites, Homes, SitesSay, Own, Encloses, VisitAll;
    DartFactsExact(root, file);
    var g := VisitAll(Start(file), root, 0);
    var f := Said(g.refs[k].kind, g.refs[k].name, g.refs[k].pos, g.rows[g.refs[k].from]);
    assert SaidBy(g)[k] == f;
    assert f in multiset(SaidBy(g));
    s, h := SaidBySite(Sites(root, 0), FilePlace(file), false, f);
    OwnHome(s.node, h, f);
    HomesEnclose(FilePlace(file), s.frames, InBodiesOnly(s.node), h);
  }

  lemma OwnHome(n: Node, h: Place, f: Fact)
    requires f in Own(n, h)
    ensures f.home == h.row && (f.Made? ==> f.row == RowIn(h, n) && MakesRow(n))
  {
    hide RowIn;
  }

  /** Every row is contained, once, in a row of a declaration around its own, and named after that one. */
  lemma RowHome(root: seq<Node>, file: string, k: nat) returns (s: Site, h: Place)
    requires Placed(root, 0, Top) && 0 < k < |VisitAll(Start(file), root, 0).rows|
    ensures var g := VisitAll(Start(file), root, 0);
            && |g.edges| == |g.rows| - 1 && g.edges[k - 1].target == k && g.edges[k - 1].source < |g.rows|
            && g.rows[g.edges[k - 1].source] == h.row
            && s in Sites(root, 0) && MakesRow(s.node) && g.rows[k] == RowIn(h, s.node)
            && Encloses(h, FilePlace(file), s.frames)
  {
    hide Sites, Homes, SitesSay, Own, Encloses, VisitAll, RowIn;
    DartFactsExact(root, file);
    var g := VisitAll(Start(file), root, 0);
    var f := Made(g.rows[k], g.rows[g.edges[k - 1].source]);
    assert MadeBy(g)[k - 1] == f;
    assert f in multiset(MadeBy(g));
    s, h := SaidBySite(Sites(root, 0), FilePlace(file), false, f);
    OwnHome(s.node, h, f);
    HomesEnclose(FilePlace(file), s.frames, InBodiesOnly(s.node), h);
  }

  // ---------------------------------------------------------------- when it is the innermost

  function Bodies(frames: seq<Frame>): nat {
    if frames == [] then 0 else (if frames[0].OfBody? then 1 else 0) + Bodies(frames[1..])
  }

  /** Every body around a site doubles its homes. */
  lemma {:induction false} HomeCount(p: Place, frames: seq<Frame>, inBody: bool)
    ensures |Homes(p, frames, inBody)| == Pow2(Bodies(frames)) - if inBody then 1 else 0
    decreases |frames|
  {
    hide Enter;
    if frames != [] {
      var q := Enter(p, frames[0].node);
      if frames[0].OfType? {
        HomeCount(q, frames[1..], inBody);
      } else {
        HomeCount(q, frames[1..], false);
        HomeCount(p, frames[1..], inBody);
      }
    }
  }

  /** Every home is the row of the last frame. */
  predicate AllLast(homes: seq<Place>, pos: nat) { forall h <- homes :: h.row.pos == pos }

  lemma AllLastJoin(a: seq<Place>, b: seq<Place>, pos: nat)
    ensures AllLast(a + b, pos) <==> AllLast(a, pos) && AllLast(b, pos)
  {
    if AllLast(a + b, pos) {
      assert forall h <- a :: h in a + b;
      assert forall h <- b :: h in a + b;
    }
  }

  /**
   * A site is recorded from its innermost declaration alone exactly if that is a
   * type, or the site is one that only bodies record and stands in one body.
   */
  lemma {:induction false} InnermostExactly(p: Place, frames: seq<Frame>, inBody: bool)
    requires frames != [] && (forall f <- frames :: MakesRow(f.node))
    requires var last := frames[|frames| - 1].node.pos;
             p.row.pos != last && forall k :: 0 <= k < |frames| - 1 ==> frames[k].node.pos != last
    ensures AllLast(Homes(p, frames, inBody), frames[|frames| - 1].node.pos)
       <==> frames[|frames| - 1].OfType? || (inBody && Bodies(frames) == 1)
    decreases |frames|
  {
    hide RowIn, Pow2;
    var f, rest, last := frames[0], frames[1..], frames[|frames| - 1].node.pos;
    var q := Enter(p, f.node);
    EnterAt(p, f.node);
    if rest == [] {
      assert frames == [f] && Homes(q, rest, false) == [q] && Homes(p, rest, inBody) == if inBody then [] else [p];
      AllLastJoin([q], Homes(p, rest, inBody), last);
      if f.OfBody? && !inBody {
        assert p in Homes(p, rest, inBody);
      }
    } else {
      assert rest[|rest| - 1] == frames[|frames| - 1];
      assert forall k :: 0 <= k < |rest| - 1 ==> rest[k] == frames[k + 1];
      if f.OfType? {
        InnermostExactly(q, rest, inBody);
      } else {
        InnermostExactly(q, rest, false);
        InnermostExactly(p, rest, inBody);
        AllLastJoin(Homes(q, rest, false), Homes(p, rest, inBody), last);
        BodyCounted(rest);
      }
    }
  }

  lemma EnterAt(p: Place, n: Node)
    requires MakesRow(n)
    ensures Enter(p, n).row.pos == n.pos
  {}

  lemma {:induction false} BodyCounted(frames: seq<Frame>)
    requires frames != []
    ensures frames[|frames| - 1].OfBody? ==> Bodies(frames) >= 1
    decreases |frames|
  {
    if |frames| > 1 {
      BodyCounted(frames[1..]);
    }
  }

  /**
   * It often is not: `void main() { new Foo(); }` records the instantiation from
   * `main`, whose body the walk of its signature enters, and again from the file,
   * whose walk comes to the same body as the signature's sibling.
   */
  lemma RecordedTwice(file: string)
    ensures var made := Node(New("Foo"), 2, []);
            var root := [Node(FunctionSignature("main", 1, false), 0, []), Node(FunctionBody, 1, [made])];
            VisitAll(Start(file), root, 0).refs == [RefRow(1, Instantiates, "Foo", 2), RefRow(0, Instantiates, "Foo", 2)]
  {
    var made := Node(New("Foo"), 2, []);
    var body := Node(FunctionBody, 1, [made]);
    var root := [Node(FunctionSignature("main", 1, false), 0, []), body];
    var start := Start(file);
    var entered := DartWalk.Enter(AddRow(start, Function, "main", 1, 0), Function, "main", 1);
    OneNew(entered, made, 2);
    assert VisitBody(entered, root, 1) == AddRef(entered, Instantiates, "Foo", 2);
    var first := Visit(start, root, 0);
    assert WalkBody(entered, root, 0) == AddRef(entered, Instantiates, "Foo", 2);
    assert "main"[0] != "<anonymous>"[0];
    assert first == ExtractFunction(start, root, 0) == Declare(start, root, 0, Function);
    assert first == Back(AddRef(entered, Instantiates, "Foo", 2), start.stack);
    OneNew(first, made, 2);
    assert Visit(first, root, 1) == AddRef(first, Instantiates, "Foo", 2);
    VisitNext(start, root, 0);
    VisitNext(first, root, 1);
    VisitNext(AddRef(first, Instantiates, "Foo", 2), root, 2);
  }

  lemma VisitNext(w: Tables, ns: seq<Node>, i: nat)
    ensures VisitAll(w, ns, i) == if i >= |ns| then w else VisitAll(Visit(w, ns, i), ns, i + 1)
  {}

  lemma OneNew(w: Tables, made: Node, pos: nat)
    requires made == Node(New("Foo"), pos, []) && w.stack != []
    ensures BodyAll(w, [made], 0) == AddRef(w, Instantiates, "Foo", pos)
    ensures VisitAll(w, [made], 0) == AddRef(w, Instantiates, "Foo", pos)
  {
    var g := AddRef(w, Instantiates, "Foo", pos);
    assert BodyAll(g, [], 0) == g && VisitAll(g, [], 0) == g;
    assert VisitBody(w, [made], 0) == g && Visit(w, [made], 0) == g;
    assert BodyAll(g, [made], 1) == g && VisitAll(g, [made], 1) == g;
  }
}
